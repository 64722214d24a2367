/**
 * The CPE name decomposer `parse_cpe`: split the name on ':', pad the
 * segment list with eight empty strings, keep the first eight, drop segment 0
 * and name the remaining seven. It never fails, whatever the input.
 */
module CpeName {
  import opened PyStr

  const Colon: char := ':'

  /** The seven named fields `parse_cpe` returns, in the order of its dictionary. */
  datatype CpeFields = CpeFields(
    part: string,
    vendor: string,
    product: string,
    version: string,
    update: string,
    edition: string,
    language: string)

  /** Field number k of a decomposed name, 1 (part) through 7 (language). */
  function Field(c: CpeFields, k: nat): string
    requires 1 <= k <= 7
  {
    match k
    case 1 => c.part
    case 2 => c.vendor
    case 3 => c.product
    case 4 => c.version
    case 5 => c.update
    case 6 => c.edition
    case _ => c.language
  }

  /** The k-th (0-based) ':'-separated segment of `s`, or "" when `s` has fewer segments. */
  function Segment(s: string, k: nat): string
  {
    var parts := Split(s, Colon);
    if k < |parts| then parts[k] else ""
  }

  /** The segment list padded with eight empty strings and cut to eight entries. */
  function Padded(s: string): (p: seq<string>)
    ensures |p| == 8
  {
    (Split(s, Colon) + seq(8, _ => ""))[..8]
  }

  /** `parse_cpe`: the padded segments 1 through 7, named. */
  function ParseCpe(s: string): CpeFields
  {
    var p := Padded(s);
    CpeFields(p[1], p[2], p[3], p[4], p[5], p[6], p[7])
  }

  /**
   * `parse_cpe` is total: every string, the empty one included, yields all
   * seven fields; field k is the k-th segment of the name, or "" when that
   * segment is missing, and no field ever contains ':'.
   */
  lemma ParseCpeFields(s: string)
    ensures forall k :: 1 <= k <= 7 ==> Field(ParseCpe(s), k) == Segment(s, k)
    ensures forall k :: 1 <= k <= 7 ==> Colon !in Field(ParseCpe(s), k)
  {
    var parts, p := Split(s, Colon), Padded(s);
    SplitJoin(s, Colon);
    forall k | 1 <= k <= 7 ensures Field(ParseCpe(s), k) == Segment(s, k) {
      assert p[k] == (parts + seq(8, _ => ""))[k];
    }
  }

  /** The decomposition with every field empty. */
  const NoFields := CpeFields("", "", "", "", "", "", "")

  /** Two decompositions that agree on every numbered field are equal. */
  lemma FieldsDetermine(a: CpeFields, b: CpeFields)
    requires forall k :: 1 <= k <= 7 ==> Field(a, k) == Field(b, k)
    ensures a == b
  {
    assert Field(a, 1) == Field(b, 1) && Field(a, 2) == Field(b, 2);
    assert Field(a, 3) == Field(b, 3) && Field(a, 4) == Field(b, 4);
    assert Field(a, 5) == Field(b, 5) && Field(a, 6) == Field(b, 6);
    assert Field(a, 7) == Field(b, 7);
  }

  /** The text before the first ':' (segment 0) never affects the result. */
  lemma PrefixIgnored(p: string, q: string, rest: string)
    requires Colon !in p && Colon !in q
    ensures ParseCpe(p + [Colon] + rest) == ParseCpe(q + [Colon] + rest)
  {
    SplitConcat(p, rest, Colon);
    SplitConcat(q, rest, Colon);
    SplitSepFreeString(p, Colon);
    SplitSepFreeString(q, Colon);
    ParseCpeFields(p + [Colon] + rest);
    ParseCpeFields(q + [Colon] + rest);
    var a, b := ParseCpe(p + [Colon] + rest), ParseCpe(q + [Colon] + rest);
    forall k | 1 <= k <= 7 ensures Field(a, k) == Field(b, k) {
      assert Segment(p + [Colon] + rest, k) == Segment(q + [Colon] + rest, k);
    }
    FieldsDetermine(a, b);
  }

  /** Once a name has eight segments, anything appended after a further ':' is ignored. */
  lemma TailIgnored(s: string, x: string)
    requires |Split(s, Colon)| >= 8
    ensures ParseCpe(s + [Colon] + x) == ParseCpe(s)
  {
    SplitConcat(s, x, Colon);
    ParseCpeFields(s + [Colon] + x);
    ParseCpeFields(s);
    var a, b := ParseCpe(s + [Colon] + x), ParseCpe(s);
    forall k | 1 <= k <= 7 ensures Field(a, k) == Field(b, k) {
      assert Segment(s + [Colon] + x, k) == Segment(s, k);
    }
    FieldsDetermine(a, b);
  }

  /** A name without any ':' yields seven empty fields. */
  lemma NoColonAllEmpty(s: string)
    requires Colon !in s
    ensures ParseCpe(s) == NoFields
  {
    SplitSepFreeString(s, Colon);
    ParseCpeFields(s);
    var a := ParseCpe(s);
    forall k | 1 <= k <= 7 ensures Field(a, k) == Field(NoFields, k) {
      assert Segment(s, k) == "";
    }
    FieldsDetermine(a, NoFields);
  }

  /** The colon-joined name `prefix:part:vendor:...:language` of a decomposition. */
  function Format(prefix: string, c: CpeFields): string
  {
    Join([prefix, c.part, c.vendor, c.product, c.version, c.update, c.edition, c.language], Colon)
  }

  /** Fields free of ':' survive a round trip through their joined name, whatever the prefix. */
  lemma ParseFormat(prefix: string, c: CpeFields)
    requires Colon !in prefix
    requires forall k :: 1 <= k <= 7 ==> Colon !in Field(c, k)
    ensures ParseCpe(Format(prefix, c)) == c
  {
    var parts := [prefix, c.part, c.vendor, c.product, c.version, c.update, c.edition, c.language];
    assert forall k :: 1 <= k < 8 ==> parts[k] == Field(c, k);
    JoinSplit(parts, Colon);
    ParseCpeFields(Format(prefix, c));
    var a := ParseCpe(Format(prefix, c));
    forall k | 1 <= k <= 7 ensures Field(a, k) == Field(c, k) {
      assert Segment(Format(prefix, c), k) == parts[k];
    }
    FieldsDetermine(a, c);
  }

  /**
   * A name in the CPE 2.2 URI binding, "cpe:/" followed by the part, keeps
   * the '/' in the part field: "cpe:/a:apache:http_server:2.4.0" yields
   * part "/a", not "a". No percent-decoding or unpacking takes place.
   */
  lemma UriBindingPart(p: string, rest: string)
    requires Colon !in p
    ensures ParseCpe("cpe:/" + p + [Colon] + rest).part == "/" + p
  {
    var s := "cpe:/" + p + [Colon] + rest;
    var tail := "/" + p + [Colon] + rest;
    assert s == "cpe" + [Colon] + tail;
    SplitConcat("cpe", tail, Colon);
    SplitSepFreeString("cpe", Colon);
    assert "/" + p + [Colon] + rest == ("/" + p) + [Colon] + rest;
    SplitConcat("/" + p, rest, Colon);
    assert Colon !in "/" + p;
    SplitSepFreeString("/" + p, Colon);
    ParseCpeFields(s);
    assert Field(ParseCpe(s), 1) == Segment(s, 1);
  }
}

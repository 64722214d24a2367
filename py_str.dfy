/**
 * Python's `str.split(sep)` for a one-character separator, together with its
 * inverse `sep.join(parts)`.
 *
 * Python keeps every segment, empty ones included: a string with n separators
 * splits into exactly n + 1 segments, and `"".split(":")` is `[""]`.
 */
module PyStr {

  /** Number of occurrences of `c` in `s`. */
  function Occurrences(s: string, c: char): nat
  {
    if s == [] then 0 else (if s[0] == c then 1 else 0) + Occurrences(s[1..], c)
  }

  /** `sep.join(parts)`: the segments with one separator between neighbours. */
  function Join(parts: seq<string>, sep: char): string
  {
    if parts == [] then ""
    else if |parts| == 1 then parts[0]
    else parts[0] + [sep] + Join(parts[1..], sep)
  }

  /** No segment contains the separator. */
  predicate SepFree(parts: seq<string>, sep: char)
  {
    forall i :: 0 <= i < |parts| ==> sep !in parts[i]
  }

  /**
   * The segments of `s`, where `current` is the text of the segment being
   * read when `s` starts.
   */
  function SplitFrom(s: string, current: string, sep: char): seq<string>
  {
    if s == [] then [current]
    else if s[0] == sep then [current] + SplitFrom(s[1..], "", sep)
    else SplitFrom(s[1..], current + [s[0]], sep)
  }

  /** `s.split(sep)`. */
  function Split(s: string, sep: char): seq<string>
  {
    SplitFrom(s, "", sep)
  }

  /** Splitting a string with a known first character. */
  lemma SplitFromCons(c: char, s: string, current: string, sep: char)
    ensures SplitFrom([c] + s, current, sep) ==
      if c == sep then [current] + SplitFrom(s, "", sep) else SplitFrom(s, current + [c], sep)
  {
  }

  /** A string with n separators has n + 1 segments. */
  lemma {:induction false} SplitFromLength(s: string, current: string, sep: char)
    ensures |SplitFrom(s, current, sep)| == Occurrences(s, sep) + 1
  {
    if s != [] {
      if s[0] == sep {
        SplitFromLength(s[1..], "", sep);
      } else {
        SplitFromLength(s[1..], current + [s[0]], sep);
      }
    }
  }

  /** The number of segments of `s.split(sep)` is one more than the number of separators. */
  lemma SplitLength(s: string, sep: char)
    ensures |Split(s, sep)| == Occurrences(s, sep) + 1
  {
    SplitFromLength(s, "", sep);
  }

  /** The segments read after a separator-free `current` are separator-free and join back. */
  lemma {:induction false} SplitFromJoin(s: string, current: string, sep: char)
    requires sep !in current
    ensures SepFree(SplitFrom(s, current, sep), sep)
    ensures Join(SplitFrom(s, current, sep), sep) == current + s
  {
    if s == [] {
      assert current + s == current;
    } else if s[0] == sep {
      var t := SplitFrom(s[1..], "", sep);
      SplitFromJoin(s[1..], "", sep);
      SplitFromLength(s[1..], "", sep);
      assert [current] + t == SplitFrom(s, current, sep);
      assert ([current] + t)[1..] == t;
      assert current + s == current + [sep] + s[1..];
    } else {
      assert sep !in current + [s[0]];
      SplitFromJoin(s[1..], current + [s[0]], sep);
      assert current + [s[0]] + s[1..] == current + s;
    }
  }

  /**
   * The segments of `s` are free of the separator and join back to `s`:
   * together with JoinSplit, Split is the unique such decomposition.
   */
  lemma SplitJoin(s: string, sep: char)
    ensures SepFree(Split(s, sep), sep)
    ensures Join(Split(s, sep), sep) == s
  {
    SplitFromJoin(s, "", sep);
    assert "" + s == s;
  }

  /** A separator-free remainder only extends the current segment. */
  lemma {:induction false} SplitFromSepFree(s: string, current: string, sep: char)
    requires sep !in s
    ensures SplitFrom(s, current, sep) == [current + s]
  {
    if s == [] {
      assert current + s == current;
    } else {
      assert s[0] in s;
      assert forall k :: 0 <= k < |s[1..]| ==> s[1..][k] == s[k + 1];
      SplitFromSepFree(s[1..], current + [s[0]], sep);
      assert current + [s[0]] + s[1..] == current + s;
    }
  }

  /** A string without the separator is a single segment. */
  lemma SplitSepFreeString(s: string, sep: char)
    requires sep !in s
    ensures Split(s, sep) == [s]
  {
    SplitFromSepFree(s, "", sep);
    assert "" + s == s;
  }

  /** Reading across a separator closes the current segment and starts a fresh one. */
  lemma {:induction false} SplitFromConcat(a: string, b: string, current: string, sep: char)
    ensures SplitFrom(a + [sep] + b, current, sep) == SplitFrom(a, current, sep) + SplitFrom(b, "", sep)
  {
    if a == [] {
      assert a + [sep] + b == [sep] + b;
      SplitFromCons(sep, b, current, sep);
    } else {
      var a' := a[1..];
      assert a + [sep] + b == [a[0]] + (a' + [sep] + b);
      assert a == [a[0]] + a';
      SplitFromCons(a[0], a' + [sep] + b, current, sep);
      SplitFromCons(a[0], a', current, sep);
      if a[0] == sep {
        SplitFromConcat(a', b, "", sep);
      } else {
        SplitFromConcat(a', b, current + [a[0]], sep);
      }
    }
  }

  /** Splitting distributes over a separator: the segments of both sides are concatenated. */
  lemma SplitConcat(a: string, b: string, sep: char)
    ensures Split(a + [sep] + b, sep) == Split(a, sep) + Split(b, sep)
  {
    SplitFromConcat(a, b, "", sep);
  }

  /**
   * Split inverts Join: a non-empty list of separator-free segments is
   * recovered exactly from its join.
   */
  lemma {:induction false} JoinSplit(parts: seq<string>, sep: char)
    requires |parts| >= 1
    requires SepFree(parts, sep)
    ensures Split(Join(parts, sep), sep) == parts
  {
    SplitSepFreeString(parts[0], sep);
    if |parts| > 1 {
      JoinSplit(parts[1..], sep);
      SplitConcat(parts[0], Join(parts[1..], sep), sep);
    }
  }
}

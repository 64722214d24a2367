/**
 * The streaming converter `parse_xml`: walk the parser's (event, element)
 * stream, turn every closed `cpe-item` into a record with a fixed set of keys,
 * and append it to the CSV output as one row, writing the header row (the
 * first record's keys) just before the first data row.
 *
 * The XML parser is abstracted into the stream it produces: each event
 * carries the element it opens or closes, with the parts of it that
 * `parse_xml` reads. The CSV file is the sequence of rows written to it.
 */
module Converter {
  import opened Wrappers
  import opened CpeName

  /** The namespaced tag `iterparse` reports for a dictionary item. */
  const ItemTag: string := "{http://cpe.mitre.org/dictionary/2.0}cpe-item"

  /** The two kinds of event `parse_xml` asks `iterparse` for. */
  datatype EventKind = Start | End

  /** A `cpe:title` child; `text` is `None` when the element has no text. */
  datatype Title = Title(text: Option<string>)

  /** A `cpe:references/cpe:reference` child with its optional `href` attribute. */
  datatype Reference = Reference(href: Option<string>)

  /**
   * An element as `parse_xml` sees it: its tag, its `name` attribute, its first
   * `cpe:title` child (if any) and all its `cpe:references/cpe:reference`
   * descendants in document order.
   */
  datatype Element = Element(
    tag: string,
    name: Option<string>,
    title: Option<Title>,
    references: seq<Reference>)

  datatype Event = Event(kind: EventKind, elem: Element)

  /**
   * The parser's output: the events it delivers, and whether it then raises a
   * parse error (malformed XML) instead of reaching the end of the document.
   */
  datatype Stream = Stream(events: seq<Event>, malformed: bool)

  /** A value in a record: a string, Python's `None`, or the list of reference URLs. */
  datatype Value = Text(s: string) | Null | Hrefs(urls: seq<string>)

  /** The keys `parse_xml` puts in a record. */
  datatype Key = Name | Part | Vendor | Product | Version | Update | Edition | Language | TitleKey | References

  /** The text of a key, as it appears in the CSV header. */
  function KeyName(k: Key): string
  {
    match k
    case Name => "name"
    case Part => "part"
    case Vendor => "vendor"
    case Product => "product"
    case Version => "version"
    case Update => "update"
    case Edition => "edition"
    case Language => "language"
    case TitleKey => "title"
    case References => "references"
  }

  /** A record: the dictionary `parse_xml` builds, as its (key, value) pairs in insertion order. */
  type Record = seq<(Key, Value)>

  /** One line of the CSV file: the header (the writer's field names) or a data row. */
  datatype Row = HeaderRow(fieldnames: seq<Key>) | DataRow(cells: seq<Value>)

  /** The columns of the output, in order. */
  const Columns: seq<Key> :=
    [Name, Part, Vendor, Product, Version, Update, Edition, Language, TitleKey, References]

  /** The header text of the columns: the key names of the dictionary literal, in order. */
  lemma ColumnNames()
    ensures seq(|Columns|, i requires 0 <= i < |Columns| => KeyName(Columns[i]))
         == ["name", "part", "vendor", "product", "version", "update", "edition", "language", "title", "references"]
  {
  }

  /** `dict.get(key, default)` on the pair list. */
  function Get(d: Record, key: Key, default: Value): Value
  {
    if d == [] then default
    else if d[0].0 == key then d[0].1
    else Get(d[1..], key, default)
  }

  /** The keys of a record, in insertion order (`data_dict.keys()`). */
  function Keys(d: Record): seq<Key>
  {
    seq(|d|, i requires 0 <= i < |d| => d[i].0)
  }

  /** `elem.attrib.get("name", "")`. */
  function NameOf(e: Element): string
  {
    if e.name.Some? then e.name.value else ""
  }

  /** The title value: "" without a title child, the child's text otherwise (`None` when it has none). */
  function TitleOf(e: Element): Value
  {
    match e.title
    case None => Text("")
    case Some(t) => if t.text.Some? then Text(t.text.value) else Null
  }

  /** The `href` of each reference child, in document order, "" where it is missing. */
  function HrefsOf(refs: seq<Reference>): (urls: seq<string>)
    ensures |urls| == |refs|
    ensures forall i :: 0 <= i < |refs| ==>
      urls[i] == (if refs[i].href.Some? then refs[i].href.value else "")
  {
    if refs == [] then []
    else [if refs[0].href.Some? then refs[0].href.value else ""] + HrefsOf(refs[1..])
  }

  /** The dictionary `parse_xml` builds for a closed `cpe-item` element. */
  function BuildRecord(e: Element): Record
  {
    var name := NameOf(e);
    var c := ParseCpe(name);
    [(Name, Text(name)),
     (Part, Text(c.part)), (Vendor, Text(c.vendor)), (Product, Text(c.product)),
     (Version, Text(c.version)), (Update, Text(c.update)), (Edition, Text(c.edition)),
     (Language, Text(c.language)),
     (TitleKey, TitleOf(e)),
     (References, Hrefs(HrefsOf(e.references)))]
  }

  /**
   * The row `csv.DictWriter.writerow` emits: the record's value for each of
   * the writer's field names, in the writer's order (the writer's `restval`,
   * "", for a missing key).
   */
  function WriteRow(fieldnames: seq<Key>, d: Record): seq<Value>
  {
    seq(|fieldnames|, i requires 0 <= i < |fieldnames| => Get(d, fieldnames[i], Text("")))
  }

  /**
   * The data row an item produces, stated column by column: the name, its
   * seven `parse_cpe` fields, the title and the reference URLs.
   */
  function ItemRow(e: Element): seq<Value>
  {
    var c := ParseCpe(NameOf(e));
    [Text(NameOf(e)),
     Text(c.part), Text(c.vendor), Text(c.product), Text(c.version),
     Text(c.update), Text(c.edition), Text(c.language),
     TitleOf(e), Hrefs(HrefsOf(e.references))]
  }

  /** Whether the loop acts on an event: the end of a namespaced `cpe-item`. */
  predicate IsItemEnd(ev: Event)
  {
    ev.kind == End && ev.elem.tag == ItemTag
  }

  /** The elements of the item-closing events of a stream, in stream order. */
  function Items(events: seq<Event>): seq<Element>
  {
    if events == [] then []
    else
      var last := events[|events| - 1];
      Items(events[..|events| - 1]) + (if IsItemEnd(last) then [last.elem] else [])
  }

  /** One data row per item, in order. */
  function DataRows(items: seq<Element>): (rows: seq<Row>)
    ensures |rows| == |items|
  {
    if items == [] then []
    else DataRows(items[..|items| - 1]) + [DataRow(ItemRow(items[|items| - 1]))]
  }

  /** The CSV content for a list of items: the header, then one data row per item; nothing without items. */
  function Emit(items: seq<Element>): seq<Row>
  {
    if items == [] then [] else [HeaderRow(Columns)] + DataRows(items)
  }

  /** The CSV content after the loop has seen `events`. */
  function Output(events: seq<Event>): seq<Row>
  {
    Emit(Items(events))
  }

  /** `Get` finds the value stored under the first occurrence of a key. */
  lemma {:induction false} GetFirst(d: Record, j: nat, default: Value)
    requires j < |d|
    requires forall i :: 0 <= i < j ==> d[i].0 != d[j].0
    ensures Get(d, d[j].0, default) == d[j].1
  {
    if j > 0 {
      assert d[1..][j - 1] == d[j];
      GetFirst(d[1..], j - 1, default);
    }
  }

  /**
   * Every record has the same keys, in the same order (the columns of the
   * output), and writing it under those keys yields the item's row.
   */
  lemma RecordRow(e: Element)
    ensures Keys(BuildRecord(e)) == Columns
    ensures WriteRow(Columns, BuildRecord(e)) == ItemRow(e)
  {
    var d := BuildRecord(e);
    var cells, row := WriteRow(Columns, d), ItemRow(e);
    forall j | 0 <= j < 10 ensures cells[j] == row[j] {
      assert Columns[j] == d[j].0;
      GetFirst(d, j, Text(""));
    }
  }

  /** A single event contributes its element exactly when it closes an item. */
  lemma ItemsOfOne(ev: Event)
    ensures Items([ev]) == (if IsItemEnd(ev) then [ev.elem] else [])
  {
  }

  /** The items of a stream are those of its parts, in order. */
  lemma {:induction false} ItemsConcat(a: seq<Event>, b: seq<Event>)
    ensures Items(a + b) == Items(a) + Items(b)
  {
    if b == [] {
      assert a + b == a;
    } else {
      var last := b[|b| - 1];
      assert (a + b)[..|a + b| - 1] == a + b[..|b| - 1];
      ItemsConcat(a, b[..|b| - 1]);
    }
  }

  /** A stream with no item-closing event (start events, other tags) yields no item. */
  lemma {:induction false} NoItemEndNoItems(events: seq<Event>)
    requires forall i :: 0 <= i < |events| ==> !IsItemEnd(events[i])
    ensures Items(events) == []
  {
    if events != [] {
      NoItemEndNoItems(events[..|events| - 1]);
    }
  }

  /** Data row k is the row of item k. */
  lemma {:induction false} DataRowsAt(items: seq<Element>, k: nat)
    requires k < |items|
    ensures DataRows(items)[k] == DataRow(ItemRow(items[k]))
  {
    if k < |items| - 1 {
      DataRowsAt(items[..|items| - 1], k);
    }
  }

  /**
   * The shape of the output: no row at all without an item; otherwise exactly
   * one header row, first, followed by one data row per item in stream order.
   */
  lemma OutputShape(events: seq<Event>)
    ensures var n := |Items(events)|;
      |Output(events)| == (if n == 0 then 0 else n + 1)
    ensures forall k :: 0 <= k < |Output(events)| ==> (Output(events)[k].HeaderRow? <==> k == 0)
    ensures forall k :: 0 <= k < |Items(events)| ==>
      Output(events)[k + 1] == DataRow(ItemRow(Items(events)[k]))
  {
    var items, out := Items(events), Output(events);
    if items != [] {
      assert out == [HeaderRow(Columns)] + DataRows(items);
      forall k | 1 <= k < |out|
        ensures out[k] == DataRow(ItemRow(items[k - 1]))
      {
        DataRowsAt(items, k - 1);
      }
    }
  }

  /** One more event adds to the items only when it closes an item. */
  lemma ItemsSnoc(events: seq<Event>, ev: Event)
    ensures Items(events + [ev]) == Items(events) + (if IsItemEnd(ev) then [ev.elem] else [])
  {
  }

  /** One more item appends its row to the data rows. */
  lemma DataRowsSnoc(items: seq<Element>, e: Element)
    ensures DataRows(items + [e]) == DataRows(items) + [DataRow(ItemRow(e))]
  {
  }

  /** One more item appends its row, preceded by the header when it is the first. */
  lemma EmitSnoc(items: seq<Element>, e: Element)
    ensures Emit(items + [e]) ==
      (if items == [] then [HeaderRow(Columns)] else Emit(items)) + [DataRow(ItemRow(e))]
  {
  }

  /**
   * One more event changes the output only when it closes an item: then one
   * data row is appended, preceded by the header if it is the first item.
   */
  lemma OutputStep(events: seq<Event>, ev: Event)
    ensures !IsItemEnd(ev) ==> Output(events + [ev]) == Output(events)
    ensures IsItemEnd(ev) && Output(events) == [] ==>
      Output(events + [ev]) == [HeaderRow(Columns), DataRow(ItemRow(ev.elem))]
    ensures IsItemEnd(ev) && Output(events) != [] ==>
      Output(events + [ev]) == Output(events) + [DataRow(ItemRow(ev.elem))]
  {
    ItemsSnoc(events, ev);
    var items := Items(events);
    if !IsItemEnd(ev) {
      assert Items(events + [ev]) == items;
    } else {
      EmitSnoc(items, ev.elem);
      assert Output(events) == [] <==> items == [];
    }
  }

  /** How a conversion ends, with the rows the CSV file then holds. */
  datatype Conversion =
    | RootFailed                    // the first event could not be read; the CSV file was never opened
    | Completed(rows: seq<Row>)     // the whole document was converted
    | Aborted(rows: seq<Row>)       // a parse error ended the run; the rows written so far stay in the file

  /**
   * `parse_xml`. The first event (the document root's start) is taken apart
   * as `root` before the CSV file is opened; the loop then sees every later
   * event. The file holds the header and one row per closed `cpe-item`, in
   * stream order, or nothing at all when no item closes.
   */
  method ParseXml(stream: Stream) returns (r: Conversion)
    ensures stream.events == [] ==> r == RootFailed
    ensures stream.events != [] ==>
      r == (if stream.malformed then Aborted(Output(stream.events[1..]))
            else Completed(Output(stream.events[1..])))
  {
    if stream.events == [] {
      return RootFailed;
    }
    var rest := stream.events[1..];
    var rows: seq<Row> := [];
    var writer: Option<seq<Key>> := None;
    var headersSet := false;
    var i := 0;
    while i < |rest|
      invariant 0 <= i <= |rest|
      invariant rows == Output(rest[..i])
      invariant headersSet <==> rows != []
      invariant headersSet ==> writer == Some(Columns)
    {
      var ev := rest[i];
      assert rest[..i + 1] == rest[..i] + [ev];
      OutputStep(rest[..i], ev);
      if ev.kind == End && ev.elem.tag == ItemTag {
        var dataDict := BuildRecord(ev.elem);
        RecordRow(ev.elem);
        ghost var before := rows;
        if !headersSet {
          writer := Some(Keys(dataDict));
          rows := rows + [HeaderRow(writer.value)];
          headersSet := true;
        }
        rows := rows + [DataRow(WriteRow(writer.value, dataDict))];
        assert rows == (if before == [] then [HeaderRow(Columns)] else before) + [DataRow(ItemRow(ev.elem))];
      }
      assert rows == Output(rest[..i + 1]);
      i := i + 1;
    }
    assert rest[..i] == rest;
    r := if stream.malformed then Aborted(rows) else Completed(rows);
  }
}

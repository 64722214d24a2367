# cpe2csv, modelled in Dafny

`cpe2csv` converts the NVD CPE dictionary (an XML document with one
`cpe-item` element per product) into a CSV file with one row per item. It can
also fetch the dictionary archive from NVD first and delete the downloaded
files afterwards. This project models the three pieces of logic in
`cpe2csv.py` and proves what they guarantee:

- `PyStr` (`py_str.dfy`): Python's `str.split` on a one-character separator,
  with `sep.join` as its inverse.
- `CpeName` (`cpe_name.dfy`): `parse_cpe`. It splits a CPE name on `:`, pads
  the result with eight empty strings, keeps the first eight and names
  segments 1 to 7 (part, vendor, product, version, update, edition, language).
  It is total: there is no error path.
- `Converter` (`converter.dfy`): the `parse_xml` loop. The XML parser is
  represented by the stream of (start/end, element) events it delivers. Each
  element carries its tag, its optional `name` attribute, its first
  `cpe:title` child (whose text may be missing) and its
  `cpe:references/cpe:reference` children with optional `href`. `ParseXml` is
  a method with the source's `writer` and `headers_set` variables and a row
  sequence that grows by appending. It is proved equal to `Output`, a
  specification function: the header and then one row per closed `cpe-item`,
  or nothing at all when there is no item.
- `EntryPoint` (`entry_point.dfy`): the `__main__` block. `ResolveMode` picks
  Fetch, a local path, or a usage error. `Run` lists the steps a run performs
  (download, extract, convert, remove). It shows that cleanup happens only in
  update mode, and only when the conversion does not raise. The filesystem's
  existence test and the conversion's outcome per file are parameters.
- `Wrappers` (`wrappers.dfy`): `Option` and `Result`.

For the URI-bound name `cpe:/a:apache:http_server:2.4.0` the code discards
only the text before the first `:`, so `part` is `/a`, not `a`
(cpe2csv.py:15-16, `CpeName.UriBindingPart`).

## Model

| member | source | states |
|---|---|---|
| `PyStr.Split` | cpe2csv.py:15 | `str.split(":")`; its meaning is stated by `PyStr.SplitLength`, `PyStr.SplitJoin` and `PyStr.JoinSplit` |
| `PyStr.SplitLength` | cpe2csv.py:15 | `split(":")` gives one more segment than there are colons, so `""` gives one (empty) segment |
| `PyStr.SplitJoin` | cpe2csv.py:15 | no segment contains the separator, and joining the segments with it gives back the input |
| `PyStr.JoinSplit` | cpe2csv.py:15 | splitting the join of separator-free segments gives those segments back: the split is the unique such decomposition |
| `PyStr.SplitSepFreeString` | cpe2csv.py:15 | a string without the separator is a single segment equal to itself |
| `PyStr.SplitConcat` | cpe2csv.py:15 | splitting `a + ":" + b` gives the segments of `a` followed by those of `b`; empty segments are kept |
| `CpeName.ParseCpe` | cpe2csv.py:13-25 | `parse_cpe`; its contract is `CpeName.ParseCpeFields`: total, field k is segment k or `""` |
| `CpeName.Padded` | cpe2csv.py:15 | padding with eight empty strings and slicing `[:8]` always gives exactly eight entries |
| `CpeName.ParseCpeFields` | cpe2csv.py:13-25 | for every string, field k (1..7) is the k-th `:`-separated segment when it exists and `""` otherwise, and no field contains `:` |
| `CpeName.PrefixIgnored` | cpe2csv.py:15-16 | the text before the first `:` (segment 0, discarded) never affects the result |
| `CpeName.TailIgnored` | cpe2csv.py:15-16 | once a name has at least eight segments, appending `":" + x` leaves the result unchanged |
| `CpeName.NoColonAllEmpty` | cpe2csv.py:15-16 | a name without `:` yields all seven fields empty |
| `CpeName.ParseFormat` | cpe2csv.py:15-25 | seven colon-free fields joined behind any colon-free prefix decompose back to the same seven fields |
| `CpeName.UriBindingPart` | cpe2csv.py:15-18 | for a URI-bound name `cpe:/<p>:...` the part field is `"/" + p`, with the slash kept |
| `Converter.NameOf` | cpe2csv.py:44-46 | `elem.attrib.get("name", "")`: the attribute, or `""` when it is missing; used by `Converter.RecordRow` |
| `Converter.TitleOf` | cpe2csv.py:48 | the title cell: `""` without a title child, else its text (`None` when it has none); used by `Converter.RecordRow` |
| `Converter.BuildRecord` | cpe2csv.py:44-50 | the record dictionary; its keys and values are stated by `Converter.RecordRow` |
| `Converter.WriteRow` | cpe2csv.py:53-56 | `DictWriter.writerow`: the value of each field name, in the writer's order; `Converter.RecordRow` states its result on a record |
| `Converter.ColumnNames` | cpe2csv.py:45-50 | the header text of the ten columns is `name, part, vendor, product, version, update, edition, language, title, references` |
| `Converter.HrefsOf` | cpe2csv.py:49 | one URL per reference element, in document order, `""` where `href` is missing |
| `Converter.RecordRow` | cpe2csv.py:44-56 | every record has the keys name, part, vendor, product, version, update, edition, language, title, references in that order; writing it under those keys gives the item's name, its seven `parse_cpe` fields, its title and its URLs |
| `Converter.IsItemEnd` | cpe2csv.py:43 | the loop's test: an `end` event on the namespaced `cpe-item` tag; stated by `Converter.ItemsOfOne` |
| `Converter.Items` | cpe2csv.py:42-43 | the elements of the item-closing events, in order; stated by `Converter.ItemsOfOne`, `Converter.ItemsConcat`, `Converter.NoItemEndNoItems` |
| `Converter.Emit` | cpe2csv.py:52-56 | the rows for a list of items; stated by `Converter.OutputShape` |
| `Converter.Output` | cpe2csv.py:42-56 | the CSV content after a stream; stated by `Converter.OutputShape` and `Converter.OutputStep`, and reached by `Converter.ParseXml` |
| `Converter.ItemsOfOne` | cpe2csv.py:43 | one event contributes its element exactly when it is an `end` event on the namespaced `cpe-item` tag |
| `Converter.ItemsConcat` | cpe2csv.py:42-43 | the items of a stream are the items of its parts, in stream order |
| `Converter.NoItemEndNoItems` | cpe2csv.py:42-43 | start events and other tags contribute nothing |
| `Converter.OutputShape` | cpe2csv.py:42-56 | with n items the output has no rows when n = 0 and n + 1 rows otherwise; row 0 is the only header row; row k + 1 is item k's row |
| `Converter.OutputStep` | cpe2csv.py:43-56 | an event that closes no item leaves the output unchanged; a closing item appends its row, preceded by the header if it is the first item |
| `Converter.ParseXml` | cpe2csv.py:29-57 | an empty stream fails at `next(context)`, before the CSV file is opened. Otherwise the file holds `Output` of every event after the root's: completed for a well-formed document, the rows written so far when a parse error ends the run |
| `EntryPoint.Given` | cpe2csv.py:113 | Python truthiness of `args.input`: neither `None` nor `""`; used by `EntryPoint.ResolveMode` |
| `EntryPoint.ResolveMode` | cpe2csv.py:109-120 | Fetch exactly when `--update` is set; a local path exactly when `--update` is not set and `--input` is non-empty and exists; otherwise a usage error |
| `EntryPoint.Run` | cpe2csv.py:109-125 | a run is a usage error, with no step, exactly when mode resolution fails. Otherwise it converts the chosen file once and finishes exactly when that conversion completes. It downloads exactly in update mode. It removes files exactly in update mode after a completed conversion, and only the two downloaded files |
| `EntryPoint.UpdateIgnoresInput` | cpe2csv.py:110-111 | with `--update`, the run does not depend on `--input` or on the filesystem |
| `EntryPoint.EmptyInputIsAbsent` | cpe2csv.py:113 | `--input ""` is treated as if `--input` were absent |
| `EntryPoint.UsageErrors` | cpe2csv.py:113-120 | without `--update`: no (or empty) input gives the "specify either" error; a non-existent path gives the error that names it |
| `EntryPoint.RunSteps` | cpe2csv.py:109-125 | update mode downloads, extracts and converts the extracted file, then removes the archive and the XML only if the conversion completed; when it raises the run stops there. Local mode only converts the given file and deletes nothing |
| `EntryPoint.VerboseIgnored` | cpe2csv.py:122-125 | `--verbose` changes no step of the run |

## Left out

- HTTP download, chunked writing and zip extraction (cpe2csv.py:73-81): they are network and filesystem I/O. `Run` records them as `Download` and `Extract` steps; their failures (which end the run before the conversion) are not modelled.
- The conversion's outcome is a parameter of `Run`: which files exist and what they contain is outside the model. Its failure, including a missing or malformed XML file, is modelled (`Crashed`).
- File deletion (cpe2csv.py:89-90): only the decision to delete, and which files, is modelled. The error raised when a file is already missing is not.
- XML tokenising, namespace resolution, `find`/`findall` path evaluation and `root.clear()` (cpe2csv.py:29-31, 48-49, 57): these are parser-library behaviour and memory management. An element arrives already reduced to the parts `parse_xml` reads, and the bounded-memory behaviour is not modelled.
- A parse error is modelled only after the events delivered before it. Every earlier failure point is covered by choosing a shorter event list.
- `csv.DictWriter` quoting and line endings, the CSV rendering of `None` as an empty cell, and the `str()` rendering of the reference list into one cell (cpe2csv.py:53-56): these are library formatting. A row is a sequence of abstract values (`Text`, `Null`, `Hrefs`). The header row holds the `Key` values, and `KeyName` gives their header text (`Converter.ColumnNames`).
- `DictWriter.writerow` raises `ValueError` for keys missing from its field names. The model leaves this check out, because every record has exactly the writer's field names (`Converter.RecordRow`).
- Progress messages (cpe2csv.py:35-36, 59-63, 68-71, 78-79, 87-88; line 68 prints on every update run, the rest only with `--verbose`): they affect neither the CSV output nor the steps of a run.
- `argparse` parsing and the process exit of `parser.error` (cpe2csv.py:93-107, 117, 120): the model starts from the parsed arguments. It ends with the usage error's message.

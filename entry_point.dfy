/**
 * The command-line entry point: choose the input XML (fetch the NVD archive,
 * or a local file that must exist), convert it, and clean up the downloaded
 * files only after a fetch whose conversion did not raise. The filesystem's
 * existence test and the outcome of converting a file are parameters, and
 * the run is described by the steps it performs, in order.
 */
module EntryPoint {
  import opened Wrappers
  import opened Converter

  /** Where the dictionary archive is fetched from. */
  const NvdUrl: string := "https://nvd.nist.gov/feeds/xml/cpe/dictionary/official-cpe-dictionary_v2.3.xml.zip"
  /** The downloaded archive, in the working directory. */
  const LocalZip: string := "official-cpe-dictionary_v2.3.xml.zip"
  /** The XML file extracted from the archive, in the working directory. */
  const LocalXml: string := "official-cpe-dictionary_v2.3.xml"

  /** The parsed command line: output path, `--verbose`, `--update`, `--input`. */
  datatype Args = Args(csvFile: string, verbose: bool, update: bool, input: Option<string>)

  /** Where the XML comes from. */
  datatype Mode = Fetch | Local(path: string)

  /** One action of a run, in the order it happens. */
  datatype Step =
    | Download(url: string, target: string)      // HTTP GET streamed to a file
    | Extract(archive: string)                   // unzip into the working directory
    | Convert(xmlFile: string, csvFile: string)  // parse_xml
    | Remove(path: string)                       // os.remove

  /** The usage error when no input source is chosen. */
  const NoInputMessage: string :=
    "You need to specify either the --update flag to fetch the latest XML file or the --input flag to specify an XML file."

  /** The usage error for a local path that does not exist. */
  function MissingFileMessage(path: string): string
  {
    "The specified XML file '" + path + "' does not exist."
  }

  /** Python truthiness of `args.input`: `None` and `""` both count as not given. */
  predicate Given(input: Option<string>)
  {
    input.Some? && input.value != ""
  }

  /**
   * The input-mode decision. `--update` wins and leaves `--input` unread;
   * otherwise a given path that exists is used, and anything else is a usage
   * error.
   */
  function ResolveMode(update: bool, input: Option<string>, pathExists: string -> bool): (r: Result<Mode, string>)
    ensures (r.Success? && r.value == Fetch) <==> update
    ensures r.Success? && r.value.Local? <==> !update && Given(input) && pathExists(input.value)
    ensures r.Success? && r.value.Local? ==> r.value.path == input.value
    ensures r.Failure? <==> !update && !(Given(input) && pathExists(input.value))
  {
    if update then
      Success(Fetch)
    else if input.Some? && input.value != "" then
      if pathExists(input.value) then Success(Local(input.value))
      else Failure(MissingFileMessage(input.value))
    else
      Failure(NoInputMessage)
  }

  /** The XML file a mode converts: the extracted download, or the given path. */
  function ChosenXml(mode: Mode): string
  {
    if mode.Fetch? then LocalXml else mode.path
  }

  /** The files `tmp_cleanup` deletes, in order. */
  const Cleanup: seq<Step> := [Remove(LocalZip), Remove(LocalXml)]

  /** How a run ends, with the steps it performed, in order. */
  datatype RunOutcome =
    | UsageError(message: string)   // `parser.error`: the process exits before any step
    | Finished(steps: seq<Step>)    // every step ran
    | Crashed(steps: seq<Step>)     // `parse_xml` raised: nothing after the conversion ran

  /**
   * A whole run: a usage error before any step, or the fetch (in update
   * mode), one conversion of the chosen file and, when that conversion
   * completes, the cleanup (in update mode). `convert` gives the outcome of
   * `parse_xml` on a file, whose contents are outside this model.
   */
  function Run(args: Args, pathExists: string -> bool, convert: string -> Conversion): (r: RunOutcome)
    ensures r.UsageError? <==> ResolveMode(args.update, args.input, pathExists).Failure?
    ensures !r.UsageError? ==>
      var xmlFile := ChosenXml(ResolveMode(args.update, args.input, pathExists).value);
      && (r.Finished? <==> convert(xmlFile).Completed?)
      && (exists i :: 0 <= i < |r.steps| && r.steps[i] == Convert(xmlFile, args.csvFile))
      && (exists i :: 0 <= i < |r.steps| && r.steps[i].Download?) == args.update
      && (exists i :: 0 <= i < |r.steps| && r.steps[i].Remove?) == (args.update && r.Finished?)
      && (forall i :: 0 <= i < |r.steps| && r.steps[i].Remove? ==> r.steps[i].path in {LocalZip, LocalXml})
  {
    match ResolveMode(args.update, args.input, pathExists)
    case Failure(message) => UsageError(message)
    case Success(mode) =>
      var fetch := if mode.Fetch? then [Download(NvdUrl, LocalZip), Extract(LocalZip)] else [];
      var xmlFile := ChosenXml(mode);
      var converted := fetch + [Convert(xmlFile, args.csvFile)];
      assert converted[|fetch|] == Convert(xmlFile, args.csvFile);
      assert args.update ==> converted[0].Download?;
      if !convert(xmlFile).Completed? then
        Crashed(converted)
      else
        var steps := converted + (if args.update then Cleanup else []);
        assert steps[|fetch|] == Convert(xmlFile, args.csvFile);
        assert args.update ==> steps[0].Download? && steps[|steps| - 1].Remove?;
        Finished(steps)
  }

  /** With `--update`, neither the value of `--input` nor the filesystem is consulted. */
  lemma UpdateIgnoresInput(a: Args, b: Args, existsA: string -> bool, existsB: string -> bool,
                           convert: string -> Conversion)
    requires a.update && b.update && a.csvFile == b.csvFile
    ensures Run(a, existsA, convert) == Run(b, existsB, convert)
  {
  }

  /** `--input ""` behaves exactly like an absent `--input`. */
  lemma EmptyInputIsAbsent(update: bool, pathExists: string -> bool)
    ensures ResolveMode(update, Some(""), pathExists) == ResolveMode(update, None, pathExists)
  {
  }

  /** `--verbose` only adds progress messages: it changes no step of the run. */
  lemma VerboseIgnored(args: Args, verbose: bool, pathExists: string -> bool, convert: string -> Conversion)
    ensures Run(args.(verbose := verbose), pathExists, convert) == Run(args, pathExists, convert)
  {
  }

  /** The usage errors, each with its message, arise before any step is taken. */
  lemma UsageErrors(args: Args, pathExists: string -> bool, convert: string -> Conversion)
    requires !args.update
    ensures !Given(args.input) ==> Run(args, pathExists, convert) == UsageError(NoInputMessage)
    ensures Given(args.input) && !pathExists(args.input.value) ==>
      Run(args, pathExists, convert) == UsageError(MissingFileMessage(args.input.value))
  {
  }

  /**
   * The steps of a run, in order. In update mode: fetch, convert the
   * extracted file and, only if the conversion completes, delete both
   * downloads. In local mode: only the conversion of the given file, which
   * is never deleted.
   */
  lemma RunSteps(args: Args, pathExists: string -> bool, convert: string -> Conversion)
    ensures args.update && convert(LocalXml).Completed? ==>
      Run(args, pathExists, convert) ==
        Finished([Download(NvdUrl, LocalZip), Extract(LocalZip), Convert(LocalXml, args.csvFile),
                  Remove(LocalZip), Remove(LocalXml)])
    ensures args.update && !convert(LocalXml).Completed? ==>
      Run(args, pathExists, convert) ==
        Crashed([Download(NvdUrl, LocalZip), Extract(LocalZip), Convert(LocalXml, args.csvFile)])
    ensures !args.update && Given(args.input) && pathExists(args.input.value) ==>
      var done := [Convert(args.input.value, args.csvFile)];
      Run(args, pathExists, convert) ==
        if convert(args.input.value).Completed? then Finished(done) else Crashed(done)
  {
  }
}

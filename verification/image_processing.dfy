/** The image-processing dialog: choosing the image, the request parameters
    taken from the form, and the name of the downloaded file. */
module ImageProcessing {
  import opened Wrappers
  import Text
  import opened Browser

  datatype ProcState = ProcState(
    image: Option<File>,
    width: string,
    height: string,
    quality: int,
    keepAspectRatio: bool,
    outputFormat: string,
    processing: bool)

  /** A toast notification shown by a handler. */
  datatype Toast = NoToast | ErrorToast(message: string) | SuccessToast(message: string)

  const InitialState: ProcState := ProcState(None, "", "", 90, true, "original", false)

  /** `handleFileChange`: the first chosen file, if it is an image, replaces the
      selection and resets the form; a non-image changes nothing. */
  function HandleFileChange(st: ProcState, files: seq<File>): (r: (ProcState, Toast))
    ensures |files| == 0 ==> r == (st, NoToast)
    ensures |files| > 0 && !IsImage(files[0]) ==> r == (st, ErrorToast("Please select a valid image file"))
    ensures |files| > 0 && IsImage(files[0]) ==>
      && r.0.image == Some(files[0])
      && r.0 == InitialState.(image := Some(files[0]), processing := st.processing)
      && r.1 == NoToast
  {
    if |files| == 0 then (st, NoToast)
    else if !IsImage(files[0]) then (st, ErrorToast("Please select a valid image file"))
    else
      (st.(image := Some(files[0]), width := "", height := "", quality := 90,
           keepAspectRatio := true, outputFormat := "original"), NoToast)
  }

  /** A requested dimension: left out, a parsed number, or `NaN`. */
  datatype Dimension = Unset | Pixels(n: int) | NotANumber

  /** `width ? parseInt(width) : undefined`. */
  function DimensionOf(field: string): (d: Dimension)
    ensures field == "" <==> d.Unset?
    ensures field != "" && Text.ParseInt(field).Some? ==> d == Pixels(Text.ParseInt(field).value)
    ensures field != "" && Text.ParseInt(field).None? ==> d == NotANumber
  {
    if field == "" then Unset
    else match Text.ParseInt(field)
      case Some(n) => Pixels(n)
      case None => NotANumber
  }

  datatype ProcessRequest = ProcessRequest(
    image: File, width: Dimension, height: Dimension, quality: int, keepAspectRatio: bool, format: string)

  /** `handleProcessImage` up to its `await`: without an image it only warns;
      otherwise it sends the form, with `'original'` sent as the empty format. */
  function BeginProcess(st: ProcState): (r: (ProcState, Option<ProcessRequest>, Toast))
    ensures st.image.None? <==> r.1.None?
    ensures st.image.None? ==> r.0 == st && r.2 == ErrorToast("Please select an image first")
    ensures st.image.Some? ==>
      && r.0 == st.(processing := true)
      && r.1.value.image == st.image.value
      && r.1.value.width == DimensionOf(st.width)
      && r.1.value.height == DimensionOf(st.height)
      && r.1.value.quality == st.quality && r.1.value.keepAspectRatio == st.keepAspectRatio
      && (st.outputFormat == "original" <==> r.1.value.format == "" && st.outputFormat != "")
      && (st.outputFormat != "original" ==> r.1.value.format == st.outputFormat)
  {
    match st.image
    case None => (st, None, ErrorToast("Please select an image first"))
    case Some(f) =>
      var format := if st.outputFormat == "original" then "" else st.outputFormat;
      (st.(processing := true),
       Some(ProcessRequest(f, DimensionOf(st.width), DimensionOf(st.height), st.quality, st.keepAspectRatio, format)),
       NoToast)
  }

  /** The extension of the downloaded file: the chosen format in lower case,
      else whatever follows the last '.' of the original name. */
  function Extension(name: string, format: string): (ext: string)
    ensures format != "" && format != "original" ==> ext == Text.Lower(format)
    ensures format == "" || format == "original" ==>
      '.' !in ext && |ext| <= |name| && ext == name[|name| - |ext|..]
    ensures (format == "" || format == "original") && |ext| < |name| ==> name[|name| - |ext| - 1] == '.'
    ensures (format == "" || format == "original") && '.' !in name ==> ext == name
  {
    if format != "" && format != "original" then Text.Lower(format) else Text.AfterLast(name, '.')
  }

  /** The downloaded file's name: the original name up to its first '.', then
      `_processed.` and the extension. */
  function OutputFilename(name: string, format: string): (r: string)
    ensures var stem := Text.BeforeFirst(name, '.');
      && '.' !in stem && Text.StartsWith(name, stem)
      && r == stem + "_processed." + Extension(name, format)
  {
    Text.BeforeFirst(name, '.') + "_processed." + Extension(name, format)
  }

  /** A name without any '.' keeps the whole name as its extension. */
  lemma DotlessName(name: string)
    requires '.' !in name
    ensures OutputFilename(name, "original") == name + "_processed." + name
  {
    var stem := Text.BeforeFirst(name, '.');
    assert forall i :: 0 <= i < |name| ==> name[i] != '.';
    assert |stem| == |name|;
    assert stem == name[..|name|] == name;
    assert Extension(name, "original") == name;
  }

  /** How the call to the image-processing service ended: with the processed
      image, by throwing an `Error` with its message, or by throwing anything else. */
  datatype ProcessOutcome = Processed | ThrewError(message: string) | ThrewOther

  /** An ordinary name `stem.ext` (one '.') keeps its stem, and its extension
      unless a format is chosen. */
  lemma {:induction false} OutputFilenameOfSimpleName(stem: string, ext: string, format: string)
    requires '.' !in stem && '.' !in ext
    ensures OutputFilename(stem + "." + ext, format) ==
      stem + "_processed." + (if format != "" && format != "original" then Text.Lower(format) else ext)
  {
    var name := stem + "." + ext;
    assert name[|stem|] == '.';
    assert forall i :: 0 <= i < |stem| ==> name[i] == stem[i];
    assert forall i :: 0 <= i < |ext| ==> name[|stem| + 1 + i] == ext[i];
    var before := Text.BeforeFirst(name, '.');
    assert |before| == |stem|;
    assert before == name[..|stem|] == stem;
    var after := Text.AfterLast(name, '.');
    assert |after| == |ext|;
    assert after == name[|stem| + 1..] == ext;
  }

  /** `handleProcessImage` after its `await`, with the form as it was when the
      request was sent: success downloads the derived file name. */
  function CompleteProcess(st: ProcState, outcome: ProcessOutcome): (r: (ProcState, Toast, Option<string>))
    requires st.image.Some?
    ensures r.0 == st.(processing := false)
    ensures outcome.Processed? <==> r.2.Some?
    ensures outcome.Processed? ==>
      r.1 == SuccessToast("Image processed successfully") &&
      r.2 == Some(OutputFilename(st.image.value.name, st.outputFormat))
    ensures outcome.ThrewError? ==> r.1 == ErrorToast(outcome.message)
    ensures outcome.ThrewOther? ==> r.1 == ErrorToast("Failed to process image")
  {
    match outcome
    case Processed =>
      (st.(processing := false), SuccessToast("Image processed successfully"),
       Some(OutputFilename(st.image.value.name, st.outputFormat)))
    case ThrewError(m) => (st.(processing := false), ErrorToast(m), None)
    case ThrewOther => (st.(processing := false), ErrorToast("Failed to process image"), None)
  }

  /** `handleProcessImage` as a whole, against a gateway whose `processImage`
      ends with `outcome`: with an image, a processed result is downloaded
      under the derived name. */
  function HandleProcessImage(st: ProcState, outcome: ProcessOutcome): (r: (ProcState, Toast, Option<string>))
    ensures st.image.None? ==> r == (st, ErrorToast("Please select an image first"), None)
    ensures st.image.Some? && outcome.Processed? ==>
      r == (st.(processing := false), SuccessToast("Image processed successfully"),
            Some(OutputFilename(st.image.value.name, st.outputFormat)))
    ensures st.image.Some? && !outcome.Processed? ==> r.2.None? && r.0 == st.(processing := false)
  {
    match BeginProcess(st)
    case (s, None, toast) => (s, toast, None)
    case (s, Some(_), _) => CompleteProcess(s, outcome)
  }

  /** `handleProcessImage` against the gateway as it is written. The gateway
      object defines no `processImage` method, so the call is a call of
      `undefined` and throws a `TypeError` (an `Error`), whose message the
      runtime chooses: `typeError`. No image is ever downloaded. */
  function ProcessImageAsWritten(st: ProcState, typeError: string): (r: (ProcState, Toast, Option<string>))
    ensures r.2.None?
    ensures st.image.None? ==> r == (st, ErrorToast("Please select an image first"), None)
    ensures st.image.Some? ==> r == (st.(processing := false), ErrorToast(typeError), None)
  {
    match BeginProcess(st)
    case (s, None, toast) => (s, toast, None)
    case (s, Some(_), _) => CompleteProcess(s, ThrewError(typeError))
  }

  /** With an image chosen, the handler as written reports an error where a
      gateway that processes the image downloads the result. */
  lemma ProcessNeverSucceedsAsWritten(st: ProcState, typeError: string)
    requires st.image.Some?
    ensures ProcessImageAsWritten(st, typeError).1 == ErrorToast(typeError)
    ensures ProcessImageAsWritten(st, typeError) == HandleProcessImage(st, ThrewError(typeError))
    ensures HandleProcessImage(st, Processed).2 == Some(OutputFilename(st.image.value.name, st.outputFormat))
  {
  }

  /** Choosing a new image after a processed one starts again from the
      default form, whatever was set before. */
  lemma NewImageResetsForm(st: ProcState, files: seq<File>)
    requires |files| > 0 && IsImage(files[0])
    ensures var (s1, _) := HandleFileChange(st, files);
      && s1.width == "" && s1.height == "" && s1.quality == 90
      && s1.keepAspectRatio && s1.outputFormat == "original"
      && BeginProcess(s1).1 == Some(ProcessRequest(files[0], Unset, Unset, 90, true, ""))
  {
  }
}

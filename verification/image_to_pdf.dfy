/** The image-to-PDF dialog: the list of selected images (at most 10, images
    only), removal by position, and the conversion request. */
module ImageToPdf {
  import opened Wrappers
  import opened Json
  import Seqs
  import opened Browser
  import opened ApiService

  datatype PdfState = PdfState(images: seq<File>, error: Option<string>, loading: bool, success: bool)

  const MaxImages: nat := 10
  const TooManyImages := "Maximum 10 images allowed. Please remove some images first."
  const NoImageSelected := "Please select at least one image"
  const ConversionFailed := "Failed to convert images to PDF"

  function NotAnImage(f: File): string {
    "File \"" + f.name + "\" is not an image. Only image files are allowed."
  }

  function ImagesOnly(files: seq<File>): seq<File> {
    Seqs.Filter(files, (f: File) => IsImage(f))
  }

  /** The error after the validation pass: each rejected file sets its own message. */
  function ValidationError(files: seq<File>, current: Option<string>): (e: Option<string>)
    ensures (forall i :: 0 <= i < |files| ==> IsImage(files[i])) ==> e == current
    ensures forall i | 0 <= i < |files| && !IsImage(files[i]) &&
      (forall j :: i < j < |files| ==> IsImage(files[j])) :: e == Some(NotAnImage(files[i]))
    decreases |files|
  {
    if |files| == 0 then current
    else ValidationError(files[1..], if IsImage(files[0]) then current else Some(NotAnImage(files[0])))
  }

  /** `handleFileChange`: valid images are appended in order up to the limit of
      10; going over the limit keeps only what fits and reports it. */
  function HandleFileChange(st: PdfState, files: seq<File>): (r: PdfState)
    ensures |st.images| <= |r.images| && r.images[..|st.images|] == st.images
    ensures forall i :: |st.images| <= i < |r.images| ==> IsImage(r.images[i])
    ensures |st.images| <= MaxImages ==> |r.images| <= MaxImages
    ensures |st.images| + |ImagesOnly(files)| <= MaxImages ==>
      r.images == st.images + ImagesOnly(files) && r.error.None?
    ensures |st.images| + |ImagesOnly(files)| > MaxImages ==>
      && r.error == Some(TooManyImages)
      && r.images[|st.images|..] == Seqs.Take(ImagesOnly(files), if |st.images| < MaxImages then MaxImages - |st.images| else 0)
    ensures r.loading == st.loading && r.success == st.success
  {
    var valid := ImagesOnly(files);
    var checked := st.(error := ValidationError(files, st.error));
    if |st.images| + |valid| > MaxImages then
      var remaining := MaxImages - |st.images|;
      var added := if remaining > 0 then valid[..remaining] else [];
      assert (st.images + added)[|st.images|..] == added;
      checked.(error := Some(TooManyImages), images := st.images + added)
    else
      checked.(images := st.images + valid, error := None)
  }

  /** The message about a rejected file never survives `handleFileChange`:
      either the limit message or no error at all is left. */
  lemma RejectionIsOverwritten(st: PdfState, files: seq<File>)
    ensures HandleFileChange(st, files).error.None? || HandleFileChange(st, files).error == Some(TooManyImages)
  {
  }

  /** `handleRemoveImage`: drops exactly the image at `index` and clears the error. */
  function HandleRemoveImage(st: PdfState, index: int): (r: PdfState)
    ensures 0 <= index < |st.images| ==> |r.images| == |st.images| - 1
    ensures 0 <= index < |st.images| ==> forall i :: 0 <= i < |r.images| ==>
      r.images[i] == (if i < index then st.images[i] else st.images[i + 1])
    ensures !(0 <= index < |st.images|) ==> r.images == st.images
    ensures r.error.None?
    ensures r == st.(images := r.images, error := None)
  {
    st.(images := Seqs.RemoveAt(st.images, index), error := None)
  }

  /** `handleConvertToPdf` up to its `await`: an empty selection sets an error
      and sends nothing; otherwise the whole selection is sent. */
  function BeginConvert(st: PdfState): (r: (PdfState, Option<seq<File>>))
    ensures |st.images| == 0 <==> r.1.None?
    ensures |st.images| == 0 ==> r.0 == st.(error := Some(NoImageSelected))
    ensures |st.images| > 0 ==> r.1 == Some(st.images) && r.0.loading && r.0.error.None? && !r.0.success
    ensures |st.images| > 0 ==> r.1 == Some(st.images) && r.0 == st.(loading := true, error := None, success := false)
  {
    if |st.images| == 0 then (st.(error := Some(NoImageSelected)), None)
    else (st.(loading := true, error := None, success := false), Some(st.images))
  }

  /** `handleConvertToPdf` after its `await`. */
  function CompleteConvert(js: Js, st: PdfState, reply: HttpReply): (r: PdfState)
    ensures !r.loading && r.images == st.images
    ensures Succeeded(reply) ==> r.success && r.error == st.error
    ensures !Succeeded(reply) ==> r.error.Some? && r.error.value != "" && r.success == st.success
    ensures reply.NetworkError? && reply.message != "" ==> r.error == Some(reply.message)
    ensures ConvertImagesToPdf(js, reply).Failure? ==>
      r.error == Some(var m := ConvertImagesToPdf(js, reply).error; if m != "" then m else ConversionFailed)
  {
    match ConvertImagesToPdf(js, reply)
    case Success(_) => st.(success := true, loading := false)
    case Failure(m) => st.(error := Some(if m != "" then m else ConversionFailed), loading := false)
  }

  // ---------------------------------------------------------------- invariant

  /** What every reachable selection satisfies: at most 10 files, all images. */
  predicate SelectionValid(st: PdfState) {
    |st.images| <= MaxImages && forall i :: 0 <= i < |st.images| ==> IsImage(st.images[i])
  }

  /** The events the dialog reacts to. */
  datatype PdfEvent =
    | Choose(files: seq<File>)
    | Remove(index: int)
    | StartConvert
    | FinishConvert(js: Js, reply: HttpReply)

  function PdfStep(st: PdfState, e: PdfEvent): PdfState {
    match e
    case Choose(files) => HandleFileChange(st, files)
    case Remove(index) => HandleRemoveImage(st, index)
    case StartConvert => BeginConvert(st).0
    case FinishConvert(js, reply) => CompleteConvert(js, st, reply)
  }

  function PdfRun(st: PdfState, events: seq<PdfEvent>): PdfState
    decreases |events|
  {
    if |events| == 0 then st else PdfRun(PdfStep(st, events[0]), events[1..])
  }

  /** Every event keeps the selection within the limit and free of non-images. */
  lemma StepKeepsSelectionValid(st: PdfState, e: PdfEvent)
    requires SelectionValid(st)
    ensures SelectionValid(PdfStep(st, e))
  {
    match e
    case Choose(files) =>
      var r := HandleFileChange(st, files);
      forall i | 0 <= i < |r.images| ensures IsImage(r.images[i]) {
        if i < |st.images| {
          assert r.images[i] == r.images[..|st.images|][i];
        }
      }
    case Remove(index) =>
    case StartConvert =>
    case FinishConvert(js, reply) =>
  }

  /** From the empty dialog, or any valid one, no sequence of events lets more
      than 10 files or any non-image into the selection. */
  lemma {:induction false} RunKeepsSelectionValid(st: PdfState, events: seq<PdfEvent>)
    requires SelectionValid(st)
    ensures SelectionValid(PdfRun(st, events))
    decreases |events|
  {
    if |events| > 0 {
      StepKeepsSelectionValid(st, events[0]);
      RunKeepsSelectionValid(PdfStep(st, events[0]), events[1..]);
    }
  }
}

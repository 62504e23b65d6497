/** The chat component's handlers as state transitions. Each asynchronous
    handler is split at its `await`: `Begin…` inserts a pending placeholder
    under a fresh id (and yields the request it sends), `Complete…` takes the
    backend's reply and patches that placeholder with the answer or the error
    text. The on-screen conversation always mirrors `store.history`. */
module Assistant {
  import opened Wrappers
  import opened Json
  import Seqs
  import opened Browser
  import opened LocalStorage
  import opened ApiService

  datatype ChatState = ChatState(
    store: Store,
    files: seq<File>,
    selectedImage: Option<File>,
    documentContext: Option<Json>,
    loading: bool)

  /** The request a send makes: an image search with the selected image, or a
      chat query with the earlier history as context. */
  datatype Request =
    | ImageSearchRequest(query: string, image: File, language: Language)
    | ChatRequest(query: string, history: seq<HistoryItem>, language: Language, gender: string)

  /** `after` is `before` with the response of the items carrying `id` set to
      `text`, and nothing else changed. */
  ghost predicate PatchesOnly(before: seq<HistoryItem>, after: seq<HistoryItem>, id: string, text: string) {
    && |after| == |before|
    && forall i :: 0 <= i < |before| ==>
      && (before[i].id == id ==> after[i] == before[i].(response := Some(text)))
      && (before[i].id != id ==> after[i] == before[i])
  }

  /** Inserting the pending item for a handler under its own (non-empty) id. */
  function AddPlaceholder(s: Store, query: string, id: string, now: int): (r: Store)
    requires id != ""
    ensures 0 < |r.history| <= MaxHistory
    ensures r.history[0] == HistoryItem(id, query, None, now)
    ensures forall j :: 0 < j < |r.history| ==> r.history[j].id != id
    ensures r.history[1..] == Seqs.Take(WithoutId(s.history, id), MaxHistory - 1)
    ensures r.prefs == s.prefs && r.conversations == s.conversations
  {
    AddHistoryItem(s, query, None, Some(id), id, now)
  }

  /** The gender as the chat endpoint expects it: first letter upper-cased. */
  function GenderLabel(g: Gender): string {
    match g
    case Neutral => "Neutral"
    case Male => "Male"
    case Female => "Female"
  }

  /** The query sent for `message`: prefixed by the document when one was uploaded. */
  function EnhancedQuery(js: Js, doc: Option<Json>, message: string): (q: string)
    ensures !Truthy(doc) ==> q == message
    ensures doc.Some? && doc.value.JStr? && doc.value.s != "" ==>
      q == "Based on the following document:\n\n" + doc.value.s + "\n\nQuestion: " + message
  {
    if Truthy(doc)
    then "Based on the following document:\n\n" + TextOf(js, doc.value) + "\n\nQuestion: " + message
    else message
  }

  // ---------------------------------------------------------------- send

  /** `handleSendMessage` up to its `await`. */
  function BeginSend(js: Js, st: ChatState, message: string, newId: string, now: int): (r: (ChatState, Request))
    requires newId != ""
    ensures |r.0.store.history| > 0 && r.0.store.history[0] == HistoryItem(newId, message, None, now)
    ensures r.0.store == AddPlaceholder(st.store, message, newId, now)
    ensures r.0.loading
    ensures r.0.files == st.files && r.0.selectedImage == st.selectedImage
    ensures r.0.documentContext == st.documentContext
    ensures r.1.ChatRequest? <==> st.selectedImage.None?
    ensures r.1.ChatRequest? ==> r.1.history == r.0.store.history[1..]
    ensures r.1.ChatRequest? ==> r.1.query == EnhancedQuery(js, st.documentContext, message)
    ensures r.1.ImageSearchRequest? ==> r.1.query == message && Some(r.1.image) == st.selectedImage
    ensures r.1.language == GetStoredPreferences(st.store).language
    ensures r.1.ChatRequest? ==> r.1.gender == GenderLabel(GetStoredPreferences(st.store).gender)
  {
    var s := AddPlaceholder(st.store, message, newId, now);
    var p := GetStoredPreferences(s);
    var req := match st.selectedImage
      case Some(f) => ImageSearchRequest(message, f, p.language)
      case None => ChatRequest(EnhancedQuery(js, st.documentContext, message), s.history[1..], p.language, GenderLabel(p.gender));
    (st.(store := s, loading := true), req)
  }

  const UnexpectedResultFormat := "Received unexpected response format."

  /** The text shown for a chat result of unknown shape: a string as it is; an
      object's non-empty string `text`, else its non-empty string `response`,
      else the object serialised; any other value a fixed message. */
  function CoerceResult(js: Js, v: Json): (r: string)
    ensures v.JStr? ==> r == v.s
    ensures IsNonEmptyStringField(v, "text") ==> r == v.fields["text"].s
    ensures !IsNonEmptyStringField(v, "text") && IsNonEmptyStringField(v, "response") ==>
      r == v.fields["response"].s
    ensures (v.JObj? || v.JArr?) && !IsNonEmptyStringField(v, "text") && !IsNonEmptyStringField(v, "response") ==>
      r == js.stringify(v)
    ensures v.JNull? || v.JBool? || v.JNum? ==> r == UnexpectedResultFormat
  {
    match v
    case JStr(s) => s
    case JObj(_) =>
      if IsNonEmptyStringField(v, "text") then Field(v, "text").value.s
      else if IsNonEmptyStringField(v, "response") then Field(v, "response").value.s
      else js.stringify(v)
    case JArr(_) => js.stringify(v)
    case _ => UnexpectedResultFormat
  }

  function OpenedSearchText(f: File, query: string): string {
    "Opened Google Images search for '" + f.name + "' in a new tab based on your query: \"" + query + "\"."
  }

  /** The text a send patches into its placeholder: the answer or the error message. */
  function SendReplyText(js: Js, req: Request, reply: HttpReply): (text: string)
    ensures reply.NetworkError? ==> text == reply.message
    ensures req.ChatRequest? && reply.Reply? && !IsOk(reply.status) ==>
      text == ErrorMessage(js, reply.status, reply.body)
    ensures req.ChatRequest? && Succeeded(reply) && reply.body.Parsed? && IsStringField(reply.body.json, "response") ==>
      text == reply.body.json.fields["response"].s
    ensures req.ChatRequest? ==>
      text == (if GetResponse(js, reply).Success? then GetResponse(js, reply).value else GetResponse(js, reply).error)
    ensures req.ImageSearchRequest? ==>
      text == (if SearchImage(js, reply).Success? then OpenedSearchText(req.image, req.query)
               else SearchImage(js, reply).error)
  {
    match req
    case ImageSearchRequest(q, f, _) =>
      (match SearchImage(js, reply)
       case Success(_) => OpenedSearchText(f, q)
       case Failure(m) => m)
    case ChatRequest(_, _, _, _) =>
      (match GetResponse(js, reply)
       case Success(t) => CoerceResult(js, JStr(t))
       case Failure(m) => m)
  }

  /** The uploads other than the object `f` (`filter(file => file !== f)`). */
  function OtherUploads(files: seq<File>, f: File): seq<File> {
    Seqs.Filter(files, (x: File) => x != f)
  }

  /** `handleSendMessage` after its `await`: patches its own placeholder, and
      after an image search drops the selection (and, on success, the file). */
  function CompleteSend(js: Js, st: ChatState, newId: string, req: Request, reply: HttpReply): (r: ChatState)
    ensures PatchesOnly(st.store.history, r.store.history, newId, SendReplyText(js, req, reply))
    ensures r.store.prefs == st.store.prefs && r.store.conversations == st.store.conversations
    ensures !r.loading && r.documentContext == st.documentContext
    ensures req.ChatRequest? ==> r.files == st.files && r.selectedImage == st.selectedImage
    ensures req.ImageSearchRequest? ==> r.selectedImage.None?
    ensures req.ImageSearchRequest? && SearchImage(js, reply).Success? ==>
      r.files == OtherUploads(st.files, req.image)
    ensures req.ImageSearchRequest? && SearchImage(js, reply).Failure? ==> r.files == st.files
  {
    var text := SendReplyText(js, req, reply);
    var s := UpdateHistoryItemResponse(st.store, newId, text);
    var st' := st.(store := s, loading := false);
    if req.ImageSearchRequest? then
      if SearchImage(js, reply).Success?
      then st'.(selectedImage := None, files := OtherUploads(st.files, req.image))
      else st'.(selectedImage := None)
    else st'
  }

  /** A successful image search removes only the upload that was searched:
      another upload of the same file is a different object and stays. */
  lemma SearchRemovesOnlyThatUpload(js: Js, st: ChatState, newId: string, req: Request, reply: HttpReply, k: nat)
    requires req.ImageSearchRequest? && SearchImage(js, reply).Success?
    requires DistinctObjects(st.files) && k < |st.files| && st.files[k] == req.image
    ensures CompleteSend(js, st, newId, req, reply).files == Seqs.RemoveAt(st.files, k)
  {
    assert forall i :: 0 <= i < |st.files| ==> (st.files[i] != req.image <==> i != k);
    Seqs.FilterOutOne(st.files, (x: File) => x != req.image, k);
  }

  /** A whole send, placeholder then patch: the new item heads the history with
      its answer, and the earlier items are the ones the placeholder left. */
  lemma SendRoundTrip(js: Js, st: ChatState, message: string, newId: string, now: int, reply: HttpReply)
    requires newId != ""
    ensures var (mid, req) := BeginSend(js, st, message, newId, now);
      var r := CompleteSend(js, mid, newId, req, reply);
      && r.store.history[0] == HistoryItem(newId, message, Some(SendReplyText(js, req, reply)), now)
      && r.store.history[1..] == mid.store.history[1..]
      && r.store.conversations == st.store.conversations
  {
    var (mid, req) := BeginSend(js, st, message, newId, now);
    var r := CompleteSend(js, mid, newId, req, reply);
  }

  /** A reply that arrives after the chat was cleared patches nothing. */
  lemma CompleteAfterClear(js: Js, st: ChatState, newId: string, req: Request, reply: HttpReply)
    requires st.store.history == []
    ensures CompleteSend(js, st, newId, req, reply).store.history == []
  {
  }

  // ---------------------------------------------------------------- uploads

  function UploadMessage(f: File): string {
    "Analyze this " + (if IsImage(f) then "image" else "document") + ": " + f.name
  }

  /** The answer for one uploaded file, and the document text it supplies
      (`None` when the document context is left as it was). */
  function UploadReplyText(js: Js, f: File, reply: HttpReply): (r: (string, Option<Json>))
    ensures r.1.Some? ==> !IsImage(f) && Truthy(r.1)
    ensures !IsImage(f) && AnalyzeDocument(js, reply).Success? && Truthy(AnalyzeDocument(js, reply).value.extractedText) ==>
      r == ("Document '" + f.name + "' has been processed. You can now ask questions about its content.",
            AnalyzeDocument(js, reply).value.extractedText)
    ensures !IsImage(f) && AnalyzeDocument(js, reply).Success? && !Truthy(AnalyzeDocument(js, reply).value.extractedText) ==>
      r.1.None? &&
      r.0 == (if Truthy(AnalyzeDocument(js, reply).value.response)
              then TextOf(js, AnalyzeDocument(js, reply).value.response.value)
              else "Document '" + f.name + "' uploaded, but no text could be extracted or no specific response provided.")
    ensures !IsImage(f) && AnalyzeDocument(js, reply).Failure? ==> r == (AnalyzeDocument(js, reply).error, None)
    ensures IsImage(f) && AnalyzeImage(js, reply).Success? ==>
      r.0 == (match AnalyzeImage(js, reply).value
              case Some(JStr(s)) => s
              case _ => "Received unexpected analysis format for " + f.name + ".")
    ensures IsImage(f) && AnalyzeImage(js, reply).Failure? ==> r.0 == AnalyzeImage(js, reply).error
  {
    if IsImage(f) then
      match AnalyzeImage(js, reply)
      case Success(Some(JStr(s))) => (s, None)
      case Success(_) => ("Received unexpected analysis format for " + f.name + ".", None)
      case Failure(m) => (m, None)
    else
      match AnalyzeDocument(js, reply)
      case Success(d) =>
        if Truthy(d.extractedText) then
          ("Document '" + f.name + "' has been processed. You can now ask questions about its content.", d.extractedText)
        else if Truthy(d.response) then (TextOf(js, d.response.value), None)
        else ("Document '" + f.name + "' uploaded, but no text could be extracted or no specific response provided.", None)
      case Failure(m) => (m, None)
  }

  /** One iteration's state change once the file's answer text and document
      text (`out`) are known: placeholder, then the patch. */
  function Record(st: ChatState, f: File, newId: string, now: int, out: (string, Option<Json>)): (r: ChatState)
    requires newId != ""
    ensures |r.store.history| > 0
    ensures r.store.history[0] == RecordedItem(f, newId, now, out)
    ensures PatchesOnly(AddPlaceholder(st.store, UploadMessage(f), newId, now).history, r.store.history, newId, out.0)
    ensures r.documentContext == (if out.1.Some? then out.1 else st.documentContext)
    ensures r.files == st.files && r.selectedImage == st.selectedImage && !r.loading
    ensures r.store.prefs == st.store.prefs && r.store.conversations == st.store.conversations
  {
    var placeholder := AddPlaceholder(st.store, UploadMessage(f), newId, now);
    var s := UpdateHistoryItemResponse(placeholder, newId, out.0);
    st.(store := s, loading := false, documentContext := if out.1.Some? then out.1 else st.documentContext)
  }

  /** The answered item an upload leaves in the history. */
  function RecordedItem(f: File, id: string, now: int, out: (string, Option<Json>)): HistoryItem {
    HistoryItem(id, UploadMessage(f), Some(out.0), now)
  }

  /** One iteration of `handleFileUpload`'s loop: placeholder, request, patch. */
  function UploadOne(js: Js, st: ChatState, f: File, newId: string, now: int, reply: HttpReply): (r: ChatState)
    requires newId != ""
    ensures |r.store.history| > 0
    ensures r.store.history[0] == HistoryItem(newId, UploadMessage(f), Some(UploadReplyText(js, f, reply).0), now)
    ensures PatchesOnly(AddPlaceholder(st.store, UploadMessage(f), newId, now).history, r.store.history,
                        newId, UploadReplyText(js, f, reply).0)
    ensures r.documentContext == (if UploadReplyText(js, f, reply).1.Some? then UploadReplyText(js, f, reply).1
                                  else st.documentContext)
    ensures r.files == st.files && r.selectedImage == st.selectedImage && !r.loading
    ensures r.store.prefs == st.store.prefs && r.store.conversations == st.store.conversations
  {
    Record(st, f, newId, now, UploadReplyText(js, f, reply))
  }

  /** The document text uploading `f` supplies, if any. */
  function DocumentOf(js: Js, f: File, reply: HttpReply): Option<Json> {
    UploadReplyText(js, f, reply).1
  }

  /** The answered item uploading `f` leaves in the history. */
  function UploadedItem(js: Js, f: File, id: string, now: int, reply: HttpReply): HistoryItem {
    RecordedItem(f, id, now, UploadReplyText(js, f, reply))
  }

  /** The answer and document texts of each file's reply, in upload order. */
  function Outcomes(js: Js, fs: seq<File>, replies: seq<HttpReply>): (outs: seq<(string, Option<Json>)>)
    requires |replies| == |fs|
    ensures |outs| == |fs|
  {
    seq(|fs|, i requires 0 <= i < |fs| => UploadReplyText(js, fs[i], replies[i]))
  }

  /** Ids as `crypto.randomUUID` draws them: pairwise distinct, and carried by
      no item of the history `h`. */
  predicate FreshIds(ids: seq<string>, h: seq<HistoryItem>) {
    && (forall i, j :: 0 <= i < j < |ids| ==> ids[i] != ids[j])
    && (forall i, k :: 0 <= i < |ids| && 0 <= k < |h| ==> ids[i] != h[k].id)
  }

  /** The loop over the files once each file's answer and document text are known. */
  function RecordEach(st: ChatState, fs: seq<File>, ids: seq<string>, times: seq<int>,
                      outs: seq<(string, Option<Json>)>): (r: ChatState)
    requires |ids| == |fs| && |times| == |fs| && |outs| == |fs|
    requires forall i :: 0 <= i < |ids| ==> ids[i] != ""
    ensures r.files == st.files && r.selectedImage == st.selectedImage
    ensures r.store.prefs == st.store.prefs && r.store.conversations == st.store.conversations
    ensures |fs| > 0 ==>
      && !r.loading
      && |r.store.history| > 0
      && r.store.history[0] == RecordedItem(fs[|fs| - 1], ids[|fs| - 1], times[|fs| - 1], outs[|fs| - 1])
    ensures |fs| == 0 ==> r == st
    decreases |fs|
  {
    if |fs| == 0 then st
    else RecordEach(Record(st, fs[0], ids[0], times[0], outs[0]), fs[1..], ids[1..], times[1..], outs[1..])
  }

  /** The loop of `handleFileUpload` over the files, each with its own id, time
      and reply. */
  function UploadEach(js: Js, st: ChatState, fs: seq<File>, ids: seq<string>, times: seq<int>,
                      replies: seq<HttpReply>): (r: ChatState)
    requires |ids| == |fs| && |times| == |fs| && |replies| == |fs|
    requires forall i :: 0 <= i < |ids| ==> ids[i] != ""
    ensures r.files == st.files && r.selectedImage == st.selectedImage
    ensures r.store.prefs == st.store.prefs && r.store.conversations == st.store.conversations
    ensures |fs| > 0 ==>
      && !r.loading
      && |r.store.history| > 0
      && r.store.history[0] == UploadedItem(js, fs[|fs| - 1], ids[|fs| - 1], times[|fs| - 1], replies[|fs| - 1])
    ensures |fs| == 0 ==> r == st
    ensures (forall i :: 0 <= i < |fs| ==> IsImage(fs[i])) ==> r.documentContext == st.documentContext
  {
    var outs := Outcomes(js, fs, replies);
    RecordEachDocument(st, fs, ids, times, outs);
    LastDocumentIsLast(outs, st.documentContext);
    RecordEach(st, fs, ids, times, outs)
  }

  /** The context left after a run of uploads with outcomes `outs`: each
      supplied document text replaces the one before. */
  function LastDocument(outs: seq<(string, Option<Json>)>, current: Option<Json>): Option<Json>
    decreases |outs|
  {
    if |outs| == 0 then current
    else LastDocument(outs[1..], if outs[0].1.Some? then outs[0].1 else current)
  }

  /** With no document text supplied `LastDocument` is `current`. */
  lemma {:induction false} LastDocumentNone(outs: seq<(string, Option<Json>)>, current: Option<Json>)
    requires forall i :: 0 <= i < |outs| ==> outs[i].1.None?
    ensures LastDocument(outs, current) == current
    decreases |outs|
  {
    if |outs| > 0 {
      assert forall j :: 0 <= j < |outs[1..]| ==> outs[1..][j] == outs[j + 1];
      LastDocumentNone(outs[1..], current);
    }
  }

  /** The text of outcome `i` survives when no later outcome supplies one. */
  lemma {:induction false} LastDocumentAt(outs: seq<(string, Option<Json>)>, current: Option<Json>, i: nat)
    requires i < |outs| && outs[i].1.Some?
    requires forall j :: i < j < |outs| ==> outs[j].1.None?
    ensures LastDocument(outs, current) == outs[i].1
    decreases |outs|
  {
    var next := if outs[0].1.Some? then outs[0].1 else current;
    assert forall j :: 0 <= j < |outs[1..]| ==> outs[1..][j] == outs[j + 1];
    if i == 0 {
      LastDocumentNone(outs[1..], next);
    } else {
      LastDocumentAt(outs[1..], next, i - 1);
    }
  }

  /** `LastDocument` is the last supplied text, or `current` when there is none. */
  lemma LastDocumentIsLast(outs: seq<(string, Option<Json>)>, current: Option<Json>)
    ensures (forall i :: 0 <= i < |outs| ==> outs[i].1.None?) ==> LastDocument(outs, current) == current
    ensures forall i | 0 <= i < |outs| && outs[i].1.Some? && (forall j :: i < j < |outs| ==> outs[j].1.None?) ::
      LastDocument(outs, current) == outs[i].1
  {
    if forall i :: 0 <= i < |outs| ==> outs[i].1.None? {
      LastDocumentNone(outs, current);
    }
    forall i | 0 <= i < |outs| && outs[i].1.Some? && (forall j :: i < j < |outs| ==> outs[j].1.None?)
      ensures LastDocument(outs, current) == outs[i].1
    {
      LastDocumentAt(outs, current, i);
    }
  }

  /** After the loop the document context is what the outcomes leave. */
  lemma {:induction false} RecordEachDocument(st: ChatState, fs: seq<File>, ids: seq<string>, times: seq<int>,
                                              outs: seq<(string, Option<Json>)>)
    requires |ids| == |fs| && |times| == |fs| && |outs| == |fs|
    requires forall i :: 0 <= i < |ids| ==> ids[i] != ""
    ensures RecordEach(st, fs, ids, times, outs).documentContext == LastDocument(outs, st.documentContext)
    decreases |fs|
  {
    if |fs| > 0 {
      var next := Record(st, fs[0], ids[0], times[0], outs[0]);
      RecordEachDocument(next, fs[1..], ids[1..], times[1..], outs[1..]);
    }
  }

  /** After `handleFileUpload`'s loop the context is the one `LastDocument`
      picks from the files' outcomes. */
  lemma UploadEachLastDocument(js: Js, st: ChatState, fs: seq<File>, ids: seq<string>,
                               times: seq<int>, replies: seq<HttpReply>)
    requires |ids| == |fs| && |times| == |fs| && |replies| == |fs|
    requires forall i :: 0 <= i < |ids| ==> ids[i] != ""
    ensures UploadEach(js, st, fs, ids, times, replies).documentContext ==
      LastDocument(Outcomes(js, fs, replies), st.documentContext)
    ensures forall i :: 0 <= i < |fs| ==> Outcomes(js, fs, replies)[i].1 == DocumentOf(js, fs[i], replies[i])
  {
    RecordEachDocument(st, fs, ids, times, Outcomes(js, fs, replies));
  }

  /** When no file supplies a document text the context stays as it was. */
  lemma UploadEachKeepsDocument(js: Js, st: ChatState, fs: seq<File>, ids: seq<string>,
                                times: seq<int>, replies: seq<HttpReply>)
    requires |ids| == |fs| && |times| == |fs| && |replies| == |fs|
    requires forall i :: 0 <= i < |ids| ==> ids[i] != ""
    requires forall i :: 0 <= i < |fs| ==> DocumentOf(js, fs[i], replies[i]).None?
    ensures UploadEach(js, st, fs, ids, times, replies).documentContext == st.documentContext
  {
    var outs := Outcomes(js, fs, replies);
    UploadEachLastDocument(js, st, fs, ids, times, replies);
    LastDocumentIsLast(outs, st.documentContext);
  }

  /** File `i`'s document text stays the context when no later file supplies one. */
  lemma UploadEachLastSupplied(js: Js, st: ChatState, fs: seq<File>, ids: seq<string>,
                               times: seq<int>, replies: seq<HttpReply>, i: nat)
    requires |ids| == |fs| && |times| == |fs| && |replies| == |fs|
    requires forall i :: 0 <= i < |ids| ==> ids[i] != ""
    requires i < |fs| && DocumentOf(js, fs[i], replies[i]).Some?
    requires forall j :: i < j < |fs| ==> DocumentOf(js, fs[j], replies[j]).None?
    ensures UploadEach(js, st, fs, ids, times, replies).documentContext == DocumentOf(js, fs[i], replies[i])
  {
    var outs := Outcomes(js, fs, replies);
    UploadEachLastDocument(js, st, fs, ids, times, replies);
    LastDocumentIsLast(outs, st.documentContext);
  }

  /** After `handleFileUpload`'s loop the document context is the document text
      of the last file that supplied one, or the earlier context when none did. */
  lemma UploadEachDocument(js: Js, st: ChatState, fs: seq<File>, ids: seq<string>,
                           times: seq<int>, replies: seq<HttpReply>)
    requires |ids| == |fs| && |times| == |fs| && |replies| == |fs|
    requires forall i :: 0 <= i < |ids| ==> ids[i] != ""
    ensures (forall i :: 0 <= i < |fs| ==> DocumentOf(js, fs[i], replies[i]).None?) ==>
      UploadEach(js, st, fs, ids, times, replies).documentContext == st.documentContext
    ensures forall i | 0 <= i < |fs| && DocumentOf(js, fs[i], replies[i]).Some? &&
      (forall j :: i < j < |fs| ==> DocumentOf(js, fs[j], replies[j]).None?) ::
      UploadEach(js, st, fs, ids, times, replies).documentContext == DocumentOf(js, fs[i], replies[i])
  {
    if forall i :: 0 <= i < |fs| ==> DocumentOf(js, fs[i], replies[i]).None? {
      UploadEachKeepsDocument(js, st, fs, ids, times, replies);
    }
    forall i | 0 <= i < |fs| && DocumentOf(js, fs[i], replies[i]).Some? &&
               (forall j :: i < j < |fs| ==> DocumentOf(js, fs[j], replies[j]).None?)
      ensures UploadEach(js, st, fs, ids, times, replies).documentContext == DocumentOf(js, fs[i], replies[i])
    {
      UploadEachLastSupplied(js, st, fs, ids, times, replies, i);
    }
  }

  /** With a fresh id the answered item heads the history, followed by the 49
      newest earlier items. */
  lemma RecordHistory(st: ChatState, f: File, id: string, now: int, out: (string, Option<Json>))
    requires id != ""
    requires forall k :: 0 <= k < |st.store.history| ==> st.store.history[k].id != id
    ensures Record(st, f, id, now, out).store.history ==
      [RecordedItem(f, id, now, out)] + Seqs.Take(st.store.history, MaxHistory - 1)
  {
    var h := st.store.history;
    WithoutAbsentId(h, id);
    var p := AddPlaceholder(st.store, UploadMessage(f), id, now).history;
    var r := Record(st, f, id, now, out).store.history;
    var want := [RecordedItem(f, id, now, out)] + Seqs.Take(h, MaxHistory - 1);
    assert |r| == |p| == |want|;
    forall k | 0 <= k < |r| ensures r[k] == want[k] {
      if k > 0 {
        assert p[k] == p[1..][k - 1];
      }
    }
  }

  /** The answered items of a run of uploads, in upload order. */
  function RecordedItems(fs: seq<File>, ids: seq<string>, times: seq<int>,
                         outs: seq<(string, Option<Json>)>): (items: seq<HistoryItem>)
    requires |ids| == |fs| && |times| == |fs| && |outs| == |fs|
    ensures |items| == |fs|
    ensures forall i :: 0 <= i < |fs| ==> items[i] == RecordedItem(fs[i], ids[i], times[i], outs[i])
  {
    seq(|fs|, i requires 0 <= i < |fs| => RecordedItem(fs[i], ids[i], times[i], outs[i]))
  }

  /** The items of a non-empty run: the first file's, then the rest's. */
  lemma RecordedItemsTail(fs: seq<File>, ids: seq<string>, times: seq<int>, outs: seq<(string, Option<Json>)>)
    requires 0 < |fs| && |ids| == |fs| && |times| == |fs| && |outs| == |fs|
    ensures RecordedItems(fs, ids, times, outs)[0] == RecordedItem(fs[0], ids[0], times[0], outs[0])
    ensures RecordedItems(fs, ids, times, outs)[1..] == RecordedItems(fs[1..], ids[1..], times[1..], outs[1..])
  {
    var items := RecordedItems(fs, ids, times, outs);
    var rest := RecordedItems(fs[1..], ids[1..], times[1..], outs[1..]);
    forall k | 0 <= k < |rest| ensures items[1..][k] == rest[k] {
      assert fs[1..][k] == fs[k + 1] && ids[1..][k] == ids[k + 1];
      assert times[1..][k] == times[k + 1] && outs[1..][k] == outs[k + 1];
    }
  }

  /** The ids still to come stay fresh once the first one's item is pushed. */
  lemma FreshIdsAfterPush(ids: seq<string>, item: HistoryItem, h: seq<HistoryItem>)
    requires |ids| > 0 && FreshIds(ids, h) && item.id == ids[0]
    ensures FreshIds(ids[1..], [item] + Seqs.Take(h, MaxHistory - 1))
  {
    var h1 := [item] + Seqs.Take(h, MaxHistory - 1);
    forall i, k | 0 <= i < |ids[1..]| && 0 <= k < |h1| ensures ids[1..][i] != h1[k].id {
      if k > 0 { assert h1[k] == h[k - 1]; }
    }
  }

  /** The first upload of a run with fresh ids pushes its item and leaves the
      remaining ids fresh. */
  lemma RecordFirst(st: ChatState, fs: seq<File>, ids: seq<string>, times: seq<int>,
                    outs: seq<(string, Option<Json>)>)
    requires 0 < |fs| && |ids| == |fs| && |times| == |fs| && |outs| == |fs|
    requires forall i :: 0 <= i < |ids| ==> ids[i] != ""
    requires FreshIds(ids, st.store.history)
    ensures var h := Record(st, fs[0], ids[0], times[0], outs[0]).store.history;
      && h == [RecordedItem(fs[0], ids[0], times[0], outs[0])] + Seqs.Take(st.store.history, MaxHistory - 1)
      && FreshIds(ids[1..], h)
  {
    var item0 := RecordedItem(fs[0], ids[0], times[0], outs[0]);
    RecordHistory(st, fs[0], ids[0], times[0], outs[0]);
    FreshIdsAfterPush(ids, item0, st.store.history);
  }

  /** With fresh ids the loop pushes each answered item in turn on the capped
      history. */
  lemma {:induction false} RecordEachPushes(st: ChatState, fs: seq<File>, ids: seq<string>, times: seq<int>,
                                            outs: seq<(string, Option<Json>)>)
    requires |ids| == |fs| && |times| == |fs| && |outs| == |fs|
    requires forall i :: 0 <= i < |ids| ==> ids[i] != ""
    requires FreshIds(ids, st.store.history)
    ensures RecordEach(st, fs, ids, times, outs).store.history ==
      Seqs.PushCapped(st.store.history, RecordedItems(fs, ids, times, outs), MaxHistory)
    decreases |fs|
  {
    if |fs| > 0 {
      var next := Record(st, fs[0], ids[0], times[0], outs[0]);
      RecordFirst(st, fs, ids, times, outs);
      RecordEachPushes(next, fs[1..], ids[1..], times[1..], outs[1..]);
      RecordedItemsTail(fs, ids, times, outs);
    }
  }

  /** `handleFileUpload`'s loop with fresh ids: the answered items stand newest
      first on top of the earlier history cut to what still fits. */
  lemma UploadEachStacks(js: Js, st: ChatState, fs: seq<File>, ids: seq<string>,
                         times: seq<int>, replies: seq<HttpReply>)
    requires |ids| == |fs| && |times| == |fs| && |replies| == |fs|
    requires forall i :: 0 <= i < |ids| ==> ids[i] != ""
    requires FreshIds(ids, st.store.history)
    requires |fs| <= MaxHistory && |st.store.history| <= MaxHistory
    ensures UploadEach(js, st, fs, ids, times, replies).store.history ==
      Seqs.Reverse(RecordedItems(fs, ids, times, Outcomes(js, fs, replies))) +
      Seqs.Take(st.store.history, MaxHistory - |fs|)
  {
    var outs := Outcomes(js, fs, replies);
    RecordEachPushes(st, fs, ids, times, outs);
    Seqs.PushCappedAll(st.store.history, RecordedItems(fs, ids, times, outs), MaxHistory);
  }

  /** File `i`'s answered item sits `i` places below the top. */
  lemma UploadEachItemAt(js: Js, st: ChatState, fs: seq<File>, ids: seq<string>,
                         times: seq<int>, replies: seq<HttpReply>, i: nat)
    requires |ids| == |fs| && |times| == |fs| && |replies| == |fs|
    requires forall i :: 0 <= i < |ids| ==> ids[i] != ""
    requires FreshIds(ids, st.store.history)
    requires |fs| <= MaxHistory && |st.store.history| <= MaxHistory
    requires i < |fs|
    ensures |UploadEach(js, st, fs, ids, times, replies).store.history| >= |fs|
    ensures UploadEach(js, st, fs, ids, times, replies).store.history[|fs| - 1 - i] ==
      UploadedItem(js, fs[i], ids[i], times[i], replies[i])
  {
    var items := RecordedItems(fs, ids, times, Outcomes(js, fs, replies));
    UploadEachStacks(js, st, fs, ids, times, replies);
    assert Seqs.Reverse(items)[|fs| - 1 - i] == items[i];
  }

  /** `handleFileUpload`'s loop with fresh ids, position by position: file `i`'s
      answered item at `|fs| - 1 - i`, then the earlier history cut to what
      still fits under the cap of 50. */
  lemma UploadEachHistory(js: Js, st: ChatState, fs: seq<File>, ids: seq<string>,
                          times: seq<int>, replies: seq<HttpReply>)
    requires |ids| == |fs| && |times| == |fs| && |replies| == |fs|
    requires forall i :: 0 <= i < |ids| ==> ids[i] != ""
    requires FreshIds(ids, st.store.history)
    requires |fs| <= MaxHistory && |st.store.history| <= MaxHistory
    ensures var h := UploadEach(js, st, fs, ids, times, replies).store.history;
      && |h| == |fs| + |Seqs.Take(st.store.history, MaxHistory - |fs|)|
      && (forall i :: 0 <= i < |fs| ==> h[|fs| - 1 - i] == UploadedItem(js, fs[i], ids[i], times[i], replies[i]))
      && h[|fs|..] == Seqs.Take(st.store.history, MaxHistory - |fs|)
  {
    UploadEachStacks(js, st, fs, ids, times, replies);
    forall i | 0 <= i < |fs|
      ensures UploadEach(js, st, fs, ids, times, replies).store.history[|fs| - 1 - i] ==
              UploadedItem(js, fs[i], ids[i], times[i], replies[i])
    {
      UploadEachItemAt(js, st, fs, ids, times, replies, i);
    }
  }

  /** `handleFileUpload`: all files join the upload list first, then each is
      uploaded in turn; the last file's answer ends on top, and the document
      context is the last document text supplied. */
  function HandleFileUpload(js: Js, st: ChatState, fs: seq<File>, ids: seq<string>, times: seq<int>,
                            replies: seq<HttpReply>): (r: ChatState)
    requires |ids| == |fs| && |times| == |fs| && |replies| == |fs|
    requires forall i :: 0 <= i < |ids| ==> ids[i] != ""
    ensures r.files == st.files + fs
    ensures r.selectedImage == st.selectedImage
    ensures r.store.prefs == st.store.prefs && r.store.conversations == st.store.conversations
    ensures |fs| == 0 ==> r == st.(files := st.files + fs)
    ensures |fs| > 0 ==>
      && !r.loading
      && |r.store.history| > 0
      && r.store.history[0] == UploadedItem(js, fs[|fs| - 1], ids[|fs| - 1], times[|fs| - 1], replies[|fs| - 1])
    ensures FreshIds(ids, st.store.history) && |fs| <= MaxHistory && |st.store.history| <= MaxHistory ==>
      && |r.store.history| == |fs| + |Seqs.Take(st.store.history, MaxHistory - |fs|)|
      && (forall i :: 0 <= i < |fs| ==> r.store.history[|fs| - 1 - i] == UploadedItem(js, fs[i], ids[i], times[i], replies[i]))
      && r.store.history[|fs|..] == Seqs.Take(st.store.history, MaxHistory - |fs|)
    ensures (forall i :: 0 <= i < |fs| ==> DocumentOf(js, fs[i], replies[i]).None?) ==>
      r.documentContext == st.documentContext
    ensures forall i | 0 <= i < |fs| && DocumentOf(js, fs[i], replies[i]).Some? &&
      (forall j :: i < j < |fs| ==> DocumentOf(js, fs[j], replies[j]).None?) ::
      r.documentContext == DocumentOf(js, fs[i], replies[i])
  {
    var start := st.(files := st.files + fs);
    UploadEachDocument(js, start, fs, ids, times, replies);
    if FreshIds(ids, st.store.history) && |fs| <= MaxHistory && |st.store.history| <= MaxHistory then
      UploadEachHistory(js, start, fs, ids, times, replies);
      UploadEach(js, start, fs, ids, times, replies)
    else
      UploadEach(js, start, fs, ids, times, replies)
  }

  // ---------------------------------------------------------------- image search

  /** `handleImageSearch` up to its `await`. */
  function BeginImageSearch(st: ChatState, f: File, newId: string, now: int): (r: (ChatState, Request))
    requires newId != ""
    ensures |r.0.store.history| > 0
    ensures r.0.store.history[0] == HistoryItem(newId, "Searching for images similar to '" + f.name + "'...", None, now)
    ensures r.0.loading && r.0.files == st.files && r.0.selectedImage == st.selectedImage
    ensures r.0.store.history[1..] == Seqs.Take(WithoutId(st.store.history, newId), MaxHistory - 1)
    ensures r.0.store.prefs == st.store.prefs && r.0.store.conversations == st.store.conversations
    ensures r.0 == st.(store := r.0.store, loading := true)
    ensures r.1 == ImageSearchRequest("Find similar images", f, GetStoredPreferences(st.store).language)
  {
    var s := AddPlaceholder(st.store, "Searching for images similar to '" + f.name + "'...", newId, now);
    (st.(store := s, loading := true), ImageSearchRequest("Find similar images", f, GetStoredPreferences(s).language))
  }

  /** `handleImageSearch` after its `await`: patches its placeholder only. */
  function CompleteImageSearch(js: Js, st: ChatState, f: File, newId: string, reply: HttpReply): (r: ChatState)
    ensures SearchImage(js, reply).Success? ==>
      PatchesOnly(st.store.history, r.store.history, newId, "Opened Google Images search for '" + f.name + "' in a new tab.")
    ensures SearchImage(js, reply).Failure? ==>
      PatchesOnly(st.store.history, r.store.history, newId, SearchImage(js, reply).error)
    ensures r == st.(store := r.store, loading := false)
    ensures r.store.prefs == st.store.prefs && r.store.conversations == st.store.conversations
  {
    var text := match SearchImage(js, reply)
      case Success(_) => "Opened Google Images search for '" + f.name + "' in a new tab."
      case Failure(m) => m;
    st.(store := UpdateHistoryItemResponse(st.store, newId, text), loading := false)
  }

  /** A whole `handleImageSearch`: the search's item heads the history with the
      confirmation or the error, the earlier items are those the placeholder
      left, and nothing else changes. */
  lemma ImageSearchRoundTrip(js: Js, st: ChatState, f: File, newId: string, now: int, reply: HttpReply)
    requires newId != ""
    ensures var (mid, _) := BeginImageSearch(st, f, newId, now);
      var r := CompleteImageSearch(js, mid, f, newId, reply);
      && |r.store.history| > 0
      && r.store.history[0] == HistoryItem(newId, "Searching for images similar to '" + f.name + "'...",
           Some(if SearchImage(js, reply).Success? then "Opened Google Images search for '" + f.name + "' in a new tab."
                else SearchImage(js, reply).error), now)
      && r.store.history[1..] == Seqs.Take(WithoutId(st.store.history, newId), MaxHistory - 1)
      && r == st.(store := r.store, loading := false)
      && r.store.prefs == st.store.prefs && r.store.conversations == st.store.conversations
  {
    var (mid, _) := BeginImageSearch(st, f, newId, now);
    var r := CompleteImageSearch(js, mid, f, newId, reply);
    assert r.store.history[1..] == mid.store.history[1..];
  }

  // ---------------------------------------------------------------- selection and reset

  /** `handleSelectImageForSearch`: only an existing image file can be selected. */
  function SelectImageForSearch(st: ChatState, index: int): (r: ChatState)
    ensures 0 <= index < |st.files| && IsImage(st.files[index]) ==> r.selectedImage == Some(st.files[index])
    ensures !(0 <= index < |st.files| && IsImage(st.files[index])) ==> r == st
    ensures r == st.(selectedImage := r.selectedImage)
  {
    if 0 <= index < |st.files| && IsImage(st.files[index])
    then st.(selectedImage := Some(st.files[index]))
    else st
  }

  /** `handleRemoveFile`: drops exactly the file at `index`. */
  function RemoveFile(st: ChatState, index: int): (r: ChatState)
    ensures 0 <= index < |st.files| ==> |r.files| == |st.files| - 1
    ensures 0 <= index < |st.files| ==> forall i :: 0 <= i < |r.files| ==>
      r.files[i] == (if i < index then st.files[i] else st.files[i + 1])
    ensures !(0 <= index < |st.files|) ==> r == st
    ensures r == st.(files := r.files)
  {
    st.(files := Seqs.RemoveAt(st.files, index))
  }

  /** `handleClearChat`: empties the history without archiving it. */
  function ClearChat(st: ChatState): (r: ChatState)
    ensures r.store.history == [] && r.files == [] && r.selectedImage.None? && r.documentContext.None?
    ensures r.store.conversations == st.store.conversations && r.store.prefs == st.store.prefs
    ensures r.loading == st.loading
  {
    st.(store := ClearHistory(st.store), files := [], selectedImage := None, documentContext := None)
  }

  /** `handleNewConversation`: archives the history first, then empties it and
      forgets the uploads and the document; the image selection is kept. */
  function NewConversation(st: ChatState, freshId: string, now: int): (r: ChatState)
    ensures r.store == ArchiveCurrentConversation(st.store, freshId, now)
    ensures r.store.history == [] && r.files == [] && r.documentContext.None?
    ensures r.selectedImage == st.selectedImage && r.loading == st.loading
  {
    st.(store := ArchiveCurrentConversation(st.store, freshId, now), files := [], documentContext := None)
  }

  /** Starting a new conversation and picking it back from the archive restores
      the conversation that was on screen. */
  lemma NewConversationThenRestore(st: ChatState, freshId: string, now: int)
    requires |st.store.history| > 0
    ensures RestoreConversation(NewConversation(st, freshId, now).store, freshId).1 == st.store.history
  {
    ArchiveThenRestore(st.store, freshId, now);
  }
}

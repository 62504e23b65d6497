# MitraAI front end, modelled in Dafny

MitraAI is a browser assistant. Its React front end keeps three things in
`localStorage`:

- the user's preferences (name, language, gender, theme);
- the active conversation, newest first and capped at 50 items;
- an archive of past conversations, capped at 10.

It talks to a backend over HTTP for chat, document and image analysis, image
search, translation and image-to-PDF conversion. Its modal dialogs each keep a
small form state.

This project models that core as pure functions over immutable data. The model
has four layers:

- **Local store** (`local_storage.dfy`): the three storage keys as one `Store`
  value. Fresh ids (`crypto.randomUUID`) and clock readings (`Date.now`) are
  parameters.
- **HTTP gateway** (`api_service.dfy`). Each call is a function of the reply it
  gets. A reply is either a network failure or a status with a body. The body
  is parsed JSON (`json.dfy`), or the syntax error `response.json()` throws.
  A rejected promise is `Failure(message)`.
- **Chat component** (`assistant.dfy`). Each asynchronous handler is split at
  its `await` into a `Begin…` step and a `Complete…` step:
  - `Begin…` inserts a pending placeholder under a fresh id and yields the
    request it sends;
  - `Complete…` patches that placeholder with the answer or with the error
    text.
- **Helpers and dialogs**:
  - the preference-driven texts (`assistant_utils.dfy`);
  - the weather icon choice (`weather_lottie.dfy`);
  - the image-to-PDF, image-processing and translation dialogs
    (`image_to_pdf.dfy`, `image_processing.dfy`, `translation.dfy`).

The JavaScript runtime's own outputs appear as parameters: `JSON.stringify`,
`String(v)` for a non-string value, and the message of a `TypeError` from
reading a property of `null`. Together they form the record `Json.Js`. The
string operations `trim`, `includes` and `split` are written out in `text.dfy`
after JavaScript's definitions. `toLowerCase` and `parseInt` are written out
there too, with the restrictions listed under "Left out": ASCII letters only,
and decimal digits only.

A browser `File` is an object, and the code compares files with `===` and
`!==`. In `browser.dfy` each `File` value carries a `handle` that stands for
that object. Two uploads of the same file on disk are two objects with
different handles.

Main proved properties:

- Every sequence of store operations keeps the history at 50 items or fewer
  and the archive at 10 conversations or fewer.
- Adding an item keeps the history newest first, as long as the clock does not
  run backwards.
- Archiving a conversation and then restoring it gives the same history back.
- A send's placeholder-then-patch round trip leaves the new item at the head,
  with its answer filled in.
- The weather icon is chosen by the first matching keyword group, in priority
  order, and letter case does not affect the choice.
- The image-to-PDF selection never holds more than 10 files and never holds a
  non-image.
- Swapping the translation languages twice restores the dialog.

## Model

| member | source | states |
|---|---|---|
| LocalStorage.GetStoredPreferences | src/utils/localStorage.ts:10-28 | every preference field is the stored value when present, else its default (empty name, English, neutral, dark); no stored blob gives exactly the defaults |
| LocalStorage.UpdatePreference | src/utils/localStorage.ts:31-45 | exactly the chosen field takes the new value, the others keep their current value; reading the preferences back gives what was returned; history and archive are untouched |
| LocalStorage.ClearPreferences | src/utils/localStorage.ts:48-54 | after clearing, every preference reads as its default; history and archive are untouched |
| LocalStorage.AddHistoryItem | src/utils/localStorage.ts:95-116 | the new item heads the history with the supplied id (or the fresh one when none or an empty one is given); at most 50 items; the rest is a subsequence of the old history; a supplied id occurs nowhere else, and the rest is the 49 newest old items with another id; without an id the rest is the 49 newest old items |
| LocalStorage.PatchResponse | src/utils/localStorage.ts:81-83 | same length; items with the id get the response and keep id, query and time; all other items are unchanged; an unknown id changes nothing |
| LocalStorage.UpdateHistoryItemResponse | src/utils/localStorage.ts:79-92 | the stored history is patched at the id; preferences and archive are untouched |
| LocalStorage.PatchTwice | src/utils/localStorage.ts:79-92 | patching the same id twice keeps only the second response |
| LocalStorage.ClearHistory | src/utils/localStorage.ts:119-125 | the history becomes empty; preferences and archive are untouched |
| LocalStorage.ArchiveTitle | src/utils/localStorage.ts:157-159 | a query of up to 30 characters is its own title; a longer one becomes its first 30 characters followed by "..." (33 in all) |
| LocalStorage.ArchiveCurrentConversation | src/utils/localStorage.ts:149-180 | a non-empty history becomes the newest archived conversation, titled after its oldest query, with the 9 newest earlier conversations after it; an empty history leaves the archive alone; the history always ends empty |
| LocalStorage.DeleteConversation | src/utils/localStorage.ts:183-194 | no conversation with the id remains; every other one does, in order and as many times as before; an unknown id changes nothing |
| LocalStorage.FindConversation | src/utils/localStorage.ts:211 | the position of the first conversation with the id, or none exactly when no conversation has it |
| LocalStorage.RestoreConversation | src/utils/localStorage.ts:209-224 | the first conversation with the id becomes the history and its items are returned; an unknown id returns the empty list and changes nothing |
| LocalStorage.ClearAllData | src/utils/localStorage.ts:196-206 | preferences read as the defaults; history and archive are empty |
| LocalStorage.ArchiveThenRestore | src/utils/localStorage.ts:149-224 | restoring the conversation that was just archived gives the archived history back |
| LocalStorage.DeleteThenRestore | src/utils/localStorage.ts:183-224 | a deleted conversation can no longer be restored: restoring its id returns the empty list and changes nothing |
| LocalStorage.AddKeepsNewestFirst | src/utils/localStorage.ts:95-116 | with a clock that does not run backwards, adding an item keeps the history ordered newest first |
| LocalStorage.StepPreservesValid | src/utils/localStorage.ts:79-224 | every store operation keeps at most 50 history items, at most 10 archived conversations, and non-empty conversations whose titles are at most 33 characters |
| LocalStorage.RunPreservesValid | src/utils/localStorage.ts:107-169 | any sequence of store operations keeps those bounds |
| Seqs.Take | src/utils/localStorage.ts:107 | `slice(0, n)`: the first n elements, or all of them when there are fewer |
| Seqs.Filter | src/utils/localStorage.ts:105 | only elements that pass are kept, every element that passes is kept, and the original order is preserved |
| Seqs.FilterCounts | src/utils/localStorage.ts:105 | every value that passes is kept as many times as it occurs, and no value that fails is kept |
| Seqs.FilterOutOne | src/components/AIAssistant.tsx:98 | in a sequence without repetitions, filtering out the value at one position removes exactly that position |
| Seqs.RemoveAt | src/components/ImageToPdfModal.tsx:49 | an index in range removes exactly that element; any other index removes nothing |
| ApiService.ConvertHistoryForBackend | src/utils/apiService.ts:6-11 | one turn per item, in order; an item with a non-empty response is a model turn carrying it, any other is a user turn carrying the query |
| ApiService.ConvertAfterPatch | src/utils/apiService.ts:6-11 | after a placeholder is patched with a non-empty answer, its turns become model turns with that answer and every other turn is unchanged |
| ApiService.StatusMessage | src/utils/apiService.ts:59 | the fallback message starts with "Error: " followed by at least one character |
| ApiService.StatusMessageCarriesStatus | src/utils/apiService.ts:59 | the text after "Error: " parses back to the status |
| ApiService.ErrorMessage | src/utils/apiService.ts:57-65 | a non-empty string `error` field of the body is the message; any other truthy `error` is the message as text; a body that does not parse or has no truthy `error` gives the status message |
| ApiService.ErrorMessageNotEmpty | src/utils/apiService.ts:57-65 | unless `error` holds a non-string value, the message of a failed reply is never empty |
| ApiService.GetResponse | src/utils/apiService.ts:39-92 | a network failure, a non-OK status or an unparsable body is a failure with its message; a string `response` is the answer; an object or array `response` is serialised; anything else gives the fixed "unexpected format" text |
| ApiService.SearchImage | src/utils/apiService.ts:167-209 | succeeds exactly when the reply is OK and `searchUrl` is a non-empty string, giving that URL; an OK reply without one fails with "Backend did not return a valid search URL." |
| ApiService.GetGreeting | src/utils/apiService.ts:16-36 | never fails: any failure gives "Hello <name>!"; otherwise the reply's `response` value |
| ApiService.AnalyzeDocument | src/utils/apiService.ts:95-118 | a non-OK status gives "Error: <status>" without reading the body; an OK body has `extracted_text` renamed and `response` passed through |
| ApiService.AnalyzeImage | src/utils/apiService.ts:121-141 | a non-OK status gives the status message; an OK reply gives its `analysis` value as sent |
| ApiService.TranslateText | src/utils/apiService.ts:212-241 | succeeds with the parsed body exactly when the reply is OK and parses; a non-OK reply gives the body's error or the status message; an OK reply whose body does not parse fails with the parser's message |
| ApiService.ConvertImagesToPdf | src/utils/apiService.ts:244-274 | succeeds exactly when the reply is OK; a non-OK reply gives the body's error or the status message |
| AssistantUtils.Greetings | src/utils/assistantUtils.ts:5-18 | the neutral table has four greetings per language and the gendered ones three |
| AssistantUtils.PickIndex | src/utils/assistantUtils.ts:24 | `Math.floor(Math.random() * n)` is always a valid index |
| AssistantUtils.GetGreeting | src/utils/assistantUtils.ts:21-30 | some greeting from the table for the stored gender and language, followed by ", <name>!" when a name is stored and by "!" otherwise |
| AssistantUtils.GreetingNamesUser | src/utils/assistantUtils.ts:21-30 | once a name is saved, every greeting is one from the table for the gender and language already chosen, followed by ", <name>!" |
| AssistantUtils.Localized | src/utils/assistantUtils.ts:33-46 | the placeholder and the description are the English text when the stored language is English or nothing is stored, and the Hindi text when it is Hindi |
| AssistantUtils.GetPlaceholderText | src/utils/assistantUtils.ts:33-38 | "Ask me anything..." for English, "कुछ भी पूछें..." for Hindi |
| AssistantUtils.GetDescriptionText | src/utils/assistantUtils.ts:41-46 | the English description of what the assistant can do for English, its Hindi translation for Hindi |
| AssistantUtils.GetAssistantName | src/utils/assistantUtils.ts:83-91 | "Aiden" exactly for male, "Sophia" exactly for female, "Mitra" exactly for neutral |
| AssistantUtils.AssistantNameFollowsGender | src/utils/assistantUtils.ts:83-91 | after the gender preference is set, the name follows it; a store with no preferences yields "Mitra" |
| AssistantUtils.FileSizeUnit | src/utils/assistantUtils.ts:76-80 | bytes below 1024, kilobytes below 1024 * 1024, megabytes from there on |
| Assistant.AddPlaceholder | src/components/AIAssistant.tsx:68-71 | the pending item (no response) heads the history under its id, which occurs nowhere else; after it come the 49 newest earlier items with other ids |
| Assistant.EnhancedQuery | src/components/AIAssistant.tsx:104-107 | without a document the message is sent as is; with a document text it is wrapped as "Based on the following document: … Question: …" |
| Assistant.BeginSend | src/components/AIAssistant.tsx:67-115 | the placeholder heads the history; a selected image makes an image-search request with the raw message, otherwise a chat request with the enhanced query and the history after the placeholder; the stored language, and for a chat the stored gender capitalised, go with the request |
| Assistant.CoerceResult | src/components/AIAssistant.tsx:117-140 | a string is kept; an object's non-empty string `text`, else its non-empty string `response`, else the object serialised; any other value gives the fixed fallback |
| Assistant.SendReplyText | src/components/AIAssistant.tsx:76-150 | the text put into the placeholder: the search confirmation naming the file and the query on a successful image search, else the search's error; for a chat, exactly the gateway's answer when it resolves and its rejection message when it does not |
| Assistant.CompleteSend | src/components/AIAssistant.tsx:143-157 | only the items with the send's id change, to the reply text; an image search always drops the selection, and on success also removes the searched `File` object from the uploads |
| Assistant.SearchRemovesOnlyThatUpload | src/components/AIAssistant.tsx:96-98 | after a successful search only the searched upload is removed; another upload of the same file is a different object and stays |
| Assistant.SendRoundTrip | src/components/AIAssistant.tsx:67-158 | after a whole send the new item heads the history with its answer, and the items after it are those the placeholder step left |
| Assistant.CompleteAfterClear | src/components/AIAssistant.tsx:143-151 | a reply that arrives after the chat was cleared patches nothing |
| Assistant.UploadReplyText | src/components/AIAssistant.tsx:174-209 | per file kind: the image analysis string or the "unexpected analysis format" text; for a document, the processed notice and its extracted text when there is any, else the backend's response or the "no text" notice; the error message on failure |
| Assistant.UploadOne | src/components/AIAssistant.tsx:166-212 | one loop iteration: the placeholder is inserted and then patched with that file's text; the document context changes only when a document supplied text |
| Assistant.UploadEach | src/components/AIAssistant.tsx:165-213 | after the loop the last file's item heads the history with its answer and loading is off; uploads of images only leave the document context alone |
| Assistant.LastDocumentIsLast | src/components/AIAssistant.tsx:191-192 | each supplied document text replaces the context, so the last one supplied is what remains, and with none supplied the context is unchanged |
| Assistant.RecordEachDocument | src/components/AIAssistant.tsx:165-213 | the loop leaves the document context that the files' outcomes, taken in order, leave |
| Assistant.UploadEachDocument | src/components/AIAssistant.tsx:165-213 | after the loop the document context is the text of the last file that supplied one, or the earlier context when none did |
| Assistant.RecordHistory | src/components/AIAssistant.tsx:170-171 | with an id no earlier item carries, one upload leaves its answered item on top of the 49 newest earlier items |
| Assistant.RecordEachPushes | src/components/AIAssistant.tsx:165-213 | with fresh ids the loop pushes each file's answered item, in upload order, onto the history capped at 50 |
| Seqs.PushCappedAll | src/utils/localStorage.ts:107 | while everything fits under the cap, the pushed items end newest first on top of what is left of the earlier list |
| Assistant.UploadEachStacks | src/components/AIAssistant.tsx:165-213 | with fresh ids the history after the loop is the answered items newest first, followed by the earlier history cut to what still fits under 50 |
| Assistant.UploadEachHistory | src/components/AIAssistant.tsx:165-213 | with fresh ids and at most 50 files: file i's answered item stands at position n-1-i, and the rest of the history is the newest earlier items that still fit |
| Assistant.HandleFileUpload | src/components/AIAssistant.tsx:161-214 | all chosen files join the upload list before any upload; the selected image, preferences and archive are untouched; after at least one file loading is off and the last file's answered item is on top; with fresh ids the items stand in reverse upload order over the newest earlier items; the document context is the last document text supplied, else the earlier one |
| Assistant.BeginImageSearch | src/components/AIAssistant.tsx:264-277 | the "Searching for images similar to …" placeholder heads the history, followed by the 49 newest earlier items with other ids; only the store and the loading flag change; the request is the fixed query with the file and the stored language |
| Assistant.CompleteImageSearch | src/components/AIAssistant.tsx:279-302 | only the search's placeholder changes, to the confirmation or to the error message; nothing else in the state changes but the loading flag |
| Assistant.ImageSearchRoundTrip | src/components/AIAssistant.tsx:264-302 | after a whole image search its item heads the history with the confirmation or the search's error, the earlier items are those the placeholder left, loading has ended, and nothing else changes |
| Assistant.SelectImageForSearch | src/components/AIAssistant.tsx:246-251 | an in-range image file becomes the selection; anything else changes nothing |
| Assistant.RemoveFile | src/components/AIAssistant.tsx:217-219 | exactly the file at the index is removed; an out-of-range index changes nothing |
| Assistant.ClearChat | src/components/AIAssistant.tsx:254-261 | history, uploads, selection and document are cleared without archiving |
| Assistant.NewConversation | src/components/AIAssistant.tsx:222-233 | the history is archived and then emptied; uploads and document are cleared and the image selection is kept |
| Assistant.NewConversationThenRestore | src/components/AIAssistant.tsx:222-233 | picking the just-archived conversation from the archive gives back the conversation that was on screen |
| WeatherLottie.ClassifyCondition | src/components/WeatherLottie.tsx:25-53 | the day variant unless `isDayTime` is false; a condition that mentions "storm" always shows thunderstorms |
| WeatherLottie.ClassifyFollowsPriority | src/components/WeatherLottie.tsx:38-53 | the animation is that of the first keyword group, in priority order, that the lower-cased condition mentions, and clear sky when none does |
| WeatherLottie.ClassifyIgnoresCase | src/components/WeatherLottie.tsx:26 | the condition's letter case does not change the animation |
| WeatherLottie.UnknownLooksClear | src/components/WeatherLottie.tsx:48-53 | a condition that matches none of the first five groups shows the clear sky, whether or not it says "clear" or "sunny" |
| WeatherLottie.Pixels | src/components/WeatherLottie.tsx:25-33 | a square of 40, 60 or 80 pixels for small, medium or large; medium when no size is given |
| ImageToPdf.ValidationError | src/components/ImageToPdfModal.tsx:25-31 | all images leave the error as it was; otherwise the last rejected file's message is set |
| ImageToPdf.HandleFileChange | src/components/ImageToPdfModal.tsx:21-46 | the old selection is kept as a prefix; only images are added; at most 10 when there were at most 10; within the limit all valid files are appended and the error cleared; over it only the free slots are filled and the limit message is set |
| ImageToPdf.RejectionIsOverwritten | src/components/ImageToPdfModal.tsx:21-46 | the "is not an image" message never survives the handler: the error ends up cleared or the limit message |
| ImageToPdf.HandleRemoveImage | src/components/ImageToPdfModal.tsx:48-51 | exactly the image at the index is removed and the error cleared; nothing else changes |
| ImageToPdf.BeginConvert | src/components/ImageToPdfModal.tsx:53-61 | an empty selection sets "Please select at least one image" and sends nothing; otherwise the whole selection is sent and the state changes only in loading set and error and success cleared |
| ImageToPdf.CompleteConvert | src/components/ImageToPdfModal.tsx:63-83 | success sets the success flag; a failure sets the gateway's message, or "Failed to convert images to PDF" when that is empty; loading always ends |
| ImageToPdf.StepKeepsSelectionValid | src/components/ImageToPdfModal.tsx:21-84 | every event of the dialog keeps the selection at 10 files or fewer, all of them images |
| ImageToPdf.RunKeepsSelectionValid | src/components/ImageToPdfModal.tsx:21-84 | any sequence of events from a valid selection, such as the empty one, keeps it valid |
| ImageProcessing.HandleFileChange | src/components/ImageProcessingModal.tsx:33-57 | no file changes nothing; a non-image first file changes nothing and raises the "valid image" toast; an image becomes the selection and the form returns to its defaults |
| ImageProcessing.DimensionOf | src/components/ImageProcessingModal.tsx:78-79 | an empty field is left unset; any other is sent as `parseInt` of it, which is NaN when no number can be read |
| ImageProcessing.BeginProcess | src/components/ImageProcessingModal.tsx:67-83 | without an image only a toast; otherwise the request carries the image, the parsed dimensions, quality and aspect flag, with "original" sent as the empty format |
| ImageProcessing.Extension | src/components/ImageProcessingModal.tsx:91 | a chosen format in lower case, else the '.'-free text that follows the original name's last '.', or the whole name when it has none |
| ImageProcessing.OutputFilename | src/components/ImageProcessingModal.tsx:91-92 | the original name up to its first '.', then "_processed.", then the extension |
| ImageProcessing.DotlessName | src/components/ImageProcessingModal.tsx:91-92 | a name without a '.' kept in its original format becomes "<name>_processed.<name>" |
| ImageProcessing.OutputFilenameOfSimpleName | src/components/ImageProcessingModal.tsx:91-92 | a name "stem.ext" with a single '.' downloads as "stem_processed.ext", or with the chosen format, lower-cased, as the extension |
| ImageProcessing.CompleteProcess | src/components/ImageProcessingModal.tsx:84-105 | success downloads the derived file name with a success toast; an `Error` shows its message; anything else thrown shows "Failed to process image"; processing always ends |
| ImageProcessing.HandleProcessImage | src/components/ImageProcessingModal.tsx:67-105 | without an image only a toast; with one, a processed result is downloaded under the derived name with the success toast, and any failure downloads nothing; processing ends |
| ImageProcessing.ProcessImageAsWritten | src/components/ImageProcessingModal.tsx:67-105 | against the gateway as written, the handler never downloads anything: with an image it always shows the `TypeError` message |
| ImageProcessing.ProcessNeverSucceedsAsWritten | src/components/ImageProcessingModal.tsx:76-83 | with an image, the handler as written shows the error, where a gateway that processes the image leads to the download |
| ImageProcessing.NewImageResetsForm | src/components/ImageProcessingModal.tsx:50-83 | after a new image is chosen, processing it sends unset dimensions, quality 90, kept aspect ratio and the original format |
| Translation.WithoutAuto | src/components/TranslationModal.tsx:163-164 | "auto" is absent, every other code is kept, and the order is preserved |
| Translation.AutoOnlyFirst | src/components/TranslationModal.tsx:32-54 | "auto" is the first language code and appears nowhere else in the list |
| Translation.TargetOptionsDropAuto | src/components/TranslationModal.tsx:32-54 | the target list is the language list less its first entry, "auto" |
| Translation.BeginTranslate | src/components/TranslationModal.tsx:56-73 | blank text (whitespace only) is refused with "Please enter text to translate"; otherwise the text and target are sent, with no source language exactly when it is "auto" |
| Translation.TranslatedTextOf | src/components/TranslationModal.tsx:75 | a string `translatedText` is shown as is; a missing one leaves the box empty |
| Translation.CompleteTranslate | src/components/TranslationModal.tsx:69-87 | a failure leaves the texts and sets the gateway's message, or "Failed to translate text" when that is empty; a `null` body fails on the property read; otherwise the translation is shown and a detected language is kept exactly when the source was "auto" and the reply names one |
| Translation.Fail | src/components/TranslationModal.tsx:83-87 | the error is the message, or "Failed to translate text" when it is empty; loading ends; nothing else in the form changes |
| Translation.TranslateFailureRoundTrip | src/components/TranslationModal.tsx:56-87 | a whole translation whose request fails gives back the form as it was, with the gateway's message (or the fallback) as the error |
| Translation.TranslateSuccessRoundTrip | src/components/TranslationModal.tsx:56-87 | a whole translation whose reply is an object shows its translated text, clears the error, and keeps the source text and both languages |
| Translation.SwapLanguages | src/components/TranslationModal.tsx:100-113 | with source "auto" nothing changes; otherwise the languages change places, and the texts do too when there is a translation |
| Translation.SwapTwice | src/components/TranslationModal.tsx:100-113 | with both languages fixed and both boxes filled, swapping twice restores the dialog |
| Translation.SwapTwiceUntranslated | src/components/TranslationModal.tsx:100-113 | with both languages fixed and no translation yet, swapping twice restores the dialog |
| Translation.SwapKeepsSourceFixed | src/components/TranslationModal.tsx:100-113 | a swap from a fixed source never makes the source "auto" when the target came from a list without "auto" |
| Text.ParseInt | src/components/ImageProcessingModal.tsx:78-79 | decimal `parseInt`: NaN exactly when no decimal digit follows the leading whitespace and optional sign (the "0x" prefix is left out) |
| Text.ParseIntOfDigits | src/components/ImageProcessingModal.tsx:78-79 | a field of decimal digits parses to its decimal value |
| Text.ParseIntOfSignedDigits | src/components/ImageProcessingModal.tsx:78-79 | leading whitespace, an optional sign, then digits up to the first non-digit: the digits' value, negated after a minus; the rest of the text is ignored |

## Left out

- Side effects are not modelled: DOM and browser effects (`window.open`, download links, object URLs, clipboard), toast rendering, `console` logging, timers, and React rendering. The `setTimeout` that clears the PDF dialog's success flag after 3 seconds is left out too.
- Concurrency is not modelled. Each handler runs from start to finish on the state it started from. Interleaved handlers and the fact that React state updates are asynchronous are left out.
- Failing `localStorage` writes are not modelled; every write is assumed to succeed. A read of malformed JSON behaves like a missing key.
- LocalStorage.GetStoredPreferences: stored values outside the enumerations (an unknown language, say) and explicit `null` fields are not modelled. Each field is either a valid value or absent.
- `JSON.stringify`, `String(v)` for a non-string value, and the `TypeError` message for reading a property of `null` belong to the JavaScript runtime. They appear as the uninterpreted functions of `Json.Js`.
- JSON numbers are integers; fractional numbers are not modelled. Strings are sequences of characters rather than UTF-16 code units, so `substring(0, 30)` in the archive title counts characters.
- AssistantUtils.FileSizeUnit: only the unit `formatFileSize` chooses is modelled, not the `toFixed(1)` digits, which are floating-point formatting.
- The title branch "Conversation <date>" in `archiveCurrentConversation` is unreachable, because it is guarded by a non-empty history. The model leaves it out.
- Assistant.UploadReplyText: a non-string `response` from document analysis is stored as its text (`TextOf`); the source stores the raw value.
- Translation.TranslatedTextOf: a non-string `translatedText` is shown as its text. A missing one shows as the empty string; the source keeps `undefined`, which renders the same.
- The branches for an image search whose resolved value lacks `searchUrl` ("Received unexpected response format from image search.") are unreachable. `searchImage` rejects such replies, so they are left out.
- `apiService.processImage` is called by the image-processing dialog but is not defined in `src/utils/apiService.ts` (see "Findings"). Its request and reply are not modelled; the corrected handler takes its outcome as the parameter `ImageProcessing.ProcessOutcome`.
- Text.Lower: `toLowerCase` is modelled on ASCII letters only; other letters are left as they are, where JavaScript lowers all of Unicode. The weather keywords and the image formats it is applied to are ASCII.
- Text.ParseInt: the "0x" / "0X" prefix, with which JavaScript's `parseInt` reads hexadecimal, is not modelled; such text reads as 0 here. A `type="number"` input, the only source of the parsed text, never holds such a value.
- `getSimulatedResponse` (a demo stub driven by a timer) and `handleConversationSelected` / `handleConversationDeleted` (which only set React state) are not modelled.
- `getWeather` and the weather model component are not part of this model. Neither are the QR scanner, the e-mail generator, the other presentational components, and the Python backend.
- Request bodies are modelled as the values they carry. Their wire encoding (`FormData`, JSON bodies) is not modelled.

## Findings

| source | as written | input that shows it | evidently intended | confidence | as-written member | corrected member |
|---|---|---|---|---|---|---|
| src/components/ImageProcessingModal.tsx:76 | `apiService.processImage(...)` is called, but the gateway object in `src/utils/apiService.ts` defines no `processImage`, so the call throws a `TypeError` | choose any image and press the process button: the error toast shows the `TypeError` message and nothing is downloaded | the gateway sends the image and the form to the backend, and the processed image is downloaded as `<stem>_processed.<ext>` | high, not executed | ImageProcessing.ProcessImageAsWritten, ImageProcessing.ProcessNeverSucceedsAsWritten | ImageProcessing.HandleProcessImage |

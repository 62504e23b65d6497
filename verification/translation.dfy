/** The translation dialog: the language lists, the request built from the
    form, how the reply fills the form in, and swapping the two languages. */
module Translation {
  import opened Wrappers
  import opened Json
  import Text
  import Seqs
  import opened ApiService

  datatype TransState = TransState(
    sourceText: string,
    translatedText: string,
    sourceLanguage: string,
    targetLanguage: string,
    error: Option<string>,
    detectedLanguage: Option<string>,
    loading: bool)

  const Auto := "auto"
  const InitialState: TransState := TransState("", "", Auto, "en", None, None, false)
  const EmptyText := "Please enter text to translate"
  const TranslationFailed := "Failed to translate text"

  /** The codes of the languages offered, in display order; `auto` means
      "detect the language". */
  const Languages: seq<string> := [
    Auto, "en", "es", "fr", "de", "it", "pt", "ru", "zh", "ja", "ko",
    "ar", "hi", "bn", "ur", "tr", "nl", "sv", "pl", "vi", "th"]

  /** A list of codes without `auto`, in the same order. */
  function WithoutAuto(codes: seq<string>): (r: seq<string>)
    ensures Auto !in r
    ensures forall i :: 0 <= i < |r| ==> r[i] in codes
    ensures forall i :: 0 <= i < |codes| && codes[i] != Auto ==> codes[i] in r
    ensures Seqs.IsSubseq(r, codes)
  {
    Seqs.Filter(codes, (code: string) => code != Auto)
  }

  /** The target list: every language except `auto`. */
  function TargetOptions(): seq<string> {
    WithoutAuto(Languages)
  }

  /** A list that starts with `auto` and holds it nowhere else loses just its head. */
  lemma WithoutLeadingAuto(codes: seq<string>)
    requires |codes| > 0 && codes[0] == Auto
    requires forall i :: 1 <= i < |codes| ==> codes[i] != Auto
    ensures WithoutAuto(codes) == codes[1..]
  {
    var rest := codes[1..];
    assert forall i :: 0 <= i < |rest| ==> rest[i] != Auto;
    Seqs.FilterKeepsAll(rest, (code: string) => code != Auto);
  }

  /** `auto` heads the language list and appears nowhere else in it. */
  lemma AutoOnlyFirst()
    ensures |Languages| > 0 && Languages[0] == Auto
    ensures forall i :: 1 <= i < |Languages| ==> Languages[i] != Auto
  {
  }

  /** The target list is the source list less its first entry. */
  lemma TargetOptionsDropAuto()
    ensures TargetOptions() == Languages[1..]
  {
    AutoOnlyFirst();
    WithoutLeadingAuto(Languages);
  }

  datatype TranslateRequest = TranslateRequest(text: string, targetLanguage: string, sourceLanguage: Option<string>)

  /** `handleTranslate` up to its `await`: blank text is refused; otherwise the
      text is sent as typed, without a source language when it is `auto`. */
  function BeginTranslate(st: TransState): (r: (TransState, Option<TranslateRequest>))
    ensures Text.IsBlank(st.sourceText) <==> r.1.None?
    ensures Text.IsBlank(st.sourceText) ==> r.0 == st.(error := Some(EmptyText))
    ensures !Text.IsBlank(st.sourceText) ==>
      && r.0 == st.(loading := true, error := None)
      && r.1.value.text == st.sourceText
      && r.1.value.targetLanguage == st.targetLanguage
      && (r.1.value.sourceLanguage.None? <==> st.sourceLanguage == Auto)
      && (st.sourceLanguage != Auto ==> r.1.value.sourceLanguage == Some(st.sourceLanguage))
  {
    if Text.IsBlank(st.sourceText) then (st.(error := Some(EmptyText)), None)
    else
      var source := if st.sourceLanguage == Auto then None else Some(st.sourceLanguage);
      (st.(loading := true, error := None), Some(TranslateRequest(st.sourceText, st.targetLanguage, source)))
  }

  /** `result.translatedText` shown as text; an absent field leaves the box empty. */
  function TranslatedTextOf(js: Js, data: Json): (t: string)
    ensures IsStringField(data, "translatedText") ==> t == Field(data, "translatedText").value.s
    ensures Field(data, "translatedText").None? ==> t == ""
  {
    match Field(data, "translatedText")
    case None => ""
    case Some(v) => TextOf(js, v)
  }

  /** `handleTranslate` after its `await`, with the form as it was when the
      request was sent. A `null` body fails on the property read. */
  function CompleteTranslate(js: Js, st: TransState, reply: HttpReply): (r: TransState)
    ensures !r.loading
    ensures r.sourceText == st.sourceText && r.sourceLanguage == st.sourceLanguage
      && r.targetLanguage == st.targetLanguage
    ensures TranslateText(js, reply).Failure? ==>
      && r.translatedText == st.translatedText && r.detectedLanguage == st.detectedLanguage
      && r.error.Some? && r.error.value != ""
    ensures TranslateText(js, reply).Failure? ==>
      r.error == Some(var e := TranslateText(js, reply).error; if e != "" then e else TranslationFailed)
    ensures Succeeded(reply) && reply.body == Parsed(JNull) ==>
      r.error == Some(if js.nullRead("translatedText") != "" then js.nullRead("translatedText") else TranslationFailed)
    ensures Succeeded(reply) && reply.body.Parsed? && !reply.body.json.JNull? ==>
      && r.error == st.error
      && r.translatedText == TranslatedTextOf(js, reply.body.json)
      && (r.detectedLanguage.Some? <==>
            st.sourceLanguage == Auto && Truthy(Field(reply.body.json, "detectedSourceLanguage")))
  {
    match TranslateText(js, reply)
    case Failure(m) => Fail(st, m)
    case Success(data) =>
      if data.JNull? then Fail(st, js.nullRead("translatedText"))
      else
        var detected := Field(data, "detectedSourceLanguage");
        st.(translatedText := TranslatedTextOf(js, data),
            detectedLanguage := if st.sourceLanguage == Auto && Truthy(detected) then Some(TextOf(js, detected.value)) else None,
            loading := false)
  }

  /** The `catch` and `finally` of `handleTranslate`. */
  function Fail(st: TransState, m: string): (r: TransState)
    ensures r.error.Some? && r.error.value != "" && !r.loading
    ensures m != "" ==> r.error == Some(m)
    ensures m == "" ==> r.error == Some(TranslationFailed)
    ensures r.(error := st.error, loading := st.loading) == st
  {
    st.(error := Some(if m != "" then m else TranslationFailed), loading := false)
  }

  /** A whole `handleTranslate` whose request fails: the form is as it was,
      with the gateway's message (or the fallback) as the error. */
  lemma TranslateFailureRoundTrip(js: Js, st: TransState, reply: HttpReply)
    requires !Text.IsBlank(st.sourceText)
    requires TranslateText(js, reply).Failure?
    ensures var e := TranslateText(js, reply).error;
      CompleteTranslate(js, BeginTranslate(st).0, reply) ==
        st.(error := Some(if e != "" then e else TranslationFailed), loading := false)
  {
  }

  /** A whole `handleTranslate` whose reply is a parsed object: the translation
      is shown, the error cleared, and the languages and source text kept. */
  lemma TranslateSuccessRoundTrip(js: Js, st: TransState, reply: HttpReply)
    requires !Text.IsBlank(st.sourceText)
    requires Succeeded(reply) && reply.body.Parsed? && reply.body.json.JObj?
    ensures var r := CompleteTranslate(js, BeginTranslate(st).0, reply);
      && r.translatedText == TranslatedTextOf(js, reply.body.json)
      && r.error.None? && !r.loading
      && r.sourceText == st.sourceText
      && r.sourceLanguage == st.sourceLanguage && r.targetLanguage == st.targetLanguage
  {
  }

  /** `handleSwapLanguages`: with a fixed source language the two languages
      change places, and so do the texts once there is a translation. */
  function SwapLanguages(st: TransState): (r: TransState)
    ensures st.sourceLanguage == Auto ==> r == st
    ensures st.sourceLanguage != Auto ==>
      && r.sourceLanguage == st.targetLanguage && r.targetLanguage == st.sourceLanguage
      && (st.translatedText != "" ==> r.sourceText == st.translatedText && r.translatedText == st.sourceText)
      && (st.translatedText == "" ==> r.sourceText == st.sourceText && r.translatedText == "")
    ensures r.error == st.error && r.detectedLanguage == st.detectedLanguage && r.loading == st.loading
  {
    if st.sourceLanguage == Auto then st
    else
      var swapped := st.(sourceLanguage := st.targetLanguage, targetLanguage := st.sourceLanguage);
      if st.translatedText != "" then swapped.(sourceText := st.translatedText, translatedText := st.sourceText)
      else swapped
  }

  /** Swapping twice gives the form back, as long as neither language is `auto`
      and both boxes hold text. */
  lemma SwapTwice(st: TransState)
    requires st.sourceLanguage != Auto && st.targetLanguage != Auto
    requires st.sourceText != "" && st.translatedText != ""
    ensures SwapLanguages(SwapLanguages(st)) == st
  {
  }

  /** With no translation yet, swapping twice also gives the form back. */
  lemma SwapTwiceUntranslated(st: TransState)
    requires st.sourceLanguage != Auto && st.targetLanguage != Auto
    requires st.translatedText == ""
    ensures SwapLanguages(SwapLanguages(st)) == st
  {
  }

  /** A swap never turns a fixed source language into "detect the language"
      when the target was picked from a list without `auto`, as the target
      list is. */
  lemma SwapKeepsSourceFixed(st: TransState, codes: seq<string>)
    requires st.sourceLanguage != Auto
    requires st.targetLanguage in WithoutAuto(codes)
    ensures SwapLanguages(st).sourceLanguage != Auto
  {
    assert Auto !in WithoutAuto(codes);
  }
}

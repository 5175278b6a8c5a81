/**
 * The translation gateway (src/services/translation-gateway.ts): the single entry
 * point for rewrite and translate requests. Rewrite always goes to the language
 * model; translate goes to the free endpoint when the user prefers it, or when the
 * preferred AI provider has no key.
 *
 * `sendToBackground` is the parameter `relay`; the call into the language model is
 * `Llm.GenerateText`.
 */
module Gateway {
  import opened Wrappers
  import opened Strings
  import opened Streams
  import opened Storage
  import PromptUtils
  import Llm
  import FreeTranslate

  /** `SUPPORTED_LANGUAGES`, the languages offered in the pickers. */
  const SupportedLanguages: seq<string> := [
    "Keep Original", "English", "Spanish", "French", "German", "Italian", "Portuguese",
    "Dutch", "Russian", "Chinese (Simplified)", "Japanese", "Korean", "Arabic", "Hindi",
    "Turkish", "Greek", "Hebrew", "Swedish", "Polish", "Vietnamese", "Thai", "Georgian"
  ]

  /** `langCodeMap`, in the same order as the supported languages. */
  const Codes: seq<string> := [
    "auto", "en", "es", "fr", "de", "it", "pt", "nl", "ru", "zh-CN", "ja", "ko", "ar", "hi",
    "tr", "el", "he", "sv", "pl", "vi", "th", "ka"
  ]

  const FreePreference: string := "free"
  const DefaultLanguage: string := "English"
  const FallbackCode: string := "en"
  const FreeFailure: string := "Free translation failed: "

  /** Where a language sits in the table, if it is there. */
  function IndexOfLanguage(lang: string, from: nat): (r: Option<nat>)
    requires from <= |SupportedLanguages|
    ensures r.Some? ==> from <= r.value < |SupportedLanguages| && SupportedLanguages[r.value] == lang
    ensures r.None? ==> forall i :: from <= i < |SupportedLanguages| ==> SupportedLanguages[i] != lang
    decreases |SupportedLanguages| - from
  {
    if from == |SupportedLanguages| then None
    else if SupportedLanguages[from] == lang then Some(from)
    else IndexOfLanguage(lang, from + 1)
  }

  /** `langCodeMap[targetLang] || "en"`. */
  function LangCode(lang: string): (r: string)
    ensures r != ""
    ensures lang !in SupportedLanguages ==> r == FallbackCode
    ensures forall i :: 0 <= i < |SupportedLanguages| && SupportedLanguages[i] == lang ==> r == Codes[i]
  {
    match IndexOfLanguage(lang, 0)
    case Some(i) =>
      LanguagesDistinct();
      CodesNonEmpty();
      Codes[i]
    case None => FallbackCode
  }

  lemma CodesNonEmpty()
    ensures |Codes| == |SupportedLanguages|
    ensures forall i :: 0 <= i < |Codes| ==> Codes[i] != ""
  {
  }

  lemma LanguagesDistinct()
    ensures forall i, j :: 0 <= i < j < |SupportedLanguages| ==> SupportedLanguages[i] != SupportedLanguages[j]
  {
  }

  /** No two languages share a code, so the free endpoint is never asked for a
      language the user did not pick. */
  lemma CodesDistinct()
    ensures forall i, j :: 0 <= i < j < |Codes| ==> Codes[i] != Codes[j]
  {
  }

  /** `LangCode` is one-to-one on the supported languages. */
  lemma LangCodeInjective(a: string, b: string)
    requires a in SupportedLanguages && b in SupportedLanguages
    requires LangCode(a) == LangCode(b)
    ensures a == b
  {
    var i :| 0 <= i < |SupportedLanguages| && SupportedLanguages[i] == a;
    var j :| 0 <= j < |SupportedLanguages| && SupportedLanguages[j] == b;
    CodesDistinct();
    CodesNonEmpty();
  }

  /** "Keep Original" leaves the source language to the endpoint's detection. */
  lemma KeepOriginalIsAuto()
    ensures LangCode(PromptUtils.KeepOriginal) == "auto"
  {
    assert SupportedLanguages[0] == PromptUtils.KeepOriginal;
  }

  // ---- Routing ----

  datatype Route =
    | Ai        // the language model
    | Free      // the free endpoint, by preference
    | Fallback  // the free endpoint, because the preferred AI provider has no key

  /** `storage.get("preferred_translation_provider") || "free"`. */
  function Preference(store: Store): (r: string)
    ensures r != ""
    ensures Truthy(Get(store, PreferenceKey)) ==> r == Get(store, PreferenceKey).value
    ensures !Truthy(Get(store, PreferenceKey)) ==> r == FreePreference
  {
    OrElse(Get(store, PreferenceKey), FreePreference)
  }

  /** The branch `translateText` takes. */
  function RouteFor(mode: PromptUtils.Mode, store: Store): (r: Route)
    ensures mode.Rewrite? ==> r == Ai
    ensures r == Free <==> mode.Translate? && Preference(store) == FreePreference
    ensures r == Ai <==> mode.Rewrite? || (Preference(store) != FreePreference && HasKey(store, ActiveProvider(store)))
  {
    if mode == PromptUtils.Rewrite then Ai
    else if Preference(store) == FreePreference then Free
    else if HasKey(store, ActiveProvider(store)) then Ai
    else Fallback
  }

  /** Translation prefers the free endpoint until the user picks AI. */
  lemma FreeByDefault(store: Store)
    requires PreferenceKey !in store || store[PreferenceKey] == ""
    ensures RouteFor(PromptUtils.Translate, store) == Free
  {
  }

  // ---- The AI path ----

  /** The user's text between the delimiter tags the system prompt names. */
  function SecurePrompt(text: string): (r: string)
    ensures StartsWith(r, PromptUtils.OpenTag) && EndsWith(r, PromptUtils.CloseTag)
    ensures |r| == |PromptUtils.OpenTag| + |text| + |PromptUtils.CloseTag|
    ensures r[|PromptUtils.OpenTag|..|r| - |PromptUtils.CloseTag|] == text
  {
    var r := PromptUtils.OpenTag + text + PromptUtils.CloseTag;
    assert r[..|PromptUtils.OpenTag|] == PromptUtils.OpenTag;
    assert r[|r| - |PromptUtils.CloseTag|..] == PromptUtils.CloseTag;
    r
  }

  // ---- The free path ----

  /** What `sendToBackground` settles to: the handler's answer, or a thrown error. */
  datatype Relay = Relayed(answer: FreeTranslate.Answer) | RelayFailed(message: string)

  function Failing(message: string): Emission {
    Emission([], Some(Fault(FreeFailure + message)))
  }

  /** `useFreeTranslation(text, targetLang)` as the single chunk it yields, or the
      error it throws. */
  function FreePath(text: string, lang: string, relay: (string, string) -> Relay): (e: Emission)
    ensures |e.deltas| <= 1
    ensures e.failure.None? <==> |e.deltas| == 1
    ensures e.failure.Some? ==> e.failure.value.Fault? && StartsWith(e.failure.value.message, FreeFailure)
    ensures relay(text, LangCode(lang)).RelayFailed? ==> e == Failing(relay(text, LangCode(lang)).message)
    ensures relay(text, LangCode(lang)).Relayed? ==>
      var answer := relay(text, LangCode(lang)).answer;
      && (answer.Failed? && answer.error != "" ==> e == Failing(answer.error))
      && (!(answer.Failed? && answer.error != "") ==>
            e == Emission([if answer.Translated? && answer.translatedText != "" then answer.translatedText else text], None))
  {
    var r := match relay(text, LangCode(lang))
      case RelayFailed(m) => Failing(m)
      case Relayed(answer) =>
        if answer.Failed? && answer.error != "" then Failing(answer.error)
        else if answer.Translated? && answer.translatedText != "" then Emission([answer.translatedText], None)
        else Emission([text], None);
    assert r.failure.Some? ==> r.failure.value.message[..|FreeFailure|] == FreeFailure;
    r
  }

  /** With the background handler behind the relay: empty text is refused before
      anything is fetched, and otherwise the endpoint is asked for the chosen
      language's code and the result is the handler's translation. */
  lemma FreePathThroughHandler(text: string, lang: string, relay: (string, string) -> Relay,
                               fetch: string -> FreeTranslate.Reply)
    requires forall t, c :: relay(t, c) == Relayed(FreeTranslate.Handle(FreeTranslate.Request(Some(t), Some(c)), fetch))
    ensures text == "" ==> FreePath(text, lang, relay) == Failing(FreeTranslate.MissingParameters)
    ensures text != "" ==>
      match FreeTranslate.Handle(FreeTranslate.Request(Some(text), Some(LangCode(lang))), fetch)
      case Translated(t) => FreePath(text, lang, relay) == Emission([t], None)
      case Failed(error) => FreePath(text, lang, relay) == Failing(error)
  {
  }

  // ---- translateText ----

  /** `translateText(text, options)`: on the AI route, what `generateText` produces
      for the delimited text; otherwise the free path's single chunk, with nothing
      sent to the language model. */
  method TranslateText(text: string, mode: PromptUtils.Mode, targetLang: Option<string>, tone: Option<string>,
                       store: Store, defaults: Llm.Provider -> string,
                       send: Llm.Request -> Llm.FetchOutcome, deltaContent: string -> Option<string>,
                       relay: (string, string) -> Relay)
    returns (g: Llm.Generation)
    ensures RouteFor(mode, store) == Ai ==>
      g == Llm.Outcome(SecurePrompt(text), PromptUtils.PromptOptions(mode, tone, targetLang),
                       store, defaults, send, deltaContent)
    ensures RouteFor(mode, store) != Ai ==>
      g == Llm.Generation(FreePath(text, OrElse(targetLang, DefaultLanguage), relay), None)
  {
    if mode == PromptUtils.Rewrite {
      g := Llm.GenerateText(SecurePrompt(text), PromptUtils.PromptOptions(mode, tone, targetLang),
                            store, defaults, send, deltaContent);
      return;
    }
    var preferred := OrElse(Get(store, PreferenceKey), FreePreference);
    if preferred == FreePreference {
      return Llm.Generation(FreePath(text, OrElse(targetLang, DefaultLanguage), relay), None);
    }
    var active := OrElse(Get(store, ActiveProviderKey), DefaultProvider);
    var apiKey := Get(store, KeyName(active));
    if Truthy(apiKey) {
      g := Llm.GenerateText(SecurePrompt(text), PromptUtils.PromptOptions(mode, tone, targetLang),
                            store, defaults, send, deltaContent);
    } else {
      g := Llm.Generation(FreePath(text, OrElse(targetLang, DefaultLanguage), relay), None);
    }
  }

  // ---- Properties across the gateway and the client ----

  /** A translation never reports a missing key: without one it falls back. */
  lemma TranslateNeverMissesKey(text: string, targetLang: Option<string>, tone: Option<string>,
                                store: Store, defaults: Llm.Provider -> string,
                                send: Llm.Request -> Llm.FetchOutcome, deltaContent: string -> Option<string>)
    requires RouteFor(PromptUtils.Translate, store) == Ai
    ensures Llm.Outcome(SecurePrompt(text), PromptUtils.PromptOptions(PromptUtils.Translate, tone, targetLang),
                        store, defaults, send, deltaContent).sent.Some?
      <==> Llm.Lookup(ActiveProvider(store)).Some?
  {
  }

  /** A rewrite without a key is refused with `MISSING_API_KEY` and sends nothing. */
  lemma RewriteNeedsKey(text: string, targetLang: Option<string>, tone: Option<string>,
                        store: Store, defaults: Llm.Provider -> string,
                        send: Llm.Request -> Llm.FetchOutcome, deltaContent: string -> Option<string>)
    requires !HasKey(store, ActiveProvider(store))
    ensures Llm.Outcome(SecurePrompt(text), PromptUtils.PromptOptions(PromptUtils.Rewrite, tone, targetLang),
                        store, defaults, send, deltaContent)
      == Llm.Generation(Llm.Fails(Llm.MissingKey), None)
  {
  }

  /** On the AI route to a chat provider, the user message is exactly the delimited
      text, and the system prompt tells the model what the delimiter means. */
  lemma AiRequestDelimitsText(text: string, mode: PromptUtils.Mode, targetLang: Option<string>, tone: Option<string>,
                              store: Store, defaults: Llm.Provider -> string,
                              send: Llm.Request -> Llm.FetchOutcome, deltaContent: string -> Option<string>)
    requires RouteFor(mode, store) == Ai
    requires Llm.Lookup(ActiveProvider(store)) != Some(Llm.Gemini)
    ensures var g := Llm.Outcome(SecurePrompt(text), PromptUtils.PromptOptions(mode, tone, targetLang),
                                 store, defaults, send, deltaContent);
      g.sent.Some? ==>
        g.sent.value.payload.Chat?
        && g.sent.value.payload.messages[1] == Llm.Message("user", SecurePrompt(text))
        && Contains(g.sent.value.payload.messages[0].content, PromptUtils.InputDelimiter)
  {
    var o := PromptUtils.PromptOptions(mode, tone, targetLang);
    var g := Llm.Outcome(SecurePrompt(text), o, store, defaults, send, deltaContent);
    if g.sent.Some? {
      Llm.OutcomeSent(SecurePrompt(text), o, store, defaults, send, deltaContent);
      PromptUtils.PromptCarriesConstraints(o);
    }
  }
}

/**
 * The error panel (src/features/components/error-state.tsx): the failure text of a
 * session decides the heading and the one action the panel offers.
 */
module ErrorState {
  import opened Wrappers
  import opened Storage
  import Strings
  import PromptUtils
  import Llm
  import Gateway
  import StreamSession

  const MissingKey: string := "MISSING_API_KEY"
  const DataPolicy: string := "OPENROUTER_DATA_POLICY"

  const GenericHeading: string := "Generation Failed"
  const KeyHeading: string := "API Key Missing"
  const PolicyHeading: string := "Data Collection Required"

  /** The panel's button: the options page, OpenRouter's privacy settings, or
      `onRetry`. */
  datatype Action = OpenSettings | OpenPrivacySettings | Retry

  datatype Panel = Panel(heading: string, action: Action)

  /** `ErrorState({error})`. */
  function Classify(error: string): (p: Panel)
    ensures p.action == OpenSettings <==> error == MissingKey
    ensures p.action == OpenPrivacySettings <==> error == DataPolicy
    ensures p.action == Retry <==> error != MissingKey && error != DataPolicy
    ensures p.action == OpenSettings ==> p.heading == KeyHeading
    ensures p.action == OpenPrivacySettings ==> p.heading == PolicyHeading
    ensures p.action == Retry ==> p.heading == GenericHeading
  {
    var heading :=
      if error == DataPolicy then PolicyHeading
      else if error == MissingKey then KeyHeading
      else GenericHeading;
    var action :=
      if error == MissingKey then OpenSettings
      else if error == DataPolicy then OpenPrivacySettings
      else Retry;
    Panel(heading, action)
  }

  /** The heading names the action: the two special headings go with their own
      buttons and every other failure offers a retry. */
  lemma HeadingDeterminesAction(a: string, b: string)
    ensures Classify(a).heading == Classify(b).heading ==> Classify(a).action == Classify(b).action
  {
  }

  /** A rewrite with no key for the active provider ends on the panel that sends
      the user to the settings. */
  lemma MissingKeyOpensSettings(text: string, tone: Option<string>, targetLang: Option<string>, store: Store,
                                defaults: Llm.Provider -> string, send: Llm.Request -> Llm.FetchOutcome,
                                deltaContent: string -> Option<string>, s: StreamSession.Session,
                                prompt: string, autoSave: bool)
    requires !HasKey(store, ActiveProvider(store))
    ensures var g := Llm.Outcome(Gateway.SecurePrompt(text), PromptUtils.PromptOptions(PromptUtils.Rewrite, tone, targetLang),
                                 store, defaults, send, deltaContent);
      var options := PromptUtils.PromptOptions(PromptUtils.Rewrite, tone, targetLang);
      var t := StreamSession.Play(s, [StreamSession.Generate(prompt, options, autoSave)] + StreamSession.EventsOf(g.out));
      && t.session.status == StreamSession.Errored(MissingKey, "")
      && Classify(StreamSession.Error(t.session.status).value).action == OpenSettings
  {
    var options := PromptUtils.PromptOptions(PromptUtils.Rewrite, tone, targetLang);
    Gateway.RewriteNeedsKey(text, targetLang, tone, store, defaults, send, deltaContent);
    var g := Llm.Outcome(Gateway.SecurePrompt(text), options, store, defaults, send, deltaContent);
    StreamSession.Consume(s, prompt, options, autoSave, g.out);
    assert Strings.Concat(g.out.deltas) == "";
  }
}

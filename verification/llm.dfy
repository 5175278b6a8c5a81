/**
 * The backend client (`LLMService.generateText` and the provider strategy table in
 * src/services/llm.ts): it resolves the active provider, checks its key, builds the
 * provider's request, and re-yields what the provider's stream parser yields.
 *
 * `fetch` is the parameter `send`, and `JSON.parse` of an event-stream payload is
 * the parameter `deltaContent` of the event-stream parser.
 */
module Llm {
  import opened Wrappers
  import opened Strings
  import opened Streams
  import opened Storage
  import PromptUtils
  import SseParser
  import GeminiParser

  /** The providers the strategy table knows. */
  datatype Provider = OpenRouter | OpenAI | Groq | Gemini

  /** The provider's name as stored under `active_provider`. */
  function Id(p: Provider): string {
    match p
    case OpenRouter => "openrouter"
    case OpenAI => "openai"
    case Groq => "groq"
    case Gemini => "gemini"
  }

  /** `strategies[name]`: the provider of that name, if the table has one. */
  function Lookup(name: string): (r: Option<Provider>)
    ensures r.Some? ==> Id(r.value) == name
    ensures r.None? ==> forall p :: Id(p) != name
  {
    if name == "openrouter" then Some(OpenRouter)
    else if name == "openai" then Some(OpenAI)
    else if name == "groq" then Some(Groq)
    else if name == "gemini" then Some(Gemini)
    else None
  }

  /** Every provider is found under its own name. */
  lemma LookupId(p: Provider)
    ensures Lookup(Id(p)) == Some(p)
  {
  }

  const OpenRouterChat: string := "https://openrouter.ai/api/v1/chat/completions"
  const OpenAIChat: string := "https://api.openai.com/v1/chat/completions"
  const GroqChat: string := "https://api.groq.com/openai/v1/chat/completions"
  const GeminiBase: string := "https://generativelanguage.googleapis.com/v1beta/models"

  datatype Header = Header(name: string, value: string)
  datatype Message = Message(role: string, content: string)

  /** The JSON body: the chat-completions shape, or Gemini's `contents` shape. */
  datatype Payload =
    | Chat(model: string, messages: seq<Message>, temperature: real, stream: bool)
    | Contents(text: string)

  datatype Request = Request(url: string, headers: seq<Header>, payload: Payload)

  /** The chat-completions endpoint of a bearer-token provider. */
  function ChatEndpoint(p: Provider): string
    requires p != Gemini
  {
    match p
    case OpenRouter => OpenRouterChat
    case OpenAI => OpenAIChat
    case Groq => GroqChat
  }

  /** `getUrl`: Gemini names the model and carries the key in the query. */
  function Url(p: Provider, model: string, key: string): (r: string)
    ensures p != Gemini ==> EndsWith(r, "/chat/completions")
    ensures p == Gemini ==> StartsWith(r, GeminiBase + "/" + model + ":streamGenerateContent?key=")
    ensures p == Gemini ==> EndsWith(r, key)
    ensures p == Gemini ==> |r| == |GeminiBase + "/" + model + ":streamGenerateContent?key="| + |key|
    ensures p == OpenRouter ==> r == OpenRouterChat
    ensures p == OpenAI ==> r == OpenAIChat
    ensures p == Groq ==> r == GroqChat
  {
    if p == Gemini then
      var head := GeminiBase + "/" + model + ":streamGenerateContent?key=";
      var u := head + key;
      assert u[..|head|] == head;
      assert u[|u| - |key|..] == key;
      u
    else ChatEndpoint(p)
  }

  const JsonContent: Header := Header("Content-Type", "application/json")

  /** `getHeaders`. */
  function Headers(p: Provider, key: string): (r: seq<Header>)
    ensures JsonContent in r
    ensures p != Gemini ==> r[0] == Header("Authorization", "Bearer " + key)
    ensures p == Gemini ==> forall h :: h in r ==> h.name != "Authorization"
  {
    match p
    case OpenRouter =>
      [ Header("Authorization", "Bearer " + key),
        Header("HTTP-Referer", "https://github.com/PlasmoHQ/plasmo"),
        Header("X-Title", "Smart Translate & Rewrite"),
        JsonContent ]
    case OpenAI => [Header("Authorization", "Bearer " + key), JsonContent]
    case Groq => [Header("Authorization", "Bearer " + key), JsonContent]
    case Gemini => [JsonContent]
  }

  /** `getBody`. */
  function Body(p: Provider, model: string, system: string, user: string, temperature: real): (r: Payload)
    ensures p != Gemini <==> r.Chat?
    ensures r.Chat? ==> r.stream && r.model == model && r.temperature == temperature
    ensures r.Chat? ==> r.messages == [Message("system", system), Message("user", user)]
  {
    if p == Gemini then Contents(system + "\n\nUser Input: " + user)
    else Chat(model, [Message("system", system), Message("user", user)], temperature, true)
  }

  /** The request `generateText` sends for a provider, model, key, options and prompt. */
  function RequestFor(p: Provider, model: string, key: string, options: PromptUtils.PromptOptions, prompt: string): (r: Request)
    ensures JsonContent in r.headers
    ensures p != Gemini ==> r.payload.Chat? && r.payload.model == model && r.payload.stream
    ensures p != Gemini ==>
      r.payload.messages == [Message("system", PromptUtils.SystemPrompt(options)), Message("user", prompt)]
    ensures r.payload.Chat? ==> (r.payload.temperature == 0.3 <==> options.mode == PromptUtils.Rewrite)
    ensures p == Gemini ==> r.payload == Contents(PromptUtils.SystemPrompt(options) + "\n\nUser Input: " + prompt)
  {
    Request(Url(p, model, key), Headers(p, key),
      Body(p, model, PromptUtils.SystemPrompt(options), prompt, PromptUtils.Temperature(options.mode)))
  }

  // ---- Properties of the strategy table ----

  /** The bearer-token providers post to a fixed endpoint whatever the model and key. */
  lemma ChatUrlFixed(p: Provider, model: string, key: string, model': string, key': string)
    requires p != Gemini
    ensures Url(p, model, key) == Url(p, model', key')
  {
  }

  /** The bearer-token providers send the same body. */
  lemma ChatBodiesAgree(p: Provider, q: Provider, model: string, system: string, user: string, temperature: real)
    requires p != Gemini && q != Gemini
    ensures Body(p, model, system, user, temperature) == Body(q, model, system, user, temperature)
  {
  }

  /** Gemini's body ignores the model and the temperature, and carries the system
      prompt, a blank line, and the user's input. */
  lemma GeminiBodyShape(model: string, system: string, user: string, temperature: real,
                        model': string, temperature': real)
    ensures Body(Gemini, model, system, user, temperature) == Body(Gemini, model', system, user, temperature')
    ensures Body(Gemini, model, system, user, temperature).text == system + "\n\nUser Input: " + user
  {
  }

  // ---- generateText ----

  /** What `fetch` settles to: a response, or a thrown error (an abort among them). */
  datatype FetchOutcome =
    | Responded(ok: bool, statusText: string, body: Option<Body>)
    | Rejected(failure: Failure)

  /** What one `generateText` call produced, and the request it sent, if any. */
  datatype Generation = Generation(out: Emission, sent: Option<Request>)

  const MissingKey: Failure := Fault("MISSING_API_KEY")

  function Fails(f: Failure): Emission {
    Emission([], Some(f))
  }

  /** `storage.get("${name}_model") || DEFAULTS[name]`. */
  function ModelFor(store: Store, p: Provider, defaults: Provider -> string): (r: string)
    ensures Truthy(Get(store, ModelName(Id(p)))) ==> r == store[ModelName(Id(p))]
    ensures !Truthy(Get(store, ModelName(Id(p)))) ==> r == defaults(p)
  {
    OrElse(Get(store, ModelName(Id(p))), defaults(p))
  }

  /** What a response's body parses to with the provider's parser. */
  function Parsed(p: Provider, body: Option<Body>, deltaContent: string -> Option<string>): Emission {
    if body.None? then NoBody
    else if p == Gemini then
      Emission(GeminiParser.Extract(Concat(body.value.chunks)).deltas, body.value.fault)
    else
      var scan := SseParser.Reference(Concat(body.value.chunks), deltaContent);
      Emission(scan.deltas, if scan.done then None else body.value.fault)
  }

  /** The whole of one `generateText` call as a single value: what the streaming
      method below computes chunk by chunk. */
  function Outcome(prompt: string, options: PromptUtils.PromptOptions, store: Store,
                   defaults: Provider -> string, send: Request -> FetchOutcome,
                   deltaContent: string -> Option<string>): Generation
  {
    var name := ActiveProvider(store);
    if !HasKey(store, name) then Generation(Fails(MissingKey), None)
    else match Lookup(name)
      case None => Generation(Fails(Fault("Unsupported provider: " + name)), None)
      case Some(p) =>
        var request := RequestFor(p, ModelFor(store, p, defaults), store[KeyName(name)], options, prompt);
        Generation(Received(p, send(request), deltaContent), Some(request))
  }

  /** What the call yields once the request is sent: the thrown error, the status
      error, or what the provider's parser makes of the body. */
  function Received(p: Provider, outcome: FetchOutcome, deltaContent: string -> Option<string>): Emission {
    match outcome
    case Rejected(f) => Fails(f)
    case Responded(ok, statusText, body) =>
      if !ok then Fails(Fault(Upper(Id(p)) + " Error: " + statusText))
      else Parsed(p, body, deltaContent)
  }

  /** A request is sent exactly when the active provider has a key and is known, and
      it is the one built from the stored model and key. */
  lemma OutcomeSent(prompt: string, options: PromptUtils.PromptOptions, store: Store,
                    defaults: Provider -> string, send: Request -> FetchOutcome,
                    deltaContent: string -> Option<string>)
    ensures var g := Outcome(prompt, options, store, defaults, send, deltaContent);
      var name := ActiveProvider(store);
      && (g.sent.Some? <==> HasKey(store, name) && Lookup(name).Some?)
      && (g.sent.Some? ==>
            g.sent.value == RequestFor(Lookup(name).value, ModelFor(store, Lookup(name).value, defaults),
                                       store[KeyName(name)], options, prompt))
  {
  }

  /** `LLMService.generateText(prompt, options)`: the key is checked before the
      provider, the provider before anything is sent, and the status before the body
      is parsed. */
  method GenerateText(prompt: string, options: PromptUtils.PromptOptions, store: Store,
                      defaults: Provider -> string, send: Request -> FetchOutcome,
                      deltaContent: string -> Option<string>)
    returns (g: Generation)
    ensures g == Outcome(prompt, options, store, defaults, send, deltaContent)
    ensures var name := ActiveProvider(store);
      !HasKey(store, name) ==> g == Generation(Fails(MissingKey), None)
    ensures var name := ActiveProvider(store);
      HasKey(store, name) && Lookup(name).None? ==>
        g == Generation(Fails(Fault("Unsupported provider: " + name)), None)
    ensures g.sent.Some? <==> HasKey(store, ActiveProvider(store)) && Lookup(ActiveProvider(store)).Some?
    ensures g.sent.Some? ==>
      var name := ActiveProvider(store);
      var p := Lookup(name).value;
      var key := store[KeyName(name)];
      g.sent.value == RequestFor(p, ModelFor(store, p, defaults), key, options, prompt)
      && match send(g.sent.value)
         case Rejected(f) => g.out == Fails(f)
         case Responded(ok, statusText, body) =>
           if !ok then g.out == Fails(Fault(Upper(name) + " Error: " + statusText))
           else if body.None? then g.out == NoBody
           else if p == Gemini then
             g.out == Emission(GeminiParser.Extract(Concat(body.value.chunks)).deltas, body.value.fault)
           else
             var scan := SseParser.Reference(Concat(body.value.chunks), deltaContent);
             g.out == Emission(scan.deltas, if scan.done then None else body.value.fault)
  {
    var name := ActiveProvider(store);
    var key := Get(store, KeyName(name));
    if !Truthy(key) {
      return Generation(Fails(MissingKey), None);
    }
    var strategy := Lookup(name);
    if strategy.None? {
      return Generation(Fails(Fault("Unsupported provider: " + name)), None);
    }
    var p := strategy.value;
    var model := ModelFor(store, p, defaults);
    var request := RequestFor(p, model, key.value, options, prompt);
    var outcome := send(request);
    match outcome {
      case Rejected(f) =>
        g := Generation(Fails(f), Some(request));
      case Responded(ok, statusText, body) =>
        if !ok {
          g := Generation(Fails(Fault(Upper(name) + " Error: " + statusText)), Some(request));
        } else {
          var run: ParserRun;
          if p == Gemini {
            run := GeminiParser.Stream(body);
          } else {
            run := SseParser.Stream(body, deltaContent);
          }
          g := Generation(run.out, Some(request));
        }
    }
  }
}

/**
 * The options page's settings (src/features/options/use-options-settings.ts): the
 * API keys, the active provider and its model, read from storage and written back
 * as the user saves. The page's state and the store are values; each handler
 * returns both.
 *
 * The provider list and their default models are defined outside this file, so
 * they are the parameters `providers` (in list order) and `defaults`.
 */
module OptionsSettings {
  import opened Wrappers
  import opened Storage
  import PromptUtils
  import Gateway
  import Models

  /** The hook's state. `keys` holds what was typed or loaded; `keyExists` whether a
      key is stored for each provider; `saved` the "saved" marks. */
  datatype Settings = Settings(
    loading: bool,
    active: string,
    keys: map<string, string>,
    keyExists: map<string, bool>,
    model: string,
    saved: map<string, bool>)

  const AiPreference: string := "ai"

  /** The state before loading. */
  const Initial: Settings := Settings(true, DefaultProvider, map[], map[], "", map[])

  /** `storage.set(key, value)`; an `undefined` value leaves nothing stored. */
  function Set(store: Store, key: string, value: Option<string>): (r: Store)
    ensures value.Some? ==> key in r && r[key] == value.value
    ensures value.None? ==> key !in r
    ensures forall k :: k != key ==> (k in r <==> k in store) && (k in r ==> r[k] == store[k])
  {
    if value.Some? then store[key := value.value] else store - {key}
  }

  // ---- Storage keys never collide ----

  lemma KeyNamesDistinct(p: string, q: string)
    ensures KeyName(p) != ActiveProviderKey && KeyName(p) != PreferenceKey && KeyName(p) != ModelName(q)
    ensures ModelName(p) != ActiveProviderKey && ModelName(p) != PreferenceKey
    ensures KeyName(p) == KeyName(q) ==> p == q
  {
    assert KeyName(p)[|KeyName(p)| - 1] == 'y';
    assert ModelName(q)[|ModelName(q)| - 1] == 'l';
    assert ModelName(p)[|ModelName(p)| - 1] == 'l';
    assert ActiveProviderKey[|ActiveProviderKey| - 1] == 'r';
    assert PreferenceKey[|PreferenceKey| - 1] == 'r';
    if KeyName(p) == KeyName(q) {
      assert p == KeyName(p)[..|p|] && q == KeyName(q)[..|q|];
    }
  }

  // ---- loadSettings (lines 24-59) ----

  /** The state after loading: the stored active provider (default "openrouter"),
      the truthy stored keys, and the stored model or the provider's default. */
  function Load(store: Store, providers: seq<string>, defaults: string -> string): (s: Settings)
    ensures !s.loading
    ensures s.active == ActiveProvider(store)
    ensures forall p :: p in providers ==> p in s.keyExists && (s.keyExists[p] <==> HasKey(store, p))
    ensures forall p :: p in s.keyExists ==> p in providers
    ensures forall p :: p in s.keys <==> p in providers && HasKey(store, p)
    ensures forall p :: p in s.keys ==> Get(store, KeyName(p)) == Some(s.keys[p])
    ensures s.model == OrElse(Get(store, ModelName(s.active)), defaults(s.active))
  {
    var active := ActiveProvider(store);
    var keys := map p | p in providers && HasKey(store, p) :: store[KeyName(p)];
    var exists_ := map p | p in providers :: HasKey(store, p);
    Settings(false, active, keys, exists_, OrElse(Get(store, ModelName(active)), defaults(active)), map[])
  }

  /** Whether the page believes some key is stored. */
  predicate AnyKey(keyExists: map<string, bool>) {
    exists p :: p in keyExists && keyExists[p]
  }

  /** The state agrees with the store about which keys exist. */
  predicate InSync(s: Settings, store: Store, providers: seq<string>) {
    forall p :: p in providers ==> p in s.keyExists && (s.keyExists[p] <==> HasKey(store, p))
  }

  lemma LoadInSync(store: Store, providers: seq<string>, defaults: string -> string)
    ensures InSync(Load(store, providers, defaults), store, providers)
  {
  }

  // ---- Handlers ----

  /** `handleActiveProviderChange(newProvider)`. */
  function ChangeProvider(s: Settings, store: Store, provider: string, defaults: string -> string): (r: (Settings, Store))
    ensures r.0 == s.(active := provider, model := OrElse(Get(store, ModelName(provider)), defaults(provider)))
    ensures r.1 == store[ActiveProviderKey := provider]
  {
    var model := OrElse(Get(store, ModelName(provider)), defaults(provider));
    (s.(active := provider, model := model), store[ActiveProviderKey := provider])
  }

  /** `handleKeyChange(providerId, value)`: only the typed key and its mark change. */
  function ChangeKey(s: Settings, provider: string, value: string): (r: Settings)
    ensures r.keys == s.keys[provider := value] && r.saved == s.saved[provider := false]
    ensures r.active == s.active && r.model == s.model && r.keyExists == s.keyExists
  {
    s.(keys := s.keys[provider := value], saved := s.saved[provider := false])
  }

  /** `handleModelChange(newModel)`. */
  function ChangeModel(s: Settings, store: Store, model: string): (r: (Settings, Store))
    ensures r.0 == s.(model := model)
    ensures r.1 == store[ModelName(s.active) := model]
  {
    (s.(model := model), store[ModelName(s.active) := model])
  }

  /** What the handlers show is what the page would load from the store they leave:
      a chosen provider and a chosen model both survive a reload. */
  lemma ChangesPersist(s: Settings, store: Store, providers: seq<string>, defaults: string -> string,
                       provider: string, model: string)
    requires provider != "" && model != ""
    ensures var r := ChangeProvider(s, store, provider, defaults);
      var l := Load(r.1, providers, defaults);
      l.active == r.0.active && l.model == r.0.model
    ensures s.active == ActiveProvider(store) ==>
      Load(ChangeModel(s, store, model).1, providers, defaults).model == model
  {
    var r := ChangeProvider(s, store, provider, defaults);
    KeyNamesDistinct(provider, provider);
    assert Get(r.1, ModelName(provider)) == Get(store, ModelName(provider));
    if s.active == ActiveProvider(store) {
      var w := ChangeModel(s, store, model).1;
      KeyNamesDistinct(s.active, s.active);
      assert ActiveProvider(w) == s.active;
    }
  }

  /** A provider `saveKey` may fall back to. */
  predicate Eligible(p: string, skip: string, keyExists: map<string, bool>) {
    p != skip && p in keyExists && keyExists[p]
  }

  /** `PROVIDERS.find(p => p.id !== providerId && newKeyExists[p.id])`, from
      position `from` on. */
  function NextWithKey(providers: seq<string>, skip: string, keyExists: map<string, bool>, from: nat): (r: Option<string>)
    requires from <= |providers|
    ensures r.Some? ==> Eligible(r.value, skip, keyExists)
    ensures r.None? ==> forall i :: from <= i < |providers| ==> !Eligible(providers[i], skip, keyExists)
    ensures r.Some? ==>
      exists i :: from <= i < |providers| && providers[i] == r.value &&
        (forall k :: from <= k < i ==> !Eligible(providers[k], skip, keyExists))
    decreases |providers| - from
  {
    if from == |providers| then None
    else if Eligible(providers[from], skip, keyExists) then Some(providers[from])
    else NextWithKey(providers, skip, keyExists, from + 1)
  }

  /** `saveKey(providerId)`. */
  function SaveKey(s: Settings, store: Store, providers: seq<string>, defaults: string -> string, provider: string)
    : (r: (Settings, Store))
    ensures var value := if provider in s.keys then Some(s.keys[provider]) else None;
      && Get(r.1, KeyName(provider)) == value
      && r.0.keyExists == s.keyExists[provider := Truthy(value)]
      && r.0.keys == s.keys
      && provider in r.0.saved && r.0.saved[provider]
  {
    var value := if provider in s.keys then Some(s.keys[provider]) else None;
    var stored := Set(store, KeyName(provider), value);
    var keyExists := s.keyExists[provider := Truthy(value)];
    var marked := s.(keyExists := keyExists, saved := s.saved[provider := true]);
    KeyNamesDistinct(provider, provider);
    if Truthy(value) then
      var model := defaults(provider);
      var chosen := stored[ActiveProviderKey := provider][ModelName(provider) := model];
      var written := if !AnyKey(s.keyExists) then chosen[PreferenceKey := AiPreference] else chosen;
      (marked.(active := provider, model := model), written)
    else if s.active == provider then
      var next := NextWithKey(providers, provider, keyExists, 0);
      if next.Some? then
        var model := OrElse(Get(stored, ModelName(next.value)), defaults(next.value));
        (marked.(active := next.value, model := model), stored[ActiveProviderKey := next.value])
      else
        (marked.(active := DefaultProvider, model := defaults(DefaultProvider)), stored[ActiveProviderKey := DefaultProvider])
    else (marked, stored)
  }

  /** Saving a key makes its provider active with its default model, discarding a
      model chosen before; the first key also turns on the AI route. */
  lemma SaveKeySelects(s: Settings, store: Store, providers: seq<string>, defaults: string -> string, provider: string)
    requires provider in s.keys && s.keys[provider] != ""
    ensures var r := SaveKey(s, store, providers, defaults, provider);
      && r.0.active == provider && r.0.model == defaults(provider)
      && Get(r.1, ActiveProviderKey) == Some(provider)
      && Get(r.1, ModelName(provider)) == Some(defaults(provider))
      && (!AnyKey(s.keyExists) ==> Get(r.1, PreferenceKey) == Some(AiPreference))
      && (AnyKey(s.keyExists) ==> Get(r.1, PreferenceKey) == Get(store, PreferenceKey))
  {
    KeyNamesDistinct(provider, provider);
  }

  /** Clearing the active provider's key moves to the first other provider in list
      order with a key, or to "openrouter"; clearing another's leaves the choice. */
  lemma ClearKeyFallsBack(s: Settings, store: Store, providers: seq<string>, defaults: string -> string, provider: string)
    requires !(provider in s.keys && s.keys[provider] != "")
    ensures var r := SaveKey(s, store, providers, defaults, provider);
      var keyExists := s.keyExists[provider := false];
      var next := NextWithKey(providers, provider, keyExists, 0);
      var value := if provider in s.keys then Some(s.keys[provider]) else None;
      && (s.active != provider ==> r.0.active == s.active && r.0.model == s.model && r.1 == Set(store, KeyName(provider), value))
      && (s.active == provider && next.Some? ==> r.0.active == next.value && Get(r.1, ActiveProviderKey) == next)
      && (s.active == provider && next.None? ==> r.0.active == DefaultProvider && r.0.model == defaults(DefaultProvider))
      && (s.active == provider ==> r.0.active != provider || provider == DefaultProvider)
  {
  }

  /** After the first key is saved, translation goes to the AI provider. */
  lemma FirstKeyRoutesToAi(s: Settings, store: Store, providers: seq<string>, defaults: string -> string, provider: string)
    requires provider != "" && provider in s.keys && s.keys[provider] != ""
    requires !AnyKey(s.keyExists)
    ensures var r := SaveKey(s, store, providers, defaults, provider);
      && Gateway.RouteFor(PromptUtils.Translate, r.1) == Gateway.Ai
  {
    var r := SaveKey(s, store, providers, defaults, provider);
    SaveKeySelects(s, store, providers, defaults, provider);
    KeyNamesDistinct(provider, provider);
    assert ActiveProvider(r.1) == provider;
    assert Get(r.1, KeyName(provider)) == Some(s.keys[provider]);
    assert Gateway.Preference(r.1) == AiPreference;
  }

  // ---- The model picker (lines 125-160) ----

  /** The listings the page has received, one per provider. */
  datatype Listings = Listings(
    openRouter: Option<seq<Models.Model>>,
    openAI: Option<seq<Models.Model>>,
    gemini: Option<seq<Models.Model>>,
    groq: Option<seq<Models.Model>>)

  /** `getModels()`: the active provider's list, or none. */
  function CurrentModels(active: string, l: Listings): (r: seq<Models.Model>)
    ensures active == "openrouter" ==> r == l.openRouter.GetOr([])
    ensures active == "openai" ==> r == l.openAI.GetOr([])
    ensures active == "gemini" ==> r == l.gemini.GetOr([])
    ensures active == "groq" ==> r == l.groq.GetOr([])
    ensures active !in {"openrouter", "openai", "gemini", "groq"} ==> r == []
  {
    if active == "openrouter" then l.openRouter.GetOr([])
    else if active == "openai" then l.openAI.GetOr([])
    else if active == "gemini" then l.gemini.GetOr([])
    else if active == "groq" then l.groq.GetOr([])
    else []
  }

  /** `isModelMissing`. */
  predicate IsModelMissing(model: string, models: seq<Models.Model>) {
    model == "" || (|models| > 0 && !(exists i :: 0 <= i < |models| && models[i].id == model))
  }

  /** The auto-select effect: with the list loaded and the model missing from it,
      the first listed model is chosen and stored. */
  function AutoSelect(s: Settings, store: Store, models: seq<Models.Model>, loadingModels: bool): (r: (Settings, Store))
    ensures !loadingModels && |models| > 0 && IsModelMissing(s.model, models) ==>
      r == (s.(model := models[0].id), store[ModelName(s.active) := models[0].id])
    ensures !(!loadingModels && |models| > 0 && IsModelMissing(s.model, models)) ==> r == (s, store)
  {
    if !loadingModels && |models| > 0 && IsModelMissing(s.model, models) then
      (s.(model := models[0].id), store[ModelName(s.active) := models[0].id])
    else (s, store)
  }

  /** Once the list is there, the model is one it holds (unless the first listed id
      is empty), and selecting again changes nothing. */
  lemma AutoSelectSettles(s: Settings, store: Store, models: seq<Models.Model>)
    requires |models| > 0 && models[0].id != ""
    ensures !IsModelMissing(AutoSelect(s, store, models, false).0.model, models)
    ensures var r := AutoSelect(s, store, models, false); AutoSelect(r.0, r.1, models, false) == r
  {
    var r := AutoSelect(s, store, models, false);
    if IsModelMissing(s.model, models) {
      assert r.0.model == models[0].id;
    }
    assert exists i :: 0 <= i < |models| && models[i].id == r.0.model;
  }

  /** A present model is kept while the list is empty or loading. */
  lemma AutoSelectKeepsModel(s: Settings, store: Store, models: seq<Models.Model>, loadingModels: bool)
    requires s.model != ""
    requires loadingModels || |models| == 0
    ensures AutoSelect(s, store, models, loadingModels) == (s, store)
  {
  }
}

/**
 * The extension's key-value settings (`@plasmohq/storage`) as a map from key to
 * stored string, and the reads several components share: the active provider,
 * its API key and its chosen model.
 */
module Storage {
  import opened Wrappers

  type Store = map<string, string>

  const ActiveProviderKey: string := "active_provider"
  const PreferenceKey: string := "preferred_translation_provider"
  const DefaultProvider: string := "openrouter"

  /** `storage.get(key)`: `None` where nothing is stored. */
  function Get(store: Store, key: string): (r: Option<string>)
    ensures r.Some? <==> key in store
    ensures r.Some? ==> r.value == store[key]
  {
    if key in store then Some(store[key]) else None
  }

  /** The storage key of a provider's API key, `${provider}_key`. */
  function KeyName(provider: string): string {
    provider + "_key"
  }

  /** The storage key of a provider's chosen model, `${provider}_model`. */
  function ModelName(provider: string): string {
    provider + "_model"
  }

  /** `storage.get("active_provider") || "openrouter"`. */
  function ActiveProvider(store: Store): (r: string)
    ensures r != ""
    ensures ActiveProviderKey in store && store[ActiveProviderKey] != "" ==> r == store[ActiveProviderKey]
    ensures (ActiveProviderKey !in store || store[ActiveProviderKey] == "") ==> r == DefaultProvider
  {
    OrElse(Get(store, ActiveProviderKey), DefaultProvider)
  }

  /** A truthy API key is stored for `provider`. */
  predicate HasKey(store: Store, provider: string) {
    Truthy(Get(store, KeyName(provider)))
  }
}

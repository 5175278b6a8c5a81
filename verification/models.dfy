/**
 * The model pickers' lists (src/hooks/use-models.ts): each provider's listing
 * endpoint is fetched and its answer filtered, ordered and renamed. The answer is
 * a value here; the fetch is the parameter `fetch`.
 */
module Models {
  import opened Wrappers
  import opened Strings
  import Seqs
  import Sorting
  import Llm

  const OpenRouterModelsUrl: string := "https://openrouter.ai/api/v1/models"
  const OpenAIModelsUrl: string := "https://api.openai.com/v1/models"
  const GroqModelsUrl: string := "https://api.groq.com/openai/v1/models"

  /** A `Model`: an OpenRouter listing keeps its prompt price and modalities, the
      other providers' lists carry only an id and a name. */
  datatype Model = Model(
    id: string,
    name: string,
    promptPrice: Option<string>,
    modality: Option<string>,
    inputModalities: Option<seq<string>>,
    outputModalities: Option<seq<string>>)

  /** A model known only by its id and name. */
  function Plain(id: string, name: string): Model {
    Model(id, name, None, None, None, None)
  }

  // ---- fetchModels (lines 21-40) ----

  /** What `await fetch(...)` settles to: a rejection with its message, or a
      response whose body `res.json()` parses or fails to parse. */
  datatype Response<D> = Rejected(message: string) | Response(ok: bool, body: Body<D>)
  datatype Body<D> = Parsed(data: D) | Unparsable(message: string)
  datatype Fetched = Listed(models: seq<Model>) | FetchFailed(message: string)

  const Authorization: string := "Authorization"
  const FetchFailure: string := "Failed to fetch models from "

  /** The request's headers: the given ones, with a bearer token when a key is
      present. */
  function RequestHeaders(key: Option<string>, headers: map<string, string>): (r: map<string, string>)
    ensures Truthy(key) ==> Authorization in r && r[Authorization] == "Bearer " + key.value
    ensures !Truthy(key) ==> r == headers
    ensures forall h :: h != Authorization ==> (h in r <==> h in headers)
    ensures forall h :: h != Authorization && h in r ==> r[h] == headers[h]
  {
    if Truthy(key) then headers[Authorization := "Bearer " + key.value] else headers
  }

  /** `fetchModels(url, apiKey, transform, headers)`: a rejected fetch or an
      unparsable body fails with its own message. */
  function FetchModels<D>(url: string, key: Option<string>, transform: D -> seq<Model>, headers: map<string, string>,
                          fetch: (string, map<string, string>) -> Response<D>): (r: Fetched)
    ensures url == "" ==> r == Listed([])
    ensures url != "" ==>
      var res := fetch(url, RequestHeaders(key, headers));
      && (res.Rejected? ==> r == FetchFailed(res.message))
      && (res.Response? && !res.ok ==> r == FetchFailed(FetchFailure + url))
      && (res.Response? && res.ok && res.body.Unparsable? ==> r == FetchFailed(res.body.message))
      && (res.Response? && res.ok && res.body.Parsed? ==> r == Listed(transform(res.body.data)))
  {
    if url == "" then Listed([])
    else match fetch(url, RequestHeaders(key, headers))
      case Rejected(m) => FetchFailed(m)
      case Response(ok, body) =>
        if !ok then FetchFailed(FetchFailure + url)
        else match body
          case Unparsable(m) => FetchFailed(m)
          case Parsed(data) => Listed(transform(data))
  }

  // ---- OpenRouter (lines 58-131) ----

  const TextToText: string := "text->text"

  /** The curated translation models, best first. */
  const Champions: seq<string> := [
    "google/gemini-2.0-flash-exp:free", "google/gemini-2.5-flash:free", "google/gemini-flash-1.5",
    "openai/gpt-4o", "openai/gpt-4o-mini", "qwen/qwen3-235b", "qwen/qwen-2.5-72b-instruct",
    "meta-llama/llama-3.1-8b-instruct:free", "meta-llama/llama-3.2-3b-instruct:free", "mistralai/mistral-nemo"]

  const Star: string := " ⭐"

  /** Text in, text out: by the architecture's modality, or by both modality lists
      being exactly `["text"]`. */
  predicate TextOnly(m: Model) {
    m.modality == Some(TextToText)
    || (m.inputModalities == Some(["text"]) && m.outputModalities == Some(["text"]))
  }

  predicate IsChampion(id: string) {
    id in Champions
  }

  /** `translationChampions.indexOf(id)`. */
  function Rank(id: string): (r: nat)
    requires IsChampion(id)
    ensures r < |Champions| && Champions[r] == id
    ensures forall k :: 0 <= k < r ==> Champions[k] != id
  {
    RankFrom(id, 0)
  }

  function RankFrom(id: string, from: nat): (r: nat)
    requires from <= |Champions| && id in Champions[from..]
    ensures from <= r < |Champions| && Champions[r] == id
    ensures forall k :: from <= k < r ==> Champions[k] != id
    decreases |Champions| - from
  {
    if Champions[from] == id then from else RankFrom(id, from + 1)
  }

  predicate IsFree(m: Model) {
    m.promptPrice == Some("0")
  }

  /** `a.localeCompare(b)`, by code points. */
  function LocaleCompare(a: string, b: string): (r: int)
    ensures r == 0 <==> a == b
    ensures r <= 0 <==> LexLe(a, b)
    ensures r >= 0 <==> LexLe(b, a)
  {
    LexLeReflexive(a);
    if a == b then 0
    else if LexLe(a, b) then
      LexLeStrict(a, b);
      -1
    else
      LexLeTotal(a, b);
      1
  }

  lemma LexLeStrict(a: string, b: string)
    requires a != b && LexLe(a, b)
    ensures !LexLe(b, a)
  {
    if LexLe(b, a) {
      LexLeAntisymmetric(a, b);
    }
  }

  /** The sort's comparator. */
  function Compare(a: Model, b: Model): int {
    var ac := IsChampion(a.id);
    var bc := IsChampion(b.id);
    if ac && !bc then -1
    else if !ac && bc then 1
    else if ac && bc then Rank(a.id) as int - Rank(b.id) as int
    else if IsFree(a) && !IsFree(b) then -1
    else if !IsFree(a) && IsFree(b) then 1
    else LocaleCompare(a.name, b.name)
  }

  /** `a` may stay before `b`. */
  predicate Before(a: Model, b: Model) {
    Compare(a, b) <= 0
  }

  /** The comparator is consistent: it orders every pair and chains. */
  lemma BeforeTotalPreorder()
    ensures Sorting.TotalPreorder(Before)
  {
    forall a, b ensures Before(a, b) || Before(b, a) {
      LexLeTotal(a.name, b.name);
    }
    forall a, b, c | Before(a, b) && Before(b, c) ensures Before(a, c) {
      if !IsChampion(a.id) && !IsChampion(b.id) && !IsChampion(c.id) && IsFree(a) == IsFree(b) == IsFree(c) {
        LexLeTransitive(a.name, b.name, c.name);
      }
    }
  }

  /** The text models, sorted. */
  function Ranked(data: seq<Model>): (r: seq<Model>)
    ensures multiset(r) == multiset(Seqs.Filter(data, TextOnly))
    ensures Sorting.SortedBy(r, Before)
  {
    BeforeTotalPreorder();
    Sorting.SortBy(Seqs.Filter(data, TextOnly), Before)
  }

  /** The champion mark. */
  function Decorate(m: Model): (r: Model)
    ensures r.id == m.id
    ensures IsChampion(m.id) ==> r.name == m.name + Star
    ensures !IsChampion(m.id) ==> r.name == m.name
    ensures r.promptPrice == m.promptPrice && r.modality == m.modality
    ensures r.inputModalities == m.inputModalities && r.outputModalities == m.outputModalities
  {
    m.(name := m.name + (if IsChampion(m.id) then Star else ""))
  }

  /** The transform of `useOpenRouterModels`. */
  function OpenRouterModels(data: seq<Model>): (r: seq<Model>)
    ensures |r| == |Ranked(data)|
    ensures forall i :: 0 <= i < |r| ==> r[i] == Decorate(Ranked(data)[i])
  {
    seq(|Ranked(data)|, i requires 0 <= i < |Ranked(data)| => Decorate(Ranked(data)[i]))
  }

  /** The OpenRouter list holds exactly the text models, each once per listing. */
  lemma OpenRouterKeepsTextModels(data: seq<Model>)
    ensures forall m :: m in Ranked(data) <==> m in data && TextOnly(m)
    ensures |OpenRouterModels(data)| == |Seqs.Filter(data, TextOnly)|
  {
    var f := Seqs.Filter(data, TextOnly);
    forall m ensures m in Ranked(data) <==> m in f {
      assert m in Ranked(data) <==> m in multiset(Ranked(data));
      assert m in f <==> m in multiset(f);
    }
    assert |multiset(Ranked(data))| == |multiset(f)|;
  }

  /** Champions come first, in the curated order; the others put free models first,
      then go by name. */
  lemma OpenRouterOrder(data: seq<Model>)
    ensures var r := OpenRouterModels(data);
      forall i, j :: 0 <= i < j < |r| && IsChampion(r[j].id) ==> IsChampion(r[i].id)
    ensures var r := OpenRouterModels(data);
      forall i, j :: 0 <= i < j < |r| && IsChampion(r[i].id) && IsChampion(r[j].id) ==> Rank(r[i].id) <= Rank(r[j].id)
    ensures var r := OpenRouterModels(data);
      forall i, j :: 0 <= i < j < |r| && !IsChampion(r[i].id) && !IsChampion(r[j].id) && IsFree(r[j]) ==> IsFree(r[i])
    ensures var r := OpenRouterModels(data);
      forall i, j :: 0 <= i < j < |r| && !IsChampion(r[i].id) && !IsChampion(r[j].id) && IsFree(r[i]) == IsFree(r[j]) ==>
        LexLe(r[i].name, r[j].name)
  {
    var s := Ranked(data);
    var r := OpenRouterModels(data);
    forall i, j | 0 <= i < j < |r| ensures Before(s[i], s[j]) {
    }
  }

  /** Only champions carry the star, and every id is the listing's own. */
  lemma OpenRouterStars(data: seq<Model>)
    ensures var r := OpenRouterModels(data);
      forall i :: 0 <= i < |r| ==>
        && r[i].id == Ranked(data)[i].id
        && (IsChampion(r[i].id) <==> r[i].name == Ranked(data)[i].name + Star)
  {
    var r := OpenRouterModels(data);
    forall i | 0 <= i < |r|
      ensures IsChampion(r[i].id) <==> r[i].name == Ranked(data)[i].name + Star
    {
      var n := Ranked(data)[i].name;
      if !IsChampion(r[i].id) {
        assert |r[i].name| == |n| < |n + Star|;
      }
    }
  }

  // ---- OpenAI and Groq (lines 42-56, 153-166) ----

  predicate IdBefore(a: string, b: string) {
    LocaleCompare(a, b) <= 0
  }

  lemma IdBeforeTotalPreorder()
    ensures Sorting.TotalPreorder(IdBefore)
  {
    forall a, b ensures IdBefore(a, b) || IdBefore(b, a) {
      LexLeTotal(a, b);
    }
    forall a, b, c | IdBefore(a, b) && IdBefore(b, c) ensures IdBefore(a, c) {
      LexLeTransitive(a, b, c);
    }
  }

  /** The ids of a list of models. */
  function IdsOf(r: seq<Model>): (ids: seq<string>)
    ensures |ids| == |r| && forall i :: 0 <= i < |r| ==> ids[i] == r[i].id
  {
    seq(|r|, i requires 0 <= i < |r| => r[i].id)
  }

  /** Each id named by itself. */
  function Named(ids: seq<string>): (r: seq<Model>)
    ensures IdsOf(r) == ids
    ensures forall i :: 0 <= i < |r| ==> r[i] == Plain(ids[i], ids[i])
  {
    var r := seq(|ids|, i requires 0 <= i < |ids| => Plain(ids[i], ids[i]));
    assert IdsOf(r) == ids;
    r
  }

  /** Ids sorted by `localeCompare`, each named by itself. */
  function ById(ids: seq<string>): (r: seq<Model>)
    ensures multiset(IdsOf(r)) == multiset(ids)
    ensures forall i, j :: 0 <= i < j < |r| ==> LexLe(r[i].id, r[j].id)
    ensures forall i :: 0 <= i < |r| ==> r[i] == Plain(r[i].id, r[i].id)
  {
    IdBeforeTotalPreorder();
    var sorted := Sorting.SortBy(ids, IdBefore);
    Named(sorted)
  }

  predicate MentionsGpt(id: string) {
    Contains(id, "gpt")
  }

  /** The transform of `useOpenAIModels`: only ids that mention "gpt". */
  function OpenAIModels(ids: seq<string>): (r: seq<Model>)
    ensures multiset(IdsOf(r)) == multiset(Seqs.Filter(ids, MentionsGpt))
    ensures forall i, j :: 0 <= i < j < |r| ==> LexLe(r[i].id, r[j].id)
    ensures forall i :: 0 <= i < |r| ==> r[i] == Plain(r[i].id, r[i].id)
  {
    ById(Seqs.Filter(ids, MentionsGpt))
  }

  /** The OpenAI list names exactly the listed ids that mention "gpt". */
  lemma OpenAIKeepsGpt(ids: seq<string>)
    ensures forall x :: x in IdsOf(OpenAIModels(ids)) <==> x in ids && MentionsGpt(x)
  {
    var kept := IdsOf(OpenAIModels(ids));
    forall x ensures x in kept <==> x in Seqs.Filter(ids, MentionsGpt) {
      assert x in kept <==> x in multiset(kept);
    }
  }

  /** The transform of `useGroqModels`: every id. */
  function GroqModels(ids: seq<string>): (r: seq<Model>)
    ensures multiset(IdsOf(r)) == multiset(ids)
    ensures forall i, j :: 0 <= i < j < |r| ==> LexLe(r[i].id, r[j].id)
    ensures forall i :: 0 <= i < |r| ==> r[i] == Plain(r[i].id, r[i].id)
  {
    ById(ids)
  }

  // ---- Gemini (lines 133-151) ----

  datatype GeminiListing = GeminiListing(name: string, displayName: string)

  const ModelsPrefix: string := "models/"
  const GeminiFailure: string := "Failed to fetch Gemini models"

  predicate IsGemini(m: GeminiListing) {
    Contains(m.name, "gemini")
  }

  /** `m.name.replace("models/", "")` as the id, the display name as the name: the
      first occurrence of the pattern goes, wherever it stands. */
  function GeminiModel(m: GeminiListing): (r: Model)
    ensures r.name == m.displayName
    ensures StartsWith(m.name, ModelsPrefix) ==> r.id == m.name[|ModelsPrefix|..]
    ensures !Contains(m.name, ModelsPrefix) ==> r.id == m.name
    ensures forall k: nat :: FirstAt(m.name, ModelsPrefix, k) ==>
      r.id == m.name[..k] + m.name[k + |ModelsPrefix|..]
  {
    Removal(m.name, ModelsPrefix);
    Plain(ReplaceFirst(m.name, ModelsPrefix, ""), m.displayName)
  }

  /** What removing the first occurrence of `pat` leaves, in each case. */
  lemma Removal(s: string, pat: string)
    ensures StartsWith(s, pat) ==> ReplaceFirst(s, pat, "") == s[|pat|..]
    ensures !Contains(s, pat) ==> ReplaceFirst(s, pat, "") == s
    ensures forall k: nat :: FirstAt(s, pat, k) ==> ReplaceFirst(s, pat, "") == s[..k] + s[k + |pat|..]
  {
    if StartsWith(s, pat) {
      RemovePrefix(s, pat);
    }
    if !Contains(s, pat) {
      RemoveAbsent(s, pat);
    }
    RemoveFirst(s, pat);
  }

  /** Removing the first occurrence cuts it out, wherever it stands. */
  lemma RemoveFirst(s: string, pat: string)
    ensures forall k: nat :: FirstAt(s, pat, k) ==> ReplaceFirst(s, pat, "") == s[..k] + s[k + |pat|..]
  {
    forall k: nat | FirstAt(s, pat, k)
      ensures ReplaceFirst(s, pat, "") == s[..k] + s[k + |pat|..]
    {
      ReplaceFirstAt(s, pat, "", k);
      assert s[..k] + "" + s[k + |pat|..] == s[..k] + s[k + |pat|..];
    }
  }

  /** Removing the first occurrence of a prefix drops it. */
  lemma RemovePrefix(s: string, pat: string)
    requires StartsWith(s, pat)
    ensures ReplaceFirst(s, pat, "") == s[|pat|..]
  {
    assert IndexOf(s, pat, 0) == 0;
    assert s[..0] + "" + s[|pat|..] == s[|pat|..];
  }

  /** With no occurrence, nothing changes. */
  lemma RemoveAbsent(s: string, pat: string)
    requires !Contains(s, pat)
    ensures ReplaceFirst(s, pat, "") == s
  {
    var i := IndexOf(s, pat, 0);
    if i != -1 {
      ContainsAt(s, pat, i);
    }
  }

  /** `useGeminiModels`: no key lists nothing and fetches nothing; otherwise the
      Gemini models of the listing at `<base>?key=<key>`. */
  function GeminiModels(key: Option<string>, fetch: string -> Response<seq<GeminiListing>>): (r: Fetched)
    ensures !Truthy(key) ==> r == Listed([])
    ensures Truthy(key) ==>
      var res := fetch(Llm.GeminiBase + "?key=" + key.value);
      && (res.Rejected? ==> r == FetchFailed(res.message))
      && (res.Response? && !res.ok ==> r == FetchFailed(GeminiFailure))
      && (res.Response? && res.ok && res.body.Unparsable? ==> r == FetchFailed(res.body.message))
    ensures Truthy(key) ==>
      var res := fetch(Llm.GeminiBase + "?key=" + key.value);
      res.Response? && res.ok && res.body.Parsed? ==>
        var kept := Seqs.Filter(res.body.data, IsGemini);
        r.Listed? && |r.models| == |kept| && forall i :: 0 <= i < |kept| ==> r.models[i] == GeminiModel(kept[i])
  {
    if !Truthy(key) then Listed([])
    else match fetch(Llm.GeminiBase + "?key=" + key.value)
      case Rejected(m) => FetchFailed(m)
      case Response(ok, body) =>
        if !ok then FetchFailed(GeminiFailure)
        else match body
          case Unparsable(m) => FetchFailed(m)
          case Parsed(data) =>
            var kept := Seqs.Filter(data, IsGemini);
            Listed(seq(|kept|, i requires 0 <= i < |kept| => GeminiModel(kept[i])))
  }
}

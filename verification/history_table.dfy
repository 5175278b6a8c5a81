/**
 * The history page (src/features/history-table.tsx): the records newest first,
 * narrowed by a case-insensitive search over the original and the result and by a
 * tab for the kind, with rows that expand when clicked.
 */
module HistoryTable {
  import opened Wrappers
  import opened Strings
  import PromptUtils
  import History
  import Seqs
  import Sorting

  datatype Tab = All | Only(kind: PromptUtils.Mode)

  /** The page's state. `expanded` holds the keys of the expanded records. */
  datatype View = View(history: seq<History.Entry>, term: string, tab: Tab, expanded: set<nat>)

  const ExpandedHeight: nat := 300
  const CollapsedHeight: nat := 100

  /** `loadHistory`: the records in reverse index order, or none if reading fails. */
  function Load(read: Option<seq<History.Entry>>): (r: seq<History.Entry>)
    ensures read.None? ==> r == []
    ensures read.Some? ==> |r| == |read.value|
    ensures read.Some? ==> forall i :: 0 <= i < |r| ==> r[i] == read.value[|r| - 1 - i]
  {
    if read.Some? then Seqs.Reverse(read.value) else []
  }

  /** The page lists the store newest first. */
  lemma NewestFirst(db: History.Db)
    ensures var r := Load(Some(History.GetAll(db)));
      forall i, j :: 0 <= i < j < |r| ==> History.ByDate(r[j], r[i])
    ensures multiset(Load(Some(History.GetAll(db)))) == multiset(db.entries)
  {
    var all := History.GetAll(db);
    var r := Load(Some(all));
    forall i, j | 0 <= i < j < |r| ensures History.ByDate(r[j], r[i]) {
      assert r[j] == all[|all| - 1 - j] && r[i] == all[|all| - 1 - i];
    }
    ReverseMultiset(all);
  }

  lemma {:induction false} ReverseMultiset<T>(s: seq<T>)
    ensures multiset(Seqs.Reverse(s)) == multiset(s)
    decreases |s|
  {
    if |s| > 0 {
      ReverseMultiset(s[..|s| - 1]);
      assert s == s[..|s| - 1] + [s[|s| - 1]];
    }
  }

  /** The search condition: the term occurs in the original or in the result,
      ignoring case. */
  predicate MatchesSearch(e: History.Entry, term: string) {
    Contains(Lower(e.item.draft.original), Lower(term)) || Contains(Lower(e.item.draft.result), Lower(term))
  }

  predicate MatchesTab(e: History.Entry, tab: Tab) {
    tab.All? || e.item.draft.kind == tab.kind
  }

  /** `filteredHistory`. */
  function Visible(history: seq<History.Entry>, term: string, tab: Tab): (r: seq<History.Entry>)
    ensures forall e :: e in r <==> e in history && MatchesSearch(e, term) && MatchesTab(e, tab)
    ensures multiset(r) <= multiset(history)
  {
    var keep := (e: History.Entry) => MatchesSearch(e, term) && MatchesTab(e, tab);
    Seqs.FilterMultiset(history, keep);
    Seqs.Filter(history, keep)
  }

  /** Narrowing a newest-first page keeps it newest first; `NewestFirst` shows the
      loaded page is one. */
  lemma VisibleNewestFirst(history: seq<History.Entry>, term: string, tab: Tab)
    requires forall i, j :: 0 <= i < j < |history| ==> History.ByDate(history[j], history[i])
    ensures forall i, j :: 0 <= i < j < |Visible(history, term, tab)| ==>
      History.ByDate(Visible(history, term, tab)[j], Visible(history, term, tab)[i])
  {
    Seqs.FilterKeepsOrder(history, (e: History.Entry) => MatchesSearch(e, term) && MatchesTab(e, tab),
                          (a: History.Entry, b: History.Entry) => History.ByDate(b, a));
  }

  /** With no search term the "all" tab shows everything. */
  lemma EmptySearchShowsAll(history: seq<History.Entry>)
    ensures Visible(history, "", All) == history
  {
    forall i | 0 <= i < |history| ensures MatchesSearch(history[i], "") {
      assert StartsWith(Lower(history[i].item.draft.original), Lower(""));
    }
    Seqs.FilterAll(history, (e: History.Entry) => MatchesSearch(e, "") && MatchesTab(e, All));
  }

  /** The two kind tabs split what the "all" tab shows. */
  lemma TabsPartition(history: seq<History.Entry>, term: string)
    ensures |Visible(history, term, Only(PromptUtils.Rewrite))| + |Visible(history, term, Only(PromptUtils.Translate))|
      == |Visible(history, term, All)|
  {
    var all := Visible(history, term, All);
    var rw := (e: History.Entry) => MatchesSearch(e, term) && MatchesTab(e, Only(PromptUtils.Rewrite));
    var tr := (e: History.Entry) => MatchesSearch(e, term) && MatchesTab(e, Only(PromptUtils.Translate));
    var isRw := (e: History.Entry) => e.item.draft.kind == PromptUtils.Rewrite;
    var isTr := (e: History.Entry) => e.item.draft.kind != PromptUtils.Rewrite;
    var everything := (e: History.Entry) => MatchesSearch(e, term) && MatchesTab(e, All);
    Seqs.FilterFilter(history, everything, isRw, rw);
    Seqs.FilterFilter(history, everything, isTr, tr);
    Seqs.FilterSplit(all, isRw, isTr);
  }

  lemma LowerUpperChar(c: char)
    ensures LowerChar(UpperChar(c)) == LowerChar(c)
    ensures LowerChar(LowerChar(c)) == LowerChar(c)
  {
  }

  /** The search ignores the case of the term. */
  lemma SearchIgnoresCase(history: seq<History.Entry>, term: string, tab: Tab)
    ensures Visible(history, Upper(term), tab) == Visible(history, term, tab)
    ensures Visible(history, Lower(term), tab) == Visible(history, term, tab)
  {
    forall i | 0 <= i < |term| ensures Lower(Upper(term))[i] == Lower(term)[i] && Lower(Lower(term))[i] == Lower(term)[i] {
      LowerUpperChar(term[i]);
    }
    assert Lower(Upper(term)) == Lower(term);
    assert Lower(Lower(term)) == Lower(term);
    Seqs.FilterExt(history, (e: History.Entry) => MatchesSearch(e, Upper(term)) && MatchesTab(e, tab),
                   (e: History.Entry) => MatchesSearch(e, term) && MatchesTab(e, tab));
    Seqs.FilterExt(history, (e: History.Entry) => MatchesSearch(e, Lower(term)) && MatchesTab(e, tab),
                   (e: History.Entry) => MatchesSearch(e, term) && MatchesTab(e, tab));
  }

  /** Typing more of a term only narrows the list. */
  lemma LongerTermNarrows(history: seq<History.Entry>, term: string, more: string, tab: Tab)
    requires Contains(Lower(more), Lower(term))
    ensures forall e :: e in Visible(history, more, tab) ==> e in Visible(history, term, tab)
  {
    forall e | e in Visible(history, more, tab) ensures MatchesSearch(e, term) {
      if Contains(Lower(e.item.draft.original), Lower(more)) {
        ContainsTransitive(Lower(e.item.draft.original), Lower(more), Lower(term));
      } else {
        ContainsTransitive(Lower(e.item.draft.result), Lower(more), Lower(term));
      }
    }
  }

  // ---- Expanding rows ----

  /** Adds a member that is absent and removes one that is present. */
  function Toggle(s: set<nat>, x: nat): (r: set<nat>)
    ensures x in r <==> x !in s
    ensures forall y :: y != x ==> (y in r <==> y in s)
  {
    if x in s then s - {x} else s + {x}
  }

  lemma ToggleTwice(s: set<nat>, x: nat)
    ensures Toggle(Toggle(s, x), x) == s
  {
  }

  /** `toggleExpand(index)`, keyed by the record shown at that row. */
  function ToggleRow(v: View, index: nat): (r: View)
    ensures r.history == v.history && r.term == v.term && r.tab == v.tab
    ensures index < |Visible(v.history, v.term, v.tab)| ==>
      r.expanded == Toggle(v.expanded, Visible(v.history, v.term, v.tab)[index].id)
    ensures index >= |Visible(v.history, v.term, v.tab)| ==> r == v
  {
    var rows := Visible(v.history, v.term, v.tab);
    if index < |rows| then v.(expanded := Toggle(v.expanded, rows[index].id)) else v
  }

  /** Whether the row at `index` is drawn expanded. */
  predicate IsExpanded(v: View, index: nat)
    requires index < |Visible(v.history, v.term, v.tab)|
  {
    Visible(v.history, v.term, v.tab)[index].id in v.expanded
  }

  /** `getItemSize(index)`. */
  function ItemSize(v: View, index: nat): (r: nat)
    requires index < |Visible(v.history, v.term, v.tab)|
    ensures r == ExpandedHeight <==> IsExpanded(v, index)
    ensures r == CollapsedHeight <==> !IsExpanded(v, index)
  {
    if IsExpanded(v, index) then ExpandedHeight else CollapsedHeight
  }

  /** A row's expansion belongs to its record: changing the search or the tab
      leaves every record that stays visible as expanded as it was. */
  lemma ExpansionFollowsRecord(v: View, term: string, tab: Tab, i: nat, j: nat)
    requires i < |Visible(v.history, v.term, v.tab)|
    requires j < |Visible(v.history, term, tab)|
    requires Visible(v.history, v.term, v.tab)[i] == Visible(v.history, term, tab)[j]
    ensures IsExpanded(v, i) == IsExpanded(v.(term := term, tab := tab), j)
  {
  }

  /** `handleClear`: after confirmation the store and the page are emptied. */
  function ClearPage(v: View, db: History.Db, confirmed: bool): (r: (View, History.Db))
    requires History.Valid(db)
    ensures !confirmed ==> r == (v, db)
    ensures confirmed ==> r.0.history == [] && r.0.expanded == {} && r.1.entries == []
    ensures confirmed ==> r.0.term == v.term && r.0.tab == v.tab && r.1.nextKey == db.nextKey
  {
    if confirmed then (v.(history := [], expanded := {}), History.Clear(db)) else (v, db)
  }

  // ---- The page as written: expansion keyed by row position ----

  /** The page's own `expandedIds`, which holds row positions in the filtered list. */
  datatype IndexView = IndexView(history: seq<History.Entry>, term: string, tab: Tab, expanded: set<nat>)

  function ToggleRowAsWritten(v: IndexView, index: nat): (r: IndexView)
    ensures index in r.expanded <==> index !in v.expanded
    ensures r.history == v.history && r.term == v.term && r.tab == v.tab
  {
    v.(expanded := Toggle(v.expanded, index))
  }

  predicate IsExpandedAsWritten(v: IndexView, index: nat) {
    index in v.expanded
  }

  /** `getItemSize(index)` as written: the height follows the row position, whatever
      record the filtered list puts there. */
  function ItemSizeAsWritten(v: IndexView, index: nat): (r: nat)
    ensures r == ExpandedHeight <==> index in v.expanded
    ensures r == CollapsedHeight <==> index !in v.expanded
  {
    if IsExpandedAsWritten(v, index) then ExpandedHeight else CollapsedHeight
  }

  /** A search that misses the first of two records and finds the second shows the
      second alone. */
  lemma SearchKeepsSecond(a: History.Entry, b: History.Entry, term: string)
    requires !MatchesSearch(a, term) && MatchesSearch(b, term)
    ensures Visible([a, b], term, All) == [b]
  {
    assert [a, b][1..] == [b];
  }

  lemma AppleMissesBan(a: History.Entry)
    requires a.item.draft.original == "apple" && a.item.draft.result == "apple"
    ensures !MatchesSearch(a, "ban")
  {
    assert Lower("apple") == "apple";
    assert Lower("ban") == "ban";
    if Contains("apple", "ban") {
      ContainsHead("apple", "ban");
    }
  }

  lemma BananaMatchesBan(b: History.Entry)
    requires b.item.draft.original == "banana"
    ensures MatchesSearch(b, "ban")
  {
    assert Lower("banana") == "banana";
    assert Lower("ban") == "ban";
    assert StartsWith("banana", "ban");
  }

  /** Expanding the first of two records and then searching for the second shows the
      second expanded, though it was never clicked. */
  lemma ExpansionFollowsRowAsWritten(a: History.Entry, b: History.Entry)
    requires a.item.draft.original == "apple" && a.item.draft.result == "apple"
    requires b.item.draft.original == "banana" && b.item.draft.result == "banana"
    ensures var v := ToggleRowAsWritten(IndexView([a, b], "", All, {}), 0);
      var w := v.(term := "ban");
      && Visible(v.history, v.term, v.tab) == [a, b]
      && Visible(w.history, w.term, w.tab) == [b]
      && !IsExpandedAsWritten(v, 1)
      && IsExpandedAsWritten(w, 0)
      && ItemSizeAsWritten(v, 1) == CollapsedHeight
      && ItemSizeAsWritten(w, 0) == ExpandedHeight
  {
    EmptySearchShowsAll([a, b]);
    AppleMissesBan(a);
    BananaMatchesBan(b);
    SearchKeepsSecond(a, b, "ban");
  }
}

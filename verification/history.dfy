/**
 * The history store (src/services/history.ts): an IndexedDB object store with an
 * auto-incremented key and a "by-date" index on the timestamp. The database is a
 * value here: its records in key order and the key generator's next key.
 */
module History {
  import opened Wrappers
  import PromptUtils
  import Sorting
  import Seqs

  /** What a caller hands to `add`: the item without its key and timestamp. The
      options are `None` when absent, and hold the tone or the target language. */
  datatype Draft = Draft(
    kind: PromptUtils.Mode,
    original: string,
    result: string,
    provider: string,
    model: string,
    rewriteOptions: Option<Option<string>>,
    translateOptions: Option<Option<string>>)

  /** A stored `HistoryItem`. */
  datatype Item = Item(draft: Draft, timestamp: int)

  datatype Entry = Entry(id: nat, item: Item)

  datatype Db = Db(entries: seq<Entry>, nextKey: nat)

  /** A freshly created store: the key generator starts at 1. */
  const Empty: Db := Db([], 1)

  /** Records are kept in key order and every key is below the next one to issue. */
  predicate Valid(db: Db) {
    && 1 <= db.nextKey
    && Ascending(db.entries)
    && (forall i :: 0 <= i < |db.entries| ==> 1 <= db.entries[i].id < db.nextKey)
  }

  /** The record stored under `id`, if any. */
  function Lookup(db: Db, id: nat): (r: Option<Item>)
    ensures r.Some? <==> exists i :: 0 <= i < |db.entries| && db.entries[i].id == id
    ensures r.Some? ==> Entry(id, r.value) in db.entries
    decreases |db.entries|
  {
    if |db.entries| == 0 then None
    else if db.entries[0].id == id then Some(db.entries[0].item)
    else
      var r := Lookup(Db(db.entries[1..], db.nextKey), id);
      assert forall i :: 1 <= i < |db.entries| ==> db.entries[i] == db.entries[1..][i - 1];
      r
  }

  lemma EmptyValid()
    ensures Valid(Empty)
  {
  }

  /** `add(item)`: stores the item stamped with `now` under the next key and
      returns that key. */
  function Add(db: Db, draft: Draft, now: int): (r: (Db, nat))
    requires Valid(db)
    ensures Valid(r.0)
    ensures r.1 >= 1 && Lookup(db, r.1).None?
    ensures forall i :: 0 <= i < |db.entries| ==> db.entries[i].id < r.1
    ensures db.nextKey <= r.1 < r.0.nextKey
    ensures Lookup(r.0, r.1) == Some(Item(draft, now))
    ensures forall k :: k != r.1 ==> Lookup(r.0, k) == Lookup(db, k)
    ensures |r.0.entries| == |db.entries| + 1
  {
    var id := db.nextKey;
    var e := Entry(id, Item(draft, now));
    var db' := Db(db.entries + [e], id + 1);
    LookupAppend(db, e, id + 1);
    AppendValid(db, e);
    (db', id)
  }

  lemma AppendValid(db: Db, e: Entry)
    requires Valid(db) && e.id == db.nextKey
    ensures Valid(Db(db.entries + [e], e.id + 1))
  {
    var s := db.entries + [e];
    forall i, j | 0 <= i < j < |s| ensures s[i].id < s[j].id {
      if j < |db.entries| { assert s[i] == db.entries[i] && s[j] == db.entries[j]; }
      else { assert s[i] == db.entries[i]; }
    }
    forall i | 0 <= i < |s| ensures 1 <= s[i].id < e.id + 1 {
      if i < |db.entries| { assert s[i] == db.entries[i]; }
    }
  }

  lemma {:induction false} LookupAppend(db: Db, e: Entry, next: nat)
    requires Valid(db) && e.id == db.nextKey && next > e.id
    ensures Lookup(Db(db.entries + [e], next), e.id) == Some(e.item)
    ensures forall k :: k != e.id ==> Lookup(Db(db.entries + [e], next), k) == Lookup(db, k)
    decreases |db.entries|
  {
    var d := Db(db.entries + [e], next);
    if |db.entries| > 0 {
      var tail := Db(db.entries[1..], db.nextKey);
      assert d.entries[1..] == tail.entries + [e];
      LookupAppend(tail, e, next);
      assert Lookup(Db(d.entries[1..], d.nextKey), e.id) == Lookup(Db(tail.entries + [e], next), e.id);
    }
  }

  /** The "by-date" index order: by timestamp, equal timestamps by key. */
  predicate ByDate(a: Entry, b: Entry) {
    a.item.timestamp < b.item.timestamp || (a.item.timestamp == b.item.timestamp && a.id <= b.id)
  }

  lemma ByDateTotal()
    ensures Sorting.TotalPreorder(ByDate)
  {
  }

  /** `getAll()`: every record, in index order. */
  function GetAll(db: Db): (r: seq<Entry>)
    ensures Sorting.SortedBy(r, ByDate)
    ensures multiset(r) == multiset(db.entries)
  {
    ByDateTotal();
    Sorting.SortBy(db.entries, ByDate)
  }

  /** `clear()`: every record goes, but the key generator is not reset. */
  function Clear(db: Db): (r: Db)
    requires Valid(db)
    ensures Valid(r)
    ensures forall k :: Lookup(r, k).None?
    ensures r.nextKey == db.nextKey
  {
    Db([], db.nextKey)
  }

  /** Keys are never reused: a record added after a clear gets a key above every
      key the store held before. */
  lemma KeysNotReused(db: Db, draft: Draft, now: int)
    requires Valid(db)
    ensures forall i :: 0 <= i < |db.entries| ==> db.entries[i].id < Add(Clear(db), draft, now).1
  {
  }

  /** The records a deletion with this cutoff keeps. */
  predicate Newer(e: Entry, cutoff: int) {
    e.item.timestamp > cutoff
  }

  /** The records a deletion with this cutoff leaves. */
  function Keep(entries: seq<Entry>, cutoff: int): seq<Entry> {
    Seqs.Filter(entries, (e: Entry) => Newer(e, cutoff))
  }

  /** `cursor.delete()`: removes the record under the cursor's key. */
  function Delete(entries: seq<Entry>, id: nat): seq<Entry> {
    Seqs.Filter(entries, (e: Entry) => e.id != id)
  }

  /** The keys of a run of records. */
  function Ids(s: seq<Entry>): set<nat> {
    set e | e in s :: e.id
  }

  lemma IdsSnoc(s: seq<Entry>, i: nat)
    requires i < |s|
    ensures Ids(s[..i + 1]) == Ids(s[..i]) + {s[i].id}
  {
    assert s[..i + 1] == s[..i] + [s[i]];
  }

  /** The records whose keys are not in `removed`. */
  function Without(entries: seq<Entry>, removed: set<nat>): seq<Entry> {
    Seqs.Filter(entries, (e: Entry) => e.id !in removed)
  }

  /** What is left of `entries` once the first `n` records of `range` are deleted. */
  function Remaining(entries: seq<Entry>, range: seq<Entry>, n: nat): seq<Entry>
    requires n <= |range|
  {
    Without(entries, Ids(range[..n]))
  }

  /** The index range `upperBound(cutoff)`, in index order. */
  function Range(db: Db, cutoff: int): seq<Entry> {
    Seqs.Filter(GetAll(db), (e: Entry) => !Newer(e, cutoff))
  }

  /** `deleteOlderThan(maxAgeMs)`: walks the index over the range of timestamps up to
      `now - maxAgeMs`, deleting each record it visits, and counts them. */
  method DeleteOlderThan(db: Db, maxAge: int, now: int) returns (r: Db, count: nat)
    requires Valid(db)
    ensures Valid(r)
    ensures r.nextKey == db.nextKey
    ensures r.entries == Keep(db.entries, now - maxAge)
    ensures count + |r.entries| == |db.entries|
  {
    var cutoff := now - maxAge;
    var range := Range(db, cutoff);
    var kept;
    kept, count := DeleteEach(db.entries, range);
    DeletedAll(db, cutoff, kept);
    r := Db(kept, db.nextKey);
  }

  /** The cursor loop: deletes the record under each key the range visits, and
      counts the turns. */
  method DeleteEach(entries: seq<Entry>, range: seq<Entry>) returns (kept: seq<Entry>, count: nat)
    ensures count == |range|
    ensures kept == Remaining(entries, range, |range|)
  {
    kept := entries;
    WithoutNothing(entries, range);
    count := 0;
    while count < |range|
      invariant count <= |range|
      invariant kept == Remaining(entries, range, count)
    {
      DeleteStep(entries, range, count, kept);
      kept := Delete(kept, range[count].id);
      count := count + 1;
    }
  }

  /** After the walk over the whole range, the newer records are what is left. */
  lemma DeletedAll(db: Db, cutoff: int, kept: seq<Entry>)
    requires Valid(db)
    requires kept == Remaining(db.entries, Range(db, cutoff), |Range(db, cutoff)|)
    ensures kept == Keep(db.entries, cutoff)
    ensures Valid(Db(kept, db.nextKey))
    ensures |Range(db, cutoff)| + |kept| == |db.entries|
  {
    var range := Range(db, cutoff);
    assert range[..|range|] == range;
    RangeIsOlder(db, cutoff);
    KeptValid(db, kept, cutoff);
  }

  lemma WithoutNothing(entries: seq<Entry>, range: seq<Entry>)
    ensures Remaining(entries, range, 0) == entries
  {
    assert range[..0] == [];
    var removed := Ids(range[..0]);
    assert removed == {};
    Seqs.FilterAll(entries, (e: Entry) => e.id !in removed);
  }

  /** One turn of the cursor: deleting the record it is on removes its key too. */
  lemma DeleteStep(entries: seq<Entry>, range: seq<Entry>, i: nat, kept: seq<Entry>)
    requires i < |range|
    requires kept == Remaining(entries, range, i)
    ensures Delete(kept, range[i].id) == Remaining(entries, range, i + 1)
  {
    var removed := Ids(range[..i]);
    IdsSnoc(range, i);
    Seqs.FilterFilter(entries, (e: Entry) => e.id !in removed, (e: Entry) => e.id != range[i].id,
                      (e: Entry) => e.id !in removed + {range[i].id});
  }

  /** The keys the range visits are exactly the keys of the older records, so what is
      left are the newer ones, and the range holds as many records as were older. */
  lemma RangeIsOlder(db: Db, cutoff: int)
    requires Valid(db)
    ensures Without(db.entries, Ids(Range(db, cutoff))) == Keep(db.entries, cutoff)
    ensures |Range(db, cutoff)| + |Keep(db.entries, cutoff)| == |db.entries|
  {
    var all := GetAll(db);
    var range := Range(db, cutoff);
    var removed := Ids(range);
    forall i | 0 <= i < |db.entries|
      ensures (db.entries[i].id !in removed) == Newer(db.entries[i], cutoff)
    {
      var e := db.entries[i];
      assert e in multiset(all);
      if !Newer(e, cutoff) {
        assert e in range;
      }
      if e.id in removed {
        var x :| x in range && x.id == e.id;
        assert x in all;
        assert x in multiset(db.entries);
        var j :| 0 <= j < |db.entries| && db.entries[j] == x;
        assert db.entries[j].id == db.entries[i].id;
        assert j == i;
      }
    }
    Seqs.FilterExt(db.entries, (e: Entry) => e.id !in removed, (e: Entry) => Newer(e, cutoff));
    Seqs.FilterPermutation(all, db.entries, (e: Entry) => !Newer(e, cutoff));
    Seqs.FilterSplit(db.entries, (e: Entry) => !Newer(e, cutoff), (e: Entry) => Newer(e, cutoff));
  }

  /** Dropping records keeps the store valid. */
  lemma KeptValid(db: Db, kept: seq<Entry>, cutoff: int)
    requires Valid(db)
    requires kept == Keep(db.entries, cutoff)
    ensures Valid(Db(kept, db.nextKey))
  {
    FilterOrdered(db.entries, (e: Entry) => Newer(e, cutoff));
    forall i | 0 <= i < |kept| ensures 1 <= kept[i].id < db.nextKey {
      assert kept[i] in db.entries;
    }
  }

  /** Keys strictly increase along `s`. */
  predicate Ascending(s: seq<Entry>) {
    forall i, j :: 0 <= i < j < |s| ==> s[i].id < s[j].id
  }

  lemma AscendingCons(x: Entry, t: seq<Entry>)
    requires Ascending(t)
    requires forall k :: 0 <= k < |t| ==> x.id < t[k].id
    ensures Ascending([x] + t)
  {
    var u := [x] + t;
    forall i, j | 0 <= i < j < |u| ensures u[i].id < u[j].id {
      assert u[j] == t[j - 1];
      if i > 0 { assert u[i] == t[i - 1]; }
    }
  }

  lemma {:induction false} FilterOrdered(s: seq<Entry>, p: Entry -> bool)
    requires Ascending(s)
    ensures Ascending(Seqs.Filter(s, p))
    decreases |s|
  {
    if |s| > 0 {
      FilterOrdered(s[1..], p);
      var t := Seqs.Filter(s[1..], p);
      forall k | 0 <= k < |t| ensures s[0].id < t[k].id {
        assert t[k] in s[1..];
        var m :| 0 <= m < |s[1..]| && s[1..][m] == t[k];
        assert s[1..][m] == s[m + 1];
      }
      if p(s[0]) {
        AscendingCons(s[0], t);
      }
    }
  }
}

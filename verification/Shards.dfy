/** The sharded queue of internal/queue/shard.go: routing by event id, the merge of pending rows, and
    composite row ids. */
module Shards {
  import opened Basics
  import opened Database
  import opened RecordKeys

  const MAX_SHARDS := 64
  const DEFAULT_LIMIT := 100
  const WORD := 0x1_0000_0000_0000_0000
  const HALF_WORD := 0x8000_0000_0000_0000

  // ---------------------------------------------------------------- composite ids

  /** Truncation of an integer to int64. */
  function Wrap64(x: int): int {
    var u := x % WORD;
    if u < HALF_WORD then u else u - WORD
  }

  /** id<<6 | shard, in int64. */
  function Composite(id: int, shard: nat): int {
    Wrap64(id * MAX_SHARDS + shard)
  }

  function ShardOf(c: int): nat {
    c % MAX_SHARDS
  }

  function RowOf(c: int): int {
    c / MAX_SHARDS
  }

  lemma WrapShifts(x: int) returns (q: int)
    ensures Wrap64(x) == x + q * WORD
    ensures -HALF_WORD <= x < HALF_WORD <==> q == 0
  {
    q := if x % WORD < HALF_WORD then -(x / WORD) else -(x / WORD) - 1;
  }

  /** A composite id always decodes to its shard, and to its row exactly when the row id fits. */
  lemma CompositeDecodes(id: int, shard: nat)
    requires shard < MAX_SHARDS
    ensures ShardOf(Composite(id, shard)) == shard
    ensures RowOf(Composite(id, shard)) == id <==> -0x200_0000_0000_0000 <= id < 0x200_0000_0000_0000
  {
    var q := WrapShifts(id * MAX_SHARDS + shard);
    assert Composite(id, shard) == (id + q * 0x400_0000_0000_0000) * MAX_SHARDS + shard;
  }

  // ---------------------------------------------------------------- rows

  /** The columns the merge and the marks use, with the identity of the event in the payload. */
  datatype Row = Row(id: int, event: Bytes, revision: nat, created: int, status: int, retry: int, error: Bytes, updated: int)

  /** `archived` are the keys of queue_archived. */
  datatype Shard = Shard(rows: map<Key, Row>, archived: set<Key>, seqno: int)

  const NO_ROWS := Shard(map[], {}, 0)

  function NewRow(id: int, event: Bytes, revision: nat, now: int): Row {
    Row(id, event, revision, now, PENDING, 0, [], now)
  }

  predicate Eligible(r: Row, maxRetry: int) {
    (r.status == PENDING || r.status == FAILED) && (maxRetry <= 0 || r.retry < maxRetry)
  }

  datatype Entry = Entry(id: int, created: int, shard: nat)

  /** The order of the merge: by creation time, then row id. */
  predicate Before(a: Entry, b: Entry) {
    a.created < b.created || (a.created == b.created && a.id <= b.id)
  }

  ghost predicate Sorted(s: seq<Entry>) {
    forall i, j :: 0 <= i < j < |s| ==> Before(s[i], s[j])
  }

  function Insert(e: Entry, s: seq<Entry>): seq<Entry> {
    if s == [] || Before(e, s[0]) then [e] + s else [s[0]] + Insert(e, s[1..])
  }

  lemma {:induction false} InsertHolds(e: Entry, s: seq<Entry>)
    ensures multiset(Insert(e, s)) == multiset(s) + multiset{e}
  {
    if s != [] && !Before(e, s[0]) {
      InsertHolds(e, s[1..]);
      assert s == [s[0]] + s[1..];
    }
  }

  lemma {:induction false} InsertSorted(e: Entry, s: seq<Entry>)
    requires Sorted(s)
    ensures Sorted(Insert(e, s))
  {
    if s != [] && !Before(e, s[0]) {
      var rest := Insert(e, s[1..]);
      InsertSorted(e, s[1..]);
      forall i | 0 <= i < |rest| ensures Before(s[0], rest[i]) {
        InsertHolds(e, s[1..]);
        assert rest[i] in multiset(rest);
        assert rest[i] == e || rest[i] in s[1..];
      }
    }
  }

  /** sort.Slice; which of two entries with equal time and id comes first is not fixed there. */
  function Sort(s: seq<Entry>): (r: seq<Entry>)
    ensures Sorted(r) && multiset(r) == multiset(s)
  {
    if s == [] then [] else
    assert s == [s[0]] + s[1..];
    InsertHolds(s[0], Sort(s[1..]));
    InsertSorted(s[0], Sort(s[1..]));
    Insert(s[0], Sort(s[1..]))
  }

  // ---------------------------------------------------------------- one shard's page

  /** The first `limit` eligible rows by id. */
  ghost predicate IsPage(rows: map<Key, Row>, maxRetry: int, limit: nat, keys: seq<Key>) {
    && |keys| <= limit
    && (forall i :: 0 <= i < |keys| ==> keys[i] in rows && Eligible(rows[keys[i]], maxRetry))
    && (forall i, j :: 0 <= i < j < |keys| ==> rows[keys[i]].id < rows[keys[j]].id)
    && (forall k :: k in rows && Eligible(rows[k], maxRetry) && k !in keys ==>
          |keys| == limit && forall i :: 0 <= i < |keys| ==> rows[keys[i]].id < rows[k].id)
  }

  ghost predicate IdsUnique(rows: map<Key, Row>) {
    forall j, k :: j in rows && k in rows && rows[j].id == rows[k].id ==> j == k
  }

  /** pendingEntries. */
  method PendingEntries(rows: map<Key, Row>, maxRetry: int, limit: nat) returns (keys: seq<Key>)
    requires IdsUnique(rows)
    ensures IsPage(rows, maxRetry, limit, keys)
  {
    keys := [];
    var todo := set k | k in rows && Eligible(rows[k], maxRetry);
    while todo != {} && |keys| < limit
      invariant |keys| <= limit
      invariant forall k :: k in todo ==> k in rows && Eligible(rows[k], maxRetry) && k !in keys
      invariant forall k :: k in rows && Eligible(rows[k], maxRetry) && k !in keys ==> k in todo
      invariant forall i :: 0 <= i < |keys| ==> keys[i] in rows && Eligible(rows[keys[i]], maxRetry)
      invariant forall i, j :: 0 <= i < j < |keys| ==> rows[keys[i]].id < rows[keys[j]].id
      invariant forall i, k :: 0 <= i < |keys| && k in todo ==> rows[keys[i]].id < rows[k].id
      decreases todo
    {
      var next := Least(rows, todo);
      keys := keys + [next];
      todo := todo - {next};
    }
  }

  method Least(rows: map<Key, Row>, ks: set<Key>) returns (k: Key)
    requires ks != {} && IdsUnique(rows) && forall j :: j in ks ==> j in rows
    ensures k in ks && forall j :: j in ks && j != k ==> rows[k].id < rows[j].id
  {
    k :| k in ks;
    var todo := ks - {k};
    while todo != {}
      invariant todo <= ks && k in ks && k !in todo
      invariant forall j :: j in ks && j !in todo && j != k ==> rows[k].id < rows[j].id
      decreases todo
    {
      var j :| j in todo;
      todo := todo - {j};
      if rows[j].id < rows[k].id {
        k := j;
      }
    }
  }

  // ---------------------------------------------------------------- the merge

  function EntryFor(shards: seq<Shard>, i: nat, k: Key): Entry
    requires i < |shards| && k in shards[i].rows
  {
    Entry(shards[i].rows[k].id, shards[i].rows[k].created, i)
  }

  /** Some eligible row has this entry. */
  ghost predicate Pending(shards: seq<Shard>, maxRetry: int, e: Entry) {
    e.shard < |shards| && exists k :: Fits(shards[e.shard], maxRetry, k, e)
  }

  ghost predicate Fits(shard: Shard, maxRetry: int, k: Key, e: Entry) {
    && k in shard.rows && Eligible(shard.rows[k], maxRetry)
    && shard.rows[k].id == e.id && shard.rows[k].created == e.created
  }

  /** Among the rows to send creation times do not decrease with row ids. */
  ghost predicate Chronological(rows: map<Key, Row>, maxRetry: int) {
    forall j, k :: j in rows && k in rows && Eligible(rows[j], maxRetry) && Eligible(rows[k], maxRetry) && rows[j].id < rows[k].id ==>
      rows[j].created <= rows[k].created
  }

  function PageEntries(shards: seq<Shard>, i: nat, keys: seq<Key>): (r: seq<Entry>)
    requires i < |shards| && forall j :: 0 <= j < |keys| ==> keys[j] in shards[i].rows
    ensures |r| == |keys| && forall j :: 0 <= j < |r| ==> r[j] == EntryFor(shards, i, keys[j])
  {
    seq(|keys|, j requires 0 <= j < |keys| => EntryFor(shards, i, keys[j]))
  }

  /** What the pages of the first `n` shards, put together, hold: pending entries, none twice, and
      all but those that come after `limit` earlier ones of their own shard. */
  ghost predicate Collected(shards: seq<Shard>, maxRetry: int, limit: nat, n: nat, all: seq<Entry>) {
    && (forall i :: 0 <= i < |all| ==> all[i].shard < n && Pending(shards, maxRetry, all[i]))
    && (forall i, j :: 0 <= i < j < |all| ==> all[i] != all[j])
    && (forall e: Entry :: e.shard < n && Pending(shards, maxRetry, e) && e !in all ==> Crowded(limit, all, e))
  }

  /** `limit` entries of the same shard with smaller ids are there. */
  ghost predicate Crowded(limit: nat, all: seq<Entry>, e: Entry) {
    exists group :: |group| == limit && Ahead(all, e, group)
  }

  ghost predicate Ahead(all: seq<Entry>, e: Entry, group: set<Entry>) {
    forall x :: x in group ==> x in all && x.shard == e.shard && x.id < e.id
  }

  lemma CollectPage(shards: seq<Shard>, maxRetry: int, limit: nat, n: nat, all: seq<Entry>, keys: seq<Key>)
    requires n < |shards| && Collected(shards, maxRetry, limit, n, all)
    requires IdsUnique(shards[n].rows) && IsPage(shards[n].rows, maxRetry, limit, keys)
    ensures Collected(shards, maxRetry, limit, n + 1, all + PageEntries(shards, n, keys))
  {
    var page := PageEntries(shards, n, keys);
    var all' := all + page;
    forall i | 0 <= i < |page| ensures page[i].shard == n && Pending(shards, maxRetry, page[i]) {
      assert Fits(shards[n], maxRetry, keys[i], page[i]);
    }
    forall e: Entry | e.shard < n + 1 && Pending(shards, maxRetry, e) && e !in all' ensures Crowded(limit, all', e) {
      if e.shard < n {
        var group :| |group| == limit && Ahead(all, e, group);
        assert Ahead(all', e, group);
      } else {
        CutEntry(shards, maxRetry, limit, n, all, keys, e);
      }
    }
  }

  lemma CutEntry(shards: seq<Shard>, maxRetry: int, limit: nat, n: nat, all: seq<Entry>, keys: seq<Key>, e: Entry)
    requires n < |shards| && IdsUnique(shards[n].rows) && IsPage(shards[n].rows, maxRetry, limit, keys)
    requires e.shard == n && Pending(shards, maxRetry, e) && e !in PageEntries(shards, n, keys)
    ensures Crowded(limit, all + PageEntries(shards, n, keys), e)
  {
    var page := PageEntries(shards, n, keys);
    var k :| Fits(shards[n], maxRetry, k, e);
    forall i | 0 <= i < |keys| ensures keys[i] != k {
      assert page[i] in page && page[i] == EntryFor(shards, n, keys[i]);
    }
    var group := Elements(page);
    DistinctCount(page);
    forall x | x in group ensures x in all + page && x.shard == n && x.id < e.id {
      var i :| 0 <= i < |page| && page[i] == x;
      assert shards[n].rows[keys[i]].id == x.id;
    }
    assert Ahead(all + page, e, group);
  }

  function Elements<T(==)>(s: seq<T>): set<T> {
    set x | x in s
  }

  lemma {:induction false} DistinctCount<T>(s: seq<T>)
    requires forall i, j :: 0 <= i < j < |s| ==> s[i] != s[j]
    ensures |Elements(s)| == |s|
  {
    if s != [] {
      var last := s[|s| - 1];
      DistinctCount(s[..|s| - 1]);
      assert Elements(s) == Elements(s[..|s| - 1]) + {last};
    }
  }

  lemma {:induction false} PrefixCount<T>(s: seq<T>, n: nat)
    requires n <= |s|
    ensures |Elements(s[..n])| <= n
  {
    if n > 0 {
      PrefixCount(s, n - 1);
      assert Elements(s[..n]) == Elements(s[..n - 1]) + {s[n - 1]};
    }
  }

  /** An entry cut from its shard's page, or from the sorted merge, is no earlier than any entry
      that is returned. */
  lemma NoneEarlier(shards: seq<Shard>, maxRetry: int, limit: nat, all: seq<Entry>, sorted: seq<Entry>, e: Entry, j: nat)
    requires Collected(shards, maxRetry, limit, |shards|, all)
    requires Sorted(sorted) && multiset(sorted) == multiset(all)
    requires forall i :: 0 <= i < |shards| ==> Chronological(shards[i].rows, maxRetry)
    requires Pending(shards, maxRetry, e) && j < limit && j < |sorted|
    requires e !in sorted[..Min(limit, |sorted|)]
    ensures Before(sorted[j], e)
  {
    if e in all {
      assert e in multiset(sorted);
      var i :| 0 <= i < |sorted| && sorted[i] == e;
      assert forall k :: 0 <= k < Min(limit, |sorted|) ==> sorted[..Min(limit, |sorted|)][k] == sorted[k];
    } else if !Before(sorted[j], e) {
      CrowdBefore(shards, maxRetry, limit, all, sorted, e, j);
    }
  }

  /** The crowd in front of a cut entry fills the first `limit` places. */
  lemma CrowdBefore(shards: seq<Shard>, maxRetry: int, limit: nat, all: seq<Entry>, sorted: seq<Entry>, e: Entry, j: nat)
    requires Collected(shards, maxRetry, limit, |shards|, all)
    requires Sorted(sorted) && multiset(sorted) == multiset(all)
    requires forall i :: 0 <= i < |shards| ==> Chronological(shards[i].rows, maxRetry)
    requires Pending(shards, maxRetry, e) && e !in all && j < |sorted| && !Before(sorted[j], e)
    ensures j >= limit
  {
    var group :| |group| == limit && Ahead(all, e, group);
    forall x | x in group ensures x in sorted[..j] {
      assert x in multiset(sorted);
      var i :| 0 <= i < |sorted| && sorted[i] == x;
      CrowdOrder(shards, maxRetry, x, e);
      assert i < j;
      assert sorted[..j][i] == x;
    }
    var prefix := Elements(sorted[..j]);
    assert group <= prefix;
    SubsetCount(group, prefix);
    PrefixCount(sorted, j);
  }

  lemma CrowdOrder(shards: seq<Shard>, maxRetry: int, x: Entry, e: Entry)
    requires x.shard == e.shard && x.id < e.id && Pending(shards, maxRetry, x) && Pending(shards, maxRetry, e)
    requires Chronological(shards[e.shard].rows, maxRetry)
    ensures Before(x, e)
  {
    var k :| Fits(shards[x.shard], maxRetry, k, x);
    var l :| Fits(shards[e.shard], maxRetry, l, e);
  }

  lemma {:induction false} SubsetCount<T>(a: set<T>, b: set<T>)
    requires a <= b
    ensures |a| <= |b|
  {
    if a != {} {
      var x :| x in a;
      SubsetCount(a - {x}, b - {x});
    }
  }

  // ---------------------------------------------------------------- the queue

  /** The answer to "which events are next": pending ones, none twice, `limit` of them or all, and
      where row ids follow creation times no one left out is earlier than one returned. */
  ghost predicate IsNext(shards: seq<Shard>, maxRetry: int, limit: nat, page: seq<Entry>) {
    && |page| <= limit
    && (forall i :: 0 <= i < |page| ==> Pending(shards, maxRetry, page[i]))
    && (forall i, j :: 0 <= i < j < |page| ==> page[i] != page[j])
    && (|page| < limit ==> forall e :: Pending(shards, maxRetry, e) ==> e in page)
    && ((forall i :: 0 <= i < |shards| ==> Chronological(shards[i].rows, maxRetry)) ==>
          Sorted(page) && forall e, j :: Pending(shards, maxRetry, e) && e !in page && 0 <= j < |page| ==> Before(page[j], e))
  }

  lemma MergeIsNext(shards: seq<Shard>, maxRetry: int, limit: nat, all: seq<Entry>, sorted: seq<Entry>)
    requires Collected(shards, maxRetry, limit, |shards|, all)
    requires multiset(sorted) == multiset(all)
    requires (forall i :: 0 <= i < |shards| ==> Chronological(shards[i].rows, maxRetry)) ==> Sorted(sorted)
    ensures IsNext(shards, maxRetry, limit, sorted[..Min(limit, |sorted|)])
  {
    var page := sorted[..Min(limit, |sorted|)];
    MembersKept(all, sorted);
    DistinctKept(all, sorted);
    forall i | 0 <= i < |page| ensures Pending(shards, maxRetry, page[i]) {
      assert page[i] in sorted;
    }
    if |page| < limit {
      assert |all| == |multiset(all)| == |multiset(sorted)| == |sorted|;
      forall e | Pending(shards, maxRetry, e) ensures e in page {
        FewMeansAll(shards, maxRetry, limit, all, e);
      }
    }
    if forall i :: 0 <= i < |shards| ==> Chronological(shards[i].rows, maxRetry) {
      forall e, j | Pending(shards, maxRetry, e) && e !in page && 0 <= j < |page| ensures Before(page[j], e) {
        NoneEarlier(shards, maxRetry, limit, all, sorted, e, j);
      }
    }
  }

  lemma MembersKept(all: seq<Entry>, sorted: seq<Entry>)
    requires multiset(sorted) == multiset(all)
    ensures forall x :: x in sorted <==> x in all
  {
    assert forall x :: x in sorted <==> x in multiset(sorted);
    assert forall x :: x in all <==> x in multiset(all);
  }

  lemma DistinctKept(all: seq<Entry>, sorted: seq<Entry>)
    requires multiset(sorted) == multiset(all) && forall i, j :: 0 <= i < j < |all| ==> all[i] != all[j]
    ensures forall i, j :: 0 <= i < j < |sorted| ==> sorted[i] != sorted[j]
  {
    forall i, j | 0 <= i < j < |sorted| ensures sorted[i] != sorted[j] {
      CountOnce(all, sorted[i]);
      if sorted[i] == sorted[j] {
        CountTwice(sorted, i, j);
      }
    }
  }

  lemma {:induction false} CountOnce(s: seq<Entry>, x: Entry)
    requires forall i, j :: 0 <= i < j < |s| ==> s[i] != s[j]
    ensures multiset(s)[x] <= 1
  {
    if s != [] {
      CountOnce(s[1..], x);
      assert s == [s[0]] + s[1..];
      assert x == s[0] ==> x !in multiset(s[1..]);
    }
  }

  lemma CountTwice(s: seq<Entry>, i: nat, j: nat)
    requires i < j < |s| && s[i] == s[j]
    ensures multiset(s)[s[i]] >= 2
  {
    assert s == s[..j] + s[j..];
    assert s[i] in s[..j] && s[i] == s[j..][0];
  }

  lemma FewMeansAll(shards: seq<Shard>, maxRetry: int, limit: nat, all: seq<Entry>, e: Entry)
    requires Collected(shards, maxRetry, limit, |shards|, all) && |all| < limit && Pending(shards, maxRetry, e)
    ensures e in all
  {
    assert all[..|all|] == all;
    PrefixCount(all, |all|);
    if e !in all {
      var group :| |group| == limit && Ahead(all, e, group);
      SubsetCount(group, Elements(all));
    }
  }

  /** The entries of the pages, shard by shard. */
  function AllEntries(shards: seq<Shard>, pages: seq<seq<Key>>): seq<Entry>
    requires PagesIn(shards, pages)
  {
    if pages == [] then [] else
    var n := |pages| - 1;
    AllEntries(shards, pages[..n]) + PageEntries(shards, n, pages[n])
  }

  ghost predicate ArePages(shards: seq<Shard>, maxRetry: int, limit: nat, pages: seq<seq<Key>>) {
    |pages| <= |shards| && forall i :: 0 <= i < |pages| ==> IsPage(shards[i].rows, maxRetry, limit, pages[i])
  }

  /** How several shards are merged: their pages, sorted, and cut. */
  ghost predicate IsMerge(shards: seq<Shard>, maxRetry: int, limit: nat, page: seq<Entry>) {
    exists pages, sorted :: MergedBy(shards, maxRetry, limit, page, pages, sorted)
  }

  ghost predicate MergedBy(shards: seq<Shard>, maxRetry: int, limit: nat, page: seq<Entry>, pages: seq<seq<Key>>, sorted: seq<Entry>) {
    && ArePages(shards, maxRetry, limit, pages) && |pages| == |shards| && PagesIn(shards, pages)
    && Sorted(sorted) && multiset(sorted) == multiset(AllEntries(shards, pages))
    && page == sorted[..Min(limit, |sorted|)]
  }

  /** Shards whose clock went back between two rows of shard 0. */
  function SetBack(): seq<Shard> {
    [Shard(map[[1] := NewRow(1, [1], 1, 5), [2] := NewRow(2, [2], 1, 1)], {}, 2), Shard(map[[3] := NewRow(1, [3], 1, 3)], {}, 1)]
  }

  lemma SetBackPages(pages: seq<seq<Key>>)
    requires ArePages(SetBack(), 0, 1, pages) && |pages| == 2
    ensures pages[0] == [[1]] && pages[1] == [[3]]
  {
    var a, b := SetBack()[0].rows, SetBack()[1].rows;
    assert [1] in a && [3] in b;
    hide IsPage;
    PageOfOne(a, 0, pages[0], [1]);
    PageOfOne(b, 0, pages[1], [3]);
  }

  lemma PageOfOne(rows: map<Key, Row>, maxRetry: int, keys: seq<Key>, k: Key)
    requires IsPage(rows, maxRetry, 1, keys) && k in rows && Eligible(rows[k], maxRetry)
    requires forall j :: j in rows && j != k ==> rows[k].id < rows[j].id
    ensures keys == [k]
  {
    assert keys == [] ==> k !in keys;
    assert keys == [keys[0]];
  }

  /** Without that order an earlier event can be passed over: with a limit of 1 the merge can only return
      the event created at 3, though one created at 1 is pending. */
  lemma ClockSetBack(page: seq<Entry>)
    requires IsMerge(SetBack(), 0, 1, page)
    ensures page == [Entry(1, 3, 1)] && Pending(SetBack(), 0, Entry(2, 1, 0))
  {
    SetBackMisses();
    hide SetBack, Pending;
    var pages, sorted :| MergedBy(SetBack(), 0, 1, page, pages, sorted);
    SetBackPages(pages);
    assert pages == [[[1]], [[3]]];
    SetBackEntries(pages);
    hide ArePages, AllEntries, PagesIn, Sorted;
    SortedPair(sorted, Entry(1, 5, 0), Entry(1, 3, 1));
  }

  lemma SetBackMisses()
    ensures |SetBack()| == 2 && Pending(SetBack(), 0, Entry(2, 1, 0))
  {
    assert Fits(SetBack()[0], 0, [2], Entry(2, 1, 0));
  }

  lemma SetBackEntries(pages: seq<seq<Key>>)
    requires pages == [[[1]], [[3]]]
    ensures PagesIn(SetBack(), pages)
    ensures AllEntries(SetBack(), pages) == [Entry(1, 5, 0), Entry(1, 3, 1)]
  {
    assert pages[..1] == [[[1]]] && pages[..1][..0] == [];
    assert [1] in SetBack()[0].rows && [3] in SetBack()[1].rows;
    assert AllEntries(SetBack(), []) == [];
    assert AllEntries(SetBack(), pages[..1]) == [Entry(1, 5, 0)];
  }

  lemma SortedPair(sorted: seq<Entry>, a: Entry, b: Entry)
    requires Sorted(sorted) && multiset(sorted) == multiset([a, b]) && Before(b, a) && !Before(a, b)
    ensures sorted == [b, a]
  {
    assert |sorted| == |multiset(sorted)| == 2;
    assert sorted == [sorted[0], sorted[1]];
    assert a in multiset(sorted) && b in multiset(sorted);
  }

  /** The page leaves out an event that is earlier than one it returns. */
  ghost predicate PassesOver(shards: seq<Shard>, maxRetry: int, page: seq<Entry>) {
    exists x, e :: x in page && Pending(shards, maxRetry, e) && e !in page && !Before(x, e)
  }

  /** The order of ids is needed: beside an empty shard, merges pass over no event, whatever the limit, exactly
      when the ids of a shard follow creation times. */
  lemma OrderNeeded(shard: Shard, maxRetry: int)
    requires IdsUnique(shard.rows)
    ensures Chronological(shard.rows, maxRetry) <==>
      forall limit: nat, page :: IsMerge([shard, NO_ROWS], maxRetry, limit, page) ==> !PassesOver([shard, NO_ROWS], maxRetry, page)
  {
    var shards := [shard, NO_ROWS];
    hide IsMerge, PassesOver;
    if Chronological(shard.rows, maxRetry) {
      forall limit: nat, page | IsMerge(shards, maxRetry, limit, page) ensures !PassesOver(shards, maxRetry, page) {
        MergeInOrder(shards, maxRetry, limit, page);
      }
    } else {
      var limit, page := OutOfOrder(shard, maxRetry);
    }
  }

  /** Merges of shards in order pass over no event. */
  lemma MergeInOrder(shards: seq<Shard>, maxRetry: int, limit: nat, page: seq<Entry>)
    requires IsMerge(shards, maxRetry, limit, page)
    requires forall i :: 0 <= i < |shards| ==> IdsUnique(shards[i].rows) && Chronological(shards[i].rows, maxRetry)
    ensures !PassesOver(shards, maxRetry, page)
  {
    var pages, sorted :| MergedBy(shards, maxRetry, limit, page, pages, sorted);
    PagesCollected(shards, maxRetry, limit, pages);
    var all := AllEntries(shards, pages);
    forall x, e | x in page && Pending(shards, maxRetry, e) && e !in page ensures Before(x, e) {
      var j :| 0 <= j < |page| && page[j] == x;
      NoneEarlier(shards, maxRetry, limit, all, sorted, e, j);
    }
  }

  lemma {:induction false} PagesCollected(shards: seq<Shard>, maxRetry: int, limit: nat, pages: seq<seq<Key>>)
    requires ArePages(shards, maxRetry, limit, pages) && PagesIn(shards, pages)
    requires forall i :: 0 <= i < |shards| ==> IdsUnique(shards[i].rows)
    ensures Collected(shards, maxRetry, limit, |pages|, AllEntries(shards, pages))
  {
    hide Collected, IsPage;
    if pages == [] {
      NothingCollected(shards, maxRetry, limit);
    } else {
      var n := |pages| - 1;
      PagesCollected(shards, maxRetry, limit, pages[..n]);
      CollectPage(shards, maxRetry, limit, n, AllEntries(shards, pages[..n]), pages[n]);
    }
  }

  /** The eligible rows up to this id. */
  function Upto(rows: map<Key, Row>, maxRetry: int, id: int): set<Key> {
    set k | k in rows && Eligible(rows[k], maxRetry) && rows[k].id <= id
  }

  /** With room for the rows up to one of them the page holds that row and none with a greater id. */
  lemma PageUpto(rows: map<Key, Row>, maxRetry: int, a: Key, b: Key, keys: seq<Key>)
    requires a in rows && Eligible(rows[a], maxRetry) && b in rows && rows[a].id < rows[b].id
    requires IsPage(rows, maxRetry, |Upto(rows, maxRetry, rows[a].id)|, keys)
    ensures a in keys && b !in keys
  {
    var p := Upto(rows, maxRetry, rows[a].id);
    var set' := Elements(keys);
    assert forall i, j :: 0 <= i < j < |keys| ==> keys[i] != keys[j];
    DistinctCount(keys);
    if a !in keys {
      assert set' <= p - {a};
      SubsetCount(set', p - {a});
    }
    if b in keys {
      assert p <= set' - {b};
      SubsetCount(p, set' - {b});
    }
  }

  /** Some page there is. */
  lemma {:induction false} SomePage(rows: map<Key, Row>, maxRetry: int, limit: nat) returns (keys: seq<Key>)
    requires IdsUnique(rows)
    ensures IsPage(rows, maxRetry, limit, keys)
  {
    if limit == 0 {
      keys := [];
    } else {
      var before := SomePage(rows, maxRetry, limit - 1);
      var rest := set k | k in rows && Eligible(rows[k], maxRetry) && k !in before;
      assert forall k :: k in rows && Eligible(rows[k], maxRetry) && k !in before <==> k in rest;
      if rest == {} {
        keys := before;
      } else {
        var k := LeastOf(rows, rest);
        keys := before + [k];
        assert forall j :: j in keys <==> j in before || j == k;
      }
    }
  }

  lemma {:induction false} LeastOf(rows: map<Key, Row>, ks: set<Key>) returns (k: Key)
    requires ks != {} && IdsUnique(rows) && forall j :: j in ks ==> j in rows
    ensures k in ks && forall j :: j in ks && j != k ==> rows[k].id < rows[j].id
    decreases |ks|
  {
    k :| k in ks;
    var rest := ks - {k};
    if rest != {} {
      var l := LeastOf(rows, rest);
      if rows[l].id < rows[k].id {
        k := l;
      }
    }
  }

  lemma OutOfOrder(shard: Shard, maxRetry: int) returns (limit: nat, page: seq<Entry>)
    requires IdsUnique(shard.rows) && !Chronological(shard.rows, maxRetry)
    ensures IsMerge([shard, NO_ROWS], maxRetry, limit, page) && PassesOver([shard, NO_ROWS], maxRetry, page)
  {
    var rows := shard.rows;
    var a, b :| a in rows && b in rows && Eligible(rows[a], maxRetry) && Eligible(rows[b], maxRetry) && rows[a].id < rows[b].id && rows[a].created > rows[b].created;
    limit := |Upto(rows, maxRetry, rows[a].id)|;
    var keys := SomePage(rows, maxRetry, limit);
    PageUpto(rows, maxRetry, a, b, keys);
    PageIn(rows, maxRetry, limit, keys);
    hide IsPage, IdsUnique, Chronological, IsMerge, PassesOver, Upto;
    page := Sort(PageEntries([shard, NO_ROWS], 0, keys));
    BesideNothing(shard, maxRetry, limit, keys, page);
    PageMisses(shard, maxRetry, keys, page, a, b);
  }

  /** Beside an empty shard a merge is the page of the other, sorted. */
  lemma BesideNothing(shard: Shard, maxRetry: int, limit: nat, keys: seq<Key>, page: seq<Entry>)
    requires IsPage(shard.rows, maxRetry, limit, keys) && forall j :: 0 <= j < |keys| ==> keys[j] in shard.rows
    requires Sorted(page) && multiset(page) == multiset(PageEntries([shard, NO_ROWS], 0, keys))
    ensures IsMerge([shard, NO_ROWS], maxRetry, limit, page)
  {
    hide IsPage, Sorted, IsMerge, AllEntries, PageEntries, ArePages, PagesIn;
    var shards := [shard, NO_ROWS];
    PageLength(shard.rows, maxRetry, limit, keys);
    var pages: seq<seq<Key>> := [keys, []];
    BesidePages(shard, maxRetry, limit, keys, pages);
    BesideEntries(shard, keys, pages);
    SameLength(page, PageEntries(shards, 0, keys));
    assert page == page[..Min(limit, |page|)];
    MergeOf(shards, maxRetry, limit, page, pages, page);
  }

  lemma BesidePages(shard: Shard, maxRetry: int, limit: nat, keys: seq<Key>, pages: seq<seq<Key>>)
    requires pages == [keys, []] && IsPage(shard.rows, maxRetry, limit, keys)
    ensures ArePages([shard, NO_ROWS], maxRetry, limit, pages)
  {
    assert IsPage(NO_ROWS.rows, maxRetry, limit, []);
  }

  lemma SameLength(s: seq<Entry>, t: seq<Entry>)
    requires multiset(s) == multiset(t)
    ensures |s| == |t|
  {
    assert |s| == |multiset(s)| == |multiset(t)| == |t|;
  }

  lemma MergeOf(shards: seq<Shard>, maxRetry: int, limit: nat, page: seq<Entry>, pages: seq<seq<Key>>, sorted: seq<Entry>)
    requires MergedBy(shards, maxRetry, limit, page, pages, sorted)
    ensures IsMerge(shards, maxRetry, limit, page)
  {
    hide MergedBy;
  }

  lemma BesideEntries(shard: Shard, keys: seq<Key>, pages: seq<seq<Key>>)
    requires pages == [keys, []] && forall j :: 0 <= j < |keys| ==> keys[j] in shard.rows
    ensures var shards := [shard, NO_ROWS]; PagesIn(shards, pages) && AllEntries(shards, pages) == PageEntries(shards, 0, keys)
  {
    var shards := [shard, NO_ROWS];
    var all := PageEntries(shards, 0, keys);
    assert pages[..1] == [keys] && pages[..1][..0] == [];
    assert AllEntries(shards, []) == [];
    assert AllEntries(shards, [keys]) == [] + all == all;
    assert AllEntries(shards, pages) == all + PageEntries(shards, 1, []) == all;
  }

  lemma PageMisses(shard: Shard, maxRetry: int, keys: seq<Key>, page: seq<Entry>, a: Key, b: Key)
    requires forall j :: 0 <= j < |keys| ==> keys[j] in shard.rows
    requires multiset(page) == multiset(PageEntries([shard, NO_ROWS], 0, keys)) && IdsUnique(shard.rows)
    requires a in keys && b !in keys && b in shard.rows && Eligible(shard.rows[b], maxRetry) && shard.rows[a].created > shard.rows[b].created
    ensures PassesOver([shard, NO_ROWS], maxRetry, page)
  {
    var shards := [shard, NO_ROWS];
    var all := PageEntries(shards, 0, keys);
    MembersKept(all, page);
    var x, e := EntryFor(shards, 0, a), EntryFor(shards, 0, b);
    var i :| 0 <= i < |keys| && keys[i] == a;
    assert all[i] == x;
    assert Fits(shards[0], maxRetry, b, e);
    forall j | 0 <= j < |all| ensures all[j] != e {
      assert keys[j] != b;
    }
    assert x in page && Pending(shards, maxRetry, e) && e !in page && !Before(x, e);
  }

  lemma NothingCollected(shards: seq<Shard>, maxRetry: int, limit: nat)
    ensures Collected(shards, maxRetry, limit, 0, [])
  {
  }

  /** One shard's page is in merge order already. */
  lemma SinglePage(shards: seq<Shard>, maxRetry: int, limit: nat, keys: seq<Key>)
    requires |shards| == 1 && IdsUnique(shards[0].rows) && IsPage(shards[0].rows, maxRetry, limit, keys)
    ensures IsNext(shards, maxRetry, limit, PageEntries(shards, 0, keys))
  {
    var page := PageEntries(shards, 0, keys);
    NothingCollected(shards, maxRetry, limit);
    CollectPage(shards, maxRetry, limit, 0, [], keys);
    if Chronological(shards[0].rows, maxRetry) { PageSorted(shards, maxRetry, limit, keys); }
    hide Collected, IsPage, IsNext, Sorted;
    assert [] + page == page == page[..Min(limit, |page|)] by { assert |page| <= limit by { PageLength(shards[0].rows, maxRetry, limit, keys); } }
    MergeIsNext(shards, maxRetry, limit, page, page);
  }

  lemma PageLength(rows: map<Key, Row>, maxRetry: int, limit: nat, keys: seq<Key>)
    requires IsPage(rows, maxRetry, limit, keys)
    ensures |keys| <= limit
  {
  }

  lemma PageSorted(shards: seq<Shard>, maxRetry: int, limit: nat, keys: seq<Key>)
    requires |shards| == 1 && IsPage(shards[0].rows, maxRetry, limit, keys) && Chronological(shards[0].rows, maxRetry)
    ensures Sorted(PageEntries(shards, 0, keys))
  {
  }

  ghost predicate PagesIn(shards: seq<Shard>, pages: seq<seq<Key>>) {
    |pages| <= |shards| && forall i, j :: 0 <= i < |pages| && 0 <= j < |pages[i]| ==> pages[i][j] in shards[i].rows
  }

  lemma PageIn(rows: map<Key, Row>, maxRetry: int, limit: nat, keys: seq<Key>)
    requires IsPage(rows, maxRetry, limit, keys)
    ensures forall j :: 0 <= j < |keys| ==> keys[j] in rows
  {
  }

  /** The pages of all shards, merged and cut. */
  method MergePages(shards: seq<Shard>, maxRetry: int, limit: nat) returns (page: seq<Entry>)
    requires |shards| > 0 && forall i :: 0 <= i < |shards| ==> IdsUnique(shards[i].rows)
    ensures IsNext(shards, maxRetry, limit, page) && (|shards| > 1 ==> IsMerge(shards, maxRetry, limit, page))
  {
    if |shards| == 1 {
      var keys := PendingEntries(shards[0].rows, maxRetry, limit);
      page := PageEntries(shards, 0, keys);
      SinglePage(shards, maxRetry, limit, keys);
      return;
    }
    var all: seq<Entry> := [];
    ghost var pages: seq<seq<Key>> := [];
    NothingCollected(shards, maxRetry, limit);
    hide Collected, IsNext, IsPage, Sort, IsMerge;
    for i := 0 to |shards|
      invariant Collected(shards, maxRetry, limit, i, all)
      invariant |pages| == i && ArePages(shards, maxRetry, limit, pages) && PagesIn(shards, pages) && all == AllEntries(shards, pages)
    {
      var keys := PendingEntries(shards[i].rows, maxRetry, limit);
      PageIn(shards[i].rows, maxRetry, limit, keys);
      CollectPage(shards, maxRetry, limit, i, all, keys);
      assert (pages + [keys])[..i] == pages;
      all := all + PageEntries(shards, i, keys);
      pages := pages + [keys];
    }
    var sorted := Sort(all);
    MergeIsNext(shards, maxRetry, limit, all, sorted);
    page := sorted[..Min(limit, |sorted|)];
    MergeOf(shards, maxRetry, limit, page, pages, sorted);
  }

  /** Some row of the shard has this id. */
  ghost predicate Holds(shard: Shard, k: Key, id: int) {
    k in shard.rows && shard.rows[k].id == id
  }

  function RouteOf(n: nat, hash: Bytes -> nat, event: Bytes): (i: nat)
    requires n > 0
    ensures i < n
  {
    if n == 1 then 0 else hash(event) % n
  }

  /** Rows are keyed by event and revision, and ids do not repeat in a shard. */
  ghost predicate Sane(shards: seq<Shard>) {
    && (forall i, k :: 0 <= i < |shards| && k in shards[i].rows ==>
          shards[i].rows[k].id <= shards[i].seqno && k == RecordKey(shards[i].rows[k].event, shards[i].rows[k].revision))
    && (forall i :: 0 <= i < |shards| ==> IdsUnique(shards[i].rows))
  }

  ghost predicate Homed(shards: seq<Shard>, hash: Bytes -> nat)
    requires |shards| > 0
  {
    forall i, k :: 0 <= i < |shards| && k in shards[i].rows ==> RouteOf(|shards|, hash, shards[i].rows[k].event) == i
  }

  // ---------------------------------------------------------------- calls

  /** Enqueue, whose event can or cannot be encoded; MarkPushed, or MarkFailed with its message. */
  datatype Call =
    | Enqueuing(event: Bytes, revision: nat, encodes: bool, now: int)
    | Marking(event: Bytes, revision: nat, failure: Option<Bytes>, now: int)

  function Step(shards: seq<Shard>, hash: Bytes -> nat, c: Call): (r: seq<Shard>)
    requires |shards| > 0
    ensures |r| == |shards|
  {
    var i, key := RouteOf(|shards|, hash, c.event), RecordKey(c.event, c.revision);
    var s := shards[i];
    match c
    case Enqueuing(event, revision, encodes, now) =>
      if key in s.archived || key in s.rows || !encodes then shards
      else shards[i := s.(rows := s.rows[key := NewRow(s.seqno + 1, event, revision, now)], seqno := s.seqno + 1)]
    case Marking(_, _, failure, now) => Marked(shards, i, key, failure, now)
  }

  function Steps(shards: seq<Shard>, hash: Bytes -> nat, run: seq<Call>): (r: seq<Shard>)
    requires |shards| > 0
    ensures |r| == |shards|
  {
    if run == [] then shards else Step(Steps(shards, hash, run[..|run| - 1]), hash, run[|run| - 1])
  }

  lemma StepSane(shards: seq<Shard>, hash: Bytes -> nat, c: Call)
    requires |shards| > 0 && Sane(shards)
    ensures Sane(Step(shards, hash, c))
  {
    hide RouteOf, RecordKey, Sane, Marked, NewRow;
    var i, key := RouteOf(|shards|, hash, c.event), RecordKey(c.event, c.revision);
    if c.Marking? {
      MarkedSane(shards, i, key, c.failure, c.now);
    } else {
      StoredSane(shards, i, c.event, c.revision, c.now);
    }
  }

  lemma MarkedSane(shards: seq<Shard>, i: nat, key: Key, failure: Option<Bytes>, now: int)
    requires i < |shards| && Sane(shards)
    ensures Sane(Marked(shards, i, key, failure, now))
  {
    hide RecordKey, Marked, IdsUnique;
    MarkedKeeps(shards, i, key, failure, now);
  }

  lemma StoredSane(shards: seq<Shard>, i: nat, event: Bytes, revision: nat, now: int)
    requires i < |shards| && Sane(shards)
    ensures var s, key := shards[i], RecordKey(event, revision);
      key !in s.rows ==> Sane(shards[i := s.(rows := s.rows[key := NewRow(s.seqno + 1, event, revision, now)], seqno := s.seqno + 1)])
  {
    hide RecordKey;
  }

  lemma StepHomed(shards: seq<Shard>, hash: Bytes -> nat, c: Call)
    requires |shards| > 0 && c.Enqueuing?
    ensures Homed(shards, hash) ==> Homed(Step(shards, hash, c), hash)
  {
    hide RouteOf, RecordKey;
  }

  class ShardedQueue {
    var shards: seq<Shard>
    var maxRetry: int
    const hash: Bytes -> nat

    ghost predicate Valid()
      reads this
    {
      1 <= |shards| <= MAX_SHARDS && Sane(shards)
    }

    /** Every row is in the shard its event routes to. */
    ghost predicate AtHome()
      requires Valid()
      reads this
    {
      Homed(shards, hash)
    }

    /** Open: more than 64 shards are refused. */
    static method Open(n: int, base: Shard, hash: Bytes -> nat) returns (q: Option<ShardedQueue>)
      requires IdsUnique(base.rows)
      requires forall k :: k in base.rows ==>
        base.rows[k].id <= base.seqno && k == RecordKey(base.rows[k].event, base.rows[k].revision)
      ensures q.None? <==> n > MAX_SHARDS
      ensures q.Some? ==> fresh(q.value) && q.value.Valid() && q.value.hash == hash && |q.value.shards| == Max(n, 1)
      ensures q.Some? ==> q.value.shards[0] == base && forall i :: 0 < i < |q.value.shards| ==> q.value.shards[i] == NO_ROWS
    {
      if n > MAX_SHARDS {
        return None;
      }
      var queue := new ShardedQueue(n, base, hash);
      return Some(queue);
    }

    constructor (n: int, base: Shard, hash: Bytes -> nat)
      requires n <= MAX_SHARDS && IdsUnique(base.rows)
      requires forall k :: k in base.rows ==>
        base.rows[k].id <= base.seqno && k == RecordKey(base.rows[k].event, base.rows[k].revision)
      ensures Valid() && this.hash == hash && maxRetry == 0 && |shards| == Max(n, 1)
      ensures shards[0] == base && forall i :: 0 < i < |shards| ==> shards[i] == NO_ROWS
    {
      this.hash := hash;
      this.maxRetry := 0;
      this.shards := [base] + seq(Max(n, 1) - 1, i => NO_ROWS);
    }

    function Route(event: Bytes): (i: nat)
      requires |shards| > 0
      reads this
      ensures i < |shards|
    {
      RouteOf(|shards|, hash, event)
    }

    /** The event is known already, active or archived. */
    predicate Known(event: Bytes, revision: nat)
      requires |shards| > 0
      reads this
    {
      RecordKey(event, revision) in shards[Route(event)].archived || RecordKey(event, revision) in shards[Route(event)].rows
    }

    /** `encodes` tells whether the event can be encoded, which is asked only of an unknown one. */
    method Enqueue(event: Bytes, revision: nat, encodes: bool, now: int) returns (ok: bool)
      requires Valid()
      modifies `shards
      ensures Valid() && |shards| == |old(shards)|
      ensures old(AtHome()) ==> AtHome()
      ensures ok <==> old(Known(event, revision)) || encodes
      ensures old(Known(event, revision)) || !encodes ==> shards == old(shards)
      ensures !old(Known(event, revision)) && encodes ==>
        var s, i := old(shards)[Route(event)], Route(event);
        shards == old(shards)[i := s.(rows := s.rows[RecordKey(event, revision) := NewRow(s.seqno + 1, event, revision, now)], seqno := s.seqno + 1)]
      ensures shards == Step(old(shards), hash, Enqueuing(event, revision, encodes, now))
    {
      hide Sane, Homed, RecordKey, RouteOf, NewRow;
      StepSane(shards, hash, Enqueuing(event, revision, encodes, now));
      StepHomed(shards, hash, Enqueuing(event, revision, encodes, now));
      var i, key := Route(event), RecordKey(event, revision);
      var s := shards[i];
      if key in s.archived || key in s.rows {
        return true;
      }
      if !encodes {
        return false;
      }
      shards := shards[i := s.(rows := s.rows[key := NewRow(s.seqno + 1, event, revision, now)], seqno := s.seqno + 1)];
      return true;
    }

    /** The id leads LoadEvent to the shard of the entry and, if the row id fits beside the shard
        number, to its row. */
    ghost predicate Names(id: int, e: Entry)
      reads this
    {
      && HasSource(id) && e.shard < |shards| && Source(id) == shards[e.shard]
      && (|shards| == 1 || Small(e) ==> RowId(id) == e.id)
    }

    /** A page of descriptors of what to send next. */
    method PendingIDs(limit: int) returns (ids: seq<int>, page: seq<Entry>)
      requires Valid()
      ensures |ids| == |page| && IsNext(shards, maxRetry, if limit <= 0 then DEFAULT_LIMIT else limit, page)
      ensures forall i :: 0 <= i < |ids| ==> Names(ids[i], page[i])
    {
      page := MergePages(shards, maxRetry, if limit <= 0 then DEFAULT_LIMIT else limit);
      NextFacts(shards, maxRetry, if limit <= 0 then DEFAULT_LIMIT else limit, page);
      hide IsNext, Names, Sane, Pending;
      ids := [];
      for i := 0 to |page|
        invariant |ids| == i && forall j :: 0 <= j < i ==> Names(ids[j], page[j])
      {
        var id := Describe(page[i]);
        ids := ids + [id];
      }
    }

    method Describe(e: Entry) returns (id: int)
      requires Valid() && e.shard < |shards|
      ensures Names(id, e)
    {
      if |shards| > 1 {
        CompositeDecodes(e.id, e.shard);
        return Composite(e.id, e.shard);
      }
      return e.id;
    }

    predicate HasSource(id: int)
      reads this
    {
      |shards| == 1 || ShardOf(id) < |shards|
    }

    /** Finds the row behind a descriptor. An id that names no shard, which PendingIDs never returns, stops
        the program on an index out of range; here it is an error. */
    method LoadEvent(id: int) returns (r: Result<Row>)
      requires Valid()
      ensures r.Ok? <==> HasSource(id) && exists k :: Holds(Source(id), k, RowId(id))
      ensures r.Ok? ==> exists k :: Holds(Source(id), k, RowId(id)) && Source(id).rows[k] == r.value
      ensures r.Err? ==> r.error == if HasSource(id) then Missing else Failed
    {
      if !HasSource(id) {
        return Err(Failed);
      }
      var s := Source(id);
      var todo := s.rows.Keys;
      while todo != {}
        invariant todo <= s.rows.Keys
        invariant forall k :: k in s.rows && k !in todo ==> s.rows[k].id != RowId(id)
        decreases todo
      {
        var k :| k in todo;
        if s.rows[k].id == RowId(id) {
          assert Holds(Source(id), k, RowId(id));
          return Ok(s.rows[k]);
        }
        todo := todo - {k};
      }
      return Err(Missing);
    }

    function Source(id: int): Shard
      requires HasSource(id)
      reads this
    {
      if |shards| == 1 then shards[0] else shards[ShardOf(id)]
    }

    function RowId(id: int): int
      reads this
    {
      if |shards| == 1 then id else RowOf(id)
    }

    /** MarkPushed, or MarkFailed with its message. */
    method Mark(event: Bytes, revision: nat, failure: Option<Bytes>, now: int)
      requires Valid()
      modifies `shards
      ensures Valid() && |shards| == |old(shards)|
      ensures old(AtHome()) ==> AtHome()
      ensures shards == Marked(old(shards), Route(event), RecordKey(event, revision), failure, now)
      ensures shards == Step(old(shards), hash, Marking(event, revision, failure, now))
    {
      var i, key := Route(event), RecordKey(event, revision);
      MarkedKeeps(shards, i, key, failure, now);
      hide IdsUnique, RecordKey, Marked;
      shards := Marked(shards, i, key, failure, now);
    }

    /** One turn of the push worker: the first pending event is loaded and, once it is sent, marked. It stops
        being pending exactly if its row is in the shard that it routes to; with every row at home, that event
        and no other does. */
    method PushNext(limit: int, now: int) returns (next: Option<Entry>)
      requires Valid()
      modifies `shards
      ensures Valid() && |shards| == |old(shards)| && (old(AtHome()) ==> AtHome())
      ensures next.None? ==> shards == old(shards) && forall e :: !Pending(shards, maxRetry, e)
      ensures next.Some? ==> Pending(old(shards), maxRetry, next.value)
      ensures next.Some? && (|shards| == 1 || Small(next.value)) ==> PushedAs(old(shards), hash, maxRetry, next.value, shards)
      ensures next.Some? && old(AtHome()) && (|shards| == 1 || Small(next.value)) ==>
        forall e :: Pending(shards, maxRetry, e) <==> Pending(old(shards), maxRetry, e) && e != next.value
    {
      var ids, page := PendingIDs(limit);
      NextFacts(shards, maxRetry, if limit <= 0 then DEFAULT_LIMIT else limit, page);
      hide IsNext, Pending, Sane, Homed, Names, PushedAs;
      if |page| == 0 {
        return None;
      }
      next := Some(page[0]);
      Push(ids[0], page[0], now);
    }

    method Push(id: int, ghost e: Entry, now: int)
      requires Valid() && Names(id, e) && Pending(shards, maxRetry, e)
      modifies `shards
      ensures Valid() && |shards| == |old(shards)| && (old(AtHome()) ==> AtHome())
      ensures |shards| == 1 || Small(e) ==> PushedAs(old(shards), hash, maxRetry, e, shards)
      ensures old(AtHome()) && (|shards| == 1 || Small(e)) ==>
        forall d :: Pending(shards, maxRetry, d) <==> Pending(old(shards), maxRetry, d) && d != e
    {
      hide Pending, Sane, Homed, Marked, RecordKey, Composite, ShardOf, RowOf, RouteOf, PushedAs;
      PendingHeld(shards, maxRetry, e);
      var row := LoadEvent(id);
      ghost var held :| Holds(shards[e.shard], held, e.id);
      assert |shards| == 1 || Small(e) ==> Holds(Source(id), held, RowId(id));
      if row.Ok? {
        ghost var k :| Holds(Source(id), k, RowId(id)) && Source(id).rows[k] == row.value;
        if |shards| == 1 || Small(e) {
          PushedRow(shards, hash, maxRetry, e, k, now);
          if AtHome() {
            HomeOf(shards, hash, e.shard, k);
            PushedEntry(shards, hash, maxRetry, e, k, now);
          }
        }
        ghost var marked := Marked(shards, Route(row.value.event), RecordKey(row.value.event, row.value.revision), None, now);
        Mark(row.value.event, row.value.revision, None, now);
        assert shards == marked;
      }
    }
  }

  lemma HomeOf(shards: seq<Shard>, hash: Bytes -> nat, i: nat, k: Key)
    requires Sane(shards) && i < |shards| && Homed(shards, hash) && k in shards[i].rows
    ensures RouteOf(|shards|, hash, shards[i].rows[k].event) == i && k == RecordKey(shards[i].rows[k].event, shards[i].rows[k].revision)
    ensures forall j :: 0 <= j < |shards| ==> IdsUnique(shards[j].rows)
  {
    hide RecordKey, RouteOf, IdsUnique;
  }

  lemma NextFacts(shards: seq<Shard>, maxRetry: int, limit: nat, page: seq<Entry>)
    requires IsNext(shards, maxRetry, limit, page) && limit > 0
    ensures forall i :: 0 <= i < |page| ==> Pending(shards, maxRetry, page[i]) && page[i].shard < |shards|
    ensures page == [] ==> forall e :: !Pending(shards, maxRetry, e)
  {
  }

  lemma PendingHeld(shards: seq<Shard>, maxRetry: int, e: Entry)
    requires Pending(shards, maxRetry, e)
    ensures e.shard < |shards| && exists k :: Holds(shards[e.shard], k, e.id)
  {
    var k :| Fits(shards[e.shard], maxRetry, k, e);
    assert Holds(shards[e.shard], k, e.id);
  }

  /** The row id fits beside the shard number. */
  predicate Small(e: Entry) {
    -0x200_0000_0000_0000 <= e.id < 0x200_0000_0000_0000
  }

  function Marked(shards: seq<Shard>, i: nat, key: Key, failure: Option<Bytes>, now: int): seq<Shard>
    requires i < |shards|
  {
    if key !in shards[i].rows then shards else
    var r := shards[i].rows[key];
    shards[i := shards[i].(rows := shards[i].rows[key :=
      if failure.None? then r.(status := PUSHED, error := [], updated := now)
      else r.(status := FAILED, retry := r.retry + 1, error := failure.value, updated := now)])]
  }

  predicate SameIdentity(r: Row, q: Row) {
    r.id == q.id && r.event == q.event && r.revision == q.revision && r.created == q.created
  }

  lemma MarkedKeeps(shards: seq<Shard>, i: nat, key: Key, failure: Option<Bytes>, now: int)
    requires i < |shards| && forall j :: 0 <= j < |shards| ==> IdsUnique(shards[j].rows)
    ensures var m := Marked(shards, i, key, failure, now);
      && |m| == |shards|
      && (forall j :: 0 <= j < |shards| ==>
            m[j].rows.Keys == shards[j].rows.Keys && m[j].seqno == shards[j].seqno && IdsUnique(m[j].rows))
      && (forall j, k :: 0 <= j < |shards| && k in m[j].rows ==> SameIdentity(m[j].rows[k], shards[j].rows[k]))
      && (forall j, k :: 0 <= j < |shards| && k in m[j].rows && (j != i || k != key) ==> m[j].rows[k] == shards[j].rows[k])
  {
  }

  /** Where the event of a row routes to. */
  function HomeFor(shards: seq<Shard>, hash: Bytes -> nat, i: nat, k: Key): (h: nat)
    requires i < |shards| && k in shards[i].rows
    ensures h < |shards|
  {
    RouteOf(|shards|, hash, shards[i].rows[k].event)
  }

  /** The mark after a push of the row of shard i: it goes where the event routes to. */
  function Pushed(shards: seq<Shard>, hash: Bytes -> nat, i: nat, k: Key, now: int): seq<Shard>
    requires i < |shards| && k in shards[i].rows
  {
    Marked(shards, HomeFor(shards, hash, i, k), k, None, now)
  }

  /** A pushed event stops being pending exactly when its row is in the shard its id routes to. The
      rows of a database from before sharding are all in shard 0. */
  lemma DrainedAtHome(shards: seq<Shard>, hash: Bytes -> nat, maxRetry: int, i: nat, k: Key, now: int)
    requires i < |shards| && forall j :: 0 <= j < |shards| ==> IdsUnique(shards[j].rows)
    requires k in shards[i].rows && Eligible(shards[i].rows[k], maxRetry)
    ensures var home := HomeFor(shards, hash, i, k); var m := Pushed(shards, hash, i, k, now);
      && (Pending(m, maxRetry, EntryFor(shards, i, k)) <==> home != i)
      && forall e: Entry :: e.shard != home || k !in shards[home].rows || e.id != shards[home].rows[k].id ==>
           (Pending(m, maxRetry, e) <==> Pending(shards, maxRetry, e))
  {
    hide RouteOf;
    var home := HomeFor(shards, hash, i, k);
    var m := Pushed(shards, hash, i, k, now);
    MarkedKeeps(shards, home, k, None, now);
    var e := EntryFor(shards, i, k);
    if home != i {
      assert Fits(m[i], maxRetry, k, e);
    } else {
      forall j ensures !Fits(m[i], maxRetry, j, e) {
      }
    }
    forall e: Entry | e.shard < |shards| && (e.shard != home || k !in shards[home].rows || e.id != shards[home].rows[k].id)
      ensures Pending(m, maxRetry, e) <==> Pending(shards, maxRetry, e)
    {
      assert forall j :: Fits(m[e.shard], maxRetry, j, e) <==> Fits(shards[e.shard], maxRetry, j, e);
    }
  }

  /** What a push does to its own entry, wherever its row is. */
  ghost predicate PushedAs(shards: seq<Shard>, hash: Bytes -> nat, maxRetry: int, e: Entry, after: seq<Shard>)
    requires |shards| > 0
  {
    e.shard < |shards| && exists k ::
      && Fits(shards[e.shard], maxRetry, k, e)
      && (Pending(after, maxRetry, e) <==> HomeFor(shards, hash, e.shard, k) != e.shard)
      && exists now :: after == Pushed(shards, hash, e.shard, k, now)
  }

  lemma PushedRow(shards: seq<Shard>, hash: Bytes -> nat, maxRetry: int, e: Entry, k: Key, now: int)
    requires Sane(shards) && Pending(shards, maxRetry, e) && Holds(shards[e.shard], k, e.id)
    ensures var r := shards[e.shard].rows[k];
      PushedAs(shards, hash, maxRetry, e, Marked(shards, RouteOf(|shards|, hash, r.event), RecordKey(r.event, r.revision), None, now))
  {
    hide RouteOf, RecordKey;
    var j :| Fits(shards[e.shard], maxRetry, j, e);
    assert j == k;
    DrainedAtHome(shards, hash, maxRetry, e.shard, k, now);
    var m := Pushed(shards, hash, e.shard, k, now);
    assert e == EntryFor(shards, e.shard, k);
    assert Fits(shards[e.shard], maxRetry, k, e);
  }

  /** Marking the row of a pending entry in its own shard ends exactly that entry. */
  lemma PushedEntry(shards: seq<Shard>, hash: Bytes -> nat, maxRetry: int, e: Entry, k: Key, now: int)
    requires forall j :: 0 <= j < |shards| ==> IdsUnique(shards[j].rows)
    requires Pending(shards, maxRetry, e) && Holds(shards[e.shard], k, e.id) && HomeFor(shards, hash, e.shard, k) == e.shard
    ensures forall d :: Pending(Pushed(shards, hash, e.shard, k, now), maxRetry, d) <==> Pending(shards, maxRetry, d) && d != e
  {
    hide RouteOf;
    var m := Pushed(shards, hash, e.shard, k, now);
    var j :| Fits(shards[e.shard], maxRetry, j, e);
    assert j == k;
    DrainedAtHome(shards, hash, maxRetry, e.shard, k, now);
    forall d: Entry | d.shard == e.shard && d.id == e.id ensures !Pending(m, maxRetry, d) && (Pending(shards, maxRetry, d) ==> d == e) {
      MarkedKeeps(shards, e.shard, k, None, now);
    }
  }

  // ---------------------------------------------------------------- rows that are never drained

  /** A push of the row of a shard, at a time. */
  datatype Push = Push(shard: nat, key: Key, now: int)

  /** Any number of pushes, each of a row that is then eligible. */
  function Pushes(shards: seq<Shard>, hash: Bytes -> nat, maxRetry: int, run: seq<Push>): seq<Shard> {
    if run == [] then shards else
    var s, p := Pushes(shards, hash, maxRetry, run[..|run| - 1]), run[|run| - 1];
    if p.shard < |s| && p.key in s[p.shard].rows && Eligible(s[p.shard].rows[p.key], maxRetry)
    then Pushed(s, hash, p.shard, p.key, p.now) else s
  }

  /** The eligible rows with this key, of whatever shard, route past shard i. */
  ghost predicate Stray(shards: seq<Shard>, hash: Bytes -> nat, maxRetry: int, i: nat, k: Key) {
    forall j :: 0 <= j < |shards| && k in shards[j].rows && Eligible(shards[j].rows[k], maxRetry) ==> HomeFor(shards, hash, j, k) != i
  }

  lemma {:induction false} PushesKeep(shards: seq<Shard>, hash: Bytes -> nat, maxRetry: int, run: seq<Push>, i: nat, k: Key)
    requires forall j :: 0 <= j < |shards| ==> IdsUnique(shards[j].rows)
    requires i < |shards| && k in shards[i].rows && Stray(shards, hash, maxRetry, i, k)
    ensures var s := Pushes(shards, hash, maxRetry, run);
      && |s| == |shards| && (forall j :: 0 <= j < |s| ==> IdsUnique(s[j].rows))
      && k in s[i].rows && s[i].rows[k] == shards[i].rows[k] && Stray(s, hash, maxRetry, i, k)
  {
    hide RouteOf, IdsUnique;
    if run != [] {
      var before, p := run[..|run| - 1], run[|run| - 1];
      PushesKeep(shards, hash, maxRetry, before, i, k);
      var s := Pushes(shards, hash, maxRetry, before);
      if p.shard < |s| && p.key in s[p.shard].rows && Eligible(s[p.shard].rows[p.key], maxRetry) {
        var home := HomeFor(s, hash, p.shard, p.key);
        MarkedKeeps(s, home, p.key, None, p.now);
        StrayKept(s, hash, maxRetry, i, k, home, p.key, p.now);
      }
    }
  }

  lemma StrayKept(s: seq<Shard>, hash: Bytes -> nat, maxRetry: int, i: nat, k: Key, home: nat, key: Key, now: int)
    requires i < |s| && home < |s| && Stray(s, hash, maxRetry, i, k)
    ensures Stray(Marked(s, home, key, None, now), hash, maxRetry, i, k)
  {
    hide RouteOf;
    var m := Marked(s, home, key, None, now);
    forall j | 0 <= j < |m| && k in m[j].rows && Eligible(m[j].rows[k], maxRetry) ensures HomeFor(m, hash, j, k) != i {
      assert m[j].rows[k].event == s[j].rows[k].event;
    }
  }

  /** A pending row is returned and sent for ever, whatever is pushed and how often, exactly when no eligible
      row of its key routes to its shard. */
  lemma NeverDrained(shards: seq<Shard>, hash: Bytes -> nat, maxRetry: int, i: nat, k: Key)
    requires forall j :: 0 <= j < |shards| ==> IdsUnique(shards[j].rows)
    requires i < |shards| && k in shards[i].rows && Eligible(shards[i].rows[k], maxRetry)
    ensures (forall run :: Pending(Pushes(shards, hash, maxRetry, run), maxRetry, EntryFor(shards, i, k))) <==> Stray(shards, hash, maxRetry, i, k)
  {
    var e := EntryFor(shards, i, k);
    if Stray(shards, hash, maxRetry, i, k) {
      forall run ensures Pending(Pushes(shards, hash, maxRetry, run), maxRetry, e) {
        PushesKeep(shards, hash, maxRetry, run, i, k);
        assert Fits(Pushes(shards, hash, maxRetry, run)[i], maxRetry, k, e);
      }
    } else {
      var j :| 0 <= j < |shards| && k in shards[j].rows && Eligible(shards[j].rows[k], maxRetry) && HomeFor(shards, hash, j, k) == i;
      EndedBy(shards, hash, maxRetry, i, k, j);
      assert !Pending(Pushes(shards, hash, maxRetry, [Push(j, k, 0)]), maxRetry, e);
    }
  }

  lemma EndedBy(shards: seq<Shard>, hash: Bytes -> nat, maxRetry: int, i: nat, k: Key, j: nat)
    requires forall j :: 0 <= j < |shards| ==> IdsUnique(shards[j].rows)
    requires i < |shards| && k in shards[i].rows
    requires j < |shards| && k in shards[j].rows && Eligible(shards[j].rows[k], maxRetry) && HomeFor(shards, hash, j, k) == i
    ensures !Pending(Pushes(shards, hash, maxRetry, [Push(j, k, 0)]), maxRetry, EntryFor(shards, i, k))
  {
    hide RouteOf;
    var run := [Push(j, k, 0)];
    assert run[..0] == [];
    assert Pushes(shards, hash, maxRetry, []) == shards;
    var m := Pushed(shards, hash, j, k, 0);
    assert Pushes(shards, hash, maxRetry, run) == m;
    MarkedKeeps(shards, i, k, None, 0);
  }
}

/** The indicator store of internal/intel/store.go: a keyed set with a version that every change raises. */
module Intel {
  import opened Basics

  datatype Item = Item(
    id: string, kind: string, value: string, source: string,
    enabled: bool, created: int, updated: int, expire: int)

  /** Functions of the strings and net packages. */
  datatype Net<!Addr, !Block> = Net(
    trim: string -> string,
    lower: string -> string,
    parseIP: string -> Option<Addr>,
    printIP: Addr -> string,
    parseCIDR: string -> Option<Block>,
    contains: (Block, Addr) -> bool,
    special: Addr -> bool)

  /** Trimming and lower-casing twice changes nothing more. */
  ghost predicate NetLaw<Addr, Block>(net: Net<Addr, Block>) {
    forall s: string ::
      && net.trim(net.trim(s)) == net.trim(s)
      && net.lower(net.trim(net.lower(net.trim(s)))) == net.lower(net.trim(s))
  }

  function TrimDot(s: string): string {
    if |s| > 0 && s[|s| - 1] == '.' then s[..|s| - 1] else s
  }

  /** Empty when the text is no address. */
  function CanonicalIP<Addr, Block>(net: Net<Addr, Block>, s: string): string {
    match net.parseIP(net.trim(s)) case None => "" case Some(a) => net.printIP(a)
  }

  function CanonicalDomain<Addr, Block>(net: Net<Addr, Block>, s: string): string {
    TrimDot(net.lower(net.trim(s)))
  }

  function CanonicalValue<Addr, Block>(net: Net<Addr, Block>, kind: string, value: string): string {
    var k := net.lower(net.trim(kind));
    if k == "ip" && CanonicalIP(net, value) != "" then CanonicalIP(net, value)
    else if k == "domain" then CanonicalDomain(net, value)
    else net.lower(net.trim(value))
  }

  function CanonicalKey<Addr, Block>(net: Net<Addr, Block>, it: Item): string {
    net.lower(net.trim(it.kind)) + "|" + CanonicalValue(net, it.kind, it.value)
  }

  /** normalize; `uuid` is the text of a new random id. */
  function Normalize<Addr, Block>(net: Net<Addr, Block>, it: Item, now: int, uuid: string): (r: Item)
    ensures r.id != "" && (it.id != "" ==> r.id == it.id)
  {
    it.(kind := net.lower(net.trim(it.kind)), value := net.trim(it.value),
        source := if net.trim(it.source) == "" then "local" else net.trim(it.source),
        id := if it.id == "" then "ioc-" + uuid else it.id,
        created := if it.created == 0 then now else it.created,
        updated := now)
  }

  /** Normalizing keeps what identifies the indicator. */
  lemma NormalizeKeepsKey<Addr, Block>(net: Net<Addr, Block>, it: Item, now: int, uuid: string)
    requires NetLaw(net)
    ensures CanonicalKey(net, Normalize(net, it, now, uuid)) == CanonicalKey(net, it)
  {
    var k := net.lower(net.trim(it.kind));
    assert net.lower(net.trim(net.lower(net.trim(it.kind)))) == k;
    assert net.trim(net.trim(it.value)) == net.trim(it.value);
  }

  type Items = map<string, Item>

  ghost predicate Keyed(items: Items) {
    forall id :: id in items ==> items[id].id == id && id != ""
  }

  /** No two entries stand for one indicator. */
  ghost predicate Deduplicated<Addr, Block>(net: Net<Addr, Block>, items: Items) {
    forall i, j :: i in items && j in items && CanonicalKey(net, items[i]) == CanonicalKey(net, items[j]) ==> i == j
  }

  /** The items of the batch, normalized, over those there; later entries win. */
  function Merged<Addr, Block>(net: Net<Addr, Block>, items: Items, batch: seq<Item>, uuids: seq<string>, now: int): (r: Items)
    requires |batch| == |uuids|
    ensures Keyed(items) ==> Keyed(r)
    decreases |batch|
  {
    if batch == [] then items else
    var n := |batch| - 1;
    var before := Merged(net, items, batch[..n], uuids[..n], now);
    var it := Normalize(net, batch[n], now, uuids[n]);
    before[it.id := it]
  }

  /** Entry i of the batch is the last one with its id. */
  ghost predicate IsLast<Addr, Block>(net: Net<Addr, Block>, batch: seq<Item>, uuids: seq<string>, now: int, i: nat)
    requires |batch| == |uuids| && i < |batch|
  {
    forall j :: i < j < |batch| ==> Normalize(net, batch[j], now, uuids[j]).id != Normalize(net, batch[i], now, uuids[i]).id
  }

  /** The last entry of the batch for an id is what is there. */
  lemma {:induction false} MergedLast<Addr, Block>(net: Net<Addr, Block>, items: Items, batch: seq<Item>, uuids: seq<string>, now: int, i: nat)
    requires |batch| == |uuids| && i < |batch| && IsLast(net, batch, uuids, now, i)
    ensures var r, it := Merged(net, items, batch, uuids, now), Normalize(net, batch[i], now, uuids[i]); it.id in r && r[it.id] == it
    decreases |batch|
  {
    hide Normalize;
    var n := |batch| - 1;
    if i < n {
      assert IsLast(net, batch[..n], uuids[..n], now, i);
      MergedLast(net, items, batch[..n], uuids[..n], now, i);
    }
  }

  /** Ids that the batch does not have are as before. */
  lemma {:induction false} MergedOthers<Addr, Block>(net: Net<Addr, Block>, items: Items, batch: seq<Item>, uuids: seq<string>, now: int, id: string)
    requires |batch| == |uuids| && forall i :: 0 <= i < |batch| ==> Normalize(net, batch[i], now, uuids[i]).id != id
    ensures var r := Merged(net, items, batch, uuids, now); (id in r <==> id in items) && (id in r ==> r[id] == items[id])
    decreases |batch|
  {
    hide Normalize;
    if batch != [] {
      var n := |batch| - 1;
      assert forall i :: 0 <= i < n ==> Normalize(net, batch[..n][i], now, uuids[..n][i]).id == Normalize(net, batch[i], now, uuids[i]).id;
      MergedOthers(net, items, batch[..n], uuids[..n], now, id);
    }
  }

  class Store<!Addr, !Block> {
    var items: Items
    var version: nat
    const net: Net<Addr, Block>

    constructor (net: Net<Addr, Block>)
      ensures items == map[] && version == 0 && this.net == net
    {
      this.items, this.version, this.net := map[], 0, net;
    }

    /** Reload: None is an unreadable file; a missing one is the empty list. */
    method Reload(loaded: Option<seq<Item>>, uuids: seq<string>, now: int) returns (ok: bool)
      requires loaded.Some? ==> |loaded.value| == |uuids|
      modifies this
      ensures ok == loaded.Some?
      ensures ok ==> items == Merged(net, map[], loaded.value, uuids, now) && version == old(version) + 1 && Keyed(items)
      ensures !ok ==> items == old(items) && version == old(version)
    {
      if loaded.None? {
        return false;
      }
      Sync(loaded.value, uuids, now);
      return true;
    }

    method Delete(id: string) returns (ok: bool)
      requires Keyed(items)
      modifies this
      ensures ok == (id in old(items)) && items == old(items) - {id} && Keyed(items)
      ensures version == old(version) + if ok then 1 else 0
    {
      if id !in items {
        return false;
      }
      items, version := items - {id}, version + 1;
      return true;
    }

    method Sync(batch: seq<Item>, uuids: seq<string>, now: int)
      requires |batch| == |uuids|
      modifies this
      ensures items == Merged(net, map[], batch, uuids, now) && version == old(version) + 1 && Keyed(items)
    {
      var next: Items := map[];
      for i := 0 to |batch|
        invariant next == Merged(net, map[], batch[..i], uuids[..i], now)
      {
        assert batch[..i + 1][..i] == batch[..i] && uuids[..i + 1][..i] == uuids[..i];
        var it := Normalize(net, batch[i], now, uuids[i]);
        next := next[it.id := it];
      }
      assert batch[..|batch|] == batch && uuids[..|batch|] == uuids;
      items, version := next, version + 1;
    }

    /** Replaces what one source delivered; nothing else changes but entries whose id the batch takes. */
    method SyncSource(source: string, batch: seq<Item>, uuids: seq<string>, now: int) returns (ok: bool)
      requires |batch| == |uuids| && Keyed(items)
      modifies this
      ensures ok == (net.trim(source) != "") && Keyed(items)
      ensures !ok ==> items == old(items) && version == old(version)
      ensures ok ==> version == old(version) + 1
      ensures ok ==>
        items == Merged(net, Others(old(items), net.trim(source)), Attributed(batch, net.trim(source)), uuids, now)
    {
      var s := net.trim(source);
      if s == "" {
        return false;
      }
      var next := Others(items, s);
      for i := 0 to |batch|
        invariant next == Merged(net, Others(items, s), Attributed(batch, s)[..i], uuids[..i], now)
        invariant items == old(items) && version == old(version)
      {
        assert Attributed(batch, s)[..i + 1][..i] == Attributed(batch, s)[..i] && uuids[..i + 1][..i] == uuids[..i];
        var it := Normalize(net, batch[i].(source := s), now, uuids[i]);
        next := next[it.id := it];
      }
      assert Attributed(batch, s)[..|batch|] == Attributed(batch, s) && uuids[..|batch|] == uuids;
      items, version := next, version + 1;
      return true;
    }

    /** Merges a feed: one entry per indicator in the batch, the newest, over the entry the store has
        for it. Each new entry draws its own random id. */
    method UpsertDedup(batch: seq<Item>, uuid: string -> string, now: int)
      requires Keyed(items) && NetLaw(net)
      modifies this
      ensures Keyed(items) && (batch == [] ==> items == old(items) && version == old(version))
      ensures batch != [] ==> version == old(version) + 1
      ensures old(items).Keys <= items.Keys
      ensures Deduplicated(net, old(items)) ==> Deduplicated(net, items)
      ensures batch != [] ==> MergedInto(net, batch, old(items), items, uuid, now)
    {
      hide *;
      var newest := Newest(net, batch);
      if batch == [] {
        return;
      }
      var existing := Directory(net, items);
      items := MergeBatch(net, batch, items, newest, existing, uuid, now);
      version := version + 1;
    }

    method PruneExpired(now: int) returns (deleted: nat)
      requires Keyed(items)
      modifies this
      ensures Keyed(items) && items == map id | id in old(items) && !Expired(old(items)[id], now) :: old(items)[id]
      ensures deleted == |old(items)| - |items| && version == old(version) + if deleted > 0 then 1 else 0
    {
      var gone := set id | id in items && Expired(items[id], now);
      deleted := |gone|;
      CountSplit(items, gone);
      if gone != {} {
        items, version := items - gone, version + 1;
      }
    }
  }

  lemma CountSplit(items: Items, gone: set<string>)
    requires gone <= items.Keys
    ensures |items - gone| == |items| - |gone|
  {
    assert (items - gone).Keys == items.Keys - gone;
    assert items.Keys == (items.Keys - gone) + gone;
  }

  predicate Expired(it: Item, now: int) {
    it.expire > 0 && it.expire < now
  }

  function Others(items: Items, source: string): Items {
    map id | id in items && items[id].source != source :: items[id]
  }

  function Attributed(batch: seq<Item>, source: string): (r: seq<Item>)
    ensures |r| == |batch| && forall i :: 0 <= i < |r| ==> r[i] == batch[i].(source := source)
  {
    seq(|batch|, i requires 0 <= i < |batch| => batch[i].(source := source))
  }

  // ---------------------------------------------------------------- upserts

  /** The entry an upsert writes: a creation time that was not delivered is kept. */
  function Written<Addr, Block>(net: Net<Addr, Block>, items: Items, it: Item, now: int, uuid: string): (r: Item)
    ensures r.id == Normalize(net, it, now, uuid).id
  {
    var n := Normalize(net, it, now, uuid);
    if n.id in items && it.created == 0 then n.(created := items[n.id].created) else n
  }

  /** One entry for each indicator of the batch, none of them older than another one for it. */
  ghost predicate IsNewest<Addr, Block>(net: Net<Addr, Block>, batch: seq<Item>, newest: map<string, Item>) {
    && (forall i :: 0 <= i < |batch| ==>
          CanonicalKey(net, batch[i]) in newest && batch[i].updated <= newest[CanonicalKey(net, batch[i])].updated)
    && (forall k :: k in newest ==> newest[k] in batch && CanonicalKey(net, newest[k]) == k)
  }

  /** An id of the store for each indicator it has. */
  ghost predicate IsDirectory<Addr, Block>(net: Net<Addr, Block>, items: Items, existing: map<string, string>) {
    && (forall id :: id in items ==> CanonicalKey(net, items[id]) in existing)
    && (forall k :: k in existing ==> existing[k] in items && CanonicalKey(net, items[existing[k]]) == k)
  }

  /** An entry for an indicator replaces the one there if it is newer. */
  function Latest<Addr, Block>(net: Net<Addr, Block>, newest: map<string, Item>, it: Item): map<string, Item> {
    var k := CanonicalKey(net, it);
    if k in newest && newest[k].updated >= it.updated then newest else newest[k := it]
  }

  /** The newest entry of the batch for each indicator, the first of several. */
  function NewestOf<Addr, Block>(net: Net<Addr, Block>, batch: seq<Item>): map<string, Item> {
    if batch == [] then map[] else Latest(net, NewestOf(net, batch[..|batch| - 1]), batch[|batch| - 1])
  }

  lemma {:induction false} NewestIs<Addr, Block>(net: Net<Addr, Block>, batch: seq<Item>)
    ensures IsNewest(net, batch, NewestOf(net, batch))
  {
    hide CanonicalKey;
    if batch != [] {
      var n := |batch| - 1;
      NewestIs(net, batch[..n]);
      assert batch == batch[..n] + [batch[n]];
    }
  }

  method Newest<Addr, Block>(net: Net<Addr, Block>, batch: seq<Item>) returns (newest: map<string, Item>)
    ensures newest == NewestOf(net, batch) && IsNewest(net, batch, newest)
  {
    hide CanonicalKey, Latest, IsNewest;
    newest := map[];
    for i := 0 to |batch|
      invariant newest == NewestOf(net, batch[..i])
    {
      newest := Latest(net, newest, batch[i]);
      assert batch[..i + 1][..i] == batch[..i];
    }
    assert batch[..|batch|] == batch;
    NewestIs(net, batch);
  }

  method Directory<Addr, Block>(net: Net<Addr, Block>, items: Items) returns (existing: map<string, string>)
    ensures IsDirectory(net, items, existing)
  {
    existing := map[];
    var todo := items.Keys;
    while todo != {}
      invariant todo <= items.Keys
      invariant forall id :: id in items && id !in todo ==> CanonicalKey(net, items[id]) in existing
      invariant forall k :: k in existing ==> existing[k] in items && CanonicalKey(net, items[existing[k]]) == k
      decreases todo
    {
      var id :| id in todo;
      existing := existing[CanonicalKey(net, items[id]) := id];
      todo := todo - {id};
    }
  }

  /** What a merge will write: for each indicator the entry delivered, with the id of the store if it has
      one, the id under which it goes, and the random part of a new id. */
  datatype Plan = Plan(given: map<string, Item>, targets: map<string, string>, uuid: string -> string, now: int)

  function PlanOf<Addr, Block>(net: Net<Addr, Block>, newest: map<string, Item>, existing: map<string, string>, uuid: string -> string, now: int): Plan {
    var given := map k | k in newest :: if k in existing then newest[k].(id := existing[k]) else newest[k];
    Plan(given, map k | k in newest :: Normalize(net, given[k], now, uuid(k)).id, uuid, now)
  }

  /** Of the indicators done, no other went to the id of this one. */
  ghost predicate Alone(plan: Plan, done: set<string>, k: string)
    requires k in plan.targets
  {
    forall l :: l in done && l in plan.targets && plan.targets[l] == plan.targets[k] ==> l == k
  }

  /** The entry is the normalized one delivered for the indicator; a creation time that was not delivered
      is the one that was there. */
  ghost predicate Delivers<Addr, Block>(net: Net<Addr, Block>, before: Items, it: Item, plan: Plan, done: set<string>, k: string) {
    && k in done && k in plan.targets && k in plan.given
    && it == Normalize(net, plan.given[k], plan.now, plan.uuid(k)).(created := it.created)
    && (plan.given[k].created != 0 ==> it.created == plan.given[k].created)
    && (plan.given[k].created == 0 && Alone(plan, done, k) ==> it.created == if it.id in before then before[it.id].created else plan.now)
  }

  /** Half way through a merge: an entry was written for an indicator that is done, or is an old one. */
  ghost predicate Settled<Addr, Block>(net: Net<Addr, Block>, before: Items, it: Item, plan: Plan, done: set<string>, id: string) {
    var k := CanonicalKey(net, it);
    || (Delivers(net, before, it, plan, done, k) && plan.targets[k] == id)
    || (id in before && it == before[id] && forall k :: k in done && k in plan.targets ==> plan.targets[k] != id)
  }

  ghost predicate Merging<Addr, Block>(net: Net<Addr, Block>, before: Items, items: Items, plan: Plan, done: set<string>) {
    && Keyed(items) && before.Keys <= items.Keys
    && (forall id :: id in items ==> Settled(net, before, items[id], plan, done, id))
    && (forall k :: k in done && k in plan.targets ==> plan.targets[k] in items)
  }

  lemma MergeStart<Addr, Block>(net: Net<Addr, Block>, items: Items, plan: Plan, all: set<string>, todo: set<string>)
    requires Keyed(items) && todo == all
    ensures Merging(net, items, items, plan, all - todo)
  {
    hide CanonicalKey, Delivers;
  }

  lemma PlanKeys<Addr, Block>(net: Net<Addr, Block>, before: Items, newest: map<string, Item>, existing: map<string, string>, uuid: string -> string, now: int)
    requires Keyed(before) && IsDirectory(net, before, existing)
    ensures var plan := PlanOf(net, newest, existing, uuid, now);
      && plan.targets.Keys == plan.given.Keys == newest.Keys
      && (forall k :: k in newest && k in existing ==> plan.targets[k] == existing[k])
  {
    hide CanonicalKey;
    forall k | k in existing ensures existing[k] != "" {
      assert existing[k] in before;
    }
  }

  /** The store after a merge: the indicators of the batch, each newest entry at the id it goes to, over
      what was there. */
  ghost predicate MergedInto<Addr, Block>(net: Net<Addr, Block>, batch: seq<Item>, before: Items, items: Items, uuid: string -> string, now: int) {
    exists existing ::
      && IsDirectory(net, before, existing)
      && Merging(net, before, items, PlanOf(net, NewestOf(net, batch), existing, uuid, now), NewestOf(net, batch).Keys)
  }

  lemma MergeEnd<Addr, Block>(net: Net<Addr, Block>, batch: seq<Item>, before: Items, items: Items, newest: map<string, Item>,
                              existing: map<string, string>, uuid: string -> string, now: int, todo: set<string>)
    requires Keyed(before) && newest == NewestOf(net, batch) && IsDirectory(net, before, existing) && todo == {}
    requires Merging(net, before, items, PlanOf(net, newest, existing, uuid, now), newest.Keys - todo)
    ensures MergedInto(net, batch, before, items, uuid, now) && Keyed(items) && before.Keys <= items.Keys
    ensures Deduplicated(net, before) ==> Deduplicated(net, items)
  {
    hide Deduplicated, Merging, IsDirectory, NewestOf, PlanOf;
    assert newest.Keys - todo == newest.Keys;
    PlanKeys(net, before, newest, existing, uuid, now);
    if Deduplicated(net, before) {
      MergedDeduplicated(net, before, items, PlanOf(net, newest, existing, uuid, now), existing);
    }
    MergingKeyed(net, before, items, PlanOf(net, newest, existing, uuid, now), newest.Keys);
  }

  lemma MergingKeyed<Addr, Block>(net: Net<Addr, Block>, before: Items, items: Items, plan: Plan, done: set<string>)
    requires Merging(net, before, items, plan, done)
    ensures Keyed(items) && before.Keys <= items.Keys
  {
    hide CanonicalKey, Settled;
  }

  /** What is written for an indicator, and what the others keep. */
  lemma MergeStep<Addr, Block>(net: Net<Addr, Block>, before: Items, items: Items, plan: Plan, done: set<string>, k: string, entry: Item)
    requires Merging(net, before, items, plan, done) && k in plan.targets && k !in done
    requires Delivers(net, before, entry, plan, done + {k}, k) && CanonicalKey(net, entry) == k
    requires entry.id == plan.targets[k] && entry.id != ""
    ensures Merging(net, before, items[entry.id := entry], plan, done + {k})
  {
    hide CanonicalKey, Delivers;
    forall j | j in items && j != entry.id ensures Settled(net, before, items[j], plan, done + {k}, j) {
      assert Settled(net, before, items[j], plan, done, j);
      StillDelivers(net, before, items[j], plan, done, k);
    }
  }

  lemma WrittenDelivers<Addr, Block>(net: Net<Addr, Block>, before: Items, items: Items, plan: Plan, done: set<string>, k: string)
    requires Merging(net, before, items, plan, done) && k in plan.targets && k in plan.given && k !in done
    requires plan.targets[k] == Normalize(net, plan.given[k], plan.now, plan.uuid(k)).id
    ensures Delivers(net, before, Written(net, items, plan.given[k], plan.now, plan.uuid(k)), plan, done + {k}, k)
  {
    hide CanonicalKey;
    var id := plan.targets[k];
    if Alone(plan, done + {k}, k) && id in items {
      assert Settled(net, before, items[id], plan, done, id);
    }
  }

  lemma StillDelivers<Addr, Block>(net: Net<Addr, Block>, before: Items, it: Item, plan: Plan, done: set<string>, k: string)
    ensures forall l :: Delivers(net, before, it, plan, done, l) ==> Delivers(net, before, it, plan, done + {k}, l)
  {
    hide Normalize;
  }

  lemma EntryKey<Addr, Block>(net: Net<Addr, Block>, items: Items, it: Item, now: int, uuid: string)
    requires NetLaw(net)
    ensures CanonicalKey(net, Written(net, items, it, now, uuid)) == CanonicalKey(net, it)
  {
    NormalizeKeepsKey(net, it, now, uuid);
    KeyFields(net, Written(net, items, it, now, uuid), Normalize(net, it, now, uuid));
  }

  lemma KeyFields<Addr, Block>(net: Net<Addr, Block>, a: Item, b: Item)
    requires a.kind == b.kind && a.value == b.value
    ensures CanonicalKey(net, a) == CanonicalKey(net, b)
  {
  }

  lemma MergeEntry<Addr, Block>(net: Net<Addr, Block>, batch: seq<Item>, before: Items, items: Items, newest: map<string, Item>,
                                existing: map<string, string>, uuid: string -> string, now: int, todo: set<string>, k: string)
    requires NetLaw(net) && Keyed(before) && IsNewest(net, batch, newest) && IsDirectory(net, before, existing)
    requires k in todo && todo <= newest.Keys && Merging(net, before, items, PlanOf(net, newest, existing, uuid, now), newest.Keys - todo)
    ensures var it := if k in existing then newest[k].(id := existing[k]) else newest[k];
      var entry := Written(net, items, it, now, uuid(k));
      Merging(net, before, items[entry.id := entry], PlanOf(net, newest, existing, uuid, now), newest.Keys - (todo - {k}))
  {
    hide NetLaw, Keyed, IsNewest, IsDirectory, Merging, PlanOf, Written, CanonicalKey, Normalize, Delivers;
    var it := if k in existing then newest[k].(id := existing[k]) else newest[k];
    var plan := PlanOf(net, newest, existing, uuid, now);
    NewestKey(net, batch, newest, k);
    PlanAt(net, newest, existing, uuid, now, k);
    EntryKey(net, items, it, now, uuid(k));
    KeyFields(net, it, newest[k]);
    WrittenDelivers(net, before, items, plan, newest.Keys - todo, k);
    MergeStep(net, before, items, plan, newest.Keys - todo, k, Written(net, items, it, now, uuid(k)));
    assert newest.Keys - todo + {k} == newest.Keys - (todo - {k});
  }

  lemma NewestKey<Addr, Block>(net: Net<Addr, Block>, batch: seq<Item>, newest: map<string, Item>, k: string)
    requires IsNewest(net, batch, newest) && k in newest
    ensures CanonicalKey(net, newest[k]) == k
  {
    hide CanonicalKey;
  }

  lemma PlanAt<Addr, Block>(net: Net<Addr, Block>, newest: map<string, Item>, existing: map<string, string>, uuid: string -> string, now: int, k: string)
    requires k in newest
    ensures var plan := PlanOf(net, newest, existing, uuid, now);
      && k in plan.given && k in plan.targets && plan.now == now && plan.uuid == uuid
      && plan.given[k] == (if k in existing then newest[k].(id := existing[k]) else newest[k])
      && plan.targets[k] == Normalize(net, plan.given[k], now, uuid(k)).id
  {
    hide Normalize;
  }

  method MergeBatch<Addr, Block>(net: Net<Addr, Block>, ghost batch: seq<Item>, before: Items, newest: map<string, Item>,
                                 existing: map<string, string>, uuid: string -> string, now: int) returns (items: Items)
    requires NetLaw(net) && Keyed(before) && newest == NewestOf(net, batch) && IsNewest(net, batch, newest) && IsDirectory(net, before, existing)
    ensures Keyed(items) && before.Keys <= items.Keys && MergedInto(net, batch, before, items, uuid, now)
    ensures Deduplicated(net, before) ==> Deduplicated(net, items)
  {
    hide *;
    items := before;
    var todo := newest.Keys;
    MergeStart(net, items, PlanOf(net, newest, existing, uuid, now), newest.Keys, todo);
    while todo != {}
      invariant todo <= newest.Keys && Merging(net, before, items, PlanOf(net, newest, existing, uuid, now), newest.Keys - todo)
      decreases todo
    {
      var k :| k in todo;
      var it := if k in existing then newest[k].(id := existing[k]) else newest[k];
      var entry := Written(net, items, it, now, uuid(k));
      MergeEntry(net, batch, before, items, newest, existing, uuid, now, todo, k);
      items := items[entry.id := entry];
      todo := todo - {k};
    }
    MergeEnd(net, batch, before, items, newest, existing, uuid, now, todo);
  }

  /** A merge keeps one entry for each indicator. */
  lemma MergedDeduplicated<Addr, Block>(net: Net<Addr, Block>, before: Items, items: Items, plan: Plan, existing: map<string, string>)
    requires Deduplicated(net, before) && IsDirectory(net, before, existing)
    requires forall k :: k in plan.targets && k in existing ==> plan.targets[k] == existing[k]
    requires Merging(net, before, items, plan, plan.targets.Keys)
    ensures Deduplicated(net, items)
  {
    hide CanonicalKey, Normalize;
    forall i, j | i in items && j in items && CanonicalKey(net, items[i]) == CanonicalKey(net, items[j]) ensures i == j {
      assert Settled(net, before, items[i], plan, plan.targets.Keys, i) && Settled(net, before, items[j], plan, plan.targets.Keys, j);
    }
  }

  /** Every indicator of the batch is in the store afterwards exactly when they all go to different ids. */
  lemma AllDelivered<Addr, Block>(net: Net<Addr, Block>, before: Items, items: Items, plan: Plan, existing: map<string, string>)
    requires Deduplicated(net, before) && IsDirectory(net, before, existing)
    requires forall k :: k in plan.targets && k in existing ==> plan.targets[k] == existing[k]
    requires Merging(net, before, items, plan, plan.targets.Keys)
    ensures Holding(net, items, plan.targets.Keys) <==>
      forall k, l :: k in plan.targets && l in plan.targets && plan.targets[k] == plan.targets[l] ==> k == l
  {
    hide CanonicalKey, Normalize;
    var targets := plan.targets;
    if Holding(net, items, targets.Keys) {
      forall k, l | k in targets && l in targets && targets[k] == targets[l] ensures k == l {
        HeldAtTarget(net, before, items, plan, existing, k);
        HeldAtTarget(net, before, items, plan, existing, l);
      }
    } else {
      var k :| k in targets && !Has(net, items, k);
      assert Settled(net, before, items[targets[k]], plan, targets.Keys, targets[k]);
    }
  }

  /** The store has the indicator. */
  ghost predicate Has<Addr, Block>(net: Net<Addr, Block>, items: Items, k: string) {
    exists id :: id in items && CanonicalKey(net, items[id]) == k
  }

  ghost predicate Holding<Addr, Block>(net: Net<Addr, Block>, items: Items, keys: set<string>) {
    forall k :: k in keys ==> Has(net, items, k)
  }

  lemma HeldAtTarget<Addr, Block>(net: Net<Addr, Block>, before: Items, items: Items, plan: Plan, existing: map<string, string>, k: string)
    requires IsDirectory(net, before, existing)
    requires Deduplicated(net, before) && forall k :: k in plan.targets && k in existing ==> plan.targets[k] == existing[k]
    requires Merging(net, before, items, plan, plan.targets.Keys) && Holding(net, items, plan.targets.Keys) && k in plan.targets
    ensures plan.targets[k] in items && CanonicalKey(net, items[plan.targets[k]]) == k
  {
    hide CanonicalKey, Normalize;
    var id :| id in items && CanonicalKey(net, items[id]) == k;
    assert Settled(net, before, items[id], plan, plan.targets.Keys, id);
  }

  // ---------------------------------------------------------------- what a feed delivers

  /** The id under which the newest entry for an indicator of the batch goes: the one the store has for the
      indicator, else its own, else a new one. */
  ghost function Target<Addr, Block>(net: Net<Addr, Block>, batch: seq<Item>, before: Items, uuid: string -> string, now: int, k: string): string
    requires k in NewestOf(net, batch)
  {
    if Has(net, before, k) then
      var id :| id in before && CanonicalKey(net, before[id]) == k;
      id
    else Normalize(net, NewestOf(net, batch)[k], now, uuid(k)).id
  }

  lemma TargetIs<Addr, Block>(net: Net<Addr, Block>, batch: seq<Item>, before: Items, existing: map<string, string>, uuid: string -> string, now: int, k: string)
    requires Keyed(before) && Deduplicated(net, before) && IsDirectory(net, before, existing) && k in NewestOf(net, batch)
    ensures var plan := PlanOf(net, NewestOf(net, batch), existing, uuid, now);
      k in plan.targets && plan.targets[k] == Target(net, batch, before, uuid, now, k) && (k in existing <==> Has(net, before, k))
  {
    hide CanonicalKey, Normalize;
    PlanKeys(net, before, NewestOf(net, batch), existing, uuid, now);
    if Has(net, before, k) {
      var id :| id in before && CanonicalKey(net, before[id]) == k;
      assert existing[k] in before && CanonicalKey(net, before[existing[k]]) == k;
    }
  }

  /** No two indicators of the batch go to one id. */
  ghost predicate TargetsApart<Addr, Block>(net: Net<Addr, Block>, batch: seq<Item>, before: Items, uuid: string -> string, now: int) {
    forall k, l :: k in NewestOf(net, batch) && l in NewestOf(net, batch) && k != l ==>
      Target(net, batch, before, uuid, now, k) != Target(net, batch, before, uuid, now, l)
  }

  /** After UpsertDedup every indicator of the feed is in the store exactly when no two go to one id. */
  lemma FeedDelivered<Addr, Block>(net: Net<Addr, Block>, batch: seq<Item>, before: Items, items: Items, uuid: string -> string, now: int)
    requires Keyed(before) && Deduplicated(net, before) && MergedInto(net, batch, before, items, uuid, now)
    ensures Holding(net, items, NewestOf(net, batch).Keys) <==> TargetsApart(net, batch, before, uuid, now)
  {
    hide CanonicalKey, Normalize, Merging, NewestOf, Target;
    var newest := NewestOf(net, batch);
    var existing :| IsDirectory(net, before, existing) && Merging(net, before, items, PlanOf(net, newest, existing, uuid, now), newest.Keys);
    var plan := PlanOf(net, newest, existing, uuid, now);
    PlanKeys(net, before, newest, existing, uuid, now);
    AllDelivered(net, before, items, plan, existing);
    forall k | k in newest ensures plan.targets[k] == Target(net, batch, before, uuid, now, k) {
      TargetIs(net, batch, before, existing, uuid, now, k);
    }
  }

  /** An indicator of the store that the feed does not have stays exactly when nothing of the feed goes to
      its id: a feed entry with an id that is taken replaces another indicator. */
  lemma OldKept<Addr, Block>(net: Net<Addr, Block>, batch: seq<Item>, before: Items, items: Items, uuid: string -> string, now: int, id: string)
    requires Keyed(before) && Deduplicated(net, before) && MergedInto(net, batch, before, items, uuid, now)
    requires id in before && CanonicalKey(net, before[id]) !in NewestOf(net, batch)
    ensures Has(net, items, CanonicalKey(net, before[id])) <==>
      forall k :: k in NewestOf(net, batch) ==> Target(net, batch, before, uuid, now, k) != id
  {
    hide CanonicalKey, Normalize, NewestOf, Target, Delivers;
    var newest := NewestOf(net, batch);
    var existing :| IsDirectory(net, before, existing) && Merging(net, before, items, PlanOf(net, newest, existing, uuid, now), newest.Keys);
    var plan := PlanOf(net, newest, existing, uuid, now);
    forall k | k in newest ensures plan.targets[k] == Target(net, batch, before, uuid, now, k) {
      TargetIs(net, batch, before, existing, uuid, now, k);
    }
    OldSettled(net, before, items, plan, newest.Keys, id);
  }

  lemma OldSettled<Addr, Block>(net: Net<Addr, Block>, before: Items, items: Items, plan: Plan, done: set<string>, id: string)
    requires Keyed(before) && Deduplicated(net, before) && Merging(net, before, items, plan, done) && done == plan.targets.Keys
    requires id in before && CanonicalKey(net, before[id]) !in done
    ensures Has(net, items, CanonicalKey(net, before[id])) <==> forall k :: k in done ==> plan.targets[k] != id
  {
    hide CanonicalKey, Normalize;
    var m := CanonicalKey(net, before[id]);
    assert Settled(net, before, items[id], plan, done, id);
    if i :| i in items && CanonicalKey(net, items[i]) == m {
      assert Settled(net, before, items[i], plan, done, i);
      assert i == id;
    }
  }

  /** Of two indicators that a feed delivers with one id an empty store gets only one. */
  lemma OneIdLoses<Addr, Block>(net: Net<Addr, Block>, a: Item, b: Item, items: Items, uuid: string -> string, now: int)
    requires a.id == b.id != "" && CanonicalKey(net, a) != CanonicalKey(net, b)
    requires MergedInto(net, [a, b], map[], items, uuid, now)
    ensures !(Has(net, items, CanonicalKey(net, a)) && Has(net, items, CanonicalKey(net, b)))
  {
    hide CanonicalKey, MergedInto, Holding;
    var k, l := CanonicalKey(net, a), CanonicalKey(net, b);
    assert [a, b][..1] == [a] && [a][..0] == [];
    assert NewestOf(net, [a]) == map[k := a];
    assert NewestOf(net, [a, b]) == map[k := a, l := b];
    FeedDelivered(net, [a, b], map[], items, uuid, now);
    assert Target(net, [a, b], map[], uuid, now, k) == Target(net, [a, b], map[], uuid, now, l);
    assert NewestOf(net, [a, b]).Keys == {k, l};
    if Has(net, items, k) && Has(net, items, l) {
      HoldingBoth(net, items, k, l);
    }
  }

  lemma HoldingBoth<Addr, Block>(net: Net<Addr, Block>, items: Items, k: string, l: string)
    requires Has(net, items, k) && Has(net, items, l)
    ensures Holding(net, items, {k, l})
  {
    hide CanonicalKey;
  }
}

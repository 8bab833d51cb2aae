/** Collect of internal/queue/maintenance.go: removes content nodes that neither an event root
    nor another node refers to, in bounded batches. */
module Collect {
  import opened Basics
  import opened Content
  import opened Graph
  import opened Copy

  type Roots = map<Bytes, Id>

  const DEFAULT_LIMIT := 1000

  ghost predicate Unreferenced(s: Store, roots: Roots, id: Id) {
    && id in s.content
    && (forall k :: k in roots ==> roots[k] != id)
    && (forall p :: (p, id) !in s.edges)
  }

  /** The two DELETE statements for one node. */
  function Remove(s: Store, id: Id): Store {
    Store(s.content - {id}, set e | e in s.edges && e.0 != id)
  }

  /** An event root reaches the node. */
  ghost predicate Live(lib: Lib, content: Table, roots: Roots, id: Id) {
    exists path :: IsPath(lib, content, path) && (exists k :: k in roots && roots[k] == path[0]) && path[|path| - 1] == id
  }

  /** Every registered root is stored. */
  ghost predicate RootsStored(content: Table, roots: Roots) {
    forall k :: k in roots ==> roots[k] in content
  }

  // ---------------------------------------------------------------- one removal

  lemma RefsAfterRemove(lib: Lib, s: Store, id: Id)
    ensures forall p :: RefsAt(lib, Remove(s, id).content, p) == if p == id then [] else RefsAt(lib, s.content, p)
  {
    hide RowRefs;
  }

  lemma RemoveKeeps(lib: Lib, s: Store, roots: Roots, id: Id, rank: map<Id, nat>)
    requires Consistent(lib, s, rank) && RootsStored(s.content, roots) && Unreferenced(s, roots, id)
    ensures Consistent(lib, Remove(s, id), rank)
    ensures RootsStored(Remove(s, id).content, roots)
  {
    hide RowRefs, RefsAt, RowNode, SoundRow;
    RefsAfterRemove(lib, s, id);
    var s' := Remove(s, id);
    forall p, c | c in RefsAt(lib, s'.content, p) ensures c in s'.content {
      assert (p, c) in s.edges;
    }
  }

  /** Nothing reaches an unreferenced node. */
  lemma UnreferencedIsDead(lib: Lib, s: Store, roots: Roots, id: Id)
    requires EdgesExact(lib, s) && Unreferenced(s, roots, id)
    ensures !Live(lib, s.content, roots, id)
  {
    hide RefsAt;
    forall path | IsPath(lib, s.content, path) && exists k :: k in roots && roots[k] == path[0]
      ensures path[|path| - 1] != id
    {
      if |path| > 1 {
        var p := path[|path| - 2];
        assert path[(|path| - 2) + 1] in RefsAt(lib, s.content, p);
        assert (p, path[|path| - 1]) in s.edges;
      }
    }
  }

  lemma PrefixLive(lib: Lib, content: Table, roots: Roots, path: seq<Id>, i: nat)
    requires IsPath(lib, content, path) && i < |path|
    requires exists k :: k in roots && roots[k] == path[0]
    ensures Live(lib, content, roots, path[i])
  {
    hide RefsAt;
    var q := path[..i + 1];
    assert IsPath(lib, content, q);
    assert q[0] == path[0] && q[|q| - 1] == path[i];
  }

  /** A removal changes no other node's liveness. */
  lemma RemoveKeepsLive(lib: Lib, s: Store, roots: Roots, id: Id, x: Id)
    requires EdgesExact(lib, s) && Unreferenced(s, roots, id)
    ensures Live(lib, Remove(s, id).content, roots, x) <==> Live(lib, s.content, roots, x)
  {
    hide RefsAt, EdgesExact, Unreferenced;
    RefsAfterRemove(lib, s, id);
    var content' := Remove(s, id).content;
    if Live(lib, s.content, roots, x) {
      var path :| IsPath(lib, s.content, path) && (exists k :: k in roots && roots[k] == path[0]) && path[|path| - 1] == x;
      forall i | 0 <= i < |path| - 1 ensures path[i + 1] in RefsAt(lib, content', path[i]) {
        PrefixLive(lib, s.content, roots, path, i);
        UnreferencedIsDead(lib, s, roots, id);
      }
      assert IsPath(lib, content', path);
    }
    if Live(lib, content', roots, x) {
      var path :| IsPath(lib, content', path) && (exists k :: k in roots && roots[k] == path[0]) && path[|path| - 1] == x;
      assert IsPath(lib, s.content, path);
    }
  }

  // ---------------------------------------------------------------- when nothing is left to remove

  /** With no cycle, a store without unreferenced nodes holds live nodes only. */
  lemma {:induction false} NoneUnreferencedAllLive(lib: Lib, s: Store, roots: Roots, rank: map<Id, nat>, bound: nat, id: Id)
    requires Consistent(lib, s, rank)
    requires forall x :: !Unreferenced(s, roots, x)
    requires forall x :: x in s.content ==> rank[x] < bound
    requires id in s.content
    ensures Live(lib, s.content, roots, id)
    decreases bound - rank[id]
  {
    hide RefsAt, AllSound, Resolved;
    assert !Unreferenced(s, roots, id);
    if k :| k in roots && roots[k] == id {
      assert IsPath(lib, s.content, [id]);
      assert [id][0] == id;
    } else {
      var p :| (p, id) in s.edges;
      assert id in RefsAt(lib, s.content, p);
      ParentStored(lib, s.content, p, id);
      NoneUnreferencedAllLive(lib, s, roots, rank, bound, p);
      var path :| IsPath(lib, s.content, path) && (exists k :: k in roots && roots[k] == path[0]) && path[|path| - 1] == p;
      var q := path + [id];
      assert IsPath(lib, s.content, q);
      assert q[0] == path[0];
    }
  }

  lemma ParentStored(lib: Lib, content: Table, p: Id, c: Id)
    requires c in RefsAt(lib, content, p)
    ensures p in content
  {
  }

  /** A number above every rank in use. */
  lemma RankBound(ids: set<Id>, rank: map<Id, nat>) returns (bound: nat)
    requires ids <= rank.Keys
    ensures forall x :: x in ids ==> rank[x] < bound
    decreases |ids|
  {
    if ids == {} {
      bound := 0;
    } else {
      var x :| x in ids;
      var rest := RankBound(ids - {x}, rank);
      bound := Max(rest, rank[x] + 1);
    }
  }

  // ---------------------------------------------------------------- the method

  /** What a collection has done so far: live nodes are kept, dead ones only may be gone. */
  ghost predicate Progress(lib: Lib, s0: Store, s: Store, roots: Roots, rank: map<Id, nat>, removed: nat) {
    && Consistent(lib, s, rank) && RootsStored(s.content, roots)
    && s.content.Keys <= s0.content.Keys
    && (forall id :: id in s.content ==> s.content[id] == s0.content[id])
    && (forall id :: id in s0.content && Live(lib, s0.content, roots, id) ==> id in s.content)
    && (forall id :: Live(lib, s.content, roots, id) <==> Live(lib, s0.content, roots, id))
    && |s.content| + removed == |s0.content|
  }

  lemma ProgressStart(lib: Lib, s: Store, roots: Roots, rank: map<Id, nat>)
    requires Consistent(lib, s, rank) && RootsStored(s.content, roots)
    ensures Progress(lib, s, s, roots, rank, 0)
  {
  }

  lemma ProgressStep(lib: Lib, s0: Store, s: Store, roots: Roots, rank: map<Id, nat>, removed: nat, id: Id)
    requires Progress(lib, s0, s, roots, rank, removed) && Unreferenced(s, roots, id)
    ensures Progress(lib, s0, Remove(s, id), roots, rank, removed + 1)
  {
    hide Live, AllSound, EdgesExact, Resolved, Ranked;
    RemoveKeeps(lib, s, roots, id, rank);
    UnreferencedIsDead(lib, s, roots, id);
    var s' := Remove(s, id);
    assert s'.content.Keys == s.content.Keys - {id};
    forall x ensures Live(lib, s'.content, roots, x) <==> Live(lib, s0.content, roots, x) {
      RemoveKeepsLive(lib, s, roots, id, x);
    }
  }

  lemma ProgressDone(lib: Lib, s0: Store, s: Store, roots: Roots, rank: map<Id, nat>, removed: nat)
    requires Progress(lib, s0, s, roots, rank, removed)
    requires forall x :: !Unreferenced(s, roots, x)
    ensures forall id :: id in s.content <==> id in s0.content && Live(lib, s0.content, roots, id)
  {
    hide Live, AllSound, EdgesExact, Resolved;
    var bound := RankBound(s.content.Keys, rank);
    forall id | id in s.content ensures Live(lib, s0.content, roots, id) {
      NoneUnreferencedAllLive(lib, s, roots, rank, bound, id);
    }
  }

  /** Removing one of several unreferenced nodes leaves the others unreferenced. */
  lemma StillUnreferenced(s: Store, roots: Roots, id: Id, other: Id)
    requires Unreferenced(s, roots, other) && other != id
    ensures Unreferenced(Remove(s, id), roots, other)
  {
  }

  /** The content tables of one database, updated in place. */
  class Tables {
    var store: Store
    var roots: Roots

    constructor (store: Store, roots: Roots)
      ensures this.store == store && this.roots == roots
    {
      this.store := store;
      this.roots := roots;
    }

    /** The SELECT: up to `limit` unreferenced nodes, none only when there are none. */
    method SelectUnreferenced(limit: nat) returns (ids: seq<Id>)
      requires limit > 0
      ensures |ids| <= limit
      ensures forall i :: 0 <= i < |ids| ==> Unreferenced(store, roots, ids[i])
      ensures forall i, j :: 0 <= i < j < |ids| ==> ids[i] != ids[j]
      ensures ids == [] ==> forall x :: !Unreferenced(store, roots, x)
    {
      ids := [];
      var todo := store.content.Keys;
      while todo != {} && |ids| < limit
        invariant todo <= store.content.Keys
        invariant |ids| <= limit
        invariant forall i :: 0 <= i < |ids| ==> Unreferenced(store, roots, ids[i]) && ids[i] !in todo
        invariant forall i, j :: 0 <= i < j < |ids| ==> ids[i] != ids[j]
        invariant ids == [] ==> forall x :: Unreferenced(store, roots, x) ==> x in todo
        decreases todo
      {
        var id :| id in todo;
        todo := todo - {id};
        if (forall k :: k in roots ==> roots[k] != id) && (forall e :: e in store.edges ==> e.1 != id) {
          ids := ids + [id];
        }
      }
    }

    /** Removes at most `limit` nodes, never one that a root reaches; a run that removes fewer
        leaves exactly the nodes that roots reach. */
    method Collect(lib: Lib, limit: int, ghost rank: map<Id, nat>) returns (removed: nat)
      requires Consistent(lib, store, rank) && RootsStored(store.content, roots)
      modifies this`store
      ensures Consistent(lib, store, rank) && RootsStored(store.content, roots)
      ensures removed <= (if limit <= 0 then DEFAULT_LIMIT else limit)
      ensures |store.content| + removed == |old(store.content)|
      ensures forall id :: id in store.content ==> id in old(store.content) && store.content[id] == old(store.content)[id]
      ensures forall id :: id in old(store.content) && Live(lib, old(store.content), roots, id) ==> id in store.content
      ensures removed < (if limit <= 0 then DEFAULT_LIMIT else limit) ==>
        forall id :: id in store.content <==> id in old(store.content) && Live(lib, old(store.content), roots, id)
    {
      hide Consistent, Live, RootsStored, Remove;
      var bound: nat := if limit <= 0 then DEFAULT_LIMIT else limit;
      ghost var s0 := store;
      ProgressStart(lib, s0, roots, rank);
      removed := 0;
      while removed < bound
        invariant removed <= bound
        invariant Progress(lib, s0, store, roots, rank, removed)
      {
        var ids := SelectUnreferenced(bound - removed);
        if ids == [] {
          ProgressDone(lib, s0, store, roots, rank, removed);
          break;
        }
        ghost var before := removed;
        for i := 0 to |ids|
          invariant removed == before + i
          invariant Progress(lib, s0, store, roots, rank, removed)
          invariant forall j :: i <= j < |ids| ==> Unreferenced(store, roots, ids[j])
        {
          ProgressStep(lib, s0, store, roots, rank, removed, ids[i]);
          forall j | i < j < |ids| ensures Unreferenced(Remove(store, ids[i]), roots, ids[j]) {
            StillUnreferenced(store, roots, ids[i], ids[j]);
          }
          store := Remove(store, ids[i]);
          removed := removed + 1;
        }
      }
    }
  }
}

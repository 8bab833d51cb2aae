/** copyPayload of internal/queue/maintenance.go: copies the graph below a payload's root from
    one database into another, children first. */
module Copy {
  import opened Basics
  import opened Content
  import opened Graph
  import opened RoundTrip

  /** The visit closure. `done` and the writer are threaded; `visiting` is the path above. */
  function Visit(lib: Lib, src: Table, w: Writer, finished: set<Id>, visiting: set<Id>, id: Id, depth: nat)
    : Result<(Writer, set<Id>)>
    decreases MAX_DEPTH + 1 - depth, 1
  {
    if id in finished then Ok((w, finished))
    else if depth > MAX_DEPTH || id in visiting then Err(Failed)
    else match ReadObject(lib, src, id)
      case Err(e) => Err(e)
      case Ok(raw) =>
        match DecodeNode(lib, raw)
        case None => Err(Failed)
        case Some(n) =>
          match VisitAll(lib, src, w, finished, visiting + {id}, NodeRefs(n), depth)
          case Err(e) => Err(e)
          case Ok((w1, finished1)) =>
            match Save(lib, w1, n)
            case Err(e) => Err(e)
            case Ok((w2, f)) => if f.ref != id then Err(Failed) else Ok((w2, finished1 + {id}))
  }

  function VisitAll(lib: Lib, src: Table, w: Writer, finished: set<Id>, visiting: set<Id>, ids: seq<Id>, depth: nat)
    : Result<(Writer, set<Id>)>
    requires depth <= MAX_DEPTH
    decreases MAX_DEPTH + 1 - depth, 0, |ids|
  {
    if ids == [] then Ok((w, finished)) else
    match Visit(lib, src, w, finished, visiting, ids[0], depth + 1)
    case Err(e) => Err(e)
    case Ok((w1, finished1)) => VisitAll(lib, src, w1, finished1, visiting, ids[1..], depth)
  }

  function CopyPayload(lib: Lib, src: Table, dst: Store, p: Payload): Result<(Store, Payload)> {
    match PayloadRoot(p)
    case Err(e) => Err(e)
    case Ok(root) =>
      if p.Plain? then
        match lib.parse(p.text)
        case None => Err(Failed)
        case Some(v) => EncodePayload(lib, dst, v)
      else
        match Visit(lib, src, Writer(dst, map[]), {}, {}, root, 0)
        case Err(e) => Err(e)
        case Ok((w, _)) => Ok((w.store, p))
  }

  // ---------------------------------------------------------------- correctness

  /** A path along references. */
  ghost predicate IsPath(lib: Lib, content: Table, path: seq<Id>) {
    && |path| > 0
    && forall i :: 0 <= i < |path| - 1 ==> path[i + 1] in RefsAt(lib, content, path[i])
  }

  ghost predicate Reaches(lib: Lib, content: Table, from: Id, to: Id) {
    exists path :: IsPath(lib, content, path) && path[0] == from && path[|path| - 1] == to
  }

  /** The first reference of u that leads to x is v. */
  ghost predicate Turn(lib: Lib, content: Table, u: Id, v: Id, x: Id) {
    var refs := RefsAt(lib, content, u);
    exists k :: 0 <= k < |refs| && refs[k] == v && forall j :: 0 <= j < k ==> !Reaches(lib, content, refs[j], x)
  }

  /** The path that takes the first reference which leads to its end, at every node. */
  ghost predicate IsFirst(lib: Lib, content: Table, path: seq<Id>) {
    IsPath(lib, content, path) && forall i :: 0 <= i < |path| - 1 ==> Turn(lib, content, path[i], path[i + 1], path[|path| - 1])
  }

  /** The first path has at most n nodes. */
  ghost predicate Near(lib: Lib, content: Table, from: Id, to: Id, n: int) {
    exists path :: IsFirst(lib, content, path) && path[0] == from && path[|path| - 1] == to && |path| <= n
  }

  lemma NearChild(lib: Lib, content: Table, id: Id, c: Id, x: Id, n: int)
    requires c in RefsAt(lib, content, id) && Turn(lib, content, id, c, x) && Near(lib, content, c, x, n)
    ensures Near(lib, content, id, x, n + 1)
  {
    hide RefsAt, Turn;
    var path :| IsFirst(lib, content, path) && path[0] == c && path[|path| - 1] == x && |path| <= n;
    var longer := [id] + path;
    forall i | 0 <= i < |longer| - 1
      ensures longer[i + 1] in RefsAt(lib, content, longer[i]) && Turn(lib, content, longer[i], longer[i + 1], x)
    {
      if i > 0 {
        assert path[(i - 1) + 1] in RefsAt(lib, content, path[i - 1]) && Turn(lib, content, path[i - 1], path[(i - 1) + 1], x);
      }
    }
    assert longer[|longer| - 1] == x;
    assert IsFirst(lib, content, longer);
  }

  lemma NearSelf(lib: Lib, content: Table, id: Id, n: int)
    requires n >= 1
    ensures Near(lib, content, id, id, n)
  {
    assert IsFirst(lib, content, [id]) && [id][0] == id;
  }

  // ---------------------------------------------------------------- what a copy does to bytes

  /** The destination holds the object that the source's node prints to, and that object has the node's id. */
  ghost predicate PrintedAt(lib: Lib, src: Table, dst: Table, id: Id) {
    && id in dst && NodeAt(lib, src, id).Some?
    && NodeBytes(lib, NodeAt(lib, src, id).value).Some? && RowBytes(lib, id, dst[id]) == NodeBytes(lib, NodeAt(lib, src, id).value)
  }

  /** What the nodes refer to is among them, and comes before them in the order. */
  ghost predicate Falling(lib: Lib, src: Table, ids: set<Id>, order: map<Id, nat>) {
    order.Keys == ids && forall x, c :: x in ids && c in RefsAt(lib, src, x) ==> c in ids && order[c] < order[x]
  }

  /** Such nodes, all of them printed in the destination. */
  ghost predicate Finished(lib: Lib, src: Table, dst: Table, ids: set<Id>, order: map<Id, nat>) {
    Falling(lib, src, ids, order) && forall x :: x in ids ==> PrintedAt(lib, src, dst, x)
  }

  lemma FinishedKept(lib: Lib, src: Table, a: Table, b: Table, ids: set<Id>, order: map<Id, nat>)
    requires Finished(lib, src, a, ids, order) && Keeps(a, b)
    ensures Finished(lib, src, b, ids, order)
  {
    hide NodeAt, NodeBytes, RowBytes, RefsAt;
    forall x | x in ids ensures PrintedAt(lib, src, b, x) {
      assert PrintedAt(lib, src, a, x);
    }
  }

  /** What Save wrote, or found, is the printed node. */
  lemma SaveWrote(lib: Lib, w: Writer, n: Node)
    requires ZlibLaw(lib) && KnownSound(lib, w) && Save(lib, w, n).Ok?
    ensures var (w', f) := Save(lib, w, n).value;
      && KnownSound(lib, w') && Keeps(w.store.content, w'.store.content)
      && NodeBytes(lib, n).Some? && f == Fragment([], lib.hash(NodeBytes(lib, n).value))
      && f.ref in w'.store.content && RowBytes(lib, f.ref, w'.store.content[f.ref]) == NodeBytes(lib, n)
  {
    hide NodeBytes, NodeRefs, RowBytes, Pack;
    var raw := NodeBytes(lib, n).value;
    if |raw| <= MAX_OBJECT_BYTES {
      PackUnpack(lib, raw);
    }
  }

  /** A visit that succeeds leaves the nodes below it printed in the destination, each reached within the depth
      that is left, and without a cycle. Nothing is asked of the source. */
  lemma {:induction false} VisitPrints(lib: Lib, src: Table, w: Writer, finished: set<Id>, visiting: set<Id>, id: Id, depth: nat, order: map<Id, nat>)
    returns (order': map<Id, nat>)
    requires ZlibLaw(lib) && KnownSound(lib, w) && Finished(lib, src, w.store.content, finished, order)
    requires Visit(lib, src, w, finished, visiting, id, depth).Ok?
    ensures var (w', finished') := Visit(lib, src, w, finished, visiting, id, depth).value;
      && KnownSound(lib, w') && Keeps(w.store.content, w'.store.content)
      && finished <= finished' && id in finished'
      && Finished(lib, src, w'.store.content, finished', order')
      && forall x :: x in finished' && x !in finished ==> Near(lib, src, id, x, MAX_DEPTH + 1 - depth)
    decreases MAX_DEPTH + 1 - depth, 1
  {
    hide KnownSound, ZlibLaw, Keeps, Save, DecodeNode, NodeBytes, NodeRefs, RowBytes, Finished, Near, Found;
    if id in finished {
      order' := order;
      KeepsReflexive(w.store.content);
    } else {
      var n := NodeAt(lib, src, id).value;
      var refs := NodeRefs(n);
      assert refs == RefsAt(lib, src, id);
      var order1 := VisitAllPrints(lib, src, w, finished, visiting + {id}, refs, depth, order);
      var (w1, finished1) := VisitAll(lib, src, w, finished, visiting + {id}, refs, depth).value;
      SaveWrote(lib, w1, n);
      var w2 := Save(lib, w1, n).value.0;
      KeepsTransitive(w.store.content, w1.store.content, w2.store.content);
      FinishedKept(lib, src, w1.store.content, w2.store.content, finished1, order1);
      order' := FinishedGrows(lib, src, w2.store.content, finished1, order1, id);
      forall x | x in finished1 + {id} && x !in finished ensures Near(lib, src, id, x, MAX_DEPTH + 1 - depth) {
        if x in finished1 {
          FoundNear(lib, src, id, x, MAX_DEPTH - depth);
        } else {
          NearSelf(lib, src, id, MAX_DEPTH + 1 - depth);
        }
      }
    }
  }

  /** The first reference that leads to x does so by a first path of at most n nodes. */
  ghost predicate Found(lib: Lib, src: Table, refs: seq<Id>, x: Id, n: int) {
    exists k :: FoundAt(lib, src, refs, k, x, n)
  }

  ghost predicate FoundAt(lib: Lib, src: Table, refs: seq<Id>, k: int, x: Id, n: int) {
    0 <= k < |refs| && Near(lib, src, refs[k], x, n) && forall j :: 0 <= j < k ==> !Reaches(lib, src, refs[j], x)
  }

  lemma FoundNear(lib: Lib, src: Table, id: Id, x: Id, n: int)
    requires Found(lib, src, RefsAt(lib, src, id), x, n)
    ensures Near(lib, src, id, x, n + 1)
  {
    hide Near, Reaches, RefsAt;
    var refs := RefsAt(lib, src, id);
    var k :| FoundAt(lib, src, refs, k, x, n);
    assert Turn(lib, src, id, refs[k], x);
    NearChild(lib, src, id, refs[k], x, n);
  }

  lemma FinishedGrows(lib: Lib, src: Table, dst: Table, ids: set<Id>, order: map<Id, nat>, id: Id) returns (order': map<Id, nat>)
    requires Finished(lib, src, dst, ids, order) && PrintedAt(lib, src, dst, id)
    requires forall c :: c in RefsAt(lib, src, id) ==> c in ids
    ensures Finished(lib, src, dst, ids + {id}, order')
  {
    hide NodeAt, NodeBytes, RowBytes, RefsAt;
    if id in ids {
      order' := order;
      assert ids + {id} == ids;
    } else {
      order' := order[id := Above(RefsAt(lib, src, id), order)];
      forall x, c | x in ids + {id} && c in RefsAt(lib, src, x) ensures c in ids + {id} && order'[c] < order'[x] {
        if x in ids {
          assert c in ids && order[c] < order[x];
        }
      }
    }
  }

  lemma {:induction false} VisitAllPrints(lib: Lib, src: Table, w: Writer, finished: set<Id>, visiting: set<Id>, ids: seq<Id>, depth: nat, order: map<Id, nat>)
    returns (order': map<Id, nat>)
    requires ZlibLaw(lib) && KnownSound(lib, w) && Finished(lib, src, w.store.content, finished, order) && depth <= MAX_DEPTH
    requires VisitAll(lib, src, w, finished, visiting, ids, depth).Ok?
    ensures var (w', finished') := VisitAll(lib, src, w, finished, visiting, ids, depth).value;
      && KnownSound(lib, w') && Keeps(w.store.content, w'.store.content)
      && finished <= finished' && (forall c :: c in ids ==> c in finished')
      && Finished(lib, src, w'.store.content, finished', order')
      && forall x :: x in finished' && x !in finished ==> Found(lib, src, ids, x, MAX_DEPTH - depth)
    decreases MAX_DEPTH + 1 - depth, 0, |ids|
  {
    hide KnownSound, ZlibLaw, Keeps, Finished, Near, Visit, Found;
    if ids == [] {
      order' := order;
      KeepsReflexive(w.store.content);
    } else {
      var order1 := VisitPrints(lib, src, w, finished, visiting, ids[0], depth + 1, order);
      var (w1, finished1) := Visit(lib, src, w, finished, visiting, ids[0], depth + 1).value;
      order' := VisitAllPrints(lib, src, w1, finished1, visiting, ids[1..], depth, order1);
      var (w2, finished2) := VisitAll(lib, src, w1, finished1, visiting, ids[1..], depth).value;
      KeepsTransitive(w.store.content, w1.store.content, w2.store.content);
      forall x | x in finished2 && x !in finished ensures Found(lib, src, ids, x, MAX_DEPTH - depth) {
        if x in finished1 {
          FoundFirst(lib, src, ids, x, MAX_DEPTH - depth);
        } else {
          FinishedReached(lib, src, w1.store.content, finished1, order1, ids[0]);
          FoundLater(lib, src, ids, x, MAX_DEPTH - depth);
        }
      }
    }
  }

  lemma FoundFirst(lib: Lib, src: Table, ids: seq<Id>, x: Id, n: int)
    requires ids != [] && Near(lib, src, ids[0], x, n)
    ensures Found(lib, src, ids, x, n)
  {
    hide Near, Reaches;
    assert FoundAt(lib, src, ids, 0, x, n);
  }

  lemma FoundLater(lib: Lib, src: Table, ids: seq<Id>, x: Id, n: int)
    requires ids != [] && Found(lib, src, ids[1..], x, n) && !Reaches(lib, src, ids[0], x)
    ensures Found(lib, src, ids, x, n)
  {
    hide Near, Reaches;
    var k :| FoundAt(lib, src, ids[1..], k, x, n);
    forall j | 0 <= j < k + 1 ensures !Reaches(lib, src, ids[j], x) {
      if j > 0 {
        assert ids[j] == ids[1..][j - 1];
      }
    }
    assert FoundAt(lib, src, ids, k + 1, x, n);
  }

  lemma FinishedReached(lib: Lib, src: Table, dst: Table, ids: set<Id>, order: map<Id, nat>, id: Id)
    requires Finished(lib, src, dst, ids, order) && id in ids
    ensures forall x :: Reaches(lib, src, id, x) ==> x in ids
  {
    hide RefsAt, PrintedAt, Reaches;
    ClosedReached(lib, src, ids, id);
  }

  /** Whatever the source holds, a copy that succeeds has printed exactly the nodes that the root reaches into
      the destination, each under its own id and each with a first path of at most 257 nodes; a node reads back
      as it was if and only if it is stable. */
  lemma CopyPrints(lib: Lib, src: Table, dst: Store, p: Payload) returns (ids: set<Id>, order: map<Id, nat>)
    requires ZlibLaw(lib) && p.Manifest? && CopyPayload(lib, src, dst, p).Ok?
    ensures var (dst', p') := CopyPayload(lib, src, dst, p).value;
      && p' == p && Keeps(dst.content, dst'.content)
      && (forall id :: id in ids <==> Reaches(lib, src, p.root, id))
      && Finished(lib, src, dst'.content, ids, order)
      && forall id :: id in ids ==>
           && Near(lib, src, p.root, id, MAX_DEPTH + 1)
           && (NodeAt(lib, dst'.content, id) == NodeAt(lib, src, id) <==> Stable(lib, NodeAt(lib, src, id).value))
  {
    hide Visit, ZlibLaw, Keeps, NodeAt, NodeRefs, NodeBytes, RowBytes, DecodeNode, Near, Reaches, PrintedAt, RefsAt, Stable;
    var w := Writer(dst, map[]);
    order := VisitPrints(lib, src, w, {}, {}, p.root, 0, map[]);
    var (w', finished) := Visit(lib, src, w, {}, {}, p.root, 0).value;
    ids := finished;
    ClosedReached(lib, src, ids, p.root);
    FinishedPresent(lib, src, w'.store.content, ids, order);
    forall id | id in ids
      ensures Reaches(lib, src, p.root, id)
      ensures NodeAt(lib, w'.store.content, id) == NodeAt(lib, src, id) <==> Stable(lib, NodeAt(lib, src, id).value)
    {
      NearReaches(lib, src, p.root, id, MAX_DEPTH + 1);
      PrintedStable(lib, src, w'.store.content, id);
    }
  }

  lemma NearReaches(lib: Lib, content: Table, from: Id, to: Id, n: int)
    requires Near(lib, content, from, to, n)
    ensures Reaches(lib, content, from, to)
  {
    hide RefsAt;
  }

  lemma PrintedStable(lib: Lib, src: Table, dst: Table, id: Id)
    requires PrintedAt(lib, src, dst, id)
    ensures NodeAt(lib, dst, id) == NodeAt(lib, src, id) <==> Stable(lib, NodeAt(lib, src, id).value)
  {
    hide NodeBytes, DecodeNode, RowBytes;
  }

  /** A closed set holds everything its members reach. */
  lemma {:induction false} ClosedHoldsPath(lib: Lib, content: Table, ids: set<Id>, path: seq<Id>)
    requires forall p, c :: p in ids && c in RefsAt(lib, content, p) ==> c in ids
    requires IsPath(lib, content, path) && path[0] in ids
    ensures path[|path| - 1] in ids
    decreases |path|
  {
    if |path| > 1 {
      assert path[0 + 1] in RefsAt(lib, content, path[0]);
      assert IsPath(lib, content, path[1..]) by {
        forall i | 0 <= i < |path[1..]| - 1 ensures path[1..][i + 1] in RefsAt(lib, content, path[1..][i]) {
          assert path[(i + 1) + 1] in RefsAt(lib, content, path[i + 1]);
        }
      }
      ClosedHoldsPath(lib, content, ids, path[1..]);
    }
  }

  lemma ClosedReached(lib: Lib, src: Table, ids: set<Id>, root: Id)
    requires forall p, c :: p in ids && c in RefsAt(lib, src, p) ==> c in ids
    requires root in ids
    ensures forall id :: Reaches(lib, src, root, id) ==> id in ids
  {
    hide RefsAt;
    forall id | Reaches(lib, src, root, id) ensures id in ids {
      var path :| IsPath(lib, src, path) && path[0] == root && path[|path| - 1] == id;
      ClosedHoldsPath(lib, src, ids, path);
    }
  }

  /** Along a path the order falls. */
  lemma {:induction false} PathFalls(lib: Lib, src: Table, ids: set<Id>, order: map<Id, nat>, path: seq<Id>)
    requires Falling(lib, src, ids, order)
    requires IsPath(lib, src, path) && path[0] in ids
    ensures path[|path| - 1] in ids && order[path[|path| - 1]] + |path| - 1 <= order[path[0]]
    decreases |path|
  {
    hide RefsAt;
    if |path| > 1 {
      assert path[0 + 1] in RefsAt(lib, src, path[0]);
      var rest := path[1..];
      forall i | 0 <= i < |rest| - 1 ensures rest[i + 1] in RefsAt(lib, src, rest[i]) {
        assert path[(i + 1) + 1] in RefsAt(lib, src, path[i + 1]);
      }
      PathFalls(lib, src, ids, order, rest);
    }
  }

  /** Copying a graph with a cycle below the root is refused. */
  lemma CycleRefused(lib: Lib, src: Table, dst: Store, p: Payload, cycle: seq<Id>)
    requires ZlibLaw(lib) && p.Manifest? && IsPath(lib, src, cycle) && |cycle| > 1 && cycle[0] == cycle[|cycle| - 1]
    requires Reaches(lib, src, p.root, cycle[0])
    ensures CopyPayload(lib, src, dst, p).Err?
  {
    hide CopyPayload, RefsAt, PrintedAt, Near;
    if CopyPayload(lib, src, dst, p).Ok? {
      var ids, order := CopyPrints(lib, src, dst, p);
      PathFalls(lib, src, ids, order, cycle);
      assert false;
    }
  }

  // ---------------------------------------------------------------- what a copy keeps

  /** The nodes read back as they are when they are printed. Of a source row that holds what its node prints to
      this is so, and of any other that can be copied unless the two are different objects with one hash. */
  ghost predicate AllStable(lib: Lib, content: Table, ids: set<Id>) {
    forall id :: id in ids && NodeAt(lib, content, id).Some? ==> Stable(lib, NodeAt(lib, content, id).value)
  }

  /** What prints to an object with this id reads back from it. */
  ghost predicate Rehashed(lib: Lib, id: Id, n: Node) {
    NodeBytes(lib, n).Some? && lib.hash(NodeBytes(lib, n).value) == id ==> Stable(lib, n)
  }

  /** No row and the printed form of its node are two objects with one hash; rows may be unreadable, or not in
      printed form, or lead nowhere. */
  ghost predicate Checked(lib: Lib, content: Table) {
    forall id :: id in content && RowNode(lib, id, content[id]).Some? ==>
      Rehashed(lib, id, RowNode(lib, id, content[id]).value)
  }

  /** Which is so unless two different objects have one hash. */
  lemma CollisionFreeIsChecked(lib: Lib, content: Table)
    requires forall id :: id in content && RowNode(lib, id, content[id]).Some? ==>
      var raw, printed := RowBytes(lib, id, content[id]).value, NodeBytes(lib, RowNode(lib, id, content[id]).value);
      printed.Some? && lib.hash(printed.value) == lib.hash(raw) ==> printed.value == raw
    ensures Checked(lib, content)
  {
    hide NodeBytes, DecodeNode, Unpack;
  }

  lemma CheckedIsStable(lib: Lib, src: Table, dst: Table, ids: set<Id>, order: map<Id, nat>)
    requires Checked(lib, src) && Finished(lib, src, dst, ids, order)
    ensures AllStable(lib, src, ids)
  {
    hide NodeBytes, DecodeNode, Unpack, RefsAt;
    forall id | id in ids && NodeAt(lib, src, id).Some? ensures Stable(lib, NodeAt(lib, src, id).value) {
      assert PrintedAt(lib, src, dst, id);
      assert Rehashed(lib, id, NodeAt(lib, src, id).value);
    }
  }

  /** Every id of `ids` is in both tables with the same node, and `ids` is closed. */
  ghost predicate Copied(lib: Lib, src: Table, dst: Table, ids: set<Id>) {
    forall id :: id in ids ==>
      && id in dst && NodeAt(lib, src, id).Some?
      && NodeAt(lib, dst, id) == NodeAt(lib, src, id)
      && forall c :: c in NodeRefs(NodeAt(lib, src, id).value) ==> c in ids
  }

  lemma CopiedAgrees(lib: Lib, src: Table, dst: Table, ids: set<Id>)
    requires Copied(lib, src, dst, ids)
    ensures Agree(lib, src, dst, ids)
  {
  }

  lemma CopiedKept(lib: Lib, src: Table, dst: Table, dst': Table, ids: set<Id>)
    requires Copied(lib, src, dst, ids) && Keeps(dst, dst')
    ensures Copied(lib, src, dst', ids)
  {
    forall id | id in ids ensures NodeAt(lib, dst', id) == NodeAt(lib, src, id) {
      NodeKept(lib, dst, dst', id);
    }
  }

  lemma {:induction false} VisitMore(lib: Lib, src: Table, w: Writer, finished: set<Id>, visiting: set<Id>, id: Id, depth: nat)
    requires Visit(lib, src, w, finished, visiting, id, depth).Ok?
    ensures finished <= Visit(lib, src, w, finished, visiting, id, depth).value.1
    decreases MAX_DEPTH + 1 - depth, 1
  {
    hide Save, NodeRefs, ReadObject, DecodeNode;
    if id !in finished {
      VisitAllMore(lib, src, w, finished, visiting + {id}, NodeRefs(DecodeNode(lib, ReadObject(lib, src, id).value).value), depth);
    }
  }

  lemma {:induction false} VisitAllMore(lib: Lib, src: Table, w: Writer, finished: set<Id>, visiting: set<Id>, ids: seq<Id>, depth: nat)
    requires depth <= MAX_DEPTH && VisitAll(lib, src, w, finished, visiting, ids, depth).Ok?
    ensures finished <= VisitAll(lib, src, w, finished, visiting, ids, depth).value.1
    decreases MAX_DEPTH + 1 - depth, 0, |ids|
  {
    hide Visit;
    if ids != [] {
      VisitMore(lib, src, w, finished, visiting, ids[0], depth + 1);
      var (w1, finished1) := Visit(lib, src, w, finished, visiting, ids[0], depth + 1).value;
      VisitAllMore(lib, src, w1, finished1, visiting, ids[1..], depth);
    }
  }

  lemma {:induction false} VisitOk(lib: Lib, src: Table, w: Writer, finished: set<Id>, visiting: set<Id>, id: Id, depth: nat, rank: map<Id, nat>, all: set<Id>)
    returns (rank': map<Id, nat>)
    requires HashLaw(lib) && ZlibLaw(lib) && WriterOk(lib, w, rank) && Copied(lib, src, w.store.content, finished)
    requires Visit(lib, src, w, finished, visiting, id, depth).Ok?
    requires AllStable(lib, src, all) && Visit(lib, src, w, finished, visiting, id, depth).value.1 <= all
    ensures var (w', finished') := Visit(lib, src, w, finished, visiting, id, depth).value;
      && WriterOk(lib, w', rank')
      && Keeps(w.store.content, w'.store.content)
      && finished <= finished' && id in finished'
      && Copied(lib, src, w'.store.content, finished')
    decreases MAX_DEPTH + 1 - depth, 1
  {
    hide WriterOk, HashLaw, ZlibLaw, Keeps, Save, DecodeNode, NodeBytes, NodeRefs, RowBytes, Stable, Copied;
    if id in finished {
      rank' := rank;
      KeepsReflexive(w.store.content);
    } else {
      var n := NodeAt(lib, src, id).value;
      assert id in all;
      var rank1 := VisitAllOk(lib, src, w, finished, visiting + {id}, NodeRefs(n), depth, rank, all);
      var (w1, finished1) := VisitAll(lib, src, w, finished, visiting + {id}, NodeRefs(n), depth).value;
      assert ReadsBackAs(lib, n, n) by {
        StableReadsBack(lib, n);
      }
      CopiedPresent(lib, src, w1.store.content, finished1);
      rank' := SaveAs(lib, w1, n, n, rank1);
      var w2 := Save(lib, w1, n).value.0;
      KeepsTransitive(w.store.content, w1.store.content, w2.store.content);
      CopiedKept(lib, src, w1.store.content, w2.store.content, finished1);
      CopiedGrows(lib, src, w2.store.content, finished1, id);
    }
  }

  lemma SaveRef(lib: Lib, w: Writer, n: Node)
    requires Save(lib, w, n).Ok?
    ensures NodeBytes(lib, n).Some? && Save(lib, w, n).value.1.ref == lib.hash(NodeBytes(lib, n).value)
  {
    hide NodeBytes, NodeRefs, RowBytes, Pack;
  }

  lemma SaveGrows(lib: Lib, w: Writer, n: Node)
    requires Save(lib, w, n).Ok?
    ensures Keeps(w.store.content, Save(lib, w, n).value.0.store.content)
  {
    hide NodeBytes, NodeRefs, RowBytes, Pack;
  }

  lemma StableReadsBack(lib: Lib, n: Node)
    requires Stable(lib, n)
    ensures ReadsBackAs(lib, n, n)
  {
  }

  lemma CopiedPresent(lib: Lib, src: Table, dst: Table, ids: set<Id>)
    requires Copied(lib, src, dst, ids)
    ensures forall id :: id in ids ==> id in dst
  {
  }

  lemma CopiedGrows(lib: Lib, src: Table, dst: Table, ids: set<Id>, id: Id)
    requires Copied(lib, src, dst, ids) && id in dst
    requires NodeAt(lib, src, id).Some? && NodeAt(lib, dst, id) == NodeAt(lib, src, id)
    requires forall c :: c in NodeRefs(NodeAt(lib, src, id).value) ==> c in ids
    ensures Copied(lib, src, dst, ids + {id})
  {
    hide NodeAt, NodeRefs;
  }

  lemma {:induction false} VisitAllOk(lib: Lib, src: Table, w: Writer, finished: set<Id>, visiting: set<Id>, ids: seq<Id>, depth: nat, rank: map<Id, nat>, all: set<Id>)
    returns (rank': map<Id, nat>)
    requires HashLaw(lib) && ZlibLaw(lib) && WriterOk(lib, w, rank) && Copied(lib, src, w.store.content, finished)
    requires depth <= MAX_DEPTH && VisitAll(lib, src, w, finished, visiting, ids, depth).Ok?
    requires AllStable(lib, src, all) && VisitAll(lib, src, w, finished, visiting, ids, depth).value.1 <= all
    ensures var (w', finished') := VisitAll(lib, src, w, finished, visiting, ids, depth).value;
      && WriterOk(lib, w', rank')
      && Keeps(w.store.content, w'.store.content)
      && finished <= finished'
      && (forall c :: c in ids ==> c in finished')
      && Copied(lib, src, w'.store.content, finished')
    decreases MAX_DEPTH + 1 - depth, 0, |ids|
  {
    hide WriterOk, HashLaw, ZlibLaw, AllStable, Keeps, Copied, Visit;
    if ids == [] {
      rank' := rank;
      KeepsReflexive(w.store.content);
    } else {
      var (w1, finished1) := Visit(lib, src, w, finished, visiting, ids[0], depth + 1).value;
      VisitAllMore(lib, src, w1, finished1, visiting, ids[1..], depth);
      var rank1 := VisitOk(lib, src, w, finished, visiting, ids[0], depth + 1, rank, all);
      rank' := VisitAllOk(lib, src, w1, finished1, visiting, ids[1..], depth, rank1, all);
      var w2 := VisitAll(lib, src, w1, finished1, visiting, ids[1..], depth).value.0;
      KeepsTransitive(w.store.content, w1.store.content, w2.store.content);
    }
  }

  /** A successful copy of a manifest reads back under every id that the root reaches as it was, if and only if
      those nodes are stable. If they are, the destination stays consistent, and every copied fragment, the
      payload included, restores to the same text in both. What was there is unchanged in any case. */
  lemma CopyPreserves(lib: Lib, src: Table, dst: Store, p: Payload, rank: map<Id, nat>)
    returns (rank': map<Id, nat>, ids: set<Id>)
    requires HashLaw(lib) && ZlibLaw(lib) && Consistent(lib, dst, rank)
    requires p.Manifest? && CopyPayload(lib, src, dst, p).Ok?
    ensures var (dst', p') := CopyPayload(lib, src, dst, p).value;
      && p' == p
      && Keeps(dst.content, dst'.content)
      && (forall id :: id in ids <==> Reaches(lib, src, p.root, id))
      && ((forall id :: id in ids ==> id in dst'.content && NodeAt(lib, dst'.content, id) == NodeAt(lib, src, id)) <==> AllStable(lib, src, ids))
      && (AllStable(lib, src, ids) ==>
            && Consistent(lib, dst', rank')
            && (forall id, visiting, depth: nat :: id in ids ==>
                  Render(lib, dst'.content, Fragment([], id), visiting, depth)
                    == Render(lib, src, Fragment([], id), visiting, depth))
            && DecodePayload(lib, dst'.content, p) == DecodePayload(lib, src, p))
  {
    hide Visit, AllSound, EdgesExact, Resolved, Ranked, HashLaw, ZlibLaw, Keeps, NodeAt, NodeRefs, Render, Agree, Reaches, Near, RefsAt,
         PrintedAt, Stable;
    var w := Writer(dst, map[]);
    var order;
    ids, order := CopyPrints(lib, src, dst, p);
    FinishedPresent(lib, src, CopyPayload(lib, src, dst, p).value.0.content, ids, order);
    rank' := rank;
    if AllStable(lib, src, ids) {
      var (w', finished) := Visit(lib, src, w, {}, {}, p.root, 0).value;
      rank' := CopyConsistent(lib, src, dst, p, rank, ids);
      forall id, visiting, depth: nat | id in ids
        ensures Render(lib, w'.store.content, Fragment([], id), visiting, depth)
             == Render(lib, src, Fragment([], id), visiting, depth)
      {
        RenderAgrees(lib, src, w'.store.content, ids, Fragment([], id), visiting, depth);
      }
      assert Reaches(lib, src, p.root, p.root) by { ReachesSelf(lib, src, p.root); }
    }
  }

  lemma FinishedPresent(lib: Lib, src: Table, dst: Table, ids: set<Id>, order: map<Id, nat>)
    requires Finished(lib, src, dst, ids, order)
    ensures forall id :: id in ids ==> id in dst && NodeAt(lib, src, id).Some?
  {
    hide NodeAt, RowBytes, NodeBytes, RefsAt;
  }

  lemma ReachesSelf(lib: Lib, content: Table, id: Id)
    ensures Reaches(lib, content, id, id)
  {
    assert IsPath(lib, content, [id]) && [id][0] == id;
  }

  lemma CopyConsistent(lib: Lib, src: Table, dst: Store, p: Payload, rank: map<Id, nat>, ids: set<Id>) returns (rank': map<Id, nat>)
    requires HashLaw(lib) && ZlibLaw(lib) && Consistent(lib, dst, rank) && AllStable(lib, src, ids)
    requires p.Manifest? && CopyPayload(lib, src, dst, p).Ok?
    requires forall id :: id in ids <==> Reaches(lib, src, p.root, id)
    ensures var dst' := CopyPayload(lib, src, dst, p).value.0; Consistent(lib, dst', rank') && Agree(lib, src, dst'.content, ids)
  {
    hide Visit, AllSound, EdgesExact, Resolved, Ranked, HashLaw, ZlibLaw, Keeps, NodeAt, NodeRefs, Reaches, Near, RefsAt, PrintedAt, Stable;
    var w := Writer(dst, map[]);
    var (w', finished) := Visit(lib, src, w, {}, {}, p.root, 0).value;
    var all, _ := CopyPrints(lib, src, dst, p);
    assert finished <= ids by {
      var _ := VisitPrints(lib, src, w, {}, {}, p.root, 0, map[]);
      forall id | id in finished ensures Reaches(lib, src, p.root, id) {
        NearReaches(lib, src, p.root, id, MAX_DEPTH + 1);
      }
    }
    rank' := VisitOk(lib, src, w, {}, {}, p.root, 0, rank, ids);
    CopiedReached(lib, src, w'.store.content, finished, p.root);
    assert finished == ids;
    CopiedAgrees(lib, src, w'.store.content, ids);
  }

  lemma CopiedReached(lib: Lib, src: Table, dst: Table, ids: set<Id>, root: Id)
    requires Copied(lib, src, dst, ids) && root in ids
    ensures forall id :: Reaches(lib, src, root, id) ==> id in ids
  {
    hide NodeRefs, Reaches;
    forall q, c | q in ids && c in RefsAt(lib, src, q) ensures c in ids {
      assert RefsAt(lib, src, q) == NodeRefs(NodeAt(lib, src, q).value);
    }
    ClosedReached(lib, src, ids, root);
  }

  // ---------------------------------------------------------------- legacy payloads

  lemma {:induction false} Utf8KeysKept(lib: Lib, v: Value)
    requires Utf8Keys(lib, v)
    ensures KeysKept(lib, v)
    decreases v
  {
    match v
    case Obj(fields) =>
      forall i | 0 <= i < |fields| ensures KeysKept(lib, fields[i].value) {
        Utf8KeysKept(lib, fields[i].value);
      }
    case Arr(items) =>
      forall i | 0 <= i < |items| ensures KeysKept(lib, items[i]) {
        Utf8KeysKept(lib, items[i]);
      }
    case _ =>
  }

  /** A payload stored as plain JSON is copied into nodes; what is restored is equal JSON. */
  lemma CopyPlain(lib: Lib, src: Table, dst: Store, p: Payload, rank: map<Id, nat>) returns (rank': map<Id, nat>)
    requires Lawful(lib) && ParseLaw(lib) && Consistent(lib, dst, rank)
    requires p.Plain? && CopyPayload(lib, src, dst, p).Ok?
    ensures var (dst', p') := CopyPayload(lib, src, dst, p).value;
      && Consistent(lib, dst', rank')
      && Keeps(dst.content, dst'.content)
      && p'.Manifest? && p'.root in dst'.content
      && (DecodePayload(lib, dst'.content, p').Some? ==>
            JsonEqual(lib, p.text, DecodePayload(lib, dst'.content, p').value))
      && (DecodePayload(lib, dst'.content, p').Some? <==> PayloadDepth(lib, lib.parse(p.text).value) <= MAX_DEPTH + 1)
  {
    hide AllSound, EdgesExact, Resolved, Ranked, HashLaw, ZlibLaw, NodeLaw, TextLaw, Keeps, Render, EncodePayload;
    var v := lib.parse(p.text).value;
    rank' := EncodePayloadOk(lib, dst, v, rank);
    Utf8KeysKept(lib, v);
    RestoredExact(lib, v);
  }
}

/** When copyPayload succeeds: on every graph whose nodes are readable and whose paths are short enough, into
    every database that holds no other object under the same id. */
module Copyable {
  import opened Basics
  import opened Content
  import opened Graph
  import opened RoundTrip
  import opened Copy

  // ---------------------------------------------------------------- graphs that can be copied

  /** The node prints to an object with this id. */
  ghost predicate Printed(lib: Lib, id: Id, n: Node) {
    && NodeBytes(lib, n).Some? && |NodeBytes(lib, n).value| <= MAX_OBJECT_BYTES
    && lib.hash(NodeBytes(lib, n).value) == id
  }

  /** Every node below `id` can be read, and no path from `depth` on is longer than 256. */
  ghost predicate Fits(lib: Lib, src: Table, id: Id, depth: nat)
    decreases MAX_DEPTH + 1 - depth
  {
    && depth <= MAX_DEPTH
    && NodeAt(lib, src, id).Some? && Printed(lib, id, NodeAt(lib, src, id).value)
    && forall c :: c in RefsAt(lib, src, id) ==> Fits(lib, src, c, depth + 1)
  }

  lemma {:induction false} FitsHigher(lib: Lib, src: Table, id: Id, depth: nat, d: nat)
    requires Fits(lib, src, id, depth) && d <= depth
    ensures Fits(lib, src, id, d)
    decreases MAX_DEPTH + 1 - depth
  {
    hide NodeAt, RefsAt, Printed;
    forall c | c in RefsAt(lib, src, id) ensures Fits(lib, src, c, d + 1) {
      FitsHigher(lib, src, c, depth + 1, d + 1);
    }
  }

  lemma FitsBelow(lib: Lib, src: Table, id: Id, depth: nat)
    requires Fits(lib, src, id, depth)
    ensures depth <= MAX_DEPTH && forall c :: c in RefsAt(lib, src, id) ==> Fits(lib, src, c, depth + 1)
  {
    hide NodeAt, RefsAt, Printed;
  }

  /** The depth at which the graph below `id` just fits. */
  lemma {:induction false} Deepest(lib: Lib, src: Table, id: Id, d: nat) returns (e: nat)
    requires Fits(lib, src, id, d)
    ensures Fits(lib, src, id, e) && !Fits(lib, src, id, e + 1)
    decreases MAX_DEPTH + 1 - d
  {
    hide Fits;
    FitsBelow(lib, src, id, d);
    if Fits(lib, src, id, d + 1) {
      e := Deepest(lib, src, id, d + 1);
    } else {
      e := d;
    }
  }

  /** Below `id` there is less than below `x`. */
  ghost predicate Shallower(lib: Lib, src: Table, x: Id, id: Id) {
    exists e: nat :: Fits(lib, src, id, e) && !Fits(lib, src, x, e)
  }

  /** There is less below a child than below its parent, so a graph that fits has no cycle. */
  lemma ChildShallower(lib: Lib, src: Table, p: Id, c: Id, depth: nat)
    requires Fits(lib, src, p, depth) && c in RefsAt(lib, src, p)
    ensures Shallower(lib, src, p, c)
    ensures forall x :: Shallower(lib, src, x, p) ==> Shallower(lib, src, x, c)
  {
    hide Fits;
    var e := Deepest(lib, src, p, depth);
    FitsBelow(lib, src, p, e);
    forall x | Shallower(lib, src, x, p) ensures Shallower(lib, src, x, c) {
      var f: nat :| Fits(lib, src, p, f) && !Fits(lib, src, x, f);
      FitsBelow(lib, src, p, f);
      FitsHigher(lib, src, c, f + 1, f);
    }
  }

  // ---------------------------------------------------------------- when a copy succeeds

  /** Where both tables have an id, the destination has the object that the source node prints to. */
  ghost predicate NoClash(lib: Lib, src: Table, content: Table) {
    forall id :: id in content && NodeAt(lib, src, id).Some? ==> Holds(lib, src, content, id)
  }

  ghost predicate Holds(lib: Lib, src: Table, content: Table, id: Id) {
    && id in content && NodeAt(lib, src, id).Some?
    && RowBytes(lib, id, content[id]) == NodeBytes(lib, NodeAt(lib, src, id).value)
  }

  ghost predicate WriterFree(lib: Lib, src: Table, w: Writer) {
    KnownSound(lib, w) && Anchored(w.store) && NoClash(lib, src, w.store.content)
  }

  lemma SaveFits(lib: Lib, src: Table, w: Writer, id: Id)
    requires ZlibLaw(lib) && WriterFree(lib, src, w)
    requires NodeAt(lib, src, id).Some? && Printed(lib, id, NodeAt(lib, src, id).value)
    ensures var r := Save(lib, w, NodeAt(lib, src, id).value); r.Ok? && r.value.1.ref == id && WriterFree(lib, src, r.value.0)
  {
    hide NodeAt, NodeBytes, NodeRefs, RowBytes, Pack;
    var raw := NodeBytes(lib, NodeAt(lib, src, id).value).value;
    if id in w.store.content {
      assert Holds(lib, src, w.store.content, id);
    } else {
      assert id !in w.known;
      forall c ensures (id, c) !in w.store.edges {
      }
      PackUnpack(lib, raw);
    }
    var w' := Save(lib, w, NodeAt(lib, src, id).value).value.0;
    forall x | x in w'.store.content && NodeAt(lib, src, x).Some? ensures Holds(lib, src, w'.store.content, x) {
      if x in w.store.content {
        assert Holds(lib, src, w.store.content, x);
      }
    }
  }

  /** A path of two nodes or more. */
  ghost predicate Below(lib: Lib, src: Table, u: Id, v: Id) {
    exists path :: IsPath(lib, src, path) && |path| > 1 && path[0] == u && path[|path| - 1] == v
  }

  /** What can be copied once the nodes of `finished` are: the others below `id` can be read and printed, and the
      first path to each has room. */
  ghost predicate Passable(lib: Lib, src: Table, finished: set<Id>, id: Id, depth: int) {
    forall x :: Reaches(lib, src, id, x) && x !in finished ==>
      NodeAt(lib, src, x).Some? && Printed(lib, x, NodeAt(lib, src, x).value) && Near(lib, src, id, x, MAX_DEPTH + 1 - depth)
  }

  ghost predicate NoCycle(lib: Lib, src: Table, id: Id) {
    forall x :: Reaches(lib, src, id, x) ==> !Below(lib, src, x, x)
  }

  lemma ReachesOn(lib: Lib, src: Table, u: Id, c: Id, x: Id)
    requires c in RefsAt(lib, src, u) && Reaches(lib, src, c, x)
    ensures Reaches(lib, src, u, x) && Below(lib, src, u, x)
  {
    hide RefsAt;
    var path :| IsPath(lib, src, path) && path[0] == c && path[|path| - 1] == x;
    var longer := [u] + path;
    forall i | 0 <= i < |longer| - 1 ensures longer[i + 1] in RefsAt(lib, src, longer[i]) {
      if i > 0 {
        assert path[(i - 1) + 1] in RefsAt(lib, src, path[i - 1]);
      }
    }
    assert IsPath(lib, src, longer);
  }

  lemma BelowOn(lib: Lib, src: Table, v: Id, u: Id, c: Id)
    requires c in RefsAt(lib, src, u) && (v == u || Below(lib, src, v, u))
    ensures Below(lib, src, v, c)
  {
    hide RefsAt;
    var path := [v];
    if v != u {
      path :| IsPath(lib, src, path) && |path| > 1 && path[0] == v && path[|path| - 1] == u;
    }
    var longer := path + [c];
    forall i | 0 <= i < |longer| - 1 ensures longer[i + 1] in RefsAt(lib, src, longer[i]) {
      if i < |path| - 1 {
        assert path[i + 1] in RefsAt(lib, src, path[i]);
      }
    }
    assert IsPath(lib, src, longer);
  }

  /** The first path to a node that no earlier reference leads to goes through this one. */
  lemma NearTail(lib: Lib, src: Table, id: Id, k: nat, x: Id, n: int)
    requires k < |RefsAt(lib, src, id)| && Reaches(lib, src, RefsAt(lib, src, id)[k], x)
    requires forall j :: 0 <= j < k ==> !Reaches(lib, src, RefsAt(lib, src, id)[j], x)
    requires Near(lib, src, id, x, n) && id != x
    ensures Near(lib, src, RefsAt(lib, src, id)[k], x, n - 1)
  {
    hide RefsAt, Reaches;
    var path :| IsFirst(lib, src, path) && path[0] == id && path[|path| - 1] == x && |path| <= n;
    var tail := path[1..];
    forall i | 0 <= i < |tail| - 1 ensures tail[i + 1] in RefsAt(lib, src, tail[i]) && Turn(lib, src, tail[i], tail[i + 1], x) {
      assert path[(i + 1) + 1] in RefsAt(lib, src, path[i + 1]) && Turn(lib, src, path[i + 1], path[(i + 1) + 1], x);
    }
    assert IsFirst(lib, src, tail);
    assert Reaches(lib, src, path[1], x) by { PathReaches(lib, src, tail); }
    assert Turn(lib, src, path[0], path[0 + 1], x);
  }

  lemma PathReaches(lib: Lib, src: Table, path: seq<Id>)
    requires IsPath(lib, src, path)
    ensures Reaches(lib, src, path[0], path[|path| - 1])
  {
    hide RefsAt;
  }

  lemma ChildPassable(lib: Lib, src: Table, finished: set<Id>, id: Id, k: nat, depth: int)
    requires k < |RefsAt(lib, src, id)| && Passable(lib, src, finished, id, depth) && NoCycle(lib, src, id)
    requires forall j, x :: 0 <= j < k && Reaches(lib, src, RefsAt(lib, src, id)[j], x) ==> x in finished
    ensures Passable(lib, src, finished, RefsAt(lib, src, id)[k], depth + 1) && NoCycle(lib, src, RefsAt(lib, src, id)[k])
  {
    hide RefsAt, Reaches, Near, Below, NodeAt, Printed;
    var c := RefsAt(lib, src, id)[k];
    forall x | Reaches(lib, src, c, x) ensures Reaches(lib, src, id, x) && Below(lib, src, id, x) {
      ReachesOn(lib, src, id, c, x);
    }
    ReachesSelf(lib, src, id);
    forall x | Reaches(lib, src, c, x) && x !in finished ensures Near(lib, src, c, x, MAX_DEPTH + 1 - (depth + 1)) {
      NearTail(lib, src, id, k, x, MAX_DEPTH + 1 - depth);
    }
  }

  lemma NearHasRoom(lib: Lib, src: Table, id: Id, x: Id, n: int)
    requires Near(lib, src, id, x, n)
    ensures n >= 1
  {
    hide RefsAt;
  }

  lemma {:induction false} VisitPasses(lib: Lib, src: Table, w: Writer, finished: set<Id>, visiting: set<Id>, id: Id, depth: nat, order: map<Id, nat>)
    requires ZlibLaw(lib) && WriterFree(lib, src, w) && Finished(lib, src, w.store.content, finished, order)
    requires Passable(lib, src, finished, id, depth) && NoCycle(lib, src, id)
    requires forall v :: v in visiting ==> Below(lib, src, v, id)
    ensures var r := Visit(lib, src, w, finished, visiting, id, depth); r.Ok? && WriterFree(lib, src, r.value.0)
    decreases MAX_DEPTH + 1 - depth, 1
  {
    hide WriterFree, ZlibLaw, Finished, Save, NodeRefs, Reaches, Near, Below, Printed, NoCycle, DecodeNode, RowBytes;
    if id !in finished {
      ReachesSelf(lib, src, id);
      NearHasRoom(lib, src, id, id, MAX_DEPTH + 1 - depth);
      assert id !in visiting by { NoCycleAt(lib, src, id); }
      var n := NodeAt(lib, src, id).value;
      var refs := NodeRefs(n);
      assert refs == RefsAt(lib, src, id);
      forall v, c | v in visiting + {id} && c in refs ensures Below(lib, src, v, c) {
        BelowOn(lib, src, v, id, c);
      }
      assert refs[0..] == refs;
      VisitAllPasses(lib, src, w, finished, visiting + {id}, id, 0, depth, order);
      var w1 := VisitAll(lib, src, w, finished, visiting + {id}, refs, depth).value.0;
      SaveFits(lib, src, w1, id);
    }
  }

  lemma NoCycleAt(lib: Lib, src: Table, id: Id)
    requires NoCycle(lib, src, id)
    ensures !Below(lib, src, id, id)
  {
    hide Below, Reaches;
    ReachesSelf(lib, src, id);
  }

  lemma {:induction false} VisitAllPasses(lib: Lib, src: Table, w: Writer, finished: set<Id>, visiting: set<Id>, id: Id, k: nat, depth: nat, order: map<Id, nat>)
    requires ZlibLaw(lib) && WriterFree(lib, src, w) && Finished(lib, src, w.store.content, finished, order) && depth <= MAX_DEPTH
    requires Passable(lib, src, finished, id, depth) && NoCycle(lib, src, id)
    requires k <= |RefsAt(lib, src, id)| && forall j :: 0 <= j < k ==> RefsAt(lib, src, id)[j] in finished
    requires forall v, c :: v in visiting && c in RefsAt(lib, src, id) ==> Below(lib, src, v, c)
    ensures var r := VisitAll(lib, src, w, finished, visiting, RefsAt(lib, src, id)[k..], depth); r.Ok? && WriterFree(lib, src, r.value.0)
    decreases MAX_DEPTH + 1 - depth, 0, |RefsAt(lib, src, id)| - k
  {
    hide WriterFree, ZlibLaw, Finished, Visit, Reaches, Near, Below, Printed, NoCycle, RefsAt, NodeAt;
    var refs := RefsAt(lib, src, id);
    if k < |refs| {
      assert refs[k..][0] == refs[k] && refs[k..][1..] == refs[k + 1..];
      forall j, x | 0 <= j < k && Reaches(lib, src, refs[j], x) ensures x in finished {
        FinishedReached(lib, src, w.store.content, finished, order, refs[j]);
      }
      ChildPassable(lib, src, finished, id, k, depth);
      VisitPasses(lib, src, w, finished, visiting, refs[k], depth + 1, order);
      assert KnownSound(lib, w) by { FreeSound(lib, src, w); }
      var order1 := VisitPrints(lib, src, w, finished, visiting, refs[k], depth + 1, order);
      var (w1, finished1) := Visit(lib, src, w, finished, visiting, refs[k], depth + 1).value;
      VisitAllPasses(lib, src, w1, finished1, visiting, id, k + 1, depth, order1);
    }
  }

  lemma FreeSound(lib: Lib, src: Table, w: Writer)
    requires WriterFree(lib, src, w)
    ensures KnownSound(lib, w)
  {
    hide KnownSound, NoClash;
  }

  /** A manifest can be copied, into any database where no id stands for two objects, if and only if the nodes
      that its root reaches can be read and print to objects with their ids, are not on a cycle, and have each
      a first path of at most 257 nodes. */
  lemma CopyExactly(lib: Lib, src: Table, dst: Store, p: Payload)
    requires ZlibLaw(lib) && Anchored(dst) && NoClash(lib, src, dst.content)
    requires p.Manifest? && p.version == 2 && |p.root| == 64
    ensures CopyPayload(lib, src, dst, p).Ok? <==> Passable(lib, src, {}, p.root, 0) && NoCycle(lib, src, p.root)
  {
    hide Visit, ZlibLaw, Finished, Reaches, Near, Below, Printed, NoClash, NodeAt, RefsAt, PrintedAt;
    if Passable(lib, src, {}, p.root, 0) && NoCycle(lib, src, p.root) {
      var w := Writer(dst, map[]);
      assert Finished(lib, src, dst.content, {}, map[]) by { NothingFinished(lib, src, dst.content); }
      assert WriterFree(lib, src, w);
      VisitPasses(lib, src, w, {}, {}, p.root, 0, map[]);
    }
    if CopyPayload(lib, src, dst, p).Ok? {
      var ids, order := CopyPrints(lib, src, dst, p);
      var content := CopyPayload(lib, src, dst, p).value.0.content;
      FinishedPresent(lib, src, content, ids, order);
      forall x | x in ids ensures !Below(lib, src, x, x) && Printed(lib, x, NodeAt(lib, src, x).value) {
        NotBelowItself(lib, src, content, ids, order, x);
        FinishedAt(lib, src, content, ids, order, x);
        PrintedAtPrints(lib, src, content, x);
      }
    }
  }

  lemma NothingFinished(lib: Lib, src: Table, dst: Table)
    ensures Finished(lib, src, dst, {}, map[])
  {
  }

  lemma FinishedAt(lib: Lib, src: Table, dst: Table, ids: set<Id>, order: map<Id, nat>, x: Id)
    requires Finished(lib, src, dst, ids, order) && x in ids
    ensures PrintedAt(lib, src, dst, x)
  {
    hide PrintedAt, RefsAt;
  }

  lemma NotBelowItself(lib: Lib, src: Table, dst: Table, ids: set<Id>, order: map<Id, nat>, x: Id)
    requires Finished(lib, src, dst, ids, order) && x in ids
    ensures !Below(lib, src, x, x)
  {
    hide RefsAt, PrintedAt;
    if path :| IsPath(lib, src, path) && |path| > 1 && path[0] == x && path[|path| - 1] == x {
      PathFalls(lib, src, ids, order, path);
    }
  }

  lemma PrintedAtPrints(lib: Lib, src: Table, dst: Table, id: Id)
    requires PrintedAt(lib, src, dst, id)
    ensures Printed(lib, id, NodeAt(lib, src, id).value)
  {
    hide NodeBytes, DecodeNode;
  }

  // ---------------------------------------------------------------- graphs with short paths only

  /** If all paths have room then the first ones do. */
  lemma {:induction false} FitsNear(lib: Lib, src: Table, id: Id, depth: nat, x: Id)
    requires Fits(lib, src, id, depth) && Reaches(lib, src, id, x)
    ensures Near(lib, src, id, x, MAX_DEPTH + 1 - depth)
    ensures NodeAt(lib, src, x).Some? && Printed(lib, x, NodeAt(lib, src, x).value)
    decreases MAX_DEPTH + 1 - depth
  {
    hide Near, Reaches, NodeAt, Printed, RefsAt;
    if id == x {
      NearSelf(lib, src, id, MAX_DEPTH + 1 - depth);
    } else {
      var refs := RefsAt(lib, src, id);
      var k := FirstLeading(lib, src, id, x);
      assert refs[k] in refs;
      FitsNear(lib, src, refs[k], depth + 1, x);
      assert Turn(lib, src, id, refs[k], x);
      NearChild(lib, src, id, refs[k], x, MAX_DEPTH - depth);
    }
  }

  /** The first reference that leads to another node. */
  lemma FirstLeading(lib: Lib, src: Table, id: Id, x: Id) returns (k: nat)
    requires Reaches(lib, src, id, x) && id != x
    ensures var refs := RefsAt(lib, src, id);
      k < |refs| && Reaches(lib, src, refs[k], x) && forall j :: 0 <= j < k ==> !Reaches(lib, src, refs[j], x)
  {
    hide RefsAt, Reaches;
    var refs := RefsAt(lib, src, id);
    var m := SomeLeading(lib, src, id, x);
    k := 0;
    while !Reaches(lib, src, refs[k], x)
      invariant k <= m < |refs| && forall j :: 0 <= j < k ==> !Reaches(lib, src, refs[j], x)
      decreases m - k
    {
      k := k + 1;
    }
  }

  lemma SomeLeading(lib: Lib, src: Table, id: Id, x: Id) returns (m: nat)
    requires Reaches(lib, src, id, x) && id != x
    ensures m < |RefsAt(lib, src, id)| && Reaches(lib, src, RefsAt(lib, src, id)[m], x)
  {
    hide RefsAt;
    var path :| IsPath(lib, src, path) && path[0] == id && path[|path| - 1] == x;
    hide Reaches;
    assert path[0 + 1] in RefsAt(lib, src, id);
    var tail := path[1..];
    forall i | 0 <= i < |tail| - 1 ensures tail[i + 1] in RefsAt(lib, src, tail[i]) {
      assert path[(i + 1) + 1] in RefsAt(lib, src, path[i + 1]);
    }
    PathReaches(lib, src, tail);
    m :| 0 <= m < |RefsAt(lib, src, id)| && RefsAt(lib, src, id)[m] == path[1];
  }

  lemma {:induction false} PathShallower(lib: Lib, src: Table, path: seq<Id>, depth: nat)
    requires IsPath(lib, src, path) && |path| > 1 && Fits(lib, src, path[0], depth)
    ensures Shallower(lib, src, path[0], path[|path| - 1])
    decreases |path|
  {
    hide Fits, RefsAt, Shallower;
    var n := |path| - 1;
    assert path[(n - 1) + 1] in RefsAt(lib, src, path[n - 1]);
    if |path| == 2 {
      ChildShallower(lib, src, path[0], path[1], depth);
    } else {
      var front := path[..n];
      forall i | 0 <= i < |front| - 1 ensures front[i + 1] in RefsAt(lib, src, front[i]) {
        assert path[i + 1] in RefsAt(lib, src, path[i]);
      }
      PathShallower(lib, src, front, depth);
      var e := ShallowerFits(lib, src, path[0], path[n - 1]);
      ChildShallower(lib, src, path[n - 1], path[n], e);
    }
  }

  lemma ShallowerFits(lib: Lib, src: Table, x: Id, id: Id) returns (e: nat)
    requires Shallower(lib, src, x, id)
    ensures Fits(lib, src, id, e)
  {
    hide Fits;
    e :| Fits(lib, src, id, e) && !Fits(lib, src, x, e);
  }

  lemma {:induction false} FitsReached(lib: Lib, src: Table, path: seq<Id>, depth: nat)
    requires IsPath(lib, src, path) && Fits(lib, src, path[0], depth)
    ensures Fits(lib, src, path[|path| - 1], 0)
    decreases |path|
  {
    hide RefsAt, Printed, NodeAt;
    if |path| == 1 {
      FitsHigher(lib, src, path[0], depth, 0);
    } else {
      assert path[0 + 1] in RefsAt(lib, src, path[0]);
      var tail := path[1..];
      forall i | 0 <= i < |tail| - 1 ensures tail[i + 1] in RefsAt(lib, src, tail[i]) {
        assert path[(i + 1) + 1] in RefsAt(lib, src, path[i + 1]);
      }
      FitsReached(lib, src, tail, depth + 1);
    }
  }

  lemma FitsPasses(lib: Lib, src: Table, root: Id)
    requires Fits(lib, src, root, 0)
    ensures Passable(lib, src, {}, root, 0) && NoCycle(lib, src, root)
  {
    hide Fits, RefsAt, Near, NodeAt, Printed;
    forall x | Reaches(lib, src, root, x)
      ensures Near(lib, src, root, x, MAX_DEPTH + 1) && NodeAt(lib, src, x).Some? && Printed(lib, x, NodeAt(lib, src, x).value)
      ensures !Below(lib, src, x, x)
    {
      FitsNear(lib, src, root, 0, x);
      var to :| IsPath(lib, src, to) && to[0] == root && to[|to| - 1] == x;
      FitsReached(lib, src, to, 0);
      if path :| IsPath(lib, src, path) && |path| > 1 && path[0] == x && path[|path| - 1] == x {
        PathShallower(lib, src, path, 0);
      }
    }
  }

  /** A manifest whose graph has only paths that fit is copied into every database without a clash. */
  lemma CopySucceeds(lib: Lib, src: Table, dst: Store, p: Payload)
    requires ZlibLaw(lib) && Anchored(dst) && NoClash(lib, src, dst.content)
    requires p.Manifest? && p.version == 2 && |p.root| == 64 && Fits(lib, src, p.root, 0)
    ensures CopyPayload(lib, src, dst, p).Ok?
  {
    hide Fits, CopyPayload, NoClash, ZlibLaw, Passable, NoCycle;
    FitsPasses(lib, src, p.root);
    CopyExactly(lib, src, dst, p);
  }

  // ---------------------------------------------------------------- what is refused

  /** No node refers to more than one other. */
  ghost predicate Thin(lib: Lib, src: Table) {
    forall id :: |RefsAt(lib, src, id)| <= 1
  }

  lemma SavePrinted(lib: Lib, w: Writer, n: Node, id: Id)
    requires Save(lib, w, n).Ok? && Save(lib, w, n).value.1.ref == id
    ensures Printed(lib, id, n)
  {
    hide NodeBytes, NodeRefs, RowBytes, Pack;
  }

  /** In such a table only what fits is copied; where nodes are shared a long path can end early in one that
      was copied before. */
  lemma {:induction false} LineFits(lib: Lib, src: Table, w: Writer, visiting: set<Id>, id: Id, depth: nat)
    requires Thin(lib, src) && Visit(lib, src, w, {}, visiting, id, depth).Ok?
    ensures Fits(lib, src, id, depth)
    decreases MAX_DEPTH + 1 - depth
  {
    hide Save, NodeRefs, RowBytes, DecodeNode, Printed;
    var n := NodeAt(lib, src, id).value;
    var refs := NodeRefs(n);
    assert refs == RefsAt(lib, src, id);
    var w1 := VisitAll(lib, src, w, {}, visiting + {id}, refs, depth).value.0;
    SavePrinted(lib, w1, n, id);
    if refs != [] {
      LineFits(lib, src, w, visiting + {id}, refs[0], depth + 1);
      assert refs == [refs[0]];
    }
  }

  /** A root is copied only if it prints to an object with its own id. */
  lemma RootPrinted(lib: Lib, src: Table, dst: Store, p: Payload)
    requires p.Manifest? && CopyPayload(lib, src, dst, p).Ok?
    ensures NodeAt(lib, src, p.root).Some? && Printed(lib, p.root, NodeAt(lib, src, p.root).value)
  {
    hide Save, NodeRefs, RowBytes, DecodeNode, Printed;
    var n := NodeAt(lib, src, p.root).value;
    var w1 := VisitAll(lib, src, Writer(dst, map[]), {}, {} + {p.root}, NodeRefs(n), 0).value.0;
    SavePrinted(lib, w1, n, p.root);
  }

  // ---------------------------------------------------------------- encoded values

  /** Levels of nodes below the value. Unlike restoring, copying counts the chunks of a string. */
  function CopyDepth(lib: Lib, v: Value): nat
    decreases v, 1
  {
    if !IsStored(lib, v) then 0 else
    match v
    case Scalar(_) => 0
    case Str(_) => 2
    case Obj(fields) => 1 + FieldsCopyDepth(lib, fields)
    case Arr(items) => 1 + ItemsCopyDepth(lib, items)
  }

  function FieldsCopyDepth(lib: Lib, fields: seq<Field>): nat
    decreases fields, 0
  {
    if fields == [] then 0 else Max(CopyDepth(lib, fields[0].value), FieldsCopyDepth(lib, fields[1..]))
  }

  function ItemsCopyDepth(lib: Lib, items: seq<Value>): nat
    decreases items, 0
  {
    if items == [] then 0 else Max(CopyDepth(lib, items[0]), ItemsCopyDepth(lib, items[1..]))
  }

  lemma {:induction false} FieldsCopyDepthIs(lib: Lib, fields: seq<Field>, k: nat)
    ensures FieldsCopyDepth(lib, fields) <= k <==> forall i :: 0 <= i < |fields| ==> CopyDepth(lib, fields[i].value) <= k
  {
    hide CopyDepth;
    if fields != [] {
      FieldsCopyDepthIs(lib, fields[1..], k);
      assert forall i :: 0 < i < |fields| ==> fields[i] == fields[1..][i - 1];
      assert forall i :: 0 <= i < |fields[1..]| ==> fields[1..][i] == fields[i + 1];
    }
  }

  lemma {:induction false} ItemsCopyDepthIs(lib: Lib, items: seq<Value>, k: nat)
    ensures ItemsCopyDepth(lib, items) <= k <==> forall i :: 0 <= i < |items| ==> CopyDepth(lib, items[i]) <= k
  {
    hide CopyDepth;
    if items != [] {
      ItemsCopyDepthIs(lib, items[1..], k);
      assert forall i :: 0 < i < |items| ==> items[i] == items[1..][i - 1];
      assert forall i :: 0 <= i < |items[1..]| ==> items[1..][i] == items[i + 1];
    }
  }

  /** The graph of the fragment fits exactly as deep as the value's levels leave room for. */
  ghost predicate Sized(lib: Lib, content: Table, f: Fragment, v: Value) {
    && (f.ref != [] <==> IsStored(lib, v))
    && (f.ref != [] ==> f.ref in content)
    && (f.ref != [] ==> forall d: nat :: Fits(lib, content, f.ref, d) <==> d + CopyDepth(lib, v) <= MAX_DEPTH + 1)
  }

  lemma {:induction false} FitsAgrees(lib: Lib, a: Table, b: Table, ids: set<Id>, id: Id, d: nat)
    requires Agree(lib, a, b, ids) && id in ids
    ensures Fits(lib, a, id, d) <==> Fits(lib, b, id, d)
    decreases MAX_DEPTH + 1 - d
  {
    hide NodeRefs, RowBytes, DecodeNode, Printed;
    if d <= MAX_DEPTH && NodeAt(lib, a, id).Some? {
      assert RefsAt(lib, a, id) == RefsAt(lib, b, id) == NodeRefs(NodeAt(lib, a, id).value);
      forall c | c in RefsAt(lib, a, id) ensures Fits(lib, a, c, d + 1) <==> Fits(lib, b, c, d + 1) {
        FitsAgrees(lib, a, b, ids, c, d + 1);
      }
    }
  }

  lemma SizedKept(lib: Lib, a: Table, b: Table, f: Fragment, v: Value)
    requires AllSound(lib, a) && Resolved(lib, a) && Keeps(a, b) && Sized(lib, a, f, v)
    ensures Sized(lib, b, f, v)
  {
    hide Fits, CopyDepth, IsStored, AllSound, Resolved;
    KeepsAgrees(lib, a, b);
    forall d: nat | f.ref != [] ensures Fits(lib, b, f.ref, d) <==> d + CopyDepth(lib, v) <= MAX_DEPTH + 1 {
      FitsAgrees(lib, a, b, a.Keys, f.ref, d);
    }
  }

  /** A saved node that reads back as it is fits where its children do. */
  lemma SavedFits(lib: Lib, w: Writer, n: Node, d: nat)
    requires Save(lib, w, n).Ok?
    requires var (w', f) := Save(lib, w, n).value; NodeAt(lib, w'.store.content, f.ref) == Some(n)
    ensures var (w', f) := Save(lib, w, n).value;
      Fits(lib, w'.store.content, f.ref, d) <==>
        d <= MAX_DEPTH && forall c :: c in NodeRefs(n) ==> Fits(lib, w'.store.content, c, d + 1)
  {
    hide NodeRefs, RowBytes, DecodeNode, NodeBytes, Pack;
    SaveRef(lib, w, n);
    var (w', f) := Save(lib, w, n).value;
    assert RefsAt(lib, w'.store.content, f.ref) == NodeRefs(n);
  }

  // ---- strings

  /** Chunks have nothing below them. */
  ghost predicate Leaves(lib: Lib, content: Table, chunks: seq<Id>) {
    forall c :: c in chunks ==> c in content && forall d: nat :: Fits(lib, content, c, d) <==> d <= MAX_DEPTH
  }

  lemma LeavesKept(lib: Lib, a: Table, b: Table, chunks: seq<Id>)
    requires AllSound(lib, a) && Resolved(lib, a) && Keeps(a, b) && Leaves(lib, a, chunks)
    ensures Leaves(lib, b, chunks)
  {
    hide Fits, AllSound, Resolved;
    KeepsAgrees(lib, a, b);
    forall c, d: nat | c in chunks ensures Fits(lib, b, c, d) <==> d <= MAX_DEPTH {
      FitsAgrees(lib, a, b, a.Keys, c, d);
    }
  }

  lemma ChunkFits(lib: Lib, w: Writer, data: Bytes, rank: map<Id, nat>)
    requires Storage(lib) && WriterOk(lib, w, rank)
    requires Save(lib, w, Node(KBytes, data, [], [], [])).Ok?
    ensures var (w', f) := Save(lib, w, Node(KBytes, data, [], [], [])).value; Leaves(lib, w'.store.content, [f.ref])
  {
    hide WriterOk, Save, NodeAt, Fits, Keeps, HashLaw, ZlibLaw, KeyLaw, NodeLaw;
    var n := Node(KBytes, data, [], [], []);
    var _ := SaveKeeps(lib, w, n, rank);
    assert NodeRefs(n) == [];
    var (w', f) := Save(lib, w, n).value;
    forall d: nat ensures Fits(lib, w'.store.content, f.ref, d) <==> d <= MAX_DEPTH {
      SavedFits(lib, w, n, d);
    }
  }

  lemma {:induction false} ChunksFit(lib: Lib, w: Writer, data: Bytes, rank: map<Id, nat>)
    requires Storage(lib) && WriterOk(lib, w, rank) && SaveChunks(lib, w, data).Ok?
    ensures var (w', chunks) := SaveChunks(lib, w, data).value;
      Leaves(lib, w'.store.content, chunks) && (chunks == [] <==> data == [])
    decreases |data|
  {
    hide KnownSound, EdgesExact, AllSound, Resolved, Ranked, Save, NodeAt, Fits, Keeps, HashLaw, ZlibLaw, KeyLaw, NodeLaw, Savable;
    if data != [] {
      var n := Min(|data|, CHUNK_BYTES);
      var node := Node(KBytes, data[..n], [], [], []);
      ChunkFits(lib, w, data[..n], rank);
      assert Savable(lib, node) && NodeRefs(node) == [] by { ChunkSavable(lib, data[..n]); }
      var rank1 := SaveKeeps(lib, w, node, rank);
      var (w1, f) := Save(lib, w, node).value;
      ChunksFit(lib, w1, data[n..], rank1);
      var _ := SaveChunksOk(lib, w1, data[n..], rank1);
      LeavesKept(lib, w1.store.content, SaveChunks(lib, w1, data[n..]).value.0.store.content, [f.ref]);
    }
  }

  lemma ChunkSavable(lib: Lib, data: Bytes)
    ensures var n := Node(KBytes, data, [], [], []); Savable(lib, n) && NodeRefs(n) == []
  {
  }

  lemma StringFits(lib: Lib, w: Writer, s: Bytes, key: Bytes, rank: map<Id, nat>)
    requires Lawful(lib) && WriterOk(lib, w, rank) && StringValue(lib, w, s, key).Ok? && |s| >= INLINE_STRING
    ensures var (w', f) := StringValue(lib, w, s, key).value;
      forall d: nat :: Fits(lib, w'.store.content, f.ref, d) <==> d + 2 <= MAX_DEPTH + 1
  {
    hide KnownSound, EdgesExact, AllSound, Resolved, Ranked, Save, Fits, Keeps, HashLaw, ZlibLaw, KeyLaw, TextLaw, NodeLaw,
         HexDecode, HexEncode, SaveChunks, NodeAt, NodeRefs, ReadChunks;
    var hex := IsHexField(s, key);
    var data := if hex then HexDecode(s).value else s;
    assert data != [];
    var rank1 := SaveChunksOk(lib, w, data, rank);
    ChunksFit(lib, w, data, rank);
    var (w1, chunks) := SaveChunks(lib, w, data).value;
    var node := Node(if hex then KHex else KString, [], [], [], chunks);
    StringNodePrintable(lib, node);
    var _ := SaveKeeps(lib, w1, node, rank1);
    var (w2, f) := Save(lib, w1, node).value;
    LeavesKept(lib, w1.store.content, w2.store.content, chunks);
    ChunkRefs(node);
    forall d: nat ensures Fits(lib, w2.store.content, f.ref, d) <==> d + 2 <= MAX_DEPTH + 1 {
      SavedFits(lib, w1, node, d);
      assert chunks[0] in NodeRefs(node) || chunks[0] == [];
      LeafFits(lib, w2.store.content, chunks, d);
    }
  }

  lemma LeafFits(lib: Lib, content: Table, chunks: seq<Id>, d: nat)
    requires Leaves(lib, content, chunks) && chunks != []
    ensures (forall c :: c in chunks ==> Fits(lib, content, c, d + 1)) <==> d + 1 <= MAX_DEPTH
  {
    hide Fits;
    assert chunks[0] in chunks;
  }

  lemma ChunkRefs(n: Node)
    requires n.fields == [] && n.items == []
    ensures forall c :: c in NodeRefs(n) <==> c in n.chunks && c != []
  {
    assert FieldRefs(n.fields) + ItemRefs(n.items) + n.chunks == n.chunks;
  }

  // ---- containers

  ghost predicate SizedFields(lib: Lib, content: Table, members: seq<Member>, fields: seq<Field>) {
    |members| == |fields| && forall i :: 0 <= i < |fields| ==> Sized(lib, content, members[i].value, fields[i].value)
  }

  ghost predicate SizedItems(lib: Lib, content: Table, fragments: seq<Fragment>, items: seq<Value>) {
    |fragments| == |items| && forall i :: 0 <= i < |items| ==> Sized(lib, content, fragments[i], items[i])
  }

  /** A child that fits below depth d, or needs no node. */
  lemma ChildFits(lib: Lib, content: Table, f: Fragment, v: Value, d: nat)
    requires Sized(lib, content, f, v) && d <= MAX_DEPTH
    ensures (f.ref != [] ==> Fits(lib, content, f.ref, d + 1)) <==> CopyDepth(lib, v) <= MAX_DEPTH - d
  {
    hide Fits;
  }

  lemma FieldsFit(lib: Lib, content: Table, n: Node, fields: seq<Field>, d: nat)
    requires n == Node(KObject, [], n.fields, [], []) && SizedFields(lib, content, n.fields, fields) && d <= MAX_DEPTH
    ensures (forall c :: c in NodeRefs(n) ==> Fits(lib, content, c, d + 1)) <==> d + 1 + FieldsCopyDepth(lib, fields) <= MAX_DEPTH + 1
  {
    hide Fits, Sized, CopyDepth, FieldsCopyDepth;
    FieldsCopyDepthIs(lib, fields, MAX_DEPTH - d);
    var refs := FieldRefs(n.fields);
    assert refs + ItemRefs(n.items) + n.chunks == refs;
    forall i | 0 <= i < |fields|
      ensures (refs[i] != [] ==> Fits(lib, content, refs[i], d + 1)) <==> CopyDepth(lib, fields[i].value) <= MAX_DEPTH - d
      ensures refs[i] != [] ==> refs[i] in NodeRefs(n)
    {
      ChildFits(lib, content, n.fields[i].value, fields[i].value, d);
      assert refs[i] in refs;
    }
  }

  lemma ItemsFit(lib: Lib, content: Table, n: Node, items: seq<Value>, d: nat)
    requires n == Node(KArray, [], [], n.items, []) && SizedItems(lib, content, n.items, items) && d <= MAX_DEPTH
    ensures (forall c :: c in NodeRefs(n) ==> Fits(lib, content, c, d + 1)) <==> d + 1 + ItemsCopyDepth(lib, items) <= MAX_DEPTH + 1
  {
    hide Fits, Sized, CopyDepth, ItemsCopyDepth;
    ItemsCopyDepthIs(lib, items, MAX_DEPTH - d);
    var refs := ItemRefs(n.items);
    assert FieldRefs(n.fields) + refs + n.chunks == refs;
    forall i | 0 <= i < |items|
      ensures (refs[i] != [] ==> Fits(lib, content, refs[i], d + 1)) <==> CopyDepth(lib, items[i]) <= MAX_DEPTH - d
      ensures refs[i] != [] ==> refs[i] in NodeRefs(n)
    {
      ChildFits(lib, content, n.items[i], items[i], d);
      assert refs[i] in refs;
    }
  }

  /** The graph written for a value whose keys are kept can be copied exactly when its levels, chunks included,
      are not too many. */
  lemma {:induction false} EncodeSized(lib: Lib, w: Writer, v: Value, key: Bytes, rank: map<Id, nat>)
    requires Lawful(lib) && WellFormed(lib, v) && WriterOk(lib, w, rank) && KeysKept(lib, v)
    requires Encode(lib, w, v, key).Ok?
    ensures var (w', f) := Encode(lib, w, v, key).value; Sized(lib, w'.store.content, f, v)
    decreases v, 1
  {
    hide WriterOk, HashLaw, ZlibLaw, KeyLaw, TextLaw, NodeLaw, StringValue, Close, Keeps, DenotesFields, DenotesItems, Fits, Render, Expected;
    var _ := EncodeOk(lib, w, v, key, rank);
    if IsStored(lib, v) {
      match v
      case Scalar(_) =>
      case Str(s) => StringFits(lib, w, s, key, rank);
      case Obj(fields) =>
        var rank1 := EncodeFieldsOk(lib, w, fields, rank);
        var (w1, members) := EncodeFields(lib, w, fields).value;
        FieldsSized(lib, w, fields, rank);
        ObjectSized(lib, w1, fields, members, rank1);
      case Arr(items) =>
        var rank1 := EncodeItemsOk(lib, w, items, key, rank);
        var (w1, fragments) := EncodeItems(lib, w, items, key).value;
        ItemsSized(lib, w, items, key, rank);
        ArraySized(lib, w1, items, fragments, rank1);
    }
  }

  lemma ObjectSized(lib: Lib, w: Writer, fields: seq<Field>, members: seq<Member>, rank: map<Id, nat>)
    requires Lawful(lib) && WriterOk(lib, w, rank) && IsStored(lib, Obj(fields)) && KeysKept(lib, Obj(fields))
    requires DenotesFields(lib, w.store.content, members, fields) && SizedFields(lib, w.store.content, members, fields)
    requires Close(lib, w, Obj(fields), Node(KObject, [], members, [], [])).Ok?
    ensures var (w', f) := Close(lib, w, Obj(fields), Node(KObject, [], members, [], [])).value;
      forall d: nat :: Fits(lib, w'.store.content, f.ref, d) <==> d + CopyDepth(lib, Obj(fields)) <= MAX_DEPTH + 1
  {
    hide Denotes, HashLaw, ZlibLaw, TextLaw, NodeLaw, Save, NodeRefs, NodeBytes, KnownSound, AllSound, EdgesExact, Resolved,
         Ranked, Keeps, NodeAt, Json, IsStored, Printable, Fits, Sized, FieldsCopyDepth;
    var n := Node(KObject, [], members, [], []);
    FieldsClose(lib, w.store.content, n, fields);
    assert RereadFields(lib, members) == members by {
      assert forall i :: 0 <= i < |fields| ==> lib.utf8(members[i].key);
    }
    var _ := SaveKeeps(lib, w, n, rank);
    var (w', f) := Save(lib, w, n).value;
    forall i | 0 <= i < |fields| ensures Sized(lib, w'.store.content, members[i].value, fields[i].value) {
      SizedKept(lib, w.store.content, w'.store.content, members[i].value, fields[i].value);
    }
    forall d: nat ensures Fits(lib, w'.store.content, f.ref, d) <==> d + CopyDepth(lib, Obj(fields)) <= MAX_DEPTH + 1 {
      SavedFits(lib, w, n, d);
      if d <= MAX_DEPTH {
        FieldsFit(lib, w'.store.content, n, fields, d);
      }
    }
  }

  lemma ArraySized(lib: Lib, w: Writer, items: seq<Value>, fragments: seq<Fragment>, rank: map<Id, nat>)
    requires Lawful(lib) && WriterOk(lib, w, rank) && IsStored(lib, Arr(items))
    requires DenotesItems(lib, w.store.content, fragments, items) && SizedItems(lib, w.store.content, fragments, items)
    requires Close(lib, w, Arr(items), Node(KArray, [], [], fragments, [])).Ok?
    ensures var (w', f) := Close(lib, w, Arr(items), Node(KArray, [], [], fragments, [])).value;
      forall d: nat :: Fits(lib, w'.store.content, f.ref, d) <==> d + CopyDepth(lib, Arr(items)) <= MAX_DEPTH + 1
  {
    hide Denotes, HashLaw, ZlibLaw, KeyLaw, TextLaw, NodeLaw, Save, NodeRefs, NodeBytes, KnownSound, AllSound, EdgesExact, Resolved,
         Ranked, Keeps, NodeAt, Json, IsStored, Printable, Fits, Sized, ItemsCopyDepth;
    var n := Node(KArray, [], [], fragments, []);
    ItemsClose(lib, w.store.content, n, items);
    assert RereadFields(lib, []) == [];
    var _ := SaveKeeps(lib, w, n, rank);
    var (w', f) := Save(lib, w, n).value;
    forall i | 0 <= i < |items| ensures Sized(lib, w'.store.content, fragments[i], items[i]) {
      SizedKept(lib, w.store.content, w'.store.content, fragments[i], items[i]);
    }
    forall d: nat ensures Fits(lib, w'.store.content, f.ref, d) <==> d + CopyDepth(lib, Arr(items)) <= MAX_DEPTH + 1 {
      SavedFits(lib, w, n, d);
      if d <= MAX_DEPTH {
        ItemsFit(lib, w'.store.content, n, items, d);
      }
    }
  }

  lemma {:induction false} FieldsSized(lib: Lib, w: Writer, fields: seq<Field>, rank: map<Id, nat>)
    requires Lawful(lib) && WriterOk(lib, w, rank)
    requires forall i :: 0 <= i < |fields| ==> WellFormed(lib, fields[i].value) && KeysKept(lib, fields[i].value)
    requires EncodeFields(lib, w, fields).Ok?
    ensures var (w', members) := EncodeFields(lib, w, fields).value; SizedFields(lib, w'.store.content, members, fields)
    decreases fields, 0
  {
    hide Denotes, HashLaw, ZlibLaw, KeyLaw, TextLaw, NodeLaw, KnownSound, AllSound, EdgesExact, Resolved, Ranked, Keeps, Encode,
         Sized, KeysKept, WellFormed;
    if fields != [] {
      var v := fields[0].value;
      EncodeSized(lib, w, v, fields[0].name, rank);
      var rank1 := EncodeOk(lib, w, v, fields[0].name, rank);
      var (w1, f) := Encode(lib, w, v, fields[0].name).value;
      FieldsSized(lib, w1, fields[1..], rank1);
      var _ := EncodeFieldsOk(lib, w1, fields[1..], rank1);
      SizedKept(lib, w1.store.content, EncodeFields(lib, w1, fields[1..]).value.0.store.content, f, v);
    }
  }

  lemma {:induction false} ItemsSized(lib: Lib, w: Writer, items: seq<Value>, key: Bytes, rank: map<Id, nat>)
    requires Lawful(lib) && WriterOk(lib, w, rank)
    requires forall i :: 0 <= i < |items| ==> WellFormed(lib, items[i]) && KeysKept(lib, items[i])
    requires EncodeItems(lib, w, items, key).Ok?
    ensures var (w', fragments) := EncodeItems(lib, w, items, key).value; SizedItems(lib, w'.store.content, fragments, items)
    decreases items, 0
  {
    hide Denotes, HashLaw, ZlibLaw, KeyLaw, TextLaw, NodeLaw, KnownSound, AllSound, EdgesExact, Resolved, Ranked, Keeps, Encode,
         Sized, KeysKept, WellFormed;
    if items != [] {
      EncodeSized(lib, w, items[0], key, rank);
      var rank1 := EncodeOk(lib, w, items[0], key, rank);
      var (w1, f) := Encode(lib, w, items[0], key).value;
      ItemsSized(lib, w1, items[1..], key, rank1);
      var _ := EncodeItemsOk(lib, w1, items[1..], key, rank1);
      SizedKept(lib, w1.store.content, EncodeItems(lib, w1, items[1..], key).value.0.store.content, f, items[0]);
    }
  }

  // ---------------------------------------------------------------- the theorem

  function PayloadCopyDepth(lib: Lib, v: Value): nat {
    Max(1, CopyDepth(lib, v))
  }

  lemma PayloadSized(lib: Lib, s: Store, v: Value, rank: map<Id, nat>)
    requires Lawful(lib) && WellFormed(lib, v) && Consistent(lib, s, rank) && KeysKept(lib, v)
    requires EncodePayload(lib, s, v).Ok?
    ensures var (s', p) := EncodePayload(lib, s, v).value;
      p.Manifest? && (Fits(lib, s'.content, p.root, 0) <==> PayloadCopyDepth(lib, v) <= MAX_DEPTH + 1)
  {
    hide HashLaw, ZlibLaw, KeyLaw, TextLaw, NodeLaw, AllSound, EdgesExact, Resolved, Ranked, Keeps, Encode, Save, NodeAt, Fits, Render, CopyDepth;
    var w := Writer(s, map[]);
    EncodeSized(lib, w, v, [], rank);
    var rank1 := EncodeOk(lib, w, v, [], rank);
    var (w1, f) := Encode(lib, w, v, []).value;
    if f.ref == [] {
      var n := Node(KJson, f.json, [], [], []);
      assert RereadFields(lib, []) == [];
      var _ := SaveKeeps(lib, w1, n, rank1);
      assert NodeRefs(n) == [];
      SavedFits(lib, w1, n, 0);
      assert CopyDepth(lib, v) == 0 by { InlineHasNoDepth(lib, v); }
    }
  }

  lemma InlineHasNoDepth(lib: Lib, v: Value)
    requires !IsStored(lib, v)
    ensures CopyDepth(lib, v) == 0
  {
  }

  lemma ConsistentAnchored(lib: Lib, s: Store, rank: map<Id, nat>)
    requires Consistent(lib, s, rank)
    ensures Anchored(s)
  {
    hide AllSound, Resolved, Ranked, RowRefs;
    forall e | e in s.edges ensures e.0 in s.content {
      assert (e.0, e.1) in s.edges;
    }
  }

  lemma SoundIsStable(lib: Lib, content: Table, ids: set<Id>)
    requires AllSound(lib, content)
    ensures AllStable(lib, content, ids)
  {
    hide RowNode, Stable;
    forall id | id in ids && NodeAt(lib, content, id).Some? ensures Stable(lib, NodeAt(lib, content, id).value) {
      assert SoundRow(lib, id, content[id]);
    }
  }

  /** Every event that is accepted, keeps its keys and is not nested too deep can also be copied, into every
      database without a clash, and restores there to its JSON. */
  lemma StoredIsCopyable(lib: Lib, s: Store, v: Value, rank: map<Id, nat>, dst: Store, rank1: map<Id, nat>)
    requires Lawful(lib) && WellFormed(lib, v) && Consistent(lib, s, rank) && Consistent(lib, dst, rank1)
    requires EncodePayload(lib, s, v).Ok? && KeysKept(lib, v) && PayloadCopyDepth(lib, v) <= MAX_DEPTH + 1
    requires NoClash(lib, EncodePayload(lib, s, v).value.0.content, dst.content)
    ensures var (s', p) := EncodePayload(lib, s, v).value; var r := CopyPayload(lib, s'.content, dst, p);
      r.Ok? && r.value.1 == p && DecodePayload(lib, r.value.0.content, p) == Some(Json(lib, v))
  {
    hide HashLaw, ZlibLaw, KeyLaw, TextLaw, NodeLaw, AllSound, EdgesExact, Resolved, Ranked, Fits, Render, CopyDepth, EncodePayload,
         CopyPayload, DecodePayload, NoClash, KeysKept, IsStored, Keeps, Stable, Anchored, Reaches;
    var (s', p) := EncodePayload(lib, s, v).value;
    var _ := EncodePayloadOk(lib, s, v, rank);
    PayloadSized(lib, s, v, rank);
    ConsistentAnchored(lib, dst, rank1);
    CopySucceeds(lib, s'.content, dst, p);
    var _, ids := CopyPreserves(lib, s'.content, dst, p, rank1);
    SoundIsStable(lib, s'.content, ids);
    RestoredExact(lib, v);
    CopyCountsMore(lib, v);
  }

  lemma {:induction false} CopyCountsMore(lib: Lib, v: Value)
    ensures StoredDepth(lib, v) <= CopyDepth(lib, v)
    decreases v, 1
  {
    hide IsStored;
    match v
    case Obj(fields) => FieldsCountMore(lib, fields);
    case Arr(items) => ItemsCountMore(lib, items);
    case _ =>
  }

  lemma {:induction false} FieldsCountMore(lib: Lib, fields: seq<Field>)
    ensures FieldsDepth(lib, fields) <= FieldsCopyDepth(lib, fields)
    decreases fields, 0
  {
    if fields != [] {
      CopyCountsMore(lib, fields[0].value);
      FieldsCountMore(lib, fields[1..]);
    }
  }

  lemma {:induction false} ItemsCountMore(lib: Lib, items: seq<Value>)
    ensures ItemsDepth(lib, items) <= ItemsCopyDepth(lib, items)
    decreases items, 0
  {
    if items != [] {
      CopyCountsMore(lib, items[0]);
      ItemsCountMore(lib, items[1..]);
    }
  }
}

/** Invariants of the content tables, what saving a node keeps, and when two tables render
    a fragment alike. */
module Graph {
  import opened Basics
  import opened Content

  // ---------------------------------------------------------------- the invariant

  /** Writing the node out and reading it back gives the same node. */
  ghost predicate Stable(lib: Lib, n: Node) {
    NodeBytes(lib, n).Some? ==> DecodeNode(lib, NodeBytes(lib, n).value) == Some(n)
  }

  ghost predicate SoundRow(lib: Lib, id: Id, row: Row) {
    RowNode(lib, id, row).Some? && Stable(lib, RowNode(lib, id, row).value)
  }

  function RowRefs(lib: Lib, id: Id, row: Row): seq<Id> {
    match RowNode(lib, id, row)
    case None => []
    case Some(n) => NodeRefs(n)
  }

  /** The references of the node stored under `id`. */
  function RefsAt(lib: Lib, content: Table, id: Id): seq<Id> {
    if id in content then RowRefs(lib, id, content[id]) else []
  }

  ghost predicate AllSound(lib: Lib, content: Table) {
    forall id :: id in content ==> SoundRow(lib, id, content[id])
  }

  /** The edge table is exactly the references of the stored nodes. */
  ghost predicate EdgesExact(lib: Lib, s: Store) {
    forall p, c :: (p, c) in s.edges <==> c in RefsAt(lib, s.content, p)
  }

  /** Only stored nodes have edges. */
  ghost predicate Anchored(s: Store) {
    forall e :: e in s.edges ==> e.0 in s.content
  }

  ghost predicate Resolved(lib: Lib, content: Table) {
    forall p, c :: c in RefsAt(lib, content, p) ==> c in content
  }

  /** `rank` witnesses that the graph has no cycle: it drops along every reference. */
  ghost predicate Ranked(lib: Lib, content: Table, rank: map<Id, nat>) {
    && content.Keys <= rank.Keys
    && forall p, c :: c in RefsAt(lib, content, p) && p in rank && c in rank ==> rank[c] < rank[p]
  }

  ghost predicate Consistent(lib: Lib, s: Store, rank: map<Id, nat>) {
    AllSound(lib, s.content) && EdgesExact(lib, s) && Resolved(lib, s.content) && Ranked(lib, s.content, rank)
  }

  ghost predicate Keeps(a: Table, b: Table) {
    forall id :: id in a ==> id in b && b[id] == a[id]
  }

  lemma KeepsReflexive(a: Table)
    ensures Keeps(a, a)
  {
  }

  lemma KeepsTransitive(a: Table, b: Table, c: Table)
    requires Keeps(a, b) && Keeps(b, c)
    ensures Keeps(a, c)
  {
  }

  // ---------------------------------------------------------------- saving a node

  /** Every node this program hands to Save. */
  ghost predicate Savable(lib: Lib, n: Node) {
    n == Node(KBytes, n.data, [], [], []) || Printable(lib, n)
  }

  /** The node that reading gives after Save wrote `n`. */
  function Saved(lib: Lib, n: Node): Node {
    if n.kind == KBytes then n else Reread(lib, n)
  }

  ghost predicate KnownSound(lib: Lib, w: Writer) {
    forall id :: id in w.known ==>
      id in w.store.content && RowBytes(lib, id, w.store.content[id]) == Some(w.known[id])
  }

  ghost predicate WriterOk(lib: Lib, w: Writer, rank: map<Id, nat>) {
    Consistent(lib, w.store, rank) && KnownSound(lib, w)
  }

  /** The laws that concern stored nodes. */
  ghost predicate Storage(lib: Lib) {
    HashLaw(lib) && ZlibLaw(lib) && KeyLaw(lib) && NodeLaw(lib)
  }

  /** Zlib, the size column and the checksum undo each other. */
  lemma PackUnpack(lib: Lib, raw: Bytes)
    requires ZlibLaw(lib) && |raw| <= MAX_OBJECT_BYTES
    ensures RowBytes(lib, lib.hash(raw), Row(Pack(lib, raw).0, |raw|, Pack(lib, raw).1)) == Some(raw)
  {
    assert lib.inflate(lib.deflate(raw)) == Some(raw);
  }

  lemma RereadRefs(lib: Lib, n: Node)
    ensures NodeRefs(Reread(lib, n)) == NodeRefs(n)
  {
    assert FieldRefs(Reread(lib, n).fields) == FieldRefs(n.fields);
  }

  lemma SavedReadsBack(lib: Lib, n: Node)
    requires KeyLaw(lib) && NodeLaw(lib) && Savable(lib, n) && NodeBytes(lib, n).Some?
    ensures DecodeNode(lib, NodeBytes(lib, n).value) == Some(Saved(lib, n))
    ensures Stable(lib, Saved(lib, n))
    ensures NodeRefs(Saved(lib, n)) == NodeRefs(n)
  {
    RereadRefs(lib, n);
    if n.kind == KBytes {
      assert ([0] + n.data)[1..] == n.data;
    } else {
      var m := Reread(lib, n);
      assert Printable(lib, m);
      assert Reread(lib, m) == m by {
        assert RereadFields(lib, m.fields) == m.fields;
      }
    }
  }

  /** A number above the rank of every listed node. */
  function Above(ids: seq<Id>, rank: map<Id, nat>): (r: nat)
    ensures forall c :: c in ids && c in rank ==> rank[c] < r
  {
    if ids == [] then 0 else
    var r := Above(ids[1..], rank);
    if ids[0] in rank then Max(r, rank[ids[0]] + 1) else r
  }

  /** Whatever is written for `n` reads back as `m`. */
  ghost predicate ReadsBackAs(lib: Lib, n: Node, m: Node) {
    NodeBytes(lib, n).Some? ==>
      DecodeNode(lib, NodeBytes(lib, n).value) == Some(m) && Stable(lib, m) && NodeRefs(m) == NodeRefs(n)
  }

  /** The row of a new node. */
  function NewRow(lib: Lib, raw: Bytes): Row {
    Row(Pack(lib, raw).0, |raw|, Pack(lib, raw).1)
  }

  /** Saving keeps the tables consistent, changes no existing row, and stores the node:
      children are present before their parent, so the new node can be ranked above them. */
  lemma SaveAs(lib: Lib, w: Writer, n: Node, m: Node, rank: map<Id, nat>) returns (rank': map<Id, nat>)
    requires HashLaw(lib) && ZlibLaw(lib) && WriterOk(lib, w, rank) && ReadsBackAs(lib, n, m)
    requires forall c :: c in NodeRefs(n) ==> c in w.store.content
    requires Save(lib, w, n).Ok?
    ensures var (w', f) := Save(lib, w, n).value;
      && WriterOk(lib, w', rank')
      && Keeps(w.store.content, w'.store.content)
      && NodeBytes(lib, n).Some?
      && f == Fragment([], lib.hash(NodeBytes(lib, n).value))
      && |f.ref| == 64 && lib.utf8(f.ref)
      && f.ref in w'.store.content
      && NodeAt(lib, w'.store.content, f.ref) == Some(m)
  {
    hide AllSound, EdgesExact, Resolved, Ranked, RowBytes, DecodeNode, NodeRefs, NodeBytes, Stable, Pack;
    var raw := NodeBytes(lib, n).value;
    var id := lib.hash(raw);
    rank' := rank;
    if id !in w.known && id !in w.store.content {
      var row := NewRow(lib, raw);
      NewRowReads(lib, n, m);
      rank' := rank[id := Above(NodeRefs(n), rank)];
      InsertKeeps(lib, w.store, id, row, rank, rank');
      assert Save(lib, w, n).value.0.store == Insert(lib, w.store, id, row);
    }
  }

  lemma NewRowReads(lib: Lib, n: Node, m: Node)
    requires ZlibLaw(lib) && ReadsBackAs(lib, n, m)
    requires NodeBytes(lib, n).Some? && |NodeBytes(lib, n).value| <= MAX_OBJECT_BYTES
    ensures var raw := NodeBytes(lib, n).value; var id := lib.hash(raw); var row := NewRow(lib, raw);
      && RowBytes(lib, id, row) == Some(raw)
      && RowNode(lib, id, row) == Some(m)
      && RowRefs(lib, id, row) == NodeRefs(n)
      && SoundRow(lib, id, row)
  {
    hide NodeRefs, Stable, DecodeNode;
    PackUnpack(lib, NodeBytes(lib, n).value);
  }

  lemma SaveKeeps(lib: Lib, w: Writer, n: Node, rank: map<Id, nat>) returns (rank': map<Id, nat>)
    requires Storage(lib) && WriterOk(lib, w, rank) && Savable(lib, n)
    requires forall c :: c in NodeRefs(n) ==> c in w.store.content
    requires Save(lib, w, n).Ok?
    ensures var (w', f) := Save(lib, w, n).value;
      && WriterOk(lib, w', rank')
      && Keeps(w.store.content, w'.store.content)
      && f.json == [] && |f.ref| == 64 && lib.utf8(f.ref)
      && f.ref in w'.store.content
      && NodeAt(lib, w'.store.content, f.ref) == Some(Saved(lib, n))
  {
    hide WriterOk, Save, NodeAt, Keeps;
    if NodeBytes(lib, n).Some? {
      SavedReadsBack(lib, n);
    }
    rank' := SaveAs(lib, w, n, Saved(lib, n), rank);
  }

  /** A row added together with the edges to its children. */
  function Insert(lib: Lib, s: Store, id: Id, row: Row): Store {
    Store(s.content[id := row], s.edges + set c | c in RowRefs(lib, id, row) :: (id, c))
  }

  lemma InsertKeeps(lib: Lib, s: Store, id: Id, row: Row, rank: map<Id, nat>, rank': map<Id, nat>)
    requires Consistent(lib, s, rank) && id !in s.content && SoundRow(lib, id, row)
    requires forall c :: c in RowRefs(lib, id, row) ==> c in s.content
    requires rank' == rank[id := Above(RowRefs(lib, id, row), rank)]
    ensures Consistent(lib, Insert(lib, s, id, row), rank')
  {
    hide EdgesExact, Resolved, Ranked;
    InsertEdges(lib, s, id, row);
    InsertRanked(lib, s, id, row, rank, rank');
  }

  lemma InsertEdges(lib: Lib, s: Store, id: Id, row: Row)
    requires EdgesExact(lib, s) && id !in s.content
    ensures EdgesExact(lib, Insert(lib, s, id, row))
  {
    hide RowRefs;
    var s' := Insert(lib, s, id, row);
    forall p, c ensures (p, c) in s'.edges <==> c in RefsAt(lib, s'.content, p) {
      assert (p, c) in s.edges <==> c in RefsAt(lib, s.content, p);
    }
  }

  lemma InsertRanked(lib: Lib, s: Store, id: Id, row: Row, rank: map<Id, nat>, rank': map<Id, nat>)
    requires Resolved(lib, s.content) && Ranked(lib, s.content, rank) && id !in s.content
    requires forall c :: c in RowRefs(lib, id, row) ==> c in s.content
    requires rank' == rank[id := Above(RowRefs(lib, id, row), rank)]
    ensures Resolved(lib, Insert(lib, s, id, row).content) && Ranked(lib, Insert(lib, s, id, row).content, rank')
  {
    hide RowRefs, Above;
    var content := Insert(lib, s, id, row).content;
    forall p, c | c in RefsAt(lib, content, p) ensures c in s.content && (p in rank' && c in rank' ==> rank'[c] < rank'[p]) {
      if p != id {
        assert c in RefsAt(lib, s.content, p);
      }
    }
  }

  // ---------------------------------------------------------------- rendering alike

  /** Both tables hold the same node under every id of `ids`, and `ids` is closed. */
  ghost predicate Agree(lib: Lib, a: Table, b: Table, ids: set<Id>) {
    forall id :: id in ids ==>
      && NodeAt(lib, a, id) == NodeAt(lib, b, id)
      && (NodeAt(lib, a, id).Some? ==> forall c :: c in NodeRefs(NodeAt(lib, a, id).value) ==> c in ids)
  }

  predicate Within(f: Fragment, ids: set<Id>) {
    f.ref != [] ==> f.ref in ids
  }

  lemma ChildrenWithin(n: Node, ids: set<Id>)
    requires forall c :: c in NodeRefs(n) ==> c in ids
    ensures forall i :: 0 <= i < |n.fields| ==> Within(n.fields[i].value, ids)
    ensures forall i :: 0 <= i < |n.items| ==> Within(n.items[i], ids)
    ensures forall c :: c in n.chunks ==> c in ids || c == []
  {
    forall i | 0 <= i < |n.fields| ensures Within(n.fields[i].value, ids) {
      assert FieldRefs(n.fields)[i] == n.fields[i].value.ref;
    }
    forall i | 0 <= i < |n.items| ensures Within(n.items[i], ids) {
      assert ItemRefs(n.items)[i] == n.items[i].ref;
    }
  }

  lemma {:induction false} ChunksAgree(lib: Lib, a: Table, b: Table, ids: set<Id>, chunks: seq<Id>)
    requires HashLaw(lib) && Agree(lib, a, b, ids)
    requires forall c :: c in chunks ==> c in ids || c == []
    ensures ReadChunks(lib, a, chunks) == ReadChunks(lib, b, chunks)
  {
    if chunks != [] {
      ChunksAgree(lib, a, b, ids, chunks[1..]);
    }
  }

  /** Rendering depends only on the nodes reachable from the fragment. */
  lemma {:induction false} RenderAgrees(lib: Lib, a: Table, b: Table, ids: set<Id>, f: Fragment, visiting: set<Id>, depth: nat)
    requires HashLaw(lib) && Agree(lib, a, b, ids) && Within(f, ids)
    ensures Render(lib, a, f, visiting, depth) == Render(lib, b, f, visiting, depth)
    decreases MAX_DEPTH + 1 - depth, 2
  {
    hide Agree, RenderFields, RenderItems, ReadChunks, NodeAt;
    if f.ref != [] && depth <= MAX_DEPTH && f.ref !in visiting {
      AgreeAt(lib, a, b, ids, f.ref);
      if NodeAt(lib, a, f.ref).Some? {
        var n := NodeAt(lib, a, f.ref).value;
        ChunksAgree(lib, a, b, ids, n.chunks);
        FieldsAgree(lib, a, b, ids, n.fields, visiting + {f.ref}, depth);
        ItemsAgree(lib, a, b, ids, n.items, visiting + {f.ref}, depth);
      }
    }
  }

  lemma AgreeAt(lib: Lib, a: Table, b: Table, ids: set<Id>, id: Id)
    requires Agree(lib, a, b, ids) && id in ids
    ensures NodeAt(lib, a, id) == NodeAt(lib, b, id)
    ensures NodeAt(lib, a, id).Some? ==>
      var n := NodeAt(lib, a, id).value;
      && (forall i :: 0 <= i < |n.fields| ==> Within(n.fields[i].value, ids))
      && (forall i :: 0 <= i < |n.items| ==> Within(n.items[i], ids))
      && (forall c :: c in n.chunks ==> c in ids || c == [])
  {
    hide NodeAt, NodeRefs;
    if NodeAt(lib, a, id).Some? {
      ChildrenWithin(NodeAt(lib, a, id).value, ids);
    }
  }

  lemma {:induction false} FieldsAgree(lib: Lib, a: Table, b: Table, ids: set<Id>, fields: seq<Member>, visiting: set<Id>, depth: nat)
    requires HashLaw(lib) && Agree(lib, a, b, ids) && depth <= MAX_DEPTH
    requires forall i :: 0 <= i < |fields| ==> Within(fields[i].value, ids)
    ensures RenderFields(lib, a, fields, visiting, depth) == RenderFields(lib, b, fields, visiting, depth)
    decreases MAX_DEPTH + 1 - depth, 0, |fields|
  {
    if fields != [] {
      RenderAgrees(lib, a, b, ids, fields[0].value, visiting, depth + 1);
      FieldsAgree(lib, a, b, ids, fields[1..], visiting, depth);
    }
  }

  lemma {:induction false} ItemsAgree(lib: Lib, a: Table, b: Table, ids: set<Id>, items: seq<Fragment>, visiting: set<Id>, depth: nat)
    requires HashLaw(lib) && Agree(lib, a, b, ids) && depth <= MAX_DEPTH
    requires forall i :: 0 <= i < |items| ==> Within(items[i], ids)
    ensures RenderItems(lib, a, items, visiting, depth) == RenderItems(lib, b, items, visiting, depth)
    decreases MAX_DEPTH + 1 - depth, 0, |items|
  {
    if items != [] {
      RenderAgrees(lib, a, b, ids, items[0], visiting, depth + 1);
      ItemsAgree(lib, a, b, ids, items[1..], visiting, depth);
    }
  }

  lemma NodeKept(lib: Lib, a: Table, b: Table, id: Id)
    requires Keeps(a, b) && id in a
    ensures id in b && NodeAt(lib, b, id) == NodeAt(lib, a, id)
  {
  }

  /** Adding rows changes no rendering. */
  lemma KeepsAgrees(lib: Lib, a: Table, b: Table)
    requires AllSound(lib, a) && Resolved(lib, a) && Keeps(a, b)
    ensures Agree(lib, a, b, a.Keys)
  {
    forall id | id in a.Keys
      ensures NodeAt(lib, a, id) == NodeAt(lib, b, id)
      ensures NodeAt(lib, a, id).Some? ==> forall c :: c in NodeRefs(NodeAt(lib, a, id).value) ==> c in a.Keys
    {
      assert SoundRow(lib, id, a[id]);
      assert RefsAt(lib, a, id) == NodeRefs(NodeAt(lib, a, id).value);
    }
  }

  // ---------------------------------------------------------------- rendering in a larger table

  /** Every node that can be read in the one table is the same in the other. */
  ghost predicate Extends(lib: Lib, a: Table, b: Table) {
    forall id :: NodeAt(lib, a, id).Some? ==> NodeAt(lib, b, id) == NodeAt(lib, a, id)
  }

  lemma KeepsExtends(lib: Lib, a: Table, b: Table)
    requires Keeps(a, b)
    ensures Extends(lib, a, b)
  {
    hide RowNode;
  }

  lemma {:induction false} ChunksExtend(lib: Lib, a: Table, b: Table, chunks: seq<Id>)
    requires Extends(lib, a, b) && ReadChunks(lib, a, chunks).Some?
    ensures ReadChunks(lib, b, chunks) == ReadChunks(lib, a, chunks)
  {
    hide NodeAt;
    if chunks != [] {
      ChunksExtend(lib, a, b, chunks[1..]);
    }
  }

  /** What can be rendered stays so: no soundness of the tables is needed. */
  lemma {:induction false} RenderExtends(lib: Lib, a: Table, b: Table, f: Fragment, visiting: set<Id>, depth: nat)
    requires Extends(lib, a, b) && Render(lib, a, f, visiting, depth).Some?
    ensures Render(lib, b, f, visiting, depth) == Render(lib, a, f, visiting, depth)
    decreases MAX_DEPTH + 1 - depth, 2
  {
    hide NodeAt, RenderFields, RenderItems, ReadChunks;
    if f.ref != [] {
      var n := NodeAt(lib, a, f.ref).value;
      match n.kind
      case KObject => FieldsExtend(lib, a, b, n.fields, visiting + {f.ref}, depth);
      case KArray => ItemsExtend(lib, a, b, n.items, visiting + {f.ref}, depth);
      case KString => ChunksExtend(lib, a, b, n.chunks);
      case KHex => ChunksExtend(lib, a, b, n.chunks);
      case _ =>
    }
  }

  lemma {:induction false} FieldsExtend(lib: Lib, a: Table, b: Table, fields: seq<Member>, visiting: set<Id>, depth: nat)
    requires Extends(lib, a, b) && depth <= MAX_DEPTH && RenderFields(lib, a, fields, visiting, depth).Some?
    ensures RenderFields(lib, b, fields, visiting, depth) == RenderFields(lib, a, fields, visiting, depth)
    decreases MAX_DEPTH + 1 - depth, 0, |fields|
  {
    hide Render, Extends;
    if fields != [] {
      RenderExtends(lib, a, b, fields[0].value, visiting, depth + 1);
      FieldsExtend(lib, a, b, fields[1..], visiting, depth);
    }
  }

  lemma {:induction false} ItemsExtend(lib: Lib, a: Table, b: Table, items: seq<Fragment>, visiting: set<Id>, depth: nat)
    requires Extends(lib, a, b) && depth <= MAX_DEPTH && RenderItems(lib, a, items, visiting, depth).Some?
    ensures RenderItems(lib, b, items, visiting, depth) == RenderItems(lib, a, items, visiting, depth)
    decreases MAX_DEPTH + 1 - depth, 0, |items|
  {
    hide Render, Extends;
    if items != [] {
      RenderExtends(lib, a, b, items[0], visiting, depth + 1);
      ItemsExtend(lib, a, b, items[1..], visiting, depth);
    }
  }

  /** So a payload that can be decoded decodes alike in every larger table. */
  lemma DecodeExtends(lib: Lib, a: Table, b: Table, p: Payload)
    requires Extends(lib, a, b) && DecodePayload(lib, a, p).Some?
    ensures DecodePayload(lib, b, p) == DecodePayload(lib, a, p)
  {
    hide Render, Extends;
    if p.Manifest? {
      RenderExtends(lib, a, b, Fragment([], p.root), {}, 0);
    }
  }

  // ---------------------------------------------------------------- the cycle guard

  /** Every id being visited ranks above the fragment, so the guard cannot fire on it. */
  ghost predicate Outer(visiting: set<Id>, f: Fragment, rank: map<Id, nat>) {
    f.ref != [] ==> f.ref in rank && forall x :: x in visiting ==> x in rank && rank[f.ref] < rank[x]
  }

  /** The children of a visited node rank below it. */
  lemma ChildrenOuter(lib: Lib, content: Table, rank: map<Id, nat>, f: Fragment, n: Node, u: set<Id>)
    requires Ranked(lib, content, rank) && Resolved(lib, content)
    requires f.ref != [] && NodeAt(lib, content, f.ref) == Some(n) && Outer(u, f, rank)
    ensures forall i :: 0 <= i < |n.fields| ==> Outer(u + {f.ref}, n.fields[i].value, rank)
    ensures forall i :: 0 <= i < |n.items| ==> Outer(u + {f.ref}, n.items[i], rank)
  {
    assert RefsAt(lib, content, f.ref) == NodeRefs(n);
    forall i | 0 <= i < |n.fields| ensures Outer(u + {f.ref}, n.fields[i].value, rank) {
      assert FieldRefs(n.fields)[i] == n.fields[i].value.ref;
    }
    forall i | 0 <= i < |n.items| ensures Outer(u + {f.ref}, n.items[i], rank) {
      assert ItemRefs(n.items)[i] == n.items[i].ref;
    }
  }

  /** In a ranked graph the set of ids being visited never matters. */
  lemma {:induction false} VisitingIrrelevant(lib: Lib, content: Table, rank: map<Id, nat>, f: Fragment, u: set<Id>, v: set<Id>, depth: nat)
    requires Ranked(lib, content, rank) && Resolved(lib, content)
    requires Outer(u, f, rank) && Outer(v, f, rank)
    ensures Render(lib, content, f, u, depth) == Render(lib, content, f, v, depth)
    decreases MAX_DEPTH + 1 - depth, 2
  {
    hide RenderFields, RenderItems, ReadChunks, NodeAt, Ranked, Resolved;
    if f.ref != [] && depth <= MAX_DEPTH && NodeAt(lib, content, f.ref).Some? {
      var n := NodeAt(lib, content, f.ref).value;
      ChildrenOuter(lib, content, rank, f, n, u);
      ChildrenOuter(lib, content, rank, f, n, v);
      VisitingFields(lib, content, rank, n.fields, u + {f.ref}, v + {f.ref}, depth);
      VisitingItems(lib, content, rank, n.items, u + {f.ref}, v + {f.ref}, depth);
    }
  }

  lemma {:induction false} VisitingFields(lib: Lib, content: Table, rank: map<Id, nat>, fields: seq<Member>, u: set<Id>, v: set<Id>, depth: nat)
    requires Ranked(lib, content, rank) && Resolved(lib, content) && depth <= MAX_DEPTH
    requires forall i :: 0 <= i < |fields| ==> Outer(u, fields[i].value, rank) && Outer(v, fields[i].value, rank)
    ensures RenderFields(lib, content, fields, u, depth) == RenderFields(lib, content, fields, v, depth)
    decreases MAX_DEPTH + 1 - depth, 0, |fields|
  {
    if fields != [] {
      VisitingIrrelevant(lib, content, rank, fields[0].value, u, v, depth + 1);
      VisitingFields(lib, content, rank, fields[1..], u, v, depth);
    }
  }

  lemma {:induction false} VisitingItems(lib: Lib, content: Table, rank: map<Id, nat>, items: seq<Fragment>, u: set<Id>, v: set<Id>, depth: nat)
    requires Ranked(lib, content, rank) && Resolved(lib, content) && depth <= MAX_DEPTH
    requires forall i :: 0 <= i < |items| ==> Outer(u, items[i], rank) && Outer(v, items[i], rank)
    ensures RenderItems(lib, content, items, u, depth) == RenderItems(lib, content, items, v, depth)
    decreases MAX_DEPTH + 1 - depth, 0, |items|
  {
    if items != [] {
      VisitingIrrelevant(lib, content, rank, items[0], u, v, depth + 1);
      VisitingItems(lib, content, rank, items[1..], u, v, depth);
    }
  }
}

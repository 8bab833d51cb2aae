/** Which events internal/queue/content.go can store: the nodes of a value, written down by recursion on the value
    alone, and exactly when they can all be saved. */
module Encodable {
  import opened Basics
  import opened Content
  import opened Graph
  import opened Copy
  import opened Transfer
  import Ranges

  // ---------------------------------------------------------------- the nodes of a value

  /** A reference to the node. */
  function Reference(lib: Lib, n: Node): Fragment {
    Fragment([], match NodeBytes(lib, n) { case None => [] case Some(raw) => lib.hash(raw) })
  }

  function ChunkNodes(data: Bytes): seq<Node>
    decreases |data|
  {
    if data == [] then [] else
    var n := Min(|data|, CHUNK_BYTES);
    [Node(KBytes, data[..n], [], [], [])] + ChunkNodes(data[n..])
  }

  function References(lib: Lib, nodes: seq<Node>): seq<Id> {
    seq(|nodes|, i requires 0 <= i < |nodes| => Reference(lib, nodes[i]).ref)
  }

  /** A long string, or the bytes it is the hex of, in chunks and a node that lists them. */
  function StringNodes(lib: Lib, s: Bytes, key: Bytes): seq<Node> {
    if |s| < INLINE_STRING then [] else
    var hex := IsHexField(s, key);
    var chunks := ChunkNodes(if hex then HexDecode(s).value else s);
    chunks + [Node(if hex then KHex else KString, [], [], [], References(lib, chunks))]
  }

  /** The nodes of a value, children first, and what stands for it in its parent. */
  function Nodes(lib: Lib, v: Value, key: Bytes): (seq<Node>, Fragment)
    decreases v, 1
  {
    match v
    case Scalar(text) => ([], Fragment(text, []))
    case Str(s) =>
      var nodes := StringNodes(lib, s, key);
      (nodes, if nodes == [] then Fragment(lib.quote(s), []) else Reference(lib, nodes[|nodes| - 1]))
    case Obj(fields) =>
      var (nodes, members) := FieldNodes(lib, fields);
      var own := Own(lib, v, Node(KObject, [], members, [], []));
      (nodes + own.0, own.1)
    case Arr(items) =>
      var (nodes, fragments) := ItemNodes(lib, items, key);
      var own := Own(lib, v, Node(KArray, [], [], fragments, []));
      (nodes + own.0, own.1)
  }

  /** Nothing of its own for a short text that refers to no node. */
  function Own(lib: Lib, v: Value, n: Node): (seq<Node>, Fragment) {
    if NodeRefs(n) == [] && |Json(lib, v)| < INLINE_CONTAINER then ([], Fragment(Json(lib, v), []))
    else ([n], Reference(lib, n))
  }

  function FieldNodes(lib: Lib, fields: seq<Field>): (seq<Node>, seq<Member>)
    decreases fields, 0
  {
    if fields == [] then ([], []) else
    var (first, f) := Nodes(lib, fields[0].value, fields[0].name);
    var (nodes, members) := FieldNodes(lib, fields[1..]);
    (first + nodes, [Member(fields[0].name, f)] + members)
  }

  function ItemNodes(lib: Lib, items: seq<Value>, key: Bytes): (seq<Node>, seq<Fragment>)
    decreases items, 0
  {
    if items == [] then ([], []) else
    var (first, f) := Nodes(lib, items[0], key);
    var (nodes, fragments) := ItemNodes(lib, items[1..], key);
    (first + nodes, [f] + fragments)
  }

  /** The nodes of an event; the last is its root. */
  function EventNodes(lib: Lib, v: Value): (seq<Node>, Id) {
    var (nodes, f) := Nodes(lib, v, []);
    if f.ref != [] then (nodes, f.ref) else
    var root := Node(KJson, f.json, [], [], []);
    (nodes + [root], Reference(lib, root).ref)
  }

  /** Stored in binary are exactly the texts of bytes in lower-case hex under a key that ends in _hex. */
  lemma HexFieldExactly(s: Bytes, key: Bytes)
    ensures IsHexField(s, key) <==> (exists front: Bytes :: key == front + HEX_SUFFIX) && exists b: Bytes :: s == HexEncode(b)
  {
    hide HexEncode, HexDecode;
    if IsHexField(s, key) {
      assert key == key[..|key| - |HEX_SUFFIX|] + HEX_SUFFIX;
      assert s == HexEncode(HexDecode(s).value);
    }
    if front: Bytes :| key == front + HEX_SUFFIX {
      assert key[|front|..] == HEX_SUFFIX;
      if b: Bytes :| s == HexEncode(b) {
        Ranges.HexRoundTrip(b);
      }
    }
  }

  // ---------------------------------------------------------------- encoding saves them in order

  function SaveAll(lib: Lib, w: Writer, nodes: seq<Node>): Result<Writer> {
    if nodes == [] then Ok(w) else
    match SaveAll(lib, w, nodes[..|nodes| - 1])
    case Err(e) => Err(e)
    case Ok(u) =>
      match Save(lib, u, nodes[|nodes| - 1])
      case Err(e) => Err(e)
      case Ok((r, _)) => Ok(r)
  }

  function Then<T>(r: Result<Writer>, x: T): Result<(Writer, T)> {
    match r
    case Err(e) => Err(e)
    case Ok(w) => Ok((w, x))
  }

  lemma {:induction false} SaveAllMore(lib: Lib, w: Writer, a: seq<Node>, b: seq<Node>)
    ensures SaveAll(lib, w, a + b) == match SaveAll(lib, w, a) { case Err(e) => Err(e) case Ok(u) => SaveAll(lib, u, b) }
    decreases |b|
  {
    hide Save;
    if b == [] {
      assert a + b == a;
    } else {
      var n := |b| - 1;
      assert (a + b)[..|a + b| - 1] == a + b[..n];
      SaveAllMore(lib, w, a, b[..n]);
    }
  }

  lemma SaveOne(lib: Lib, w: Writer, n: Node)
    ensures Save(lib, w, n) == Then(SaveAll(lib, w, [n]), Reference(lib, n))
  {
    hide NodeBytes, ReadObject, Pack, NodeRefs;
    assert [n][..0] == [];
    assert SaveAll(lib, w, [n]) == match Save(lib, w, n) { case Err(e) => Err(e) case Ok((r, _)) => Ok(r) };
  }

  lemma {:induction false} ChunksSaved(lib: Lib, w: Writer, data: Bytes)
    ensures SaveChunks(lib, w, data) == Then(SaveAll(lib, w, ChunkNodes(data)), References(lib, ChunkNodes(data)))
    decreases |data|
  {
    hide Save, Reference;
    if data == [] {
      assert References(lib, []) == [];
    } else {
      var n := Min(|data|, CHUNK_BYTES);
      var first, rest := Node(KBytes, data[..n], [], [], []), ChunkNodes(data[n..]);
      SaveOne(lib, w, first);
      SaveAllMore(lib, w, [first], rest);
      assert References(lib, [first] + rest) == [Reference(lib, first).ref] + References(lib, rest);
      if SaveAll(lib, w, [first]).Ok? {
        ChunksSaved(lib, SaveAll(lib, w, [first]).value, data[n..]);
      }
    }
  }

  lemma StringSaved(lib: Lib, w: Writer, s: Bytes, key: Bytes)
    ensures StringValue(lib, w, s, key) == Then(SaveAll(lib, w, StringNodes(lib, s, key)), Nodes(lib, Str(s), key).1)
  {
    hide Save, SaveChunks, ChunkNodes, References, Reference, IsHexField, HexDecode;
    if |s| >= INLINE_STRING {
      var hex := IsHexField(s, key);
      HexFieldDecodes(s, key);
      var data := if hex then HexDecode(s).value else s;
      ChunksSaved(lib, w, data);
      var chunks := ChunkNodes(data);
      var n := Node(if hex then KHex else KString, [], [], [], References(lib, chunks));
      SaveAllMore(lib, w, chunks, [n]);
      if SaveAll(lib, w, chunks).Ok? {
        SaveOne(lib, SaveAll(lib, w, chunks).value, n);
      }
    }
  }

  lemma HexFieldDecodes(s: Bytes, key: Bytes)
    ensures IsHexField(s, key) ==> HexDecode(s).Some?
  {
  }

  lemma CloseSaved(lib: Lib, w: Writer, v: Value, n: Node)
    ensures Close(lib, w, v, n) == Then(SaveAll(lib, w, Own(lib, v, n).0), Own(lib, v, n).1)
  {
    hide Save, NodeRefs, Json, Reference;
    SaveOne(lib, w, n);
  }

  /** Encoding a value is saving its nodes. */
  lemma {:induction false} EncodeSaves(lib: Lib, w: Writer, v: Value, key: Bytes)
    ensures Encode(lib, w, v, key) == Then(SaveAll(lib, w, Nodes(lib, v, key).0), Nodes(lib, v, key).1)
    decreases v, 1
  {
    hide Save, Close, StringValue, StringNodes, Own, Reference;
    match v {
      case Scalar(text) =>
      case Str(s) => StringSaved(lib, w, s, key);
      case Obj(fields) =>
        FieldsSaved(lib, w, fields);
        var (nodes, members) := FieldNodes(lib, fields);
        OwnSaved(lib, w, v, nodes, Node(KObject, [], members, [], []));
      case Arr(items) =>
        ItemsSaved(lib, w, items, key);
        var (nodes, fragments) := ItemNodes(lib, items, key);
        OwnSaved(lib, w, v, nodes, Node(KArray, [], [], fragments, []));
    }
  }

  lemma OwnSaved(lib: Lib, w: Writer, v: Value, nodes: seq<Node>, n: Node)
    ensures Then(SaveAll(lib, w, nodes + Own(lib, v, n).0), Own(lib, v, n).1) ==
      match SaveAll(lib, w, nodes) { case Err(e) => Err(e) case Ok(u) => Close(lib, u, v, n) }
  {
    hide SaveAll, Close, Own;
    SaveAllMore(lib, w, nodes, Own(lib, v, n).0);
    if SaveAll(lib, w, nodes).Ok? {
      CloseSaved(lib, SaveAll(lib, w, nodes).value, v, n);
    }
  }

  lemma {:induction false} FieldsSaved(lib: Lib, w: Writer, fields: seq<Field>)
    ensures EncodeFields(lib, w, fields) == Then(SaveAll(lib, w, FieldNodes(lib, fields).0), FieldNodes(lib, fields).1)
    decreases fields, 0
  {
    hide Save, Encode, Nodes;
    if fields != [] {
      EncodeSaves(lib, w, fields[0].value, fields[0].name);
      var first, rest := Nodes(lib, fields[0].value, fields[0].name).0, FieldNodes(lib, fields[1..]).0;
      SaveAllMore(lib, w, first, rest);
      if SaveAll(lib, w, first).Ok? {
        FieldsSaved(lib, SaveAll(lib, w, first).value, fields[1..]);
      }
    }
  }

  lemma {:induction false} ItemsSaved(lib: Lib, w: Writer, items: seq<Value>, key: Bytes)
    ensures EncodeItems(lib, w, items, key) == Then(SaveAll(lib, w, ItemNodes(lib, items, key).0), ItemNodes(lib, items, key).1)
    decreases items, 0
  {
    hide Save, Encode, Nodes;
    if items != [] {
      EncodeSaves(lib, w, items[0], key);
      var first, rest := Nodes(lib, items[0], key).0, ItemNodes(lib, items[1..], key).0;
      SaveAllMore(lib, w, first, rest);
      if SaveAll(lib, w, first).Ok? {
        ItemsSaved(lib, SaveAll(lib, w, first).value, items[1..], key);
      }
    }
  }

  // ---------------------------------------------------------------- when they can all be saved

  /** The node prints, in at most 16 MB. */
  predicate Prints(lib: Lib, n: Node) {
    NodeBytes(lib, n).Some? && |NodeBytes(lib, n).value| <= MAX_OBJECT_BYTES
  }

  /** Its id is not that of another stored object. */
  predicate Free(lib: Lib, content: Table, n: Node)
    requires Prints(lib, n)
  {
    var id := Reference(lib, n).ref;
    id in content ==> RowBytes(lib, id, content[id]) == NodeBytes(lib, n)
  }

  predicate Agree(lib: Lib, m: Node, n: Node) {
    Prints(lib, m) && Prints(lib, n) && Reference(lib, m) == Reference(lib, n) ==> NodeBytes(lib, m) == NodeBytes(lib, n)
  }

  /** Each prints, and no id stands for two objects, neither in the store nor among these. */
  ghost predicate Storable(lib: Lib, content: Table, nodes: seq<Node>) {
    && (forall i :: 0 <= i < |nodes| ==> Prints(lib, nodes[i]) && Free(lib, content, nodes[i]))
    && (forall i, j :: 0 <= i < j < |nodes| ==> Agree(lib, nodes[i], nodes[j]))
  }

  /** What the table holds once the nodes are saved: what it held, and each of them. */
  ghost predicate Holding(lib: Lib, content: Table, nodes: seq<Node>, after: Table) {
    && Keeps(content, after)
    && (forall i :: 0 <= i < |nodes| ==> HoldsNode(lib, after, nodes[i]))
    && (forall id :: id in after && id !in content ==> id in References(lib, nodes))
  }

  ghost predicate HoldsNode(lib: Lib, after: Table, n: Node) {
    var id := Reference(lib, n).ref;
    id in after && NodeBytes(lib, n).Some? && RowBytes(lib, id, after[id]) == NodeBytes(lib, n)
  }

  /** One node, into a store whose rows can all be read. */
  lemma SaveExactly(lib: Lib, w: Writer, n: Node)
    requires ZlibLaw(lib) && TidyWriter(lib, w)
    ensures Save(lib, w, n).Ok? <==> Prints(lib, n) && Free(lib, w.store.content, n)
    ensures Save(lib, w, n).Ok? ==> var after := Save(lib, w, n).value.0;
      && TidyWriter(lib, after) && Holding(lib, w.store.content, [n], after.store.content)
  {
    hide NodeBytes, NodeRefs, RowBytes, Pack, ZlibLaw;
    if Prints(lib, n) && Free(lib, w.store.content, n) {
      assert forall c :: (Reference(lib, n).ref, c) in w.store.edges ==> Reference(lib, n).ref in w.store.content;
    }
    if Save(lib, w, n).Ok? {
      SaveWrote(lib, w, n);
      SaveGrown(lib, w, n);
      assert References(lib, [n])[0] == Reference(lib, n).ref;
    }
  }

  lemma {:induction false} SaveAllExactly(lib: Lib, w: Writer, nodes: seq<Node>)
    requires ZlibLaw(lib) && TidyWriter(lib, w)
    ensures SaveAll(lib, w, nodes).Ok? <==> Storable(lib, w.store.content, nodes)
    ensures SaveAll(lib, w, nodes).Ok? ==> var after := SaveAll(lib, w, nodes).value;
      TidyWriter(lib, after) && Holding(lib, w.store.content, nodes, after.store.content)
    decreases |nodes|
  {
    hide Save, TidyWriter, ZlibLaw, Storable, Holding;
    if nodes == [] {
      NothingToSave(lib, w.store.content);
    } else {
      var n := |nodes| - 1;
      SaveAllExactly(lib, w, nodes[..n]);
      assert nodes == nodes[..n] + [nodes[n]];
      if SaveAll(lib, w, nodes[..n]).Ok? {
        var u := SaveAll(lib, w, nodes[..n]).value;
        SaveExactly(lib, u, nodes[n]);
        StorableMore(lib, w.store.content, nodes[..n], nodes[n], u.store.content);
        if Save(lib, u, nodes[n]).Ok? {
          HoldingMore(lib, w.store.content, nodes[..n], nodes[n], u.store.content, Save(lib, u, nodes[n]).value.0.store.content);
        }
      } else if Storable(lib, w.store.content, nodes) {
        StorableLess(lib, w.store.content, nodes, n);
      }
    }
  }

  lemma NothingToSave(lib: Lib, content: Table)
    ensures Storable(lib, content, []) && Holding(lib, content, [], content)
  {
  }

  lemma StorableLess(lib: Lib, content: Table, nodes: seq<Node>, n: nat)
    requires n <= |nodes| && Storable(lib, content, nodes)
    ensures Storable(lib, content, nodes[..n])
  {
    hide Prints, Free, Agree;
  }

  /** The last node fits the table as it then is exactly if it fits the table at the start and the nodes before. */
  lemma StorableMore(lib: Lib, content: Table, nodes: seq<Node>, n: Node, u: Table)
    requires Storable(lib, content, nodes) && Holding(lib, content, nodes, u)
    ensures Storable(lib, content, nodes + [n]) <==> Prints(lib, n) && Free(lib, u, n)
  {
    hide NodeBytes, RowBytes;
    var all := nodes + [n];
    if Prints(lib, n) && Free(lib, u, n) {
      forall i | 0 <= i < |nodes| ensures Agree(lib, nodes[i], n) {
        assert HoldsNode(lib, u, nodes[i]);
      }
      assert Free(lib, content, n);
    }
    if Storable(lib, content, all) {
      assert all[|nodes|] == n;
      FreeLater(lib, content, nodes, n, u);
    }
  }

  lemma FreeLater(lib: Lib, content: Table, nodes: seq<Node>, n: Node, u: Table)
    requires Storable(lib, content, nodes + [n]) && Holding(lib, content, nodes, u)
    ensures Prints(lib, n) && Free(lib, u, n)
  {
    hide NodeBytes, RowBytes;
    var all := nodes + [n];
    assert all[|nodes|] == n;
    var id := Reference(lib, n).ref;
    if id in u && id !in content {
      var i :| 0 <= i < |nodes| && References(lib, nodes)[i] == id;
      assert all[i] == nodes[i] && HoldsNode(lib, u, nodes[i]);
      assert Agree(lib, all[i], all[|nodes|]);
    }
  }

  lemma HoldingMore(lib: Lib, content: Table, nodes: seq<Node>, n: Node, u: Table, after: Table)
    requires Holding(lib, content, nodes, u) && Holding(lib, u, [n], after)
    ensures Holding(lib, content, nodes + [n], after)
  {
    hide NodeBytes, RowBytes, Reference;
    var all := nodes + [n];
    forall i | 0 <= i < |all| ensures HoldsNode(lib, after, all[i]) {
      if i < |nodes| { assert HoldsNode(lib, u, nodes[i]); } else { assert [n][0] == all[i]; }
    }
    forall id | id in after && id !in content ensures id in References(lib, all) {
      if id in u {
        var i :| 0 <= i < |nodes| && References(lib, nodes)[i] == id;
        assert References(lib, all)[i] == id;
      } else {
        assert References(lib, [n])[0] == id && References(lib, all)[|nodes|] == id;
      }
    }
  }

  // ---------------------------------------------------------------- events

  lemma PayloadSaves(lib: Lib, s: Store, v: Value)
    ensures EncodePayload(lib, s, v) ==
      match SaveAll(lib, Writer(s, map[]), EventNodes(lib, v).0) { case Err(e) => Err(e) case Ok(w) => Ok((w.store, Manifest(2, EventNodes(lib, v).1))) }
  {
    hide Save, SaveAll, Nodes, Encode, Reference;
    var w := Writer(s, map[]);
    EncodeSaves(lib, w, v, []);
    var (nodes, f) := Nodes(lib, v, []);
    if f.ref == [] {
      var root := Node(KJson, f.json, [], [], []);
      SaveAllMore(lib, w, nodes, [root]);
      if SaveAll(lib, w, nodes).Ok? {
        SaveOne(lib, SaveAll(lib, w, nodes).value, root);
      }
    }
  }

  /** An event can be stored exactly if each of its nodes prints in at most 16 MB, and no id stands for two objects,
      in the store or among these nodes. The store then holds what it held and these nodes. */
  lemma EncodeExactly(lib: Lib, s: Store, v: Value)
    requires ZlibLaw(lib) && Tidy(lib, s)
    ensures EncodePayload(lib, s, v).Ok? <==> Storable(lib, s.content, EventNodes(lib, v).0)
    ensures EncodePayload(lib, s, v).Ok? ==>
      var (after, p) := EncodePayload(lib, s, v).value;
      p == Manifest(2, EventNodes(lib, v).1) && Holding(lib, s.content, EventNodes(lib, v).0, after.content)
  {
    hide EncodePayload, EventNodes, SaveAll, Storable, Holding, Tidy, ZlibLaw;
    PayloadSaves(lib, s, v);
    SaveAllExactly(lib, Writer(s, map[]), EventNodes(lib, v).0);
  }

  lemma ConsistentTidy(lib: Lib, s: Store, rank: map<Id, nat>)
    requires Consistent(lib, s, rank)
    ensures Tidy(lib, s)
  {
    hide Resolved, Ranked, RowRefs, RowBytes;
    forall e | e in s.edges ensures e.0 in s.content {
      assert (e.0, e.1) in s.edges;
    }
    forall id | id in s.content ensures RowBytes(lib, id, s.content[id]).Some? {
      assert SoundRow(lib, id, s.content[id]);
    }
  }
}

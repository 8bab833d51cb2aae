/** Whether a value can be written or a graph copied does not depend on what the database already holds, as
    long as no id stands for two objects. */
module Transfer {
  import opened Basics
  import opened Content
  import opened Graph
  import opened Copy

  /** The stored objects are those that `objs` names. */
  ghost predicate Held(lib: Lib, content: Table, objs: map<Id, Bytes>) {
    forall id :: id in content ==> id in objs && RowBytes(lib, id, content[id]) == Some(objs[id])
  }

  ghost predicate Clean(lib: Lib, s: Store, objs: map<Id, Bytes>) {
    Held(lib, s.content, objs) && Anchored(s)
  }

  ghost predicate CleanWriter(lib: Lib, w: Writer, objs: map<Id, Bytes>) {
    && Clean(lib, w.store, objs)
    && forall id :: id in w.known ==> id in w.store.content && w.known[id] == objs[id]
  }

  // ---------------------------------------------------------------- stores whose rows can all be read

  ghost predicate Tidy(lib: Lib, s: Store) {
    Anchored(s) && forall id :: id in s.content ==> RowBytes(lib, id, s.content[id]).Some?
  }

  ghost predicate TidyWriter(lib: Lib, w: Writer) {
    Tidy(lib, w.store) && KnownSound(lib, w)
  }

  /** The objects of a store. */
  function Objects(lib: Lib, content: Table): map<Id, Bytes> {
    map id | id in content && RowBytes(lib, id, content[id]).Some? :: RowBytes(lib, id, content[id]).value
  }

  lemma TidyClean(lib: Lib, s: Store, later: Table)
    requires Tidy(lib, s) && Keeps(s.content, later)
    ensures Clean(lib, s, Objects(lib, later))
  {
    hide RowBytes;
  }

  /** Rows are added and none changed, and all can be read if they could before. */
  ghost predicate Grown(lib: Lib, w: Writer, w': Writer) {
    Keeps(w.store.content, w'.store.content) && (TidyWriter(lib, w) ==> TidyWriter(lib, w'))
  }

  lemma GrownTwice(lib: Lib, a: Writer, b: Writer, c: Writer)
    requires Grown(lib, a, b) && Grown(lib, b, c)
    ensures Grown(lib, a, c)
  {
    hide TidyWriter;
  }

  lemma GrownSame(lib: Lib, w: Writer)
    ensures Grown(lib, w, w)
  {
    hide TidyWriter;
  }

  lemma SaveGrown(lib: Lib, w: Writer, n: Node)
    requires ZlibLaw(lib) && Save(lib, w, n).Ok?
    ensures Grown(lib, w, Save(lib, w, n).value.0)
  {
    hide NodeBytes, NodeRefs, RowBytes, Pack, KnownSound, ZlibLaw;
    SaveGrows(lib, w, n);
    if TidyWriter(lib, w) {
      SaveWrote(lib, w, n);
      SaveTidy(lib, w, n);
    }
  }

  lemma SaveTidy(lib: Lib, w: Writer, n: Node)
    requires ZlibLaw(lib) && Save(lib, w, n).Ok? && Tidy(lib, w.store)
    ensures Tidy(lib, Save(lib, w, n).value.0.store)
  {
    hide NodeBytes, NodeRefs, RowBytes, Pack;
    var raw := NodeBytes(lib, n).value;
    if |raw| <= MAX_OBJECT_BYTES {
      PackUnpack(lib, raw);
    }
  }

  // ---------------------------------------------------------------- saving

  lemma HeldBefore(lib: Lib, a: Writer, b: Writer, objs: map<Id, Bytes>)
    requires Grown(lib, a, b) && Held(lib, b.store.content, objs)
    ensures Held(lib, a.store.content, objs)
  {
    hide RowBytes, TidyWriter;
  }

  /** What was saved is the object that the id stands for. */
  lemma SaveWas(lib: Lib, w: Writer, n: Node, objs: map<Id, Bytes>)
    requires ZlibLaw(lib) && CleanWriter(lib, w, objs)
    requires Save(lib, w, n).Ok? && Held(lib, Save(lib, w, n).value.0.store.content, objs)
    ensures NodeBytes(lib, n).Some? && |NodeBytes(lib, n).value| <= MAX_OBJECT_BYTES
    ensures var raw := NodeBytes(lib, n).value; lib.hash(raw) in objs && objs[lib.hash(raw)] == raw
  {
    hide NodeBytes, NodeRefs, RowBytes, Pack;
    var raw := NodeBytes(lib, n).value;
    PackUnpack(lib, raw);
    var content := Save(lib, w, n).value.0.store.content;
    assert lib.hash(raw) in content;
    assert RowBytes(lib, lib.hash(raw), content[lib.hash(raw)]) == Some(raw);
  }

  lemma CleanInsert(lib: Lib, w: Writer, id: Id, raw: Bytes, row: Row, refs: seq<Id>, objs: map<Id, Bytes>)
    requires CleanWriter(lib, w, objs) && id in objs && objs[id] == raw && RowBytes(lib, id, row) == Some(raw)
    ensures CleanWriter(lib, Writer(Store(w.store.content[id := row], w.store.edges + set c | c in refs :: (id, c)), w.known[id := raw]), objs)
  {
    hide RowBytes;
  }

  lemma SaveInto(lib: Lib, u: Writer, n: Node, objs: map<Id, Bytes>)
    requires ZlibLaw(lib) && CleanWriter(lib, u, objs)
    requires NodeBytes(lib, n).Some? && |NodeBytes(lib, n).value| <= MAX_OBJECT_BYTES
    requires var raw := NodeBytes(lib, n).value; lib.hash(raw) in objs && objs[lib.hash(raw)] == raw
    ensures var r := Save(lib, u, n);
      && r.Ok? && r.value.1 == Fragment([], lib.hash(NodeBytes(lib, n).value)) && CleanWriter(lib, r.value.0, objs)
      && r.value.0.store.content.Keys == u.store.content.Keys + {lib.hash(NodeBytes(lib, n).value)}
  {
    hide NodeBytes, NodeRefs, RowBytes, Pack;
    var raw := NodeBytes(lib, n).value;
    var id := lib.hash(raw);
    if id in u.store.content {
      assert RowBytes(lib, id, u.store.content[id]) == Some(raw);
    } else {
      PackUnpack(lib, raw);
      CleanInsert(lib, u, id, raw, NewRow(lib, raw), NodeRefs(n), objs);
    }
  }

  /** A node that one writer could save, every writer without a clash can. */
  lemma SaveTransfers(lib: Lib, w: Writer, u: Writer, n: Node, objs: map<Id, Bytes>)
    requires ZlibLaw(lib) && CleanWriter(lib, w, objs) && CleanWriter(lib, u, objs)
    requires Save(lib, w, n).Ok? && Held(lib, Save(lib, w, n).value.0.store.content, objs)
    ensures Same(lib, w, u, Save(lib, w, n), Save(lib, u, n), objs)
  {
    hide Save, CleanWriter, NodeBytes;
    SaveWas(lib, w, n, objs);
    SaveInto(lib, w, n, objs);
    SaveInto(lib, u, n, objs);
  }

  // ---------------------------------------------------------------- encoding only adds

  lemma {:induction false} ChunksGrow(lib: Lib, w: Writer, data: Bytes)
    requires ZlibLaw(lib) && SaveChunks(lib, w, data).Ok?
    ensures Grown(lib, w, SaveChunks(lib, w, data).value.0)
    decreases |data|
  {
    hide Save, Grown;
    if data == [] {
      GrownSame(lib, w);
    } else {
      var n := Min(|data|, CHUNK_BYTES);
      var node := Node(KBytes, data[..n], [], [], []);
      SaveGrown(lib, w, node);
      var w1 := Save(lib, w, node).value.0;
      ChunksGrow(lib, w1, data[n..]);
      GrownTwice(lib, w, w1, SaveChunks(lib, w1, data[n..]).value.0);
    }
  }

  lemma StringGrows(lib: Lib, w: Writer, s: Bytes, key: Bytes)
    requires ZlibLaw(lib) && StringValue(lib, w, s, key).Ok?
    ensures Grown(lib, w, StringValue(lib, w, s, key).value.0)
  {
    hide Save, SaveChunks, HexDecode, HexEncode, Grown;
    if |s| < INLINE_STRING {
      GrownSame(lib, w);
    } else {
      var hex := IsHexField(s, key);
      var data := if hex then HexDecode(s).value else s;
      ChunksGrow(lib, w, data);
      var (w1, chunks) := SaveChunks(lib, w, data).value;
      var node := Node(if hex then KHex else KString, [], [], [], chunks);
      SaveGrown(lib, w1, node);
      GrownTwice(lib, w, w1, Save(lib, w1, node).value.0);
    }
  }

  lemma CloseGrows(lib: Lib, w: Writer, v: Value, n: Node)
    requires ZlibLaw(lib) && Close(lib, w, v, n).Ok?
    ensures Grown(lib, w, Close(lib, w, v, n).value.0)
  {
    hide Save, NodeRefs, Json, Grown;
    if NodeRefs(n) == [] && |Json(lib, v)| < INLINE_CONTAINER {
      GrownSame(lib, w);
    } else {
      SaveGrown(lib, w, n);
    }
  }

  lemma {:induction false} EncodeGrows(lib: Lib, w: Writer, v: Value, key: Bytes)
    requires ZlibLaw(lib) && Encode(lib, w, v, key).Ok?
    ensures Grown(lib, w, Encode(lib, w, v, key).value.0)
    decreases v, 1
  {
    hide StringValue, Close, Grown;
    match v
    case Scalar(_) => GrownSame(lib, w);
    case Str(s) => StringGrows(lib, w, s, key);
    case Obj(fields) =>
      FieldsGrow(lib, w, fields);
      var (w1, members) := EncodeFields(lib, w, fields).value;
      CloseGrows(lib, w1, v, Node(KObject, [], members, [], []));
      GrownTwice(lib, w, w1, Encode(lib, w, v, key).value.0);
    case Arr(items) =>
      ItemsGrow(lib, w, items, key);
      var (w1, fragments) := EncodeItems(lib, w, items, key).value;
      CloseGrows(lib, w1, v, Node(KArray, [], [], fragments, []));
      GrownTwice(lib, w, w1, Encode(lib, w, v, key).value.0);
  }

  lemma {:induction false} FieldsGrow(lib: Lib, w: Writer, fields: seq<Field>)
    requires ZlibLaw(lib) && EncodeFields(lib, w, fields).Ok?
    ensures Grown(lib, w, EncodeFields(lib, w, fields).value.0)
    decreases fields, 0
  {
    hide Encode, Grown;
    if fields == [] {
      GrownSame(lib, w);
    } else {
      EncodeGrows(lib, w, fields[0].value, fields[0].name);
      var w1 := Encode(lib, w, fields[0].value, fields[0].name).value.0;
      FieldsGrow(lib, w1, fields[1..]);
      GrownTwice(lib, w, w1, EncodeFields(lib, w1, fields[1..]).value.0);
    }
  }

  lemma {:induction false} ItemsGrow(lib: Lib, w: Writer, items: seq<Value>, key: Bytes)
    requires ZlibLaw(lib) && EncodeItems(lib, w, items, key).Ok?
    ensures Grown(lib, w, EncodeItems(lib, w, items, key).value.0)
    decreases items, 0
  {
    hide Encode, Grown;
    if items == [] {
      GrownSame(lib, w);
    } else {
      EncodeGrows(lib, w, items[0], key);
      var w1 := Encode(lib, w, items[0], key).value.0;
      ItemsGrow(lib, w1, items[1..], key);
      GrownTwice(lib, w, w1, EncodeItems(lib, w1, items[1..], key).value.0);
    }
  }

  // ---------------------------------------------------------------- encoding

  /** Both writers are clean again, the second has the same result as the first, and all that the first one has
      if it had before. */
  ghost predicate Same<T>(lib: Lib, w: Writer, u: Writer, a: Result<(Writer, T)>, b: Result<(Writer, T)>, objs: map<Id, Bytes>) {
    && a.Ok? && b.Ok? && a.value.1 == b.value.1 && CleanWriter(lib, a.value.0, objs) && CleanWriter(lib, b.value.0, objs)
    && (Less(w, u) ==> Less(a.value.0, b.value.0))
  }

  ghost predicate Less(w: Writer, u: Writer) {
    w.store.content.Keys <= u.store.content.Keys
  }

  lemma {:induction false} ChunksTransfer(lib: Lib, w: Writer, u: Writer, data: Bytes, objs: map<Id, Bytes>)
    requires ZlibLaw(lib) && CleanWriter(lib, w, objs) && CleanWriter(lib, u, objs)
    requires SaveChunks(lib, w, data).Ok? && Held(lib, SaveChunks(lib, w, data).value.0.store.content, objs)
    ensures Same(lib, w, u, SaveChunks(lib, w, data), SaveChunks(lib, u, data), objs)
    decreases |data|
  {
    hide Save, CleanWriter, Held;
    if data != [] {
      var n := Min(|data|, CHUNK_BYTES);
      var node := Node(KBytes, data[..n], [], [], []);
      var w1 := Save(lib, w, node).value.0;
      ChunksGrow(lib, w1, data[n..]);
      HeldBefore(lib, w1, SaveChunks(lib, w1, data[n..]).value.0, objs);
      SaveTransfers(lib, w, u, node, objs);
      ChunksTransfer(lib, w1, Save(lib, u, node).value.0, data[n..], objs);
    }
  }

  lemma StringTransfers(lib: Lib, w: Writer, u: Writer, s: Bytes, key: Bytes, objs: map<Id, Bytes>)
    requires ZlibLaw(lib) && CleanWriter(lib, w, objs) && CleanWriter(lib, u, objs)
    requires StringValue(lib, w, s, key).Ok? && Held(lib, StringValue(lib, w, s, key).value.0.store.content, objs)
    ensures Same(lib, w, u, StringValue(lib, w, s, key), StringValue(lib, u, s, key), objs)
  {
    hide Save, SaveChunks, CleanWriter, Held, HexDecode, HexEncode;
    if |s| >= INLINE_STRING {
      var hex := IsHexField(s, key);
      var data := if hex then HexDecode(s).value else s;
      var (w1, chunks) := SaveChunks(lib, w, data).value;
      var node := Node(if hex then KHex else KString, [], [], [], chunks);
      SaveGrown(lib, w1, node);
      HeldBefore(lib, w1, Save(lib, w1, node).value.0, objs);
      ChunksTransfer(lib, w, u, data, objs);
      SaveTransfers(lib, w1, SaveChunks(lib, u, data).value.0, node, objs);
    }
  }

  lemma CloseTransfers(lib: Lib, w: Writer, u: Writer, v: Value, n: Node, objs: map<Id, Bytes>)
    requires ZlibLaw(lib) && CleanWriter(lib, w, objs) && CleanWriter(lib, u, objs)
    requires Close(lib, w, v, n).Ok? && Held(lib, Close(lib, w, v, n).value.0.store.content, objs)
    ensures Same(lib, w, u, Close(lib, w, v, n), Close(lib, u, v, n), objs)
  {
    hide Save, CleanWriter, Held, NodeRefs, Json;
    if !(NodeRefs(n) == [] && |Json(lib, v)| < INLINE_CONTAINER) {
      SaveTransfers(lib, w, u, n, objs);
    }
  }

  lemma {:induction false} EncodeTransfers(lib: Lib, w: Writer, u: Writer, v: Value, key: Bytes, objs: map<Id, Bytes>)
    requires ZlibLaw(lib) && CleanWriter(lib, w, objs) && CleanWriter(lib, u, objs)
    requires Encode(lib, w, v, key).Ok? && Held(lib, Encode(lib, w, v, key).value.0.store.content, objs)
    ensures Same(lib, w, u, Encode(lib, w, v, key), Encode(lib, u, v, key), objs)
    decreases v, 1
  {
    hide StringValue, Close, CleanWriter, Held;
    match v
    case Scalar(_) =>
    case Str(s) => StringTransfers(lib, w, u, s, key, objs);
    case Obj(fields) =>
      var (w1, members) := EncodeFields(lib, w, fields).value;
      var node := Node(KObject, [], members, [], []);
      CloseGrows(lib, w1, v, node);
      HeldBefore(lib, w1, Close(lib, w1, v, node).value.0, objs);
      FieldsTransfer(lib, w, u, fields, objs);
      CloseTransfers(lib, w1, EncodeFields(lib, u, fields).value.0, v, node, objs);
    case Arr(items) =>
      var (w1, fragments) := EncodeItems(lib, w, items, key).value;
      var node := Node(KArray, [], [], fragments, []);
      CloseGrows(lib, w1, v, node);
      HeldBefore(lib, w1, Close(lib, w1, v, node).value.0, objs);
      ItemsTransfer(lib, w, u, items, key, objs);
      CloseTransfers(lib, w1, EncodeItems(lib, u, items, key).value.0, v, node, objs);
  }

  lemma {:induction false} FieldsTransfer(lib: Lib, w: Writer, u: Writer, fields: seq<Field>, objs: map<Id, Bytes>)
    requires ZlibLaw(lib) && CleanWriter(lib, w, objs) && CleanWriter(lib, u, objs)
    requires EncodeFields(lib, w, fields).Ok? && Held(lib, EncodeFields(lib, w, fields).value.0.store.content, objs)
    ensures Same(lib, w, u, EncodeFields(lib, w, fields), EncodeFields(lib, u, fields), objs)
    decreases fields, 0
  {
    hide Encode, CleanWriter, Held;
    if fields != [] {
      var v, key := fields[0].value, fields[0].name;
      var w1 := Encode(lib, w, v, key).value.0;
      FieldsGrow(lib, w1, fields[1..]);
      HeldBefore(lib, w1, EncodeFields(lib, w1, fields[1..]).value.0, objs);
      EncodeTransfers(lib, w, u, v, key, objs);
      FieldsTransfer(lib, w1, Encode(lib, u, v, key).value.0, fields[1..], objs);
    }
  }

  lemma {:induction false} ItemsTransfer(lib: Lib, w: Writer, u: Writer, items: seq<Value>, key: Bytes, objs: map<Id, Bytes>)
    requires ZlibLaw(lib) && CleanWriter(lib, w, objs) && CleanWriter(lib, u, objs)
    requires EncodeItems(lib, w, items, key).Ok? && Held(lib, EncodeItems(lib, w, items, key).value.0.store.content, objs)
    ensures Same(lib, w, u, EncodeItems(lib, w, items, key), EncodeItems(lib, u, items, key), objs)
    decreases items, 0
  {
    hide Encode, CleanWriter, Held;
    if items != [] {
      var w1 := Encode(lib, w, items[0], key).value.0;
      ItemsGrow(lib, w1, items[1..], key);
      HeldBefore(lib, w1, EncodeItems(lib, w1, items[1..], key).value.0, objs);
      EncodeTransfers(lib, w, u, items[0], key, objs);
      ItemsTransfer(lib, w1, Encode(lib, u, items[0], key).value.0, items[1..], key, objs);
    }
  }

  lemma PayloadTransfers(lib: Lib, s: Store, t: Store, v: Value, objs: map<Id, Bytes>)
    requires ZlibLaw(lib) && Clean(lib, s, objs) && Clean(lib, t, objs)
    requires EncodePayload(lib, s, v).Ok? && Held(lib, EncodePayload(lib, s, v).value.0.content, objs)
    ensures var r := EncodePayload(lib, t, v);
      && r.Ok? && r.value.1 == EncodePayload(lib, s, v).value.1 && Clean(lib, r.value.0, objs)
      && (s.content.Keys <= t.content.Keys ==> EncodePayload(lib, s, v).value.0.content.Keys <= r.value.0.content.Keys)
  {
    hide Encode, Save, Held;
    var w, u := Writer(s, map[]), Writer(t, map[]);
    var (w1, f) := Encode(lib, w, v, []).value;
    if f.ref != [] {
      EncodeTransfers(lib, w, u, v, [], objs);
    } else {
      var node := Node(KJson, f.json, [], [], []);
      SaveGrown(lib, w1, node);
      HeldBefore(lib, w1, Save(lib, w1, node).value.0, objs);
      EncodeTransfers(lib, w, u, v, [], objs);
      SaveTransfers(lib, w1, Encode(lib, u, v, []).value.0, node, objs);
    }
  }

  // ---------------------------------------------------------------- copying

  lemma {:induction false} VisitGrows(lib: Lib, src: Table, w: Writer, finished: set<Id>, visiting: set<Id>, id: Id, depth: nat)
    requires ZlibLaw(lib) && Visit(lib, src, w, finished, visiting, id, depth).Ok?
    ensures Grown(lib, w, Visit(lib, src, w, finished, visiting, id, depth).value.0)
    decreases MAX_DEPTH + 1 - depth, 1
  {
    hide Save, NodeRefs, ReadObject, DecodeNode, Grown;
    if id in finished {
      GrownSame(lib, w);
    } else {
      var n := DecodeNode(lib, ReadObject(lib, src, id).value).value;
      VisitAllGrows(lib, src, w, finished, visiting + {id}, NodeRefs(n), depth);
      var w1 := VisitAll(lib, src, w, finished, visiting + {id}, NodeRefs(n), depth).value.0;
      SaveGrown(lib, w1, n);
      GrownTwice(lib, w, w1, Save(lib, w1, n).value.0);
    }
  }

  lemma {:induction false} VisitAllGrows(lib: Lib, src: Table, w: Writer, finished: set<Id>, visiting: set<Id>, ids: seq<Id>, depth: nat)
    requires ZlibLaw(lib) && depth <= MAX_DEPTH && VisitAll(lib, src, w, finished, visiting, ids, depth).Ok?
    ensures Grown(lib, w, VisitAll(lib, src, w, finished, visiting, ids, depth).value.0)
    decreases MAX_DEPTH + 1 - depth, 0, |ids|
  {
    hide Visit, Grown;
    if ids == [] {
      GrownSame(lib, w);
    } else {
      VisitGrows(lib, src, w, finished, visiting, ids[0], depth + 1);
      var (w1, finished1) := Visit(lib, src, w, finished, visiting, ids[0], depth + 1).value;
      VisitAllGrows(lib, src, w1, finished1, visiting, ids[1..], depth);
      GrownTwice(lib, w, w1, VisitAll(lib, src, w1, finished1, visiting, ids[1..], depth).value.0);
    }
  }

  /** A copy adds rows, changes none, and leaves all that can be read readable. */
  lemma CopyGrows(lib: Lib, src: Table, dst: Store, p: Payload)
    requires ZlibLaw(lib) && CopyPayload(lib, src, dst, p).Ok?
    ensures var dst' := CopyPayload(lib, src, dst, p).value.0; Keeps(dst.content, dst'.content) && (Tidy(lib, dst) ==> Tidy(lib, dst'))
  {
    hide Encode, Save, Visit, Tidy, ZlibLaw, Keeps;
    var w := Writer(dst, map[]);
    assert KnownSound(lib, w);
    hide KnownSound;
    if p.Manifest? {
      VisitGrows(lib, src, w, {}, {}, p.root, 0);
    } else {
      var v := lib.parse(p.text).value;
      EncodeGrows(lib, w, v, []);
      var (w1, f) := Encode(lib, w, v, []).value;
      if f.ref == [] {
        SaveGrown(lib, w1, Node(KJson, f.json, [], [], []));
        KeepsTransitive(dst.content, w1.store.content, Save(lib, w1, Node(KJson, f.json, [], [], [])).value.0.store.content);
      }
    }
  }

  lemma {:induction false} VisitTransfers(lib: Lib, src: Table, w: Writer, u: Writer, finished: set<Id>, visiting: set<Id>, id: Id, depth: nat, objs: map<Id, Bytes>)
    requires ZlibLaw(lib) && CleanWriter(lib, w, objs) && CleanWriter(lib, u, objs)
    requires Visit(lib, src, w, finished, visiting, id, depth).Ok?
    requires Held(lib, Visit(lib, src, w, finished, visiting, id, depth).value.0.store.content, objs)
    ensures Same(lib, w, u, Visit(lib, src, w, finished, visiting, id, depth), Visit(lib, src, u, finished, visiting, id, depth), objs)
    decreases MAX_DEPTH + 1 - depth, 1
  {
    hide Save, NodeRefs, ReadObject, DecodeNode, CleanWriter, Held;
    if id !in finished {
      var n := DecodeNode(lib, ReadObject(lib, src, id).value).value;
      var refs := NodeRefs(n);
      var w1 := VisitAll(lib, src, w, finished, visiting + {id}, refs, depth).value.0;
      SaveGrown(lib, w1, n);
      HeldBefore(lib, w1, Save(lib, w1, n).value.0, objs);
      VisitAllTransfers(lib, src, w, u, finished, visiting + {id}, refs, depth, objs);
      SaveTransfers(lib, w1, VisitAll(lib, src, u, finished, visiting + {id}, refs, depth).value.0, n, objs);
    }
  }

  lemma {:induction false} VisitAllTransfers(lib: Lib, src: Table, w: Writer, u: Writer, finished: set<Id>, visiting: set<Id>, ids: seq<Id>, depth: nat, objs: map<Id, Bytes>)
    requires ZlibLaw(lib) && CleanWriter(lib, w, objs) && CleanWriter(lib, u, objs)
    requires depth <= MAX_DEPTH && VisitAll(lib, src, w, finished, visiting, ids, depth).Ok?
    requires Held(lib, VisitAll(lib, src, w, finished, visiting, ids, depth).value.0.store.content, objs)
    ensures Same(lib, w, u, VisitAll(lib, src, w, finished, visiting, ids, depth), VisitAll(lib, src, u, finished, visiting, ids, depth), objs)
    decreases MAX_DEPTH + 1 - depth, 0, |ids|
  {
    hide Visit, CleanWriter, Held;
    if ids != [] {
      var (w1, finished1) := Visit(lib, src, w, finished, visiting, ids[0], depth + 1).value;
      VisitAllGrows(lib, src, w1, finished1, visiting, ids[1..], depth);
      HeldBefore(lib, w1, VisitAll(lib, src, w1, finished1, visiting, ids[1..], depth).value.0, objs);
      VisitTransfers(lib, src, w, u, finished, visiting, ids[0], depth + 1, objs);
      VisitAllTransfers(lib, src, w1, Visit(lib, src, u, finished, visiting, ids[0], depth + 1).value.0, finished1, visiting, ids[1..], depth, objs);
    }
  }

  /** A payload that can be copied into one store can be copied into every store without a clash. */
  lemma CopyTransfers(lib: Lib, src: Table, s: Store, t: Store, p: Payload, objs: map<Id, Bytes>)
    requires ZlibLaw(lib) && Clean(lib, s, objs) && Clean(lib, t, objs)
    requires CopyPayload(lib, src, s, p).Ok? && Held(lib, CopyPayload(lib, src, s, p).value.0.content, objs)
    ensures var r := CopyPayload(lib, src, t, p);
      && r.Ok? && r.value.1 == CopyPayload(lib, src, s, p).value.1 && Clean(lib, r.value.0, objs)
      && (s.content.Keys <= t.content.Keys ==> CopyPayload(lib, src, s, p).value.0.content.Keys <= r.value.0.content.Keys)
  {
    hide Visit, Held, EncodePayload;
    if p.Plain? {
      PayloadTransfers(lib, s, t, lib.parse(p.text).value, objs);
    } else {
      VisitTransfers(lib, src, Writer(s, map[]), Writer(t, map[]), {}, {}, p.root, 0, objs);
    }
  }

  lemma HeldExtends(lib: Lib, a: Table, b: Table, objs: map<Id, Bytes>)
    requires Held(lib, a, objs) && Held(lib, b, objs) && a.Keys <= b.Keys
    ensures Extends(lib, a, b)
  {
    hide RowBytes, DecodeNode;
    forall id | NodeAt(lib, a, id).Some? ensures NodeAt(lib, b, id) == NodeAt(lib, a, id) {
      assert id in a.Keys;
      assert RowBytes(lib, id, a[id]) == RowBytes(lib, id, b[id]);
    }
  }
}

/** Encoding a value and rendering the result gives back its JSON text: for any hash
    function, on any consistent store, and exactly when two conditions on the value hold. */
module RoundTrip {
  import opened Basics
  import opened Content
  import opened Graph

  // ---------------------------------------------------------------- what restoring a value yields

  /** Whether the value gets a node of its own. */
  predicate IsStored(lib: Lib, v: Value)
    decreases v
  {
    match v
    case Scalar(_) => false
    case Str(s) => |s| >= INLINE_STRING
    case Obj(fields) =>
      (exists i :: 0 <= i < |fields| && IsStored(lib, fields[i].value)) || |Json(lib, v)| >= INLINE_CONTAINER
    case Arr(items) =>
      (exists i :: 0 <= i < |items| && IsStored(lib, items[i])) || |Json(lib, v)| >= INLINE_CONTAINER
  }

  /** Levels of nodes below the value; inline values and chunks do not count. */
  function StoredDepth(lib: Lib, v: Value): nat
    decreases v, 1
  {
    if !IsStored(lib, v) then 0 else
    match v
    case Scalar(_) => 0
    case Str(_) => 1
    case Obj(fields) => 1 + FieldsDepth(lib, fields)
    case Arr(items) => 1 + ItemsDepth(lib, items)
  }

  function FieldsDepth(lib: Lib, fields: seq<Field>): nat
    decreases fields, 0
  {
    if fields == [] then 0 else Max(StoredDepth(lib, fields[0].value), FieldsDepth(lib, fields[1..]))
  }

  function ItemsDepth(lib: Lib, items: seq<Value>): nat
    decreases items, 0
  {
    if items == [] then 0 else Max(StoredDepth(lib, items[0]), ItemsDepth(lib, items[1..]))
  }

  /** The text a reader gets: the direct JSON with the keys of stored objects reread. */
  function Restored(lib: Lib, v: Value): Bytes
    decreases v, 1
  {
    if !IsStored(lib, v) then Json(lib, v) else
    match v
    case Scalar(text) => text
    case Str(s) => lib.quote(s)
    case Obj(fields) => [OPEN_BRACE] + RestoredFields(lib, fields) + [CLOSE_BRACE]
    case Arr(items) => [OPEN_BRACKET] + RestoredItems(lib, items) + [CLOSE_BRACKET]
  }

  function RestoredFields(lib: Lib, fields: seq<Field>): Bytes
    decreases fields, 0
  {
    if fields == [] then [] else
    lib.quote(lib.sanitize(fields[0].name)) + [COLON] + Restored(lib, fields[0].value)
      + Separator(|fields| > 1) + RestoredFields(lib, fields[1..])
  }

  function RestoredItems(lib: Lib, items: seq<Value>): Bytes
    decreases items, 0
  {
    if items == [] then [] else
    Restored(lib, items[0]) + Separator(|items| > 1) + RestoredItems(lib, items[1..])
  }

  /** No stored object has a key that is not valid UTF-8. */
  predicate KeysKept(lib: Lib, v: Value)
    decreases v
  {
    IsStored(lib, v) ==>
      match v
      case Obj(fields) =>
        forall i :: 0 <= i < |fields| ==> lib.utf8(fields[i].name) && KeysKept(lib, fields[i].value)
      case Arr(items) => forall i :: 0 <= i < |items| ==> KeysKept(lib, items[i])
      case _ => true
  }

  // ---------------------------------------------------------------- exactness of the restored text

  /** Restoring never lengthens the text, and keeps it exactly when the keys are kept. */
  lemma {:induction false} RestoredExact(lib: Lib, v: Value)
    requires KeyLaw(lib)
    ensures |Restored(lib, v)| <= |Json(lib, v)|
    ensures KeysKept(lib, v) ==> Restored(lib, v) == Json(lib, v)
    ensures !KeysKept(lib, v) ==> |Restored(lib, v)| < |Json(lib, v)|
    decreases v, 1
  {
    match v
    case Obj(fields) => RestoredFieldsExact(lib, fields);
    case Arr(items) => RestoredItemsExact(lib, items);
    case _ =>
  }

  predicate FieldsKept(lib: Lib, fields: seq<Field>) {
    forall i :: 0 <= i < |fields| ==> lib.utf8(fields[i].name) && KeysKept(lib, fields[i].value)
  }

  lemma {:induction false} RestoredFieldsExact(lib: Lib, fields: seq<Field>)
    requires KeyLaw(lib)
    ensures |RestoredFields(lib, fields)| <= |JsonFields(lib, fields)|
    ensures FieldsKept(lib, fields) ==> RestoredFields(lib, fields) == JsonFields(lib, fields)
    ensures !FieldsKept(lib, fields) ==> |RestoredFields(lib, fields)| < |JsonFields(lib, fields)|
    decreases fields, 0
  {
    if fields != [] {
      RestoredExact(lib, fields[0].value);
      RestoredFieldsExact(lib, fields[1..]);
      assert fields == [fields[0]] + fields[1..];
      assert FieldsKept(lib, fields) <==>
        lib.utf8(fields[0].name) && KeysKept(lib, fields[0].value) && FieldsKept(lib, fields[1..]);
    }
  }

  predicate ItemsKept(lib: Lib, items: seq<Value>) {
    forall i :: 0 <= i < |items| ==> KeysKept(lib, items[i])
  }

  lemma {:induction false} RestoredItemsExact(lib: Lib, items: seq<Value>)
    requires KeyLaw(lib)
    ensures |RestoredItems(lib, items)| <= |JsonItems(lib, items)|
    ensures ItemsKept(lib, items) ==> RestoredItems(lib, items) == JsonItems(lib, items)
    ensures !ItemsKept(lib, items) ==> |RestoredItems(lib, items)| < |JsonItems(lib, items)|
    decreases items, 0
  {
    if items != [] {
      RestoredExact(lib, items[0]);
      RestoredItemsExact(lib, items[1..]);
      assert items == [items[0]] + items[1..];
      assert ItemsKept(lib, items) <==> KeysKept(lib, items[0]) && ItemsKept(lib, items[1..]);
    }
  }

  // ---------------------------------------------------------------- encoding denotes the value

  /** What rendering the value's fragment gives at a depth: refused only below the limit. */
  function Expected(lib: Lib, v: Value, depth: nat): Option<Bytes> {
    if IsStored(lib, v) && depth + StoredDepth(lib, v) > MAX_DEPTH + 1 then None
    else Some(Restored(lib, v))
  }

  /** The fragment stands for the value in the table. */
  ghost predicate Denotes(lib: Lib, content: Table, f: Fragment, v: Value) {
    && PrintableFragment(lib, f)
    && (f.ref != [] <==> IsStored(lib, v))
    && (f.ref != [] ==> |f.ref| == 64 && f.ref in content)
    && (forall depth: nat :: Render(lib, content, f, {}, depth) == Expected(lib, v, depth))
  }

  ghost predicate DenotesFields(lib: Lib, content: Table, members: seq<Member>, fields: seq<Field>) {
    && |members| == |fields|
    && forall i :: 0 <= i < |fields| ==>
         members[i].key == fields[i].name && Denotes(lib, content, members[i].value, fields[i].value)
  }

  ghost predicate DenotesItems(lib: Lib, content: Table, fragments: seq<Fragment>, items: seq<Value>) {
    && |fragments| == |items|
    && forall i :: 0 <= i < |items| ==> Denotes(lib, content, fragments[i], items[i])
  }

  /** A table grown from a consistent one still denotes. */
  lemma DenotesKept(lib: Lib, a: Table, b: Table, f: Fragment, v: Value)
    requires HashLaw(lib) && AllSound(lib, a) && Resolved(lib, a) && Keeps(a, b)
    requires Denotes(lib, a, f, v)
    ensures Denotes(lib, b, f, v)
  {
    KeepsAgrees(lib, a, b);
    forall depth: nat ensures Render(lib, b, f, {}, depth) == Expected(lib, v, depth) {
      RenderAgrees(lib, a, b, a.Keys, f, {}, depth);
      assert Render(lib, a, f, {}, depth) == Expected(lib, v, depth);
    }
  }

  // ---- strings

  /** The chunks are stored and concatenate to the data. */
  lemma {:induction false} SaveChunksOk(lib: Lib, w: Writer, data: Bytes, rank: map<Id, nat>) returns (rank': map<Id, nat>)
    requires Storage(lib) && WriterOk(lib, w, rank)
    requires SaveChunks(lib, w, data).Ok?
    ensures var (w', chunks) := SaveChunks(lib, w, data).value;
      && WriterOk(lib, w', rank')
      && Keeps(w.store.content, w'.store.content)
      && (forall c :: c in chunks ==> c in w'.store.content && lib.utf8(c) && |c| == 64)
      && ReadChunks(lib, w'.store.content, chunks) == Some(data)
    decreases |data|
  {
    hide WriterOk, Save, NodeAt, HashLaw, ZlibLaw, Keeps;
    KeepsReflexive(w.store.content);
    if data == [] {
      rank' := rank;
    } else {
      var n := Min(|data|, CHUNK_BYTES);
      var node := Node(KBytes, data[..n], [], [], []);
      var rank1 := SaveKeeps(lib, w, node, rank);
      var (w1, f) := Save(lib, w, node).value;
      rank' := SaveChunksOk(lib, w1, data[n..], rank1);
      var (w2, rest) := SaveChunks(lib, w1, data[n..]).value;
      NodeKept(lib, w1.store.content, w2.store.content, f.ref);
      KeepsTransitive(w.store.content, w1.store.content, w2.store.content);
      assert data == data[..n] + data[n..];
    }
  }

  lemma StringOk(lib: Lib, w: Writer, s: Bytes, key: Bytes, rank: map<Id, nat>) returns (rank': map<Id, nat>)
    requires Lawful(lib) && WriterOk(lib, w, rank)
    requires StringValue(lib, w, s, key).Ok?
    ensures var (w', f) := StringValue(lib, w, s, key).value;
      && WriterOk(lib, w', rank')
      && Keeps(w.store.content, w'.store.content)
      && Denotes(lib, w'.store.content, f, Str(s))
  {
    if |s| < INLINE_STRING {
      rank' := rank;
      InlineDenotes(lib, w.store.content, Str(s));
    } else {
      hide WriterOk, Save, Denotes, HashLaw, ZlibLaw, KeyLaw, TextLaw, NodeLaw, HexDecode, HexEncode, SaveChunks, Keeps;
      var hex := IsHexField(s, key);
      var data := if hex then HexDecode(s).value else s;
      var rank1 := SaveChunksOk(lib, w, data, rank);
      var (w1, chunks) := SaveChunks(lib, w, data).value;
      var node := Node(if hex then KHex else KString, [], [], [], chunks);
      StringNodePrintable(lib, node);
      rank' := SaveKeeps(lib, w1, node, rank1);
      var (w2, f) := Save(lib, w1, node).value;
      KeepsTransitive(w.store.content, w1.store.content, w2.store.content);
      ChunksKept(lib, w1, w2, rank1, chunks);
      StringNodeDenotes(lib, w2.store.content, f, s, node, data);
    }
  }

  lemma StringNodePrintable(lib: Lib, n: Node)
    requires n == Node(KHex, [], [], [], n.chunks) || n == Node(KString, [], [], [], n.chunks)
    requires forall c :: c in n.chunks ==> lib.utf8(c)
    ensures Savable(lib, n) && Saved(lib, n) == n
    ensures forall c :: c in NodeRefs(n) ==> c in n.chunks
  {
    assert FieldRefs(n.fields) + ItemRefs(n.items) + n.chunks == n.chunks;
  }

  lemma ChunksKept(lib: Lib, w: Writer, w': Writer, rank: map<Id, nat>, chunks: seq<Id>)
    requires HashLaw(lib) && WriterOk(lib, w, rank) && Keeps(w.store.content, w'.store.content)
    requires forall c :: c in chunks ==> c in w.store.content
    ensures ReadChunks(lib, w'.store.content, chunks) == ReadChunks(lib, w.store.content, chunks)
  {
    KeepsAgrees(lib, w.store.content, w'.store.content);
    ChunksAgree(lib, w.store.content, w'.store.content, w.store.content.Keys, chunks);
  }

  lemma StringNodeDenotes(lib: Lib, content: Table, f: Fragment, s: Bytes, n: Node, data: Bytes)
    requires |s| >= INLINE_STRING
    requires f.json == [] && |f.ref| == 64 && lib.utf8(f.ref)
    requires f.ref in content && NodeAt(lib, content, f.ref) == Some(n)
    requires ReadChunks(lib, content, n.chunks) == Some(data)
    requires (n.kind == KString && data == s) || (n.kind == KHex && HexEncode(data) == s)
    ensures Denotes(lib, content, f, Str(s))
  {
  }

  lemma InlineDenotes(lib: Lib, content: Table, v: Value)
    requires TextLaw(lib) && WellFormed(lib, v) && !IsStored(lib, v)
    ensures Denotes(lib, content, Fragment(Json(lib, v), []), v)
  {
    assert lib.canonical(Json(lib, v));
  }

  // ---- containers

  lemma {:induction false} FieldsRender(lib: Lib, content: Table, rank: map<Id, nat>, members: seq<Member>, fields: seq<Field>, visiting: set<Id>, depth: nat)
    requires Ranked(lib, content, rank) && Resolved(lib, content) && depth <= MAX_DEPTH
    requires DenotesFields(lib, content, members, fields)
    requires forall i :: 0 <= i < |members| ==> Outer(visiting, members[i].value, rank)
    ensures RenderFields(lib, content, RereadFields(lib, members), visiting, depth) ==
      if depth + 1 + FieldsDepth(lib, fields) > MAX_DEPTH + 1 then None else Some(RestoredFields(lib, fields))
    decreases |fields|
  {
    if fields != [] {
      var reread := RereadFields(lib, members);
      var f := members[0].value;
      assert Denotes(lib, content, f, fields[0].value);
      VisitingIrrelevant(lib, content, rank, f, visiting, {}, depth + 1);
      assert Render(lib, content, f, {}, depth + 1) == Expected(lib, fields[0].value, depth + 1);
      assert reread[1..] == RereadFields(lib, members[1..]);
      FieldsRender(lib, content, rank, members[1..], fields[1..], visiting, depth);
    }
  }

  lemma {:induction false} ItemsRender(lib: Lib, content: Table, rank: map<Id, nat>, fragments: seq<Fragment>, items: seq<Value>, visiting: set<Id>, depth: nat)
    requires Ranked(lib, content, rank) && Resolved(lib, content) && depth <= MAX_DEPTH
    requires DenotesItems(lib, content, fragments, items)
    requires forall i :: 0 <= i < |fragments| ==> Outer(visiting, fragments[i], rank)
    ensures RenderItems(lib, content, fragments, visiting, depth) ==
      if depth + 1 + ItemsDepth(lib, items) > MAX_DEPTH + 1 then None else Some(RestoredItems(lib, items))
    decreases |items|
  {
    if items != [] {
      var f := fragments[0];
      assert Denotes(lib, content, f, items[0]);
      VisitingIrrelevant(lib, content, rank, f, visiting, {}, depth + 1);
      assert Render(lib, content, f, {}, depth + 1) == Expected(lib, items[0], depth + 1);
      ItemsRender(lib, content, rank, fragments[1..], items[1..], visiting, depth);
    }
  }

  /** A saved object denotes its value. */
  lemma ObjectDenotes(lib: Lib, content: Table, rank: map<Id, nat>, f: Fragment, n: Node, fields: seq<Field>)
    requires Ranked(lib, content, rank) && Resolved(lib, content)
    requires f.json == [] && |f.ref| == 64 && lib.utf8(f.ref) && f.ref in content
    requires n.kind == KObject && NodeAt(lib, content, f.ref) == Some(Reread(lib, n))
    requires DenotesFields(lib, content, n.fields, fields) && IsStored(lib, Obj(fields))
    ensures Denotes(lib, content, f, Obj(fields))
  {
    forall depth: nat ensures Render(lib, content, f, {}, depth) == Expected(lib, Obj(fields), depth) {
      if depth <= MAX_DEPTH {
        var m := Reread(lib, n);
        ChildrenOuter(lib, content, rank, f, m, {});
        forall i | 0 <= i < |n.fields| ensures Outer({f.ref}, n.fields[i].value, rank) {
          assert m.fields[i].value == n.fields[i].value && {} + {f.ref} == {f.ref};
        }
        FieldsRender(lib, content, rank, n.fields, fields, {f.ref}, depth);
        assert {} + {f.ref} == {f.ref};
      }
    }
  }

  /** A saved array denotes its value. */
  lemma ArrayDenotes(lib: Lib, content: Table, rank: map<Id, nat>, f: Fragment, n: Node, items: seq<Value>)
    requires Ranked(lib, content, rank) && Resolved(lib, content)
    requires f.json == [] && |f.ref| == 64 && lib.utf8(f.ref) && f.ref in content
    requires n.kind == KArray && NodeAt(lib, content, f.ref) == Some(Reread(lib, n))
    requires DenotesItems(lib, content, n.items, items) && IsStored(lib, Arr(items))
    ensures Denotes(lib, content, f, Arr(items))
  {
    forall depth: nat ensures Render(lib, content, f, {}, depth) == Expected(lib, Arr(items), depth) {
      if depth <= MAX_DEPTH {
        ChildrenOuter(lib, content, rank, f, Reread(lib, n), {});
        assert {} + {f.ref} == {f.ref};
        ItemsRender(lib, content, rank, n.items, items, {f.ref}, depth);
      }
    }
  }

  /** A container whose children denote can be saved, and gets a node exactly when IsStored says so. */
  lemma FieldsClose(lib: Lib, content: Table, n: Node, fields: seq<Field>)
    requires n == Node(KObject, [], n.fields, [], []) && DenotesFields(lib, content, n.fields, fields)
    ensures Printable(lib, n)
    ensures forall c :: c in NodeRefs(n) ==> c in content
    ensures IsStored(lib, Obj(fields)) <==> !(NodeRefs(n) == [] && |Json(lib, Obj(fields))| < INLINE_CONTAINER)
  {
    var refs := FieldRefs(n.fields);
    assert refs + ItemRefs(n.items) + n.chunks == refs;
    forall i | 0 <= i < |fields|
      ensures PrintableFragment(lib, n.fields[i].value)
      ensures refs[i] != [] ==> refs[i] in content && refs[i] in NodeRefs(n)
      ensures refs[i] != [] <==> IsStored(lib, fields[i].value)
    {
      assert Denotes(lib, content, n.fields[i].value, fields[i].value);
      assert refs[i] in refs;
    }
    if NodeRefs(n) != [] {
      assert NodeRefs(n)[0] in refs;
    }
  }

  lemma ItemsClose(lib: Lib, content: Table, n: Node, items: seq<Value>)
    requires n == Node(KArray, [], [], n.items, []) && DenotesItems(lib, content, n.items, items)
    ensures Printable(lib, n)
    ensures forall c :: c in NodeRefs(n) ==> c in content
    ensures IsStored(lib, Arr(items)) <==> !(NodeRefs(n) == [] && |Json(lib, Arr(items))| < INLINE_CONTAINER)
  {
    var refs := ItemRefs(n.items);
    assert FieldRefs(n.fields) + refs + n.chunks == refs;
    forall i | 0 <= i < |items|
      ensures PrintableFragment(lib, n.items[i])
      ensures refs[i] != [] ==> refs[i] in content && refs[i] in NodeRefs(n)
      ensures refs[i] != [] <==> IsStored(lib, items[i])
    {
      assert Denotes(lib, content, n.items[i], items[i]);
      assert refs[i] in refs;
    }
    if NodeRefs(n) != [] {
      assert NodeRefs(n)[0] in refs;
    }
  }

  // ---- the whole value

  /** Encoding keeps the store consistent, changes no row, and yields a fragment for the value. */
  lemma {:induction false} EncodeOk(lib: Lib, w: Writer, v: Value, key: Bytes, rank: map<Id, nat>) returns (rank': map<Id, nat>)
    requires Lawful(lib) && WellFormed(lib, v) && WriterOk(lib, w, rank)
    requires Encode(lib, w, v, key).Ok?
    ensures var (w', f) := Encode(lib, w, v, key).value;
      && WriterOk(lib, w', rank')
      && Keeps(w.store.content, w'.store.content)
      && Denotes(lib, w'.store.content, f, v)
    decreases v, 1
  {
    hide WriterOk, Denotes, HashLaw, ZlibLaw, KeyLaw, TextLaw, NodeLaw, StringValue, Close, Keeps, DenotesFields, DenotesItems;
    match v
    case Scalar(text) =>
      rank' := rank;
      KeepsReflexive(w.store.content);
      InlineDenotes(lib, w.store.content, v);
    case Str(s) =>
      rank' := StringOk(lib, w, s, key, rank);
    case Obj(fields) =>
      var rank1 := EncodeFieldsOk(lib, w, fields, rank);
      var (w1, members) := EncodeFields(lib, w, fields).value;
      rank' := CloseObject(lib, w1, fields, members, rank1);
      var w2 := Close(lib, w1, v, Node(KObject, [], members, [], [])).value.0;
      KeepsTransitive(w.store.content, w1.store.content, w2.store.content);
    case Arr(items) =>
      var rank1 := EncodeItemsOk(lib, w, items, key, rank);
      var (w1, fragments) := EncodeItems(lib, w, items, key).value;
      rank' := CloseArray(lib, w1, items, fragments, rank1);
      var w2 := Close(lib, w1, v, Node(KArray, [], [], fragments, [])).value.0;
      KeepsTransitive(w.store.content, w1.store.content, w2.store.content);
  }

  lemma CloseObject(lib: Lib, w: Writer, fields: seq<Field>, members: seq<Member>, rank: map<Id, nat>) returns (rank': map<Id, nat>)
    requires Lawful(lib) && WellFormed(lib, Obj(fields)) && WriterOk(lib, w, rank)
    requires DenotesFields(lib, w.store.content, members, fields)
    requires Close(lib, w, Obj(fields), Node(KObject, [], members, [], [])).Ok?
    ensures var (w', f) := Close(lib, w, Obj(fields), Node(KObject, [], members, [], [])).value;
      && WriterOk(lib, w', rank')
      && Keeps(w.store.content, w'.store.content)
      && Denotes(lib, w'.store.content, f, Obj(fields))
  {
    hide Denotes, HashLaw, ZlibLaw, KeyLaw, TextLaw, NodeLaw, Save, NodeRefs, NodeBytes, KnownSound,
         AllSound, EdgesExact, Resolved, Ranked, Keeps, NodeAt, Json, IsStored, Printable, DenotesFields;
    var n := Node(KObject, [], members, [], []);
    FieldsClose(lib, w.store.content, n, fields);
    if IsStored(lib, Obj(fields)) {
      rank' := SaveKeeps(lib, w, n, rank);
      var (w', f) := Save(lib, w, n).value;
      DenotesFieldsKept(lib, w.store.content, w'.store.content, members, fields);
      ObjectDenotes(lib, w'.store.content, rank', f, n, fields);
    } else {
      rank' := rank;
      KeepsReflexive(w.store.content);
      InlineDenotes(lib, w.store.content, Obj(fields));
    }
  }

  lemma CloseArray(lib: Lib, w: Writer, items: seq<Value>, fragments: seq<Fragment>, rank: map<Id, nat>) returns (rank': map<Id, nat>)
    requires Lawful(lib) && WellFormed(lib, Arr(items)) && WriterOk(lib, w, rank)
    requires DenotesItems(lib, w.store.content, fragments, items)
    requires Close(lib, w, Arr(items), Node(KArray, [], [], fragments, [])).Ok?
    ensures var (w', f) := Close(lib, w, Arr(items), Node(KArray, [], [], fragments, [])).value;
      && WriterOk(lib, w', rank')
      && Keeps(w.store.content, w'.store.content)
      && Denotes(lib, w'.store.content, f, Arr(items))
  {
    hide Denotes, HashLaw, ZlibLaw, KeyLaw, TextLaw, NodeLaw, Save, NodeRefs, NodeBytes, KnownSound,
         AllSound, EdgesExact, Resolved, Ranked, Keeps, NodeAt, Json, IsStored, Printable, DenotesItems;
    var n := Node(KArray, [], [], fragments, []);
    ItemsClose(lib, w.store.content, n, items);
    if IsStored(lib, Arr(items)) {
      rank' := SaveKeeps(lib, w, n, rank);
      var (w', f) := Save(lib, w, n).value;
      DenotesItemsKept(lib, w.store.content, w'.store.content, fragments, items);
      ArrayDenotes(lib, w'.store.content, rank', f, n, items);
    } else {
      rank' := rank;
      KeepsReflexive(w.store.content);
      InlineDenotes(lib, w.store.content, Arr(items));
    }
  }

  lemma DenotesFieldsKept(lib: Lib, a: Table, b: Table, members: seq<Member>, fields: seq<Field>)
    requires HashLaw(lib) && AllSound(lib, a) && Resolved(lib, a) && Keeps(a, b)
    requires DenotesFields(lib, a, members, fields)
    ensures DenotesFields(lib, b, members, fields)
  {
    hide Denotes, AllSound, Resolved, Keeps, HashLaw;
    forall i | 0 <= i < |fields| ensures Denotes(lib, b, members[i].value, fields[i].value) {
      DenotesKept(lib, a, b, members[i].value, fields[i].value);
    }
  }

  lemma DenotesItemsKept(lib: Lib, a: Table, b: Table, fragments: seq<Fragment>, items: seq<Value>)
    requires HashLaw(lib) && AllSound(lib, a) && Resolved(lib, a) && Keeps(a, b)
    requires DenotesItems(lib, a, fragments, items)
    ensures DenotesItems(lib, b, fragments, items)
  {
    hide Denotes, AllSound, Resolved, Keeps, HashLaw;
    forall i | 0 <= i < |items| ensures Denotes(lib, b, fragments[i], items[i]) {
      DenotesKept(lib, a, b, fragments[i], items[i]);
    }
  }

  lemma {:induction false} EncodeFieldsOk(lib: Lib, w: Writer, fields: seq<Field>, rank: map<Id, nat>) returns (rank': map<Id, nat>)
    requires Lawful(lib) && WriterOk(lib, w, rank)
    requires forall i :: 0 <= i < |fields| ==> WellFormed(lib, fields[i].value)
    requires EncodeFields(lib, w, fields).Ok?
    ensures var (w', members) := EncodeFields(lib, w, fields).value;
      && WriterOk(lib, w', rank')
      && Keeps(w.store.content, w'.store.content)
      && DenotesFields(lib, w'.store.content, members, fields)
    decreases fields, 0
  {
    hide Denotes, HashLaw, ZlibLaw, KeyLaw, TextLaw, NodeLaw, KnownSound, AllSound, EdgesExact, Resolved, Ranked, Keeps, Encode;
    if fields == [] {
      rank' := rank;
      KeepsReflexive(w.store.content);
    } else {
      var rank1 := EncodeOk(lib, w, fields[0].value, fields[0].name, rank);
      var (w1, f) := Encode(lib, w, fields[0].value, fields[0].name).value;
      rank' := EncodeFieldsOk(lib, w1, fields[1..], rank1);
      var w2 := EncodeFields(lib, w1, fields[1..]).value.0;
      KeepsTransitive(w.store.content, w1.store.content, w2.store.content);
      DenotesKept(lib, w1.store.content, w2.store.content, f, fields[0].value);
    }
  }

  lemma {:induction false} EncodeItemsOk(lib: Lib, w: Writer, items: seq<Value>, key: Bytes, rank: map<Id, nat>) returns (rank': map<Id, nat>)
    requires Lawful(lib) && WriterOk(lib, w, rank)
    requires forall i :: 0 <= i < |items| ==> WellFormed(lib, items[i])
    requires EncodeItems(lib, w, items, key).Ok?
    ensures var (w', fragments) := EncodeItems(lib, w, items, key).value;
      && WriterOk(lib, w', rank')
      && Keeps(w.store.content, w'.store.content)
      && DenotesItems(lib, w'.store.content, fragments, items)
    decreases items, 0
  {
    hide Denotes, HashLaw, ZlibLaw, KeyLaw, TextLaw, NodeLaw, KnownSound, AllSound, EdgesExact, Resolved, Ranked, Keeps, Encode;
    if items == [] {
      rank' := rank;
      KeepsReflexive(w.store.content);
    } else {
      var rank1 := EncodeOk(lib, w, items[0], key, rank);
      var (w1, f) := Encode(lib, w, items[0], key).value;
      rank' := EncodeItemsOk(lib, w1, items[1..], key, rank1);
      var w2 := EncodeItems(lib, w1, items[1..], key).value.0;
      KeepsTransitive(w.store.content, w1.store.content, w2.store.content);
      DenotesKept(lib, w1.store.content, w2.store.content, f, items[0]);
    }
  }

  // ---------------------------------------------------------------- the theorem

  /** Levels of nodes of a payload; a value inlined at the top gets one node of its own. */
  function PayloadDepth(lib: Lib, v: Value): nat {
    Max(1, StoredDepth(lib, v))
  }

  lemma EncodePayloadOk(lib: Lib, s: Store, v: Value, rank: map<Id, nat>) returns (rank': map<Id, nat>)
    requires Lawful(lib) && WellFormed(lib, v) && Consistent(lib, s, rank)
    requires EncodePayload(lib, s, v).Ok?
    ensures var (s', p) := EncodePayload(lib, s, v).value;
      && Consistent(lib, s', rank')
      && Keeps(s.content, s'.content)
      && p.Manifest? && p.version == 2 && |p.root| == 64 && p.root in s'.content
      && DecodePayload(lib, s'.content, p) ==
           if PayloadDepth(lib, v) <= MAX_DEPTH + 1 then Some(Restored(lib, v)) else None
  {
    hide HashLaw, ZlibLaw, KeyLaw, TextLaw, NodeLaw, AllSound, EdgesExact, Resolved, Ranked, Keeps, Encode, Save, NodeAt;
    var w := Writer(s, map[]);
    var rank1 := EncodeOk(lib, w, v, [], rank);
    var (w1, f) := Encode(lib, w, v, []).value;
    if f.ref != [] {
      rank' := rank1;
      assert f == Fragment([], f.ref) by { RefsCarryNoText(lib, w, v, []); }
      assert Render(lib, w1.store.content, f, {}, 0) == Expected(lib, v, 0);
    } else {
      var n := Node(KJson, f.json, [], [], []);
      assert Render(lib, w1.store.content, f, {}, 0) == Expected(lib, v, 0);
      rank' := SaveKeeps(lib, w1, n, rank1);
      var (w2, g) := Save(lib, w1, n).value;
      KeepsTransitive(s.content, w1.store.content, w2.store.content);
      assert RereadFields(lib, []) == [];
      assert Render(lib, w2.store.content, g, {}, 0) == Some(f.json);
    }
  }

  /** The fragment of a stored value carries a reference and nothing else. */
  lemma RefsCarryNoText(lib: Lib, w: Writer, v: Value, key: Bytes)
    requires Encode(lib, w, v, key).Ok? && Encode(lib, w, v, key).value.1.ref != []
    ensures Encode(lib, w, v, key).value.1.json == []
  {
  }

  /** Decoding an encoded payload gives the direct JSON text exactly when the value is not nested
      too deep and no stored object has a key that is not valid UTF-8; and it still does in
      every later table that agrees on what the root reaches. */
  lemma PayloadRoundTrip(lib: Lib, s: Store, v: Value, rank: map<Id, nat>, later: Table, ids: set<Id>)
    requires Lawful(lib) && WellFormed(lib, v) && Consistent(lib, s, rank)
    requires EncodePayload(lib, s, v).Ok?
    requires var (s', p) := EncodePayload(lib, s, v).value;
      p.Manifest? && p.root in ids && Agree(lib, s'.content, later, ids)
    ensures var (s', p) := EncodePayload(lib, s, v).value;
      DecodePayload(lib, later, p) == Some(Json(lib, v)) <==>
        PayloadDepth(lib, v) <= MAX_DEPTH + 1 && KeysKept(lib, v)
  {
    hide HashLaw, ZlibLaw, KeyLaw, TextLaw, NodeLaw, Consistent, Agree, Render, EncodePayload, Json, Restored, StoredDepth, KeysKept;
    var (s', p) := EncodePayload(lib, s, v).value;
    var _ := EncodePayloadOk(lib, s, v, rank);
    RenderAgrees(lib, s'.content, later, ids, Fragment([], p.root), {}, 0);
    RestoredExact(lib, v);
  }

  /** Levels of containers of the value, whatever is stored. */
  function Nesting(v: Value): nat
    decreases v, 1
  {
    match v
    case Obj(fields) => 1 + FieldsNesting(fields)
    case Arr(items) => 1 + ItemsNesting(items)
    case _ => 0
  }

  function FieldsNesting(fields: seq<Field>): nat
    decreases fields, 0
  {
    if fields == [] then 0 else Max(Nesting(fields[0].value), FieldsNesting(fields[1..]))
  }

  function ItemsNesting(items: seq<Value>): nat
    decreases items, 0
  {
    if items == [] then 0 else Max(Nesting(items[0]), ItemsNesting(items[1..]))
  }

  /** A value nested at most 256 levels is never refused. */
  lemma {:induction false} NestingBoundsDepth(lib: Lib, v: Value)
    ensures StoredDepth(lib, v) <= Nesting(v) + 1
    decreases v, 1
  {
    match v
    case Obj(fields) => FieldsNestingBounds(lib, fields);
    case Arr(items) => ItemsNestingBounds(lib, items);
    case _ =>
  }

  lemma {:induction false} FieldsNestingBounds(lib: Lib, fields: seq<Field>)
    ensures FieldsDepth(lib, fields) <= FieldsNesting(fields) + 1
    decreases fields, 0
  {
    if fields != [] {
      NestingBoundsDepth(lib, fields[0].value);
      FieldsNestingBounds(lib, fields[1..]);
    }
  }

  lemma {:induction false} ItemsNestingBounds(lib: Lib, items: seq<Value>)
    ensures ItemsDepth(lib, items) <= ItemsNesting(items) + 1
    decreases items, 0
  {
    if items != [] {
      NestingBoundsDepth(lib, items[0]);
      ItemsNestingBounds(lib, items[1..]);
    }
  }
}

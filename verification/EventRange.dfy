/** The range read on payloads this program wrote: for every encoded event it returns the bytes of
    the packet that was put in. */
module EventRanges {
  import opened Basics
  import opened Content
  import opened Graph
  import opened RoundTrip
  import opened Ranges

  // ---------------------------------------------------------------- the nodes of an encoded value

  /** The reference leads to a node of the kind of the value: objects name their members, string chunks
      are binary. */
  ghost predicate Shaped(lib: Lib, content: Table, f: Fragment, v: Value)
    decreases v
  {
    f.ref != [] ==>
      && f.ref in content && NodeAt(lib, content, f.ref).Some?
      && var n := NodeAt(lib, content, f.ref).value;
         match v
         case Scalar(_) => false
         case Str(_) => n.fields == [] && n.kind in {KString, KHex} && AllBinary(lib, content, n.chunks)
         case Arr(_) => n.fields == [] && n.kind == KArray
         case Obj(fields) =>
           && n.kind == KObject && |n.fields| == |fields|
           && forall i :: 0 <= i < |fields| ==>
                n.fields[i].key == lib.sanitize(fields[i].name) && Shaped(lib, content, n.fields[i].value, fields[i].value)
  }

  ghost predicate AllBinary(lib: Lib, content: Table, chunks: seq<Id>) {
    forall c :: c in chunks ==> c in content && IsBinary(lib, content, c) && c != [] && NodeAt(lib, content, c).Some?
  }

  ghost predicate ShapedFields(lib: Lib, content: Table, members: seq<Member>, fields: seq<Field>) {
    && |members| == |fields|
    && forall i :: 0 <= i < |fields| ==>
         members[i].key == fields[i].name && Shaped(lib, content, members[i].value, fields[i].value)
  }

  lemma {:induction false} ShapedKept(lib: Lib, a: Table, b: Table, f: Fragment, v: Value)
    requires Keeps(a, b) && Shaped(lib, a, f, v)
    ensures Shaped(lib, b, f, v)
    decreases v
  {
    if f.ref != [] {
      NodeKept(lib, a, b, f.ref);
      var n := NodeAt(lib, a, f.ref).value;
      match v
      case Obj(fields) =>
        forall i | 0 <= i < |fields| ensures Shaped(lib, b, n.fields[i].value, fields[i].value) {
          ShapedKept(lib, a, b, n.fields[i].value, fields[i].value);
        }
      case _ =>
    }
  }

  lemma ShapedFieldsKept(lib: Lib, a: Table, b: Table, members: seq<Member>, fields: seq<Field>)
    requires Keeps(a, b) && ShapedFields(lib, a, members, fields)
    ensures ShapedFields(lib, b, members, fields)
  {
    hide Shaped, Keeps;
    forall i | 0 <= i < |fields| ensures Shaped(lib, b, members[i].value, fields[i].value) {
      ShapedKept(lib, a, b, members[i].value, fields[i].value);
    }
  }

  /** What Save leaves under the reference is what it wrote or found. */
  lemma SaveRaw(lib: Lib, w: Writer, n: Node)
    requires ZlibLaw(lib) && KnownSound(lib, w) && Save(lib, w, n).Ok?
    ensures var (w', f) := Save(lib, w, n).value;
      NodeBytes(lib, n).Some? && f.ref in w'.store.content
      && RowBytes(lib, f.ref, w'.store.content[f.ref]) == NodeBytes(lib, n)
  {
    hide NodeBytes, NodeRefs, RowBytes, Pack;
    if NodeBytes(lib, n).Some? && |NodeBytes(lib, n).value| <= MAX_OBJECT_BYTES {
      PackUnpack(lib, NodeBytes(lib, n).value);
    }
  }

  lemma {:induction false} ChunksBinary(lib: Lib, w: Writer, data: Bytes, rank: map<Id, nat>)
    requires Storage(lib) && WriterOk(lib, w, rank) && SaveChunks(lib, w, data).Ok?
    ensures var (w', chunks) := SaveChunks(lib, w, data).value; AllBinary(lib, w'.store.content, chunks)
    decreases |data|
  {
    hide Save, Consistent, HashLaw, KeyLaw, NodeLaw, KnownSound, ZlibLaw, RowBytes, Keeps;
    if data != [] {
      var n := Min(|data|, CHUNK_BYTES);
      var node := Node(KBytes, data[..n], [], [], []);
      SaveRaw(lib, w, node);
      var rank1 := SaveKeeps(lib, w, node, rank);
      var (w1, f) := Save(lib, w, node).value;
      ChunksBinary(lib, w1, data[n..], rank1);
      var _ := SaveChunksOk(lib, w1, data[n..], rank1);
      var (w2, rest) := SaveChunks(lib, w1, data[n..]).value;
      BinaryKept(lib, w1.store.content, w2.store.content, f.ref);
      NodeKept(lib, w1.store.content, w2.store.content, f.ref);
      hide IsBinary, NodeAt;
      forall c | c in [f.ref] + rest ensures c in w2.store.content && IsBinary(lib, w2.store.content, c) && c != [] && NodeAt(lib, w2.store.content, c).Some? {
      }
    }
  }

  lemma BinaryKept(lib: Lib, a: Table, b: Table, id: Id)
    requires Keeps(a, b) && id in a && IsBinary(lib, a, id)
    ensures id in b && IsBinary(lib, b, id)
  {
  }

  lemma AllBinaryKept(lib: Lib, a: Table, b: Table, chunks: seq<Id>)
    requires Keeps(a, b) && AllBinary(lib, a, chunks)
    ensures AllBinary(lib, b, chunks)
  {
    hide Keeps, IsBinary, NodeAt;
    forall c | c in chunks ensures c in b && IsBinary(lib, b, c) && NodeAt(lib, b, c).Some? {
      BinaryKept(lib, a, b, c);
      NodeKept(lib, a, b, c);
    }
  }

  lemma StringShaped(lib: Lib, w: Writer, s: Bytes, key: Bytes, rank: map<Id, nat>)
    requires Lawful(lib) && WriterOk(lib, w, rank) && StringValue(lib, w, s, key).Ok?
    ensures var (w', f) := StringValue(lib, w, s, key).value; Shaped(lib, w'.store.content, f, Str(s))
  {
    if |s| >= INLINE_STRING {
      hide Shaped, Savable, Saved, NodeRefs, IsHexField, WriterOk, Save, HashLaw, ZlibLaw, KeyLaw, TextLaw, NodeLaw, HexDecode, HexEncode, SaveChunks, Keeps, AllBinary, NodeAt;
      var hex := IsHexField(s, key);
      var data := if hex then HexDecode(s).value else s;
      ChunksBinary(lib, w, data, rank);
      var rank1 := SaveChunksOk(lib, w, data, rank);
      var (w1, chunks) := SaveChunks(lib, w, data).value;
      var node := Node(if hex then KHex else KString, [], [], [], chunks);
      StringNodePrintable(lib, node);
      var _ := SaveKeeps(lib, w1, node, rank1);
      var (w2, f) := Save(lib, w1, node).value;
      AllBinaryKept(lib, w1.store.content, w2.store.content, chunks);
      StringNodeShaped(lib, w2.store.content, f, s, node);
    }
  }

  lemma StringNodeShaped(lib: Lib, content: Table, f: Fragment, s: Bytes, n: Node)
    requires f.ref in content && NodeAt(lib, content, f.ref) == Some(n) && n.fields == [] && n.kind in {KString, KHex}
    requires AllBinary(lib, content, n.chunks)
    ensures Shaped(lib, content, f, Str(s))
  {
  }

  lemma {:induction false} EncodeShaped(lib: Lib, w: Writer, v: Value, key: Bytes, rank: map<Id, nat>)
    requires Lawful(lib) && WellFormed(lib, v) && WriterOk(lib, w, rank) && Encode(lib, w, v, key).Ok?
    ensures var (w', f) := Encode(lib, w, v, key).value; Shaped(lib, w'.store.content, f, v)
    decreases v, 1
  {
    hide WriterOk, Denotes, HashLaw, ZlibLaw, KeyLaw, TextLaw, NodeLaw, StringValue, Close, Keeps, DenotesFields, DenotesItems, ShapedFields;
    match v
    case Scalar(_) =>
    case Str(s) => StringShaped(lib, w, s, key, rank);
    case Obj(fields) =>
      EncodeFieldsShaped(lib, w, fields, rank);
      var rank1 := EncodeFieldsOk(lib, w, fields, rank);
      var (w1, members) := EncodeFields(lib, w, fields).value;
      CloseShaped(lib, w1, fields, members, rank1);
    case Arr(items) =>
      var rank1 := EncodeItemsOk(lib, w, items, key, rank);
      var (w1, fragments) := EncodeItems(lib, w, items, key).value;
      CloseArrayShaped(lib, w1, items, fragments, rank1);
  }

  lemma CloseShaped(lib: Lib, w: Writer, fields: seq<Field>, members: seq<Member>, rank: map<Id, nat>)
    requires Lawful(lib) && WriterOk(lib, w, rank)
    requires DenotesFields(lib, w.store.content, members, fields) && ShapedFields(lib, w.store.content, members, fields)
    requires Close(lib, w, Obj(fields), Node(KObject, [], members, [], [])).Ok?
    ensures var (w', f) := Close(lib, w, Obj(fields), Node(KObject, [], members, [], [])).value;
      Shaped(lib, w'.store.content, f, Obj(fields))
  {
    hide Denotes, HashLaw, ZlibLaw, KeyLaw, TextLaw, NodeLaw, Save, NodeRefs, NodeBytes, WriterOk, Keeps, NodeAt, Json, IsStored, Printable, DenotesFields;
    var n := Node(KObject, [], members, [], []);
    FieldsClose(lib, w.store.content, n, fields);
    if !(NodeRefs(n) == [] && |Json(lib, Obj(fields))| < INLINE_CONTAINER) {
      var _ := SaveKeeps(lib, w, n, rank);
      var (w', f) := Save(lib, w, n).value;
      ShapedFieldsKept(lib, w.store.content, w'.store.content, members, fields);
    }
  }

  lemma CloseArrayShaped(lib: Lib, w: Writer, items: seq<Value>, fragments: seq<Fragment>, rank: map<Id, nat>)
    requires Lawful(lib) && WriterOk(lib, w, rank) && DenotesItems(lib, w.store.content, fragments, items)
    requires Close(lib, w, Arr(items), Node(KArray, [], [], fragments, [])).Ok?
    ensures var (w', f) := Close(lib, w, Arr(items), Node(KArray, [], [], fragments, [])).value;
      Shaped(lib, w'.store.content, f, Arr(items))
  {
    hide Denotes, HashLaw, ZlibLaw, KeyLaw, TextLaw, NodeLaw, Save, NodeRefs, NodeBytes, WriterOk, Keeps, NodeAt, Json, IsStored, Printable, DenotesItems;
    var n := Node(KArray, [], [], fragments, []);
    ItemsClose(lib, w.store.content, n, items);
    if !(NodeRefs(n) == [] && |Json(lib, Arr(items))| < INLINE_CONTAINER) {
      var _ := SaveKeeps(lib, w, n, rank);
    }
  }

  lemma {:induction false} EncodeFieldsShaped(lib: Lib, w: Writer, fields: seq<Field>, rank: map<Id, nat>)
    requires Lawful(lib) && WriterOk(lib, w, rank) && EncodeFields(lib, w, fields).Ok?
    requires forall i :: 0 <= i < |fields| ==> WellFormed(lib, fields[i].value)
    ensures var (w', members) := EncodeFields(lib, w, fields).value; ShapedFields(lib, w'.store.content, members, fields)
    decreases fields, 0
  {
    hide Denotes, HashLaw, ZlibLaw, KeyLaw, TextLaw, NodeLaw, WriterOk, Keeps, Encode, Shaped, DenotesFields;
    if fields != [] {
      EncodeShaped(lib, w, fields[0].value, fields[0].name, rank);
      var rank1 := EncodeOk(lib, w, fields[0].value, fields[0].name, rank);
      var (w1, f) := Encode(lib, w, fields[0].value, fields[0].name).value;
      EncodeFieldsShaped(lib, w1, fields[1..], rank1);
      var _ := EncodeFieldsOk(lib, w1, fields[1..], rank1);
      var w2 := EncodeFields(lib, w1, fields[1..]).value.0;
      ShapedKept(lib, w1.store.content, w2.store.content, f, fields[0].value);
    }
  }

  // ---------------------------------------------------------------- in later tables

  /** Both tables give the same checked bytes under every id of `ids`, and `ids` is closed. */
  ghost predicate SameBytes(lib: Lib, a: Table, b: Table, ids: set<Id>) {
    forall id :: id in ids ==>
      && ReadObject(lib, a, id) == ReadObject(lib, b, id)
      && (NodeAt(lib, a, id).Some? ==> forall c :: c in NodeRefs(NodeAt(lib, a, id).value) ==> c in ids)
  }

  lemma SameNode(lib: Lib, a: Table, b: Table, id: Id)
    requires ReadObject(lib, a, id) == ReadObject(lib, b, id)
    ensures NodeAt(lib, a, id) == NodeAt(lib, b, id)
    ensures NodeAt(lib, a, id).Some? ==> id in a && id in b && (IsBinary(lib, a, id) <==> IsBinary(lib, b, id))
  {
    hide Unpack, DecodeNode;
  }

  lemma SameAgrees(lib: Lib, a: Table, b: Table, ids: set<Id>)
    requires SameBytes(lib, a, b, ids)
    ensures Agree(lib, a, b, ids)
  {
    hide ReadObject, NodeAt, NodeRefs;
    forall id | id in ids ensures NodeAt(lib, a, id) == NodeAt(lib, b, id) {
      SameNode(lib, a, b, id);
    }
  }

  lemma {:induction false} ShapedSame(lib: Lib, a: Table, b: Table, ids: set<Id>, f: Fragment, v: Value)
    requires SameBytes(lib, a, b, ids) && Within(f, ids) && Shaped(lib, a, f, v)
    ensures Shaped(lib, b, f, v)
    decreases v
  {
    hide ReadObject, NodeAt, IsBinary, NodeRefs;
    if f.ref != [] {
      SameNode(lib, a, b, f.ref);
      var n := NodeAt(lib, a, f.ref).value;
      ChildrenWithin(n, ids);
      match v
      case Obj(fields) =>
        forall i | 0 <= i < |fields| ensures Shaped(lib, b, n.fields[i].value, fields[i].value) {
          ShapedSame(lib, a, b, ids, n.fields[i].value, fields[i].value);
        }
      case Str(_) => BinarySame(lib, a, b, ids, n.chunks);
      case _ =>
    }
  }

  lemma BinarySame(lib: Lib, a: Table, b: Table, ids: set<Id>, chunks: seq<Id>)
    requires SameBytes(lib, a, b, ids) && AllBinary(lib, a, chunks) && forall c :: c in chunks ==> c in ids || c == []
    ensures AllBinary(lib, b, chunks)
  {
    hide ReadObject, NodeAt, IsBinary, NodeRefs;
    forall c | c in chunks ensures c in b && IsBinary(lib, b, c) && NodeAt(lib, b, c).Some? {
      SameNode(lib, a, b, c);
    }
  }

  // ---------------------------------------------------------------- the theorem

  /** At most one member of the object reads as `key`. */
  ghost predicate Once(lib: Lib, v: Value, key: Bytes) {
    v.Obj? ==> forall i, j :: 0 <= i < j < |v.fields| && lib.sanitize(v.fields[i].name) == key ==> lib.sanitize(v.fields[j].name) != key
  }

  /** So it is with the names asked for, in the event and in its raw_packet, as json.Marshal ensures of the structs
      they are. Nothing is asked of other members. */
  ghost predicate PathOk(lib: Lib, v: Value) {
    && Once(lib, v, RAW_PACKET)
    && (v.Obj? ==> forall i :: 0 <= i < |v.fields| && lib.sanitize(v.fields[i].name) == RAW_PACKET ==>
          Once(lib, v.fields[i].value, PACKET_HEX) && Once(lib, v.fields[i].value, CAPTURE_TRUNCATED))
  }

  lemma ShapedUnambiguous(lib: Lib, rd: Reader, content: Table, f: Fragment, v: Value, key: Bytes)
    requires KeyLaw(lib) && lib.utf8(key) && Shaped(lib, content, f, v) && Once(lib, v, key)
    ensures Unambiguous(lib, rd, content, f, key)
  {
    if f.ref != [] && v.Obj? {
      ShapedNames(lib, content, f, v);
      hide Shaped, NodeAt;
      FieldsTold(lib, rd, content, NodeAt(lib, content, f.ref).value.fields, v, key);
    }
  }

  lemma ShapedNames(lib: Lib, content: Table, f: Fragment, v: Value)
    requires Shaped(lib, content, f, v) && f.ref != [] && v.Obj?
    ensures NodeAt(lib, content, f.ref).Some?
    ensures var fields := NodeAt(lib, content, f.ref).value.fields;
      |fields| == |v.fields| && forall i :: 0 <= i < |fields| ==> fields[i].key == lib.sanitize(v.fields[i].name)
  {
    hide NodeAt;
  }

  lemma FieldsTold(lib: Lib, rd: Reader, content: Table, fields: seq<Member>, v: Value, key: Bytes)
    requires KeyLaw(lib) && v.Obj? && Once(lib, v, key)
    requires |fields| == |v.fields| && forall i :: 0 <= i < |fields| ==> fields[i].key == lib.sanitize(v.fields[i].name)
    ensures ToldApart(lib, rd, content, fields, key)
  {
    hide Render, Same, KeyLaw;
    FindMemberFinds(fields, key);
    if FindMember(fields, key).Ok? {
      var j :| 0 <= j < |fields| && fields[j].key == key && fields[j].value == FindMember(fields, key).value;
      forall i | LastAt(lib, Keys(fields), key, i) ensures i == j {
        KeyReads(lib, fields, v, key, i);
      }
    } else {
      forall i ensures !LastAt(lib, Keys(fields), key, i) {
        if LastAt(lib, Keys(fields), key, i) {
          KeyReads(lib, fields, v, key, i);
        }
      }
    }
  }

  lemma KeyReads(lib: Lib, fields: seq<Member>, v: Value, key: Bytes, i: int)
    requires KeyLaw(lib) && v.Obj? && LastAt(lib, Keys(fields), key, i)
    requires |fields| == |v.fields| && forall i :: 0 <= i < |fields| ==> fields[i].key == lib.sanitize(v.fields[i].name)
    ensures 0 <= i < |fields| && Keys(fields)[i] == fields[i].key == key
  {
  }

  lemma ShapedBinary(lib: Lib, content: Table, f: Fragment, v: Value)
    requires Shaped(lib, content, f, v)
    ensures BinaryField(lib, content, f)
  {
  }

  /** A member picked from a shaped object is inline, or shaped like the value of that name. */
  lemma ShapedChild(lib: Lib, rd: Reader, content: Table, f: Fragment, v: Value, key: Bytes) returns (u: Value)
    requires Shaped(lib, content, f, v) && Child(lib, rd, content, f, key).Ok?
    ensures Shaped(lib, content, Child(lib, rd, content, f, key).value, u)
    ensures u == Str([]) || (v.Obj? && exists i :: 0 <= i < |v.fields| && lib.sanitize(v.fields[i].name) == key && v.fields[i].value == u)
  {
    u := Str([]);
    if f.ref != [] {
      var n := NodeAt(lib, content, f.ref).value;
      assert ReadNode(lib, content, f.ref) == Ok(n);
      FindMemberFinds(n.fields, key);
      var i :| 0 <= i < |n.fields| && n.fields[i].key == key && n.fields[i].value == FindMember(n.fields, key).value;
      u := v.fields[i].value;
      assert lib.sanitize(v.fields[i].name) == key;
    }
  }

  lemma ShapedPlainly(lib: Lib, rd: Reader, content: Table, f: Fragment, v: Value)
    requires KeyLaw(lib) && NameLaw(lib) && Shaped(lib, content, f, v) && PathOk(lib, v)
    ensures Plainly(lib, rd, content, f)
  {
    hide Shaped, Once, Child, Unambiguous, BinaryField, KeyLaw;
    ShapedUnambiguous(lib, rd, content, f, v, RAW_PACKET);
    if Child(lib, rd, content, f, RAW_PACKET).Ok? {
      var raw := Child(lib, rd, content, f, RAW_PACKET).value;
      var u := ShapedChild(lib, rd, content, f, v, RAW_PACKET);
      StringNames(lib);
      ShapedUnambiguous(lib, rd, content, raw, u, PACKET_HEX);
      ShapedUnambiguous(lib, rd, content, raw, u, CAPTURE_TRUNCATED);
      if Child(lib, rd, content, raw, PACKET_HEX).Ok? {
        var t := ShapedChild(lib, rd, content, raw, u, PACKET_HEX);
        ShapedBinary(lib, content, Child(lib, rd, content, raw, PACKET_HEX).value, t);
      }
    }
  }

  lemma StringNames(lib: Lib)
    ensures forall key :: Once(lib, Str([]), key)
  {
  }

  lemma InlineRootPlainly(lib: Lib, rd: Reader, content: Table, f: Fragment, text: Bytes)
    requires f.ref != [] && NodeAt(lib, content, f.ref) == Some(Node(KJson, text, [], [], []))
    ensures Plainly(lib, rd, content, f)
  {
    assert ReadNode(lib, content, f.ref) == Ok(Node(KJson, text, [], [], []));
    assert Child(lib, rd, content, f, RAW_PACKET) == InText(rd, text, RAW_PACKET);
  }

  lemma EncodedPlainly(lib: Lib, rd: Reader, s: Store, v: Value, rank: map<Id, nat>, later: Table, ids: set<Id>)
    requires Lawful(lib) && NameLaw(lib) && WellFormed(lib, v) && Consistent(lib, s, rank) && EncodePayload(lib, s, v).Ok? && PathOk(lib, v)
    requires var (s', p) := EncodePayload(lib, s, v).value; p.Manifest? && p.root in ids && SameBytes(lib, s'.content, later, ids)
    ensures var (s', p) := EncodePayload(lib, s, v).value; Plainly(lib, rd, later, RootFragment(p))
  {
    hide HashLaw, ZlibLaw, KeyLaw, TextLaw, NodeLaw, Consistent, Keeps, Encode, Save, NodeAt, Plainly, Shaped, Denotes, SameBytes, PathOk, NameLaw;
    var w := Writer(s, map[]);
    EncodeShaped(lib, w, v, [], rank);
    var rank1 := EncodeOk(lib, w, v, [], rank);
    var (w1, f) := Encode(lib, w, v, []).value;
    if f.ref != [] {
      RefsCarryNoText(lib, w, v, []);
      ShapedSame(lib, w1.store.content, later, ids, f, v);
      ShapedPlainly(lib, rd, later, f, v);
    } else {
      var n := Node(KJson, f.json, [], [], []);
      InlineSavable(lib, w1.store.content, f, v);
      var _ := SaveKeeps(lib, w1, n, rank1);
      var (w2, g) := Save(lib, w1, n).value;
      assert RereadFields(lib, []) == [];
      SameAt(lib, w2.store.content, later, ids, g.ref);
      InlineRootPlainly(lib, rd, later, g, f.json);
    }
  }

  lemma SameAt(lib: Lib, a: Table, b: Table, ids: set<Id>, id: Id)
    requires SameBytes(lib, a, b, ids) && id in ids
    ensures NodeAt(lib, a, id) == NodeAt(lib, b, id)
  {
    hide ReadObject, NodeAt, NodeRefs;
    SameNode(lib, a, b, id);
  }

  lemma InlineSavable(lib: Lib, content: Table, f: Fragment, v: Value)
    requires Denotes(lib, content, f, v)
    ensures Savable(lib, Node(KJson, f.json, [], [], [])) && NodeRefs(Node(KJson, f.json, [], [], [])) == []
  {
    assert FieldRefs([]) + ItemRefs([]) + [] == [];
  }

  /** For every event and every consistent store, now and in every later table that gives the same bytes for
      what the root reaches: reading a range of the encoded payload gives what the restored text says,
      packet bytes and errors alike. That text is the event's JSON unless a key was not valid UTF-8. */
  lemma EncodedRange(lib: Lib, rd: Reader, s: Store, v: Value, rank: map<Id, nat>, later: Table, ids: set<Id>, offset: nat, length: nat)
    requires Lawful(lib) && JsonLawful(lib, rd) && WellFormed(lib, v) && Consistent(lib, s, rank)
    requires EncodePayload(lib, s, v).Ok? && PayloadDepth(lib, v) <= MAX_DEPTH + 1 && lib.valid(Restored(lib, v))
    requires var (s', p) := EncodePayload(lib, s, v).value; p.Manifest? && p.root in ids && SameBytes(lib, s'.content, later, ids)
    requires PathOk(lib, v) && length > 0
    ensures var (s', p) := EncodePayload(lib, s, v).value;
      RangeFromPayload(lib, rd, later, p, offset, length) == RangeFromText(rd, Restored(lib, v), offset, length)
    ensures KeysKept(lib, v) ==> Restored(lib, v) == Json(lib, v)
  {
    var (s', p) := EncodePayload(lib, s, v).value;
    EncodedPlainly(lib, rd, s, v, rank, later, ids);
    var _ := EncodePayloadOk(lib, s, v, rank);
    RestoredExact(lib, v);
    SameAgrees(lib, s'.content, later, ids);
    RenderAgrees(lib, s'.content, later, ids, Fragment([], p.root), {}, 0);
    hide Plainly, Lawful, EncodePayload, Consistent, RangeFromPayload, RangeFromText, KeyLaw, GrammarLaw, ObjectLaw, StringLaw, HexLaw, SameBytes, Agree, Render;
    RangeAgrees(lib, rd, later, p, offset, length);
  }

  // ---------------------------------------------------------------- what the text of an event says

  function Names(fields: seq<Field>): (r: seq<Bytes>)
    ensures |r| == |fields| && forall i :: 0 <= i < |r| ==> r[i] == fields[i].name
  {
    seq(|fields|, i requires 0 <= i < |fields| => fields[i].name)
  }

  /** The names as they are in a node. */
  function RereadNames(lib: Lib, fields: seq<Field>): (r: seq<Bytes>)
    ensures |r| == |fields| && forall i :: 0 <= i < |r| ==> r[i] == lib.sanitize(fields[i].name)
  {
    seq(|fields|, i requires 0 <= i < |fields| => lib.sanitize(fields[i].name))
  }

  /** The texts of the members, as they are in the JSON or as they are restored. */
  function Texts(lib: Lib, fields: seq<Field>, stored: bool): (r: seq<Bytes>)
    ensures |r| == |fields|
    ensures forall i :: 0 <= i < |r| ==> r[i] == if stored then Restored(lib, fields[i].value) else Json(lib, fields[i].value)
  {
    seq(|fields|, i requires 0 <= i < |fields| => if stored then Restored(lib, fields[i].value) else Json(lib, fields[i].value))
  }

  lemma {:induction false} JsonBody(lib: Lib, fields: seq<Field>)
    ensures JsonFields(lib, fields) == ObjectBody(lib, Names(fields), Texts(lib, fields, false))
  {
    if fields != [] {
      JsonBody(lib, fields[1..]);
      assert Names(fields)[1..] == Names(fields[1..]) && Texts(lib, fields, false)[1..] == Texts(lib, fields[1..], false);
    }
  }

  lemma {:induction false} RestoredBody(lib: Lib, fields: seq<Field>)
    ensures RestoredFields(lib, fields) == ObjectBody(lib, RereadNames(lib, fields), Texts(lib, fields, true))
  {
    if fields != [] {
      RestoredBody(lib, fields[1..]);
      assert RereadNames(lib, fields)[1..] == RereadNames(lib, fields[1..]) && Texts(lib, fields, true)[1..] == Texts(lib, fields[1..], true);
    }
  }

  /** What is restored follows the JSON grammar. */
  lemma {:induction false} RestoredText(lib: Lib, rd: Reader, v: Value)
    requires GrammarLaw(lib, rd) && WellFormed(lib, v)
    ensures rd.grammar(Restored(lib, v))
    decreases v, 1
  {
    if IsStored(lib, v) {
      match v
      case Obj(fields) =>
        var keys, texts := RestoredObject(lib, rd, fields);
        assert rd.grammar(ObjectText(lib, keys, texts));
      case Arr(items) =>
        var texts := RestoredArray(lib, rd, items);
      case _ =>
    } else {
      assert rd.grammar(Json(lib, v));
    }
  }

  lemma {:induction false} RestoredObject(lib: Lib, rd: Reader, fields: seq<Field>) returns (keys: seq<Bytes>, texts: seq<Bytes>)
    requires GrammarLaw(lib, rd) && forall i :: 0 <= i < |fields| ==> WellFormed(lib, fields[i].value)
    ensures |keys| == |texts| == |fields| && AllText(rd, texts) && RestoredFields(lib, fields) == ObjectBody(lib, keys, texts)
    decreases fields, 0
  {
    hide GrammarLaw;
    keys, texts := [], [];
    if fields != [] {
      RestoredText(lib, rd, fields[0].value);
      var ks, ts := RestoredObject(lib, rd, fields[1..]);
      keys, texts := [lib.sanitize(fields[0].name)] + ks, [Restored(lib, fields[0].value)] + ts;
      assert keys[1..] == ks && texts[1..] == ts;
    }
  }

  lemma {:induction false} RestoredArray(lib: Lib, rd: Reader, items: seq<Value>) returns (texts: seq<Bytes>)
    requires GrammarLaw(lib, rd) && forall i :: 0 <= i < |items| ==> WellFormed(lib, items[i])
    ensures |texts| == |items| && AllText(rd, texts) && RestoredItems(lib, items) == ArrayBody(texts)
    decreases items, 0
  {
    hide GrammarLaw;
    texts := [];
    if items != [] {
      RestoredText(lib, rd, items[0]);
      var ts := RestoredArray(lib, rd, items[1..]);
      texts := [Restored(lib, items[0])] + ts;
      assert texts[1..] == ts;
    }
  }

  /** The restored text of an object decodes to its members, and a name that is there once to its value. */
  lemma ObjectDecodes(lib: Lib, rd: Reader, fields: seq<Field>)
    requires KeyLaw(lib) && GrammarLaw(lib, rd) && ObjectLaw(lib, rd) && lib.valid(Restored(lib, Obj(fields)))
    requires WellFormed(lib, Obj(fields))
    ensures var m := rd.members(Restored(lib, Obj(fields))); var texts := Texts(lib, fields, IsStored(lib, Obj(fields)));
      && m.Some? && (forall i :: 0 <= i < |fields| ==> lib.valid(texts[i]))
      && (forall k :: k in m.value ==> exists i :: 0 <= i < |fields| && lib.sanitize(fields[i].name) == k)
      && (forall i, k :: 0 <= i < |fields| && lib.sanitize(fields[i].name) == k && Once(lib, Obj(fields), k) ==>
            k in m.value && Same(rd, m.value[k], texts[i]))
  {
    hide Restored, IsStored, WellFormed, GrammarLaw, KeyLaw, ObjectText, Once, LastAt, Same;
    var texts := Texts(lib, fields, IsStored(lib, Obj(fields)));
    var keys := RestoredKeys(lib, rd, fields);
    assert Listed(lib, rd, keys, texts);
    assert Decodes(lib, rd, ObjectText(lib, keys, texts), keys, texts);
    NamesDecode(lib, rd, ObjectText(lib, keys, texts), fields, keys, texts);
  }

  lemma RestoredKeys(lib: Lib, rd: Reader, fields: seq<Field>) returns (keys: seq<Bytes>)
    requires KeyLaw(lib) && GrammarLaw(lib, rd) && WellFormed(lib, Obj(fields))
    ensures |keys| == |fields| && forall i :: 0 <= i < |fields| ==> lib.sanitize(keys[i]) == lib.sanitize(fields[i].name)
    ensures var texts := Texts(lib, fields, IsStored(lib, Obj(fields)));
      Restored(lib, Obj(fields)) == ObjectText(lib, keys, texts) && AllText(rd, texts)
  {
    var stored := IsStored(lib, Obj(fields));
    keys := if stored then RereadNames(lib, fields) else Names(fields);
    var texts := Texts(lib, fields, stored);
    if stored { RestoredBody(lib, fields); } else { JsonBody(lib, fields); }
    forall i | 0 <= i < |fields| ensures rd.grammar(texts[i]) {
      RestoredText(lib, rd, fields[i].value);
      assert rd.grammar(Json(lib, fields[i].value));
    }
  }

  lemma NamesDecode(lib: Lib, rd: Reader, text: Bytes, fields: seq<Field>, keys: seq<Bytes>, texts: seq<Bytes>)
    requires |keys| == |texts| == |fields| && Decodes(lib, rd, text, keys, texts)
    requires forall i :: 0 <= i < |fields| ==> lib.sanitize(keys[i]) == lib.sanitize(fields[i].name)
    ensures var m := rd.members(text);
      && m.Some? && (forall k :: k in m.value ==> exists i :: 0 <= i < |fields| && lib.sanitize(fields[i].name) == k)
      && (forall i, k :: 0 <= i < |fields| && lib.sanitize(fields[i].name) == k && Once(lib, Obj(fields), k) ==>
            k in m.value && Same(rd, m.value[k], texts[i]))
  {
    hide Same;
    var m := rd.members(text).value;
    forall k | k in m ensures exists i :: 0 <= i < |fields| && lib.sanitize(fields[i].name) == k {
      var i :| LastAt(lib, keys, k, i);
      assert lib.sanitize(fields[i].name) == k;
    }
    forall i, k | 0 <= i < |fields| && lib.sanitize(fields[i].name) == k && Once(lib, Obj(fields), k) ensures k in m && Same(rd, m[k], texts[i]) {
      assert LastAt(lib, keys, k, i);
    }
  }

  /** The members of the raw_packet object that matter here: the packet, and a flag, a scalar, that may be
      left out. */
  ghost predicate Carries(lib: Lib, rd: Reader, raw: seq<Field>, packet: Bytes, truncated: bool) {
    && Field(PACKET_HEX, Str(HexEncode(packet))) in raw
    && ((forall t :: t in raw ==> lib.sanitize(t.name) != CAPTURE_TRUNCATED) ==> !truncated)
    && (forall t :: t in raw && lib.sanitize(t.name) == CAPTURE_TRUNCATED ==> t.value.Scalar? && rd.truth(t.value.text) == Some(truncated))
  }

  ghost predicate RawOk(lib: Lib, raw: seq<Field>) {
    Once(lib, Obj(raw), PACKET_HEX) && Once(lib, Obj(raw), CAPTURE_TRUNCATED)
  }

  lemma TextRange(lib: Lib, rd: Reader, fields: seq<Field>, raw: seq<Field>, packet: Bytes, truncated: bool, offset: nat, length: nat)
    requires JsonLawful(lib, rd) && WellFormed(lib, Obj(fields)) && PathOk(lib, Obj(fields)) && lib.valid(Restored(lib, Obj(fields)))
    requires Field(RAW_PACKET, Obj(raw)) in fields && Carries(lib, rd, raw, packet, truncated)
    ensures RangeFromText(rd, Restored(lib, Obj(fields)), offset, length) == RangeOf(packet, truncated, offset, length)
  {
    hide JsonLawful, WellFormed, PathOk, Carries, Restored, RawRange, Same, RawOk, RangeOf;
    RawMember(lib, rd, fields, raw);
    RawText(lib, rd, raw, packet, truncated, offset, length);
    SameRange(rd, rd.members(Restored(lib, Obj(fields))).value[RAW_PACKET], Restored(lib, Obj(raw)), offset, length);
  }

  /** The member raw_packet of the restored text is that object's restored text. */
  lemma RawMember(lib: Lib, rd: Reader, fields: seq<Field>, raw: seq<Field>)
    requires JsonLawful(lib, rd) && WellFormed(lib, Obj(fields)) && PathOk(lib, Obj(fields)) && lib.valid(Restored(lib, Obj(fields)))
    requires Field(RAW_PACKET, Obj(raw)) in fields
    ensures WellFormed(lib, Obj(raw)) && RawOk(lib, raw) && lib.valid(Restored(lib, Obj(raw)))
    ensures var m := rd.members(Restored(lib, Obj(fields)));
      m.Some? && RAW_PACKET in m.value && Same(rd, m.value[RAW_PACKET], Restored(lib, Obj(raw)))
  {
    hide KeyLaw, GrammarLaw, ObjectLaw, StringLaw, HexLaw, Restored, IsStored, Same;
    var i :| 0 <= i < |fields| && fields[i] == Field(RAW_PACKET, Obj(raw));
    assert lib.sanitize(fields[i].name) == RAW_PACKET by { NameReads(lib, RAW_PACKET); }
    assert WellFormed(lib, Obj(raw)) && RawOk(lib, raw) && Once(lib, Obj(fields), RAW_PACKET);
    hide WellFormed, PathOk, RawOk, Once;
    ObjectDecodes(lib, rd, fields);
    InlineWithin(lib, fields, i);
    assert Texts(lib, fields, IsStored(lib, Obj(fields)))[i] == Restored(lib, Obj(raw)) by { RestoredInline(lib, Obj(raw)); }
  }

  lemma NameReads(lib: Lib, key: Bytes)
    requires KeyLaw(lib) && lib.utf8(key)
    ensures lib.sanitize(key) == key
  {
  }

  lemma RestoredInline(lib: Lib, v: Value)
    ensures !IsStored(lib, v) ==> Restored(lib, v) == Json(lib, v)
  {
  }

  /** What is inside an inline object is inline. */
  lemma InlineWithin(lib: Lib, fields: seq<Field>, i: nat)
    requires i < |fields|
    ensures !IsStored(lib, Obj(fields)) ==> !IsStored(lib, fields[i].value)
  {
  }

  lemma RawText(lib: Lib, rd: Reader, raw: seq<Field>, packet: Bytes, truncated: bool, offset: nat, length: nat)
    requires JsonLawful(lib, rd) && WellFormed(lib, Obj(raw)) && RawOk(lib, raw) && lib.valid(Restored(lib, Obj(raw)))
    requires Carries(lib, rd, raw, packet, truncated)
    ensures RawRange(rd, Restored(lib, Obj(raw)), offset, length) == RangeOf(packet, truncated, offset, length)
  {
    hide JsonLawful, WellFormed, RawOk, HexDecode, HexEncode, RangeOf, Restored, Carries;
    RawPacketText(lib, rd, raw, packet, truncated);
    RawFlagText(lib, rd, raw, packet, truncated);
    HexRoundTrip(packet);
  }

  lemma RawPacketText(lib: Lib, rd: Reader, raw: seq<Field>, packet: Bytes, truncated: bool)
    requires JsonLawful(lib, rd) && WellFormed(lib, Obj(raw)) && RawOk(lib, raw) && lib.valid(Restored(lib, Obj(raw)))
    requires Carries(lib, rd, raw, packet, truncated)
    ensures var m := rd.members(Restored(lib, Obj(raw)));
      m.Some? && PACKET_HEX in m.value && rd.unquote(m.value[PACKET_HEX]) == Some(HexEncode(packet))
  {
    hide KeyLaw, GrammarLaw, ObjectLaw, StringLaw, HexLaw, WellFormed, HexDecode, HexEncode, IsStored, Restored, Json, Once;
    var i :| 0 <= i < |raw| && raw[i] == Field(PACKET_HEX, Str(HexEncode(packet)));
    assert lib.sanitize(raw[i].name) == PACKET_HEX by { NameReads(lib, PACKET_HEX); }
    assert Texts(lib, raw, IsStored(lib, Obj(raw)))[i] == Json(lib, Str(HexEncode(packet))) by { StringText(lib, HexEncode(packet)); }
    ObjectDecodes(lib, rd, raw);
    HexUnquotes(lib, rd, packet);
  }

  lemma StringText(lib: Lib, s: Bytes)
    ensures Restored(lib, Str(s)) == Json(lib, Str(s))
  {
  }

  lemma RawFlagText(lib: Lib, rd: Reader, raw: seq<Field>, packet: Bytes, truncated: bool)
    requires JsonLawful(lib, rd) && WellFormed(lib, Obj(raw)) && RawOk(lib, raw) && lib.valid(Restored(lib, Obj(raw)))
    requires Carries(lib, rd, raw, packet, truncated)
    ensures var m := rd.members(Restored(lib, Obj(raw)));
      m.Some? && (if CAPTURE_TRUNCATED in m.value then rd.truth(m.value[CAPTURE_TRUNCATED]) else Some(false)) == Some(truncated)
  {
    hide KeyLaw, GrammarLaw, ObjectLaw, StringLaw, HexLaw, NameLaw, WellFormed, HexEncode, IsStored, Restored, Json, Once, Carries;
    ObjectDecodes(lib, rd, raw);
    if t :| 0 <= t < |raw| && lib.sanitize(raw[t].name) == CAPTURE_TRUNCATED {
      FlagThere(lib, rd, raw, packet, truncated, t);
      assert Same(rd, rd.members(Restored(lib, Obj(raw))).value[CAPTURE_TRUNCATED], Texts(lib, raw, IsStored(lib, Obj(raw)))[t]);
    } else {
      FlagAbsent(lib, rd, raw, packet, truncated);
    }
  }

  lemma FlagThere(lib: Lib, rd: Reader, raw: seq<Field>, packet: Bytes, truncated: bool, t: nat)
    requires Carries(lib, rd, raw, packet, truncated) && t < |raw| && lib.sanitize(raw[t].name) == CAPTURE_TRUNCATED
    ensures forall stored :: rd.truth(Texts(lib, raw, stored)[t]) == Some(truncated)
  {
    hide HexEncode, Restored, Json;
    assert raw[t] in raw;
    ScalarText(lib, raw[t].value);
  }

  lemma FlagAbsent(lib: Lib, rd: Reader, raw: seq<Field>, packet: Bytes, truncated: bool)
    requires Carries(lib, rd, raw, packet, truncated)
    requires forall t :: 0 <= t < |raw| ==> lib.sanitize(raw[t].name) != CAPTURE_TRUNCATED
    ensures !truncated
  {
    hide HexEncode;
  }

  lemma ScalarText(lib: Lib, v: Value)
    requires v.Scalar?
    ensures Restored(lib, v) == Json(lib, v) == v.text
  {
  }

  lemma HexUnquotes(lib: Lib, rd: Reader, b: Bytes)
    requires KeyLaw(lib) && StringLaw(lib, rd) && HexLaw(lib)
    ensures rd.unquote(Json(lib, Str(HexEncode(b)))) == Some(HexEncode(b)) && HexDecode(HexEncode(b)) == Some(b)
  {
    HexRoundTrip(b);
  }

  /** The packet that was put in comes out, range by range. */
  lemma PacketReturned(lib: Lib, rd: Reader, s: Store, fields: seq<Field>, raw: seq<Field>, packet: Bytes, truncated: bool,
                       rank: map<Id, nat>, later: Table, ids: set<Id>, offset: nat, length: nat)
    requires Lawful(lib) && JsonLawful(lib, rd) && Consistent(lib, s, rank) && WellFormed(lib, Obj(fields))
    requires EncodePayload(lib, s, Obj(fields)).Ok? && PayloadDepth(lib, Obj(fields)) <= MAX_DEPTH + 1 && lib.valid(Restored(lib, Obj(fields)))
    requires var (s', p) := EncodePayload(lib, s, Obj(fields)).value; p.Manifest? && p.root in ids && SameBytes(lib, s'.content, later, ids)
    requires PathOk(lib, Obj(fields)) && length > 0
    requires Field(RAW_PACKET, Obj(raw)) in fields && Carries(lib, rd, raw, packet, truncated)
    ensures var (s', p) := EncodePayload(lib, s, Obj(fields)).value;
      RangeFromPayload(lib, rd, later, p, offset, length) ==
        if offset > |packet| then Err(Failed)
        else var cut := packet[offset..Min(offset + length, |packet|)];
          Ok(PacketRange(offset, |cut|, |packet|, HexEncode(cut), truncated))
  {
    hide HashLaw, ZlibLaw, KeyLaw, NodeLaw, JsonLawful, Consistent, EncodePayload, RangeFromPayload, RangeFromText,
         WellFormed, PathOk, Carries, HexEncode, PayloadDepth, SameBytes, Restored;
    EncodedRange(lib, rd, s, Obj(fields), rank, later, ids, offset, length);
    TextRange(lib, rd, fields, raw, packet, truncated, offset, length);
  }
}

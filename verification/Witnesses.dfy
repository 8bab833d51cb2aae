/** Values that the encoder accepts and that cannot be restored, or not exactly, or not be copied; with the
    library of Laws. */
module Witnesses {
  import opened Basics
  import opened Content
  import opened Graph
  import opened RoundTrip
  import opened Copy
  import opened Copyable
  import opened Laws

  function Empty(): Store {
    Store(map[], {})
  }

  /** A long string inside n arrays. */
  function Deep(n: nat): Value {
    if n == 0 then Str(LongText()) else Arr([Deep(n - 1)])
  }

  /** An object whose one key is not valid UTF-8. */
  function BadKey(): Value {
    Obj([Field([J.BAD], Deep(0))])
  }

  // ---------------------------------------------------------------- sizes

  lemma {:induction false} EscapeBound(s: Bytes)
    ensures |J.Escape(s)| <= 2 * |s|
  {
    if s != [] {
      EscapeBound(s[1..]);
    }
  }

  function Times(n: nat, k: nat): nat {
    n * k
  }

  lemma TimesStep(n: nat, k: nat)
    ensures Times(n + 1, k) == Times(n, k) + k
  {
  }

  lemma {:induction false} ItemsBound(js: seq<J.Json>, k: nat)
    requires forall i :: 0 <= i < |js| ==> |J.Print(js[i])| <= k
    ensures |J.PrintItems(js)| <= Times(|js|, k + 1)
  {
    hide Times, J.Print;
    if js != [] {
      ItemsBound(js[1..], k);
      TimesStep(|js| - 1, k + 1);
    }
  }

  lemma TextBound(s: Bytes)
    requires |s| <= 64
    ensures |J.Print(J.Text(s))| <= 130
  {
    EscapeBound(s);
  }

  lemma FragmentBound(f: Fragment)
    requires |f.json| <= 64 && |f.ref| <= 64
    ensures |J.Print(FragmentJson(f))| <= 300
  {
    TextBound(f.json);
    TextBound(f.ref);
    ItemsBound(FragmentJson(f).items, 130);
  }

  lemma MemberBound(m: Member)
    requires |m.key| <= 64 && |m.value.json| <= 64 && |m.value.ref| <= 64
    ensures |J.Print(MemberJson(m))| <= 700
  {
    TextBound(m.key);
    FragmentBound(m.value);
    ItemsBound(MemberJson(m).items, 300);
  }

  lemma ListBound(js: seq<J.Json>)
    requires |js| <= 2 && forall i :: 0 <= i < |js| ==> |J.Print(js[i])| <= 700
    ensures |J.Print(J.List(js))| <= 1404
  {
    ItemsBound(js, 700);
  }

  lemma PartsBound(a: J.Json, b: J.Json, c: J.Json, d: J.Json, e: J.Json)
    requires |J.Print(a)| <= 1404 && |J.Print(b)| <= 1404 && |J.Print(c)| <= 1404 && |J.Print(d)| <= 1404 && |J.Print(e)| <= 1404
    ensures |J.Print(J.List([a, b, c, d, e]))| <= MAX_OBJECT_BYTES
  {
    hide J.Print;
    var parts := [a, b, c, d, e];
    ItemsBound(parts, 1404);
    assert |J.Print(J.List(parts))| <= |J.PrintItems(parts)| + 2 by {
      ListLength(parts);
    }
  }

  lemma ListLength(js: seq<J.Json>)
    ensures |J.Print(J.List(js))| == |J.PrintItems(js)| + 2
  {
  }

  /** Nodes with at most two parts of a kind are small. */
  lemma NodeBound(n: Node)
    requires !n.kind.KOther? && n.data == [] && |n.fields| <= 2 && |n.items| <= 2 && |n.chunks| <= 2
    requires forall i :: 0 <= i < |n.items| ==> |n.items[i].json| <= 64 && |n.items[i].ref| <= 64
    requires forall i :: 0 <= i < |n.fields| ==> |n.fields[i].key| <= 64 && |n.fields[i].value.json| <= 64 && |n.fields[i].value.ref| <= 64
    requires forall i :: 0 <= i < |n.chunks| ==> |n.chunks[i]| <= 64
    ensures |NodeText(n)| <= MAX_OBJECT_BYTES
  {
    TextBound([]);
    assert |J.Print(KindJson(n.kind))| == 1;
    hide J.Print;
    var fs, hs, cs := Mapped(n.fields, MemberJson), Mapped(n.items, FragmentJson), Mapped(n.chunks, (c: Id) => J.Text(c));
    forall i | 0 <= i < |fs| ensures |J.Print(fs[i])| <= 700 {
      MemberBound(n.fields[i]);
    }
    forall i | 0 <= i < |hs| ensures |J.Print(hs[i])| <= 700 {
      FragmentBound(n.items[i]);
    }
    forall i | 0 <= i < |cs| ensures |J.Print(cs[i])| <= 700 {
      TextBound(n.chunks[i]);
    }
    ListBound(fs);
    ListBound(hs);
    ListBound(cs);
    PartsBound(KindJson(n.kind), J.Text([]), J.List(fs), J.List(hs), J.List(cs));
  }

  // ---------------------------------------------------------------- hashes

  lemma NodeTextStarts(n: Node)
    ensures |NodeText(n)| > 0 && NodeText(n)[0] != 0
  {
    NodeJsonSound(n);
    J.PrintStarts(NodeJson(n));
  }

  /** The numbered objects are different, and so are their numbers. */
  lemma HashOfChunk()
    ensures HashOf([0] + LongText()) == Num(CHUNK)
  {
  }

  lemma HashOfNode(n: Node)
    ensures n == BaseNode() ==> HashOf(NodeText(n)) == Num(0)
    ensures n == BadKeyNode() ==> HashOf(NodeText(n)) == Num(LAST)
    ensures n.kind == KObject && n != BadKeyNode() ==> HashOf(NodeText(n)) == Num(LAST + 1)
  {
    NodeTextStarts(n);
    hide NodeText;
    var b := NodeText(n);
    assert b != [0] + LongText() by {
      assert ([0] + LongText())[0] == 0;
    }
    assert b == NodeText(BaseNode()) ==> n == BaseNode() by {
      if b == NodeText(BaseNode()) {
        NodeTextUnique(n, BaseNode());
      }
    }
    assert b == NodeText(BadKeyNode()) ==> n == BadKeyNode() by {
      if b == NodeText(BadKeyNode()) {
        NodeTextUnique(n, BadKeyNode());
      }
    }
    forall i: nat | IsAround(b, i) ensures n == Around(Num(i)) {
      NodeTextUnique(n, Around(Num(i)));
    }
  }

  lemma HashOfAround(i: nat)
    requires i < 1000
    ensures HashOf(NodeText(Around(Num(i)))) == Num(i + 1)
  {
    var n := Around(Num(i));
    NodeTextStarts(n);
    hide NodeText;
    var b := NodeText(n);
    assert b != [0] + LongText() by {
      assert ([0] + LongText())[0] == 0;
    }
    assert b != NodeText(BaseNode()) by {
      if b == NodeText(BaseNode()) {
        NodeTextUnique(n, BaseNode());
      }
    }
    assert b != NodeText(BadKeyNode()) by {
      if b == NodeText(BadKeyNode()) {
        NodeTextUnique(n, BadKeyNode());
      }
    }
    assert IsAround(b, i);
    forall j: nat | IsAround(b, j) ensures j == i {
      NodeTextUnique(n, Around(Num(j)));
      assert n.items[0] == Around(Num(j)).items[0];
      NumUnique(i, j);
    }
  }

  // ---------------------------------------------------------------- encoding

  /** The writer holds objects with these numbers only. */
  ghost predicate Among(w: Writer, used: set<nat>) {
    && (forall id :: id in w.known || id in w.store.content ==> exists i :: i in used && i < 62500 && id == Num(i))
    && (forall e :: e in w.store.edges ==> e.0 in w.store.content)
  }

  lemma SavesNew(w: Writer, used: set<nat>, n: Node, raw: Bytes, h: nat)
    requires Among(w, used) && h < 62500 && h !in used
    requires NodeBytes(Small(), n) == Some(raw) && |raw| <= MAX_OBJECT_BYTES && HashOf(raw) == Num(h)
    ensures var r := Save(Small(), w, n);
      r.Ok? && r.value.1 == Fragment([], Num(h)) && Among(r.value.0, used + {h})
  {
    hide HashOf, NodeText, NodeRefs, NodeBytes;
    var id := Num(h);
    if id in w.known || id in w.store.content {
      var i :| i in used && i < 62500 && id == Num(i);
      NumUnique(h, i);
    }
    var w' := Save(Small(), w, n).value.0;
    forall x | x in w'.known || x in w'.store.content ensures exists i :: i in used + {h} && i < 62500 && x == Num(i) {
      if x != id {
        var i :| i in used && i < 62500 && x == Num(i);
        assert i in used + {h};
      } else {
        assert h in used + {h};
      }
    }
  }

  function Upto(n: nat): (r: set<nat>)
    ensures forall i :: i in r ==> i <= n || i == CHUNK
  {
    if n == 0 then {CHUNK, 0} else Upto(n - 1) + {n}
  }

  /** The value encodes into the chunk and nodes numbered up to n, the last of which is its own. */
  ghost predicate Numbered(v: Value, key: Bytes, n: nat) {
    var r := Encode(Small(), Writer(Empty(), map[]), v, key);
    r.Ok? && r.value.1 == Fragment([], Num(n)) && Among(r.value.0, Upto(n))
  }

  lemma NotHex(key: Bytes)
    ensures !IsHexField(LongText(), key)
  {
    assert HexValue(LongText()[0]) == None;
  }

  lemma OneChunk(w: Writer)
    ensures SaveChunks(Small(), w, LongText()) ==
      match Save(Small(), w, Node(KBytes, LongText(), [], [], []))
      case Err(e) => Err(e)
      case Ok((w1, f)) => Ok((w1, [f.ref]))
  {
    hide Save, HashOf;
    assert LongText()[..128] == LongText() && LongText()[128..] == [];
    var r := Save(Small(), w, Node(KBytes, LongText(), [], [], []));
    if r.Ok? {
      assert [r.value.1.ref] + [] == [r.value.1.ref];
    }
  }

  lemma BaseEncodes(key: Bytes)
    ensures Numbered(Deep(0), key, 0)
  {
    hide HashOf, NodeText, Save, SaveChunks, NodeBytes;
    var w := Writer(Empty(), map[]);
    var chunk := Node(KBytes, LongText(), [], [], []);
    NotHex(key);
    OneChunk(w);
    HashOfChunk();
    assert NodeBytes(Small(), chunk) == Some([0] + LongText()) by { ChunkBytes(); }
    SavesNew(w, {}, chunk, [0] + LongText(), CHUNK);
    var w1 := Save(Small(), w, chunk).value.0;
    HashOfNode(BaseNode());
    NodeBound(BaseNode());
    assert NodeBytes(Small(), BaseNode()) == Some(NodeText(BaseNode())) by { NodeIsPrinted(BaseNode()); }
    SavesNew(w1, {} + {CHUNK}, BaseNode(), NodeText(BaseNode()), 0);
    assert {} + {CHUNK} + {0} == Upto(0);
  }

  lemma ChunkBytes()
    ensures NodeBytes(Small(), Node(KBytes, LongText(), [], [], [])) == Some([0] + LongText())
  {
  }

  lemma NodeIsPrinted(n: Node)
    requires n.kind != KBytes
    ensures NodeBytes(Small(), n) == Some(NodeText(n))
  {
  }

  lemma OneItem(w: Writer, v: Value, key: Bytes)
    requires Encode(Small(), w, v, key).Ok?
    ensures var (w1, f) := Encode(Small(), w, v, key).value; EncodeItems(Small(), w, [v], key) == Ok((w1, [f]))
  {
    hide Encode;
    var (w1, f) := Encode(Small(), w, v, key).value;
    assert [v][1..] == [] && [f] + [] == [f];
    assert EncodeItems(Small(), w1, [], key) == Ok((w1, []));
  }

  lemma RefHeld(n: Node, id: Id)
    requires id != [] && (id in FieldRefs(n.fields) || id in ItemRefs(n.items))
    ensures id in NodeRefs(n) && NodeRefs(n) != []
  {
  }

  lemma WrappedEncodes(v: Value, key: Bytes, n: nat)
    requires Numbered(v, key, n) && n < 999
    ensures Numbered(Arr([v]), key, n + 1)
  {
    hide HashOf, NodeText, Save, NodeRefs, EncodeItems, JsonItems, Among, NodeBytes;
    var w := Writer(Empty(), map[]);
    OneItem(w, v, key);
    var (w1, f) := Encode(Small(), w, v, key).value;
    var node := Around(Num(n));
    assert NodeRefs(node) != [] by {
      assert ItemRefs(node.items)[0] == Num(n);
      RefHeld(node, Num(n));
    }
    HashOfAround(n);
    NodeBound(node);
    NodeIsPrinted(node);
    SavesNew(w1, Upto(n), node, NodeText(node), n + 1);
  }

  lemma {:induction false} DeepEncodes(n: nat, key: Bytes)
    requires n < 1000
    ensures Numbered(Deep(n), key, n)
  {
    hide Numbered;
    if n == 0 {
      BaseEncodes(key);
    } else {
      DeepEncodes(n - 1, key);
      WrappedEncodes(Deep(n - 1), key, n - 1);
    }
  }

  lemma {:induction false} DeepShape(n: nat)
    ensures WellFormed(Small(), Deep(n)) && IsStored(Small(), Deep(n)) && KeysKept(Small(), Deep(n))
    ensures StoredDepth(Small(), Deep(n)) == n + 1 && CopyDepth(Small(), Deep(n)) == n + 2
  {
    if n > 0 {
      DeepShape(n - 1);
      WrappedShape(Small(), Deep(n - 1));
    }
  }

  lemma WrappedShape(lib: Lib, v: Value)
    requires WellFormed(lib, v) && IsStored(lib, v) && KeysKept(lib, v)
    ensures var a := Arr([v]);
      && WellFormed(lib, a) && IsStored(lib, a) && KeysKept(lib, a)
      && StoredDepth(lib, a) == StoredDepth(lib, v) + 1 && CopyDepth(lib, a) == CopyDepth(lib, v) + 1
  {
    hide Json;
    assert [v][0] == v;
    assert IsStored(lib, Arr([v]));
    assert ItemsDepth(lib, [v]) == Max(StoredDepth(lib, v), ItemsDepth(lib, []));
    assert ItemsCopyDepth(lib, [v]) == Max(CopyDepth(lib, v), ItemsCopyDepth(lib, []));
  }

  lemma EmptyConsistent()
    ensures Consistent(Small(), Empty(), map[])
  {
  }

  /** Encoding accepts more levels than restoring does: 258 levels of nodes are written and refused. */
  lemma TooDeepIsAccepted(n: nat)
    requires n < 1000
    ensures var r := EncodePayload(Small(), Empty(), Deep(n));
      && r.Ok?
      && DecodePayload(Small(), r.value.0.content, r.value.1) ==
           if n <= 256 then Some(Json(Small(), Deep(n))) else None
  {
    DeepEncodes(n, []);
    hide Encode, Deep, Json, KeyLaw, Consistent, Among;
    LawsMet();
    EmptyConsistent();
    DeepShape(n);
    var _ := EncodePayloadOk(Small(), Empty(), Deep(n), map[]);
    RestoredExact(Small(), Deep(n));
  }

  // ---------------------------------------------------------------- keys

  lemma BadKeyShape()
    ensures WellFormed(Small(), BadKey()) && !KeysKept(Small(), BadKey()) && StoredDepth(Small(), BadKey()) == 2
  {
    hide Deep;
    DeepShape(0);
    var fields := BadKey().fields;
    assert fields[0] == Field([J.BAD], Deep(0));
    assert IsStored(Small(), BadKey());
    assert FieldsDepth(Small(), fields) == Max(StoredDepth(Small(), Deep(0)), FieldsDepth(Small(), []));
  }

  lemma BadKeyEncodes()
    ensures var r := Encode(Small(), Writer(Empty(), map[]), BadKey(), []);
      && r.Ok? && r.value.1 == Fragment([], Num(LAST))
      && NodeAt(Small(), r.value.0.store.content, Num(LAST)) == Some(Reread(Small(), BadKeyNode()))
  {
    var rank := BaseWriter([J.BAD]);
    hide HashOf, NodeText, Save, Deep, Lawful, WriterOk, NodeAt, Encode, NodeRefs, Among, Json;
    var lib, w := Small(), Writer(Empty(), map[]);
    OneField(w, [J.BAD], Deep(0), []);
    BadKeySaves(Encode(lib, w, Deep(0), [J.BAD]).value.0, rank);
  }

  /** The writer after the string. */
  lemma BaseWriter(key: Bytes) returns (rank: map<Id, nat>)
    ensures Lawful(Small()) && Numbered(Deep(0), key, 0)
    ensures var w := Encode(Small(), Writer(Empty(), map[]), Deep(0), key).value.0;
      WriterOk(Small(), w, rank) && Num(0) in w.store.content
  {
    DeepEncodes(0, key);
    DeepShape(0);
    LawsMet();
    EmptyConsistent();
    hide HashOf, Deep, HashLaw, ZlibLaw, KeyLaw, TextLaw, NodeLaw, Consistent, Denotes, Encode, Among;
    rank := EncodeOk(Small(), Writer(Empty(), map[]), Deep(0), key, map[]);
    var (w, f) := Encode(Small(), Writer(Empty(), map[]), Deep(0), key).value;
    DenotesHeld(w.store.content, f, Deep(0));
  }

  lemma DenotesHeld(content: Table, f: Fragment, v: Value)
    requires Denotes(Small(), content, f, v) && f.ref != []
    ensures f.ref in content
  {
  }

  lemma OneField(w: Writer, name: Bytes, v: Value, key: Bytes)
    requires Encode(Small(), w, v, name).Ok?
    ensures var (w1, f) := Encode(Small(), w, v, name).value; var obj := Obj([Field(name, v)]);
      Encode(Small(), w, obj, key) == Close(Small(), w1, obj, Node(KObject, [], [Member(name, f)], [], []))
  {
    hide Close, StringValue, EncodeItems;
    var (w1, f) := Encode(Small(), w, v, name).value;
    assert [Field(name, v)][1..] == [] && [Member(name, f)] + [] == [Member(name, f)];
    assert EncodeFields(Small(), w1, []) == Ok((w1, []));
    assert EncodeFields(Small(), w, [Field(name, v)]) == Ok((w1, [Member(name, f)]));
  }

  lemma BadKeySaves(w: Writer, rank: map<Id, nat>)
    requires Lawful(Small()) && WriterOk(Small(), w, rank) && Among(w, Upto(0)) && Num(0) in w.store.content
    ensures var r := Save(Small(), w, BadKeyNode());
      && NodeRefs(BadKeyNode()) != []
      && r.Ok? && r.value.1 == Fragment([], Num(LAST))
      && NodeAt(Small(), r.value.0.store.content, Num(LAST)) == Some(Reread(Small(), BadKeyNode()))
  {
    hide HashOf, NodeText, Save, NodeBytes, HashLaw, ZlibLaw, KeyLaw, TextLaw, NodeLaw, WriterOk, NodeAt, Among;
    var node := BadKeyNode();
    assert FieldRefs(node.fields)[0] == Num(0);
    RefHeld(node, Num(0));
    HashOfNode(node);
    NodeBound(node);
    NodeIsPrinted(node);
    SavesNew(w, Upto(0), node, NodeText(node), LAST);
    var _ := SaveKeeps(Small(), w, node, rank);
  }

  /** Encoding accepts a key that is not valid UTF-8; the text restored is a different, shorter one. */
  lemma BadKeyIsAccepted()
    ensures var r := EncodePayload(Small(), Empty(), BadKey());
      && r.Ok?
      && var text := DecodePayload(Small(), r.value.0.content, r.value.1);
         text.Some? && |text.value| < |Json(Small(), BadKey())|
  {
    BadKeyEncodes();
    BadKeyShape();
    hide Encode, Deep, Json, KeyLaw, Consistent, BadKey;
    LawsMet();
    EmptyConsistent();
    var _ := EncodePayloadOk(Small(), Empty(), BadKey(), map[]);
    RestoredExact(Small(), BadKey());
  }

  // ---------------------------------------------------------------- copying

  lemma ThinSave(w: Writer, n: Node, rank: map<Id, nat>)
    requires Storage(Small()) && WriterOk(Small(), w, rank) && Savable(Small(), n)
    requires forall c :: c in NodeRefs(n) ==> c in w.store.content
    requires Save(Small(), w, n).Ok? && Thin(Small(), w.store.content) && |NodeRefs(Saved(Small(), n))| <= 1
    ensures Thin(Small(), Save(Small(), w, n).value.0.store.content)
  {
    hide HashOf, NodeText, ReadNodeText, HashLaw, ZlibLaw, KeyLaw, NodeLaw, WriterOk, Savable, NodeRefs, NodeBytes, RowBytes, DecodeNode, Saved, Pack;
    var _ := SaveKeeps(Small(), w, n, rank);
    var (w', f) := Save(Small(), w, n).value;
    forall id ensures |RefsAt(Small(), w'.store.content, id)| <= 1 {
      if id in w.store.content {
        assert RefsAt(Small(), w.store.content, id) == RefsAt(Small(), w'.store.content, id);
      } else if id in w'.store.content {
        assert id == f.ref;
      }
    }
  }

  lemma {:induction false} DistinctShort(ids: seq<Id>)
    ensures |Distinct(ids)| <= |ids|
  {
    if ids != [] {
      DistinctShort(ids[..|ids| - 1]);
    }
  }

  lemma OneRef(n: Node)
    requires |n.fields| + |n.items| + |n.chunks| <= 1
    ensures |NodeRefs(n)| <= 1 && |NodeRefs(Saved(Small(), n))| <= 1
  {
    DistinctShort(FieldRefs(n.fields) + ItemRefs(n.items) + n.chunks);
    RereadRefs(Small(), n);
  }

  /** Deep values are written as a line of nodes. */
  ghost predicate Line(v: Value, key: Bytes) {
    var r := Encode(Small(), Writer(Empty(), map[]), v, key);
    r.Ok? && Thin(Small(), r.value.0.store.content)
  }

  lemma BaseLine(key: Bytes)
    ensures Line(Deep(0), key)
  {
    LawsMet();
    BaseEncodes(key);
    EmptyConsistent();
    hide HashOf, NodeText, Save, SaveChunks, HashLaw, ZlibLaw, KeyLaw, TextLaw, NodeLaw, Consistent, NodeRefs, Among, Savable;
    var w := Writer(Empty(), map[]);
    assert WriterOk(Small(), w, map[]) && Thin(Small(), w.store.content);
    NotHex(key);
    OneChunk(w);
    var chunk := Node(KBytes, LongText(), [], [], []);
    OneRef(chunk);
    ChunkSavable(Small(), LongText());
    ThinSave(w, chunk, map[]);
    var rank1 := SaveKeeps(Small(), w, chunk, map[]);
    var (w1, f) := Save(Small(), w, chunk).value;
    var node := Node(KString, [], [], [], [f.ref]);
    OneRef(node);
    StringNodePrintable(Small(), node);
    ThinSave(w1, node, rank1);
  }

  lemma WrappedLine(v: Value, key: Bytes, n: nat)
    requires Line(v, key) && Numbered(v, key, n) && Numbered(Arr([v]), key, n + 1) && WellFormed(Small(), v)
    ensures Line(Arr([v]), key)
  {
    LawsMet();
    EmptyConsistent();
    hide HashOf, NodeText, Save, EncodeItems, HashLaw, ZlibLaw, KeyLaw, TextLaw, NodeLaw, Consistent, NodeRefs, Among, Savable, Json, Denotes;
    var w := Writer(Empty(), map[]);
    assert WriterOk(Small(), w, map[]);
    OneItem(w, v, key);
    var rank1 := EncodeOk(Small(), w, v, key, map[]);
    var (w1, f) := Encode(Small(), w, v, key).value;
    var node := Node(KArray, [], [], [f], []);
    assert DenotesItems(Small(), w1.store.content, [f], [v]);
    ItemsClose(Small(), w1.store.content, node, [v]);
    OneRef(node);
    assert Savable(Small(), node) by { PrintableSavable(node); }
    if Close(Small(), w1, Arr([v]), node) == Save(Small(), w1, node) {
      ThinSave(w1, node, rank1);
    }
  }

  lemma PrintableSavable(n: Node)
    requires Printable(Small(), n)
    ensures Savable(Small(), n)
  {
    hide Printable;
  }

  lemma {:induction false} DeepLine(n: nat, key: Bytes)
    requires n < 1000
    ensures Line(Deep(n), key)
  {
    hide Numbered, Line;
    if n == 0 {
      BaseLine(key);
    } else {
      DeepLine(n - 1, key);
      DeepEncodes(n - 1, key);
      DeepEncodes(n, key);
      DeepShape(n - 1);
      WrappedLine(Deep(n - 1), key, n - 1);
    }
  }

  /** Copying reaches one level less than restoring where a string is stored once: a string in 256 arrays is
      restored, and refused by the copy that archiving and migration make. */
  lemma RestoredNotCopied(n: nat)
    requires n < 1000
    ensures var r := EncodePayload(Small(), Empty(), Deep(n));
      r.Ok? && (CopyPayload(Small(), r.value.0.content, Empty(), r.value.1).Ok? <==> n <= 255)
  {
    DeepEncodes(n, []);
    DeepLine(n, []);
    LawsMet();
    EmptyConsistent();
    DeepShape(n);
    hide Encode, Deep, HashLaw, ZlibLaw, KeyLaw, TextLaw, NodeLaw, Consistent, Among, Visit, Thin, Fits, IsStored, KeysKept, WellFormed, Json;
    var (s, p) := EncodePayload(Small(), Empty(), Deep(n)).value;
    PayloadSized(Small(), Empty(), Deep(n), map[]);
    if n <= 255 {
      StoredIsCopyable(Small(), Empty(), Deep(n), map[], Empty(), map[]);
    } else if CopyPayload(Small(), s.content, Empty(), p).Ok? {
      LineFits(Small(), s.content, Writer(Empty(), map[]), {}, p.root, 0);
    }
  }

  /** An event with a key that is not valid UTF-8 is accepted and refused by every copy. */
  lemma BadKeyNotCopied(dst: Store)
    ensures var r := EncodePayload(Small(), Empty(), BadKey());
      r.Ok? && CopyPayload(Small(), r.value.0.content, dst, r.value.1).Err?
  {
    BadKeyEncodes();
    RereadHash();
    hide Encode, HashOf, NodeText, CopyPayload, NodeAt;
    var (s, p) := EncodePayload(Small(), Empty(), BadKey()).value;
    if CopyPayload(Small(), s.content, dst, p).Ok? {
      RootPrinted(Small(), s.content, dst, p);
    }
  }

  lemma RereadHash()
    ensures !Printed(Small(), Num(LAST), Reread(Small(), BadKeyNode()))
  {
    hide NodeText, HashOf;
    var n := Reread(Small(), BadKeyNode());
    assert n.fields[0].key == J.Sanitized([J.BAD]);
    HashOfNode(n);
    assert Num(LAST)[0] == 249 && Num(LAST + 1)[0] == 0;
  }
}

/** The laws assumed of hash, zlib and encoding/json can be met together: a small library that prints every
    node and reads it back, has keys that are not valid UTF-8, and reads JSON objects. */
module Laws {
  import opened Basics
  import opened Content
  import opened Ranges
  import J = SmallJson

  // ---------------------------------------------------------------- texts

  ghost predicate IsText(t: Bytes) {
    exists j :: J.Sound(j) && J.Print(j) == t
  }

  ghost function Reading(t: Bytes): (j: J.Json)
    requires IsText(t)
    ensures J.Sound(j) && J.Print(j) == t
  {
    var j :| J.Sound(j) && J.Print(j) == t;
    j
  }

  lemma ReadingOf(j: J.Json)
    requires J.Sound(j)
    ensures IsText(J.Print(j)) && Reading(J.Print(j)) == j
  {
    J.ReadsOnce(j, Reading(J.Print(j)));
  }

  // ---------------------------------------------------------------- nodes

  function KindJson(k: Kind): J.Json {
    match k
    case KBytes => J.Digit(0)
    case KJson => J.Digit(1)
    case KObject => J.Digit(2)
    case KArray => J.Digit(3)
    case KString => J.Digit(4)
    case KHex => J.Digit(5)
    case KOther(name) => J.Text(name)
  }

  function FragmentJson(f: Fragment): J.Json {
    J.List([J.Text(f.json), J.Text(f.ref)])
  }

  function MemberJson(m: Member): J.Json {
    J.List([J.Text(m.key), FragmentJson(m.value)])
  }

  function Mapped<T>(s: seq<T>, f: T -> J.Json): (r: seq<J.Json>)
    ensures |r| == |s| && forall i :: 0 <= i < |s| ==> r[i] == f(s[i])
  {
    seq(|s|, i requires 0 <= i < |s| => f(s[i]))
  }

  function NodeJson(n: Node): J.Json {
    J.List([KindJson(n.kind), J.Text(n.data), J.List(Mapped(n.fields, MemberJson)), J.List(Mapped(n.items, FragmentJson)),
            J.List(Mapped(n.chunks, (c: Id) => J.Text(c)))])
  }

  lemma NodeJsonSound(n: Node)
    ensures J.Sound(NodeJson(n))
  {
    forall i | 0 <= i < |n.fields| ensures J.Sound(MemberJson(n.fields[i])) {
      assert J.Sound(FragmentJson(n.fields[i].value));
    }
    assert forall i :: 0 <= i < |n.items| ==> J.Sound(FragmentJson(n.items[i]));
    var parts := NodeJson(n).items;
    assert J.Sound(parts[2]) && J.Sound(parts[3]) && J.Sound(parts[4]);
    assert forall i :: 0 <= i < |parts| ==> J.Sound(parts[i]);
  }

  lemma NodeJsonUnique(n: Node, m: Node)
    requires NodeJson(n) == NodeJson(m)
    ensures n == m
  {
    assert NodeJson(n).items == NodeJson(m).items;
    assert KindJson(n.kind) == NodeJson(n).items[0] && KindJson(m.kind) == NodeJson(m).items[0];
    assert n.data == NodeJson(n).items[1].s == m.data;
    var fs, gs := Mapped(n.fields, MemberJson), Mapped(m.fields, MemberJson);
    assert fs == NodeJson(n).items[2].items && gs == NodeJson(m).items[2].items;
    forall i | 0 <= i < |fs| ensures n.fields[i] == m.fields[i] {
      assert MemberJson(n.fields[i]) == MemberJson(m.fields[i]);
      MemberUnique(n.fields[i], m.fields[i]);
    }
    var hs, js := Mapped(n.items, FragmentJson), Mapped(m.items, FragmentJson);
    assert hs == NodeJson(n).items[3].items && js == NodeJson(m).items[3].items;
    forall i | 0 <= i < |hs| ensures n.items[i] == m.items[i] {
      assert FragmentJson(n.items[i]) == FragmentJson(m.items[i]);
      FragmentUnique(n.items[i], m.items[i]);
    }
    var cs, ds := NodeJson(n).items[4].items, NodeJson(m).items[4].items;
    forall i | 0 <= i < |cs| ensures n.chunks[i] == m.chunks[i] {
      assert cs[i] == J.Text(n.chunks[i]) && ds[i] == J.Text(m.chunks[i]);
    }
    assert n.fields == m.fields && n.items == m.items && n.chunks == m.chunks;
  }

  lemma FragmentUnique(f: Fragment, g: Fragment)
    requires FragmentJson(f) == FragmentJson(g)
    ensures f == g
  {
    assert FragmentJson(f).items[0].s == FragmentJson(g).items[0].s && FragmentJson(f).items[1].s == FragmentJson(g).items[1].s;
  }

  lemma MemberUnique(a: Member, b: Member)
    requires MemberJson(a) == MemberJson(b)
    ensures a == b
  {
    assert MemberJson(a).items[0].s == MemberJson(b).items[0].s;
    assert MemberJson(a).items[1] == MemberJson(b).items[1];
    FragmentUnique(a.value, b.value);
  }

  function NodeText(n: Node): Bytes {
    J.Print(NodeJson(n))
  }

  lemma NodeTextUnique(n: Node, m: Node)
    requires NodeText(n) == NodeText(m)
    ensures n == m
  {
    NodeJsonSound(n);
    NodeJsonSound(m);
    J.ReadsOnce(NodeJson(n), NodeJson(m));
    NodeJsonUnique(n, m);
  }

  function SanitizedKeys(n: Node): Node {
    n.(fields := seq(|n.fields|, i requires 0 <= i < |n.fields| => Member(J.Sanitized(n.fields[i].key), n.fields[i].value)))
  }

  ghost function ReadNodeText(b: Bytes): Option<Node> {
    if exists n :: NodeText(n) == b then
      var n :| NodeText(n) == b;
      Some(SanitizedKeys(n))
    else None
  }

  // ---------------------------------------------------------------- ids

  /** 64 bytes that tell numbers below 62500 apart. */
  function Num(i: nat): (r: Id)
    ensures |r| == 64 && J.BAD !in r
  {
    [i % 250, i / 250 % 250] + seq(62, _ => 48)
  }

  lemma NumUnique(i: nat, j: nat)
    requires i < 62500 && j < 62500 && Num(i) == Num(j)
    ensures i == j
  {
    assert Num(i)[0] == i % 250 && Num(i)[1] == i / 250 % 250 && Num(j)[0] == j % 250 && Num(j)[1] == j / 250 % 250;
  }

  // ---- the objects used as witnesses

  /** A string that is too long to be inlined, and not hex. */
  function LongText(): (r: Bytes)
    ensures |r| == 128 && forall i :: 0 <= i < |r| ==> r[i] == 122
  {
    seq(128, _ => 122)
  }

  const CHUNK := 1998
  const LAST := 1999

  function BaseNode(): Node {
    Node(KString, [], [], [], [Num(CHUNK)])
  }

  /** An array that holds one node. */
  function Around(id: Id): Node {
    Node(KArray, [], [], [Fragment([], id)], [])
  }

  function BadKeyNode(): Node {
    Node(KObject, [], [Member([J.BAD], Fragment([], Num(0)))], [], [])
  }

  ghost predicate IsAround(b: Bytes, i: nat) {
    i < 1000 && b == NodeText(Around(Num(i)))
  }

  /** An arbitrary hash function does; this one numbers the objects used as witnesses. */
  ghost function HashOf(b: Bytes): (id: Id)
    ensures |id| == 64 && J.BAD !in id
  {
    if b == [0] + LongText() then Num(CHUNK)
    else if b == NodeText(BaseNode()) then Num(0)
    else if b == NodeText(BadKeyNode()) then Num(LAST)
    else if exists i: nat :: IsAround(b, i) then (var i: nat :| IsAround(b, i); Num(i + 1))
    else Num(LAST + 1)
  }

  // ---------------------------------------------------------------- the library

  ghost function Small(): Lib {
    Lib(b => HashOf(b), b => b, b => Some(b), J.Quoted, s => J.BAD !in s, J.Sanitized, t => IsText(t), t => IsText(t),
        n => Some(NodeText(n)), b => ReadNodeText(b), t => if IsText(t) then Some(Scalar(t)) else None)
  }

  lemma HashMet()
    ensures HashLaw(Small()) && ZlibLaw(Small())
  {
    hide HashOf;
  }

  lemma KeysMet()
    ensures KeyLaw(Small())
  {
    forall k: Bytes | J.BAD in k ensures |J.Quoted(J.Sanitized(k))| < |J.Quoted(k)| {
      J.EscapeGrows(k);
    }
  }

  lemma NodesMet()
    ensures NodeLaw(Small())
  {
    var lib := Small();
    forall n: Node ensures var b := NodeText(n); |b| > 0 && b[0] != 0 && ReadNodeText(b) == Some(Reread(lib, n)) {
      NodeReads(n);
    }
  }

  lemma ReadsText(n: Node)
    ensures ReadNodeText(NodeText(n)) == Some(SanitizedKeys(n))
  {
    hide NodeText, SanitizedKeys;
    forall m | NodeText(m) == NodeText(n) ensures m == n {
      NodeTextUnique(m, n);
    }
  }

  lemma NodeReads(n: Node)
    ensures var b := NodeText(n); |b| > 0 && b[0] != 0 && ReadNodeText(b) == Some(Reread(Small(), n))
  {
    NodeJsonSound(n);
    J.PrintStarts(NodeJson(n));
    hide NodeText;
    ReadsText(n);
    assert SanitizedKeys(n).fields == Reread(Small(), n).fields;
  }

  // ---- texts of values

  /** The reading of a value's JSON. */
  ghost function ValueJson(v: Value): (j: J.Json)
    requires WellFormed(Small(), v)
    ensures J.Sound(j)
    decreases v
  {
    match v
    case Scalar(text) => Reading(text)
    case Str(s) => J.Text(s)
    case Obj(fields) => J.Object(seq(|fields|, i requires 0 <= i < |fields| => J.Entry(fields[i].name, ValueJson(fields[i].value))))
    case Arr(items) => J.List(seq(|items|, i requires 0 <= i < |items| => ValueJson(items[i])))
  }

  lemma {:induction false} ValuePrints(v: Value)
    requires WellFormed(Small(), v)
    ensures J.Print(ValueJson(v)) == Json(Small(), v)
    decreases v, 1
  {
    match v
    case Obj(fields) => FieldsPrint(fields, ValueJson(v).members);
    case Arr(items) => ItemsPrint(items, ValueJson(v).items);
    case _ =>
  }

  lemma {:induction false} FieldsPrint(fields: seq<Field>, members: seq<J.Entry>)
    requires |members| == |fields|
    requires forall i :: 0 <= i < |fields| ==> WellFormed(Small(), fields[i].value) && members[i] == J.Entry(fields[i].name, ValueJson(fields[i].value))
    ensures J.PrintMembers(members) == JsonFields(Small(), fields)
    decreases fields, 0
  {
    if fields != [] {
      ValuePrints(fields[0].value);
      FieldsPrint(fields[1..], members[1..]);
    }
  }

  lemma {:induction false} ItemsPrint(items: seq<Value>, js: seq<J.Json>)
    requires |js| == |items|
    requires forall i :: 0 <= i < |items| ==> WellFormed(Small(), items[i]) && js[i] == ValueJson(items[i])
    ensures J.PrintItems(js) == JsonItems(Small(), items)
    decreases items, 0
  {
    if items != [] {
      ValuePrints(items[0]);
      ItemsPrint(items[1..], js[1..]);
    }
  }

  lemma ValueIsText(v: Value)
    requires WellFormed(Small(), v)
    ensures IsText(Json(Small(), v))
  {
    ValuePrints(v);
  }

  lemma TextsMet()
    ensures TextLaw(Small()) && ParseLaw(Small())
  {
    hide HashOf, IsText, NodeText, ReadNodeText;
    forall v: Value | WellFormed(Small(), v) ensures IsText(Json(Small(), v)) {
      ValueIsText(v);
    }
  }

  /** All laws of storage are met, by a library that can print every node. */
  lemma LawsMet()
    ensures Lawful(Small()) && ParseLaw(Small()) && forall n :: Small().marshal(n).Some?
  {
    HashMet();
    KeysMet();
    NodesMet();
    TextsMet();
    hide HashLaw, ZlibLaw, KeyLaw, TextLaw, NodeLaw, ParseLaw;
  }

  // ---------------------------------------------------------------- reading JSON

  /** The members of an object by name; later ones win. */
  function MemberMap(ms: seq<J.Entry>): map<Bytes, Bytes> {
    if ms == [] then map[] else
    var n := |ms| - 1;
    MemberMap(ms[..n])[J.Sanitized(ms[n].key) := J.Print(ms[n].value)]
  }

  ghost function MembersOf(t: Bytes): Option<map<Bytes, Bytes>> {
    if IsText(t) && Reading(t).Object? then Some(MemberMap(Reading(t).members)) else None
  }

  ghost function Unquoted(t: Bytes): Option<Bytes> {
    if IsText(t) && Reading(t).Text? then Some(J.Sanitized(Reading(t).s)) else None
  }

  ghost function SmallReader(): Reader {
    Reader(t => IsText(t), t => MembersOf(t), t => Unquoted(t),
           t => if t == [49] then Some(true) else if t == [48] then Some(false) else None)
  }

  function Entries(keys: seq<Bytes>, js: seq<J.Json>): (r: seq<J.Entry>)
    requires |keys| == |js|
    ensures |r| == |keys| && forall i :: 0 <= i < |r| ==> r[i] == J.Entry(keys[i], js[i])
  {
    seq(|keys|, i requires 0 <= i < |keys| => J.Entry(keys[i], js[i]))
  }

  ghost function Readings(texts: seq<Bytes>): (r: seq<J.Json>)
    requires AllText(SmallReader(), texts)
    ensures |r| == |texts| && forall i :: 0 <= i < |r| ==> J.Sound(r[i]) && J.Print(r[i]) == texts[i]
  {
    seq(|texts|, i requires 0 <= i < |texts| => assert SmallReader().grammar(texts[i]); Reading(texts[i]))
  }

  lemma {:induction false} BodyPrints(keys: seq<Bytes>, texts: seq<Bytes>, js: seq<J.Json>)
    requires |keys| == |texts| == |js| && forall i :: 0 <= i < |js| ==> J.Print(js[i]) == texts[i]
    ensures ObjectBody(Small(), keys, texts) == J.PrintMembers(Entries(keys, js))
  {
    if keys != [] {
      BodyPrints(keys[1..], texts[1..], js[1..]);
      assert Entries(keys, js)[1..] == Entries(keys[1..], js[1..]);
    }
  }

  lemma {:induction false} ArrayPrints(texts: seq<Bytes>, js: seq<J.Json>)
    requires |texts| == |js| && forall i :: 0 <= i < |js| ==> J.Print(js[i]) == texts[i]
    ensures ArrayBody(texts) == J.PrintItems(js)
  {
    if texts != [] {
      ArrayPrints(texts[1..], js[1..]);
    }
  }

  lemma ObjectReads(keys: seq<Bytes>, texts: seq<Bytes>)
    requires |keys| == |texts| && AllText(SmallReader(), texts)
    ensures IsText(ObjectText(Small(), keys, texts))
    ensures Reading(ObjectText(Small(), keys, texts)) == J.Object(Entries(keys, Readings(texts)))
  {
    var js := Readings(texts);
    BodyPrints(keys, texts, js);
    ReadingOf(J.Object(Entries(keys, js)));
  }

  lemma ArrayReads(texts: seq<Bytes>)
    requires AllText(SmallReader(), texts)
    ensures var t := [OPEN_BRACKET] + ArrayBody(texts) + [CLOSE_BRACKET]; IsText(t) && Reading(t) == J.List(Readings(texts))
  {
    var js := Readings(texts);
    ArrayPrints(texts, js);
    ReadingOf(J.List(js));
  }

  lemma QuotedReads(s: Bytes)
    ensures IsText(J.Quoted(s)) && Reading(J.Quoted(s)) == J.Text(s)
  {
    ReadingOf(J.Text(s));
  }

  lemma GrammarMet()
    ensures GrammarLaw(Small(), SmallReader())
  {
    hide HashOf, IsText, NodeText, ReadNodeText, Reading, MembersOf, Unquoted;
    var lib, rd := Small(), SmallReader();
    forall s: Bytes ensures rd.grammar(lib.quote(s)) {
      QuotedReads(s);
    }
    forall keys: seq<Bytes>, texts: seq<Bytes> | |keys| == |texts| && AllText(rd, texts) ensures rd.grammar(ObjectText(lib, keys, texts)) {
      ObjectReads(keys, texts);
    }
    forall texts: seq<Bytes> | AllText(rd, texts) ensures rd.grammar([OPEN_BRACKET] + ArrayBody(texts) + [CLOSE_BRACKET]) {
      ArrayReads(texts);
    }
    forall v: Value | WellFormed(lib, v) ensures rd.grammar(Json(lib, v)) {
      ValueIsText(v);
    }
  }

  lemma {:induction false} MapHolds(ms: seq<J.Entry>, k: Bytes)
    requires forall i :: 0 <= i < |ms| ==> J.Sound(ms[i].value)
    ensures k in MemberMap(ms) ==> IsText(MemberMap(ms)[k])
    ensures k in MemberMap(ms) <==> exists i :: 0 <= i < |ms| && J.Sanitized(ms[i].key) == k
  {
    if ms != [] {
      var n := |ms| - 1;
      MapHolds(ms[..n], k);
      if k in MemberMap(ms) && k != J.Sanitized(ms[n].key) {
        var i :| 0 <= i < n && J.Sanitized(ms[..n][i].key) == k;
        assert ms[i] == ms[..n][i];
      }
      if i :| 0 <= i < |ms| && J.Sanitized(ms[i].key) == k && i < n {
        assert ms[..n][i] == ms[i];
      }
    }
  }

  lemma {:induction false} MapAt(ms: seq<J.Entry>, i: nat)
    requires i < |ms| && forall j :: i < j < |ms| ==> J.Sanitized(ms[j].key) != J.Sanitized(ms[i].key)
    ensures J.Sanitized(ms[i].key) in MemberMap(ms) && MemberMap(ms)[J.Sanitized(ms[i].key)] == J.Print(ms[i].value)
  {
    var n := |ms| - 1;
    if i < n {
      MapAt(ms[..n], i);
    }
  }

  lemma DecodesListed(keys: seq<Bytes>, texts: seq<Bytes>)
    requires Listed(Small(), SmallReader(), keys, texts)
    ensures Decodes(Small(), SmallReader(), ObjectText(Small(), keys, texts), keys, texts)
  {
    hide HashOf, IsText, NodeText, ReadNodeText, Reading, Unquoted, MemberMap, ObjectText, LastAt;
    var lib, rd, js := Small(), SmallReader(), Readings(texts);
    var ms := Entries(keys, js);
    ObjectReads(keys, texts);
    var m := MemberMap(ms);
    assert rd.members(ObjectText(lib, keys, texts)) == Some(m);
    forall k ensures k in m <==> exists i :: LastAt(lib, keys, k, i) {
      MapHolds(ms, k);
      if k in m {
        var i :| 0 <= i < |ms| && J.Sanitized(ms[i].key) == k;
        var _ := SomeLast(lib, keys, k, i);
      }
      if i :| LastAt(lib, keys, k, i) {
        LastReads(keys, k, i);
        assert J.Sanitized(ms[i].key) == k;
      }
    }
    forall i, k | LastAt(lib, keys, k, i) ensures 0 <= i < |keys| && k in m && m[k] == texts[i] {
      LastReads(keys, k, i);
      MapAt(ms, i);
    }
    forall i | 0 <= i < |keys| ensures lib.valid(texts[i]) {
      assert rd.grammar(texts[i]);
    }
  }

  lemma LastReads(keys: seq<Bytes>, k: Bytes, i: int)
    requires LastAt(Small(), keys, k, i)
    ensures 0 <= i < |keys| && J.Sanitized(keys[i]) == k && forall j :: i < j < |keys| ==> J.Sanitized(keys[j]) != k
  {
    hide HashOf;
  }

  lemma ObjectMet()
    ensures ObjectLaw(Small(), SmallReader())
  {
    hide HashOf, IsText, NodeText, ReadNodeText, Reading, Unquoted, MemberMap, Decodes, ObjectText;
    var lib, rd := Small(), SmallReader();
    forall keys: seq<Bytes>, texts: seq<Bytes> | Listed(lib, rd, keys, texts) ensures Decodes(lib, rd, ObjectText(lib, keys, texts), keys, texts) {
      DecodesListed(keys, texts);
    }
    forall s: Bytes ensures rd.members(lib.quote(s)).None? {
      QuotedReads(s);
    }
    forall texts: seq<Bytes> | AllText(rd, texts) ensures rd.members([OPEN_BRACKET] + ArrayBody(texts) + [CLOSE_BRACKET]).None? {
      ArrayReads(texts);
    }
    forall t: Bytes, k: Bytes | rd.members(t).Some? && k in rd.members(t).value ensures lib.valid(rd.members(t).value[k]) {
      MapHolds(Reading(t).members, k);
    }
  }

  lemma StringMet()
    ensures StringLaw(Small(), SmallReader())
  {
    hide IsText, Reading, HashOf;
    forall s: Bytes ensures SmallReader().unquote(Small().quote(s)) == Some(Small().sanitize(s)) {
      QuotedReads(s);
    }
  }

  lemma {:induction false} HexDigitsOnly(b: Bytes)
    ensures J.BAD !in HexEncode(b)
  {
    if b != [] {
      HexDigitsOnly(b[1..]);
    }
  }

  lemma HexMet()
    ensures HexLaw(Small())
  {
    forall b: Bytes ensures Small().utf8(HexEncode(b)) {
      HexDigitsOnly(b);
    }
  }

  lemma NamesMet()
    ensures NameLaw(Small())
  {
    hide HashOf, IsText, NodeText, ReadNodeText;
  }

  /** The laws of reading are met as well. */
  lemma JsonLawsMet()
    ensures JsonLawful(Small(), SmallReader())
  {
    KeysMet();
    GrammarMet();
    ObjectMet();
    StringMet();
    HexMet();
    NamesMet();
    hide KeyLaw, GrammarLaw, ObjectLaw, StringLaw, HexLaw, NameLaw;
  }
}

/** Reading a slice of an event's packet (internal/queue/range.go) without restoring the event: it
    gives what restoring the whole text, parsing it and cutting the packet would give. */
module Ranges {
  import opened Basics
  import opened Content

  const RAW_PACKET: Bytes := [114, 97, 119, 95, 112, 97, 99, 107, 101, 116]
  const PACKET_HEX: Bytes := [112, 97, 99, 107, 101, 116, 95, 104, 101, 120]
  const CAPTURE_TRUNCATED: Bytes := [99, 97, 112, 116, 117, 114, 101, 95, 116, 114, 117, 110, 99, 97, 116, 101, 100]

  datatype PacketRange = PacketRange(offset: nat, length: nat, total: nat, hex: Bytes, truncated: bool)

  /** json.Unmarshal into a map of raw members, a string and a boolean. `grammar` holds of the texts of the
      JSON grammar however deep they nest; `valid` texts are those that nest at most 10000 levels. */
  datatype Reader = Reader(
    grammar: Bytes -> bool,
    members: Bytes -> Option<map<Bytes, Bytes>>,
    unquote: Bytes -> Option<Bytes>,
    truth: Bytes -> Option<bool>)

  // ---------------------------------------------------------------- laws of encoding/json

  function ObjectText(lib: Lib, keys: seq<Bytes>, texts: seq<Bytes>): Bytes
    requires |keys| == |texts|
  {
    [OPEN_BRACE] + ObjectBody(lib, keys, texts) + [CLOSE_BRACE]
  }

  function ObjectBody(lib: Lib, keys: seq<Bytes>, texts: seq<Bytes>): Bytes
    requires |keys| == |texts|
  {
    if keys == [] then [] else
    lib.quote(keys[0]) + [COLON] + texts[0] + Separator(|keys| > 1) + ObjectBody(lib, keys[1..], texts[1..])
  }

  function ArrayBody(texts: seq<Bytes>): Bytes {
    if texts == [] then [] else texts[0] + Separator(|texts| > 1) + ArrayBody(texts[1..])
  }

  ghost predicate AllText(rd: Reader, texts: seq<Bytes>) {
    forall i :: 0 <= i < |texts| ==> rd.grammar(texts[i])
  }

  /** The grammar: strings are texts, and so are objects and arrays of texts and all that json.Marshal
      prints. */
  ghost predicate GrammarLaw(lib: Lib, rd: Reader) {
    && (forall t: Bytes :: lib.valid(t) ==> rd.grammar(t))
    && (forall s: Bytes :: rd.grammar(lib.quote(s)))
    && (forall keys: seq<Bytes>, texts: seq<Bytes> :: |keys| == |texts| && AllText(rd, texts) ==>
          rd.grammar(ObjectText(lib, keys, texts)))
    && (forall texts: seq<Bytes> :: AllText(rd, texts) ==> rd.grammar([OPEN_BRACKET] + ArrayBody(texts) + [CLOSE_BRACKET]))
    && (forall v: Value :: WellFormed(lib, v) ==> rd.grammar(Json(lib, v)))
  }

  /** Texts that differ at most in surrounding space decode alike. */
  ghost predicate Same(rd: Reader, s: Bytes, t: Bytes) {
    rd.members(s) == rd.members(t) && rd.unquote(s) == rd.unquote(t) && rd.truth(s) == rd.truth(t)
  }

  /** The last key that reads as `k`. */
  ghost predicate LastAt(lib: Lib, keys: seq<Bytes>, k: Bytes, i: int) {
    0 <= i < |keys| && lib.sanitize(keys[i]) == k && forall j :: i < j < |keys| ==> lib.sanitize(keys[j]) != k
  }

  /** Decoding a valid object gives each key the text of its last value, and all values are valid; nothing else
      decodes as an object. */
  ghost predicate ObjectLaw(lib: Lib, rd: Reader) {
    && (forall keys: seq<Bytes>, texts: seq<Bytes> :: Listed(lib, rd, keys, texts) ==>
          Decodes(lib, rd, ObjectText(lib, keys, texts), keys, texts))
    && (forall s: Bytes :: rd.members(lib.quote(s)).None?)
    && (forall texts: seq<Bytes> :: AllText(rd, texts) ==> rd.members([OPEN_BRACKET] + ArrayBody(texts) + [CLOSE_BRACKET]).None?)
    && (forall t: Bytes, k: Bytes :: rd.members(t).Some? && k in rd.members(t).value ==> lib.valid(rd.members(t).value[k]))
  }

  ghost predicate Listed(lib: Lib, rd: Reader, keys: seq<Bytes>, texts: seq<Bytes>) {
    |keys| == |texts| && AllText(rd, texts) && lib.valid(ObjectText(lib, keys, texts))
  }

  ghost predicate Decodes(lib: Lib, rd: Reader, text: Bytes, keys: seq<Bytes>, texts: seq<Bytes>)
    requires |keys| == |texts|
  {
    && rd.members(text).Some?
    && (forall k :: k in rd.members(text).value <==> exists i :: LastAt(lib, keys, k, i))
    && (forall i :: 0 <= i < |keys| ==> lib.valid(texts[i]))
    && (forall i, k :: LastAt(lib, keys, k, i) ==> Same(rd, rd.members(text).value[k], texts[i]))
  }

  ghost predicate StringLaw(lib: Lib, rd: Reader) {
    forall s: Bytes :: rd.unquote(lib.quote(s)) == Some(lib.sanitize(s))
  }

  /** Hex digits are ASCII. */
  ghost predicate HexLaw(lib: Lib) {
    forall b: Bytes :: lib.utf8(HexEncode(b))
  }

  /** So are the names read here. */
  ghost predicate NameLaw(lib: Lib) {
    lib.utf8(RAW_PACKET) && lib.utf8(PACKET_HEX) && lib.utf8(CAPTURE_TRUNCATED)
  }

  ghost predicate JsonLawful(lib: Lib, rd: Reader) {
    KeyLaw(lib) && GrammarLaw(lib, rd) && ObjectLaw(lib, rd) && StringLaw(lib, rd) && HexLaw(lib) && NameLaw(lib)
  }

  // ---------------------------------------------------------------- the fast form

  function FindMember(fields: seq<Member>, key: Bytes): Result<Fragment> {
    if fields == [] then Err(Missing)
    else if fields[0].key == key then Ok(fields[0].value)
    else FindMember(fields[1..], key)
  }

  function InText(rd: Reader, text: Bytes, key: Bytes): Result<Fragment> {
    match rd.members(text)
    case None => Err(Failed)
    case Some(m) => if key in m then Ok(Fragment(m[key], [])) else Err(Missing)
  }

  function ReadNode(lib: Lib, content: Table, id: Id): Result<Node> {
    match ReadObject(lib, content, id)
    case Err(e) => Err(e)
    case Ok(b) => match DecodeNode(lib, b) case None => Err(Failed) case Some(n) => Ok(n)
  }

  /** child: one member, without expanding the others. */
  function Child(lib: Lib, rd: Reader, content: Table, f: Fragment, key: Bytes): Result<Fragment> {
    if f.ref == [] then InText(rd, f.json, key) else
    match ReadNode(lib, content, f.ref)
    case Err(e) => Err(e)
    case Ok(n) =>
      if n.kind == KObject then FindMember(n.fields, key)
      else if n.kind == KJson then InText(rd, n.data, key)
      else Err(Failed)
  }

  /** The bytes of one chunk that fall into the range; the chunk is read only if some do. */
  function Overlap(lib: Lib, content: Table, id: Id, size: int, offset: nat, length: nat, total: nat): Result<Bytes> {
    if !(offset < total + size && offset + length > total) then Ok([]) else
    match ReadNode(lib, content, id)
    case Err(e) => Err(e)
    case Ok(c) =>
      if c.kind != KBytes then Err(Failed) else
      var lo := Max(offset - total, 0);
      var hi := Min(offset + length - total, |c.data|);
      if lo <= hi then Ok(c.data[lo..hi]) else Err(Failed)
  }

  /** The walk over the chunks of a packet, `total` bytes into it with `data` collected. */
  function Walk(lib: Lib, content: Table, chunks: seq<Id>, offset: nat, length: nat, total: nat, data: Bytes): Result<(nat, Bytes)>
    decreases |chunks|
  {
    if chunks == [] then (if offset > total then Err(Failed) else Ok((total, data)))
    else if chunks[0] !in content then Err(Missing)
    else
      var size := content[chunks[0]].size - 1;
      if size < 0 || size > CHUNK_BYTES then Err(Failed) else
      match Overlap(lib, content, chunks[0], size, offset, length, total)
      case Err(e) => Err(e)
      case Ok(part) => Walk(lib, content, chunks[1..], offset, length, total + size, data + part)
  }

  method WalkChunks(lib: Lib, content: Table, chunks: seq<Id>, offset: nat, length: nat) returns (r: Result<(nat, Bytes)>)
    ensures r == Walk(lib, content, chunks, offset, length, 0, [])
  {
    var total: nat, data: Bytes := 0, [];
    var i := 0;
    while i < |chunks|
      invariant 0 <= i <= |chunks|
      invariant Walk(lib, content, chunks[i..], offset, length, total, data) == Walk(lib, content, chunks, offset, length, 0, [])
    {
      assert chunks[i..][1..] == chunks[i + 1..];
      if chunks[i] !in content {
        return Err(Missing);
      }
      var size := content[chunks[i]].size - 1;
      if size < 0 || size > CHUNK_BYTES {
        return Err(Failed);
      }
      var part := Overlap(lib, content, chunks[i], size, offset, length, total);
      if part.Err? {
        return Err(part.error);
      }
      data := data + part.value;
      total := total + size;
      i := i + 1;
    }
    if offset > total {
      return Err(Failed);
    }
    return Ok((total, data));
  }

  function Cut(data: Bytes, offset: nat, length: nat): Bytes {
    data[Min(offset, |data|)..Min(offset + length, |data|)]
  }

  function RangeOf(data: Bytes, truncated: bool, offset: nat, length: nat): Result<PacketRange> {
    if offset > |data| then Err(Failed)
    else Ok(PacketRange(offset, |Cut(data, offset, length)|, |data|, HexEncode(Cut(data, offset, length)), truncated))
  }

  function Truncated(lib: Lib, rd: Reader, content: Table, raw: Fragment): Result<bool> {
    match Child(lib, rd, content, raw, CAPTURE_TRUNCATED)
    case Err(Missing) => Ok(false)
    case Err(Failed) => Err(Failed)
    case Ok(t) =>
      match Render(lib, content, t, {}, 0)
      case None => Err(Failed)
      case Some(text) => match rd.truth(text) case None => Err(Failed) case Some(b) => Ok(b)
  }

  function Packet(lib: Lib, rd: Reader, content: Table, field: Fragment, truncated: bool, offset: nat, length: nat): Result<PacketRange> {
    var node := if field.ref == [] then Ok(Node(KString, [], [], [], [])) else ReadNode(lib, content, field.ref);
    match node
    case Err(e) => Err(e)
    case Ok(n) =>
      if n.kind == KHex then
        match Walk(lib, content, n.chunks, offset, length, 0, [])
        case Err(e) => Err(e)
        case Ok((total, data)) => Ok(PacketRange(offset, |data|, total, HexEncode(data), truncated))
      else
        match Render(lib, content, field, {}, 0)
        case None => Err(Failed)
        case Some(text) => PacketFromText(rd, text, truncated, offset, length)
  }

  function PacketFromText(rd: Reader, text: Bytes, truncated: bool, offset: nat, length: nat): Result<PacketRange> {
    match rd.unquote(text)
    case None => Err(Failed)
    case Some(s) => match HexDecode(s) case None => Err(Failed) case Some(data) => RangeOf(data, truncated, offset, length)
  }

  function RangeFromPayload(lib: Lib, rd: Reader, content: Table, p: Payload, offset: nat, length: nat): Result<PacketRange> {
    match PayloadRoot(p)
    case Err(e) => Err(e)
    case Ok(root) =>
      match Child(lib, rd, content, if p.Plain? then Fragment(p.text, []) else Fragment([], root), RAW_PACKET)
      case Err(e) => Err(e)
      case Ok(raw) =>
        match Truncated(lib, rd, content, raw)
        case Err(e) => Err(e)
        case Ok(truncated) =>
          match Child(lib, rd, content, raw, PACKET_HEX)
          case Err(e) => Err(e)
          case Ok(field) => Packet(lib, rd, content, field, truncated, offset, length)
  }

  // ---------------------------------------------------------------- the simple form

  /** The range read off the whole text of the event. */
  function RangeFromText(rd: Reader, text: Bytes, offset: nat, length: nat): Result<PacketRange> {
    match rd.members(text)
    case None => Err(Failed)
    case Some(m) => if RAW_PACKET in m then RawRange(rd, m[RAW_PACKET], offset, length) else Err(Missing)
  }

  function RawRange(rd: Reader, raw: Bytes, offset: nat, length: nat): Result<PacketRange> {
    match rd.members(raw)
    case None => Err(Failed)
    case Some(m) =>
      match if CAPTURE_TRUNCATED in m then rd.truth(m[CAPTURE_TRUNCATED]) else Some(false)
      case None => Err(Failed)
      case Some(truncated) =>
        if PACKET_HEX in m then PacketFromText(rd, m[PACKET_HEX], truncated, offset, length) else Err(Missing)
  }

  // ---------------------------------------------------------------- the walk cuts the packet

  /** The chunk's row holds a zero byte and then its data. */
  ghost predicate IsBinary(lib: Lib, content: Table, id: Id) {
    id in content ==> match RowBytes(lib, id, content[id]) case None => true case Some(raw) => |raw| > 0 && raw[0] == 0
  }

  lemma ChunkSize(lib: Lib, content: Table, id: Id)
    requires IsBinary(lib, content, id) && NodeAt(lib, content, id).Some?
    ensures ReadNode(lib, content, id) == Ok(NodeAt(lib, content, id).value)
    ensures NodeAt(lib, content, id).value.kind == KBytes
    ensures content[id].size - 1 == |NodeAt(lib, content, id).value.data|
  {
  }

  lemma CutAppend(done: Bytes, c: Bytes, offset: nat, length: nat)
    ensures Cut(done + c, offset, length) == Cut(done, offset, length) +
      if offset < |done| + |c| && offset + length > |done|
      then c[Max(offset - |done|, 0)..Min(offset + length - |done|, |c|)] else []
  {
  }

  /** Walking the chunks gives the total length and the slice of the concatenated data. */
  lemma {:induction false} WalkCuts(lib: Lib, content: Table, chunks: seq<Id>, offset: nat, length: nat, done: Bytes)
    requires ReadChunks(lib, content, chunks).Some? && forall c :: c in chunks ==> IsBinary(lib, content, c)
    requires length > 0
    ensures var all := done + ReadChunks(lib, content, chunks).value;
      Walk(lib, content, chunks, offset, length, |done|, Cut(done, offset, length)) ==
      if offset > |all| then Err(Failed) else Ok((|all|, Cut(all, offset, length)))
    decreases |chunks|
  {
    hide NodeAt, Cut, IsBinary;
    if chunks == [] {
      assert done + [] == done;
    } else {
      var c := NodeAt(lib, content, chunks[0]).value.data;
      ChunkSize(lib, content, chunks[0]);
      assert chunks[0] in content by { ChunkStored(lib, content, chunks[0]); }
      CutAppend(done, c, offset, length);
      WalkCuts(lib, content, chunks[1..], offset, length, done + c);
      assert (done + c) + ReadChunks(lib, content, chunks[1..]).value == done + ReadChunks(lib, content, chunks).value;
    }
  }

  lemma ChunkStored(lib: Lib, content: Table, id: Id)
    requires NodeAt(lib, content, id).Some?
    ensures id in content
  {
  }

  /** Only the size column of a chunk outside the range is looked at. */
  lemma {:induction false} WalkReadsOverlap(lib: Lib, a: Table, b: Table, chunks: seq<Id>, offset: nat, length: nat, total: nat, data: Bytes)
    requires forall c :: c in chunks ==> (c in a <==> c in b) && (c in a ==> a[c].size == b[c].size)
    requires forall i :: 0 <= i < |chunks| && Touches(a, chunks, i, offset, length, total) ==> a[chunks[i]] == b[chunks[i]]
    ensures Walk(lib, a, chunks, offset, length, total, data) == Walk(lib, b, chunks, offset, length, total, data)
    decreases |chunks|
  {
    if chunks != [] && chunks[0] in a && 0 <= a[chunks[0]].size - 1 <= CHUNK_BYTES {
      var size := a[chunks[0]].size - 1;
      assert Start(a, chunks, 0, total) == total;
      assert Overlap(lib, a, chunks[0], size, offset, length, total) == Overlap(lib, b, chunks[0], size, offset, length, total);
      var part := Overlap(lib, a, chunks[0], size, offset, length, total);
      if part.Ok? {
        forall i | 0 <= i < |chunks| - 1 && Touches(a, chunks[1..], i, offset, length, total + size)
          ensures a[chunks[1..][i]] == b[chunks[1..][i]]
        {
          assert Start(a, chunks[1..], i, total + size) == Start(a, chunks, i + 1, total);
          assert Touches(a, chunks, i + 1, offset, length, total);
        }
        WalkReadsOverlap(lib, a, b, chunks[1..], offset, length, total + size, data + part.value);
      }
    }
  }

  /** Where chunk i begins, by the size columns. */
  ghost function Start(content: Table, chunks: seq<Id>, i: nat, total: int): int
    requires i <= |chunks|
  {
    if i == 0 then total else
    Start(content, chunks[1..], i - 1, total + if chunks[0] in content then content[chunks[0]].size - 1 else 0)
  }

  ghost predicate Touches(content: Table, chunks: seq<Id>, i: nat, offset: nat, length: nat, total: nat)
    requires i < |chunks|
  {
    var start := Start(content, chunks, i, total);
    chunks[i] in content && offset < start + content[chunks[i]].size - 1 && offset + length > start
  }

  lemma {:induction false} HexRoundTrip(b: Bytes)
    ensures HexDecode(HexEncode(b)) == Some(b)
  {
    if b != [] {
      var s := HexEncode(b);
      assert s[2..] == HexEncode(b[1..]);
      HexRoundTrip(b[1..]);
      HexDigits(b[0]);
      assert b == [b[0]] + b[1..];
    }
  }

  lemma HexDigits(x: byte)
    ensures HexValue(HexDigit(x / 16)) == Some(x / 16) && HexValue(HexDigit(x % 16)) == Some(x % 16)
    ensures HexByte(x / 16, x % 16) == x
  {
  }

  // ---------------------------------------------------------------- what a rendering says

  /** Fewer guards and less depth used up never change a rendering that succeeded. */
  lemma {:induction false} RenderMonotone(lib: Lib, content: Table, f: Fragment, v: set<Id>, u: set<Id>, d: nat, e: nat)
    requires u <= v && e <= d && Render(lib, content, f, v, d).Some?
    ensures Render(lib, content, f, u, e) == Render(lib, content, f, v, d)
    decreases MAX_DEPTH + 1 - d, 2
  {
    if f.ref != [] {
      var n := NodeAt(lib, content, f.ref).value;
      match n.kind
      case KObject => FieldsMonotone(lib, content, n.fields, v + {f.ref}, u + {f.ref}, d, e);
      case KArray => ItemsMonotone(lib, content, n.items, v + {f.ref}, u + {f.ref}, d, e);
      case _ =>
    }
  }

  lemma {:induction false} FieldsMonotone(lib: Lib, content: Table, fields: seq<Member>, v: set<Id>, u: set<Id>, d: nat, e: nat)
    requires u <= v && e <= d <= MAX_DEPTH && RenderFields(lib, content, fields, v, d).Some?
    ensures RenderFields(lib, content, fields, u, e) == RenderFields(lib, content, fields, v, d)
    decreases MAX_DEPTH + 1 - d, 0, |fields|
  {
    if fields != [] {
      RenderMonotone(lib, content, fields[0].value, v, u, d + 1, e + 1);
      FieldsMonotone(lib, content, fields[1..], v, u, d, e);
    }
  }

  lemma {:induction false} ItemsMonotone(lib: Lib, content: Table, items: seq<Fragment>, v: set<Id>, u: set<Id>, d: nat, e: nat)
    requires u <= v && e <= d <= MAX_DEPTH && RenderItems(lib, content, items, v, d).Some?
    ensures RenderItems(lib, content, items, u, e) == RenderItems(lib, content, items, v, d)
    decreases MAX_DEPTH + 1 - d, 0, |items|
  {
    if items != [] {
      RenderMonotone(lib, content, items[0], v, u, d + 1, e + 1);
      ItemsMonotone(lib, content, items[1..], v, u, d, e);
    }
  }

  function Keys(fields: seq<Member>): (r: seq<Bytes>)
    ensures |r| == |fields| && forall i :: 0 <= i < |r| ==> r[i] == fields[i].key
  {
    seq(|fields|, i requires 0 <= i < |fields| => fields[i].key)
  }

  /** A rendered object is the object text of its rendered members. */
  lemma {:induction false} FieldTexts(lib: Lib, rd: Reader, content: Table, fields: seq<Member>, v: set<Id>, d: nat) returns (texts: seq<Bytes>)
    requires GrammarLaw(lib, rd) && d <= MAX_DEPTH && RenderFields(lib, content, fields, v, d).Some?
    ensures |texts| == |fields| && RenderFields(lib, content, fields, v, d).value == ObjectBody(lib, Keys(fields), texts)
    ensures forall i :: 0 <= i < |fields| ==> Render(lib, content, fields[i].value, v, d + 1) == Some(texts[i])
    ensures AllText(rd, texts)
    decreases MAX_DEPTH + 1 - d, 0, |fields|
  {
    hide GrammarLaw;
    texts := [];
    if fields != [] {
      RenderText(lib, rd, content, fields[0].value, v, d + 1);
      var rest := FieldTexts(lib, rd, content, fields[1..], v, d);
      texts := [Render(lib, content, fields[0].value, v, d + 1).value] + rest;
      assert Keys(fields)[1..] == Keys(fields[1..]) && texts[1..] == rest;
    }
  }

  lemma {:induction false} ItemTexts(lib: Lib, rd: Reader, content: Table, items: seq<Fragment>, v: set<Id>, d: nat) returns (texts: seq<Bytes>)
    requires GrammarLaw(lib, rd) && d <= MAX_DEPTH && RenderItems(lib, content, items, v, d).Some?
    ensures |texts| == |items| && RenderItems(lib, content, items, v, d).value == ArrayBody(texts)
    ensures AllText(rd, texts)
    decreases MAX_DEPTH + 1 - d, 0, |items|
  {
    hide GrammarLaw;
    texts := [];
    if items != [] {
      RenderText(lib, rd, content, items[0], v, d + 1);
      var rest := ItemTexts(lib, rd, content, items[1..], v, d);
      texts := [Render(lib, content, items[0], v, d + 1).value] + rest;
      assert texts[1..] == rest;
    }
  }

  /** Whatever is rendered follows the JSON grammar. */
  lemma {:induction false} RenderText(lib: Lib, rd: Reader, content: Table, f: Fragment, v: set<Id>, d: nat)
    requires GrammarLaw(lib, rd) && Render(lib, content, f, v, d).Some?
    ensures rd.grammar(Render(lib, content, f, v, d).value)
    decreases MAX_DEPTH + 1 - d, 2
  {
    if f.ref != [] {
      var n := NodeAt(lib, content, f.ref).value;
      match n.kind
      case KObject =>
        var texts := FieldTexts(lib, rd, content, n.fields, v + {f.ref}, d);
        assert rd.grammar(ObjectText(lib, Keys(n.fields), texts));
      case KArray =>
        var texts := ItemTexts(lib, rd, content, n.items, v + {f.ref}, d);
      case _ =>
    }
  }

  // ---------------------------------------------------------------- picking a member

  /** The first member of that name and the last that reads so, if there is one, have texts that decode alike. */
  ghost predicate ToldApart(lib: Lib, rd: Reader, content: Table, fields: seq<Member>, key: Bytes) {
    forall i :: LastAt(lib, Keys(fields), key, i) ==>
      FindMember(fields, key).Ok? && SameText(lib, rd, content, FindMember(fields, key).value, fields[i].value)
  }

  ghost predicate SameText(lib: Lib, rd: Reader, content: Table, f: Fragment, g: Fragment) {
    var s, t := Render(lib, content, f, {}, 0), Render(lib, content, g, {}, 0);
    f == g || (s.Some? && t.Some? && Same(rd, s.value, t.value))
  }

  /** So it is in the node behind the fragment, if that is an object. */
  ghost predicate Unambiguous(lib: Lib, rd: Reader, content: Table, f: Fragment, key: Bytes) {
    f.ref != [] && NodeAt(lib, content, f.ref).Some? && NodeAt(lib, content, f.ref).value.kind == KObject ==>
      ToldApart(lib, rd, content, NodeAt(lib, content, f.ref).value.fields, key)
  }

  /** `r` is the member `key` of the object `text`: the fragment renders to its text, or it is missing
      there, or `text` is no object. */
  ghost predicate Picks(lib: Lib, rd: Reader, content: Table, text: Bytes, key: Bytes, r: Result<Fragment>) {
    match r
    case Err(Failed) => rd.members(text).None?
    case Err(Missing) => rd.members(text).Some? && key !in rd.members(text).value
    case Ok(g) =>
      && rd.members(text).Some? && key in rd.members(text).value
      && Render(lib, content, g, {}, 0).Some?
      && lib.valid(Render(lib, content, g, {}, 0).value)
      && Same(rd, Render(lib, content, g, {}, 0).value, rd.members(text).value[key])
  }

  lemma {:induction false} FindMemberFinds(fields: seq<Member>, key: Bytes)
    ensures FindMember(fields, key).Err? ==> FindMember(fields, key).error == Missing && key !in Keys(fields)
    ensures FindMember(fields, key).Ok? ==>
      exists i :: 0 <= i < |fields| && fields[i].key == key && fields[i].value == FindMember(fields, key).value
  {
    if fields != [] && fields[0].key != key {
      FindMemberFinds(fields[1..], key);
      assert Keys(fields) == [fields[0].key] + Keys(fields[1..]);
      if FindMember(fields, key).Ok? {
        var i :| 0 <= i < |fields| - 1 && fields[1..][i].key == key && fields[1..][i].value == FindMember(fields, key).value;
        assert fields[i + 1].key == key;
      }
    }
  }

  lemma InTextPicks(lib: Lib, rd: Reader, content: Table, text: Bytes, key: Bytes)
    requires ObjectLaw(lib, rd)
    ensures Picks(lib, rd, content, text, key, InText(rd, text, key))
  {
  }

  /** child agrees with parsing the whole rendering, exactly when repeated keys make no difference. */
  lemma ChildPicks(lib: Lib, rd: Reader, content: Table, f: Fragment, text: Bytes, key: Bytes)
    requires KeyLaw(lib) && GrammarLaw(lib, rd) && ObjectLaw(lib, rd) && lib.utf8(key)
    requires Render(lib, content, f, {}, 0) == Some(text) && lib.valid(text)
    ensures Picks(lib, rd, content, text, key, Child(lib, rd, content, f, key)) <==> Unambiguous(lib, rd, content, f, key)
  {
    hide ToldApart, KeyLaw;
    if f.ref == [] {
      InTextPicks(lib, rd, content, text, key);
    } else {
      var n := NodeAt(lib, content, f.ref).value;
      assert ReadNode(lib, content, f.ref) == Ok(n);
      match n.kind
      case KObject => MemberPicks(lib, rd, content, n.fields, {} + {f.ref}, key);
      case KJson => InTextPicks(lib, rd, content, text, key);
      case KArray =>
        var texts := ItemTexts(lib, rd, content, n.items, {} + {f.ref}, 0);
      case _ =>
    }
  }

  /** It does make a difference if an object has a member twice with texts that do not decode alike: child takes the
      first and parsing the last. */
  lemma RepeatedMisread(lib: Lib, rd: Reader, content: Table, f: Fragment, text: Bytes, key: Bytes, a: Bytes, b: Bytes)
    requires KeyLaw(lib) && GrammarLaw(lib, rd) && ObjectLaw(lib, rd) && lib.utf8(key)
    requires Render(lib, content, f, {}, 0) == Some(text) && lib.valid(text) && f.ref != []
    requires NodeAt(lib, content, f.ref) == Some(Node(KObject, [], [Member(key, Fragment(a, [])), Member(key, Fragment(b, []))], [], []))
    requires !Same(rd, a, b)
    ensures Child(lib, rd, content, f, key) == Ok(Fragment(a, []))
    ensures !Picks(lib, rd, content, text, key, Child(lib, rd, content, f, key))
  {
    hide GrammarLaw, ObjectLaw, NodeAt, Picks;
    ChildPicks(lib, rd, content, f, text, key);
    var fields := [Member(key, Fragment(a, [])), Member(key, Fragment(b, []))];
    assert NodeAt(lib, content, f.ref).value.fields == fields;
    assert Keys(fields)[1] == key && FindMember(fields, key) == Ok(Fragment(a, []));
    assert LastAt(lib, Keys(fields), key, 1);
    assert ReadNode(lib, content, f.ref) == Ok(NodeAt(lib, content, f.ref).value) by { NodeIsRead(lib, content, f.ref); }
  }

  lemma NodeIsRead(lib: Lib, content: Table, id: Id)
    requires NodeAt(lib, content, id).Some?
    ensures ReadNode(lib, content, id) == Ok(NodeAt(lib, content, id).value)
  {
  }

  lemma MemberPicks(lib: Lib, rd: Reader, content: Table, fields: seq<Member>, v: set<Id>, key: Bytes)
    requires KeyLaw(lib) && GrammarLaw(lib, rd) && ObjectLaw(lib, rd) && lib.utf8(key)
    requires RenderFields(lib, content, fields, v, 0).Some? && lib.valid([OPEN_BRACE] + RenderFields(lib, content, fields, v, 0).value + [CLOSE_BRACE])
    ensures Picks(lib, rd, content, [OPEN_BRACE] + RenderFields(lib, content, fields, v, 0).value + [CLOSE_BRACE], key, FindMember(fields, key))
      <==> ToldApart(lib, rd, content, fields, key)
  {
    hide Render, RenderFields, Same, GrammarLaw, ObjectBody, LastAt;
    var texts := FieldTexts(lib, rd, content, fields, v, 0);
    var text := [OPEN_BRACE] + RenderFields(lib, content, fields, v, 0).value + [CLOSE_BRACE];
    assert text == ObjectText(lib, Keys(fields), texts);
    assert Decodes(lib, rd, text, Keys(fields), texts) by { assert Listed(lib, rd, Keys(fields), texts); }
    hide ObjectLaw, ObjectText, Listed;
    forall i | 0 <= i < |fields| ensures Render(lib, content, fields[i].value, {}, 0) == Some(texts[i]) {
      RenderMonotone(lib, content, fields[i].value, v, {}, 1, 0);
    }
    FoundPicks(lib, rd, content, text, fields, texts, key);
  }

  /** The last member that reads as a key, if one does. */
  lemma {:induction false} SomeLast(lib: Lib, keys: seq<Bytes>, k: Bytes, i: nat) returns (l: nat)
    requires i < |keys| && lib.sanitize(keys[i]) == k
    ensures LastAt(lib, keys, k, l)
    decreases |keys| - i
  {
    if j :| i < j < |keys| && lib.sanitize(keys[j]) == k {
      l := SomeLast(lib, keys, k, j);
    } else {
      l := i;
    }
  }

  lemma LastOnce(lib: Lib, keys: seq<Bytes>, k: Bytes, i: int, j: int)
    requires LastAt(lib, keys, k, i) && LastAt(lib, keys, k, j)
    ensures i == j
  {
  }

  lemma FoundPicks(lib: Lib, rd: Reader, content: Table, text: Bytes, fields: seq<Member>, texts: seq<Bytes>, key: Bytes)
    requires KeyLaw(lib) && lib.utf8(key) && |texts| == |fields| && Decodes(lib, rd, text, Keys(fields), texts)
    requires forall i :: 0 <= i < |fields| ==> Render(lib, content, fields[i].value, {}, 0) == Some(texts[i])
    ensures Picks(lib, rd, content, text, key, FindMember(fields, key)) <==> ToldApart(lib, rd, content, fields, key)
  {
    FindMemberFinds(fields, key);
    hide Render, LastAt;
    if FindMember(fields, key).Ok? {
      var i :| 0 <= i < |fields| && fields[i].key == key && fields[i].value == FindMember(fields, key).value;
      assert lib.sanitize(Keys(fields)[i]) == key;
      var l := SomeLast(lib, Keys(fields), key, i);
      assert 0 <= l < |fields| by { LastInside(lib, Keys(fields), key, l); }
      assert Same(rd, rd.members(text).value[key], texts[l]);
      forall m | LastAt(lib, Keys(fields), key, m) ensures m == l {
        LastOnce(lib, Keys(fields), key, m, l);
      }
    }
  }

  lemma LastInside(lib: Lib, keys: seq<Bytes>, k: Bytes, i: int)
    requires LastAt(lib, keys, k, i)
    ensures 0 <= i < |keys|
  {
  }

  // ---------------------------------------------------------------- the whole read

  /** The chunks of a hex field are binary rows. */
  ghost predicate BinaryField(lib: Lib, content: Table, f: Fragment) {
    f.ref != [] && NodeAt(lib, content, f.ref).Some? && NodeAt(lib, content, f.ref).value.kind == KHex ==>
      forall c :: c in NodeAt(lib, content, f.ref).value.chunks ==> IsBinary(lib, content, c)
  }

  lemma PacketAgrees(lib: Lib, rd: Reader, content: Table, field: Fragment, truncated: bool, offset: nat, length: nat)
    requires KeyLaw(lib) && StringLaw(lib, rd) && HexLaw(lib) && length > 0
    requires Render(lib, content, field, {}, 0).Some? && BinaryField(lib, content, field)
    ensures Packet(lib, rd, content, field, truncated, offset, length) ==
      PacketFromText(rd, Render(lib, content, field, {}, 0).value, truncated, offset, length)
  {
    if field.ref != [] {
      var n := NodeAt(lib, content, field.ref).value;
      assert ReadNode(lib, content, field.ref) == Ok(n);
      if n.kind == KHex {
        var data := ReadChunks(lib, content, n.chunks).value;
        WalkCuts(lib, content, n.chunks, offset, length, []);
        assert [] + data == data && Cut([], offset, length) == [];
        assert rd.unquote(lib.quote(HexEncode(data))) == Some(HexEncode(data));
        HexRoundTrip(data);
      }
    }
  }

  /** On the way to the packet no member that is asked for is there twice with different texts, and chunks are
      binary. Nothing is asked of the other members. */
  ghost predicate Plainly(lib: Lib, rd: Reader, content: Table, f: Fragment) {
    && Unambiguous(lib, rd, content, f, RAW_PACKET)
    && match Child(lib, rd, content, f, RAW_PACKET)
       case Err(_) => true
       case Ok(raw) =>
         && Unambiguous(lib, rd, content, raw, PACKET_HEX) && Unambiguous(lib, rd, content, raw, CAPTURE_TRUNCATED)
         && match Child(lib, rd, content, raw, PACKET_HEX)
            case Err(_) => true
            case Ok(field) => BinaryField(lib, content, field)
  }

  function RootFragment(p: Payload): Fragment {
    if p.Plain? then Fragment(p.text, []) else Fragment([], p.root)
  }

  lemma RawAgrees(lib: Lib, rd: Reader, content: Table, raw: Fragment, text: Bytes, offset: nat, length: nat)
    requires JsonLawful(lib, rd) && length > 0 && Render(lib, content, raw, {}, 0) == Some(text) && lib.valid(text)
    requires Unambiguous(lib, rd, content, raw, PACKET_HEX) && Unambiguous(lib, rd, content, raw, CAPTURE_TRUNCATED)
    requires Child(lib, rd, content, raw, PACKET_HEX).Ok? ==> BinaryField(lib, content, Child(lib, rd, content, raw, PACKET_HEX).value)
    ensures RawRange(rd, text, offset, length) ==
      match Truncated(lib, rd, content, raw)
      case Err(e) => Err(e)
      case Ok(truncated) =>
        match Child(lib, rd, content, raw, PACKET_HEX)
        case Err(e) => Err(e)
        case Ok(field) => Packet(lib, rd, content, field, truncated, offset, length)
  {
    ChildPicks(lib, rd, content, raw, text, CAPTURE_TRUNCATED);
    ChildPicks(lib, rd, content, raw, text, PACKET_HEX);
    hide KeyLaw, GrammarLaw, ObjectLaw, StringLaw, HexLaw, Unambiguous, BinaryField, Render, Child, Packet, HexDecode, RangeOf;
    var field := Child(lib, rd, content, raw, PACKET_HEX);
    if field.Ok? && Truncated(lib, rd, content, raw).Ok? {
      PacketAgrees(lib, rd, content, field.value, Truncated(lib, rd, content, raw).value, offset, length);
    }
  }

  /** Reading the range from the stored graph gives what reading it from the restored text gives, in
      success and in error, if that text is valid: a plain one is, as payloadRoot has found, and a
      restored one nests too deep for encoding/json otherwise. */
  lemma RangeAgrees(lib: Lib, rd: Reader, content: Table, p: Payload, offset: nat, length: nat)
    requires JsonLawful(lib, rd) && length > 0
    requires DecodePayload(lib, content, p).Some? && lib.valid(DecodePayload(lib, content, p).value)
    requires Plainly(lib, rd, content, RootFragment(p))
    ensures RangeFromPayload(lib, rd, content, p, offset, length) ==
      RangeFromText(rd, DecodePayload(lib, content, p).value, offset, length)
  {
    hide KeyLaw, GrammarLaw, ObjectLaw, StringLaw, HexLaw, Unambiguous, BinaryField, Render, Child, Packet, Truncated, DecodePayload, RawRange;
    var f := RootFragment(p);
    var text := DecodePayload(lib, content, p).value;
    RootRenders(lib, content, p);
    ChildPicks(lib, rd, content, f, text, RAW_PACKET);
    var raw := Child(lib, rd, content, f, RAW_PACKET);
    if raw.Ok? {
      var t := Render(lib, content, raw.value, {}, 0).value;
      RawAgrees(lib, rd, content, raw.value, t, offset, length);
      SameRange(rd, t, rd.members(text).value[RAW_PACKET], offset, length);
    }
  }

  lemma RootRenders(lib: Lib, content: Table, p: Payload)
    requires DecodePayload(lib, content, p).Some? && lib.valid(DecodePayload(lib, content, p).value)
    ensures Render(lib, content, RootFragment(p), {}, 0) == DecodePayload(lib, content, p)
    ensures PayloadRoot(p).Ok? && (p.Manifest? ==> PayloadRoot(p).value == p.root)
  {
  }

  lemma SameRange(rd: Reader, s: Bytes, t: Bytes, offset: nat, length: nat)
    requires Same(rd, s, t)
    ensures RawRange(rd, s, offset, length) == RawRange(rd, t, offset, length)
  {
  }
}

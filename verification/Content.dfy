/** The content-addressed storage format of internal/queue/content.go: a graph of JSON
    fragments and binary chunks, written by `Encode` and restored by `Render`.

    SHA-256, zlib and encoding/json are parameters, bundled in `Lib`. The hash function is
    arbitrary; what is used about zlib and encoding/json is written down in `Lawful`. */
module Content {
  import opened Basics

  const CHUNK_BYTES := 4096
  const MAX_OBJECT_BYTES := 16777216
  const MAX_DEPTH := 256

  type Id = Bytes

  /** A value inlined as JSON text, or a reference when `ref` is nonempty. */
  datatype Fragment = Fragment(json: Bytes, ref: Id)
  datatype Member = Member(key: Bytes, value: Fragment)
  datatype Kind = KBytes | KJson | KObject | KArray | KString | KHex | KOther(name: Bytes)
  datatype Node = Node(kind: Kind, data: Bytes, fields: seq<Member>, items: seq<Fragment>, chunks: seq<Id>)

  /** What reflection sees of an event: `Scalar` is everything whose JSON text is written
      as it stands (numbers, booleans, null, custom marshalers). */
  datatype Value =
    | Scalar(text: Bytes)
    | Str(s: Bytes)
    | Obj(fields: seq<Field>)
    | Arr(items: seq<Value>)
  datatype Field = Field(name: Bytes, value: Value)

  /** One row of queue_content, and the two content tables. */
  datatype Row = Row(codec: int, size: int, data: Bytes)
  type Table = map<Id, Row>
  datatype Store = Store(content: Table, edges: set<(Id, Id)>)

  /** The objectWriter of one transaction. */
  datatype Writer = Writer(store: Store, known: map<Id, Bytes>)

  datatype Lib = Lib(
    hash: Bytes -> Id,
    deflate: Bytes -> Bytes,
    inflate: Bytes -> Option<Bytes>,
    quote: Bytes -> Bytes,
    utf8: Bytes -> bool,
    sanitize: Bytes -> Bytes,
    valid: Bytes -> bool,
    canonical: Bytes -> bool,
    marshal: Node -> Option<Bytes>,
    unmarshal: Bytes -> Option<Node>,
    parse: Bytes -> Option<Value>)

  /** The hash is arbitrary; only its printed form is fixed: 64 hex digits. */
  ghost predicate HashLaw(lib: Lib) {
    forall b: Bytes :: |lib.hash(b)| == 64 && lib.utf8(lib.hash(b))
  }

  ghost predicate ZlibLaw(lib: Lib) {
    forall b: Bytes :: lib.inflate(lib.deflate(b)) == Some(b)
  }

  /** A string that is not valid UTF-8 prints each bad byte as a six-byte escape, reads back
      with the replacement character in its place, and that prints in three bytes: hence the
      strict inequality. */
  ghost predicate KeyLaw(lib: Lib) {
    && (forall k: Bytes :: lib.utf8(lib.sanitize(k)))
    && (forall k: Bytes :: lib.utf8(k) ==> lib.sanitize(k) == k)
    && (forall k: Bytes :: !lib.utf8(k) ==> |lib.quote(lib.sanitize(k))| < |lib.quote(k)|)
  }

  /** A canonical text is one that json.Marshal printed, that prints the same again, and that leaves room
      below the 10000 levels of nesting which encoding/json reads: it is valid, and so it is inside a node.
      Strings are canonical, and so is what is short enough to be inlined, since its length bounds its
      nesting. */
  ghost predicate TextLaw(lib: Lib) {
    && (forall t: Bytes :: lib.canonical(t) ==> lib.valid(t))
    && (forall v: Value :: WellFormed(lib, v) && IsShort(lib, v) ==> lib.canonical(Json(lib, v)))
  }

  predicate IsShort(lib: Lib, v: Value) {
    v.Scalar? || v.Str? || |Json(lib, v)| < INLINE_CONTAINER
  }

  /** A node prints as a JSON object and reads back unchanged but for its keys. */
  ghost predicate NodeLaw(lib: Lib) {
    forall n: Node :: Printable(lib, n) && lib.marshal(n).Some? ==>
      && |lib.marshal(n).value| > 0
      && lib.marshal(n).value[0] != 0
      && lib.unmarshal(lib.marshal(n).value) == Some(Reread(lib, n))
  }

  /** Decoding a JSON text without a schema gives a value that prints and parses to itself,
      with valid keys. */
  ghost predicate ParseLaw(lib: Lib) {
    forall t: Bytes :: lib.parse(t).Some? ==>
      && WellFormed(lib, lib.parse(t).value)
      && Utf8Keys(lib, lib.parse(t).value)
      && lib.parse(Json(lib, lib.parse(t).value)) == lib.parse(t)
  }

  /** The facts about the libraries that the proofs use. */
  ghost predicate Lawful(lib: Lib) {
    HashLaw(lib) && ZlibLaw(lib) && KeyLaw(lib) && TextLaw(lib) && NodeLaw(lib)
  }

  // ---------------------------------------------------------------- direct JSON text

  const OPEN_BRACE: byte := 123
  const CLOSE_BRACE: byte := 125
  const OPEN_BRACKET: byte := 91
  const CLOSE_BRACKET: byte := 93
  const COMMA: byte := 44
  const COLON: byte := 58

  function Separator(more: bool): Bytes {
    if more then [COMMA] else []
  }

  /** The text json.Marshal gives the value: what a reader must get back. */
  function Json(lib: Lib, v: Value): Bytes
    decreases v, 1
  {
    match v
    case Scalar(text) => text
    case Str(s) => lib.quote(s)
    case Obj(fields) => [OPEN_BRACE] + JsonFields(lib, fields) + [CLOSE_BRACE]
    case Arr(items) => [OPEN_BRACKET] + JsonItems(lib, items) + [CLOSE_BRACKET]
  }

  function JsonFields(lib: Lib, fields: seq<Field>): Bytes
    decreases fields, 0
  {
    if fields == [] then [] else
    lib.quote(fields[0].name) + [COLON] + Json(lib, fields[0].value)
      + Separator(|fields| > 1) + JsonFields(lib, fields[1..])
  }

  function JsonItems(lib: Lib, items: seq<Value>): Bytes
    decreases items, 0
  {
    if items == [] then [] else
    Json(lib, items[0]) + Separator(|items| > 1) + JsonItems(lib, items[1..])
  }

  /** Every text that reflection hands over unchanged is what json.Marshal printed. */
  ghost predicate WellFormed(lib: Lib, v: Value)
    decreases v
  {
    match v
    case Scalar(text) => lib.canonical(text)
    case Str(_) => true
    case Obj(fields) => forall i :: 0 <= i < |fields| ==> WellFormed(lib, fields[i].value)
    case Arr(items) => forall i :: 0 <= i < |items| ==> WellFormed(lib, items[i])
  }

  predicate Utf8Keys(lib: Lib, v: Value)
    decreases v
  {
    match v
    case Obj(fields) =>
      forall i :: 0 <= i < |fields| ==> lib.utf8(fields[i].name) && Utf8Keys(lib, fields[i].value)
    case Arr(items) => forall i :: 0 <= i < |items| ==> Utf8Keys(lib, items[i])
    case _ => true
  }

  /** jsonEqual: both texts parse and print alike. */
  predicate JsonEqual(lib: Lib, a: Bytes, b: Bytes) {
    && lib.parse(a).Some? && lib.parse(b).Some?
    && Json(lib, lib.parse(a).value) == Json(lib, lib.parse(b).value)
  }

  // ---------------------------------------------------------------- nodes

  /** Everything in the node but its object keys survives marshal and unmarshal unchanged. */
  ghost predicate Printable(lib: Lib, n: Node) {
    && n.kind != KBytes
    && (n.kind.KOther? ==> lib.utf8(n.kind.name))
    && (forall i :: 0 <= i < |n.fields| ==> PrintableFragment(lib, n.fields[i].value))
    && (forall i :: 0 <= i < |n.items| ==> PrintableFragment(lib, n.items[i]))
    && (forall i :: 0 <= i < |n.chunks| ==> lib.utf8(n.chunks[i]))
  }

  ghost predicate PrintableFragment(lib: Lib, f: Fragment) {
    && (f.json != [] ==> lib.canonical(f.json))
    && (f.ref != [] ==> lib.utf8(f.ref))
  }

  /** The node as it reads back: keys that are not valid UTF-8 are replaced. */
  function Reread(lib: Lib, n: Node): Node {
    n.(fields := RereadFields(lib, n.fields))
  }

  function RereadFields(lib: Lib, fields: seq<Member>): (r: seq<Member>)
    ensures |r| == |fields|
    ensures forall i :: 0 <= i < |r| ==> r[i] == Member(lib.sanitize(fields[i].key), fields[i].value)
  {
    seq(|fields|, i requires 0 <= i < |fields| => Member(lib.sanitize(fields[i].key), fields[i].value))
  }

  function FieldRefs(fields: seq<Member>): seq<Id> {
    seq(|fields|, i requires 0 <= i < |fields| => fields[i].value.ref)
  }

  function ItemRefs(items: seq<Fragment>): seq<Id> {
    seq(|items|, i requires 0 <= i < |items| => items[i].ref)
  }

  /** First occurrences only, empty references dropped. */
  function Distinct(ids: seq<Id>): (r: seq<Id>)
    ensures forall x :: x in r <==> x in ids && x != []
    ensures forall i, j :: 0 <= i < j < |r| ==> r[i] != r[j]
  {
    if ids == [] then [] else
    var r := Distinct(ids[..|ids| - 1]);
    var last := ids[|ids| - 1];
    assert ids == ids[..|ids| - 1] + [last];
    if last == [] || last in r then r else r + [last]
  }

  function NodeRefs(n: Node): seq<Id> {
    Distinct(FieldRefs(n.fields) + ItemRefs(n.items) + n.chunks)
  }

  /** The bytes a node is stored as; chunks carry a zero byte in front of their data. */
  function NodeBytes(lib: Lib, n: Node): Option<Bytes> {
    if n.kind == KBytes then Some([0] + n.data) else lib.marshal(n)
  }

  function DecodeNode(lib: Lib, raw: Bytes): Option<Node> {
    if |raw| > 0 && raw[0] == 0 then Some(Node(KBytes, raw[1..], [], [], []))
    else lib.unmarshal(raw)
  }

  // ---------------------------------------------------------------- reading and writing rows

  function Pack(lib: Lib, raw: Bytes): (int, Bytes) {
    if |raw| < 256 then (0, raw) else
    var packed := lib.deflate(raw);
    if |packed| >= |raw| then (0, raw) else (1, packed)
  }

  function Unpack(lib: Lib, codec: int, size: int, data: Bytes): Option<Bytes> {
    if size < 0 || size > MAX_OBJECT_BYTES then None
    else if codec == 0 then (if |data| == size then Some(data) else None)
    else if codec != 1 then None
    else match lib.inflate(data)
      case None => None
      case Some(raw) => if |raw| == size then Some(raw) else None
  }

  /** The checked contents of one row. */
  function RowBytes(lib: Lib, id: Id, row: Row): Option<Bytes> {
    match Unpack(lib, row.codec, row.size, row.data)
    case None => None
    case Some(raw) => if lib.hash(raw) == id then Some(raw) else None
  }

  function RowNode(lib: Lib, id: Id, row: Row): Option<Node> {
    match RowBytes(lib, id, row)
    case None => None
    case Some(raw) => DecodeNode(lib, raw)
  }

  function ReadObject(lib: Lib, content: Table, id: Id): Result<Bytes> {
    if id !in content then Err(Missing)
    else match RowBytes(lib, id, content[id])
      case None => Err(Failed)
      case Some(raw) => Ok(raw)
  }

  function NodeAt(lib: Lib, content: Table, id: Id): Option<Node> {
    if id in content then RowNode(lib, id, content[id]) else None
  }

  function Save(lib: Lib, w: Writer, n: Node): Result<(Writer, Fragment)> {
    match NodeBytes(lib, n)
    case None => Err(Failed)
    case Some(raw) =>
      if |raw| > MAX_OBJECT_BYTES then Err(Failed) else
      var id := lib.hash(raw);
      if id in w.known then
        if w.known[id] == raw then Ok((w, Fragment([], id))) else Err(Failed)
      else
        match ReadObject(lib, w.store.content, id)
        case Ok(saved) =>
          if saved != raw then Err(Failed)
          else Ok((w.(known := w.known[id := raw]), Fragment([], id)))
        case Err(Failed) => Err(Failed)
        case Err(Missing) =>
          if exists c :: c in NodeRefs(n) && (id, c) in w.store.edges then Err(Failed) else
          var (codec, data) := Pack(lib, raw);
          var store := Store(w.store.content[id := Row(codec, |raw|, data)],
                             w.store.edges + set c | c in NodeRefs(n) :: (id, c));
          Ok((Writer(store, w.known[id := raw]), Fragment([], id)))
  }

  // ---------------------------------------------------------------- encoding a value

  function HexDigit(d: int): byte
    requires 0 <= d < 16
  {
    if d < 10 then 48 + d else 87 + d
  }

  function HexEncode(b: Bytes): (s: Bytes)
    ensures |s| == 2 * |b|
  {
    if b == [] then [] else [HexDigit(b[0] / 16), HexDigit(b[0] % 16)] + HexEncode(b[1..])
  }

  function HexValue(c: byte): Option<int> {
    if 48 <= c <= 57 then Some(c - 48)
    else if 97 <= c <= 102 then Some(c - 87)
    else if 65 <= c <= 70 then Some(c - 55)
    else None
  }

  /** hex.DecodeString: either case, even length. */
  function HexDecode(s: Bytes): Option<Bytes> {
    if s == [] then Some([])
    else if |s| == 1 then None
    else match (HexValue(s[0]), HexValue(s[1]), HexDecode(s[2..]))
      case (Some(hi), Some(lo), Some(rest)) => Some([HexByte(hi, lo)] + rest)
      case _ => None
  }

  function HexByte(hi: int, lo: int): byte {
    if 0 <= hi < 16 && 0 <= lo < 16 then 16 * hi + lo else 0
  }

  const HEX_SUFFIX: Bytes := [95, 104, 101, 120]  // "_hex"

  predicate HasSuffix(s: Bytes, suffix: Bytes) {
    |s| >= |suffix| && s[|s| - |suffix|..] == suffix
  }

  /** A string under a key ending in _hex that is lower-case hex is stored in binary. */
  predicate IsHexField(s: Bytes, key: Bytes) {
    && HasSuffix(key, HEX_SUFFIX)
    && HexDecode(s).Some?
    && HexEncode(HexDecode(s).value) == s
  }

  /** Saves `data` in pieces of at most CHUNK_BYTES and returns their references. */
  function SaveChunks(lib: Lib, w: Writer, data: Bytes): Result<(Writer, seq<Id>)>
    decreases |data|
  {
    if data == [] then Ok((w, [])) else
    var n := Min(|data|, CHUNK_BYTES);
    match Save(lib, w, Node(KBytes, data[..n], [], [], []))
    case Err(e) => Err(e)
    case Ok((w1, f)) =>
      match SaveChunks(lib, w1, data[n..])
      case Err(e) => Err(e)
      case Ok((w2, rest)) => Ok((w2, [f.ref] + rest))
  }

  const INLINE_STRING := 128
  const INLINE_CONTAINER := 512

  function StringValue(lib: Lib, w: Writer, s: Bytes, key: Bytes): Result<(Writer, Fragment)> {
    if |s| < INLINE_STRING then Ok((w, Fragment(lib.quote(s), []))) else
    var hex := IsHexField(s, key);
    match SaveChunks(lib, w, if hex then HexDecode(s).value else s)
    case Err(e) => Err(e)
    case Ok((w1, chunks)) => Save(lib, w1, Node(if hex then KHex else KString, [], [], [], chunks))
  }

  function Encode(lib: Lib, w: Writer, v: Value, key: Bytes): Result<(Writer, Fragment)>
    decreases v, 1
  {
    match v
    case Scalar(text) => Ok((w, Fragment(text, [])))
    case Str(s) => StringValue(lib, w, s, key)
    case Obj(fields) =>
      (match EncodeFields(lib, w, fields)
       case Err(e) => Err(e)
       case Ok((w1, members)) => Close(lib, w1, v, Node(KObject, [], members, [], [])))
    case Arr(items) =>
      (match EncodeItems(lib, w, items, key)
       case Err(e) => Err(e)
       case Ok((w1, fragments)) => Close(lib, w1, v, Node(KArray, [], [], fragments, [])))
  }

  /** A small container without references is inlined; any other is saved. */
  function Close(lib: Lib, w: Writer, v: Value, n: Node): Result<(Writer, Fragment)> {
    if NodeRefs(n) == [] && |Json(lib, v)| < INLINE_CONTAINER then Ok((w, Fragment(Json(lib, v), [])))
    else Save(lib, w, n)
  }

  function EncodeFields(lib: Lib, w: Writer, fields: seq<Field>): Result<(Writer, seq<Member>)>
    decreases fields, 0
  {
    if fields == [] then Ok((w, [])) else
    match Encode(lib, w, fields[0].value, fields[0].name)
    case Err(e) => Err(e)
    case Ok((w1, f)) =>
      match EncodeFields(lib, w1, fields[1..])
      case Err(e) => Err(e)
      case Ok((w2, rest)) => Ok((w2, [Member(fields[0].name, f)] + rest))
  }

  function EncodeItems(lib: Lib, w: Writer, items: seq<Value>, key: Bytes): Result<(Writer, seq<Fragment>)>
    decreases items, 0
  {
    if items == [] then Ok((w, [])) else
    match Encode(lib, w, items[0], key)
    case Err(e) => Err(e)
    case Ok((w1, f)) =>
      match EncodeItems(lib, w1, items[1..], key)
      case Err(e) => Err(e)
      case Ok((w2, rest)) => Ok((w2, [f] + rest))
  }

  /** The payload column: an event's JSON as it stands (a text whose _ta_storage is absent or 0),
      or a manifest naming the root node. */
  datatype Payload = Plain(text: Bytes) | Manifest(version: nat, root: Id)

  function EncodePayload(lib: Lib, store: Store, v: Value): Result<(Store, Payload)> {
    match Encode(lib, Writer(store, map[]), v, [])
    case Err(e) => Err(e)
    case Ok((w, f)) =>
      if f.ref != [] then Ok((w.store, Manifest(2, f.ref))) else
      match Save(lib, w, Node(KJson, f.json, [], [], []))
      case Err(e) => Err(e)
      case Ok((w1, g)) => Ok((w1.store, Manifest(2, g.ref)))
  }

  // ---------------------------------------------------------------- restoring a value

  function PayloadRoot(p: Payload): Result<Id> {
    match p
    case Plain(_) => Ok([])
    case Manifest(version, root) =>
      if version != 2 || |root| != 64 then Err(Failed)
      else Ok(root)
  }

  /** Concatenated data of the named chunks, each checked. */
  function ReadChunks(lib: Lib, content: Table, chunks: seq<Id>): Option<Bytes> {
    if chunks == [] then Some([]) else
    match NodeAt(lib, content, chunks[0])
    case None => None
    case Some(c) =>
      if c.kind != KBytes || |c.data| > CHUNK_BYTES then None else
      match ReadChunks(lib, content, chunks[1..])
      case None => None
      case Some(rest) => Some(c.data + rest)
  }

  /** Appends to nothing: the text written for the fragment, None on any error. */
  function Render(lib: Lib, content: Table, f: Fragment, visiting: set<Id>, depth: nat): Option<Bytes>
    decreases MAX_DEPTH + 1 - depth, 2
  {
    if f.ref == [] then (if lib.valid(f.json) then Some(f.json) else None)
    else if depth > MAX_DEPTH || f.ref in visiting then None
    else match NodeAt(lib, content, f.ref)
      case None => None
      case Some(n) => RenderNode(lib, content, n, visiting + {f.ref}, depth)
  }

  function RenderNode(lib: Lib, content: Table, n: Node, visiting: set<Id>, depth: nat): Option<Bytes>
    requires depth <= MAX_DEPTH
    decreases MAX_DEPTH + 1 - depth, 1
  {
    match n.kind
    case KJson => if lib.valid(n.data) then Some(n.data) else None
    case KObject =>
      Wrap(OPEN_BRACE, RenderFields(lib, content, n.fields, visiting, depth), CLOSE_BRACE)
    case KArray =>
      Wrap(OPEN_BRACKET, RenderItems(lib, content, n.items, visiting, depth), CLOSE_BRACKET)
    case KString =>
      (match ReadChunks(lib, content, n.chunks)
       case None => None
       case Some(b) => Some(lib.quote(b)))
    case KHex =>
      (match ReadChunks(lib, content, n.chunks)
       case None => None
       case Some(b) => Some(lib.quote(HexEncode(b))))
    case _ => None
  }

  function Wrap(open: byte, inner: Option<Bytes>, close: byte): Option<Bytes> {
    match inner
    case None => None
    case Some(text) => Some([open] + text + [close])
  }

  function RenderFields(lib: Lib, content: Table, fields: seq<Member>, visiting: set<Id>, depth: nat): Option<Bytes>
    requires depth <= MAX_DEPTH
    decreases MAX_DEPTH + 1 - depth, 0, |fields|
  {
    if fields == [] then Some([]) else
    match (Render(lib, content, fields[0].value, visiting, depth + 1),
           RenderFields(lib, content, fields[1..], visiting, depth))
    case (Some(head), Some(rest)) =>
      Some(lib.quote(fields[0].key) + [COLON] + head + Separator(|fields| > 1) + rest)
    case _ => None
  }

  function RenderItems(lib: Lib, content: Table, items: seq<Fragment>, visiting: set<Id>, depth: nat): Option<Bytes>
    requires depth <= MAX_DEPTH
    decreases MAX_DEPTH + 1 - depth, 0, |items|
  {
    if items == [] then Some([]) else
    match (Render(lib, content, items[0], visiting, depth + 1),
           RenderItems(lib, content, items[1..], visiting, depth))
    case (Some(head), Some(rest)) => Some(head + Separator(|items| > 1) + rest)
    case _ => None
  }

  function DecodePayload(lib: Lib, content: Table, p: Payload): Option<Bytes> {
    match PayloadRoot(p)
    case Err(_) => None
    case Ok(root) =>
      if p.Plain? then Some(p.text)
      else Render(lib, content, Fragment([], root), {}, 0)
  }
}

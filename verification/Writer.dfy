/** The objects behind the storage format: the writer of one transaction, the renderer that fills a buffer
    and the copier of a graph, as they update their fields, each shown to do what the functions of
    Content and Copy say. */
module Writers {
  import opened Basics
  import opened Content
  import opened Copy

  /** The object ended as the function says; after an error the transaction is rolled back. */
  ghost predicate Outcome<T>(spec: Result<(Writer, T)>, r: Result<T>, now: Writer) {
    match spec
    case Err(e) => r == Err(e)
    case Ok((w, t)) => r == Ok(t) && now == w
  }

  function Prepend<T>(done: seq<T>, r: Result<(Writer, seq<T>)>): Result<(Writer, seq<T>)> {
    match r case Err(e) => Err(e) case Ok((w, rest)) => Ok((w, done + rest))
  }

  lemma PrependNone<T>(r: Result<(Writer, seq<T>)>)
    ensures Prepend([], r) == r
  {
    if r.Ok? { assert [] + r.value.1 == r.value.1; }
  }

  class ObjectWriter {
    const lib: Lib
    var store: Store
    var known: map<Id, Bytes>

    constructor (lib: Lib, store: Store)
      ensures this.lib == lib && View() == Writer(store, map[])
    {
      this.lib, this.store, this.known := lib, store, map[];
    }

    function View(): Writer
      reads this
    {
      Writer(store, known)
    }

    /** save: the node's row and then its edges, one by one; an edge already there is an error. */
    method SaveNode(n: Node) returns (r: Result<Fragment>)
      modifies this
      ensures Outcome(Save(lib, old(View()), n), r, View())
    {
      var bytes := NodeBytes(lib, n);
      if bytes.None? || |bytes.value| > MAX_OBJECT_BYTES {
        return Err(Failed);
      }
      var raw := bytes.value;
      var id := lib.hash(raw);
      if id in known {
        if known[id] != raw {
          return Err(Failed);
        }
        return Ok(Fragment([], id));
      }
      var saved := ReadObject(lib, store.content, id);
      if saved.Ok? {
        if saved.value != raw {
          return Err(Failed);
        }
      } else {
        if saved.error != Missing {
          return Err(Failed);
        }
        var (codec, data) := Pack(lib, raw);
        store := store.(content := store.content[id := Row(codec, |raw|, data)]);
        var ok := InsertEdges(id, NodeRefs(n));
        if !ok {
          return Err(Failed);
        }
      }
      known := known[id := raw];
      return Ok(Fragment([], id));
    }

    method InsertEdges(id: Id, children: seq<Id>) returns (ok: bool)
      requires forall i, j :: 0 <= i < j < |children| ==> children[i] != children[j]
      modifies `store
      ensures ok == !exists c :: c in children && (id, c) in old(store).edges
      ensures ok ==> store == old(store).(edges := old(store).edges + set c | c in children :: (id, c))
    {
      for i := 0 to |children|
        invariant store == old(store).(edges := old(store).edges + set c | c in children[..i] :: (id, c))
        invariant forall c :: c in children[..i] ==> (id, c) !in old(store).edges
      {
        assert children[..i + 1] == children[..i] + [children[i]];
        if (id, children[i]) in store.edges {
          assert children[i] !in children[..i];
          return false;
        }
        store := store.(edges := store.edges + {(id, children[i])});
      }
      assert children[..|children|] == children;
      return true;
    }

    /** stringValue: the text, or the bytes it is the hex form of, cut into chunks. */
    method WriteString(s: Bytes, key: Bytes) returns (r: Result<Fragment>)
      modifies this
      ensures Outcome(StringValue(lib, old(View()), s, key), r, View())
    {
      hide Save, HexDecode, HexEncode;
      if |s| < INLINE_STRING {
        return Ok(Fragment(lib.quote(s), []));
      }
      var hex := IsHexField(s, key);
      var chunks := WriteChunks(if hex then HexDecode(s).value else s);
      if chunks.Err? {
        return Err(chunks.error);
      }
      r := SaveNode(Node(if hex then KHex else KString, [], [], [], chunks.value));
    }

    method WriteChunks(bytes: Bytes) returns (r: Result<seq<Id>>)
      modifies this
      ensures Outcome(SaveChunks(lib, old(View()), bytes), r, View())
    {
      hide Save;
      var chunks, data := [], bytes;
      PrependNone(SaveChunks(lib, View(), bytes));
      while |data| > 0
        invariant SaveChunks(lib, old(View()), bytes) == Prepend(chunks, SaveChunks(lib, View(), data))
        decreases |data|
      {
        var n := Min(|data|, CHUNK_BYTES);
        ghost var before := View();
        var f := SaveNode(Node(KBytes, data[..n], [], [], []));
        if f.Err? {
          return Err(f.error);
        }
        ChunkStep(lib, before, View(), chunks, data, f.value);
        chunks := chunks + [f.value.ref];
        data := data[n..];
      }
      assert chunks + [] == chunks;
      return Ok(chunks);
    }

    /** encode: depth first, the members of a container before the container. */
    method EncodeValue(v: Value, key: Bytes) returns (r: Result<Fragment>)
      modifies this
      ensures Outcome(Encode(lib, old(View()), v, key), r, View())
      decreases v, 1
    {
      hide Save, StringValue, NodeRefs, Json;
      match v {
        case Scalar(text) => r := Ok(Fragment(text, []));
        case Str(s) => r := WriteString(s, key);
        case Obj(fields) =>
          var members := WriteFields(fields);
          if members.Err? {
            return Err(members.error);
          }
          r := CloseNode(v, Node(KObject, [], members.value, [], []));
        case Arr(items) =>
          var fragments := WriteItems(items, key);
          if fragments.Err? {
            return Err(fragments.error);
          }
          r := CloseNode(v, Node(KArray, [], [], fragments.value, []));
      }
    }

    method CloseNode(v: Value, n: Node) returns (r: Result<Fragment>)
      modifies this
      ensures Outcome(Close(lib, old(View()), v, n), r, View())
    {
      hide Save, NodeRefs, Json;
      if NodeRefs(n) == [] && |Json(lib, v)| < INLINE_CONTAINER {
        return Ok(Fragment(Json(lib, v), []));
      }
      r := SaveNode(n);
    }

    method WriteFields(fields: seq<Field>) returns (r: Result<seq<Member>>)
      modifies this
      ensures Outcome(EncodeFields(lib, old(View()), fields), r, View())
      decreases fields, 0
    {
      hide Encode;
      var members: seq<Member> := [];
      var i := 0;
      assert fields[0..] == fields;
      PrependNone(EncodeFields(lib, View(), fields));
      while i < |fields|
        invariant 0 <= i <= |fields|
        invariant EncodeFields(lib, old(View()), fields) == Prepend(members, EncodeFields(lib, View(), fields[i..]))
      {
        ghost var before := View();
        var f := EncodeValue(fields[i].value, fields[i].name);
        if f.Err? {
          return Err(f.error);
        }
        FieldStep(lib, before, View(), members, fields[i..], f.value);
        assert fields[i..][1..] == fields[i + 1..];
        members := members + [Member(fields[i].name, f.value)];
        i := i + 1;
      }
      assert members + [] == members;
      return Ok(members);
    }

    method WriteItems(items: seq<Value>, key: Bytes) returns (r: Result<seq<Fragment>>)
      modifies this
      ensures Outcome(EncodeItems(lib, old(View()), items, key), r, View())
      decreases items, 0
    {
      hide Encode;
      var fragments: seq<Fragment> := [];
      var i := 0;
      assert items[0..] == items;
      PrependNone(EncodeItems(lib, View(), items, key));
      while i < |items|
        invariant 0 <= i <= |items|
        invariant EncodeItems(lib, old(View()), items, key) == Prepend(fragments, EncodeItems(lib, View(), items[i..], key))
      {
        ghost var before := View();
        var f := EncodeValue(items[i], key);
        if f.Err? {
          return Err(f.error);
        }
        ItemStep(lib, before, View(), fragments, items[i..], key, f.value);
        assert items[i..][1..] == items[i + 1..];
        fragments := fragments + [f.value];
        i := i + 1;
      }
      assert fragments + [] == fragments;
      return Ok(fragments);
    }
  }

  lemma ChunkStep(lib: Lib, before: Writer, after: Writer, chunks: seq<Id>, data: Bytes, f: Fragment)
    requires data != [] && Save(lib, before, Node(KBytes, data[..Min(|data|, CHUNK_BYTES)], [], [], [])) == Ok((after, f))
    ensures Prepend(chunks, SaveChunks(lib, before, data)) ==
      Prepend(chunks + [f.ref], SaveChunks(lib, after, data[Min(|data|, CHUNK_BYTES)..]))
  {
    var rest := SaveChunks(lib, after, data[Min(|data|, CHUNK_BYTES)..]);
    if rest.Ok? { assert chunks + ([f.ref] + rest.value.1) == chunks + [f.ref] + rest.value.1; }
  }

  lemma FieldStep(lib: Lib, before: Writer, after: Writer, members: seq<Member>, fields: seq<Field>, f: Fragment)
    requires fields != [] && Encode(lib, before, fields[0].value, fields[0].name) == Ok((after, f))
    ensures Prepend(members, EncodeFields(lib, before, fields)) ==
      Prepend(members + [Member(fields[0].name, f)], EncodeFields(lib, after, fields[1..]))
  {
    hide Encode;
    var rest := EncodeFields(lib, after, fields[1..]);
    var m := Member(fields[0].name, f);
    if rest.Ok? { assert members + ([m] + rest.value.1) == members + [m] + rest.value.1; }
  }

  lemma ItemStep(lib: Lib, before: Writer, after: Writer, fragments: seq<Fragment>, items: seq<Value>, key: Bytes, f: Fragment)
    requires items != [] && Encode(lib, before, items[0], key) == Ok((after, f))
    ensures Prepend(fragments, EncodeItems(lib, before, items, key)) ==
      Prepend(fragments + [f], EncodeItems(lib, after, items[1..], key))
  {
    hide Encode;
    var rest := EncodeItems(lib, after, items[1..], key);
    if rest.Ok? { assert fragments + ([f] + rest.value.1) == fragments + [f] + rest.value.1; }
  }

  /** encodePayload. */
  method WritePayload(lib: Lib, store: Store, v: Value) returns (r: Result<(Store, Payload)>)
    ensures r == EncodePayload(lib, store, v)
  {
    hide Encode, Save;
    var w := new ObjectWriter(lib, store);
    var f := w.EncodeValue(v, []);
    if f.Err? {
      return Err(f.error);
    }
    if f.value.ref == [] {
      f := w.SaveNode(Node(KJson, f.value.json, [], [], []));
      if f.Err? {
        return Err(f.error);
      }
    }
    return Ok((w.store, Manifest(2, f.value.ref)));
  }

  // ---------------------------------------------------------------- rendering into a buffer

  /** The buffer now ends with the text, or the rendering failed; the guard set is as it was. */
  class Renderer {
    const lib: Lib
    const content: Table
    var out: Bytes
    var visiting: set<Id>

    constructor (lib: Lib, content: Table)
      ensures this.lib == lib && this.content == content && out == [] && visiting == {}
    {
      this.lib, this.content, this.out, this.visiting := lib, content, [], {};
    }

    method RenderFragment(f: Fragment, depth: nat) returns (ok: bool)
      modifies this
      ensures visiting == old(visiting)
      ensures Written(Render(lib, content, f, old(visiting), depth), ok, old(out), out)
      decreases MAX_DEPTH + 1 - depth, 2
    {
      if f.ref == [] {
        if !lib.valid(f.json) {
          return false;
        }
        out := out + f.json;
        return true;
      }
      if depth > MAX_DEPTH || f.ref in visiting {
        return false;
      }
      visiting := visiting + {f.ref};
      var n := NodeAt(lib, content, f.ref);
      ok := n.Some?;
      if ok {
        ok := RenderBody(n.value, depth);
      }
      visiting := visiting - {f.ref};
    }

    method RenderBody(n: Node, depth: nat) returns (ok: bool)
      requires depth <= MAX_DEPTH
      modifies this
      ensures visiting == old(visiting)
      ensures Written(RenderNode(lib, content, n, old(visiting), depth), ok, old(out), out)
      decreases MAX_DEPTH + 1 - depth, 1
    {
      hide ReadChunks, HexEncode, Render;
      match n.kind {
        case KJson =>
          ok := lib.valid(n.data);
          out := out + n.data;
        case KObject =>
          ghost var before := out;
          out := out + [OPEN_BRACE];
          ok := RenderMembers(n.fields, depth);
          out := out + [CLOSE_BRACE];
          if ok { Wrapped(before, OPEN_BRACE, RenderFields(lib, content, n.fields, visiting, depth).value, CLOSE_BRACE); }
        case KArray =>
          ghost var before := out;
          out := out + [OPEN_BRACKET];
          ok := RenderElements(n.items, depth);
          out := out + [CLOSE_BRACKET];
          if ok { Wrapped(before, OPEN_BRACKET, RenderItems(lib, content, n.items, visiting, depth).value, CLOSE_BRACKET); }
        case KString =>
          var b := JoinChunks(n.chunks);
          ok := b.Some?;
          if ok { out := out + lib.quote(b.value); }
        case KHex =>
          var b := JoinChunks(n.chunks);
          ok := b.Some?;
          if ok { out := out + lib.quote(HexEncode(b.value)); }
        case _ =>
          ok := false;
      }
    }

    method RenderMembers(fields: seq<Member>, depth: nat) returns (ok: bool)
      requires depth <= MAX_DEPTH
      modifies this
      ensures visiting == old(visiting)
      ensures Written(RenderFields(lib, content, fields, old(visiting), depth), ok, old(out), out)
      decreases MAX_DEPTH + 1 - depth, 0
    {
      hide Render;
      var i := 0;
      assert fields[0..] == fields;
      while i < |fields|
        invariant 0 <= i <= |fields| && visiting == old(visiting)
        invariant Resumes(RenderFields(lib, content, fields, visiting, depth), old(out),
                          RenderFields(lib, content, fields[i..], visiting, depth), out)
      {
        ghost var start := out;
        out := out + lib.quote(fields[i].key) + [COLON];
        var done := RenderFragment(fields[i].value, depth + 1);
        assert fields[i..][1..] == fields[i + 1..];
        if !done {
          return false;
        }
        ghost var text := Render(lib, content, fields[i].value, visiting, depth + 1).value;
        out := out + Separator(i + 1 < |fields|);
        assert out == start + (lib.quote(fields[i].key) + [COLON] + text + Separator(|fields[i..]| > 1));
        Resume(RenderFields(lib, content, fields, visiting, depth), old(out), RenderFields(lib, content, fields[i..], visiting, depth), start,
               lib.quote(fields[i].key) + [COLON] + text + Separator(|fields[i..]| > 1), RenderFields(lib, content, fields[i + 1..], visiting, depth));
        i := i + 1;
      }
      return true;
    }

    method RenderElements(items: seq<Fragment>, depth: nat) returns (ok: bool)
      requires depth <= MAX_DEPTH
      modifies this
      ensures visiting == old(visiting)
      ensures Written(RenderItems(lib, content, items, old(visiting), depth), ok, old(out), out)
      decreases MAX_DEPTH + 1 - depth, 0
    {
      hide Render;
      var i := 0;
      assert items[0..] == items;
      while i < |items|
        invariant 0 <= i <= |items| && visiting == old(visiting)
        invariant Resumes(RenderItems(lib, content, items, visiting, depth), old(out),
                          RenderItems(lib, content, items[i..], visiting, depth), out)
      {
        ghost var start := out;
        var done := RenderFragment(items[i], depth + 1);
        assert items[i..][1..] == items[i + 1..];
        if !done {
          return false;
        }
        ghost var text := Render(lib, content, items[i], visiting, depth + 1).value;
        out := out + Separator(i + 1 < |items|);
        assert out == start + (text + Separator(|items[i..]| > 1));
        Resume(RenderItems(lib, content, items, visiting, depth), old(out), RenderItems(lib, content, items[i..], visiting, depth), start,
               text + Separator(|items[i..]| > 1), RenderItems(lib, content, items[i + 1..], visiting, depth));
        i := i + 1;
      }
      return true;
    }

    method JoinChunks(chunks: seq<Id>) returns (r: Option<Bytes>)
      ensures r == ReadChunks(lib, content, chunks)
    {
      hide NodeAt;
      var b: Bytes := [];
      var i := 0;
      assert chunks[0..] == chunks;
      while i < |chunks|
        invariant 0 <= i <= |chunks|
        invariant Resumes(ReadChunks(lib, content, chunks), [], ReadChunks(lib, content, chunks[i..]), b)
      {
        assert chunks[i..][1..] == chunks[i + 1..];
        var c := NodeAt(lib, content, chunks[i]);
        if c.None? || c.value.kind != KBytes || |c.value.data| > CHUNK_BYTES {
          return None;
        }
        Resume(ReadChunks(lib, content, chunks), [], ReadChunks(lib, content, chunks[i..]), b, c.value.data, ReadChunks(lib, content, chunks[i + 1..]));
        b := b + c.value.data;
        i := i + 1;
      }
      ghost var all := ReadChunks(lib, content, chunks).value;
      assert [] + all == all && b + [] == b;
      return Some(b);
    }
  }

  /** The outcome of appending a text to the buffer. */
  ghost predicate Written(text: Option<Bytes>, ok: bool, before: Bytes, after: Bytes) {
    ok == text.Some? && (ok ==> after == before + text.value)
  }

  /** Appending the whole text to `start` is appending what is left of it to `now`. */
  ghost predicate Resumes(whole: Option<Bytes>, start: Bytes, left: Option<Bytes>, now: Bytes) {
    whole.Some? == left.Some? && (whole.Some? ==> start + whole.value == now + left.value)
  }

  lemma Resume(whole: Option<Bytes>, start: Bytes, left: Option<Bytes>, now: Bytes, text: Bytes, rest: Option<Bytes>)
    requires Resumes(whole, start, left, now) && left.Some? == rest.Some? && (rest.Some? ==> left.value == text + rest.value)
    ensures Resumes(whole, start, rest, now + text)
  {
    if rest.Some? { assert now + (text + rest.value) == now + text + rest.value; }
  }

  lemma Wrapped(before: Bytes, open: byte, text: Bytes, close: byte)
    ensures before + [open] + text + [close] == before + ([open] + text + [close])
  {
  }

  /** decodePayload. */
  method RestorePayload(lib: Lib, content: Table, p: Payload) returns (r: Option<Bytes>)
    ensures r == DecodePayload(lib, content, p)
  {
    hide Render;
    var root := PayloadRoot(p);
    if root.Err? {
      return None;
    }
    if p.Plain? {
      return Some(p.text);
    }
    var out := new Renderer(lib, content);
    var ok := out.RenderFragment(Fragment([], root.value), 0);
    if !ok {
      return None;
    }
    ghost var text := Render(lib, content, Fragment([], root.value), {}, 0).value;
    assert [] + text == text;
    return Some(out.out);
  }

  // ---------------------------------------------------------------- copying a graph

  class Copier {
    const lib: Lib
    const src: Table
    const writer: ObjectWriter
    var visiting: set<Id>
    var finished: set<Id>

    constructor (lib: Lib, src: Table, dst: Store)
      ensures this.lib == lib && this.src == src && fresh(writer) && writer.lib == lib && writer.View() == Writer(dst, map[])
      ensures visiting == {} && finished == {}
    {
      this.lib, this.src, this.visiting, this.finished := lib, src, {}, {};
      this.writer := new ObjectWriter(lib, dst);
    }

    /** visit: the children first, then the node itself, which must get the id it had. */
    method VisitNode(id: Id, depth: nat) returns (error: Option<Error>)
      requires writer.lib == lib
      modifies this, writer
      ensures visiting == old(visiting)
      ensures Visited(Visit(lib, src, old(writer.View()), old(finished), old(visiting), id, depth), error, writer.View(), finished)
      decreases MAX_DEPTH + 1 - depth, 1
    {
      hide Save, NodeRefs, DecodeNode, ReadObject;
      if id in finished {
        return None;
      }
      if depth > MAX_DEPTH || id in visiting {
        return Some(Failed);
      }
      visiting := visiting + {id};
      error := VisitFresh(id, depth);
      visiting := visiting - {id};
    }

    method VisitFresh(id: Id, depth: nat) returns (error: Option<Error>)
      requires writer.lib == lib && id !in finished && depth <= MAX_DEPTH && id in visiting
      modifies this, writer
      ensures visiting == old(visiting)
      ensures Visited(Visit(lib, src, old(writer.View()), old(finished), old(visiting) - {id}, id, depth), error, writer.View(), finished)
      decreases MAX_DEPTH + 1 - depth, 0, 1
    {
      hide Save, NodeRefs, DecodeNode, ReadObject;
      assert visiting - {id} + {id} == visiting;
      var raw := ReadObject(lib, src, id);
      if raw.Err? {
        return Some(raw.error);
      }
      var n := DecodeNode(lib, raw.value);
      if n.None? {
        return Some(Failed);
      }
      error := VisitChildren(NodeRefs(n.value), depth);
      if error.Some? {
        return;
      }
      var f := writer.SaveNode(n.value);
      if f.Err? {
        return Some(f.error);
      }
      if f.value.ref != id {
        return Some(Failed);
      }
      finished := finished + {id};
    }

    method VisitChildren(ids: seq<Id>, depth: nat) returns (error: Option<Error>)
      requires writer.lib == lib && depth <= MAX_DEPTH
      modifies this, writer
      ensures visiting == old(visiting)
      ensures Visited(VisitAll(lib, src, old(writer.View()), old(finished), old(visiting), ids, depth), error, writer.View(), finished)
      decreases MAX_DEPTH + 1 - depth, 0, 0
    {
      hide Visit;
      var i := 0;
      assert ids[0..] == ids;
      while i < |ids|
        invariant 0 <= i <= |ids| && visiting == old(visiting)
        invariant VisitAll(lib, src, old(writer.View()), old(finished), visiting, ids, depth) ==
          VisitAll(lib, src, writer.View(), finished, visiting, ids[i..], depth)
      {
        assert ids[i..][1..] == ids[i + 1..];
        error := VisitNode(ids[i], depth + 1);
        if error.Some? {
          return;
        }
        i := i + 1;
      }
      return None;
    }
  }

  ghost predicate Visited(spec: Result<(Writer, set<Id>)>, error: Option<Error>, now: Writer, finished: set<Id>) {
    match spec
    case Err(e) => error == Some(e)
    case Ok((w, ids)) => error == None && now == w && finished == ids
  }

  /** copyPayload. */
  method CopyInto(lib: Lib, src: Table, dst: Store, p: Payload) returns (r: Result<(Store, Payload)>)
    ensures r == CopyPayload(lib, src, dst, p)
  {
    hide Visit, EncodePayload;
    var root := PayloadRoot(p);
    if root.Err? {
      return Err(root.error);
    }
    if p.Plain? {
      var v := lib.parse(p.text);
      if v.None? {
        return Err(Failed);
      }
      r := WritePayload(lib, dst, v.value);
      return;
    }
    var c := new Copier(lib, src, dst);
    var error := c.VisitNode(root.value, 0);
    if error.Some? {
      return Err(error.value);
    }
    return Ok((c.writer.store, p));
  }
}

/** The server name of a TLS ClientHello (internal/parser/parser.go), read from one packet. The layout is
    that of section 4.1.2 of RFC 8446 and section 3 of RFC 6066. */
module Sni {
  import opened Basics

  const HANDSHAKE: byte := 0x16
  const CLIENT_HELLO: byte := 0x01
  const VERSION_AND_RANDOM := 34
  const DOT: byte := 46

  function U16(b: Bytes): nat
    requires |b| >= 2
  {
    256 * (b[0] as int) + b[1] as int
  }

  function TrimDot(s: Bytes): Bytes {
    if |s| > 0 && s[|s| - 1] == DOT then s[..|s| - 1] else s
  }

  // ---------------------------------------------------------------- the parser

  /** What follows a vector with a one-byte length. */
  function After8(b: Bytes): Option<Bytes> {
    if |b| < 1 || |b| < 1 + b[0] as int then None else Some(b[1 + b[0] as int..])
  }

  /** What follows a vector with a two-byte length. */
  function After16(b: Bytes): Option<Bytes> {
    if |b| < 2 || |b| < 2 + U16(b) then None else Some(b[2 + U16(b)..])
  }

  /** What follows the compression methods: the length and the list of the extensions. */
  function Extensions(p: Bytes): Option<Bytes> {
    if |p| < 5 || p[0] != HANDSHAKE then None
    else if |p| < 9 || p[5] != CLIENT_HELLO || |p| < 9 + VERSION_AND_RANDOM then None
    else AfterVectors(p[9 + VERSION_AND_RANDOM..])
  }

  /** What follows session id, cipher suites and compression methods. */
  function AfterVectors(b: Bytes): Option<Bytes> {
    match After8(b)
    case None => None
    case Some(c) => match After16(c) case None => None case Some(d) => After8(d)
  }

  /** A list with a two-byte length, as much of it as is there. */
  function Body(b: Bytes): Option<Bytes> {
    if |b| < 2 then None
    else Some(if |b| - 2 > U16(b) then b[2..2 + U16(b)] else b[2..])
  }

  /** The first host name of a server_name_list. */
  function FindName(e: Bytes): Option<Bytes> {
    if |e| < 3 then None else
    var n := U16(e[1..]);
    if |e| - 3 < n then None
    else if e[0] == 0 && n > 0 then Some(TrimDot(e[3..3 + n]))
    else FindName(e[3 + n..])
  }

  function NameIn(ext: Bytes): Option<Bytes> {
    match Body(ext) case None => None case Some(e) => FindName(e)
  }

  /** The name in the first server_name extension. */
  function FindExtension(b: Bytes): Option<Bytes> {
    if |b| < 4 then None else
    var n := U16(b[2..]);
    if |b| - 4 < n then None
    else if U16(b) != 0 then FindExtension(b[4 + n..])
    else NameIn(b[4..4 + n])
  }

  function ServerName(p: Bytes): Option<Bytes> {
    match Extensions(p)
    case None => None
    case Some(x) => match Body(x) case None => None case Some(b) => FindExtension(b)
  }

  method ReadName(ext: Bytes) returns (r: Option<Bytes>)
    ensures r == NameIn(ext)
  {
    if |ext| < 2 {
      return None;
    }
    var listLen := U16(ext);
    var e := ext[2..];
    if |e| > listLen {
      e := ext[2..2 + listLen];
    }
    while |e| >= 3
      invariant FindName(e) == NameIn(ext)
      decreases |e|
    {
      var nameType, nameLen := e[0], U16(e[1..]);
      if |e| - 3 < nameLen {
        return None;
      }
      if nameType == 0 && nameLen > 0 {
        return Some(TrimDot(e[3..3 + nameLen]));
      }
      e := e[3 + nameLen..];
    }
    return None;
  }

  /** tlsClientHelloSNI: total on every input, never out of bounds. */
  method ClientHelloSNI(p: Bytes) returns (r: Option<Bytes>)
    ensures r == ServerName(p)
  {
    hide FindExtension, AfterVectors;
    if |p| < 5 || p[0] != HANDSHAKE {
      return None;
    }
    if |p| < 9 || p[5] != CLIENT_HELLO || |p| < 9 + VERSION_AND_RANDOM {
      return None;
    }
    var rest := SkipVectors(p[9 + VERSION_AND_RANDOM..]);
    if rest.None? || |rest.value| < 2 {
      return None;
    }
    var b := rest.value;
    var total := U16(b);
    r := ReadExtensions(if |b| - 2 > total then b[2..2 + total] else b[2..]);
  }

  method SkipVectors(p: Bytes) returns (r: Option<Bytes>)
    ensures r == AfterVectors(p)
  {
    var b := p;
    if |b| < 1 || |b| < 1 + b[0] as int {
      return None;
    }
    b := b[1 + b[0] as int..];
    if |b| < 2 || |b| < 2 + U16(b) {
      return None;
    }
    b := b[2 + U16(b)..];
    if |b| < 1 || |b| < 1 + b[0] as int {
      return None;
    }
    return Some(b[1 + b[0] as int..]);
  }

  method ReadExtensions(list: Bytes) returns (r: Option<Bytes>)
    ensures r == FindExtension(list)
  {
    var b := list;
    while |b| >= 4
      invariant FindExtension(b) == FindExtension(list)
      decreases |b|
    {
      var extType, extLen := U16(b), U16(b[2..]);
      if |b| - 4 < extLen {
        return None;
      }
      var ext := b[4..4 + extLen];
      b := b[4 + extLen..];
      if extType == 0 {
        r := ReadName(ext);
        return;
      }
    }
    return None;
  }

  // ---------------------------------------------------------------- printing a ClientHello

  datatype Name = Name(kind: byte, text: Bytes)
  datatype Extension = Other(code: nat, data: Bytes) | ServerNames(names: seq<Name>)

  /** `header` and `length` are fields the parser skips: record version and length, message length. */
  datatype Hello = Hello(header: Bytes, length: Bytes, fixed: Bytes, session: Bytes, suites: Bytes, compression: Bytes, extensions: seq<Extension>)

  function Put16(n: nat): (r: Bytes)
    requires n < 65536
    ensures |r| == 2 && U16(r) == n
  {
    [n / 256, n % 256]
  }

  function PrintNames(names: seq<Name>): Bytes
    requires forall i :: 0 <= i < |names| ==> |names[i].text| < 65536
  {
    if names == [] then [] else [names[0].kind] + Put16(|names[0].text|) + names[0].text + PrintNames(names[1..])
  }

  /** Everything fits its length field. */
  ghost predicate ExtensionOk(x: Extension) {
    match x
    case Other(code, data) => 0 < code < 65536 && |data| < 65536
    case ServerNames(names) => (forall i :: 0 <= i < |names| ==> |names[i].text| < 65536) && |PrintNames(names)| < 65534
  }

  ghost function PrintExtension(x: Extension): Bytes
    requires ExtensionOk(x)
  {
    match x
    case Other(code, data) => Put16(code) + Put16(|data|) + data
    case ServerNames(names) =>
      var list := PrintNames(names);
      Put16(0) + Put16(|list| + 2) + (Put16(|list|) + list)
  }

  ghost function PrintExtensions(xs: seq<Extension>): Bytes
    requires forall i :: 0 <= i < |xs| ==> ExtensionOk(xs[i])
  {
    if xs == [] then [] else PrintExtension(xs[0]) + PrintExtensions(xs[1..])
  }

  ghost predicate HelloOk(h: Hello) {
    && |h.header| == 4 && |h.length| == 3 && |h.fixed| == VERSION_AND_RANDOM
    && |h.session| < 256 && |h.suites| < 65536 && |h.compression| < 256
    && (forall i :: 0 <= i < |h.extensions| ==> ExtensionOk(h.extensions[i]))
    && |PrintExtensions(h.extensions)| < 65536
  }

  function Put8(b: Bytes): Bytes
    requires |b| < 256
  {
    [|b|] + b
  }

  ghost function Print(h: Hello): Bytes
    requires HelloOk(h)
  {
    var x := PrintExtensions(h.extensions);
    [HANDSHAKE] + h.header + [CLIENT_HELLO] + h.length + h.fixed
      + (Put8(h.session) + (Put16(|h.suites|) + h.suites + (Put8(h.compression) + (Put16(|x|) + x))))
  }

  // ---------------------------------------------------------------- what it says

  /** The first name of type host_name that is not empty, without a final dot. */
  function FirstHost(names: seq<Name>): Option<Bytes> {
    if names == [] then None
    else if names[0].kind == 0 && names[0].text != [] then Some(TrimDot(names[0].text))
    else FirstHost(names[1..])
  }

  /** The host of the first server_name extension. */
  function Host(xs: seq<Extension>): Option<Bytes> {
    if xs == [] then None
    else if xs[0].ServerNames? then FirstHost(xs[0].names)
    else Host(xs[1..])
  }

  /** How many bytes of the extensions a packet must hold for the name to be found. */
  ghost function Needed(xs: seq<Extension>): nat
    requires forall i :: 0 <= i < |xs| ==> ExtensionOk(xs[i])
  {
    if xs == [] then 0
    else if xs[0].ServerNames? then |PrintExtension(xs[0])|
    else |PrintExtension(xs[0])| + Needed(xs[1..])
  }

  // ---------------------------------------------------------------- parsing undoes printing

  lemma {:induction false} NamesParse(names: seq<Name>)
    requires forall i :: 0 <= i < |names| ==> |names[i].text| < 65536
    ensures FindName(PrintNames(names)) == FirstHost(names)
  {
    if names != [] {
      var e, n, rest := PrintNames(names), names[0], PrintNames(names[1..]);
      assert e[1..][..2] == Put16(|n.text|);
      assert U16(e[1..]) == |n.text|;
      assert e[3..3 + |n.text|] == n.text && e[3 + |n.text|..] == rest;
      NamesParse(names[1..]);
    }
  }

  lemma ListParses(names: seq<Name>)
    requires ExtensionOk(ServerNames(names))
    ensures var list := PrintNames(names); NameIn(Put16(|list|) + list) == FirstHost(names)
  {
    var list := PrintNames(names);
    var ext := Put16(|list|) + list;
    assert ext[..2] == Put16(|list|) && ext[2..] == list;
    NamesParse(names);
  }

  lemma HeaderReads(code: nat, data: Bytes, rest: Bytes)
    requires code < 65536 && |data| < 65536
    ensures var b := Put16(code) + Put16(|data|) + data + rest;
      && |b| == 4 + |data| + |rest| && U16(b) == code && U16(b[2..]) == |data|
      && b[4..4 + |data|] == data && b[4 + |data|..] == rest
  {
    var b := Put16(code) + Put16(|data|) + data + rest;
    assert b[0] == Put16(code)[0] && b[1] == Put16(code)[1];
    assert b[2..][0] == Put16(|data|)[0] && b[2..][1] == Put16(|data|)[1];
  }

  /** One extension in front of anything. */
  lemma ExtensionParses(x: Extension, rest: Bytes)
    requires ExtensionOk(x)
    ensures FindExtension(PrintExtension(x) + rest) == if x.ServerNames? then FirstHost(x.names) else FindExtension(rest)
  {
    match x
    case Other(code, data) => HeaderReads(code, data, rest);
    case ServerNames(names) =>
      var data := Put16(|PrintNames(names)|) + PrintNames(names);
      ListParses(names);
      HeaderReads(0, data, rest);
  }

  /** An extension that is not all there. */
  lemma CutExtension(x: Extension, n: nat)
    requires ExtensionOk(x) && n < |PrintExtension(x)|
    ensures FindExtension(PrintExtension(x)[..n]) == None
  {
    var data := if x.ServerNames? then Put16(|PrintNames(x.names)|) + PrintNames(x.names) else x.data;
    var b := PrintExtension(x)[..n];
    if n >= 4 {
      assert b[2..][..2] == Put16(|data|);
      assert U16(b[2..]) == |data|;
    }
  }

  /** Cut anywhere, the extensions give the name exactly when the server_name extension is whole. */
  lemma {:induction false} ExtensionsCut(xs: seq<Extension>, n: nat)
    requires (forall i :: 0 <= i < |xs| ==> ExtensionOk(xs[i])) && n <= |PrintExtensions(xs)|
    ensures FindExtension(PrintExtensions(xs)[..n]) == if n >= Needed(xs) then Host(xs) else None
  {
    if xs != [] {
      var x, rest := PrintExtension(xs[0]), PrintExtensions(xs[1..]);
      var b := PrintExtensions(xs)[..n];
      if n < |x| {
        assert b == x[..n];
        CutExtension(xs[0], n);
      } else {
        assert b == x + rest[..n - |x|];
        ExtensionParses(xs[0], rest[..n - |x|]);
        ExtensionsCut(xs[1..], n - |x|);
      }
    }
  }

  lemma Skip8(v: Bytes, rest: Bytes, n: nat)
    requires |v| < 256 && n <= 1 + |v| + |rest|
    ensures After8((Put8(v) + rest)[..n]) == if n >= 1 + |v| then Some(rest[..n - 1 - |v|]) else None
  {
    var b := (Put8(v) + rest)[..n];
    if n >= 1 {
      assert b[0] == |v|;
      if n >= 1 + |v| {
        assert b[1 + |v|..] == rest[..n - 1 - |v|];
      }
    }
  }

  lemma Skip16(v: Bytes, rest: Bytes, n: nat)
    requires |v| < 65536 && n <= 2 + |v| + |rest|
    ensures After16((Put16(|v|) + v + rest)[..n]) == if n >= 2 + |v| then Some(rest[..n - 2 - |v|]) else None
  {
    var b := (Put16(|v|) + v + rest)[..n];
    if n >= 2 {
      assert b[..2] == Put16(|v|);
      assert U16(b) == |v|;
      if n >= 2 + |v| {
        assert b[2 + |v|..] == rest[..n - 2 - |v|];
      }
    }
  }

  /** Bytes before the list of extensions. */
  ghost function Prologue(h: Hello): nat {
    9 + VERSION_AND_RANDOM + 1 + |h.session| + 2 + |h.suites| + 1 + |h.compression| + 2
  }

  /** A ClientHello, followed by anything or cut anywhere, gives its host name exactly when the packet
      reaches the end of the server_name extension. A hello that goes on in the next segment is
      therefore recognised when its server_name is in this one. */
  lemma HelloCut(h: Hello, tail: Bytes, n: nat)
    requires HelloOk(h) && n <= |Print(h)| + |tail|
    ensures ServerName((Print(h) + tail)[..n]) ==
      if n >= Prologue(h) + Needed(h.extensions) then Host(h.extensions) else None
  {
    hide *;
    HelloStart(h, tail, n);
    var k := 9 + VERSION_AND_RANDOM;
    if n >= k {
      AfterStart(h, tail, n - k);
    }
    NameAfter((Print(h) + tail)[..n]);
  }

  lemma NameAfter(p: Bytes)
    ensures ServerName(p) == match Extensions(p) case None => None case Some(x) => NameOf(x)
  {
  }

  function NameOf(x: Bytes): Option<Bytes> {
    match Body(x) case None => None case Some(b) => FindExtension(b)
  }

  /** What follows the fixed part. */
  ghost function Rest(h: Hello, tail: Bytes): Bytes
    requires HelloOk(h)
  {
    var x := PrintExtensions(h.extensions);
    Put8(h.session) + (Put16(|h.suites|) + h.suites + (Put8(h.compression) + (Put16(|x|) + x + tail)))
  }

  lemma AfterStart(h: Hello, tail: Bytes, n: nat)
    requires HelloOk(h) && n <= |Rest(h, tail)|
    ensures (match AfterVectors(Rest(h, tail)[..n]) case None => None case Some(x) => NameOf(x)) ==
      if n + 9 + VERSION_AND_RANDOM >= Prologue(h) + Needed(h.extensions) then Host(h.extensions) else None
  {
    var x := PrintExtensions(h.extensions);
    assert |x| < 65536;
    var m := 1 + |h.session| + 2 + |h.suites| + 1 + |h.compression|;
    assert |Rest(h, tail)| == m + 2 + |x| + |tail|;
    hide After8, After16, AfterVectors, Body, FindExtension, PrintExtensions, Put8, Needed, Host, NameOf;
    VectorsCut(h, Put16(|x|) + x + tail, n);
    if n >= m {
      BodyCut(h.extensions, tail, n - m);
    }
  }

  lemma VectorsCut(h: Hello, rest: Bytes, n: nat)
    requires |h.session| < 256 && |h.suites| < 65536 && |h.compression| < 256
    requires var k := 1 + |h.session| + 2 + |h.suites| + 1 + |h.compression|; n <= k + |rest|
    ensures var k := 1 + |h.session| + 2 + |h.suites| + 1 + |h.compression|;
      AfterVectors((Put8(h.session) + (Put16(|h.suites|) + h.suites + (Put8(h.compression) + rest)))[..n]) ==
        if n >= k then Some(rest[..n - k]) else None
  {
    var c := Put8(h.compression) + rest;
    var b := Put16(|h.suites|) + h.suites + c;
    assert |Put8(h.session)| == 1 + |h.session| && |Put8(h.compression)| == 1 + |h.compression|;
    hide After8, After16, Put8;
    Skip8(h.session, b, n);
    var k := 1 + |h.session|;
    if n >= k {
      Skip16(h.suites, c, n - k);
      if n - k >= 2 + |h.suites| {
        Skip8(h.compression, rest, n - k - 2 - |h.suites|);
      }
    }
  }

  lemma HelloStart(h: Hello, tail: Bytes, n: nat)
    requires HelloOk(h) && n <= |Print(h)| + |tail|
    ensures var p := (Print(h) + tail)[..n];
      && |Print(h)| + |tail| == 9 + VERSION_AND_RANDOM + |Rest(h, tail)|
      && 9 + VERSION_AND_RANDOM <= Prologue(h)
      && Extensions(p) == if n < 9 + VERSION_AND_RANDOM then None else AfterVectors(Rest(h, tail)[..n - 9 - VERSION_AND_RANDOM])
  {
    hide AfterVectors;
    var rest := Rest(h, tail);
    var front := [HANDSHAKE] + h.header + [CLIENT_HELLO] + h.length + h.fixed;
    PrintSplits(h, tail);
    hide Rest, Print, HelloOk;
    FrontReads(front, rest, n);
  }

  lemma PrintSplits(h: Hello, tail: Bytes)
    requires HelloOk(h)
    ensures var front := [HANDSHAKE] + h.header + [CLIENT_HELLO] + h.length + h.fixed;
      && Print(h) + tail == front + Rest(h, tail)
      && |front| == 9 + VERSION_AND_RANDOM && front[0] == HANDSHAKE && front[5] == CLIENT_HELLO
  {
  }

  lemma FrontReads(front: Bytes, rest: Bytes, n: nat)
    requires |front| == 9 + VERSION_AND_RANDOM && front[0] == HANDSHAKE && front[5] == CLIENT_HELLO && n <= |front| + |rest|
    ensures Extensions((front + rest)[..n]) == if n < |front| then None else AfterVectors(rest[..n - |front|])
  {
    hide AfterVectors;
    if n >= |front| {
      assert (front + rest)[..n] == front + rest[..n - |front|];
      assert (front + rest[..n - |front|])[|front|..] == rest[..n - |front|];
    }
  }

  lemma BodyCut(xs: seq<Extension>, tail: Bytes, n: nat)
    requires (forall i :: 0 <= i < |xs| ==> ExtensionOk(xs[i])) && |PrintExtensions(xs)| < 65536
    requires n <= 2 + |PrintExtensions(xs)| + |tail|
    ensures var x := PrintExtensions(xs);
      var b := (Put16(|x|) + x + tail)[..n];
      NameOf(b) == if n >= 2 + Needed(xs) then Host(xs) else None
  {
    var x := PrintExtensions(xs);
    NeededFits(xs);
    hide Body, PrintExtensions, FindExtension, Needed, Host;
    BodyOf(x, tail, n);
    if n >= 2 {
      ExtensionsCut(xs, Min(n - 2, |x|));
    }
  }

  lemma BodyOf(x: Bytes, tail: Bytes, n: nat)
    requires |x| < 65536 && n <= 2 + |x| + |tail|
    ensures Body((Put16(|x|) + x + tail)[..n]) == if n < 2 then None else Some(x[..Min(n - 2, |x|)])
  {
    var b := (Put16(|x|) + x + tail)[..n];
    if n >= 2 {
      assert b[..2] == Put16(|x|);
      assert U16(b) == |x|;
      if n - 2 > |x| {
        assert b[2..2 + |x|] == x == x[..|x|];
      } else {
        assert b[2..] == x[..n - 2];
      }
    }
  }

  lemma {:induction false} NeededFits(xs: seq<Extension>)
    requires forall i :: 0 <= i < |xs| ==> ExtensionOk(xs[i])
    ensures Needed(xs) <= |PrintExtensions(xs)|
  {
    if xs != [] {
      NeededFits(xs[1..]);
    }
  }

  /** Parsing a whole ClientHello undoes printing it. */
  lemma HelloParses(h: Hello, tail: Bytes)
    requires HelloOk(h)
    ensures ServerName(Print(h) + tail) == Host(h.extensions)
  {
    var p := Print(h) + tail;
    assert p[..|p|] == p;
    HelloCut(h, tail, |p|);
    NeededFits(h.extensions);
  }
}

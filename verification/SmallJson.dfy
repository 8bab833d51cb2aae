/** A small JSON: strings, one-digit numbers, objects and arrays, printed so that a text has one reading. It
    is what the library of Laws prints and reads. */
module SmallJson {
  import opened Basics

  const QUOTE: byte := 34
  const BACKSLASH: byte := 92
  /** The one byte that is not valid in a key, and what it is replaced by. */
  const BAD: byte := 255
  const REPLACED: byte := 254

  datatype Json = Digit(d: nat) | Text(s: Bytes) | Object(members: seq<Entry>) | List(items: seq<Json>)
  datatype Entry = Entry(key: Bytes, value: Json)

  predicate Sound(j: Json)
    decreases j
  {
    match j
    case Digit(d) => d < 10
    case Text(_) => true
    case Object(members) => forall i :: 0 <= i < |members| ==> Sound(members[i].value)
    case List(items) => forall i :: 0 <= i < |items| ==> Sound(items[i])
  }

  // ---------------------------------------------------------------- strings

  function EscapeByte(b: byte): Bytes {
    if b == QUOTE then [BACKSLASH, 97] else if b == BACKSLASH then [BACKSLASH, 98]
    else if b == BAD then [BACKSLASH, 99] else [b]
  }

  function Escape(s: Bytes): Bytes {
    if s == [] then [] else EscapeByte(s[0]) + Escape(s[1..])
  }

  function Quoted(s: Bytes): Bytes {
    [QUOTE] + Escape(s) + [QUOTE]
  }

  function Sanitized(s: Bytes): (r: Bytes)
    ensures |r| == |s| && BAD !in r && (BAD !in s ==> r == s)
  {
    seq(|s|, i requires 0 <= i < |s| => if s[i] == BAD then REPLACED else s[i])
  }

  lemma {:induction false} EscapeGrows(s: Bytes)
    ensures |Escape(Sanitized(s))| <= |Escape(s)| && (BAD in s ==> |Escape(Sanitized(s))| < |Escape(s)|)
  {
    if s != [] {
      EscapeGrows(s[1..]);
      assert Sanitized(s)[1..] == Sanitized(s[1..]);
      assert s == [s[0]] + s[1..];
    }
  }

  lemma Cancel(p: Bytes, q: Bytes, x: Bytes, y: Bytes)
    requires p + x == q + y && |p| == |q|
    ensures p == q && x == y
  {
    assert p == (p + x)[..|p|] && q == (q + y)[..|q|];
    assert x == (p + x)[|p|..] && y == (q + y)[|q|..];
  }

  /** A string and its end, in front of something. */
  function Tail(s: Bytes, x: Bytes): Bytes {
    Escape(s) + ([QUOTE] + x)
  }

  lemma TailStep(s: Bytes, x: Bytes)
    requires s != []
    ensures Tail(s, x) == EscapeByte(s[0]) + Tail(s[1..], x)
  {
  }

  lemma ByteUnique(x: byte, y: byte, a: Bytes, b: Bytes)
    requires EscapeByte(x) + a == EscapeByte(y) + b
    ensures x == y && a == b
  {
    var s, t := EscapeByte(x) + a, EscapeByte(y) + b;
    assert s[0] == EscapeByte(x)[0] && t[0] == EscapeByte(y)[0];
    if s[0] == BACKSLASH {
      assert s[1] == EscapeByte(x)[1] && t[1] == EscapeByte(y)[1];
    }
    assert x == y;
    Cancel(EscapeByte(x), EscapeByte(y), a, b);
  }

  lemma TailFirst(s: Bytes, x: Bytes)
    ensures |Tail(s, x)| > 0 && (Tail(s, x)[0] == QUOTE <==> s == [])
  {
    if s != [] {
      TailStep(s, x);
      assert Tail(s, x)[0] == EscapeByte(s[0])[0];
    }
  }

  /** A string ends at its first quotation mark, so two strings in front of something are told apart. */
  lemma {:induction false} EscapeUnique(s: Bytes, t: Bytes, x: Bytes, y: Bytes)
    requires Tail(s, x) == Tail(t, y)
    ensures s == t && x == y
    decreases |s|
  {
    TailFirst(s, x);
    TailFirst(t, y);
    if s == [] {
      assert Tail(s, x) == [QUOTE] + x && Tail(t, y) == [QUOTE] + y;
      Cancel([QUOTE], [QUOTE], x, y);
    } else {
      TailStep(s, x);
      TailStep(t, y);
      hide Tail, EscapeByte;
      ByteUnique(s[0], t[0], Tail(s[1..], x), Tail(t[1..], y));
      EscapeUnique(s[1..], t[1..], x, y);
      assert s == [s[0]] + s[1..] && t == [t[0]] + t[1..];
    }
  }

  lemma QuotedUnique(s: Bytes, t: Bytes, x: Bytes, y: Bytes)
    requires Quoted(s) + x == Quoted(t) + y
    ensures s == t && x == y
  {
    assert Quoted(s) + x == [QUOTE] + Tail(s, x) && Quoted(t) + y == [QUOTE] + Tail(t, y);
    Cancel([QUOTE], [QUOTE], Tail(s, x), Tail(t, y));
    EscapeUnique(s, t, x, y);
  }

  // ---------------------------------------------------------------- texts

  function Separator(more: bool): Bytes {
    if more then [44] else []
  }

  function Print(j: Json): Bytes
    decreases j, 1
  {
    match j
    case Digit(d) => [48 + d % 10]
    case Text(s) => Quoted(s)
    case Object(members) => [123] + PrintMembers(members) + [125]
    case List(items) => [91] + PrintItems(items) + [93]
  }

  function PrintMembers(members: seq<Entry>): Bytes
    decreases members, 0
  {
    if members == [] then [] else
    Quoted(members[0].key) + [58] + Print(members[0].value) + Separator(|members| > 1) + PrintMembers(members[1..])
  }

  function PrintItems(items: seq<Json>): Bytes
    decreases items, 0
  {
    if items == [] then [] else Print(items[0]) + Separator(|items| > 1) + PrintItems(items[1..])
  }

  lemma PrintStarts(j: Json)
    requires Sound(j)
    ensures |Print(j)| > 0
    ensures j.Digit? ==> 48 <= Print(j)[0] < 58
    ensures j.Text? ==> Print(j)[0] == QUOTE
    ensures j.Object? ==> Print(j)[0] == 123
    ensures j.List? ==> Print(j)[0] == 91
  {
  }

  /** A text in front of something has one reading. */
  lemma {:induction false} PrintUnique(j: Json, k: Json, x: Bytes, y: Bytes)
    requires Sound(j) && Sound(k) && Print(j) + x == Print(k) + y
    ensures j == k && x == y
    decreases j, 1
  {
    SameStart(j, k, x, y);
    match j
    case Digit(d) => Cancel(Print(j), Print(k), x, y);
    case Text(s) => QuotedUnique(s, k.s, x, y);
    case Object(members) =>
      Opened(123, PrintMembers(members), PrintMembers(k.members), 125, x, y);
      MembersUnique(members, k.members, x, y);
    case List(items) =>
      Opened(91, PrintItems(items), PrintItems(k.items), 93, x, y);
      ItemsUnique(items, k.items, x, y);
  }

  lemma SameStart(j: Json, k: Json, x: Bytes, y: Bytes)
    requires Sound(j) && Sound(k) && Print(j) + x == Print(k) + y
    ensures (j.Digit? <==> k.Digit?) && (j.Text? <==> k.Text?) && (j.Object? <==> k.Object?) && (j.List? <==> k.List?)
  {
    PrintStarts(j);
    PrintStarts(k);
    hide Print;
    assert Print(j)[0] == (Print(j) + x)[0] && Print(k)[0] == (Print(k) + y)[0];
  }

  lemma Opened(open: byte, s: Bytes, t: Bytes, close: byte, x: Bytes, y: Bytes)
    requires [open] + s + [close] + x == [open] + t + [close] + y
    ensures s + ([close] + x) == t + ([close] + y)
  {
    assert [open] + s + [close] + x == [open] + (s + ([close] + x)) && [open] + t + [close] + y == [open] + (t + ([close] + y));
    Cancel([open], [open], s + ([close] + x), t + ([close] + y));
  }

  /** What follows one element of a list: the closing mark, or a comma and the others. */
  function Rest(more: bool, others: Bytes, close: byte, x: Bytes): Bytes {
    if more then [44] + (others + ([close] + x)) else [close] + x
  }

  lemma RestUnique(m: bool, n: bool, s: Bytes, t: Bytes, close: byte, x: Bytes, y: Bytes)
    requires Rest(m, s, close, x) == Rest(n, t, close, y) && close != 44
    ensures m == n && (m ==> s + ([close] + x) == t + ([close] + y)) && (!m ==> x == y)
  {
    assert Rest(m, s, close, x)[0] == (if m then 44 else close) && Rest(n, t, close, y)[0] == (if n then 44 else close);
    if m {
      Cancel([44], [44], s + ([close] + x), t + ([close] + y));
    } else {
      Cancel([close], [close], x, y);
    }
  }

  lemma MembersStep(a: seq<Entry>, x: Bytes)
    requires a != []
    ensures PrintMembers(a) + ([125] + x) ==
      Quoted(a[0].key) + ([58] + (Print(a[0].value) + Rest(|a| > 1, PrintMembers(a[1..]), 125, x)))
  {
    var k, v, r := Quoted(a[0].key), Print(a[0].value), PrintMembers(a[1..]);
    var c := Separator(|a| > 1);
    assert PrintMembers(a) == k + [58] + v + c + r;
    assert |a| == 1 ==> r == [];
    hide Quoted, Print, PrintMembers;
    RestIs(|a| > 1, r, 125, x);
    Regroup(k + [58] + v, c, r, [125] + x);
    Regroup(k, [58], v, c + (r + ([125] + x)));
  }

  lemma Regroup(a: Bytes, b: Bytes, c: Bytes, z: Bytes)
    ensures a + b + c + z == a + (b + (c + z))
  {
  }

  lemma RestIs(more: bool, others: Bytes, close: byte, x: Bytes)
    requires !more ==> others == []
    ensures Rest(more, others, close, x) == Separator(more) + (others + ([close] + x))
  {
  }

  lemma MembersFirst(a: seq<Entry>, x: Bytes)
    ensures (PrintMembers(a) + ([125] + x))[0] == (if a == [] then 125 else QUOTE)
  {
    if a != [] { MembersStep(a, x); }
  }

  lemma {:induction false} MembersUnique(a: seq<Entry>, b: seq<Entry>, x: Bytes, y: Bytes)
    requires forall i :: 0 <= i < |a| ==> Sound(a[i].value)
    requires forall i :: 0 <= i < |b| ==> Sound(b[i].value)
    requires PrintMembers(a) + ([125] + x) == PrintMembers(b) + ([125] + y)
    ensures a == b && x == y
    decreases a, 0
  {
    MembersFirst(a, x);
    MembersFirst(b, y);
    if a == [] {
      assert PrintMembers(a) + ([125] + x) == [125] + x && PrintMembers(b) + ([125] + y) == [125] + y;
      Cancel([125], [125], x, y);
    } else {
      MembersStep(a, x);
      MembersStep(b, y);
      hide Quoted, Print, PrintMembers, Rest, Sound;
      var p, q := Rest(|a| > 1, PrintMembers(a[1..]), 125, x), Rest(|b| > 1, PrintMembers(b[1..]), 125, y);
      QuotedUnique(a[0].key, b[0].key, [58] + (Print(a[0].value) + p), [58] + (Print(b[0].value) + q));
      Cancel([58], [58], Print(a[0].value) + p, Print(b[0].value) + q);
      PrintUnique(a[0].value, b[0].value, p, q);
      RestUnique(|a| > 1, |b| > 1, PrintMembers(a[1..]), PrintMembers(b[1..]), 125, x, y);
      if |a| > 1 {
        MembersUnique(a[1..], b[1..], x, y);
      }
      assert a == [a[0]] + a[1..] && b == [b[0]] + b[1..];
    }
  }

  lemma ItemsStep(a: seq<Json>, x: Bytes)
    requires a != []
    ensures PrintItems(a) + ([93] + x) == Print(a[0]) + Rest(|a| > 1, PrintItems(a[1..]), 93, x)
  {
    var v, r := Print(a[0]), PrintItems(a[1..]);
    var c := Separator(|a| > 1);
    assert PrintItems(a) == v + c + r;
    assert |a| == 1 ==> r == [];
    hide Print, PrintItems;
    RestIs(|a| > 1, r, 93, x);
    Regroup(v, c, r, [93] + x);
  }

  lemma ItemsFirst(a: seq<Json>, x: Bytes)
    requires forall i :: 0 <= i < |a| ==> Sound(a[i])
    ensures (PrintItems(a) + ([93] + x))[0] == 93 <==> a == []
  {
    if a != [] {
      PrintStarts(a[0]);
      ItemsStep(a, x);
    }
  }

  lemma {:induction false} ItemsUnique(a: seq<Json>, b: seq<Json>, x: Bytes, y: Bytes)
    requires forall i :: 0 <= i < |a| ==> Sound(a[i])
    requires forall i :: 0 <= i < |b| ==> Sound(b[i])
    requires PrintItems(a) + ([93] + x) == PrintItems(b) + ([93] + y)
    ensures a == b && x == y
    decreases a, 0
  {
    ItemsFirst(a, x);
    ItemsFirst(b, y);
    if a == [] {
      assert PrintItems(a) + ([93] + x) == [93] + x && PrintItems(b) + ([93] + y) == [93] + y;
      Cancel([93], [93], x, y);
    } else {
      ItemsStep(a, x);
      ItemsStep(b, y);
      hide Print, PrintItems, Rest, Sound;
      var p, q := Rest(|a| > 1, PrintItems(a[1..]), 93, x), Rest(|b| > 1, PrintItems(b[1..]), 93, y);
      PrintUnique(a[0], b[0], p, q);
      RestUnique(|a| > 1, |b| > 1, PrintItems(a[1..]), PrintItems(b[1..]), 93, x, y);
      if |a| > 1 {
        ItemsUnique(a[1..], b[1..], x, y);
      }
      assert a == [a[0]] + a[1..] && b == [b[0]] + b[1..];
    }
  }

  lemma ReadsOnce(j: Json, k: Json)
    requires Sound(j) && Sound(k) && Print(j) == Print(k)
    ensures j == k
  {
    assert Print(j) + [] == Print(j) && Print(k) + [] == Print(k);
    PrintUnique(j, k, [], []);
  }
}

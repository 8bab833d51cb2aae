/** The bounded TCP sequence window of internal/correlation/reassembly.go. Sequence numbers live
    modulo 2^32 (section 3.4 of RFC 9293). */
module Reassembly {
  import opened Basics

  const MODULUS := 0x1_0000_0000
  const HALF := 0x8000_0000

  type u32 = x: int | 0 <= x < MODULUS

  datatype Options = Options(maxOutOfOrder: nat, maxBytes: nat)

  datatype Packet = Packet(tcpSeq: u32, syn: bool, payload: Bytes, captured: u32, wire: u32)

  /** sideState as far as reassembly goes. `contiguous` is the length of the exposed payload, which
      is always a prefix of `data`. */
  datatype Side = Side(
    baseSeq: u32, seqSet: bool, data: Bytes, present: seq<bool>, contiguous: nat,
    expectedEnd: int, limited: bool, truncated: bool, incomplete: bool)

  const FRESH := Side(0, false, [], [], 0, 0, false, false, false)

  /** The sequence number of the first payload byte: SYN takes one. */
  function StartSeq(p: Packet): u32 {
    if p.syn then (p.tcpSeq + 1) % MODULUS else p.tcpSeq
  }

  /** int32(a - b). */
  function Delta(a: u32, b: u32): int {
    var d := (a - b) % MODULUS;
    if d < HALF then d else d - MODULUS
  }

  function Payload(s: Side): Bytes
    requires s.contiguous <= |s.data|
  {
    s.data[..s.contiguous]
  }

  function Refused(s: Side): Side {
    s.(limited := true, truncated := true, incomplete := true)
  }

  function Based(s: Side, p: Packet): Side {
    if s.seqSet then s else s.(baseSeq := StartSeq(p), seqSet := true)
  }

  /** Makes room for bytes in front of the window. */
  function Prefixed(s: Side, room: nat, baseSeq: u32): Side {
    s.(data := Zeros(room) + s.data, present := Holes(room) + s.present,
       expectedEnd := s.expectedEnd + room, baseSeq := baseSeq, contiguous := 0)
  }

  function Zeros(n: nat): Bytes {
    seq(n, i => 0)
  }

  function Holes(n: nat): seq<bool> {
    seq(n, i => false)
  }

  function Reassemble(o: Options, side: Side, p: Packet): (Side, bool) {
    var s := Based(side, p);
    var offset := Delta(StartSeq(p), s.baseSeq);
    if offset < 0 then
      if -offset > o.maxOutOfOrder || -offset + |s.data| > o.maxBytes then (Refused(s), false)
      else Place(o, Prefixed(s, -offset, StartSeq(p)), 0, p)
    else if offset > s.contiguous && offset - s.contiguous > o.maxOutOfOrder then (Refused(s), false)
    else Place(o, s, offset, p)
  }

  function Uncaptured(p: Packet): nat {
    if p.captured > 0 && p.wire > p.captured then p.wire - p.captured else 0
  }

  /** Writes the packet at a nonnegative offset. */
  function Place(o: Options, s: Side, offset: nat, p: Packet): (Side, bool) {
    var end := Min(offset + |p.payload|, o.maxBytes);
    var cut := offset + |p.payload| > o.maxBytes;
    var expectedEnd := Max(s.expectedEnd, offset + |p.payload| + Uncaptured(p));
    var len := Max(|s.data|, end);
    var data := s.data + Zeros(len - |s.data|);
    var present := s.present + Holes(Max(0, len - |s.present|));
    var limited := s.limited || cut || Conflict(data, present, offset, end, p);
    var present' := MergePresent(present, offset, end);
    var n := FirstHole(present', s.contiguous);
    (Side(s.baseSeq, s.seqSet, MergeData(data, present, offset, end, p), present', n,
          expectedEnd, limited, s.truncated || cut, limited || n < expectedEnd),
     !Adds(present, offset, end) && offset < end)
  }

  predicate In(i: int, offset: int, end: int) {
    offset <= i < end
  }

  /** A byte that is already present keeps its value. */
  function MergeData(data: Bytes, present: seq<bool>, offset: nat, end: int, p: Packet): (r: Bytes)
    requires end <= offset + |p.payload|
    ensures |r| == |data|
    ensures forall i :: 0 <= i < |r| ==>
      r[i] == if In(i, offset, end) && !(i < |present| && present[i]) then p.payload[i - offset] else data[i]
  {
    seq(|data|, i requires 0 <= i < |data| =>
      if In(i, offset, end) && !(i < |present| && present[i]) then p.payload[i - offset] else data[i])
  }

  function MergePresent(present: seq<bool>, offset: nat, end: int): (r: seq<bool>)
    ensures |r| == |present|
    ensures forall i :: 0 <= i < |r| ==> r[i] == (present[i] || In(i, offset, end))
  {
    seq(|present|, i requires 0 <= i < |present| => present[i] || In(i, offset, end))
  }

  predicate Conflict(data: Bytes, present: seq<bool>, offset: nat, end: int, p: Packet)
    requires end <= offset + |p.payload|
  {
    exists i :: 0 <= i < |data| && i < |present| && In(i, offset, end) && present[i] && data[i] != p.payload[i - offset]
  }

  predicate Adds(present: seq<bool>, offset: nat, end: int) {
    exists i :: 0 <= i < |present| && In(i, offset, end) && !present[i]
  }

  function FirstHole(present: seq<bool>, from: nat): (n: nat)
    ensures from <= n
    ensures forall i :: from <= i < n ==> i < |present| && present[i]
    ensures n >= |present| || !present[n]
    ensures from <= |present| ==> n <= |present|
    decreases |present| - from
  {
    if from < |present| && present[from] then FirstHole(present, from + 1) else from
  }

  /** All packets fed to one side, in arrival order. */
  function Run(o: Options, packets: seq<Packet>): Side {
    if packets == [] then FRESH
    else Reassemble(o, Run(o, packets[..|packets| - 1]), packets[|packets| - 1]).0
  }

  // ---------------------------------------------------------------- what every step keeps

  /** The window with its old bytes and holes up to `len`. */
  lemma Widened(s: Side, len: nat)
    requires |s.present| == |s.data| <= len
    ensures var data := s.data + Zeros(len - |s.data|); var present := s.present + Holes(len - |s.present|);
      && |data| == |present| == len
      && (forall i :: 0 <= i < len ==> present[i] == (i < |s.data| && s.present[i]))
      && (forall i :: 0 <= i < |s.data| ==> data[i] == s.data[i])
  {
  }

  /** Some byte already present differs from the packet's. */
  ghost predicate Clashes(s: Side, offset: nat, end: int, p: Packet)
    requires |s.present| == |s.data| && end <= offset + |p.payload|
  {
    exists i :: 0 <= i < |s.data| && In(i, offset, end) && s.present[i] && s.data[i] != p.payload[i - offset]
  }

  lemma PlaceLimited(o: Options, s: Side, offset: nat, p: Packet)
    requires |s.present| == |s.data| <= o.maxBytes
    ensures var end := Min(offset + |p.payload|, o.maxBytes);
      Place(o, s, offset, p).0.limited <==>
        s.limited || offset + |p.payload| > o.maxBytes || Clashes(s, offset, end, p)
  {
    hide MergeData, MergePresent, FirstHole, Zeros, Holes, Conflict, Clashes;
    var end := Min(offset + |p.payload|, o.maxBytes);
    WidenedClashes(s, offset, end, p);
  }

  /** Holes added behind the window clash with nothing. */
  lemma WidenedClashes(s: Side, offset: nat, end: int, p: Packet)
    requires |s.present| == |s.data| && end <= offset + |p.payload|
    ensures var len := Max(|s.data|, end);
      Conflict(s.data + Zeros(len - |s.data|), s.present + Holes(len - |s.present|), offset, end, p) <==> Clashes(s, offset, end, p)
  {
    hide Zeros, Holes;
    var len := Max(|s.data|, end);
    Widened(s, len);
    var data := s.data + Zeros(len - |s.data|);
    var present := s.present + Holes(len - |s.present|);
    if Conflict(data, present, offset, end, p) {
      var i :| 0 <= i < |data| && i < |present| && In(i, offset, end) && present[i] && data[i] != p.payload[i - offset];
      assert Clashes(s, offset, end, p);
    }
    if Clashes(s, offset, end, p) {
      var i :| 0 <= i < |s.data| && In(i, offset, end) && s.present[i] && s.data[i] != p.payload[i - offset];
      assert present[i];
    }
  }

  /** What Place does, byte by byte. */
  lemma PlaceBytes(o: Options, s: Side, offset: nat, p: Packet)
    requires |s.present| == |s.data| <= o.maxBytes
    ensures var t := Place(o, s, offset, p).0; var end := Min(offset + |p.payload|, o.maxBytes);
      && |t.data| == |t.present| == Max(|s.data|, end)
      && t.baseSeq == s.baseSeq && t.seqSet == s.seqSet && (s.limited ==> t.limited)
      && (forall i :: 0 <= i < |t.present| ==> t.present[i] == ((i < |s.data| && s.present[i]) || In(i, offset, end)))
      && (forall i :: 0 <= i < |s.data| && s.present[i] ==> t.data[i] == s.data[i])
      && (forall i :: 0 <= i < |t.data| && In(i, offset, end) && !(i < |s.data| && s.present[i]) ==>
            t.data[i] == p.payload[i - offset])
  {
    hide Conflict, Zeros, Holes;
    Widened(s, Max(|s.data|, Min(offset + |p.payload|, o.maxBytes)));
  }

  /** The exposed payload is the longest run of present bytes from the base; the window respects
      the byte cap and never passes what the packets announced. */
  ghost predicate Shaped(o: Options, s: Side) {
    && |s.present| == |s.data| && s.contiguous <= |s.data|
    && (forall i :: 0 <= i < s.contiguous ==> s.present[i])
    && (s.contiguous < |s.data| ==> !s.present[s.contiguous])
    && |s.data| <= o.maxBytes && |s.data| <= s.expectedEnd
    && s.incomplete == (s.limited || s.contiguous < s.expectedEnd)
    && (!s.seqSet ==> s == FRESH.(truncated := s.truncated))
  }

  lemma PlaceShaped(o: Options, s: Side, offset: nat, p: Packet)
    requires |s.present| == |s.data| <= o.maxBytes && s.contiguous <= |s.data| <= s.expectedEnd && s.seqSet
    requires forall i :: 0 <= i < s.contiguous ==> s.present[i]
    ensures Shaped(o, Place(o, s, offset, p).0)
  {
    PlaceBytes(o, s, offset, p);
  }

  lemma ReassembleShaped(o: Options, s: Side, p: Packet)
    requires Shaped(o, s)
    ensures Shaped(o, Reassemble(o, s, p).0)
  {
    hide Place;
    var b := Based(s, p);
    var offset := Delta(StartSeq(p), b.baseSeq);
    if offset < 0 {
      if !(-offset > o.maxOutOfOrder || -offset + |b.data| > o.maxBytes) {
        PlaceShaped(o, Prefixed(b, -offset, StartSeq(p)), 0, p);
      }
    } else {
      PlaceShaped(o, b, offset, p);
    }
  }

  /** Window position `i` has sequence number `q`. */
  predicate Sits(s: Side, i: int, q: u32) {
    (s.baseSeq + i) % MODULUS == q
  }

  /** A present byte keeps its sequence number and its value; the limited flag never clears. */
  ghost predicate Grows(s: Side, t: Side, shift: nat) {
    && (s.limited ==> t.limited)
    && (s.seqSet ==> t.seqSet && Sits(t, shift, s.baseSeq))
    && |s.data| + shift <= |t.data| && |s.present| == |s.data| && |t.present| == |t.data|
    && forall i :: 0 <= i < |s.data| && s.present[i] ==> t.present[i + shift] && t.data[i + shift] == s.data[i]
  }

  /** How far the step moves the base back. */
  function Shift(o: Options, s: Side, p: Packet): nat {
    var offset := Delta(StartSeq(p), Based(s, p).baseSeq);
    if offset < 0 && !(-offset > o.maxOutOfOrder || -offset + |s.data| > o.maxBytes) then -offset else 0
  }

  /** The window just before the packet is written, and whether it is written at all. */
  function Ready(o: Options, s: Side, p: Packet): Side {
    var b := Based(s, p);
    if Shift(o, s, p) > 0 then Prefixed(b, Shift(o, s, p), StartSeq(p)) else b
  }

  /** Where the step writes the packet. */
  function Offset(s: Side, p: Packet): nat {
    Max(0, Delta(StartSeq(p), Based(s, p).baseSeq))
  }

  lemma DeltaSits(a: u32, b: u32)
    ensures (b + Delta(a, b)) % MODULUS == a && -HALF <= Delta(a, b) < HALF
    ensures (a - Delta(a, b)) % MODULUS == b
    ensures Delta(a, a) == 0
  {
  }

  lemma ReassembleIsPlace(o: Options, s: Side, p: Packet)
    requires Shaped(o, s)
    ensures var t := Reassemble(o, s, p).0; var r := Ready(o, s, p);
      && (t == Refused(r) || t == Place(o, r, Offset(s, p), p).0)
      && (t != Refused(r) ==> Sits(r, Offset(s, p), StartSeq(p)))
    ensures var r := Ready(o, s, p);
      && |r.present| == |r.data| <= o.maxBytes && r.limited == s.limited && r.seqSet
      && Grows(s, r, Shift(o, s, p))
      && |r.data| == |s.data| + Shift(o, s, p)
      && (forall i :: 0 <= i < |r.data| && r.present[i] ==> i >= Shift(o, s, p) && s.present[i - Shift(o, s, p)])
  {
    hide Place, Delta, StartSeq;
    DeltaSits(StartSeq(p), Based(s, p).baseSeq);
    ReadyGrows(o, s, p);
  }

  lemma ReadyGrows(o: Options, s: Side, p: Packet)
    requires Shaped(o, s)
    ensures var r := Ready(o, s, p);
      && |r.present| == |r.data| <= o.maxBytes && r.limited == s.limited && r.seqSet
      && Grows(s, r, Shift(o, s, p))
      && |r.data| == |s.data| + Shift(o, s, p)
      && (forall i :: 0 <= i < |r.data| && r.present[i] ==> i >= Shift(o, s, p) && s.present[i - Shift(o, s, p)])
  {
    hide Delta, StartSeq, Prefixed;
    var b := Based(s, p);
    DeltaSits(StartSeq(p), b.baseSeq);
    if Shift(o, s, p) > 0 {
      PrefixedBytes(b, Shift(o, s, p), StartSeq(p));
    }
  }

  lemma PrefixedBytes(s: Side, room: nat, baseSeq: u32)
    requires |s.present| == |s.data|
    ensures var r := Prefixed(s, room, baseSeq);
      && |r.present| == |r.data| == |s.data| + room
      && r.baseSeq == baseSeq && r.seqSet == s.seqSet && r.limited == s.limited
      && (forall i :: 0 <= i < room ==> !r.present[i])
      && (forall i :: room <= i < |r.data| ==> r.present[i] == s.present[i - room] && r.data[i] == s.data[i - room])
      && (forall i :: 0 <= i < |s.data| ==> r.present[i + room] == s.present[i] && r.data[i + room] == s.data[i])
  {
  }

  lemma ReassembleGrows(o: Options, s: Side, p: Packet)
    requires Shaped(o, s)
    ensures Grows(s, Reassemble(o, s, p).0, Shift(o, s, p))
  {
    hide Place, Reassemble, Shaped, Ready, Shift, Offset;
    ReassembleIsPlace(o, s, p);
    PlaceBytes(o, Ready(o, s, p), Offset(s, p), p);
  }

  /** The packet's bytes stand in the window where its sequence number puts them. */
  ghost predicate Verbatim(s: Side, p: Packet, offset: nat) {
    && Sits(s, offset, StartSeq(p))
    && offset + |p.payload| <= |s.data| && |s.present| == |s.data|
    && forall i :: offset <= i < offset + |p.payload| ==> s.present[i] && s.data[i] == p.payload[i - offset]
  }

  /** Unless the window was limited, the new packet stands in it verbatim. */
  lemma ReassembleVerbatim(o: Options, s: Side, p: Packet)
    requires Shaped(o, s)
    ensures var t := Reassemble(o, s, p).0; !t.limited ==> Verbatim(t, p, Offset(s, p))
  {
    hide Place, Reassemble, Shaped, Ready, Shift, Offset;
    ReassembleIsPlace(o, s, p);
    PlaceBytes(o, Ready(o, s, p), Offset(s, p), p);
    PlaceLimited(o, Ready(o, s, p), Offset(s, p), p);
  }

  /** The sequence number at a position does not depend on which window it is counted in. */
  lemma SitsKept(s: Side, t: Side, shift: nat, i: int, q: u32)
    requires Sits(t, shift, s.baseSeq) && Sits(s, i, q)
    ensures Sits(t, i + shift, q)
  {
    var m := (t.baseSeq + shift) / MODULUS;
    assert t.baseSeq + shift == s.baseSeq + m * MODULUS;
    AddMultiple(s.baseSeq + i, m);
  }

  lemma VerbatimKept(s: Side, t: Side, shift: nat, p: Packet, offset: nat)
    requires Verbatim(s, p, offset) && Grows(s, t, shift) && s.seqSet
    ensures Verbatim(t, p, offset + shift)
  {
    hide Sits;
    SitsKept(s, t, shift, offset, StartSeq(p));
    forall i | offset + shift <= i < offset + shift + |p.payload|
      ensures t.present[i] && t.data[i] == p.payload[i - offset - shift]
    {
      assert s.present[i - shift];
      assert i - shift + shift == i;
    }
  }

  /** Byte `j` of the packet is the byte at window position `i`. */
  ghost predicate Carries(s: Side, i: nat, p: Packet, j: nat) {
    i < |s.data| && j < |p.payload| && p.payload[j] == s.data[i] && Sits(s, i, (StartSeq(p) + j) % MODULUS)
  }

  /** Every byte a step adds comes from the packet. */
  lemma ReassembleOrigin(o: Options, s: Side, p: Packet, i: nat)
    requires Shaped(o, s)
    requires var t := Reassemble(o, s, p).0; i < |t.data| && i < |t.present| && t.present[i]
    ensures var t := Reassemble(o, s, p).0; var shift := Shift(o, s, p);
      || (shift <= i < |s.data| + shift && s.present[i - shift] && t.data[i] == s.data[i - shift])
      || (Offset(s, p) <= i && Carries(t, i, p, i - Offset(s, p)))
  {
    hide Place, Reassemble, Shaped, Ready, Shift, Offset;
    ReassembleIsPlace(o, s, p);
    PlaceBytes(o, Ready(o, s, p), Offset(s, p), p);
    var shift := Shift(o, s, p);
    if shift <= i < |s.data| + shift && s.present[i - shift] {
      assert i - shift + shift == i;
    }
  }

  lemma CarriesKept(s: Side, t: Side, shift: nat, i: nat, p: Packet, j: nat)
    requires Carries(s, i, p, j) && Grows(s, t, shift) && s.seqSet && s.present[i]
    ensures Carries(t, i + shift, p, j)
  {
    hide Sits;
    SitsKept(s, t, shift, i, (StartSeq(p) + j) % MODULUS);
  }

  // ---------------------------------------------------------------- every packet sequence

  /** What holds of the window after any sequence of packets. */
  ghost predicate Sound(o: Options, packets: seq<Packet>, s: Side) {
    && Shaped(o, s)
    && (s.seqSet <==> packets != [])
    && (forall i :: 0 <= i < |s.data| && s.present[i] ==> HasOrigin(packets, s, i))
    && (packets != [] && !s.limited ==> exists k :: 0 <= k < |packets| && StartSeq(packets[k]) == s.baseSeq)
    && (!s.limited ==> forall k :: 0 <= k < |packets| ==> Appears(s, packets[k]))
  }

  /** Some packet carried the byte at that sequence number. */
  ghost predicate HasOrigin(packets: seq<Packet>, s: Side, i: nat) {
    exists k, j :: 0 <= k < |packets| && Carries(s, i, packets[k], j)
  }

  ghost predicate Appears(s: Side, p: Packet) {
    exists offset :: Verbatim(s, p, offset)
  }

  lemma {:induction false} RunSound(o: Options, packets: seq<Packet>)
    ensures Sound(o, packets, Run(o, packets))
    decreases |packets|
  {
    if packets != [] {
      var before := packets[..|packets| - 1];
      RunSound(o, before);
      StepSound(o, before, Run(o, before), packets[|packets| - 1]);
      assert before + [packets[|packets| - 1]] == packets;
    }
  }

  /** However many packets follow, the limited flag stays set and every present byte keeps its value and its
      sequence number. */
  lemma {:induction false} RunGrows(o: Options, packets: seq<Packet>, more: seq<Packet>) returns (shift: nat)
    ensures Grows(Run(o, packets), Run(o, packets + more), shift)
    decreases |more|
  {
    hide Sits, Shift, Reassemble;
    var s := Run(o, packets);
    if more == [] {
      shift := 0;
      assert packets + more == packets;
      RunSound(o, packets);
      assert Sits(s, 0, s.baseSeq) by { BaseSits(s); }
    } else {
      var before, p := more[..|more| - 1], more[|more| - 1];
      var r := RunGrows(o, packets, before);
      var all := packets + more;
      assert all[..|all| - 1] == packets + before && all[|all| - 1] == p;
      var t := Run(o, packets + before);
      RunSound(o, packets + before);
      ReassembleGrows(o, t, p);
      shift := r + Shift(o, t, p);
      if s.seqSet {
        SitsKept(t, Run(o, all), Shift(o, t, p), r, s.baseSeq);
      }
    }
  }

  lemma BaseSits(s: Side)
    ensures Sits(s, 0, s.baseSeq)
  {
  }

  lemma StepSound(o: Options, packets: seq<Packet>, s: Side, p: Packet)
    requires Sound(o, packets, s)
    ensures Sound(o, packets + [p], Reassemble(o, s, p).0)
  {
    hide Reassemble, Shift, Offset, Carries, Verbatim, Sits;
    var t := Reassemble(o, s, p).0;
    var shift := Shift(o, s, p);
    ReassembleShaped(o, s, p);
    ReassembleGrows(o, s, p);
    StepOrigins(o, packets, s, p);
    StepBase(o, packets, s, p);
    if !t.limited {
      StepAppears(o, packets, s, p);
    }
  }

  lemma StepOrigins(o: Options, packets: seq<Packet>, s: Side, p: Packet)
    requires Sound(o, packets, s)
    ensures var t := Reassemble(o, s, p).0;
      |t.present| == |t.data| && forall i :: 0 <= i < |t.data| && t.present[i] ==> HasOrigin(packets + [p], t, i)
  {
    hide Reassemble, Shift, Offset, Carries, Sits, Verbatim;
    var t := Reassemble(o, s, p).0;
    var shift := Shift(o, s, p);
    ReassembleGrows(o, s, p);
    forall i | 0 <= i < |t.data| && t.present[i] ensures HasOrigin(packets + [p], t, i) {
      ReassembleOrigin(o, s, p, i);
      if shift <= i < |s.data| + shift && s.present[i - shift] {
        assert HasOrigin(packets, s, i - shift);
        var k, j :| 0 <= k < |packets| && Carries(s, i - shift, packets[k], j);
        CarriesKept(s, t, shift, i - shift, packets[k], j);
        assert (packets + [p])[k] == packets[k];
      } else {
        assert (packets + [p])[|packets|] == p;
      }
    }
  }

  lemma StepBase(o: Options, packets: seq<Packet>, s: Side, p: Packet)
    requires Sound(o, packets, s)
    ensures var t := Reassemble(o, s, p).0;
      && t.seqSet
      && (!t.limited ==> exists k :: 0 <= k < |packets + [p]| && StartSeq((packets + [p])[k]) == t.baseSeq)
  {
    hide Place;
    var t := Reassemble(o, s, p).0;
    ReassembleIsPlace(o, s, p);
    PlaceBytes(o, Ready(o, s, p), Offset(s, p), p);
    if !t.limited {
      if t.baseSeq == StartSeq(p) {
        assert (packets + [p])[|packets|] == p;
      } else {
        var k :| 0 <= k < |packets| && StartSeq(packets[k]) == s.baseSeq;
        assert (packets + [p])[k] == packets[k];
      }
    }
  }

  lemma StepAppears(o: Options, packets: seq<Packet>, s: Side, p: Packet)
    requires Sound(o, packets, s) && !Reassemble(o, s, p).0.limited
    ensures forall k :: 0 <= k < |packets + [p]| ==> Appears(Reassemble(o, s, p).0, (packets + [p])[k])
  {
    hide Reassemble, Shift, Offset, Carries, Sits, Verbatim;
    var t := Reassemble(o, s, p).0;
    ReassembleGrows(o, s, p);
    ReassembleVerbatim(o, s, p);
    forall k | 0 <= k < |packets + [p]| ensures Appears(t, (packets + [p])[k]) {
      if k < |packets| {
        assert Appears(s, packets[k]);
        var offset :| Verbatim(s, packets[k], offset);
        VerbatimKept(s, t, Shift(o, s, p), packets[k], offset);
      }
    }
  }

  /** When the window reports itself complete, the whole window is exposed and every packet ever
      fed stands in the exposed payload at its sequence offset. */
  lemma CompleteShowsEverything(o: Options, packets: seq<Packet>)
    requires !Run(o, packets).incomplete
    ensures var s := Run(o, packets);
      && s.contiguous <= |s.data| && Payload(s) == s.data
      && forall k :: 0 <= k < |packets| ==> Appears(s, packets[k])
  {
    RunSound(o, packets);
  }

  // ---------------------------------------------------------------- order independence

  /** Two positions less than 2^32 apart with the same sequence number are one. */
  lemma PositionUnique(base: u32, x: nat, y: nat)
    requires x < MODULUS && y < MODULUS && (base + x) % MODULUS == (base + y) % MODULUS
    ensures x == y
  {
  }

  /** A complete window shows, at each position, what the other complete window shows there. */
  lemma SameByte(o: Options, a: seq<Packet>, b: seq<Packet>, i: nat)
    requires o.maxBytes <= HALF
    requires forall p :: p in a <==> p in b
    requires !Run(o, a).incomplete && !Run(o, b).incomplete && Run(o, a).baseSeq == Run(o, b).baseSeq
    requires i < |Run(o, a).data|
    ensures i < |Run(o, b).data| && Run(o, b).data[i] == Run(o, a).data[i]
  {
    hide Reassemble, Run, Sits, StartSeq;
    RunSound(o, a);
    RunSound(o, b);
    var s, t := Run(o, a), Run(o, b);
    assert HasOrigin(a, s, i);
    var k, j :| 0 <= k < |a| && Carries(s, i, a[k], j);
    assert a[k] in b;
    var m :| 0 <= m < |b| && b[m] == a[k];
    assert Appears(t, b[m]);
    var offset :| Verbatim(t, b[m], offset);
    SamePosition(s, t, a[k], i, j, offset);
  }

  lemma AddMultiple(y: int, q: int)
    ensures (y + q * MODULUS) % MODULUS == y % MODULUS
  {
  }

  lemma SamePosition(s: Side, t: Side, p: Packet, i: nat, j: nat, offset: nat)
    requires s.baseSeq == t.baseSeq && i < MODULUS && offset + j < MODULUS
    requires Sits(s, i, (StartSeq(p) + j) % MODULUS) && Sits(t, offset, StartSeq(p))
    ensures offset + j == i
  {
    var q := (t.baseSeq + offset) / MODULUS;
    assert t.baseSeq + offset == StartSeq(p) + q * MODULUS;
    AddMultiple(StartSeq(p) + j, q);
    PositionUnique(s.baseSeq, i, offset + j);
  }

  lemma OppositeOffsets(a: u32, b: u32, u: nat, v: nat)
    requires u < HALF && v < HALF && (b + u) % MODULUS == a && (a + v) % MODULUS == b
    ensures a == b
  {
  }

  lemma SameBase(o: Options, a: seq<Packet>, b: seq<Packet>)
    requires o.maxBytes <= HALF
    requires forall p :: p in a <==> p in b
    requires forall p :: p in a ==> p.payload != []
    requires !Run(o, a).incomplete && !Run(o, b).incomplete
    ensures Run(o, a).baseSeq == Run(o, b).baseSeq
  {
    hide Reassemble, Run;
    if a != [] {
      assert a[0] in b;
      var u := BaseOffset(o, a, b);
      var v := BaseOffset(o, b, a);
      OppositeOffsets(Run(o, a).baseSeq, Run(o, b).baseSeq, u, v);
    } else if b != [] {
      Nonempty(b, a);
    }
  }

  lemma Nonempty(a: seq<Packet>, b: seq<Packet>)
    requires a != [] && forall p :: p in a ==> p in b
    ensures b != []
  {
    assert a[0] in b;
  }

  /** The base of the first window, as an offset into the second. */
  lemma BaseOffset(o: Options, a: seq<Packet>, b: seq<Packet>) returns (offset: nat)
    requires forall p :: p in a <==> p in b
    requires forall p :: p in a ==> p.payload != []
    requires !Run(o, a).incomplete && !Run(o, b).incomplete && a != []
    ensures offset < |Run(o, b).data| <= o.maxBytes && Sits(Run(o, b), offset, Run(o, a).baseSeq)
  {
    hide Reassemble, Run, StartSeq;
    RunSound(o, a);
    RunSound(o, b);
    var k :| 0 <= k < |a| && StartSeq(a[k]) == Run(o, a).baseSeq;
    assert a[k] in b;
    var m :| 0 <= m < |b| && b[m] == a[k];
    assert Appears(Run(o, b), b[m]);
    offset :| Verbatim(Run(o, b), b[m], offset);
    assert b[m] in a;
  }

  /** Any two arrival orders of the same packets, with any repetitions, that both end complete
      expose the same base and the same bytes, across sequence wraparound. */
  lemma OrderIndependence(o: Options, a: seq<Packet>, b: seq<Packet>)
    requires o.maxBytes <= HALF
    requires forall p :: p in a <==> p in b
    requires forall p :: p in a ==> p.payload != []
    requires !Run(o, a).incomplete && !Run(o, b).incomplete
    ensures var s, t := Run(o, a), Run(o, b);
      && s.contiguous <= |s.data| && t.contiguous <= |t.data|
      && s.baseSeq == t.baseSeq && Payload(s) == Payload(t)
  {
    hide Reassemble, Run;
    CompleteShowsEverything(o, a);
    CompleteShowsEverything(o, b);
    SameBase(o, a, b);
    PrefixOf(o, a, b);
    PrefixOf(o, b, a);
  }

  lemma PrefixOf(o: Options, a: seq<Packet>, b: seq<Packet>)
    requires o.maxBytes <= HALF
    requires forall p :: p in a <==> p in b
    requires !Run(o, a).incomplete && !Run(o, b).incomplete && Run(o, a).baseSeq == Run(o, b).baseSeq
    ensures Run(o, a).data <= Run(o, b).data
  {
    hide Reassemble, Run;
    var s, t := Run(o, a), Run(o, b);
    if |s.data| > 0 {
      SameByte(o, a, b, |s.data| - 1);
    }
    forall i | 0 <= i < |s.data| ensures t.data[i] == s.data[i] {
      SameByte(o, a, b, i);
    }
  }

  // ---------------------------------------------------------------- the program

  /** sideState, updated in place. `contiguous` stands for the payload slice. */
  class SideState {
    var baseSeq: u32
    var seqSet: bool
    var data: Bytes
    var present: seq<bool>
    var contiguous: nat
    var expectedEnd: int
    var limited: bool
    var truncated: bool
    var incomplete: bool

    constructor ()
      ensures Window() == FRESH
    {
      baseSeq, seqSet, data, present, contiguous := 0, false, [], [], 0;
      expectedEnd, limited, truncated, incomplete := 0, false, false, false;
    }

    ghost function Window(): Side
      reads this
    {
      Side(baseSeq, seqSet, data, present, contiguous, expectedEnd, limited, truncated, incomplete)
    }

    /** Copies the packet's bytes into the holes of [offset, end) and notes differing bytes. */
    method Merge(offset: nat, end: int, p: Packet) returns (added: bool)
      requires end <= offset + |p.payload| && end <= |data| == |present|
      modifies this`data, this`present, this`limited
      ensures data == MergeData(old(data), old(present), offset, end, p)
      ensures present == MergePresent(old(present), offset, end)
      ensures added == Adds(old(present), offset, end)
      ensures limited == (old(limited) || Conflict(old(data), old(present), offset, end, p))
    {
      hide MergeData, MergePresent, Conflict, Adds;
      added := false;
      var i := offset;
      MergeNothing(data, present, offset, Min(offset, end), p);
      MergeNothing(data, present, offset, offset, p);
      while i < end
        invariant offset <= i && (i <= end || (i == offset && end < offset))
        invariant |data| == |present| == |old(data)|
        invariant data == MergeData(old(data), old(present), offset, i, p)
        invariant present == MergePresent(old(present), offset, i)
        invariant added == Adds(old(present), offset, i)
        invariant limited == (old(limited) || Conflict(old(data), old(present), offset, i, p))
      {
        var value := p.payload[i - offset];
        MergeStep(old(data), old(present), offset, i, p);
        if !present[i] {
          data := data[i := value];
          present := present[i := true];
          added := true;
        } else {
          assert present[i := true] == present;
          if data[i] != value {
            limited := true;
          }
        }
        i := i + 1;
      }
    }

    /** reassemble: the result tells a pure retransmission. */
    method Feed(o: Options, p: Packet) returns (retransmission: bool)
      requires Shaped(o, Window())
      modifies this
      ensures Window() == Reassemble(o, old(Window()), p).0
      ensures retransmission == Reassemble(o, old(Window()), p).1
      ensures Shaped(o, Window())
    {
      hide Place, Delta, StartSeq, Shaped, Zeros, Holes;
      ReassembleShaped(o, Window(), p);
      ShapedSizes(o, Window());
      var tcpSeq := StartSeq(p);
      if !seqSet {
        baseSeq := tcpSeq;
        seqSet := true;
      }
      var offset := Delta(tcpSeq, baseSeq);
      if offset < 0 {
        var prefix := -offset;
        if prefix > o.maxOutOfOrder || prefix + |data| > o.maxBytes {
          limited, truncated, incomplete := true, true, true;
          return false;
        }
        data := Zeros(prefix) + data;
        present := Holes(prefix) + present;
        expectedEnd := expectedEnd + prefix;
        baseSeq := tcpSeq;
        offset := 0;
        contiguous := 0;
        RoomSizes(prefix);
        assert Window() == Prefixed(Based(old(Window()), p), prefix, tcpSeq);
      }
      if offset > contiguous && offset - contiguous > o.maxOutOfOrder {
        limited, truncated, incomplete := true, true, true;
        return false;
      }
      retransmission := Write(o, offset, p);
    }

    /** The second half of reassemble, for a packet that is within the window. */
    method Write(o: Options, offset: nat, p: Packet) returns (retransmission: bool)
      requires |present| == |data|
      modifies this
      ensures Window() == Place(o, old(Window()), offset, p).0
      ensures retransmission == Place(o, old(Window()), offset, p).1
    {
      hide Place, MergeData, MergePresent, Conflict, Adds, FirstHole, Zeros, Holes;
      PlaceParts(o, Window(), offset, p);
      var end := Announce(o, offset, p);
      Widen(Max(|data|, end));
      var added := Merge(offset, end, p);
      ScanPresent();
      incomplete := limited || contiguous < expectedEnd;
      retransmission := !added && offset < end;
    }

    /** Extends what the packets announce, and cuts the packet at the byte cap. */
    method Announce(o: Options, offset: nat, p: Packet) returns (end: nat)
      modifies this`expectedEnd, this`limited, this`truncated
      ensures expectedEnd == Max(old(expectedEnd), offset + |p.payload| + Uncaptured(p))
      ensures end == Min(offset + |p.payload|, o.maxBytes)
      ensures limited == (old(limited) || offset + |p.payload| > o.maxBytes)
      ensures truncated == (old(truncated) || offset + |p.payload| > o.maxBytes)
    {
      var expected := offset + |p.payload|;
      if p.captured > 0 && p.wire > p.captured {
        expected := expected + (p.wire - p.captured);
      }
      if expected > expectedEnd {
        expectedEnd := expected;
      }
      end := offset + |p.payload|;
      if end > o.maxBytes {
        end := o.maxBytes;
        limited := true;
        truncated := true;
      }
    }

    /** Grows the window to `len` with holes. */
    method Widen(len: nat)
      requires |present| == |data| <= len
      modifies this`data, this`present
      ensures data == old(data) + Zeros(len - |old(data)|)
      ensures present == old(present) + Holes(len - |old(present)|)
      ensures |present| == |data| == len
    {
      data := data + Zeros(len - |data|);
      present := present + Holes(len - |present|);
    }

    /** Advances the exposed payload over the bytes now present. */
    method ScanPresent()
      modifies this`contiguous
      ensures contiguous == FirstHole(present, old(contiguous))
    {
      var n := contiguous;
      while n < |present| && present[n]
        invariant FirstHole(present, n) == FirstHole(present, old(contiguous))
        decreases |present| - n
      {
        n := n + 1;
      }
      contiguous := n;
    }
  }

  /** Place, component by component. */
  lemma PlaceParts(o: Options, s: Side, offset: nat, p: Packet)
    requires |s.present| == |s.data|
    ensures var end := Min(offset + |p.payload|, o.maxBytes); var cut := offset + |p.payload| > o.maxBytes;
      var len := Max(|s.data|, end);
      var data := s.data + Zeros(len - |s.data|); var present := s.present + Holes(len - |s.present|);
      var (t, again) := Place(o, s, offset, p);
      && t.baseSeq == s.baseSeq && t.seqSet == s.seqSet
      && t.data == MergeData(data, present, offset, end, p)
      && t.present == MergePresent(present, offset, end)
      && t.contiguous == FirstHole(t.present, s.contiguous)
      && t.expectedEnd == Max(s.expectedEnd, offset + |p.payload| + Uncaptured(p))
      && t.limited == (s.limited || cut || Conflict(data, present, offset, end, p))
      && t.truncated == (s.truncated || cut)
      && t.incomplete == (t.limited || t.contiguous < t.expectedEnd)
      && again == (!Adds(present, offset, end) && offset < end)
  {
  }

  lemma RoomSizes(n: nat)
    ensures |Zeros(n)| == n && |Holes(n)| == n
  {
  }

  lemma ShapedSizes(o: Options, s: Side)
    requires Shaped(o, s)
    ensures |s.present| == |s.data| && s.contiguous <= |s.data|
  {
  }

  /** An empty range merges nothing. */
  lemma MergeNothing(data: Bytes, present: seq<bool>, offset: nat, end: int, p: Packet)
    requires end <= offset && |data| == |present|
    ensures MergeData(data, present, offset, end, p) == data
    ensures MergePresent(present, offset, end) == present
    ensures !Adds(present, offset, end) && !Conflict(data, present, offset, end, p)
  {
  }

  /** One more byte of the merge. */
  lemma MergeStep(data: Bytes, present: seq<bool>, offset: nat, i: nat, p: Packet)
    requires offset <= i < offset + |p.payload| && i < |data| == |present|
    ensures MergeData(data, present, offset, i + 1, p) ==
      if present[i] then MergeData(data, present, offset, i, p)
      else MergeData(data, present, offset, i, p)[i := p.payload[i - offset]]
    ensures MergePresent(present, offset, i + 1) == MergePresent(present, offset, i)[i := true]
    ensures Adds(present, offset, i + 1) <==> Adds(present, offset, i) || !present[i]
    ensures Conflict(data, present, offset, i + 1, p) <==>
      Conflict(data, present, offset, i, p) || (present[i] && data[i] != p.payload[i - offset])
  {
    hide Conflict, Adds, MergeData, MergePresent;
    AddsStep(present, offset, i);
    ConflictStep(data, present, offset, i, p);
  }

  lemma AddsStep(present: seq<bool>, offset: nat, i: nat)
    requires offset <= i < |present|
    ensures Adds(present, offset, i + 1) <==> Adds(present, offset, i) || !present[i]
  {
    assert In(i, offset, i + 1);
    if Adds(present, offset, i) {
      var j :| 0 <= j < |present| && In(j, offset, i) && !present[j];
      assert In(j, offset, i + 1);
    }
  }

  lemma ConflictStep(data: Bytes, present: seq<bool>, offset: nat, i: nat, p: Packet)
    requires offset <= i < offset + |p.payload| && i < |data| == |present|
    ensures Conflict(data, present, offset, i + 1, p) <==>
      Conflict(data, present, offset, i, p) || (present[i] && data[i] != p.payload[i - offset])
  {
    assert In(i, offset, i + 1);
    if Conflict(data, present, offset, i, p) {
      var j :| 0 <= j < |data| && j < |present| && In(j, offset, i) && present[j] && data[j] != p.payload[j - offset];
      assert In(j, offset, i + 1);
    }
  }
}

/** Which packets the window of Reassembly accepts, and what it then shows: stated in sequence numbers, step by
    step, and for a byte string that arrives in pieces. */
module Streams {
  import opened Basics
  import opened Reassembly

  // ---------------------------------------------------------------- one packet

  /** The packet starts `d` bytes behind the base, or before it if negative; the first packet sets the base. */
  predicate StartsAt(s: Side, p: Packet, d: int) {
    if s.seqSet then -HALF <= d < HALF && (s.baseSeq + d) % MODULUS == StartSeq(p) else d == 0
  }

  /** More than maxOutOfOrder behind the exposed end, or before the base by more than that or than there is room. */
  predicate OutOfReach(o: Options, s: Side, d: int) {
    || d > s.contiguous + o.maxOutOfOrder
    || (d < 0 && (-d > o.maxOutOfOrder || -d + |s.data| > o.maxBytes))
  }

  /** A byte of the packet differs from the one that is there. */
  ghost predicate Differs(s: Side, p: Packet, d: int)
    requires |s.present| == |s.data|
  {
    exists j :: 0 <= j < |p.payload| && 0 <= d + j < |s.data| && s.present[d + j] && s.data[d + j] != p.payload[j]
  }

  predicate PastCap(o: Options, p: Packet, d: int) {
    Max(d, 0) + |p.payload| > o.maxBytes
  }

  lemma DeltaIs(s: Side, p: Packet, d: int)
    requires StartsAt(s, p, d)
    ensures Delta(StartSeq(p), Based(s, p).baseSeq) == d
  {
    if s.seqSet {
      DeltaSits(StartSeq(p), s.baseSeq);
      var e := Delta(StartSeq(p), s.baseSeq);
      assert (s.baseSeq + d) % MODULUS == (s.baseSeq + e) % MODULUS;
      CloseOffsets(s.baseSeq, d, e);
    } else {
      DeltaSits(StartSeq(p), StartSeq(p));
    }
  }

  lemma CloseOffsets(base: u32, d: int, e: int)
    requires -HALF <= d < HALF && -HALF <= e < HALF && (base + d) % MODULUS == (base + e) % MODULUS
    ensures d == e
  {
  }

  /** The exact condition for the window to be limited after a packet, and to be truncated. */
  lemma LimitedExactly(o: Options, s: Side, p: Packet, d: int)
    requires Shaped(o, s) && StartsAt(s, p, d)
    ensures var t := Reassemble(o, s, p).0;
      && (t.limited <==> s.limited || OutOfReach(o, s, d) || PastCap(o, p, d) || Differs(s, p, d))
      && (t.truncated <==> s.truncated || OutOfReach(o, s, d) || PastCap(o, p, d))
  {
    hide Place, Delta, StartSeq, Prefixed, Clashes, Differs;
    DeltaIs(s, p, d);
    if !OutOfReach(o, s, d) {
      var r := if d < 0 then Prefixed(Based(s, p), -d, StartSeq(p)) else Based(s, p);
      if d < 0 {
        PrefixedBytes(Based(s, p), -d, StartSeq(p));
      }
      assert r.limited == s.limited && r.truncated == s.truncated by { PrefixedFlags(Based(s, p), Max(0, -d), StartSeq(p)); }
      PlaceLimited(o, r, Max(d, 0), p);
      PlaceTruncated(o, r, Max(d, 0), p);
      if !PastCap(o, p, d) {
        ClashDiffers(s, r, p, d);
      }
    }
  }

  lemma PrefixedFlags(s: Side, room: nat, baseSeq: u32)
    ensures Prefixed(s, room, baseSeq).limited == s.limited && Prefixed(s, room, baseSeq).truncated == s.truncated
  {
  }

  lemma PlaceTruncated(o: Options, s: Side, offset: nat, p: Packet)
    ensures Place(o, s, offset, p).0.truncated == (s.truncated || offset + |p.payload| > o.maxBytes)
  {
    hide MergeData, MergePresent, FirstHole, Zeros, Holes, Conflict, Adds;
  }

  ghost predicate SameThere(s: Side, r: Side, shift: nat)
    requires |s.present| == |s.data|
  {
    && |r.present| == |r.data| == |s.data| + shift
    && (forall i :: 0 <= i < shift ==> !r.present[i])
    && (forall i :: shift <= i < |r.data| ==> r.present[i] == s.present[i - shift] && r.data[i] == s.data[i - shift])
  }

  lemma ClashDiffers(s: Side, r: Side, p: Packet, d: int)
    requires |s.present| == |s.data| && SameThere(s, r, Max(0, -d))
    ensures Clashes(r, Max(d, 0), Max(d, 0) + |p.payload|, p) <==> Differs(s, p, d)
  {
    if Clashes(r, Max(d, 0), Max(d, 0) + |p.payload|, p) {
      ClashIsDifference(s, r, p, d);
    }
    if Differs(s, p, d) {
      DifferenceIsClash(s, r, p, d);
    }
  }

  lemma ClashIsDifference(s: Side, r: Side, p: Packet, d: int)
    requires |s.present| == |s.data| && SameThere(s, r, Max(0, -d)) && Clashes(r, Max(d, 0), Max(d, 0) + |p.payload|, p)
    ensures Differs(s, p, d)
  {
    var at, shift := Max(d, 0), Max(0, -d);
    var i :| 0 <= i < |r.data| && In(i, at, at + |p.payload|) && r.present[i] && r.data[i] != p.payload[i - at];
    var j := i - at;
    assert d + j == i - shift;
    assert s.present[d + j] && s.data[d + j] != p.payload[j];
  }

  lemma DifferenceIsClash(s: Side, r: Side, p: Packet, d: int)
    requires |s.present| == |s.data| && SameThere(s, r, Max(0, -d)) && Differs(s, p, d)
    ensures Clashes(r, Max(d, 0), Max(d, 0) + |p.payload|, p)
  {
    var at, shift := Max(d, 0), Max(0, -d);
    var j :| 0 <= j < |p.payload| && 0 <= d + j < |s.data| && s.present[d + j] && s.data[d + j] != p.payload[j];
    var i := at + j;
    assert i - shift == d + j;
    assert In(i, at, at + |p.payload|) && r.present[i] && r.data[i] != p.payload[i - at];
  }

  /** What the capture left out of the packet. */
  function Missing(p: Packet): nat {
    if 0 < p.captured < p.wire then p.wire - p.captured else 0
  }

  /** The byte at window position i, counted from the new base, was there. */
  predicate WasThere(s: Side, d: int, i: int)
    requires |s.present| == |s.data|
  {
    var shift := Max(0, -d);
    shift <= i < |s.data| + shift && s.present[i - shift]
  }

  /** The window after a packet that was accepted at `d`: the bytes that were there, and for the rest of its range
      those of the packet. */
  ghost predicate Accepted(o: Options, s: Side, p: Packet, d: int, t: Side)
    requires |s.present| == |s.data|
  {
    var at, shift := Max(d, 0), Max(0, -d);
    var end := Min(at + |p.payload|, o.maxBytes);
    && t.seqSet && Sits(t, at, StartSeq(p)) && (s.seqSet ==> Sits(t, shift, s.baseSeq))
    && |t.data| == |t.present| == Max(|s.data| + shift, end)
    && t.expectedEnd == Max(s.expectedEnd + shift, at + |p.payload| + Missing(p))
    && (forall i :: 0 <= i < |t.data| ==> (t.present[i] <==> WasThere(s, d, i) || at <= i < end))
    && (forall i :: 0 <= i < |t.data| && WasThere(s, d, i) ==> t.data[i] == s.data[i - shift])
    && (forall i :: at <= i < end && !WasThere(s, d, i) ==> t.data[i] == p.payload[i - at])
  }

  ghost predicate AllThere(s: Side, d: int, at: int, end: int)
    requires |s.present| == |s.data|
  {
    forall i :: at <= i < end ==> WasThere(s, d, i)
  }

  /** A packet out of reach changes no byte; any other is accepted. It is a retransmission exactly if it has bytes
      within the cap and all of them were there. */
  lemma AcceptedExactly(o: Options, s: Side, p: Packet, d: int)
    requires Shaped(o, s) && StartsAt(s, p, d)
    ensures var (t, again) := Reassemble(o, s, p); var at := Max(d, 0); var end := Min(at + |p.payload|, o.maxBytes);
      && (OutOfReach(o, s, d) ==> !again && t == s.(limited := true, truncated := true, incomplete := true))
      && (!OutOfReach(o, s, d) ==> Accepted(o, s, p, d, t) && (again <==> at < end && AllThere(s, d, at, end)))
  {
    hide Place, Delta, Prefixed, Accepted, AllThere, StartSeq;
    DeltaIs(s, p, d);
    if !OutOfReach(o, s, d) {
      var r := Widened(s, p, d);
      WidenedIs(s, p, d);
      PlaceAccepted(o, s, r, p, d);
    }
  }

  /** The window with room for the packet in front. */
  function Widened(s: Side, p: Packet, d: int): Side {
    if d < 0 then Prefixed(Based(s, p), -d, StartSeq(p)) else Based(s, p)
  }

  /** The same bytes, counted from the new base. */
  ghost predicate IsWidened(s: Side, p: Packet, d: int, r: Side)
    requires |s.present| == |s.data|
  {
    var shift := Max(0, -d);
    && r.seqSet && Sits(r, Max(d, 0), StartSeq(p)) && (s.seqSet ==> Sits(r, shift, s.baseSeq))
    && |r.data| == |r.present| == |s.data| + shift && r.expectedEnd == s.expectedEnd + shift
    && forall i :: 0 <= i < |r.data| ==> (r.present[i] <==> WasThere(s, d, i)) && (WasThere(s, d, i) ==> r.data[i] == s.data[i - shift])
  }

  lemma WidenedIs(s: Side, p: Packet, d: int)
    requires |s.present| == |s.data| && StartsAt(s, p, d)
    ensures IsWidened(s, p, d, Widened(s, p, d))
  {
    hide Prefixed, StartSeq;
    if d < 0 {
      PrefixedBytes(Based(s, p), -d, StartSeq(p));
      PrefixedEnd(Based(s, p), -d, StartSeq(p));
      BaseBefore(s.baseSeq, StartSeq(p), d);
    }
  }

  lemma BaseBefore(base: u32, start: u32, d: int)
    requires -HALF <= d < HALF && (base + d) % MODULUS == start
    ensures (start + -d) % MODULUS == base
  {
  }

  lemma PrefixedEnd(s: Side, room: nat, baseSeq: u32)
    ensures Prefixed(s, room, baseSeq).expectedEnd == s.expectedEnd + room
  {
  }

  lemma PlaceAccepted(o: Options, s: Side, r: Side, p: Packet, d: int)
    requires |s.present| == |s.data| && IsWidened(s, p, d, r) && |r.data| <= o.maxBytes
    ensures var (t, again) := Place(o, r, Max(d, 0), p); var at := Max(d, 0); var end := Min(at + |p.payload|, o.maxBytes);
      Accepted(o, s, p, d, t) && (again <==> at < end && AllThere(s, d, at, end))
  {
    hide Place, StartSeq, Sits, AllPresent, AllThere, WasThere, IsWidened;
    var at := Max(d, 0);
    AllThereIs(s, r, p, d, at, Min(at + |p.payload|, o.maxBytes));
    PlaceShape(o, s, r, p, d);
    PlaceKeeps(o, s, r, p, d);
  }

  lemma PlaceShape(o: Options, s: Side, r: Side, p: Packet, d: int)
    requires |s.present| == |s.data| && IsWidened(s, p, d, r) && |r.data| <= o.maxBytes
    ensures var t := Place(o, r, Max(d, 0), p).0; var at, shift := Max(d, 0), Max(0, -d); var end := Min(at + |p.payload|, o.maxBytes);
      && t.seqSet && Sits(t, at, StartSeq(p)) && (s.seqSet ==> Sits(t, shift, s.baseSeq))
      && |t.data| == |t.present| == Max(|s.data| + shift, end)
      && t.expectedEnd == Max(s.expectedEnd + shift, at + |p.payload| + Missing(p))
      && (Place(o, r, at, p).1 <==> at < end && AllPresent(r.present, at, end))
  {
    hide Place, StartSeq, AllPresent, WasThere;
    PlaceBytes(o, r, Max(d, 0), p);
    PlaceRest(o, r, Max(d, 0), p);
  }

  lemma PlaceKeeps(o: Options, s: Side, r: Side, p: Packet, d: int)
    requires |s.present| == |s.data| && IsWidened(s, p, d, r) && |r.data| <= o.maxBytes
    ensures var t := Place(o, r, Max(d, 0), p).0; var at, shift := Max(d, 0), Max(0, -d); var end := Min(at + |p.payload|, o.maxBytes);
      && |t.data| == |t.present|
      && (forall i :: 0 <= i < |t.data| ==> (t.present[i] <==> WasThere(s, d, i) || at <= i < end))
      && (forall i :: 0 <= i < |t.data| && WasThere(s, d, i) ==> t.data[i] == s.data[i - shift])
      && (forall i :: at <= i < end && !WasThere(s, d, i) ==> t.data[i] == p.payload[i - at])
  {
    hide Place, StartSeq, Sits;
    PlaceBytes(o, r, Max(d, 0), p);
    var t := Place(o, r, Max(d, 0), p).0;
    assert forall i :: 0 <= i < |t.data| && i >= |r.data| ==> !WasThere(s, d, i);
  }

  lemma AllThereIs(s: Side, r: Side, p: Packet, d: int, at: nat, end: int)
    requires |s.present| == |s.data| && IsWidened(s, p, d, r)
    ensures AllPresent(r.present, at, end) <==> AllThere(s, d, at, end)
  {
    hide StartSeq, Sits;
    if AllPresent(r.present, at, end) {
      forall i | at <= i < end ensures WasThere(s, d, i) {
        assert IsPresent(r.present, i);
      }
    }
    if AllThere(s, d, at, end) {
      forall i | at <= i < end ensures IsPresent(r.present, i) {
        assert WasThere(s, d, i);
      }
    }
  }

  predicate IsPresent(present: seq<bool>, i: int) {
    0 <= i < |present| && present[i]
  }

  ghost predicate AllPresent(present: seq<bool>, at: int, end: int) {
    forall i :: at <= i < end ==> IsPresent(present, i)
  }

  lemma PlaceRest(o: Options, s: Side, offset: nat, p: Packet)
    requires |s.present| == |s.data|
    ensures var (t, again) := Place(o, s, offset, p); var end := Min(offset + |p.payload|, o.maxBytes);
      && t.expectedEnd == Max(s.expectedEnd, offset + |p.payload| + Missing(p))
      && (again <==> offset < end && AllPresent(s.present, offset, end))
  {
    hide MergeData, MergePresent, Conflict, FirstHole, Zeros, Holes, Place, Adds, AllPresent;
    PlaceParts(o, s, offset, p);
    AddsWidened(s, offset, Min(offset + |p.payload|, o.maxBytes));
  }

  lemma AddsWidened(s: Side, offset: nat, end: int)
    requires |s.present| == |s.data|
    ensures var len := Max(|s.data|, end); Adds(s.present + Holes(len - |s.present|), offset, end) <==> !AllPresent(s.present, offset, end)
  {
    var len := Max(|s.data|, end);
    var present := s.present + Holes(len - |s.present|);
    if !AllPresent(s.present, offset, end) {
      var i :| offset <= i < end && !IsPresent(s.present, i);
      assert In(i, offset, end) && !present[i];
    } else {
      forall i | 0 <= i < |present| && In(i, offset, end) ensures present[i] {
        assert IsPresent(s.present, i);
      }
    }
  }

  // ---------------------------------------------------------------- a byte string in pieces

  /** Bytes [at, at + len) of the string. */
  datatype Piece = Piece(at: nat, len: nat)

  /** The packet carries the piece of `b`, whose first byte has sequence number q, and was captured whole. */
  predicate IsPiece(q: u32, b: Bytes, p: Packet, x: Piece) {
    && x.at + x.len <= |b|
    && StartSeq(p) == (q + x.at) % MODULUS && p.payload == b[x.at..x.at + x.len] && Missing(p) == 0
  }

  ghost predicate Covers(xs: seq<Piece>, i: int) {
    exists k :: 0 <= k < |xs| && xs[k].at <= i < xs[k].at + xs[k].len
  }

  /** Where the pieces begin and end. */
  function Low(xs: seq<Piece>): (r: nat)
    requires xs != []
  {
    var n := |xs| - 1;
    if n == 0 then xs[0].at else Min(Low(xs[..n]), xs[n].at)
  }

  function High(xs: seq<Piece>): (r: nat)
    requires xs != []
    ensures Low(xs) <= r
  {
    var n := |xs| - 1;
    if n == 0 then xs[0].at + xs[0].len else Max(High(xs[..n]), xs[n].at + xs[n].len)
  }

  /** What is shown ends at e: everything before is there, and the next byte is not. */
  ghost predicate ShownTo(xs: seq<Piece>, e: int)
    requires xs != []
  {
    && Low(xs) <= e <= High(xs)
    && (forall i :: Low(xs) <= i < e ==> Covers(xs, i))
    && (e < High(xs) ==> !Covers(xs, e))
  }

  /** Not too far before what is there, nor behind what is shown. */
  ghost predicate Near(o: Options, xs: seq<Piece>, x: Piece)
    requires xs != []
  {
    Low(xs) <= x.at + o.maxOutOfOrder && forall e :: ShownTo(xs, e) ==> x.at <= e + o.maxOutOfOrder
  }

  /** Every piece arrives near to those before it. */
  ghost predicate InReach(o: Options, xs: seq<Piece>) {
    |xs| > 1 ==> InReach(o, xs[..|xs| - 1]) && Near(o, xs[..|xs| - 1], xs[|xs| - 1])
  }

  /** The window shows exactly the bytes that have arrived. */
  ghost predicate Shows(q: u32, b: Bytes, xs: seq<Piece>, s: Side)
    requires xs != []
  {
    var low, high := Low(xs), High(xs);
    && s.seqSet && !s.limited && !s.truncated && s.baseSeq == (q + low) % MODULUS
    && high <= |b| && |s.data| == |s.present| == s.expectedEnd == high - low
    && forall i :: low <= i < high ==> (s.present[i - low] <==> Covers(xs, i)) && (Covers(xs, i) ==> s.data[i - low] == b[i])
  }

  lemma {:induction false} CoversWithin(xs: seq<Piece>, i: int)
    requires xs != [] && Covers(xs, i)
    ensures Low(xs) <= i < High(xs)
  {
    var n := |xs| - 1;
    var k :| 0 <= k < |xs| && xs[k].at <= i < xs[k].at + xs[k].len;
    if k < n {
      assert xs[..n][k] == xs[k];
      CoversWithin(xs[..n], i);
    } else if n > 0 {
      LowHigh(xs[..n]);
    }
  }

  lemma LowHigh(xs: seq<Piece>)
    requires xs != []
    ensures Low(xs) <= High(xs)
  {
  }

  lemma CoversMore(xs: seq<Piece>, x: Piece, i: int)
    ensures Covers(xs + [x], i) <==> Covers(xs, i) || x.at <= i < x.at + x.len
  {
    var ys := xs + [x];
    if Covers(xs, i) {
      var k :| 0 <= k < |xs| && xs[k].at <= i < xs[k].at + xs[k].len;
      assert ys[k] == xs[k];
    }
    if x.at <= i < x.at + x.len {
      assert ys[|xs|] == x;
    }
  }

  lemma MorePieces(xs: seq<Piece>, x: Piece)
    requires xs != []
    ensures Low(xs + [x]) == Min(Low(xs), x.at) && High(xs + [x]) == Max(High(xs), x.at + x.len)
  {
    assert (xs + [x])[..|xs|] == xs;
  }

  /** What is shown ends where the window says. */
  lemma ShownIs(o: Options, q: u32, b: Bytes, xs: seq<Piece>, s: Side, e: int)
    requires xs != [] && Shaped(o, s) && Shows(q, b, xs, s)
    ensures ShownTo(xs, e) <==> e == Low(xs) + s.contiguous
  {
    var low, high := Low(xs), High(xs);
    var f := low + s.contiguous;
    forall i | low <= i < f ensures Covers(xs, i) {
      assert s.present[i - low];
    }
    if f < high {
      assert !s.present[f - low];
    }
    assert ShownTo(xs, f);
    assert e < f && low <= e ==> Covers(xs, e);
    assert f < high ==> !Covers(xs, f);
  }

  lemma FirstPiece(o: Options, q: u32, b: Bytes, p: Packet, x: Piece)
    requires IsPiece(q, b, p, x) && |b| <= o.maxBytes
    ensures Shows(q, b, [x], Reassemble(o, FRESH, p).0) && Shaped(o, Reassemble(o, FRESH, p).0)
  {
    hide Reassemble, StartSeq;
    assert Shaped(o, FRESH) && StartsAt(FRESH, p, 0);
    ReassembleShaped(o, FRESH, p);
    LimitedExactly(o, FRESH, p, 0);
    AcceptedExactly(o, FRESH, p, 0);
    var t := Reassemble(o, FRESH, p).0;
    assert Sits(t, 0, StartSeq(p));
    forall i | x.at <= i < x.at + x.len ensures Covers([x], i) && t.present[i - x.at] && t.data[i - x.at] == b[i] {
      assert [x][0] == x;
    }
  }

  /** Where the next piece starts, counted from the base. */
  lemma PieceStarts(q: u32, b: Bytes, xs: seq<Piece>, s: Side, p: Packet, x: Piece)
    requires xs != [] && Shows(q, b, xs, s) && IsPiece(q, b, p, x) && |b| < HALF
    ensures StartsAt(s, p, x.at - Low(xs))
  {
    hide StartSeq;
    LowHigh(xs);
    var low := Low(xs);
    var m := (q + low) / MODULUS;
    assert q + low == s.baseSeq + m * MODULUS;
    assert q + x.at == s.baseSeq + (x.at - low) + m * MODULUS;
    AddMultiple(s.baseSeq + (x.at - low), m);
  }

  lemma NoneDiffers(q: u32, b: Bytes, xs: seq<Piece>, s: Side, p: Packet, x: Piece)
    requires xs != [] && Shows(q, b, xs, s) && IsPiece(q, b, p, x)
    ensures !Differs(s, p, x.at - Low(xs))
  {
    hide StartSeq;
    var low := Low(xs);
    forall j | 0 <= j < |p.payload| && 0 <= x.at - low + j < |s.data| && s.present[x.at - low + j]
      ensures s.data[x.at - low + j] == p.payload[j]
    {
      var i := x.at + j;
      assert s.present[i - low];
      assert p.payload[j] == b[i];
    }
  }

  /** The window is limited by a piece exactly if that is not near. */
  lemma PieceReach(o: Options, q: u32, b: Bytes, xs: seq<Piece>, s: Side, p: Packet, x: Piece)
    requires xs != [] && Shaped(o, s) && Shows(q, b, xs, s) && IsPiece(q, b, p, x) && |b| < HALF && |b| <= o.maxBytes
    ensures OutOfReach(o, s, x.at - Low(xs)) <==> !Near(o, xs, x)
    ensures Reassemble(o, s, p).0.limited <==> !Near(o, xs, x)
    ensures Near(o, xs, x) ==> !Reassemble(o, s, p).0.truncated
  {
    hide Reassemble, StartSeq, Shaped, ShownTo, Differs;
    PieceStarts(q, b, xs, s, p, x);
    NoneDiffers(q, b, xs, s, p, x);
    LimitedExactly(o, s, p, x.at - Low(xs));
    forall e ensures ShownTo(xs, e) <==> e == Low(xs) + s.contiguous {
      ShownIs(o, q, b, xs, s, e);
    }
    assert ShownTo(xs, Low(xs) + s.contiguous);
    LowHigh(xs);
  }

  lemma NextPiece(o: Options, q: u32, b: Bytes, xs: seq<Piece>, s: Side, p: Packet, x: Piece)
    requires xs != [] && Shaped(o, s) && Shows(q, b, xs, s) && IsPiece(q, b, p, x) && |b| < HALF && |b| <= o.maxBytes
    requires Near(o, xs, x)
    ensures Shows(q, b, xs + [x], Reassemble(o, s, p).0)
  {
    hide Reassemble, StartSeq, Near, OutOfReach, Accepted, IsPiece, Shows, AllThere;
    PieceStarts(q, b, xs, s, p, x);
    PieceReach(o, q, b, xs, s, p, x);
    AcceptedExactly(o, s, p, x.at - Low(xs));
    NextShows(o, q, b, xs, s, p, x, Reassemble(o, s, p).0);
  }

  lemma NextShows(o: Options, q: u32, b: Bytes, xs: seq<Piece>, s: Side, p: Packet, x: Piece, t: Side)
    requires xs != [] && Shows(q, b, xs, s) && IsPiece(q, b, p, x) && |s.present| == |s.data| && |b| <= o.maxBytes
    requires Accepted(o, s, p, x.at - Low(xs), t) && !t.limited && !t.truncated
    ensures Shows(q, b, xs + [x], t)
  {
    hide StartSeq, Covers, Accepted, Sits;
    var ys := xs + [x];
    MorePieces(xs, x);
    LowHigh(xs);
    NextBase(o, q, xs, s, p, x, b, t);
    NextSize(o, q, b, xs, s, p, x, t);
    forall i | Low(ys) <= i < High(ys)
      ensures (t.present[i - Low(ys)] <==> Covers(ys, i)) && (Covers(ys, i) ==> t.data[i - Low(ys)] == b[i])
    {
      CoversMore(xs, x, i);
      NextByte(o, q, b, xs, s, p, x, t, i);
    }
  }

  lemma NextBase(o: Options, q: u32, xs: seq<Piece>, s: Side, p: Packet, x: Piece, b: Bytes, t: Side)
    requires xs != [] && Shows(q, b, xs, s) && IsPiece(q, b, p, x) && |s.present| == |s.data| && Accepted(o, s, p, x.at - Low(xs), t)
    ensures t.seqSet && t.baseSeq == (q + Min(Low(xs), x.at)) % MODULUS
    ensures t.expectedEnd == Max(High(xs), x.at + x.len) - Min(Low(xs), x.at)
  {
    hide StartSeq, Covers, WasThere;
  }

  lemma NextByte(o: Options, q: u32, b: Bytes, xs: seq<Piece>, s: Side, p: Packet, x: Piece, t: Side, i: int)
    requires xs != [] && Shows(q, b, xs, s) && IsPiece(q, b, p, x) && |s.present| == |s.data| && |b| <= o.maxBytes
    requires Accepted(o, s, p, x.at - Low(xs), t)
    requires Min(Low(xs), x.at) <= i < Max(High(xs), x.at + x.len)
    ensures var low := Min(Low(xs), x.at); var covered := Covers(xs, i) || x.at <= i < x.at + x.len;
      |t.data| == |t.present| > i - low && (t.present[i - low] <==> covered) && (covered ==> t.data[i - low] == b[i])
  {
    hide StartSeq, Covers, Sits, Accepted, IsPiece, Shows, WasThere;
    var low, d := Min(Low(xs), x.at), x.at - Low(xs);
    WasCovered(q, b, xs, s, d, i);
    NextSize(o, q, b, xs, s, p, x, t);
    AcceptedByte(o, s, p, d, t, i - low);
    if x.at <= i < x.at + x.len {
      PieceByte(q, b, p, x, i);
    }
  }

  lemma NextSize(o: Options, q: u32, b: Bytes, xs: seq<Piece>, s: Side, p: Packet, x: Piece, t: Side)
    requires xs != [] && Shows(q, b, xs, s) && IsPiece(q, b, p, x) && |s.present| == |s.data| && |b| <= o.maxBytes
    requires Accepted(o, s, p, x.at - Low(xs), t)
    ensures |t.data| == |t.present| == Max(High(xs), x.at + x.len) - Min(Low(xs), x.at)
    ensures |p.payload| == x.len && x.at + x.len <= o.maxBytes && |s.data| == High(xs) - Low(xs)
  {
    hide StartSeq, Covers, Sits, WasThere;
  }

  lemma AcceptedByte(o: Options, s: Side, p: Packet, d: int, t: Side, w: nat)
    requires |s.present| == |s.data| && Accepted(o, s, p, d, t) && w < |t.data|
    ensures var at, shift := Max(d, 0), Max(0, -d); var end := Min(at + |p.payload|, o.maxBytes);
      && |t.present| == |t.data| && (t.present[w] <==> WasThere(s, d, w) || at <= w < end)
      && (WasThere(s, d, w) ==> shift <= w < |s.data| + shift && t.data[w] == s.data[w - shift])
      && (at <= w < end && !WasThere(s, d, w) ==> t.data[w] == p.payload[w - at])
  {
    hide StartSeq, Sits;
  }

  lemma PieceByte(q: u32, b: Bytes, p: Packet, x: Piece, i: int)
    requires IsPiece(q, b, p, x) && x.at <= i < x.at + x.len
    ensures |p.payload| == x.len && i < |b| && p.payload[i - x.at] == b[i]
  {
    hide StartSeq;
  }

  lemma WasCovered(q: u32, b: Bytes, xs: seq<Piece>, s: Side, d: int, i: int)
    requires xs != [] && Shows(q, b, xs, s) && |s.present| == |s.data|
    ensures var w := i - Low(xs) + Max(0, -d); WasThere(s, d, w) <==> Covers(xs, i)
    ensures Covers(xs, i) ==> 0 <= i - Low(xs) < |s.data| && s.data[i - Low(xs)] == b[i]
  {
    hide Covers;
    if Covers(xs, i) {
      CoversWithin(xs, i);
    }
  }

  ghost predicate ArePieces(q: u32, b: Bytes, packets: seq<Packet>, xs: seq<Piece>) {
    |packets| == |xs| && forall k :: 0 <= k < |xs| ==> IsPiece(q, b, packets[k], xs[k])
  }

  lemma {:induction false} SpanFits(q: u32, b: Bytes, packets: seq<Packet>, xs: seq<Piece>)
    requires xs != [] && ArePieces(q, b, packets, xs)
    ensures Low(xs) <= High(xs) <= |b|
    decreases |xs|
  {
    hide StartSeq;
    var n := |xs| - 1;
    LowHigh(xs);
    assert IsPiece(q, b, packets[n], xs[n]);
    if n > 0 {
      assert forall k :: 0 <= k < n ==> packets[..n][k] == packets[k] && xs[..n][k] == xs[k];
      SpanFits(q, b, packets[..n], xs[..n]);
    }
  }

  /** Of a byte string that fits, arriving in any pieces in any order: the window is limited exactly if a piece is
      not near to those before it, and otherwise shows exactly what has arrived. */
  lemma {:induction false} StreamExactly(o: Options, q: u32, b: Bytes, packets: seq<Packet>, xs: seq<Piece>)
    requires |b| < HALF && |b| <= o.maxBytes && xs != [] && ArePieces(q, b, packets, xs)
    ensures Run(o, packets).limited <==> !InReach(o, xs)
    ensures InReach(o, xs) ==> Shows(q, b, xs, Run(o, packets))
    decreases |xs|
  {
    hide Reassemble, StartSeq, Shows, Near, IsPiece, Shaped;
    var n := |xs| - 1;
    var before := packets[..n];
    assert IsPiece(q, b, packets[n], xs[n]);
    if n == 0 {
      assert Run(o, before) == FRESH && xs == [xs[0]];
      FirstPiece(o, q, b, packets[0], xs[0]);
      ShowsFlags(q, b, xs, Run(o, packets));
    } else {
      StreamExactly(o, q, b, before, xs[..n]);
      RunShaped(o, before);
      StreamNext(o, q, b, xs[..n], Run(o, before), packets[n], xs[n]);
      assert xs[..n] + [xs[n]] == xs;
    }
  }

  lemma RunShaped(o: Options, packets: seq<Packet>)
    ensures Shaped(o, Run(o, packets))
  {
    RunSound(o, packets);
  }

  lemma StaysLimited(o: Options, s: Side, p: Packet)
    requires Shaped(o, s)
    ensures s.limited ==> Reassemble(o, s, p).0.limited
  {
    hide Reassemble;
    ReassembleGrows(o, s, p);
  }

  lemma StreamNext(o: Options, q: u32, b: Bytes, xs: seq<Piece>, s: Side, p: Packet, x: Piece)
    requires |b| < HALF && |b| <= o.maxBytes && xs != [] && Shaped(o, s) && IsPiece(q, b, p, x)
    requires (s.limited <==> !InReach(o, xs)) && (InReach(o, xs) ==> Shows(q, b, xs, s))
    ensures var t := Reassemble(o, s, p).0;
      (t.limited <==> !(InReach(o, xs) && Near(o, xs, x))) && (InReach(o, xs) && Near(o, xs, x) ==> Shows(q, b, xs + [x], t))
  {
    hide Reassemble, StartSeq, Shows, Near, IsPiece, Shaped, InReach;
    StaysLimited(o, s, p);
    if InReach(o, xs) {
      PieceReach(o, q, b, xs, s, p, x);
      if Near(o, xs, x) {
        NextPiece(o, q, b, xs, s, p, x);
      }
    }
  }

  lemma ShowsFlags(q: u32, b: Bytes, xs: seq<Piece>, s: Side)
    requires xs != [] && Shows(q, b, xs, s)
    ensures !s.limited && !s.truncated && s.seqSet
  {
  }

  /** Without a gap, and only so, the window is complete, and its payload is the string from the first byte that
      arrived to the last. */
  lemma Delivered(o: Options, q: u32, b: Bytes, packets: seq<Packet>, xs: seq<Piece>)
    requires |b| < HALF && |b| <= o.maxBytes && xs != [] && ArePieces(q, b, packets, xs)
    ensures var s := Run(o, packets); !s.incomplete <==> InReach(o, xs) && forall i :: Low(xs) <= i < High(xs) ==> Covers(xs, i)
    ensures var s := Run(o, packets); !s.incomplete ==>
      !s.truncated && s.baseSeq == (q + Low(xs)) % MODULUS && s.contiguous <= |s.data| && High(xs) <= |b| && Payload(s) == b[Low(xs)..High(xs)]
  {
    hide Run, StartSeq, Covers, IsPiece;
    StreamExactly(o, q, b, packets, xs);
    RunSound(o, packets);
    LowHigh(xs);
    var s := Run(o, packets);
    if InReach(o, xs) {
      ShownIs(o, q, b, xs, s, High(xs));
      if s.contiguous == |s.data| {
        assert Payload(s) == b[Low(xs)..High(xs)];
      }
    }
  }

  /** In order: every piece begins where the one before ends. */
  ghost predicate InOrder(xs: seq<Piece>) {
    forall k :: 0 <= k < |xs| ==> Follows(xs, k)
  }

  predicate Follows(xs: seq<Piece>, k: nat)
    requires k < |xs|
  {
    xs[k].at == if k == 0 then 0 else xs[k - 1].at + xs[k - 1].len
  }

  lemma {:induction false} InOrderCovers(o: Options, xs: seq<Piece>)
    requires xs != [] && InOrder(xs)
    ensures InReach(o, xs) && Low(xs) == 0 && High(xs) == xs[|xs| - 1].at + xs[|xs| - 1].len
    ensures forall i :: 0 <= i < High(xs) ==> Covers(xs, i)
    decreases |xs|
  {
    var n := |xs| - 1;
    assert Follows(xs, n) && Follows(xs, 0);
    if n == 0 {
      forall i | 0 <= i < High(xs) ensures Covers(xs, i) {
        assert xs[0].at <= i < xs[0].at + xs[0].len;
      }
    } else {
      var ys := xs[..n];
      forall k | 0 <= k < |ys| ensures Follows(ys, k) {
        assert Follows(xs, k);
      }
      InOrderCovers(o, ys);
      assert ys + [xs[n]] == xs;
      forall i | 0 <= i < High(xs) ensures Covers(xs, i) {
        CoversMore(ys, xs[n], i);
      }
      forall e | ShownTo(ys, e) ensures xs[n].at <= e + o.maxOutOfOrder {
        assert e < High(ys) ==> Covers(ys, e);
      }
    }
  }

  /** A string that arrives in order is exposed whole, however it is cut. */
  lemma DeliveredInOrder(o: Options, q: u32, b: Bytes, packets: seq<Packet>, xs: seq<Piece>)
    requires |b| < HALF && |b| <= o.maxBytes && xs != [] && ArePieces(q, b, packets, xs)
    requires InOrder(xs) && xs[|xs| - 1].at + xs[|xs| - 1].len == |b|
    ensures var s := Run(o, packets); !s.incomplete && !s.limited && !s.truncated && s.baseSeq == q && s.contiguous <= |s.data| && Payload(s) == b
  {
    hide Run, StartSeq, Covers, IsPiece, InReach;
    InOrderCovers(o, xs);
    Delivered(o, q, b, packets, xs);
    StreamExactly(o, q, b, packets, xs);
  }
}

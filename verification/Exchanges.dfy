/** What a transaction of internal/correlation/tracker.go is made of: the segments that were filed with it on either
    side, and what they say about its windows and its end. */
module Exchanges {
  import opened Basics
  import opened Revisions
  import opened Routing
  import S = Streams

  /** The segments of a transaction, in the order they were filed. */
  datatype Traffic = Traffic(requests: seq<R.Packet>, responses: seq<R.Packet>)

  const SILENCE := Traffic([], [])

  type Record = seq<Traffic>

  // ---------------------------------------------------------------- the window of a side

  function Filled(segments: seq<R.Packet>): seq<R.Packet> {
    if segments == [] then [] else
    var last := segments[|segments| - 1];
    Filled(segments[..|segments| - 1]) + if last.payload == [] then [] else [last]
  }

  /** Some segment was cut short by the capture. */
  predicate AnyCut(segments: seq<R.Packet>) {
    exists i :: 0 <= i < |segments| && IsCut(segments[i])
  }

  predicate IsCut(p: R.Packet) {
    0 < p.captured < p.wire
  }

  /** What reassembling the segments that carry data gives, marked truncated also if one was cut short or if there
      are more than the packet index holds. */
  function Assembled(o: Options, segments: seq<R.Packet>): R.Side {
    var w := R.Run(o.window, Filled(segments));
    w.(truncated := w.truncated || AnyCut(segments) || (o.storePackets && |segments| > o.maxPackets))
  }

  ghost predicate SideTells(o: Options, side: Side, segments: seq<R.Packet>) {
    && side.window == Assembled(o, segments)
    && side.packetCount == |segments|
    && (side.packets == if o.storePackets then Min(|segments|, o.maxPackets) else 0)
    && side.seen == Remembered(o, segments) && side.retransmissions == Repeats(o, segments)
  }

  /** Sequence numbers and lengths met, as many as are remembered. */
  function Remembered(o: Options, segments: seq<R.Packet>): set<(int, nat)> {
    if segments == [] then {} else
    var before, p := Remembered(o, segments[..|segments| - 1]), segments[|segments| - 1];
    if |before| < o.maxPackets then before + {(p.tcpSeq, |p.payload|)} else before
  }

  /** The segment repeats earlier ones: every byte of it that fits was there, or it has none and its number was met. */
  predicate IsRepeat(o: Options, before: seq<R.Packet>, p: R.Packet) {
    if p.payload == [] then (p.tcpSeq, 0) in Remembered(o, before)
    else R.Reassemble(o.window, R.Run(o.window, Filled(before)), p).1
  }

  function Repeats(o: Options, segments: seq<R.Packet>): nat {
    if segments == [] then 0 else
    var before, p := segments[..|segments| - 1], segments[|segments| - 1];
    Repeats(o, before) + if IsRepeat(o, before, p) then 1 else 0
  }

  lemma RepeatsMore(o: Options, segments: seq<R.Packet>, p: R.Packet)
    ensures Repeats(o, segments + [p]) == Repeats(o, segments) + if IsRepeat(o, segments, p) then 1 else 0
    ensures var before := Remembered(o, segments);
      Remembered(o, segments + [p]) == if |before| < o.maxPackets then before + {(p.tcpSeq, |p.payload|)} else before
  {
    hide IsRepeat;
    assert (segments + [p])[..|segments|] == segments;
  }

  function Marked(s: R.Side, mark: bool): R.Side {
    s.(truncated := s.truncated || mark)
  }

  lemma PlaceMarked(o: R.Options, s: R.Side, offset: nat, p: R.Packet, mark: bool)
    ensures var (t, again) := R.Place(o, s, offset, p); R.Place(o, Marked(s, mark), offset, p) == (Marked(t, mark), again)
  {
    hide R.Conflict, R.MergePresent, R.MergeData, R.FirstHole, R.Adds, R.Zeros, R.Holes;
  }

  /** A mark of truncation does not change what a segment does. */
  lemma MarkApart(o: R.Options, s: R.Side, p: R.Packet, mark: bool)
    ensures var (t, again) := R.Reassemble(o, s, p); R.Reassemble(o, Marked(s, mark), p) == (Marked(t, mark), again)
  {
    hide R.StartSeq, R.Delta, R.Place, R.Zeros, R.Holes;
    var based := R.Based(s, p);
    var offset := R.Delta(R.StartSeq(p), based.baseSeq);
    assert R.Based(Marked(s, mark), p) == Marked(based, mark);
    if offset < 0 {
      assert R.Prefixed(Marked(based, mark), -offset, R.StartSeq(p)) == Marked(R.Prefixed(based, -offset, R.StartSeq(p)), mark);
      PlaceMarked(o, R.Prefixed(based, -offset, R.StartSeq(p)), 0, p, mark);
    } else {
      PlaceMarked(o, based, offset, p, mark);
    }
  }

  lemma AnyCutMore(segments: seq<R.Packet>, p: R.Packet)
    ensures AnyCut(segments + [p]) <==> AnyCut(segments) || IsCut(p)
  {
    var all := segments + [p];
    assert all[|segments|] == p;
    if i :| 0 <= i < |segments| && IsCut(segments[i]) {
      assert all[i] == segments[i];
    }
  }

  lemma FilledMore(segments: seq<R.Packet>, p: R.Packet)
    ensures Filled(segments + [p]) == Filled(segments) + if p.payload == [] then [] else [p]
  {
    assert (segments + [p])[..|segments|] == segments;
  }

  lemma RunMore(o: R.Options, packets: seq<R.Packet>, p: R.Packet)
    ensures R.Run(o, packets + [p]) == R.Reassemble(o, R.Run(o, packets), p).0
  {
    hide R.Reassemble;
    assert (packets + [p])[..|packets|] == packets;
  }

  lemma SilentSide(o: Options)
    ensures SideTells(o, NO_SIDE, [])
  {
    hide R.Reassemble;
  }

  lemma AppendTells(o: Options, side: Side, segments: seq<R.Packet>, p: R.Packet)
    requires SideTells(o, side, segments)
    ensures SideTells(o, AppendSide(o, side, p), segments + [p])
  {
    hide R.Reassemble, R.Run, Filled, AnyCut, Remembered, Repeats, IsRepeat, Snapped;
    RepeatsMore(o, segments, p);
    AnyCutMore(segments, p);
    Arrives(o, side, segments, p);
  }

  /** What the segment does to the window, and whether it repeats earlier ones. */
  lemma Arrives(o: Options, side: Side, segments: seq<R.Packet>, p: R.Packet)
    requires SideTells(o, side, segments)
    ensures var key := (p.tcpSeq, |p.payload|);
      var (window, again) :=
        if |p.payload| > 0 then R.Reassemble(o.window, Snapped(side.window, p), p) else (Snapped(side.window, p), key in side.seen);
      && window == Marked(R.Run(o.window, Filled(segments + [p])), AnyCut(segments) || (o.storePackets && |segments| > o.maxPackets) || IsCut(p))
      && (again <==> IsRepeat(o, segments, p))
  {
    hide R.Reassemble, R.Run, Filled, AnyCut, Remembered, Repeats;
    var w := R.Run(o.window, Filled(segments));
    var mark := AnyCut(segments) || (o.storePackets && |segments| > o.maxPackets) || IsCut(p);
    FilledMore(segments, p);
    assert Snapped(side.window, p) == Marked(w, mark);
    if p.payload == [] {
      assert Filled(segments) + [] == Filled(segments);
    } else {
      MarkApart(o.window, w, p, mark);
      RunMore(o.window, Filled(segments), p);
    }
  }

  // ---------------------------------------------------------------- the record of a session

  ghost predicate Tells(o: Options, tx: Transaction, t: Traffic) {
    SideTells(o, tx.request, t.requests) && SideTells(o, tx.response, t.responses)
  }

  /** The record tells of each transaction what was filed with it. */
  ghost predicate Traced(o: Options, st: Session, r: Record) {
    |r| == |st.txns| && forall i :: 0 <= i < |r| ==> Tells(o, st.txns[i], r[i])
  }

  ghost predicate AllTraced(o: Options, s: Sessions, rs: map<Key, Record>) {
    rs.Keys == s.Keys && forall k :: k in s ==> Traced(o, s[k], rs[k])
  }

  /** The same windows in the same places. */
  ghost predicate SameSides(st: Session, st': Session) {
    && |st'.txns| == |st.txns|
    && forall i :: 0 <= i < |st.txns| ==> st'.txns[i].request == st.txns[i].request && st'.txns[i].response == st.txns[i].response
  }

  lemma TracedSame(o: Options, st: Session, st': Session, r: Record)
    requires Traced(o, st, r) && SameSides(st, st')
    ensures Traced(o, st', r)
  {
    hide SideTells;
  }

  lemma TidiedSides(o: Options, st: Session, now: nat)
    ensures SameSides(st, Tidied(o, st, now))
  {
  }

  lemma ReportedSides(o: Options, st: Session, p: Packet, i: int, st': Session, batches: seq<Batch>)
    requires Reported(o, st, p, i, st', batches)
    ensures SameSides(st, st')
  {
  }

  /** What a cleanup leaves of the records. */
  lemma SweptTraced(o: Options, s: Sessions, rs: map<Key, Record>, lastCleanup: nat, now: nat)
    requires AllTraced(o, s, rs)
    ensures var t := Swept(o, s, lastCleanup, now); AllTraced(o, t, map k | k in t && k in rs :: rs[k])
  {
    hide Traced, Tidied, Due, Overdue;
    var t := Swept(o, s, lastCleanup, now);
    forall k | k in t ensures k in rs && Traced(o, t[k], rs[k]) {
      TidiedSides(o, s[k], now);
      if Due(lastCleanup, now) { TracedSame(o, s[k], t[k], rs[k]); }
    }
  }

  /** The record of the packet's session as the packet finds it: that of a session that goes on, or none. */
  function FoundRecord(s: Sessions, rs: map<Key, Record>, p: Packet): Record {
    if p.key in s && !(p.tcp && p.segment.syn && !p.ack) && p.key in rs then rs[p.key] else []
  }

  lemma LocatedTraced(o: Options, s: Sessions, rs: map<Key, Record>, p: Packet, t: Sessions)
    requires AllTraced(o, s, rs) && Located(o, s, p, t) && p.key in t
    ensures t.Keys <= s.Keys + {p.key} && Traced(o, t[p.key], FoundRecord(s, rs, p))
    ensures forall k :: k in t && k != p.key ==> k in s && t[k] == s[k]
  {
    hide Tells;
  }

  // ---------------------------------------------------------------- filing a packet

  /** The packet comes from the server: a response, or more data from any endpoint but the client. */
  predicate FromServer(st: Session, p: Packet) {
    p.role == Response || (p.role == Other && !(st.client != [] && p.source == st.client))
  }

  function With(t: Traffic, server: bool, segment: R.Packet): Traffic {
    if server then t.(responses := t.responses + [segment]) else t.(requests := t.requests + [segment])
  }

  /** The packet begins a transaction: a request, or a response with none open. */
  ghost predicate Begins(st: Session, p: Packet) {
    p.role == Request || (p.role == Response && forall j :: 0 <= j < |st.txns| ==> st.txns[j].final)
  }

  /** An open transaction that can take more of a side: the client asks no more of one that is answered. */
  ghost predicate Candidate(st: Session, r: Record, server: bool, j: int) {
    0 <= j < |st.txns| && |r| == |st.txns| && !st.txns[j].final && (server || r[j].responses == [])
  }

  /** The oldest candidate for the server, the newest for the client. */
  ghost predicate Chosen(st: Session, r: Record, server: bool, i: int) {
    && Candidate(st, r, server, i)
    && forall j :: Candidate(st, r, server, j) ==> if server then i <= j else j <= i
  }

  /** Room for one more: where the session is full, the first final transaction goes, or else the first. */
  ghost predicate MakesRoom(o: Options, st: Session, r: Record, kept: Record)
    requires |r| == |st.txns|
  {
    if |r| < o.maxTransactions || r == [] then kept == r
    else exists g :: 0 <= g < |r| && kept == r[..g] + r[g + 1..] && (forall j :: 0 <= j < g ==> !st.txns[j].final)
           && (st.txns[g].final || (g == 0 && forall j :: 0 <= j < |r| ==> !st.txns[j].final))
  }

  /** How the record of a session changes with a packet, and the transaction it joins, -1 for none. */
  ghost predicate Joins(o: Options, st: Session, r: Record, p: Packet, r': Record, i: int)
    requires |r| == |st.txns|
  {
    var server := FromServer(st, p);
    if !p.tcp || (p.role == Other && p.segment.payload == []) then i == -1 && r' == r
    else if Begins(st, p) then
      i == |r'| - 1 && exists kept :: MakesRoom(o, st, r, kept) && r' == kept + [With(SILENCE, server, p.segment)]
    else if exists j :: Candidate(st, r, server, j) then
      Chosen(st, r, server, i) && r' == r[i := With(r[i], server, p.segment)]
    else i == -1 && r' == r
  }

  /** The response is whole: nothing of it was lost or cut, and what is exposed is a complete message. */
  ghost predicate Whole(o: Options, responses: seq<R.Packet>) {
    var w := Assembled(o, responses);
    !w.truncated && !w.incomplete && w.contiguous <= |w.data| && o.complete(w.data[..w.contiguous])
  }

  /** The record after the packet, as the program files it. */
  function RecordFor(o: Options, st: Session, r: Record, p: Packet): Record
    requires |r| == |st.txns|
  {
    var i := Filed(o, st, p).1;
    var server := FromServer(st, p);
    if p.tcp && (p.role == Request || (p.role == Response && OpenIndex(st.txns) == |st.txns|)) then
      RoomFor(o, st, r) + [With(SILENCE, server, p.segment)]
    else if 0 <= i < |r| then r[i := With(r[i], server, p.segment)]
    else r
  }

  function RoomFor(o: Options, st: Session, r: Record): Record
    requires |r| == |st.txns|
  {
    if |r| >= o.maxTransactions && r != [] then r[..FirstFinal(st.txns)] + r[FirstFinal(st.txns) + 1..] else r
  }

  lemma AbsorbedTells(o: Options, tx: Transaction, t: Traffic, server: bool, p: R.Packet)
    requires Tells(o, tx, t)
    ensures Tells(o, Absorbed(o, tx, server, p), With(t, server, p))
  {
    hide AppendSide, SideTells, ResponseComplete;
    AppendTells(o, if server then tx.response else tx.request, if server then t.responses else t.requests, p);
  }

  lemma TrimmedTraced(o: Options, st: Session, r: Record)
    requires Traced(o, st, r)
    ensures Traced(o, Trimmed(o, st), RoomFor(o, st, r)) && MakesRoom(o, st, r, RoomFor(o, st, r))
  {
    hide Tells;
  }

  lemma AppendedTraced(o: Options, st: Session, r: Record, usec: nat)
    requires Traced(o, st, r)
    ensures Traced(o, Appended(o, st, usec), r + [SILENCE])
  {
    hide SideTells;
    SilentSide(o);
  }

  lemma AbsorbedTraced(o: Options, st: Session, r: Record, i: nat, server: bool, p: R.Packet)
    requires Traced(o, st, r) && i < |r|
    ensures Traced(o, AbsorbedAt(o, st, i, server, p), r[i := With(r[i], server, p)])
  {
    hide Tells, Absorbed;
    AbsorbedTells(o, st.txns[i], r[i], server, p);
  }

  lemma BegunTraced(o: Options, st: Session, r: Record, server: bool, p: Packet)
    requires Traced(o, st, r)
    ensures var begun := Appended(o, Trimmed(o, st), p.time);
      Traced(o, AbsorbedAt(o, begun, |begun.txns| - 1, server, p.segment), RoomFor(o, st, r) + [With(SILENCE, server, p.segment)])
  {
    hide Tells, Absorbed, Trimmed, RoomFor, MakesRoom;
    TrimmedTraced(o, st, r);
    var kept := RoomFor(o, st, r);
    AppendedTraced(o, Trimmed(o, st), kept, p.time);
    AbsorbedTraced(o, Appended(o, Trimmed(o, st), p.time), kept + [SILENCE], |kept|, server, p.segment);
    assert (kept + [SILENCE])[|kept| := With(SILENCE, server, p.segment)] == kept + [With(SILENCE, server, p.segment)];
  }

  lemma ClientTraced(o: Options, st: Session, client: Endpoint, r: Record)
    requires |r| == |st.txns|
    ensures Traced(o, st.(client := client), r) <==> Traced(o, st, r)
    ensures RoomFor(o, st.(client := client), r) == RoomFor(o, st, r)
  {
    hide Tells;
  }

  /** Filing keeps the record true. */
  lemma FiledTraced(o: Options, st: Session, r: Record, p: Packet)
    requires Traced(o, st, r)
    ensures Traced(o, Filed(o, st, p).0, RecordFor(o, st, r, p))
  {
    hide Traced, AbsorbedAt, Appended, Trimmed, RoomFor;
    assert |r| == |st.txns| by { TracedSize(o, st, r); }
    ClientTraced(o, st, p.source, r);
    ClientTraced(o, st, p.dest, r);
    if p.tcp && p.role == Request {
      BegunTraced(o, st.(client := p.source), r, false, p);
    } else if p.tcp && p.role == Response {
      var known := if st.client == [] then st.(client := p.dest) else st;
      var i := OpenIndex(known.txns);
      if i < |known.txns| {
        AbsorbedTraced(o, known, r, i, true, p.segment);
      } else {
        BegunTraced(o, known, r, true, p);
      }
    } else if p.tcp && |p.segment.payload| > 0 && ContinuationIndex(st, p.source) >= 0 {
      ContinuationInRange(st, p.source);
      var i := ContinuationIndex(st, p.source);
      assert !Continues(st, i, p.source) <==> FromServer(st, p);
      AbsorbedTraced(o, st, r, i, FromServer(st, p), p.segment);
    }
  }

  lemma TracedSize(o: Options, st: Session, r: Record)
    requires Traced(o, st, r)
    ensures |r| == |st.txns| && forall j :: 0 <= j < |r| ==> st.txns[j].response.packetCount == |r[j].responses|
  {
  }

  /** The program files a packet as Joins says. */
  lemma FiledJoins(o: Options, st: Session, r: Record, p: Packet)
    requires Traced(o, st, r)
    ensures Joins(o, st, r, p, RecordFor(o, st, r, p), Filed(o, st, p).1)
  {
    hide AbsorbedAt, Appended, Traced, RoomFor, MakesRoom;
    TracedSize(o, st, r);
    TrimmedTraced(o, st, r);
    var server := FromServer(st, p);
    if p.tcp && p.role == Other && |p.segment.payload| > 0 {
      if server {
        ServerContinues(st, r, p);
      } else {
        ClientContinues(st, r, p);
      }
    } else if p.tcp && p.role == Response && OpenIndex(st.txns) < |st.txns| {
      assert Chosen(st, r, true, OpenIndex(st.txns));
    } else if p.tcp && p.role != Other {
      BegunSize(o, st, r, p);
    }
  }

  lemma BegunSize(o: Options, st: Session, r: Record, p: Packet)
    requires |r| == |st.txns| && p.tcp && p.role != Other && (p.role == Response ==> OpenIndex(st.txns) == |st.txns|)
    ensures Filed(o, st, p).1 == |RoomFor(o, st, r)|
  {
    hide Absorbed, NewTransaction;
  }

  lemma ServerContinues(st: Session, r: Record, p: Packet)
    requires |r| == |st.txns| && p.role == Other && FromServer(st, p)
    ensures var i := ContinuationIndex(st, p.source);
      if exists j :: Candidate(st, r, true, j) then Chosen(st, r, true, i) else i == -1
  {
    var i := ContinuationIndex(st, p.source);
    if i >= 0 { assert Candidate(st, r, true, i); }
  }

  lemma ClientContinues(st: Session, r: Record, p: Packet)
    requires |r| == |st.txns| && p.role == Other && !FromServer(st, p)
    requires forall j :: 0 <= j < |r| ==> st.txns[j].response.packetCount == |r[j].responses|
    ensures var i := ContinuationIndex(st, p.source);
      if exists j :: Candidate(st, r, false, j) then Chosen(st, r, false, i) else i == -1
  {
    var i := ContinuationIndex(st, p.source);
    if i >= 0 { assert Candidate(st, r, false, i); }
  }

  // ---------------------------------------------------------------- when it is final

  /** After the packet its transaction is final exactly if the packet ends the connection, or comes from the server
      and makes the response whole. */
  lemma FinalExactly(o: Options, st: Session, r: Record, p: Packet, st': Session, batches: seq<Batch>)
    requires Traced(o, st, r)
    requires var (filed, i) := Filed(o, st, p); Reported(o, filed, p, i, st', batches)
    ensures var i := Filed(o, st, p).1; i >= 0 ==>
      && i < |st'.txns| && i < |RecordFor(o, st, r, p)|
      && (st'.txns[i].final <==> Ends(p) || (FromServer(st, p) && Whole(o, RecordFor(o, st, r, p)[i].responses)))
  {
    hide Traced, RecordFor, Reported;
    var (filed, i) := Filed(o, st, p);
    TracedSize(o, st, r);
    FiledTraced(o, st, r, p);
    ReportedFinal(o, filed, p, i, st', batches);
    if i >= 0 {
      FiledFinal(o, st, r, p);
      TracedWindow(o, filed, RecordFor(o, st, r, p), i);
    }
  }

  lemma ReportedFinal(o: Options, st: Session, p: Packet, i: int, st': Session, batches: seq<Batch>)
    requires Reported(o, st, p, i, st', batches)
    ensures |st'.txns| == |st.txns|
    ensures 0 <= i < |st.txns| ==> (st'.txns[i].final <==> Ends(p) || st.txns[i].final)
  {
  }

  lemma TracedWindow(o: Options, st: Session, r: Record, i: nat)
    requires Traced(o, st, r) && i < |st.txns|
    ensures i < |r| && (ResponseComplete(o, st.txns[i].response) <==> Whole(o, r[i].responses))
  {
    hide Assembled;
    assert Tells(o, st.txns[i], r[i]);
  }

  /** Only an open transaction takes a packet, and only one from the server can close it. */
  lemma FiledFinal(o: Options, st: Session, r: Record, p: Packet)
    requires Traced(o, st, r)
    ensures var (filed, i) := Filed(o, st, p); i >= 0 ==>
      i < |filed.txns| && (filed.txns[i].final <==> FromServer(st, p) && ResponseComplete(o, filed.txns[i].response))
  {
    hide AppendSide, ResponseComplete, Traced, Trimmed;
    TracedSize(o, st, r);
  }

  // ---------------------------------------------------------------- one packet in the tracker

  /** What a packet does to the record of its session, and when the transaction it joins is final. */
  ghost predicate Follows(o: Options, found: Session, before: Record, p: Packet, after: Record, i: int, final: bool) {
    && |before| == |found.txns| && Joins(o, found, before, p, after, i)
    && (i >= 0 ==> i < |after| && (final <==> (p.tcp && (p.fin || p.rst)) || (FromServer(found, p) && Whole(o, after[i].responses))))
  }

  /** Who the client is after a packet: the source of a request, the receiver of a response if none was known. */
  function ClientAfter(found: Session, p: Packet): Endpoint {
    if p.tcp && p.role == Request then p.source
    else if p.tcp && p.role == Response && found.client == [] then p.dest
    else found.client
  }

  lemma ObservedClient(o: Options, found: Session, time: nat, p: Packet, st': Session, batches: seq<Batch>)
    requires var (filed, i) := Filed(o, found.(lastUsec := time), p); Reported(o, filed, p, i, st', batches)
    ensures st'.client == ClientAfter(found, p) && st'.id == found.id && st'.lastUsec == time
  {
    hide Absorbed, Revise, Closed;
  }

  /** A session that the packet opens knows its client exactly from a SYN. */
  lemma OpenedClient(o: Options, s: Sessions, p: Packet, t: Sessions)
    requires Located(o, s, p, t) && p.key in t
    ensures p.key !in s || (p.tcp && p.segment.syn && !p.ack) ==>
      t[p.key].client == (if p.tcp && p.segment.syn && !p.ack then p.source else []) && t[p.key].txns == []
  {
  }

  lemma ObservedTraced(o: Options, found: Session, before: Record, time: nat, p: Packet, st': Session, batches: seq<Batch>)
    requires Traced(o, found, before)
    requires var (filed, i) := Filed(o, found.(lastUsec := time), p); Reported(o, filed, p, i, st', batches)
    ensures |before| == |found.txns|
    ensures var st := found.(lastUsec := time); var i := Filed(o, st, p).1; var after := RecordFor(o, st, before, p);
      && Traced(o, st', after) && i < |st'.txns|
      && Follows(o, found, before, p, after, i, i >= 0 && st'.txns[i].final)
  {
    hide Traced, Filed, RecordFor, Reported, Joins, Whole;
    var st := found.(lastUsec := time);
    TracedSize(o, found, before);
    LaterTraced(o, found, before, time);
    FiledTraced(o, st, before, p);
    FiledJoins(o, st, before, p);
    FinalExactly(o, st, before, p, st', batches);
    var (filed, i) := Filed(o, st, p);
    ReportedSides(o, filed, p, i, st', batches);
    TracedSame(o, filed, st', RecordFor(o, st, before, p));
    JoinsLater(o, found, before, time, p, RecordFor(o, st, before, p), i);
  }

  lemma LaterTraced(o: Options, st: Session, r: Record, time: nat)
    requires Traced(o, st, r)
    ensures Traced(o, st.(lastUsec := time), r)
  {
    hide Tells;
  }

  lemma JoinsLater(o: Options, st: Session, r: Record, time: nat, p: Packet, r': Record, i: int)
    requires |r| == |st.txns| && Joins(o, st.(lastUsec := time), r, p, r', i)
    ensures Joins(o, st, r, p, r', i)
  {
    var later := st.(lastUsec := time);
    assert forall kept :: MakesRoom(o, later, r, kept) <==> MakesRoom(o, st, r, kept);
    assert forall server, j :: Candidate(later, r, server, j) <==> Candidate(st, r, server, j);
  }

  // ---------------------------------------------------------------- what it makes due

  /** The pause since the last update of the transaction is over, or there was none. */
  predicate Rested(o: Options, tx: Transaction, time: nat) {
    tx.lastRevise == 0 || (time - tx.lastRevise) % TIME_MODULUS >= o.revisionInterval
  }

  /** A packet that goes on with a transaction and does not end the connection gives each event of it one update, the
      next, exactly if the transaction is then final or has rested; and no other event any. */
  lemma UpdatesExactly(o: Options, found: Session, time: nat, p: Packet, filed: Session, i: nat, st': Session, batches: seq<Batch>, x: EventId)
    requires !Begins(found, p) && !(p.tcp && (p.fin || p.rst))
    requires (filed, i as int) == Filed(o, found.(lastUsec := time), p) && Reported(o, filed, p, i, st', batches)
    ensures i < |found.txns| && i < |st'.txns| && |batches| == 1
    ensures x in batches[0] <==> x in found.txns[i].events && (st'.txns[i].final || Rested(o, found.txns[i], p.time))
    ensures x in batches[0] ==> batches[0][x] == Emit(found.txns[i].events[x] + 1, st'.txns[i].final, p.time, true)
  {
    hide Reported, Filed, Begins;
    GoesOn(o, found, time, p);
    Revised(o, filed, p, i, st', batches, x);
  }

  lemma GoesOn(o: Options, found: Session, time: nat, p: Packet)
    requires !Begins(found, p) && Filed(o, found.(lastUsec := time), p).1 >= 0
    ensures var (filed, i) := Filed(o, found.(lastUsec := time), p);
      && i < |found.txns| == |filed.txns| && filed.txns[i].events == found.txns[i].events && filed.txns[i].lastRevise == found.txns[i].lastRevise
  {
    hide AppendSide, ResponseComplete, Trimmed;
  }

  lemma Revised(o: Options, st: Session, p: Packet, i: int, st': Session, batches: seq<Batch>, x: EventId)
    requires 0 <= i < |st.txns| && !(p.tcp && (p.fin || p.rst)) && Reported(o, st, p, i, st', batches)
    ensures var tx := st.txns[i];
      && i < |st'.txns| && |batches| == 1
      && (x in batches[0] <==> x in tx.events && (st'.txns[i].final || Rested(o, tx, p.time)))
      && (x in batches[0] ==> batches[0][x] == Emit(tx.events[x] + 1, st'.txns[i].final, p.time, true))
  {
  }

  // ---------------------------------------------------------------- a response that arrives in pieces

  lemma {:induction false} AllFilled(segments: seq<R.Packet>)
    requires forall i :: 0 <= i < |segments| ==> segments[i].payload != []
    ensures Filled(segments) == segments
  {
    if segments != [] {
      AllFilled(segments[..|segments| - 1]);
    }
  }

  lemma PiecesUncut(q: R.u32, b: Bytes, segments: seq<R.Packet>, xs: seq<S.Piece>)
    requires S.ArePieces(q, b, segments, xs)
    ensures !AnyCut(segments)
  {
    forall i | 0 <= i < |segments| ensures !IsCut(segments[i]) {
      assert S.IsPiece(q, b, segments[i], xs[i]);
    }
  }

  /** A message that fits the window and arrives in any pieces, in any order, is whole exactly if each piece came in
      reach, together they cover what they span, the packet index held them, and what they span is complete. */
  lemma WholeExactly(o: Options, q: R.u32, b: Bytes, segments: seq<R.Packet>, xs: seq<S.Piece>)
    requires |b| < R.HALF && |b| <= o.window.maxBytes && xs != [] && S.ArePieces(q, b, segments, xs)
    requires forall i :: 0 <= i < |segments| ==> segments[i].payload != []
    ensures S.High(xs) <= |b|
    ensures Whole(o, segments) <==>
      && S.InReach(o.window, xs) && (forall i :: S.Low(xs) <= i < S.High(xs) ==> S.Covers(xs, i))
      && (o.storePackets ==> |segments| <= o.maxPackets) && o.complete(b[S.Low(xs)..S.High(xs)])
  {
    hide R.Run, S.InReach, S.Covers, AnyCut, Filled;
    AllFilled(segments);
    PiecesUncut(q, b, segments, xs);
    S.Delivered(o.window, q, b, segments, xs);
    S.SpanFits(q, b, segments, xs);
  }

  /** A response that arrives in order is whole exactly if it is complete and the packet index held it. */
  lemma WholeInOrder(o: Options, q: R.u32, b: Bytes, segments: seq<R.Packet>, xs: seq<S.Piece>)
    requires |b| < R.HALF && |b| <= o.window.maxBytes && xs != [] && S.ArePieces(q, b, segments, xs)
    requires forall i :: 0 <= i < |segments| ==> segments[i].payload != []
    requires S.InOrder(xs) && xs[|xs| - 1].at + xs[|xs| - 1].len == |b|
    ensures Whole(o, segments) <==> (o.storePackets ==> |segments| <= o.maxPackets) && o.complete(b)
  {
    hide R.Run, S.InReach, S.Covers, AnyCut, Filled, Whole;
    WholeExactly(o, q, b, segments, xs);
    S.InOrderCovers(o.window, xs);
    assert b[0..|b|] == b;
  }
}

/** The session and transaction tracker of internal/correlation/tracker.go: which revisions of a
    registered event it emits, and what it retains. */
module Revisions {
  import opened Basics
  import R = Reassembly

  type EventId = Bytes
  type Key = Bytes
  type Endpoint = Bytes

  const TIME_MODULUS := 0x1_0000_0000_0000_0000

  /** Options after New has replaced non-positive values. HTTP framing and the ID hash are
      parameters; the hash is arbitrary. */
  datatype Options = Options(
    maxSessions: nat, maxTransactions: nat, maxPackets: nat, window: R.Options,
    responseWait: nat, idleTimeout: nat, revisionInterval: nat, storePackets: bool,
    complete: Bytes -> bool,
    sessionId: (Key, nat) -> Bytes,
    transactionId: (Bytes, nat) -> Bytes)

  predicate Sensible(o: Options) {
    o.maxSessions > 0 && o.maxTransactions > 0 && o.maxPackets > 0 && 0 < o.revisionInterval < TIME_MODULUS
  }

  /** One direction of a transaction. `packets` counts the retained packet contexts. */
  datatype Side = Side(window: R.Side, seen: set<(int, nat)>, packetCount: nat, retransmissions: nat, packets: nat)

  const NO_SIDE := Side(R.FRESH, {}, 0, 0, 0)

  /** `events` maps each registered event to its last emitted revision. */
  datatype Transaction = Transaction(
    id: Bytes, lastUsec: nat, lastRevise: nat, request: Side, response: Side,
    events: map<EventId, nat>, final: bool)

  datatype Session = Session(id: Bytes, lastUsec: nat, client: Endpoint, nextTxn: nat, hitCount: nat, txns: seq<Transaction>)

  type Sessions = map<Key, Session>

  datatype Role = Request | Response | Other

  /** The parts of a packet the tracker looks at; `key` is its canonical conversation key. */
  datatype Packet = Packet(
    key: Key, time: nat, tcp: bool, ack: bool, fin: bool, rst: bool, role: Role,
    source: Endpoint, dest: Endpoint, segment: R.Packet)

  predicate Opens(p: Packet) {
    p.tcp && p.segment.syn && !p.ack
  }

  // ---------------------------------------------------------------- one side

  /** appendSide. */
  function AppendSide(o: Options, side: Side, p: R.Packet): Side {
    var key := (p.tcpSeq, |p.payload|);
    var (window, again) :=
      if |p.payload| > 0 then R.Reassemble(o.window, Snapped(side.window, p), p)
      else (Snapped(side.window, p), key in side.seen);
    var room := side.packets < o.maxPackets;
    Side(if o.storePackets && !room then window.(truncated := true) else window,
         if |side.seen| < o.maxPackets then side.seen + {key} else side.seen,
         side.packetCount + 1,
         if again then side.retransmissions + 1 else side.retransmissions,
         if o.storePackets && room then side.packets + 1 else side.packets)
  }

  /** A packet cut short by the capture marks the side truncated. */
  function Snapped(w: R.Side, p: R.Packet): R.Side {
    if p.captured > 0 && p.wire > p.captured then w.(truncated := true) else w
  }

  /** responseComplete; the exposed payload is always within the window. */
  predicate ResponseComplete(o: Options, side: Side) {
    && !side.window.truncated && !side.window.incomplete
    && side.window.contiguous <= |side.window.data| && o.complete(R.Payload(side.window))
  }

  // ---------------------------------------------------------------- emitted revisions

  /** One emitted revision of an event; `update` is false for the one Register returns. */
  datatype Emit = Emit(revision: nat, final: bool, time: nat, update: bool)

  /** The updates of one reviseTransaction call, at most one for each event. */
  type Batch = map<EventId, Emit>

  /** Everything emitted for one event, in order. */
  function LogOf(log: seq<Batch>, x: EventId): seq<Emit> {
    if log == [] then [] else
    var last := log[|log| - 1];
    LogOf(log[..|log| - 1], x) + if x in last then [last[x]] else []
  }

  lemma LogOfAppend(log: seq<Batch>, b: Batch, x: EventId)
    ensures LogOf(log + [b], x) == LogOf(log, x) + if x in b then [b[x]] else []
  {
    assert (log + [b])[..|log|] == log;
  }

  predicate Throttled(o: Options, tx: Transaction) {
    && !tx.final && tx.lastRevise != 0
    && (tx.lastUsec - tx.lastRevise) % TIME_MODULUS < o.revisionInterval
  }

  /** reviseTransaction. */
  function Revise(o: Options, tx: Transaction): (Transaction, Batch) {
    if tx.events == map[] || Throttled(o, tx) then (tx, map[])
    else (tx.(lastRevise := tx.lastUsec, events := map x | x in tx.events :: tx.events[x] + 1),
          map x | x in tx.events :: Emit(tx.events[x] + 1, tx.final, tx.lastUsec, true))
  }

  // ---------------------------------------------------------------- the invariant

  /** What has happened so far: the emitted batches, the registered events, every transaction
      identity created, those created more than once, and those seen final. `stale` names the events
      that were registered as final with a transaction that was not, and the identity by which it was
      found. `doubled` records that some event was registered twice. */
  datatype History = History(
    log: seq<Batch>, registered: set<EventId>, created: set<(Bytes, Bytes)>, shared: set<(Bytes, Bytes)>,
    finals: set<(Bytes, Bytes)>, stale: map<EventId, (Bytes, Bytes)>, doubled: bool)

  const NO_HISTORY := History([], {}, {}, {}, {}, map[], false)

  ghost predicate At(s: Sessions, k: Key, i: int) {
    k in s && 0 <= i < |s[k].txns|
  }

  function Identity(st: Session, tx: Transaction): (Bytes, Bytes) {
    (st.id, tx.id)
  }

  /** The revisions of one event are 1, 2, 3, ... */
  ghost predicate Numbered(log: seq<Emit>) {
    forall n :: 0 <= n < |log| ==> log[n].revision == n + 1 && (log[n].update <==> n > 0)
  }

  /** A revision that is not final after one that is. */
  ghost predicate Reverts(log: seq<Emit>) {
    exists m, n :: 0 <= m < n < |log| && log[m].final && !log[n].final
  }

  /** Finality stays, except for that of the first revision of a stale event. */
  ghost predicate Settles(log: seq<Emit>, stale: bool) {
    forall m, n :: 0 <= m < n < |log| && log[m].final && (m > 0 || !stale) ==> log[n].final
  }

  /** An update that is not final comes an interval after the update before it, if that had a time and
      time has not gone back since. */
  ghost predicate Spaced(o: Options, log: seq<Emit>) {
    forall n :: 0 < n < |log| - 1 && !log[n + 1].final && log[n].time != 0 && log[n + 1].time >= log[n].time ==>
      log[n + 1].time >= log[n].time + o.revisionInterval
  }

  /** The emitted revisions of one event. */
  ghost predicate LogOk(o: Options, h: History, x: EventId) {
    var log := LogOf(h.log, x);
    && (x !in h.registered ==> log == [])
    && (x in h.stale ==> x in h.registered && h.stale[x] in h.shared)
    && (!h.doubled ==> Numbered(log) && Settles(log, x in h.stale) && Spaced(o, log))
    && (!h.doubled && x in h.stale ==> log != [] && log[0].final)
  }

  /** A retained event and what has been emitted for it. */
  ghost predicate EventOk(h: History, tx: Transaction, x: EventId) {
    x in h.registered && (!h.doubled ==> x in tx.events && Retained(LogOf(h.log, x), tx, x, x in h.stale))
  }

  ghost predicate Retained(log: seq<Emit>, tx: Transaction, x: EventId, stale: bool)
    requires x in tx.events
  {
    && tx.events[x] == |log| > 0
    && (forall n :: 0 <= n < |log| && log[n].final && (n > 0 || !stale) ==> tx.final)
    && (|log| > 1 ==> tx.lastRevise == log[|log| - 1].time)
  }

  ghost predicate SideOk(o: Options, side: Side) {
    && R.Shaped(o.window, side.window)
    && |side.seen| <= o.maxPackets && side.packets <= o.maxPackets
  }

  ghost predicate TxnOk(o: Options, h: History, st: Session, tx: Transaction) {
    && SideOk(o, tx.request) && SideOk(o, tx.response)
    && Identity(st, tx) in h.created
    && (tx.final ==> Identity(st, tx) in h.finals)
    && (Identity(st, tx) in h.finals ==> tx.final || Identity(st, tx) in h.shared)
    && forall x :: x in tx.events ==> EventOk(h, tx, x)
  }

  ghost predicate Retains(s: Sessions, k: Key, i: int, x: EventId) {
    At(s, k, i) && x in s[k].txns[i].events
  }

  ghost predicate Named(s: Sessions, k: Key, i: int, d: (Bytes, Bytes)) {
    At(s, k, i) && Identity(s[k], s[k].txns[i]) == d
  }

  /** No event is retained twice, and no identity is alive twice unless it was created twice. */
  ghost predicate Distinct(s: Sessions, h: History) {
    && (!h.doubled ==> forall k, i, l, j, x :: Retains(s, k, i, x) && Retains(s, l, j, x) ==> k == l && i == j)
    && (forall k, i, l, j, d :: Named(s, k, i, d) && Named(s, l, j, d) ==> (k == l && i == j) || d in h.shared)
  }

  ghost predicate Bounded(o: Options, s: Sessions) {
    && |s| <= o.maxSessions
    && forall k :: k in s ==> |s[k].txns| <= o.maxTransactions
  }

  ghost predicate Inv(o: Options, s: Sessions, h: History) {
    && Sensible(o)
    && h.finals <= h.created
    && (forall k, i :: At(s, k, i) ==> TxnOk(o, h, s[k], s[k].txns[i]))
    && Distinct(s, h)
    && (forall x :: LogOk(o, h, x))
  }

  // ---------------------------------------------------------------- one transaction changes

  function Replace(s: Sessions, k: Key, i: nat, tx: Transaction): Sessions
    requires k in s && i < |s[k].txns|
  {
    s[k := s[k].(txns := s[k].txns[i := tx])]
  }

  /** The new transaction keeps the identity and the events of the old one. */
  ghost predicate SameEvents(tx: Transaction, tx': Transaction) {
    tx'.id == tx.id && tx'.events.Keys == tx.events.Keys
  }

  lemma ReplaceDistinct(s: Sessions, h: History, h': History, k: Key, i: nat, tx: Transaction)
    requires At(s, k, i) && Distinct(s, h) && SameEvents(s[k].txns[i], tx)
    requires h'.doubled == h.doubled && h'.shared == h.shared
    ensures Distinct(Replace(s, k, i, tx), h')
  {
    var t := Replace(s, k, i, tx);
    forall l, j, x ensures Retains(t, l, j, x) ==> Retains(s, l, j, x) {
    }
    forall l, j, d ensures Named(t, l, j, d) ==> Named(s, l, j, d) {
    }
  }

  /** A transaction not revised keeps its state: the batch holds none of its events. */
  lemma OthersKept(o: Options, h: History, h': History, st: Session, tx: Transaction, batch: Batch)
    requires TxnOk(o, h, st, tx) && h' == h.(log := h.log + [batch])
    requires !h.doubled ==> forall x :: x in tx.events ==> x !in batch
    ensures TxnOk(o, h', st, tx)
  {
    forall x | x in tx.events ensures EventOk(h', tx, x) {
      assert EventOk(h, tx, x);
      LogOfAppend(h.log, batch, x);
    }
  }

  lemma RevisedOk(o: Options, h: History, st: Session, tx: Transaction)
    requires TxnOk(o, h, st, tx)
    ensures TxnOk(o, h.(log := h.log + [Revise(o, tx).1]), st, Revise(o, tx).0)
  {
    var (tx', batch) := Revise(o, tx);
    var h' := h.(log := h.log + [batch]);
    forall x | x in tx'.events ensures EventOk(h', tx', x) {
      assert EventOk(h, tx, x);
      LogOfAppend(h.log, batch, x);
    }
  }

  /** When a revision is held back: with 64-bit times, exactly if the last one had a time and less than
      the interval has passed since. */
  lemma ThrottledExactly(o: Options, tx: Transaction)
    requires Sensible(o) && tx.lastUsec < TIME_MODULUS && tx.lastRevise < TIME_MODULUS
    requires tx.lastRevise - tx.lastUsec <= TIME_MODULUS - o.revisionInterval
    ensures Throttled(o, tx) <==>
      !tx.final && tx.lastRevise != 0 && tx.lastRevise <= tx.lastUsec < tx.lastRevise + o.revisionInterval
  {
    if tx.lastUsec < tx.lastRevise {
      assert (tx.lastUsec - tx.lastRevise) % TIME_MODULUS == tx.lastUsec - tx.lastRevise + TIME_MODULUS;
    }
  }

  lemma BatchLogOk(o: Options, h: History, st: Session, tx: Transaction, x: EventId)
    requires Sensible(o) && LogOk(o, h, x) && TxnOk(o, h, st, tx)
    ensures LogOk(o, h.(log := h.log + [Revise(o, tx).1]), x)
  {
    LogOfAppend(h.log, Revise(o, tx).1, x);
    if x in tx.events && x in Revise(o, tx).1 && !h.doubled {
      assert EventOk(h, tx, x);
      NextOk(o, LogOf(h.log, x), tx, x, x in h.stale);
    }
  }

  /** The next revision of a retained event goes on in order, keeps finality and keeps its distance. */
  lemma NextOk(o: Options, log: seq<Emit>, tx: Transaction, x: EventId, stale: bool)
    requires Sensible(o) && x in tx.events && Retained(log, tx, x, stale) && !Throttled(o, tx)
    requires Numbered(log) && Settles(log, stale) && Spaced(o, log)
    ensures var next := log + [Emit(tx.events[x] + 1, tx.final, tx.lastUsec, true)];
      Numbered(next) && Settles(next, stale) && Spaced(o, next) && next[0] == log[0]
  {
    var next := log + [Emit(tx.events[x] + 1, tx.final, tx.lastUsec, true)];
    var n := |log| - 1;
    if n > 0 && !tx.final && log[n].time != 0 && tx.lastUsec >= log[n].time {
      assert tx.lastRevise == log[n].time;
      LongEnough(o, tx);
    }
  }

  lemma LongEnough(o: Options, tx: Transaction)
    requires Sensible(o) && !Throttled(o, tx) && !tx.final && tx.lastRevise != 0 && tx.lastUsec >= tx.lastRevise
    ensures tx.lastUsec >= tx.lastRevise + o.revisionInterval
  {
    var d := tx.lastUsec - tx.lastRevise;
    assert d < TIME_MODULUS ==> d % TIME_MODULUS == d;
  }

  /** Revising a transaction emits the next revision of each event it retains. */
  lemma ReviseKeeps(o: Options, s: Sessions, h: History, k: Key, i: nat)
    requires Inv(o, s, h) && At(s, k, i)
    ensures var (tx, batch) := Revise(o, s[k].txns[i]);
      Inv(o, Replace(s, k, i, tx), h.(log := h.log + [batch]))
  {
    hide LogOk, TxnOk, Revise, Distinct;
    var before := s[k].txns[i];
    var (tx, batch) := Revise(o, before);
    var t := Replace(s, k, i, tx);
    var h' := h.(log := h.log + [batch]);
    ReviseShape(o, before);
    ReplaceDistinct(s, h, h', k, i, tx);
    forall x ensures LogOk(o, h', x) {
      BatchLogOk(o, h, s[k], before, x);
    }
    forall l, j | At(t, l, j) ensures TxnOk(o, h', t[l], t[l].txns[j]) {
      assert At(s, l, j);
      if l == k && j == i {
        RevisedOk(o, h, s[k], before);
        TxnSession(o, h', s[k], t[k], tx);
      } else {
        RetainedOnce(s, h, k, i, l, j);
        OthersKept(o, h, h', s[l], s[l].txns[j], batch);
        TxnSession(o, h', s[l], t[l], s[l].txns[j]);
      }
    }
  }

  lemma ReviseShape(o: Options, tx: Transaction)
    ensures SameEvents(tx, Revise(o, tx).0)
    ensures forall x :: x in Revise(o, tx).1 ==> x in tx.events
  {
  }

  lemma TxnSession(o: Options, h: History, st: Session, st': Session, tx: Transaction)
    requires TxnOk(o, h, st, tx) && st'.id == st.id
    ensures TxnOk(o, h, st', tx)
  {
  }

  lemma RetainedOnce(s: Sessions, h: History, k: Key, i: nat, l: Key, j: nat)
    requires Distinct(s, h) && At(s, k, i) && At(s, l, j) && !(k == l && i == j)
    ensures !h.doubled ==> forall x :: x in s[l].txns[j].events ==> x !in s[k].txns[i].events
  {
    forall x | !h.doubled && x in s[l].txns[j].events ensures x !in s[k].txns[i].events {
      assert Retains(s, l, j, x);
      assert !Retains(s, k, i, x);
    }
  }

  /** The history after a transaction may have become final. */
  function Noted(h: History, st: Session, tx: Transaction): History {
    if tx.final then h.(finals := h.finals + {Identity(st, tx)}) else h
  }

  /** New sides, a later time or the final flag: the events and their revisions are untouched. */
  ghost predicate Amends(o: Options, tx: Transaction, tx': Transaction) {
    && tx'.id == tx.id && tx'.events == tx.events && tx'.lastRevise == tx.lastRevise
    && (tx.final ==> tx'.final)
    && SideOk(o, tx'.request) && SideOk(o, tx'.response)
  }

  lemma AmendKeeps(o: Options, s: Sessions, h: History, k: Key, i: nat, tx: Transaction)
    requires Inv(o, s, h) && At(s, k, i) && Amends(o, s[k].txns[i], tx)
    ensures Inv(o, Replace(s, k, i, tx), Noted(h, s[k], tx))
  {
    hide LogOk, Distinct, SideOk;
    var before := s[k].txns[i];
    var t := Replace(s, k, i, tx);
    var h' := Noted(h, s[k], tx);
    ReplaceDistinct(s, h, h', k, i, tx);
    assert TxnOk(o, h, s[k], before);
    forall x ensures LogOk(o, h', x) {
      LogSame(o, h, h', x);
    }
    forall l, j | At(t, l, j) ensures TxnOk(o, h', t[l], t[l].txns[j]) {
      assert At(s, l, j);
      assert TxnOk(o, h, s[l], s[l].txns[j]);
      if !(l == k && j == i) {
        NamedOnce(s, h, k, i, l, j);
      }
      forall x | x in t[l].txns[j].events ensures EventOk(h', t[l].txns[j], x) {
        assert EventOk(h, s[l].txns[j], x);
      }
    }
  }

  lemma NamedOnce(s: Sessions, h: History, k: Key, i: nat, l: Key, j: nat)
    requires Distinct(s, h) && At(s, k, i) && At(s, l, j) && !(k == l && i == j)
    ensures Identity(s[k], s[k].txns[i]) !in h.shared ==> Identity(s[l], s[l].txns[j]) != Identity(s[k], s[k].txns[i])
  {
    var d := Identity(s[k], s[k].txns[i]);
    assert Named(s, k, i, d);
    if d !in h.shared {
      assert !Named(s, l, j, d);
    }
  }

  lemma LogSame(o: Options, h: History, h': History, x: EventId)
    requires LogOk(o, h, x) && h'.log == h.log && h'.registered == h.registered && h'.stale == h.stale
    requires h'.doubled == h.doubled && h.shared <= h'.shared
    ensures LogOk(o, h', x)
  {
  }

  // ---------------------------------------------------------------- sessions and transactions come and go

  /** Every transaction of `t` is one of `s`: the one at `back` of its place, and no two the same. */
  ghost predicate Survives(s: Sessions, t: Sessions, back: (Key, int) -> int) {
    && (forall k, j :: At(t, k, j) ==>
          At(s, k, back(k, j)) && t[k].txns[j] == s[k].txns[back(k, j)] && t[k].id == s[k].id)
    && (forall k, i, j :: At(t, k, i) && At(t, k, j) && back(k, i) == back(k, j) ==> i == j)
  }

  /** Dropping sessions or transactions, adding empty sessions, and changing session counters keep
      the invariant. */
  lemma ShrinkKeeps(o: Options, s: Sessions, t: Sessions, h: History, back: (Key, int) -> int)
    requires Inv(o, s, h) && Survives(s, t, back)
    ensures Inv(o, t, h)
  {
    hide LogOk, TxnOk;
    forall k, j | At(t, k, j) ensures TxnOk(o, h, t[k], t[k].txns[j]) {
      TxnSession(o, h, s[k], t[k], t[k].txns[j]);
    }
    forall k, i, l, j, x | !h.doubled && Retains(t, k, i, x) && Retains(t, l, j, x) ensures k == l && i == j {
      assert Retains(s, k, back(k, i), x) && Retains(s, l, back(l, j), x);
    }
    forall k, i, l, j, d | Named(t, k, i, d) && Named(t, l, j, d) ensures (k == l && i == j) || d in h.shared {
      assert Named(s, k, back(k, i), d) && Named(s, l, back(l, j), d);
    }
  }

  lemma DropSessionKeeps(o: Options, s: Sessions, h: History, k: Key)
    requires Inv(o, s, h)
    ensures Inv(o, s - {k}, h)
  {
    ShrinkKeeps(o, s, s - {k}, h, (l, j) => j);
  }

  function Removed(txns: seq<Transaction>, i: nat): seq<Transaction>
    requires i < |txns|
  {
    txns[..i] + txns[i + 1..]
  }

  lemma DropTransactionKeeps(o: Options, s: Sessions, h: History, k: Key, i: nat)
    requires Inv(o, s, h) && At(s, k, i)
    ensures Inv(o, s[k := s[k].(txns := Removed(s[k].txns, i))], h)
  {
    ShrinkKeeps(o, s, s[k := s[k].(txns := Removed(s[k].txns, i))], h, (l, j) => if l == k && j >= i then j + 1 else j);
  }

  /** A session whose transactions stay as they are, or a new one without any. */
  lemma SetSessionKeeps(o: Options, s: Sessions, h: History, k: Key, st: Session)
    requires Inv(o, s, h)
    requires st.txns == [] || (k in s && st.id == s[k].id && st.txns == s[k].txns)
    ensures Inv(o, s[k := st], h)
  {
    ShrinkKeeps(o, s, s[k := st], h, (l, j) => j);
  }

  /** The history after a transaction identity has been handed out. */
  function Created(h: History, d: (Bytes, Bytes)): History {
    h.(created := h.created + {d}, shared := if d in h.created then h.shared + {d} else h.shared)
  }

  function NewTransaction(o: Options, st: Session, usec: nat): Transaction {
    Transaction(o.transactionId(st.id, st.nextTxn + 1), usec, 0, NO_SIDE, NO_SIDE, map[], false)
  }

  function Appended(o: Options, st: Session, usec: nat): Session {
    st.(nextTxn := st.nextTxn + 1, txns := st.txns + [NewTransaction(o, st, usec)])
  }

  lemma NewTransactionKeeps(o: Options, s: Sessions, h: History, k: Key, usec: nat)
    requires Inv(o, s, h) && k in s
    ensures var tx := NewTransaction(o, s[k], usec);
      Inv(o, s[k := Appended(o, s[k], usec)], Created(h, Identity(s[k], tx)))
  {
    hide LogOk;
    var tx := NewTransaction(o, s[k], usec);
    var t := s[k := Appended(o, s[k], usec)];
    var d := Identity(s[k], tx);
    var h' := Created(h, d);
    forall x ensures LogOk(o, h', x) {
      LogSame(o, h, h', x);
    }
    forall l, j | At(t, l, j) ensures TxnOk(o, h', t[l], t[l].txns[j]) {
      if At(s, l, j) {
        assert TxnOk(o, h, s[l], s[l].txns[j]);
        forall x | x in t[l].txns[j].events ensures EventOk(h', t[l].txns[j], x) {
          assert EventOk(h, s[l].txns[j], x);
        }
      } else {
        assert t[l].txns[j] == tx;
      }
    }
    NewDistinct(o, s, h, k, usec);
  }

  lemma NewDistinct(o: Options, s: Sessions, h: History, k: Key, usec: nat)
    requires Inv(o, s, h) && k in s
    ensures var tx := NewTransaction(o, s[k], usec);
      Distinct(s[k := Appended(o, s[k], usec)], Created(h, Identity(s[k], tx)))
  {
    hide LogOk, EventOk, SideOk;
    var tx := NewTransaction(o, s[k], usec);
    var t := s[k := Appended(o, s[k], usec)];
    var newest := Identity(s[k], tx);
    var n := |s[k].txns|;
    forall l, j, x | Retains(t, l, j, x) ensures Retains(s, l, j, x) {
    }
    forall l, j, d | Named(t, l, j, d) && !(l == k && j == n) ensures Named(s, l, j, d) && d in h.created {
      assert TxnOk(o, h, s[l], s[l].txns[j]);
    }
    assert forall d :: Named(t, k, n, d) ==> d == newest;
  }

  // ---------------------------------------------------------------- registration and time

  function Registration(final: bool): Emit {
    Emit(1, final, 0, false)
  }

  /** The history after Register returned revision 1 of the event; `place` is the transaction found, if
      one was. */
  function Registered(h: History, x: EventId, final: bool, place: Option<(Session, Transaction)>): History {
    h.(log := h.log + [map[x := Registration(final)]],
       registered := h.registered + {x},
       stale := if final && place.Some? && !place.value.1.final then h.stale[x := Identity(place.value.0, place.value.1)] else h.stale,
       doubled := h.doubled || x in h.registered)
  }

  lemma RegisterLogOk(o: Options, h: History, x: EventId, final: bool, place: Option<(Session, Transaction)>, y: EventId)
    requires LogOk(o, h, y) && (final && place.Some? && !place.value.1.final ==> Identity(place.value.0, place.value.1) in h.shared)
    ensures LogOk(o, Registered(h, x, final, place), y)
  {
    LogOfAppend(h.log, map[x := Registration(final)], y);
  }

  lemma RegisterOthers(o: Options, h: History, x: EventId, final: bool, place: Option<(Session, Transaction)>, st: Session, tx: Transaction)
    requires TxnOk(o, h, st, tx)
    ensures TxnOk(o, Registered(h, x, final, place), st, tx)
  {
    var h' := Registered(h, x, final, place);
    forall y | y in tx.events ensures EventOk(h', tx, y) {
      assert EventOk(h, tx, y);
      LogOfAppend(h.log, map[x := Registration(final)], y);
    }
  }

  /** Registering an event that no transaction retains. */
  lemma RegisterUnretainedKeeps(o: Options, s: Sessions, h: History, x: EventId, final: bool, place: Option<(Session, Transaction)>)
    requires Inv(o, s, h) && (final && place.Some? && !place.value.1.final ==> Identity(place.value.0, place.value.1) in h.shared)
    ensures Inv(o, s, Registered(h, x, final, place))
  {
    hide LogOk, TxnOk;
    var h' := Registered(h, x, final, place);
    forall y ensures LogOk(o, h', y) {
      RegisterLogOk(o, h, x, final, place, y);
    }
    forall k, i | At(s, k, i) ensures TxnOk(o, h', s[k], s[k].txns[i]) {
      RegisterOthers(o, h, x, final, place, s[k], s[k].txns[i]);
    }
  }

  /** Registering an event in the transaction it was observed in. */
  lemma RegisterKeeps(o: Options, s: Sessions, h: History, k: Key, i: nat, x: EventId, final: bool)
    requires Inv(o, s, h) && At(s, k, i)
    requires final ==> Identity(s[k], s[k].txns[i]) in h.finals
    ensures var tx := s[k].txns[i];
      Inv(o, Replace(s, k, i, tx.(events := tx.events[x := 1])), Registered(h, x, final, Some((s[k], tx))))
  {
    var tx := s[k].txns[i];
    assert TxnOk(o, h, s[k], tx);
    hide LogOk, TxnOk, Distinct;
    var tx' := tx.(events := tx.events[x := 1]);
    var t := Replace(s, k, i, tx');
    var place := Some((s[k], tx));
    var h' := Registered(h, x, final, place);
    RegisterUnretainedKeeps(o, s, h, x, final, place);
    forall l, j | At(t, l, j) ensures TxnOk(o, h', t[l], t[l].txns[j]) {
      assert At(s, l, j);
      if l == k && j == i {
        RegisteredTxn(o, h, s[k], tx, x, final);
        TxnSession(o, h', s[k], t[k], tx');
      } else {
        TxnSession(o, h', s[l], t[l], s[l].txns[j]);
      }
    }
    RegisterDistinct(o, s, h, k, i, x, final);
  }

  lemma RegisteredTxn(o: Options, h: History, st: Session, tx: Transaction, x: EventId, final: bool)
    requires TxnOk(o, h, st, tx) && LogOk(o, h, x)
    ensures TxnOk(o, Registered(h, x, final, Some((st, tx))), st, tx.(events := tx.events[x := 1]))
  {
    hide EventOk, LogOk, SideOk, LogOf;
    var place := Some((st, tx));
    var h' := Registered(h, x, final, place);
    var tx' := tx.(events := tx.events[x := 1]);
    RegisterOthers(o, h, x, final, place, st, tx);
    NewlyRetained(o, h, st, tx, x, final);
    forall y | y in tx'.events && y != x ensures EventOk(h', tx', y) {
      assert EventOk(h', tx, y);
      EventSame(h', tx, tx', y);
    }
  }

  lemma EventSame(h: History, tx: Transaction, tx': Transaction, y: EventId)
    requires EventOk(h, tx, y) && y in tx.events && y in tx'.events && tx'.events[y] == tx.events[y]
    requires tx'.final == tx.final && tx'.lastRevise == tx.lastRevise
    ensures EventOk(h, tx', y)
  {
  }

  lemma NewlyRetained(o: Options, h: History, st: Session, tx: Transaction, x: EventId, final: bool)
    requires LogOk(o, h, x)
    ensures EventOk(Registered(h, x, final, Some((st, tx))), tx.(events := tx.events[x := 1]), x)
  {
    var h' := Registered(h, x, final, Some((st, tx)));
    var tx' := tx.(events := tx.events[x := 1]);
    LogOfAppend(h.log, map[x := Registration(final)], x);
    if !h'.doubled {
      assert LogOf(h.log, x) == [] && x !in h.stale;
      assert LogOf(h'.log, x) == [Registration(final)];
      hide LogOf, LogOk;
      assert x in h'.stale <==> final && !tx.final;
      assert Retained([Registration(final)], tx', x, x in h'.stale);
    }
  }

  lemma RegisterDistinct(o: Options, s: Sessions, h: History, k: Key, i: nat, x: EventId, final: bool)
    requires Inv(o, s, h) && At(s, k, i)
    ensures var tx := s[k].txns[i];
      Distinct(Replace(s, k, i, tx.(events := tx.events[x := 1])), Registered(h, x, final, Some((s[k], tx))))
  {
    hide LogOk, SideOk;
    var tx := s[k].txns[i];
    var t := Replace(s, k, i, tx.(events := tx.events[x := 1]));
    forall l, j, y | Retains(t, l, j, y) && !(l == k && j == i && y == x) ensures Retains(s, l, j, y) && y in h.registered {
      assert TxnOk(o, h, s[l], s[l].txns[j]);
      assert EventOk(h, s[l].txns[j], y);
    }
    forall l, j, d | Named(t, l, j, d) ensures Named(s, l, j, d) {
    }
  }

  // ---------------------------------------------------------------- what a run has emitted

  /** The revisions emitted for an event are 1, 2, ..., k in order, the first by Register and the rest as
      updates. They revert from final to not final exactly if the event was registered as final with a
      transaction that was not, and was revised before that one closed; such a transaction had an
      identity that was handed out twice. */
  lemma EmittedRevisions(o: Options, s: Sessions, h: History, x: EventId)
    requires Inv(o, s, h) && !h.doubled
    ensures var log := LogOf(h.log, x);
      && (forall n :: 0 <= n < |log| ==> log[n].revision == n + 1 && (log[n].update <==> n > 0))
      && (Reverts(log) <==> x in h.stale && |log| > 1 && !log[1].final)
      && (x in h.stale ==> h.stale[x] in h.shared)
  {
    hide LogOf;
    assert LogOk(o, h, x);
    var log := LogOf(h.log, x);
    if x in h.stale && |log| > 1 && !log[1].final {
      assert log[0].final;
    }
  }

  /** Updates keep their distance: from the m-th to the n-th update of an event, the latter not final, at
      least n - m intervals pass, if the times of the updates from m on are not zero and do not go
      back. Nothing is asked of other events or sessions. */
  lemma {:induction false} UpdatesApart(o: Options, s: Sessions, h: History, x: EventId, m: nat, n: nat)
    requires Inv(o, s, h) && !h.doubled
    requires var log := LogOf(h.log, x);
      && 0 < m <= n < |log| && !log[n].final
      && forall i :: m <= i < n ==> 0 < log[i].time <= log[i + 1].time
    ensures LogOf(h.log, x)[n].time >= LogOf(h.log, x)[m].time + (n - m) * o.revisionInterval
    decreases n - m
  {
    hide LogOf;
    assert LogOk(o, h, x);
    var log := LogOf(h.log, x);
    if m < n {
      assert !log[n - 1].final;
      UpdatesApart(o, s, h, x, m, n - 1);
      assert log[n - 1 + 1].time >= log[n - 1].time + o.revisionInterval;
      assert (n - m) * o.revisionInterval == (n - 1 - m) * o.revisionInterval + o.revisionInterval;
    }
  }
}

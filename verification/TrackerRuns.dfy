/** Two runs of the tracker, packet by packet, that show what its promises leave open. */
module TrackerRuns {
  import opened Basics
  import opened Revisions
  import opened Routing
  import opened Exchanges
  import opened Tracking

  /** One conversation: its key and its client. */
  datatype Talk = Talk(key: Key, client: Endpoint, server: Endpoint)

  const BYTE: Bytes := [65]

  function Syn(c: Talk, time: nat): Packet {
    Packet(c.key, time, true, false, false, false, Other, c.client, c.server, R.Packet(0, true, [], 0, 0))
  }

  function Ask(c: Talk, time: nat, fin: bool): Packet {
    Packet(c.key, time, true, true, fin, false, Request, c.client, c.server, R.Packet(1, false, BYTE, 0, 0))
  }

  /** More data from the client. */
  function More(c: Talk, time: nat): Packet {
    Packet(c.key, time, true, true, false, false, Other, c.client, c.server, R.Packet(2, false, BYTE, 0, 0))
  }

  /** The one transaction of the session, open and unanswered; `last` is the time of its last update and
      `events` are those it retains. */
  ghost predicate IsAsked(st: Session, c: Talk, id: (Bytes, Bytes), last: nat, events: set<EventId>) {
    && st.client == c.client && |st.txns| == 1
    && var tx := st.txns[0];
       Identity(st, tx) == id && !tx.final && tx.response.packetCount == 0 && tx.lastRevise == last && tx.events.Keys == events
  }

  /** It is in the one session of the tracker. */
  ghost predicate Asked(t: Tracker, c: Talk, id: (Bytes, Bytes), last: nat, events: set<EventId>)
    reads t
  {
    t.sessions.Keys == {c.key} && IsAsked(t.sessions[c.key], c, id, last, events)
  }

  /** An update at `time` is not held back by one at `last`. */
  predicate Free(o: Options, last: nat, time: nat) {
    last == 0 || (time - last) % TIME_MODULUS >= o.revisionInterval
  }

  function FirstId(o: Options, c: Talk, time: nat): (Bytes, Bytes) {
    var sid := o.sessionId(c.key, time);
    (sid, o.transactionId(sid, 1))
  }

  /** A SYN in a tracker with no other conversation leaves one new session. */
  method SendSyn(t: Tracker, c: Talk, time: nat)
    requires t.Valid() && t.Recorded() && t.sessions.Keys <= {c.key} && time > 0 && (t.lastCleanup == 0 || t.lastCleanup == time)
    modifies t
    ensures t.Valid() && t.Recorded() && t.sessions == map[c.key := NewSession(t.o, Syn(c, time))]
    ensures t.lastCleanup == time && t.h.registered == old(t.h.registered) && t.h.doubled == old(t.h.doubled)
    ensures old(t.h.finals) <= t.h.finals && t.h.stale == old(t.h.stale)
  {
    hide Inv, Bounded, AllTraced, Follows, Observed, Located, Swept, FoundRecord, ClientAfter, Stamped, NewSession;
    var p := Syn(c, time);
    InvSensible(t.o, t.sessions, t.h);
    ghost var s := t.sessions;
    assert Due(t.lastCleanup, time) ==> t.lastCleanup == 0;
    var obs, updates, found, early, _ := t.Observe(p);
    SynLocated(t.o, s, old(t.lastCleanup), c, time, t.sessions, found);
    SynObserved(t.o, found, c, time, t.sessions[c.key], early, updates, obs);
  }

  lemma SynLocated(o: Options, s: Sessions, lastCleanup: nat, c: Talk, time: nat, t: Sessions, found: Session)
    requires Sensible(o) && s.Keys <= {c.key} && c.key in t
    requires Located(o, Swept(o, s, lastCleanup, time), Syn(c, time), t[c.key := found])
    ensures found == NewSession(o, Syn(c, time)) && t == map[c.key := t[c.key]]
  {
    hide NewSession, Due, Overdue, Tidied;
    var swept := Swept(o, s, lastCleanup, time);
    assert swept - {c.key} == map[];
    OneSession(t, c.key, found, NewSession(o, Syn(c, time)));
  }

  lemma SynObserved(o: Options, found: Session, c: Talk, time: nat, st': Session, early: seq<Batch>, updates: seq<Batch>, obs: Observation)
    requires found == NewSession(o, Syn(c, time)) && Observed(o, found, Syn(c, time), st', early, updates, obs)
    ensures st' == found
  {
  }

  lemma OneSession(s: Sessions, k: Key, found: Session, st: Session)
    requires k in s && s[k := found] == map[k := st]
    ensures s == map[k := s[k]] && found == st
  {
    assert s[k := found].Keys == s.Keys;
    assert s[k := found][k] == found;
  }

  /** A request in a new session; with FIN it is answered by a final observation. */
  method SendRequest(t: Tracker, c: Talk, time: nat, fin: bool) returns (obs: Observation)
    requires t.Valid() && t.Recorded() && t.lastCleanup == time > 0
    requires t.sessions == map[c.key := NewSession(t.o, Syn(c, time))]
    modifies t
    ensures t.Valid() && t.Recorded() && t.lastCleanup == time && t.sessions.Keys == {c.key}
    ensures t.h.registered == old(t.h.registered) && t.h.doubled == old(t.h.doubled) && t.h.stale == old(t.h.stale)
    ensures old(t.h.finals) <= t.h.finals && FromTracker(t.h, obs)
    ensures obs == Observation(FirstId(t.o, c, time).0, Some(FirstId(t.o, c, time).1), fin)
    ensures !fin ==> Asked(t, c, FirstId(t.o, c, time), 0, {})
  {
    hide Inv, Bounded, Observed, AllTraced, Follows, Located, Swept, Due, FoundRecord, ClientAfter, Stamped, NewSession, IsAsked;
    var p := Ask(c, time, fin);
    InvSensible(t.o, t.sessions, t.h);
    JustSwept(time);
    ghost var s := t.sessions;
    ghost var updates, found, early, place;
    obs, updates, found, early, place := t.Observe(p);
    FoundAsIs(t.o, s, time, p, t.sessions, found);
    RequestObserved(t.o, c, time, fin, t.sessions[c.key], early, updates, obs);
  }

  lemma JustSwept(time: nat)
    requires time > 0
    ensures !Due(time, time)
  {
  }

  lemma RequestObserved(o: Options, c: Talk, time: nat, fin: bool, st': Session, early: seq<Batch>, updates: seq<Batch>, obs: Observation)
    requires Sensible(o) && Observed(o, NewSession(o, Syn(c, time)), Ask(c, time, fin), st', early, updates, obs)
    ensures obs == Observation(FirstId(o, c, time).0, Some(FirstId(o, c, time).1), fin)
    ensures !fin ==> IsAsked(st', c, FirstId(o, c, time), 0, {})
  {
    hide AppendSide;
  }

  /** More data from the client revises the transaction unless it is held back. */
  method SendMore(t: Tracker, c: Talk, time: nat, id: (Bytes, Bytes), ghost last: nat, ghost x: EventId)
    requires t.Valid() && t.Recorded() && !Due(t.lastCleanup, time) && Asked(t, c, id, last, {x}) && c.client != []
    requires !t.h.doubled && Free(t.o, last, time)
    modifies t
    ensures t.Valid() && t.Recorded() && Asked(t, c, id, time, {x}) && t.lastCleanup == old(t.lastCleanup) && !t.h.doubled
    ensures LogOf(t.h.log, x) == LogOf(old(t.h.log), x) + [Emit(|LogOf(old(t.h.log), x)| + 1, false, time, true)]
  {
    hide Inv, Bounded, LogOf, Observed, Located, Swept, Due, IsAsked, Free, AllTraced, Follows, FoundRecord, ClientAfter, Stamped;
    var p := More(c, time);
    ghost var s, st, log := t.sessions, t.sessions[c.key], t.h.log;
    AskedTxn(st, c, id, last, {x});
    RetainedCount(t.o, s, t.h, c.key, 0, x);
    ghost var obs, updates, found, early, place;
    obs, updates, found, early, place := t.Observe(p);
    FoundAsIs(t.o, s, old(t.lastCleanup), p, t.sessions, found);
    MoreObserved(t.o, st, c, time, id, last, t.sessions[c.key], updates, obs, x);
    LogOfAppend(log, updates[0], x);
    assert updates == [updates[0]];
  }

  lemma AskedTxn(st: Session, c: Talk, id: (Bytes, Bytes), last: nat, events: set<EventId>)
    requires IsAsked(st, c, id, last, events)
    ensures |st.txns| == 1 && Identity(st, st.txns[0]) == id && st.txns[0].events.Keys == events
  {
  }

  lemma NotLogged(o: Options, s: Sessions, h: History, x: EventId)
    requires Inv(o, s, h) && x !in h.registered
    ensures LogOf(h.log, x) == []
  {
    assert LogOk(o, h, x);
  }

  lemma RetainedCount(o: Options, s: Sessions, h: History, k: Key, i: nat, x: EventId)
    requires Inv(o, s, h) && !h.doubled && At(s, k, i) && x in s[k].txns[i].events
    ensures s[k].txns[i].events[x] == |LogOf(h.log, x)|
  {
    hide LogOf, LogOk;
    assert TxnOk(o, h, s[k], s[k].txns[i]);
    assert EventOk(h, s[k].txns[i], x);
  }

  lemma FoundAsIs(o: Options, s: Sessions, lastCleanup: nat, p: Packet, t: Sessions, found: Session)
    requires p.key in s && p.key in t && !Opens(p) && !Due(lastCleanup, p.time)
    requires Located(o, Swept(o, s, lastCleanup, p.time), p, t[p.key := found])
    ensures found == s[p.key] && t == s[p.key := t[p.key]]
  {
    assert t[p.key := found] == s;
    assert t[p.key := found][p.key] == found;
    assert t.Keys == t[p.key := found].Keys;
  }

  lemma MoreObserved(o: Options, st: Session, c: Talk, time: nat, id: (Bytes, Bytes), last: nat, st': Session, updates: seq<Batch>, obs: Observation, x: EventId)
    requires Observed(o, st, More(c, time), st', [], updates, obs)
    requires c.client != [] && IsAsked(st, c, id, last, {x}) && Free(o, last, time)
    ensures IsAsked(st', c, id, time, {x})
    ensures |updates| == 1 && x in updates[0] && updates[0][x] == Emit(st.txns[0].events[x] + 1, false, time, true)
  {
    hide AppendSide;
    assert !Throttled(o, st.txns[0].(lastUsec := time));
    hide Throttled;
    var seen := st.(lastUsec := Max(st.lastUsec, time));
    assert LastUnanswered(seen.txns, 1) == 0;
    assert ContinuationIndex(seen, c.client) == 0;
    var tx := Absorbed(o, seen.txns[0], false, More(c, time).segment);
    assert Filed(o, seen, More(c, time)) == (seen.(txns := seen.txns[0 := tx]), 0);
    assert updates[0..] == updates;
  }

  /** Finality can revert. A request with FIN is observed as final; the client opens the conversation
      again within the same microsecond, so that session and transaction get the same ids; the first
      observation is registered only now, with the second transaction, which is open; and more data
      revises the event. The options, the ids and the event are arbitrary. */
  method RevertingRun(o: Options, c: Talk, x: EventId) returns (t: Tracker)
    requires Sensible(o) && c.client != []
    ensures fresh(t) && t.Valid() && t.Recorded() && !t.h.doubled && Reverts(LogOf(t.h.log, x))
  {
    hide Inv, Bounded, LogOf, Asked;
    t := new Tracker(o);
    var id := FirstId(o, c, 1);
    SendSyn(t, c, 1);
    var early := SendRequest(t, c, 1, true);
    SendSyn(t, c, 1);
    var late := SendRequest(t, c, 1, false);
    RegisterFirst(t, c, id, early, x);
    SendMore(t, c, 2, id, 0, x);
    assert LogOf(t.h.log, x)[0].final && !LogOf(t.h.log, x)[1].final;
  }

  /** Registers an event with the one transaction there is. */
  method RegisterFirst(t: Tracker, c: Talk, id: (Bytes, Bytes), obs: Observation, x: EventId)
    requires t.Valid() && t.Recorded() && Asked(t, c, id, 0, {}) && FromTracker(t.h, obs) && x !in t.h.registered && !t.h.doubled
    requires (obs.sessionId, obs.transactionId) == (id.0, Some(id.1))
    modifies t
    ensures t.Valid() && t.Recorded() && Asked(t, c, id, 0, {x}) && !t.h.doubled && t.lastCleanup == old(t.lastCleanup)
    ensures LogOf(t.h.log, x) == [Registration(obs.final)]
  {
    hide Inv, Bounded, LogOf, IsAsked, RetainedAt, AllTraced;
    ghost var s, log := t.sessions, t.h.log;
    NotLogged(t.o, s, t.h, x);
    AskedTxn(s[c.key], c, id, 0, {});
    assert Named(s, c.key, 0, id);
    var _, _, place := t.Register(obs, x);
    RetainedHere(s, t.sessions, c, id, obs, x, place);
    LogOfAppend(log, map[x := Registration(obs.final)], x);
  }

  lemma RetainedHere(s: Sessions, t: Sessions, c: Talk, id: (Bytes, Bytes), obs: Observation, x: EventId, place: Option<(Key, nat)>)
    requires s.Keys == t.Keys == {c.key} && IsAsked(s[c.key], c, id, 0, {})
    requires (obs.sessionId, obs.transactionId) == (id.0, Some(id.1))
    requires place.Some? && RetainedAt(s, t, obs, x, place.value.0, place.value.1)
    ensures IsAsked(t[c.key], c, id, 0, {x})
  {
  }

  /** The pause between updates can be defeated: after an update at time 100, data with time 0 and then
      with time 101 both give one. */
  method ZeroTimeRun(o: Options, c: Talk, x: EventId) returns (t: Tracker)
    requires Sensible(o) && c.client != [] && o.revisionInterval <= TIME_MODULUS - 100
    ensures fresh(t) && t.Valid() && t.Recorded() && !t.h.doubled
    ensures LogOf(t.h.log, x) == [Registration(false), Emit(2, false, 100, true), Emit(3, false, 0, true), Emit(4, false, 101, true)]
  {
    hide Inv, Bounded, LogOf, Asked;
    t := new Tracker(o);
    var id := FirstId(o, c, 100);
    SendSyn(t, c, 100);
    var obs := SendRequest(t, c, 100, false);
    RegisterFirst(t, c, id, obs, x);
    SendMore(t, c, 100, id, 0, x);
    assert (0 - 100) % TIME_MODULUS == TIME_MODULUS - 100;
    SendMore(t, c, 0, id, 100, x);
    SendMore(t, c, 101, id, 0, x);
  }
}

/** The tracker as a program: Observe, Register and Flush of internal/correlation/tracker.go over a
    map of sessions updated in place. Go iterates over its maps in no particular order; the loops
    here pick keys arbitrarily. */
module Tracking {
  import opened Basics
  import opened Revisions
  import opened Routing
  import opened Exchanges

  /** What Observe hands to Register. */
  datatype Observation = Observation(sessionId: Bytes, transactionId: Option<Bytes>, final: bool)

  // ---------------------------------------------------------------- lemmas about logs

  ghost predicate Held(s: Sessions, x: EventId) {
    exists k, i :: Retains(s, k, i, x)
  }

  /** `log'` has one more entry for the event: the next revision, final. */
  ghost predicate OneMoreFinal(log: seq<Emit>, log': seq<Emit>) {
    && |log'| == |log| + 1 && log'[..|log|] == log
    && log'[|log|].final && log'[|log|].update && log'[|log|].revision == |log'|
  }

  lemma {:induction false} LogOfSilent(log: seq<Batch>, bs: seq<Batch>, x: EventId)
    requires forall i :: 0 <= i < |bs| ==> x !in bs[i]
    ensures LogOf(log + bs, x) == LogOf(log, x)
    decreases |bs|
  {
    if bs == [] {
      assert log + bs == log;
    } else {
      var n := |bs| - 1;
      assert log + bs == (log + bs[..n]) + [bs[n]];
      LogOfSilent(log, bs[..n], x);
      LogOfAppend(log + bs[..n], bs[n], x);
    }
  }

  lemma LogOfOnce(log: seq<Batch>, bs: seq<Batch>, i: nat, x: EventId)
    requires i < |bs| && x in bs[i]
    requires forall j :: 0 <= j < |bs| && j != i ==> x !in bs[j]
    ensures LogOf(log + bs, x) == LogOf(log, x) + [bs[i][x]]
  {
    hide LogOf;
    var before, after := bs[..i], bs[i + 1..];
    forall j | 0 <= j < |after| ensures x !in after[j] {
      assert after[j] == bs[j + i + 1];
    }
    LogOfSilent(log, before, x);
    LogOfAppend(log + before, bs[i], x);
    LogOfSilent(log + before + [bs[i]], after, x);
    assert log + bs == (log + before + [bs[i]]) + after;
  }

  // ---------------------------------------------------------------- finalizing a session

  /** All that is emitted is final, or else is of the given time. */
  ghost predicate Stamped(batches: seq<Batch>, time: nat) {
    forall b: Batch, x :: b in batches && x in b ==> b[x].final || b[x].time == time
  }

  lemma ClosedStamped(o: Options, st: Session, st': Session, batches: seq<Batch>, time: nat)
    requires SessionClosed(o, st, st', batches)
    ensures Stamped(batches, time)
  {
  }

  lemma ClosedTxnStamped(o: Options, tx: Transaction, time: nat)
    ensures Stamped([Closed(o, tx).1], time)
  {
  }

  lemma StampedTogether(a: seq<Batch>, b: seq<Batch>, time: nat)
    requires Stamped(a, time) && Stamped(b, time)
    ensures Stamped(a + b, time)
  {
  }

  /** Closing a session emits exactly one more, final revision of each event it retains. */
  lemma CloseEmits(o: Options, s: Sessions, h: History, k: Key, st': Session, batches: seq<Batch>, x: EventId)
    requires Inv(o, s, h) && !h.doubled && k in s && SessionClosed(o, s[k], st', batches)
    ensures (exists i :: Retains(s, k, i, x)) ==> OneMoreFinal(LogOf(h.log, x), LogOf(h.log + batches, x))
    ensures !(exists i :: Retains(s, k, i, x)) ==> LogOf(h.log + batches, x) == LogOf(h.log, x)
  {
    if i :| Retains(s, k, i, x) {
      forall j | 0 <= j < |batches| && j != i ensures x !in batches[j] {
        RetainedOnce(s, h, k, i, k, j);
      }
      assert TxnOk(o, h, s[k], s[k].txns[i]);
      assert EventOk(h, s[k].txns[i], x);
      LogOfOnce(h.log, batches, i, x);
    } else {
      forall j | 0 <= j < |batches| ensures x !in batches[j] {
        assert !Retains(s, k, j, x);
      }
      LogOfSilent(h.log, batches, x);
    }
  }

  /** Flushing so far: `s` is what is left of `s0`. */
  ghost predicate FlushedTo(s0: Sessions, log0: seq<Batch>, s: Sessions, log: seq<Batch>, x: EventId) {
    if Held(s0, x) && !Held(s, x) then OneMoreFinal(LogOf(log0, x), LogOf(log, x))
    else LogOf(log, x) == LogOf(log0, x)
  }

  lemma FlushStep(o: Options, s0: Sessions, log0: seq<Batch>, s: Sessions, h: History, k: Key, st': Session, batches: seq<Batch>, x: EventId)
    requires Inv(o, s, h) && !h.doubled && k in s && SessionClosed(o, s[k], st', batches)
    requires forall l :: l in s ==> l in s0 && s[l] == s0[l]
    requires FlushedTo(s0, log0, s, h.log, x)
    ensures FlushedTo(s0, log0, s - {k}, h.log + batches, x)
  {
    hide Inv, LogOf, SessionClosed;
    CloseEmits(o, s, h, k, st', batches, x);
    if i :| Retains(s, k, i, x) {
      assert Retains(s0, k, i, x);
      HeldNowhereElse(o, s, h, k, i, x);
      assert Held(s, x);
    } else {
      assert Held(s - {k}, x) <==> Held(s, x) by {
        if l, j :| Retains(s, l, j, x) {
          assert l != k;
          assert Retains(s - {k}, l, j, x);
        }
        if l, j :| Retains(s - {k}, l, j, x) {
          assert Retains(s, l, j, x);
        }
      }
    }
  }

  lemma HeldNowhereElse(o: Options, s: Sessions, h: History, k: Key, i: int, x: EventId)
    requires Inv(o, s, h) && !h.doubled && Retains(s, k, i, x)
    ensures !Held(s - {k}, x)
  {
    hide TxnOk, LogOk;
    forall l, j ensures !Retains(s - {k}, l, j, x) {
      assert Retains(s - {k}, l, j, x) ==> Retains(s, l, j, x);
    }
  }

  // ---------------------------------------------------------------- one packet on one side

  lemma AppendSideOk(o: Options, side: Side, p: R.Packet)
    requires Sensible(o) && SideOk(o, side)
    ensures SideOk(o, AppendSide(o, side, p))
  {
    hide R.Reassemble;
    var w := Snapped(side.window, p);
    assert R.Shaped(o.window, w);
    R.ReassembleShaped(o.window, w, p);
  }

  // ---------------------------------------------------------------- the tracker

  class Tracker {
    const o: Options
    var sessions: Sessions
    var lastCleanup: nat
    /** Everything emitted and every irregularity met so far. */
    ghost var h: History
    /** The segments filed with each transaction. */
    ghost var traffic: map<Key, Record>

    ghost predicate Valid()
      reads this
    {
      Inv(o, sessions, h) && Bounded(o, sessions)
    }

    /** The windows of every transaction are those of the segments filed with it. */
    ghost predicate Recorded()
      reads this
    {
      AllTraced(o, sessions, traffic)
    }

    constructor (o: Options)
      requires Sensible(o)
      ensures Valid() && Recorded() && sessions == map[] && lastCleanup == 0 && h == NO_HISTORY && this.o == o
    {
      this.o, this.sessions, this.lastCleanup, this.h, this.traffic := o, map[], 0, NO_HISTORY, map[];
    }

    /** Emissions and newly final transactions are all that a step adds to the history. */
    twostate predicate OnlyEmits(batches: seq<Batch>)
      reads this
    {
      h == old(h).(log := old(h).log + batches, finals := h.finals) && old(h).finals <= h.finals
    }

    /** reviseTransaction on the transaction at a place. */
    method ReviseTransaction(k: Key, i: nat) returns (batch: Batch)
      requires Valid() && At(sessions, k, i)
      modifies this`sessions, this`h
      ensures Valid() && OnlyEmits([batch])
      ensures h.finals == old(h).finals
      ensures sessions == Replace(old(sessions), k, i, Revise(o, old(sessions)[k].txns[i]).0)
      ensures batch == Revise(o, old(sessions)[k].txns[i]).1
    {
      hide Inv, Revise;
      ReviseKeeps(o, sessions, h, k, i);
      var tx;
      tx, batch := Revise(o, sessions[k].txns[i]).0, Revise(o, sessions[k].txns[i]).1;
      sessions := Replace(sessions, k, i, tx);
      h := h.(log := h.log + [batch]);
    }

    /** Stores new sides, a later time or the final flag. */
    method Amend(k: Key, i: nat, tx: Transaction)
      requires Valid() && At(sessions, k, i) && Amends(o, sessions[k].txns[i], tx)
      modifies this`sessions, this`h
      ensures Valid() && OnlyEmits([])
      ensures sessions == Replace(old(sessions), k, i, tx)
      ensures tx.final ==> Identity(sessions[k], tx) in h.finals
    {
      hide Inv, Amends;
      AmendKeeps(o, sessions, h, k, i, tx);
      h := Noted(h, sessions[k], tx);
      sessions := Replace(sessions, k, i, tx);
      assert old(h).log + [] == old(h).log;
    }

    /** Marks the transaction final and emits its events once more. */
    method Close(k: Key, i: nat) returns (batch: Batch)
      requires Valid() && At(sessions, k, i)
      modifies this`sessions, this`h
      ensures Valid() && OnlyEmits([batch])
      ensures sessions == Replace(old(sessions), k, i, Closed(o, old(sessions)[k].txns[i]).0)
      ensures batch == Closed(o, old(sessions)[k].txns[i]).1
    {
      hide LogOk, Revise, Distinct, SideOk, EventOk;
      assert TxnOk(o, h, sessions[k], sessions[k].txns[i]);
      var tx := sessions[k].txns[i].(final := true);
      Amend(k, i, tx);
      batch := ReviseTransaction(k, i);
      ReplaceTwice(old(sessions), k, i, tx, Revise(o, tx).0);
    }

    /** finalizeSession. */
    method FinalizeSession(k: Key) returns (batches: seq<Batch>)
      requires Valid() && k in sessions
      modifies this`sessions, this`h
      ensures Valid() && OnlyEmits(batches)
      ensures k in sessions && sessions == old(sessions)[k := sessions[k]]
      ensures SessionClosed(o, old(sessions)[k], sessions[k], batches)
    {
      hide Inv, Closed;
      batches := [];
      ghost var st := sessions[k];
      for i := 0 to |sessions[k].txns|
        invariant Valid() && OnlyEmits(batches) && |batches| == i
        invariant k in sessions && sessions == old(sessions)[k := sessions[k]]
        invariant sessions[k] == st.(txns := sessions[k].txns) && |sessions[k].txns| == |st.txns|
        invariant forall j :: 0 <= j < i ==> sessions[k].txns[j] == Closed(o, st.txns[j]).0 && batches[j] == Closed(o, st.txns[j]).1
        invariant forall j :: i <= j < |st.txns| ==> sessions[k].txns[j] == st.txns[j]
      {
        var batch := Close(k, i);
        batches := batches + [batch];
      }
    }

    /** Finalizes a session and forgets it. */
    method Evict(k: Key) returns (batches: seq<Batch>, ghost st: Session)
      requires Valid() && k in sessions
      modifies this`sessions, this`h
      ensures Valid() && OnlyEmits(batches)
      ensures sessions == old(sessions) - {k} && |sessions| == |old(sessions)| - 1
      ensures SessionClosed(o, old(sessions)[k], st, batches)
    {
      hide Inv, SessionClosed;
      batches := FinalizeSession(k);
      st := sessions[k];
      DropSessionKeeps(o, sessions, h, k);
      assert sessions - {k} == old(sessions) - {k};
      sessions := sessions - {k};
      FewerSessions(o, old(sessions), k);
    }

    /** Flush: the tracker ends empty, and every event still held has had exactly one more
        revision emitted, its final one. */
    method Flush() returns (batches: seq<Batch>)
      requires Valid()
      modifies this`sessions, this`h, this`traffic
      ensures Valid() && Recorded() && OnlyEmits(batches)
      ensures sessions == map[]
      ensures !h.doubled ==> forall x :: FlushOf(old(sessions), old(h).log, h.log, x)
    {
      hide Inv, FlushedTo, SessionClosed, Bounded, AllTraced;
      batches := [];
      FlushStart(sessions, h.log);
      while sessions != map[]
        invariant Valid() && OnlyEmits(batches)
        invariant forall k :: k in sessions ==> k in old(sessions) && sessions[k] == old(sessions)[k]
        invariant !h.doubled ==> forall x :: FlushedTo(old(sessions), old(h).log, sessions, h.log, x)
        decreases |sessions|
      {
        assert sessions.Keys != {};
        var k :| k in sessions;
        ghost var s, g := sessions, h;
        var closed, st := Evict(k);
        forall x | !h.doubled ensures FlushedTo(old(sessions), old(h).log, s - {k}, g.log + closed, x) {
          FlushStep(o, old(sessions), old(h).log, s, g, k, st, closed, x);
        }
        batches := batches + closed;
      }
      traffic := map[];
      NothingRecorded(o);
      if !h.doubled {
        forall x ensures FlushOf(old(sessions), old(h).log, h.log, x) {
          FlushDone(old(sessions), old(h).log, h.log, x);
        }
      }
    }

    // -------------------------------------------------------------- cleanup

    /** Gives up waiting in one session, and on the session itself once it is idle. */
    method CleanupSession(k: Key, now: nat) returns (batches: seq<Batch>)
      requires Valid() && k in sessions
      modifies this`sessions, this`h
      ensures Valid() && OnlyEmits(batches) && Stamped(batches, now)
      ensures sessions == if Overdue(now, old(sessions)[k].lastUsec, o.idleTimeout) then old(sessions) - {k}
                          else old(sessions)[k := Tidied(o, old(sessions)[k], now)]
    {
      hide Inv, Stamped, TidiedTxn, Bounded;
      batches := TidySession(k, now);
      if Overdue(now, sessions[k].lastUsec, o.idleTimeout) {
        var closed := GiveUp(k, now);
        StampedTogether(batches, closed, now);
        batches := batches + closed;
        assert old(sessions)[k := Tidied(o, old(sessions)[k], now)] - {k} == old(sessions) - {k};
      }
    }

    method TidySession(k: Key, now: nat) returns (batches: seq<Batch>)
      requires Valid() && k in sessions
      modifies this`sessions, this`h
      ensures Valid() && OnlyEmits(batches) && Stamped(batches, now)
      ensures sessions == old(sessions)[k := Tidied(o, old(sessions)[k], now)]
    {
      hide Inv, Closed, Stamped, Overdue, Bounded;
      batches := [];
      NothingStamped(now);
      ghost var st := sessions[k];
      assert sessions[k].txns == TidiedTxns(o, st.txns, 0, now);
      for i := 0 to |sessions[k].txns|
        invariant Valid() && OnlyEmits(batches) && Stamped(batches, now)
        invariant k in sessions && sessions == old(sessions)[k := st.(txns := TidiedTxns(o, st.txns, i, now))]
      {
        if !sessions[k].txns[i].final && Overdue(now, sessions[k].txns[i].lastUsec, o.responseWait) {
          ClosedTxnStamped(o, sessions[k].txns[i], now);
          var batch := Close(k, i);
          StampedTogether(batches, [batch], now);
          batches := batches + [batch];
        }
        TidiedNext(o, st.txns, i, now);
        assert sessions[k].txns == TidiedTxns(o, st.txns, i + 1, now);
      }
      assert Tidied(o, st, now).txns == TidiedTxns(o, st.txns, |st.txns|, now);
    }

    method GiveUp(k: Key, now: nat) returns (batches: seq<Batch>)
      requires Valid() && k in sessions
      modifies this`sessions, this`h
      ensures Valid() && OnlyEmits(batches) && Stamped(batches, now)
      ensures sessions == old(sessions) - {k}
    {
      hide Inv, SessionClosed, Bounded;
      var closed, gone := Evict(k);
      batches := closed;
      ClosedStamped(o, old(sessions)[k], gone, batches, now);
    }

    /** cleanupLocked: at most once a second of packet time. */
    method Cleanup(now: nat) returns (batches: seq<Batch>)
      requires Valid()
      modifies this`sessions, this`h, this`lastCleanup
      ensures Valid() && OnlyEmits(batches) && Stamped(batches, now)
      ensures sessions == Swept(o, old(sessions), old(lastCleanup), now)
      ensures lastCleanup == if Due(old(lastCleanup), now) then now else old(lastCleanup)
      ensures !Due(old(lastCleanup), now) ==> batches == []
    {
      hide Inv, Tidied, Stamped, Bounded;
      batches := [];
      NothingStamped(now);
      if !Due(lastCleanup, now) {
        assert h.log + [] == h.log;
        return;
      }
      lastCleanup := now;
      var todo := sessions.Keys;
      while todo != {}
        invariant Valid() && OnlyEmits(batches) && Stamped(batches, now) && lastCleanup == now
        invariant todo <= sessions.Keys <= old(sessions).Keys
        invariant forall k :: k in todo ==> sessions[k] == old(sessions)[k]
        invariant forall k :: k in old(sessions) && k !in todo ==> (k in sessions <==> !Overdue(now, old(sessions)[k].lastUsec, o.idleTimeout))
        invariant forall k :: k in sessions && k !in todo ==> sessions[k] == Tidied(o, old(sessions)[k], now)
        decreases todo
      {
        var k :| k in todo;
        todo := todo - {k};
        var more := CleanupSession(k, now);
        StampedTogether(batches, more, now);
        batches := batches + more;
      }
      assert sessions == Swept(o, old(sessions), old(lastCleanup), now);
    }

    // -------------------------------------------------------------- transactions

    /** newTransaction: makes room by dropping the first final transaction, or else the oldest. */
    method StartTransaction(k: Key, usec: nat) returns (i: nat)
      requires Valid() && k in sessions
      modifies this`sessions, this`h
      ensures Valid() && At(sessions, k, i) && Quiet(k)
      ensures sessions == old(sessions)[k := Appended(o, Trimmed(o, old(sessions)[k]), usec)]
      ensures i == |sessions[k].txns| - 1
      ensures h == Created(old(h), Identity(sessions[k], sessions[k].txns[i]))
    {
      hide Inv, NewTransaction;
      if |sessions[k].txns| >= o.maxTransactions {
        var g := 0;
        while g < |sessions[k].txns| && !sessions[k].txns[g].final
          invariant 0 <= g <= |sessions[k].txns|
          invariant forall j :: 0 <= j < g ==> !sessions[k].txns[j].final
        {
          g := g + 1;
        }
        if g == |sessions[k].txns| {
          g := 0;
        }
        assert g == FirstFinal(sessions[k].txns);
        assert o.maxTransactions > 0 by { InvSensible(o, sessions, h); }
        DropTransactionKeeps(o, sessions, h, k, g);
        sessions := sessions[k := sessions[k].(txns := Removed(sessions[k].txns, g))];
      }
      assert sessions[k] == Trimmed(o, old(sessions)[k]);
      NewTransactionKeeps(o, sessions, h, k, usec);
      h := Created(h, Identity(sessions[k], NewTransaction(o, sessions[k], usec)));
      sessions := sessions[k := Appended(o, sessions[k], usec)];
      i := |sessions[k].txns| - 1;
    }

    /** The first transaction that is not final, |txns| if all are. */
    method FirstOpen(k: Key) returns (i: nat)
      requires k in sessions
      ensures i == OpenIndex(sessions[k].txns) <= |sessions[k].txns|
    {
      i := 0;
      while i < |sessions[k].txns| && sessions[k].txns[i].final
        invariant 0 <= i <= |sessions[k].txns|
        invariant forall j :: 0 <= j < i ==> sessions[k].txns[j].final
        invariant OpenIndex(sessions[k].txns, i) == OpenIndex(sessions[k].txns)
      {
        i := i + 1;
      }
    }

    /** continuationTransaction. */
    method ContinuationTransaction(k: Key, source: Endpoint) returns (i: int)
      requires k in sessions
      ensures i == ContinuationIndex(sessions[k], source)
    {
      var st := sessions[k];
      if st.client != [] && source == st.client {
        i := |st.txns| - 1;
        while i >= 0 && !(!st.txns[i].final && st.txns[i].response.packetCount == 0)
          invariant -1 <= i < |st.txns|
          invariant LastUnanswered(st.txns, i + 1) == LastUnanswered(st.txns, |st.txns|)
        {
          i := i - 1;
        }
      } else {
        i := FirstOpen(k);
        if i == |st.txns| {
          i := -1;
        }
      }
    }

    /** Nothing is emitted and no other session changes. */
    twostate predicate Quiet(k: Key)
      reads this
    {
      && h.log == old(h).log && h.registered == old(h).registered && h.doubled == old(h).doubled
      && h.stale == old(h).stale && old(h).finals <= h.finals
      && k in old(sessions) && k in sessions && sessions == old(sessions)[k := sessions[k]]
      && sessions[k].id == old(sessions)[k].id
    }

    /** appendSide on one side of the transaction; a complete response makes it final. */
    method Absorb(k: Key, i: nat, response: bool, segment: R.Packet)
      requires Valid() && At(sessions, k, i)
      modifies this`sessions, this`h
      ensures Valid() && Quiet(k)
      ensures sessions == Replace(old(sessions), k, i, Absorbed(o, old(sessions)[k].txns[i], response, segment))
    {
      hide LogOk, EventOk, Distinct, AppendSide, SideOk, ResponseComplete;
      var tx := sessions[k].txns[i];
      assert TxnOk(o, h, sessions[k], tx);
      AppendSideOk(o, if response then tx.response else tx.request, segment);
      Amend(k, i, Absorbed(o, tx, response, segment));
    }

    /** A change of session fields other than its transactions. */
    method SetClient(k: Key, client: Endpoint)
      requires Valid() && k in sessions
      modifies this`sessions
      ensures Valid() && Quiet(k)
      ensures sessions == old(sessions)[k := old(sessions)[k].(client := client)]
    {
      hide Inv;
      SetSessionKeeps(o, sessions, h, k, sessions[k].(client := client));
      sessions := sessions[k := sessions[k].(client := client)];
    }

    /** Notes the packet's time on its session. */
    method Seen(p: Packet)
      requires Valid() && p.key in sessions
      modifies this`sessions
      ensures Valid() && Quiet(p.key)
      ensures sessions == old(sessions)[p.key := old(sessions)[p.key].(lastUsec := Max(old(sessions)[p.key].lastUsec, p.time))]
    {
      hide Inv;
      var st := sessions[p.key].(lastUsec := Max(sessions[p.key].lastUsec, p.time));
      SetSessionKeeps(o, sessions, h, p.key, st);
      sessions := sessions[p.key := st];
    }

    /** Finds the packet's transaction and files the packet there; -1 if it belongs to none. */
    method Route(p: Packet) returns (i: int)
      requires Valid() && p.key in sessions
      modifies this`sessions, this`h
      ensures Valid() && Quiet(p.key)
      ensures i == -1 || At(sessions, p.key, i)
      ensures (sessions[p.key], i) == Filed(o, old(sessions)[p.key], p)
    {
      hide Inv, AppendSide, Absorbed, Appended, Trimmed, Created;
      i := -1;
      var k := p.key;
      if p.tcp && p.role == Request {
        SetClient(k, p.source);
        i := StartTransaction(k, p.time);
        Absorb(k, i, false, p.segment);
      } else if p.tcp && p.role == Response {
        i := RouteResponse(p);
      } else if p.tcp && |p.segment.payload| > 0 {
        i := ContinuationTransaction(k, p.source);
        ContinuationInRange(sessions[k], p.source);
        if i >= 0 {
          Absorb(k, i, !Continues(sessions[k], i, p.source), p.segment);
        }
      }
    }

    /** responseTransaction: the oldest open transaction, or a new one. */
    method RouteResponse(p: Packet) returns (i: nat)
      requires Valid() && p.key in sessions
      requires p.tcp && p.role == Response
      modifies this`sessions, this`h
      ensures Valid() && Quiet(p.key) && At(sessions, p.key, i)
      ensures (sessions[p.key], i as int) == Filed(o, old(sessions)[p.key], p)
    {
      hide Inv, AppendSide, Absorbed, Appended, Trimmed, Created;
      var k := p.key;
      if sessions[k].client == [] {
        SetClient(k, p.dest);
      }
      i := FirstOpen(k);
      if i == |sessions[k].txns| {
        i := StartTransaction(k, p.time);
      }
      Absorb(k, i, true, p.segment);
    }

    /** oldestSession. */
    method OldestSession() returns (k: Key)
      requires sessions != map[]
      ensures k in sessions && forall l :: l in sessions ==> sessions[k].lastUsec <= sessions[l].lastUsec
    {
      assert sessions.Keys != {};
      k :| k in sessions;
      var todo := sessions.Keys - {k};
      while todo != {}
        invariant todo <= sessions.Keys && k in sessions && k !in todo
        invariant forall l :: l in sessions && l !in todo ==> sessions[k].lastUsec <= sessions[l].lastUsec
        decreases todo
      {
        var l :| l in todo;
        todo := todo - {l};
        if sessions[l].lastUsec < sessions[k].lastUsec {
          k := l;
        }
      }
    }

    /** Cleans up, then finds or opens the packet's session; a SYN restarts it, and a full tracker
        gives up its oldest session. */
    method Locate(p: Packet) returns (batches: seq<Batch>)
      requires Valid()
      modifies this`sessions, this`h, this`lastCleanup
      ensures Valid() && OnlyEmits(batches) && Stamped(batches, p.time)
      ensures p.key in sessions && Located(o, Swept(o, old(sessions), old(lastCleanup), p.time), p, sessions)
      ensures lastCleanup == if Due(old(lastCleanup), p.time) then p.time else old(lastCleanup)
      ensures !Due(old(lastCleanup), p.time) && p.key in old(sessions) && !Opens(p) ==> batches == []
    {
      hide Inv, Bounded, Stamped, Swept, Due, Opens, Located;
      batches := Cleanup(p.time);
      SweptIdly(o, old(sessions), old(lastCleanup), p.time);
      var more := Enter(p);
      StampedTogether(batches, more, p.time);
      batches := batches + more;
    }

    method Enter(p: Packet) returns (batches: seq<Batch>)
      requires Valid()
      modifies this`sessions, this`h
      ensures Valid() && OnlyEmits(batches) && Stamped(batches, p.time)
      ensures p.key in sessions && Located(o, old(sessions), p, sessions)
      ensures p.key in old(sessions) && !Opens(p) ==> batches == []
    {
      hide Inv, Bounded, Stamped, Opens, Opened;
      batches := [];
      NothingStamped(p.time);
      if p.key in sessions && !Opens(p) {
        assert h.log + [] == h.log;
        return;
      }
      if p.key in sessions {
        batches := GiveUp(p.key, p.time);
      }
      assert sessions == old(sessions) - {p.key};
      var more := OpenSession(p);
      StampedTogether(batches, more, p.time);
      batches := batches + more;
    }

    /** A new session for the packet, at the oldest session's expense if need be. */
    method OpenSession(p: Packet) returns (batches: seq<Batch>)
      requires Valid() && p.key !in sessions
      modifies this`sessions, this`h
      ensures Valid() && OnlyEmits(batches) && Stamped(batches, p.time)
      ensures p.key in sessions && Opened(o, old(sessions), p, sessions)
    {
      hide Inv, SessionClosed, Stamped, NewSession;
      batches := [];
      NothingStamped(p.time);
      InvSensible(o, sessions, h);
      ghost var victim: Option<Key> := None;
      if |sessions| >= o.maxSessions {
        var v := OldestSession();
        victim := Some(v);
        batches := GiveUp(v, p.time);
        FewerSessions(o, old(sessions), v);
      }
      EmptyAtFirst(o, p);
      SetSessionKeeps(o, sessions, h, p.key, NewSession(o, p));
      MoreSessions(o, sessions, p.key, NewSession(o, p));
      sessions := sessions[p.key := NewSession(o, p)];
      assert victim.Some? ==> Oldest(old(sessions), victim.value);
    }

    /** Emits what the packet makes due: everything in the session when it ends the connection,
        otherwise the packet's own transaction. */
    method Report(p: Packet, i: int) returns (batches: seq<Batch>)
      requires Valid() && p.key in sessions && (i == -1 || At(sessions, p.key, i))
      modifies this`sessions, this`h
      ensures Valid() && OnlyEmits(batches) && Stamped(batches, p.time)
      ensures p.key in sessions && sessions == old(sessions)[p.key := sessions[p.key]]
      ensures Reported(o, old(sessions)[p.key], p, i, sessions[p.key], batches)
    {
      hide LogOk, EventOk, Distinct, SideOk, Closed, Revise;
      batches := [];
      var k := p.key;
      if Ends(p) {
        batches := FinalizeSession(k);
        ClosedStamped(o, old(sessions)[k], sessions[k], batches, p.time);
      } else if i >= 0 {
        assert TxnOk(o, h, sessions[k], sessions[k].txns[i]);
        var tx := sessions[k].txns[i].(lastUsec := p.time);
        Amend(k, i, tx);
        var batch := ReviseTransaction(k, i);
        ReplaceTwice(old(sessions), k, i, tx, Revise(o, tx).0);
        RevisedStamped(o, tx);
        batches := [batch];
      }
    }

    /** Finds the session, files the packet and emits what it makes due. `found` is the packet's session as it
        was when the packet reached it, `early` what was emitted before that. */
    method Handle(p: Packet) returns (obs: Observation, updates: seq<Batch>, ghost found: Session, ghost early: seq<Batch>)
      requires Valid()
      modifies this`sessions, this`h, this`lastCleanup
      ensures Valid()
      ensures h.log == old(h).log + updates && Stamped(updates, p.time)
      ensures h.registered == old(h).registered && h.doubled == old(h).doubled && h.stale == old(h).stale
      ensures old(h).finals <= h.finals && FromTracker(h, obs)
      ensures lastCleanup == if Due(old(lastCleanup), p.time) then p.time else old(lastCleanup)
      ensures p.key in sessions
      ensures Located(o, Swept(o, old(sessions), old(lastCleanup), p.time), p, sessions[p.key := found])
      ensures Observed(o, found, p, sessions[p.key], early, updates, obs)
      ensures !Due(old(lastCleanup), p.time) && p.key in old(sessions) && !Opens(p) ==> early == []
    {
      hide Inv, Bounded, AppendSide, Opens, NewSession, Filed, Reported, Stamped, Swept, Due, Located;
      updates := Locate(p);
      early := updates;
      found := sessions[p.key];
      ghost var located := sessions;
      Seen(p);
      var i := Route(p);
      ghost var filed := sessions[p.key];
      var more := Report(p, i);
      ReportedPlaces(o, filed, p, i, sessions[p.key], more);
      StampedTogether(updates, more, p.time);
      updates := updates + more;
      assert sessions[p.key := found] == located;
      var st := sessions[p.key];
      if i >= 0 {
        FinalNoted(o, sessions, h, p.key, i);
        obs := Observation(st.id, Some(st.txns[i].id), st.txns[i].final);
      } else {
        obs := Observation(st.id, None, false);
      }
    }

    /** Observe: the events it returns as updates, in batches, and the observation for Register. The packet joins
        the transaction at place `i` of its session, as Follows says in terms of the segments filed so far. */
    method Observe(p: Packet) returns (obs: Observation, updates: seq<Batch>, ghost found: Session, ghost early: seq<Batch>, ghost i: int)
      requires Valid() && Recorded()
      modifies this
      ensures Valid() && Recorded()
      ensures h.log == old(h).log + updates && Stamped(updates, p.time)
      ensures h.registered == old(h).registered && h.doubled == old(h).doubled && h.stale == old(h).stale
      ensures old(h).finals <= h.finals && FromTracker(h, obs)
      ensures lastCleanup == if Due(old(lastCleanup), p.time) then p.time else old(lastCleanup)
      ensures p.key in sessions
      ensures Located(o, Swept(o, old(sessions), old(lastCleanup), p.time), p, sessions[p.key := found])
      ensures Observed(o, found, p, sessions[p.key], early, updates, obs)
      ensures !Due(old(lastCleanup), p.time) && p.key in old(sessions) && !Opens(p) ==> early == []
      ensures p.key in traffic && forall k :: k in traffic && k != p.key ==> k in old(traffic) && traffic[k] == old(traffic)[k]
      ensures Follows(o, found, FoundRecord(Swept(o, old(sessions), old(lastCleanup), p.time), old(traffic), p), p, traffic[p.key], i, obs.final)
      ensures obs.transactionId == if 0 <= i < |sessions[p.key].txns| then Some(sessions[p.key].txns[i].id) else None
      ensures sessions[p.key].client == ClientAfter(found, p)
      ensures p.tcp && p.segment.syn && !p.ack ==> found.client == p.source && found.txns == []
    {
      hide Inv, Bounded, Opens, Stamped, Swept, Due, Located, AllTraced, Follows, FoundRecord, Observed, FromTracker, Traced;
      obs, updates, found, early := Handle(p);
      ghost var located := sessions[p.key := found];
      ghost var before := FoundRecord(Swept(o, old(sessions), old(lastCleanup), p.time), traffic, p);
      LocatedRecord(o, old(sessions), traffic, old(lastCleanup), p, located);
      OpenedClient(o, Swept(o, old(sessions), old(lastCleanup), p.time), p, located);
      ghost var after;
      after, i := NextRecord(o, found, before, p, sessions[p.key], early, updates, obs);
      traffic := (map k | k in located && k in traffic :: traffic[k])[p.key := after];
      assert sessions == located[p.key := sessions[p.key]];
      RecordedNow(o, located, p.key, sessions[p.key], traffic);
    }

    /** findTransaction: some session with the id, and in it the first transaction with the id. */
    method FindTransaction(sessionId: Bytes, transactionId: Option<Bytes>) returns (key: Option<Key>, i: int)
      ensures key.None? ==> i == -1 && forall k :: k in sessions ==> sessions[k].id != sessionId
      ensures key.Some? ==> key.value in sessions && sessions[key.value].id == sessionId
      ensures key.Some? && i >= 0 ==>
        transactionId.Some? && At(sessions, key.value, i) && sessions[key.value].txns[i].id == transactionId.value
      ensures key.Some? && i < 0 && transactionId.Some? ==>
        forall j :: 0 <= j < |sessions[key.value].txns| ==> sessions[key.value].txns[j].id != transactionId.value
    {
      key, i := None, -1;
      var todo := sessions.Keys;
      while todo != {}
        invariant todo <= sessions.Keys
        invariant forall k :: k in sessions && k !in todo ==> sessions[k].id != sessionId
        decreases todo
      {
        var k :| k in todo;
        todo := todo - {k};
        if sessions[k].id == sessionId {
          key := Some(k);
          if transactionId.Some? {
            for j := 0 to |sessions[k].txns|
              invariant forall n :: 0 <= n < j ==> sessions[k].txns[n].id != transactionId.value
            {
              if sessions[k].txns[j].id == transactionId.value {
                return key, j;
              }
            }
          }
          return key, -1;
        }
      }
    }

    /** Register: revision 1 of the event, retained for later revisions if its transaction is
        still there. */
    method Register(obs: Observation, x: EventId) returns (revision: nat, final: bool, ghost place: Option<(Key, nat)>)
      requires Valid() && Recorded() && FromTracker(h, obs)
      modifies this`sessions, this`h
      ensures Valid() && Recorded() && revision == 1 && final == obs.final
      ensures h == Registered(old(h), x, obs.final, PlaceOf(old(sessions), place))
      ensures place.Some? ==> RetainedAt(old(sessions), sessions, obs, x, place.value.0, place.value.1)
      ensures sessions.Keys == old(sessions).Keys
      ensures place.None? ==> forall k :: k in sessions ==> sessions[k].txns == old(sessions)[k].txns
      ensures place.None? && obs.transactionId.Some? ==>
        forall k, i :: Named(old(sessions), k, i, (obs.sessionId, obs.transactionId.value)) ==>
          exists l :: l != k && l in old(sessions) && old(sessions)[l].id == obs.sessionId
    {
      hide Inv, AllTraced;
      revision, final, place := 1, obs.final, None;
      var key, i := FindTransaction(obs.sessionId, obs.transactionId);
      if key.Some? && i >= 0 {
        Retain(obs, x, key.value, i);
        place := Some((key.value, i));
        return;
      }
      if key.Some? {
        CountHit(key.value);
      }
      RegisterUnretainedKeeps(o, sessions, h, x, obs.final, None);
      h := Registered(h, x, obs.final, None);
    }

    method CountHit(k: Key)
      requires Valid() && Recorded() && k in sessions
      modifies this`sessions
      ensures Valid() && Recorded() && sessions == old(sessions)[k := old(sessions)[k].(hitCount := old(sessions)[k].hitCount + 1)]
    {
      hide Inv, AllTraced;
      SetSessionKeeps(o, sessions, h, k, sessions[k].(hitCount := sessions[k].hitCount + 1));
      RecordKept(o, sessions, sessions[k := sessions[k].(hitCount := sessions[k].hitCount + 1)], traffic);
      sessions := sessions[k := sessions[k].(hitCount := sessions[k].hitCount + 1)];
    }

    method Retain(obs: Observation, x: EventId, k: Key, i: nat)
      requires Valid() && Recorded() && FromTracker(h, obs) && At(sessions, k, i) && obs.transactionId.Some?
      requires Identity(sessions[k], sessions[k].txns[i]) == (obs.sessionId, obs.transactionId.value)
      modifies this`sessions, this`h
      ensures Valid() && Recorded() && RetainedAt(old(sessions), sessions, obs, x, k, i)
      ensures h == Registered(old(h), x, obs.final, PlaceOf(old(sessions), Some((k, i))))
    {
      hide Inv, Registered, AllTraced, Bounded, RetainedAt, Replace;
      CountHit(k);
      RegisterKeeps(o, sessions, h, k, i, x, obs.final);
      var tx := sessions[k].txns[i];
      RegisteredSame(h, x, obs.final, sessions[k], old(sessions)[k], tx);
      RetainedPlace(old(sessions), obs, x, k, i);
      SameBounds(o, sessions, traffic, k, i, tx.(events := tx.events[x := 1]));
      h := Registered(h, x, obs.final, Some((sessions[k], tx)));
      sessions := Replace(sessions, k, i, tx.(events := tx.events[x := 1]));
    }
  }

  /** New events of a transaction change neither its windows nor how many there are. */
  lemma SameBounds(o: Options, s: Sessions, rs: map<Key, Record>, k: Key, i: nat, tx: Transaction)
    requires Bounded(o, s) && AllTraced(o, s, rs) && At(s, k, i) && tx == s[k].txns[i].(events := tx.events)
    ensures Bounded(o, Replace(s, k, i, tx)) && AllTraced(o, Replace(s, k, i, tx), rs)
  {
    hide AllTraced;
    assert Replace(s, k, i, tx).Keys == s.Keys;
    RecordKept(o, s, Replace(s, k, i, tx), rs);
  }

  /** The records of the sessions the packet finds. */
  lemma LocatedRecord(o: Options, s: Sessions, rs: map<Key, Record>, lastCleanup: nat, p: Packet, located: Sessions)
    requires AllTraced(o, s, rs) && p.key in located && Located(o, Swept(o, s, lastCleanup, p.time), p, located)
    ensures Traced(o, located[p.key], FoundRecord(Swept(o, s, lastCleanup, p.time), rs, p))
    ensures forall k :: k in located && k != p.key ==> k in rs && Traced(o, located[k], rs[k])
  {
    hide Traced, Located, Swept, Opens;
    var swept := Swept(o, s, lastCleanup, p.time);
    SweptTraced(o, s, rs, lastCleanup, p.time);
    var kept := map k | k in swept && k in rs :: rs[k];
    LocatedTraced(o, swept, kept, p, located);
    assert p.key in swept ==> p.key in kept;
  }

  lemma NextRecord(o: Options, found: Session, before: Record, p: Packet, st': Session, early: seq<Batch>, updates: seq<Batch>, obs: Observation)
    returns (after: Record, i: int)
    requires Traced(o, found, before) && Observed(o, found, p, st', early, updates, obs)
    ensures Traced(o, st', after) && Follows(o, found, before, p, after, i, obs.final)
    ensures obs.transactionId == if 0 <= i < |st'.txns| then Some(st'.txns[i].id) else None
    ensures st'.client == ClientAfter(found, p)
  {
    hide Traced, Filed, RecordFor, Reported, Follows;
    var time := Max(found.lastUsec, p.time);
    var st := found.(lastUsec := time);
    ObservedTraced(o, found, before, time, p, st', updates[|early|..]);
    ObservedClient(o, found, time, p, st', updates[|early|..]);
    i := Filed(o, st, p).1;
    after := RecordFor(o, st, before, p);
  }

  lemma RecordedNow(o: Options, located: Sessions, key: Key, st: Session, rs: map<Key, Record>)
    requires key in rs && rs.Keys == located.Keys + {key} && Traced(o, st, rs[key])
    requires forall k :: k in located && k != key ==> k in rs && Traced(o, located[k], rs[k])
    ensures AllTraced(o, located[key := st], rs)
  {
    hide Traced;
  }

  lemma NothingRecorded(o: Options)
    ensures AllTraced(o, map[], map[])
  {
  }

  lemma RecordKept(o: Options, s: Sessions, t: Sessions, rs: map<Key, Record>)
    requires AllTraced(o, s, rs) && t.Keys == s.Keys && forall k :: k in s ==> SameSides(s[k], t[k])
    ensures AllTraced(o, t, rs)
  {
    hide Traced, SameSides;
    forall k | k in t ensures Traced(o, t[k], rs[k]) {
      TracedSame(o, s[k], t[k], rs[k]);
    }
  }

  lemma RetainedPlace(s: Sessions, obs: Observation, x: EventId, k: Key, i: nat)
    requires At(s, k, i) && obs.transactionId.Some? && Identity(s[k], s[k].txns[i]) == (obs.sessionId, obs.transactionId.value)
    ensures var t := s[k := s[k].(hitCount := s[k].hitCount + 1)]; var tx := t[k].txns[i];
      RetainedAt(s, Replace(t, k, i, tx.(events := tx.events[x := 1])), obs, x, k, i)
  {
  }

  lemma RegisteredSame(h: History, x: EventId, final: bool, st: Session, st': Session, tx: Transaction)
    requires st.id == st'.id
    ensures Registered(h, x, final, Some((st, tx))) == Registered(h, x, final, Some((st', tx)))
  {
  }

  function PlaceOf(s: Sessions, place: Option<(Key, nat)>): Option<(Session, Transaction)> {
    if place.Some? && place.value.0 in s && place.value.1 < |s[place.value.0].txns|
    then Some((s[place.value.0], s[place.value.0].txns[place.value.1])) else None
  }

  /** The event joins the observed transaction, and only a hit counter changes besides. */
  ghost predicate RetainedAt(s: Sessions, t: Sessions, obs: Observation, x: EventId, k: Key, i: nat) {
    && At(s, k, i) && obs.transactionId.Some?
    && Identity(s[k], s[k].txns[i]) == (obs.sessionId, obs.transactionId.value)
    && t == s[k := s[k].(hitCount := s[k].hitCount + 1,
                         txns := s[k].txns[i := s[k].txns[i].(events := s[k].txns[i].events[x := 1])])]
  }

  lemma ReportedPlaces(o: Options, st: Session, p: Packet, i: int, st': Session, batches: seq<Batch>)
    requires Reported(o, st, p, i, st', batches)
    ensures st'.id == st.id && |st'.txns| == |st.txns|
  {
  }

  /** What Observe does to the packet's session and reports about it: the packet's time is noted,
      the packet filed, and what it makes due emitted at the end of the updates. */
  ghost predicate Observed(o: Options, st: Session, p: Packet, st': Session, early: seq<Batch>, updates: seq<Batch>, obs: Observation) {
    var (filed, i) := Filed(o, st.(lastUsec := Max(st.lastUsec, p.time)), p);
    && early <= updates && Reported(o, filed, p, i, st', updates[|early|..])
    && (if 0 <= i < |st'.txns| then obs == Observation(st'.id, Some(st'.txns[i].id), st'.txns[i].final)
        else obs == Observation(st'.id, None, false))
  }

  /** The observation was made by this tracker: a final one names a transaction that has been final. */
  ghost predicate FromTracker(h: History, obs: Observation) {
    obs.final ==> obs.transactionId.Some? && (obs.sessionId, obs.transactionId.value) in h.finals
  }

  lemma FinalNoted(o: Options, s: Sessions, h: History, k: Key, i: nat)
    requires Inv(o, s, h) && At(s, k, i)
    ensures s[k].txns[i].final ==> Identity(s[k], s[k].txns[i]) in h.finals
  {
    assert TxnOk(o, h, s[k], s[k].txns[i]);
  }

  lemma MoreSessions(o: Options, s: Sessions, k: Key, st: Session)
    requires Bounded(o, s) && k !in s && |s| < o.maxSessions && st.txns == []
    ensures Bounded(o, s[k := st])
  {
    assert s[k := st].Keys == s.Keys + {k};
  }

  lemma EmptyAtFirst(o: Options, p: Packet)
    ensures NewSession(o, p).txns == []
  {
  }

  // ---------------------------------------------------------------- facts used above

  lemma TidiedNext(o: Options, txns: seq<Transaction>, n: nat, now: nat)
    requires n < |txns|
    ensures TidiedTxns(o, txns, n + 1, now) == TidiedTxns(o, txns, n, now)[n := TidiedTxn(o, txns[n], now)]
  {
  }

  lemma SweptIdly(o: Options, s: Sessions, lastCleanup: nat, now: nat)
    ensures !Due(lastCleanup, now) ==> Swept(o, s, lastCleanup, now) == s
  {
  }

  /** A cleanup leaves alone what is not overdue. */
  lemma SweptOnlyOverdue(o: Options, s: Sessions, lastCleanup: nat, now: nat, k: Key)
    requires k in s && !Overdue(now, s[k].lastUsec, o.idleTimeout)
    requires forall i :: 0 <= i < |s[k].txns| ==> s[k].txns[i].final || !Overdue(now, s[k].txns[i].lastUsec, o.responseWait)
    ensures k in Swept(o, s, lastCleanup, now) && Swept(o, s, lastCleanup, now)[k] == s[k]
  {
    assert Tidied(o, s[k], now).txns == s[k].txns;
  }

  lemma NothingStamped(time: nat)
    ensures Stamped([], time)
  {
  }

  lemma RevisedStamped(o: Options, tx: Transaction)
    ensures Stamped([Revise(o, tx).1], tx.lastUsec)
  {
  }

  lemma InvSensible(o: Options, s: Sessions, h: History)
    requires Inv(o, s, h)
    ensures Sensible(o)
  {
  }

  lemma FlushStart(s: Sessions, log: seq<Batch>)
    ensures forall x :: FlushedTo(s, log, s, log, x)
  {
  }

  lemma FewerSessions(o: Options, s: Sessions, k: Key)
    requires Bounded(o, s) && k in s
    ensures Bounded(o, s - {k}) && |s - {k}| == |s| - 1
  {
    assert (s - {k}).Keys == s.Keys - {k};
  }

  lemma ReplaceTwice(s: Sessions, k: Key, i: nat, a: Transaction, b: Transaction)
    requires At(s, k, i)
    ensures Replace(Replace(s, k, i, a), k, i, b) == Replace(s, k, i, b)
  {
    assert s[k].txns[i := a][i := b] == s[k].txns[i := b];
  }

  /** An event held at a flush gets exactly one more revision, numbered next and final; an event not held
      gets none. */
  ghost predicate FlushOf(s: Sessions, log: seq<Batch>, log': seq<Batch>, x: EventId) {
    if Held(s, x) then OneMoreFinal(LogOf(log, x), LogOf(log', x)) else LogOf(log', x) == LogOf(log, x)
  }

  lemma FlushDone(s: Sessions, log: seq<Batch>, log': seq<Batch>, x: EventId)
    requires FlushedTo(s, log, map[], log', x)
    ensures FlushOf(s, log, log', x)
  {
    hide LogOf;
    assert !Held(map[], x);
  }
}

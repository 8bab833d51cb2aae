/** What a packet does to the sessions of internal/correlation/tracker.go, as functions and relations on values. */
module Routing {
  import opened Revisions

  const CLEANUP_PERIOD := 1_000_000

  // ---------------------------------------------------------------- finding the session

  function NewSession(o: Options, p: Packet): Session {
    Session(o.sessionId(p.key, p.time), p.time, if Opens(p) then p.source else [], 0, 0, [])
  }

  ghost predicate Oldest(s: Sessions, v: Key) {
    v in s && forall l :: l in s ==> s[v].lastUsec <= s[l].lastUsec
  }

  /** A new session is added; only in a full tracker an oldest one goes. */
  ghost predicate Opened(o: Options, s: Sessions, p: Packet, t: Sessions) {
    if |s| < o.maxSessions then t == s[p.key := NewSession(o, p)]
    else exists v :: Oldest(s, v) && t == (s - {v})[p.key := NewSession(o, p)]
  }

  /** The packet's session is found as it was, or a new one is opened. */
  ghost predicate Located(o: Options, s: Sessions, p: Packet, t: Sessions) {
    if p.key in s && !Opens(p) then t == s else Opened(o, s - {p.key}, p, t)
  }

  // ---------------------------------------------------------------- where a packet belongs

  function OpenIndex(txns: seq<Transaction>, from: nat := 0): (i: nat)
    requires from <= |txns|
    ensures from <= i <= |txns| && (i < |txns| ==> !txns[i].final) && forall j :: from <= j < i ==> txns[j].final
    decreases |txns| - from
  {
    if from == |txns| || !txns[from].final then from else OpenIndex(txns, from + 1)
  }

  /** The newest of the first `n` transactions that is open and has no answer yet, -1 if there is none. */
  function LastUnanswered(txns: seq<Transaction>, n: nat): (i: int)
    requires n <= |txns|
    ensures -1 <= i < n && (i >= 0 ==> !txns[i].final && txns[i].response.packetCount == 0)
    ensures forall j :: i < j < n ==> txns[j].final || txns[j].response.packetCount != 0
  {
    if n == 0 then -1
    else if !txns[n - 1].final && txns[n - 1].response.packetCount == 0 then n - 1
    else LastUnanswered(txns, n - 1)
  }

  /** The client continues its newest unanswered request, the server the oldest open transaction. */
  function ContinuationIndex(st: Session, source: Endpoint): int {
    if st.client != [] && source == st.client then LastUnanswered(st.txns, |st.txns|)
    else if OpenIndex(st.txns) == |st.txns| then -1 else OpenIndex(st.txns)
  }

  lemma ContinuationInRange(st: Session, source: Endpoint)
    ensures -1 <= ContinuationIndex(st, source) < |st.txns|
  {
  }

  predicate Continues(st: Session, i: nat, source: Endpoint)
    requires i < |st.txns|
  {
    st.client != [] && source == st.client && st.txns[i].response.packetCount == 0
  }

  predicate IsFirstFinal(txns: seq<Transaction>, i: nat) {
    i < |txns| && txns[i].final && forall j :: 0 <= j < i ==> !txns[j].final
  }

  /** The place newTransaction frees: the first final transaction, the first of all if none is. */
  function FirstFinal(txns: seq<Transaction>, from: nat := 0): (i: nat)
    requires from <= |txns| && forall j :: 0 <= j < from ==> !txns[j].final
    ensures IsFirstFinal(txns, i) || (i == 0 && forall j :: 0 <= j < |txns| ==> !txns[j].final)
    decreases |txns| - from
  {
    if from == |txns| then 0 else if txns[from].final then from else FirstFinal(txns, from + 1)
  }

  function Trimmed(o: Options, st: Session): Session {
    if |st.txns| >= o.maxTransactions && st.txns != []
    then st.(txns := Removed(st.txns, FirstFinal(st.txns))) else st
  }

  function Absorbed(o: Options, tx: Transaction, response: bool, segment: R.Packet): Transaction {
    if response then
      var side := AppendSide(o, tx.response, segment);
      tx.(response := side, final := tx.final || ResponseComplete(o, side))
    else tx.(request := AppendSide(o, tx.request, segment))
  }

  function AbsorbedAt(o: Options, st: Session, i: nat, response: bool, segment: R.Packet): Session
    requires i < |st.txns|
  {
    st.(txns := st.txns[i := Absorbed(o, st.txns[i], response, segment)])
  }

  /** The session after the packet has been filed, and the place of its transaction. */
  function Filed(o: Options, st: Session, p: Packet): (Session, int) {
    if p.tcp && p.role == Request then
      var begun := Appended(o, Trimmed(o, st.(client := p.source)), p.time);
      (AbsorbedAt(o, begun, |begun.txns| - 1, false, p.segment), |begun.txns| - 1)
    else if p.tcp && p.role == Response then
      var known := if st.client == [] then st.(client := p.dest) else st;
      var i := OpenIndex(known.txns);
      if i < |known.txns| then (AbsorbedAt(o, known, i, true, p.segment), i)
      else
        var begun := Appended(o, Trimmed(o, known), p.time);
        (AbsorbedAt(o, begun, |begun.txns| - 1, true, p.segment), |begun.txns| - 1)
    else if p.tcp && |p.segment.payload| > 0 && ContinuationIndex(st, p.source) >= 0 then
      ContinuationInRange(st, p.source);
      var i := ContinuationIndex(st, p.source);
      (AbsorbedAt(o, st, i, !Continues(st, i, p.source), p.segment), i)
    else (st, -1)
  }

  // ---------------------------------------------------------------- what it makes due

  /** What finalizeSession makes of one transaction. */
  function Closed(o: Options, tx: Transaction): (Transaction, Batch) {
    Revise(o, tx.(final := true))
  }

  ghost predicate SessionClosed(o: Options, st: Session, st': Session, batches: seq<Batch>) {
    && |batches| == |st.txns| && st' == st.(txns := st'.txns) && |st'.txns| == |st.txns|
    && forall i :: 0 <= i < |st.txns| ==> st'.txns[i] == Closed(o, st.txns[i]).0 && batches[i] == Closed(o, st.txns[i]).1
  }

  /** FIN or RST. */
  predicate Ends(p: Packet) {
    p.tcp && (p.fin || p.rst)
  }

  /** A packet that ends the connection makes every transaction of the session final and emits each
      once more; any other packet stamps its transaction and revises it, unless throttled. */
  ghost predicate Reported(o: Options, st: Session, p: Packet, i: int, st': Session, batches: seq<Batch>) {
    if Ends(p) then SessionClosed(o, st, st', batches)
    else if 0 <= i < |st.txns| then
      var (tx, batch) := Revise(o, st.txns[i].(lastUsec := p.time));
      st' == st.(txns := st.txns[i := tx]) && batches == [batch]
    else st' == st && batches == []
  }

  // ---------------------------------------------------------------- cleanup

  predicate Overdue(now: nat, last: nat, wait: nat) {
    now >= last && now - last >= wait
  }

  predicate Due(lastCleanup: nat, now: nat) {
    now != 0 && !(lastCleanup != 0 && now >= lastCleanup && now - lastCleanup < CLEANUP_PERIOD)
  }

  /** A transaction that has waited too long is closed; others are as they were. */
  function TidiedTxn(o: Options, tx: Transaction, now: nat): Transaction {
    if !tx.final && Overdue(now, tx.lastUsec, o.responseWait) then Closed(o, tx).0 else tx
  }

  /** The first `n` transactions tidied. */
  function TidiedTxns(o: Options, txns: seq<Transaction>, n: nat, now: nat): (r: seq<Transaction>)
    ensures |r| == |txns|
    ensures forall i :: 0 <= i < |r| ==> r[i] == if i < n then TidiedTxn(o, txns[i], now) else txns[i]
  {
    seq(|txns|, i requires 0 <= i < |txns| => if i < n then TidiedTxn(o, txns[i], now) else txns[i])
  }

  function Tidied(o: Options, st: Session, now: nat): Session {
    st.(txns := TidiedTxns(o, st.txns, |st.txns|, now))
  }

  /** The sessions after a cleanup: idle ones are gone, the others tidied. */
  function Swept(o: Options, s: Sessions, lastCleanup: nat, now: nat): Sessions {
    if Due(lastCleanup, now) then map k | k in s && !Overdue(now, s[k].lastUsec, o.idleTimeout) :: Tidied(o, s[k], now) else s
  }

  /** In times: a sweep happens unless the last one was less than a second before; it keeps a session that was touched
      less than its timeout ago, and in it leaves a transaction open that was touched less than the wait ago. */
  lemma SweptExactly(o: Options, s: Sessions, lastCleanup: nat, now: nat, k: Key)
    requires k in s
    ensures var swept := Swept(o, s, lastCleanup, now);
      var recent := now == 0 || (0 < lastCleanup <= now < lastCleanup + 1_000_000);
      && (k in swept <==> recent || now < s[k].lastUsec + o.idleTimeout)
      && (k in swept ==>
            && swept[k] == s[k].(txns := swept[k].txns) && |swept[k].txns| == |s[k].txns|
            && forall i :: 0 <= i < |s[k].txns| ==>
                 (!swept[k].txns[i].final <==>
                  !s[k].txns[i].final && (recent || now < s[k].txns[i].lastUsec + o.responseWait)))
  {
  }
}

/** What becomes of an event in the sharded queue: what is pending after any run of Enqueue, MarkPushed and
    MarkFailed, in terms of the calls alone. */
module Deliveries {
  import opened Basics
  import opened Database
  import opened RecordKeys
  import opened Shards

  /** The call concerns the record with this key in shard i. */
  ghost predicate Concerns(n: nat, hash: Bytes -> nat, c: Call, i: nat, k: Key)
    requires n > 0
  {
    RouteOf(n, hash, c.event) == i && RecordKey(c.event, c.revision) == k
  }

  /** An Enqueue of the record whose event can be encoded. */
  ghost predicate Stores(n: nat, hash: Bytes -> nat, c: Call, i: nat, k: Key)
    requires n > 0
  {
    c.Enqueuing? && c.encodes && Concerns(n, hash, c, i, k)
  }

  ghost predicate Reports(n: nat, hash: Bytes -> nat, c: Call, i: nat, k: Key)
    requires n > 0
  {
    c.Marking? && Concerns(n, hash, c, i, k)
  }

  /** What the push worker reported of the record, in order: a message for each failure. */
  ghost function Outcomes(n: nat, hash: Bytes -> nat, run: seq<Call>, i: nat, k: Key): seq<Option<Bytes>>
    requires n > 0
  {
    if run == [] then [] else
    var c := run[|run| - 1];
    Outcomes(n, hash, run[..|run| - 1], i, k) + if Reports(n, hash, c, i, k) then [c.failure] else []
  }

  function Failures(reports: seq<Option<Bytes>>): nat {
    if reports == [] then 0 else
    Failures(reports[..|reports| - 1]) + if reports[|reports| - 1].Some? then 1 else 0
  }

  /** To be sent: never reported, or the last report is a failure; and not out of retries. */
  ghost predicate ToSend(maxRetry: int, reports: seq<Option<Bytes>>) {
    && (reports == [] || reports[|reports| - 1].Some?)
    && (maxRetry <= 0 || Failures(reports) < maxRetry)
  }

  ghost predicate NeverStored(n: nat, hash: Bytes -> nat, run: seq<Call>, i: nat, k: Key)
    requires n > 0
  {
    forall j :: 0 <= j < |run| ==> !Stores(n, hash, run[j], i, k)
  }

  /** The row that holds the record after these reports. */
  ghost predicate Tells(r: Row, c: Call, reports: seq<Option<Bytes>>)
    requires c.Enqueuing?
  {
    && r.created == c.now && r.event == c.event && r.revision == c.revision && r.retry == Failures(reports)
    && r.status == (if reports == [] then PENDING else if reports[|reports| - 1].None? then PUSHED else FAILED)
    && r.error == if reports == [] then [] else match reports[|reports| - 1] { case None => [] case Some(message) => message }
  }

  lemma {:induction false} StepsSane(shards: seq<Shard>, hash: Bytes -> nat, run: seq<Call>)
    requires |shards| > 0 && Sane(shards)
    ensures Sane(Steps(shards, hash, run))
  {
    if run != [] {
      StepsSane(shards, hash, run[..|run| - 1]);
      StepSane(Steps(shards, hash, run[..|run| - 1]), hash, run[|run| - 1]);
    }
  }

  /** Until an Enqueue stores it the record is not there, whatever is reported. */
  lemma {:induction false} NotStored(shards: seq<Shard>, hash: Bytes -> nat, run: seq<Call>, i: nat, k: Key)
    requires i < |shards| && k !in shards[i].rows && k !in shards[i].archived && NeverStored(|shards|, hash, run, i, k)
    ensures var s := Steps(shards, hash, run); k !in s[i].rows && k !in s[i].archived
  {
    if run != [] {
      var n := |run| - 1;
      assert NeverStored(|shards|, hash, run[..n], i, k) by {
        assert forall j :: 0 <= j < n ==> run[..n][j] == run[j];
      }
      NotStored(shards, hash, run[..n], i, k);
      assert !Stores(|shards|, hash, run[n], i, k);
      hide RouteOf, RecordKey;
    }
  }

  /** From then on its row tells the reports since. */
  lemma {:induction false} Stored(shards: seq<Shard>, hash: Bytes -> nat, run: seq<Call>, q: nat, i: nat, k: Key)
    requires i < |shards| && k !in shards[i].rows && k !in shards[i].archived
    requires q < |run| && NeverStored(|shards|, hash, run[..q], i, k) && Stores(|shards|, hash, run[q], i, k)
    ensures var s := Steps(shards, hash, run);
      k in s[i].rows && Tells(s[i].rows[k], run[q], Outcomes(|shards|, hash, run[q + 1..], i, k))
    decreases |run|
  {
    hide RouteOf, RecordKey, Step, Tells, NeverStored;
    var n := |run| - 1;
    if q == n {
      NotStored(shards, hash, run[..n], i, k);
      StoredNow(Steps(shards, hash, run[..n]), hash, run[n], i, k);
      assert run[q + 1..] == [];
    } else {
      assert run[..n][..q] == run[..q];
      Stored(shards, hash, run[..n], q, i, k);
      OutcomesMore(|shards|, hash, run, q, i, k);
      ReportedOnce(Steps(shards, hash, run[..n]), hash, run[n], i, k, run[q], Outcomes(|shards|, hash, run[..n][q + 1..], i, k));
    }
  }

  lemma StoredNow(s: seq<Shard>, hash: Bytes -> nat, c: Call, i: nat, k: Key)
    requires i < |s| && k !in s[i].rows && k !in s[i].archived && Stores(|s|, hash, c, i, k)
    ensures var after := Step(s, hash, c); k in after[i].rows && Tells(after[i].rows[k], c, [])
  {
    hide RouteOf, RecordKey;
  }

  lemma OutcomesMore(m: nat, hash: Bytes -> nat, run: seq<Call>, q: nat, i: nat, k: Key)
    requires m > 0 && q + 1 < |run|
    ensures var n := |run| - 1;
      Outcomes(m, hash, run[q + 1..], i, k) ==
      Outcomes(m, hash, run[..n][q + 1..], i, k) + if Reports(m, hash, run[n], i, k) then [run[n].failure] else []
  {
    hide RouteOf, RecordKey;
    var n, rest := |run| - 1, run[q + 1..];
    assert rest[|rest| - 1] == run[n] && rest[..|rest| - 1] == run[..n][q + 1..];
  }

  lemma ReportedOnce(s: seq<Shard>, hash: Bytes -> nat, c: Call, i: nat, k: Key, stored: Call, reports: seq<Option<Bytes>>)
    requires i < |s| && k in s[i].rows && stored.Enqueuing? && Tells(s[i].rows[k], stored, reports)
    ensures var after := Step(s, hash, c);
      k in after[i].rows && Tells(after[i].rows[k], stored, reports + if Reports(|s|, hash, c, i, k) then [c.failure] else [])
  {
    hide RouteOf, RecordKey;
    if Reports(|s|, hash, c, i, k) {
      assert (reports + [c.failure])[..|reports|] == reports;
    } else {
      assert reports + [] == reports;
    }
  }

  /** Over every run: a record is pending exactly if it was never reported since it was stored, or the last report
      is a failure, and its failures are fewer than the retries allowed. */
  lemma PendingExactly(shards: seq<Shard>, hash: Bytes -> nat, maxRetry: int, run: seq<Call>, q: nat, i: nat, k: Key)
    requires i < |shards| && Sane(shards) && k !in shards[i].rows && k !in shards[i].archived
    requires q < |run| && NeverStored(|shards|, hash, run[..q], i, k) && Stores(|shards|, hash, run[q], i, k)
    ensures var s := Steps(shards, hash, run);
      && k in s[i].rows && s[i].rows[k].created == run[q].now
      && (Pending(s, maxRetry, EntryFor(s, i, k)) <==> ToSend(maxRetry, Outcomes(|shards|, hash, run[q + 1..], i, k)))
  {
    hide Steps, RouteOf, RecordKey, Outcomes, Failures, NeverStored;
    Stored(shards, hash, run, q, i, k);
    StepsSane(shards, hash, run);
    var s := Steps(shards, hash, run);
    var e := EntryFor(s, i, k);
    if Eligible(s[i].rows[k], maxRetry) {
      assert Fits(s[i], maxRetry, k, e);
    } else {
      assert forall j :: Fits(s[i], maxRetry, j, e) ==> j == k;
    }
  }

  /** A page that is not full lists the record exactly then. */
  lemma ListedExactly(shards: seq<Shard>, hash: Bytes -> nat, maxRetry: int, run: seq<Call>, q: nat, i: nat, k: Key, limit: nat, page: seq<Entry>)
    requires i < |shards| && Sane(shards) && k !in shards[i].rows && k !in shards[i].archived
    requires q < |run| && NeverStored(|shards|, hash, run[..q], i, k) && Stores(|shards|, hash, run[q], i, k)
    requires IsNext(Steps(shards, hash, run), maxRetry, limit, page) && |page| < limit
    ensures var s := Steps(shards, hash, run);
      k in s[i].rows && (EntryFor(s, i, k) in page <==> ToSend(maxRetry, Outcomes(|shards|, hash, run[q + 1..], i, k)))
  {
    hide Steps, Outcomes, ToSend, NeverStored, Stores, Pending, Sane;
    PendingExactly(shards, hash, maxRetry, run, q, i, k);
  }
}

/** No interleaving, crash or recovery loses, duplicates or alters an event. */
module ArchiveSafety {
  import opened Basics
  import opened Content
  import opened Graph
  import opened RoundTrip
  import opened Copy
  import opened Collect
  import opened Database
  import opened Archive

  // ---------------------------------------------------------------- the invariant

  /** An index entry names a catalogued, existing segment that holds the row. */
  ghost predicate IndexOk(s: State, k: Key) {
    k in s.archived ==>
      && k !in s.q.rows
      && s.archived[k].path in s.catalog && s.archived[k].path in s.files
      && k in s.files[s.archived[k].path].rows
      && s.files[s.archived[k].path].rows[k].id == s.archived[k].id
  }

  /** A catalogued segment exists, and the index names it for every row it holds. */
  ghost predicate SegmentOk(s: State, p: Path) {
    p in s.catalog ==>
      p in s.files && forall k :: k in s.files[p].rows ==> k in s.archived && s.archived[k].path == p
  }

  ghost predicate Keyed(rows: map<Key, Record>) {
    forall k :: k in rows ==> rows[k].key == k
  }

  /** The archiver's selected rows: a row that still has the id is the row that was selected. */
  ghost predicate RecsOk(q: Db, recs: seq<Record>) {
    && (forall i :: 0 <= i < |recs| ==> recs[i].status == PUSHED && recs[i].id <= q.seqno)
    && (forall i, k :: 0 <= i < |recs| && k in q.rows && q.rows[k].id == recs[i].id ==>
          k == recs[i].key && q.rows[k].time == recs[i].time)
  }

  /** The segment's copy of a selected row carries its metadata and, if the row is still there,
      equal JSON. */
  ghost predicate Verified(lib: Lib, q: Db, segment: Db, r: Record) {
    && r.key in segment.rows
    && segment.rows[r.key].id == r.id && SameMetadata(segment.rows[r.key], r)
    && (forall k :: k in q.rows && q.rows[k].id == r.id ==>
          SameJson(lib, Decode(lib, q, q.rows[k].payload), Decode(lib, segment, segment.rows[r.key].payload)))
  }

  ghost predicate PcOk(lib: Lib, s: State) {
    match s.pc
    case Idle => true
    case Recovering(todo, _) => forall p :: p in s.intents ==> p in todo
    case Ready => s.intents == {}
    case Intended(path) => path in s.intents && path !in s.catalog
    case Selected(path, recs) => path in s.intents && path !in s.catalog && RecsOk(s.q, recs)
    case Copying(path, recs, n, dest) =>
      && path in s.intents && path !in s.catalog && RecsOk(s.q, recs) && n <= |recs|
      && Keyed(dest.rows) && dest.rows.Keys == KeysOf(recs[..n])
    case Verifying(path, recs, n) =>
      && path in s.intents && path !in s.catalog && RecsOk(s.q, recs) && n <= |recs|
      && path in s.files && Keyed(s.files[path].rows) && s.files[path].rows.Keys == KeysOf(recs)
      && (forall i :: 0 <= i < n ==> Verified(lib, s.q, s.files[path], recs[i]))
  }

  ghost predicate Inv(lib: Lib, s: State, rank: map<Id, nat>) {
    && DbOk(lib, s.q, rank)
    && (forall k :: IndexOk(s, k))
    && (forall p :: SegmentOk(s, p))
    && s.files.Keys <= s.catalog + s.intents
    && PcOk(lib, s)
  }

  lemma StartOk(lib: Lib)
    ensures Inv(lib, START, map[]) && View(lib, START) == map[]
  {
    EmptyOk(lib);
  }

  // ---------------------------------------------------------------- steps on the active rows

  /** What the other actors may do to the active database under the archiver's feet. */
  ghost predicate Later(lib: Lib, q: Db, q': Db) {
    && q.seqno <= q'.seqno
    && forall k :: k in q'.rows && q'.rows[k].id <= q.seqno ==>
         && k in q.rows && q'.rows[k].id == q.rows[k].id && q'.rows[k].time == q.rows[k].time
         && Decode(lib, q', q'.rows[k].payload) == Decode(lib, q, q.rows[k].payload)
  }

  lemma LaterFrame(lib: Lib, s: State, q': Db, rank: map<Id, nat>, rank': map<Id, nat>)
    requires Inv(lib, s, rank) && DbOk(lib, q', rank') && Later(lib, s.q, q')
    requires forall k :: k in q'.rows ==> k !in s.archived
    ensures Inv(lib, s.(q := q'), rank')
  {
    hide DbOk, Decode;
    var t := s.(q := q');
    forall k ensures IndexOk(t, k) {
      assert IndexOk(s, k);
    }
    forall p ensures SegmentOk(t, p) {
      assert SegmentOk(s, p);
    }
    if !s.pc.Idle? && !s.pc.Recovering? && !s.pc.Ready? && !s.pc.Intended? {
      LaterRecs(lib, s.q, q', s.pc.recs);
      if s.pc.Verifying? {
        forall i | 0 <= i < s.pc.n ensures Verified(lib, q', s.files[s.pc.path], s.pc.recs[i]) {
          assert Verified(lib, s.q, s.files[s.pc.path], s.pc.recs[i]);
          assert s.pc.recs[i].id <= s.q.seqno;
        }
      }
    }
  }

  lemma LaterRecs(lib: Lib, q: Db, q': Db, recs: seq<Record>)
    requires Later(lib, q, q') && RecsOk(q, recs)
    ensures RecsOk(q', recs)
  {
    hide Decode;
  }

  /** The view of the active rows alone decides, since the archived part is untouched. */
  lemma ViewAt(lib: Lib, s: State, rank: map<Id, nat>)
    requires Inv(lib, s, rank)
    ensures View(lib, s).Keys == s.q.rows.Keys + s.archived.Keys
    ensures forall k :: k in s.q.rows ==> View(lib, s)[k] == EntryOf(lib, s.q, s.q.rows[k], false)
    ensures forall k :: k in s.archived ==>
      && k !in s.q.rows && s.archived[k].path in s.files && k in s.files[s.archived[k].path].rows
      && View(lib, s)[k] == EntryOf(lib, s.files[s.archived[k].path], s.files[s.archived[k].path].rows[k], true)
  {
    hide DbOk, EntryOf, PcOk, SegmentOk;
    forall k | k in s.archived
      ensures k !in s.q.rows && s.archived[k].path in s.files && k in s.files[s.archived[k].path].rows
    {
      assert IndexOk(s, k);
    }
  }

  lemma EnqueueStepOk(lib: Lib, s: State, step: Step, rank: map<Id, nat>) returns (rank': map<Id, nat>)
    requires Lawful(lib) && Inv(lib, s, rank) && step.EnqueueStep? && Apply(lib, s, step).Some?
    ensures Inv(lib, Apply(lib, s, step).value, rank')
    ensures Later(lib, s.q, Apply(lib, s, step).value.q)
    ensures ViewStep(lib, s.q, View(lib, s), step, View(lib, Apply(lib, s, step).value))
  {
    hide HashLaw, ZlibLaw, KeyLaw, NodeLaw, TextLaw, DbOk, PcOk, IndexOk, SegmentOk, EncodeFor, Json, Decode, View,
         WellFormed, Restored, PayloadDepth, Canon, Stored;
    var key := step.key;
    rank' := rank;
    ViewAt(lib, s, rank);
    if key in s.archived || key in s.q.rows || EncodeFor(lib, s.q.store, step.value, step.legacy).Err? {
      assert Apply(lib, s, step) == Some(s);
      LaterSame(lib, s.q);
    } else {
      rank' := EnqueueNew(lib, s, step, rank);
    }
  }

  lemma EnqueueNew(lib: Lib, s: State, step: Step, rank: map<Id, nat>) returns (rank': map<Id, nat>)
    requires Lawful(lib) && Inv(lib, s, rank) && step.EnqueueStep? && Apply(lib, s, step).Some?
    requires step.key !in s.archived && step.key !in s.q.rows && EncodeFor(lib, s.q.store, step.value, step.legacy).Ok?
    ensures Inv(lib, Apply(lib, s, step).value, rank')
    ensures Later(lib, s.q, Apply(lib, s, step).value.q)
    ensures ViewStep(lib, s.q, View(lib, s), step, View(lib, Apply(lib, s, step).value))
  {
    hide HashLaw, ZlibLaw, KeyLaw, NodeLaw, TextLaw, Consistent, PcOk, IndexOk, SegmentOk, EncodeFor, Json, Decode, View,
         WellFormed, Restored, PayloadDepth, Canon, ViewStep;
    var key := step.key;
    var q' := Enqueue(lib, s.q, key, step.time, step.value, step.now, step.legacy).value;
    assert Apply(lib, s, step) == Some(s.(q := q'));
    rank' := EnqueueOk(lib, s.q, key, step.time, step.value, step.now, step.legacy, rank);
    hide Enqueue, Apply;
    assert Later(lib, s.q, q') by {
      forall k | k in q'.rows && q'.rows[k].id <= s.q.seqno
        ensures k in s.q.rows && Decode(lib, q', q'.rows[k].payload) == Decode(lib, s.q, s.q.rows[k].payload)
      {
        assert k != key;
      }
    }
    forall k | k in q'.rows ensures k !in s.archived {
      assert IndexApart(s, k) by { IndexOkApart(s, k, lib, rank); }
    }
    LaterFrame(lib, s, q', rank, rank');
    EnqueueView(lib, s, q', step, rank, rank');
  }

  ghost predicate IndexApart(s: State, k: Key) {
    k in s.q.rows ==> k !in s.archived
  }

  lemma IndexOkApart(s: State, k: Key, lib: Lib, rank: map<Id, nat>)
    requires Inv(lib, s, rank)
    ensures IndexApart(s, k)
  {
    hide DbOk, PcOk, SegmentOk;
    assert IndexOk(s, k);
  }

  lemma EntrySame(lib: Lib, q: Db, q': Db, k: Key)
    requires Meanings(lib, q, q') && k in q.rows && k in q'.rows && q'.rows[k] == q.rows[k]
    ensures EntryOf(lib, q', q'.rows[k], false) == EntryOf(lib, q, q.rows[k], false)
  {
    hide Decode, Canon;
  }

  lemma EnqueueView(lib: Lib, s: State, q': Db, step: Step, rank: map<Id, nat>, rank': map<Id, nat>)
    requires Inv(lib, s, rank) && Inv(lib, s.(q := q'), rank') && Meanings(lib, s.q, q')
    requires step.EnqueueStep? && step.key !in s.q.rows && step.key !in s.archived && step.key in q'.rows
    requires EncodeFor(lib, s.q.store, step.value, step.legacy).Ok? && q'.seqno == s.q.seqno + 1
    requires q'.rows == s.q.rows[step.key := q'.rows[step.key]]
    requires q'.rows[step.key] ==
      Record(q'.seqno, step.key, step.time, q'.rows[step.key].payload, PENDING, 0, [], step.now, step.now)
    requires Decode(lib, q', q'.rows[step.key].payload) == Stored(lib, step.value, step.legacy)
    ensures ViewStep(lib, s.q, View(lib, s), step, View(lib, s.(q := q')))
  {
    hide Inv, View, Decode, Canon, Stored, EncodeFor, Meanings;
    var t := s.(q := q');
    ViewAt(lib, s, rank);
    ViewAt(lib, t, rank');
    var a, b := View(lib, s), View(lib, t);
    forall k | k in s.q.rows ensures b[k] == a[k] {
      EntrySame(lib, s.q, q', k);
    }
    var e := Entry(q'.seqno, step.time, PENDING, 0, [], step.now, step.now, Canon(lib, Stored(lib, step.value, step.legacy)), false);
    assert b == a[step.key := e];
  }

  // ---- delivery state and deletion

  /** A change of the active rows that keeps ids, times and payloads of those that stay. */
  ghost predicate Touches(q: Db, q': Db) {
    && q'.store == q.store && q'.seqno == q.seqno
    && forall k :: k in q'.rows ==>
         && k in q.rows && q'.rows[k].id == q.rows[k].id && q'.rows[k].key == q.rows[k].key
         && q'.rows[k].time == q.rows[k].time && q'.rows[k].payload == q.rows[k].payload
  }

  lemma TouchOk(lib: Lib, s: State, q': Db, rank: map<Id, nat>)
    requires Inv(lib, s, rank) && DbOk(lib, q', rank) && Touches(s.q, q')
    ensures Inv(lib, s.(q := q'), rank) && Later(lib, s.q, q')
    ensures View(lib, s.(q := q')).Keys == q'.rows.Keys + s.archived.Keys
    ensures forall k :: k in q'.rows ==>
      && View(lib, s.(q := q'))[k] == EntryOf(lib, s.q, q'.rows[k], false)
      && k in View(lib, s) && !View(lib, s)[k].sealed
    ensures forall k :: k in s.archived ==>
      && k !in q'.rows && k !in s.q.rows && k in View(lib, s)
      && View(lib, s.(q := q'))[k] == View(lib, s)[k] && View(lib, s)[k].sealed
    ensures View(lib, s).Keys == s.q.rows.Keys + s.archived.Keys
    ensures forall k :: k in s.q.rows ==> View(lib, s)[k] == EntryOf(lib, s.q, s.q.rows[k], false)
  {
    hide DbOk, PcOk, SegmentOk, IndexOk, View, DecodePayload;
    assert Later(lib, s.q, q');
    forall k | k in q'.rows ensures k !in s.archived {
      assert IndexApart(s, k) by { IndexOkApart(s, k, lib, rank); }
    }
    LaterFrame(lib, s, q', rank, rank);
    ViewAt(lib, s, rank);
    ViewAt(lib, s.(q := q'), rank);
  }

  /** The effect of a change of delivery state on one entry. */
  lemma MarkStepOk(lib: Lib, s: State, q': Db, rank: map<Id, nat>)
    requires Inv(lib, s, rank) && Touches(s.q, q') && q'.roots == s.q.roots && q'.rows.Keys == s.q.rows.Keys
    ensures Inv(lib, s.(q := q'), rank) && Later(lib, s.q, q')
    ensures View(lib, s.(q := q')).Keys == View(lib, s).Keys == s.q.rows.Keys + s.archived.Keys
    ensures forall k :: k in View(lib, s) ==>
      && (View(lib, s)[k].sealed <==> k !in s.q.rows)
      && View(lib, s.(q := q'))[k] ==
           if k !in s.q.rows then View(lib, s)[k]
           else View(lib, s)[k].(status := q'.rows[k].status, retry := q'.rows[k].retry, error := q'.rows[k].error,
                                 created := q'.rows[k].created, updated := q'.rows[k].updated)
    ensures forall k :: k in s.q.rows ==> View(lib, s)[k] == EntryOf(lib, s.q, s.q.rows[k], false)
  {
    hide Consistent, PcOk, SegmentOk, IndexOk, View, DecodePayload, Canon;
    MarkOk(lib, s.q, q', rank);
    TouchOk(lib, s, q', rank);
  }

  lemma PushedStepOk(lib: Lib, s: State, step: Step, rank: map<Id, nat>)
    requires Inv(lib, s, rank) && step.PushedStep?
    ensures Inv(lib, Apply(lib, s, step).value, rank)
    ensures Later(lib, s.q, Apply(lib, s, step).value.q)
    ensures ViewStep(lib, s.q, View(lib, s), step, View(lib, Apply(lib, s, step).value))
  {
    hide Inv, View, Decode, Canon, Later;
    var q' := MarkPushed(s.q, step.key, step.now);
    MarkStepOk(lib, s, q', rank);
    assert Apply(lib, s, step) == Some(s.(q := q'));
    hide Touches, EntryOf, Apply;
    var a, b := View(lib, s), View(lib, s.(q := q'));
    assert b == if step.key in a && !a[step.key].sealed
                then a[step.key := a[step.key].(status := PUSHED, error := [], updated := step.now)] else a;
  }

  lemma FailedStepOk(lib: Lib, s: State, step: Step, rank: map<Id, nat>)
    requires Inv(lib, s, rank) && step.FailedStep?
    ensures Inv(lib, Apply(lib, s, step).value, rank)
    ensures Later(lib, s.q, Apply(lib, s, step).value.q)
    ensures ViewStep(lib, s.q, View(lib, s), step, View(lib, Apply(lib, s, step).value))
  {
    hide Inv, View, Decode, Canon, Later;
    var q' := MarkFailed(s.q, step.key, step.msg, step.now);
    MarkStepOk(lib, s, q', rank);
    assert Apply(lib, s, step) == Some(s.(q := q'));
    hide Touches, EntryOf, Apply;
    var a, b := View(lib, s), View(lib, s.(q := q'));
    assert b == if step.key in a && !a[step.key].sealed
                then a[step.key := a[step.key].(status := FAILED, retry := a[step.key].retry + 1, error := step.msg, updated := step.now)]
                else a;
  }

  lemma RequeueStepOk(lib: Lib, s: State, step: Step, rank: map<Id, nat>)
    requires Inv(lib, s, rank) && step.RequeueStep?
    ensures Inv(lib, Apply(lib, s, step).value, rank)
    ensures Later(lib, s.q, Apply(lib, s, step).value.q)
    ensures ViewStep(lib, s.q, View(lib, s), step, View(lib, Apply(lib, s, step).value))
  {
    hide Inv, View, Decode, Canon, Covers, Later;
    var q' := Requeue(s.q, step.event, step.now);
    MarkStepOk(lib, s, q', rank);
    var a, b := View(lib, s), View(lib, s.(q := q'));
    assert b == map k | k in a :: if Covers(step.event, k) && !a[k].sealed then Reset(a[k], step.now) else a[k];
  }

  lemma DeleteStepOk(lib: Lib, s: State, step: Step, rank: map<Id, nat>)
    requires Inv(lib, s, rank) && step.DeleteStep?
    ensures Inv(lib, Apply(lib, s, step).value, rank)
    ensures Later(lib, s.q, Apply(lib, s, step).value.q)
    ensures ViewStep(lib, s.q, View(lib, s), step, View(lib, Apply(lib, s, step).value))
  {
    hide Inv, View, Later, Covers, Touches, DbOk, Decode, Canon;
    var q' := Apply(lib, s, step).value.q;
    DeletedOk(lib, s, step, rank);
    TouchOk(lib, s, q', rank);
    hide Apply;
    var a, b := View(lib, s), View(lib, s.(q := q'));
    assert b == map k | k in a && (!Covers(step.event, k) || a[k].sealed) :: a[k];
  }

  lemma DeletedOk(lib: Lib, s: State, step: Step, rank: map<Id, nat>)
    requires Inv(lib, s, rank) && step.DeleteStep?
    ensures var q' := Apply(lib, s, step).value.q;
      && DbOk(lib, q', rank) && Touches(s.q, q') && Apply(lib, s, step) == Some(s.(q := q'))
      && q'.rows == map k | k in s.q.rows && !Covers(step.event, k) :: s.q.rows[k]
  {
    hide Consistent, PcOk, SegmentOk, IndexOk, DecodePayload, Covers;
    DropOk(lib, s.q, Apply(lib, s, step).value.q, rank);
  }

  lemma CollectStepOk(lib: Lib, s: State, step: Step, rank: map<Id, nat>)
    requires Lawful(lib) && Inv(lib, s, rank) && step.CollectStep? && Apply(lib, s, step).Some?
    ensures Inv(lib, Apply(lib, s, step).value, rank)
    ensures Later(lib, s.q, Apply(lib, s, step).value.q)
    ensures View(lib, Apply(lib, s, step).value) == View(lib, s)
  {
    hide Consistent, SegmentOk, IndexOk, View, DecodePayload, ZlibLaw, KeyLaw, NodeLaw, TextLaw, Unreferenced;
    var s' := Apply(lib, s, step).value;
    CollectOk(lib, s.q, step.node, rank);
    assert Later(lib, s.q, s'.q);
    forall k | k in s'.q.rows ensures k !in s.archived {
      assert IndexApart(s, k) by { IndexOkApart(s, k, lib, rank); }
    }
    LaterFrame(lib, s, s'.q, rank, rank);
    ViewAt(lib, s, rank);
    ViewAt(lib, s', rank);
  }

  // ---------------------------------------------------------------- recovery and crashes

  /** A step that leaves the active rows, the index, the catalogue and catalogued files alone
      is invisible. */
  lemma QuietStep(lib: Lib, s: State, s': State, rank: map<Id, nat>)
    requires Inv(lib, s, rank)
    requires s'.q == s.q && s'.archived == s.archived && s'.catalog == s.catalog
    requires forall p :: p in s.catalog && p in s.files ==> p in s'.files && s'.files[p] == s.files[p]
    requires s'.files.Keys <= s'.catalog + s'.intents
    requires PcOk(lib, s')
    ensures Inv(lib, s', rank) && View(lib, s') == View(lib, s)
  {
    hide DbOk, PcOk, Decode, EntryOf, View;
    forall k ensures IndexOk(s', k) {
      assert IndexOk(s, k);
      if k in s.archived { assert SegmentOk(s, s.archived[k].path); }
    }
    forall p ensures SegmentOk(s', p) {
      assert SegmentOk(s, p);
    }
    ViewAt(lib, s, rank);
    ViewAt(lib, s', rank);
    forall k | k in s.archived ensures View(lib, s')[k] == View(lib, s)[k] {
      assert IndexOk(s, k);
    }
    assert View(lib, s') == View(lib, s);
  }

  lemma RecoveryStepOk(lib: Lib, s: State, step: Step, rank: map<Id, nat>)
    requires Inv(lib, s, rank) && Apply(lib, s, step).Some?
    requires step.StartRecovery? || step.RemoveOrphan? || step.ForgetIntent? || step.RecoveryDone? || step.Abort? || step.Crash?
    ensures Inv(lib, Apply(lib, s, step).value, rank)
    ensures View(lib, Apply(lib, s, step).value) == View(lib, s)
  {
    hide DbOk, View, SegmentOk, IndexOk, RecsOk, Verified;
    QuietStep(lib, s, Apply(lib, s, step).value, rank);
  }

  /** A recovery that runs to its end leaves no intent, and only catalogued segment files. */
  lemma RecoveryComplete(lib: Lib, s: State, rank: map<Id, nat>)
    requires Inv(lib, s, rank) && Apply(lib, s, RecoveryDone).Some?
    ensures s.intents == {}
    ensures s.files.Keys == s.catalog
  {
    hide DbOk;
    forall p | p in s.catalog ensures p in s.files {
      assert SegmentOk(s, p);
    }
  }

  // ---------------------------------------------------------------- archiving

  /** The row with a given id is unique. */
  lemma WithIdUnique(lib: Lib, rows: map<Key, Record>, k: Key)
    requires IdsDistinct(rows) && k in rows
    ensures WithId(rows, rows[k].id) == Some(rows[k])
  {
  }

  /** A lookup by the id of a selected row finds that row or nothing: ids are never reused. */
  lemma WithIdIsSelected(lib: Lib, s: State, recs: seq<Record>, i: nat, rank: map<Id, nat>)
    requires DbOk(lib, s.q, rank) && RecsOk(s.q, recs) && i < |recs|
    requires WithId(s.q.rows, recs[i].id).Some?
    ensures recs[i].key in s.q.rows
    ensures WithId(s.q.rows, recs[i].id) == Some(s.q.rows[recs[i].key])
    ensures s.q.rows[recs[i].key].id == recs[i].id && s.q.rows[recs[i].key].time == recs[i].time
  {
    hide Consistent, RowOk;
    var k :| k in s.q.rows && s.q.rows[k].id == recs[i].id;
    WithIdUnique(lib, s.q.rows, k);
  }

  lemma SelectionOk(lib: Lib, s: State, before: int, limit: nat, recs: seq<Record>, rank: map<Id, nat>)
    requires DbOk(lib, s.q, rank) && Selection(s.q, before, limit, recs)
    ensures RecsOk(s.q, recs)
  {
    hide Consistent;
    forall i | 0 <= i < |recs| ensures recs[i].id <= s.q.seqno {
      assert RowOk(s.q, recs[i].key);
    }
  }

  lemma KeysOfStep(recs: seq<Record>, n: nat)
    requires n < |recs|
    ensures KeysOf(recs[..n + 1]) == KeysOf(recs[..n]) + {recs[n].key}
  {
    var a, b := recs[..n], recs[..n + 1];
    forall k | k in KeysOf(b) ensures k in KeysOf(a) + {recs[n].key} {
      var i :| 0 <= i < |b| && b[i].key == k;
      if i < n { assert a[i].key == k; }
    }
    forall k | k in KeysOf(a) + {recs[n].key} ensures k in KeysOf(b) {
      if k in KeysOf(a) {
        var i :| 0 <= i < |a| && a[i].key == k;
        assert b[i].key == k;
      } else {
        assert b[n].key == k;
      }
    }
  }

  lemma CopyOneOk(lib: Lib, s: State, rank: map<Id, nat>)
    requires Inv(lib, s, rank) && Apply(lib, s, CopyOne).Some?
    ensures PcOk(lib, Apply(lib, s, CopyOne).value)
  {
    hide DbOk, CopyPayload, Decode, IndexOk, SegmentOk, RecsOk, KeysOf, WithId;
    KeysOfStep(s.pc.recs, s.pc.n);
  }

  lemma VerifyOneOk(lib: Lib, s: State, rank: map<Id, nat>)
    requires Inv(lib, s, rank) && Apply(lib, s, VerifyOne).Some?
    ensures PcOk(lib, Apply(lib, s, VerifyOne).value)
  {
    hide Consistent, CopyPayload, Decode, IndexOk, SegmentOk, KeysOf, JsonEqual;
    var r := s.pc.recs[s.pc.n];
    var segment := s.files[s.pc.path];
    WithIdIsSelected(lib, s, s.pc.recs, s.pc.n, rank);
    var k :| k in segment.rows && segment.rows[k].id == r.id && WithId(segment.rows, r.id) == Some(segment.rows[k]);
    assert k == r.key;
    forall j | j in s.q.rows && s.q.rows[j].id == r.id ensures j == r.key {
      WithIdUnique(lib, s.q.rows, j);
    }
    assert Verified(lib, s.q, segment, r);
  }

  lemma ArchiveStepOk(lib: Lib, s: State, step: Step, rank: map<Id, nat>)
    requires Inv(lib, s, rank) && Apply(lib, s, step).Some?
    requires step.WriteIntent? || step.SelectStep? || step.OpenSegment? || step.CopyOne? || step.Commit? || step.VerifyOne?
    ensures Inv(lib, Apply(lib, s, step).value, rank)
    ensures View(lib, Apply(lib, s, step).value) == View(lib, s)
  {
    hide DbOk, View, SegmentOk, IndexOk, RecsOk, Verified, Decode, CopyPayload, InsertRecord, SameMetadata, SameJson, Selection;
    var s' := Apply(lib, s, step).value;
    match step {
      case SelectStep(before, limit, recs) => SelectionOk(lib, s, before, Batch(limit), recs, rank);
      case OpenSegment => assert KeysOf(s.pc.recs[..0]) == {};
      case CopyOne => CopyOneOk(lib, s, rank);
      case Commit => assert s.pc.recs[..s.pc.n] == s.pc.recs;
      case VerifyOne => VerifyOneOk(lib, s, rank);
      case _ =>
    }
    QuietStep(lib, s, s', rank);
  }

  lemma {:induction false} IdForKey(recs: seq<Record>, i: nat)
    requires i < |recs| && forall j :: 0 <= j < |recs| && recs[j].key == recs[i].key ==> recs[j].id == recs[i].id
    ensures IdFor(recs, recs[i].key) == recs[i].id
  {
    if recs[0].key != recs[i].key {
      assert forall j :: 0 <= j < |recs[1..]| ==> recs[1..][j] == recs[j + 1];
      IdForKey(recs[1..], i - 1);
    }
  }

  /** At publication every selected row is still the acknowledged row that was verified. */
  lemma PublishFacts(lib: Lib, s: State, order: seq<Path>, rank: map<Id, nat>, i: nat)
    requires Inv(lib, s, rank) && Apply(lib, s, Publish(order)).Some? && i < |s.pc.recs|
    ensures var r := s.pc.recs[i]; var segment := s.files[s.pc.path];
      && r.key in s.q.rows && r.key !in s.archived && r.key in segment.rows
      && s.q.rows[r.key].id == r.id && s.q.rows[r.key].status == PUSHED
      && segment.rows[r.key].id == r.id
      && EntryOf(lib, segment, segment.rows[r.key], true) == EntryOf(lib, s.q, s.q.rows[r.key], true)
  {
    hide Consistent, Decode, IndexOk, SegmentOk, KeysOf, RowOk, IdsDistinct, Published;
    var r := s.pc.recs[i];
    var segment := s.files[s.pc.path];
    WithIdIsSelected(lib, s, s.pc.recs, i, rank);
    assert Verified(lib, s.q, segment, r);
    assert SameJson(lib, Decode(lib, s.q, s.q.rows[r.key].payload), Decode(lib, segment, segment.rows[r.key].payload));
  }

  lemma PublishDb(lib: Lib, s: State, order: seq<Path>, rank: map<Id, nat>)
    requires Inv(lib, s, rank) && Apply(lib, s, Publish(order)).Some?
    ensures DbOk(lib, Published(s, order).q, rank)
    ensures Published(s, order).q.rows.Keys == s.q.rows.Keys - KeysOf(s.pc.recs)
    ensures Later(lib, s.q, Published(s, order).q)
  {
    hide Consistent, DecodePayload, IndexOk, SegmentOk, Verified, PcOk, RowOk, IdsDistinct, EntryOf;
    forall k | k in KeysOf(s.pc.recs) ensures k in s.q.rows && s.q.rows[k].status == PUSHED {
      var i :| 0 <= i < |s.pc.recs| && s.pc.recs[i].key == k;
      PublishFacts(lib, s, order, rank, i);
    }
    DropOk(lib, s.q, Published(s, order).q, rank);
  }

  lemma PublishIndex(lib: Lib, s: State, order: seq<Path>, rank: map<Id, nat>)
    requires Inv(lib, s, rank) && Apply(lib, s, Publish(order)).Some?
    ensures Inv(lib, Published(s, order), rank)
  {
    hide Decode, EntryOf, Verified, RecsOk, Later, DbOk, IndexOk, SegmentOk;
    PublishDb(lib, s, order, rank);
    forall k ensures IndexOk(Published(s, order), k) {
      PublishedIndex(lib, s, order, rank, k);
    }
    forall p ensures SegmentOk(Published(s, order), p) {
      PublishedSegment(lib, s, order, rank, p);
    }
  }

  /** What is published was not archived before, and gets the index entry of its own row. */
  lemma PublishedKey(lib: Lib, s: State, order: seq<Path>, rank: map<Id, nat>, k: Key)
    requires Inv(lib, s, rank) && Apply(lib, s, Publish(order)).Some? && k in KeysOf(s.pc.recs)
    ensures k !in s.archived && k in s.files[s.pc.path].rows && k in s.q.rows && s.q.rows[k].status == PUSHED
    ensures IdFor(s.pc.recs, k) == s.files[s.pc.path].rows[k].id
  {
    hide Inv, Decode, EntryOf, Published;
    var i :| 0 <= i < |s.pc.recs| && s.pc.recs[i].key == k;
    PublishFacts(lib, s, order, rank, i);
    forall j | 0 <= j < |s.pc.recs| && s.pc.recs[j].key == k ensures s.pc.recs[j].id == s.pc.recs[i].id {
      PublishFacts(lib, s, order, rank, j);
    }
    IdForKey(s.pc.recs, i);
  }

  lemma PublishedIndex(lib: Lib, s: State, order: seq<Path>, rank: map<Id, nat>, k: Key)
    requires Inv(lib, s, rank) && Apply(lib, s, Publish(order)).Some?
    ensures IndexOk(Published(s, order), k)
  {
    hide Decode, EntryOf, Verified, RecsOk, DbOk, SegmentOk, KeysOf, IdFor;
    if k in KeysOf(s.pc.recs) {
      PublishedKey(lib, s, order, rank, k);
    } else {
      assert IndexOk(s, k);
    }
  }

  lemma PublishedSegment(lib: Lib, s: State, order: seq<Path>, rank: map<Id, nat>, p: Path)
    requires Inv(lib, s, rank) && Apply(lib, s, Publish(order)).Some?
    ensures SegmentOk(Published(s, order), p)
  {
    hide Decode, EntryOf, Verified, RecsOk, DbOk, IndexOk, IdFor;
    assert SegmentOk(s, p);
    if p in s.catalog {
      forall k | k in s.files[p].rows ensures k !in KeysOf(s.pc.recs) {
        if k in KeysOf(s.pc.recs) { PublishedKey(lib, s, order, rank, k); }
      }
    }
  }

  /** Publication moves exactly acknowledged rows, and what a user sees of them is unchanged. */
  lemma PublishStepOk(lib: Lib, s: State, order: seq<Path>, rank: map<Id, nat>)
    requires Inv(lib, s, rank) && Apply(lib, s, Publish(order)).Some?
    ensures Inv(lib, Published(s, order), rank)
    ensures Seals(View(lib, s), KeysOf(s.pc.recs), View(lib, Published(s, order)))
  {
    hide Inv, Decode, View, KeysOf, Canon, Apply, Published;
    PublishPc(lib, s, order);
    var s' := Published(s, order);
    var keys := KeysOf(s.pc.recs);
    PublishIndex(lib, s, order, rank);
    var a, b := View(lib, s), View(lib, s');
    forall k | k in keys
      ensures k in a && !a[k].sealed && a[k].status == PUSHED && k in b && b[k] == a[k].(sealed := true)
    {
      PublishedEntry(lib, s, order, rank, k);
    }
    forall k | k !in keys ensures (k in a <==> k in b) && (k in a ==> b[k] == a[k]) {
      PublishedOther(lib, s, order, rank, k);
    }
    assert a.Keys == b.Keys;
    assert b == map k | k in a :: if k in keys then a[k].(sealed := true) else a[k];
  }

  lemma PublishPc(lib: Lib, s: State, order: seq<Path>)
    requires Apply(lib, s, Publish(order)).Some?
    ensures s.pc.Verifying? && Apply(lib, s, Publish(order)).value == Published(s, order)
  {
  }

  lemma PublishedOther(lib: Lib, s: State, order: seq<Path>, rank: map<Id, nat>, k: Key)
    requires Inv(lib, s, rank) && Apply(lib, s, Publish(order)).Some? && k !in KeysOf(s.pc.recs)
    requires Inv(lib, Published(s, order), rank)
    ensures k in View(lib, s) <==> k in View(lib, Published(s, order))
    ensures k in View(lib, s) ==> View(lib, Published(s, order))[k] == View(lib, s)[k]
  {
    hide Inv, DecodePayload, View, Canon, KeysOf;
    ViewAt(lib, s, rank);
    ViewAt(lib, Published(s, order), rank);
    assert Published(s, order).q.store == s.q.store && Published(s, order).files == s.files;
  }

  lemma PublishedEntry(lib: Lib, s: State, order: seq<Path>, rank: map<Id, nat>, k: Key)
    requires Inv(lib, s, rank) && Apply(lib, s, Publish(order)).Some? && k in KeysOf(s.pc.recs)
    requires Inv(lib, Published(s, order), rank)
    ensures k in View(lib, s) && !View(lib, s)[k].sealed && View(lib, s)[k].status == PUSHED
    ensures k in View(lib, Published(s, order))
    ensures View(lib, Published(s, order))[k] == View(lib, s)[k].(sealed := true)
  {
    hide Inv, Decode, View, Canon;
    ViewAt(lib, s, rank);
    ViewAt(lib, Published(s, order), rank);
    var i :| 0 <= i < |s.pc.recs| && s.pc.recs[i].key == k;
    PublishFacts(lib, s, order, rank, i);
    assert Published(s, order).archived[k].path == s.pc.path;
  }

  // ---------------------------------------------------------------- every step, every run

  lemma StepOk(lib: Lib, s: State, step: Step, rank: map<Id, nat>) returns (rank': map<Id, nat>)
    requires Lawful(lib) && Inv(lib, s, rank) && Apply(lib, s, step).Some?
    ensures Inv(lib, Apply(lib, s, step).value, rank')
    ensures Later(lib, s.q, Apply(lib, s, step).value.q)
    ensures ViewStep(lib, s.q, View(lib, s), step, View(lib, Apply(lib, s, step).value))
  {
    hide Inv, View, Lawful, Seals, Later, Decode;
    rank' := rank;
    match step {
      case EnqueueStep(_, _, _, _, _) => rank' := EnqueueStepOk(lib, s, step, rank);
      case PushedStep(_, _) => PushedStepOk(lib, s, step, rank);
      case FailedStep(_, _, _) => FailedStepOk(lib, s, step, rank);
      case RequeueStep(_, _) => RequeueStepOk(lib, s, step, rank);
      case DeleteStep(_) => DeleteStepOk(lib, s, step, rank);
      case CollectStep(_) => CollectStepOk(lib, s, step, rank);
      case Publish(order) =>
        PublishStepOk(lib, s, order, rank);
        PublishDb(lib, s, order, rank);
      case StartRecovery(_, _) => RecoveryStepOk(lib, s, step, rank); LaterSame(lib, s.q);
      case RemoveOrphan => RecoveryStepOk(lib, s, step, rank); LaterSame(lib, s.q);
      case ForgetIntent => RecoveryStepOk(lib, s, step, rank); LaterSame(lib, s.q);
      case RecoveryDone => RecoveryStepOk(lib, s, step, rank); LaterSame(lib, s.q);
      case Abort(_) => RecoveryStepOk(lib, s, step, rank); LaterSame(lib, s.q);
      case Crash => RecoveryStepOk(lib, s, step, rank); LaterSame(lib, s.q);
      case _ => ArchiveStepOk(lib, s, step, rank); LaterSame(lib, s.q);
    }
  }

  lemma LaterSame(lib: Lib, q: Db)
    ensures Later(lib, q, q)
  {
  }

  /** The invariant holds in every reachable state, whatever is interleaved and wherever a crash
      lands; and every active row restores to exactly the bytes of the value it was enqueued with. */
  lemma {:induction false} RunOk(lib: Lib, steps: seq<Step>) returns (rank: map<Id, nat>)
    requires Lawful(lib) && Run(lib, START, steps).Some?
    ensures Inv(lib, Run(lib, START, steps).value, rank)
    ensures var s := Run(lib, START, steps).value;
      forall k :: k in s.q.rows ==> Enqueued(lib, steps, k, Decode(lib, s.q, s.q.rows[k].payload))
    decreases |steps|
  {
    hide Inv, Lawful, Apply, Decode, Stored, Later, ViewStep;
    if steps == [] {
      StartOk(lib);
      rank := map[];
    } else {
      var before := steps[..|steps| - 1];
      var rank0 := RunOk(lib, before);
      var s := Run(lib, START, before).value;
      var step := steps[|steps| - 1];
      rank := StepOk(lib, s, step, rank0);
      var s' := Apply(lib, s, step).value;
      forall k | k in s'.q.rows ensures Enqueued(lib, steps, k, Decode(lib, s'.q, s'.q.rows[k].payload)) {
        RowOrigin(lib, s, step, rank0, rank, k);
        if k in s.q.rows && Decode(lib, s'.q, s'.q.rows[k].payload) == Decode(lib, s.q, s.q.rows[k].payload) {
          var i :| 0 <= i < |before| && IsOrigin(lib, before[i], k, Decode(lib, s.q, s.q.rows[k].payload));
          assert before[i] == steps[i];
        }
      }
    }
  }

  /** The step enqueued the key with a value that is stored as `text`. */
  ghost predicate IsOrigin(lib: Lib, step: Step, k: Key, text: Option<Bytes>) {
    step.EnqueueStep? && step.key == k && text == Stored(lib, step.value, step.legacy)
  }

  ghost predicate Enqueued(lib: Lib, steps: seq<Step>, k: Key, text: Option<Bytes>) {
    exists i :: 0 <= i < |steps| && IsOrigin(lib, steps[i], k, text)
  }

  /** A row is as it was before the step, or the step enqueued it. */
  lemma RowOrigin(lib: Lib, s: State, step: Step, rank: map<Id, nat>, rank': map<Id, nat>, k: Key)
    requires Lawful(lib) && Inv(lib, s, rank) && Apply(lib, s, step).Some?
    requires Inv(lib, Apply(lib, s, step).value, rank')
    requires Later(lib, s.q, Apply(lib, s, step).value.q)
    requires k in Apply(lib, s, step).value.q.rows
    ensures var q' := Apply(lib, s, step).value.q;
      || (k in s.q.rows && Decode(lib, q', q'.rows[k].payload) == Decode(lib, s.q, s.q.rows[k].payload))
      || IsOrigin(lib, step, k, Decode(lib, q', q'.rows[k].payload))
  {
    hide Inv, Decode, Lawful, Enqueue, Json, Restored, WellFormed, Covers, Stored;
    RowIdBelow(lib, s, rank, k);
    if step.EnqueueStep? {
      EnqueueOrigin(lib, s, step, rank, k);
    } else if k in s.q.rows {
      assert Apply(lib, s, step).value.q.rows[k].id == s.q.rows[k].id;
    }
  }

  lemma RowIdBelow(lib: Lib, s: State, rank: map<Id, nat>, k: Key)
    requires Inv(lib, s, rank)
    ensures k in s.q.rows ==> s.q.rows[k].id <= s.q.seqno
  {
    hide IndexOk, SegmentOk, PcOk;
    if k in s.q.rows { assert RowOk(s.q, k); }
  }

  lemma EnqueueOrigin(lib: Lib, s: State, step: Step, rank: map<Id, nat>, k: Key)
    requires Lawful(lib) && Inv(lib, s, rank) && step.EnqueueStep? && Apply(lib, s, step).Some?
    requires Later(lib, s.q, Apply(lib, s, step).value.q) && k in Apply(lib, s, step).value.q.rows
    requires k in s.q.rows ==> s.q.rows[k].id <= s.q.seqno
    ensures var q' := Apply(lib, s, step).value.q;
      || (k in s.q.rows && Decode(lib, q', q'.rows[k].payload) == Decode(lib, s.q, s.q.rows[k].payload))
      || IsOrigin(lib, step, k, Decode(lib, q', q'.rows[k].payload))
  {
    hide IndexOk, SegmentOk, PcOk, DbOk, Decode, Lawful, Enqueue, Json, Restored, WellFormed;
    EnqueueOthers(lib, s.q, step, k);
    if k !in s.q.rows {
      var _ := EnqueueOk(lib, s.q, k, step.time, step.value, step.now, step.legacy, rank);
    }
  }

  lemma EnqueueOthers(lib: Lib, q: Db, step: Step, k: Key)
    requires step.EnqueueStep?
    ensures var r := Enqueue(lib, q, step.key, step.time, step.value, step.now, step.legacy);
      r.Ok? ==>
        && (k in q.rows ==> k in r.value.rows && r.value.rows[k] == q.rows[k])
        && (k !in q.rows && k in r.value.rows ==> k == step.key)
  {
  }

  /** Every event that a run holds stays held with its id, its time and its meaning, and once
      sealed with all its metadata, until a DeleteStep covers it while it is still active. */
  lemma {:induction false} NothingLost(lib: Lib, s: State, rank: map<Id, nat>, steps: seq<Step>, k: Key)
    returns (rank': map<Id, nat>)
    requires Lawful(lib) && Inv(lib, s, rank) && Run(lib, s, steps).Some?
    requires k in View(lib, s)
    requires forall i :: 0 <= i < |steps| && steps[i].DeleteStep? ==> !Covers(steps[i].event, k)
    ensures var t := Run(lib, s, steps).value;
      && Inv(lib, t, rank')
      && k in View(lib, t)
      && View(lib, t)[k].id == View(lib, s)[k].id
      && View(lib, t)[k].time == View(lib, s)[k].time
      && View(lib, t)[k].created == View(lib, s)[k].created
      && View(lib, t)[k].meaning == View(lib, s)[k].meaning
      && (View(lib, s)[k].sealed ==> View(lib, t)[k] == View(lib, s)[k])
    decreases |steps|
  {
    hide Inv, Lawful, Apply, View, Canon, Stored, Covers;
    if steps == [] {
      rank' := rank;
    } else {
      var before := steps[..|steps| - 1];
      assert forall i :: 0 <= i < |before| ==> before[i] == steps[i];
      var rank1 := NothingLost(lib, s, rank, before, k);
      var mid := Run(lib, s, before).value;
      rank' := StepOk(lib, mid, steps[|steps| - 1], rank1);
    }
  }

  lemma {:induction false} RunSplit(lib: Lib, s: State, steps: seq<Step>, i: nat)
    requires i <= |steps| && Run(lib, s, steps).Some?
    ensures Run(lib, s, steps[..i]).Some? && Run(lib, Run(lib, s, steps[..i]).value, steps[i..]) == Run(lib, s, steps)
    decreases |steps|
  {
    hide Apply;
    if i == |steps| {
      assert steps[..i] == steps;
    } else {
      var n := |steps| - 1;
      RunSplit(lib, s, steps[..n], i);
      assert steps[..n][..i] == steps[..i] && steps[..n][i..] == steps[i..][..n - i];
      assert steps[i..][n - i] == steps[n];
    }
  }

  /** The enqueue at place i of the run stored its event: the key was new and the event could be encoded. */
  ghost predicate StoredAt(lib: Lib, steps: seq<Step>, i: nat) {
    && i < |steps| && steps[i].EnqueueStep? && Run(lib, START, steps[..i]).Some?
    && var s := Run(lib, START, steps[..i]).value;
       steps[i].key !in View(lib, s) && EncodeFor(lib, s.q.store, steps[i].value, steps[i].legacy).Ok?
  }

  /** From an empty queue, through every run with crashes, archiving and recovery anywhere in it: an event
      that was stored, and that no later deletion covers, is held at the end with the meaning of the value
      given and the time given. */
  lemma EnqueuedIsHeld(lib: Lib, steps: seq<Step>, i: nat) returns (rank: map<Id, nat>)
    requires Lawful(lib) && Run(lib, START, steps).Some? && StoredAt(lib, steps, i)
    requires forall j :: i < j < |steps| && steps[j].DeleteStep? ==> !Covers(steps[j].event, steps[i].key)
    ensures var t := Run(lib, START, steps).value; var k := steps[i].key;
      && Inv(lib, t, rank) && k in View(lib, t) && View(lib, t)[k].time == steps[i].time
      && View(lib, t)[k].meaning == Canon(lib, Stored(lib, steps[i].value, steps[i].legacy))
  {
    hide Inv, Lawful, Apply, View, Canon, Stored, Covers, EncodeFor, Later;
    RunSplit(lib, START, steps, i);
    RunSplit(lib, START, steps, i + 1);
    assert steps[..i + 1][..i] == steps[..i] && steps[..i + 1][i] == steps[i];
    var rank0 := RunOk(lib, steps[..i]);
    var s := Run(lib, START, steps[..i]).value;
    var rank1 := StepOk(lib, s, steps[i], rank0);
    var t := Apply(lib, s, steps[i]).value;
    assert t == Run(lib, START, steps[..i + 1]).value;
    rank := NothingLost(lib, t, rank1, steps[i + 1..], steps[i].key);
  }

  /** An enqueue of a key that is held already changes nothing, and one that succeeds always leaves the key
      held. */
  lemma EnqueueHolds(lib: Lib, s: State, step: Step, rank: map<Id, nat>)
    requires Lawful(lib) && Inv(lib, s, rank) && step.EnqueueStep? && Apply(lib, s, step).Some?
    ensures step.key in View(lib, Apply(lib, s, step).value) <==>
      step.key in View(lib, s) || EncodeFor(lib, s.q.store, step.value, step.legacy).Ok?
  {
    hide Inv, Lawful, Apply, View, Canon, Stored, EncodeFor, Later;
    var _ := StepOk(lib, s, step, rank);
  }
}

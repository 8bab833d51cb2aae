/** Which events a publication seals: in terms of what a user saw when the archiver selected, over every run. */
module Sealing {
  import opened Content
  import opened Graph
  import opened Copy
  import opened Collect
  import opened Database
  import opened Archive
  import opened ArchiveSafety

  /** The archiver holds the rows it selected. */
  predicate HasBatch(pc: Pc) {
    pc.Selected? || pc.Copying? || pc.Verifying?
  }

  lemma BatchKept(lib: Lib, s: State, step: Step)
    requires Apply(lib, s, step).Some? && !step.SelectStep? && HasBatch(Apply(lib, s, step).value.pc)
    ensures HasBatch(s.pc) && Apply(lib, s, step).value.pc.recs == s.pc.recs
  {
    hide EncodeFor, Selection, Unreferenced, Decode, CopyPayload, InsertRecord, SameJson, Covers, WellFormed, WithId;
  }

  /** What is held was selected by the last SelectStep of the run. */
  lemma {:induction false} BatchFrom(lib: Lib, steps: seq<Step>) returns (i: nat)
    requires Run(lib, START, steps).Some? && HasBatch(Run(lib, START, steps).value.pc)
    ensures i < |steps| && steps[i].SelectStep? && forall j :: i < j < |steps| ==> !steps[j].SelectStep?
    ensures Run(lib, START, steps[..i]).Some?
    ensures Selection(Run(lib, START, steps[..i]).value.q, steps[i].before, Batch(steps[i].limit), Run(lib, START, steps).value.pc.recs)
    decreases |steps|
  {
    hide Apply, Selection;
    assert steps != [];
    var n := |steps| - 1;
    var s := Run(lib, START, steps[..n]).value;
    if steps[n].SelectStep? {
      i := n;
      SelectedNow(lib, s, steps[n]);
    } else {
      BatchKept(lib, s, steps[n]);
      i := BatchFrom(lib, steps[..n]);
      assert steps[..n][..i] == steps[..i];
      assert forall j :: i < j < n ==> steps[..n][j] == steps[j];
    }
  }

  lemma SelectedNow(lib: Lib, s: State, step: Step)
    requires step.SelectStep? && Apply(lib, s, step).Some?
    ensures var t := Apply(lib, s, step).value; HasBatch(t.pc) && t.pc.recs == step.recs && Selection(s.q, step.before, Batch(step.limit), step.recs)
  {
    hide Selection;
  }

  // ---------------------------------------------------------------- in terms of the view

  /** The events that one view shows active and the other sealed. */
  ghost function Sealed(b: map<Key, Entry>, c: map<Key, Entry>): set<Key> {
    set k | k in b && k in c && !b[k].sealed && c[k].sealed
  }

  /** Active, acknowledged, and last touched before the given time. */
  ghost predicate Old(v: map<Key, Entry>, k: Key, before: int) {
    k in v && !v[k].sealed && v[k].status == PUSHED && v[k].updated < before
  }

  /** Between the views `a` at selection and `b` at publication, the publication that leads to `c` seals events
      that were old at both moments and unchanged between them; one that was old at selection is left only if
      the batch is full of events with smaller ids. */
  ghost predicate Archives(a: map<Key, Entry>, b: map<Key, Entry>, c: map<Key, Entry>, before: int, limit: nat) {
    var keys := Sealed(b, c);
    && c == (map k | k in b :: if k in keys then b[k].(sealed := true) else b[k])
    && |keys| <= limit
    && (forall k :: k in keys ==> Old(a, k, before) && Old(b, k, before) && b[k] == a[k].(meaning := b[k].meaning))
    && (forall k :: Old(a, k, before) && k !in keys ==> |keys| == limit && forall x :: x in keys ==> a[x].id < a[k].id)
  }

  lemma SealedExactly(lib: Lib, steps: seq<Step>) returns (i: nat)
    requires Lawful(lib) && steps != [] && steps[|steps| - 1].Publish? && Run(lib, START, steps).Some?
    ensures i < |steps| - 1 && steps[i].SelectStep? && forall j :: i < j < |steps| ==> !steps[j].SelectStep?
    ensures Run(lib, START, steps[..i]).Some? && Run(lib, START, steps[..|steps| - 1]).Some?
    ensures Archives(View(lib, Run(lib, START, steps[..i]).value), View(lib, Run(lib, START, steps[..|steps| - 1]).value),
                     View(lib, Run(lib, START, steps).value), steps[i].before, Batch(steps[i].limit))
  {
    hide Inv, Lawful, Apply, View, Selection, Archives, Published, Seals;
    var n := |steps| - 1;
    var b := Run(lib, START, steps[..n]).value;
    PublishPc(lib, b, steps[n].order);
    i := BatchFrom(lib, steps[..n]);
    assert steps[..n][..i] == steps[..i];
    assert forall j :: i < j < n ==> steps[..n][j] == steps[j];
    var rank1 := RunOk(lib, steps[..i]);
    var rank2 := RunOk(lib, steps[..n]);
    BatchSealed(lib, Run(lib, START, steps[..i]).value, b, steps[n].order, rank1, rank2, steps[i].before, Batch(steps[i].limit));
  }

  lemma BatchSealed(lib: Lib, a: State, b: State, order: seq<Path>, rank1: map<Id, nat>, rank2: map<Id, nat>, before: int, limit: nat)
    requires Inv(lib, a, rank1) && Inv(lib, b, rank2) && Apply(lib, b, Publish(order)).Some?
    requires Selection(a.q, before, limit, b.pc.recs)
    ensures Archives(View(lib, a), View(lib, b), View(lib, Published(b, order)), before, limit)
  {
    hide Inv, Apply, View, Selection, Published, KeysOf;
    PublishPc(lib, b, order);
    PublishStepOk(lib, b, order, rank2);
    var recs := b.pc.recs;
    var keys := KeysOf(recs);
    var va, vb, vc := View(lib, a), View(lib, b), View(lib, Published(b, order));
    assert Sealed(vb, vc) == keys;
    KeysCount(a.q, before, limit, recs, |recs|);
    assert recs[..|recs|] == recs;
    SelectionSize(a.q, before, limit, recs);
    forall k | k in keys ensures Old(va, k, before) && Old(vb, k, before) && vb[k] == va[k].(meaning := vb[k].meaning) {
      SealedKey(lib, a, b, order, rank1, rank2, before, limit, k);
    }
    forall k | Old(va, k, before) && k !in keys ensures |keys| == limit && forall x :: x in keys ==> va[x].id < va[k].id {
      LeftKey(lib, a, rank1, before, limit, recs, k);
    }
  }

  lemma SelectionSize(q: Db, before: int, limit: nat, recs: seq<Record>)
    requires Selection(q, before, limit, recs)
    ensures |recs| <= limit
  {
  }

  lemma {:induction false} KeysCount(q: Db, before: int, limit: nat, recs: seq<Record>, n: nat)
    requires Selection(q, before, limit, recs) && n <= |recs|
    ensures |KeysOf(recs[..n])| == n
  {
    hide KeysOf;
    if n > 0 {
      KeysCount(q, before, limit, recs, n - 1);
      KeysOfStep(recs, n - 1);
      KeyAbsent(q, before, limit, recs, n - 1);
    } else {
      NoKeys(recs);
    }
  }

  lemma NoKeys(recs: seq<Record>)
    ensures KeysOf(recs[..0]) == {}
  {
  }

  lemma KeyAbsent(q: Db, before: int, limit: nat, recs: seq<Record>, n: nat)
    requires Selection(q, before, limit, recs) && n < |recs|
    ensures recs[n].key !in KeysOf(recs[..n])
  {
  }

  lemma SealedKey(lib: Lib, a: State, b: State, order: seq<Path>, rank1: map<Id, nat>, rank2: map<Id, nat>, before: int, limit: nat, k: Key)
    requires Inv(lib, a, rank1) && Inv(lib, b, rank2) && Apply(lib, b, Publish(order)).Some?
    requires Selection(a.q, before, limit, b.pc.recs) && k in KeysOf(b.pc.recs)
    ensures Old(View(lib, a), k, before) && Old(View(lib, b), k, before)
    ensures View(lib, b)[k] == View(lib, a)[k].(meaning := View(lib, b)[k].meaning)
  {
    hide Inv, View, Apply, Canon, Decode;
    PublishPc(lib, b, order);
    var i :| 0 <= i < |b.pc.recs| && b.pc.recs[i].key == k;
    ViewAt(lib, a, rank1);
    ViewAt(lib, b, rank2);
    UnchangedRow(lib, b, order, rank2, i);
  }

  lemma UnchangedRow(lib: Lib, s: State, order: seq<Path>, rank: map<Id, nat>, i: nat)
    requires Inv(lib, s, rank) && Apply(lib, s, Publish(order)).Some? && i < |s.pc.recs|
    ensures var r := s.pc.recs[i]; r.key in s.q.rows && s.q.rows[r.key] == r.(payload := s.q.rows[r.key].payload)
  {
    hide Consistent, Decode, IndexOk, SegmentOk, KeysOf, RowOk, IdsDistinct, Published, Verified;
    WithIdIsSelected(lib, s, s.pc.recs, i, rank);
  }

  lemma LeftKey(lib: Lib, a: State, rank: map<Id, nat>, before: int, limit: nat, recs: seq<Record>, k: Key)
    requires Inv(lib, a, rank) && Selection(a.q, before, limit, recs) && Old(View(lib, a), k, before) && k !in KeysOf(recs)
    ensures |recs| == limit && forall x :: x in KeysOf(recs) ==> x in View(lib, a) && View(lib, a)[x].id < View(lib, a)[k].id
  {
    hide Inv, View, Canon, Decode;
    ViewAt(lib, a, rank);
    assert k in a.q.rows;
    forall x | x in KeysOf(recs) ensures x in View(lib, a) && View(lib, a)[x].id < View(lib, a)[k].id {
      var i :| 0 <= i < |recs| && recs[i].key == x;
    }
  }
}

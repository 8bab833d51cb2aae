/** An archive call that nothing disturbs does its work: from selection to publication, in the steps of
    internal/queue/maintenance.go. */
module Progress {
  import opened Basics
  import opened Content
  import opened Graph
  import opened Copy
  import opened Transfer
  import opened Database
  import opened Archive
  import opened ArchiveSafety

  /** The row can be copied into an empty database, with no other objects than `objs`, and restores there to the
      JSON it restores to now. */
  ghost predicate Movable(lib: Lib, q: Db, objs: map<Id, Bytes>, p: Payload) {
    var r := CopyPayload(lib, q.store.content, EMPTY.store, p);
    && r.Ok? && Held(lib, r.value.0.content, objs)
    && SameJson(lib, Decode(lib, q, p), DecodePayload(lib, r.value.0.content, r.value.1))
  }

  ghost predicate AllMovable(lib: Lib, q: Db, objs: map<Id, Bytes>, recs: seq<Record>) {
    forall i :: 0 <= i < |recs| ==> Movable(lib, q, objs, recs[i].payload)
  }

  /** The selected rows as they are in the database, in the order of their ids. */
  ghost predicate Rows(q: Db, recs: seq<Record>) {
    && (forall i :: 0 <= i < |recs| ==> recs[i].key in q.rows && q.rows[recs[i].key] == recs[i])
    && (forall i, j :: 0 <= i < j < |recs| ==> recs[i].id < recs[j].id)
  }

  // ---------------------------------------------------------------- copying

  /** The segment holds the row with its metadata and equal JSON. */
  ghost predicate Carries(lib: Lib, q: Db, dest: Db, r: Record) {
    && r.key in dest.rows && dest.rows[r.key] == r.(payload := dest.rows[r.key].payload)
    && SameJson(lib, Decode(lib, q, r.payload), Decode(lib, dest, dest.rows[r.key].payload))
  }

  /** The segment after the first `n` rows. */
  ghost predicate Filled(lib: Lib, q: Db, objs: map<Id, Bytes>, recs: seq<Record>, n: nat, dest: Db)
    requires n <= |recs|
  {
    && Clean(lib, dest.store, objs)
    && (forall k :: k in dest.rows ==> exists i :: 0 <= i < n && recs[i].key == k)
    && (forall i :: 0 <= i < n ==> Carries(lib, q, dest, recs[i]))
  }

  lemma RowById(q: Db, recs: seq<Record>, i: nat)
    requires Rows(q, recs) && i < |recs| && IdsDistinct(q.rows)
    ensures WithId(q.rows, recs[i].id) == Some(recs[i])
  {
    assert q.rows[recs[i].key].id == recs[i].id;
  }

  lemma SegmentById(lib: Lib, q: Db, objs: map<Id, Bytes>, recs: seq<Record>, dest: Db, i: nat)
    requires Rows(q, recs) && i < |recs| && Filled(lib, q, objs, recs, |recs|, dest)
    ensures recs[i].key in dest.rows && WithId(dest.rows, recs[i].id) == Some(dest.rows[recs[i].key])
  {
    hide Decode, Clean, SameJson;
    assert Carries(lib, q, dest, recs[i]);
    forall k | k in dest.rows && dest.rows[k].id == recs[i].id ensures k == recs[i].key {
      var j :| 0 <= j < |recs| && recs[j].key == k;
      assert Carries(lib, q, dest, recs[j]);
    }
  }

  /** A row whose payload can be moved is copied beside the others. */
  lemma PayloadMoves(lib: Lib, q: Db, objs: map<Id, Bytes>, p: Payload, store: Store)
    requires ZlibLaw(lib) && Clean(lib, store, objs) && Movable(lib, q, objs, p)
    ensures var r := CopyPayload(lib, q.store.content, store, p);
      r.Ok? && Clean(lib, r.value.0, objs) && SameJson(lib, Decode(lib, q, p), DecodePayload(lib, r.value.0.content, r.value.1))
    ensures Keeps(store.content, CopyPayload(lib, q.store.content, store, p).value.0.content)
  {
    hide ZlibLaw, CopyPayload, DecodePayload, JsonEqual, Keeps, Anchored, Tidy;
    assert Clean(lib, EMPTY.store, objs) by { NothingHere(lib, objs); }
    CopyTransfers(lib, q.store.content, EMPTY.store, store, p, objs);
    CopyGrows(lib, q.store.content, store, p);
    var (alone, moved) := CopyPayload(lib, q.store.content, EMPTY.store, p).value;
    var content := CopyPayload(lib, q.store.content, store, p).value.0.content;
    HeldExtends(lib, alone.content, content, objs);
    DecodeExtends(lib, alone.content, content, moved);
  }

  lemma NothingHere(lib: Lib, objs: map<Id, Bytes>)
    ensures Clean(lib, EMPTY.store, objs)
  {
  }

  /** What a row restores to in the segment stays while rows are added. */
  lemma CarriesStill(lib: Lib, q: Db, objs: map<Id, Bytes>, dest: Db, dest': Db, r: Record)
    requires Carries(lib, q, dest, r) && Clean(lib, dest.store, objs) && Clean(lib, dest'.store, objs)
    requires Keeps(dest.store.content, dest'.store.content) && r.key in dest'.rows && dest'.rows[r.key] == dest.rows[r.key]
    ensures Carries(lib, q, dest', r)
  {
    hide DecodePayload, JsonEqual, Anchored;
    HeldExtends(lib, dest.store.content, dest'.store.content, objs);
    DecodeExtends(lib, dest.store.content, dest'.store.content, dest.rows[r.key].payload);
  }

  /** One turn of the copy loop. */
  lemma CopyNext(lib: Lib, s: State, objs: map<Id, Bytes>)
    requires ZlibLaw(lib) && IdsDistinct(s.q.rows) && s.pc.Copying? && s.pc.n < |s.pc.recs| && Rows(s.q, s.pc.recs)
    requires AllMovable(lib, s.q, objs, s.pc.recs) && Filled(lib, s.q, objs, s.pc.recs, s.pc.n, s.pc.dest)
    ensures var t := Apply(lib, s, CopyOne);
      && t.Some? && t.value.pc.Copying? && t.value == s.(pc := s.pc.(n := s.pc.n + 1, dest := t.value.pc.dest))
      && Filled(lib, s.q, objs, s.pc.recs, s.pc.n + 1, t.value.pc.dest)
  {
    hide ZlibLaw, CopyPayload, Decode, SameJson, Movable, Keeps, Clean, WithId, Carries;
    var recs, n, dest := s.pc.recs, s.pc.n, s.pc.dest;
    var r := recs[n];
    RowById(s.q, recs, n);
    assert Movable(lib, s.q, objs, r.payload);
    PayloadMoves(lib, s.q, objs, r.payload, dest.store);
    var (store, moved) := CopyPayload(lib, s.q.store.content, dest.store, r.payload).value;
    NewInSegment(lib, s.q, objs, recs, n, dest);
    RestoresHere(lib, s.q, dest.(store := store), r.payload, moved);
    var dest' := InsertRecord(lib, dest.(store := store), r.(payload := moved)).value;
    assert Apply(lib, s, CopyOne) == Some(s.(pc := s.pc.(n := n + 1, dest := dest')));
    hide Apply, InsertRecord;
    InsertedRow(lib, s.q, dest, store, r, moved);
    forall i | 0 <= i < n + 1 ensures Carries(lib, s.q, dest', recs[i]) {
      if i < n {
        assert Carries(lib, s.q, dest, recs[i]);
        CarriesRow(lib, s.q, dest, recs[i]);
        CarriesStill(lib, s.q, objs, dest, dest', recs[i]);
      }
    }
    forall k | k in dest'.rows ensures exists i :: 0 <= i < n + 1 && recs[i].key == k {
      if k != r.key {
        var i :| 0 <= i < n && recs[i].key == k;
      }
    }
  }

  lemma CarriesRow(lib: Lib, q: Db, dest: Db, r: Record)
    requires Carries(lib, q, dest, r)
    ensures r.key in dest.rows && dest.rows[r.key].id == r.id
  {
  }

  lemma NewInSegment(lib: Lib, q: Db, objs: map<Id, Bytes>, recs: seq<Record>, n: nat, dest: Db)
    requires Rows(q, recs) && n < |recs| && Filled(lib, q, objs, recs, n, dest)
    ensures recs[n].key !in dest.rows && forall k :: k in dest.rows ==> dest.rows[k].id != recs[n].id
  {
    hide Decode, Clean, SameJson;
    forall k | k in dest.rows ensures k != recs[n].key && dest.rows[k].id != recs[n].id {
      var i :| 0 <= i < n && recs[i].key == k;
      assert Carries(lib, q, dest, recs[i]);
    }
  }

  lemma RestoresHere(lib: Lib, q: Db, dest: Db, p: Payload, moved: Payload)
    requires SameJson(lib, Decode(lib, q, p), DecodePayload(lib, dest.store.content, moved))
    ensures Decode(lib, dest, moved).Some?
  {
  }

  lemma InsertedRow(lib: Lib, q: Db, dest: Db, store: Store, r: Record, moved: Payload)
    requires InsertRecord(lib, dest.(store := store), r.(payload := moved)).Ok?
    requires SameJson(lib, Decode(lib, q, r.payload), DecodePayload(lib, store.content, moved))
    ensures var dest' := InsertRecord(lib, dest.(store := store), r.(payload := moved)).value;
      && dest'.store == store && dest'.rows == dest.rows[r.key := r.(payload := moved)] && Carries(lib, q, dest', r)
  {
    hide DecodePayload, JsonEqual;
  }

  // ---------------------------------------------------------------- runs of steps

  lemma {:induction false} RunThen(lib: Lib, s: State, a: seq<Step>, b: seq<Step>)
    ensures Run(lib, s, a + b) == match Run(lib, s, a) { case None => None case Some(t) => Run(lib, t, b) }
    decreases |b|
  {
    hide Apply;
    if b == [] {
      assert a + b == a;
    } else {
      var n := |b| - 1;
      assert (a + b)[..|a + b| - 1] == a + b[..n];
      RunThen(lib, s, a, b[..n]);
    }
  }

  lemma RunOne(lib: Lib, s: State, step: Step)
    ensures Run(lib, s, [step]) == Apply(lib, s, step)
  {
    hide Apply;
    assert [step][..0] == [];
  }

  function Times(step: Step, n: nat): (r: seq<Step>)
    ensures |r| == n && forall i :: 0 <= i < n ==> r[i] == step
  {
    if n == 0 then [] else Times(step, n - 1) + [step]
  }

  lemma RunMore(lib: Lib, s: State, step: Step, n: nat)
    ensures Run(lib, s, Times(step, n + 1)) == match Run(lib, s, Times(step, n)) { case None => None case Some(t) => Apply(lib, t, step) }
  {
    hide Apply;
    assert Times(step, n + 1)[..n] == Times(step, n);
  }

  lemma {:induction false} CopiesAll(lib: Lib, s: State, objs: map<Id, Bytes>, n: nat) returns (dest: Db)
    requires ZlibLaw(lib) && IdsDistinct(s.q.rows) && s.pc.Copying? && s.pc.n == 0 && s.pc.dest == EMPTY && Rows(s.q, s.pc.recs)
    requires AllMovable(lib, s.q, objs, s.pc.recs) && n <= |s.pc.recs|
    ensures Run(lib, s, Times(CopyOne, n)) == Some(s.(pc := s.pc.(n := n, dest := dest)))
    ensures Filled(lib, s.q, objs, s.pc.recs, n, dest)
  {
    hide Apply, Filled, AllMovable, ZlibLaw, IdsDistinct;
    if n == 0 {
      dest := EMPTY;
      assert Times(CopyOne, 0) == [];
      StartsFilled(lib, s.q, objs, s.pc.recs);
    } else {
      dest := CopiesAll(lib, s, objs, n - 1);
      var t := s.(pc := s.pc.(n := n - 1, dest := dest));
      CopyNext(lib, t, objs);
      RunMore(lib, s, CopyOne, n - 1);
      dest := Apply(lib, t, CopyOne).value.pc.dest;
    }
  }

  lemma StartsFilled(lib: Lib, q: Db, objs: map<Id, Bytes>, recs: seq<Record>)
    ensures Filled(lib, q, objs, recs, 0, EMPTY)
  {
  }

  lemma VerifyNext(lib: Lib, s: State, objs: map<Id, Bytes>)
    requires IdsDistinct(s.q.rows) && s.pc.Verifying? && s.pc.n < |s.pc.recs| && Rows(s.q, s.pc.recs) && s.pc.path in s.files
    requires Filled(lib, s.q, objs, s.pc.recs, |s.pc.recs|, s.files[s.pc.path])
    ensures Apply(lib, s, VerifyOne) == Some(s.(pc := Verifying(s.pc.path, s.pc.recs, s.pc.n + 1)))
  {
    hide Decode, SameJson, Clean, WithId;
    RowById(s.q, s.pc.recs, s.pc.n);
    SegmentById(lib, s.q, objs, s.pc.recs, s.files[s.pc.path], s.pc.n);
    assert Carries(lib, s.q, s.files[s.pc.path], s.pc.recs[s.pc.n]);
  }

  lemma {:induction false} VerifiesAll(lib: Lib, s: State, objs: map<Id, Bytes>, n: nat)
    requires IdsDistinct(s.q.rows) && s.pc.Verifying? && s.pc.n == 0 && Rows(s.q, s.pc.recs) && s.pc.path in s.files
    requires Filled(lib, s.q, objs, s.pc.recs, |s.pc.recs|, s.files[s.pc.path]) && n <= |s.pc.recs|
    ensures Run(lib, s, Times(VerifyOne, n)) == Some(s.(pc := Verifying(s.pc.path, s.pc.recs, n)))
  {
    hide Apply, Filled, IdsDistinct;
    if n == 0 {
      assert Times(VerifyOne, 0) == [];
    } else {
      VerifiesAll(lib, s, objs, n - 1);
      VerifyNext(lib, s.(pc := Verifying(s.pc.path, s.pc.recs, n - 1)), objs);
      RunMore(lib, s, VerifyOne, n - 1);
    }
  }

  // ---------------------------------------------------------------- recovery

  /** The recovery loop over these intents. */
  function RecoverySteps(order: seq<Path>, catalog: set<Path>): seq<Step> {
    if order == [] then [] else
    var p := order[|order| - 1];
    RecoverySteps(order[..|order| - 1], catalog) + (if p in catalog then [] else [RemoveOrphan]) + [ForgetIntent]
  }

  function Orphans(order: seq<Path>, catalog: set<Path>): set<Path> {
    set p | p in order && p !in catalog
  }

  /** The state once the first `n` intents have been dealt with. */
  function RecoveredTo(s: State, order: seq<Path>, n: nat, thenArchive: bool): State
    requires n <= |order|
  {
    s.(intents := s.intents - (set p | p in order[..n]), files := s.files - Orphans(order[..n], s.catalog), pc := Recovering(order[n..], thenArchive))
  }

  lemma RecoverNext(lib: Lib, s: State, order: seq<Path>, n: nat, thenArchive: bool)
    requires n < |order| && (order[n] in s.catalog ==> order[n] in s.files)
    ensures var t := RecoveredTo(s, order, n, thenArchive);
      Run(lib, t, (if order[n] in s.catalog then [] else [RemoveOrphan]) + [ForgetIntent]) == Some(RecoveredTo(s, order, n + 1, thenArchive))
  {
    hide Apply, Run;
    var t, p := RecoveredTo(s, order, n, thenArchive), order[n];
    var u := if p in s.catalog then t else t.(files := t.files - {p});
    assert t.pc.todo[0] == p && t.pc.todo[1..] == order[n + 1..];
    if p in s.catalog {
      assert [] + [ForgetIntent] == [ForgetIntent];
    } else {
      Removes(lib, t, p);
      RunOne(lib, t, RemoveOrphan);
      RunThen(lib, t, [RemoveOrphan], [ForgetIntent]);
    }
    NextPlace(s, order, n, thenArchive);
    Forgets(lib, u, p);
    RunOne(lib, u, ForgetIntent);
  }

  lemma Removes(lib: Lib, t: State, p: Path)
    requires t.pc.Recovering? && t.pc.todo != [] && t.pc.todo[0] == p && p !in t.catalog
    ensures Apply(lib, t, RemoveOrphan) == Some(t.(files := t.files - {p}))
  {
  }

  lemma Forgets(lib: Lib, t: State, p: Path)
    requires t.pc.Recovering? && t.pc.todo != [] && t.pc.todo[0] == p && (p in t.catalog <==> p in t.files)
    ensures Apply(lib, t, ForgetIntent) == Some(t.(intents := t.intents - {p}, pc := Recovering(t.pc.todo[1..], t.pc.thenArchive)))
  {
  }

  lemma NextPlace(s: State, order: seq<Path>, n: nat, thenArchive: bool)
    requires n < |order|
    ensures var t, u, p := RecoveredTo(s, order, n, thenArchive), RecoveredTo(s, order, n + 1, thenArchive), order[n];
      && u.intents == t.intents - {p} && u.files == if p in s.catalog then t.files else t.files - {p}
    ensures order[n] in s.catalog && order[n] in s.files ==> order[n] in RecoveredTo(s, order, n, thenArchive).files
  {
    var p := order[n];
    assert order[..n + 1] == order[..n] + [p];
    assert Orphans(order[..n + 1], s.catalog) == Orphans(order[..n], s.catalog) + if p in s.catalog then {} else {p};
  }

  lemma {:induction false} RecoversTo(lib: Lib, s: State, order: seq<Path>, n: nat, thenArchive: bool)
    requires n <= |order| && forall p :: p in order && p in s.catalog ==> p in s.files
    ensures Run(lib, RecoveredTo(s, order, 0, thenArchive), RecoverySteps(order[..n], s.catalog)) == Some(RecoveredTo(s, order, n, thenArchive))
  {
    hide Apply, RecoveredTo;
    var start := RecoveredTo(s, order, 0, thenArchive);
    if n == 0 {
      assert order[..0] == [];
    } else {
      RecoversTo(lib, s, order, n - 1, thenArchive);
      assert order[..n][..n - 1] == order[..n - 1] && order[..n][n - 1] == order[n - 1];
      var last := (if order[n - 1] in s.catalog then [] else [RemoveOrphan]) + [ForgetIntent];
      RecoverNext(lib, s, order, n - 1, thenArchive);
      RunThen(lib, start, RecoverySteps(order[..n - 1], s.catalog), last);
      assert RecoverySteps(order[..n], s.catalog) == RecoverySteps(order[..n - 1], s.catalog) + last;
    }
  }

  /** From every state that a crash leaves, recovery runs to its end: no intent is left, the files are the catalogued
      segments, and nobody sees a difference. */
  lemma RecoveryRuns(lib: Lib, s: State, rank: map<Id, nat>, order: seq<Path>)
    requires Lawful(lib) && Inv(lib, s, rank) && s.pc.Idle? && Enumerates(order, s.intents)
    ensures var t := Run(lib, s, [StartRecovery(order, false)] + RecoverySteps(order, s.catalog) + [RecoveryDone]);
      && t.Some? && t.value.pc.Idle? && t.value.intents == {} && t.value.files.Keys == s.catalog
      && t.value.q == s.q && t.value.archived == s.archived && View(lib, t.value) == View(lib, s)
  {
    hide Inv, Apply, Run, View, Lawful, RecoveredTo, RecoverySteps;
    Present(lib, s, rank);
    NoneRecovered(s, order);
    Starts(lib, s, order);
    RunOne(lib, s, StartRecovery(order, false));
    assert order[..|order|] == order;
    RecoversTo(lib, s, order, |order|, false);
    var done := RecoveredTo(s, order, |order|, false);
    AllRecovered(s, order);
    Ends(lib, done);
    RunOne(lib, done, RecoveryDone);
    RunThen(lib, s, [StartRecovery(order, false)], RecoverySteps(order, s.catalog));
    RunThen(lib, s, [StartRecovery(order, false)] + RecoverySteps(order, s.catalog), [RecoveryDone]);
    RecoveredView(lib, s, rank, done.(pc := Idle));
  }

  lemma Starts(lib: Lib, s: State, order: seq<Path>)
    requires s.pc.Idle? && Enumerates(order, s.intents)
    ensures Apply(lib, s, StartRecovery(order, false)) == Some(s.(pc := Recovering(order, false)))
  {
  }

  lemma Ends(lib: Lib, s: State)
    requires s.pc == Recovering([], false)
    ensures Apply(lib, s, RecoveryDone) == Some(s.(pc := Idle))
  {
  }

  lemma Present(lib: Lib, s: State, rank: map<Id, nat>)
    requires Inv(lib, s, rank)
    ensures (forall p :: p in s.catalog ==> p in s.files) && s.files.Keys <= s.catalog + s.intents
  {
    hide DbOk, PcOk, IndexOk;
    forall p | p in s.catalog ensures p in s.files {
      assert SegmentOk(s, p);
    }
  }

  lemma NoneRecovered(s: State, order: seq<Path>)
    ensures RecoveredTo(s, order, 0, false) == s.(pc := Recovering(order, false))
  {
    assert order[..0] == [] && order[0..] == order;
    assert s.intents - (set p | p in order[..0]) == s.intents;
    assert Orphans(order[..0], s.catalog) == {} && s.files - {} == s.files;
  }

  lemma AllRecovered(s: State, order: seq<Path>)
    requires Enumerates(order, s.intents) && s.files.Keys <= s.catalog + s.intents && forall p :: p in s.catalog ==> p in s.files
    ensures var t := RecoveredTo(s, order, |order|, false);
      && t == s.(intents := {}, files := t.files, pc := Recovering([], false))
      && t.files.Keys == s.catalog && forall p :: p in t.files ==> t.files[p] == s.files[p]
  {
    assert order[..|order|] == order && order[|order|..] == [];
  }

  lemma RecoveredView(lib: Lib, s: State, rank: map<Id, nat>, t: State)
    requires Inv(lib, s, rank) && t.q == s.q && t.archived == s.archived && t.catalog == s.catalog && t.intents == {} && t.pc.Idle?
    requires t.files.Keys == s.catalog && forall p :: p in t.files ==> p in s.files && t.files[p] == s.files[p]
    ensures View(lib, t) == View(lib, s)
  {
    hide DbOk, View, IndexOk, SegmentOk;
    assert PcOk(lib, t);
    QuietStep(lib, s, t, rank);
  }

  // ---------------------------------------------------------------- the call

  function Opening(path: Path, before: int, limit: int, recs: seq<Record>): seq<Step> {
    [StartRecovery([], true)] + [RecoveryDone] + [WriteIntent(path)] + [SelectStep(before, limit, recs)] + [OpenSegment]
  }

  /** One call of Archive with nothing in between. */
  function Call(path: Path, before: int, limit: int, recs: seq<Record>): seq<Step> {
    Opening(path, before, limit, recs) + Times(CopyOne, |recs|) + [Commit] + Times(VerifyOne, |recs|)
      + [Publish([path])] + [ForgetIntent, RecoveryDone]
  }

  lemma RunsOpening(lib: Lib, s: State, path: Path, before: int, limit: int, recs: seq<Record>)
    requires s.pc.Idle? && s.intents == {} && path !in s.catalog && path !in s.files
    requires recs != [] && Selection(s.q, before, Batch(limit), recs)
    ensures Run(lib, s, Opening(path, before, limit, recs)) ==
      Some(s.(intents := {path}, files := s.files[path := EMPTY], pc := Copying(path, recs, 0, EMPTY)))
  {
    hide Apply, Run, Selection, Batch;
    var s1, s2 := s.(pc := Recovering([], true)), s.(pc := Ready);
    var s3, s4 := s.(intents := {path}, pc := Intended(path)), s.(intents := {path}, pc := Selected(path, recs));
    OpeningSteps(lib, s, path, before, limit, recs);
    RunOne(lib, s, StartRecovery([], true));
    RunOne(lib, s1, RecoveryDone);
    RunOne(lib, s2, WriteIntent(path));
    RunOne(lib, s3, SelectStep(before, limit, recs));
    RunOne(lib, s4, OpenSegment);
    RunThen(lib, s, [StartRecovery([], true)], [RecoveryDone]);
    RunThen(lib, s, [StartRecovery([], true)] + [RecoveryDone], [WriteIntent(path)]);
    RunThen(lib, s, [StartRecovery([], true)] + [RecoveryDone] + [WriteIntent(path)], [SelectStep(before, limit, recs)]);
    RunThen(lib, s, [StartRecovery([], true)] + [RecoveryDone] + [WriteIntent(path)] + [SelectStep(before, limit, recs)], [OpenSegment]);
  }

  lemma OpeningSteps(lib: Lib, s: State, path: Path, before: int, limit: int, recs: seq<Record>)
    requires s.pc.Idle? && s.intents == {} && path !in s.catalog && path !in s.files
    requires recs != [] && Selection(s.q, before, Batch(limit), recs)
    ensures Apply(lib, s, StartRecovery([], true)) == Some(s.(pc := Recovering([], true)))
    ensures Apply(lib, s.(pc := Recovering([], true)), RecoveryDone) == Some(s.(pc := Ready))
    ensures Apply(lib, s.(pc := Ready), WriteIntent(path)) == Some(s.(intents := {path}, pc := Intended(path)))
    ensures Apply(lib, s.(intents := {path}, pc := Intended(path)), SelectStep(before, limit, recs)) == Some(s.(intents := {path}, pc := Selected(path, recs)))
    ensures Apply(lib, s.(intents := {path}, pc := Selected(path, recs)), OpenSegment) ==
      Some(s.(intents := {path}, files := s.files[path := EMPTY], pc := Copying(path, recs, 0, EMPTY)))
  {
    hide Selection, Decode, CopyPayload, InsertRecord, Batch;
    assert s.intents + {path} == {path};
  }

  /** Up to publication. */
  lemma RunsToPublication(lib: Lib, s: State, rank: map<Id, nat>, path: Path, before: int, limit: int, recs: seq<Record>, objs: map<Id, Bytes>)
    returns (dest: Db)
    requires ZlibLaw(lib) && Inv(lib, s, rank) && s.pc.Idle? && s.intents == {} && path !in s.catalog && path !in s.files
    requires recs != [] && Selection(s.q, before, Batch(limit), recs) && AllMovable(lib, s.q, objs, recs)
    ensures Run(lib, s, Opening(path, before, limit, recs) + Times(CopyOne, |recs|) + [Commit] + Times(VerifyOne, |recs|)) ==
      Some(s.(intents := {path}, files := s.files[path := dest], pc := Verifying(path, recs, |recs|)))
  {
    hide Inv, Apply, Run, Selection, AllMovable, ZlibLaw, IdsDistinct, Filled, Opening, Times, Batch;
    SelectedRows(lib, s, rank, before, Batch(limit), recs);
    RunsOpening(lib, s, path, before, limit, recs);
    var s1 := s.(intents := {path}, files := s.files[path := EMPTY], pc := Copying(path, recs, 0, EMPTY));
    dest := CopiesAll(lib, s1, objs, |recs|);
    var s2 := s1.(pc := Copying(path, recs, |recs|, dest));
    var s3 := s.(intents := {path}, files := s.files[path := dest], pc := Verifying(path, recs, 0));
    RunOne(lib, s2, Commit);
    Commits(lib, s2, s3);
    VerifiesAll(lib, s3, objs, |recs|);
    var a := Opening(path, before, limit, recs);
    RunThen(lib, s, a, Times(CopyOne, |recs|));
    RunThen(lib, s, a + Times(CopyOne, |recs|), [Commit]);
    RunThen(lib, s, a + Times(CopyOne, |recs|) + [Commit], Times(VerifyOne, |recs|));
  }

  lemma Commits(lib: Lib, s: State, t: State)
    requires s.pc.Copying? && s.pc.n == |s.pc.recs|
    requires t == s.(files := s.files[s.pc.path := s.pc.dest], pc := Verifying(s.pc.path, s.pc.recs, 0))
    ensures Apply(lib, s, Commit) == Some(t)
  {
  }

  lemma SelectedRows(lib: Lib, s: State, rank: map<Id, nat>, before: int, limit: nat, recs: seq<Record>)
    requires Inv(lib, s, rank) && Selection(s.q, before, limit, recs)
    ensures Rows(s.q, recs) && IdsDistinct(s.q.rows) && forall i :: 0 <= i < |recs| ==> recs[i].key !in s.archived
  {
    hide Consistent, PcOk, SegmentOk, RowOk;
    forall i | 0 <= i < |recs| ensures recs[i].key !in s.archived {
      assert IndexOk(s, recs[i].key);
    }
  }

  lemma Publishes(lib: Lib, s: State, path: Path, recs: seq<Record>)
    requires s.pc == Verifying(path, recs, |recs|) && s.intents == {path} && path !in s.catalog
    requires Rows(s.q, recs) && IdsDistinct(s.q.rows) && forall i :: 0 <= i < |recs| ==> recs[i].key !in s.archived
    ensures Apply(lib, s, Publish([path])) == Some(Published(s, [path]))
  {
    hide Published, WithId;
    forall i | 0 <= i < |recs| ensures WithId(s.q.rows, recs[i].id) == Some(recs[i]) {
      RowById(s.q, recs, i);
    }
  }

  lemma Finishes(lib: Lib, s: State, path: Path)
    requires s.pc == Recovering([path], false) && path in s.catalog && path in s.files && s.intents == {path}
    ensures Run(lib, s, [ForgetIntent, RecoveryDone]) == Some(s.(intents := {}, pc := Idle))
  {
    var steps := [ForgetIntent, RecoveryDone];
    RunOne(lib, s, ForgetIntent);
    assert steps[..1] == [ForgetIntent];
    assert s.pc.todo[1..] == [] && s.intents - {path} == {};
    assert Run(lib, s, steps[..1]) == Some(s.(intents := {}, pc := Recovering([], false)));
  }

  /** An archive call that nothing disturbs, over selected rows that can be moved, runs to its end: all of them are
      sealed, nothing else changes, and no intent is left. */
  lemma ArchiveUndisturbed(lib: Lib, s: State, rank: map<Id, nat>, path: Path, before: int, limit: int, recs: seq<Record>, objs: map<Id, Bytes>)
    requires Lawful(lib) && Inv(lib, s, rank) && s.pc.Idle? && s.intents == {} && path !in s.catalog && path !in s.files
    requires recs != [] && Selection(s.q, before, Batch(limit), recs) && AllMovable(lib, s.q, objs, recs)
    ensures var t := Run(lib, s, Call(path, before, limit, recs));
      t.Some? && t.value.pc.Idle? && t.value.intents == {} && Seals(View(lib, s), KeysOf(recs), View(lib, t.value))
  {
    hide Inv, Apply, Run, Selection, AllMovable, HashLaw, ZlibLaw, KeyLaw, NodeLaw, TextLaw, IdsDistinct, Opening, Times, Published, View, Seals, KeysOf,
         Batch, Rows, Finished;
    var dest := RunsToPublication(lib, s, rank, path, before, limit, recs, objs);
    var steps := Opening(path, before, limit, recs) + Times(CopyOne, |recs|) + [Commit] + Times(VerifyOne, |recs|);
    var b := s.(intents := {path}, files := s.files[path := dest], pc := Verifying(path, recs, |recs|));
    SelectedRows(lib, s, rank, before, Batch(limit), recs);
    Publishes(lib, b, path, recs);
    var c := Published(b, [path]);
    PublishedPc(b, path);
    Finishes(lib, c, path);
    RunOne(lib, b, Publish([path]));
    RunThen(lib, s, steps, [Publish([path])]);
    RunThen(lib, s, steps + [Publish([path])], [ForgetIntent, RecoveryDone]);
    CallSeals(lib, s, rank, path, before, limit, recs, steps, b);
  }

  lemma PublishedPc(b: State, path: Path)
    requires b.pc.Verifying? && b.pc.path == path && path in b.files
    ensures var c := Published(b, [path]); c.pc == Recovering([path], false) && path in c.catalog && path in c.files && c.intents == b.intents
  {
  }

  lemma CallSeals(lib: Lib, s: State, rank: map<Id, nat>, path: Path, before: int, limit: int, recs: seq<Record>, steps: seq<Step>, b: State)
    requires Lawful(lib) && Inv(lib, s, rank) && steps == Opening(path, before, limit, recs) + Times(CopyOne, |recs|) + [Commit] + Times(VerifyOne, |recs|)
    requires Run(lib, s, steps) == Some(b) && b.pc == Verifying(path, recs, |recs|) && Apply(lib, b, Publish([path])) == Some(Published(b, [path]))
    requires b.q == s.q && b.archived == s.archived
    ensures Seals(View(lib, s), KeysOf(recs), View(lib, Published(b, [path]).(intents := {}, pc := Idle)))
  {
    hide Inv, Apply, Run, Lawful, Published, Seals, KeysOf, ViewStep, Later;
    var rank' := QuietRun(lib, s, rank, steps);
    PublishStepOk(lib, b, [path], rank');
    assert View(lib, Published(b, [path]).(intents := {}, pc := Idle)) == View(lib, Published(b, [path])) by { ViewApart(lib, Published(b, [path])); }
  }

  lemma ViewApart(lib: Lib, s: State)
    ensures View(lib, s.(intents := {}, pc := Idle)) == View(lib, s)
  {
    hide EntryOf;
    forall k ensures SegmentFor(s.(intents := {}, pc := Idle), k) == SegmentFor(s, k) {
    }
  }

  /** Up to publication an archive call is invisible. */
  lemma {:induction false} QuietRun(lib: Lib, s: State, rank: map<Id, nat>, steps: seq<Step>) returns (rank': map<Id, nat>)
    requires Lawful(lib) && Inv(lib, s, rank) && Run(lib, s, steps).Some? && forall i :: 0 <= i < |steps| ==> IsQuiet(steps[i])
    ensures Inv(lib, Run(lib, s, steps).value, rank') && View(lib, Run(lib, s, steps).value) == View(lib, s)
    decreases |steps|
  {
    hide Inv, Apply, View, Lawful, Later;
    rank' := rank;
    if steps != [] {
      var n := |steps| - 1;
      var rank1 := QuietRun(lib, s, rank, steps[..n]);
      rank' := StepOk(lib, Run(lib, s, steps[..n]).value, steps[n], rank1);
      assert IsQuiet(steps[n]);
    }
  }

  predicate IsQuiet(step: Step) {
    step.StartRecovery? || step.RecoveryDone? || step.WriteIntent? || step.SelectStep? || step.OpenSegment? || step.CopyOne? || step.Commit? || step.VerifyOne?
  }
}

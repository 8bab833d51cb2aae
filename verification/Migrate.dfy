/** MigrateFrozen (internal/queue/migrate.go) and Activate (sqlite_queue.go): an offline copy of a
    frozen source, one file at a time, that can be interrupted anywhere and resumed. */
module Migrate {
  import opened Basics
  import opened Content
  import opened Graph
  import opened Copy
  import opened Transfer
  import opened Collect
  import opened Database

  /** The frozen files: the source database first, then its archive segments. */
  datatype Source = Source(files: seq<Db>, fingerprint: Bytes)

  /** migration_file_<index>: absent means nothing copied yet. */
  datatype Cursor = At(id: int) | Complete

  /** The destination database and its queue_metadata. */
  datatype Destination = Destination(
    db: Db,
    source: Option<Bytes>,          // migration_source
    legacy: bool,                   // migration_backend
    cursors: map<nat, Cursor>,
    complete: bool,                 // migration_complete
    activated: bool)                // migration_activated

  function CursorOf(d: Destination, i: nat): Cursor {
    if i in d.cursors then d.cursors[i] else At(0)
  }

  // ---------------------------------------------------------------- steps of a run

  /** The checks and the transaction before the first row; None is a refusal. */
  function Begin(d: Destination, src: Source, legacy: bool): Option<Destination> {
    if d.activated then None
    else if d.source.None? then
      if d.db.rows != map[] then None
      else Some(d.(source := Some(src.fingerprint), legacy := legacy))
    else if d.source != Some(src.fingerprint) || d.legacy != legacy then None
    else Some(d)
  }

  /** SELECT ... WHERE id>? ORDER BY id LIMIT 1. */
  ghost predicate IsNext(rows: map<Key, Record>, after: int, k: Key) {
    && k in rows && after < rows[k].id
    && forall j :: j in rows && after < rows[j].id ==> rows[k].id <= rows[j].id
  }

  function CopyFor(lib: Lib, file: Db, d: Destination, p: Payload): Result<(Store, Payload)> {
    if d.legacy then
      match Decode(lib, file, p)
      case None => Err(Failed)
      case Some(original) => Ok((d.db.store, Plain(original)))
    else CopyPayload(lib, file.store.content, d.db.store, p)
  }

  /** One row and the cursor behind it, committed together; None leaves the destination as it was. */
  function CopyRow(lib: Lib, src: Source, d: Destination, i: nat, k: Key): Option<Destination>
    requires i < |src.files| && k in src.files[i].rows
  {
    var file := src.files[i];
    var r := file.rows[k];
    match (Decode(lib, file, r.payload), CopyFor(lib, file, d, r.payload))
    case (Some(original), Ok((store, p))) =>
      var restored := DecodePayload(lib, store.content, p);
      if restored.None? || !JsonEqual(lib, original, restored.value) then None else
      (match InsertRecord(lib, d.db.(store := store), r.(payload := p))
       case Err(_) => None
       case Ok(db) => Some(d.(db := db, cursors := d.cursors[i := At(r.id)])))
    case _ => None
  }

  /** The high-water mark and the completion flag, once every file is complete. */
  function Finish(d: Destination, src: Source): Destination {
    d.(db := d.db.(seqno := Max(d.db.seqno, SourceSeq(src))), complete := true)
  }

  function SourceSeq(src: Source): int {
    if src.files == [] then 0 else src.files[0].seqno
  }

  /** Activate: an interrupted migration is refused, a finished one is sealed. */
  function Activate(d: Destination): Option<Destination> {
    if d.source.None? then Some(d)
    else if !d.complete then None
    else Some(d.(activated := true))
  }

  /** Anything a migration run can do to the destination, up to its next commit. */
  datatype Step =
    | BeginStep(legacy: bool)
    | RowStep(file: nat, key: Key)
    | FileStep(file: nat)
    | SequenceStep
    | FinishStep
    | ActivateStep

  /** A run may stop after any step and a later run begin again; `Apply` is None where the
      program cannot take the step. */
  ghost function Apply(lib: Lib, src: Source, d: Destination, step: Step): Option<Destination> {
    match step
    case BeginStep(legacy) => Begin(d, src, legacy)
    case RowStep(i, k) =>
      if Begin(d, src, d.legacy) == Some(d) && i < |src.files| && CursorOf(d, i).At?
         && IsNext(src.files[i].rows, CursorOf(d, i).id, k)
      then CopyRow(lib, src, d, i, k) else None
    case FileStep(i) =>
      if Begin(d, src, d.legacy) == Some(d) && i < |src.files| && CursorOf(d, i).At?
         && (forall k :: k in src.files[i].rows ==> src.files[i].rows[k].id <= CursorOf(d, i).id)
      then Some(d.(cursors := d.cursors[i := Complete])) else None
    case SequenceStep =>
      if Begin(d, src, d.legacy) == Some(d) && AllComplete(src, d)
      then Some(d.(db := d.db.(seqno := Max(d.db.seqno, SourceSeq(src))))) else None
    case FinishStep =>
      if Begin(d, src, d.legacy) == Some(d) && AllComplete(src, d) && d.db.seqno >= SourceSeq(src)
      then Some(Finish(d, src)) else None
    case ActivateStep => Activate(d)
  }

  predicate AllComplete(src: Source, d: Destination) {
    forall i :: 0 <= i < |src.files| ==> CursorOf(d, i) == Complete
  }

  ghost function Run(lib: Lib, src: Source, d: Destination, steps: seq<Step>): Option<Destination> {
    if steps == [] then Some(d) else
    match Run(lib, src, d, steps[..|steps| - 1])
    case None => None
    case Some(e) => Apply(lib, src, e, steps[|steps| - 1])
  }

  const FRESH := Destination(EMPTY, None, false, map[], false, false)

  // ---------------------------------------------------------------- the invariant

  /** The row is behind its file's cursor. */
  predicate Covered(src: Source, d: Destination, i: nat, k: Key) {
    && i < |src.files| && k in src.files[i].rows
    && 0 < src.files[i].rows[k].id
    && (CursorOf(d, i) == Complete || src.files[i].rows[k].id <= CursorOf(d, i).id)
  }

  /** The destination's copy of a source row: everything but the payload is equal, and the
      payload restores to equal JSON. */
  ghost predicate Migrated(lib: Lib, file: Db, r: Record, db: Db, c: Record) {
    && c == r.(payload := c.payload)
    && Decode(lib, file, r.payload).Some? && Decode(lib, db, c.payload).Some?
    && JsonEqual(lib, Decode(lib, file, r.payload).value, Decode(lib, db, c.payload).value)
  }

  /** Rows filed under their own keys and no id twice in a file, as the schema promises. Content may be missing or
      damaged, and nothing is asked across files. */
  ghost predicate SourceOk(src: Source) {
    forall i :: 0 <= i < |src.files| ==>
      && IdsDistinct(src.files[i].rows)
      && forall k :: k in src.files[i].rows ==> src.files[i].rows[k].key == k
  }

  /** A covered row is in the destination, copied faithfully. */
  ghost predicate Copies(lib: Lib, src: Source, d: Destination) {
    forall i, k :: 0 <= i < |src.files| && Covered(src, d, i, k) ==>
      k in d.db.rows && Migrated(lib, src.files[i], src.files[i].rows[k], d.db, d.db.rows[k])
  }

  /** Every row of the destination comes from a covered source row. */
  ghost predicate FromSource(src: Source, d: Destination) {
    forall k :: k in d.db.rows ==> exists i :: 0 <= i < |src.files| && Covered(src, d, i, k)
  }

  /** No two covered rows share a key or an id. */
  ghost predicate CoveredApart(src: Source, d: Destination) {
    forall i: nat, k, j: nat, m :: Covered(src, d, i, k) && Covered(src, d, j, m) ==> Apart(src, i, k, j, m)
  }

  predicate Apart(src: Source, i: nat, k: Key, j: nat, m: Key)
    requires i < |src.files| && j < |src.files| && k in src.files[i].rows && m in src.files[j].rows
  {
    k == m || src.files[i].rows[k].id == src.files[j].rows[m].id ==> i == j && k == m
  }

  /** Rows and roots of the destination, whatever its content. */
  ghost predicate TablesOk(db: Db) {
    RootsStored(db.store.content, db.roots) && (forall k :: RowOk(db, k)) && IdsDistinct(db.rows)
  }

  /** What holds of the destination whatever the source holds, also if objects collide: each row was verified
      before it was committed. */
  ghost predicate MigrationOk(lib: Lib, src: Source, d: Destination) {
    && TablesOk(d.db) && Tidy(lib, d.db.store)
    && (d.source.None? ==> d.cursors == map[] && d.db.rows == map[] && !d.complete && !d.activated)
    && (d.source.Some? ==> d.source == Some(src.fingerprint))
    && (forall i :: i in d.cursors && d.cursors[i].At? ==> 0 <= d.cursors[i].id)
    && Copies(lib, src, d) && FromSource(src, d) && CoveredApart(src, d)
    && (d.complete ==> AllComplete(src, d) && d.db.seqno >= SourceSeq(src))
    && (d.activated ==> d.complete)
  }

  lemma FreshOk(lib: Lib, src: Source)
    ensures MigrationOk(lib, src, FRESH)
  {
  }

  lemma RowStepOk(lib: Lib, src: Source, d: Destination, i: nat, k: Key)
    requires ZlibLaw(lib) && SourceOk(src) && MigrationOk(lib, src, d)
    requires Apply(lib, src, d, RowStep(i, k)).Some?
    ensures MigrationOk(lib, src, Apply(lib, src, d, RowStep(i, k)).value)
  {
    hide ZlibLaw, Decode, CopyRow, Copies, CoveredApart, Covered, Migrated, TablesOk, Tidy, IdsDistinct, RowAdded;
    var d' := Apply(lib, src, d, RowStep(i, k)).value;
    RowFacts(lib, src, d, i, k);
    AddedFacts(lib, src, d, i, k, d');
    RowCopies(lib, src, d, i, k, d');
    RowApart(lib, src, d, i, k, d');
    RowFrom(src, d, i, k, d');
  }

  /** The destination after a row: only it was added, where neither its key nor its id was taken. */
  ghost predicate RowAdded(lib: Lib, src: Source, d: Destination, i: nat, k: Key, d': Destination)
    requires i < |src.files| && k in src.files[i].rows
  {
    var r := src.files[i].rows[k];
    && Keeps(d.db.store.content, d'.db.store.content)
    && k !in d.db.rows && (forall j :: j in d.db.rows ==> d.db.rows[j].id != r.id)
    && k in d'.db.rows && d'.db.rows == d.db.rows[k := d'.db.rows[k]]
    && Migrated(lib, src.files[i], r, d'.db, d'.db.rows[k])
    && d' == d.(db := d'.db, cursors := d.cursors[i := At(r.id)])
    && d'.db.seqno >= d.db.seqno
  }

  lemma AddedFacts(lib: Lib, src: Source, d: Destination, i: nat, k: Key, d': Destination)
    requires i < |src.files| && k in src.files[i].rows && RowAdded(lib, src, d, i, k, d')
    ensures d'.db.rows.Keys == d.db.rows.Keys + {k} && d'.db.seqno >= d.db.seqno
    ensures d' == d.(db := d'.db, cursors := d.cursors[i := At(src.files[i].rows[k].id)])
  {
    hide Migrated, Keeps;
  }

  lemma RowFacts(lib: Lib, src: Source, d: Destination, i: nat, k: Key)
    requires ZlibLaw(lib) && SourceOk(src) && TablesOk(d.db) && Tidy(lib, d.db.store)
    requires i < |src.files| && k in src.files[i].rows && CopyRow(lib, src, d, i, k).Some?
    ensures var d' := CopyRow(lib, src, d, i, k).value;
      TablesOk(d'.db) && Tidy(lib, d'.db.store) && RowAdded(lib, src, d, i, k, d')
  {
    hide CopyPayload, JsonEqual, Keeps, Tidy, TablesOk, DecodePayload;
    var file := src.files[i];
    var r := file.rows[k];
    assert r.key == k;
    var (store, p) := CopyFor(lib, file, d, r.payload).value;
    if d.legacy {
      KeepsReflexive(d.db.store.content);
    } else {
      CopyGrows(lib, file.store.content, d.db.store, r.payload);
    }
    InsertTables(lib, d.db, store, r.(payload := p));
  }

  /** Inserting a row that can be decoded. */
  lemma InsertTables(lib: Lib, db: Db, store: Store, r: Record)
    requires TablesOk(db) && Keeps(db.store.content, store.content) && InsertRecord(lib, db.(store := store), r).Ok?
    ensures TablesOk(InsertRecord(lib, db.(store := store), r).value)
  {
    hide Render;
    var db' := InsertRecord(lib, db.(store := store), r).value;
    if r.payload.Manifest? {
      RenderedIsStored(lib, store.content, r.payload);
    }
    forall j ensures RowOk(db', j) {
      assert RowOk(db, j);
    }
    forall j, l | j in db'.rows && l in db'.rows && db'.rows[j].id == db'.rows[l].id ensures j == l {
    }
  }

  lemma RenderedIsStored(lib: Lib, content: Table, p: Payload)
    requires p.Manifest? && DecodePayload(lib, content, p).Some?
    ensures p.version == 2 && |p.root| == 64 && p.root in content
  {
    hide RenderNode;
  }

  lemma RowFrom(src: Source, d: Destination, i: nat, k: Key, d': Destination)
    requires i < |src.files| && k in src.files[i].rows && CursorOf(d, i).At? && 0 <= CursorOf(d, i).id
    requires IsNext(src.files[i].rows, CursorOf(d, i).id, k)
    requires FromSource(src, d) && d'.db.rows.Keys == d.db.rows.Keys + {k}
    requires d'.cursors == d.cursors[i := At(src.files[i].rows[k].id)]
    ensures FromSource(src, d')
  {
    forall j | j in d'.db.rows ensures exists f :: 0 <= f < |src.files| && Covered(src, d', f, j) {
      if j == k {
        assert Covered(src, d', i, j);
      } else {
        var f :| 0 <= f < |src.files| && Covered(src, d, f, j);
        assert Covered(src, d', f, j);
      }
    }
  }

  /** Only that row is covered anew. */
  lemma NewlyCovered(src: Source, d: Destination, i: nat, k: Key, d': Destination, f: nat, j: Key)
    requires SourceOk(src) && i < |src.files| && CursorOf(d, i).At? && IsNext(src.files[i].rows, CursorOf(d, i).id, k)
    requires d'.cursors == d.cursors[i := At(src.files[i].rows[k].id)]
    requires Covered(src, d', f, j)
    ensures Covered(src, d, f, j) || (f == i && j == k)
  {
    assert IdsDistinct(src.files[i].rows);
  }

  lemma RowCopies(lib: Lib, src: Source, d: Destination, i: nat, k: Key, d': Destination)
    requires SourceOk(src) && i < |src.files| && CursorOf(d, i).At? && IsNext(src.files[i].rows, CursorOf(d, i).id, k)
    requires Copies(lib, src, d) && RowAdded(lib, src, d, i, k, d')
    ensures Copies(lib, src, d')
  {
    hide DecodePayload, JsonEqual, Keeps, SourceOk;
    KeepsExtends(lib, d.db.store.content, d'.db.store.content);
    forall f, j | 0 <= f < |src.files| && Covered(src, d', f, j)
      ensures j in d'.db.rows && Migrated(lib, src.files[f], src.files[f].rows[j], d'.db, d'.db.rows[j])
    {
      NewlyCovered(src, d, i, k, d', f, j);
      if Covered(src, d, f, j) {
        DecodeExtends(lib, d.db.store.content, d'.db.store.content, d.db.rows[j].payload);
      }
    }
  }

  lemma RowApart(lib: Lib, src: Source, d: Destination, i: nat, k: Key, d': Destination)
    requires SourceOk(src) && i < |src.files| && CursorOf(d, i).At? && IsNext(src.files[i].rows, CursorOf(d, i).id, k)
    requires Copies(lib, src, d) && CoveredApart(src, d) && RowAdded(lib, src, d, i, k, d')
    ensures CoveredApart(src, d')
  {
    hide Decode, JsonEqual, Covered, Keeps, SourceOk;
    forall f: nat, j, g: nat, m | Covered(src, d', f, j) && Covered(src, d', g, m) ensures CoveredIn(src, f, j, g, m) && Apart(src, f, j, g, m) {
      CoveredPlaces(src, d', f, j, g, m);
      NewlyCovered(src, d, i, k, d', f, j);
      NewlyCovered(src, d, i, k, d', g, m);
    }
  }

  predicate CoveredIn(src: Source, f: nat, j: Key, g: nat, m: Key) {
    f < |src.files| && g < |src.files| && j in src.files[f].rows && m in src.files[g].rows
  }

  lemma CoveredPlaces(src: Source, d: Destination, f: nat, j: Key, g: nat, m: Key)
    requires Covered(src, d, f, j) && Covered(src, d, g, m)
    ensures CoveredIn(src, f, j, g, m)
  {
  }

  /** A step that copies no row leaves the set of covered rows as it is. */
  lemma CoveredKept(lib: Lib, src: Source, d: Destination, step: Step, f: nat, k: Key)
    requires MigrationOk(lib, src, d) && !step.RowStep? && Apply(lib, src, d, step).Some?
    ensures Covered(src, Apply(lib, src, d, step).value, f, k) <==> Covered(src, d, f, k)
  {
    hide TablesOk, Tidy, Copies, FromSource, CoveredApart;
  }

  lemma QuietStepOk(lib: Lib, src: Source, d: Destination, step: Step)
    requires MigrationOk(lib, src, d) && !step.RowStep? && Apply(lib, src, d, step).Some?
    ensures MigrationOk(lib, src, Apply(lib, src, d, step).value)
  {
    hide Tidy, DecodePayload, JsonEqual, Covered, Apart;
    var d' := Apply(lib, src, d, step).value;
    assert d'.db.rows == d.db.rows && d'.db.store == d.db.store && d'.db.roots == d.db.roots && d.db.seqno <= d'.db.seqno;
    assert TablesOk(d'.db) by {
      forall k ensures RowOk(d'.db, k) {
        assert RowOk(d.db, k);
      }
    }
    forall f: nat, k ensures Covered(src, d', f, k) <==> Covered(src, d, f, k) {
      CoveredKept(lib, src, d, step, f, k);
    }
    QuietRows(lib, src, d, d');
    forall i | 0 <= i < |src.files| && d'.complete ensures CursorOf(d', i) == Complete {
      assert CursorOf(d, i) == Complete;
    }
  }

  lemma QuietRows(lib: Lib, src: Source, d: Destination, d': Destination)
    requires d'.db.rows == d.db.rows && d'.db.store == d.db.store
    requires forall f: nat, k :: Covered(src, d', f, k) <==> Covered(src, d, f, k)
    requires Copies(lib, src, d) && FromSource(src, d) && CoveredApart(src, d)
    ensures Copies(lib, src, d') && FromSource(src, d') && CoveredApart(src, d')
  {
    hide DecodePayload, JsonEqual, Apart;
    forall k | k in d'.db.rows ensures exists f :: 0 <= f < |src.files| && Covered(src, d', f, k) {
      var f :| 0 <= f < |src.files| && Covered(src, d, f, k);
      assert Covered(src, d', f, k);
    }
    forall f, k | 0 <= f < |src.files| && Covered(src, d', f, k)
      ensures k in d'.db.rows && Migrated(lib, src.files[f], src.files[f].rows[k], d'.db, d'.db.rows[k])
    {
      assert Covered(src, d, f, k);
    }
  }

  lemma StepOk(lib: Lib, src: Source, d: Destination, step: Step)
    requires ZlibLaw(lib) && SourceOk(src) && MigrationOk(lib, src, d) && Apply(lib, src, d, step).Some?
    ensures MigrationOk(lib, src, Apply(lib, src, d, step).value)
  {
    hide ZlibLaw, SourceOk, MigrationOk, Apply;
    if step.RowStep? {
      RowStepOk(lib, src, d, step.file, step.key);
    } else {
      QuietStepOk(lib, src, d, step);
    }
  }

  lemma {:induction false} RunOk(lib: Lib, src: Source, steps: seq<Step>)
    requires ZlibLaw(lib) && SourceOk(src) && Run(lib, src, FRESH, steps).Some?
    ensures MigrationOk(lib, src, Run(lib, src, FRESH, steps).value)
    decreases |steps|
  {
    hide ZlibLaw, SourceOk, MigrationOk, Apply;
    if steps == [] {
      FreshOk(lib, src);
    } else {
      var before := steps[..|steps| - 1];
      RunOk(lib, src, before);
      StepOk(lib, src, Run(lib, src, FRESH, before).value, steps[|steps| - 1]);
    }
  }

  // ---------------------------------------------------------------- the theorems

  /** The rows of the source a migration is to copy; the cursors start at 0, so rows with an id
      below 1, which AUTOINCREMENT never hands out, would be skipped. */
  predicate IsRow(src: Source, i: nat, k: Key) {
    i < |src.files| && k in src.files[i].rows && 0 < src.files[i].rows[k].id
  }

  ghost predicate InSource(src: Source, k: Key) {
    exists i: nat :: IsRow(src, i, k)
  }

  /** However often it was interrupted, a completed migration leaves the destination equal to the
      union of the source files: each row once, with its id, its delivery state and equal JSON,
      and with new ids above everything the source ever handed out. */
  lemma CompletedMigration(lib: Lib, src: Source, steps: seq<Step>)
    requires ZlibLaw(lib) && SourceOk(src)
    requires Run(lib, src, FRESH, steps).Some? && Run(lib, src, FRESH, steps).value.complete
    ensures var d := Run(lib, src, FRESH, steps).value;
      && (forall k :: k in d.db.rows <==> InSource(src, k))
      && (forall i: nat, k :: IsRow(src, i, k) ==>
            k in d.db.rows && Migrated(lib, src.files[i], src.files[i].rows[k], d.db, d.db.rows[k]))
      && IdsDistinct(d.db.rows)
      && (forall k :: k in d.db.rows ==> d.db.rows[k].id < d.db.seqno + 1)
      && SourceSeq(src) < d.db.seqno + 1
  {
    hide ZlibLaw, SourceOk, Run, Tidy, Migrated, CoveredApart;
    RunOk(lib, src, steps);
    var d := Run(lib, src, FRESH, steps).value;
    forall i: nat, k | IsRow(src, i, k)
      ensures k in d.db.rows && Migrated(lib, src.files[i], src.files[i].rows[k], d.db, d.db.rows[k])
    {
      assert CursorOf(d, i) == Complete;
      assert Covered(src, d, i, k);
    }
    forall k | k in d.db.rows ensures InSource(src, k) && d.db.rows[k].id < d.db.seqno + 1 {
      assert RowOk(d.db, k);
      var i :| 0 <= i < |src.files| && Covered(src, d, i, k);
      assert IsRow(src, i, k);
    }
  }

  /** An unfinished destination cannot be activated, an activated one can never be resumed, and one that was begun
      from a source can be resumed from no other. */
  lemma ActivationSeals(lib: Lib, src: Source, steps: seq<Step>, step: Step, other: Source)
    requires ZlibLaw(lib) && SourceOk(src) && Run(lib, src, FRESH, steps).Some?
    ensures var d := Run(lib, src, FRESH, steps).value;
      && (d.source.Some? && !AllComplete(src, d) ==> Activate(d).None?)
      && (d.activated ==> d.complete && (Apply(lib, other, d, step).Some? ==> step.ActivateStep? && Apply(lib, other, d, step).value == d))
      && (d.source.Some? && other.fingerprint != src.fingerprint && !step.ActivateStep? ==> Apply(lib, other, d, step).None?)
  {
    hide ZlibLaw, SourceOk, Run, TablesOk, Tidy, Copies, FromSource, CoveredApart;
    RunOk(lib, src, steps);
  }

  // ---------------------------------------------------------------- the content of the destination

  /** No row of a source file and the printed form of its node are two objects with one hash. */
  ghost predicate AllChecked(lib: Lib, src: Source) {
    forall i :: 0 <= i < |src.files| ==> Checked(lib, src.files[i].store.content)
  }

  /** An empty destination of this kind. */
  function Blank(legacy: bool): Destination {
    FRESH.(legacy := legacy)
  }

  /** The row could be migrated if it were the only one, and would store no other objects than `objs`. */
  ghost predicate Portable(lib: Lib, src: Source, legacy: bool, objs: map<Id, Bytes>, i: nat, k: Key)
    requires i < |src.files| && k in src.files[i].rows
  {
    var alone := CopyRow(lib, src, Blank(legacy), i, k);
    alone.Some? && Held(lib, alone.value.db.store.content, objs)
  }

  /** Every covered row could be migrated alone, into the objects that are there. */
  ghost predicate Ported(lib: Lib, src: Source, d: Destination) {
    forall i: nat, k :: Covered(src, d, i, k) ==> Portable(lib, src, d.legacy, Objects(lib, d.db.store.content), i, k)
  }

  /** With sources free of collisions: the destination's graph is consistent. */
  ghost predicate Faithful(lib: Lib, src: Source, d: Destination, rank: map<Id, nat>) {
    Consistent(lib, d.db.store, rank) && Ported(lib, src, d)
  }

  lemma FreshFaithful(lib: Lib, src: Source)
    ensures Faithful(lib, src, FRESH, map[])
  {
    EmptyOk(lib);
  }

  lemma ObjectsGrow(lib: Lib, a: Table, b: Table, content: Table)
    requires Keeps(a, b) && Held(lib, content, Objects(lib, a))
    ensures Held(lib, content, Objects(lib, b))
  {
    hide RowBytes;
  }

  lemma RowConsistent(lib: Lib, src: Source, d: Destination, i: nat, k: Key, rank: map<Id, nat>) returns (rank': map<Id, nat>)
    requires Lawful(lib) && ParseLaw(lib) && AllChecked(lib, src) && Consistent(lib, d.db.store, rank)
    requires i < |src.files| && k in src.files[i].rows && CopyFor(lib, src.files[i], d, src.files[i].rows[k].payload).Ok?
    ensures Consistent(lib, CopyFor(lib, src.files[i], d, src.files[i].rows[k].payload).value.0, rank')
  {
    hide Checked, Consistent, HashLaw, ZlibLaw, KeyLaw, NodeLaw, TextLaw, ParseLaw, CopyPayload, DecodePayload, JsonEqual, Keeps;
    var file := src.files[i];
    var p := file.rows[k].payload;
    assert Checked(lib, file.store.content);
    if d.legacy {
      rank' := rank;
    } else if p.Plain? {
      rank' := CopyPlain(lib, file.store.content, d.db.store, p, rank);
    } else {
      rank' := CheckedCopy(lib, file.store.content, d.db.store, p, rank);
    }
  }

  lemma CheckedCopy(lib: Lib, src: Table, dst: Store, p: Payload, rank: map<Id, nat>) returns (rank': map<Id, nat>)
    requires HashLaw(lib) && ZlibLaw(lib) && Checked(lib, src) && Consistent(lib, dst, rank)
    requires p.Manifest? && CopyPayload(lib, src, dst, p).Ok?
    ensures var dst' := CopyPayload(lib, src, dst, p).value.0;
      Consistent(lib, dst', rank') && DecodePayload(lib, dst'.content, p) == DecodePayload(lib, src, p)
  {
    hide HashLaw, ZlibLaw, Checked, Consistent, CopyPayload, DecodePayload, Finished, AllStable, Reaches, Near, Keeps, NodeAt, Stable, Render;
    var ids, order := CopyPrints(lib, src, dst, p);
    CheckedIsStable(lib, src, CopyPayload(lib, src, dst, p).value.0.content, ids, order);
    var ids1;
    rank', ids1 := CopyPreserves(lib, src, dst, p, rank);
    assert ids1 == ids;
  }

  /** A row that was copied could have been copied alone. */
  lemma RowPorted(lib: Lib, src: Source, d: Destination, i: nat, k: Key, rank: map<Id, nat>)
    requires Lawful(lib) && ParseLaw(lib) && AllChecked(lib, src) && SourceOk(src) && Consistent(lib, d.db.store, rank) && Tidy(lib, d.db.store)
    requires i < |src.files| && k in src.files[i].rows && CopyRow(lib, src, d, i, k).Some?
    ensures Portable(lib, src, d.legacy, Objects(lib, CopyRow(lib, src, d, i, k).value.db.store.content), i, k)
  {
    hide Checked, Consistent, HashLaw, ZlibLaw, KeyLaw, NodeLaw, TextLaw, ParseLaw, CopyPayload, DecodePayload, JsonEqual, Keeps, Tidy,
         Held, Objects, SourceOk, AllChecked;
    var file := src.files[i];
    var p := file.rows[k].payload;
    var blank := Blank(d.legacy);
    var objs := Objects(lib, CopyRow(lib, src, d, i, k).value.db.store.content);
    if d.legacy {
      assert Held(lib, blank.db.store.content, objs) by { NothingHeld(lib, objs); }
      assert DecodePayload(lib, blank.db.store.content, Plain(Decode(lib, file, p).value)) == Some(Decode(lib, file, p).value) by {
        PlainDecodes(lib, blank.db, Decode(lib, file, p).value);
      }
      PlainDecodes(lib, d.db, Decode(lib, file, p).value);
    } else {
      CopyAlone(lib, src, d, i, k, rank, objs);
    }
  }

  lemma NothingHeld(lib: Lib, objs: map<Id, Bytes>)
    ensures Held(lib, map[], objs)
  {
  }

  lemma CopyAlone(lib: Lib, src: Source, d: Destination, i: nat, k: Key, rank: map<Id, nat>, objs: map<Id, Bytes>)
    requires Lawful(lib) && ParseLaw(lib) && AllChecked(lib, src) && Consistent(lib, d.db.store, rank) && Tidy(lib, d.db.store) && !d.legacy
    requires i < |src.files| && k in src.files[i].rows && CopyRow(lib, src, d, i, k).Some?
    requires objs == Objects(lib, CopyRow(lib, src, d, i, k).value.db.store.content)
    ensures var file := src.files[i]; var p := file.rows[k].payload; var r := CopyPayload(lib, file.store.content, EMPTY.store, p);
      && r.Ok? && Held(lib, r.value.0.content, objs)
      && var restored := DecodePayload(lib, r.value.0.content, r.value.1);
         restored.Some? && JsonEqual(lib, Decode(lib, file, p).value, restored.value)
  {
    hide Checked, Consistent, HashLaw, KeyLaw, NodeLaw, TextLaw, ParseLaw, CopyPayload, DecodePayload, JsonEqual, Keeps, Tidy,
         Objects, Anchored;
    var file := src.files[i];
    var p := file.rows[k].payload;
    assert Checked(lib, file.store.content);
    var (store, q) := CopyPayload(lib, file.store.content, d.db.store, p).value;
    CopyGrows(lib, file.store.content, d.db.store, p);
    KeepsReflexive(store.content);
    TidyClean(lib, d.db.store, store.content);
    TidyClean(lib, store, store.content);
    assert Clean(lib, EMPTY.store, objs) by { NothingClean(lib, objs); }
    CopyTransfers(lib, file.store.content, d.db.store, EMPTY.store, p, objs);
    assert Consistent(lib, EMPTY.store, map[]) by { EmptyOk(lib); }
    if p.Plain? {
      var _ := CopyPlain(lib, file.store.content, d.db.store, p, rank);
      var _ := CopyPlain(lib, file.store.content, EMPTY.store, p, map[]);
      PlainDecodes(lib, file, p.text);
    } else {
      var _ := CheckedCopy(lib, file.store.content, d.db.store, p, rank);
      var _ := CheckedCopy(lib, file.store.content, EMPTY.store, p, map[]);
      assert q == p by { CopyKeepsManifest(lib, file.store.content, d.db.store, p); }
    }
  }

  lemma CopyKeepsManifest(lib: Lib, src: Table, dst: Store, p: Payload)
    requires p.Manifest? && CopyPayload(lib, src, dst, p).Ok?
    ensures CopyPayload(lib, src, dst, p).value.1 == p
  {
    hide Visit;
  }

  lemma NothingClean(lib: Lib, objs: map<Id, Bytes>)
    ensures Clean(lib, EMPTY.store, objs)
  {
  }

  lemma StepFaithful(lib: Lib, src: Source, d: Destination, step: Step, rank: map<Id, nat>) returns (rank': map<Id, nat>)
    requires Lawful(lib) && ParseLaw(lib) && AllChecked(lib, src) && SourceOk(src)
    requires MigrationOk(lib, src, d) && Faithful(lib, src, d, rank) && Apply(lib, src, d, step).Some?
    ensures Faithful(lib, src, Apply(lib, src, d, step).value, rank')
  {
    hide HashLaw, ZlibLaw, KeyLaw, NodeLaw, TextLaw, ParseLaw, AllChecked, SourceOk, Consistent, Covered, CopyRow, TablesOk, Tidy, Copies,
         FromSource, CoveredApart, Portable, Objects, RowAdded, IsNext;
    var d' := Apply(lib, src, d, step).value;
    if step.RowStep? {
      var i, k := step.file, step.key;
      assert k in src.files[i].rows by { NextIsRow(src.files[i].rows, CursorOf(d, i).id, k); }
      rank' := RowRank(lib, src, d, i, k, rank);
      RowFacts(lib, src, d, i, k);
      AddedFacts(lib, src, d, i, k, d');
      forall f: nat, j | Covered(src, d', f, j) ensures PortedAt(lib, src, d', f, j) {
        NewlyCovered(src, d, i, k, d', f, j);
        if Covered(src, d, f, j) {
          PortableLater(lib, src, d, i, k, d', f, j);
        } else {
          RowPorted(lib, src, d, i, k, rank);
        }
      }
    } else {
      rank' := rank;
      assert d'.db.store == d.db.store;
      forall f: nat, j | Covered(src, d', f, j) ensures PortedAt(lib, src, d', f, j) {
        CoveredKept(lib, src, d, step, f, j);
        CoveredBegun(lib, src, d, f, j);
        PortedStill(lib, src, d, d', f, j);
      }
    }
    PortedAll(lib, src, d');
  }

  ghost predicate PortedAt(lib: Lib, src: Source, d: Destination, i: nat, k: Key) {
    i < |src.files| && k in src.files[i].rows && Portable(lib, src, d.legacy, Objects(lib, d.db.store.content), i, k)
  }

  lemma PortedStill(lib: Lib, src: Source, d: Destination, d': Destination, f: nat, j: Key)
    requires Ported(lib, src, d) && Covered(src, d, f, j) && d'.db.store == d.db.store && d'.legacy == d.legacy
    ensures PortedAt(lib, src, d', f, j)
  {
    hide Portable, Objects;
  }

  lemma PortedAll(lib: Lib, src: Source, d: Destination)
    requires forall f: nat, j :: Covered(src, d, f, j) ==> PortedAt(lib, src, d, f, j)
    ensures Ported(lib, src, d)
  {
    hide Portable, Objects;
  }

  lemma NextIsRow(rows: map<Key, Record>, after: int, k: Key)
    requires IsNext(rows, after, k)
    ensures k in rows
  {
  }

  /** Rows are covered only once a migration was begun, and then its kind is fixed. */
  lemma CoveredBegun(lib: Lib, src: Source, d: Destination, f: nat, j: Key)
    requires MigrationOk(lib, src, d) && Covered(src, d, f, j)
    ensures d.source.Some?
  {
    hide TablesOk, Tidy, Copies, FromSource, CoveredApart;
  }

  lemma PortableLater(lib: Lib, src: Source, d: Destination, i: nat, k: Key, d': Destination, f: nat, j: Key)
    requires Ported(lib, src, d) && Covered(src, d, f, j)
    requires i < |src.files| && k in src.files[i].rows && RowAdded(lib, src, d, i, k, d')
    ensures PortedAt(lib, src, d', f, j)
  {
    hide CopyRow, Held, Objects, Keeps, Migrated;
    var alone := CopyRow(lib, src, Blank(d.legacy), f, j);
    assert Portable(lib, src, d.legacy, Objects(lib, d.db.store.content), f, j);
    ObjectsGrow(lib, d.db.store.content, d'.db.store.content, alone.value.db.store.content);
  }

  lemma RowRank(lib: Lib, src: Source, d: Destination, i: nat, k: Key, rank: map<Id, nat>) returns (rank': map<Id, nat>)
    requires Lawful(lib) && ParseLaw(lib) && AllChecked(lib, src) && Consistent(lib, d.db.store, rank)
    requires i < |src.files| && k in src.files[i].rows && CopyRow(lib, src, d, i, k).Some?
    ensures Consistent(lib, CopyRow(lib, src, d, i, k).value.db.store, rank')
  {
    hide Lawful, ParseLaw, AllChecked, Consistent, CopyFor, Decode, DecodePayload, JsonEqual;
    rank' := RowConsistent(lib, src, d, i, k, rank);
  }

  /** With sources free of collisions, the destination is a consistent database after every run, and no two
      rows of those covered share a key or an id. */
  lemma {:induction false} RunFaithful(lib: Lib, src: Source, steps: seq<Step>) returns (rank: map<Id, nat>)
    requires Lawful(lib) && ParseLaw(lib) && AllChecked(lib, src) && SourceOk(src) && Run(lib, src, FRESH, steps).Some?
    ensures Faithful(lib, src, Run(lib, src, FRESH, steps).value, rank) && DbOk(lib, Run(lib, src, FRESH, steps).value.db, rank)
    decreases |steps|
  {
    hide HashLaw, KeyLaw, NodeLaw, TextLaw, ZlibLaw, ParseLaw, AllChecked, SourceOk, Apply, Ported, Consistent, Tidy, Copies, FromSource, CoveredApart;
    RunOk(lib, src, steps);
    if steps == [] {
      FreshFaithful(lib, src);
      rank := map[];
    } else {
      var before := steps[..|steps| - 1];
      var rank0 := RunFaithful(lib, src, before);
      RunOk(lib, src, before);
      rank := StepFaithful(lib, src, Run(lib, src, FRESH, before).value, steps[|steps| - 1], rank0);
    }
  }

  // ---------------------------------------------------------------- when it succeeds

  /** No two rows, of whatever files, share a key or an id. */
  ghost predicate RowsApart(src: Source) {
    forall i: nat, k, j: nat, m :: IsRow(src, i, k) && IsRow(src, j, m) ==> Apart(src, i, k, j, m)
  }

  /** Every row can be migrated by itself, and together the rows neither share keys or ids nor have two objects
      with one hash. */
  ghost predicate Ready(lib: Lib, src: Source, legacy: bool, objs: map<Id, Bytes>) {
    && RowsApart(src)
    && forall i: nat, k :: IsRow(src, i, k) ==> Portable(lib, src, legacy, objs, i, k)
  }

  /** Nothing stands in the way of the rows that are left. */
  ghost predicate Clear(lib: Lib, src: Source, d: Destination, legacy: bool, objs: map<Id, Bytes>) {
    Ready(lib, src, legacy, objs) && Clean(lib, d.db.store, objs)
  }

  /** Every row can be migrated by itself, no two share a key or an id, and no two objects, of the rows or of the
      destination, a hash. */
  ghost predicate Clearable(lib: Lib, src: Source, d: Destination, legacy: bool) {
    exists objs :: Clear(lib, src, d, legacy, objs)
  }

  /** The payload is copied as it would be alone, and restores to equal JSON. */
  lemma PayloadPortable(lib: Lib, src: Source, d: Destination, i: nat, k: Key, objs: map<Id, Bytes>)
    requires ZlibLaw(lib) && Clean(lib, d.db.store, objs)
    requires i < |src.files| && k in src.files[i].rows && Portable(lib, src, d.legacy, objs, i, k)
    ensures var file := src.files[i]; var p := file.rows[k].payload; var r := CopyFor(lib, file, d, p);
      && Decode(lib, file, p).Some? && r.Ok? && Clean(lib, r.value.0, objs)
      && var restored := DecodePayload(lib, r.value.0.content, r.value.1);
         restored.Some? && JsonEqual(lib, Decode(lib, file, p).value, restored.value)
  {
    hide ZlibLaw, CopyPayload, DecodePayload, JsonEqual, Keeps, WithId, Anchored;
    var file := src.files[i];
    var p := file.rows[k].payload;
    var original := Decode(lib, file, p).value;
    if d.legacy {
      PlainDecodes(lib, d.db, original);
      PlainDecodes(lib, EMPTY, original);
    } else {
      assert Clean(lib, EMPTY.store, objs) by { NothingClean(lib, objs); }
      CopyTransfers(lib, file.store.content, EMPTY.store, d.db.store, p, objs);
      var (alone, q) := CopyPayload(lib, file.store.content, EMPTY.store, p).value;
      var store := CopyPayload(lib, file.store.content, d.db.store, p).value.0;
      HeldExtends(lib, alone.content, store.content, objs);
      DecodeExtends(lib, alone.content, store.content, q);
    }
  }

  /** So the row is copied, unless its key or id is taken. */
  lemma RowPortable(lib: Lib, src: Source, d: Destination, i: nat, k: Key, objs: map<Id, Bytes>)
    requires ZlibLaw(lib) && SourceOk(src) && Clean(lib, d.db.store, objs)
    requires i < |src.files| && k in src.files[i].rows && Portable(lib, src, d.legacy, objs, i, k)
    requires k !in d.db.rows && forall j :: j in d.db.rows ==> d.db.rows[j].id != src.files[i].rows[k].id
    ensures var r := CopyRow(lib, src, d, i, k); r.Some? && Clean(lib, r.value.db.store, objs)
  {
    hide ZlibLaw, Clean, Portable, CopyFor, DecodePayload, JsonEqual;
    PayloadPortable(lib, src, d, i, k, objs);
    assert src.files[i].rows[k].key == k;
  }

  /** A row ahead of its file's cursor is not in the destination, nor is its id. */
  lemma AheadIsFree(lib: Lib, src: Source, d: Destination, i: nat, k: Key)
    requires MigrationOk(lib, src, d) && RowsApart(src)
    requires i < |src.files| && CursorOf(d, i).At? && IsNext(src.files[i].rows, CursorOf(d, i).id, k)
    ensures k !in d.db.rows && forall j :: j in d.db.rows ==> d.db.rows[j].id != src.files[i].rows[k].id
  {
    hide TablesOk, Tidy, Decode, JsonEqual, CoveredApart;
    forall j | j in d.db.rows ensures j != k && d.db.rows[j].id != src.files[i].rows[k].id {
      var f :| 0 <= f < |src.files| && Covered(src, d, f, j);
      assert Migrated(lib, src.files[f], src.files[f].rows[j], d.db, d.db.rows[j]);
      assert IsRow(src, f, j) && IsRow(src, i, k);
    }
  }

  lemma RowClear(lib: Lib, src: Source, d: Destination, i: nat, k: Key, objs: map<Id, Bytes>)
    requires ZlibLaw(lib) && SourceOk(src) && MigrationOk(lib, src, d)
    requires Ready(lib, src, d.legacy, objs) && Clean(lib, d.db.store, objs)
    requires i < |src.files| && CursorOf(d, i).At? && IsNext(src.files[i].rows, CursorOf(d, i).id, k)
    ensures var r := CopyRow(lib, src, d, i, k); r.Some? && Clean(lib, r.value.db.store, objs)
  {
    hide ZlibLaw, SourceOk, TablesOk, Tidy, Clean, CopyRow, Portable, RowsApart, Copies, FromSource, CoveredApart;
    AheadIsFree(lib, src, d, i, k);
    assert IsRow(src, i, k);
    RowPortable(lib, src, d, i, k, objs);
  }

  /** A completed migration shows that nothing stood in its way. */
  lemma CompleteWasReady(lib: Lib, src: Source, d: Destination)
    requires MigrationOk(lib, src, d) && AllComplete(src, d) && Ported(lib, src, d)
    ensures Ready(lib, src, d.legacy, Objects(lib, d.db.store.content))
  {
    hide TablesOk, Tidy, Copies, FromSource, Portable, Objects;
    forall i: nat, k | IsRow(src, i, k) ensures Covered(src, d, i, k) {
      assert CursorOf(d, i) == Complete;
    }
  }

  /** Rows ahead of the cursor of a file. */
  function Ahead(src: Source, d: Destination, i: nat): set<Key>
    requires i < |src.files|
  {
    set k | k in src.files[i].rows && CursorOf(d, i).At? && CursorOf(d, i).id < src.files[i].rows[k].id
  }

  /** Rows still to copy from file i on. */
  function Todo(src: Source, d: Destination, i: nat): nat
    requires i <= |src.files|
    decreases |src.files| - i
  {
    if i == |src.files| then 0 else |Ahead(src, d, i)| + Todo(src, d, i + 1)
  }

  /** How often a file asks whether the run is cancelled: before each row, and before finding that there is none. */
  function FileChecks(src: Source, d: Destination, i: nat): nat
    requires i < |src.files|
  {
    if CursorOf(d, i).At? then |Ahead(src, d, i)| + 1 else 0
  }

  function Checks(src: Source, d: Destination, i: nat): nat
    requires i <= |src.files|
    decreases |src.files| - i
  {
    if i == |src.files| then 0 else FileChecks(src, d, i) + Checks(src, d, i + 1)
  }

  lemma {:induction false} TodoKept(src: Source, d: Destination, e: Destination, i: nat)
    requires i <= |src.files| && forall j :: i <= j < |src.files| ==> CursorOf(d, j) == CursorOf(e, j)
    ensures Todo(src, d, i) == Todo(src, e, i) && Checks(src, d, i) == Checks(src, e, i)
    decreases |src.files| - i
  {
    if i < |src.files| {
      TodoKept(src, d, e, i + 1);
    }
  }

  // ---------------------------------------------------------------- the program

  /** The destination file as MigrateFrozen updates it. */
  class Migration {
    const lib: Lib
    const src: Source
    var d: Destination
    ghost var rank: map<Id, nat>

    /** What the sources must be for the destination's graph to be right. */
    ghost predicate Pure()
      reads this
    {
      Lawful(lib) && ParseLaw(lib) && AllChecked(lib, src)
    }

    ghost predicate Valid()
      reads this
    {
      ZlibLaw(lib) && SourceOk(src) && MigrationOk(lib, src, d) && (Pure() ==> Faithful(lib, src, d, rank))
    }

    constructor (lib: Lib, src: Source)
      requires ZlibLaw(lib) && SourceOk(src)
      ensures Valid() && d == FRESH && this.lib == lib && this.src == src
    {
      this.lib, this.src, this.d, this.rank := lib, src, FRESH, map[];
      FreshOk(lib, src);
      FreshFaithful(lib, src);
    }

    /** The next row after the cursor, if any. */
    method NextRow(i: nat, after: int) returns (next: Option<Key>)
      requires i < |src.files|
      ensures next.None? <==> forall k :: k in src.files[i].rows ==> src.files[i].rows[k].id <= after
      ensures next.Some? ==> IsNext(src.files[i].rows, after, next.value)
    {
      var rows := src.files[i].rows;
      var todo := rows.Keys;
      next := None;
      while todo != {}
        invariant todo <= rows.Keys
        invariant next.None? ==> forall k :: k in rows && k !in todo ==> rows[k].id <= after
        invariant next.Some? ==> next.value in rows && after < rows[next.value].id
        invariant next.Some? ==> forall k :: k in rows && k !in todo && after < rows[k].id ==> rows[next.value].id <= rows[k].id
        decreases todo
      {
        var k :| k in todo;
        todo := todo - {k};
        if after < rows[k].id && (next.None? || rows[k].id < rows[next.value].id) {
          next := Some(k);
        }
      }
    }

    /** Takes one step of the protocol and records it. */
    ghost method Record(before: Destination, start: Destination, trace: seq<Step>, step: Step) returns (longer: seq<Step>)
      requires ZlibLaw(lib) && SourceOk(src) && MigrationOk(lib, src, before) && (Pure() ==> Faithful(lib, src, before, rank))
      requires Run(lib, src, start, trace) == Some(before)
      requires Apply(lib, src, before, step) == Some(d)
      modifies this`rank
      ensures Valid() && Run(lib, src, start, longer) == Some(d)
    {
      hide ZlibLaw, SourceOk, MigrationOk, Faithful, Apply, Lawful, ParseLaw, AllChecked;
      StepOk(lib, src, before, step);
      if Pure() {
        rank := StepFaithful(lib, src, before, step, rank);
      }
      longer := trace + [step];
      assert longer[..|longer| - 1] == trace;
    }

    /** The run is under way: the checks before the first row have passed, and what is stored stays. */
    ghost predicate Underway(start: Destination, trace: seq<Step>, legacy: bool)
      reads this
    {
      && Valid() && Run(lib, src, start, trace) == Some(d)
      && d.source == Some(src.fingerprint) && d.legacy == legacy && !d.activated
      && Keeps(start.db.store.content, d.db.store.content)
    }

    lemma RowIds(start: Destination, trace: seq<Step>, legacy: bool, i: nat)
      requires Underway(start, trace, legacy) && i < |src.files|
      ensures IdsDistinct(src.files[i].rows)
    {
      hide MigrationOk, Faithful, Run, ZlibLaw, IdsDistinct;
    }

    /** Copies the next row, and does if nothing stands in the way. */
    method MigrateRow(i: nat, k: Key, legacy: bool, ghost start: Destination, ghost trace: seq<Step>, ghost objs: map<Id, Bytes>)
      returns (ok: bool, ghost longer: seq<Step>)
      requires i < |src.files| && Underway(start, trace, legacy) && CursorOf(d, i).At?
      requires IsNext(src.files[i].rows, CursorOf(d, i).id, k)
      modifies this
      ensures Underway(start, longer, legacy)
      ensures Clear(lib, src, old(d), legacy, objs) ==> ok && Clear(lib, src, d, legacy, objs)
      ensures !ok ==> d == old(d)
      ensures ok ==> CursorOf(d, i) == At(src.files[i].rows[k].id) && |d.db.rows| == |old(d.db.rows)| + 1
      ensures forall j :: j != i ==> CursorOf(d, j) == CursorOf(old(d), j)
    {
      hide ZlibLaw, SourceOk, MigrationOk, Faithful, CopyRow, Run, Ready, Clean, Keeps, Lawful, ParseLaw, AllChecked;
      ok, longer := false, trace;
      var after := CopyRow(lib, src, d, i, k);
      assert Clear(lib, src, d, legacy, objs) ==> after.Some? && Clean(lib, after.value.db.store, objs) by {
        if Clear(lib, src, d, legacy, objs) {
          RowClear(lib, src, d, i, k, objs);
        }
      }
      if after.Some? {
        CopyRowShape(lib, src, d, i, k);
        KeepsTransitive(start.db.store.content, d.db.store.content, after.value.db.store.content);
        ghost var before := d;
        d := after.value;
        longer := Record(before, start, longer, RowStep(i, k));
        ok := true;
      }
    }

    /** Copies the rows of one file behind its cursor; `patience` is how often the run is found not to be cancelled.
        `done` once the file is complete. */
    method MigrateFile(i: nat, legacy: bool, patience: nat, ghost start: Destination, ghost trace: seq<Step>, ghost objs: map<Id, Bytes>)
      returns (copied: nat, left: nat, done: bool, ghost longer: seq<Step>)
      requires i < |src.files| && Underway(start, trace, legacy)
      modifies this
      ensures Underway(start, longer, legacy)
      ensures |d.db.rows| == |old(d.db.rows)| + copied
      ensures done ==> CursorOf(d, i) == Complete && copied == |Ahead(src, old(d), i)| && left == patience - FileChecks(src, old(d), i)
      ensures Clear(lib, src, old(d), legacy, objs) ==> Clear(lib, src, d, legacy, objs)
      ensures Clear(lib, src, old(d), legacy, objs) && FileChecks(src, old(d), i) <= patience ==> done
      ensures forall j :: j != i ==> CursorOf(d, j) == CursorOf(old(d), j)
    {
      hide Underway, Clear;
      copied, left, done, longer := 0, patience, false, trace;
      while CursorOf(d, i).At?
        invariant Underway(start, longer, legacy)
        invariant |d.db.rows| == |old(d.db.rows)| + copied
        invariant copied + |Ahead(src, d, i)| == |Ahead(src, old(d), i)|
        invariant left + FileChecks(src, old(d), i) == patience + FileChecks(src, d, i)
        invariant Clear(lib, src, old(d), legacy, objs) ==> Clear(lib, src, d, legacy, objs)
        invariant forall j :: j != i ==> CursorOf(d, j) == CursorOf(old(d), j)
        decreases CursorOf(d, i).At?, |Ahead(src, d, i)|
      {
        if left == 0 {
          return;
        }
        left := left - 1;
        var next := NextRow(i, CursorOf(d, i).id);
        if next.None? {
          longer := CompleteFile(i, legacy, start, longer, objs);
        } else {
          ghost var before := d;
          var ok;
          ok, longer := MigrateRow(i, next.value, legacy, start, longer, objs);
          if !ok {
            return;
          }
          RowIds(start, longer, legacy, i);
          OneLess(src, before, d, i, next.value);
          copied := copied + 1;
        }
      }
      assert Ahead(src, d, i) == {};
      done := true;
    }

    method CompleteFile(i: nat, legacy: bool, ghost start: Destination, ghost trace: seq<Step>, ghost objs: map<Id, Bytes>) returns (ghost longer: seq<Step>)
      requires i < |src.files| && Underway(start, trace, legacy) && CursorOf(d, i).At?
      requires forall k :: k in src.files[i].rows ==> src.files[i].rows[k].id <= CursorOf(d, i).id
      modifies this
      ensures Underway(start, longer, legacy) && d == old(d).(cursors := old(d.cursors)[i := Complete])
      ensures Clear(lib, src, old(d), legacy, objs) ==> Clear(lib, src, d, legacy, objs)
      ensures Ahead(src, d, i) == Ahead(src, old(d), i) == {}
    {
      hide ZlibLaw, SourceOk, MigrationOk, Faithful, Run, CopyRow, Keeps, Lawful, ParseLaw, AllChecked;
      ghost var before := d;
      d := d.(cursors := d.cursors[i := Complete]);
      longer := Record(before, start, trace, FileStep(i));
    }

    /** One file after the other. */
    method MigrateFiles(legacy: bool, patience: nat, ghost start: Destination, ghost trace: seq<Step>, ghost objs: map<Id, Bytes>)
      returns (copied: nat, done: bool, ghost longer: seq<Step>)
      requires Underway(start, trace, legacy)
      modifies this
      ensures Underway(start, longer, legacy)
      ensures |d.db.rows| == |old(d.db.rows)| + copied
      ensures done ==> AllComplete(src, d) && copied == Todo(src, old(d), 0) && Checks(src, old(d), 0) <= patience
      ensures Clear(lib, src, old(d), legacy, objs) && Checks(src, old(d), 0) <= patience ==> done
    {
      hide Underway, Clear, Ahead, FileChecks;
      var left: nat := patience;
      copied, done, longer := 0, false, trace;
      for i := 0 to |src.files|
        invariant Underway(start, longer, legacy)
        invariant |d.db.rows| == |old(d.db.rows)| + copied
        invariant copied + Todo(src, d, i) == Todo(src, old(d), 0)
        invariant left + Checks(src, old(d), 0) == patience + Checks(src, d, i)
        invariant Clear(lib, src, old(d), legacy, objs) ==> Clear(lib, src, d, legacy, objs)
        invariant forall j :: 0 <= j < i ==> CursorOf(d, j) == Complete
      {
        ghost var before := d;
        var n, complete;
        n, left, complete, longer := MigrateFile(i, legacy, left, start, longer, objs);
        copied := copied + n;
        if !complete {
          return;
        }
        TodoKept(src, before, d, i + 1);
      }
      done := true;
    }

    /** One run of the migration: `patience` is how often it is found not to be cancelled, and `frozen` tells whether the
        source files still have their recorded identity at the end. Every run is a sequence of protocol steps, and
        one that reports success has completed the migration. It does report success if nothing refuses it; and,
        with sources free of collisions, only if. */
    method MigrateFrozen(legacy: bool, patience: nat, frozen: bool) returns (copied: nat, ok: bool, ghost trace: seq<Step>)
      requires Valid()
      modifies this
      ensures Valid()
      ensures Run(lib, src, old(d), trace) == Some(d)
      ensures ok ==> d.complete && d.source == Some(src.fingerprint) && d.legacy == legacy && copied == Todo(src, old(d), 0)
      ensures Begin(old(d), src, legacy).None? ==> copied == 0 && d == old(d)
      ensures |d.db.rows| == |old(d.db.rows)| + copied
      ensures Begin(old(d), src, legacy).Some? && Checks(src, old(d), 0) <= patience && frozen && Clearable(lib, src, old(d), legacy) ==> ok
      ensures ok ==> Begin(old(d), src, legacy).Some? && Checks(src, old(d), 0) <= patience && frozen
      ensures ok && Pure() ==> Clearable(lib, src, old(d), legacy)
    {
      hide ZlibLaw, SourceOk, MigrationOk, Faithful, CopyRow, Run, Ready, Clean, Clear, Lawful, ParseLaw, AllChecked;
      ghost var start := d;
      ghost var objs := map[];
      if Clearable(lib, src, d, legacy) {
        objs :| Clear(lib, src, d, legacy, objs);
      }
      copied, ok, trace := 0, false, [];
      RunNothing(lib, src, start);
      var begun := Begin(d, src, legacy);
      if begun.None? {
        return;
      }
      d := begun.value;
      ClearSame(lib, src, start, d, legacy, objs);
      trace := Record(start, start, trace, BeginStep(legacy));
      TodoKept(src, start, d, 0);
      KeepsReflexive(start.db.store.content);
      var done;
      copied, done, trace := MigrateFiles(legacy, patience, start, trace, objs);
      if done && frozen {
        trace := Conclude(legacy, start, trace);
        ok := true;
        if Pure() {
          WasClear(lib, src, start, d, rank);
        }
      }
    }

    /** The allocator's high water, then the completion flag. */
    method Conclude(legacy: bool, ghost start: Destination, ghost trace: seq<Step>) returns (ghost longer: seq<Step>)
      requires Underway(start, trace, legacy) && AllComplete(src, d)
      modifies this
      ensures Underway(start, longer, legacy) && d.complete && d.db.rows == old(d.db.rows)
    {
      hide ZlibLaw, SourceOk, MigrationOk, Faithful, CopyRow, Run, Keeps, Lawful, ParseLaw, AllChecked;
      ghost var before := d;
      d := d.(db := d.db.(seqno := Max(d.db.seqno, SourceSeq(src))));
      longer := Record(before, start, trace, SequenceStep);
      before := d;
      forall i | 0 <= i < |src.files| ensures CursorOf(d, i) == Complete {
        assert CursorOf(old(d), i) == Complete;
      }
      d := Finish(d, src);
      longer := Record(before, start, longer, FinishStep);
    }
  }

  /** What a completed run says of where it began. */
  lemma WasClear(lib: Lib, src: Source, start: Destination, d: Destination, rank: map<Id, nat>)
    requires MigrationOk(lib, src, start) && MigrationOk(lib, src, d) && d.complete && Faithful(lib, src, d, rank)
    requires Keeps(start.db.store.content, d.db.store.content)
    ensures Clearable(lib, src, start, d.legacy)
  {
    hide TablesOk, Tidy, Copies, FromSource, CoveredApart, Ported, Consistent, Objects, Ready, Clean, Keeps;
    CompleteWasReady(lib, src, d);
    TidyClean(lib, start.db.store, d.db.store.content);
    assert Clear(lib, src, start, d.legacy, Objects(lib, d.db.store.content));
  }

  lemma ClearSame(lib: Lib, src: Source, d: Destination, e: Destination, legacy: bool, objs: map<Id, Bytes>)
    requires d.db.store == e.db.store
    ensures Clear(lib, src, d, legacy, objs) <==> Clear(lib, src, e, legacy, objs)
  {
    hide Ready, Clean;
  }

  lemma OneLess(src: Source, before: Destination, d: Destination, i: nat, k: Key)
    requires i < |src.files| && CursorOf(before, i).At? && IsNext(src.files[i].rows, CursorOf(before, i).id, k)
    requires CursorOf(d, i) == At(src.files[i].rows[k].id) && IdsDistinct(src.files[i].rows)
    ensures |Ahead(src, d, i)| == |Ahead(src, before, i)| - 1
  {
    assert Ahead(src, d, i) == Ahead(src, before, i) - {k};
  }

  lemma RunNothing(lib: Lib, src: Source, d: Destination)
    ensures Run(lib, src, d, []) == Some(d)
  {
  }

  lemma CopyRowShape(lib: Lib, src: Source, d: Destination, i: nat, k: Key)
    requires ZlibLaw(lib) && SourceOk(src) && MigrationOk(lib, src, d)
    requires i < |src.files| && k in src.files[i].rows && CopyRow(lib, src, d, i, k).Some?
    ensures var d' := CopyRow(lib, src, d, i, k).value;
      && d' == d.(db := d'.db, cursors := d.cursors[i := At(src.files[i].rows[k].id)])
      && |d'.db.rows| == |d.db.rows| + 1 && Keeps(d.db.store.content, d'.db.store.content)
  {
    hide ZlibLaw, SourceOk, CopyRow, TablesOk, Tidy, Copies, FromSource, CoveredApart, Migrated, Keeps;
    RowFacts(lib, src, d, i, k);
    assert CopyRow(lib, src, d, i, k).value.db.rows.Keys == d.db.rows.Keys + {k};
  }
}

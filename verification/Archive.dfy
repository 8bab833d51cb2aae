/** Archive and crash recovery (internal/queue/maintenance.go, recovery.go) interleaved with
    everything else that touches the queue, as a state machine over atomic steps.

    Each SQL statement or transaction and each file operation is one step. The archiver's
    local variables live in `pc` and are lost in a crash; everything else is durable. The
    archive lock admits one archiver and keeps Collect out while it works. */
module Archive {
  import opened Basics
  import opened Content
  import opened RoundTrip
  import opened Copy
  import opened Collect
  import opened Database

  type Path = Bytes

  /** One row of queue_archived. */
  datatype Location = Location(path: Path, id: int)

  datatype Pc =
    | Idle
    | Recovering(todo: seq<Path>, thenArchive: bool)
    | Ready
    | Intended(path: Path)
    | Selected(path: Path, recs: seq<Record>)
    | Copying(path: Path, recs: seq<Record>, n: nat, dest: Db)
    | Verifying(path: Path, recs: seq<Record>, n: nat)

  datatype State = State(
    q: Db,                          // the active database
    archived: map<Key, Location>,   // queue_archived
    catalog: set<Path>,             // queue_archives
    intents: set<Path>,             // queue_archive_pending
    files: map<Path, Db>,           // segment files on disk
    pc: Pc)

  datatype Step =
    // the node, the push worker and the administrator
    | EnqueueStep(key: Key, time: nat, value: Value, now: int, legacy: bool)
    | PushedStep(key: Key, now: int)
    | FailedStep(key: Key, msg: Bytes, now: int)
    | RequeueStep(event: Bytes, now: int)
    | DeleteStep(event: Bytes)
    | CollectStep(node: Id)
    // recovery
    | StartRecovery(order: seq<Path>, thenArchive: bool)
    | RemoveOrphan
    | ForgetIntent
    | RecoveryDone
    // archiving
    | WriteIntent(path: Path)
    | SelectStep(before: int, limit: int, recs: seq<Record>)
    | OpenSegment
    | CopyOne
    | Commit
    | VerifyOne
    | Publish(order: seq<Path>)
    | Abort(order: seq<Path>)
    | Crash

  // ---------------------------------------------------------------- the steps

  function KeysOf(recs: seq<Record>): set<Key> {
    set i | 0 <= i < |recs| :: recs[i].key
  }

  /** How many rows one call may move. */
  function Batch(limit: int): (n: nat)
    ensures 1 <= limit <= 1000 ==> n == limit
    ensures limit < 1 || limit > 1000 ==> n == 100
  {
    if limit <= 0 || limit > 1000 then 100 else limit
  }

  /** The SELECT of acknowledged rows, in id order, at most `limit`. */
  ghost predicate Selection(q: Db, before: int, limit: nat, recs: seq<Record>) {
    && |recs| <= limit
    && (forall i :: 0 <= i < |recs| ==>
          recs[i].key in q.rows && q.rows[recs[i].key] == recs[i]
          && recs[i].status == PUSHED && recs[i].updated < before)
    && (forall i, j :: 0 <= i < j < |recs| ==> recs[i].id < recs[j].id)
    && (forall k :: k in q.rows && q.rows[k].status == PUSHED && q.rows[k].updated < before && k !in KeysOf(recs) ==>
          |recs| == limit && forall i :: 0 <= i < |recs| ==> recs[i].id < q.rows[k].id)
  }

  /** The columns publication compares before it moves a row. */
  predicate Unchanged(current: Record, r: Record) {
    && current.key == r.key && current.status == r.status && current.retry == r.retry
    && current.updated == r.updated && current.created == r.created && current.error == r.error
  }

  /** The columns verification compares in the finished segment. */
  predicate SameMetadata(saved: Record, r: Record) {
    && saved.key == r.key && saved.time == r.time && saved.status == r.status && saved.retry == r.retry
    && saved.error == r.error && saved.created == r.created && saved.updated == r.updated
  }

  /** jsonEqual of two restored payloads; an unrestorable one fails. */
  predicate SameJson(lib: Lib, a: Option<Bytes>, b: Option<Bytes>) {
    a.Some? && b.Some? && JsonEqual(lib, a.value, b.value)
  }

  ghost predicate Enumerates(order: seq<Path>, paths: set<Path>) {
    forall p :: p in order <==> p in paths
  }

  /** The publication transaction. */
  function Published(s: State, order: seq<Path>): State
    requires s.pc.Verifying?
  {
    var recs := s.pc.recs;
    var keys := KeysOf(recs);
    s.(q := s.q.(rows := map k | k in s.q.rows && !(k in keys && s.q.rows[k].status == PUSHED) :: s.q.rows[k],
                 roots := map k | k in s.q.roots && k !in keys :: s.q.roots[k]),
       archived := map k | k in s.archived.Keys + keys ::
         if k in keys then Location(s.pc.path, IdFor(recs, k)) else s.archived[k],
       catalog := s.catalog + {s.pc.path},
       pc := Recovering(order, false))
  }

  function IdFor(recs: seq<Record>, k: Key): int {
    if recs == [] then 0 else if recs[0].key == k then recs[0].id else IdFor(recs[1..], k)
  }

  /** The state after a step, or None where the step cannot happen. Errors of any kind during
      archiving are the Abort step, which leads to the deferred recovery. */
  ghost function Apply(lib: Lib, s: State, step: Step): Option<State> {
    match step
    case EnqueueStep(key, time, value, now, legacy) =>
      if !WellFormed(lib, value) then None
      else if key in s.archived then Some(s)
      else (match Enqueue(lib, s.q, key, time, value, now, legacy)
            case Err(_) => Some(s)
            case Ok(q) => Some(s.(q := q)))
    case PushedStep(key, now) => Some(s.(q := MarkPushed(s.q, key, now)))
    case FailedStep(key, msg, now) => Some(s.(q := MarkFailed(s.q, key, msg, now)))
    case RequeueStep(event, now) => Some(s.(q := Requeue(s.q, event, now)))
    case DeleteStep(event) => Some(s.(q := Delete(s.q, event)))
    case CollectStep(node) =>
      if s.pc.Idle? && Unreferenced(s.q.store, s.q.roots, node)
      then Some(s.(q := s.q.(store := Remove(s.q.store, node)))) else None

    case StartRecovery(order, thenArchive) =>
      if s.pc.Idle? && Enumerates(order, s.intents) then Some(s.(pc := Recovering(order, thenArchive))) else None
    case RemoveOrphan =>
      if s.pc.Recovering? && s.pc.todo != [] && s.pc.todo[0] !in s.catalog
      then Some(s.(files := s.files - {s.pc.todo[0]})) else None
    case ForgetIntent =>
      if s.pc.Recovering? && s.pc.todo != [] && (s.pc.todo[0] in s.catalog <==> s.pc.todo[0] in s.files)
      then Some(s.(intents := s.intents - {s.pc.todo[0]}, pc := s.pc.(todo := s.pc.todo[1..]))) else None
    case RecoveryDone =>
      if s.pc.Recovering? && s.pc.todo == []
      then Some(s.(pc := if s.pc.thenArchive then Ready else Idle)) else None

    case WriteIntent(path) =>
      if s.pc.Ready? && path !in s.catalog && path !in s.files && path !in s.intents
      then Some(s.(intents := s.intents + {path}, pc := Intended(path))) else None
    case SelectStep(before, limit, recs) =>
      if s.pc.Intended? && recs != [] && Selection(s.q, before, Batch(limit), recs)
      then Some(s.(pc := Selected(s.pc.path, recs))) else None
    case OpenSegment =>
      if s.pc.Selected?
      then Some(s.(files := s.files[s.pc.path := EMPTY], pc := Copying(s.pc.path, s.pc.recs, 0, EMPTY))) else None
    case CopyOne =>
      if s.pc.Copying? && s.pc.n < |s.pc.recs| then
        var r := s.pc.recs[s.pc.n];
        match WithId(s.q.rows, r.id)
        case None => None
        case Some(current) =>
          match CopyPayload(lib, s.q.store.content, s.pc.dest.store, current.payload)
          case Err(_) => None
          case Ok((store, payload)) =>
            match InsertRecord(lib, s.pc.dest.(store := store), r.(payload := payload))
            case Err(_) => None
            case Ok(dest) => Some(s.(pc := s.pc.(n := s.pc.n + 1, dest := dest)))
      else None
    case Commit =>
      if s.pc.Copying? && s.pc.n == |s.pc.recs|
      then Some(s.(files := s.files[s.pc.path := s.pc.dest], pc := Verifying(s.pc.path, s.pc.recs, 0))) else None
    case VerifyOne =>
      if s.pc.Verifying? && s.pc.n < |s.pc.recs| && s.pc.path in s.files then
        var r := s.pc.recs[s.pc.n];
        var segment := s.files[s.pc.path];
        match (WithId(segment.rows, r.id), WithId(s.q.rows, r.id))
        case (Some(saved), Some(current)) =>
          if SameJson(lib, Decode(lib, s.q, current.payload), Decode(lib, segment, saved.payload)) && SameMetadata(saved, r)
          then Some(s.(pc := s.pc.(n := s.pc.n + 1))) else None
        case _ => None
      else None
    case Publish(order) =>
      if && s.pc.Verifying? && s.pc.n == |s.pc.recs| && s.pc.path !in s.catalog
         && Enumerates(order, s.intents)
         && (forall i :: 0 <= i < |s.pc.recs| ==>
               var current := WithId(s.q.rows, s.pc.recs[i].id);
               current.Some? && Unchanged(current.value, s.pc.recs[i]) && s.pc.recs[i].key !in s.archived)
      then Some(Published(s, order)) else None
    case Abort(order) =>
      if !s.pc.Idle? && !s.pc.Recovering? && !s.pc.Ready? && Enumerates(order, s.intents)
      then Some(s.(pc := Recovering(order, false))) else None
    case Crash => Some(s.(pc := Idle))
  }

  ghost function Run(lib: Lib, s: State, steps: seq<Step>): Option<State> {
    if steps == [] then Some(s) else
    match Run(lib, s, steps[..|steps| - 1])
    case None => None
    case Some(t) => Apply(lib, t, steps[|steps| - 1])
  }

  const START := State(EMPTY, map[], {}, {}, map[], Idle)

  // ---------------------------------------------------------------- what a user sees

  /** A stored event as a user sees it, wherever it is held. `sealed` rows have been archived. */
  datatype Entry = Entry(
    id: int, time: nat, status: int, retry: int, error: Bytes, created: int, updated: int,
    meaning: Option<Bytes>, sealed: bool)

  /** The canonical text of a restored payload: what jsonEqual compares. */
  function Canon(lib: Lib, text: Option<Bytes>): Option<Bytes> {
    if text.Some? && lib.parse(text.value).Some? then Some(Json(lib, lib.parse(text.value).value)) else None
  }

  function EntryOf(lib: Lib, db: Db, r: Record, sealed: bool): Entry {
    Entry(r.id, r.time, r.status, r.retry, r.error, r.created, r.updated, Canon(lib, Decode(lib, db, r.payload)), sealed)
  }

  /** The segment the index names for an archived key, empty if there is none. */
  function SegmentFor(s: State, k: Key): Db {
    if k in s.archived && s.archived[k].path in s.files then s.files[s.archived[k].path] else EMPTY
  }

  /** Every event held, active or archived. */
  ghost function View(lib: Lib, s: State): map<Key, Entry> {
    map k | k in s.q.rows.Keys + s.archived.Keys && (k in s.q.rows || k in SegmentFor(s, k).rows) ::
      if k in s.q.rows then EntryOf(lib, s.q, s.q.rows[k], false)
      else EntryOf(lib, SegmentFor(s, k), SegmentFor(s, k).rows[k], true)
  }

  /** What enqueueing a value makes restorable. */
  function Stored(lib: Lib, v: Value, legacy: bool): Option<Bytes> {
    if legacy then Some(Json(lib, v))
    else if PayloadDepth(lib, v) <= MAX_DEPTH + 1 then Some(Restored(lib, v)) else None
  }

  function Reset(e: Entry, now: int): Entry {
    e.(status := PENDING, retry := 0, error := [], updated := now)
  }

  /** Some acknowledged rows become sealed, and nothing else changes. */
  ghost predicate Seals(a: map<Key, Entry>, keys: set<Key>, b: map<Key, Entry>) {
    && (forall k :: k in keys ==> k in a && !a[k].sealed && a[k].status == PUSHED)
    && b == map k | k in a :: if k in keys then a[k].(sealed := true) else a[k]
  }

  /** How a user's view changes in a step on the active database `q`: an event is added exactly if its key
      is new and it can be encoded; archiving, recovery, collection and crashes are invisible but for
      sealing rows that are acknowledged at that moment. */
  ghost predicate ViewStep(lib: Lib, q: Db, a: map<Key, Entry>, step: Step, b: map<Key, Entry>) {
    match step
    case EnqueueStep(key, time, value, now, legacy) =>
      b == if key in a || EncodeFor(lib, q.store, value, legacy).Err? then a
           else a[key := Entry(q.seqno + 1, time, PENDING, 0, [], now, now, Canon(lib, Stored(lib, value, legacy)), false)]
    case PushedStep(key, now) =>
      b == if key in a && !a[key].sealed then a[key := a[key].(status := PUSHED, error := [], updated := now)] else a
    case FailedStep(key, msg, now) =>
      b == if key in a && !a[key].sealed
           then a[key := a[key].(status := FAILED, retry := a[key].retry + 1, error := msg, updated := now)] else a
    case RequeueStep(event, now) =>
      b == map k | k in a :: if Covers(event, k) && !a[k].sealed then Reset(a[k], now) else a[k]
    case DeleteStep(event) =>
      b == map k | k in a && (!Covers(event, k) || a[k].sealed) :: a[k]
    case Publish(_) =>
      exists keys: set<Key> :: Seals(a, keys, b)
    case _ => b == a
  }
}

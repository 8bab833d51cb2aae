/** One queue database: the event_queue rows with the content they refer to, and the
    transactions of internal/queue/sqlite_queue.go, crud.go and maintenance.go on it. */
module Database {
  import opened Basics
  import opened Content
  import opened Graph
  import opened RoundTrip
  import opened Collect

  type Key = Bytes

  const PENDING := 0
  const PUSHED := 2
  const FAILED := 3

  datatype Record = Record(
    id: int, key: Key, time: nat, payload: Payload,
    status: int, retry: int, error: Bytes, created: int, updated: int)

  /** `rows` is event_queue by its UNIQUE event_id; `seqno` is the AUTOINCREMENT high water,
      so that a row id is never used twice. */
  datatype Db = Db(rows: map<Key, Record>, store: Store, roots: Roots, seqno: int)

  const EMPTY := Db(map[], Store(map[], {}), map[], 0)

  // ---------------------------------------------------------------- transactions

  /** registerRoot. */
  function Register(roots: Roots, key: Key, p: Payload): Roots {
    if p.Manifest? then roots[key := p.root] else roots
  }

  function EncodeFor(lib: Lib, store: Store, v: Value, legacy: bool): Result<(Store, Payload)> {
    if legacy then Ok((store, Plain(Json(lib, v)))) else EncodePayload(lib, store, v)
  }

  /** Enqueue once the archive index has been consulted; a known key is ignored. */
  function Enqueue(lib: Lib, db: Db, key: Key, time: nat, v: Value, now: int, legacy: bool): Result<Db> {
    if key in db.rows then Ok(db) else
    match EncodeFor(lib, db.store, v, legacy)
    case Err(e) => Err(e)
    case Ok((store, p)) =>
      var r := Record(db.seqno + 1, key, time, p, PENDING, 0, [], now, now);
      Ok(Db(db.rows[key := r], store, Register(db.roots, key, p), db.seqno + 1))
  }

  function MarkPushed(db: Db, key: Key, now: int): Db {
    if key !in db.rows then db
    else db.(rows := db.rows[key := db.rows[key].(status := PUSHED, error := [], updated := now)])
  }

  function MarkFailed(db: Db, key: Key, msg: Bytes, now: int): Db {
    if key !in db.rows then db
    else db.(rows := db.rows[key := db.rows[key].(
      status := FAILED, retry := db.rows[key].retry + 1, error := msg, updated := now)])
  }

  const REVISION: Bytes := [64, 114, 101, 118, 105, 115, 105, 111, 110, 58]  // "@revision:"

  /** The WHERE clause of RequeueEvent and DeleteEvent: the event's row and its revisions. */
  predicate Covers(event: Bytes, key: Key) {
    key == event || event + REVISION <= key
  }

  function Requeued(r: Record, now: int): Record {
    r.(status := PENDING, retry := 0, error := [], updated := now)
  }

  function Requeue(db: Db, event: Bytes, now: int): Db {
    db.(rows := map k | k in db.rows :: if Covers(event, k) then Requeued(db.rows[k], now) else db.rows[k])
  }

  function Delete(db: Db, event: Bytes): Db {
    db.(rows := map k | k in db.rows && !Covers(event, k) :: db.rows[k],
        roots := map k | k in db.roots && !Covers(event, k) :: db.roots[k])
  }

  /** SELECT ... WHERE id=?. */
  ghost function WithId(rows: map<Key, Record>, id: int): Option<Record> {
    if exists k :: k in rows && rows[k].id == id then
      var k :| k in rows && rows[k].id == id;
      Some(rows[k])
    else None
  }

  function Decode(lib: Lib, db: Db, p: Payload): Option<Bytes> {
    DecodePayload(lib, db.store.content, p)
  }

  /** insertRecord: the row keeps its id; its payload must be restorable where it now is. */
  function InsertRecord(lib: Lib, db: Db, r: Record): Result<Db> {
    if r.key in db.rows || (exists k :: k in db.rows && db.rows[k].id == r.id) then Err(Failed)
    else if Decode(lib, db, r.payload).None? then Err(Failed)
    else Ok(Db(db.rows[r.key := r], db.store, Register(db.roots, r.key, r.payload), Max(db.seqno, r.id)))
  }

  // ---------------------------------------------------------------- the invariant

  /** An active row of the v2 format has its root registered. */
  ghost predicate RowOk(db: Db, k: Key) {
    k in db.rows ==>
      && db.rows[k].key == k && db.rows[k].id <= db.seqno
      && (db.rows[k].payload.Manifest? ==>
            var p := db.rows[k].payload;
            p.version == 2 && |p.root| == 64 && k in db.roots && db.roots[k] == p.root)
  }

  ghost predicate IdsDistinct(rows: map<Key, Record>) {
    forall j, k :: j in rows && k in rows && rows[j].id == rows[k].id ==> j == k
  }

  ghost predicate DbOk(lib: Lib, db: Db, rank: map<Id, nat>) {
    && Consistent(lib, db.store, rank)
    && RootsStored(db.store.content, db.roots)
    && (forall k :: RowOk(db, k))
    && IdsDistinct(db.rows)
  }

  lemma EmptyOk(lib: Lib)
    ensures DbOk(lib, EMPTY, map[])
  {
  }

  /** What a row restores to does not change while the content it needs is kept. */
  lemma DecodeKept(lib: Lib, a: Table, b: Table, p: Payload)
    requires HashLaw(lib) && AllSound(lib, a) && Resolved(lib, a) && Keeps(a, b)
    requires p.Manifest? ==> p.root in a
    ensures DecodePayload(lib, b, p) == DecodePayload(lib, a, p)
  {
    hide Render, AllSound, Resolved, Keeps;
    KeepsAgrees(lib, a, b);
    if p.Manifest? {
      RenderAgrees(lib, a, b, a.Keys, Fragment([], p.root), {}, 0);
    }
  }

  /** A step on a database keeps it consistent, and every row that stays restores as before. */
  ghost predicate Meanings(lib: Lib, a: Db, b: Db) {
    forall k :: k in a.rows && k in b.rows && b.rows[k].payload == a.rows[k].payload ==>
      Decode(lib, b, b.rows[k].payload) == Decode(lib, a, a.rows[k].payload)
  }

  lemma EnqueueOk(lib: Lib, db: Db, key: Key, time: nat, v: Value, now: int, legacy: bool, rank: map<Id, nat>)
    returns (rank': map<Id, nat>)
    requires Lawful(lib) && WellFormed(lib, v) && DbOk(lib, db, rank) && key !in db.rows
    requires Enqueue(lib, db, key, time, v, now, legacy).Ok?
    ensures var db' := Enqueue(lib, db, key, time, v, now, legacy).value;
      && DbOk(lib, db', rank') && Meanings(lib, db, db')
      && db'.seqno == db.seqno + 1
      && key in db'.rows
      && db'.rows == db.rows[key := db'.rows[key]]
      && db'.rows[key] == Record(db'.seqno, key, time, db'.rows[key].payload, PENDING, 0, [], now, now)
      && Decode(lib, db', db'.rows[key].payload) ==
           (if legacy then Some(Json(lib, v))
            else if PayloadDepth(lib, v) <= MAX_DEPTH + 1 then Some(Restored(lib, v)) else None)
  {
    hide AllSound, EdgesExact, Resolved, Ranked, HashLaw, ZlibLaw, KeyLaw, NodeLaw, TextLaw, Keeps,
         EncodePayload, Json, Restored, StoredDepth, DecodePayload;
    var db' := Enqueue(lib, db, key, time, v, now, legacy).value;
    if legacy {
      rank' := rank;
      KeepsReflexive(db.store.content);
      assert DecodePayload(lib, db'.store.content, Plain(Json(lib, v))) == Some(Json(lib, v)) by { PlainDecodes(lib, db', Json(lib, v)); }
    } else {
      rank' := EncodePayloadOk(lib, db.store, v, rank);
    }
    forall k | k in db.rows ensures db.rows[k].id != db.seqno + 1 {
      assert RowOk(db, k);
    }
    GrowOk(lib, db, db', db'.rows[key], rank');
  }

  lemma PlainDecodes(lib: Lib, db: Db, text: Bytes)
    ensures DecodePayload(lib, db.store.content, Plain(text)) == Some(text)
  {
  }

  /** Adding one row over a grown store. */
  lemma GrowOk(lib: Lib, db: Db, db': Db, r: Record, rank': map<Id, nat>)
    requires HashLaw(lib) && AllSound(lib, db.store.content) && Resolved(lib, db.store.content)
    requires RootsStored(db.store.content, db.roots) && IdsDistinct(db.rows)
    requires forall k :: RowOk(db, k)
    requires Consistent(lib, db'.store, rank') && Keeps(db.store.content, db'.store.content)
    requires GrownBy(db, db', r)
    ensures DbOk(lib, db', rank') && Meanings(lib, db, db')
  {
    hide AllSound, EdgesExact, Resolved, Ranked, DecodePayload;
    forall k | k in db.rows ensures Decode(lib, db', db.rows[k].payload) == Decode(lib, db, db.rows[k].payload) {
      assert RowOk(db, k);
      DecodeKept(lib, db.store.content, db'.store.content, db.rows[k].payload);
    }
    forall k ensures RowOk(db', k) {
      assert RowOk(db, k);
    }
    forall j, k | j in db'.rows && k in db'.rows && db'.rows[j].id == db'.rows[k].id ensures j == k {
      assert RowOk(db, j) && RowOk(db, k);
    }
  }

  ghost predicate GrownBy(db: Db, db': Db, r: Record) {
    && r.key !in db.rows && (forall k :: k in db.rows ==> db.rows[k].id != r.id)
    && db'.rows == db.rows[r.key := r]
    && db'.roots == Register(db.roots, r.key, r.payload)
    && db.seqno <= db'.seqno && r.id <= db'.seqno
    && (r.payload.Manifest? ==> r.payload.version == 2 && |r.payload.root| == 64 && r.payload.root in db'.store.content)
  }

  /** insertRecord after copyPayload has brought the content along. */
  lemma InsertOk(lib: Lib, db: Db, r: Record, rank: map<Id, nat>)
    requires HashLaw(lib) && DbOk(lib, db, rank)
    requires r.payload.Manifest? ==> r.payload.root in db.store.content
    requires InsertRecord(lib, db, r).Ok?
    ensures DbOk(lib, InsertRecord(lib, db, r).value, rank)
    ensures Meanings(lib, db, InsertRecord(lib, db, r).value)
  {
    hide AllSound, EdgesExact, Resolved, Ranked, Keeps, Render;
    KeepsReflexive(db.store.content);
    GrowOk(lib, db, InsertRecord(lib, db, r).value, r, rank);
  }

  /** Changing delivery state keeps the database; payloads are untouched. */
  lemma MarkOk(lib: Lib, db: Db, db': Db, rank: map<Id, nat>)
    requires DbOk(lib, db, rank)
    requires db'.store == db.store && db'.roots == db.roots && db'.seqno == db.seqno
    requires db'.rows.Keys == db.rows.Keys
    requires forall k :: k in db.rows ==>
      && db'.rows[k].id == db.rows[k].id && db'.rows[k].key == db.rows[k].key
      && db'.rows[k].payload == db.rows[k].payload
    ensures DbOk(lib, db', rank) && Meanings(lib, db, db')
  {
    hide Consistent, DecodePayload;
    forall k ensures RowOk(db', k) {
      assert RowOk(db, k);
    }
  }

  /** Dropping rows together with their roots keeps the database; content stays until collected. */
  lemma DropOk(lib: Lib, db: Db, db': Db, rank: map<Id, nat>)
    requires DbOk(lib, db, rank)
    requires db'.store == db.store && db'.seqno == db.seqno
    requires forall k :: k in db'.rows ==> k in db.rows && db'.rows[k] == db.rows[k]
    requires forall k :: k in db'.roots ==> k in db.roots && db'.roots[k] == db.roots[k]
    requires forall k :: k in db'.rows && k in db.roots ==> k in db'.roots
    ensures DbOk(lib, db', rank) && Meanings(lib, db, db')
  {
    hide Consistent, DecodePayload;
    forall k ensures RowOk(db', k) {
      assert RowOk(db, k);
    }
  }

  /** One removal of Collect: no row loses anything it restores from. */
  lemma CollectOk(lib: Lib, db: Db, id: Id, rank: map<Id, nat>)
    requires HashLaw(lib) && DbOk(lib, db, rank) && Unreferenced(db.store, db.roots, id)
    ensures var db' := db.(store := Remove(db.store, id));
      DbOk(lib, db', rank) && Meanings(lib, db, db')
  {
    hide AllSound, EdgesExact, Resolved, Ranked, Unreferenced, DecodePayload;
    RemoveKeeps(lib, db.store, db.roots, id, rank);
    var db' := db.(store := Remove(db.store, id));
    assert Keeps(db'.store.content, db.store.content);
    forall k ensures RowOk(db', k) {
      assert RowOk(db, k);
    }
    forall k | k in db.rows ensures Decode(lib, db', db.rows[k].payload) == Decode(lib, db, db.rows[k].payload) {
      assert RowOk(db', k);
      DecodeKept(lib, db'.store.content, db.store.content, db.rows[k].payload);
    }
  }
}

/** Which rows MigrateFrozen (internal/queue/migrate.go) can copy, and which runs it admits, told by the row and by
    the runs before. */
module Portability {
  import opened Basics
  import opened Content
  import opened Graph
  import opened RoundTrip
  import opened Copy
  import opened Copyable
  import opened Transfer
  import opened Encodable
  import opened Database
  import opened Migrate

  // ---------------------------------------------------------------- rows

  /** A payload in plain JSON can be copied exactly if it parses and each node of it can be saved. */
  lemma CopyPlainExactly(lib: Lib, src: Table, dst: Store, p: Payload)
    requires ZlibLaw(lib) && Tidy(lib, dst) && p.Plain?
    ensures CopyPayload(lib, src, dst, p).Ok? <==>
      lib.parse(p.text).Some? && Storable(lib, dst.content, EventNodes(lib, lib.parse(p.text).value).0)
  {
    hide ZlibLaw, Tidy, Storable, EventNodes, EncodePayload;
    if lib.parse(p.text).Some? {
      EncodeExactly(lib, dst, lib.parse(p.text).value);
    }
  }

  /** The row restores to a JSON text, and its graph can be walked, or its text written in nodes. */
  ghost predicate CanMove(lib: Lib, file: Db, p: Payload, legacy: bool) {
    && Decode(lib, file, p).Some? && lib.parse(Decode(lib, file, p).value).Some?
    && (legacy || if p.Plain? then PlainMoves(lib, lib.parse(p.text)) else GraphMoves(lib, file.store.content, p))
  }

  ghost predicate PlainMoves(lib: Lib, v: Option<Value>) {
    v.Some? && Storable(lib, map[], EventNodes(lib, v.value).0) && PayloadDepth(lib, v.value) <= MAX_DEPTH + 1
  }

  ghost predicate GraphMoves(lib: Lib, content: Table, p: Payload) {
    p.Manifest? && Passable(lib, content, {}, p.root, 0) && NoCycle(lib, content, p.root)
  }

  lemma NothingTidy(lib: Lib)
    ensures Tidy(lib, EMPTY.store) && Anchored(EMPTY.store) && Consistent(lib, EMPTY.store, map[])
  {
    EmptyOk(lib);
  }

  lemma NothingClashes(lib: Lib, src: Table)
    ensures NoClash(lib, src, EMPTY.store.content)
  {
  }

  /** What the copy into an empty database gives, and when there is one. */
  lemma AloneExactly(lib: Lib, file: Db, p: Payload)
    requires Lawful(lib) && ParseLaw(lib) && Checked(lib, file.store.content) && Decode(lib, file, p).Some?
    ensures var r := CopyPayload(lib, file.store.content, EMPTY.store, p);
      (r.Ok? && DecodePayload(lib, r.value.0.content, r.value.1).Some?
       && JsonEqual(lib, Decode(lib, file, p).value, DecodePayload(lib, r.value.0.content, r.value.1).value))
      <==> CanMove(lib, file, p, false)
  {
    hide HashLaw, ZlibLaw, KeyLaw, TextLaw, NodeLaw, ParseLaw, Checked, Consistent, Tidy, Anchored, Storable, EventNodes, Passable, NoCycle, NoClash,
         EncodePayload, Visit, Render, JsonEqual, PayloadDepth, Keeps;
    NothingTidy(lib);
    NothingClashes(lib, file.store.content);
    var r := CopyPayload(lib, file.store.content, EMPTY.store, p);
    if p.Plain? {
      CopyPlainExactly(lib, file.store.content, EMPTY.store, p);
      PlainDecodes(lib, file, p.text);
      if r.Ok? {
        var _ := CopyPlain(lib, file.store.content, EMPTY.store, p, map[]);
      }
    } else {
      CopyExactly(lib, file.store.content, EMPTY.store, p);
      if r.Ok? {
        var _ := CheckedCopy(lib, file.store.content, EMPTY.store, p, map[]);
        CopyKeepsManifest(lib, file.store.content, EMPTY.store, p);
        EqualItself(lib, Decode(lib, file, p).value);
      }
    }
  }

  lemma EqualItself(lib: Lib, text: Bytes)
    ensures JsonEqual(lib, text, text) <==> lib.parse(text).Some?
  {
  }

  lemma LegacyAlone(lib: Lib, src: Source, i: nat, k: Key)
    requires i < |src.files| && k in src.files[i].rows
    ensures CopyRow(lib, src, Blank(true), i, k).Some? <==> CanMove(lib, src.files[i], src.files[i].rows[k].payload, true)
  {
    hide JsonEqual, Render;
    var file := src.files[i];
    var p := file.rows[k].payload;
    if Decode(lib, file, p).Some? {
      EqualItself(lib, Decode(lib, file, p).value);
      PlainDecodes(lib, EMPTY, Decode(lib, file, p).value);
    }
  }

  lemma NodesAlone(lib: Lib, src: Source, i: nat, k: Key)
    requires i < |src.files| && k in src.files[i].rows
    ensures var file := src.files[i]; var p := file.rows[k].payload; var r := CopyPayload(lib, file.store.content, EMPTY.store, p);
      CopyRow(lib, src, Blank(false), i, k).Some? <==>
        && Decode(lib, file, p).Some? && r.Ok? && DecodePayload(lib, r.value.0.content, r.value.1).Some?
        && JsonEqual(lib, Decode(lib, file, p).value, DecodePayload(lib, r.value.0.content, r.value.1).value)
  {
    hide CopyPayload, DecodePayload, JsonEqual;
  }

  /** A row can be migrated by itself, into the backend asked for, exactly if its payload can move; nothing else
      about it matters. */
  lemma PortableExactly(lib: Lib, src: Source, legacy: bool, i: nat, k: Key)
    requires Lawful(lib) && ParseLaw(lib) && AllChecked(lib, src) && i < |src.files| && k in src.files[i].rows
    ensures CopyRow(lib, src, Blank(legacy), i, k).Some? <==> CanMove(lib, src.files[i], src.files[i].rows[k].payload, legacy)
  {
    hide Lawful, ParseLaw, Checked, CopyRow, CopyPayload, DecodePayload, JsonEqual, PlainMoves, GraphMoves, Blank;
    var file := src.files[i];
    var p := file.rows[k].payload;
    if legacy {
      LegacyAlone(lib, src, i, k);
    } else {
      NodesAlone(lib, src, i, k);
      if Decode(lib, file, p).Some? {
        AloneExactly(lib, file, p);
      }
    }
  }

  // ---------------------------------------------------------------- runs

  /** What the steps so far say about the source and the backend. */
  ghost predicate BackendIs(steps: seq<Step>, legacy: bool) {
    forall j :: 0 <= j < |steps| && steps[j].BeginStep? ==> steps[j].legacy == legacy
  }

  ghost predicate Begun(steps: seq<Step>) {
    exists j :: 0 <= j < |steps| && steps[j].BeginStep?
  }

  lemma {:induction false} RunRemembers(lib: Lib, src: Source, steps: seq<Step>)
    requires Run(lib, src, FRESH, steps).Some?
    ensures var d := Run(lib, src, FRESH, steps).value;
      && (d.source == if Begun(steps) then Some(src.fingerprint) else None)
      && (!Begun(steps) ==> d.db.rows == map[] && !d.activated)
      && (Begun(steps) ==> BackendIs(steps, d.legacy))
    decreases |steps|
  {
    hide CopyRow;
    if steps != [] {
      var n := |steps| - 1;
      RunRemembers(lib, src, steps[..n]);
      assert forall j :: 0 <= j < n ==> steps[..n][j] == steps[j];
      var d := Run(lib, src, FRESH, steps[..n]).value;
      if steps[n].RowStep? {
        CopyRowKeeps(lib, src, d, steps[n].file, steps[n].key);
      }
      assert Begun(steps) <==> Begun(steps[..n]) || steps[n].BeginStep?;
    }
  }

  lemma CopyRowKeeps(lib: Lib, src: Source, d: Destination, i: nat, k: Key)
    requires i < |src.files| && k in src.files[i].rows && CopyRow(lib, src, d, i, k).Some?
    ensures var e := CopyRow(lib, src, d, i, k).value; e.source == d.source && e.legacy == d.legacy && e.activated == d.activated
  {
    hide CopyFor, InsertRecord, Decode, JsonEqual;
  }

  /** However often a migration was interrupted, a further run is admitted exactly if the destination has not been
      activated and every earlier run asked for the same backend. */
  lemma AdmittedExactly(lib: Lib, src: Source, steps: seq<Step>, legacy: bool)
    requires Run(lib, src, FRESH, steps).Some?
    ensures var d := Run(lib, src, FRESH, steps).value;
      Begin(d, src, legacy).Some? <==> !d.activated && BackendIs(steps, legacy)
  {
    hide Run;
    RunRemembers(lib, src, steps);
    if Begun(steps) {
      var j :| 0 <= j < |steps| && steps[j].BeginStep?;
    }
  }
}

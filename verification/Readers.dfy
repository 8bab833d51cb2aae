/** ReadEvent of internal/queue/reader.go and the recovery loop of recovery.go, against the
    archive protocol. */
module Readers {
  import opened Basics
  import opened Content
  import opened Graph
  import opened Copy
  import opened Collect
  import opened Transfer
  import opened Encodable
  import opened Database
  import opened Archive
  import opened ArchiveSafety

  // ---------------------------------------------------------------- held exactly once

  ghost predicate InSegment(s: State, p: Path, k: Key) {
    p in s.catalog && p in s.files && k in s.files[p].rows
  }

  /** Every event is active or in exactly one catalogued segment, never both. */
  lemma HeldOnce(lib: Lib, s: State, rank: map<Id, nat>, k: Key)
    requires Inv(lib, s, rank) && k in View(lib, s)
    ensures k in s.q.rows ==> forall p :: !InSegment(s, p, k)
    ensures k !in s.q.rows ==> k in s.archived && forall p :: InSegment(s, p, k) <==> p == s.archived[k].path
    ensures View(lib, s)[k].sealed <==> k !in s.q.rows
  {
    hide DbOk, PcOk, Decode, Canon, View;
    ViewAt(lib, s, rank);
    assert IndexOk(s, k);
    forall p | InSegment(s, p, k) ensures k in s.archived && p == s.archived[k].path {
      assert SegmentOk(s, p);
    }
  }

  /** An event stored in a run and not deleted since is held once at its end. */
  lemma EnqueuedIsHeldOnce(lib: Lib, steps: seq<Step>, i: nat)
    requires Lawful(lib) && Run(lib, START, steps).Some? && StoredAt(lib, steps, i)
    requires forall j :: i < j < |steps| && steps[j].DeleteStep? ==> !Covers(steps[j].event, steps[i].key)
    ensures var t := Run(lib, START, steps).value; var k := steps[i].key;
      && k in View(lib, t) && View(lib, t)[k].meaning == Canon(lib, Stored(lib, steps[i].value, steps[i].legacy))
      && (if k in t.q.rows then forall p :: !InSegment(t, p, k)
          else k in t.archived && forall p :: InSegment(t, p, k) <==> p == t.archived[k].path)
  {
    assert i < |steps| && steps[i].EnqueueStep?;
    hide Inv, Lawful, Run, View, Canon, Stored, Covers, StoredAt, InSegment;
    var rank := EnqueuedIsHeld(lib, steps, i);
    HeldOnce(lib, Run(lib, START, steps).value, rank, steps[i].key);
  }

  /** An event of a new key is held after Enqueue exactly if the backend keeps plain JSON or each of its nodes
      can be saved; the condition is on the value and on the objects stored. */
  lemma EnqueueExactly(lib: Lib, s: State, step: Step, rank: map<Id, nat>)
    requires Lawful(lib) && Inv(lib, s, rank) && step.EnqueueStep? && WellFormed(lib, step.value)
    ensures Apply(lib, s, step).Some?
    ensures step.key in View(lib, Apply(lib, s, step).value) <==>
      step.key in View(lib, s) || step.legacy || Storable(lib, s.q.store.content, EventNodes(lib, step.value).0)
  {
    hide HashLaw, KeyLaw, TextLaw, NodeLaw, View, Consistent, PcOk, IndexOk, SegmentOk, RowOk, Storable, EventNodes, EncodePayload, WellFormed,
         Tidy, Enqueue;
    EnqueueHolds(lib, s, step, rank);
    ConsistentTidy(lib, s.q.store, rank);
    EncodeExactly(lib, s.q.store, step.value);
  }

  /** Over every run: an Enqueue of an event whose nodes can be saved stores it, if its key is not held. */
  lemma StoredExactly(lib: Lib, steps: seq<Step>, i: nat)
    requires Lawful(lib) && Run(lib, START, steps).Some? && i < |steps| && steps[i].EnqueueStep?
    ensures Run(lib, START, steps[..i]).Some?
    ensures var s := Run(lib, START, steps[..i]).value;
      StoredAt(lib, steps, i) <==>
        steps[i].key !in View(lib, s) && (steps[i].legacy || Storable(lib, s.q.store.content, EventNodes(lib, steps[i].value).0))
  {
    hide HashLaw, KeyLaw, TextLaw, NodeLaw, View, Consistent, PcOk, IndexOk, SegmentOk, RowOk, Storable, EventNodes, EncodePayload, Run,
         Tidy, Apply;
    RunSplit(lib, START, steps, i);
    var s := Run(lib, START, steps[..i]).value;
    var rank := RunOk(lib, steps[..i]);
    ConsistentTidy(lib, s.q.store, rank);
    EncodeExactly(lib, s.q.store, steps[i].value);
  }

  // ---------------------------------------------------------------- a reader beside the archiver

  /** Three reads at three moments: the active rows, then the index, then the segment it names. */
  ghost function ReadEvent(lib: Lib, first: State, second: State, third: State, k: Key): Option<Bytes> {
    if k in first.q.rows then Decode(lib, first.q, first.q.rows[k].payload)
    else if k !in second.archived then None
    else
      var p := second.archived[k].path;
      if p in third.files && k in third.files[p].rows then Decode(lib, third.files[p], third.files[p].rows[k].payload)
      else None
  }

  /** An index entry never changes, nor does the segment row it names. */
  lemma ArchivedStep(lib: Lib, s: State, step: Step, rank: map<Id, nat>, rank': map<Id, nat>, k: Key)
    requires Inv(lib, s, rank) && Apply(lib, s, step).Some? && k in s.archived
    requires Inv(lib, Apply(lib, s, step).value, rank')
    ensures var t := Apply(lib, s, step).value;
      && k in t.archived && t.archived[k] == s.archived[k]
      && SegmentFor(t, k) == SegmentFor(s, k)
  {
    hide DbOk, Decode, EncodeFor, Unreferenced, CopyPayload, InsertRecord, SameJson, Verified, RecsOk, Selection, PcOk, Published;
    var t := Apply(lib, s, step).value;
    assert IndexOk(s, k);
    if step.Publish? {
      ArchivedPublish(lib, s, step.order, rank, k);
    } else {
      assert t.archived == s.archived;
      ArchivedFile(lib, s, step, rank, s.archived[k].path);
    }
  }

  lemma ArchivedPublish(lib: Lib, s: State, order: seq<Path>, rank: map<Id, nat>, k: Key)
    requires Inv(lib, s, rank) && Apply(lib, s, Publish(order)).Some? && k in s.archived
    ensures var t := Published(s, order);
      k in t.archived && t.archived[k] == s.archived[k] && t.files == s.files
  {
    hide Inv, Decode;
    forall i | 0 <= i < |s.pc.recs| ensures s.pc.recs[i].key != k {
    }
  }

  /** A catalogued file stays as it is. */
  lemma ArchivedFile(lib: Lib, s: State, step: Step, rank: map<Id, nat>, p: Path)
    requires Inv(lib, s, rank) && Apply(lib, s, step).Some? && !step.Publish? && p in s.catalog
    ensures var t := Apply(lib, s, step).value; (p in t.files <==> p in s.files) && (p in s.files ==> t.files[p] == s.files[p])
  {
    hide DbOk, Decode, EncodeFor, Unreferenced, CopyPayload, InsertRecord, SameJson, Verified, RecsOk, Selection, IndexOk, SegmentOk, Published;
    if step.OpenSegment? || step.Commit? || step.RemoveOrphan? {
      assert PcOk(lib, s);
    }
  }

  lemma {:induction false} ArchivedStays(lib: Lib, s: State, rank: map<Id, nat>, steps: seq<Step>, k: Key) returns (rank': map<Id, nat>)
    requires Lawful(lib) && Inv(lib, s, rank) && Run(lib, s, steps).Some? && k in s.archived
    ensures var t := Run(lib, s, steps).value;
      && Inv(lib, t, rank')
      && k in t.archived && t.archived[k] == s.archived[k]
      && SegmentFor(t, k) == SegmentFor(s, k)
    decreases |steps|
  {
    hide Inv, Lawful, Apply, ViewStep, Later, SegmentFor;
    if steps == [] {
      rank' := rank;
    } else {
      var before, step := steps[..|steps| - 1], steps[|steps| - 1];
      var rank1 := ArchivedStays(lib, s, rank, before, k);
      var mid := Run(lib, s, before).value;
      rank' := StepOk(lib, mid, step, rank1);
      ArchivedStep(lib, mid, step, rank1, rank', k);
    }
  }

  /** A reader finds every event held when it starts, with its meaning, whatever else runs
      between its reads: deletions, publications, crashes and recoveries included. */
  lemma ReaderFinds(lib: Lib, first: State, rank: map<Id, nat>, steps1: seq<Step>, steps2: seq<Step>, k: Key)
    requires Lawful(lib) && Inv(lib, first, rank) && k in View(lib, first)
    requires Run(lib, first, steps1).Some? && Run(lib, Run(lib, first, steps1).value, steps2).Some?
    ensures var second := Run(lib, first, steps1).value;
      var third := Run(lib, second, steps2).value;
      Canon(lib, ReadEvent(lib, first, second, third, k)) == View(lib, first)[k].meaning
  {
    hide Inv, Lawful, Run, View, Decode, Canon;
    ViewAt(lib, first, rank);
    if k !in first.q.rows {
      var rank1 := ArchivedStays(lib, first, rank, steps1, k);
      var second := Run(lib, first, steps1).value;
      var rank2 := ArchivedStays(lib, second, rank1, steps2, k);
      var third := Run(lib, second, steps2).value;
      ArchivedPresent(lib, third, rank2, k);
    }
  }

  lemma ArchivedPresent(lib: Lib, s: State, rank: map<Id, nat>, k: Key)
    requires Inv(lib, s, rank) && k in s.archived
    ensures s.archived[k].path in s.files && k in s.files[s.archived[k].path].rows
    ensures SegmentFor(s, k) == s.files[s.archived[k].path]
  {
    hide DbOk, PcOk;
    assert IndexOk(s, k);
  }

  /** Reading the index before the active rows would not do: a row published in between is missed. */
  lemma IndexFirstMisses(lib: Lib, s: State, rank: map<Id, nat>, order: seq<Path>, i: nat)
    requires Inv(lib, s, rank) && Apply(lib, s, Publish(order)).Some? && i < |s.pc.recs|
    ensures var k := s.pc.recs[i].key;
      && k in View(lib, s)
      && k !in s.archived && k !in Apply(lib, s, Publish(order)).value.q.rows
  {
    hide Inv, View, Decode, EntryOf;
    ViewAt(lib, s, rank);
    PublishFacts(lib, s, order, rank, i);
    assert Apply(lib, s, Publish(order)) == Some(Published(s, order));
    hide Apply;
    assert s.pc.recs[i].key in KeysOf(s.pc.recs);
  }

  // ---------------------------------------------------------------- the recovery loop

  /** The durable state recovery works on. */
  class Disk {
    var intents: set<Path>
    var catalog: set<Path>
    var files: map<Path, Db>

    constructor (intents: set<Path>, catalog: set<Path>, files: map<Path, Db>)
      ensures this.intents == intents && this.catalog == catalog && this.files == files
    {
      this.intents, this.catalog, this.files := intents, catalog, files;
    }

    /** Why recovery cannot get past an intent. */
    ghost predicate Blocked(p: Path, wellNamed: Path -> bool, stuck: Path -> bool)
      reads this
    {
      !wellNamed(p) || (p in catalog && p !in files) || (p !in catalog && p in files && stuck(p))
    }

    /** recoverArchivesLocked: forgets every intent, removing the files of unpublished ones. It
        stops at a malformed path, at a published segment that is missing, and at a file that
        cannot be removed; a catalogued segment is never touched. */
    method Recover(order: seq<Path>, wellNamed: Path -> bool, stuck: Path -> bool) returns (ok: bool)
      requires Enumerates(order, intents)
      requires forall i, j :: 0 <= i < j < |order| ==> order[i] != order[j]
      modifies this`intents, this`files
      ensures forall p :: p in old(files) && (p in catalog || p !in old(intents)) ==> p in files && files[p] == old(files)[p]
      ensures forall p :: p in files ==> p in old(files) && files[p] == old(files)[p]
      ensures ok ==> intents == {}
      ensures ok ==> files.Keys == set p | p in old(files) && (p in catalog || p !in old(intents))
      ensures intents <= old(intents)
      ensures forall p :: p in old(intents) && p !in intents ==> (p in files <==> p in catalog)
      ensures !ok ==> exists p :: p in intents && Blocked(p, wellNamed, stuck)
    {
      for i := 0 to |order|
        invariant forall p :: p in intents <==> p in order[i..]
        invariant forall p :: p in old(files) && (p in catalog || p !in order[..i]) ==> p in files && files[p] == old(files)[p]
        invariant forall p :: p in files ==> p in old(files) && files[p] == old(files)[p]
        invariant forall p :: p in order[..i] ==> (p in files <==> p in catalog)
        invariant forall p :: p in old(intents) <==> p in order
      {
        var p := order[i];
        assert order == order[..i] + order[i..] && order[i..] == [p] + order[i + 1..];
        assert p !in order[i + 1..];
        assert order[..i + 1] == order[..i] + [p];
        assert p !in order[..i];
        if !wellNamed(p) {
          assert Blocked(p, wellNamed, stuck);
          return false;
        }
        if p in catalog {
          if p !in files {
            return false;
          }
        } else {
          if p in files && stuck(p) {
            return false;
          }
          files := files - {p};
        }
        intents := intents - {p};
      }
      assert order[..|order|] == order;
      return true;
    }
  }
}

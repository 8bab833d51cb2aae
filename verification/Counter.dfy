/** The bounded sliding-window hit counter of internal/counter/counter.go. */
module Counter {
  import opened Basics

  const MINUTE := 60_000_000_000
  const DEFAULT_KEYS := 100_000
  const MAX_STAMPS := 1024

  type Entries = map<string, seq<int>>

  ghost predicate Sorted(s: seq<int>) {
    forall i, j :: 0 <= i < j < |s| ==> s[i] <= s[j]
  }

  /** How many of the times lie after the cutoff. */
  function CountAfter(s: seq<int>, cutoff: int): nat {
    if s == [] then 0 else CountAfter(s[..|s| - 1], cutoff) + if s[|s| - 1] > cutoff then 1 else 0
  }

  /** The hits of one key, and the stamps kept of them: the latest ones, all but those outside the window
      unless the limit is reached. */
  ghost predicate Kept(log: seq<int>, stamps: seq<int>, cutoff: int) {
    && Sorted(log) && |stamps| <= MAX_STAMPS && |stamps| <= |log|
    && log[|log| - |stamps|..] == stamps
    && (|stamps| == MAX_STAMPS || forall i :: 0 <= i < |log| - |stamps| ==> log[i] <= cutoff)
  }

  lemma {:induction false} CountSplit(a: seq<int>, b: seq<int>, cutoff: int)
    ensures CountAfter(a + b, cutoff) == CountAfter(a, cutoff) + CountAfter(b, cutoff)
  {
    if b == [] {
      assert a + b == a;
    } else {
      assert (a + b)[..|a + b| - 1] == a + b[..|b| - 1];
      CountSplit(a, b[..|b| - 1], cutoff);
    }
  }

  lemma {:induction false} CountNone(s: seq<int>, cutoff: int)
    requires forall i :: 0 <= i < |s| ==> s[i] <= cutoff
    ensures CountAfter(s, cutoff) == 0
  {
    if s != [] { CountNone(s[..|s| - 1], cutoff); }
  }

  lemma {:induction false} CountAll(s: seq<int>, cutoff: int)
    requires forall i :: 0 <= i < |s| ==> s[i] > cutoff
    ensures CountAfter(s, cutoff) == |s|
  {
    if s != [] { CountAll(s[..|s| - 1], cutoff); }
  }

  /** The number of stamps is the number of hits in the window, up to the limit. */
  lemma KeptCounts(log: seq<int>, stamps: seq<int>, cutoff: int)
    requires Kept(log, stamps, cutoff) && forall i :: 0 <= i < |stamps| ==> stamps[i] > cutoff
    ensures |stamps| == Min(MAX_STAMPS, CountAfter(log, cutoff))
  {
    var before := log[..|log| - |stamps|];
    assert before + stamps == log;
    CountSplit(before, stamps, cutoff);
    CountAll(stamps, cutoff);
    if |stamps| < MAX_STAMPS {
      CountNone(before, cutoff);
    }
  }

  /** pruneBefore: drops the leading stamps outside the window. */
  method PruneBefore(stamps: seq<int>, cutoff: int) returns (r: seq<int>)
    ensures Pruned(stamps, r, cutoff)
  {
    var i := 0;
    while i < |stamps| && stamps[i] <= cutoff
      invariant 0 <= i <= |stamps| && forall j :: 0 <= j < i ==> stamps[j] <= cutoff
    {
      i := i + 1;
    }
    r := stamps[i..];
  }

  predicate Idle(stamps: seq<int>, cutoff: int) {
    stamps == [] || stamps[|stamps| - 1] <= cutoff
  }

  lemma PruneKeeps(log: seq<int>, stamps: seq<int>, before: int, cutoff: int, r: seq<int>)
    requires Kept(log, stamps, before) && before <= cutoff && Pruned(stamps, r, cutoff)
    ensures Kept(log, r, cutoff) && forall i :: 0 <= i < |r| ==> r[i] > cutoff
  {
    var n := |log| - |stamps|;
    assert forall i :: 0 <= i < |stamps| ==> stamps[i] == log[n + i];
    assert log[|log| - |r|..] == r;
    if |r| < |stamps| {
      assert log[n] <= log[|log| - |r| - 1] == stamps[|stamps| - |r| - 1] <= cutoff;
    }
    forall i | 0 <= i < |r| ensures r[i] > cutoff {
      assert r[0] == log[|log| - |r|] && r[i] == log[|log| - |r| + i];
    }
  }

  lemma AppendKeeps(log: seq<int>, stamps: seq<int>, cutoff: int, now: int)
    requires Kept(log, stamps, cutoff) && cutoff < now && (forall i :: 0 <= i < |log| ==> log[i] <= now)
    requires forall i :: 0 <= i < |stamps| ==> stamps[i] > cutoff
    ensures var s := stamps + [now];
      var kept := if |s| > MAX_STAMPS then s[|s| - MAX_STAMPS..] else s;
      Kept(log + [now], kept, cutoff) && forall i :: 0 <= i < |kept| ==> kept[i] > cutoff
  {
    var s := stamps + [now];
    var kept := if |s| > MAX_STAMPS then s[|s| - MAX_STAMPS..] else s;
    var log' := log + [now];
    assert log'[|log'| - |s|..] == s;
    assert log'[|log'| - |kept|..] == kept;
  }

  // ---------------------------------------------------------------- all keys

  function StampsOf(entries: Entries, k: string): seq<int> {
    if k in entries then entries[k] else []
  }

  /** What is known of one key: its hits in order, none later than the clock, and the stamps kept. */
  ghost predicate Recorded(log: seq<int>, stamps: seq<int>, cutoff: int, clock: int) {
    Kept(log, stamps, cutoff) && forall i :: 0 <= i < |log| ==> log[i] <= clock
  }

  ghost predicate Exact(entries: Entries, log: Entries, cutoff: int, clock: int) {
    forall k :: k in log ==> Recorded(log[k], StampsOf(entries, k), cutoff, clock)
  }

  ghost predicate Shape(entries: Entries, log: Entries) {
    forall k :: k in entries ==> 0 < |entries[k]| <= MAX_STAMPS && k in log
  }

  lemma ExactLater(entries: Entries, log: Entries, window: int, clock: int, now: int)
    requires Exact(entries, log, clock - window, clock) && clock <= now
    ensures Exact(entries, log, now - window, now)
  {
    forall k | k in log ensures Recorded(log[k], StampsOf(entries, k), now - window, now) {
      assert Recorded(log[k], StampsOf(entries, k), clock - window, clock);
    }
  }

  function Busy(entries: Entries, cutoff: int): Entries {
    map k | k in entries && !Idle(entries[k], cutoff) :: entries[k]
  }

  lemma IdleForgotten(log: seq<int>, stamps: seq<int>, cutoff: int, clock: int)
    requires Recorded(log, stamps, cutoff, clock) && Idle(stamps, cutoff)
    ensures Recorded(log, [], cutoff, clock)
  {
    if stamps != [] {
      assert log[|log| - 1] == stamps[|stamps| - 1] <= cutoff;
    }
    assert log[|log|..] == [];
  }

  /** Forgetting idle keys loses nothing that is in the window. */
  lemma ExactBusy(entries: Entries, log: Entries, cutoff: int, clock: int)
    requires Exact(entries, log, cutoff, clock)
    ensures Exact(Busy(entries, cutoff), log, cutoff, clock)
  {
    hide Recorded;
    forall k | k in log ensures Recorded(log[k], StampsOf(Busy(entries, cutoff), k), cutoff, clock) {
      if k in entries && Idle(entries[k], cutoff) {
        IdleForgotten(log[k], entries[k], cutoff, clock);
      }
    }
  }

  lemma BusySmaller(entries: Entries, cutoff: int)
    ensures |Busy(entries, cutoff)| <= |entries|
  {
    assert Busy(entries, cutoff).Keys <= entries.Keys;
    SubsetSize(Busy(entries, cutoff).Keys, entries.Keys);
  }

  lemma {:induction false} SubsetSize(a: set<string>, b: set<string>)
    requires a <= b
    ensures |a| <= |b|
  {
    if x :| x in a { SubsetSize(a - {x}, b - {x}); }
  }

  lemma GrowCount(entries: Entries, key: string, s: seq<int>)
    ensures |entries[key := s]| == |entries| + if key in entries then 0 else 1
  {
    assert entries[key := s].Keys == entries.Keys + {key};
  }

  function Limited(s: seq<int>): seq<int> {
    if |s| > MAX_STAMPS then s[|s| - MAX_STAMPS..] else s
  }

  /** What pruneBefore leaves of the stamps. */
  ghost predicate Pruned(stamps: seq<int>, kept: seq<int>, cutoff: int) {
    && |kept| <= |stamps| && kept == stamps[|stamps| - |kept|..]
    && (forall i :: 0 <= i < |stamps| - |kept| ==> stamps[i] <= cutoff) && (kept != [] ==> kept[0] > cutoff)
  }

  /** One more hit of a key: the stamps stay exact, and their number is the count of hits in the window. */
  lemma KeyHit(log: seq<int>, stamps: seq<int>, kept: seq<int>, cutoff: int, now: int)
    requires Recorded(log, stamps, cutoff, now) && Pruned(stamps, kept, cutoff) && cutoff < now
    ensures var s := Limited(kept + [now]);
      && Recorded(log + [now], s, cutoff, now)
      && |s| == Min(MAX_STAMPS, CountAfter(log + [now], cutoff)) && |s| <= |log + [now]| && s[0] == (log + [now])[|log + [now]| - |s|]
  {
    hide CountAfter;
    PruneKeeps(log, stamps, cutoff, cutoff, kept);
    AppendKeeps(log, kept, cutoff, now);
    hide Kept;
    var s := Limited(kept + [now]);
    KeptCounts(log + [now], s, cutoff);
    FirstKept(log + [now], s, cutoff);
  }

  lemma HitExact(entries: Entries, log: Entries, key: string, kept: seq<int>, cutoff: int, now: int)
    requires Exact(entries, log, cutoff, now) && Shape(entries, log) && cutoff < now
    requires Pruned(StampsOf(entries, key), kept, cutoff)
    ensures var s := Limited(kept + [now]); var hits := StampsOf(log, key) + [now];
      && Exact(entries[key := s], log[key := hits], cutoff, now)
      && |s| == Min(MAX_STAMPS, CountAfter(hits, cutoff)) && |s| <= |hits| && s[0] == hits[|hits| - |s|]
  {
    hide Recorded, CountAfter, Pruned, Limited;
    if key !in log { NothingRecorded(cutoff, now); }
    KeyHit(StampsOf(log, key), StampsOf(entries, key), kept, cutoff, now);
  }

  lemma NothingRecorded(cutoff: int, now: int)
    ensures Recorded([], [], cutoff, now)
  {
  }

  lemma ShapeHit(entries: Entries, log: Entries, key: string, kept: seq<int>, cutoff: int, now: int)
    requires Shape(entries, log)
    ensures var s := Limited(kept + [now]);
      Shape(entries[key := s], log[key := StampsOf(log, key) + [now]]) && 1 <= |s| <= MAX_STAMPS
  {
  }

  lemma ShapeBusy(entries: Entries, log: Entries, cutoff: int)
    requires Shape(entries, log)
    ensures Shape(Busy(entries, cutoff), log)
    ensures forall k :: k in Busy(entries, cutoff) ==> k in entries && Busy(entries, cutoff)[k] == entries[k] && !Idle(entries[k], cutoff)
  {
  }

  lemma FirstKept(log: seq<int>, s: seq<int>, cutoff: int)
    requires Kept(log, s, cutoff) && s != []
    ensures |s| <= |log| && s[0] == log[|log| - |s|]
  {
  }

  class Window {
    const window: int
    const maxKeys: int
    var entries: Entries
    /** Per key all hits that were recorded, the latest time seen, and whether time has never gone back. */
    ghost var log: Entries
    ghost var clock: int
    ghost var ordered: bool

    ghost predicate Valid()
      reads this
    {
      && window > 0 && maxKeys > 0 && |entries| <= maxKeys && Shape(entries, log)
      && (ordered ==> Exact(entries, log, clock - window, clock))
    }

    constructor (window: int, maxKeys: int)
      ensures Valid() && ordered && entries == map[] && log == map[]
      ensures this.window == (if window <= 0 then MINUTE else window) && this.maxKeys == (if maxKeys <= 0 then DEFAULT_KEYS else maxKeys)
    {
      this.window := if window <= 0 then MINUTE else window;
      this.maxKeys := if maxKeys <= 0 then DEFAULT_KEYS else maxKeys;
      this.entries, this.log, this.clock, this.ordered := map[], map[], 0, true;
    }

    /** Forgets the keys whose last hit is outside the window. */
    method EvictIdle(cutoff: int) returns (removed: nat)
      modifies `entries
      ensures entries == Busy(old(entries), cutoff) && removed == |old(entries)| - |entries|
    {
      removed := 0;
      var todo := entries.Keys;
      while todo != {}
        invariant todo <= entries.Keys <= old(entries).Keys
        invariant forall k :: k in entries ==> entries[k] == old(entries)[k] && (k in todo || !Idle(entries[k], cutoff))
        invariant forall k :: k in old(entries) && k !in entries ==> Idle(old(entries)[k], cutoff)
        invariant removed == |old(entries)| - |entries|
        decreases todo
      {
        var k :| k in todo;
        todo := todo - {k};
        if Idle(entries[k], cutoff) {
          assert (entries - {k}).Keys == entries.Keys - {k};
          entries := entries - {k};
          removed := removed + 1;
        }
      }
      assert entries == Busy(old(entries), cutoff);
    }

    ghost method Advance(now: int)
      requires Valid()
      modifies `clock, `ordered
      ensures Valid() && ordered == (old(ordered) && (log == map[] || old(clock) <= now)) && clock == now
    {
      if ordered && log != map[] && clock <= now {
        ExactLater(entries, log, window, clock, now);
      }
      ordered := ordered && (log == map[] || clock <= now);
      clock := now;
    }

    method Evict(now: int) returns (removed: nat)
      requires Valid() && clock == now
      modifies `entries
      ensures Valid() && entries == Busy(old(entries), now - window) && removed == |old(entries)| - |entries|
      ensures forall k :: k in entries ==> k in old(entries) && entries[k] == old(entries)[k] && !Idle(entries[k], now - window)
    {
      hide Exact, Shape, Busy, Idle;
      removed := EvictIdle(now - window);
      BusySmaller(old(entries), now - window);
      ShapeBusy(old(entries), log, now - window);
      if ordered { ExactBusy(old(entries), log, now - window, now); }
    }

    method Cleanup(now: int) returns (removed: nat)
      requires Valid()
      modifies this
      ensures Valid() && log == old(log) && ordered == (old(ordered) && (old(log) == map[] || old(clock) <= now))
      ensures entries == Busy(old(entries), now - window) && removed == |old(entries)| - |entries|
    {
      hide Exact, Shape, Busy, Idle;
      Advance(now);
      removed := Evict(now);
    }

    /** Records a hit and counts those in the window ending now, up to the limit. With all keys taken by
        others that are not idle the hit is counted alone and not recorded. */
    method Hit(key: string, now: int) returns (count: nat, first: int)
      requires Valid()
      modifies this
      ensures Valid() && 1 <= count <= MAX_STAMPS
      ensures ordered == (old(ordered) && (old(log) == map[] || old(clock) <= now))
      ensures key !in entries ==> count == 1 && first == now && log == old(log)
      ensures key !in entries ==> |entries| == maxKeys && forall k :: k in entries ==> !Idle(entries[k], now - window)
      ensures key in entries ==> log == old(log)[key := StampsOf(old(log), key) + [now]]
      ensures key in entries && ordered ==>
        && count == Min(MAX_STAMPS, CountAfter(log[key], now - window))
        && count <= |log[key]| && first == log[key][|log[key]| - count]
      ensures forall k :: k in entries && k != key ==> k in old(entries) && entries[k] == old(entries)[k]
    {
      hide Exact, Shape, Busy, CountAfter, Idle;
      Advance(now);
      if key !in entries && |entries| >= maxKeys {
        var _ := Evict(now);
        if |entries| >= maxKeys {
          return 1, now;
        }
      }
      count, first := Record(key, now);
    }

    method Record(key: string, now: int) returns (count: nat, first: int)
      requires Valid() && clock == now && (key in entries || |entries| < maxKeys)
      modifies `entries, `log
      ensures Valid() && key in entries && 1 <= count <= MAX_STAMPS
      ensures log == old(log)[key := StampsOf(old(log), key) + [now]]
      ensures ordered ==>
        && count == Min(MAX_STAMPS, CountAfter(log[key], now - window))
        && count <= |log[key]| && first == log[key][|log[key]| - count]
      ensures forall k :: k in entries && k != key ==> k in old(entries) && entries[k] == old(entries)[k]
    {
      hide Exact, Shape, CountAfter, Pruned, Limited;
      var kept := PruneBefore(StampsOf(entries, key), now - window);
      var s := Limited(kept + [now]);
      ShapeHit(entries, log, key, kept, now - window, now);
      if ordered {
        HitExact(entries, log, key, kept, now - window, now);
      }
      GrowCount(entries, key, s);
      entries := entries[key := s];
      log := log[key := StampsOf(log, key) + [now]];
      return |s|, s[0];
    }
  }
}

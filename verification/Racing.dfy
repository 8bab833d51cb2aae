/** Workers that match packets while indicators change: ensureIndex and rebuildIndex of
    internal/intel/matcher.go run as separate steps, in any order, beside the writes of the store. */
module Racing {
  import opened Basics
  import opened Intel
  import opened Matching

  /** Where a worker is in ensureIndex: it has read the store's version, has found the matcher's to
      differ, has listed the items. */
  datatype Worker = Saw(version: nat) | Rebuilding(version: nat) | Listed(version: nat, listing: seq<Item>)

  /** `past[v]` is the set of items at version v; the index in place is Build(listing). */
  datatype State = State(items: Items, version: nat, past: seq<Items>, listing: seq<Item>, built: nat, workers: map<nat, Worker>)

  /** Writes change the items and raise the version under one lock. */
  datatype Step = Write(items: Items) | ReadVersion(w: nat) | Compare(w: nat) | List(w: nat, listing: seq<Item>) | Install(w: nat)

  const START := State(map[], 0, [map[]], [], 0, map[])

  ghost function Apply(s: State, step: Step): Option<State> {
    match step
    case Write(items) =>
      if Keyed(items) then Some(s.(items := items, version := s.version + 1, past := s.past + [items])) else None
    case ReadVersion(w) =>
      if w in s.workers then None else Some(s.(workers := s.workers[w := Saw(s.version)]))
    case Compare(w) =>
      if w !in s.workers || !s.workers[w].Saw? then None
      else if s.workers[w].version == s.built then Some(s.(workers := s.workers - {w}))
      else Some(s.(workers := s.workers[w := Rebuilding(s.workers[w].version)]))
    case List(w, listing) =>
      if w !in s.workers || !s.workers[w].Rebuilding? || !Lists(listing, s.items) then None
      else Some(s.(workers := s.workers[w := Listed(s.workers[w].version, listing)]))
    case Install(w) =>
      if w !in s.workers || !s.workers[w].Listed? then None
      else Some(s.(listing := s.workers[w].listing, built := s.workers[w].version, workers := s.workers - {w}))
  }

  ghost function Run(s: State, steps: seq<Step>): Option<State>
    decreases |steps|
  {
    if steps == [] then Some(s) else
    match Apply(s, steps[0]) case None => None case Some(t) => Run(t, steps[1..])
  }

  /** The listing is that of some version no older than `v`. */
  ghost predicate Since(s: State, listing: seq<Item>, v: nat) {
    exists u :: v <= u < |s.past| && Lists(listing, s.past[u])
  }

  ghost predicate Inv(s: State) {
    && |s.past| == s.version + 1 && s.past[s.version] == s.items && Keyed(s.items)
    && Since(s, s.listing, s.built)
    && (forall w :: w in s.workers ==> s.workers[w].version <= s.version)
    && (forall w :: w in s.workers && s.workers[w].Listed? ==> Since(s, s.workers[w].listing, s.workers[w].version))
  }

  lemma StartOk()
    ensures Inv(START)
  {
    assert Lists([], map[]);
  }

  lemma SinceKept(s: State, items: Items, listing: seq<Item>, v: nat)
    requires Since(s, listing, v)
    ensures Since(s.(items := items, version := s.version + 1, past := s.past + [items]), listing, v)
  {
    var u :| v <= u < |s.past| && Lists(listing, s.past[u]);
    assert (s.past + [items])[u] == s.past[u];
  }

  lemma StepOk(s: State, step: Step)
    requires Inv(s) && Apply(s, step).Some?
    ensures Inv(Apply(s, step).value)
  {
    hide Lists, Keyed;
    var t := Apply(s, step).value;
    match step
    case Write(items) =>
      SinceKept(s, items, s.listing, s.built);
      forall w | w in s.workers && s.workers[w].Listed? ensures Since(t, s.workers[w].listing, s.workers[w].version) {
        SinceKept(s, items, s.workers[w].listing, s.workers[w].version);
      }
    case List(w, listing) =>
      assert Since(t, listing, s.workers[w].version) by { assert Lists(listing, t.past[s.version]); }
      SameSince(s, t);
    case _ => SameSince(s, t);
  }

  lemma SameSince(s: State, t: State)
    requires s.past == t.past
    ensures forall listing, v :: Since(s, listing, v) <==> Since(t, listing, v)
  {
  }

  lemma {:induction false} RunOk(s: State, steps: seq<Step>)
    requires Inv(s) && Run(s, steps).Some?
    ensures Inv(Run(s, steps).value)
    decreases |steps|
  {
    if steps != [] {
      StepOk(s, steps[0]);
      RunOk(Apply(s, steps[0]).value, steps[1..]);
    }
  }

  /** After any run: when the matcher's version is the store's, the index in place is one built from the
      current items, so that matching on it is a scan of them (MatchPacket). */
  lemma CurrentIndex<Addr, Block(!new)>(net: Net<Addr, Block>, steps: seq<Step>)
    requires Run(START, steps).Some?
    ensures var s := Run(START, steps).value;
      s.built == s.version ==> Lists(s.listing, s.items) && Keyed(s.items) && Represents(net, Build(net, s.listing), s.listing)
    ensures var s := Run(START, steps).value; s.built <= s.version && Since(s, s.listing, s.built)
  {
    StartOk();
    RunOk(START, steps);
    var s := Run(START, steps).value;
    hide Lists, Represents, Build;
    BuildRepresents(net, s.listing);
    var u :| s.built <= u < |s.past| && Lists(s.listing, s.past[u]);
  }

  /** The calls of ensureIndex by one worker that nothing interrupts. */
  function Alone(s: State, w: nat, listing: seq<Item>): seq<Step> {
    if s.built == s.version then [ReadVersion(w), Compare(w)] else [ReadVersion(w), Compare(w), List(w, listing), Install(w)]
  }

  /** However the index was left, a worker that runs ensureIndex undisturbed ends with the current one. */
  lemma Recovers(s: State, w: nat, listing: seq<Item>)
    requires Inv(s) && w !in s.workers && Lists(listing, s.items)
    ensures Run(s, Alone(s, w, listing)).Some?
    ensures var t := Run(s, Alone(s, w, listing)).value;
      t.built == t.version && t.items == s.items && Lists(t.listing, t.items) && t.workers == s.workers
  {
    hide Lists, Keyed, Since;
    var a := s.(workers := s.workers[w := Saw(s.version)]);
    Begin(s, a, ReadVersion(w));
    assert a.workers - {w} == s.workers;
    if s.built == s.version {
      Begin(a, s, Compare(w));
      var _ := Then(s, [ReadVersion(w)], a, [Compare(w)], s);
      CurrentListing(s);
    } else {
      var b := s.(workers := s.workers[w := Rebuilding(s.version)]);
      var c := s.(workers := s.workers[w := Listed(s.version, listing)]);
      var d := s.(listing := listing, built := s.version);
      assert a.workers[w := Rebuilding(s.version)] == b.workers && b.workers[w := Listed(s.version, listing)] == c.workers;
      assert c.workers - {w} == s.workers;
      Begin(a, b, Compare(w));
      Begin(b, c, List(w, listing));
      Begin(c, d, Install(w));
      var x := Then(s, [ReadVersion(w)], a, [Compare(w)], b);
      var y := Then(s, x, b, [List(w, listing)], c);
      var z := Then(s, y, c, [Install(w)], d);
      assert z == Alone(s, w, listing);
    }
  }

  lemma CurrentListing(s: State)
    requires Inv(s) && s.built == s.version
    ensures Lists(s.listing, s.items)
  {
  }

  // ---------------------------------------------------------------- what one worker's check is worth

  /** A worker keeps the version it has read until it is done. */
  lemma {:induction false} VersionKept(s: State, w: nat, steps: seq<Step>)
    requires w in s.workers && Busy(s, w, steps)
    ensures Run(s, steps).Some? && w in Run(s, steps).value.workers && Run(s, steps).value.workers[w].version == s.workers[w].version
    decreases |steps|
  {
    if steps != [] {
      var t := Apply(s, steps[0]).value;
      VersionKept(t, w, steps[1..]);
    }
  }

  /** The worker is not done in any state of the run. */
  ghost predicate Busy(s: State, w: nat, steps: seq<Step>)
    decreases |steps|
  {
    && w in s.workers
    && (steps == [] || (Apply(s, steps[0]).Some? && Busy(Apply(s, steps[0]).value, w, steps[1..])))
  }

  /** When a worker's ensureIndex ends, by installing or by finding the versions equal, the index in place
      is no older than the version the worker read at its beginning, whatever ran in between. */
  lemma EnsuredSince(before: seq<Step>, w: nat, during: seq<Step>, last: Step)
    requires Run(START, before).Some? && Apply(Run(START, before).value, ReadVersion(w)).Some?
    requires Busy(Apply(Run(START, before).value, ReadVersion(w)).value, w, during)
    requires last == Install(w) || last == Compare(w)
    requires var s := Run(Apply(Run(START, before).value, ReadVersion(w)).value, during);
      s.Some? && Apply(s.value, last).Some? && w !in Apply(s.value, last).value.workers
    ensures var s := Run(Apply(Run(START, before).value, ReadVersion(w)).value, during).value;
      Since(Apply(s, last).value, Apply(s, last).value.listing, Run(START, before).value.version)
  {
    StartOk();
    RunOk(START, before);
    var s0 := Run(START, before).value;
    StepOk(s0, ReadVersion(w));
    var s1 := Apply(s0, ReadVersion(w)).value;
    RunOk(s1, during);
    VersionKept(s1, w, during);
    var s := Run(s1, during).value;
    hide Run, Busy, Lists, Keyed;
    var t := Apply(s, last).value;
    SameSince(s, t);
    if last == Install(w) {
      assert Since(s, s.workers[w].listing, s.workers[w].version);
    } else {
      assert Since(s, s.listing, s.built);
    }
  }

  /** Every index that is put in place in the run was begun at version v or later. */
  ghost predicate NoneOlder(s: State, v: nat, steps: seq<Step>)
    decreases |steps|
  {
    steps == [] || (
      && (steps[0].Install? && steps[0].w in s.workers ==> s.workers[steps[0].w].version >= v)
      && (Apply(s, steps[0]).Some? ==> NoneOlder(Apply(s, steps[0]).value, v, steps[1..])))
  }

  /** An index that is no older than v stays so for as long as no worker installs that had read an older version. */
  lemma {:induction false} StaysSince(s: State, v: nat, steps: seq<Step>)
    requires Inv(s) && Since(s, s.listing, v) && Run(s, steps).Some? && NoneOlder(s, v, steps)
    ensures Since(Run(s, steps).value, Run(s, steps).value.listing, v)
    decreases |steps|
  {
    if steps != [] {
      var t := Apply(s, steps[0]).value;
      StepOk(s, steps[0]);
      StepSince(s, v, steps[0]);
      StaysSince(t, v, steps[1..]);
    }
  }

  lemma StepSince(s: State, v: nat, step: Step)
    requires Inv(s) && Since(s, s.listing, v) && Apply(s, step).Some?
    requires step.Install? ==> s.workers[step.w].version >= v
    ensures Since(Apply(s, step).value, Apply(s, step).value.listing, v)
  {
    hide Lists, Keyed;
    var t := Apply(s, step).value;
    if step.Write? {
      SinceKept(s, step.items, s.listing, v);
    } else {
      SameSince(s, t);
      if step.Install? {
        var w := s.workers[step.w];
        var u :| w.version <= u < |s.past| && Lists(w.listing, s.past[u]);
        assert Since(s, w.listing, v);
      }
    }
  }

  /** So a packet is matched on an index that is no older than what its worker read, whatever runs between
      ensureIndex and the match, unless a worker that read an older version installs in that time. */
  lemma MatchedSince(before: seq<Step>, w: nat, during: seq<Step>, last: Step, after: seq<Step>)
    requires Run(START, before).Some? && Apply(Run(START, before).value, ReadVersion(w)).Some?
    requires Busy(Apply(Run(START, before).value, ReadVersion(w)).value, w, during)
    requires last == Install(w) || last == Compare(w)
    requires var s := Run(Apply(Run(START, before).value, ReadVersion(w)).value, during);
      && s.Some? && Apply(s.value, last).Some? && w !in Apply(s.value, last).value.workers
      && Run(Apply(s.value, last).value, after).Some? && NoneOlder(Apply(s.value, last).value, Run(START, before).value.version, after)
    ensures var s := Run(Apply(Run(START, before).value, ReadVersion(w)).value, during).value;
      var t := Run(Apply(s, last).value, after).value; Since(t, t.listing, Run(START, before).value.version)
  {
    EnsuredSince(before, w, during, last);
    StartOk();
    RunOk(START, before);
    var s0 := Run(START, before).value;
    StepOk(s0, ReadVersion(w));
    var s1 := Apply(s0, ReadVersion(w)).value;
    RunOk(s1, during);
    var s := Run(s1, during).value;
    StepOk(s, last);
    hide Run, Busy, Lists, Keyed, Inv, Since, NoneOlder, Apply;
    StaysSince(Apply(s, last).value, s0.version, after);
  }

  /** It need not be so for long: a slower worker may then install what it listed before. Worker 1 lists
      version 1; version 2 is written and worker 2 puts it in place, which ends its ensureIndex with the
      current index; and then worker 1 installs version 1, on which worker 2 goes on to match. */
  lemma StaleAfterEnsure(one: Item, two: Item)
    requires one.id == two.id != "" && one != two
    ensures Run(START, Overtaking(one, two)).Some? && Run(START, Overtaking(one, two) + [Install(1)]).Some?
    ensures var s := Run(START, Overtaking(one, two)).value;
      s.built == s.version && s.items == map[two.id := two] && s.listing == [two] && 2 !in s.workers
    ensures var s := Run(START, Overtaking(one, two) + [Install(1)]).value;
      s.built < s.version && s.items == map[two.id := two] && s.listing == [one]
  {
    var s1 := State(map[one.id := one], 1, [map[], map[one.id := one]], [], 0, map[]);
    assert START.past + [map[one.id := one]] == s1.past;
    var s2 := s1.(workers := map[1 := Listed(1, [one])]);
    Begin(START, s1, Write(map[one.id := one]));
    Listing(s1, 1, one);
    var s3 := s2.(items := map[two.id := two], version := 2, past := s1.past + [map[two.id := two]]);
    Begin(s2, s3, Write(map[two.id := two]));
    Listing(s3, 2, two);
    var s4 := s3.(workers := s3.workers[2 := Listed(2, [two])]);
    var s5 := s4.(listing := [two], built := 2, workers := map[1 := Listed(1, [one])]);
    assert s4.workers - {2} == map[1 := Listed(1, [one])];
    Begin(s4, s5, Install(2));
    var s6 := s5.(listing := [one], built := 1, workers := map[]);
    assert s5.workers - {1} == map[];
    Begin(s5, s6, Install(1));
    assert s1.workers[1 := Listed(1, [one])] == s2.workers;
    var a := Then(START, [Write(map[one.id := one])], s1, Listings(1, one), s2);
    var b := Then(START, a, s2, [Write(map[two.id := two])], s3);
    var c := Then(START, b, s3, Listings(2, two), s4);
    var steps := Then(START, c, s4, [Install(2)], s5);
    assert steps == Overtaking(one, two);
    var e := Then(START, steps, s5, [Install(1)], s6);
  }

  function Overtaking(one: Item, two: Item): seq<Step> {
    [Write(map[one.id := one])] + Listings(1, one) + [Write(map[two.id := two])] + Listings(2, two) + [Install(2)]
  }

  function Listings(w: nat, it: Item): seq<Step> {
    [ReadVersion(w), Compare(w), List(w, [it])]
  }

  lemma Begin(s: State, t: State, step: Step)
    requires Apply(s, step) == Some(t)
    ensures Run(s, [step]) == Some(t)
  {
    assert [step][1..] == [];
  }

  lemma Listing(s: State, w: nat, it: Item)
    requires s.items == map[it.id := it] && w !in s.workers && s.built != s.version
    ensures Run(s, Listings(w, it)) == Some(s.(workers := s.workers[w := Listed(s.version, [it])]))
  {
    var a := s.(workers := s.workers[w := Saw(s.version)]);
    var b := s.(workers := s.workers[w := Rebuilding(s.version)]);
    var c := s.(workers := s.workers[w := Listed(s.version, [it])]);
    assert a.workers[w := Rebuilding(s.version)] == b.workers && b.workers[w := Listed(s.version, [it])] == c.workers;
    assert Lists([it], s.items);
    Begin(s, a, ReadVersion(w));
    Begin(a, b, Compare(w));
    Begin(b, c, List(w, [it]));
    var x := Then(s, [ReadVersion(w)], a, [Compare(w)], b);
    var y := Then(s, x, b, [List(w, [it])], c);
  }

  lemma {:induction false} Then(s: State, xs: seq<Step>, t: State, ys: seq<Step>, u: State) returns (zs: seq<Step>)
    requires Run(s, xs) == Some(t) && Run(t, ys) == Some(u)
    ensures zs == xs + ys && Run(s, zs) == Some(u)
    decreases |xs|
  {
    zs := xs + ys;
    if xs == [] {
      assert zs == ys;
    } else {
      var r := Then(Apply(s, xs[0]).value, xs[1..], t, ys, u);
      assert zs[1..] == r;
    }
  }
}

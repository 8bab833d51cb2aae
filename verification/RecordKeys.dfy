/** Queue keys of event revisions (internal/queue/sqlite_queue.go). */
module RecordKeys {
  import opened Basics
  import opened Database

  function Decimal(n: nat): (s: Bytes)
    ensures s != [] && forall i :: 0 <= i < |s| ==> 48 <= s[i] <= 57
    ensures n < 10 <==> |s| == 1
  {
    if n < 10 then [48 + n] else Decimal(n / 10) + [48 + n % 10]
  }

  lemma {:induction false} DecimalInjective(m: nat, n: nat)
    requires Decimal(m) == Decimal(n)
    ensures m == n
  {
    if m >= 10 {
      var a, b := Decimal(m / 10), Decimal(n / 10);
      assert Decimal(m)[..|a|] == a && Decimal(n)[..|b|] == b;
      assert Decimal(m)[|a|] == 48 + m % 10 && Decimal(n)[|b|] == 48 + n % 10;
      DecimalInjective(m / 10, n / 10);
    }
  }

  /** queueRecordID: the event id, with a suffix from the second revision on. */
  function RecordKey(event: Bytes, revision: nat): Bytes {
    if revision <= 1 then event else event + REVISION + Decimal(revision)
  }

  predicate OccursAt(s: Bytes, t: Bytes, i: nat) {
    i + |t| <= |s| && s[i..i + |t|] == t
  }

  ghost predicate Contains(s: Bytes, t: Bytes) {
    exists i :: OccursAt(s, t, i)
  }

  /** The separator of a revision key is its last '@'. */
  lemma LastAt(event: Bytes, n: nat, i: nat)
    requires n > 1 && |event| <= i < |RecordKey(event, n)|
    ensures RecordKey(event, n)[i] == 64 <==> i == |event|
  {
    var s := RecordKey(event, n);
    if i < |event| + |REVISION| {
      assert s[i] == REVISION[i - |event|];
    } else {
      assert s[i] == Decimal(n)[i - |event| - |REVISION|];
    }
  }

  lemma SuffixUnique(d: Bytes, e: Bytes, m: nat, n: nat)
    requires m > 1 && n > 1 && RecordKey(d, m) == RecordKey(e, n)
    ensures |d| >= |e|
  {
    LastAt(e, n, |e|);
    if |d| <= |e| {
      LastAt(d, m, |e|);
    }
  }

  /** Exactly when two revisions of events share a row: they are the same one, or one of the event
      ids is itself spelled like a revision key of the other. */
  lemma SharedKeys(d: Bytes, m: nat, e: Bytes, n: nat)
    ensures RecordKey(d, m) == RecordKey(e, n) <==>
      || (d == e && (m == n || (m <= 1 && n <= 1)))
      || (m <= 1 < n && d == RecordKey(e, n))
      || (n <= 1 < m && e == RecordKey(d, m))
  {
    if m > 1 && n > 1 && RecordKey(d, m) == RecordKey(e, n) {
      SuffixUnique(d, e, m, n);
      SuffixUnique(e, d, n, m);
      var s := RecordKey(d, m);
      assert s[..|d|] == d && s[..|e|] == e;
      assert s[|d| + |REVISION|..] == Decimal(m) && s[|e| + |REVISION|..] == Decimal(n);
      DecimalInjective(m, n);
    }
  }

  lemma RevisionKeyContains(event: Bytes, revision: nat)
    requires revision > 1
    ensures Contains(RecordKey(event, revision), REVISION)
  {
    assert OccursAt(RecordKey(event, revision), REVISION, |event|);
  }

  /** No revision of an event is taken for another when ids are free of the separator. */
  lemma DistinctRevisions(d: Bytes, m: nat, e: Bytes, n: nat)
    requires !Contains(d, REVISION) && !Contains(e, REVISION)
    requires 1 <= m && 1 <= n && (d != e || m != n)
    ensures RecordKey(d, m) != RecordKey(e, n)
  {
    SharedKeys(d, m, e, n);
    if m > 1 { RevisionKeyContains(d, m); }
    if n > 1 { RevisionKeyContains(e, n); }
  }

  /** The condition is needed. */
  lemma SeparatorCollides(e: Bytes)
    ensures var d := e + REVISION + Decimal(2); d != e && RecordKey(d, 1) == RecordKey(e, 2)
  {
  }

  /** Requeue and Delete of an event reach every revision of it and, with ids free of the separator,
      no revision of another event. */
  lemma CoversRevisions(d: Bytes, e: Bytes, n: nat)
    requires !Contains(d, REVISION) && !Contains(e, REVISION)
    ensures Covers(d, RecordKey(e, n)) <==> d == e
  {
    if d == e && n > 1 {
      assert d + REVISION <= RecordKey(e, n);
    }
    if n > 1 {
      RevisionKeyContains(e, n);
      if d + REVISION <= RecordKey(e, n) {
        CoveredPrefix(d, e, n);
      }
    } else if d + REVISION <= e {
      PrefixContains(d, e);
    }
  }

  lemma PrefixContains(d: Bytes, e: Bytes)
    requires d + REVISION <= e
    ensures Contains(e, REVISION)
  {
    assert OccursAt(e, REVISION, |d|);
  }

  lemma InsideSeparator(s: Bytes, i: nat, j: nat)
    requires OccursAt(s, REVISION, i) && i < j < i + |REVISION|
    ensures s[j] != 64
  {
    assert s[j] == REVISION[j - i];
  }

  /** In a revision key of an id free of the separator, the separator occurs once. */
  lemma CoveredPrefix(d: Bytes, e: Bytes, n: nat)
    requires n > 1 && d + REVISION <= RecordKey(e, n)
    ensures d == e || Contains(e, REVISION)
  {
    var s := RecordKey(e, n);
    assert s[..|d|] == d && s[|d|..|d| + |REVISION|] == REVISION;
    assert s[|d|] == 64 && s[..|e|] == e;
    if |d| >= |e| {
      LastAt(e, n, |d|);
    } else if |d| + |REVISION| <= |e| {
      assert e[|d|..|d| + |REVISION|] == s[|d|..|d| + |REVISION|];
      assert OccursAt(e, REVISION, |d|);
    } else {
      InsideSeparator(s, |d|, |e|);
      LastAt(e, n, |e|);
    }
  }
}

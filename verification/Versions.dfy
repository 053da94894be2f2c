/** What a set of versions shows to a reader, and when one set may stand in for another. */
module Versions {
  import opened Bytes
  import opened Keys
  import opened Values
  import opened Runs

  function User(e: Entry): Bytes { ParseKey(e.key) }
  function Ts(e: Entry): nat { ParseTs(e.key) }
  predicate Tomb(e: Entry) { Has(e.vs.meta, BIT_DELETE) }

  /** e is what a reader of the newest state finds under its user key. */
  ghost predicate Shows(s: set<Entry>, e: Entry)
  {
    e in s && !Tomb(e) && forall f :: f in s && User(f) == User(e) ==> Ts(f) <= Ts(e)
  }

  /** Two sets show the same newest value, or the same absence, under every user key. */
  ghost predicate Faithful(r: set<Entry>, s: set<Entry>)
  {
    forall e :: Shows(r, e) <==> Shows(s, e)
  }

  /** No two versions of a user key share a timestamp. */
  ghost predicate Distinct(log: seq<Entry>)
  {
    forall i, j :: 0 <= i < j < |log| && User(log[i]) == User(log[j]) ==> Ts(log[i]) != Ts(log[j])
  }

  /** Position p does not separate a newer version from an older one that is logged behind it. On
      either side of p the versions of a key may lie in any order. */
  ghost predicate Clean(log: seq<Entry>, p: nat)
  {
    forall i, j :: 0 <= i < p <= j < |log| && User(log[i]) == User(log[j]) ==> Ts(log[i]) < Ts(log[j])
  }

  /** Position p does not separate a deletion from an older live version that is logged behind it. */
  ghost predicate Safe(log: seq<Entry>, p: nat)
  {
    forall i, j :: 0 <= i < p <= j < |log| && User(log[i]) == User(log[j]) && Tomb(log[i]) && !Tomb(log[j]) ==>
      Ts(log[i]) < Ts(log[j])
  }

  /** Clean, or only safe. */
  ghost predicate Parts(log: seq<Entry>, p: nat, strict: bool) { if strict then Clean(log, p) else Safe(log, p) }

  lemma PartsSafe(log: seq<Entry>, p: nat, strict: bool)
    requires Parts(log, p, strict)
    ensures Safe(log, p)
  {
  }

  /** Every version in the batch is newer than what the log holds of its key. */
  ghost predicate Newer(log: seq<Entry>, batch: seq<Entry>)
  {
    forall i, j :: 0 <= i < |log| && 0 <= j < |batch| && User(log[i]) == User(batch[j]) ==> Ts(log[i]) < Ts(batch[j])
  }

  /** No deletion lies ahead of an older live version of its key. */
  ghost predicate DeletesInOrder(es: seq<Entry>)
  {
    forall i, j :: 0 <= i < j < |es| && User(es[i]) == User(es[j]) && Tomb(es[i]) && !Tomb(es[j]) ==>
      Ts(es[i]) < Ts(es[j])
  }

  /** That is what makes every position safe. */
  lemma SafeEverywhere(log: seq<Entry>)
    ensures DeletesInOrder(log) <==> forall p :: 0 <= p <= |log| ==> Safe(log, p)
  {
    if forall p :: 0 <= p <= |log| ==> Safe(log, p) {
      forall i, j | 0 <= i < j < |log| && User(log[i]) == User(log[j]) && Tomb(log[i]) && !Tomb(log[j])
        ensures Ts(log[i]) < Ts(log[j])
      {
        assert Safe(log, j);
      }
    }
  }

  lemma OrderAppend(log: seq<Entry>, batch: seq<Entry>)
    requires DeletesInOrder(log) && DeletesInOrder(batch) && Newer(log, batch)
    ensures DeletesInOrder(log + batch)
  {
    var all := log + batch;
    forall i, j | 0 <= i < j < |all| && User(all[i]) == User(all[j]) && Tomb(all[i]) && !Tomb(all[j])
      ensures Ts(all[i]) < Ts(all[j])
    {
      if i >= |log| { assert all[i] == batch[i - |log|] && all[j] == batch[j - |log|]; }
    }
  }

  lemma PartsPrefix(log: seq<Entry>, batch: seq<Entry>, p: nat, strict: bool)
    requires Parts(log, p, strict) && p <= |log| && Newer(log, batch)
    ensures Parts(log + batch, p, strict)
  {
  }

  lemma PartsEnd(log: seq<Entry>, batch: seq<Entry>, strict: bool)
    requires Newer(log, batch)
    ensures Parts(log + batch, |log|, strict) && Parts(log, |log|, strict) && Parts(log, 0, strict)
  {
  }

  lemma DistinctAppend(log: seq<Entry>, batch: seq<Entry>)
    requires Distinct(log) && Distinct(batch) && Newer(log, batch)
    ensures Distinct(log + batch)
  {
    var all := log + batch;
    forall i, j | 0 <= i < j < |all| && User(all[i]) == User(all[j]) ensures Ts(all[i]) != Ts(all[j]) {
      if i >= |log| { assert all[i] == batch[i - |log|] && all[j] == batch[j - |log|]; }
    }
  }

  /** The versions at positions a to b of the log. */
  ghost function Span(log: seq<Entry>, a: nat, b: nat): set<Entry>
    requires b <= |log|
  {
    set i | a <= i < b :: log[i]
  }

  lemma InSpan(log: seq<Entry>, a: nat, b: nat, i: nat)
    requires a <= i < b <= |log|
    ensures log[i] in Span(log, a, b)
  {
  }

  lemma SpanJoin(log: seq<Entry>, a: nat, b: nat, c: nat)
    requires a <= b <= c <= |log|
    ensures Span(log, a, b) + Span(log, b, c) == Span(log, a, c)
  {
    forall e | e in Span(log, a, c) ensures e in Span(log, a, b) + Span(log, b, c) {
      var i: nat :| a <= i < c && log[i] == e;
      if i < b { InSpan(log, a, b, i); } else { InSpan(log, b, c, i); }
    }
  }

  lemma SpanMono(log: seq<Entry>, a: nat, b: nat, a': nat, b': nat)
    requires a' <= a && b <= b' <= |log|
    ensures Span(log, a, b) <= Span(log, a', b')
  {
    forall e | e in Span(log, a, b) ensures e in Span(log, a', b') {
      var i: nat :| a <= i < b && log[i] == e;
      InSpan(log, a', b', i);
    }
  }

  lemma SpanPrefix(log: seq<Entry>, more: seq<Entry>, a: nat, b: nat)
    requires b <= |log|
    ensures Span(log + more, a, b) == Span(log, a, b)
  {
    assert forall i :: a <= i < b ==> (log + more)[i] == log[i];
  }

  /** A newer version of an entry behind a clean position lies behind it too. */
  lemma NewerIsLater(log: seq<Entry>, a: nat, b: nat, q: nat, e: Entry, f: Entry)
    requires Clean(log, a) && b <= q <= |log|
    requires e in Span(log, a, b) && f in Span(log, 0, q) && User(e) == User(f) && Ts(e) < Ts(f)
    ensures f in Span(log, a, q)
  {
    var i: nat :| a <= i < b && log[i] == e;
    var j: nat :| j < q && log[j] == f;
    assert a <= j;
    InSpan(log, a, q, j);
  }

  /** The versions t together with the log from p to q show what the log up to q shows. */
  ghost predicate Covers(t: set<Entry>, log: seq<Entry>, p: nat, q: nat)
  {
    && p <= q <= |log| && t <= Span(log, 0, q)
    && Faithful(t + Span(log, p, q), Span(log, 0, q))
  }

  /** Versions x that hold everything behind a safe position c, and whatever the log shows, show what the log
      shows: a live version behind c is older than a deletion only if the deletion is behind c too. */
  lemma CutFaithful(log: seq<Entry>, c: nat, q: nat, x: set<Entry>)
    requires Safe(log, c) && c <= q <= |log| && x <= Span(log, 0, q) && Span(log, c, q) <= x
    requires forall e :: Shows(Span(log, 0, q), e) ==> e in x
    requires forall e :: Shows(x, e) && e !in Span(log, c, q) ==> Shows(Span(log, 0, q), e)
    ensures Faithful(x, Span(log, 0, q))
  {
    var l := Span(log, 0, q);
    forall e | Shows(x, e) && e in Span(log, c, q) ensures Shows(l, e) {
      var j: nat :| c <= j < q && log[j] == e;
      var m := NewestOf(log, q, User(e));
      InSpan(log, 0, q, m);
      if m >= c { InSpan(log, c, q, m); }
      assert Ts(log[m]) <= Ts(e) by {
        if !Tomb(log[m]) { NewestShows(log, q, m); }
      }
      forall f | f in l && User(f) == User(e) ensures Ts(f) <= Ts(e) {
        var k: nat :| k < q && log[k] == f;
      }
    }
  }

  lemma NewestShows(log: seq<Entry>, q: nat, m: nat)
    requires m < q <= |log| && !Tomb(log[m])
    requires forall k :: 0 <= k < q && User(log[k]) == User(log[m]) ==> Ts(log[k]) <= Ts(log[m])
    ensures Shows(Span(log, 0, q), log[m])
  {
    InSpan(log, 0, q, m);
  }

  /** More log: both sides gain the same versions. */
  lemma CoversExtend(t: set<Entry>, log: seq<Entry>, p: nat, q: nat, q': nat)
    requires Safe(log, q) && Covers(t, log, p, q) && q <= q' <= |log|
    ensures Covers(t, log, p, q')
  {
    hide Safe;
    SpanJoin(log, p, q, q'); SpanJoin(log, 0, q, q');
    var r, l, n := t + Span(log, p, q), Span(log, 0, q), Span(log, q, q');
    SpanMono(log, p, q, 0, q);
    assert t + Span(log, p, q') == r + n;
    forall e | Shows(l + n, e) ensures e in r + n {
      if e !in n { assert Shows(l, e); }
    }
    forall e | Shows(r + n, e) && e !in n ensures Shows(l + n, e) {
      assert Shows(r, e);
      assert Shows(l, e);
    }
    CutFaithful(log, q, q', r + n);
  }

  /** Reading the log from further back does no harm. */
  lemma CoversFromEarlier(t: set<Entry>, log: seq<Entry>, v: nat, p: nat, q: nat)
    requires Safe(log, v) && Covers(t, log, p, q) && v <= p
    ensures Covers(t, log, v, q)
  {
    hide Safe;
    SpanMono(log, p, q, v, q); SpanMono(log, v, q, 0, q);
    var r, x, l := t + Span(log, p, q), t + Span(log, v, q), Span(log, 0, q);
    forall e | Shows(l, e) ensures e in x { assert Shows(r, e); }
    forall e | Shows(x, e) && e !in Span(log, v, q) ensures Shows(l, e) { assert Shows(r, e); }
    CutFaithful(log, v, q, x);
  }

  /** Moving a stretch of the log into the set. */
  lemma CoversAbsorb(t: set<Entry>, log: seq<Entry>, x: nat, y: nat, q: nat)
    requires Covers(t, log, x, q) && x <= y <= q
    ensures Covers(t + Span(log, x, y), log, y, q)
  {
    SpanJoin(log, x, y, q); SpanMono(log, x, y, 0, q);
    assert t + Span(log, x, y) + Span(log, y, q) == t + Span(log, x, q);
  }

  /** The newest version of every user key, unless it is a deletion. */
  ghost function Survivors(s: set<Entry>): set<Entry>
  {
    set e | e in s && Shows(s, e)
  }

  lemma SurvivorsIn(s: set<Entry>, e: Entry)
    ensures e in Survivors(s) <==> Shows(s, e)
  {
  }

  /** Dropping old versions and deletions from the set keeps what is shown, because whatever live versions of
      a deleted key the log still holds, it holds the deletion too. */
  lemma CoversCompact(t: set<Entry>, log: seq<Entry>, c: nat, q: nat)
    requires Safe(log, c) && Covers(t, log, c, q)
    ensures Covers(Survivors(t), log, c, q)
  {
    hide Safe, Survivors;
    var o, n, l := Survivors(t), Span(log, c, q), Span(log, 0, q);
    SpanMono(log, c, q, 0, q);
    forall e ensures e in o <==> Shows(t, e) { SurvivorsIn(t, e); }
    forall e | Shows(l, e) ensures e in o + n {
      assert Shows(t + n, e);
      if e in t { assert Shows(t, e); }
    }
    forall e | Shows(o + n, e) && e !in n ensures Shows(l, e) {
      assert Shows(t, e);
      assert Shows(t + n, e);
    }
    CutFaithful(log, c, q, o + n);
  }

  /** Compacting everything before c uncovers an older version of a deleted key behind c. */
  ghost predicate Uncovers(log: seq<Entry>, c: nat)
  {
    exists i, j :: 0 <= i < c <= j < |log| && Tomb(log[i]) && !Tomb(log[j]) && Buries(log, c, i, j)
  }

  /** Version i is the newest of its key, and version j the newest one behind c. */
  ghost predicate Buries(log: seq<Entry>, c: nat, i: nat, j: nat)
    requires i < |log| && j < |log|
  {
    && User(log[i]) == User(log[j]) && Ts(log[i]) > Ts(log[j])
    && (forall k :: 0 <= k < |log| && User(log[k]) == User(log[i]) ==> Ts(log[k]) <= Ts(log[i]))
    && (forall k :: c <= k < |log| && User(log[k]) == User(log[i]) ==> Ts(log[k]) <= Ts(log[j]))
  }

  /** Compacting the part of a log before c and keeping the rest shows the same, exactly when no deletion
      before c is what hides the newest version behind c. */
  lemma CompactExact(log: seq<Entry>, c: nat)
    requires Distinct(log) && c <= |log|
    ensures Faithful(Survivors(Span(log, 0, c)) + Span(log, c, |log|), Span(log, 0, |log|)) <==> !Uncovers(log, c)
  {
    var o, n, l := Survivors(Span(log, 0, c)), Span(log, c, |log|), Span(log, 0, |log|);
    SpanJoin(log, 0, c, |log|);
    if i, j :| 0 <= i < c <= j < |log| && Tomb(log[i]) && !Tomb(log[j]) && Buries(log, c, i, j) {
      UncoveredShows(log, c, i, j);
    }
    if !Uncovers(log, c) {
      forall e ensures Shows(o + n, e) <==> Shows(l, e) {
        if Shows(l, e) { SurvivorsIn(Span(log, 0, c), e); }
        if Shows(o + n, e) { NothingUncovered(log, c, e); }
      }
    }
  }

  /** The same when the log is kept from some earlier position q on. */
  lemma CompactExactFrom(log: seq<Entry>, q: nat, c: nat)
    requires Distinct(log) && q <= c <= |log|
    ensures Faithful(Survivors(Span(log, 0, c)) + Span(log, q, |log|), Span(log, 0, |log|)) <==> !Uncovers(log, q)
  {
    hide Survivors, Span, Uncovers, Shows;
    CompactExact(log, q);
    var x, y := Survivors(Span(log, 0, c)) + Span(log, q, |log|), Survivors(Span(log, 0, q)) + Span(log, q, |log|);
    forall e ensures Shows(x, e) <==> Shows(y, e) {
      if Shows(x, e) { CompactedLess(log, q, c, e); }
      if Shows(y, e) { CompactedMore(log, q, c, e); }
    }
  }

  lemma CompactedLess(log: seq<Entry>, q: nat, c: nat, e: Entry)
    requires Distinct(log) && q <= c <= |log|
    requires Shows(Survivors(Span(log, 0, c)) + Span(log, q, |log|), e)
    ensures Shows(Survivors(Span(log, 0, q)) + Span(log, q, |log|), e)
  {
    var o, n := Survivors(Span(log, 0, q)), Span(log, q, |log|);
    SpanJoin(log, 0, q, c); SpanMono(log, q, c, q, |log|);
    assert e in o + n;
    forall f | f in o && User(f) == User(e) ensures Ts(f) <= Ts(e) {
      var k: nat :| k < q && log[k] == f;
      var m := NewestOf(log, c, User(e));
      if m >= q {
        InSpan(log, q, |log|, m);
      } else {
        InSpan(log, 0, q, m);
        assert m == k;
        NewestShows(log, c, m);
        SurvivorsIn(Span(log, 0, c), f);
      }
    }
  }

  lemma CompactedMore(log: seq<Entry>, q: nat, c: nat, e: Entry)
    requires Distinct(log) && q <= c <= |log|
    requires Shows(Survivors(Span(log, 0, q)) + Span(log, q, |log|), e)
    ensures Shows(Survivors(Span(log, 0, c)) + Span(log, q, |log|), e)
  {
    var o, n := Survivors(Span(log, 0, c)), Span(log, q, |log|);
    SpanJoin(log, 0, q, c); SpanMono(log, q, c, q, |log|);
    assert e in o + n by { if e !in n { assert Shows(Span(log, 0, c), e); } }
    forall f | f in o && User(f) == User(e) ensures Ts(f) <= Ts(e) {
      if f !in n { assert f in Survivors(Span(log, 0, q)); }
    }
  }

  lemma UncoveredShows(log: seq<Entry>, c: nat, i: nat, j: nat)
    requires Distinct(log) && i < c <= j < |log| && Tomb(log[i]) && !Tomb(log[j]) && Buries(log, c, i, j)
    ensures Shows(Survivors(Span(log, 0, c)) + Span(log, c, |log|), log[j]) && !Shows(Span(log, 0, |log|), log[j])
  {
    var p, n := Span(log, 0, c), Span(log, c, |log|);
    InSpan(log, c, |log|, j); InSpan(log, 0, |log|, i); InSpan(log, 0, c, i);
    forall f | f in p && User(f) == User(log[j]) ensures !Shows(p, f) {
      var k: nat :| k < c && log[k] == f;
      if k != i { assert Ts(f) < Ts(log[i]); }
    }
    forall f | f in n && User(f) == User(log[j]) ensures Ts(f) <= Ts(log[j]) {
      var k: nat :| c <= k < |log| && log[k] == f;
    }
  }

  lemma NothingUncovered(log: seq<Entry>, c: nat, e: Entry)
    requires Distinct(log) && c <= |log| && !Uncovers(log, c)
    requires Shows(Survivors(Span(log, 0, c)) + Span(log, c, |log|), e)
    ensures Shows(Span(log, 0, |log|), e)
  {
    var p, n, l := Span(log, 0, c), Span(log, c, |log|), Span(log, 0, |log|);
    SpanJoin(log, 0, c, |log|);
    SurvivorsIn(p, e);
    assert e in l;
    var at: nat :| at < |log| && log[at] == e;
    var m := NewestOf(log, |log|, User(e));
    if m >= c { InSpan(log, c, |log|, m); }
    if Ts(log[m]) > Ts(e) {
      InSpan(log, 0, |log|, m);
      InSpan(log, 0, c, m);
      SurvivorsIn(p, log[m]);
      assert Shows(p, log[m]) || Tomb(log[m]) by { SpanMono(log, 0, c, 0, |log|); NewestIn(log, m); }
      assert Tomb(log[m]);
      assert e in n by { if e in p { NewestIn(log, m); } }
      var j: nat :| c <= j < |log| && log[j] == e;
      forall k | c <= k < |log| && User(log[k]) == User(e) ensures Ts(log[k]) <= Ts(e) { InSpan(log, c, |log|, k); }
      assert Buries(log, c, m, j);
    } else {
      NewestIn(log, m);
    }
  }

  /** Where the newest version of a key lies among the first n, or -1. */
  ghost function NewestOf(log: seq<Entry>, n: nat, user: Bytes): (m: int)
    requires n <= |log|
    ensures -1 <= m < n && (m >= 0 ==> User(log[m]) == user)
    ensures forall k :: 0 <= k < n && User(log[k]) == user ==> m >= 0 && Ts(log[k]) <= Ts(log[m])
  {
    if n == 0 then -1
    else
      var m := NewestOf(log, n - 1, user);
      if User(log[n - 1]) == user && (m < 0 || Ts(log[n - 1]) > Ts(log[m])) then n - 1 else m
  }

  lemma NewestIn(log: seq<Entry>, m: nat)
    requires m < |log| && forall k :: 0 <= k < |log| && User(log[k]) == User(log[m]) ==> Ts(log[k]) <= Ts(log[m])
    ensures forall f :: f in Span(log, 0, |log|) && User(f) == User(log[m]) ==> Ts(f) <= Ts(log[m])
  {
  }
}

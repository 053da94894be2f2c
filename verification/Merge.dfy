/** Merging sorted runs, in either direction. On equal keys the left run wins. */
module Merges {
  import opened Keys
  import opened Runs

  /** a comes before b in the direction of iteration. */
  predicate Ahead(rev: bool, a: Key, b: Key) { if rev then Less(b, a) else Less(a, b) }

  ghost predicate Ordered(rev: bool, s: Run)
  {
    forall i, j :: 0 <= i < j < |s| ==> Ahead(rev, s[i].key, s[j].key)
  }

  lemma AheadTotal(rev: bool, a: Key, b: Key)
    ensures Ahead(rev, a, b) || a == b || Ahead(rev, b, a)
    ensures !(Ahead(rev, a, b) && Ahead(rev, b, a)) && !Ahead(rev, a, a)
  {
    LessTotal(a, b);
  }

  lemma AheadTransitive(rev: bool, a: Key, b: Key, c: Key)
    requires Ahead(rev, a, b) && Ahead(rev, b, c)
    ensures Ahead(rev, a, c)
  {
    if rev { LessTransitive(c, b, a); } else { LessTransitive(a, b, c); }
  }

  function Merge(rev: bool, a: Run, b: Run): Run
    decreases |a| + |b|
  {
    if a == [] then b
    else if b == [] then a
    else if a[0].key == b[0].key then [a[0]] + Merge(rev, a[1..], b[1..])
    else if Ahead(rev, a[0].key, b[0].key) then [a[0]] + Merge(rev, a[1..], b)
    else [b[0]] + Merge(rev, a, b[1..])
  }

  ghost predicate HasKey(s: Run, k: Key) { exists e :: e in s && e.key == k }

  ghost predicate AllAfter(rev: bool, k: Key, s: Run) { forall e :: e in s ==> Ahead(rev, k, e.key) }

  lemma OrderedTail(rev: bool, s: Run)
    requires Ordered(rev, s) && s != []
    ensures Ordered(rev, s[1..]) && AllAfter(rev, s[0].key, s[1..])
  {
  }

  lemma OrderedCons(rev: bool, e: Entry, s: Run)
    requires Ordered(rev, s) && AllAfter(rev, e.key, s)
    ensures Ordered(rev, [e] + s)
  {
    forall i, j | 0 <= i < j < |[e] + s| ensures Ahead(rev, ([e] + s)[i].key, ([e] + s)[j].key) {
      assert ([e] + s)[j] == s[j - 1];
    }
  }

  /** The merge is in order and holds each key's entry from the left run, else from the right. */
  lemma {:induction false} MergeMembers(rev: bool, a: Run, b: Run)
    requires Ordered(rev, a) && Ordered(rev, b)
    ensures Ordered(rev, Merge(rev, a, b))
    ensures forall e :: e in Merge(rev, a, b) <==> e in a || (e in b && !HasKey(a, e.key))
    decreases |a| + |b|
  {
    hide Ordered;
    if a != [] && b != [] {
      OrderedTail(rev, a); OrderedTail(rev, b);
      AheadTotal(rev, a[0].key, b[0].key);
      if a[0].key == b[0].key {
        MergeMembers(rev, a[1..], b[1..]);
        MergeStep(rev, a, b, a[0], a[1..], b[1..]);
      } else if Ahead(rev, a[0].key, b[0].key) {
        AfterHead(rev, a[0].key, b);
        MergeMembers(rev, a[1..], b);
        MergeStep(rev, a, b, a[0], a[1..], b);
      } else {
        AfterHead(rev, b[0].key, a);
        MergeMembers(rev, a, b[1..]);
        MergeStep(rev, a, b, b[0], a, b[1..]);
      }
    }
  }

  lemma AfterHead(rev: bool, k: Key, s: Run)
    requires Ordered(rev, s) && s != [] && Ahead(rev, k, s[0].key)
    ensures AllAfter(rev, k, s)
  {
    forall e | e in s ensures Ahead(rev, k, e.key) {
      var i :| 0 <= i < |s| && s[i] == e;
      if i > 0 { AheadTransitive(rev, k, s[0].key, e.key); }
    }
  }

  /** One element h taken from the heads of a or b, with a' and b' left over. */
  lemma MergeStep(rev: bool, a: Run, b: Run, h: Entry, a': Run, b': Run)
    requires a != [] && b != []
    requires (h == a[0] && a' == a[1..] && (b' == b || (b' == b[1..] && b[0].key == h.key))) ||
             (h == b[0] && a' == a && b' == b[1..])
    requires AllAfter(rev, h.key, a') && AllAfter(rev, h.key, b')
    requires Ordered(rev, Merge(rev, a', b'))
    requires forall e :: e in Merge(rev, a', b') <==> e in a' || (e in b' && !HasKey(a', e.key))
    ensures Ordered(rev, [h] + Merge(rev, a', b'))
    ensures forall e :: e in [h] + Merge(rev, a', b') <==> e in a || (e in b && !HasKey(a, e.key))
  {
    hide Merge, Ahead;
    var m := Merge(rev, a', b');
    OrderedCons(rev, h, m);
    assert a == [a[0]] + a[1..] && b == [b[0]] + b[1..];
    AheadTotal(rev, h.key, h.key);
    forall e ensures e in [h] + m <==> e in a || (e in b && !HasKey(a, e.key)) {
      assert e in [h] + m <==> e == h || e in m;
      if h == a[0] && a' == a[1..] {
        assert HasKey(a, e.key) <==> e.key == h.key || HasKey(a', e.key);
      }
    }
  }

  // ---------- seeking ----------

  /** Skip what comes before the key. */
  function Drop(rev: bool, s: Run, key: Key): Run
  {
    if s != [] && Ahead(rev, s[0].key, key) then Drop(rev, s[1..], key) else s
  }

  lemma {:induction false} DropOrdered(rev: bool, s: Run, key: Key)
    requires Ordered(rev, s)
    ensures Ordered(rev, Drop(rev, s, key)) && |Drop(rev, s, key)| <= |s|
    ensures Drop(rev, s, key) == s[|s| - |Drop(rev, s, key)|..]
    ensures forall e :: e in s ==> (e in Drop(rev, s, key) <==> !Ahead(rev, e.key, key))
  {
    hide Less;
    if s != [] && Ahead(rev, s[0].key, key) {
      OrderedTail(rev, s);
      DropOrdered(rev, s[1..], key);
      assert s == [s[0]] + s[1..];
      AheadTotal(rev, s[0].key, s[0].key);
    } else if s != [] {
      forall e | e in s ensures !Ahead(rev, e.key, key) {
        var i :| 0 <= i < |s| && s[i] == e;
        if i > 0 && Ahead(rev, e.key, key) { AheadTransitive(rev, s[0].key, e.key, key); }
      }
    }
  }

  /** Seeking both runs and merging is seeking the merge. */
  lemma {:induction false} MergeDrop(rev: bool, a: Run, b: Run, key: Key)
    requires Ordered(rev, a) && Ordered(rev, b)
    ensures Merge(rev, Drop(rev, a, key), Drop(rev, b, key)) == Drop(rev, Merge(rev, a, b), key)
    decreases |a| + |b|
  {
    if a != [] && b != [] {
      OrderedTail(rev, a); OrderedTail(rev, b);
      AheadTotal(rev, a[0].key, b[0].key);
      var da, db := Ahead(rev, a[0].key, key), Ahead(rev, b[0].key, key);
      if a[0].key == b[0].key {
        if da { MergeDrop(rev, a[1..], b[1..], key); }
      } else if Ahead(rev, a[0].key, b[0].key) {
        if da { MergeDrop(rev, a[1..], b, key); }
        else { if db { AheadTransitive(rev, a[0].key, b[0].key, key); } }
      } else {
        if db { MergeDrop(rev, a, b[1..], key); }
        else { if da { AheadTransitive(rev, b[0].key, a[0].key, key); } }
      }
    }
  }

  // ---------- many runs ----------

  /** `out` is in order and holds, for each key, the entry of the leftmost run that has it. */
  ghost predicate IsMerge(rev: bool, runs: seq<Run>, out: Run)
  {
    && Ordered(rev, out)
    && forall e :: e in out <==> exists i :: Leftmost(runs, i, e)
  }

  ghost predicate Leftmost(runs: seq<Run>, i: int, e: Entry)
  {
    0 <= i < |runs| && e in runs[i] && forall j :: 0 <= j < i ==> !HasKey(runs[j], e.key)
  }

  lemma OneMerge(rev: bool, r: Run)
    requires Ordered(rev, r)
    ensures IsMerge(rev, [r], r)
  {
    forall e ensures e in r <==> exists i :: Leftmost([r], i, e) {
      if e in r { assert Leftmost([r], 0, e); }
    }
  }

  lemma JoinMerges(rev: bool, xs: seq<Run>, ys: seq<Run>, a: Run, b: Run)
    requires IsMerge(rev, xs, a) && IsMerge(rev, ys, b)
    ensures IsMerge(rev, xs + ys, Merge(rev, a, b))
  {
    hide Ordered, Merge;
    MergeMembers(rev, a, b);
    var zs := xs + ys;
    assert forall j :: 0 <= j < |xs| ==> xs[j] == zs[j];
    forall e ensures e in Merge(rev, a, b) <==> exists i :: Leftmost(zs, i, e) {
      if e in a {
        var i :| Leftmost(xs, i, e);
        assert Leftmost(zs, i, e);
      }
      if e in b && !HasKey(a, e.key) {
        var i :| Leftmost(ys, i, e);
        forall j | 0 <= j < |xs| ensures !HasKey(xs[j], e.key) {
          if HasKey(xs[j], e.key) { KeyInMerge(rev, xs, a, j, e.key); }
        }
        assert Leftmost(zs, |xs| + i, e);
      }
      if i :| Leftmost(zs, i, e) {
        if i < |xs| {
          assert Leftmost(xs, i, e);
        } else {
          assert forall j :: 0 <= j < |ys| ==> ys[j] == zs[|xs| + j];
          assert Leftmost(ys, i - |xs|, e);
          if HasKey(a, e.key) { MergeKeyIn(rev, xs, a, e.key); }
        }
      }
    }
  }

  lemma MergeKeyIn(rev: bool, xs: seq<Run>, a: Run, k: Key)
    requires IsMerge(rev, xs, a) && HasKey(a, k)
    ensures exists j :: 0 <= j < |xs| && HasKey(xs[j], k)
  {
    var f :| f in a && f.key == k;
    var i :| Leftmost(xs, i, f);
    assert HasKey(xs[i], k);
  }

  /** A key of any run is a key of the merge. */
  lemma {:induction false} KeyInMerge(rev: bool, xs: seq<Run>, a: Run, j: nat, k: Key)
    requires IsMerge(rev, xs, a) && j < |xs| && HasKey(xs[j], k)
    ensures HasKey(a, k)
    decreases j
  {
    if i :| 0 <= i < j && HasKey(xs[i], k) {
      KeyInMerge(rev, xs, a, i, k);
    } else {
      var e :| e in xs[j] && e.key == k;
      assert Leftmost(xs, j, e);
    }
  }

  // ---------- runs in the direction of iteration ----------

  function Reversed(s: Run): (r: Run)
    ensures |r| == |s| && forall i :: 0 <= i < |s| ==> r[i] == s[|s| - 1 - i]
  {
    seq(|s|, i requires 0 <= i < |s| => s[|s| - 1 - i])
  }

  function Direction(rev: bool, s: Run): Run { if rev then Reversed(s) else s }

  lemma ReversedStep(s: Run, p: nat)
    requires p < |s|
    ensures Reversed(s[..p + 1])[1..] == Reversed(s[..p])
  {
  }

  /** The last entry at or before a key, or -1. */
  function LastUpTo(r: Run, key: Key): (p: int)
    ensures -1 <= p < |r|
  {
    var n := LowerBound(r, key);
    if n < |r| && r[n].key == key then n else n - 1
  }

  lemma {:induction false} DropIs(rev: bool, s: Run, key: Key, n: nat)
    requires n <= |s| && (forall i :: 0 <= i < n ==> Ahead(rev, s[i].key, key)) &&
             (n < |s| ==> !Ahead(rev, s[n].key, key))
    ensures Drop(rev, s, key) == s[n..]
  {
    hide Ahead;
    if n > 0 {
      assert s[1..][n - 1..] == s[n..];
      DropIs(rev, s[1..], key, n - 1);
    }
  }

  lemma DropForward(r: Run, key: Key)
    requires Sorted(r)
    ensures Drop(false, r, key) == r[LowerBound(r, key)..]
  {
    hide Less, LowerBound, Drop;
    LowerBoundSplits(r, key);
    DropIs(false, r, key, LowerBound(r, key));
  }

  lemma DropBackward(r: Run, key: Key)
    requires Sorted(r)
    ensures Drop(true, Reversed(r), key) == Reversed(r[..LastUpTo(r, key) + 1])
  {
    hide Less, LowerBound, Drop;
    LowerBoundSplits(r, key);
    var p := LastUpTo(r, key);
    var n := |r| - 1 - p;
    forall i | 0 <= i < |r| ensures Less(key, r[i].key) <==> i > p { LessTotal(r[i].key, key); LastUpToIs(r, key, i); }
    DropIs(true, Reversed(r), key, n);
    assert Reversed(r)[n..] == Reversed(r[..p + 1]);
  }

  lemma LastUpToIs(r: Run, key: Key, i: nat)
    requires Sorted(r) && i < |r|
    ensures i > LastUpTo(r, key) ==> !Less(r[i].key, key) && r[i].key != key
    ensures i <= LastUpTo(r, key) ==> Less(r[i].key, key) || r[i].key == key
  {
    hide Less, LowerBound;
    LowerBoundSplits(r, key);
    LessTotal(key, key);
  }
}

/** Runs: the sorted lists of versions that memtables, tables and merges all stand for. */
module Runs {
  import opened Bytes
  import opened Keys
  import opened Values

  datatype Entry = Entry(key: Key, vs: ValueStruct)
  type Run = seq<Entry>

  ghost predicate Sorted(r: Run)
  {
    forall i, j :: 0 <= i < j < |r| ==> Less(r[i].key, r[j].key)
  }

  /** A sorted run is determined by its entries. */
  lemma {:induction false} SortedUnique(a: Run, b: Run)
    requires Sorted(a) && Sorted(b) && forall e :: e in a <==> e in b
    ensures a == b
  {
    hide Less;
    assert a != [] ==> a[0] in a;
    assert b != [] ==> b[0] in b;
    if a != [] && b != [] {
      assert a[0] in b && b[0] in a;
      var i :| 0 <= i < |b| && b[i] == a[0];
      var j :| 0 <= j < |a| && a[j] == b[0];
      LessTotal(a[0].key, b[0].key);
      assert a[0] == b[0];
      assert a == [a[0]] + a[1..] && b == [b[0]] + b[1..];
      assert a[0] !in a[1..] && b[0] !in b[1..];
      forall e ensures e in a[1..] <==> e in b[1..] {
        assert e in a <==> e == a[0] || e in a[1..];
        assert e in b <==> e == b[0] || e in b[1..];
      }
      SortedUnique(a[1..], b[1..]);
    }
  }

  // ---------- searching ----------

  /** How many entries lie strictly before a key. */
  function LowerBound(r: Run, key: Key): (n: nat)
    ensures n <= |r|
  {
    if r == [] || !Less(r[0].key, key) then 0 else 1 + LowerBound(r[1..], key)
  }

  lemma {:induction false} LowerBoundSplits(r: Run, key: Key)
    requires Sorted(r)
    ensures forall i :: 0 <= i < |r| ==> (Less(r[i].key, key) <==> i < LowerBound(r, key))
  {
    if r == [] {
    } else if Less(r[0].key, key) {
      LowerBoundSplits(r[1..], key);
      forall i | 0 <= i < |r| ensures Less(r[i].key, key) <==> i < LowerBound(r, key) {
        if i > 0 { assert r[i] == r[1..][i - 1]; }
      }
    } else {
      forall i | 0 < i < |r| ensures !Less(r[i].key, key) {
        if Less(r[i].key, key) { LessTransitive(r[0].key, r[i].key, key); assert false; }
      }
    }
  }

  /** A cut of a sorted run at which the keys change from below `key` to not below it. */
  lemma LowerBoundUnique(r: Run, key: Key, n: nat)
    requires Sorted(r) && n <= |r|
    requires n > 0 ==> Less(r[n - 1].key, key)
    requires n < |r| ==> !Less(r[n].key, key)
    ensures n == LowerBound(r, key)
  {
    LowerBoundSplits(r, key);
  }

  predicate Found(r: Run, key: Key)
  {
    var n := LowerBound(r, key);
    n < |r| && r[n].key == key
  }

  lemma FoundIff(r: Run, key: Key)
    requires Sorted(r)
    ensures Found(r, key) <==> exists i :: 0 <= i < |r| && r[i].key == key
  {
    LowerBoundSplits(r, key);
    if i :| 0 <= i < |r| && r[i].key == key {
      LessTotal(key, key);
      var n := LowerBound(r, key);
      assert n <= i;
    }
  }

  /** What a point lookup finds: the first entry at or after the key, if it has the same user key. */
  function Lookup(r: Run, key: Key): Option<Entry>
  {
    var n := LowerBound(r, key);
    if n < |r| && SameKey(key, r[n].key) then Some(r[n]) else None
  }

  /** Between two versions of one user key there are only versions of that key. */
  lemma SameUserConvex(a: Key, b: Key, c: Key)
    requires SameKey(a, c) && !Less(b, a) && !Less(c, b)
    ensures SameKey(a, b)
  {
    CompareEqual(ParseKey(a), ParseKey(b)); CompareEqual(ParseKey(b), ParseKey(c));
    CompareFlip(ParseKey(a), ParseKey(b)); CompareFlip(ParseKey(b), ParseKey(c));
    SameKeyIffSameUser(a, b);
  }

  /** A lookup finds the newest version of the user key that is not newer than the one asked for. */
  lemma LookupNewest(r: Run, user: Bytes, v: nat)
    requires Sorted(r) && user != [] && v <= MAX_UINT64
    requires forall e :: e in r ==> |e.key| > 8
    ensures match Lookup(r, KeyWithTs(user, v))
            case Some(e) => e in r && ParseKey(e.key) == user && ParseTs(e.key) <= v &&
                            forall f :: f in r && ParseKey(f.key) == user && ParseTs(f.key) <= v ==>
                                ParseTs(f.key) <= ParseTs(e.key)
            case None => forall f :: f in r && ParseKey(f.key) == user ==> ParseTs(f.key) > v
  {
    hide Less, CompareKeys;
    var key := KeyWithTs(user, v);
    KeyParts(user, v); TimestampRoundTrip(user, v);
    LowerBoundSplits(r, key);
    var n := LowerBound(r, key);
    forall j | 0 <= j < |r| && ParseKey(r[j].key) == user
      ensures ParseTs(r[j].key) <= v <==> n <= j
      ensures SameKey(key, r[j].key)
    {
      LessByParts(r[j].key, key); CompareEqual(user, user); SameKeyIffSameUser(key, r[j].key);
      assert r[j] in r;
    }
    if n < |r| && SameKey(key, r[n].key) {
      assert r[n] in r;
      forall f | f in r && ParseKey(f.key) == user && ParseTs(f.key) <= v ensures ParseTs(f.key) <= ParseTs(r[n].key) {
        var j :| 0 <= j < |r| && r[j] == f;
        if n < j { LessByParts(r[n].key, r[j].key); CompareEqual(user, user); }
      }
    } else if n < |r| {
      forall f | f in r && ParseKey(f.key) == user ensures ParseTs(f.key) > v {
        var j :| 0 <= j < |r| && r[j] == f;
        if n <= j {
          LessTotal(r[n].key, key); LessTotal(r[j].key, r[n].key);
          if n < j { assert Less(r[n].key, r[j].key); }
          SameUserConvex(key, r[n].key, r[j].key);
        }
      }
    }
  }

  // ---------- the positions the four search modes name ----------

  predicate Qualifies(k: Key, target: Key, less: bool, allowEqual: bool)
  {
    (if less then Less(k, target) else Less(target, k)) || (allowEqual && k == target)
  }

  /** Position i is the one nearest to the target on the chosen side; -1 when there is none. */
  ghost predicate Near(r: Run, target: Key, less: bool, allowEqual: bool, i: int)
  {
    -1 <= i < |r| &&
    forall j :: 0 <= j < |r| ==>
      (Qualifies(r[j].key, target, less, allowEqual) <==> if less then j <= i else i != -1 && i <= j)
  }

  /** Two neighbours that enclose the target fix the nearest position in every mode. */
  lemma NearFromGap(r: Run, target: Key, less: bool, allowEqual: bool, n: nat)
    requires Sorted(r) && n <= |r|
    requires n > 0 ==> Less(r[n - 1].key, target)
    requires n < |r| ==> Less(target, r[n].key)
    ensures Near(r, target, less, allowEqual, if less then n - 1 else if n < |r| then n else -1)
  {
    if n < |r| { LessTotal(target, r[n].key); }
    LowerBoundUnique(r, target, n);
    LowerBoundSplits(r, target);
    forall j | 0 <= j < |r|
      ensures Less(target, r[j].key) <==> n <= j
      ensures r[j].key != target
    {
      LessTotal(target, r[j].key);
      if n < j { LessTransitive(target, r[n].key, r[j].key); }
    }
  }

  /** An entry that equals the target fixes the nearest position in every mode. */
  lemma NearFromEqual(r: Run, target: Key, less: bool, allowEqual: bool, n: nat)
    requires Sorted(r) && n < |r| && r[n].key == target
    ensures Near(r, target, less, allowEqual,
                 if allowEqual then n else if less then n - 1 else if n + 1 < |r| then n + 1 else -1)
  {
    forall j | 0 <= j < |r|
      ensures Less(r[j].key, target) <==> j < n
      ensures Less(target, r[j].key) <==> n < j
      ensures r[j].key == target <==> j == n
    {
      LessTotal(target, r[j].key);
      if j < n { assert Less(r[j].key, r[n].key); }
      if n < j { assert Less(r[n].key, r[j].key); }
    }
  }

  // ---------- inserting ----------

  /** Insert a version, or replace the value stored under the same internal key. */
  function Put(r: Run, key: Key, vs: ValueStruct): Run
  {
    var n := LowerBound(r, key);
    if n < |r| && r[n].key == key then r[n := Entry(key, vs)]
    else r[..n] + [Entry(key, vs)] + r[n..]
  }

  lemma PutAtGap(r: Run, key: Key, vs: ValueStruct, p: nat)
    requires Sorted(r) && p <= |r|
    requires p > 0 ==> Less(r[p - 1].key, key)
    requires p < |r| ==> Less(key, r[p].key)
    ensures Put(r, key, vs) == r[..p] + [Entry(key, vs)] + r[p..]
  {
    if p < |r| { LessTotal(key, r[p].key); }
    LowerBoundUnique(r, key, p);
  }

  lemma PutSorted(r: Run, key: Key, vs: ValueStruct)
    requires Sorted(r)
    ensures Sorted(Put(r, key, vs))
  {
    LowerBoundSplits(r, key);
    var n := LowerBound(r, key);
    var p := Put(r, key, vs);
    if !(n < |r| && r[n].key == key) {
      forall j | n <= j < |r| ensures Less(key, r[j].key) {
        LessTotal(key, r[n].key);
        if n < j { LessTransitive(key, r[n].key, r[j].key); }
      }
      assert forall j :: 0 <= j < n ==> p[j] == r[j];
      assert forall j :: n < j < |p| ==> p[j] == r[j - 1];
    }
  }

  /** Put changes the entry of one key and no other. */
  lemma PutHolds(r: Run, key: Key, vs: ValueStruct, e: Entry)
    requires Sorted(r)
    ensures e in Put(r, key, vs) <==> if e.key == key then e.vs == vs else e in r
  {
    hide Less, LowerBound;
    var n := LowerBound(r, key);
    var p := Put(r, key, vs);
    assert p[n] == Entry(key, vs);
    if e in p && e.key == key { PutOnce(r, key, vs, e); }
    if n < |r| && r[n].key == key {
      assert forall j :: 0 <= j < |r| && j != n ==> p[j] == r[j];
    } else {
      assert r == r[..n] + r[n..];
    }
    if e.key != key {
      if j :| 0 <= j < |r| && r[j] == e { assert p[j] == e || p[j + 1] == e; }
    }
  }

  lemma PutOnce(r: Run, key: Key, vs: ValueStruct, e: Entry)
    requires Sorted(r) && e in Put(r, key, vs) && e.key == key
    ensures e.vs == vs
  {
    PutSorted(r, key, vs);
    var n := LowerBound(r, key);
    var p := Put(r, key, vs);
    var j :| 0 <= j < |p| && p[j] == e;
    assert p[n] == Entry(key, vs);
    LessTotal(key, key);
  }
}

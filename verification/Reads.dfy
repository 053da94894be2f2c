/** Point reads: the newest memtable that knows the key wins, otherwise the tables are searched. */
module Reads {
  import opened Bytes
  import opened Keys
  import opened Runs
  import opened Versions
  import opened Partition

  /** r is the version of the user key with the greatest timestamp not above v. */
  ghost predicate IsAnswer(s: set<Entry>, user: Bytes, v: nat, r: Option<Entry>)
  {
    match r
    case Some(e) => e in s && User(e) == user && Ts(e) <= v &&
                    forall f :: f in s && User(f) == user && Ts(f) <= v ==> Ts(f) <= Ts(e)
    case None => forall f :: f in s && User(f) == user ==> Ts(f) > v
  }

  /** A version older than one in an older layer is repeated, together with that one, in the newer layers.
      Memtables come newest first; `base` is what the tables hold. */
  ghost predicate Layered(mts: seq<Run>, base: set<Entry>)
  {
    forall i, a, b :: (0 <= i < |mts| && a in mts[i] && b in InRuns(mts[i + 1..]) + base &&
                       User(a) == User(b) && Ts(a) < Ts(b)) ==> b in InRuns(mts[..i + 1])
  }

  ghost predicate KeysOk(s: set<Entry>) { forall e :: e in s ==> |e.key| > 8 && Ts(e) > 0 }

  // ---------- the memtables ----------

  /** Stop at the first memtable with a hit. */
  function MemGet(mts: seq<Run>, key: Key): Option<Entry>
  {
    if mts == [] then None
    else if Lookup(mts[0], key).Some? then Lookup(mts[0], key)
    else MemGet(mts[1..], key)
  }

  ghost predicate MemHit(mts: seq<Run>, key: Key, i: nat)
  {
    i < |mts| && Lookup(mts[i], key).Some? && forall j :: 0 <= j < i ==> Lookup(mts[j], key) == None
  }

  lemma {:induction false} MemGetFirst(mts: seq<Run>, key: Key, i: nat)
    requires MemHit(mts, key, i)
    ensures MemGet(mts, key) == Lookup(mts[i], key)
  {
    if i > 0 { MemGetFirst(mts[1..], key, i - 1); }
  }

  lemma {:induction false} MemGetNone(mts: seq<Run>, key: Key)
    requires forall j :: 0 <= j < |mts| ==> Lookup(mts[j], key) == None
    ensures MemGet(mts, key) == None
  {
    if mts != [] { MemGetNone(mts[1..], key); }
  }

  /** What the search returns, whatever the layers look like: the first hit in the memtables, and only
      without one the greatest version in the tables. */
  ghost predicate SearchAnswer(mts: seq<Run>, base: set<Entry>, user: Bytes, v: nat, r: Option<Entry>)
    requires v <= MAX_UINT64
  {
    var hit := MemGet(mts, KeyWithTs(user, v));
    if hit.Some? then r == hit else IsAnswer(base, user, v, r)
  }

  lemma LookupIn(r: Run, user: Bytes, v: nat)
    requires Sorted(r) && user != [] && v <= MAX_UINT64 && forall e :: e in r ==> |e.key| > 8
    ensures IsAnswer(Elements(r), user, v, Lookup(r, KeyWithTs(user, v)))
  {
    hide Lookup, LowerBound, KeyWithTs;
    LookupNewest(r, user, v);
  }

  /** Taking the first hit is right when the layers are in order. */
  lemma FirstHit(mts: seq<Run>, base: set<Entry>, user: Bytes, v: nat, i: nat)
    requires user != [] && v <= MAX_UINT64
    requires forall j :: 0 <= j < |mts| ==> Sorted(mts[j])
    requires KeysOk(InRuns(mts) + base) && Layered(mts, base)
    requires MemHit(mts, KeyWithTs(user, v), i)
    ensures IsAnswer(InRuns(mts) + base, user, v, Lookup(mts[i], KeyWithTs(user, v)))
  {
    hide Lookup, Sorted, KeyWithTs, Layered;
    var key := KeyWithTs(user, v);
    forall j | 0 <= j < |mts| ensures IsAnswer(Elements(mts[j]), user, v, Lookup(mts[j], key)) {
      forall e | e in mts[j] ensures |e.key| > 8 { assert e in InRuns(mts); }
      LookupIn(mts[j], user, v);
    }
    assert IsAnswer(Elements(mts[i]), user, v, Lookup(mts[i], key));
    var a := Lookup(mts[i], key).value;
    assert a in InRuns(mts);
    forall b | b in InRuns(mts) + base && User(b) == user && Ts(b) <= v ensures Ts(b) <= Ts(a) {
      if Ts(b) > Ts(a) { AlsoNewer(mts, base, i, a, b); }
    }
  }

  /** A version newer than one in memtable i is in that memtable or a newer one. */
  lemma AlsoNewer(mts: seq<Run>, base: set<Entry>, i: nat, a: Entry, b: Entry)
    requires i < |mts| && Layered(mts, base)
    requires a in mts[i] && b in InRuns(mts) + base && User(a) == User(b) && Ts(a) < Ts(b)
    ensures exists j :: 0 <= j <= i && b in Elements(mts[j])
  {
    var newer, older := mts[..i + 1], mts[i + 1..];
    if b in InRuns(mts) {
      var j :| 0 <= j < |mts| && b in mts[j];
      if j <= i { assert b in newer[j]; } else { assert b in older[j - (i + 1)]; }
    }
    assert b in InRuns(newer);
    var j :| 0 <= j < |newer| && b in newer[j];
    assert b in Elements(mts[j]);
  }

  // ---------- the tables ----------

  /** Newest table first, as the table list is sorted before it is searched. */
  function InsertNewest(t: Table, ts: seq<Table>): (r: seq<Table>)
    ensures multiset(r) == multiset(ts) + multiset{t}
  {
    if ts == [] || t.lastSeq > ts[0].lastSeq then
      assert [t] + ts == [t] + ts; [t] + ts
    else
      assert ts == [ts[0]] + ts[1..];
      [ts[0]] + InsertNewest(t, ts[1..])
  }

  function NewestFirst(ts: seq<Table>): (r: seq<Table>)
    ensures multiset(r) == multiset(ts)
  {
    if ts == [] then []
    else
      assert ts == ts[..|ts| - 1] + [ts[|ts| - 1]];
      InsertNewest(ts[|ts| - 1], NewestFirst(ts[..|ts| - 1]))
  }

  predicate InRange(t: Table, user: Bytes)
    requires t.run != []
  {
    Compare(user, ParseKey(t.run[0].key)) >= 0 && Compare(user, ParseKey(t.run[|t.run| - 1].key)) <= 0
  }

  /** A table whose key range misses the user key does not hold it. */
  lemma OutOfRange(t: Table, user: Bytes)
    requires Sorted(t.run) && t.run != [] && !InRange(t, user)
    ensures forall e :: e in t.run ==> User(e) != user
  {
    forall e | e in t.run ensures User(e) != user {
      var i :| 0 <= i < |t.run| && t.run[i] == e;
      var a, b := t.run[0].key, t.run[|t.run| - 1].key;
      assert i == 0 || Less(a, e.key);
      assert i == |t.run| - 1 || Less(e.key, b);
      CompareEqual(ParseKey(e.key), ParseKey(e.key));
      CompareFlip(ParseKey(a), ParseKey(e.key));
    }
  }

  /** The tables that may hold a user key. */
  method TablesForKey(tables: seq<Table>, user: Bytes) returns (out: seq<Table>)
    requires forall t :: t in tables ==> Sorted(t.run) && t.run != []
    ensures forall t :: t in out ==> t in tables
    ensures forall t, e :: t in tables && e in t.run && User(e) == user ==> t in out
    ensures forall i, j :: 0 <= i < j < |out| ==> out[i].lastSeq >= out[j].lastSeq
  {
    out := [];
    var i := 0;
    while i < |tables|
      invariant 0 <= i <= |tables|
      invariant forall t :: t in out ==> t in tables
      invariant forall j, e :: 0 <= j < i && e in tables[j].run && User(e) == user ==> tables[j] in out
    {
      if InRange(tables[i], user) {
        out := out + [tables[i]];
      } else {
        OutOfRange(tables[i], user);
      }
      i := i + 1;
    }
    forall t, e | t in tables && e in t.run && User(e) == user ensures t in out {
      var j :| 0 <= j < |tables| && tables[j] == t;
    }
    ghost var picked := out;
    out := NewestFirst(out);
    forall t ensures t in out <==> t in picked {
      assert t in multiset(out) <==> t in multiset(picked);
    }
    NewestFirstSorted(picked);
  }

  ghost predicate Descending(ts: seq<Table>) { forall i, j :: 0 <= i < j < |ts| ==> ts[i].lastSeq >= ts[j].lastSeq }

  lemma {:induction false} InsertDescending(t: Table, ts: seq<Table>)
    requires Descending(ts)
    ensures Descending(InsertNewest(t, ts))
  {
    if ts == [] || t.lastSeq > ts[0].lastSeq {
    } else {
      InsertDescending(t, ts[1..]);
      var r := InsertNewest(t, ts[1..]);
      forall j | 0 <= j < |r| ensures ts[0].lastSeq >= r[j].lastSeq {
        assert r[j] in multiset(r);
        if r[j] != t { assert r[j] in ts[1..]; }
      }
    }
  }

  lemma {:induction false} NewestFirstSorted(ts: seq<Table>)
    ensures Descending(NewestFirst(ts))
  {
    if ts != [] {
      NewestFirstSorted(ts[..|ts| - 1]);
      InsertDescending(ts[|ts| - 1], NewestFirst(ts[..|ts| - 1]));
    }
  }

  ghost predicate NoFalseNegatives(mayHold: (Table, Bytes) -> bool, tables: seq<Table>)
  {
    forall t, e :: t in tables && e in t.run ==> mayHold(t, User(e))
  }

  // ---------- the whole read ----------

  /** getValueStruct: memtables newest first, then every table that may hold the key, keeping the
      greatest version found. `mayHold` is the tables' Bloom filter. */
  method GetValueStruct(mts: seq<Run>, tables: seq<Table>, mayHold: (Table, Bytes) -> bool, user: Bytes, v: nat)
    returns (r: Option<Entry>)
    requires user != [] && v <= MAX_UINT64
    requires forall m :: m in mts ==> Sorted(m)
    requires forall t :: t in tables ==> Sorted(t.run) && t.run != []
    requires KeysOk(InRuns(mts) + InTables(tables)) && NoFalseNegatives(mayHold, tables)
    ensures SearchAnswer(mts, InTables(tables), user, v, r)
    ensures Layered(mts, InTables(tables)) ==> IsAnswer(InRuns(mts) + InTables(tables), user, v, r)
  {
    hide Lookup, KeyWithTs, Sorted, Layered, MemGet, InRuns, InTables;
    var key := KeyWithTs(user, v);
    var i := 0;
    while i < |mts|
      invariant 0 <= i <= |mts|
      invariant forall j :: 0 <= j < i ==> Lookup(mts[j], key) == None
    {
      r := Lookup(mts[i], key);
      if r.Some? {
        MemGetFirst(mts, key, i);
        if Layered(mts, InTables(tables)) { SearchRight(mts, InTables(tables), user, v, r); }
        return;
      }
      i := i + 1;
    }
    MemGetNone(mts, key);
    r := SearchTables(tables, mayHold, user, v);
    if Layered(mts, InTables(tables)) { SearchRight(mts, InTables(tables), user, v, r); }
  }

  /** When the layers are in order, the search finds the greatest version over everything. */
  lemma SearchRight(mts: seq<Run>, base: set<Entry>, user: Bytes, v: nat, r: Option<Entry>)
    requires user != [] && v <= MAX_UINT64 && (forall m :: m in mts ==> Sorted(m))
    requires KeysOk(InRuns(mts) + base) && Layered(mts, base) && SearchAnswer(mts, base, user, v, r)
    ensures IsAnswer(InRuns(mts) + base, user, v, r)
  {
    hide Lookup, KeyWithTs, Sorted, Layered;
    var key := KeyWithTs(user, v);
    if i :| MemHit(mts, key, i) {
      MemGetFirst(mts, key, i); FirstHit(mts, base, user, v, i);
    } else {
      NoHit(mts, key);
      MemGetNone(mts, key); MemMiss(mts, user, v);
    }
  }

  lemma {:induction false} NoHit(mts: seq<Run>, key: Key)
    requires forall i: nat :: !MemHit(mts, key, i)
    ensures forall j :: 0 <= j < |mts| ==> Lookup(mts[j], key) == None
  {
    hide Lookup;
    var n := 0;
    while n < |mts|
      invariant n <= |mts| && forall j :: 0 <= j < n ==> Lookup(mts[j], key) == None
    {
      assert !MemHit(mts, key, n);
      n := n + 1;
    }
  }

  lemma MemMiss(mts: seq<Run>, user: Bytes, v: nat)
    requires user != [] && v <= MAX_UINT64
    requires (forall m :: m in mts ==> Sorted(m)) && KeysOk(InRuns(mts))
    requires forall j :: 0 <= j < |mts| ==> Lookup(mts[j], KeyWithTs(user, v)) == None
    ensures forall e :: e in InRuns(mts) && User(e) == user ==> Ts(e) > v
  {
    hide Lookup, KeyWithTs, Sorted;
    forall e | e in InRuns(mts) && User(e) == user ensures Ts(e) > v {
      var j :| 0 <= j < |mts| && e in mts[j];
      forall f | f in mts[j] ensures |f.key| > 8 { assert f in InRuns(mts); }
      LookupIn(mts[j], user, v);
      assert e in Elements(mts[j]);
    }
  }

  method SearchTables(tables: seq<Table>, mayHold: (Table, Bytes) -> bool, user: Bytes, v: nat)
      returns (best: Option<Entry>)
    requires user != [] && v <= MAX_UINT64
    requires forall t :: t in tables ==> Sorted(t.run) && t.run != []
    requires KeysOk(InTables(tables)) && NoFalseNegatives(mayHold, tables)
    ensures IsAnswer(InTables(tables), user, v, best)
  {
    hide Lookup, KeyWithTs, Sorted;
    var key := KeyWithTs(user, v);
    var out := TablesForKey(tables, user);
    best := None;
    var i := 0;
    while i < |out|
      invariant 0 <= i <= |out|
      invariant best.Some? ==> best.value in InTables(tables) && User(best.value) == user && Ts(best.value) <= v
      invariant forall j, f :: 0 <= j < i && f in out[j].run && User(f) == user && Ts(f) <= v ==>
                  best.Some? && Ts(f) <= Ts(best.value)
    {
      var t := out[i];
      assert t in tables;
      ghost var k :| 0 <= k < |tables| && tables[k] == t;
      forall e | e in t.run ensures |e.key| > 8 && Ts(e) > 0 && e in InTables(tables) { assert e in tables[k].run; }
      LookupIn(t.run, user, v);
      if mayHold(t, user) {
        var found := Lookup(t.run, key);
        var version := if best.Some? then Ts(best.value) else 0;
        if found.Some? && Ts(found.value) > version {
          best := found;
        }
        assert forall f :: f in t.run ==> f in Elements(t.run);
      } else {
        assert forall f :: f in t.run ==> mayHold(t, User(f));
      }
      i := i + 1;
    }
    forall f | f in InTables(tables) && User(f) == user && Ts(f) <= v ensures best.Some? && Ts(f) <= Ts(best.value) {
      var k :| 0 <= k < |tables| && f in tables[k].run;
      assert tables[k] in out;
      var j :| 0 <= j < |out| && out[j] == tables[k];
    }
  }

  /** Get: deletions read as absence. */
  method Get(mts: seq<Run>, tables: seq<Table>, mayHold: (Table, Bytes) -> bool, user: Bytes, version: nat,
      seqNumber: nat)
    returns (r: Option<Entry>)
    requires user != [] && version <= MAX_UINT64 && seqNumber <= MAX_UINT64
    requires forall m :: m in mts ==> Sorted(m)
    requires forall t :: t in tables ==> Sorted(t.run) && t.run != []
    requires KeysOk(InRuns(mts) + InTables(tables)) && Layered(mts, InTables(tables))
    requires NoFalseNegatives(mayHold, tables)
    ensures var v := if version == 0 then seqNumber else version;
            match r
            case Some(e) => !Tomb(e) && IsAnswer(InRuns(mts) + InTables(tables), user, v, r)
            case None => IsAnswer(InRuns(mts) + InTables(tables), user, v, None) ||
                         exists e :: Tomb(e) && IsAnswer(InRuns(mts) + InTables(tables), user, v, Some(e))
  {
    var vs := GetValueStruct(mts, tables, mayHold, user, if version == 0 then seqNumber else version);
    r := if vs.Some? && Tomb(vs.value) then None else vs;
  }

  /** Read at a timestamp that covers every version, the answer is what the set shows under the key. */
  lemma AnswerShows(s: set<Entry>, user: Bytes, v: nat, r: Option<Entry>)
    requires IsAnswer(s, user, v, r) && forall e :: e in s ==> Ts(e) <= v
    requires forall e, f :: e in s && f in s && User(e) == User(f) && Ts(e) == Ts(f) ==> e == f
    ensures forall e :: User(e) == user ==> (Shows(s, e) <==> r == Some(e) && !Tomb(e))
  {
    forall e | User(e) == user ensures Shows(s, e) <==> r == Some(e) && !Tomb(e) {
      if Shows(s, e) { assert r.Some? && Ts(r.value) == Ts(e); }
    }
  }
}

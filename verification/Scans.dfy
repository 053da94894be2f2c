/** Two walks over merged versions: the range scan and the major compaction. Both keep the first
    version they meet of each user key, which is the newest, and skip the rest. */
module Scans {
  import opened Bytes
  import opened Keys
  import opened Values
  import opened Runs
  import opened Versions
  import opened Merges
  import opened MergeIterators
  import opened Skiplists
  import opened SkiplistShape
  import opened Room
  import opened Partition

  predicate IsDeletedOrExpired(vs: ValueStruct, now: nat)
  {
    Has(vs.meta, BIT_DELETE) || (vs.expiresAt != 0 && vs.expiresAt <= now)
  }

  ghost predicate Plain(r: Run) { forall e :: e in r ==> |e.key| > 8 && e.vs.expiresAt == 0 }

  /** skipKey: empty means none. */
  predicate Skips(skip: Bytes, k: Key) { |skip| >= 8 && SameKey(k, skip) }

  /** The first version of each user key, unless it is deleted. */
  function Keep(r: Run, skip: Bytes, now: nat): Run
  {
    if r == [] then []
    else if Skips(skip, r[0].key) then Keep(r[1..], skip, now)
    else (if IsDeletedOrExpired(r[0].vs, now) then [] else [r[0]]) + Keep(r[1..], r[0].key, now)
  }

  /** The versions a scan looks at: it stops at the first key without the prefix. */
  function WithPrefix(r: Run, prefix: Bytes): Run
  {
    if r == [] || !(prefix <= r[0].key) then [] else [r[0]] + WithPrefix(r[1..], prefix)
  }

  function Users(r: Run): seq<Bytes> { seq(|r|, i requires 0 <= i < |r| => ParseKey(r[i].key)) }

  // ---------- what Keep keeps ----------

  /** All versions in r come after those of the skipped key, or belong to it. */
  ghost predicate Follows(skip: Bytes, r: Run)
  {
    |skip| >= 8 ==> forall e :: e in r ==> SameKey(e.key, skip) || Compare(ParseKey(skip), ParseKey(e.key)) < 0
  }

  ghost predicate Unskipped(skip: Bytes, e: Entry) { |skip| >= 8 ==> ParseKey(e.key) != ParseKey(skip) }

  lemma SortedTail(r: Run)
    requires Sorted(r) && r != []
    ensures Sorted(r[1..]) && Follows(r[0].key, r[1..])
    ensures forall e :: e in r[1..] && User(e) == User(r[0]) && |e.key| > 8 && |r[0].key| > 8 ==> Ts(e) < Ts(r[0])
  {
    hide Less, CompareKeys, SameKey, ParseTs;
    forall e | e in r[1..]
      ensures SameKey(e.key, r[0].key) || Compare(ParseKey(r[0].key), ParseKey(e.key)) < 0
      ensures User(e) == User(r[0]) && |e.key| > 8 && |r[0].key| > 8 ==> Ts(e) < Ts(r[0])
    {
      var i :| 0 <= i < |r[1..]| && r[1..][i] == e;
      assert Less(r[0].key, r[i + 1].key);
      LessUser(r[0].key, e.key); CompareEqual(ParseKey(r[0].key), ParseKey(e.key)); SameKeyIffSameUser(e.key, r[0].key);
      if |e.key| > 8 && |r[0].key| > 8 { LessByParts(r[0].key, e.key); }
    }
  }

  lemma FollowsTail(skip: Bytes, r: Run)
    requires r != [] && Follows(skip, r)
    ensures Follows(skip, r[1..])
  {
  }

  /** Keep picks exactly the versions that are newest among their key's and not deleted, in order. */
  lemma {:induction false} KeepMembers(r: Run, skip: Bytes, now: nat)
    requires Sorted(r) && Plain(r) && Follows(skip, r)
    ensures Sorted(Keep(r, skip, now))
    ensures forall e :: e in Keep(r, skip, now) <==> Shows(Elements(r), e) && Unskipped(skip, e)
    decreases |r|
  {
    hide Less, Sorted, Follows, CompareKeys;
    if r != [] {
      var h, t := r[0], r[1..];
      assert r == [h] + t;
      SortedTail(r); FollowsTail(skip, r);
      assert Plain(t);
      if Skips(skip, h.key) {
        KeepMembers(t, skip, now);
        SkipHead(r, skip, now);
      } else {
        KeepMembers(t, h.key, now);
        KeepHead(r, skip, now);
      }
    }
  }

  lemma SkipHead(r: Run, skip: Bytes, now: nat)
    requires r != [] && Sorted(r) && Plain(r) && Skips(skip, r[0].key)
    ensures forall e :: Shows(Elements(r), e) && Unskipped(skip, e) <==>
                        Shows(Elements(r[1..]), e) && Unskipped(skip, e)
  {
    hide Less, Sorted;
    assert r == [r[0]] + r[1..];
    SameKeyIffSameUser(r[0].key, skip);
  }

  lemma KeepHead(r: Run, skip: Bytes, now: nat)
    requires r != [] && Sorted(r) && Plain(r) && Follows(skip, r) && !Skips(skip, r[0].key)
    requires Sorted(Keep(r[1..], r[0].key, now))
    requires forall e :: e in Keep(r[1..], r[0].key, now) <==> Shows(Elements(r[1..]), e) && Unskipped(r[0].key, e)
    ensures Sorted(Keep(r, skip, now))
    ensures forall e :: e in Keep(r, skip, now) <==> Shows(Elements(r), e) && Unskipped(skip, e)
  {
    hide Less, Sorted;
    var h, t := r[0], r[1..];
    assert r == [h] + t && h in r;
    SortedTail(r);
    HeadShows(r, now);
    NotSkipped(r, skip);
    var k := Keep(t, h.key, now);
    if IsDeletedOrExpired(h.vs, now) { assert Keep(r, skip, now) == k; } else { KeepSorted(r, k); }
    forall e ensures e in Keep(r, skip, now) <==> Shows(Elements(r), e) && Unskipped(skip, e) {
      if User(e) != User(h) {
        assert Shows(Elements(r), e) <==> Shows(Elements(t), e);
      }
      if e in r { assert Unskipped(skip, e); }
    }
  }

  lemma HeadShows(r: Run, now: nat)
    requires r != [] && Sorted(r) && Plain(r)
    ensures Shows(Elements(r), r[0]) <==> !IsDeletedOrExpired(r[0].vs, now)
    ensures forall e :: e in r && User(e) == User(r[0]) && e != r[0] ==> !Shows(Elements(r), e)
  {
    hide Less, Sorted;
    var h, t := r[0], r[1..];
    assert r == [h] + t && h in r && |h.key| > 8;
    SortedTail(r);
    forall e | e in t ensures |e.key| > 8 { assert e in r; }
    assert forall e :: e in r ==> e == h || e in t;
  }

  lemma NotSkipped(r: Run, skip: Bytes)
    requires r != [] && Sorted(r) && Follows(skip, r) && !Skips(skip, r[0].key)
    ensures forall e :: e in r ==> Unskipped(skip, e)
  {
    hide Less, Sorted;
    if |skip| >= 8 {
      var h, t := r[0], r[1..];
      assert r == [h] + t && h in r;
      SortedTail(r);
      forall e | e in r ensures ParseKey(e.key) != ParseKey(skip) {
        SameKeyIffSameUser(h.key, skip); SameKeyIffSameUser(e.key, h.key);
        if e in t && !SameKey(e.key, h.key) {
          CompareTransitive(ParseKey(skip), ParseKey(h.key), ParseKey(e.key));
        }
        CompareEqual(ParseKey(skip), ParseKey(e.key));
      }
    }
  }

  lemma KeepSorted(r: Run, k: Run)
    requires r != [] && Sorted(r) && Sorted(k) && forall e :: e in k ==> e in r[1..]
    ensures Sorted([r[0]] + k)
  {
    forall i, j | 0 <= i < j < |[r[0]] + k| ensures Less(([r[0]] + k)[i].key, ([r[0]] + k)[j].key) {
      assert ([r[0]] + k)[j] == k[j - 1] && k[j - 1] in k;
      if i == 0 {
        var m :| 0 <= m < |r[1..]| && r[1..][m] == k[j - 1];
        assert Less(r[0].key, r[m + 1].key);
      }
    }
  }

  // ---------- the range scan ----------

  /** The first `limit` keys of a list, or all of them. */
  ghost predicate FirstOf(out: seq<Bytes>, us: seq<Bytes>, limit: nat)
  {
    out <= us && |out| <= limit && (|out| < limit ==> out == us)
  }

  /** A right answer to a range request: listed keys in ascending order, at most as many as asked for, and those
      that are missing lie above all of them, if any are missing at all. */
  ghost predicate RangeAnswer(out: seq<Bytes>, s: set<Entry>, prefix: Bytes, start: Bytes, limit: nat)
  {
    && |out| <= limit && AscendingKeys(out)
    && (forall u :: u in out ==> Listed(s, prefix, start, u))
    && (forall u :: Listed(s, prefix, start, u) && u !in out ==>
          |out| == limit && forall v :: v in out ==> Compare(v, u) < 0)
  }

  lemma FirstOfList(out: seq<Bytes>, us: seq<Bytes>, s: set<Entry>, prefix: Bytes, start: Bytes, limit: nat)
    requires FirstOf(out, us, limit) && AscendingKeys(us) && forall u :: u in us <==> Listed(s, prefix, start, u)
    ensures RangeAnswer(out, s, prefix, start, limit)
  {
    hide Listed, Compare;
    forall i | 0 <= i < |out| ensures out[i] == us[i] {}
    forall u | Listed(s, prefix, start, u) && u !in out
      ensures |out| == limit && forall v :: v in out ==> Compare(v, u) < 0
    {
      var k :| 0 <= k < |us| && us[k] == u;
      assert k >= |out|;
    }
  }

  /** Range over the merged iterator of all memtables and tables. */
  method Range(it: Iter, prefix: Bytes, start: Bytes, limit: nat, seqNumber: nat, now: nat) returns (out: seq<Bytes>)
    requires it.Shape() && !it.rev && seqNumber <= MAX_UINT64
    modifies it.Repr
    ensures FirstOf(out, ScanFrom(Drop(false, it.All, KeyWithTs(start, seqNumber)), prefix, [], now), limit)
    ensures Store(it.All, seqNumber) && Reaches(prefix, start) ==>
              RangeAnswer(out, Elements(it.All), prefix, start, limit)
  {
    out := ScanLoop(it, prefix, start, limit, seqNumber, now);
    hide Iter.Shape, Drop, ScanFrom, Store, Reaches, RangeAnswer, FirstOf;
    if Store(it.All, seqNumber) && Reaches(prefix, start) {
      RangeIsLiveScan(it.All, prefix, start, seqNumber, now);
      FirstOfList(out, ScanFrom(Drop(false, it.All, KeyWithTs(start, seqNumber)), prefix, [], now), Elements(it.All),
                  prefix, start, limit);
    }
  }

  /** The loop of Range, from the sought position on. */
  method ScanLoop(it: Iter, prefix: Bytes, start: Bytes, limit: nat, seqNumber: nat, now: nat)
    returns (out: seq<Bytes>)
    requires it.Shape() && !it.rev && seqNumber <= MAX_UINT64
    modifies it.Repr
    ensures FirstOf(out, ScanFrom(Drop(false, it.All, KeyWithTs(start, seqNumber)), prefix, [], now), limit)
  {
    hide Iter.Ready, Iter.Shape, Drop, IsDeletedOrExpired, Skips, ScanFrom;
    out := [];
    var skipKey: Bytes := [];
    it.Seek(KeyWithTs(start, seqNumber));
    ghost var goal := ScanFrom(it.Remaining, prefix, [], now);
    var more := it.Valid();
    while more && |out| < limit
      invariant it.Shape() && it.Ready() && more == (it.Remaining != [])
      invariant |out| <= limit && goal == out + ScanFrom(it.Remaining, prefix, skipKey, now)
      decreases |it.Remaining|
    {
      var key := it.Key();
      ghost var rem := it.Remaining;
      ScanStep(rem, prefix, skipKey, now);
      if !(prefix <= key) {
        break;
      }
      if !Skips(skipKey, key) {
        skipKey := key;
        var vs := it.Value();
        if !IsDeletedOrExpired(vs, now) {
          out := out + [ParseKey(key)];
        }
      }
      it.Next();
      more := it.Valid();
    }
    if !more { ScanEnd(prefix, skipKey, now); }
  }

  /** What a scan lists from here on. */
  function ScanFrom(r: Run, prefix: Bytes, skip: Bytes, now: nat): seq<Bytes>
  {
    Users(Keep(WithPrefix(r, prefix), skip, now))
  }

  lemma ScanEnd(prefix: Bytes, skip: Bytes, now: nat)
    ensures ScanFrom([], prefix, skip, now) == []
  {
  }

  lemma ScanStep(r: Run, prefix: Bytes, skip: Bytes, now: nat)
    requires r != []
    ensures ScanFrom(r, prefix, skip, now) ==
            if !(prefix <= r[0].key) then []
            else if Skips(skip, r[0].key) then ScanFrom(r[1..], prefix, skip, now)
            else if IsDeletedOrExpired(r[0].vs, now) then ScanFrom(r[1..], prefix, r[0].key, now)
            else [ParseKey(r[0].key)] + ScanFrom(r[1..], prefix, r[0].key, now)
  {
    hide IsDeletedOrExpired, Skips;
    var w := WithPrefix(r, prefix);
    if prefix <= r[0].key {
      assert w[0] == r[0] && w[1..] == WithPrefix(r[1..], prefix);
      var later := Keep(w[1..], r[0].key, now);
      if Skips(skip, r[0].key) {
      } else if IsDeletedOrExpired(r[0].vs, now) {
        assert Keep(w, skip, now) == later;
      } else {
        assert Users([r[0]] + later) == [ParseKey(r[0].key)] + Users(later);
      }
    }
  }

  /** The live user keys at or after start that begin with prefix. */
  ghost predicate Listed(s: set<Entry>, prefix: Bytes, start: Bytes, u: Bytes)
  {
    prefix <= u && Compare(start, u) <= 0 && exists e :: Shows(s, e) && User(e) == u
  }

  ghost predicate AscendingKeys(us: seq<Bytes>) { forall i, j :: 0 <= i < j < |us| ==> Compare(us[i], us[j]) < 0 }

  /** Start is not before the prefix, or no user key lies between them. */
  predicate Reaches(prefix: Bytes, start: Bytes) { Compare(prefix, start) <= 0 || (start == [] && prefix == [0]) }

  /** The scan without its limit lists exactly the live keys in range, in ascending order. */
  ghost predicate LiveScan(m: Run, prefix: Bytes, start: Bytes, seqNumber: nat, now: nat)
    requires seqNumber <= MAX_UINT64
  {
    var us := ScanFrom(Drop(false, m, KeyWithTs(start, seqNumber)), prefix, [], now);
    AscendingKeys(us) && forall u :: u in us <==> Listed(Elements(m), prefix, start, u)
  }

  /** The versions of a store none of whose timestamps is above the sequence number. */
  ghost predicate Store(m: Run, seqNumber: nat)
  {
    Sorted(m) && Plain(m) && forall e :: e in m ==> Ts(e) <= seqNumber
  }

  /** A range request is answered right over every store exactly when its start reaches its prefix:
      a version before the prefix ends the scan. */
  lemma RangeExact(prefix: Bytes, start: Bytes)
    ensures Reaches(prefix, start) <==>
            forall m, seqNumber: nat, now: nat :: seqNumber <= MAX_UINT64 && Store(m, seqNumber) ==>
              LiveScan(m, prefix, start, seqNumber, now)
  {
    hide LiveScan, Store;
    if Reaches(prefix, start) {
      forall m, seqNumber: nat, now: nat | seqNumber <= MAX_UINT64 && Store(m, seqNumber)
        ensures LiveScan(m, prefix, start, seqNumber, now)
      {
        RangeIsLiveScan(m, prefix, start, seqNumber, now);
      }
    } else {
      var m := StartTooEarly(prefix, start);
      assert !LiveScan(m, prefix, start, 1, 0);
    }
  }

  /** A key between start and prefix hides the key that is the prefix. */
  lemma StartTooEarly(prefix: Bytes, start: Bytes) returns (m: Run)
    requires !Reaches(prefix, start)
    ensures Store(m, 1) && !LiveScan(m, prefix, start, 1, 0)
  {
    hide Less, CompareKeys, KeyWithTs, Drop;
    var u := if start == [] then [0] else start;
    var vs := ValueStruct(0, 0, 0, []);
    CompareFlip(prefix, start);
    assert Compare(start, u) <= 0 by { CompareEqual(start, start); }
    assert Compare(u, prefix) < 0;
    var a, b := Entry(KeyWithTs(u, 1), vs), Entry(KeyWithTs(prefix, 1), vs);
    m := [a, b];
    PlainEntry(u, a); PlainEntry(prefix, b);
    KeyOrder(u, 1, prefix, 1);
    assert Less(a.key, b.key) by { LessMeans(a.key, b.key); }
    assert Compare(start, prefix) <= 0;
    RangeDrop(m, start, 1);
    var d := Drop(false, m, KeyWithTs(start, 1));
    assert a in m && b in m && a in d && b in d;
    CompareEqual(u, prefix);
    SortedUnique(d, m);
    ScanStep(d, prefix, [], 0);
    var us := ScanFrom(d, prefix, [], 0);
    if prefix <= a.key {
      assert us[0] == u;
      assert !(prefix <= u) by { if prefix <= u { ComparePrefix(prefix, u); CompareFlip(prefix, u); } }
      assert u in us && !Listed(Elements(m), prefix, start, u);
    } else {
      assert Shows(Elements(m), b);
      assert Listed(Elements(m), prefix, start, prefix) && prefix !in us;
    }
  }

  lemma PlainEntry(u: Bytes, e: Entry)
    requires u != [] && e.key == KeyWithTs(u, 1)
    ensures |e.key| > 8 && User(e) == u && Ts(e) == 1
  {
    KeyParts(u, 1); TimestampRoundTrip(u, 1);
  }

  lemma LessMeans(a: Key, b: Key)
    ensures Less(a, b) <==> CompareKeys(a, b) < 0
  {
  }

  lemma RangeIsLiveScan(m: Run, prefix: Bytes, start: Bytes, seqNumber: nat, now: nat)
    requires seqNumber <= MAX_UINT64 && Store(m, seqNumber) && Reaches(prefix, start)
    ensures LiveScan(m, prefix, start, seqNumber, now)
  {
    hide Less, Drop, WithPrefix, Keep, KeyWithTs, CompareKeys;
    var d := Drop(false, m, KeyWithTs(start, seqNumber));
    RangeDrop(m, start, seqNumber);
    var w := WithPrefix(d, prefix);
    forall e | e in d ensures Compare(prefix, User(e)) <= 0 { ReachesAll(prefix, start, e); }
    WithPrefixMembers(d, prefix);
    KeepMembers(w, [], now);
    var k := Keep(w, [], now);
    var us := Users(k);
    forall u ensures u in us <==> Listed(Elements(m), prefix, start, u) {
      ListedIff(m, d, w, k, prefix, start, u);
    }
    KeptUsersAscend(w, k);
  }

  /** Seeking with the sequence number skips exactly the user keys before start. */
  lemma RangeDrop(m: Run, start: Bytes, seqNumber: nat)
    requires Sorted(m) && Plain(m) && seqNumber <= MAX_UINT64 && forall e :: e in m ==> Ts(e) <= seqNumber
    ensures var d := Drop(false, m, KeyWithTs(start, seqNumber));
            Sorted(d) && Plain(d) && forall e :: e in d <==> e in m && Compare(start, User(e)) <= 0
  {
    hide Less, Drop, CompareKeys, KeyWithTs;
    var key := KeyWithTs(start, seqNumber);
    SortedOrdered(m);
    DropOrdered(false, m, key);
    var d := Drop(false, m, key);
    SortedOrdered(d);
    forall e ensures e in d <==> e in m && Compare(start, User(e)) <= 0 {
      if e in d { assert e in m; }
      if e in m { StartBefore(e, start, seqNumber); }
    }
  }

  lemma SortedOrdered(m: Run)
    ensures Sorted(m) <==> Ordered(false, m)
  {
    hide Less;
    assert forall i, j :: 0 <= i < j < |m| ==> Ahead(false, m[i].key, m[j].key) == Less(m[i].key, m[j].key);
  }

  lemma StartBefore(e: Entry, start: Bytes, seqNumber: nat)
    requires |e.key| > 8 && Ts(e) <= seqNumber <= MAX_UINT64
    ensures Ahead(false, e.key, KeyWithTs(start, seqNumber)) <==> Compare(start, User(e)) > 0
  {
    KeyRebuild(e.key);
    KeyOrder(User(e), Ts(e), start, seqNumber);
    CompareFlip(start, User(e));
  }

  lemma ReachesAll(prefix: Bytes, start: Bytes, e: Entry)
    requires Reaches(prefix, start) && |e.key| > 8 && Compare(start, User(e)) <= 0
    ensures Compare(prefix, User(e)) <= 0
  {
    CompareEqual(prefix, start); CompareEqual(start, User(e));
    if Compare(prefix, start) < 0 && Compare(start, User(e)) < 0 { CompareTransitive(prefix, start, User(e)); }
  }

  /** Past the prefix, the internal keys that begin with it are a leading stretch, and they are those
      whose user key begins with it. */
  lemma {:induction false} WithPrefixMembers(d: Run, prefix: Bytes)
    requires Sorted(d) && Plain(d) && forall e :: e in d ==> Compare(prefix, User(e)) <= 0
    ensures Sorted(WithPrefix(d, prefix)) && Plain(WithPrefix(d, prefix))
    ensures forall e :: e in WithPrefix(d, prefix) <==> e in d && prefix <= User(e)
  {
    hide Less, CompareKeys;
    if d != [] {
      var h, t := d[0], d[1..];
      assert d == [h] + t && h in d;
      PrefixOfKey(h, prefix);
      SortedTail(d);
      WithPrefixMembers(t, prefix);
      if prefix <= h.key {
        KeepSorted(d, WithPrefix(t, prefix));
      } else {
        forall e | e in d ensures !(prefix <= User(e)) {
          if prefix <= User(e) && e in t {
            SameKeyIffSameUser(e.key, h.key); CompareEqual(User(h), User(e));
            PrefixConvex(prefix, prefix, User(h), User(e));
          }
        }
      }
    }
  }

  /** An internal key may begin with a prefix its user key lacks, but not past the prefix. */
  lemma PrefixOfKey(e: Entry, prefix: Bytes)
    requires Compare(prefix, User(e)) <= 0
    ensures prefix <= e.key <==> prefix <= User(e)
  {
    assert e.key == User(e) + e.key[|e.key| - 8..];
    if prefix <= e.key && |prefix| > |User(e)| {
      assert User(e) == e.key[..|User(e)|] == prefix[..|User(e)|];
      ComparePrefix(User(e), prefix); CompareFlip(User(e), prefix); CompareEqual(User(e), prefix);
    }
  }

  lemma ListedIff(m: Run, d: Run, w: Run, k: Run, prefix: Bytes, start: Bytes, u: Bytes)
    requires forall e :: e in d <==> e in m && Compare(start, User(e)) <= 0
    requires forall e :: e in w <==> e in d && prefix <= User(e)
    requires forall e :: e in k <==> Shows(Elements(w), e)
    ensures u in Users(k) <==> Listed(Elements(m), prefix, start, u)
  {
    forall e
      ensures Shows(Elements(w), e) <==> Shows(Elements(m), e) && prefix <= User(e) && Compare(start, User(e)) <= 0
    {
    }
    if u in Users(k) {
      var i :| 0 <= i < |k| && Users(k)[i] == u;
      assert k[i] in k;
      assert Shows(Elements(m), k[i]);
    }
    if Listed(Elements(m), prefix, start, u) {
      var e :| Shows(Elements(m), e) && User(e) == u;
      assert e in k;
      var i :| 0 <= i < |k| && k[i] == e;
      assert Users(k)[i] == u;
    }
  }

  lemma KeptUsersAscend(w: Run, k: Run)
    requires Sorted(k) && Plain(w) && forall e :: e in k <==> Shows(Elements(w), e)
    ensures AscendingKeys(Users(k))
  {
    var us := Users(k);
    forall i, j | 0 <= i < j < |us| ensures Compare(us[i], us[j]) < 0 {
      assert k[i] in k && k[j] in k && Less(k[i].key, k[j].key);
      LessByParts(k[i].key, k[j].key);
    }
  }

  // ---------- major compaction ----------

  /** Every version fits an empty memtable of this capacity, and is sized as memtables size it. */
  ghost predicate Fits(r: Run, capacity: nat)
  {
    forall e :: e in r ==>
      EMPTY_SIZE + EstimatedVS(e.key, e.vs) <= capacity &&
      ((!Has(e.vs.meta, BIT_VALUE_POINTER) && |e.vs.value| <= VALUE_THROTTLE) || |e.vs.value| <= VPTR_SIZE)
  }

  /** doCompact with major set: fill memtables until the merged versions are used up. Nothing is lost
      or repeated where one memtable ends and the next begins, and every pass makes progress. */
  method DoCompact(it: Iter, capacity: nat, now: nat) returns (chunks: seq<Run>)
    requires it.Shape() && !it.rev && Fits(it.All, capacity) && EMPTY_SIZE <= capacity
    modifies it.Repr
    ensures Flatten(chunks) == Keep(it.All, [], now)
    ensures forall c :: c in chunks ==> Sorted(c)
  {
    hide Iter.Shape, Keep, Fits, Iter.Ready;
    it.Rewind();
    chunks := [];
    assert Flatten(chunks) + Keep(it.Remaining, [], now) == Keep(it.All, [], now);
    var more := it.Valid();
    while more
      invariant it.Shape() && it.Ready() && more == (it.Remaining != []) && Fits(it.Remaining, capacity)
      invariant Flatten(chunks) + Keep(it.Remaining, [], now) == Keep(it.All, [], now)
      invariant forall c :: c in chunks ==> Sorted(c)
      decreases |it.Remaining|
    {
      ghost var was := Keep(it.Remaining, [], now);
      var chunk := FillChunk(it, capacity, now);
      ghost var done := Flatten(chunks);
      FlattenSnoc(chunks, chunk);
      assert done + was == done + chunk + Keep(it.Remaining, [], now);
      chunks := chunks + [chunk];
      more := it.Valid();
    }
    KeepEmpty(now);
  }

  lemma KeepEmpty(now: nat)
    ensures forall skip :: Keep([], skip, now) == []
  {
  }

  ghost predicate Below(c: Run, r: Run) { forall e, f :: e in c && f in r ==> Less(e.key, f.key) }

  /** One pass: a new memtable takes kept versions until one does not fit. */
  method FillChunk(it: Iter, capacity: nat, now: nat) returns (chunk: Run)
    requires it.Shape() && it.Ready() && !it.rev && it.Remaining != [] && Fits(it.Remaining, capacity) &&
             EMPTY_SIZE <= capacity
    modifies it.Repr
    ensures it.Ready() && |it.Remaining| < |old(it.Remaining)| && Fits(it.Remaining, capacity)
    ensures Keep(old(it.Remaining), [], now) == chunk + Keep(it.Remaining, [], now)
    ensures Sorted(chunk)
  {
    hide Iter.Shape, Keep, Fits, Iter.Ready, Skiplist.Valid, Skiplist.Complete, Below, Less, CompareKeys, Sorted,
         IsDeletedOrExpired, Skips, EstimatedVS, PutGrowth, Found, Runs.Put, Evolves, ShowsOneOf, Grows;
    var memStore := new Skiplist(capacity);
    ghost var goal := Keep(it.Remaining, [], now);
    ghost var kept: Run := [];
    var skipKey: Bytes := [];
    StartPass(it.Remaining);
    var more := it.Valid();
    while more
      invariant it.Shape() && it.Ready() && more == (it.Remaining != []) && Fits(it.Remaining, capacity)
      invariant fresh(memStore) && memStore.Valid() && memStore.Complete() && memStore.size == capacity
      invariant memStore.Contents() == kept && Sorted(kept) && Below(kept, it.Remaining)
      invariant goal == kept + Keep(it.Remaining, skipKey, now)
      invariant |it.Remaining| <= |old(it.Remaining)|
      invariant |it.Remaining| == |old(it.Remaining)| ==> memStore.n == EMPTY_SIZE && skipKey == []
      decreases |it.Remaining|
    {
      var key := it.Key();
      var vs := it.Value();
      ghost var rem := it.Remaining;
      PassStep(it, kept, capacity);
      var full;
      full, skipKey, kept := Consider(memStore, key, vs, capacity, skipKey, now, kept, rem);
      if full { break; }
      it.Next();
      more := it.Valid();
    }
    KeepEmpty(now);
    chunk := memStore.Collect();
  }

  /** The body of the pass: skip, drop or keep the version the iterator stands on. */
  method Consider(memStore: Skiplist, key: Key, vs: ValueStruct, capacity: nat, skipKey: Bytes, now: nat,
                  ghost kept: Run, ghost rem: Run)
      returns (full: bool, skip: Bytes, ghost kept': Run)
    requires memStore.Valid() && memStore.Complete() && memStore.size == capacity && memStore.Contents() == kept
    requires rem != [] && rem[0] == Entry(key, vs) && Sorted(kept) && Below(kept, rem)
    requires Below(kept, rem[1..]) && Below(kept + [rem[0]], rem[1..])
    requires (!Has(vs.meta, BIT_VALUE_POINTER) && |vs.value| <= VALUE_THROTTLE) || |vs.value| <= VPTR_SIZE
    modifies memStore
    ensures memStore.Valid() && memStore.Complete() && memStore.Contents() == kept' && Sorted(kept')
    ensures if full then kept' == kept && skip == [] && memStore.n + EstimatedVS(key, vs) > capacity &&
            memStore.n == old(memStore.n) &&
                         kept + Keep(rem, skipKey, now) == kept + Keep(rem, [], now)
            else kept + Keep(rem, skipKey, now) == kept' + Keep(rem[1..], skip, now) && Below(kept', rem[1..])
  {
    hide Keep, Skiplist.Valid, Skiplist.Complete, Below, Less, CompareKeys, Sorted, IsDeletedOrExpired, Skips,
         EstimatedVS;
    KeepStep(rem, skipKey, now);
    full, skip, kept' := false, skipKey, kept;
    if !Skips(skipKey, key) {
      skip := key;
      if !IsDeletedOrExpired(vs, now) {
        if memStore.n + EstimatedVS(key, vs) > capacity {
          KeepStep(rem, [], now); NoSkip(key);
          full, skip := true, [];
        } else {
          PutKept(memStore, key, vs, capacity, kept, rem);
          kept' := kept + [rem[0]];
          assert kept' + Keep(rem[1..], key, now) == kept + ([rem[0]] + Keep(rem[1..], key, now));
        }
      }
    }
  }

  /** A kept version that fits goes to the end of the new memtable. */
  method PutKept(memStore: Skiplist, key: Key, vs: ValueStruct, capacity: nat, ghost kept: Run, ghost rem: Run)
    requires memStore.Valid() && memStore.Complete() && memStore.size == capacity && memStore.Contents() == kept
    requires rem != [] && rem[0] == Entry(key, vs) && Sorted(kept) && Below(kept, rem)
    requires memStore.n + EstimatedVS(key, vs) <= capacity
    requires (!Has(vs.meta, BIT_VALUE_POINTER) && |vs.value| <= VALUE_THROTTLE) || |vs.value| <= VPTR_SIZE
    modifies memStore
    ensures memStore.Valid() && memStore.Complete() && memStore.Contents() == kept + [rem[0]] && Sorted(kept + [rem[0]])
  {
    hide Skiplist.Valid, Skiplist.Complete, Below, Less, CompareKeys, Sorted, EstimatedVS, PutGrowth, Found, Runs.Put,
         Evolves, ShowsOneOf, Grows;
    var h: nat :| 1 <= h <= MAX_HEIGHT;
    GrowthWithinEstimateVS(key, vs);
    PutLast(kept, rem);
    ghost var trace := memStore.Put(key, vs, h);
  }

  lemma NoSkip(k: Key)
    ensures !Skips([], k)
  {
  }

  lemma StartPass(r: Run)
    ensures Below([], r) && Sorted([])
  {
  }

  lemma KeepStep(r: Run, skip: Bytes, now: nat)
    requires r != []
    ensures Keep(r, skip, now) ==
            if Skips(skip, r[0].key) then Keep(r[1..], skip, now)
            else if IsDeletedOrExpired(r[0].vs, now) then Keep(r[1..], r[0].key, now)
            else [r[0]] + Keep(r[1..], r[0].key, now)
  {
  }

  lemma PassStep(it: Iter, kept: Run, capacity: nat)
    requires it.Shape() && it.Ready() && !it.rev && it.Remaining != [] && Fits(it.Remaining, capacity) &&
             Below(kept, it.Remaining)
    ensures Fits(it.Remaining[1..], capacity) && Below(kept, it.Remaining[1..])
    ensures Below(kept + [it.Remaining[0]], it.Remaining[1..])
    ensures EMPTY_SIZE + EstimatedVS(it.Remaining[0].key, it.Remaining[0].vs) <= capacity
    ensures (!Has(it.Remaining[0].vs.meta, BIT_VALUE_POINTER) && |it.Remaining[0].vs.value| <= VALUE_THROTTLE) ||
            |it.Remaining[0].vs.value| <= VPTR_SIZE
  {
    hide Less, EstimatedVS;
    it.ReadyOrdered();
    var r := it.Remaining;
    SortedOrdered(r);
    assert r == [r[0]] + r[1..] && r[0] in r;
  }

  /** The next version goes to the end of the memtable. */
  lemma PutLast(kept: Run, rem: Run)
    requires rem != [] && Sorted(kept) && Below(kept, rem)
    ensures Put(kept, rem[0].key, rem[0].vs) == kept + [rem[0]] && Sorted(kept + [rem[0]])
  {
    hide Less;
    assert rem[0] in rem;
    if kept != [] { assert kept[|kept| - 1] in kept; }
    PutAtGap(kept, rem[0].key, rem[0].vs, |kept|);
    assert kept[..|kept|] + [rem[0]] + kept[|kept|..] == kept + [rem[0]];
    PutSorted(kept, rem[0].key, rem[0].vs);
  }

  lemma {:induction false} FlattenMembers(chunks: seq<Run>)
    ensures Elements(Flatten(chunks)) == InRuns(chunks)
  {
    if chunks != [] {
      var m := |chunks| - 1;
      FlattenMembers(chunks[..m]);
      FlattenSnoc(chunks[..m], chunks[m]);
      assert chunks == chunks[..m] + [chunks[m]];
      forall e ensures e in InRuns(chunks) <==> e in InRuns(chunks[..m]) || e in chunks[m] {
        if e in InRuns(chunks[..m]) { var i :| 0 <= i < m && e in chunks[..m][i]; assert e in chunks[i]; }
        if e in InRuns(chunks) {
          var i :| 0 <= i < |chunks| && e in chunks[i];
          if i < m { assert e in chunks[..m][i]; }
        }
      }
    }
  }

  /** When equal keys carry equal values, a merge holds what its inputs hold. */
  lemma MergeOfRuns(runs: seq<Run>, out: Run)
    requires IsMerge(false, runs, out)
    requires forall e, f :: e in InRuns(runs) && f in InRuns(runs) && e.key == f.key ==> e == f
    ensures Sorted(out) && Elements(out) == InRuns(runs)
  {
    hide Less;
    SortedOrdered(out);
    forall e ensures e in out <==> e in InRuns(runs) {
      if e in out { var i :| Leftmost(runs, i, e); assert e in runs[i]; }
      if e in InRuns(runs) {
        var i :| 0 <= i < |runs| && e in runs[i];
        assert HasKey(runs[i], e.key);
        KeyInMerge(false, runs, out, i, e.key);
        var f :| f in out && f.key == e.key;
        var j :| Leftmost(runs, j, f);
        assert f in runs[j];
        assert f in InRuns(runs) && e in InRuns(runs);
      }
    }
  }

  lemma MergeOfTables(ts: seq<Table>, out: Run)
    requires IsMerge(false, TableRuns(ts), out)
    requires forall e, f :: e in InTables(ts) && f in InTables(ts) && e.key == f.key ==> e == f
    ensures Sorted(out) && Elements(out) == InTables(ts)
  {
    hide Sorted, IsMerge;
    InTableRuns(ts);
    MergeOfRuns(TableRuns(ts), out);
  }

  lemma InTableRuns(ts: seq<Table>)
    ensures InRuns(TableRuns(ts)) == InTables(ts)
  {
    var runs := TableRuns(ts);
    forall e ensures e in InRuns(runs) <==> e in InTables(ts) {
      if e in InRuns(runs) { var i :| 0 <= i < |runs| && e in runs[i]; assert e in ts[i].run; }
      if e in InTables(ts) { var i :| 0 <= i < |ts| && e in ts[i].run; assert e in runs[i]; }
    }
  }

  function TableRuns(ts: seq<Table>): seq<Run> { seq(|ts|, i requires 0 <= i < |ts| => ts[i].run) }

  /** The chunks that a compaction of these tables makes are the ones the partition's compaction step
      asks for: together they hold the newest version of every user key that is not deleted. */
  lemma CompactionChunks(ts: seq<Table>, merged: Run, chunks: seq<Run>, now: nat)
    requires IsMerge(false, TableRuns(ts), merged) && Flatten(chunks) == Keep(merged, [], now)
    requires forall e, f :: e in InTables(ts) && f in InTables(ts) && e.key == f.key ==> e == f
    requires forall e :: e in InTables(ts) ==> |e.key| > 8 && e.vs.expiresAt == 0
    ensures InRuns(chunks) == Survivors(InTables(ts))
  {
    hide Less, Sorted, Keep;
    MergeOfTables(ts, merged);
    forall e | e in merged ensures |e.key| > 8 && e.vs.expiresAt == 0 { assert e in Elements(merged); }
    assert Plain(merged);
    KeepMembers(merged, [], now);
    FlattenMembers(chunks);
    forall e ensures e in InRuns(chunks) <==> e in Survivors(InTables(ts)) {
      assert e in Elements(Flatten(chunks)) <==> e in Flatten(chunks);
    }
  }
}

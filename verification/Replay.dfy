/** What replay leaves behind: when reads are right after it, and where the sequence counter ends up. */
module Replay {
  import opened Bytes
  import opened Keys
  import opened Runs
  import opened Versions
  import opened Partition
  import opened PartitionProof
  import opened Reads

  // ---------- rotating the memtable during replay ----------

  ghost predicate DistinctKeys(es: seq<Entry>) { forall i, j :: 0 <= i < j < |es| ==> es[i].key != es[j].key }

  ghost predicate EntriesOk(es: seq<Entry>)
  {
    DistinctKeys(es) && forall i :: 0 <= i < |es| ==> |es[i].key| > 8 && Ts(es[i]) > 0
  }

  /** Growing positions in a list of n entries. */
  predicate CutsIn(cuts: seq<nat>, n: nat)
  {
    cuts == [] || (cuts[|cuts| - 1] <= n && CutsIn(cuts[..|cuts| - 1], cuts[|cuts| - 1]))
  }

  /** The memtables after replaying es, rotated just before each of the positions, newest first; the
      entries before the first position have been flushed to tables. */
  function MemsOf(es: seq<Entry>, cuts: seq<nat>): seq<Run>
    requires CutsIn(cuts, |es|)
    decreases |cuts|
  {
    if cuts == [] then []
    else
      var c := cuts[|cuts| - 1];
      [PutAll([], es[c..])] + MemsOf(es[..c], cuts[..|cuts| - 1])
  }

  function FlushedOf(es: seq<Entry>, cuts: seq<nat>): seq<Entry>
    requires CutsIn(cuts, |es|)
    decreases |cuts|
  {
    if cuts == [] then es else FlushedOf(es[..cuts[|cuts| - 1]], cuts[..|cuts| - 1])
  }

  /** What a search returns after such a replay, behind tables that hold `base`. */
  ghost predicate Finds(base: set<Entry>, es: seq<Entry>, cuts: seq<nat>, user: Bytes, v: nat, r: Option<Entry>)
    requires CutsIn(cuts, |es|) && v <= MAX_UINT64
  {
    SearchAnswer(MemsOf(es, cuts), base + Elements(FlushedOf(es, cuts)), user, v, r)
  }

  ghost predicate ReadsRight(base: set<Entry>, es: seq<Entry>, cuts: seq<nat>, user: Bytes, v: nat)
    requires CutsIn(cuts, |es|) && v <= MAX_UINT64
  {
    forall r :: Finds(base, es, cuts, user, v, r) ==> IsAnswer(base + Elements(es), user, v, r)
  }

  /** A version in the tables or before position c that is newer than one behind c is replayed behind c too. */
  ghost predicate CleanOver(base: set<Entry>, es: seq<Entry>, c: nat)
    requires c <= |es|
  {
    forall e, f :: Overtakes(base, es, c, e, f) ==> e in Elements(es[c..])
  }

  ghost predicate Overtakes(base: set<Entry>, es: seq<Entry>, c: nat, e: Entry, f: Entry)
    requires c <= |es|
  {
    e in base + Elements(es[..c]) && f in Elements(es[c..]) && User(e) == User(f) && Ts(f) < Ts(e)
  }

  ghost predicate AllCleanOver(base: set<Entry>, es: seq<Entry>, cuts: seq<nat>)
  {
    forall k :: 0 <= k < |cuts| ==> cuts[k] <= |es| && CleanOver(base, es, cuts[k])
  }

  /** Replayed entries with tables behind them, equal keys meaning equal entries. */
  ghost predicate ReplayOk(base: set<Entry>, es: seq<Entry>)
  {
    EntriesOk(es) && Consistent(base + Elements(es)) && forall e :: e in base ==> |e.key| > 8
  }

  /** Reads after a replay are right, for every key and version, exactly when no rotation separated a
      newer version of a key, replayed before it or in the tables, from an older one behind it. */
  lemma ReplayReadsRight(base: set<Entry>, es: seq<Entry>, cuts: seq<nat>)
    requires ReplayOk(base, es) && CutsIn(cuts, |es|)
    ensures (forall user, v :: user != [] && 0 <= v <= MAX_UINT64 ==> ReadsRight(base, es, cuts, user, v)) <==>
            AllCleanOver(base, es, cuts)
  {
    hide Finds, Overtakes, IsAnswer, Elements, ReplayOk;
    forall k | 0 <= k < |cuts| ensures cuts[k] <= |es| { CutBelow(cuts, |es|, k); }
    if AllCleanOver(base, es, cuts) {
      forall user, v, r | user != [] && 0 <= v <= MAX_UINT64 && Finds(base, es, cuts, user, v, r)
        ensures IsAnswer(base + Elements(es), user, v, r)
      {
        forall k | 0 <= k < |cuts| ensures CleanUser(base, es, cuts[k], v, user) {
          assert CleanOver(base, es, cuts[k]);
        }
        CleanReads(base, es, cuts, user, v, r);
      }
    } else {
      var e, r := UncleanMisreads(base, es, cuts);
      assert !ReadsRight(base, es, cuts, User(e), Ts(e));
    }
  }

  /** Without tables that is the order of the log at every rotation. */
  lemma CleanOverLog(es: seq<Entry>, c: nat)
    requires EntriesOk(es) && c <= |es|
    ensures CleanOver({}, es, c) <==> Clean(es, c)
  {
    if Clean(es, c) {
      forall e, f ensures !Overtakes({}, es, c, e, f) {
        if e in es[..c] && f in es[c..] && User(e) == User(f) { AcrossClean(es, c, e, f); }
      }
    }
    if CleanOver({}, es, c) {
      forall i, j | 0 <= i < c <= j < |es| && User(es[i]) == User(es[j]) ensures Ts(es[i]) < Ts(es[j]) {
        assert es[..c][i] == es[i] && es[c..][j - c] == es[j];
        KeyRebuild(es[i].key); KeyRebuild(es[j].key);
        BehindDiffers(es, c, i);
        assert !Overtakes({}, es, c, es[i], es[j]);
      }
    }
  }

  lemma BehindDiffers(es: seq<Entry>, c: nat, i: nat)
    requires DistinctKeys(es) && i < c <= |es|
    ensures es[i] !in es[c..]
  {
    forall k | 0 <= k < |es[c..]| ensures es[c..][k] != es[i] { assert es[c + k].key != es[i].key; }
  }

  /** The newest memtable answers, or the rest does. */
  lemma FindsStep(base: set<Entry>, es: seq<Entry>, cuts: seq<nat>, user: Bytes, v: nat, r: Option<Entry>)
    requires cuts != [] && CutsIn(cuts, |es|) && v <= MAX_UINT64
    ensures var c, hit := cuts[|cuts| - 1], Lookup(PutAll([], es[cuts[|cuts| - 1]..]), KeyWithTs(user, v));
            Finds(base, es, cuts, user, v, r) <==>
              if hit.Some? then r == hit else Finds(base, es[..c], cuts[..|cuts| - 1], user, v, r)
  {
    hide PutAll, Lookup, KeyWithTs, IsAnswer, MemGet, MemsOf, FlushedOf;
    MemsStep(es, cuts);
    GetStep(PutAll([], es[cuts[|cuts| - 1]..]), MemsOf(es[..cuts[|cuts| - 1]], cuts[..|cuts| - 1]), KeyWithTs(user, v));
  }

  lemma MemsStep(es: seq<Entry>, cuts: seq<nat>)
    requires cuts != [] && CutsIn(cuts, |es|)
    ensures var c, rest := cuts[|cuts| - 1], cuts[..|cuts| - 1];
            CutsIn(rest, c) && MemsOf(es, cuts) == [PutAll([], es[c..])] + MemsOf(es[..c], rest) &&
            FlushedOf(es, cuts) == FlushedOf(es[..c], rest)
  {
    hide PutAll;
  }

  lemma GetStep(m: Run, mts: seq<Run>, key: Key)
    ensures MemGet([m] + mts, key) == if Lookup(m, key).Some? then Lookup(m, key) else MemGet(mts, key)
  {
    hide Lookup;
    assert ([m] + mts)[1..] == mts;
  }

  /** The newest memtable holds the entries behind the last position. */
  lemma NewestMem(es: seq<Entry>, c: nat, user: Bytes, v: nat)
    requires EntriesOk(es) && c <= |es| && user != [] && v <= MAX_UINT64
    ensures IsAnswer(Elements(es[c..]), user, v, Lookup(PutAll([], es[c..]), KeyWithTs(user, v)))
  {
    hide PutAll, Lookup, KeyWithTs, Sorted;
    var late := es[c..];
    forall e, f | e in Elements([]) + Elements(late) && f in Elements([]) + Elements(late) && e.key == f.key
      ensures e == f
    {
      var i :| 0 <= i < |late| && late[i] == e;
      var j :| 0 <= j < |late| && late[j] == f;
      assert es[c + i] == e && es[c + j] == f;
    }
    assert Sorted([]) by { NothingSorted(); }
    PutAllElements([], late);
    var m := PutAll([], late);
    forall e: Entry | e in m ensures |e.key| > 8 {
      assert e in Elements(m);
      var i :| 0 <= i < |late| && late[i] == e;
      assert es[c + i] == e;
    }
    LookupIn(m, user, v);
    assert Elements(m) == Elements(late);
  }

  lemma NothingSorted()
    ensures Sorted([])
  {
  }

  lemma SplitElements(es: seq<Entry>, c: nat)
    requires c <= |es|
    ensures Elements(es) == Elements(es[..c]) + Elements(es[c..])
  {
    assert es == es[..c] + es[c..];
  }

  lemma PrefixOk(es: seq<Entry>, c: nat)
    requires EntriesOk(es) && c <= |es|
    ensures EntriesOk(es[..c])
  {
  }

  lemma CutBelow(cuts: seq<nat>, n: nat, k: nat)
    requires CutsIn(cuts, n) && k < |cuts|
    ensures cuts[k] <= cuts[|cuts| - 1] <= n
    decreases |cuts|
  {
    if k < |cuts| - 1 { CutBelow(cuts[..|cuts| - 1], cuts[|cuts| - 1], k); }
  }

  /** Across a clean position, the version behind it is the newer one. */
  lemma AcrossClean(es: seq<Entry>, c: nat, e: Entry, f: Entry)
    requires c <= |es| && Clean(es, c) && e in es[..c] && f in es[c..] && User(e) == User(f)
    ensures Ts(e) < Ts(f)
  {
    var i :| 0 <= i < c && es[..c][i] == e;
    var j :| 0 <= j < |es[c..]| && es[c..][j] == f;
    assert es[i] == e && es[c + j] == f;
  }

  lemma PrefixReplay(base: set<Entry>, es: seq<Entry>, c: nat)
    requires ReplayOk(base, es) && c <= |es|
    ensures ReplayOk(base, es[..c])
  {
    PrefixOk(es, c);
    SplitElements(es, c);
  }

  /** When everything behind position c is newer than v, only what lies before c matters up to v. */
  lemma CleanBefore(base: set<Entry>, es: seq<Entry>, c: nat, p: nat, v: nat, user: Bytes)
    requires p <= c <= |es| && CleanUser(base, es, p, v, user)
    requires forall f :: f in Elements(es[c..]) && User(f) == user ==> Ts(f) > v
    ensures CleanUser(base, es[..c], p, v, user)
  {
    assert es[..c][..p] == es[..p] && es[p..] == es[..c][p..] + es[c..];
    forall e, f | Overtakes(base, es[..c], p, e, f) && User(e) == user && Ts(e) <= v
      ensures e in Elements(es[..c][p..])
    {
      assert Overtakes(base, es, p, e, f);
      assert e !in Elements(es[c..]);
    }
  }

  ghost predicate CleanUser(base: set<Entry>, es: seq<Entry>, c: nat, v: nat, user: Bytes)
    requires c <= |es|
  {
    forall e, f :: Overtakes(base, es, c, e, f) && User(e) == user && Ts(e) <= v ==> e in Elements(es[c..])
  }

  lemma {:induction false} CleanReads(base: set<Entry>, es: seq<Entry>, cuts: seq<nat>, user: Bytes, v: nat,
      r: Option<Entry>)
    requires ReplayOk(base, es) && CutsIn(cuts, |es|) && user != [] && v <= MAX_UINT64
    requires forall k :: 0 <= k < |cuts| ==> cuts[k] <= |es| && CleanUser(base, es, cuts[k], v, user)
    requires Finds(base, es, cuts, user, v, r)
    ensures IsAnswer(base + Elements(es), user, v, r)
    decreases |cuts|
  {
    hide PutAll, Lookup, KeyWithTs, ReplayOk;
    if cuts == [] {
      assert MemsOf(es, cuts) == [];
    } else {
      hide Finds;
      var c, rest := cuts[|cuts| - 1], cuts[..|cuts| - 1];
      FindsStep(base, es, cuts, user, v, r);
      assert EntriesOk(es) by { ReplayParts(base, es); }
      NewestMem(es, c, user, v);
      SplitElements(es, c);
      assert CleanUser(base, es, c, v, user);
      if Lookup(PutAll([], es[c..]), KeyWithTs(user, v)).Some? {
        var late := Elements(es[c..]);
        forall e | e in base + Elements(es) && User(e) == user && Ts(e) <= v ensures Ts(e) <= Ts(r.value) {
          assert e in late || !Overtakes(base, es, c, e, r.value);
        }
      } else {
        PrefixReplay(base, es, c);
        forall k | 0 <= k < |rest| ensures rest[k] <= c && CleanUser(base, es[..c], rest[k], v, user) {
          CutBelow(cuts, |es|, k);
          CleanBefore(base, es, c, cuts[k], v, user);
        }
        CleanReads(base, es[..c], rest, user, v, r);
      }
    }
  }

  lemma ReplayParts(base: set<Entry>, es: seq<Entry>)
    requires ReplayOk(base, es)
    ensures EntriesOk(es)
  {
  }

  /** A version up to v behind a rotation makes the search end behind that rotation. */
  lemma {:induction false} HitBehind(base: set<Entry>, es: seq<Entry>, cuts: seq<nat>, k: nat, f: Entry, v: nat)
    returns (r: Option<Entry>)
    requires EntriesOk(es) && CutsIn(cuts, |es|) && k < |cuts| && cuts[k] <= |es| && v <= MAX_UINT64
    requires f in Elements(es[cuts[k]..]) && User(f) != [] && Ts(f) <= v
    ensures Finds(base, es, cuts, User(f), v, r) && r.Some? && r.value in Elements(es[cuts[k]..])
    ensures User(r.value) == User(f)
    decreases |cuts|
  {
    hide Finds, PutAll, Lookup, KeyWithTs, EntriesOk;
    var c, rest, user := cuts[|cuts| - 1], cuts[..|cuts| - 1], User(f);
    CutBelow(cuts, |es|, k);
    NewestMem(es, c, user, v);
    assert es[cuts[k]..] == es[..c][cuts[k]..] + es[c..];
    r := Lookup(PutAll([], es[c..]), KeyWithTs(user, v));
    if r == None {
      PrefixOk(es, c);
      r := HitBehind(base, es[..c], rest, k, f, v);
    }
    FindsStep(base, es, cuts, user, v, r);
  }

  /** Otherwise some version is passed over for an older one. */
  lemma UncleanMisreads(base: set<Entry>, es: seq<Entry>, cuts: seq<nat>) returns (e: Entry, r: Option<Entry>)
    requires ReplayOk(base, es) && CutsIn(cuts, |es|) && (forall k :: 0 <= k < |cuts| ==> cuts[k] <= |es|)
    requires !AllCleanOver(base, es, cuts)
    ensures e in base + Elements(es) && User(e) != [] && Ts(e) <= MAX_UINT64
    ensures Finds(base, es, cuts, User(e), Ts(e), r) && !IsAnswer(base + Elements(es), User(e), Ts(e), r)
  {
    hide Finds, ReplayOk, Overtakes, IsAnswer;
    var k :| 0 <= k < |cuts| && !CleanOver(base, es, cuts[k]);
    var f;
    e, f :| Overtakes(base, es, cuts[k], e, f) && e !in Elements(es[cuts[k]..]);
    r := MisreadAt(base, es, cuts, k, e, f);
  }

  lemma MisreadAt(base: set<Entry>, es: seq<Entry>, cuts: seq<nat>, k: nat, e: Entry, f: Entry)
    returns (r: Option<Entry>)
    requires ReplayOk(base, es) && CutsIn(cuts, |es|) && k < |cuts| && cuts[k] <= |es|
    requires Overtakes(base, es, cuts[k], e, f) && e !in Elements(es[cuts[k]..])
    ensures e in base + Elements(es) && User(e) != [] && Ts(e) <= MAX_UINT64
    ensures Finds(base, es, cuts, User(e), Ts(e), r) && !IsAnswer(base + Elements(es), User(e), Ts(e), r)
  {
    hide Finds, KeyWithTs;
    SplitElements(es, cuts[k]);
    KeyRebuild(e.key);
    r := HitBehind(base, es, cuts, k, f, Ts(e));
    assert Ts(r.value) == Ts(e) ==> r.value.key == e.key by { KeyRebuild(r.value.key); }
  }

  // ---------- the sequence counter ----------

  /** What moves the counter while the log is replayed: an entry with its timestamp, or a rotation of
      the memtable, successful or not. */
  datatype Event = Saw(ts: nat) | Bump

  function Tick(c: nat, e: Event): nat { if e.Bump? || e.ts > c then c + 1 else c }

  function Counter(c: nat, es: seq<Event>): nat
    decreases |es|
  {
    if es == [] then c else Counter(Tick(c, es[0]), es[1..])
  }

  /** Growing positions of events that can each take the counter one further: the k-th one is a bump
      or an entry newer than c + k. */
  ghost predicate Ladder(c: nat, es: seq<Event>, ps: seq<nat>)
  {
    && (forall k :: 0 <= k < |ps| ==> ps[k] < |es| && (es[ps[k]].Bump? || es[ps[k]].ts > c + k))
    && (forall k, l :: 0 <= k < l < |ps| ==> ps[k] < ps[l])
  }

  /** The counter reaches m exactly when the replay contains a ladder up to m. */
  lemma CounterReaches(c: nat, es: seq<Event>, m: nat)
    requires m >= c
    ensures Counter(c, es) >= m <==> exists ps :: |ps| == m - c && Ladder(c, es, ps)
  {
    if Counter(c, es) >= m {
      var ps := Climb(c, es);
      LadderPart(c, es, ps, m - c);
    }
    if ps: seq<nat> :| |ps| == m - c && Ladder(c, es, ps) {
      LadderBound(c, es, ps);
    }
  }

  lemma LadderPart(c: nat, es: seq<Event>, ps: seq<nat>, n: nat)
    requires Ladder(c, es, ps) && n <= |ps|
    ensures Ladder(c, es, ps[..n]) && |ps[..n]| == n
  {
  }

  function Shifted(ps: seq<nat>, up: bool): (qs: seq<nat>)
    requires !up ==> forall k :: 0 <= k < |ps| ==> ps[k] > 0
    ensures |qs| == |ps| && forall k :: 0 <= k < |ps| ==> qs[k] == if up then ps[k] + 1 else ps[k] - 1
  {
    seq(|ps|, k requires 0 <= k < |ps| => if up then ps[k] + 1 else ps[k] - 1)
  }

  lemma {:induction false} Climb(c: nat, es: seq<Event>) returns (ps: seq<nat>)
    ensures Ladder(c, es, ps) && Counter(c, es) == c + |ps|
    decreases |es|
  {
    ps := [];
    if es != [] {
      var qs := Climb(Tick(c, es[0]), es[1..]);
      var up := Shifted(qs, true);
      ps := if Tick(c, es[0]) > c then [0] + up else up;
      forall k | 0 <= k < |ps| ensures ps[k] < |es| && (es[ps[k]].Bump? || es[ps[k]].ts > c + k) {
        var l := if Tick(c, es[0]) > c then k - 1 else k;
        if l >= 0 { assert ps[k] == up[l] == qs[l] + 1 && es[1..][qs[l]] == es[ps[k]]; }
      }
      if Tick(c, es[0]) > c {
        forall k, l | 0 <= k < l < |ps| ensures ps[k] < ps[l] {
          if k > 0 { assert qs[k - 1] < qs[l - 1]; }
        }
      }
    }
  }

  lemma {:induction false} LadderBound(c: nat, es: seq<Event>, ps: seq<nat>)
    requires Ladder(c, es, ps)
    ensures Counter(c, es) >= c + |ps|
    decreases |es|
  {
    assert |ps| > 0 ==> ps[0] < |es|;
    if es == [] {
    } else if Tick(c, es[0]) > c {
      if ps == [] {
        LadderBound(c + 1, es[1..], []);
      } else {
        assert forall k :: 0 < k < |ps| ==> ps[k] > ps[0];
        var qs := Shifted(ps[1..], false);
        LadderTail(c, c + 1, es, ps[1..], qs, 1);
        LadderBound(c + 1, es[1..], qs);
      }
    } else {
      assert forall k :: 0 <= k < |ps| ==> ps[k] > 0;
      var qs := Shifted(ps, false);
      assert ps[0..] == ps;
      LadderTail(c, c, es, ps, qs, 0);
      LadderBound(c, es[1..], qs);
    }
  }

  /** Without its first event and its first rung, a ladder still leads as far. */
  lemma LadderTail(c: nat, c': nat, es: seq<Event>, ps: seq<nat>, qs: seq<nat>, d: nat)
    requires es != [] && c' == c + d && |qs| == |ps| && (forall k :: 0 <= k < |ps| ==> ps[k] > 0 && qs[k] == ps[k] - 1)
    requires forall k :: 0 <= k < |ps| ==> ps[k] < |es| && (es[ps[k]].Bump? || es[ps[k]].ts > c + d + k)
    requires forall k, l :: 0 <= k < l < |ps| ==> ps[k] < ps[l]
    ensures Ladder(c', es[1..], qs)
  {
    forall k | 0 <= k < |qs| ensures qs[k] < |es[1..]| && (es[1..][qs[k]].Bump? || es[1..][qs[k]].ts > c' + k) {
      assert es[1..][qs[k]] == es[ps[k]];
    }
  }

  ghost predicate CoveredBy(es: seq<Event>, m: nat) { forall i :: 0 <= i < |es| && es[i].Saw? ==> es[i].ts <= m }

  /** After replay the counter covers every version exactly when, for each of them, the replay contains a
      ladder up to its timestamp. */
  lemma RecoveredCounter(c: nat, es: seq<Event>)
    ensures CoveredBy(es, Counter(c, es)) <==>
            forall i :: 0 <= i < |es| && es[i].Saw? && es[i].ts > c ==>
              exists ps :: |ps| == es[i].ts - c && Ladder(c, es, ps)
  {
    hide Ladder;
    LadderZero(c, es);
    forall i | 0 <= i < |es| && es[i].Saw? && es[i].ts > c
      ensures es[i].ts <= Counter(c, es) <==> exists ps :: |ps| == es[i].ts - c && Ladder(c, es, ps)
    {
      CounterReaches(c, es, es[i].ts);
    }
  }

  lemma LadderZero(c: nat, es: seq<Event>)
    ensures Counter(c, es) >= c
  {
    LadderBound(c, es, []);
  }

  /** Without rotations, and with all timestamps distinct and above the start, the counter covers them
      exactly when the log lists c + 1, c + 2, and so on, in this order. */
  lemma {:induction false} CounterInOrder(c: nat, es: seq<Event>)
    requires forall i :: 0 <= i < |es| ==> es[i].Saw? && es[i].ts > c
    requires forall i, j :: 0 <= i < j < |es| ==> es[i].ts != es[j].ts
    ensures CoveredBy(es, Counter(c, es)) <==> forall i :: 0 <= i < |es| ==> es[i].ts == c + 1 + i
    decreases |es|
  {
    hide Counter;
    var n := |es|;
    if n > 0 {
      var last := n - 1;
      CounterSnoc(c, es[..last], es[last]);
      assert es == es[..last] + [es[last]];
      CounterAtMost(c, es[..last]);
      CounterInOrder(c, es[..last]);
      if CoveredBy(es, Counter(c, es)) {
        LastIsTop(c, es);
        forall i | 0 <= i < last ensures es[..last][i].ts <= Counter(c, es[..last]) { assert es[i].ts != es[last].ts; }
        assert CoveredBy(es[..last], Counter(c, es[..last]));
      }
      if forall i :: 0 <= i < |es| ==> es[i].ts == c + 1 + i {
        CountsUp(c, es);
      }
    }
  }

  lemma {:induction false} CountsUp(c: nat, es: seq<Event>)
    requires forall i :: 0 <= i < |es| ==> es[i].Saw? && es[i].ts == c + 1 + i
    ensures Counter(c, es) == c + |es|
    decreases |es|
  {
    if es != [] { CountsUp(c + 1, es[1..]); }
  }

  lemma {:induction false} CounterSnoc(c: nat, es: seq<Event>, e: Event)
    ensures Counter(c, es + [e]) == Tick(Counter(c, es), e)
    decreases |es|
  {
    if es == [] {
      assert [] + [e] == [e] && [e][1..] == [];
      assert Counter(c, [e]) == Counter(Tick(c, e), [e][1..]);
    } else {
      assert (es + [e])[1..] == es[1..] + [e];
      CounterSnoc(Tick(c, es[0]), es[1..], e);
    }
  }

  lemma {:induction false} CounterAtMost(c: nat, es: seq<Event>)
    ensures Counter(c, es) <= c + |es|
    decreases |es|
  {
    if es != [] { CounterAtMost(Tick(c, es[0]), es[1..]); }
  }

  /** Distinct covered timestamps fill the range, so each event counts and the last one is the top. */
  lemma LastIsTop(c: nat, es: seq<Event>)
    requires es != [] && forall i :: 0 <= i < |es| ==> es[i].Saw? && es[i].ts > c
    requires forall i, j :: 0 <= i < j < |es| ==> es[i].ts != es[j].ts
    requires CoveredBy(es, Counter(c, es))
    ensures es[|es| - 1].ts == c + |es| == Counter(c, es)
  {
    var last := |es| - 1;
    Pigeons(c, es, Counter(c, es));
    CounterAtMost(c, es);
    CounterSnoc(c, es[..last], es[last]);
    assert es == es[..last] + [es[last]];
    CounterAtMost(c, es[..last]);
  }

  /** n distinct timestamps above c and up to m need m >= c + n. */
  lemma {:induction false} Pigeons(c: nat, es: seq<Event>, m: nat)
    requires forall i :: 0 <= i < |es| ==> es[i].Saw? && c < es[i].ts <= m
    requires forall i, j :: 0 <= i < j < |es| ==> es[i].ts != es[j].ts
    ensures es != [] ==> m >= c + |es|
  {
    SubsetSize(Stamps(es), Range(c, m));
  }

  function Stamps(es: seq<Event>): (r: set<nat>)
    requires forall i :: 0 <= i < |es| ==> es[i].Saw?
    ensures forall t :: t in r <==> exists i :: 0 <= i < |es| && es[i].ts == t
    ensures (forall i, j :: 0 <= i < j < |es| ==> es[i].ts != es[j].ts) ==> |r| == |es|
  {
    if es == [] then {}
    else
      var n := |es| - 1;
      assert forall i :: 0 <= i < n ==> es[..n][i] == es[i];
      Stamps(es[..n]) + {es[n].ts}
  }

  function Range(c: nat, m: nat): (r: set<nat>)
    ensures forall t :: t in r <==> c < t <= m
    ensures |r| == if m > c then m - c else 0
  {
    if m <= c then {} else Range(c, m - 1) + {m}
  }

  lemma {:induction false} SubsetSize(a: set<nat>, b: set<nat>)
    requires a <= b
    ensures |a| <= |b|
  {
    if |a| > 0 {
      var x :| x in a;
      SubsetSize(a - {x}, b - {x});
    }
  }

  // ---------- the counter in a run ----------

  /** The event of one step of a replay, if it moves the counter. */
  ghost function EventOf(s: State, step: Step): seq<Event>
  {
    match step
    case ReplaySee => if s.applied < |s.log| then [Saw(Ts(s.log[s.applied]))] else []
    case Rotate => [Bump]
    case NoRoom => [Bump]
    case _ => []
  }

  ghost function EventsOf(states: seq<State>, steps: seq<Step>, i: nat, n: nat): seq<Event>
    requires |states| == |steps| + 1 && i <= n <= |steps|
  {
    if i == n then [] else EventsOf(states, steps, i, n - 1) + EventOf(states[n - 1], steps[n - 1])
  }

  /** In any run, while replay lasts, the counter is that of the events so far. */
  lemma {:induction false} ReplayCounts(states: seq<State>, steps: seq<Step>, i: nat, n: nat)
    requires IsRun(states, steps) && i <= n <= |steps|
    requires forall k :: i <= k < n ==> states[k].mode == Replaying && !steps[k].Crash?
    ensures states[n].seqNumber == Counter(states[i].seqNumber, EventsOf(states, steps, i, n))
  {
    hide Enabled, After, Counter, EventOf;
    if i == n {
      CounterStart(states[i].seqNumber);
    } else {
      ReplayCounts(states, steps, i, n - 1);
      assert Enabled(states[n - 1], steps[n - 1]) && states[(n - 1) + 1] == After(states[n - 1], steps[n - 1]);
      var es, s, step := EventsOf(states, steps, i, n - 1), states[n - 1], steps[n - 1];
      CounterStep(states[i].seqNumber, es, s, step);
    }
  }

  lemma CounterStart(c: nat)
    ensures Counter(c, []) == c
  {
  }

  lemma CounterStep(c: nat, es: seq<Event>, s: State, step: Step)
    requires Enabled(s, step) && s.mode == Replaying && !step.Crash? && s.seqNumber == Counter(c, es)
    ensures After(s, step).seqNumber == Counter(c, es + EventOf(s, step))
  {
    hide Counter;
    var more := EventOf(s, step);
    if more == [] { assert es + more == es; } else { CounterSnoc(c, es, more[0]); assert more == [more[0]]; }
  }

  /** How far replay has looked into the log. */
  function Looked(s: State): nat { if s.seen then s.applied + 1 else s.applied }

  function StampsOf(es: seq<Entry>): seq<nat> { seq(|es|, i requires 0 <= i < |es| => Ts(es[i])) }

  /** The timestamps among the events, in order. */
  function SawIn(es: seq<Event>): seq<nat>
    decreases |es|
  {
    if es == [] then []
    else
      var n := |es| - 1;
      SawIn(es[..n]) + if es[n].Saw? then [es[n].ts] else []
  }

  lemma {:induction false} LookedInside(states: seq<State>, steps: seq<Step>, n: nat)
    requires IsRun(states, steps) && n < |states|
    ensures Looked(states[n]) <= |states[n].log| && (states[n].seen ==> states[n].mode == Replaying)
  {
    if n > 0 {
      LookedInside(states, steps, n - 1);
      assert Enabled(states[n - 1], steps[n - 1]) && states[(n - 1) + 1] == After(states[n - 1], steps[n - 1]);
    }
  }

  /** A replay takes note of the log entry by entry, each exactly once and in log order. */
  lemma {:induction false} ReplaySees(states: seq<State>, steps: seq<Step>, i: nat, n: nat)
    requires IsRun(states, steps) && i <= n <= |steps|
    requires forall k :: i <= k < n ==> states[k].mode == Replaying && !steps[k].Crash?
    ensures states[n].log == states[i].log && Looked(states[i]) <= Looked(states[n]) <= |states[n].log|
    ensures SawIn(EventsOf(states, steps, i, n)) == StampsOf(states[n].log[Looked(states[i])..Looked(states[n])])
  {
    hide Enabled, After, EventOf, SawIn, StampsOf;
    LookedInside(states, steps, n);
    if i == n {
      assert states[n].log[Looked(states[i])..Looked(states[n])] == [];
      NoStamps();
    } else {
      ReplaySees(states, steps, i, n - 1);
      var s, step := states[n - 1], steps[n - 1];
      assert Enabled(s, step) && states[(n - 1) + 1] == After(s, step);
      SeesStep(EventsOf(states, steps, i, n - 1), s, step, Looked(states[i]));
    }
  }

  lemma NoStamps()
    ensures SawIn([]) == [] == StampsOf([])
  {
  }

  lemma SeesStep(es: seq<Event>, s: State, step: Step, from: nat)
    requires Enabled(s, step) && s.mode == Replaying && !step.Crash? && from <= Looked(s) <= |s.log|
    requires SawIn(es) == StampsOf(s.log[from..Looked(s)])
    ensures var s' := After(s, step);
            s'.log == s.log && Looked(s) <= Looked(s') <= |s.log| &&
            SawIn(es + EventOf(s, step)) == StampsOf(s.log[from..Looked(s')])
  {
    hide SawIn, StampsOf;
    var more := EventOf(s, step);
    if more == [] { assert es + more == es; } else { assert more == [more[0]]; SawSnoc(es, more[0]); }
    if step.ReplaySee? { StampsSnoc(s.log, from, s.applied); }
  }

  lemma SawSnoc(es: seq<Event>, e: Event)
    ensures SawIn(es + [e]) == SawIn(es) + if e.Saw? then [e.ts] else []
  {
    assert (es + [e])[..|es|] == es;
  }

  lemma StampsSnoc(log: seq<Entry>, from: nat, to: nat)
    requires from <= to < |log|
    ensures StampsOf(log[from..to + 1]) == StampsOf(log[from..to]) + [Ts(log[to])]
  {
    assert log[from..to + 1] == log[from..to] + [log[to]];
  }

  /** After a crash the counter starts from the newest published table, and sees the log from the position that
      table names. */
  lemma ReplayAfterCrash(states: seq<State>, steps: seq<Step>, k: nat, n: nat)
    requires IsRun(states, steps) && k < n <= |steps| && steps[k] == Crash
    requires forall i :: k < i < n ==> states[i].mode == Replaying && !steps[i].Crash?
    ensures var s, from := states[k], Best(states[k].published);
            && states[n].log == s.log && Min(from.vp, |s.log|) <= Looked(states[n]) <= |s.log|
            && states[n].seqNumber == Counter(from.seqNum, EventsOf(states, steps, k + 1, n))
            && SawIn(EventsOf(states, steps, k + 1, n)) == StampsOf(s.log[Min(from.vp, |s.log|)..Looked(states[n])])
  {
    hide Enabled, Counter, SawIn, StampsOf, EventsOf, Best;
    assert Enabled(states[k], steps[k]) && states[k + 1] == After(states[k], steps[k]);
    ReplayCounts(states, steps, k + 1, n);
    ReplaySees(states, steps, k + 1, n);
  }

  // ---------- reading the latest state ----------

  /** The counter covers everything that is logged. */
  ghost predicate Covered(s: State) { forall i :: 0 <= i < |s.log| ==> Ts(s.log[i]) <= s.seqNumber }

  lemma CoveredStep(s: State, step: Step)
    requires Covered(s) && Enabled(s, step) && !step.Crash?
    ensures Covered(After(s, step))
  {
    if step.LogAppend? {
      var log := s.log + step.batch;
      forall i | 0 <= i < |log| ensures Ts(log[i]) <= s.seqNumber {
        if i >= |s.log| { assert log[i] == step.batch[i - |s.log|]; }
      }
    }
  }

  /** Once the counter covers the log it does so until the next crash; at the start of a run it does. */
  lemma {:induction false} CounterCovers(states: seq<State>, steps: seq<Step>, i: nat, n: nat)
    requires IsRun(states, steps) && i <= n < |states| && forall k :: i <= k < n ==> !steps[k].Crash?
    requires i == 0 || Covered(states[i])
    ensures Covered(states[n])
  {
    hide Enabled, After;
    if n > i {
      CounterCovers(states, steps, i, n - 1);
      assert Enabled(states[n - 1], steps[n - 1]) && states[(n - 1) + 1] == After(states[n - 1], steps[n - 1]);
      CoveredStep(states[n - 1], steps[n - 1]);
    }
  }

  /** A read of the latest version, which asks for the counter, finds the newest version of a key exactly
      when the counter covers it. Otherwise it finds the newest one that is covered, or nothing when
      none is. */
  lemma LatestRead(s: set<Entry>, e: Entry, counter: nat, r: Option<Entry>)
    requires e in s && (forall f :: f in s && User(f) == User(e) && f != e ==> Ts(f) < Ts(e))
    requires IsAnswer(s, User(e), counter, r)
    ensures r == Some(e) <==> Ts(e) <= counter
    ensures r == None <==> forall f :: f in s && User(f) == User(e) ==> Ts(f) > counter
    ensures Ts(e) > counter && r.Some? ==> Ts(r.value) < Ts(e) && IsAnswer(s - {e}, User(e), counter, r)
  {
  }
}

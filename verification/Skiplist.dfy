/** The shape of a skiplist in its arena, and searching it one read at a time.
    Nodes live at arena offsets; offset 0 is the nil node. */
module SkiplistShape {
  import opened Bytes
  import opened Keys
  import opened Values
  import opened Runs

  const MAX_HEIGHT: nat := 20

  datatype Node = Node(key: Bytes, vs: ValueStruct, tower: seq<nat>)
  type Memory = map<nat, Node>

  /** A node other than the head that takes part in level l. */
  predicate Cell(m: Memory, o: nat, l: nat)
  {
    o != 0 && o in m && |m[o].key| >= 8 && l < |m[o].tower|
  }

  function Before(head: nat, xs: seq<nat>, i: nat): nat
    requires i <= |xs|
  {
    if i == 0 then head else xs[i - 1]
  }

  function After(xs: seq<nat>, i: nat): nat { if i < |xs| then xs[i] else 0 }

  ghost predicate Contains(ys: seq<nat>, xs: seq<nat>) { forall x :: x in xs ==> x in ys }

  /** Following level l from the head visits exactly xs, in strictly increasing key order. */
  ghost predicate LevelOk(m: Memory, head: nat, xs: seq<nat>, l: nat)
  {
    && head in m && l < |m[head].tower|
    && (forall i :: 0 <= i < |xs| ==> xs[i] != head && Cell(m, xs[i], l))
    && Ascending(m, xs)
    && (forall i :: 0 <= i <= |xs| ==> m[Before(head, xs, i)].tower[l] == After(xs, i))
  }

  ghost predicate Ascending(m: Memory, xs: seq<nat>)
    requires forall i :: 0 <= i < |xs| ==> xs[i] in m && |m[xs[i]].key| >= 8
  {
    forall i, j :: 0 <= i < j < |xs| ==> Less(m[xs[i]].key, m[xs[j]].key)
  }

  /** Each level is a sorted sublist of every level below it. */
  ghost predicate WellFormed(m: Memory, head: nat, height: nat, levels: seq<seq<nat>>)
  {
    && 1 <= height <= MAX_HEIGHT && |levels| == MAX_HEIGHT && head != 0
    && (forall l :: 0 <= l < MAX_HEIGHT ==> LevelOk(m, head, levels[l], l))
    && (forall l :: height <= l < MAX_HEIGHT ==> levels[l] == [])
    && (forall l, u :: 0 <= l < u < MAX_HEIGHT ==> Contains(levels[l], levels[u]))
  }

  ghost function Entries(m: Memory, xs: seq<nat>): (r: Run)
    requires forall i :: 0 <= i < |xs| ==> Cell(m, xs[i], 0)
    ensures |r| == |xs|
  {
    seq(|xs|, i requires 0 <= i < |xs| && Cell(m, xs[i], 0) => Entry(m[xs[i]].key, m[xs[i]].vs))
  }

  lemma EntriesSorted(m: Memory, head: nat, xs: seq<nat>)
    requires LevelOk(m, head, xs, 0)
    ensures Sorted(Entries(m, xs))
  {
  }

  ghost function IndexOf(xs: seq<nat>, x: nat): (i: nat)
    requires x in xs
    ensures i < |xs| && xs[i] == x
  {
    var i: nat :| i < |xs| && xs[i] == x; i
  }

  // ---------- a search, one tower read a step ----------

  datatype Reader =
    | Searching(x: nat, level: nat)
    | AfterEqual(node: nat)
    | Answer(found: nat, equal: bool)

  /** What a step may dereference. */
  predicate Readable(m: Memory, r: Reader)
  {
    match r
    case Searching(x, l) => x in m && l < |m[x].tower| && (m[x].tower[l] != 0 ==> Cell(m, m[x].tower[l], 0))
    case AfterEqual(x) => x in m && 0 < |m[x].tower|
    case Answer(_, _) => true
  }

  /** One turn of the loop of findNear. */
  function SearchStep(m: Memory, head: nat, key: Key, less: bool, allowEqual: bool, r: Reader): Reader
    requires Readable(m, r)
  {
    match r
    case Answer(_, _) => r
    case AfterEqual(x) => Answer(m[x].tower[0], false)
    case Searching(x, level) =>
      var next := m[x].tower[level];
      var cmp := if next == 0 then -1 else CompareKeys(key, m[next].key);
      if cmp > 0 then Searching(next, level)
      else if cmp == 0 && allowEqual then Answer(next, true)
      else if cmp == 0 && !less then AfterEqual(next)
      else if level > 0 then Searching(x, level - 1)
      else if !less then Answer(next, false)
      else Answer(if x == head then 0 else x, false)
  }

  /** Where a search stands: everything up to x is before the key. */
  ghost predicate OnTrack(m: Memory, head: nat, levels: seq<seq<nat>>, key: Key, less: bool, allowEqual: bool,
      r: Reader)
    requires |levels| == MAX_HEIGHT
  {
    match r
    case Searching(x, l) =>
      l < MAX_HEIGHT && (x == head || (x in levels[l] && x in m && |m[x].key| >= 8 && Less(m[x].key, key)))
    case AfterEqual(x) => !less && !allowEqual && x in levels[0] && x in m && m[x].key == key
    case Answer(_, _) => true
  }

  /** The answer is the node nearest to the key, in the memory of this moment. */
  ghost predicate AnswerOk(m: Memory, xs: seq<nat>, key: Key, less: bool, allowEqual: bool, found: nat, equal: bool)
    requires forall i :: 0 <= i < |xs| ==> Cell(m, xs[i], 0)
  {
    exists i :: Near(Entries(m, xs), key, less, allowEqual, i) &&
                found == (if i == -1 then 0 else xs[i]) &&
                (equal <==> i != -1 && m[xs[i]].key == key)
  }

  lemma OnTrackReadable(m: Memory, head: nat, height: nat, levels: seq<seq<nat>>,
                        key: Key, less: bool, allowEqual: bool, r: Reader)
    requires WellFormed(m, head, height, levels) && OnTrack(m, head, levels, key, less, allowEqual, r)
    ensures Readable(m, r)
  {
    match r
    case Searching(x, l) =>
      assert LevelOk(m, head, levels[l], l);
      var p := Position(head, levels[l], x);
      assert x == Before(head, levels[l], p);
      if p < |levels[l]| { assert Cell(m, levels[l][p], l); }
    case AfterEqual(x) => assert LevelOk(m, head, levels[0], 0);
    case Answer(_, _) =>
  }

  /** How many nodes of the level a reader at x has passed. */
  ghost function Position(head: nat, xs: seq<nat>, x: nat): (p: nat)
    requires x == head || x in xs
    ensures p <= |xs| && x == Before(head, xs, p)
  {
    if x == head then 0 else IndexOf(xs, x) + 1
  }

  /** Between two neighbours of the base level. */
  lemma AtGap(m: Memory, head: nat, xs: seq<nat>, key: Key, less: bool, allowEqual: bool, p: nat)
    requires LevelOk(m, head, xs, 0) && p <= |xs|
    requires p > 0 ==> Less(m[xs[p - 1]].key, key)
    requires p < |xs| ==> Less(key, m[xs[p]].key)
    ensures AnswerOk(m, xs, key, less, allowEqual,
                     if !less then After(xs, p) else if p == 0 then 0 else xs[p - 1], false)
  {
    EntriesSorted(m, head, xs);
    NearFromGap(Entries(m, xs), key, less, allowEqual, p);
    LessTotal(key, key);
    var i := if less then p - 1 else if p < |xs| then p else -1;
    assert i != -1 ==> m[xs[i]].key != key;
  }

  lemma SearchStepSound(m: Memory, head: nat, height: nat, levels: seq<seq<nat>>,
                        key: Key, less: bool, allowEqual: bool, r: Reader)
    requires WellFormed(m, head, height, levels) && OnTrack(m, head, levels, key, less, allowEqual, r)
    requires !r.Answer?
    ensures Readable(m, r)
    ensures forall i :: 0 <= i < |levels[0]| ==> Cell(m, levels[0][i], 0)
    ensures var r' := SearchStep(m, head, key, less, allowEqual, r);
            OnTrack(m, head, levels, key, less, allowEqual, r') &&
            (r'.Answer? ==> AnswerOk(m, levels[0], key, less, allowEqual, r'.found, r'.equal))
  {
    OnTrackReadable(m, head, height, levels, key, less, allowEqual, r);
    assert LevelOk(m, head, levels[0], 0);
    match r
    case AfterEqual(x) => AtEqual(m, head, levels[0], key, less, false, x);
    case Searching(x, level) =>
      assert LevelOk(m, head, levels[level], level);
      assert Contains(levels[0], levels[level]);
      SearchingSound(m, head, levels[0], levels[level], level, key, less, allowEqual, x);
  }

  /** One turn of the loop on level `level`, whose nodes are xs; the base level holds `base`. */
  lemma SearchingSound(m: Memory, head: nat, base: seq<nat>, xs: seq<nat>, level: nat,
                       key: Key, less: bool, allowEqual: bool, x: nat)
    requires LevelOk(m, head, base, 0) && LevelOk(m, head, xs, level)
    requires Contains(base, xs) && (level == 0 ==> xs == base)
    requires x == head || (x in xs && Less(m[x].key, key))
    requires Readable(m, Searching(x, level))
    ensures var r' := SearchStep(m, head, key, less, allowEqual, Searching(x, level));
            match r'
            case Searching(y, l) =>
              (l == level && y in xs && Less(m[y].key, key)) || (0 <= l == level - 1 && y == x)
            case AfterEqual(y) => !less && !allowEqual && y in base && m[y].key == key
            case Answer(found, equal) => AnswerOk(m, base, key, less, allowEqual, found, equal)
  {
    var p := Position(head, xs, x);
    var next := m[x].tower[level];
    assert next == After(xs, p);
    if next != 0 {
      assert next in xs && Cell(m, next, level);
      LessTotal(key, m[next].key);
      if key == m[next].key {
        AtEqual(m, head, base, key, less, allowEqual, next);
      }
    }
    if level == 0 && (next == 0 || Less(key, m[next].key)) {
      AtGap(m, head, xs, key, less, allowEqual, p);
    }
  }

  /** Near an equal node: itself, its predecessor or its successor. */
  lemma AtEqual(m: Memory, head: nat, xs: seq<nat>, key: Key, less: bool, allowEqual: bool, x: nat)
    requires LevelOk(m, head, xs, 0) && x in xs && m[x].key == key
    ensures allowEqual ==> AnswerOk(m, xs, key, less, true, x, true)
    ensures !allowEqual && !less ==> AnswerOk(m, xs, key, less, false, m[x].tower[0], false)
    ensures forall p :: 0 <= p < |xs| && xs[p] == x && !allowEqual && less ==>
              AnswerOk(m, xs, key, less, false, if p == 0 then 0 else Before(head, xs, p), false)
  {
    EntriesSorted(m, head, xs);
    var es := Entries(m, xs);
    forall p: nat | p < |xs| && xs[p] == x
      ensures m[x].tower[0] == After(xs, p + 1)
      ensures Near(es, key, less, allowEqual,
                   if allowEqual then p else if less then p - 1 else if p + 1 < |xs| then p + 1 else -1)
    {
      assert x == Before(head, xs, p + 1);
      NearFromEqual(es, key, less, allowEqual, p);
    }
    var q := IndexOf(xs, x);
    assert forall j :: 0 <= j < |xs| && m[xs[j]].key == key ==> j == q by {
      LessTotal(key, key);
    }
  }

  // ---------- reading while one writer inserts ----------

  /** The whole list at one moment; `levels` says which nodes each level links. */
  datatype Snapshot = Snapshot(m: Memory, height: nat, levels: seq<seq<nat>>)

  /** Nodes are never unlinked and never change their key. */
  ghost predicate Grows(a: Snapshot, b: Snapshot)
  {
    && |a.levels| == MAX_HEIGHT && |b.levels| == MAX_HEIGHT
    && (forall l :: 0 <= l < MAX_HEIGHT ==> Contains(b.levels[l], a.levels[l]))
    && (forall o :: o in a.m ==> o in b.m && b.m[o].key == a.m[o].key)
  }

  ghost predicate WellFormedAt(s: Snapshot, head: nat) { WellFormed(s.m, head, s.height, s.levels) }

  ghost predicate Evolves(trace: seq<Snapshot>, head: nat)
  {
    && (forall i :: 0 <= i < |trace| ==> WellFormedAt(trace[i], head))
    && (forall i :: 0 < i < |trace| ==> Grows(trace[i - 1], trace[i]))
  }

  ghost function RunAt(s: Snapshot, head: nat): Run
    requires WellFormedAt(s, head)
  {
    assert LevelOk(s.m, head, s.levels[0], 0);
    Entries(s.m, s.levels[0])
  }

  /** Each moment of the trace shows one of two contents. */
  ghost predicate ShowsOneOf(trace: seq<Snapshot>, head: nat, a: Run, b: Run)
  {
    forall i :: 0 <= i < |trace| ==>
      WellFormedAt(trace[i], head) && (RunAt(trace[i], head) == a || RunAt(trace[i], head) == b)
  }

  lemma ExtendTrace(trace: seq<Snapshot>, s: Snapshot, head: nat, a: Run, b: Run)
    requires |trace| > 0 && Evolves(trace, head) && ShowsOneOf(trace, head, a, b)
    requires WellFormedAt(s, head) && Grows(trace[|trace| - 1], s)
    requires RunAt(s, head) == a || RunAt(s, head) == b
    ensures Evolves(trace + [s], head) && ShowsOneOf(trace + [s], head, a, b)
  {
    hide WellFormedAt, Grows, RunAt;
    var t := trace + [s];
    forall i | 0 < i < |t| ensures Grows(t[i - 1], t[i]) {
      if i < |trace| { assert Grows(trace[i - 1], trace[i]); }
    }
  }

  ghost predicate OnTrackAt(s: Snapshot, head: nat, key: Key, less: bool, allowEqual: bool, r: Reader)
  {
    |s.levels| == MAX_HEIGHT && OnTrack(s.m, head, s.levels, key, less, allowEqual, r)
  }

  ghost predicate AnswerOkAt(s: Snapshot, head: nat, key: Key, less: bool, allowEqual: bool, r: Reader)
    requires WellFormedAt(s, head)
  {
    assert LevelOk(s.m, head, s.levels[0], 0);
    r.Answer? && AnswerOk(s.m, s.levels[0], key, less, allowEqual, r.found, r.equal)
  }

  /** A reader makes at most one step in each snapshot, from the head of the tallest level of the first. */
  ghost predicate Reads(trace: seq<Snapshot>, head: nat, key: Key, less: bool, allowEqual: bool, rs: seq<Reader>)
  {
    && |rs| == |trace| + 1 && |trace| > 0
    && trace[0].height > 0 && rs[0] == Searching(head, trace[0].height - 1)
    && (forall i :: 0 <= i < |trace| ==>
          rs[i + 1] == rs[i] ||
          (Readable(trace[i].m, rs[i]) && rs[i + 1] == SearchStep(trace[i].m, head, key, less, allowEqual, rs[i])))
  }

  /** However a search is interleaved with insertions, its answer is the right one for the list
      as it stood at one moment during the search. */
  lemma {:induction false} ConcurrentSearch(trace: seq<Snapshot>, head: nat, key: Key,
                                            less: bool, allowEqual: bool, rs: seq<Reader>, n: nat)
    requires Evolves(trace, head) && Reads(trace, head, key, less, allowEqual, rs) && n <= |trace|
    ensures rs[n].Answer? ==> exists j :: 0 <= j < n && AnswerOkAt(trace[j], head, key, less, allowEqual, rs[n])
    ensures n < |trace| ==> OnTrackAt(trace[n], head, key, less, allowEqual, rs[n])
  {
    if n == 0 {
      assert WellFormedAt(trace[0], head);
    } else {
      ConcurrentSearch(trace, head, key, less, allowEqual, rs, n - 1);
      var s, r := trace[n - 1], rs[n - 1];
      assert WellFormedAt(s, head);
      assert rs[(n - 1) + 1] == rs[n];
      if rs[n] != r {
        SearchStepSound(s.m, head, s.height, s.levels, key, less, allowEqual, r);
        assert rs[n].Answer? ==> AnswerOkAt(trace[n - 1], head, key, less, allowEqual, rs[n]);
      }
      if n < |trace| { assert Grows(s, trace[n]); }
    }
  }
}

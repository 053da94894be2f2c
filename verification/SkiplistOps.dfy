/** The skiplist itself: arena allocation, the searches and Put, which links a node bottom-up. */
module Skiplists {
  import opened Bytes
  import opened Keys
  import opened Values
  import opened Runs
  import opened SkiplistShape
  import opened SkiplistWriters

  const MAX_NODE_SIZE: nat := 96
  const NODE_ALIGN: nat := 7
  const OFFSET_SIZE: nat := 4

  /** Arena bytes a node of some height takes, with its alignment padding. */
  function NodeSize(height: nat): nat
    requires height <= MAX_HEIGHT
  {
    MAX_NODE_SIZE - (MAX_HEIGHT - height) * OFFSET_SIZE + NODE_ALIGN
  }

  /** Arena growth of one Put: a value alone when the key is there, a whole node otherwise. */
  function PutGrowth(present: bool, key: Key, vs: ValueStruct, height: nat): nat
    requires height <= MAX_HEIGHT
  {
    EncodedSize(vs) + if present then 0 else |key| + NodeSize(height)
  }

  // ---------- the mutable list ----------

  class Skiplist {
    const head: nat
    const size: nat
    var height: nat
    var nodes: Memory
    var n: nat
    ghost var levels: seq<seq<nat>>

    ghost predicate Valid()
      reads this
    {
      && WellFormed(nodes, head, height, levels)
      && LevelOk(nodes, head, levels[0], 0)
      && (forall o :: o in nodes ==> 0 < o < n)
      && n <= size
    }

    /** The versions stored, in key order. */
    ghost function Contents(): (r: Run)
      requires Valid()
      reads this
    {
      Entries(nodes, levels[0])
    }

    ghost function Now(): Snapshot
      reads this
    {
      Snapshot(nodes, height, levels)
    }

    /** Every node is on all the levels of its tower. */
    ghost predicate Complete()
      reads this
    {
      |levels| == MAX_HEIGHT &&
      forall o, l :: o in levels[0] && o in nodes && 0 <= l < |nodes[o].tower| && l < MAX_HEIGHT ==> o in levels[l]
    }

    constructor (arenaSize: nat)
      requires 1 + NodeSize(MAX_HEIGHT) + 3 <= arenaSize
      ensures Valid() && Complete() && Contents() == []
      ensures size == arenaSize && n == 1 + NodeSize(MAX_HEIGHT) + 3
    {
      head := 8;
      size := arenaSize;
      height := 1;
      n := 1 + NodeSize(MAX_HEIGHT) + 3;
      nodes := map[8 := Node([], ValueStruct(0, 0, 0, []), seq(MAX_HEIGHT, _ => 0))];
      levels := seq(MAX_HEIGHT, _ => []);
    }

    /** The offset is aligned up to eight bytes and lies past everything allocated so far. */
    method PutNode(h: nat) returns (o: nat)
      requires h <= MAX_HEIGHT && n + NodeSize(h) <= size
      modifies this`n
      ensures n == old(n) + NodeSize(h)
      ensures o % 8 == 0 && old(n) <= o && o + (NodeSize(h) - NODE_ALIGN) <= n
    {
      o := (n + NODE_ALIGN) / 8 * 8;
      n := n + NodeSize(h);
    }

    /** findNear, in all four modes. */
    method FindNear(key: Key, less: bool, allowEqual: bool) returns (found: nat, equal: bool)
      requires Valid()
      ensures AnswerOk(nodes, levels[0], key, less, allowEqual, found, equal)
    {
      var r := Searching(head, height - 1);
      while !r.Answer?
        invariant OnTrack(nodes, head, levels, key, less, allowEqual, r)
        invariant r.Answer? ==> AnswerOk(nodes, levels[0], key, less, allowEqual, r.found, r.equal)
        decreases if r.Searching? then r.level + 1 else 0,
                  if r.Searching? then |levels[r.level]| - Position(head, levels[r.level], r.x)
                  else if r.AfterEqual? then 1 else 0
      {
        SearchStepSound(nodes, head, height, levels, key, less, allowEqual, r);
        var next := SearchStep(nodes, head, key, less, allowEqual, r);
        if r.Searching? && next.Searching? && next.level == r.level {
          StepRight(nodes, head, levels[r.level], r.level, r.x);
        }
        r := next;
      }
      found, equal := r.found, r.equal;
    }

    /** Get, as a lookup in the contents. */
    method Get(key: Key) returns (r: Option<Entry>)
      requires Valid()
      ensures r == Lookup(Contents(), key)
    {
      var o, _ := FindNear(key, false, true);
      GetAnswer(nodes, levels[0], head, key, o);
      if o != 0 && SameKey(key, nodes[o].key) {
        r := Some(Entry(nodes[o].key, nodes[o].vs));
      } else {
        r := None;
      }
    }

    /** findLast, and with it Empty. */
    method FindLast() returns (o: nat)
      requires Valid()
      ensures Contents() == [] <==> o == 0
      ensures Contents() != [] ==> o == levels[0][|levels[0]| - 1]
    {
      var x, level := head, height - 1;
      while true
        invariant 0 <= level < MAX_HEIGHT && (x == head || x in levels[level])
        decreases level, |levels[level]| - Position(head, levels[level], x)
      {
        assert LevelOk(nodes, head, levels[level], level);
        ghost var p := Position(head, levels[level], x);
        assert nodes[Before(head, levels[level], p)].tower[level] == After(levels[level], p);
        var next := nodes[x].tower[level];
        if next != 0 {
          StepRight(nodes, head, levels[level], level, x);
          x := next;
        } else if level == 0 {
          return if x == head then 0 else x;
        } else {
          assert Contains(levels[level - 1], levels[level]);
          level := level - 1;
        }
      }
    }

    /** Walking the base level from the first node visits the contents in order. */
    method Collect() returns (r: Run)
      requires Valid()
      ensures r == Contents()
    {
      r := [];
      var o := nodes[head].tower[0];
      assert o == After(levels[0], 0) by { assert nodes[Before(head, levels[0], 0)].tower[0] == After(levels[0], 0); }
      while o != 0
        invariant |r| <= |levels[0]| && o == After(levels[0], |r|)
        invariant r == Contents()[..|r|]
        decreases |levels[0]| - |r|
      {
        assert Cell(nodes, levels[0][|r|], 0);
        r := r + [Entry(nodes[o].key, nodes[o].vs)];
        assert nodes[Before(head, levels[0], |r|)].tower[0] == After(levels[0], |r|);
        o := nodes[o].tower[0];
      }
    }

    method FindSpliceForLevel(key: Key, start: nat, level: nat) returns (before: nat, after: nat)
      requires Valid() && level < MAX_HEIGHT
      requires start == head ||
               (start in levels[level] && start in nodes && |nodes[start].key| >= 8 && Less(nodes[start].key, key))
      ensures before == after ==> before in levels[level] && before in nodes && nodes[before].key == key
      ensures before != after ==> Splice(nodes, head, levels[level], key, before, after)
    {
      before := start;
      assert LevelOk(nodes, head, levels[level], level);
      while true
        invariant before == head ||
                  (before in levels[level] && before in nodes && |nodes[before].key| >= 8 &&
                      Less(nodes[before].key, key))
        decreases |levels[level]| - Position(head, levels[level], before)
      {
        ghost var p := Position(head, levels[level], before);
        assert nodes[Before(head, levels[level], p)].tower[level] == After(levels[level], p);
        var next := nodes[before].tower[level];
        if next == 0 {
          assert Gap(nodes, levels[level], key, p);
          return before, next;
        }
        assert Cell(nodes, levels[level][p], level);
        var cmp := CompareKeys(key, nodes[next].key);
        LessTotal(key, nodes[next].key);
        if cmp == 0 {
          return next, next;
        }
        if cmp < 0 {
          assert Gap(nodes, levels[level], key, p);
          return before, next;
        }
        StepRight(nodes, head, levels[level], level, before);
        before := next;
      }
    }

    /** Put: a search on every level, then the writer's steps. */
    method Put(key: Key, vs: ValueStruct, h: nat) returns (ghost trace: seq<Snapshot>)
      requires Valid() && Complete() && 1 <= h <= MAX_HEIGHT
      requires n + PutGrowth(Found(Contents(), key), key, vs, h) <= size
      modifies this
      ensures Valid() && Complete()
      ensures Contents() == Runs.Put(old(Contents()), key, vs)
      ensures n == old(n) + PutGrowth(Found(old(Contents()), key), key, vs, h)
      ensures |trace| > 0 && trace[0] == old(Now()) && trace[|trace| - 1] == Now() && SingleStores(trace)
      ensures Evolves(trace, head) && ShowsOneOf(trace, head, old(Contents()), Contents())
    {
      assert height <= MAX_HEIGHT;
      hide Evolves, ShowsOneOf, SingleStores, Runs.Put, NodeSize, WellFormed, LevelOk, Splices, Splice, Gap, Found;
      var prev, next := new nat[MAX_HEIGHT + 1](_ => 0), new nat[MAX_HEIGHT + 1](_ => 0);
      var level := FindSplices(key, prev, next);
      if level >= 0 {
        PresentAt(nodes, head, height, levels, key, prev[level], level);
        trace := Overwrite(key, vs, h, prev[level], prev[..], next[..]);
      } else {
        AbsentBelow(nodes, head, height, levels, key, prev[..], next[..]);
        trace := Insert(key, vs, h, prev[..], next[..]);
      }
    }

    /** setValue: the arena takes the new bytes, and the writer's one store makes them current. */
    method Overwrite(key: Key, vs: ValueStruct, h: nat, o: nat, prev: seq<nat>, next: seq<nat>)
      returns (ghost trace: seq<Snapshot>)
      requires Valid() && Complete() && 1 <= h <= MAX_HEIGHT && |prev| == |next| == MAX_HEIGHT + 1
      requires o in levels[0] && o in nodes && nodes[o].key == key && n + EncodedSize(vs) <= size
      modifies this
      ensures Valid() && Complete() && n == old(n) + EncodedSize(vs)
      ensures Contents() == Runs.Put(old(Contents()), key, vs)
      ensures |trace| > 0 && trace[0] == old(Now()) && trace[|trace| - 1] == Now() && SingleStores(trace)
      ensures Evolves(trace, head) && ShowsOneOf(trace, head, old(Contents()), Contents())
    {
      assert |levels| == MAX_HEIGHT;
      hide Evolves, ShowsOneOf, SingleStores, Runs.Put, WellFormed, LevelOk;
      n := n + EncodedSize(vs);
      trace := Write(Writer(0, Node(key, vs, seq(h, _ => 0)), prev, next, Replace(o)));
    }

    /** The second half of Put: newNode takes its place in the arena, and the writer links it. */
    method Insert(key: Key, vs: ValueStruct, h: nat, prev: seq<nat>, next: seq<nat>)
      returns (ghost trace: seq<Snapshot>)
      requires Valid() && Complete() && 1 <= h <= MAX_HEIGHT && n + PutGrowth(false, key, vs, h) <= size
      requires Splices(nodes, head, height, levels, key, prev, next)
      modifies this
      ensures Valid() && Complete() && n == old(n) + PutGrowth(false, key, vs, h)
      ensures Contents() == Runs.Put(old(Contents()), key, vs)
      ensures |trace| > 0 && trace[0] == old(Now()) && trace[|trace| - 1] == Now() && SingleStores(trace)
      ensures Evolves(trace, head) && ShowsOneOf(trace, head, old(Contents()), Contents())
    {
      assert |levels| == MAX_HEIGHT;
      hide Evolves, ShowsOneOf, SingleStores, Runs.Put, WellFormed, LevelOk, Unlinked, Splice;
      SplicesKnown(nodes, head, height, levels, key, h, prev, next);
      var x := PutNode(h);
      n := n + |key| + EncodedSize(vs);
      trace := Write(Writer(x, Node(key, vs, seq(h, _ => 0)), prev, next, Place));
    }

    /** The writer makes its steps until it is done. The trace lists the list after each of them. */
    method Write(start: Writer) returns (ghost trace: seq<Snapshot>)
      requires Valid() && Complete() && Starts(List(nodes, height), head, levels, start)
      requires start.pc.Place? ==> 0 < start.x < n
      modifies this`nodes, this`height, this`levels
      ensures Valid() && Complete() && |start.node.key| >= 8
      ensures Contents() == Runs.Put(old(Contents()), start.node.key, start.node.vs)
      ensures |trace| > 0 && trace[0] == old(Now()) && trace[|trace| - 1] == Now() && SingleStores(trace)
      ensures Evolves(trace, head) && ShowsOneOf(trace, head, old(Contents()), Contents())
    {
      NotPublished(List(nodes, height), head, levels, start);
      LinkedNodes(nodes, head, levels[0]);
      hide Evolves, ShowsOneOf, SingleStores, Runs.Put, OnItsWay, Published, WellFormed, LevelOk, Entries, StepsLeft,
           TurnsLeft, NodesLeft;
      ghost var m0, levels0 := nodes, levels;
      ghost var es, es' := Contents(), Runs.Put(Contents(), start.node.key, start.node.vs);
      trace := StartTrace(es');
      var w := start;
      while w.pc != Done
        invariant Valid() && OnItsWay(List(nodes, height), head, levels, w, m0, levels0)
        invariant w.node == start.node && (w.pc.Place? ==> 0 < w.x < n)
        invariant Contents() == if Published(w) then es' else es
        invariant |trace| > 0 && trace[0] == old(Now()) && trace[|trace| - 1] == Now() && SingleStores(trace)
        invariant Evolves(trace, head) && ShowsOneOf(trace, head, es, es')
        decreases StepsLeft(w), TurnsLeft(w), NodesLeft(head, levels, w)
      {
        w, trace := Step(w, m0, levels0, trace, es, es');
      }
      Finished(List(nodes, height), head, levels, w, m0, levels0);
    }

    /** One memory access. */
    method Step(w: Writer, ghost m0: Memory, ghost levels0: seq<seq<nat>>, ghost was: seq<Snapshot>, ghost es: Run,
                ghost es': Run) returns (w': Writer, ghost trace: seq<Snapshot>)
      requires Valid() && OnItsWay(List(nodes, height), head, levels, w, m0, levels0) && w.pc != Done
      requires |w.node.key| >= 8 && es' == Runs.Put(es, w.node.key, w.node.vs)
      requires Contents() == (if Published(w) then es' else es) && (w.pc.Place? ==> 0 < w.x < n)
      requires |was| > 0 && was[|was| - 1] == Now() && SingleStores(was)
      requires Evolves(was, head) && ShowsOneOf(was, head, es, es')
      modifies this`nodes, this`height, this`levels
      ensures Ready(old(List(nodes, height)), head, w)
      ensures (List(nodes, height), w') == WriterStep(old(List(nodes, height)), head, w)
      ensures Valid() && OnItsWay(List(nodes, height), head, levels, w', m0, levels0)
      ensures w'.node == w.node && !w'.pc.Place? && Contents() == if Published(w') then es' else es
      ensures Nearer(head, old(levels), w, levels, w')
      ensures trace == was + [Now()] && SingleStores(trace)
      ensures Evolves(trace, head) && ShowsOneOf(trace, head, es, es')
    {
      hide Evolves, ShowsOneOf, SingleStores, Runs.Put, OnItsWay, Published, WellFormed, LevelOk, Entries, StepsLeft,
           TurnsLeft, NodesLeft, Ready, Grows, OneStore, Nearer, WriterStep;
      ghost var levels' := WriterTurn(List(nodes, height), head, levels, w, m0, levels0);
      WriterStepKeys(List(nodes, height), head, w);
      var (list, next) := WriterStep(List(nodes, height), head, w);
      nodes, height := list.m, list.height;
      levels := levels';
      trace := Record(was, es, es');
      w' := next;
    }

    ghost method StartTrace(es': Run) returns (trace: seq<Snapshot>)
      requires Valid()
      ensures trace == [Now()] && Evolves(trace, head) && ShowsOneOf(trace, head, Contents(), es')
      ensures SingleStores(trace)
    {
      trace := [Now()];
    }

    /** A step was made; the trace gets the new state of the list. */
    ghost method Record(was: seq<Snapshot>, es: Run, es': Run) returns (trace: seq<Snapshot>)
      requires Valid() && |was| > 0 && Evolves(was, head) && ShowsOneOf(was, head, es, es') && SingleStores(was)
      requires Grows(was[|was| - 1], Now()) && (Contents() == es || Contents() == es')
      requires OneStore(ListOf(was[|was| - 1]), List(nodes, height))
      ensures trace == was + [Now()] && Evolves(trace, head) && ShowsOneOf(trace, head, es, es') && SingleStores(trace)
    {
      hide OneStore;
      assert WellFormedAt(Now(), head);
      ExtendTrace(was, Now(), head, es, es');
      trace := was + [Now()];
    }

    /** The first loop of Put: the neighbours of the key on every level, from the top down, or the
        level on which the key itself turns up. */
    method FindSplices(key: Key, prev: array<nat>, next: array<nat>) returns (level: int)
      requires Valid()
      requires prev.Length == MAX_HEIGHT + 1 && next.Length == MAX_HEIGHT + 1 && prev != next
      requires forall k :: 0 <= k <= MAX_HEIGHT ==> prev[k] == 0 && next[k] == 0
      modifies prev, next
      ensures level >= 0 ==> level < height && prev[level] in levels[level]
                             && prev[level] in nodes && nodes[prev[level]].key == key
      ensures level < 0 ==> Splices(nodes, head, height, levels, key, prev[..], next[..])
    {
      prev[height] := head;
      var i := height;
      while i > 0
        invariant 0 <= i <= height
        invariant prev[height] == head && next[height] == 0
        invariant forall k :: height < k <= MAX_HEIGHT ==> prev[k] == 0
        invariant forall k :: i <= k < height ==> Splice(nodes, head, levels[k], key, prev[k], next[k])
      {
        i := i - 1;
        if i + 1 < height { SpliceStart(nodes, head, height, levels, key, i, prev[i + 1], next[i + 1]); }
        prev[i], next[i] := FindSpliceForLevel(key, prev[i + 1], i);
        if prev[i] == next[i] {
          return i;
        }
      }
      level := -1;
    }
  }

  lemma PresentAt(m: Memory, head: nat, height: nat, levels: seq<seq<nat>>, key: Key, o: nat, level: nat)
    requires WellFormed(m, head, height, levels) && level < MAX_HEIGHT
    requires o in levels[level] && o in m && m[o].key == key
    ensures LevelOk(m, head, levels[0], 0) && o in levels[0] && Found(Entries(m, levels[0]), key)
  {
    assert level > 0 ==> Contains(levels[0], levels[level]);
    EntriesSorted(m, head, levels[0]);
    assert Entries(m, levels[0])[IndexOf(levels[0], o)].key == key;
    FoundIff(Entries(m, levels[0]), key);
  }

  lemma LinkedNodes(m: Memory, head: nat, xs: seq<nat>)
    requires LevelOk(m, head, xs, 0)
    ensures forall o :: o in xs ==> o in m
  {
    forall o | o in xs ensures o in m { assert Cell(m, xs[IndexOf(xs, o)], 0); }
  }

  lemma AbsentBelow(m: Memory, head: nat, height: nat, levels: seq<seq<nat>>, key: Key, prev: seq<nat>, next: seq<nat>)
    requires WellFormed(m, head, height, levels) && Splices(m, head, height, levels, key, prev, next)
    ensures LevelOk(m, head, levels[0], 0) && !Found(Entries(m, levels[0]), key)
  {
    assert LevelOk(m, head, levels[0], 0);
    SpliceAbsent(m, head, levels[0], key, prev[0], next[0]);
  }

  /** When the writer is done, the node is on all its levels. */
  lemma Finished(s: List, head: nat, levels: seq<seq<nat>>, w: Writer, m0: Memory, levels0: seq<seq<nat>>)
    requires OnItsWay(s, head, levels, w, m0, levels0) && w.pc == Done && |levels0| == MAX_HEIGHT
    requires forall o, l :: o in levels0[0] && o in m0 && 0 <= l < |m0[o].tower| && l < MAX_HEIGHT ==> o in levels0[l]
    requires forall o :: o in levels0[0] ==> o in m0
    ensures Published(w)
    ensures forall o, l :: o in levels[0] && o in s.m && 0 <= l < |s.m[o].tower| && l < MAX_HEIGHT ==> o in levels[l]
  {
    if w.x != 0 { DoneLinking(s.m, head, levels, m0, levels0, w.x, w.node, w.node.key); }
  }

  /** The node nearest at or after the key is the one a lookup is about. */
  lemma GetAnswer(m: Memory, xs: seq<nat>, head: nat, key: Key, o: nat)
    requires LevelOk(m, head, xs, 0)
    requires exists equal :: AnswerOk(m, xs, key, false, true, o, equal)
    ensures o != 0 ==> o in m && |m[o].key| >= 8
    ensures Lookup(Entries(m, xs), key) ==
            if o != 0 && SameKey(key, m[o].key) then Some(Entry(m[o].key, m[o].vs)) else None
  {
    hide Less, SameKey;
    var es := Entries(m, xs);
    EntriesSorted(m, head, xs);
    var i :| Near(es, key, false, true, i) && o == (if i == -1 then 0 else xs[i]);
    forall j | 0 <= j < |es| ensures Less(es[j].key, key) <==> !Qualifies(es[j].key, key, false, true) {
      LessTotal(es[j].key, key);
    }
    var n := if i == -1 then |es| else i;
    LowerBoundUnique(es, key, n);
    if i != -1 { assert Cell(m, xs[i], 0); }
  }
}

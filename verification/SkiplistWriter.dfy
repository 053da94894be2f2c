/** Writing the skiplist one store at a time. */
module SkiplistWriters {
  import opened Keys
  import opened Values
  import opened Runs
  import opened SkiplistShape

  /** The key falls in the gap before position p of a level. */
  ghost predicate Gap(m: Memory, xs: seq<nat>, key: Key, p: nat)
  {
    && p <= |xs|
    && (p > 0 ==> xs[p - 1] in m && |m[xs[p - 1]].key| >= 8 && Less(m[xs[p - 1]].key, key))
    && (p < |xs| ==> xs[p] in m && |m[xs[p]].key| >= 8 && Less(key, m[xs[p]].key))
  }

  ghost predicate Splice(m: Memory, head: nat, xs: seq<nat>, key: Key, prev: nat, next: nat)
  {
    exists p: nat :: Gap(m, xs, key, p) && prev == Before(head, xs, p) && next == After(xs, p)
  }

  function SetTower(m: Memory, o: nat, l: nat, v: nat): Memory
    requires o in m && l < |m[o].tower|
  {
    m[o := m[o].(tower := m[o].tower[l := v])]
  }

  function SetValue(m: Memory, o: nat, vs: ValueStruct): Memory
    requires o in m
  {
    m[o := m[o].(vs := vs)]
  }

  // ---------- what single stores do to the shape ----------

  /** A level is untouched by stores that keep its links and keys. */
  lemma LevelFrame(m: Memory, m': Memory, head: nat, xs: seq<nat>, l: nat)
    requires LevelOk(m, head, xs, l)
    requires forall o :: o == head || o in xs ==>
               o in m' && m'[o].key == m[o].key && l < |m'[o].tower| && m'[o].tower[l] == m[o].tower[l]
    ensures LevelOk(m', head, xs, l)
  {
    forall i | 0 <= i <= |xs| ensures m'[Before(head, xs, i)].tower[l] == After(xs, i) {
      assert m[Before(head, xs, i)].tower[l] == After(xs, i);
    }
    forall i | 0 <= i < |xs| ensures xs[i] != head && Cell(m', xs[i], l) {
      assert Cell(m, xs[i], l);
    }
  }

  /** Storing a new value under a node keeps the shape and replaces one entry. */
  lemma SetValueShape(m: Memory, head: nat, height: nat, levels: seq<seq<nat>>, o: nat, vs: ValueStruct)
    requires WellFormed(m, head, height, levels) && o in levels[0]
    ensures WellFormed(SetValue(m, o, vs), head, height, levels)
    ensures LevelOk(m, head, levels[0], 0) && LevelOk(SetValue(m, o, vs), head, levels[0], 0)
    ensures Entries(SetValue(m, o, vs), levels[0]) == Put(Entries(m, levels[0]), m[o].key, vs)
  {
    var m' := SetValue(m, o, vs);
    assert LevelOk(m, head, levels[0], 0);
    forall l | 0 <= l < MAX_HEIGHT ensures LevelOk(m', head, levels[l], l) {
      LevelFrame(m, m', head, levels[l], l);
    }
    var xs := levels[0];
    var es := Entries(m, xs);
    EntriesSorted(m, head, xs);
    var n := IndexOf(xs, o);
    LessTotal(m[o].key, m[o].key);
    LowerBoundUnique(es, m[o].key, n);
    forall i | 0 <= i < |xs| && i != n ensures xs[i] != o {
      if i < n { assert Less(m[xs[i]].key, m[xs[n]].key); } else { assert Less(m[xs[n]].key, m[xs[i]].key); }
    }
    assert Entries(m', xs) == es[n := Entry(m[o].key, vs)];
  }

  /** Preparing a node's forward link at a level it is not on yet changes nothing. */
  lemma PrepareShape(m: Memory, head: nat, height: nat, levels: seq<seq<nat>>, x: nat, l: nat, v: nat)
    requires WellFormed(m, head, height, levels)
    requires x in m && x != head && l < |m[x].tower| && l < MAX_HEIGHT && x !in levels[l]
    ensures WellFormed(SetTower(m, x, l, v), head, height, levels)
    ensures LevelOk(m, head, levels[0], 0) && LevelOk(SetTower(m, x, l, v), head, levels[0], 0)
    ensures Entries(SetTower(m, x, l, v), levels[0]) == Entries(m, levels[0])
  {
    var m' := SetTower(m, x, l, v);
    assert LevelOk(m, head, levels[0], 0);
    forall k | 0 <= k < MAX_HEIGHT ensures LevelOk(m', head, levels[k], k) {
      assert LevelOk(m, head, levels[k], k);
      if k == l { LevelFrame(m, m', head, levels[k], k); } else { OtherLevel(m, head, levels[k], k, x, l, v); }
    }
    assert Entries(m', levels[0]) == Entries(m, levels[0]);
  }

  function Inserted(xs: seq<nat>, p: nat, x: nat): (r: seq<nat>)
    requires p <= |xs|
    ensures |r| == |xs| + 1
    ensures forall i :: 0 <= i < |r| ==> r[i] == if i < p then xs[i] else if i == p then x else xs[i - 1]
  {
    xs[..p] + [x] + xs[p..]
  }

  /** Swinging the predecessor's link makes the node part of one level. */
  lemma LinkLevel(m: Memory, head: nat, xs: seq<nat>, l: nat, x: nat, key: Key, p: nat)
    requires LevelOk(m, head, xs, l) && Gap(m, xs, key, p)
    requires Cell(m, x, l) && x != head && x !in xs && m[x].key == key
    requires m[x].tower[l] == After(xs, p)
    ensures LevelOk(SetTower(m, Before(head, xs, p), l, x), head, Inserted(xs, p, x), l)
  {
    var m' := SetTower(m, Before(head, xs, p), l, x);
    var ys := Inserted(xs, p, x);
    InsertedSorted(m, head, xs, l, x, key, p);
    forall i | 0 <= i < |ys| ensures ys[i] != head && Cell(m', ys[i], l) {
      assert i != p ==> ys[i] in xs && Cell(m, ys[i], l);
    }
    assert Ascending(m', ys) by {
      forall i, j | 0 <= i < j < |ys| ensures Less(m'[ys[i]].key, m'[ys[j]].key) {
        assert Less(m[ys[i]].key, m[ys[j]].key);
      }
    }
    forall i | 0 <= i <= |ys| ensures m'[Before(head, ys, i)].tower[l] == After(ys, i) {
      LinkPointers(m, head, xs, l, x, p, i);
    }
  }

  lemma LinkPointers(m: Memory, head: nat, xs: seq<nat>, l: nat, x: nat, p: nat, i: nat)
    requires LevelOk(m, head, xs, l) && p <= |xs| && i <= |xs| + 1
    requires Cell(m, x, l) && x != head && x !in xs && m[x].tower[l] == After(xs, p)
    ensures var ys := Inserted(xs, p, x);
            Before(head, ys, i) in m && l < |m[Before(head, ys, i)].tower| &&
            SetTower(m, Before(head, xs, p), l, x)[Before(head, ys, i)].tower[l] == After(ys, i)
  {
    var ys := Inserted(xs, p, x);
    var j := if i <= p then i else i - 1;
    assert m[Before(head, xs, j)].tower[l] == After(xs, j);
    assert i != p + 1 ==> Before(head, ys, i) == Before(head, xs, j);
    if j != p && j > 0 && p > 0 {
      LessTotal(m[xs[p - 1]].key, m[xs[p - 1]].key);
      assert xs[j - 1] != xs[p - 1] by {
        if j < p {
          assert Less(m[xs[j - 1]].key, m[xs[p - 1]].key);
        } else {
          assert Less(m[xs[p - 1]].key, m[xs[j - 1]].key);
        }
      }
    }
  }

  lemma InsertedSorted(m: Memory, head: nat, xs: seq<nat>, l: nat, x: nat, key: Key, p: nat)
    requires LevelOk(m, head, xs, l) && Gap(m, xs, key, p)
    requires x in m && m[x].key == key
    ensures var ys := Inserted(xs, p, x);
            (forall i :: 0 <= i < |ys| ==> ys[i] in m && |m[ys[i]].key| >= 8) && Ascending(m, ys)
  {
    hide Less;
    var ys := Inserted(xs, p, x);
    forall i | 0 <= i < |ys| ensures ys[i] in m && |m[ys[i]].key| >= 8 {
      assert i != p ==> ys[i] in xs && Cell(m, ys[i], l);
    }
    forall i | 0 <= i < p ensures Less(m[xs[i]].key, key) {
      if i < p - 1 { LessTransitive(m[xs[i]].key, m[xs[p - 1]].key, key); }
    }
    forall i | p <= i < |xs| ensures Less(key, m[xs[i]].key) {
      if p < i { LessTransitive(key, m[xs[p]].key, m[xs[i]].key); }
    }
    forall i, j | 0 <= i < j < |ys| ensures Less(m[ys[i]].key, m[ys[j]].key) {
      if i != p && j != p {
        var a, b := if i < p then i else i - 1, if j < p then j else j - 1;
        assert Less(m[xs[a]].key, m[xs[b]].key);
      }
    }
  }

  /** A store to level l of one node leaves every other level alone. */
  lemma OtherLevel(m: Memory, head: nat, xs: seq<nat>, k: nat, o: nat, l: nat, v: nat)
    requires LevelOk(m, head, xs, k) && k != l
    requires o in m && l < |m[o].tower|
    ensures LevelOk(SetTower(m, o, l, v), head, xs, k)
  {
    var m' := SetTower(m, o, l, v);
    forall q | q == head || q in xs
      ensures q in m' && m'[q].key == m[q].key && k < |m'[q].tower| && m'[q].tower[k] == m[q].tower[k]
    {
      if q in xs { assert Cell(m, xs[IndexOf(xs, q)], k); }
    }
    LevelFrame(m, m', head, xs, k);
  }

  /** Linking the base level is the insertion. */
  lemma LinkBase(m: Memory, head: nat, xs: seq<nat>, x: nat, key: Key, p: nat)
    requires LevelOk(m, head, xs, 0) && Gap(m, xs, key, p)
    requires Cell(m, x, 0) && x != head && x !in xs && m[x].key == key
    requires LevelOk(SetTower(m, Before(head, xs, p), 0, x), head, Inserted(xs, p, x), 0)
    ensures Entries(SetTower(m, Before(head, xs, p), 0, x), Inserted(xs, p, x)) ==
            Put(Entries(m, xs), key, m[x].vs)
  {
    EntriesSorted(m, head, xs);
    PutAtGap(Entries(m, xs), key, m[x].vs, p);
    EntriesInserted(m, SetTower(m, Before(head, xs, p), 0, x), xs, p, x);
  }

  lemma EntriesInserted(m: Memory, m': Memory, xs: seq<nat>, p: nat, x: nat)
    requires p <= |xs| && Cell(m, x, 0)
    requires forall i :: 0 <= i < |xs| ==> Cell(m, xs[i], 0)
    requires forall i :: 0 <= i < |xs| + 1 ==> Cell(m', Inserted(xs, p, x)[i], 0)
    requires forall o :: o in m ==> o in m' && m'[o].key == m[o].key && m'[o].vs == m[o].vs
    ensures Entries(m', Inserted(xs, p, x)) == Entries(m, xs)[..p] + [Entry(m[x].key, m[x].vs)] + Entries(m, xs)[p..]
  {
    var fs, es := Entries(m', Inserted(xs, p, x)), Entries(m, xs);
    forall i | 0 <= i < |fs| ensures fs[i] == (es[..p] + [Entry(m[x].key, m[x].vs)] + es[p..])[i] {
      assert Inserted(xs, p, x)[i] in m;
    }
  }

  /** Linking one level keeps the whole list well formed; on the base level it is the insertion. */
  lemma LinkShape(m: Memory, head: nat, height: nat, levels: seq<seq<nat>>, l: nat, x: nat, key: Key, p: nat)
    requires WellFormed(m, head, height, levels) && l < height
    requires LevelOk(m, head, levels[0], 0) && LevelOk(m, head, levels[l], l)
    requires Gap(m, levels[l], key, p)
    requires Cell(m, x, l) && x != head && m[x].key == key
    requires forall k :: 0 <= k < l ==> x in levels[k]
    requires forall k :: l <= k < MAX_HEIGHT ==> x !in levels[k]
    requires m[x].tower[l] == After(levels[l], p)
    ensures Before(head, levels[l], p) in m && l < |m[Before(head, levels[l], p)].tower|
    ensures var m', levels' := SetTower(m, Before(head, levels[l], p), l, x), levels[l := Inserted(levels[l], p, x)];
            WellFormed(m', head, height, levels') && LevelOk(m', head, levels'[0], 0) &&
            Entries(m', levels'[0]) ==
              if l == 0 then Put(Entries(m, levels[0]), key, m[x].vs) else Entries(m, levels[0])
  {
    var prev := Before(head, levels[l], p);
    assert p > 0 ==> Cell(m, levels[l][p - 1], l);
    var m' := SetTower(m, prev, l, x);
    var levels' := levels[l := Inserted(levels[l], p, x)];
    LinkLevel(m, head, levels[l], l, x, key, p);
    forall k | 0 <= k < MAX_HEIGHT ensures LevelOk(m', head, levels'[k], k) {
      assert LevelOk(m, head, levels[k], k);
      if k != l { OtherLevel(m, head, levels[k], k, prev, l, x); }
    }
    forall a, b | 0 <= a < b < MAX_HEIGHT ensures Contains(levels'[a], levels'[b]) {
      assert Contains(levels[a], levels[b]);
    }
    assert LevelOk(m', head, levels'[0], 0);
    if l == 0 {
      LinkBase(m, head, levels[0], x, key, p);
    } else {
      assert Entries(m', levels'[0]) == Entries(m, levels[0]);
    }
  }

  /** The neighbours known for the levels still to be linked; the two lowest are always known. */
  ghost predicate Unlinked(m0: Memory, head: nat, levels0: seq<seq<nat>>, key: Key, h: nat, i: nat, prev: seq<nat>,
      next: seq<nat>)
  {
    && |levels0| == MAX_HEIGHT && |prev| == MAX_HEIGHT + 1 && |next| == MAX_HEIGHT + 1 && h <= MAX_HEIGHT
    && (forall k :: i <= k < MAX_HEIGHT && prev[k] != 0 ==> Splice(m0, head, levels0[k], key, prev[k], next[k]))
    && (forall k :: i <= k < 2 ==> prev[k] != 0)
  }

  /** What the first loop of Put hands to the second. */
  ghost predicate Splices(m: Memory, head: nat, height: nat, levels: seq<seq<nat>>, key: Key, prev: seq<nat>,
      next: seq<nat>)
  {
    && |levels| == MAX_HEIGHT && |prev| == MAX_HEIGHT + 1 && |next| == MAX_HEIGHT + 1 && 1 <= height <= MAX_HEIGHT
    && prev[height] == head && next[height] == 0
    && (forall k :: height < k <= MAX_HEIGHT ==> prev[k] == 0)
    && (forall k :: 0 <= k < height ==> Splice(m, head, levels[k], key, prev[k], next[k]))
  }

  /** Node x is linked on the levels below i, and nothing else has changed. */
  ghost predicate Linking(m: Memory, head: nat, levels: seq<seq<nat>>, m0: Memory, levels0: seq<seq<nat>>,
                          x: nat, node: Node, key: Key, i: nat)
  {
    && |levels| == MAX_HEIGHT && |levels0| == MAX_HEIGHT && |node.tower| <= MAX_HEIGHT
    && x != head && x != 0 && x !in m0 && x in m && node.key == key && |key| >= 8
    && m[x].key == node.key && m[x].vs == node.vs && |m[x].tower| == |node.tower|
    && (forall k :: 0 <= k < i && k < MAX_HEIGHT ==>
          x in levels[k] && forall o :: o in levels0[k] || o == x <==> o in levels[k])
    && (forall k :: i <= k < MAX_HEIGHT ==> levels[k] == levels0[k] && x !in levels[k])
    && (forall o :: o in m0 ==> o in m && m[o].key == m0[o].key && |m[o].tower| == |m0[o].tower|)
  }

  /** The first loop leaves the two lowest levels known, even in a list of height one. */
  lemma SplicesKnown(m: Memory, head: nat, height: nat, levels: seq<seq<nat>>, key: Key, h: nat, prev: seq<nat>,
                     next: seq<nat>)
    requires WellFormed(m, head, height, levels) && Splices(m, head, height, levels, key, prev, next)
    requires h <= MAX_HEIGHT
    ensures Unlinked(m, head, levels, key, h, 0, prev, next)
  {
    assert height < MAX_HEIGHT ==> Gap(m, levels[height], key, 0);
    forall k | 0 <= k <= 1 ensures prev[k] != 0 {
      if k < height {
        var p: nat :| Gap(m, levels[k], key, p) && prev[k] == Before(head, levels[k], p) &&
            next[k] == After(levels[k], p);
        assert LevelOk(m, head, levels[k], k);
        if p > 0 { assert Cell(m, levels[k][p - 1], k); }
      }
    }
  }

  /** On a level the node is not linked on, its key is nowhere to be found. */
  lemma NotYetLinked(m: Memory, head: nat, levels: seq<seq<nat>>, m0: Memory, levels0: seq<seq<nat>>,
                     x: nat, node: Node, key: Key, i: nat)
    requires Linking(m, head, levels, m0, levels0, x, node, key, i) && i < MAX_HEIGHT
    requires LevelOk(m, head, levels[0], 0) && i > 0 && Contains(levels[0], levels[i])
    ensures forall o :: o in levels[i] ==> o in m && m[o].key != key
  {
    forall o | o in levels[i] ensures o in m && m[o].key != key {
      var a, b := IndexOf(levels[0], o), IndexOf(levels[0], x);
      assert Cell(m, levels[0][a], 0);
      LessTotal(key, key);
      if a < b { assert Less(m[levels[0][a]].key, m[levels[0][b]].key); }
      if b < a { assert Less(m[levels[0][b]].key, m[levels[0][a]].key); }
    }
  }

  lemma DoneLinking(m: Memory, head: nat, levels: seq<seq<nat>>, m0: Memory, levels0: seq<seq<nat>>,
                    x: nat, node: Node, key: Key)
    requires Linking(m, head, levels, m0, levels0, x, node, key, |node.tower|) && |node.tower| > 0
    requires forall o, l :: o in levels0[0] && o in m0 && 0 <= l < |m0[o].tower| && l < MAX_HEIGHT ==> o in levels0[l]
    requires forall o :: o in levels0[0] ==> o in m0
    ensures forall o, l :: o in levels[0] && o in m && 0 <= l < |m[o].tower| && l < MAX_HEIGHT ==> o in levels[l]
    ensures forall l :: 0 <= l < MAX_HEIGHT ==> Contains(levels[l], levels0[l])
  {
  }

  /** The predecessor found on one level starts the search of the level below. */
  lemma SpliceStart(m: Memory, head: nat, height: nat, levels: seq<seq<nat>>, key: Key, l: nat, prev: nat, next: nat)
    requires WellFormed(m, head, height, levels) && l + 1 < MAX_HEIGHT
    requires Splice(m, head, levels[l + 1], key, prev, next)
    ensures prev == head || (prev in levels[l] && prev in m && |m[prev].key| >= 8 && Less(m[prev].key, key))
  {
    assert Contains(levels[l], levels[l + 1]);
  }

  lemma SpliceFrame(m: Memory, m': Memory, head: nat, xs: seq<nat>, key: Key, prev: nat, next: nat)
    requires Splice(m, head, xs, key, prev, next)
    requires forall o :: o in m ==> o in m' && m'[o].key == m[o].key
    ensures Splice(m', head, xs, key, prev, next)
  {
    var p: nat :| Gap(m, xs, key, p) && prev == Before(head, xs, p) && next == After(xs, p);
    assert Gap(m', xs, key, p);
  }

  /** A gap on the base level means the key is not stored. */
  lemma SpliceAbsent(m: Memory, head: nat, xs: seq<nat>, key: Key, prev: nat, next: nat)
    requires LevelOk(m, head, xs, 0) && Splice(m, head, xs, key, prev, next)
    ensures !Found(Entries(m, xs), key)
  {
    var p: nat :| Gap(m, xs, key, p) && prev == Before(head, xs, p) && next == After(xs, p);
    EntriesSorted(m, head, xs);
    var es := Entries(m, xs);
    if p < |es| { LessTotal(key, es[p].key); }
    LowerBoundUnique(es, key, p);
    LessTotal(key, key);
  }

  /** A node that nothing links to yet is invisible. */
  lemma NewNodeShape(m: Memory, head: nat, height: nat, levels: seq<seq<nat>>, x: nat, node: Node)
    requires WellFormed(m, head, height, levels) && x !in m
    requires LevelOk(m, head, levels[0], 0)
    ensures WellFormed(m[x := node], head, height, levels) && LevelOk(m[x := node], head, levels[0], 0)
    ensures Entries(m[x := node], levels[0]) == Entries(m, levels[0])
    ensures forall k :: 0 <= k < MAX_HEIGHT ==> x !in levels[k]
  {
    forall k | 0 <= k < MAX_HEIGHT ensures LevelOk(m[x := node], head, levels[k], k) && x !in levels[k] {
      assert LevelOk(m, head, levels[k], k);
      LevelFrame(m, m[x := node], head, levels[k], k);
    }
    assert Entries(m[x := node], levels[0]) == Entries(m, levels[0]);
  }

  /** Moving right brings a reader closer to the end of its level. */
  lemma StepRight(m: Memory, head: nat, xs: seq<nat>, l: nat, x: nat)
    requires LevelOk(m, head, xs, l) && (x == head || x in xs)
    requires x in m && l < |m[x].tower| && m[x].tower[l] != 0
    ensures m[x].tower[l] in xs
    ensures Position(head, xs, m[x].tower[l]) == Position(head, xs, x) + 1
  {
    var p := Position(head, xs, x);
    assert m[Before(head, xs, p)].tower[l] == After(xs, p);
    var q := Position(head, xs, xs[p]);
    if q - 1 < p { assert Less(m[xs[q - 1]].key, m[xs[p]].key); LessTotal(m[xs[p]].key, m[xs[p]].key); }
    if p < q - 1 { assert Less(m[xs[p]].key, m[xs[q - 1]].key); LessTotal(m[xs[p]].key, m[xs[p]].key); }
  }

  // ---------- the writer, one memory access a step ----------

  /** What readers and the writer share. */
  datatype List = List(m: Memory, height: nat)

  datatype Pc =
    | Place
    | Raise
    | Level(l: nat)
    | Seek(l: nat, at: nat)
    | Own(l: nat)
    | Swing(l: nat)
    | Replace(o: nat)
    | Done

  /** A Put after its first loop: the new node and the neighbours found so far. An overwrite has no node, x is 0. */
  datatype Writer = Writer(x: nat, node: Node, prev: seq<nat>, next: seq<nat>, pc: Pc)

  /** What a step may dereference, and what the code asserts before it. */
  predicate Ready(s: List, head: nat, w: Writer)
  {
    && |w.prev| == |w.next| == MAX_HEIGHT + 1 && |w.node.tower| <= MAX_HEIGHT && |w.node.key| >= 8
    && match w.pc
       case Place => true
       case Raise => true
       case Level(l) => l < |w.node.tower| && w.prev[l] == 0 ==> l > 1
       case Seek(l, at) =>
         l < |w.node.tower| && at in s.m && l < |s.m[at].tower| &&
         var next := s.m[at].tower[l];
         next != 0 ==> next in s.m && |s.m[next].key| >= 8 && (s.m[next].key == w.node.key ==> l == 0)
       case Own(l) => l < |w.node.tower| && w.x in s.m && l < |s.m[w.x].tower|
       case Swing(l) => l < |w.node.tower| && w.prev[l] in s.m && l < |s.m[w.prev[l]].tower|
       case Replace(o) => o in s.m
       case Done => true
  }

  /** One read or one store: the node is placed in the arena, the list is raised, and then on each level, from the
      base up, the node gets its own link before a compare-and-swap makes its predecessor point to it. */
  function WriterStep(s: List, head: nat, w: Writer): (List, Writer)
    requires Ready(s, head, w)
  {
    var h := |w.node.tower|;
    match w.pc
    case Place => (s.(m := s.m[w.x := w.node]), w.(pc := Raise))
    case Raise => (s.(height := if h > s.height then h else s.height), w.(pc := Level(0)))
    case Level(l) => (s, w.(pc := if l >= h then Done else if w.prev[l] == 0 then Seek(l, head) else Own(l)))
    case Seek(l, at) =>
      var next := s.m[at].tower[l];
      var cmp := if next == 0 then -1 else CompareKeys(w.node.key, s.m[next].key);
      if cmp > 0 then (s, w.(pc := Seek(l, next)))
      else if cmp == 0 then (s, w.(pc := Replace(next)))
      else (s, w.(prev := w.prev[l := at], next := w.next[l := next], pc := Own(l)))
    case Own(l) => (s.(m := SetTower(s.m, w.x, l, w.next[l])), w.(pc := Swing(l)))
    case Swing(l) =>
      if s.m[w.prev[l]].tower[l] == w.next[l] then (s.(m := SetTower(s.m, w.prev[l], l, w.x)), w.(pc := Level(l + 1)))
      else (s, w.(pc := Seek(l, w.prev[l])))
    case Replace(o) => (s.(m := SetValue(s.m, o, w.node.vs)), w.(pc := Done))
    case Done => (s, w)
  }

  /** Only placing the node adds to the arena. */
  lemma WriterStepKeys(s: List, head: nat, w: Writer)
    requires Ready(s, head, w)
    ensures WriterStep(s, head, w).0.m.Keys == s.m.Keys + (if w.pc.Place? then {w.x} else {})
  {
  }

  /** At most one word of what readers see changes, or a node appears that nothing pointed to. */
  ghost predicate OneStore(s: List, s': List)
  {
    if s'.height != s.height then s'.m == s.m else s'.m == s.m || exists o :: OneNode(s.m, s'.m, o)
  }

  ghost predicate OneNode(m: Memory, m': Memory, o: nat)
  {
    && o in m' && m'.Keys == m.Keys + {o}
    && (forall q :: q in m && q != o ==> m'[q] == m[q])
    && (o in m ==> OneWord(m[o], m'[o]))
  }

  ghost predicate OneWord(a: Node, b: Node)
  {
    && b.key == a.key && |b.tower| == |a.tower|
    && (b.tower == a.tower || (b.vs == a.vs && exists l :: SameExcept(a.tower, b.tower, l)))
  }

  ghost predicate SameExcept(a: seq<nat>, b: seq<nat>, l: nat)
    requires |a| == |b|
  {
    forall k :: 0 <= k < |a| && k != l ==> a[k] == b[k]
  }

  /** A step makes at most one store, whatever the list looks like. */
  lemma WriterStepOneStore(s: List, head: nat, w: Writer)
    requires Ready(s, head, w) && (w.pc.Place? ==> w.x !in s.m)
    ensures OneStore(s, WriterStep(s, head, w).0)
  {
    var s' := WriterStep(s, head, w).0;
    match w.pc
    case Place => assert OneNode(s.m, s'.m, w.x);
    case Own(l) =>
      assert SameExcept(s.m[w.x].tower, s'.m[w.x].tower, l);
      assert OneNode(s.m, s'.m, w.x);
    case Swing(l) =>
      var o := w.prev[l];
      if s.m[o].tower[l] == w.next[l] {
        assert SameExcept(s.m[o].tower, s'.m[o].tower, l);
        assert OneNode(s.m, s'.m, o);
      }
    case Replace(o) => assert OneNode(s.m, s'.m, o);
    case _ =>
  }

  /** Where the writer stands in the list that was m0 with levels0 when it started. */
  ghost predicate OnItsWay(s: List, head: nat, levels: seq<seq<nat>>, w: Writer, m0: Memory, levels0: seq<seq<nat>>)
  {
    var key, h := w.node.key, |w.node.tower|;
    && |levels| == MAX_HEIGHT && 1 <= h <= MAX_HEIGHT && |key| >= 8 && |w.prev| == |w.next| == MAX_HEIGHT + 1
    && match w.pc
       case Place =>
         s.m == m0 && levels == levels0 && w.x !in m0 && w.x != 0 &&
         Unlinked(m0, head, levels0, key, h, 0, w.prev, w.next)
       case Raise => Halfway(s, head, levels, w, m0, levels0, 0, 0)
       case Level(l) => l <= h <= s.height && Halfway(s, head, levels, w, m0, levels0, l, l)
       case Seek(l, at) =>
         1 < l < h <= s.height && Halfway(s, head, levels, w, m0, levels0, l, l + 1) &&
         (at == head || (at in levels[l] && at in s.m && |s.m[at].key| >= 8 && Less(s.m[at].key, key)))
       case Own(l) =>
         l < h <= s.height && Halfway(s, head, levels, w, m0, levels0, l, l + 1) &&
         Splice(s.m, head, levels[l], key, w.prev[l], w.next[l])
       case Swing(l) =>
         l < h <= s.height && Halfway(s, head, levels, w, m0, levels0, l, l + 1) &&
         Splice(s.m, head, levels[l], key, w.prev[l], w.next[l]) && l < |s.m[w.x].tower| &&
         s.m[w.x].tower[l] == w.next[l]
       case Replace(o) =>
         w.x == 0 && o in levels[0] && o in s.m && s.m[o].key == key && levels == levels0 && SameTowers(s.m, m0)
       case Done =>
         if w.x == 0 then levels == levels0 && SameTowers(s.m, m0) else Halfway(s, head, levels, w, m0, levels0, h, h)
  }

  ghost predicate SameTowers(m: Memory, m0: Memory)
  {
    m.Keys == m0.Keys && forall o :: o in m0 ==> m[o].tower == m0[o].tower
  }

  /** The node is linked on the levels below l, and the neighbours from k on are still to be used. */
  ghost predicate Halfway(s: List, head: nat, levels: seq<seq<nat>>, w: Writer, m0: Memory, levels0: seq<seq<nat>>,
                          l: nat, k: nat)
  {
    && |w.node.key| >= 8 && Linking(s.m, head, levels, m0, levels0, w.x, w.node, w.node.key, l)
    && Unlinked(m0, head, levels0, w.node.key, |w.node.tower|, k, w.prev, w.next)
  }

  lemma PlaceSound(s: List, head: nat, levels: seq<seq<nat>>, w: Writer)
    requires WellFormed(s.m, head, s.height, levels) && w.pc == Place && OnItsWay(s, head, levels, w, s.m, levels)
    ensures var s' := s.(m := s.m[w.x := w.node]);
            WellFormed(s'.m, head, s'.height, levels) && LevelOk(s.m, head, levels[0], 0) &&
            LevelOk(s'.m, head, levels[0], 0) && Entries(s'.m, levels[0]) == Entries(s.m, levels[0]) &&
            Halfway(s', head, levels, w, s.m, levels, 0, 0)
  {
    assert LevelOk(s.m, head, levels[0], 0);
    NewNodeShape(s.m, head, s.height, levels, w.x, w.node);
  }

  lemma UnlinkedUpdate(m0: Memory, head: nat, levels0: seq<seq<nat>>, key: Key, h: nat, l: nat, prev: seq<nat>,
                       next: seq<nat>, a: nat, b: nat)
    requires Unlinked(m0, head, levels0, key, h, l + 1, prev, next) && l < MAX_HEIGHT
    ensures Unlinked(m0, head, levels0, key, h, l + 1, prev[l := a], next[l := b])
  {
  }

  /** A read of the splice search in the second loop. */
  lemma SeekSound(s: List, head: nat, levels: seq<seq<nat>>, w: Writer, m0: Memory, levels0: seq<seq<nat>>)
    requires WellFormed(s.m, head, s.height, levels) && w.pc.Seek? && OnItsWay(s, head, levels, w, m0, levels0)
    ensures Ready(s, head, w) && WriterStep(s, head, w).0 == s
    ensures var w', l := WriterStep(s, head, w).1, w.pc.l;
            OnItsWay(s, head, levels, w', m0, levels0) &&
            (w'.pc == Own(l) || (w'.pc.Seek? && w'.pc.l == l &&
             Position(head, levels[l], w'.pc.at) > Position(head, levels[l], w.pc.at)))
  {
    hide Linking, Unlinked, Less;
    var l, at, xs, key := w.pc.l, w.pc.at, levels[w.pc.l], w.node.key;
    assert LevelOk(s.m, head, xs, l) && LevelOk(s.m, head, levels[0], 0);
    var p := Position(head, xs, at);
    assert s.m[Before(head, xs, p)].tower[l] == After(xs, p);
    assert Contains(levels[0], xs);
    NotYetLinked(s.m, head, levels, m0, levels0, w.x, w.node, key, l);
    var next := s.m[at].tower[l];
    if next != 0 {
      StepRight(s.m, head, xs, l, at);
      assert Cell(s.m, xs[p], l);
      LessTotal(key, s.m[next].key);
    }
    UnlinkedUpdate(m0, head, levels0, key, |w.node.tower|, l, w.prev, w.next, at, next);
    assert next == 0 || Less(key, s.m[next].key) ==> Gap(s.m, xs, key, p);
  }

  /** The node's own link is prepared. */
  lemma OwnSound(s: List, head: nat, levels: seq<seq<nat>>, w: Writer, m0: Memory, levels0: seq<seq<nat>>)
    requires WellFormed(s.m, head, s.height, levels) && w.pc.Own? && OnItsWay(s, head, levels, w, m0, levels0)
    ensures Ready(s, head, w)
    ensures var (s', w') := WriterStep(s, head, w);
            WellFormed(s'.m, head, s'.height, levels) && OnItsWay(s', head, levels, w', m0, levels0) &&
            LevelOk(s.m, head, levels[0], 0) && LevelOk(s'.m, head, levels[0], 0) &&
            Entries(s'.m, levels[0]) == Entries(s.m, levels[0])
  {
    hide Less, WellFormed;
    var l := w.pc.l;
    PrepareShape(s.m, head, s.height, levels, w.x, l, w.next[l]);
    SpliceFrame(s.m, SetTower(s.m, w.x, l, w.next[l]), head, levels[l], w.node.key, w.prev[l], w.next[l]);
  }

  /** The predecessor points to the node, which is on the level from then on. */
  lemma SwingSound(s: List, head: nat, levels: seq<seq<nat>>, w: Writer, m0: Memory, levels0: seq<seq<nat>>)
    returns (levels': seq<seq<nat>>)
    requires WellFormed(s.m, head, s.height, levels) && w.pc.Swing? && OnItsWay(s, head, levels, w, m0, levels0)
    ensures Ready(s, head, w) && WriterStep(s, head, w).1.pc == Level(w.pc.l + 1)
    ensures var (s', w') := WriterStep(s, head, w);
            WellFormed(s'.m, head, s'.height, levels') && OnItsWay(s', head, levels', w', m0, levels0) &&
            LevelOk(s.m, head, levels[0], 0) && LevelOk(s'.m, head, levels'[0], 0) &&
            Entries(s'.m, levels'[0]) ==
              (if w.pc.l == 0 then Put(Entries(s.m, levels[0]), w.node.key, w.node.vs) else Entries(s.m, levels[0])) &&
            Grows(Snapshot(s.m, s.height, levels), Snapshot(s'.m, s'.height, levels'))
  {
    var p := SwingFacts(s, head, levels, w, m0, levels0);
    hide *;
    var l, x, key := w.pc.l, w.x, w.node.key;
    var m' := SetTower(s.m, w.prev[l], l, x);
    levels' := levels[l := Inserted(levels[l], p, x)];
    LinkShape(s.m, head, s.height, levels, l, x, key, p);
    LinkedMore(s.m, head, levels, m0, levels0, x, w.node, key, l, p, w.prev[l]);
    SwingGrows(s.m, s.height, levels, x, l, p, w.prev[l]);
    SwingDone(s, head, levels', w, m0, levels0, m');
  }

  /** What linking one level needs. */
  lemma SwingFacts(s: List, head: nat, levels: seq<seq<nat>>, w: Writer, m0: Memory, levels0: seq<seq<nat>>)
    returns (p: nat)
    requires WellFormed(s.m, head, s.height, levels) && w.pc.Swing? && OnItsWay(s, head, levels, w, m0, levels0)
    ensures var l, x, key := w.pc.l, w.x, w.node.key;
            && |key| >= 8 && |levels| == MAX_HEIGHT && l < s.height && l < MAX_HEIGHT
            && LevelOk(s.m, head, levels[0], 0) && LevelOk(s.m, head, levels[l], l) && Gap(s.m, levels[l], key, p)
            && Cell(s.m, x, l) && x != head && s.m[x].key == key && s.m[x].vs == w.node.vs
            && (forall k :: 0 <= k < l ==> x in levels[k]) && (forall k :: l <= k < MAX_HEIGHT ==> x !in levels[k])
            && p <= |levels[l]| && s.m[x].tower[l] == After(levels[l], p)
            && |w.prev| == |w.next| == MAX_HEIGHT + 1 && w.prev[l] == Before(head, levels[l], p)
            && w.prev[l] in s.m && l < |s.m[w.prev[l]].tower| && s.m[w.prev[l]].tower[l] == w.next[l]
            && Linking(s.m, head, levels, m0, levels0, x, w.node, key, l) && l < |w.node.tower| <= s.height
            && Unlinked(m0, head, levels0, key, |w.node.tower|, l + 1, w.prev, w.next) && Ready(s, head, w)
  {
    hide Less;
    var l, key := w.pc.l, w.node.key;
    assert LevelOk(s.m, head, levels[0], 0) && LevelOk(s.m, head, levels[l], l);
    p :| Gap(s.m, levels[l], key, p) && w.prev[l] == Before(head, levels[l], p) && w.next[l] == After(levels[l], p);
    assert s.m[Before(head, levels[l], p)].tower[l] == After(levels[l], p);
    assert p > 0 ==> Cell(s.m, levels[l][p - 1], l);
  }

  lemma SwingDone(s: List, head: nat, levels': seq<seq<nat>>, w: Writer, m0: Memory, levels0: seq<seq<nat>>,
                  m': Memory)
    requires w.pc.Swing? && |levels'| == MAX_HEIGHT && Ready(s, head, w) && w.pc.l < |w.node.tower| <= s.height
    requires s.m[w.prev[w.pc.l]].tower[w.pc.l] == w.next[w.pc.l] && m' == SetTower(s.m, w.prev[w.pc.l], w.pc.l, w.x)
    requires Linking(m', head, levels', m0, levels0, w.x, w.node, w.node.key, w.pc.l + 1)
    requires Unlinked(m0, head, levels0, w.node.key, |w.node.tower|, w.pc.l + 1, w.prev, w.next)
    ensures WriterStep(s, head, w) == (s.(m := m'), w.(pc := Level(w.pc.l + 1)))
    ensures OnItsWay(s.(m := m'), head, levels', w.(pc := Level(w.pc.l + 1)), m0, levels0)
  {
    hide Linking, Unlinked;
  }

  lemma LinkedMore(m: Memory, head: nat, levels: seq<seq<nat>>, m0: Memory, levels0: seq<seq<nat>>, x: nat,
                   node: Node, key: Key, l: nat, p: nat, prev: nat)
    requires Linking(m, head, levels, m0, levels0, x, node, key, l) && l < |node.tower| && p <= |levels[l]|
    requires prev in m && l < |m[prev].tower|
    ensures Linking(SetTower(m, prev, l, x), head, levels[l := Inserted(levels[l], p, x)], m0, levels0, x, node, key,
                    l + 1)
  {
    InsertedHolds(levels[l], p, x);
  }

  lemma SwingGrows(m: Memory, height: nat, levels: seq<seq<nat>>, x: nat, l: nat, p: nat, prev: nat)
    requires |levels| == MAX_HEIGHT && l < MAX_HEIGHT && p <= |levels[l]| && prev in m && l < |m[prev].tower|
    ensures Grows(Snapshot(m, height, levels),
                  Snapshot(SetTower(m, prev, l, x), height, levels[l := Inserted(levels[l], p, x)]))
  {
    InsertedHolds(levels[l], p, x);
  }

  lemma InsertedHolds(xs: seq<nat>, p: nat, x: nat)
    requires p <= |xs|
    ensures forall o :: o in Inserted(xs, p, x) <==> o in xs || o == x
  {
    var ys := Inserted(xs, p, x);
    forall o | o in xs ensures o in ys {
      var i := IndexOf(xs, o);
      assert ys[if i < p then i else i + 1] == o;
    }
    assert ys[p] == x;
  }

  /** What a step of the writer keeps: the list is well formed, readers lose nothing, and it shows what it showed
      before, except that the base link, or the new value of a node that is there, performs the put. */
  ghost predicate StepOk(s: List, head: nat, levels: seq<seq<nat>>, w: Writer, s': List, levels': seq<seq<nat>>)
  {
    && WellFormed(s.m, head, s.height, levels) && WellFormed(s'.m, head, s'.height, levels')
    && LevelOk(s.m, head, levels[0], 0) && LevelOk(s'.m, head, levels'[0], 0)
    && Grows(Snapshot(s.m, s.height, levels), Snapshot(s'.m, s'.height, levels')) && |w.node.key| >= 8
    && Entries(s'.m, levels'[0]) ==
         if w.pc == Swing(0) || w.pc.Replace? then Put(Entries(s.m, levels[0]), w.node.key, w.node.vs)
         else Entries(s.m, levels[0])
  }

  ghost function StepsLeft(w: Writer): nat
  {
    var h := |w.node.tower|;
    match w.pc
    case Place => h + 2
    case Raise => h + 1
    case Replace(_) => 1
    case Done => 0
    case _ => if w.pc.l < h then h - w.pc.l else 0
  }

  ghost function TurnsLeft(w: Writer): nat
  {
    match w.pc
    case Level(_) => 3
    case Seek(_, _) => 2
    case Own(_) => 1
    case _ => 0
  }

  ghost function NodesLeft(head: nat, levels: seq<seq<nat>>, w: Writer): nat
  {
    if w.pc.Seek? && w.pc.l < |levels| && (w.pc.at == head || w.pc.at in levels[w.pc.l])
    then |levels[w.pc.l]| - Position(head, levels[w.pc.l], w.pc.at)
    else 0
  }

  ghost predicate Nearer(head: nat, levels: seq<seq<nat>>, w: Writer, levels': seq<seq<nat>>, w': Writer)
  {
    || StepsLeft(w') < StepsLeft(w)
    || (StepsLeft(w') == StepsLeft(w) && TurnsLeft(w') < TurnsLeft(w))
    || (StepsLeft(w') == StepsLeft(w) && TurnsLeft(w') == TurnsLeft(w) &&
        NodesLeft(head, levels', w') < NodesLeft(head, levels, w))
  }

  /** The put has happened for readers. */
  predicate Published(w: Writer)
  {
    match w.pc
    case Place => false
    case Raise => false
    case Replace(_) => false
    case Done => true
    case _ => w.pc.l > 0
  }

  lemma NothingMoves(s: List, head: nat, levels: seq<seq<nat>>, w: Writer, height: nat)
    requires WellFormed(s.m, head, s.height, levels) && s.height <= height <= MAX_HEIGHT && |w.node.key| >= 8
    requires w.pc != Swing(0) && !w.pc.Replace?
    ensures StepOk(s, head, levels, w, s.(height := height), levels)
  {
    assert LevelOk(s.m, head, levels[0], 0);
  }

  /** All that a step achieves. */
  ghost predicate Advanced(s: List, head: nat, levels: seq<seq<nat>>, w: Writer, m0: Memory, levels0: seq<seq<nat>>,
                           levels': seq<seq<nat>>)
  {
    && Ready(s, head, w)
    && var (s', w') := WriterStep(s, head, w);
       && StepOk(s, head, levels, w, s', levels') && OnItsWay(s', head, levels', w', m0, levels0)
       && OneStore(s, s') && Nearer(head, levels, w, levels', w') && w'.node == w.node && w'.x == w.x
       && (Published(w') <==> Published(w) || w.pc == Swing(0) || w.pc.Replace?)
  }

  lemma PlaceAdvances(s: List, head: nat, levels: seq<seq<nat>>, w: Writer, m0: Memory, levels0: seq<seq<nat>>)
    requires WellFormed(s.m, head, s.height, levels) && OnItsWay(s, head, levels, w, m0, levels0) && w.pc == Place
    ensures Advanced(s, head, levels, w, m0, levels0, levels)
  {
    hide WellFormed, LevelOk, Linking, Unlinked, Put, Grows, OneStore;
    PlaceSound(s, head, levels, w); PlaceGrows(s, levels, w.x, w.node); WriterStepOneStore(s, head, w);
  }

  lemma RaiseAdvances(s: List, head: nat, levels: seq<seq<nat>>, w: Writer, m0: Memory, levels0: seq<seq<nat>>)
    requires WellFormed(s.m, head, s.height, levels) && OnItsWay(s, head, levels, w, m0, levels0) && w.pc == Raise
    ensures Advanced(s, head, levels, w, m0, levels0, levels)
  {
    assert s.height <= MAX_HEIGHT;
    hide WellFormed, LevelOk, Linking, Unlinked, Grows, OneStore, StepOk;
    NothingMoves(s, head, levels, w, if |w.node.tower| > s.height then |w.node.tower| else s.height);
    WriterStepOneStore(s, head, w);
  }

  lemma LevelAdvances(s: List, head: nat, levels: seq<seq<nat>>, w: Writer, m0: Memory, levels0: seq<seq<nat>>)
    requires WellFormed(s.m, head, s.height, levels) && OnItsWay(s, head, levels, w, m0, levels0) && w.pc.Level?
    ensures Advanced(s, head, levels, w, m0, levels0, levels)
  {
    assert s.height <= MAX_HEIGHT && |w.node.tower| >= 1 && |w.node.key| >= 8;
    LevelSound(s, head, levels, w, m0, levels0);
    hide WellFormed, OnItsWay, OneStore, StepOk;
    NothingMoves(s, head, levels, w, s.height);
    WriterStepOneStore(s, head, w);
  }

  lemma SeekAdvances(s: List, head: nat, levels: seq<seq<nat>>, w: Writer, m0: Memory, levels0: seq<seq<nat>>)
    requires WellFormed(s.m, head, s.height, levels) && OnItsWay(s, head, levels, w, m0, levels0) && w.pc.Seek?
    ensures Advanced(s, head, levels, w, m0, levels0, levels)
  {
    assert s.height <= MAX_HEIGHT && 1 < w.pc.l < |w.node.tower| && |w.node.key| >= 8;
    SeekSound(s, head, levels, w, m0, levels0);
    SeekWithin(s, head, levels, w, m0, levels0);
    SeekWithin(s, head, levels, WriterStep(s, head, w).1, m0, levels0);
    hide WellFormed, OnItsWay, OneStore, StepOk;
    NothingMoves(s, head, levels, w, s.height);
    WriterStepOneStore(s, head, w);
  }

  lemma SeekWithin(s: List, head: nat, levels: seq<seq<nat>>, w: Writer, m0: Memory, levels0: seq<seq<nat>>)
    requires OnItsWay(s, head, levels, w, m0, levels0)
    ensures w.pc.Seek? ==> w.pc.l < |levels| && (w.pc.at == head || w.pc.at in levels[w.pc.l])
  {
  }

  lemma OwnAdvances(s: List, head: nat, levels: seq<seq<nat>>, w: Writer, m0: Memory, levels0: seq<seq<nat>>)
    requires WellFormed(s.m, head, s.height, levels) && OnItsWay(s, head, levels, w, m0, levels0) && w.pc.Own?
    ensures Advanced(s, head, levels, w, m0, levels0, levels)
  {
    OwnSound(s, head, levels, w, m0, levels0);
    hide WellFormed, LevelOk, OnItsWay, Put, Grows, OneStore;
    OwnGrows(s, levels, w.x, w.pc.l, w.next[w.pc.l]); WriterStepOneStore(s, head, w);
  }

  lemma SwingAdvances(s: List, head: nat, levels: seq<seq<nat>>, w: Writer, m0: Memory, levels0: seq<seq<nat>>)
    returns (levels': seq<seq<nat>>)
    requires WellFormed(s.m, head, s.height, levels) && OnItsWay(s, head, levels, w, m0, levels0) && w.pc.Swing?
    ensures Advanced(s, head, levels, w, m0, levels0, levels')
  {
    levels' := SwingSound(s, head, levels, w, m0, levels0);
    hide WellFormed, LevelOk, Linking, Unlinked, Splice, Put, Grows, OneStore;
    WriterStepOneStore(s, head, w);
  }

  lemma ReplaceAdvances(s: List, head: nat, levels: seq<seq<nat>>, w: Writer, m0: Memory, levels0: seq<seq<nat>>)
    requires WellFormed(s.m, head, s.height, levels) && OnItsWay(s, head, levels, w, m0, levels0) && w.pc.Replace?
    ensures Advanced(s, head, levels, w, m0, levels0, levels)
  {
    hide WellFormed, LevelOk, Put, Grows, OneStore;
    SetValueShape(s.m, head, s.height, levels, w.pc.o, w.node.vs);
    ReplaceGrows(s, levels, w.pc.o, w.node.vs); WriterStepOneStore(s, head, w);
  }

  /** Each step from a well-formed list keeps it well formed for readers, makes at most one store and brings the
      put nearer to its end. */
  lemma WriterStepSound(s: List, head: nat, levels: seq<seq<nat>>, w: Writer, m0: Memory, levels0: seq<seq<nat>>)
    returns (levels': seq<seq<nat>>)
    requires WellFormed(s.m, head, s.height, levels) && OnItsWay(s, head, levels, w, m0, levels0) && w.pc != Done
    ensures Advanced(s, head, levels, w, m0, levels0, levels')
  {
    hide WellFormed, OnItsWay, Advanced;
    levels' := levels;
    match w.pc {
      case Place => PlaceAdvances(s, head, levels, w, m0, levels0);
      case Own(_) => OwnAdvances(s, head, levels, w, m0, levels0);
      case Swing(_) => levels' := SwingAdvances(s, head, levels, w, m0, levels0);
      case Replace(_) => ReplaceAdvances(s, head, levels, w, m0, levels0);
      case Raise => RaiseAdvances(s, head, levels, w, m0, levels0);
      case Level(_) => LevelAdvances(s, head, levels, w, m0, levels0);
      case Seek(_, _) => SeekAdvances(s, head, levels, w, m0, levels0);
    }
  }

  lemma PlaceGrows(s: List, levels: seq<seq<nat>>, x: nat, node: Node)
    requires |levels| == MAX_HEIGHT && x !in s.m
    ensures Grows(Snapshot(s.m, s.height, levels), Snapshot(s.m[x := node], s.height, levels))
  {
  }

  lemma OwnGrows(s: List, levels: seq<seq<nat>>, x: nat, l: nat, v: nat)
    requires |levels| == MAX_HEIGHT && x in s.m && l < |s.m[x].tower|
    ensures Grows(Snapshot(s.m, s.height, levels), Snapshot(SetTower(s.m, x, l, v), s.height, levels))
  {
  }

  lemma ReplaceGrows(s: List, levels: seq<seq<nat>>, o: nat, vs: ValueStruct)
    requires |levels| == MAX_HEIGHT && o in s.m
    ensures Grows(Snapshot(s.m, s.height, levels), Snapshot(SetValue(s.m, o, vs), s.height, levels))
  {
  }

  /** Known neighbours are still neighbours, since only lower levels have changed. */
  lemma LevelSound(s: List, head: nat, levels: seq<seq<nat>>, w: Writer, m0: Memory, levels0: seq<seq<nat>>)
    requires WellFormed(s.m, head, s.height, levels) && w.pc.Level? && OnItsWay(s, head, levels, w, m0, levels0)
    ensures Ready(s, head, w) && OnItsWay(s, head, levels, WriterStep(s, head, w).1, m0, levels0)
  {
    var l := w.pc.l;
    if l < |w.node.tower| && w.prev[l] != 0 {
      SpliceFrame(m0, s.m, head, levels[l], w.node.key, w.prev[l], w.next[l]);
    }
  }

  // ---------- a put and a search, interleaved ----------

  datatype Moment = Moment(list: List, w: Writer, r: Reader)

  function At(s: List, levels: seq<seq<nat>>): Snapshot { Snapshot(s.m, s.height, levels) }

  /** At each moment the writer or the reader makes its next memory access. */
  ghost predicate Interleaved(ms: seq<Moment>, head: nat, key: Key, less: bool, allowEqual: bool)
  {
    forall i :: 0 <= i < |ms| - 1 ==>
      WriterMoves(ms[i], ms[i + 1], head) || ReaderMoves(ms[i], ms[i + 1], head, key, less, allowEqual)
  }

  ghost predicate WriterMoves(a: Moment, b: Moment, head: nat)
  {
    b.r == a.r && Ready(a.list, head, a.w) && (b.list, b.w) == WriterStep(a.list, head, a.w)
  }

  ghost predicate ReaderMoves(a: Moment, b: Moment, head: nat, key: Key, less: bool, allowEqual: bool)
  {
    b.list == a.list && b.w == a.w && Readable(a.list.m, a.r) &&
    b.r == SearchStep(a.list.m, head, key, less, allowEqual, a.r)
  }

  /** A put that has done its first loop in a well-formed list. */
  ghost predicate Starts(s: List, head: nat, levels: seq<seq<nat>>, w: Writer)
  {
    && WellFormed(s.m, head, s.height, levels) && OnItsWay(s, head, levels, w, s.m, levels)
    && (w.pc.Place? || w.pc.Replace?)
  }

  /** The trace lists the list at every moment, and the list changes by at most one store from one to the next. */
  ghost predicate Traces(trace: seq<Snapshot>, ms: seq<Moment>)
  {
    && 0 < |trace| <= |ms|
    && (forall i :: 0 <= i < |trace| ==> trace[i].m == ms[i].list.m && trace[i].height == ms[i].list.height)
    && (forall i :: 0 < i < |trace| ==> OneStore(ms[i - 1].list, ms[i].list))
  }

  /** Contents before and after the put. */
  ghost function Was(s: List, head: nat, levels: seq<seq<nat>>): Run
    requires WellFormed(s.m, head, s.height, levels)
  {
    RunAt(At(s, levels), head)
  }

  ghost function WillBe(s: List, head: nat, levels: seq<seq<nat>>, w: Writer): Run
    requires WellFormed(s.m, head, s.height, levels) && |w.node.key| >= 8
  {
    Put(Was(s, head, levels), w.node.key, w.node.vs)
  }

  lemma {:induction false} WriterTrace(ms: seq<Moment>, head: nat, key: Key, less: bool, allowEqual: bool,
                                       levels: seq<seq<nat>>, n: nat) returns (trace: seq<Snapshot>)
    requires n < |ms| && Interleaved(ms, head, key, less, allowEqual)
    requires Starts(ms[0].list, head, levels, ms[0].w)
    ensures |trace| == n + 1 && Traces(trace, ms) && trace[0] == At(ms[0].list, levels) && Evolves(trace, head)
    ensures ShowsOneOf(trace, head, Was(ms[0].list, head, levels), WillBe(ms[0].list, head, levels, ms[0].w))
    ensures OnItsWay(ms[n].list, head, trace[n].levels, ms[n].w, ms[0].list.m, levels)
    ensures ms[n].w.node == ms[0].w.node && WellFormedAt(trace[n], head)
    ensures RunAt(trace[n], head) ==
              if Published(ms[n].w) then WillBe(ms[0].list, head, levels, ms[0].w) else Was(ms[0].list, head, levels)
  {
    hide WellFormed, OnItsWay, Grows, OneStore, Put, LevelOk, Entries, Published;
    if n == 0 {
      NotPublished(ms[0].list, head, levels, ms[0].w);
      trace := [At(ms[0].list, levels)];
    } else {
      var was := WriterTrace(ms, head, key, less, allowEqual, levels, n - 1);
      var a, b := ms[n - 1], ms[(n - 1) + 1];
      assert WriterMoves(a, b, head) || ReaderMoves(a, b, head, key, less, allowEqual);
      assert was[n - 1] == At(a.list, was[n - 1].levels);
      var levels' := Onward(a.list, head, was[n - 1].levels, a.w, ms[0].list.m, levels, b.list, b.w);
      trace := was + [At(b.list, levels')];
      ExtendTrace(was, At(b.list, levels'), head, Was(ms[0].list, head, levels),
                  WillBe(ms[0].list, head, levels, ms[0].w));
    }
  }

  /** The next moment, whoever moves. */
  lemma Onward(s: List, head: nat, levels: seq<seq<nat>>, w: Writer, m0: Memory, levels0: seq<seq<nat>>,
               s': List, w': Writer) returns (levels': seq<seq<nat>>)
    requires WellFormed(s.m, head, s.height, levels) && OnItsWay(s, head, levels, w, m0, levels0)
    requires (s' == s && w' == w) || (Ready(s, head, w) && (s', w') == WriterStep(s, head, w))
    ensures WellFormedAt(At(s', levels'), head) && OnItsWay(s', head, levels', w', m0, levels0)
    ensures Grows(At(s, levels), At(s', levels')) && OneStore(s, s') && w'.node == w.node && |w.node.key| >= 8
    ensures RunAt(At(s', levels'), head) ==
              if Published(w') && !Published(w) then Put(RunAt(At(s, levels), head), w.node.key, w.node.vs)
              else RunAt(At(s, levels), head)
    ensures Published(w) ==> Published(w')
  {
    if (s' == s && w' == w) || w.pc == Done {
      levels' := levels;
    } else {
      levels' := WriterTurn(s, head, levels, w, m0, levels0);
      hide WellFormed, OnItsWay, Grows, OneStore, Put, LevelOk, Entries, Published, Nearer, Ready, WriterStep;
    }
  }

  /** What one turn of the writer's loop does. */
  lemma WriterTurn(s: List, head: nat, levels: seq<seq<nat>>, w: Writer, m0: Memory, levels0: seq<seq<nat>>)
    returns (levels': seq<seq<nat>>)
    requires WellFormed(s.m, head, s.height, levels) && OnItsWay(s, head, levels, w, m0, levels0) && w.pc != Done
    ensures Ready(s, head, w) && LevelOk(s.m, head, levels[0], 0) && |w.node.key| >= 8
    ensures var (s', w') := WriterStep(s, head, w);
            && WellFormed(s'.m, head, s'.height, levels') && LevelOk(s'.m, head, levels'[0], 0)
            && OnItsWay(s', head, levels', w', m0, levels0) && w'.node == w.node && w'.x == w.x && !w'.pc.Place?
            && Grows(At(s, levels), At(s', levels')) && OneStore(s, s') && Nearer(head, levels, w, levels', w')
            && (Published(w) ==> Published(w'))
            && Entries(s'.m, levels'[0]) ==
                 if Published(w') && !Published(w) then Put(Entries(s.m, levels[0]), w.node.key, w.node.vs)
                 else Entries(s.m, levels[0])
  {
    PublishOnce(s, head, levels, w, m0, levels0);
    levels' := WriterStepSound(s, head, levels, w, m0, levels0);
    hide WellFormed, OnItsWay, Grows, OneStore, Put, LevelOk, Entries, Published, Nearer;
  }

  lemma PublishOnce(s: List, head: nat, levels: seq<seq<nat>>, w: Writer, m0: Memory, levels0: seq<seq<nat>>)
    requires OnItsWay(s, head, levels, w, m0, levels0)
    ensures w.pc == Swing(0) || w.pc.Replace? ==> !Published(w)
  {
  }

  lemma NotPublished(s: List, head: nat, levels: seq<seq<nat>>, w: Writer)
    requires Starts(s, head, levels, w)
    ensures |w.node.key| >= 8 && !Published(w)
  {
  }

  ghost predicate SingleStores(trace: seq<Snapshot>)
  {
    forall i :: 0 < i < |trace| ==> OneStore(ListOf(trace[i - 1]), ListOf(trace[i]))
  }

  function ListOf(s: Snapshot): List { List(s.m, s.height) }

  ghost function ReadersOf(ms: seq<Moment>, n: nat): (rs: seq<Reader>)
    requires n < |ms|
    ensures |rs| == n + 1 && forall i :: 0 <= i <= n ==> rs[i] == ms[i].r
  {
    seq(n + 1, i requires 0 <= i <= n => ms[i].r)
  }

  /** A put and a search that take turns in any way, one memory access at a time: neither ever follows a bad pointer,
      the list always shows the contents before or after the put, and the answer is right for the list at one of the
      moments of the search. */
  lemma PutWithSearch(ms: seq<Moment>, head: nat, key: Key, less: bool, allowEqual: bool, levels: seq<seq<nat>>,
                      n: nat) returns (trace: seq<Snapshot>)
    requires n < |ms| && Interleaved(ms, head, key, less, allowEqual)
    requires Starts(ms[0].list, head, levels, ms[0].w) && ms[0].r == Searching(head, ms[0].list.height - 1)
    ensures |trace| == n + 1 && Traces(trace, ms) && Evolves(trace, head)
    ensures ShowsOneOf(trace, head, Was(ms[0].list, head, levels), WillBe(ms[0].list, head, levels, ms[0].w))
    ensures Ready(ms[n].list, head, ms[n].w) && Readable(ms[n].list.m, ms[n].r)
    ensures ms[n].r.Answer? ==>
              exists j :: 0 <= j < n && AnswerOkAt(trace[j], head, key, less, allowEqual, ms[n].r)
  {
    hide WellFormed, OnItsWay, Grows, OneStore, Put, Published, OnTrack, SearchStep, Readable, Ready, WriterStep,
         AnswerOkAt;
    trace := WriterTrace(ms, head, key, less, allowEqual, levels, n);
    AlwaysReady(ms[n].list, head, trace[n].levels, ms[n].w, ms[0].list.m, levels);
    var rs := ReadersOf(ms, n) + [ms[n].r];
    assert Reads(trace, head, key, less, allowEqual, rs) by {
      SomeHeight(trace[0], head);
      forall i | 0 <= i < |trace|
        ensures rs[i + 1] == rs[i] ||
                (Readable(trace[i].m, rs[i]) && rs[i + 1] == SearchStep(trace[i].m, head, key, less, allowEqual, rs[i]))
      {
        if i < n {
          assert WriterMoves(ms[i], ms[i + 1], head) || ReaderMoves(ms[i], ms[i + 1], head, key, less, allowEqual);
        }
      }
    }
    ConcurrentSearch(trace, head, key, less, allowEqual, rs, n);
    OnTrackReadable(trace[n].m, head, trace[n].height, trace[n].levels, key, less, allowEqual, ms[n].r);
  }

  lemma SomeHeight(s: Snapshot, head: nat)
    requires WellFormedAt(s, head)
    ensures s.height > 0
  {
  }

  lemma AlwaysReady(s: List, head: nat, levels: seq<seq<nat>>, w: Writer, m0: Memory, levels0: seq<seq<nat>>)
    requires WellFormed(s.m, head, s.height, levels) && OnItsWay(s, head, levels, w, m0, levels0)
    ensures Ready(s, head, w)
  {
    if w.pc != Done { var _ := WriterStepSound(s, head, levels, w, m0, levels0); }
  }
}

/** The merge iterator: a binary tree of mutable iterators that yields the merge of its leaves. */
module MergeIterators {
  import opened Bytes
  import opened Keys
  import opened Values
  import opened Runs
  import opened Merges

  /** A leaf walks one run; an inner node merges two iterators. A leaf's `src` lists its entries in
      the direction of iteration. */
  class Iter {
    const rev: bool
    const src: Run
    const left: Iter?
    const right: Iter?
    var pos: nat
    var smallIsLeft: bool
    var leftValid: bool
    var leftKey: Bytes
    var rightValid: bool
    var rightKey: Bytes
    var curKey: Bytes
    ghost const Repr: set<object>
    ghost const Height: nat
    ghost const All: Run
    ghost var Remaining: Run

    /** The tree never changes its shape. */
    ghost predicate Shape()
      decreases Height
    {
      && this in Repr && Ordered(rev, All)
      && (left == null <==> right == null)
      && (left == null ==> Repr == {this} && All == src)
      && (left != null && right != null ==>
            && Repr == {this} + left.Repr + right.Repr && left in Repr && right in Repr
            && this !in left.Repr && this !in right.Repr && left.Repr !! right.Repr
            && left.Height < Height && right.Height < Height
            && left.rev == rev && right.rev == rev
            && left.Shape() && right.Shape()
            && All == Merge(rev, left.All, right.All))
    }

    ghost predicate IsLeaf() { left == null || right == null }

    /** Both children stand somewhere and the cached keys are theirs. */
    ghost predicate ChildrenReady()
      requires Shape() && left != null && right != null
      reads Repr
      decreases Height, 0
    {
      && left.Ready() && right.Ready()
      && leftValid == (left.Remaining != []) && (leftValid ==> leftKey == left.Remaining[0].key)
      && rightValid == (right.Remaining != []) && (rightValid ==> rightKey == right.Remaining[0].key)
    }

    /** What is still to come, and which child it comes from. */
    ghost predicate Ready()
      requires Shape()
      reads Repr
      decreases Height, 1
    {
      && Ordered(rev, Remaining)
      && (left == null ==> pos <= |src| && Remaining == src[pos..])
      && (left != null && right != null ==>
            && ChildrenReady()
            && Remaining == Merge(rev, left.Remaining, right.Remaining)
            && Settled(rev, left.Remaining, right.Remaining, smallIsLeft)
            && (Remaining != [] ==> curKey == Remaining[0].key))
    }

    constructor Leaf(rev: bool, src: Run)
      requires Ordered(rev, src)
      ensures Shape() && Ready() && IsLeaf() && fresh(Repr) && this.rev == rev
      ensures All == src && Remaining == src
    {
      this.rev, this.src := rev, src;
      left, right := null, null;
      pos, smallIsLeft, leftValid, leftKey, rightValid, rightKey, curKey := 0, true, false, [], false, [], [];
      Repr, Height, All, Remaining := {this}, 0, src, src;
    }

    constructor Merge2(a: Iter, b: Iter)
      requires a.Shape() && b.Shape() && a.rev == b.rev && a.Repr !! b.Repr
      ensures Shape() && rev == a.rev && Repr == {this} + a.Repr + b.Repr
      ensures All == Merge(rev, a.All, b.All)
    {
      rev, src, left, right := a.rev, [], a, b;
      pos, smallIsLeft, leftValid, leftKey, rightValid, rightKey, curKey := 0, true, false, [], false, [], [];
      Repr := {this} + a.Repr + b.Repr;
      Height := a.Height + b.Height + 1;
      All := Merge(a.rev, a.All, b.All);
      Remaining := [];
      MergeMembers(a.rev, a.All, b.All) by { assert a.Shape() && b.Shape(); }
    }

    method Valid() returns (v: bool)
      requires Shape() && Ready()
      ensures v <==> Remaining != []
    {
      if left == null {
        v := pos < |src|;
      } else {
        v := if smallIsLeft then leftValid else rightValid;
      }
    }

    method Key() returns (k: Key)
      requires Shape() && Ready() && Remaining != []
      ensures k == Remaining[0].key
    {
      if left == null {
        k := src[pos].key;
      } else {
        k := if smallIsLeft then leftKey else rightKey;
      }
    }

    method Value() returns (v: ValueStruct)
      requires Shape() && Ready() && Remaining != []
      ensures v == Remaining[0].vs
      decreases Height
    {
      if left == null {
        v := src[pos].vs;
      } else if smallIsLeft {
        v := left.Value();
      } else {
        v := right.Value();
      }
    }

    /** setKey for the left child, then for the right. */
    method SetLeft()
      requires Shape() && left != null && right != null && left.Ready()
      modifies this`leftValid, this`leftKey
      ensures leftValid == (left.Remaining != []) && (leftValid ==> leftKey == left.Remaining[0].key)
    {
      leftValid := left.Valid();
      if leftValid { leftKey := left.Key(); }
    }

    method SetRight()
      requires Shape() && left != null && right != null && right.Ready()
      modifies this`rightValid, this`rightKey
      ensures rightValid == (right.Remaining != []) && (rightValid ==> rightKey == right.Remaining[0].key)
    {
      rightValid := right.Valid();
      if rightValid { rightKey := right.Key(); }
    }

    /** An inner node whose children are ready and settled is ready itself. */
    lemma FoldReady()
      requires Shape() && left != null && right != null && ChildrenReady()
      requires Settled(rev, left.Remaining, right.Remaining, smallIsLeft)
      requires Remaining == Merge(rev, left.Remaining, right.Remaining) &&
               (Remaining != [] ==> curKey == Remaining[0].key)
      ensures Ready()
    {
      hide Merge, Settled, Ahead;
      assert Ordered(rev, left.Remaining) && Ordered(rev, right.Remaining);
      hide Ordered;
      MergeMembers(rev, left.Remaining, right.Remaining);
    }

    lemma UnfoldReady()
      requires Shape() && Ready() && left != null && right != null
      ensures ChildrenReady() && Settled(rev, left.Remaining, right.Remaining, smallIsLeft)
      ensures Remaining == Merge(rev, left.Remaining, right.Remaining) &&
              (Remaining != [] ==> curKey == Remaining[0].key)
    {
    }

    lemma ReadyOrdered()
      requires Shape() && Ready()
      ensures Ordered(rev, Remaining)
    {
    }

    /** The cached keys tell where the small side stands. */
    lemma SmallCached()
      requires Shape() && left != null && right != null && ChildrenReady()
      requires Settled(rev, left.Remaining, right.Remaining, smallIsLeft)
      ensures var m := Merge(rev, left.Remaining, right.Remaining);
              (m != [] <==> if smallIsLeft then leftValid else rightValid) &&
              (m != [] ==> m[0].key == if smallIsLeft then leftKey else rightKey)
    {
      hide Merge;
      SettledHead(rev, left.Remaining, right.Remaining, smallIsLeft);
    }

    /** setCurrent. */
    method SetCurrent(ghost rem: Run)
      requires Shape() && left != null && right != null && ChildrenReady()
      requires Settled(rev, left.Remaining, right.Remaining, smallIsLeft)
      requires rem == Merge(rev, left.Remaining, right.Remaining)
      modifies this`curKey, this`Remaining
      ensures Ready() && Remaining == rem
    {
      hide Ahead, Merge, Settled, Ready, Ordered;
      curKey := if smallIsLeft then leftKey else rightKey;
      Remaining := rem;
      SmallCached(); FoldReady();
    }

    /** Choose the side that comes first; on equal keys move the right side on. */
    method Fix()
      requires Shape() && left != null && right != null && ChildrenReady()
      modifies Repr
      ensures ChildrenReady() && Settled(rev, left.Remaining, right.Remaining, smallIsLeft)
      ensures Merge(rev, left.Remaining, right.Remaining) == old(Merge(rev, left.Remaining, right.Remaining))
      ensures |left.Remaining| + |right.Remaining| <= old(|left.Remaining| + |right.Remaining|)
      ensures curKey == old(curKey)
      decreases Height, 1
    {
      hide Ahead, Ordered, Merge, Ready, CompareKeys, Compare;
      if !(if smallIsLeft then rightValid else leftValid) { return; }
      if !(if smallIsLeft then leftValid else rightValid) { smallIsLeft := !smallIsLeft; return; }
      var small, bigger := if smallIsLeft then leftKey else rightKey, if smallIsLeft then rightKey else leftKey;
      var cmp := CompareKeys(small, bigger);
      LessTotal(small, bigger);
      AheadMeans(rev, leftKey, rightKey);
      if cmp == 0 {
        SkipEqual(rev, left.Remaining, right.Remaining) by { right.ReadyOrdered(); }
        AdvanceRight();
        if !smallIsLeft { smallIsLeft := !smallIsLeft; }
      } else if cmp < 0 {
        if rev { smallIsLeft := !smallIsLeft; }
      } else {
        if !rev { smallIsLeft := !smallIsLeft; }
      }
    }

    method AdvanceRight()
      requires Shape() && left != null && right != null && ChildrenReady() && right.Remaining != []
      modifies right.Repr, this`rightValid, this`rightKey
      ensures ChildrenReady() && right.Remaining == old(right.Remaining)[1..] && left.Remaining == old(left.Remaining)
      decreases Height, 0
    {
      hide Ready, Ordered, Merge;
      right.Next();
      SetRight();
    }

    method AdvanceLeft()
      requires Shape() && left != null && right != null && ChildrenReady() && left.Remaining != []
      modifies left.Repr, this`leftValid, this`leftKey
      ensures ChildrenReady() && left.Remaining == old(left.Remaining)[1..] && right.Remaining == old(right.Remaining)
      decreases Height, 0
    {
      hide Ready, Ordered, Merge;
      left.Next();
      SetLeft();
    }

    /** Move on past every entry with the current key. */
    method Next()
      requires Shape() && Ready() && Remaining != []
      modifies Repr
      ensures Ready() && Remaining == old(Remaining)[1..]
      decreases Height, 3
    {
      hide Ahead, Merge, Settled;
      ghost var rem := Remaining;
      if left == null {
        OrderedTail(rev, rem);
        pos := pos + 1;
        Remaining := Remaining[1..];
      } else {
        hide Ready, ChildrenReady, Ordered;
        NextMerge();
        SetCurrent(rem[1..]);
      }
    }

    method NextMerge()
      requires Shape() && Ready() && Remaining != [] && left != null && right != null
      modifies Repr
      ensures ChildrenReady() && Settled(rev, left.Remaining, right.Remaining, smallIsLeft)
      ensures Merge(rev, left.Remaining, right.Remaining) == old(Remaining)[1..]
      decreases Height, 2
    {
      hide Ahead, Merge, Settled, Ready, ChildrenReady, Ordered;
      ghost var rem := Remaining;
      UnfoldReady();
      HeadOnce(rev, rem) by { ReadyOrdered(); }
      while true
        invariant ChildrenReady() && Settled(rev, left.Remaining, right.Remaining, smallIsLeft)
        invariant curKey == rem[0].key
        invariant Merge(rev, left.Remaining, right.Remaining) == rem ||
                  Merge(rev, left.Remaining, right.Remaining) == rem[1..]
        decreases |left.Remaining| + |right.Remaining|
      {
        SettledHead(rev, left.Remaining, right.Remaining, smallIsLeft);
        SmallCached();
        if !(if smallIsLeft then leftValid else rightValid) { break; }
        if (if smallIsLeft then leftKey else rightKey) != curKey { break; }
        if smallIsLeft { AdvanceLeft(); } else { AdvanceRight(); }
        Fix();
      }
    }

    /** Rewind, from any state. */
    method Rewind()
      requires Shape()
      modifies Repr
      ensures Ready() && Remaining == All
      decreases Height, 3
    {
      hide Ahead, Merge, Settled;
      if left == null {
        pos := 0;
        Remaining := All;
      } else {
        hide Ready, ChildrenReady, Ordered;
        RewindChildren();
        Fix();
        SetCurrent(All);
      }
    }

    method RewindChildren()
      requires Shape() && left != null && right != null
      modifies Repr
      ensures ChildrenReady() && left.Remaining == left.All && right.Remaining == right.All
      decreases Height, 2
    {
      hide Ahead, Merge, Settled, Ready, Ordered;
      left.Rewind();
      SetLeft();
      right.Rewind();
      SetRight();
    }

    /** Seek, from any state: to the first entry at or past the key in the direction of iteration. */
    method Seek(key: Key)
      requires Shape()
      modifies Repr
      ensures Ready() && Remaining == Drop(rev, All, key)
      decreases Height, 3
    {
      hide Ahead, Merge, Settled, Drop;
      DropOrdered(rev, All, key);
      if left == null {
        pos := SeekRun(rev, src, key);
        Remaining := Drop(rev, All, key);
      } else {
        hide Ready, ChildrenReady;
        SeekChildren(key);
        MergeDrop(rev, left.All, right.All, key) by { assert left.Shape() && right.Shape(); }
        hide Ordered;
        Fix();
        SetCurrent(Drop(rev, All, key));
      }
    }

    method SeekChildren(key: Key)
      requires Shape() && left != null && right != null
      modifies Repr
      ensures ChildrenReady()
      ensures left.Remaining == Drop(rev, left.All, key) && right.Remaining == Drop(rev, right.All, key)
      decreases Height, 2
    {
      hide Ahead, Merge, Settled, Ready, Ordered, Drop;
      left.Seek(key);
      SetLeft();
      right.Seek(key);
      SetRight();
    }

    /** Walking from the first entry to the last yields the whole merge. */
    method Collect() returns (r: Run)
      requires Shape()
      modifies Repr
      ensures r == All
    {
      hide Ready, Ordered, Merge;
      Rewind();
      r := [];
      var more := Valid();
      while more
        invariant Shape() && Ready() && more == (Remaining != [])
        invariant r + Remaining == All
        decreases |Remaining|
      {
        var k := Key();
        var v := Value();
        ghost var rem := Remaining;
        assert rem == [rem[0]] + rem[1..];
        r := r + [Entry(k, v)];
        Next();
        more := Valid();
      }
    }
  }

  lemma AheadMeans(rev: bool, a: Bytes, b: Bytes)
    requires |a| >= 8 && |b| >= 8
    ensures Ahead(rev, a, b) <==> if rev then Less(b, a) else Less(a, b)
  {
  }

  /** Equal heads: dropping the right one leaves the merge as it is. */
  lemma SkipEqual(rev: bool, ls: Run, rs: Run)
    requires ls != [] && rs != [] && Ordered(rev, rs)
    ensures ls[0].key == rs[0].key ==>
              Merge(rev, ls, rs[1..]) == Merge(rev, ls, rs) && Settled(rev, ls, rs[1..], true)
  {
    if ls[0].key == rs[0].key && rs[1..] != [] {
      assert Ahead(rev, rs[0].key, rs[1].key);
      AheadTotal(rev, rs[0].key, rs[1].key);
    } else if ls[0].key == rs[0].key {
      assert Merge(rev, ls[1..], []) == ls[1..];
      assert ls == [ls[0]] + ls[1..];
    }
  }

  /** The head of the merge is the head of the small side, and taking it there takes it here. */
  lemma SettledHead(rev: bool, ls: Run, rs: Run, smallIsLeft: bool)
    requires Settled(rev, ls, rs, smallIsLeft)
    ensures var m := Merge(rev, ls, rs);
            (m == [] <==> ls == [] && rs == []) &&
            (m != [] ==> if smallIsLeft then ls != [] && m[0] == ls[0] && m[1..] == Merge(rev, ls[1..], rs)
                         else rs != [] && m[0] == rs[0] && m[1..] == Merge(rev, ls, rs[1..]))
  {
    if rs == [] && ls != [] { assert Merge(rev, ls[1..], rs) == ls[1..]; }
  }

  lemma HeadOnce(rev: bool, rem: Run)
    requires Ordered(rev, rem) && rem != []
    ensures |rem| > 1 ==> rem[1].key != rem[0].key
  {
    if |rem| > 1 { AheadTotal(rev, rem[0].key, rem[1].key); }
  }

  /** Where a leaf stands after a seek. */
  method SeekRun(rev: bool, src: Run, key: Key) returns (p: nat)
    requires Ordered(rev, src)
    ensures p <= |src| && src[p..] == Drop(rev, src, key)
  {
    p := 0;
    while p < |src| && Ahead(rev, src[p].key, key)
      invariant 0 <= p <= |src| && Drop(rev, src[p..], key) == Drop(rev, src, key)
    {
      assert src[p..][1..] == src[p + 1..];
      p := p + 1;
    }
  }

  /** The heads differ, and the small side is the one that comes first. */
  ghost predicate Settled(rev: bool, ls: Run, rs: Run, smallIsLeft: bool)
  {
    && (ls != [] && rs != [] ==> ls[0].key != rs[0].key && smallIsLeft == Ahead(rev, ls[0].key, rs[0].key))
    && (ls == [] && rs != [] ==> !smallIsLeft)
    && (ls != [] && rs == [] ==> smallIsLeft)
  }

  ghost function Sources(iters: seq<Iter>): seq<Run> { seq(|iters|, i requires 0 <= i < |iters| => iters[i].All) }

  ghost predicate Separate(iters: seq<Iter>, rev: bool)
  {
    && (forall i :: 0 <= i < |iters| ==> iters[i].Shape() && iters[i].rev == rev)
    && (forall i, j :: 0 <= i < j < |iters| ==> iters[i].Repr !! iters[j].Repr)
  }

  ghost function Reprs(iters: seq<Iter>): set<object> { set i, o | 0 <= i < |iters| && o in iters[i].Repr :: o }

  /** NewMergeIterator: a balanced tree over any number of iterators, whose contents are the sorted
      union with the leftmost entry of each key. */
  method NewMergeIterator(iters: seq<Iter>, rev: bool) returns (it: Iter?)
    requires Separate(iters, rev)
    ensures it == null <==> iters == []
    ensures it != null ==> it.Shape() && it.rev == rev && IsMerge(rev, Sources(iters), it.All)
    ensures it != null ==> fresh(it.Repr - Reprs(iters))
    decreases |iters|
  {
    hide Ordered, IsMerge, Merge, Iter.Shape, Separate, Reprs;
    if |iters| == 0 {
      it := null;
    } else if |iters| == 1 {
      it := iters[0];
      OneIter(iters, rev);
    } else {
      var mid := |iters| / 2;
      var xs, ys := iters[..mid], iters[mid..];
      Halves(iters, mid, rev);
      var a, b;
      a := NewMergeIterator(xs, rev);
      assert old(allocated(Reprs(iters)));
      b := NewMergeIterator(ys, rev);
      assert a.Repr !! b.Repr;
      it := new Iter.Merge2(a, b);
      JoinMerges(rev, Sources(xs), Sources(ys), a.All, b.All);
      assert Sources(iters) == Sources(xs) + Sources(ys);
    }
  }

  lemma OneIter(iters: seq<Iter>, rev: bool)
    requires Separate(iters, rev) && |iters| == 1
    ensures iters[0].Shape() && iters[0].rev == rev && IsMerge(rev, Sources(iters), iters[0].All)
    ensures iters[0].Repr <= Reprs(iters)
  {
    assert Sources(iters) == [iters[0].All];
    forall o | o in iters[0].Repr ensures o in Reprs(iters) {}
    OneMerge(rev, iters[0].All);
  }

  lemma Halves(iters: seq<Iter>, mid: nat, rev: bool)
    requires Separate(iters, rev) && mid <= |iters|
    ensures Separate(iters[..mid], rev) && Separate(iters[mid..], rev)
    ensures Reprs(iters[..mid]) !! Reprs(iters[mid..])
    ensures Reprs(iters[..mid]) <= Reprs(iters) && Reprs(iters[mid..]) <= Reprs(iters)
  {
    var xs, ys := iters[..mid], iters[mid..];
    assert forall i :: 0 <= i < |xs| ==> xs[i] == iters[i];
    assert forall i :: 0 <= i < |ys| ==> ys[i] == iters[mid + i];
    forall o | o in Reprs(xs) ensures o !in Reprs(ys) && o in Reprs(iters) {
      var i :| 0 <= i < |xs| && o in xs[i].Repr;
      assert o in iters[i].Repr;
      forall j | 0 <= j < |ys| ensures o !in ys[j].Repr { assert iters[i].Repr !! iters[mid + j].Repr; }
    }
    forall o | o in Reprs(ys) ensures o in Reprs(iters) {
      var i :| 0 <= i < |ys| && o in ys[i].Repr;
      assert o in iters[mid + i].Repr;
    }
  }
}

/** Iterating over a skiplist in both directions, as the merge tree does. */
module SkiplistIterators {
  import opened Keys
  import opened Runs
  import opened Merges
  import SkiplistShape
  import opened Skiplists

  // ---------- the answers of findNear as positions ----------

  lemma NearSeek(r: Run, target: Key, i: int)
    requires Sorted(r) && Near(r, target, false, true, i)
    ensures i == if LowerBound(r, target) < |r| then LowerBound(r, target) else -1
  {
    hide Less, LowerBound, Sorted;
    LowerBoundSplits(r, target);
    forall j | 0 <= j < |r| ensures Qualifies(r[j].key, target, false, true) <==> j >= LowerBound(r, target) {
      LessTotal(r[j].key, target);
    }
    var lb := LowerBound(r, target);
    if lb < |r| { assert Qualifies(r[lb].key, target, false, true); }
    if i >= 0 { assert Qualifies(r[i].key, target, false, true); }
  }

  lemma NearSeekForPrev(r: Run, target: Key, i: int)
    requires Sorted(r) && Near(r, target, true, true, i)
    ensures i == LastUpTo(r, target)
  {
    hide Less, LowerBound, Sorted, LastUpTo;
    var p := LastUpTo(r, target);
    forall j | 0 <= j < |r| ensures Qualifies(r[j].key, target, true, true) <==> j <= p { LastUpToIs(r, target, j); }
    if p >= 0 { assert Qualifies(r[p].key, target, true, true); }
    if i >= 0 { assert Qualifies(r[i].key, target, true, true); }
  }

  lemma NearPrev(r: Run, p: nat, i: int)
    requires Sorted(r) && p < |r| && Near(r, r[p].key, true, false, i)
    ensures i == p - 1
  {
    hide Less;
    forall j | 0 <= j < |r| ensures Less(r[j].key, r[p].key) <==> j < p { LessTotal(r[j].key, r[p].key); }
    if p > 0 { assert Qualifies(r[p - 1].key, r[p].key, true, false); }
    if i >= 0 { assert Qualifies(r[i].key, r[p].key, true, false); }
  }

  // ---------- Iterator and UniIterator ----------

  class SkipIterator {
    const list: Skiplist
    const reversed: bool
    var n: nat

    /** The iterator stands on entry p of the list, or nowhere for -1. */
    ghost predicate At(p: int)
      reads this, list
    {
      && list.Valid() && -1 <= p < |list.levels[0]|
      && n == (if p == -1 then 0 else list.levels[0][p])
    }

    constructor (list: Skiplist, reversed: bool)
      requires list.Valid()
      ensures this.list == list && this.reversed == reversed && At(-1)
    {
      this.list, this.reversed, n := list, reversed, 0;
    }

    /** The node is there exactly when the iterator stands somewhere, and holds the entry it stands on. */
    lemma Current(p: int)
      requires At(p)
      ensures n != 0 <==> p >= 0
      ensures p >= 0 ==> n in list.nodes && p < |list.Contents()| && |list.nodes[n].key| >= 8 &&
                         Entry(list.nodes[n].key, list.nodes[n].vs) == list.Contents()[p]
    {
      assert SkiplistShape.LevelOk(list.nodes, list.head, list.levels[0], 0);
      if p >= 0 { assert SkiplistShape.Cell(list.nodes, list.levels[0][p], 0); }
    }

    /** The pointers of the base level lead from entry to entry. */
    lemma BaseLink(p: int)
      requires list.Valid() && -1 <= p < |list.levels[0]|
      ensures var x := if p == -1 then list.head else list.levels[0][p];
              x in list.nodes && |list.nodes[x].tower| > 0 &&
              list.nodes[x].tower[0] == if p + 1 < |list.levels[0]| then list.levels[0][p + 1] else 0
    {
      var xs := list.levels[0];
      assert SkiplistShape.LevelOk(list.nodes, list.head, xs, 0);
      assert SkiplistShape.Before(list.head, xs, p + 1) == if p == -1 then list.head else xs[p];
      assert list.nodes[SkiplistShape.Before(list.head, xs, p + 1)].tower[0] == SkiplistShape.After(xs, p + 1);
      if p >= 0 { assert SkiplistShape.Cell(list.nodes, xs[p], 0); }
    }

    method Next(ghost p: nat)
      requires At(p)
      modifies this
      ensures At(if p + 1 < |list.Contents()| then p + 1 else -1)
    {
      BaseLink(p);
      n := list.nodes[n].tower[0];
    }

    method Prev(ghost p: nat)
      requires At(p)
      modifies this
      ensures At(p - 1)
    {
      hide Sorted;
      Current(p);
      ContentsSorted();
      var found, _ := list.FindNear(list.nodes[n].key, true, false);
      ghost var all, key := list.Contents(), list.nodes[n].key;
      ghost var i :| Near(all, key, true, false, i) && found == if i == -1 then 0 else list.levels[0][i];
      NearPrev(list.Contents(), p, i);
      n := found;
    }

    method Seek(target: Key)
      requires list.Valid()
      modifies this
      ensures var lb := LowerBound(list.Contents(), target); At(if lb < |list.Contents()| then lb else -1)
    {
      hide Sorted, LowerBound;
      ContentsSorted();
      var found, _ := list.FindNear(target, false, true);
      ghost var i :| Near(list.Contents(), target, false, true, i) && found == if i == -1 then 0 else list.levels[0][i];
      NearSeek(list.Contents(), target, i);
      n := found;
    }

    method SeekForPrev(target: Key)
      requires list.Valid()
      modifies this
      ensures At(LastUpTo(list.Contents(), target))
    {
      hide Sorted, LastUpTo;
      ContentsSorted();
      var found, _ := list.FindNear(target, true, true);
      ghost var i :| Near(list.Contents(), target, true, true, i) && found == if i == -1 then 0 else list.levels[0][i];
      NearSeekForPrev(list.Contents(), target, i);
      n := found;
    }

    method SeekToFirst()
      requires list.Valid()
      modifies this
      ensures At(if list.Contents() == [] then -1 else 0)
    {
      BaseLink(-1);
      n := list.nodes[list.head].tower[0];
    }

    method SeekToLast()
      requires list.Valid()
      modifies this
      ensures At(|list.Contents()| - 1)
    {
      n := list.FindLast();
    }

    lemma ContentsSorted()
      requires list.Valid()
      ensures Sorted(list.Contents())
    {
      assert SkiplistShape.LevelOk(list.nodes, list.head, list.levels[0], 0);
      SkiplistShape.EntriesSorted(list.nodes, list.head, list.levels[0]);
    }

    // ---------- in the direction of iteration ----------

    /** What is still to come when the iterator stands on entry p. */
    ghost function Rest(p: int): Run
      requires At(p)
      reads this, list
    {
      if p == -1 then [] else if reversed then Reversed(list.Contents()[..p + 1]) else list.Contents()[p..]
    }

    method Rewind() returns (ghost p: int)
      requires list.Valid()
      modifies this
      ensures At(p) && Rest(p) == Direction(reversed, list.Contents())
    {
      ghost var all := list.Contents();
      if !reversed {
        SeekToFirst();
        p := if all == [] then -1 else 0;
      } else {
        SeekToLast();
        p := |all| - 1;
        assert all[..|all|] == all;
      }
    }

    method UniSeek(target: Key) returns (ghost p: int)
      requires list.Valid()
      modifies this
      ensures At(p) && Rest(p) == Drop(reversed, Direction(reversed, list.Contents()), target)
    {
      hide Sorted, Drop, LowerBound, LastUpTo, Skiplist.Valid;
      ContentsSorted();
      ghost var all := list.Contents();
      DropForward(all, target); DropBackward(all, target);
      if !reversed {
        Seek(target);
        p := if LowerBound(all, target) < |all| then LowerBound(all, target) else -1;
      } else {
        SeekForPrev(target);
        p := LastUpTo(all, target);
      }
    }

    method UniNext(ghost p: nat) returns (ghost q: int)
      requires At(p)
      modifies this
      ensures At(q) && Rest(q) == old(Rest(p))[1..] && old(Rest(p)) != []
    {
      ghost var all := list.Contents();
      Current(p);
      if !reversed {
        Next(p);
        q := if p + 1 < |all| then p + 1 else -1;
      } else {
        Prev(p);
        q := p - 1;
        ReversedStep(all, p);
      }
    }

    /** The key and value read are those of the first entry that is still to come. */
    lemma Head(p: nat)
      requires At(p)
      ensures n in list.nodes && |list.nodes[n].key| >= 8 && Rest(p) != [] &&
              Rest(p)[0] == Entry(list.nodes[n].key, list.nodes[n].vs)
    {
      Current(p);
    }
  }
}

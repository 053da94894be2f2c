/** Walking a table: an index of first keys over blocks, and an iterator that goes both ways. */
module TableIterators {
  import opened Bytes
  import opened Keys
  import opened Values
  import opened Runs
  import opened Extents
  import opened Merges
  import opened TableBlocks

  /** The blocks and the index of a table that holds these runs, one a block. */
  ghost predicate IsTable(blocks: seq<Block>, index: seq<Key>, runs: seq<Run>)
  {
    && |blocks| == |index| == |runs|
    && (forall k :: 0 <= k < |runs| ==> HoldsRun(blocks[k], runs[k]) && Readable(runs[k]) && index[k] == runs[k][0].key)
    && Sorted(Flatten(runs))
  }

  // ---------- positions ----------

  /** Where the entries of block k begin in the whole table. */
  ghost function Base(runs: seq<Run>, k: nat): nat
    requires k <= |runs|
  {
    |Flatten(runs[..k])|
  }

  lemma BaseStep(runs: seq<Run>, k: nat)
    requires k < |runs|
    ensures Base(runs, k + 1) == Base(runs, k) + |runs[k]| <= |Flatten(runs)|
    ensures Base(runs, 0) == 0 && Base(runs, |runs|) == |Flatten(runs)|
    ensures forall i :: 0 <= i < |runs[k]| ==> Flatten(runs)[Base(runs, k) + i] == runs[k][i]
    ensures Flatten(runs)[Base(runs, k)..Base(runs, k + 1)] == runs[k]
  {
    hide Flatten;
    NoneFlat();
    assert runs[..0] == [];
    assert runs[..k + 1] == runs[..k] + [runs[k]];
    FlattenSnoc(runs[..k], runs[k]);
    assert runs == runs[..k + 1] + runs[k + 1..];
    FlattenAppend(runs[..k + 1], runs[k + 1..]);
    assert runs[..|runs|] == runs;
  }

  lemma NoneFlat()
    ensures Flatten<Entry>([]) == []
  {
  }

  /** Searching a stretch of a sorted run, and what that says about the whole run. */
  lemma SliceBound(all: Run, b: nat, r: Run, key: Key)
    requires Sorted(all) && r != [] && b + |r| <= |all| && all[b..b + |r|] == r
    ensures Sorted(r)
    ensures var n, whole := LowerBound(r, key), LowerBound(all, key);
            (n == 0 ==> whole <= b) && (0 < n < |r| ==> whole == b + n) && (n == |r| ==> b + n <= whole)
  {
    hide Less, LowerBound;
    assert forall i :: 0 <= i < |r| ==> r[i] == all[b + i];
    LowerBoundSplits(r, key);
    var n, whole := LowerBound(r, key), LowerBound(all, key);
    var lo, hi := b + n - 1, b + n;
    assert n > 0 ==> Less(all[lo].key, key) && lo < |all|;
    assert n < |r| ==> !Less(all[hi].key, key) && hi < |all|;
    hide Sorted;
    LowerBoundSplits(all, key);
  }

  // ---------- the iterator ----------

  class TableIterator {
    const blocks: seq<Block>
    const index: seq<Key>
    const bi: BlockIterator
    const reversed: bool
    var bpos: int
    var eof: bool
    ghost const runs: seq<Run>
    ghost const All: Run

    ghost predicate Shape() { IsTable(blocks, index, runs) && All == Flatten(runs) }

    /** A block is loaded, and its iterator stands in it or at one of its ends. */
    ghost predicate Loaded()
      reads this, bi
    {
      && Shape() && 0 <= bpos < |runs| && bi.Valid() && bi.run == runs[bpos] && bi.data != []
      && 0 <= bi.idx <= |bi.run| && bi.eof == !(0 <= bi.idx < |bi.run|)
      && (!bi.eof ==> bi.key == bi.run[bi.idx].key && bi.val == Encoded(bi.run[bi.idx].vs))
    }

    /** The block to go to next was left unread. */
    ghost predicate Unloaded()
      reads this, bi
    {
      Shape() && -1 <= bpos <= |runs| && bi.data == []
    }

    /** The index in the table of the entry the iterator stands on. */
    ghost function Pos(): int
      requires Loaded()
      reads this, bi
    {
      Base(runs, bpos) + bi.idx
    }

    ghost predicate At(p: int)
      reads this, bi
    {
      Loaded() && !eof && !bi.eof && Pos() == p
    }

    /** What At means to a caller. */
    lemma Current(p: int)
      requires At(p)
      ensures 0 <= p < |All| && bi.key == All[p].key && bi.val == Encoded(All[p].vs)
    {
      hide IsTable, Flatten, Base, BlockIterator.Valid, Encoded;
      BaseStep(runs, bpos);
      assert All[Base(runs, bpos) + bi.idx] == runs[bpos][bi.idx];
    }

    constructor (blocks: seq<Block>, index: seq<Key>, reversed: bool, ghost runs: seq<Run>)
      requires IsTable(blocks, index, runs) && runs != []
      ensures Shape() && this.runs == runs && this.reversed == reversed && fresh(bi) && At(0)
    {
      this.blocks, this.index, this.reversed, this.runs := blocks, index, reversed, runs;
      All := Flatten(runs);
      bi := new BlockIterator();
      bpos, eof := 0, false;
      new;
      BaseStep(runs, 0);
      NextEntry();
    }

    method SeekToFirst()
      requires Shape()
      modifies this, bi
      ensures if runs == [] then eof else At(0)
    {
      hide IsTable, Sorted, Readable, HoldsRun, Encoded, Base, Flatten, BlockIterator.Valid;
      TableSizes(blocks, index, runs);
      if |index| == 0 { eof := true; return; }
      BaseStep(runs, 0); TableBlock(blocks, index, runs, 0);
      bpos := 0;
      bi.SetBlock(blocks[0], runs[0]);
      bi.SetIdx(0);
      eof := bi.eof;
    }

    method SeekToLast()
      requires Shape()
      modifies this, bi
      ensures if runs == [] then eof else At(|All| - 1)
    {
      hide IsTable, Sorted, Readable, HoldsRun, Encoded, Base, Flatten, Cells, Starts, Common;
      TableSizes(blocks, index, runs);
      if |index| == 0 { eof := true; return; }
      bpos := |index| - 1;
      BaseStep(runs, bpos); TableBlock(blocks, index, runs, bpos);
      bi.SetBlock(blocks[bpos], runs[bpos]);
      bi.SetIdx(|bi.entryOffsets| - 1);
      eof := bi.eof;
    }

    method SeekHelper(k: nat, key: Key)
      requires Shape() && k < |runs|
      modifies this, bi
      ensures Loaded() && bpos == k && bi.idx == LowerBound(runs[k], key) && eof == bi.eof
      ensures eof ==> bi.key != key
    {
      hide LowerBound, Sorted, Readable, HoldsRun, Encoded;
      BlockSearch(blocks, index, runs, k, key);
      bpos := k;
      bi.SetBlock(blocks[k], runs[k]);
      bi.Seek(key, 0);
      eof := bi.eof;
    }

    /** The first block whose first key is above the key. */
    method SearchIndex(key: Key) returns (k: nat)
      requires Shape()
      ensures k <= |index|
      ensures forall j :: 0 <= j < k ==> !Less(key, index[j])
      ensures k < |index| ==> Less(key, index[k])
    {
      hide Less, CompareKeys, HoldsRun, Readable;
      var lo, hi := 0, |index|;
      while lo < hi
        invariant 0 <= lo <= hi <= |index|
        invariant forall j :: 0 <= j < lo ==> !Less(key, index[j])
        invariant hi < |index| ==> Less(key, index[hi])
      {
        var mid := (lo + hi) / 2;
        CompareLess(index[mid], key);
        if CompareKeys(index[mid], key) > 0 {
          hi := mid;
        } else {
          IndexBelow(blocks, index, runs, mid, key);
          lo := mid + 1;
        }
      }
      k := lo;
    }

    /** seekFrom: to the first entry that is not below the key, in whichever block it is. */
    method SeekFrom(key: Key)
      requires Shape() && runs != []
      modifies this, bi
      ensures Loaded() && (eof <==> LowerBound(All, key) == |All|)
      ensures !eof ==> At(LowerBound(All, key))
      ensures eof ==> bpos == |runs| - 1 && bi.idx == |runs[bpos]| && bi.key != key
    {
      hide LowerBound, Sorted, Readable, HoldsRun, Encoded, Less, Base;
      bpos, eof := 0, false;
      var k := SearchIndex(key);
      if k == 0 {
        SeekBefore(blocks, index, runs, 0, key);
        SeekHelper(0, key);
        return;
      }
      SeekHelper(k - 1, key);
      SeekWithin(blocks, index, runs, k - 1, key);
      if eof {
        if k == |index| { return; }
        SeekBefore(blocks, index, runs, k, key);
        SeekHelper(k, key);
      }
    }

    /** The entry a step forward leads to. */
    ghost function Ahead1(): int
      requires Loaded() || Unloaded()
      requires Unloaded() ==> bpos >= 0
      reads this, bi
    {
      if bi.data == [] then Base(runs, bpos)
      else if bi.eof then Base(runs, bpos) + |bi.run| else Base(runs, bpos) + bi.idx + 1
    }

    /** The entry a step back leads to. */
    ghost function Back1(): int
      requires Loaded() || (Unloaded() && bpos < |runs|)
      reads this, bi
    {
      if bi.data == [] then Base(runs, bpos + 1) - 1 else Base(runs, bpos) + bi.idx - 1
    }

    /** next: to the following entry, across blocks, or to the end. */
    method NextEntry()
      requires Loaded() || (Unloaded() && bpos >= 0)
      modifies this, bi
      ensures if old(Ahead1()) < |All| then At(old(Ahead1())) else eof && Unloaded() && bpos == |runs|
      decreases |bi.data|
    {
      hide IsTable, Sorted, Readable, HoldsRun, Encoded, Base, Flatten, BlockIterator.Valid;
      eof := false;
      LastBase(runs); TableSizes(blocks, index, runs);
      if bpos >= |index| { eof := true; return; }
      BaseStep(runs, bpos);
      TableBlock(blocks, index, runs, bpos);
      if |bi.data| == 0 {
        bi.SetBlock(blocks[bpos], runs[bpos]);
        bi.SetIdx(0);
        eof := bi.eof;
        return;
      }
      bi.SetIdx(bi.idx + 1);
      if bi.eof {
        bpos := bpos + 1;
        bi.data := [];
        NextEntry();
      }
    }

    /** prev: to the entry before, across blocks, or off the front. */
    method PrevEntry()
      requires Loaded() || (Unloaded() && bpos < |runs|)
      modifies this, bi
      ensures if old(Back1()) >= 0 then At(old(Back1())) else eof && Unloaded() && bpos == -1
      decreases |bi.data|
    {
      hide IsTable, Sorted, Readable, HoldsRun, Encoded, Base, Flatten, Cells, Starts, Common;
      eof := false;
      LastBase(runs); TableSizes(blocks, index, runs);
      if bpos < 0 { eof := true; return; }
      BaseStep(runs, bpos);
      TableBlock(blocks, index, runs, bpos);
      if |bi.data| == 0 {
        bi.SetBlock(blocks[bpos], runs[bpos]);
        bi.SetIdx(|bi.entryOffsets| - 1);
        eof := bi.eof;
        return;
      }
      bi.SetIdx(bi.idx - 1);
      if bi.eof {
        bpos := bpos - 1;
        bi.data := [];
        PrevEntry();
      }
    }

    /** seekForPrev: to the last entry that is not above the key. */
    method SeekForPrev(key: Key)
      requires Shape() && runs != []
      modifies this, bi
      ensures var p := LastUpTo(All, key); if p >= 0 then At(p) else eof && Unloaded() && bpos == -1
    {
      hide LowerBound, Sorted, Readable, HoldsRun, Encoded, Base;
      SeekFrom(key);
      if !eof { Current(LowerBound(All, key)); } else { BaseStep(runs, bpos); }
      if bi.key != key {
        PrevEntry();
      }
    }

    // ---------- the iterator in its direction ----------

    ghost predicate Ready()
      reads this, bi
    {
      Shape() && (eof || (Loaded() && !bi.eof))
    }

    /** What is still to come, in the direction of iteration. */
    ghost function Rest(): Run
      requires Ready()
      reads this, bi
    {
      if eof then []
      else
        BaseStep(runs, bpos);
        if reversed then Reversed(All[..Pos() + 1]) else All[Pos()..]
    }

    method Rewind()
      requires Shape() && runs != []
      modifies this, bi
      ensures Ready() && Rest() == Direction(reversed, All)
    {
      hide IsTable, Flatten, Base, BlockIterator.Valid, Encoded;
      if !reversed { SeekToFirst(); Current(0); } else { SeekToLast(); Current(|All| - 1); assert All[..|All|] == All; }
    }

    /** From any state. */
    method Seek(key: Key)
      requires Shape() && runs != []
      modifies this, bi
      ensures Ready() && Rest() == Drop(reversed, Direction(reversed, All), key)
    {
      hide LowerBound, Drop, Loaded, Unloaded, Less;
      DropForward(All, key); DropBackward(All, key);
      if !reversed { SeekFrom(key); } else { SeekForPrev(key); }
    }

    method Next()
      requires Ready() && !eof
      modifies this, bi
      ensures Ready() && old(Rest()) != [] && Rest() == old(Rest())[1..]
    {
      hide IsTable, Flatten, Base, BlockIterator.Valid, Encoded;
      ghost var p := Pos();
      Current(p);
      LastBase(runs);
      if !reversed { NextEntry(); } else { PrevEntry(); ReversedStep(All, p); }
    }

    /** The key and value slices are those of the first entry that is still to come. */
    lemma Head()
      requires Ready() && !eof
      ensures Rest() != [] && bi.key == Rest()[0].key && bi.val == Encoded(Rest()[0].vs)
    {
      Current(Pos());
    }
  }

  /** A point lookup in one table: seek, and compare the user keys. */
  method GetFromTable(it: TableIterator, key: Key) returns (r: Option<Entry>)
    requires it.Shape() && it.runs != [] && !it.reversed && forall e :: e in it.All ==> Storable(e.vs)
    modifies it, it.bi
    ensures r == Lookup(it.All, key)
  {
    hide TableIterator.Loaded, Drop, Encoded, LowerBound, Decode, Less, SameKey;
    it.Seek(key);
    DropForward(it.All, key);
    if it.eof { return None; }
    it.Head();
    var k := it.bi.key;
    if !SameKey(key, k) { return None; }
    ghost var e := it.All[LowerBound(it.All, key)];
    ValueRoundTrip(e.vs);
    r := Some(Entry(k, Decode(it.bi.val).value));
  }

  // ---------- the index ----------

  lemma CompareLess(a: Key, b: Key)
    ensures CompareKeys(a, b) > 0 <==> Less(b, a)
  {
    CompareKeysFlip(a, b);
  }

  lemma TableSizes(blocks: seq<Block>, index: seq<Key>, runs: seq<Run>)
    requires IsTable(blocks, index, runs)
    ensures |blocks| == |index| == |runs|
  {
  }

  lemma TableBlock(blocks: seq<Block>, index: seq<Key>, runs: seq<Run>, k: nat)
    requires IsTable(blocks, index, runs) && k < |runs|
    ensures |blocks| == |index| == |runs| && runs[k] != [] && HoldsRun(blocks[k], runs[k]) && Readable(runs[k])
    ensures Sorted(Flatten(runs))
  {
  }

  /** First keys grow from block to block. */
  lemma IndexBelow(blocks: seq<Block>, index: seq<Key>, runs: seq<Run>, k: nat, key: Key)
    requires IsTable(blocks, index, runs) && k < |runs| && !Less(key, index[k])
    ensures forall j :: 0 <= j <= k ==> !Less(key, index[j])
  {
    hide Less, HoldsRun, Readable;
    forall j | 0 <= j < k ensures !Less(key, index[j]) {
      FirstKeys(blocks, index, runs, j, k);
      if Less(key, index[j]) { LessTransitive(key, index[j], index[k]); assert false; }
    }
  }

  lemma FirstKeys(blocks: seq<Block>, index: seq<Key>, runs: seq<Run>, j: nat, k: nat)
    requires IsTable(blocks, index, runs) && j < k < |runs|
    ensures Less(index[j], index[k])
  {
    hide Less, HoldsRun, Base;
    BaseStep(runs, j); BaseStep(runs, k); BaseMono(runs, j + 1, k);
    assert Flatten(runs)[Base(runs, j) + 0] == runs[j][0] && Flatten(runs)[Base(runs, k) + 0] == runs[k][0];
  }

  lemma {:induction false} BaseMono(runs: seq<Run>, j: nat, k: nat)
    requires j <= k <= |runs|
    ensures Base(runs, j) <= Base(runs, k)
  {
    if j < k { BaseMono(runs, j, k - 1); BaseStep(runs, k - 1); }
  }

  lemma LastBase(runs: seq<Run>)
    ensures Base(runs, 0) == 0 && Base(runs, |runs|) == |Flatten(runs)|
  {
    assert runs[..|runs|] == runs;
  }

  /** Block k lies in the table as one stretch. */
  lemma BlockSearch(blocks: seq<Block>, index: seq<Key>, runs: seq<Run>, k: nat, key: Key)
    requires IsTable(blocks, index, runs) && k < |runs|
    ensures Sorted(runs[k])
    ensures var n, whole := LowerBound(runs[k], key), LowerBound(Flatten(runs), key);
            (n == 0 ==> whole <= Base(runs, k)) && (0 < n < |runs[k]| ==> whole == Base(runs, k) + n) &&
            (n == |runs[k]| ==> Base(runs, k + 1) <= whole)
    ensures Base(runs, k + 1) == Base(runs, k) + |runs[k]| <= |Flatten(runs)| && runs[k] != []
  {
    hide IsTable, Sorted, LowerBound, Base, Flatten;
    TableBlock(blocks, index, runs, k);
    BaseStep(runs, k);
    SliceBound(Flatten(runs), Base(runs, k), runs[k], key);
  }

  /** A block that begins above the key: its first entry is the one, when nothing before it is. */
  lemma SeekBefore(blocks: seq<Block>, index: seq<Key>, runs: seq<Run>, k: nat, key: Key)
    requires IsTable(blocks, index, runs) && k < |runs| && Less(key, index[k])
    requires k == 0 || Base(runs, k) <= LowerBound(Flatten(runs), key)
    ensures LowerBound(runs[k], key) == 0 && LowerBound(Flatten(runs), key) == Base(runs, k) < |Flatten(runs)|
  {
    hide HoldsRun, Readable, Base, Less, Flatten;
    LessTotal(key, index[k]);
    assert LowerBound(runs[k], key) == 0;
    hide LowerBound;
    BlockSearch(blocks, index, runs, k, key);
    LastBase(runs);
  }

  /** A block that begins at or below the key: the entry is in it, or the block ends below the key. */
  lemma SeekWithin(blocks: seq<Block>, index: seq<Key>, runs: seq<Run>, k: nat, key: Key)
    requires IsTable(blocks, index, runs) && k < |runs| && !Less(key, index[k])
    ensures var n := LowerBound(runs[k], key);
            if n < |runs[k]| then LowerBound(Flatten(runs), key) == Base(runs, k) + n < |Flatten(runs)|
            else Base(runs, k + 1) <= LowerBound(Flatten(runs), key) &&
                 (k + 1 == |runs| ==> LowerBound(Flatten(runs), key) == |Flatten(runs)|)
  {
    hide Less, HoldsRun, Base, LowerBound, Flatten, Sorted, Readable;
    BlockSearch(blocks, index, runs, k, key);
    LastBase(runs);
    if LowerBound(runs[k], key) == 0 {
      FirstIsKey(runs[k], key);
      BaseStep(runs, k);
      StartsAtKey(Flatten(runs), Base(runs, k), key);
    }
  }

  lemma FirstIsKey(r: Run, key: Key)
    requires r != [] && LowerBound(r, key) == 0 && !Less(key, r[0].key)
    ensures r[0].key == key
  {
    hide Less;
    LessTotal(r[0].key, key);
  }

  lemma StartsAtKey(r: Run, b: nat, key: Key)
    requires Sorted(r) && b < |r| && r[b].key == key
    ensures LowerBound(r, key) == b
  {
    hide Less, LowerBound;
    LessTotal(key, key);
    if b > 0 { assert Less(r[b - 1].key, r[b].key); }
    LowerBoundUnique(r, key, b);
  }
}

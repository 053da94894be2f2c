/** Building a table: entries go into a buffer that grows, blocks are closed when they are full enough. */
module TableBuilders {
  import opened Bytes
  import opened Keys
  import opened Values
  import opened Runs
  import opened Extents
  import opened LogBlocks
  import opened TableBlocks
  import opened TableIterators
  import SkiplistShape
  import opened Skiplists

  const BLOCK_BYTES: nat := 0x1_0000
  const MAX_ENTRIES: nat := 1000

  /** An entry whose cell is far below 4 GB. */
  predicate CellFits(e: Entry) { HEADER_SIZE + |e.key| + EncodedSize(e.vs) < 0x1000_0000 && Storable(e.vs) }

  /** keyDiff: what follows the longest prefix shared with the base key. */
  method KeyDiff(baseKey: Bytes, key: Bytes) returns (diff: Bytes)
    ensures diff == key[Common(baseKey, key)..]
  {
    var i := 0;
    while i < |key| && i < |baseKey| && key[i] == baseKey[i]
      invariant i <= |key| && i <= |baseKey| && key[..i] == baseKey[..i]
    {
      i := i + 1;
    }
    CommonIs(baseKey, key, i);
    diff := key[i..];
  }

  lemma {:induction false} CommonIs(a: Bytes, b: Bytes, i: nat)
    requires i <= |a| && i <= |b| && a[..i] == b[..i] && (i < |a| && i < |b| ==> a[i] != b[i])
    ensures Common(a, b) == i
  {
    if i > 0 {
      assert a[0] == a[..i][0] && b[0] == b[..i][0];
      assert a[1..][..i - 1] == a[..i][1..] && b[1..][..i - 1] == b[..i][1..];
      CommonIs(a[1..], b[1..], i - 1);
    }
  }

  /** The size of the block with the entry added, as shouldFinishBlock reckons it: the whole key is
      counted, the offset of the new entry is not. */
  function EstimatedSize(r: Run, e: Entry): nat
  {
    |Cells(r)| + HEADER_SIZE + |e.key| + EncodedSize(e.vs) + 4 * |r| + 4
  }

  /** Whether the block that holds this run is closed before the entry is added. */
  predicate ShouldFinish(r: Run, e: Entry)
  {
    r != [] && (EstimatedSize(r, e) > BLOCK_BYTES || |r| > MAX_ENTRIES)
  }

  /** A block with more than one entry is at most four bytes over 64 KB, and has at most 1001 entries. */
  predicate Bounded(r: Run) { |r| <= MAX_ENTRIES + 1 && (|r| <= 1 || BlockSize(r) <= BLOCK_BYTES + 4) }

  lemma CellSize(base: Bytes, e: Entry, first: bool)
    ensures |Cell(base, e, first)| <= HEADER_SIZE + |e.key| + EncodedSize(e.vs)
  {
    hide PutUvarint;
  }

  lemma AddBounded(r: Run, e: Entry)
    requires Bounded(r) && !ShouldFinish(r, e)
    ensures Bounded(r + [e])
  {
    hide Cells, Cell, EncodedSize;
    CellsSnoc(r, e);
    CellSize((r + [e])[0].key, e, r == []);
  }

  /** An entry that is added to a block takes it over 64 KB exactly when the estimate is within four bytes of
      the limit, less what the key shares with the base key. */
  lemma OverExactly(r: Run, e: Entry)
    requires r != [] && !ShouldFinish(r, e)
    ensures BlockSize(r + [e]) > BLOCK_BYTES <==> EstimatedSize(r, e) - Common(r[0].key, e.key) > BLOCK_BYTES - 4
  {
    hide Cells, EncodedSize, Common, PutUvarint, SizeVarint;
    CellsSnoc(r, e);
    assert |Cell(r[0].key, e, false)| == HEADER_SIZE + |e.key| - Common(r[0].key, e.key) + EncodedSize(e.vs) by {
      CellHeader(r[0].key, e, false); EncodedLength(e.vs);
    }
  }

  lemma EncodedLength(v: ValueStruct)
    ensures |Encoded(v)| == EncodedSize(v)
  {
  }

  /** Two sorted entries that fill a block to 65540 bytes. */
  lemma FourBytesOver() returns (d: Entry, e: Entry)
    ensures Sorted([d, e]) && !ShouldFinish([d], e) && BlockSize([d, e]) == BLOCK_BYTES + 4
  {
    var k1: Key, k2: Key := [1, 0, 0, 0, 0, 0, 0, 0, 0], [2, 0, 0, 0, 0, 0, 0, 0, 0];
    d, e := Entry(k1, ValueStruct(0, 0, 0, [])), Entry(k2, ValueStruct(0, 0, 0, Zeros(65496)));
    assert Less(k1, k2) by { assert k1[..1] == [1] && k2[..1] == [2]; }
    assert [d][..0] == [] && [d, e][..1] == [d] && [d] + [e] == [d, e];
    NoCells();
    assert Common(k1, k2) == 0;
    SizeVarintBounds(0); EncodedLength(d.vs); EncodedLength(e.vs);
    CellHeader(k1, d, true); CellHeader(k1, e, false);
    assert Cells([d]) == Cell(k1, d, true);
    assert Cells([d, e]) == Cells([d]) + Cell(k1, e, false);
  }

  lemma BoundedSize(r: Run)
    requires Bounded(r) && forall i :: 0 <= i < |r| ==> CellFits(r[i])
    ensures BlockSize(r) < 0x2000_0000
  {
    hide Cells, Cell, EncodedSize;
    if |r| == 1 {
      FirstCell(r); CellSize(r[0].key, r[0], true);
      assert r[..1] == r;
    } else if r == [] {
      NoCells();
    }
  }

  lemma NoCells()
    ensures Cells([]) == [] && Starts([]) == []
  {
  }

  class Builder {
    var blocks: seq<Block>
    var index: seq<Key>
    var data: array?<byte>
    var blockLength: nat
    var sz: nat
    var baseKey: Bytes
    var entryOffsets: seq<nat>
    ghost var runs: seq<Run>
    ghost var open: Run

    /** What was appended to the current block. */
    ghost function Contents(): Bytes
      requires Buffer()
      reads this, data
    {
      if data == null then [] else data[..sz]
    }

    ghost predicate Buffer()
      reads this, data
    {
      if data == null then sz == 0
      else data.Length == blockLength && sz <= blockLength && Aligned(blockLength) &&
           (blockLength <= BLOCK_BYTES || blockLength <= 2 * sz + SECTOR)
    }

    /** The blocks that were closed hold the runs that were closed. */
    ghost predicate Closed()
      reads this
    {
      && |blocks| == |index| == |runs|
      && forall k :: 0 <= k < |runs| ==>
           HoldsRun(blocks[k], runs[k]) && Proper(blocks[k]) && index[k] == runs[k][0].key && Bounded(runs[k])
    }

    ghost predicate Current()
      reads this, data
    {
      && Buffer() && Contents() == Cells(open) && entryOffsets == Starts(open) && Bounded(open)
      && baseKey == (if open == [] then [] else open[0].key) && (open != [] ==> data != null)
      && forall i :: 0 <= i < |open| ==> CellFits(open[i])
    }

    constructor ()
      ensures Closed() && Current() && data == null && runs == [] && open == []
    {
      blocks, index, data, blockLength, sz, baseKey, entryOffsets, runs, open := [], [], null, 0, 0, [], [], [], [];
      new;
      NoCells();
    }

    /** append: room is made by copying the block into a larger buffer. */
    method Append(bytes: Bytes)
      requires Buffer()
      modifies this`data, this`blockLength, this`sz, data
      ensures Buffer() && data != null && (fresh(data) || data == old(data)) && Contents() == old(Contents()) + bytes
    {
      if data == null {
        data := new byte[BLOCK_BYTES](_ => 0);
        blockLength := BLOCK_BYTES;
      }
      MakeRoom(|bytes|);
      CopyInto(data, sz, bytes);
      ghost var was := data[..sz];
      sz := sz + |bytes|;
      assert data[..sz] == was + bytes;
    }

    /** blockGrow, where the block is too short for n more bytes. */
    method MakeRoom(n: nat)
      requires Buffer() && data != null
      modifies this`data, this`blockLength
      ensures data != null && data.Length == blockLength && Aligned(blockLength) && sz + n <= blockLength
      ensures blockLength <= BLOCK_BYTES || blockLength <= 2 * (sz + n) + SECTOR
      ensures (fresh(data) || data == old(data)) && data[..sz] == old(data[..sz])
    {
      if blockLength < sz + n {
        var newSize := Ceil(blockLength + n);
        var newBuf := new byte[newSize](_ => 0);
        CopyInto(newBuf, 0, data[..]);
        assert newBuf[..sz] == data[..sz];
        blockLength := newSize;
        data := newBuf;
      }
    }

    /** addHelper: header, difference to the base key, value. */
    method AddHelper(e: Entry)
      requires Closed() && Current() && CellFits(e) && !ShouldFinish(open, e)
      modifies this, data
      ensures Closed() && Current() && open == old(open) + [e] && runs == old(runs) &&
              (fresh(data) || data == old(data))
      ensures blocks == old(blocks) && index == old(index)
    {
      hide Cells, Starts, Encoded, EncodedSize, Common, Bounded, HoldsRun, Proper, Header, ShouldFinish, Aligned;
      AddBounded(open, e);
      CellsSnoc(open, e);
      var diffKey;
      if |baseKey| == 0 {
        baseKey := e.key;
        diffKey := e.key;
      } else {
        diffKey := KeyDiff(baseKey, e.key);
      }
      entryOffsets := entryOffsets + [sz];
      ghost var base := (open + [e])[0].key;
      CellIs(base, e, open == [], diffKey);
      AppendCell(Header(|e.key| - |diffKey|, |diffKey|), diffKey, e.vs);
      open := open + [e];
    }

    method AppendCell(header: Bytes, diffKey: Bytes, v: ValueStruct)
      requires Buffer() && Storable(v)
      modifies this`data, this`blockLength, this`sz, data
      ensures Buffer() && data != null && (fresh(data) || data == old(data))
      ensures Contents() == old(Contents()) + (header + diffKey + Encoded(v))
    {
      hide Encoded, Buffer, Contents;
      Regroup(Contents(), header, diffKey, Encoded(v));
      Append(header);
      Append(diffKey);
      AppendValue(v);
    }

    /** The value is encoded in place. */
    method AppendValue(v: ValueStruct)
      requires Buffer() && data != null && Storable(v)
      modifies this`data, this`blockLength, this`sz, data
      ensures Buffer() && data != null && (fresh(data) || data == old(data)) &&
              Contents() == old(Contents()) + Encoded(v)
    {
      hide Encoded, EncodedSize;
      ValueRoundTrip(v);
      MakeRoom(EncodedSize(v));
      var n := Encode(v, data, sz);
      ghost var was := data[..sz];
      sz := sz + n;
      assert data[..sz] == was + Encoded(v);
    }

    /** FinishBlock: offsets and count go behind the entries, and the block is handed to the writer. */
    method FinishBlock()
      requires Closed() && Current() && open != []
      modifies this, data
      ensures Closed() && runs == old(runs) + [old(open)] && (fresh(data) || data == old(data)) && open == old(open)
    {
      hide Cells, Starts, CellFits, Bounded, HoldsRun, U32Bytes, BigEndian, Adler, RawMeta, Proper;
      BoundedSize(open);
      StartsBelow(open);
      U32RoundTrip(Starts(open));
      Append(U32Bytes(entryOffsets));
      Append(BigEndian(|entryOffsets|, 4));
      assert Contents() == Cells(open) + Trailer(open);
      var b := Block(Adler(data[..]), blockLength, RawMeta(sz), data[..]);
      assert data[..][..sz] == data[..sz];
      FinishedBlock(b, open);
      blocks, index, runs := blocks + [b], index + [baseKey], runs + [open];
    }

    /** Add: the entry goes into the current block, or into a new one when the current block is full enough. */
    method Add(e: Entry)
      requires Closed() && Current() && CellFits(e)
      modifies this, data
      ensures Closed() && Current() && (fresh(data) || data == old(data))
      ensures if ShouldFinish(old(open), e) then runs == old(runs) + [old(open)] && open == [e]
              else runs == old(runs) && open == old(open) + [e]
    {
      hide Cells, Starts, CellFits, EncodedSize, Encoded;
      var estimate := sz + HEADER_SIZE + |e.key| + EncodedSize(e.vs) + 4 * |entryOffsets| + 4;
      if |entryOffsets| > 0 && (estimate > BLOCK_BYTES || |entryOffsets| > MAX_ENTRIES) {
        FinishBlock();
        baseKey, data, sz, entryOffsets, open := [], null, 0, [], [];
        NoCells();
        assert [] + [e] == [e];
      }
      AddHelper(e);
    }
  }

  lemma Regroup(a: Bytes, b: Bytes, c: Bytes, d: Bytes)
    ensures a + b + c + d == a + (b + c + d)
  {
  }

  lemma CellIs(base: Bytes, e: Entry, first: bool, diff: Bytes)
    requires diff == if first then e.key else e.key[Common(base, e.key)..]
    ensures Cell(base, e, first) == Header(|e.key| - |diff|, |diff|) + diff + Encoded(e.vs)
  {
    hide Encoded, Header;
    assert e.key[0..] == e.key;
  }

  lemma FinishedBlock(b: Block, r: Run)
    requires r != [] && |b.data| == b.blockLength < UINT32_LIMIT && Aligned(b.blockLength) &&
             b.checkSum == Adler(b.data)
    requires BlockSize(r) <= |b.data| && b.data[..BlockSize(r)] == Cells(r) + Trailer(r) &&
             b.userData == RawMeta(BlockSize(r))
    ensures HoldsRun(b, r) && Proper(b)
  {
    hide Cells, Trailer, Adler, PutUvarint, SizeVarint, BigEndian;
    SizeVarintBounds(b.blockLength); SizeVarintBounds(BlockSize(r)); SizeVarintBounds(|b.userData|);
  }

  // ---------- a table from a memtable ----------

  /** handleFlushTask's loop: the table that is written holds exactly the entries of the memtable, in
      order, and can be read back. */
  method BuildTable(r: Run) returns (blocks: seq<Block>, index: seq<Key>, ghost runs: seq<Run>)
    requires Sorted(r) && r != []
    requires forall i :: 0 <= i < |r| ==> CellFits(r[i]) && |r[i].key| <= MAX_DIFF
    ensures IsTable(blocks, index, runs) && Flatten(runs) == r
    ensures forall k :: 0 <= k < |blocks| ==> Proper(blocks[k])
    ensures forall k :: 0 <= k < |runs| ==> Bounded(runs[k])
  {
    hide Sorted, CellFits, Builder.Current, Bounded, HoldsRun, Proper, ShouldFinish, Readable, Flatten;
    var b := new Builder();
    NoRuns();
    for i := 0 to |r|
      invariant b.Closed() && b.Current() && fresh(b) && (b.data == null || fresh(b.data))
      invariant Flatten(b.runs) + b.open == r[..i] && (i > 0 ==> b.open != [])
    {
      ghost var was, open := b.runs, b.open;
      b.Add(r[i]);
      FlattenSnoc(was, open);
      assert r[..i + 1] == r[..i] + [r[i]];
      assert Flatten(was) + (open + [r[i]]) == Flatten(was) + open + [r[i]];
    }
    assert r[..|r|] == r;
    ghost var was, open := b.runs, b.open;
    b.FinishBlock();
    FlattenSnoc(was, open);
    blocks, index, runs := b.blocks, b.index, b.runs;
    forall k | 0 <= k < |runs| ensures Readable(runs[k]) {
      HoldsSome(blocks[k], runs[k]);
      ShortKeys(runs, k, r);
    }
  }

  /** handleFlushTask: an empty memtable builds nothing; any other becomes a table of its contents. */
  method HandleFlushTask(mt: Skiplist) returns (built: bool, blocks: seq<Block>, index: seq<Key>, ghost runs: seq<Run>)
    requires mt.Valid() && forall e :: e in mt.Contents() ==> CellFits(e) && |e.key| <= MAX_DIFF
    ensures built <==> mt.Contents() != []
    ensures built ==> IsTable(blocks, index, runs) && Flatten(runs) == mt.Contents()
  {
    hide CellFits, IsTable, Flatten, SkiplistShape.Entries, Sorted;
    built, blocks, index, runs := false, [], [], [];
    var last := mt.FindLast();
    if last != 0 {
      SkiplistShape.EntriesSorted(mt.nodes, mt.head, mt.levels[0]);
      var r := mt.Collect();
      blocks, index, runs := BuildTable(r);
      built := true;
    }
  }

  lemma HoldsSome(b: Block, r: Run)
    requires HoldsRun(b, r)
    ensures r != []
  {
  }

  lemma NoRuns()
    ensures Flatten<Entry>([]) == []
  {
  }

  lemma ShortKeys(runs: seq<Run>, k: nat, r: Run)
    requires Flatten(runs) == r && k < |runs| && runs[k] != [] && forall i :: 0 <= i < |r| ==> |r[i].key| <= MAX_DIFF
    ensures Readable(runs[k])
  {
    hide Flatten, Base;
    BaseStep(runs, k);
    forall i | 0 <= i < |runs[k]| ensures |runs[k][i].key| <= MAX_DIFF {
      assert r[Base(runs, k) + i] == runs[k][i];
    }
  }
}

/** A block of a table: entries that share a prefix with the block's first key, their offsets, and a count. */
module TableBlocks {
  import opened Bytes
  import opened Keys
  import opened Values
  import opened Runs
  import opened Extents
  import opened Wire

  const HEADER_SIZE: nat := 4
  const UINT16_LIMIT: nat := 0x1_0000
  /** The longest difference to the base key whose end still fits 16 bits with the header before it. */
  const MAX_DIFF: nat := 65531

  // ---------- one entry ----------

  /** The length of the longest common prefix. */
  function Common(a: Bytes, b: Bytes): (n: nat)
    ensures n <= |a| && n <= |b| && a[..n] == b[..n]
    ensures n < |a| && n < |b| ==> a[n] != b[n]
  {
    if a == [] || b == [] || a[0] != b[0] then 0
    else
      var n := 1 + Common(a[1..], b[1..]);
      assert a[..n] == [a[0]] + a[1..][..n - 1] && b[..n] == [b[0]] + b[1..][..n - 1];
      n
  }

  /** How much of the base key an entry leaves out; the first entry of a block is the base key itself. */
  function Overlap(base: Bytes, key: Bytes, first: bool): (n: nat)
    ensures n <= |base| && n <= |key| && base[..n] == key[..n]
  {
    if first then 0 else Common(base, key)
  }

  function Header(overlap: nat, diff: nat): (r: Bytes)
    ensures |r| == HEADER_SIZE
  {
    LittleEndian(overlap, 2) + LittleEndian(diff, 2)
  }

  function Cell(base: Bytes, e: Entry, first: bool): Bytes
  {
    var n := Overlap(base, e.key, first);
    Header(n, |e.key| - n) + e.key[n..] + Encoded(e.vs)
  }

  function HeaderOverlap(cell: Bytes): nat
    requires |cell| >= HEADER_SIZE
  {
    LittleEndianValue(cell[..2])
  }

  function HeaderDiff(cell: Bytes): nat
    requires |cell| >= HEADER_SIZE
  {
    LittleEndianValue(cell[2..4])
  }

  /** Where the key part of a cell ends, in the 16-bit arithmetic of the reader. */
  function KeyEnd(cell: Bytes): nat
    requires |cell| >= HEADER_SIZE
  {
    (HEADER_SIZE + HeaderDiff(cell)) % UINT16_LIMIT
  }

  /** Key and encoded value of a cell, read against the base key; None stands for a panic. */
  function DecodeCell(base: Bytes, cell: Bytes): Option<(Bytes, Bytes)>
  {
    if |cell| < HEADER_SIZE || HeaderOverlap(cell) > |base| then None
    else
      var end := KeyEnd(cell);
      if end < HEADER_SIZE || end > |cell| then None
      else Some((base[..HeaderOverlap(cell)] + cell[HEADER_SIZE..end], cell[end..]))
  }

  lemma LowHalf(n: nat)
    ensures LittleEndianValue(LittleEndian(n, 2)) == n % UINT16_LIMIT
  {
    var b := LittleEndian(n, 2);
    assert b == [n % 256] + LittleEndian(n / 256, 1);
    assert LittleEndian(n / 256, 1) == [n / 256 % 256] + LittleEndian(n / 256 / 256, 0);
    assert b == [n % 256, n / 256 % 256];
    assert b[1..] == [n / 256 % 256] && b[1..][1..] == [];
    assert LittleEndianValue(b[1..]) == n / 256 % 256 + 256 * LittleEndianValue(b[1..][1..]);
  }

  lemma CellHeader(base: Bytes, e: Entry, first: bool)
    ensures var cell, n := Cell(base, e, first), Overlap(base, e.key, first);
            |cell| >= HEADER_SIZE + |e.key| - n &&
            HeaderOverlap(cell) == n % UINT16_LIMIT && HeaderDiff(cell) == (|e.key| - n) % UINT16_LIMIT &&
            cell[HEADER_SIZE..HEADER_SIZE + |e.key| - n] == e.key[n..] &&
            cell[HEADER_SIZE + |e.key| - n..] == Encoded(e.vs)
  {
    hide LittleEndian, LittleEndianValue, Encoded, Overlap;
    var cell, n := Cell(base, e, first), Overlap(base, e.key, first);
    LowHalf(n); LowHalf(|e.key| - n);
    assert cell[..2] == LittleEndian(n, 2) && cell[2..4] == LittleEndian(|e.key| - n, 2);
  }

  /** A cell reads back exactly when the part of the key it holds is at most MAX_DIFF bytes long. */
  lemma CellReads(base: Bytes, e: Entry, first: bool)
    requires |base| <= MAX_DIFF
    ensures DecodeCell(base, Cell(base, e, first)) == Some((e.key, Encoded(e.vs))) <==>
            |e.key| - Overlap(base, e.key, first) <= MAX_DIFF
  {
    hide Cell, HeaderOverlap, HeaderDiff, Encoded, Overlap;
    var cell, n := Cell(base, e, first), Overlap(base, e.key, first);
    var diff := |e.key| - n;
    CellHeader(base, e, first);
    assert e.key == e.key[..n] + e.key[n..];
    if diff > MAX_DIFF && diff >= UINT16_LIMIT {
      assert HeaderDiff(cell) < diff;
      assert KeyEnd(cell) < HEADER_SIZE + diff;
    }
  }

  /** The base key is read from the first cell alone, so a first key over MAX_DIFF bytes makes the whole
      block unreadable: the end wraps around and the slice fails, or the key comes back too short. */
  lemma BaseKeyReads(e: Entry)
    ensures var cell := Cell(e.key, e, true);
            HEADER_SIZE <= KeyEnd(cell) <= |cell| && cell[HEADER_SIZE..KeyEnd(cell)] == e.key <==> |e.key| <= MAX_DIFF
  {
    hide Cell, HeaderOverlap, HeaderDiff, Encoded;
    var cell := Cell(e.key, e, true);
    CellHeader(e.key, e, true);
    assert e.key[0..] == e.key;
    assert KeyEnd(cell) == (HEADER_SIZE + |e.key| % UINT16_LIMIT) % UINT16_LIMIT;
  }

  // ---------- the entries of a block ----------

  function Cells(r: Run): Bytes
  {
    if r == [] then [] else Cells(r[..|r| - 1]) + Cell(r[0].key, r[|r| - 1], |r| == 1)
  }

  function Starts(r: Run): (s: seq<nat>)
    ensures |s| == |r|
  {
    if r == [] then [] else Starts(r[..|r| - 1]) + [|Cells(r[..|r| - 1])|]
  }

  lemma CellsSnoc(r: Run, e: Entry)
    ensures Cells(r + [e]) == Cells(r) + Cell((r + [e])[0].key, e, r == [])
    ensures Starts(r + [e]) == Starts(r) + [|Cells(r)|]
  {
    hide Cell;
    assert (r + [e])[..|r|] == r;
  }

  lemma {:induction false} CellsPrefix(r: Run, i: nat)
    requires i <= |r|
    ensures Cells(r[..i]) <= Cells(r)
  {
    hide Cell;
    if i == |r| {
      assert r[..i] == r;
    } else {
      CellsPrefix(r[..|r| - 1], i);
      assert r[..|r| - 1][..i] == r[..i];
    }
  }

  lemma {:induction false} StartsAt(r: Run, i: nat)
    requires i < |r|
    ensures Starts(r)[i] == |Cells(r[..i])|
  {
    hide Cells;
    if i < |r| - 1 {
      StartsAt(r[..|r| - 1], i);
      assert r[..|r| - 1][..i] == r[..i];
    }
  }

  /** Where entry i ends: where the next one starts, or at the end of the entries. */
  function EndOf(r: Run, i: nat): nat
    requires i < |r|
  {
    if i + 1 == |r| then |Cells(r)| else Starts(r)[i + 1]
  }

  lemma CellAt(r: Run, i: nat)
    requires i < |r|
    ensures Starts(r)[i] <= EndOf(r, i) <= |Cells(r)|
    ensures Cells(r)[Starts(r)[i]..EndOf(r, i)] == Cell(r[0].key, r[i], i == 0)
  {
    hide Cell, Cells, Starts;
    var p, c := r[..i + 1], Cell(r[0].key, r[i], i == 0);
    StartsAt(r, i);
    if i + 1 < |r| { StartsAt(r, i + 1); } else { assert p == r; }
    CellsPrefix(r, i + 1);
    CellsLast(r, i);
    Within(Cells(r[..i]), c, Cells(r));
  }

  lemma CellsLast(r: Run, i: nat)
    requires i < |r|
    ensures Cells(r[..i + 1]) == Cells(r[..i]) + Cell(r[0].key, r[i], i == 0)
  {
    hide Cell;
    assert r[..i + 1][..i] == r[..i];
  }

  lemma Within(a: Bytes, c: Bytes, all: Bytes)
    requires a + c <= all
    ensures all[|a|..|a| + |c|] == c
  {
    assert all[..|a| + |c|] == a + c;
    assert all[|a|..|a| + |c|] == (a + c)[|a|..];
  }

  /** Every key of the block can be told from what is stored. */
  ghost predicate Readable(r: Run)
  {
    r != [] && |r[0].key| <= MAX_DIFF && forall i :: 0 < i < |r| ==> |r[i].key| - Common(r[0].key, r[i].key) <= MAX_DIFF
  }

  // ---------- the end of a block ----------

  function U32Bytes(xs: seq<nat>): Bytes
  {
    if xs == [] then [] else LittleEndian(xs[0], 4) + U32Bytes(xs[1..])
  }

  function U32s(b: Bytes): seq<nat>
  {
    if |b| < 4 then [] else [LittleEndianValue(b[..4])] + U32s(b[4..])
  }

  lemma {:induction false} U32RoundTrip(xs: seq<nat>)
    requires forall i :: 0 <= i < |xs| ==> xs[i] < UINT32_LIMIT
    ensures |U32Bytes(xs)| == 4 * |xs| && U32s(U32Bytes(xs)) == xs
  {
    hide LittleEndian, LittleEndianValue;
    if xs != [] {
      PowerFacts(); LittleEndianRoundTrip(xs[0], 4);
      var b := U32Bytes(xs);
      assert b[..4] == LittleEndian(xs[0], 4) && b[4..] == U32Bytes(xs[1..]);
      U32RoundTrip(xs[1..]);
    }
  }

  /** RawBlockMeta of a data block: only the size is not a default. */
  function RawMeta(size: nat): Bytes { VarintField(0x18, size) }

  /** RawBlockMeta.Unmarshal, of which only the uncompressed size is wanted; None is an error. */
  function RawMetaSize(b: Bytes, size: nat): Option<nat>
    decreases |b|
  {
    if b == [] then Some(size)
    else
      var tag := Varint(b);
      if tag.width <= 0 then None
      else
        var n := Varint(b[tag.width..]);
        if n.width <= 0 || Tag(tag.value) !in [0x08, 0x10, 0x18, 0x20, 0x28, 0x30] then None
        else RawMetaSize(b[tag.width + n.width..], if Tag(tag.value) == 0x18 then n.value % UINT32_LIMIT else size)
  }

  lemma RawMetaReads(size: nat)
    requires size < UINT32_LIMIT
    ensures RawMetaSize(RawMeta(size), 0) == Some(size)
  {
    hide Varint, PutUvarint;
    if size > 0 {
      TagReads(0x18, size, []);
      var b := RawMeta(size);
      assert b == [0x18] + PutUvarint(size) + [];
      assert b[1 + |PutUvarint(size)|..] == [];
      assert Tag(0x18) == 0x18 && size % UINT32_LIMIT == size;
      assert RawMetaSize([], size) == Some(size);
    }
  }

  function BlockSize(r: Run): nat { |Cells(r)| + 4 * |r| + 4 }

  function Trailer(r: Run): Bytes { U32Bytes(Starts(r)) + BigEndian(|r|, 4) }

  /** A finished block that holds a run of entries. */
  ghost predicate HoldsRun(b: Block, r: Run)
  {
    && r != [] && BlockSize(r) <= |b.data| < UINT32_LIMIT
    && b.data[..BlockSize(r)] == Cells(r) + Trailer(r)
    && b.userData == RawMeta(BlockSize(r))
  }

  lemma StartsBelow(r: Run)
    ensures forall i :: 0 <= i < |r| ==> Starts(r)[i] <= |Cells(r)|
  {
    hide Cells, Starts;
    forall i | 0 <= i < |r| ensures Starts(r)[i] <= |Cells(r)| { CellAt(r, i); }
  }

  /** The parts of a finished block as the reader cuts them out. */
  lemma BlockParts(b: Block, r: Run)
    requires HoldsRun(b, r)
    ensures var sz := BlockSize(r);
            RawMetaSize(b.userData, 0) == Some(sz) && BigEndianValue(b.data[sz - 4..sz]) == |r| &&
            U32s(b.data[sz - 4 - 4 * |r|..sz - 4]) == Starts(r) && b.data[..sz - 4 - 4 * |r|] == Cells(r)
  {
    hide Cells, Starts, U32Bytes, U32s, BigEndian, BigEndianValue, RawMetaSize, RawMeta;
    RawMetaReads(BlockSize(r));
    StartsBelow(r);
    U32RoundTrip(Starts(r));
    PowerFacts(); BigEndianRoundTrip(|r|, 4);
    ThreeParts(b.data, Cells(r), U32Bytes(Starts(r)), BigEndian(|r|, 4));
  }

  lemma ThreeParts(d: Bytes, x: Bytes, y: Bytes, z: Bytes)
    requires |x| + |y| + |z| <= |d| && d[..|x| + |y| + |z|] == x + (y + z)
    ensures d[..|x|] == x && d[|x|..|x| + |y|] == y && d[|x| + |y|..|x| + |y| + |z|] == z
  {
    var s := d[..|x| + |y| + |z|];
    assert d[..|x|] == s[..|x|] && d[|x|..|x| + |y|] == s[|x|..|x| + |y|];
    assert d[|x| + |y|..|x| + |y| + |z|] == s[|x| + |y|..];
  }

  // ---------- blockIterator ----------

  class BlockIterator {
    var data: Bytes
    var idx: int
    var eof: bool
    var baseKey: Bytes
    var key: Bytes
    var val: Bytes
    var entryOffsets: seq<nat>
    var prevOverlap: nat
    ghost var run: Run

    /** Between calls the key buffer starts with the part of the base key that `prevOverlap` says. */
    ghost predicate Valid()
      reads this
    {
      && Readable(run) && data == Cells(run) && entryOffsets == Starts(run)
      && (baseKey == [] || baseKey == run[0].key)
      && prevOverlap <= |key| && prevOverlap <= |run[0].key| && key[..prevOverlap] == run[0].key[..prevOverlap]
    }

    constructor ()
      ensures data == []
    {
      data, idx, eof, baseKey, key, val, entryOffsets, prevOverlap, run := [], 0, false, [], [], [], [], 0, [];
    }

    method SetBlock(b: Block, ghost r: Run)
      requires HoldsRun(b, r) && Readable(r)
      modifies this
      ensures Valid() && run == r && idx == 0 && !eof && data != []
    {
      hide Cells, Starts, U32s, BigEndianValue, RawMetaSize, RawMeta, U32Bytes, BigEndian, Common;
      BlockParts(b, r);
      SomeCells(r);
      idx, eof, baseKey, prevOverlap, key, val := 0, false, [], 0, [], [];
      var sz := RawMetaSize(b.userData, 0).value;
      var numEntries := BigEndianValue(b.data[sz - 4..sz]);
      var entriesIndexStart := sz - 4 - numEntries * 4;
      entryOffsets := U32s(b.data[entriesIndexStart..sz - 4]);
      data := b.data[..entriesIndexStart];
      run := r;
    }

    /** Moves to entry i, from wherever the iterator was: the key is rebuilt from the base key and what
        the buffer already holds. */
    method SetIdx(i: int)
      requires Valid()
      modifies this
      ensures Valid() && run == old(run) && idx == i && eof == !(0 <= i < |run|) && data == old(data)
      ensures if eof then key == old(key) else key == run[i].key && val == Encoded(run[i].vs)
    {
      hide Cells, Starts, Cell, Encoded, HeaderOverlap, KeyEnd, Readable;
      ReadableFirst(run);
      idx := i;
      if i >= |entryOffsets| || i < 0 {
        eof := true;
        return;
      }
      eof := false;
      var startOffset := entryOffsets[i];
      BaseCell(run);
      if |baseKey| == 0 {
        baseKey := data[HEADER_SIZE..KeyEnd(data)];
      }
      var endOffset;
      if idx + 1 == |entryOffsets| {
        endOffset := |data|;
      } else {
        endOffset := entryOffsets[idx + 1];
      }
      CellAt(run, i);
      var entryData := data[startOffset..endOffset];
      CellParts(run, i, entryData);
      var overlap := HeaderOverlap(entryData);
      var valueOff := KeyEnd(entryData);
      Rebuilt(key, baseKey, prevOverlap, overlap);
      if overlap > prevOverlap {
        key := key[..prevOverlap] + baseKey[prevOverlap..overlap];
      }
      prevOverlap := overlap;
      var diffKey := entryData[HEADER_SIZE..valueOff];
      key := key[..overlap] + diffKey;
      val := entryData[valueOff..];
    }

    /** Binary search from index `start` on: the first entry there that is not below the key. */
    method Seek(target: Key, start: int)
      requires Valid() && Sorted(run)
      modifies this
      ensures Valid() && run == old(run) && data == old(data)
      ensures idx == FirstFrom(run, target, start)
      ensures eof == (idx == |run|) && (!eof ==> key == run[idx].key && val == Encoded(run[idx].vs))
      ensures eof && start <= 0 ==> key != target
    {
      hide Cells, Starts, Encoded, Less, CompareKeys, Sorted, FirstFrom, Common;
      eof := false;
      var lo, hi := 0, |entryOffsets|;
      while lo < hi
        invariant 0 <= lo <= FirstFrom(run, target, start) <= hi <= |run|
        invariant Valid() && run == old(run) && data == old(data) && |entryOffsets| == |run|
        invariant start <= 0 && (lo > 0 || hi < |run|) ==> exists j :: 0 <= j < |run| && key == run[j].key
      {
        var mid := (lo + hi) / 2;
        SearchStep(run, target, start, mid);
        if mid < start {
          lo := mid + 1;
        } else {
          SetIdx(mid);
          if CompareKeys(key, target) >= 0 {
            hi := mid;
          } else {
            lo := mid + 1;
          }
        }
      }
      if lo == |run| && start <= 0 { EndIsBound(run, target, start); NotTarget(run, target, key); }
      SetIdx(lo);
    }
  }

  /** The first entry at or after index `start` that is not below the target. */
  function FirstFrom(r: Run, target: Key, start: int): (n: nat)
    ensures n <= |r|
  {
    if start <= LowerBound(r, target) then LowerBound(r, target) else if start <= |r| then start else |r|
  }

  lemma EndIsBound(r: Run, target: Key, start: int)
    requires FirstFrom(r, target, start) == |r| && start <= 0
    ensures LowerBound(r, target) == |r|
  {
  }

  lemma SearchStep(r: Run, target: Key, start: int, mid: nat)
    requires Sorted(r) && mid < |r|
    ensures mid < FirstFrom(r, target, start) <==> mid < start || CompareKeys(r[mid].key, target) < 0
  {
    hide LowerBound, CompareKeys;
    LowerBoundSplits(r, target);
  }

  lemma NotTarget(r: Run, target: Key, key: Bytes)
    requires Sorted(r) && LowerBound(r, target) == |r| && exists j :: 0 <= j < |r| && key == r[j].key
    ensures key != target
  {
    hide Less, LowerBound, Sorted;
    LowerBoundSplits(r, target);
    LessTotal(target, target);
  }

  lemma ReadableFirst(r: Run)
    requires Readable(r)
    ensures r != []
  {
  }

  lemma SomeCells(r: Run)
    requires r != []
    ensures Cells(r) != []
  {
    hide Cell;
    CellHeader(r[0].key, r[|r| - 1], |r| == 1);
  }

  /** The base key as read from the head of the block. */
  lemma BaseCell(r: Run)
    requires Readable(r)
    ensures |Cells(r)| >= HEADER_SIZE && HEADER_SIZE <= KeyEnd(Cells(r)) <= |Cells(r)|
    ensures Cells(r)[HEADER_SIZE..KeyEnd(Cells(r))] == r[0].key
  {
    hide Cells, Starts, Cell, Common;
    CellsPrefix(r, 1);
    FirstCell(r);
    var cell := Cell(r[0].key, r[0], true);
    BaseKeyReads(r[0]);
    CellHeader(r[0].key, r[0], true);
    assert Cells(r)[2..4] == cell[2..4];
    var n := KeyEnd(cell);
    assert Cells(r)[HEADER_SIZE..n] == cell[HEADER_SIZE..n];
  }

  lemma FirstCell(r: Run)
    requires r != []
    ensures Cells(r[..1]) == Cell(r[0].key, r[0], true)
  {
    hide Cell;
    assert r[..1][..0] == [];
    assert Cells(r[..1]) == Cells(r[..1][..0]) + Cell(r[0].key, r[0], true);
  }

  /** What the reader takes out of cell i. */
  lemma CellParts(r: Run, i: nat, cell: Bytes)
    requires Readable(r) && i < |r| && cell == Cell(r[0].key, r[i], i == 0)
    ensures |cell| >= HEADER_SIZE
    ensures var n, end := HeaderOverlap(cell), KeyEnd(cell);
            n <= |r[0].key| && HEADER_SIZE <= end <= |cell| &&
            r[0].key[..n] + cell[HEADER_SIZE..end] == r[i].key && cell[end..] == Encoded(r[i].vs)
  {
    hide Cell, HeaderOverlap, KeyEnd, Encoded, Common;
    CellReads(r[0].key, r[i], i == 0);
  }

  lemma Rebuilt(key: Bytes, base: Bytes, prev: nat, overlap: nat)
    requires prev <= |key| && prev <= |base| && overlap <= |base| && key[..prev] == base[..prev]
    ensures overlap > prev ==> key[..prev] + base[prev..overlap] == base[..overlap]
    ensures overlap <= prev ==> key[..overlap] == base[..overlap]
  {
    if overlap > prev {
      assert base[..overlap] == base[..prev] + base[prev..overlap];
    } else {
      assert key[..overlap] == key[..prev][..overlap];
      assert base[..overlap] == base[..prev][..overlap];
    }
  }
}

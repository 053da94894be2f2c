/** Packing log entries into extent blocks, and reading them back during replay and by value pointer. */
module LogBlocks {
  import opened Bytes
  import opened Values
  import opened Extents
  import opened Room
  import opened Wire

  const MAX_MIXED_BLOCK_SIZE: nat := 4096
  const MAX_ENTRIES_IN_BLOCK: nat := 100

  // ---------- entries laid end to end ----------

  function Laid(es: seq<LogEntry>): Bytes
  {
    if es == [] then [] else EntryBytes(es[0]) + Laid(es[1..])
  }

  /** Where each entry starts, and where the last one ends. */
  function Bounds(es: seq<LogEntry>, at: nat): (r: seq<nat>)
    ensures |r| == |es| + 1 && r[0] == at
    decreases |es|
  {
    [at] + if es == [] then [] else Bounds(es[1..], at + EntrySize(es[0]))
  }

  lemma {:induction false} LaidSnoc(es: seq<LogEntry>, e: LogEntry)
    ensures Laid(es + [e]) == Laid(es) + EntryBytes(e)
  {
    if es == [] {
      assert [e][1..] == [] && [] + [e] == [e];
      assert Laid([e]) == EntryBytes(e) + Laid([e][1..]);
    } else {
      assert (es + [e])[1..] == es[1..] + [e];
      LaidSnoc(es[1..], e);
    }
  }

  lemma {:induction false} BoundsSnoc(es: seq<LogEntry>, e: LogEntry, at: nat)
    ensures Bounds(es + [e], at) == Bounds(es, at) + [at + |Laid(es)| + EntrySize(e)]
    decreases |es|
  {
    hide EntrySize, EntryBytes, Bounds, Laid;
    if es == [] {
      BoundsOne(e, at);
      assert [] + [e] == [e];
    } else {
      var n := EntrySize(es[0]);
      BoundsSnoc(es[1..], e, at + n);
      BoundsStep(es, at);
      BoundsStep(es + [e], at);
      assert (es + [e])[1..] == es[1..] + [e];
      assert [at] + (Bounds(es[1..], at + n) + [at + n + |Laid(es[1..])| + EntrySize(e)]) ==
             [at] + Bounds(es[1..], at + n) + [at + |Laid(es)| + EntrySize(e)];
    }
  }

  lemma BoundsOne(e: LogEntry, at: nat)
    ensures Bounds([e], at) == [at, at + EntrySize(e)] && Bounds([], at) == [at] && Laid([]) == []
  {
    assert [e][1..] == [];
  }

  lemma BoundsStep(es: seq<LogEntry>, at: nat)
    requires es != []
    ensures Bounds(es, at) == [at] + Bounds(es[1..], at + EntrySize(es[0]))
    ensures |Laid(es)| == EntrySize(es[0]) + |Laid(es[1..])|
  {
  }

  lemma {:induction false} BoundsBelow(es: seq<LogEntry>, at: nat)
    ensures forall i :: 0 <= i < |Bounds(es, at)| ==> Bounds(es, at)[i] <= at + |Laid(es)|
    decreases |es|
  {
    hide EntrySize, EntryBytes;
    if es != [] { BoundsBelow(es[1..], at + EntrySize(es[0])); }
  }

  // ---------- reading a block's entries ----------

  /** The entry between the first two offsets; None stands for the panic on a bad slice or entry. */
  function First(data: Bytes, offsets: seq<nat>): Option<LogEntry>
    requires |offsets| > 1
  {
    if offsets[0] <= offsets[1] <= |data| then ParseEntry(data[offsets[0]..offsets[1]], NO_ENTRY) else None
  }

  function Slices(data: Bytes, offsets: seq<nat>): Option<seq<LogEntry>>
  {
    if |offsets| <= 1 then Some([])
    else match First(data, offsets)
      case None => None
      case Some(e) => match Slices(data, offsets[1..])
        case None => None
        case Some(es) => Some([e] + es)
  }

  /** y.ExtractLogEntry; None stands for a panic. */
  function ExtractLogEntry(b: Block): Option<seq<LogEntry>>
  {
    match ParseMixed(b.userData, [])
    case None => None
    case Some(offsets) => if offsets == [] then None else Slices(b.data, offsets)
  }

  function OrPointer(meta: nat): nat { if Has(meta, BIT_VALUE_POINTER) then meta else meta + 2 }

  /** What replay makes of an entry: a big value is replaced by the pointer bit. */
  function Replayed(e: LogEntry): LogEntry
  {
    if ShouldWriteValueToLSM(e) then e else e.(meta := OrPointer(e.meta), value := [])
  }

  /** f is what replay may make of e: the same entry, except that a big value gives way to the pointer bit. */
  ghost predicate ReplayOf(e: LogEntry, f: LogEntry)
  {
    && f.key == e.key && f.userMeta == e.userMeta && f.expiresAt == e.expiresAt
    && (Has(f.meta, BIT_DELETE) <==> Has(e.meta, BIT_DELETE))
    && if ShouldWriteValueToLSM(e) then f.meta == e.meta && f.value == e.value
       else Has(f.meta, BIT_VALUE_POINTER) && f.value == []
  }

  lemma ReplayedIs(e: LogEntry)
    ensures ReplayOf(e, Replayed(e))
  {
    var m := e.meta;
    if !Has(m, BIT_VALUE_POINTER) { assert (m + 2) / 2 == m / 2 + 1; }
  }

  /** The loop of readBlockEntries for replay; `count` is the number of offsets in the block. */
  function ReplaySlices(data: Bytes, offsets: seq<nat>, count: nat): Option<seq<LogEntry>>
  {
    if |offsets| <= 1 then Some([])
    else match First(data, offsets)
      case None => None
      case Some(e) =>
        if !ShouldWriteValueToLSM(e) then (if count == 2 then Some([Replayed(e)]) else None)
        else match ReplaySlices(data, offsets[1..], count)
          case None => None
          case Some(es) => Some([e] + es)
  }

  /** readBlockEntries for replay, after the block itself was read; None stands for a panic. */
  function ReplayBlock(b: Block): Option<seq<LogEntry>>
  {
    match ParseMixed(b.userData, [])
    case None => None
    case Some(offsets) => ReplaySlices(b.data, offsets, |offsets|)
  }

  // ---------- entries that lie in the data as their offsets say ----------

  predicate AllOk(es: seq<LogEntry>) { forall i :: 0 <= i < |es| ==> EntryOk(es[i]) }
  predicate AllInline(es: seq<LogEntry>) { forall i :: 0 <= i < |es| ==> ShouldWriteValueToLSM(es[i]) }

  lemma FirstReads(es: seq<LogEntry>, pre: Bytes, post: Bytes)
    requires es != [] && AllOk(es)
    ensures First(pre + Laid(es) + post, Bounds(es, |pre|)) == Some(es[0])
    ensures Bounds(es, |pre|)[1..] == Bounds(es[1..], |pre + EntryBytes(es[0])|)
    ensures pre + Laid(es) + post == pre + EntryBytes(es[0]) + Laid(es[1..]) + post
  {
    hide EntryBytes, ParseEntry;
    var x := EntryBytes(es[0]);
    assert pre + Laid(es) + post == pre + x + Laid(es[1..]) + post;
    assert (pre + x + Laid(es[1..]) + post)[|pre|..|pre| + |x|] == x;
    EntryRoundTrip(es[0]);
  }

  lemma {:induction false} SlicesRead(es: seq<LogEntry>, pre: Bytes, post: Bytes)
    requires AllOk(es)
    ensures Slices(pre + Laid(es) + post, Bounds(es, |pre|)) == Some(es)
    decreases |es|
  {
    hide First, EntryBytes, EntryOk, EntrySize;
    if es != [] {
      FirstReads(es, pre, post);
      SlicesRead(es[1..], pre + EntryBytes(es[0]), post);
      assert es == [es[0]] + es[1..];
    }
  }

  lemma {:induction false} ReplayReads(es: seq<LogEntry>, pre: Bytes, post: Bytes, count: nat)
    requires AllOk(es) && AllInline(es)
    ensures ReplaySlices(pre + Laid(es) + post, Bounds(es, |pre|), count) == Some(es)
    decreases |es|
  {
    hide First, EntryBytes, EntryOk, EntrySize, ShouldWriteValueToLSM;
    if es != [] {
      FirstReads(es, pre, post);
      ReplayReads(es[1..], pre + EntryBytes(es[0]), post, count);
      assert es == [es[0]] + es[1..];
    }
  }

  // ---------- the two kinds of blocks ----------

  /** A block of small entries, padded with zeros. */
  function MixedBlockOf(es: seq<LogEntry>): Block
    requires |Laid(es)| <= MAX_MIXED_BLOCK_SIZE
  {
    var data := Laid(es) + Zeros(MAX_MIXED_BLOCK_SIZE - |Laid(es)|);
    Block(Adler(data), MAX_MIXED_BLOCK_SIZE, MixedBytes(Bounds(es, 0)), data)
  }

  /** utils.Ceil to whole sectors. */
  function Ceil(n: nat): (r: nat)
    ensures n <= r < n + SECTOR && r % SECTOR == 0
  {
    (n + SECTOR - 1) / SECTOR * SECTOR
  }

  /** A block of its own for one entry. */
  function ValueBlockOf(e: LogEntry): Block
  {
    var n := Ceil(EntrySize(e));
    var data := EntryBytes(e) + Zeros(n - EntrySize(e));
    Block(Adler(data), n, MixedBytes([0, EntrySize(e)]), data)
  }

  /** A packed block satisfies what writeBlock asks for: its offsets always fit the block header. */
  lemma MixedBlockProper(es: seq<LogEntry>)
    requires |Laid(es)| <= MAX_MIXED_BLOCK_SIZE && |es| <= MAX_ENTRIES_IN_BLOCK
    ensures Proper(MixedBlockOf(es))
  {
    hide Adler, Bounds, Laid, Packed, PutUvarint, SizeVarint, Zeros;
    var bounds := Bounds(es, 0);
    BoundsBelow(es, 0);
    PackedSize(bounds);
    SizeVarintBounds(|Packed(bounds)|);
    SizeVarintBounds(|MixedBytes(bounds)|);
    SizeVarintBounds(MAX_MIXED_BLOCK_SIZE);
  }

  lemma MixedBlockReplays(es: seq<LogEntry>)
    requires |Laid(es)| <= MAX_MIXED_BLOCK_SIZE && |es| <= MAX_ENTRIES_IN_BLOCK && AllOk(es) && AllInline(es)
    ensures ReplayBlock(MixedBlockOf(es)) == Some(es) && ExtractLogEntry(MixedBlockOf(es)) == Some(es)
  {
    hide Adler, Bounds, Laid, Packed, MixedBytes, ParseMixed, Slices, ReplaySlices, EntryOk, ShouldWriteValueToLSM;
    var bounds := Bounds(es, 0);
    BoundsBelow(es, 0);
    PackedSize(bounds);
    MixedRoundTrip(bounds);
    var post := Zeros(MAX_MIXED_BLOCK_SIZE - |Laid(es)|);
    SlicesRead(es, [], post);
    ReplayReads(es, [], post, |bounds|);
    assert [] + Laid(es) + post == Laid(es) + post;
  }

  /** An entry small enough for its own block: with the padding it stays below 4 GB. */
  predicate Fits(e: LogEntry) { EntryOk(e) && e.key != [] && EntrySize(e) < 0x4000_0000 }

  lemma TwoPacked(n: nat)
    requires n < UINT32_LIMIT
    ensures |Packed([0, n])| <= 6 && |MixedBytes([0, n])| <= 8
  {
    hide PutUvarint, SizeVarint;
    SizeVarintBounds(0); SizeVarintBounds(n);
    assert [0, n][1..] == [n] && [n][1..] == [];
    assert Packed([n]) == PutUvarint(n) + Packed([n][1..]);
    assert Packed([0, n]) == PutUvarint(0) + Packed([0, n][1..]);
    SizeVarintBounds(|Packed([0, n])|);
  }

  lemma ValueBlockProper(e: LogEntry)
    requires Fits(e)
    ensures Proper(ValueBlockOf(e))
  {
    hide Adler, MixedBytes, PutUvarint, SizeVarint, Zeros;
    TwoPacked(EntrySize(e));
    SizeVarintBounds(ValueBlockOf(e).blockLength);
    SizeVarintBounds(|MixedBytes([0, EntrySize(e)])|);
  }

  /** A value block holds its entry: by pointer all of it comes back, in replay the pointer bit for the value. */
  lemma ValueBlockReads(e: LogEntry)
    requires Fits(e)
    ensures ExtractLogEntry(ValueBlockOf(e)) == Some([e])
    ensures ReplayBlock(ValueBlockOf(e)) == Some([Replayed(e)]) && ReplayOf(e, Replayed(e))
  {
    hide Adler, Packed, MixedBytes, ParseMixed, EntryBytes, EntrySize, Replayed, ShouldWriteValueToLSM, ReplayOf;
    ReplayedIs(e);
    var n := EntrySize(e);
    TwoPacked(n);
    MixedRoundTrip([0, n]);
    var post := Zeros(ValueBlockOf(e).blockLength - n);
    var data := EntryBytes(e) + post;
    SingleReads(e, post);
  }

  lemma SingleReads(e: LogEntry, post: Bytes)
    requires EntryOk(e)
    ensures Slices(EntryBytes(e) + post, [0, EntrySize(e)]) == Some([e])
    ensures ReplaySlices(EntryBytes(e) + post, [0, EntrySize(e)], 2) == Some([Replayed(e)])
  {
    hide EntryBytes, EntrySize, ShouldWriteValueToLSM, EntryOk, ParseEntry;
    var data, offsets := EntryBytes(e) + post, [0, EntrySize(e)];
    assert data[0..EntrySize(e)] == EntryBytes(e);
    EntryRoundTrip(e);
    assert First(data, offsets) == Some(e);
    assert offsets[1..] == [EntrySize(e)];
    assert Slices(data, offsets[1..]) == Some([]) && ReplaySlices(data, offsets[1..], 2) == Some([]);
    assert [e] + [] == [e];
  }
}

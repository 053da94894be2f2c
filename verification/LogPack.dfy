/** A batch on its way into the log: packed into blocks, appended, and replayed after a restart. */
module LogPack {
  import opened Bytes
  import opened Values
  import opened Extents
  import opened ExtentOps
  import opened Room
  import opened Wire
  import opened LogBlocks

  // ---------- mixedBlock ----------

  class MixedBlock {
    const data: array<byte>
    var offsets: seq<nat>
    var tail: nat
    ghost var entries: seq<LogEntry>

    ghost predicate Valid()
      reads this, data
    {
      && data.Length == MAX_MIXED_BLOCK_SIZE && |entries| <= MAX_ENTRIES_IN_BLOCK
      && tail == |Laid(entries)| <= MAX_MIXED_BLOCK_SIZE
      && offsets + [tail] == Bounds(entries, 0)
      && data[..] == Laid(entries) + Zeros(MAX_MIXED_BLOCK_SIZE - tail)
    }

    constructor ()
      ensures Valid() && entries == [] && fresh(data)
    {
      data := new byte[MAX_MIXED_BLOCK_SIZE](_ => 0);
      offsets, tail, entries := [], 0, [];
      new;
      BoundsOne(NO_ENTRY, 0);
    }

    predicate CanFill(e: LogEntry)
      reads this
    {
      tail + EntrySize(e) <= MAX_MIXED_BLOCK_SIZE && |offsets| < MAX_ENTRIES_IN_BLOCK
    }

    /** Adds an entry that fits; it starts where the earlier ones end. */
    method Fill(e: LogEntry) returns (offset: nat)
      requires Valid() && CanFill(e)
      modifies this, data
      ensures Valid() && entries == old(entries) + [e] && offset == |Laid(old(entries))|
    {
      hide Laid, EntryBytes, EntrySize, Bounds;
      LaidSnoc(entries, e); BoundsSnoc(entries, e, 0);
      ghost var was := data[..];
      offsets := offsets + [tail];
      CopyInto(data, tail, EntryBytes(e));
      offset := tail;
      tail := tail + EntrySize(e);
      entries := entries + [e];
      PaddedCopy(Laid(old(entries)), was, EntryBytes(e));
    }

    method ToBlock() returns (b: Block)
      requires Valid()
      modifies this`offsets
      ensures b == MixedBlockOf(entries)
    {
      hide Laid, Bounds, Adler, MixedBytes, Zeros;
      offsets := offsets + [tail];
      b := Block(Adler(data[..]), MAX_MIXED_BLOCK_SIZE, MixedBytes(offsets), data[..]);
    }
  }

  lemma PaddedCopy(a: Bytes, s: Bytes, x: Bytes)
    requires |a| + |x| <= MAX_MIXED_BLOCK_SIZE && s == a + Zeros(MAX_MIXED_BLOCK_SIZE - |a|)
    ensures Copied(s, |a|, x) == a + x + Zeros(MAX_MIXED_BLOCK_SIZE - |a| - |x|)
  {
  }

  // ---------- entriesToBlocks ----------

  /** What one packed block may hold. */
  ghost predicate GroupOk(g: seq<LogEntry>)
  {
    g != [] && |g| <= MAX_ENTRIES_IN_BLOCK && |Laid(g)| <= MAX_MIXED_BLOCK_SIZE && AllOk(g) && AllInline(g)
  }

  ghost predicate GroupsOk(gs: seq<seq<LogEntry>>) { forall i :: 0 <= i < |gs| ==> GroupOk(gs[i]) }

  /** Group g had no room for the entry that opened the next one. */
  ghost predicate Closed(g: seq<LogEntry>, e: LogEntry)
  {
    |g| == MAX_ENTRIES_IN_BLOCK || |Laid(g)| + EntrySize(e) > MAX_MIXED_BLOCK_SIZE
  }

  ghost predicate Greedy(gs: seq<seq<LogEntry>>)
  {
    GroupsOk(gs) && forall i :: 0 <= i < |gs| - 1 ==> Closed(gs[i], gs[i + 1][0])
  }

  ghost function MixedBlocks(gs: seq<seq<LogEntry>>): (bs: seq<Block>)
    requires GroupsOk(gs)
  {
    if gs == [] then [] else [MixedBlockOf(gs[0])] + MixedBlocks(gs[1..])
  }

  ghost function ValueBlocks(es: seq<LogEntry>): (bs: seq<Block>)
    ensures |bs| == |es|
  {
    if es == [] then [] else [ValueBlockOf(es[0])] + ValueBlocks(es[1..])
  }

  /** How many entries at the head of the batch go into packed blocks. */
  function SmallRun(es: seq<LogEntry>): (j: nat)
    ensures j <= |es| && AllInline(es[..j]) && (j < |es| ==> !ShouldWriteValueToLSM(es[j]))
  {
    if es == [] || !ShouldWriteValueToLSM(es[0]) then 0
    else
      var j := 1 + SmallRun(es[1..]);
      assert es[..j] == [es[0]] + es[1..][..j - 1];
      j
  }

  lemma {:induction false} MixedBlocksSnoc(gs: seq<seq<LogEntry>>, g: seq<LogEntry>)
    requires GroupsOk(gs) && GroupOk(g)
    ensures GroupsOk(gs + [g]) && MixedBlocks(gs + [g]) == MixedBlocks(gs) + [MixedBlockOf(g)]
  {
    hide MixedBlockOf, AllOk, AllInline, Laid;
    if gs == [] {
      assert [g][1..] == [] && [] + [g] == [g];
      assert MixedBlocks([g]) == [MixedBlockOf(g)] + MixedBlocks([g][1..]);
    } else {
      assert (gs + [g])[1..] == gs[1..] + [g];
      MixedBlocksSnoc(gs[1..], g);
    }
  }

  lemma {:induction false} ValueBlocksSnoc(es: seq<LogEntry>, e: LogEntry)
    ensures ValueBlocks(es + [e]) == ValueBlocks(es) + [ValueBlockOf(e)]
  {
    hide ValueBlockOf;
    if es == [] {
      assert [e][1..] == [] && [] + [e] == [e];
      assert ValueBlocks([e]) == [ValueBlockOf(e)] + ValueBlocks([e][1..]);
    } else {
      assert (es + [e])[1..] == es[1..] + [e];
      ValueBlocksSnoc(es[1..], e);
    }
  }

  /** What is packed so far: closed groups, and the group in the open block. */
  ghost predicate Packing(done: seq<LogEntry>, gs: seq<seq<LogEntry>>, open: seq<LogEntry>)
  {
    && done == Flatten(gs) + open && GroupOk(open) && Greedy(gs)
    && (gs != [] ==> Closed(gs[|gs| - 1], open[0]))
  }

  lemma PackStart(e: LogEntry)
    requires EntryOk(e) && ShouldWriteValueToLSM(e) && EntrySize(e) <= MAX_MIXED_BLOCK_SIZE
    ensures Packing([e], [], [e])
  {
    assert [e][1..] == [];
    assert Laid([e]) == EntryBytes(e) + Laid([e][1..]);
  }

  lemma PackOpen(done: seq<LogEntry>, gs: seq<seq<LogEntry>>, open: seq<LogEntry>, e: LogEntry)
    requires Packing(done, gs, open) && EntryOk(e) && ShouldWriteValueToLSM(e) && !Closed(open, e)
    ensures Packing(done + [e], gs, open + [e])
  {
    hide EntryOk, ShouldWriteValueToLSM, Laid, EntryBytes, EntrySize;
    LaidSnoc(open, e);
    assert Flatten(gs) + (open + [e]) == Flatten(gs) + open + [e];
  }

  lemma PackClose(done: seq<LogEntry>, gs: seq<seq<LogEntry>>, open: seq<LogEntry>, e: LogEntry)
    requires Packing(done, gs, open) && EntryOk(e) && ShouldWriteValueToLSM(e) && Closed(open, e)
    requires EntrySize(e) <= MAX_MIXED_BLOCK_SIZE
    ensures Packing(done + [e], gs + [open], [e])
  {
    hide GroupOk, Closed, Flatten, EntryOk, ShouldWriteValueToLSM, EntrySize;
    PackStart(e);
    FlattenSnoc(gs, open);
    GreedySnoc(gs, open);
  }

  lemma GreedySnoc(gs: seq<seq<LogEntry>>, g: seq<LogEntry>)
    requires Greedy(gs) && GroupOk(g) && (gs != [] ==> Closed(gs[|gs| - 1], g[0]))
    ensures Greedy(gs + [g])
  {
    hide Laid, AllOk, AllInline, Closed;
  }

  lemma PackDone(done: seq<LogEntry>, gs: seq<seq<LogEntry>>, open: seq<LogEntry>)
    requires Packing(done, gs, open)
    ensures Greedy(gs + [open]) && Flatten(gs + [open]) == done
  {
    hide GroupOk, Closed, Flatten;
    FlattenSnoc(gs, open);
    GreedySnoc(gs, open);
  }

  /** The first loop: greedy packing of the small entries. `ok` is false where the code panics, which
      is on a small entry whose key makes it larger than a block. */
  method PackSmall(es: seq<LogEntry>) returns (ok: bool, blocks: seq<Block>, j: nat, ghost gs: seq<seq<LogEntry>>)
    requires AllOk(es)
    ensures ok <==> forall i :: 0 <= i < SmallRun(es) ==> EntrySize(es[i]) <= MAX_MIXED_BLOCK_SIZE
    ensures ok ==> j == SmallRun(es) && Greedy(gs) && Flatten(gs) == es[..j] && blocks == MixedBlocks(gs)
  {
    hide EntryOk, ShouldWriteValueToLSM, EntrySize, MixedBlockOf, Greedy, Flatten, Packing, MixedBlocks, GroupOk,
         Closed, Laid, Bounds, EntryBytes, MixedBytes, Zeros, Adler, SmallRun, PackedAs, GroupsOk;
    blocks, j, gs := [], 0, [];
    var mblock: MixedBlock? := null;
    StartPack();
    assert es[0..] == es;
    while j < |es| && ShouldWriteValueToLSM(es[j])
      invariant j <= |es| && SmallRun(es) == j + SmallRun(es[j..])
      invariant forall i :: 0 <= i < j ==> EntrySize(es[i]) <= MAX_MIXED_BLOCK_SIZE
      invariant mblock == null <==> j == 0
      invariant mblock == null ==> blocks == [] && gs == []
      invariant mblock != null ==> fresh(mblock) && fresh(mblock.data) && mblock.Valid()
      invariant mblock != null ==> Packing(es[..j], gs, mblock.entries) && PackedAs(gs, blocks)
    {
      var e := es[j];
      RunStep(es, j);
      assert es[..j + 1] == es[..j] + [e];
      if mblock == null {
        mblock := new MixedBlock();
        if !mblock.CanFill(e) { assert EntrySize(es[j]) > MAX_MIXED_BLOCK_SIZE; ok := false; return; }
        PackStart(e);
        assert es[..j] + [e] == [e] && [] + [e] == [e];
        StartPack();
      } else if !mblock.CanFill(e) {
        assert Closed(mblock.entries, e) by { FullIsClosed(mblock, e); }
        if EntrySize(e) > MAX_MIXED_BLOCK_SIZE { ok := false; return; }
        PackClose(es[..j], gs, mblock.entries, e);
        PackedAsSnoc(es[..j], gs, mblock.entries, blocks);
        var b := mblock.ToBlock();
        blocks, gs := blocks + [b], gs + [mblock.entries];
        mblock := new MixedBlock();
        assert [] + [e] == [e];
      } else {
        assert !Closed(mblock.entries, e) by { FullIsClosed(mblock, e); }
        PackOpen(es[..j], gs, mblock.entries, e);
      }
      var _ := mblock.Fill(e);
      j := j + 1;
    }
    ok := true;
    if mblock != null {
      PackDone(es[..j], gs, mblock.entries);
      PackedAsSnoc(es[..j], gs, mblock.entries, blocks);
      var b := mblock.ToBlock();
      blocks, gs := blocks + [b], gs + [mblock.entries];
    }
    EndPack(es, j);
    PackedIs(gs, blocks);
  }

  ghost predicate PackedAs(gs: seq<seq<LogEntry>>, blocks: seq<Block>)
  {
    GroupsOk(gs) && blocks == MixedBlocks(gs)
  }

  lemma PackedIs(gs: seq<seq<LogEntry>>, blocks: seq<Block>)
    requires PackedAs(gs, blocks)
    ensures GroupsOk(gs) && blocks == MixedBlocks(gs)
  {
  }

  lemma PackedAsSnoc(done: seq<LogEntry>, gs: seq<seq<LogEntry>>, open: seq<LogEntry>, blocks: seq<Block>)
    requires PackedAs(gs, blocks) && Packing(done, gs, open)
    ensures GroupOk(open) && |Laid(open)| <= MAX_MIXED_BLOCK_SIZE &&
            PackedAs(gs + [open], blocks + [MixedBlockOf(open)])
  {
    hide MixedBlocks, MixedBlockOf;
    MixedBlocksSnoc(gs, open);
  }

  lemma StartPack()
    ensures PackedAs([], []) && Greedy([]) && Flatten<LogEntry>([]) == []
  {
  }

  lemma EndPack(es: seq<LogEntry>, j: nat)
    requires j <= |es| && SmallRun(es) == j + SmallRun(es[j..]) && (j < |es| ==> !ShouldWriteValueToLSM(es[j]))
    ensures SmallRun(es) == j && (j == 0 ==> es[..j] == [])
  {
  }

  lemma RunStep(es: seq<LogEntry>, j: nat)
    requires j < |es| && ShouldWriteValueToLSM(es[j])
    ensures SmallRun(es[j..]) == 1 + SmallRun(es[j + 1..])
  {
    hide ShouldWriteValueToLSM;
    assert es[j..][1..] == es[j + 1..];
  }

  lemma FullIsClosed(m: MixedBlock, e: LogEntry)
    requires m.Valid()
    ensures Closed(m.entries, e) <==> !m.CanFill(e)
  {
  }

  /** The second loop: a block of its own for every other entry. */
  method PackValues(es: seq<LogEntry>) returns (blocks: seq<Block>)
    ensures blocks == ValueBlocks(es)
  {
    hide ValueBlockOf;
    blocks := [];
    for i := 0 to |es|
      invariant blocks == ValueBlocks(es[..i])
    {
      blocks := blocks + [ValueBlockOf(es[i])];
      assert es[..i + 1] == es[..i] + [es[i]];
      ValueBlocksSnoc(es[..i], es[i]);
    }
    assert es[..|es|] == es;
  }

  ghost predicate ByLength(es: seq<LogEntry>) { forall i, j :: 0 <= i < j < |es| ==> |es[i].value| <= |es[j].value| }

  /** sort.Slice by value length. The order of entries of equal length is not promised. */
  method SortByValue(entries: seq<LogEntry>) returns (es: seq<LogEntry>)
    ensures multiset(es) == multiset(entries) && ByLength(es)
  {
    hide ByLength;
    es := [];
    assert ByLength(es) by { InsertNothing(); }
    for i := 0 to |entries|
      invariant multiset(es) == multiset(entries[..i]) && ByLength(es)
    {
      var k := PlaceFor(es, entries[i]);
      InsertKeeps(es, k, entries[i]);
      assert entries[..i + 1] == entries[..i] + [entries[i]];
      es := es[..k] + [entries[i]] + es[k..];
    }
    assert entries[..|entries|] == entries;
  }

  lemma InsertNothing()
    ensures ByLength([])
  {
  }

  method PlaceFor(es: seq<LogEntry>, e: LogEntry) returns (k: nat)
    requires ByLength(es)
    ensures k <= |es| && (forall l :: 0 <= l < k ==> |es[l].value| <= |e.value|)
    ensures forall l :: k <= l < |es| ==> |e.value| <= |es[l].value|
  {
    k := 0;
    while k < |es| && |es[k].value| <= |e.value|
      invariant 0 <= k <= |es| && forall l :: 0 <= l < k ==> |es[l].value| <= |e.value|
    {
      k := k + 1;
    }
  }

  lemma InsertKeeps(es: seq<LogEntry>, k: nat, e: LogEntry)
    requires ByLength(es) && k <= |es| && (forall l :: 0 <= l < k ==> |es[l].value| <= |e.value|)
    requires forall l :: k <= l < |es| ==> |e.value| <= |es[l].value|
    ensures ByLength(es[..k] + [e] + es[k..])
    ensures multiset(es[..k] + [e] + es[k..]) == multiset(es) + multiset{e}
  {
    assert es == es[..k] + es[k..];
  }

  lemma PermutedOk(entries: seq<LogEntry>, es: seq<LogEntry>)
    requires multiset(es) == multiset(entries) && AllOk(entries)
    ensures AllOk(es) && |es| == |entries| && forall e :: e in es <==> e in entries
  {
    forall e ensures e in es <==> e in entries {
      assert e in es <==> e in multiset(es);
      assert e in entries <==> e in multiset(entries);
    }
    assert |multiset(es)| == |es| && |multiset(entries)| == |entries|;
    forall i | 0 <= i < |es| ensures EntryOk(es[i]) {
      assert es[i] in entries;
    }
  }

  /** Without pointer bits in the batch, sorting by value length puts exactly the large values last. */
  lemma {:induction false} SortedSplit(es: seq<LogEntry>)
    requires ByLength(es)
    requires forall i :: 0 <= i < |es| ==> !Has(es[i].meta, BIT_VALUE_POINTER)
    ensures forall i :: 0 <= i < |es| ==> (ShouldWriteValueToLSM(es[i]) <==> i < SmallRun(es))
  {
    hide SmallRun, Has;
    var j := SmallRun(es);
    forall i | 0 <= i < |es| ensures ShouldWriteValueToLSM(es[i]) <==> i < j {
      if i < j { assert es[..j][i] == es[i]; }
    }
  }

  /** entriesToBlocks: sort, pack the small run greedily, give every other entry a block of its own. */
  method EntriesToBlocks(entries: seq<LogEntry>)
      returns (ok: bool, es: seq<LogEntry>, blocks: seq<Block>, j: nat, k: nat, ghost gs: seq<seq<LogEntry>>)
    requires AllOk(entries) && entries != []
    ensures multiset(es) == multiset(entries) && ByLength(es) && AllOk(es) && es != []
    ensures ok <==> forall i :: 0 <= i < SmallRun(es) ==> EntrySize(es[i]) <= MAX_MIXED_BLOCK_SIZE
    ensures (forall e :: e in entries ==> !Has(e.meta, BIT_VALUE_POINTER)) ==>
              (ok <==> forall e :: e in entries && ShouldWriteValueToLSM(e) ==> EntrySize(e) <= MAX_MIXED_BLOCK_SIZE)
    ensures ok ==> j == SmallRun(es) && k <= |blocks| && Greedy(gs) && Flatten(gs) == es[..j] &&
                   blocks[..k] == MixedBlocks(gs) && blocks[k..] == ValueBlocks(es[j..])
  {
    hide EntryOk, EntrySize, Greedy, Flatten, MixedBlocks, ValueBlocks, SmallRun, ByLength, ShouldWriteValueToLSM;
    es := SortByValue(entries);
    PermutedOk(entries, es);
    if forall e :: e in entries ==> !Has(e.meta, BIT_VALUE_POINTER) { SmallFit(entries, es); }
    ok, blocks, j, gs := PackSmall(es);
    k := |blocks|;
    if ok {
      var rest := PackValues(es[j..]);
      blocks := blocks + rest;
    }
  }

  lemma SmallFit(entries: seq<LogEntry>, es: seq<LogEntry>)
    requires ByLength(es) && (forall e :: e in es <==> e in entries)
    requires forall e :: e in entries ==> !Has(e.meta, BIT_VALUE_POINTER)
    ensures (forall i :: 0 <= i < SmallRun(es) ==> EntrySize(es[i]) <= MAX_MIXED_BLOCK_SIZE) <==>
            (forall e :: e in entries && ShouldWriteValueToLSM(e) ==> EntrySize(e) <= MAX_MIXED_BLOCK_SIZE)
  {
    hide EntrySize, SmallRun, Has, ShouldWriteValueToLSM;
    forall i | 0 <= i < |es| ensures !Has(es[i].meta, BIT_VALUE_POINTER) { assert es[i] in entries; }
    SortedSplit(es);
    if forall i :: 0 <= i < SmallRun(es) ==> EntrySize(es[i]) <= MAX_MIXED_BLOCK_SIZE {
      forall e | e in entries && ShouldWriteValueToLSM(e) ensures EntrySize(e) <= MAX_MIXED_BLOCK_SIZE {
        var i :| 0 <= i < |es| && es[i] == e;
      }
    }
    if forall e :: e in entries && ShouldWriteValueToLSM(e) ==> EntrySize(e) <= MAX_MIXED_BLOCK_SIZE {
      forall i | 0 <= i < SmallRun(es) ensures EntrySize(es[i]) <= MAX_MIXED_BLOCK_SIZE { assert es[i] in entries; }
    }
  }

  // ---------- replay ----------

  function PlaceAll(es: seq<LogEntry>, ext: nat, at: nat): (r: seq<Placed>)
    ensures |r| == |es|
  {
    seq(|es|, i requires 0 <= i < |es| => Placed(es[i], ext, at))
  }

  /** ReadEntries from a position to the end of the file, block by block; None is an error or a panic. */
  function EntriesFrom(file: Bytes, ext: nat, at: nat): Option<seq<Placed>>
    decreases |file| - at
  {
    match ReadBlock(file, at)
    case Eof => Some([])
    case Failed => None
    case Ok(b) => match ReplayBlock(b)
      case None => None
      case Some(es) => match EntriesFrom(file, ext, at + SECTOR + b.blockLength)
        case None => None
        case Some(rest) => Some(PlaceAll(es, ext, at) + rest)
  }

  function ReplayBlocks(bs: seq<Block>, ext: nat, at: nat): Option<seq<Placed>>
    decreases |bs|
  {
    if bs == [] then Some([])
    else match ReplayBlock(bs[0])
      case None => None
      case Some(es) => match ReplayBlocks(bs[1..], ext, at + SECTOR + bs[0].blockLength)
        case None => None
        case Some(rest) => Some(PlaceAll(es, ext, at) + rest)
  }

  lemma {:induction false} EntriesOfFrames(pre: Bytes, bs: seq<Block>, ext: nat)
    requires AllProper(bs)
    ensures EntriesFrom(pre + Frames(bs), ext, |pre|) == ReplayBlocks(bs, ext, |pre|)
    decreases |bs|
  {
    hide Frame, ReplayBlock, Proper, EntriesFrom, ReadBlock, Meta;
    if bs == [] {
      EntriesEnd(pre, ext);
    } else {
      ProperSize(bs[0]);
      var f := Frame(bs[0]);
      var file := pre + f + Frames(bs[1..]);
      assert pre + Frames(bs) == file;
      FrameReads(pre, bs[0], Frames(bs[1..]));
      EntriesStep(file, ext, |pre|, bs[0]);
      EntriesOfFrames(pre + f, bs[1..], ext);
    }
  }

  lemma EntriesEnd(pre: Bytes, ext: nat)
    ensures EntriesFrom(pre + [], ext, |pre|) == Some([])
  {
  }

  lemma EntriesStep(file: Bytes, ext: nat, at: nat, b: Block)
    requires ReadBlock(file, at) == Ok(b)
    ensures EntriesFrom(file, ext, at) ==
            match ReplayBlock(b)
            case None => None
            case Some(es) => match EntriesFrom(file, ext, at + SECTOR + b.blockLength)
              case None => None
              case Some(rest) => Some(PlaceAll(es, ext, at) + rest)
  {
    hide ReadBlock, ReplayBlock;
  }

  ghost function PlaceGroups(gs: seq<seq<LogEntry>>, ext: nat, at: nat): (r: seq<Placed>)
    decreases |gs|
  {
    if gs == [] then [] else PlaceAll(gs[0], ext, at) + PlaceGroups(gs[1..], ext, at + SECTOR + MAX_MIXED_BLOCK_SIZE)
  }

  ghost function PlaceValues(es: seq<LogEntry>, ext: nat, at: nat): (r: seq<Placed>)
    ensures |r| == |es|
    decreases |es|
  {
    if es == [] then []
    else [Placed(Replayed(es[0]), ext, at)] + PlaceValues(es[1..], ext, at + SECTOR + ValueBlockOf(es[0]).blockLength)
  }

  ghost predicate AllFit(es: seq<LogEntry>) { forall i :: 0 <= i < |es| ==> Fits(es[i]) }

  lemma {:induction false} ReplayValues(es: seq<LogEntry>, ext: nat, at: nat)
    requires AllFit(es)
    ensures AllProper(ValueBlocks(es)) && ReplayBlocks(ValueBlocks(es), ext, at) == Some(PlaceValues(es, ext, at))
    decreases |es|
  {
    hide ValueBlockOf, ReplayBlock, Proper, Fits, Replayed, ReplayOf, ExtractLogEntry;
    if es != [] {
      var b := ValueBlockOf(es[0]);
      ValueBlockProper(es[0]); ValueBlockReads(es[0]);
      ReplayValues(es[1..], ext, at + SECTOR + b.blockLength);
      assert ValueBlocks(es) == [b] + ValueBlocks(es[1..]);
      assert ValueBlocks(es)[1..] == ValueBlocks(es[1..]);
      assert PlaceAll([Replayed(es[0])], ext, at) == [Placed(Replayed(es[0]), ext, at)];
    }
  }

  lemma {:induction false} ReplayGroups(gs: seq<seq<LogEntry>>, bs: seq<Block>, ext: nat, at: nat)
    requires GroupsOk(gs) && AllProper(bs)
    ensures AllProper(MixedBlocks(gs) + bs)
    ensures ReplayBlocks(MixedBlocks(gs) + bs, ext, at) ==
            match ReplayBlocks(bs, ext, at + TotalSize(MixedBlocks(gs)))
            case None => None
            case Some(rest) => Some(PlaceGroups(gs, ext, at) + rest)
    decreases |gs|
  {
    hide ReplayBlock, ReplayBlocks, Proper, MixedBlockOf, AllOk, AllInline, Laid, PlaceAll;
    if gs == [] {
      assert MixedBlocks(gs) + bs == bs;
      NothingBefore(ReplayBlocks(bs, ext, at));
    } else {
      GroupBlock(gs[0]);
      var b, ms := MixedBlockOf(gs[0]), MixedBlocks(gs[1..]);
      assert MixedBlocks(gs) + bs == [b] + (ms + bs);
      assert MixedBlocks(gs)[1..] == ms;
      var at' := at + SECTOR + MAX_MIXED_BLOCK_SIZE;
      ReplayGroups(gs[1..], bs, ext, at');
      ReplayCons(b, ms + bs, ext, at, gs[0]);
      JoinPlaced(PlaceAll(gs[0], ext, at), PlaceGroups(gs[1..], ext, at'), ReplayBlocks(bs, ext, at' + TotalSize(ms)));
    }
  }

  lemma ReplayCons(b: Block, bs: seq<Block>, ext: nat, at: nat, es: seq<LogEntry>)
    requires ReplayBlock(b) == Some(es)
    ensures ReplayBlocks([b] + bs, ext, at) ==
            match ReplayBlocks(bs, ext, at + SECTOR + b.blockLength)
            case None => None
            case Some(rest) => Some(PlaceAll(es, ext, at) + rest)
  {
    hide ReplayBlock;
    assert ([b] + bs)[1..] == bs;
  }

  lemma NothingBefore(r: Option<seq<Placed>>)
    ensures r == match r case None => None case Some(rest) => Some([] + rest)
  {
    if r.Some? { assert [] + r.value == r.value; }
  }

  lemma JoinPlaced(a: seq<Placed>, b: seq<Placed>, r: Option<seq<Placed>>)
    ensures r.Some? ==> a + (b + r.value) == a + b + r.value
  {
  }

  lemma GroupBlock(g: seq<LogEntry>)
    requires GroupOk(g)
    ensures |Laid(g)| <= MAX_MIXED_BLOCK_SIZE
    ensures var b := MixedBlockOf(g); Proper(b) && b.blockLength == MAX_MIXED_BLOCK_SIZE && ReplayBlock(b) == Some(g)
  {
    MixedBlockProper(g); MixedBlockReplays(g);
  }

  /** Replaying the blocks of a batch gives the batch back, in its order and with the block offsets. */
  lemma ReplayPacked(gs: seq<seq<LogEntry>>, values: seq<LogEntry>, pre: Bytes, ext: nat)
    requires GroupsOk(gs) && AllFit(values)
    ensures var bs := MixedBlocks(gs) + ValueBlocks(values);
            AllProper(bs) &&
            EntriesFrom(pre + Frames(bs), ext, |pre|) ==
              Some(PlaceGroups(gs, ext, |pre|) + PlaceValues(values, ext, |pre| + TotalSize(MixedBlocks(gs))))
    ensures var r := EntriesFrom(pre + Frames(MixedBlocks(gs) + ValueBlocks(values)), ext, |pre|).value;
            |r| == |Flatten(gs) + values| &&
            forall i :: 0 <= i < |r| ==> ReplayOf((Flatten(gs) + values)[i], r[i].log)
  {
    hide GroupsOk, AllFit, AllProper, EntriesFrom, ReplayBlocks, MixedBlocks, ValueBlocks, PlaceGroups, PlaceValues,
         Frames, ReplayOf, Flatten;
    var bs := MixedBlocks(gs) + ValueBlocks(values);
    ReplayValues(values, ext, |pre| + TotalSize(MixedBlocks(gs)));
    ReplayGroups(gs, ValueBlocks(values), ext, |pre|);
    EntriesOfFrames(pre, bs, ext);
    GroupsReplayed(gs, ext, |pre|);
    ValuesReplayed(values, ext, |pre| + TotalSize(MixedBlocks(gs)));
  }

  lemma {:induction false} GroupsReplayed(gs: seq<seq<LogEntry>>, ext: nat, at: nat)
    requires GroupsOk(gs)
    ensures var r := PlaceGroups(gs, ext, at);
            |r| == |Flatten(gs)| && forall i :: 0 <= i < |r| ==> ReplayOf(Flatten(gs)[i], r[i].log)
    decreases |gs|
  {
    if gs != [] {
      var at' := at + SECTOR + MAX_MIXED_BLOCK_SIZE;
      GroupsReplayed(gs[1..], ext, at');
      GroupReplayed(gs[0], ext, at);
      assert PlaceGroups(gs, ext, at) == PlaceAll(gs[0], ext, at) + PlaceGroups(gs[1..], ext, at');
      assert Flatten(gs) == gs[0] + Flatten(gs[1..]);
    }
  }

  lemma GroupReplayed(g: seq<LogEntry>, ext: nat, at: nat)
    requires GroupOk(g)
    ensures forall i :: 0 <= i < |g| ==> ReplayOf(g[i], PlaceAll(g, ext, at)[i].log)
  {
  }

  lemma {:induction false} ValuesReplayed(es: seq<LogEntry>, ext: nat, at: nat)
    ensures forall i :: 0 <= i < |es| ==> ReplayOf(es[i], PlaceValues(es, ext, at)[i].log)
    decreases |es|
  {
    hide ReplayOf, Replayed, ValueBlockOf;
    if es != [] {
      ReplayedIs(es[0]);
      ValuesReplayed(es[1..], ext, at + SECTOR + ValueBlockOf(es[0]).blockLength);
    }
  }
}

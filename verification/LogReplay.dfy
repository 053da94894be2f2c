/** What a batch leaves in the memtable when it is written, and what replay leaves there. */
module LogReplay {
  import opened Bytes
  import opened Keys
  import opened Values
  import opened Runs
  import opened Extents
  import opened ExtentOps
  import opened Room
  import opened Wire
  import opened LogBlocks
  import opened LogPack

  // ---------- AppendEntries ----------

  lemma TailIs(at: nat, bs: seq<Block>)
    requires bs != []
    ensures var n := |bs| - 1; Offsets(at, bs)[n] + bs[n].blockLength + SECTOR == at + TotalSize(bs)
  {
    var n := |bs| - 1;
    assert bs == bs[..n] + [bs[n]];
    OffsetsSnoc(at, bs[..n], bs[n]);
  }

  lemma {:induction false} SomeBlock(gs: seq<seq<LogEntry>>)
    requires GroupsOk(gs)
    ensures MixedBlocks(gs) == [] <==> Flatten(gs) == []
    ensures |MixedBlocks(gs)| == |gs|
  {
    hide MixedBlockOf, AllOk, AllInline, Laid;
    if gs != [] { assert gs[0] != []; SomeBlock(gs[1..]); }
  }

  /** How a batch was packed, and where its entries say they lie: the packed ones keep the place they came with. */
  ghost predicate Appended(es: seq<LogEntry>, ext: nat, at: nat, blocks: seq<Block>, gs: seq<seq<LogEntry>>,
      placed: seq<Placed>)
  {
    var j := SmallRun(es);
    && GroupsOk(gs) && Flatten(gs) == es[..j] && blocks == MixedBlocks(gs) + ValueBlocks(es[j..])
    && |placed| == |es|
    && (forall i :: 0 <= i < j ==> placed[i] == Placed(es[i], 0, 0))
    && (forall i :: j <= i < |es| ==> placed[i] == Placed(es[i], ext, ValueOffsets(es, gs, at)[i - j]))
  }

  /** The offsets of the blocks that were made for single entries. */
  ghost function ValueOffsets(es: seq<LogEntry>, gs: seq<seq<LogEntry>>, at: nat): (r: seq<nat>)
    requires GroupsOk(gs)
    ensures |r| == |es| - SmallRun(es)
  {
    Offsets(at + TotalSize(MixedBlocks(gs)), ValueBlocks(es[SmallRun(es)..]))
  }

  /** The offsets of the blocks that come after the packed ones. */
  lemma BatchBlocks(es: seq<LogEntry>, gs: seq<seq<LogEntry>>, blocks: seq<Block>, k: nat, at: nat)
    requires es != [] && GroupsOk(gs) && Flatten(gs) == es[..SmallRun(es)] && k <= |blocks|
    requires blocks[..k] == MixedBlocks(gs) && blocks[k..] == ValueBlocks(es[SmallRun(es)..])
    ensures blocks != [] && Offsets(at, blocks)[k..] == ValueOffsets(es, gs, at)
  {
    hide Flatten, MixedBlocks, ValueBlocks, SmallRun, Offsets, TotalSize, GroupOk;
    SomeBlock(gs);
    var a, b := blocks[..k], blocks[k..];
    assert blocks == a + b;
    OffsetsAppend(at, a, b);
    assert |es| == |es[..SmallRun(es)]| + |es[SmallRun(es)..]|;
  }

  /** AppendEntries, where the stream put the blocks at `at` in extent `ext`. */
  method AppendEntries(entries: seq<LogEntry>, ext: nat, at: nat)
      returns (ok: bool, es: seq<LogEntry>, placed: seq<Placed>, tail: nat, blocks: seq<Block>,
          ghost gs: seq<seq<LogEntry>>)
    requires AllOk(entries) && entries != []
    ensures multiset(es) == multiset(entries) && ByLength(es)
    ensures ok <==> forall i :: 0 <= i < SmallRun(es) ==> EntrySize(es[i]) <= MAX_MIXED_BLOCK_SIZE
    ensures ok ==> Greedy(gs) && Appended(es, ext, at, blocks, gs, placed) && tail == at + TotalSize(blocks)
  {
    hide EntryOk, EntrySize, Flatten, MixedBlocks, ValueBlocks, SmallRun, Offsets, TotalSize, Closed, GroupOk,
         ValueOffsets, GroupsOk, ByLength;
    var j, k;
    placed, tail := [], 0;
    ok, es, blocks, j, k, gs := EntriesToBlocks(entries);
    if ok {
      assert blocks == blocks[..k] + blocks[k..];
      BatchBlocks(es, gs, blocks, k, at);
      var offsets := Offsets(at, blocks);
      ghost var values := ValueOffsets(es, gs, at);
      placed := seq(|es|, i requires 0 <= i < |es| => Placed(es[i], 0, 0));
      for i := 0 to |es| - j
        invariant |placed| == |es| && forall n :: 0 <= n < j || j + i <= n < |es| ==> placed[n] == Placed(es[n], 0, 0)
        invariant forall n :: j <= n < j + i ==> placed[n] == Placed(es[n], ext, values[n - j])
      {
        assert offsets[k + i] == offsets[k..][i];
        placed := placed[j + i := Placed(es[j + i], ext, offsets[k + i])];
      }
      TailIs(at, blocks);
      tail := offsets[|offsets| - 1] + blocks[|blocks| - 1].blockLength + SECTOR;
    }
  }

  // ---------- the same values, written or replayed ----------

  /** What Get answers for a stored value, reading the log when it is a pointer. */
  function Resolve(file: Bytes, v: ValueStruct): Option<Bytes>
  {
    if !Has(v.meta, BIT_VALUE_POINTER) then Some(v.value)
    else if |v.value| < VPTR_SIZE then None
    else match ReadBlock(file, DecodePointer(v.value).offset)
      case Ok(b) => (match ExtractLogEntry(b)
        case Some(es) => if es == [] then None else Some(es[0].value)
        case None => None)
      case _ => None
  }

  function Stored(p: Placed): ValueStruct { LsmValue(p.log, p.extentID, p.offset) }

  /** The same value, up to the length in a pointer, which nothing reads. */
  predicate SameStored(v: ValueStruct, w: ValueStruct)
  {
    && v.meta == w.meta && v.userMeta == w.userMeta && v.expiresAt == w.expiresAt
    && if Has(v.meta, BIT_VALUE_POINTER)
       then |v.value| == |w.value| == VPTR_SIZE &&
            DecodePointer(v.value).(len := 0) == DecodePointer(w.value).(len := 0)
       else v.value == w.value
  }

  /** Setting the pointer bit early or late comes to the same. */
  lemma ReplayedInline(e: LogEntry)
    ensures !ShouldWriteValueToLSM(e) ==> !ShouldWriteValueToLSM(Replayed(e))
    ensures WithPointerBit(LowerByte(OrPointer(e.meta))) == WithPointerBit(LowerByte(e.meta))
  {
    hide LowerByte, WithPointerBit;
    LowerByteBits(e.meta);
    AddPointer(e.meta);
    if !Has(e.meta, BIT_VALUE_POINTER) {
      AddPointer(LowerByte(e.meta));
      LowerSum(e.meta);
      PointerTwice(LowerByte(e.meta));
    }
  }

  lemma AddPointer(m: nat)
    ensures !Has(m, BIT_VALUE_POINTER) ==> Has(m + 2, BIT_VALUE_POINTER)
  {
    assert (m + 2) / 2 == m / 2 + 1;
  }

  lemma LowerSum(m: nat)
    requires !Has(LowerByte(m), BIT_VALUE_POINTER)
    ensures LowerByte(m) <= 253 && LowerByte(m + 2) == LowerByte(m) + 2
  {
    var l := m % 256;
    assert l / 2 != 127;
  }

  lemma PointerTwice(l: byte)
    requires l <= 253 && !Has(l, BIT_VALUE_POINTER) && Has(l + 2, BIT_VALUE_POINTER)
    ensures WithPointerBit(l + 2) == WithPointerBit(l)
  {
  }

  lemma ReplayStoresSame(e: LogEntry, ext: nat, at: nat, ext': nat, at': nat)
    requires ext < UINT64_LIMIT && at < UINT32_LIMIT && |e.value| < UINT32_LIMIT
    requires !ShouldWriteValueToLSM(e) ==> ext' == ext && at' == at
    ensures SameStored(LsmValue(e, ext, at), LsmValue(Replayed(e), ext', at'))
  {
    hide EncodePointer, DecodePointer, LowerByte, WithPointerBit, OrPointer, Has;
    ReplayedInline(e);
    LowerByteBits(e.meta);
    PointerBit(LowerByte(e.meta));
    if !ShouldWriteValueToLSM(e) {
      PointerRoundTrip(ValuePointer(ext, at, |e.value|));
      PointerRoundTrip(ValuePointer(ext, at, 0));
    }
  }

  lemma {:induction false} PlaceGroupsLogs(gs: seq<seq<LogEntry>>, ext: nat, at: nat)
    ensures Logs(PlaceGroups(gs, ext, at)) == Flatten(gs)
    decreases |gs|
  {
    if gs != [] {
      var at' := at + SECTOR + MAX_MIXED_BLOCK_SIZE;
      PlaceGroupsLogs(gs[1..], ext, at');
      var a, b := PlaceAll(gs[0], ext, at), PlaceGroups(gs[1..], ext, at');
      assert Logs(a + b) == Logs(a) + Logs(b);
      assert Logs(a) == gs[0];
    }
  }

  lemma {:induction false} PlaceValuesAt(es: seq<LogEntry>, ext: nat, at: nat, i: nat)
    requires i < |es|
    ensures PlaceValues(es, ext, at)[i] == Placed(Replayed(es[i]), ext, Offsets(at, ValueBlocks(es))[i])
    decreases |es|
  {
    hide ValueBlockOf, Replayed;
    assert ValueBlocks(es)[1..] == ValueBlocks(es[1..]);
    if i > 0 {
      PlaceValuesAt(es[1..], ext, at + SECTOR + ValueBlockOf(es[0]).blockLength, i - 1);
    }
  }

  lemma ValuesProper(es: seq<LogEntry>)
    requires AllFit(es)
    ensures AllProper(ValueBlocks(es))
  {
    hide Fits, ValueBlocks, Proper, ReplayBlocks, PlaceValues;
    ReplayValues(es, 0, 0);
  }

  lemma MixedProper(gs: seq<seq<LogEntry>>)
    requires GroupsOk(gs)
    ensures AllProper(MixedBlocks(gs))
  {
    hide GroupOk, MixedBlocks, Proper, ReplayBlocks, PlaceGroups;
    ReplayGroups(gs, [], 0, 0);
    assert MixedBlocks(gs) + [] == MixedBlocks(gs);
  }

  /** The block at the i-th offset of a run of value blocks is that of the i-th entry. */
  lemma {:induction false} ValueBlockAt(pre: Bytes, es: seq<LogEntry>, post: Bytes, i: nat)
    requires AllFit(es) && i < |es|
    ensures AllProper(ValueBlocks(es))
    ensures ReadBlock(pre + Frames(ValueBlocks(es)) + post, Offsets(|pre|, ValueBlocks(es))[i]) ==
            Ok(ValueBlockOf(es[i]))
    decreases |es|
  {
    hide ValueBlockOf, ReadBlock, Frame, Frames, Meta, Proper, Fits, Offsets, TotalSize;
    var b, bs := ValueBlockOf(es[0]), ValueBlocks(es[1..]);
    assert ValueBlocks(es) == [b] + bs;
    ValuesProper(es); ValuesProper(es[1..]);
    ValueBlockProper(es[0]);
    FramesCons(b, bs);
    OffsetsCons(|pre|, b, bs);
    ProperSize(b);
    var f := Frame(b);
    assert pre + Frames(ValueBlocks(es)) + post == pre + f + (Frames(bs) + post);
    if i == 0 {
      FrameReads(pre, b, Frames(bs) + post);
    } else {
      assert pre + Frames(ValueBlocks(es)) + post == (pre + f) + Frames(bs) + post;
      ValueBlockAt(pre + f, es[1..], post, i - 1);
    }
  }

  // ---------- the whole round ----------

  /** Replaying an appended batch yields its entries in order, under their keys and with their marks, each storing
      what the write stored. */
  lemma BatchReplays(es: seq<LogEntry>, ext: nat, pre: Bytes, blocks: seq<Block>, gs: seq<seq<LogEntry>>,
      placed: seq<Placed>)
    requires AllFit(es) && Appended(es, ext, |pre|, blocks, gs, placed)
    requires ext < UINT64_LIMIT && |pre| + TotalSize(blocks) < UINT32_LIMIT
    ensures AllProper(blocks)
    ensures var r := EntriesFrom(pre + Frames(blocks), ext, |pre|);
            r.Some? && |r.value| == |es| &&
            forall i :: 0 <= i < |es| ==>
              r.value[i].log == Replayed(es[i]) && ReplayOf(es[i], r.value[i].log) &&
              SameStored(Stored(placed[i]), Stored(r.value[i]))
  {
    hide ReplayOf, Fits, GroupsOk, MixedBlocks, ValueBlocks, Flatten, EntriesFrom, Frames, Offsets, TotalSize,
         PlaceGroups, PlaceValues, SmallRun, Replayed, SameStored, LsmValue, ShouldWriteValueToLSM, AllProper;
    var j, at := SmallRun(es), |pre|;
    ReplayPacked(gs, es[j..], pre, ext);
    var a, v := PlaceGroups(gs, ext, at), PlaceValues(es[j..], ext, at + TotalSize(MixedBlocks(gs)));
    var r: seq<Placed> := a + v;
    PlaceGroupsLogs(gs, ext, at);
    SizesAppend(MixedBlocks(gs), ValueBlocks(es[j..]));
    assert |a| == |Logs(a)| == j;
    forall i | 0 <= i < |es|
      ensures r[i].log == Replayed(es[i]) && ReplayOf(es[i], r[i].log) && SameStored(Stored(placed[i]), Stored(r[i]))
    {
      ReplayedIs(es[i]);
      if i < j {
        assert Logs(a)[i] == es[..j][i];
        assert es[..j][i] == es[i];
        InlineSame(es[i], r[i].extentID, r[i].offset);
      } else {
        PlaceValuesAt(es[j..], ext, at + TotalSize(MixedBlocks(gs)), i - j);
        ValueOffsetBound(es, gs, at, i);
        FitsSize(es[i]);
        ReplayStoresSame(es[i], ext, placed[i].offset, ext, placed[i].offset);
      }
    }
  }

  lemma InlineSame(e: LogEntry, ext: nat, at: nat)
    requires ShouldWriteValueToLSM(e)
    ensures Replayed(e) == e && SameStored(LsmValue(e, 0, 0), LsmValue(e, ext, at))
  {
    hide Has, LowerByte;
    LowerByteBits(e.meta);
  }

  lemma FitsSize(e: LogEntry)
    requires Fits(e)
    ensures |e.value| < UINT32_LIMIT
  {
  }

  lemma ValueOffsetBound(es: seq<LogEntry>, gs: seq<seq<LogEntry>>, at: nat, i: nat)
    requires GroupsOk(gs) && SmallRun(es) <= i < |es|
    ensures ValueOffsets(es, gs, at)[i - SmallRun(es)] <
            at + TotalSize(MixedBlocks(gs) + ValueBlocks(es[SmallRun(es)..]))
  {
    hide GroupsOk, MixedBlocks, ValueBlocks, SmallRun, TotalSize, Offsets;
    var values := ValueBlocks(es[SmallRun(es)..]);
    OffsetsBound(at + TotalSize(MixedBlocks(gs)), values, i - SmallRun(es));
    SizesAppend(MixedBlocks(gs), values);
  }

  /** Get returns the value that was written, from the entry as written and from the entry as replayed,
      whatever else the log holds. */
  lemma BatchReadsBack(es: seq<LogEntry>, ext: nat, pre: Bytes, blocks: seq<Block>, gs: seq<seq<LogEntry>>,
                       placed: seq<Placed>, post: Bytes, i: nat)
    requires AllFit(es) && Appended(es, ext, |pre|, blocks, gs, placed) && i < |es|
    requires ext < UINT64_LIMIT && |pre| + TotalSize(blocks) < UINT32_LIMIT
    ensures AllProper(blocks)
    ensures var file := pre + Frames(blocks) + post;
            var r := EntriesFrom(pre + Frames(blocks), ext, |pre|);
            r.Some? && |r.value| == |es| &&
            Resolve(file, Stored(placed[i])) == Resolve(file, Stored(r.value[i])) == Some(es[i].value)
  {
    hide AllFit, GroupsOk, Flatten, MixedBlocks, ValueBlocks, EntriesFrom, Frames, TotalSize,
         SmallRun, Replayed, SameStored, LsmValue, ShouldWriteValueToLSM, AllProper, Resolve, Has;
    BatchReplays(es, ext, pre, blocks, gs, placed);
    WrittenResolves(es, ext, pre, blocks, gs, placed, post, i);
    var r := EntriesFrom(pre + Frames(blocks), ext, |pre|).value;
    SameResolves(pre + Frames(blocks) + post, Stored(placed[i]), Stored(r[i]));
  }

  lemma SameResolves(file: Bytes, v: ValueStruct, w: ValueStruct)
    requires SameStored(v, w)
    ensures Resolve(file, v) == Resolve(file, w)
  {
    hide ReadBlock, ExtractLogEntry, DecodePointer;
  }

  lemma WrittenResolves(es: seq<LogEntry>, ext: nat, pre: Bytes, blocks: seq<Block>, gs: seq<seq<LogEntry>>,
                        placed: seq<Placed>, post: Bytes, i: nat)
    requires AllFit(es) && Appended(es, ext, |pre|, blocks, gs, placed) && i < |es| && AllProper(blocks)
    requires ext < UINT64_LIMIT && |pre| + TotalSize(blocks) < UINT32_LIMIT
    ensures Resolve(pre + Frames(blocks) + post, Stored(placed[i])) == Some(es[i].value)
  {
    hide Fits, GroupsOk, MixedBlocks, ValueBlocks, Flatten, Frames, Offsets, TotalSize, SmallRun, LsmValue,
         ShouldWriteValueToLSM, AllProper, Resolve, ReadBlock, ValueBlockOf, ExtractLogEntry;
    var j := SmallRun(es);
    var file := pre + Frames(blocks) + post;
    FitsSize(es[i]);
    if i < j {
      assert es[..j][i] == es[i];
      InlineResolves(file, es[i], 0, 0);
    } else {
      ValueOffsetBound(es, gs, |pre|, i);
      PackedBefore(gs, es[j..], pre, post);
      ValueBlockAt(pre + Frames(MixedBlocks(gs)), es[j..], post, i - j);
      ValueBlockReads(es[i]);
      PointerResolves(file, es[i], ext, placed[i].offset, ValueBlockOf(es[i]));
    }
  }

  lemma PackedBefore(gs: seq<seq<LogEntry>>, values: seq<LogEntry>, pre: Bytes, post: Bytes)
    requires GroupsOk(gs) && AllFit(values)
    ensures AllProper(MixedBlocks(gs)) && AllProper(ValueBlocks(values)) &&
            AllProper(MixedBlocks(gs) + ValueBlocks(values))
    ensures pre + Frames(MixedBlocks(gs) + ValueBlocks(values)) + post ==
            (pre + Frames(MixedBlocks(gs))) + Frames(ValueBlocks(values)) + post
    ensures |pre + Frames(MixedBlocks(gs))| == |pre| + TotalSize(MixedBlocks(gs))
  {
    hide AllFit, GroupsOk, MixedBlocks, ValueBlocks, Frames, AllProper, TotalSize;
    MixedProper(gs);
    ValuesProper(values);
    FramesAppend(MixedBlocks(gs), ValueBlocks(values));
    FramesSize(MixedBlocks(gs));
  }

  lemma InlineResolves(file: Bytes, e: LogEntry, ext: nat, at: nat)
    requires ShouldWriteValueToLSM(e) && ext < UINT64_LIMIT && at < UINT32_LIMIT && |e.value| < UINT32_LIMIT
    ensures Resolve(file, LsmValue(e, ext, at)) == Some(e.value)
  {
    hide LsmValue, ReadBlock, ExtractLogEntry, Has;
    LsmValueReads(e, ext, at);
  }

  lemma PointerResolves(file: Bytes, e: LogEntry, ext: nat, at: nat, b: Block)
    requires ext < UINT64_LIMIT && at < UINT32_LIMIT && |e.value| < UINT32_LIMIT
    requires ReadBlock(file, at) == Ok(b) && ExtractLogEntry(b) == Some([e])
    ensures Resolve(file, LsmValue(e, ext, at)) == Some(e.value)
  {
    hide LsmValue, ReadBlock, ExtractLogEntry, Has;
    LsmValueReads(e, ext, at);
  }

  // ---------- reading the log in pieces ----------

  function Before(a: seq<Placed>, r: Option<seq<Placed>>): Option<seq<Placed>>
  {
    match r case None => None case Some(b) => Some(a + b)
  }

  /** ReadEntries for replay: reads whole blocks until `maxTotal` is passed or the file ends. However
      much one call reads, what it returns and what lies after its end are together all entries. */
  method ReadEntries(file: Bytes, commitLength: nat, sealed: bool, ext: nat, offset: nat, maxTotal: nat,
                     sizeOf: seq<Placed> -> nat) returns (ret: seq<Placed>, end: nat, code: ReadCode)
    ensures offset == 0 ==> code == ReadError
    ensures offset > 0 && commitLength <= offset ==>
              ret == [] && code == if sealed then EndOfExtent else EndOfStream
    ensures offset > 0 && commitLength > offset ==>
              if code == ReadError then EntriesFrom(file, ext, offset) == None
              else EntriesFrom(file, ext, offset) == Before(ret, EntriesFrom(file, ext, end))
    ensures offset > 0 && commitLength > offset && code == Fine ==> offset < end <= |file|
    ensures offset > 0 && commitLength > offset && (code == EndOfStream || code == EndOfExtent) ==>
              EntriesFrom(file, ext, offset) == Some(ret) && sealed == (code == EndOfExtent)
  {
    hide ReadBlock, ReplayBlock, EntriesFrom;
    ret, end, code := [], offset, ReadError;
    if offset == 0 { return; }
    var eos := if sealed then EndOfExtent else EndOfStream;
    if commitLength <= offset { return [], 0, eos; }
    var size := 0;
    NothingRead(EntriesFrom(file, ext, offset));
    while true
      invariant end >= offset && EntriesFrom(file, ext, offset) == Before(ret, EntriesFrom(file, ext, end))
      decreases if end <= |file| then |file| - end + 1 else 0
    {
      EntriesAt(file, ext, end, ret);
      match ReadBlock(file, end) {
        case Eof =>
          assert ret + [] == ret;
          return ret, end, eos;
        case Failed =>
          return [], 0, ReadError;
        case Ok(b) =>
          if ReplayBlock(b) == None { return [], 0, ReadError; }
          var entries := PlaceAll(ReplayBlock(b).value, ext, end);
          ret := ret + entries;
          size := size + sizeOf(entries);
          end := end + b.blockLength + SECTOR;
          if size > maxTotal { return ret, end, Fine; }
      }
    }
  }

  lemma NothingRead(r: Option<seq<Placed>>)
    ensures r == Before([], r)
  {
    if r.Some? { assert [] + r.value == r.value; }
  }

  lemma EntriesAt(file: Bytes, ext: nat, at: nat, ret: seq<Placed>)
    ensures Before(ret, EntriesFrom(file, ext, at)) ==
            match ReadBlock(file, at)
            case Eof => Some(ret + [])
            case Failed => None
            case Ok(b) => match ReplayBlock(b)
              case None => None
              case Some(es) => Before(ret + PlaceAll(es, ext, at), EntriesFrom(file, ext, at + b.blockLength + SECTOR))
  {
    hide ReadBlock, ReplayBlock;
    if ReadBlock(file, at).Ok? && ReplayBlock(ReadBlock(file, at).block).Some? {
      var b := ReadBlock(file, at).block;
      var x := PlaceAll(ReplayBlock(b).value, ext, at);
      var rest := EntriesFrom(file, ext, at + SECTOR + b.blockLength);
      if rest.Some? { assert ret + (x + rest.value) == ret + x + rest.value; }
    }
  }

  // ---------- the same memtable, written or replayed ----------

  /** The same keys, with the same values up to the length in a pointer. */
  ghost predicate SameRun(a: Run, b: Run)
  {
    |a| == |b| && forall i :: 0 <= i < |a| ==> a[i].key == b[i].key && SameStored(a[i].vs, b[i].vs)
  }

  lemma {:induction false} SameBound(a: Run, b: Run, key: Key)
    requires |a| == |b| && forall i :: 0 <= i < |a| ==> a[i].key == b[i].key
    ensures LowerBound(a, key) == LowerBound(b, key)
  {
    if a != [] { SameBound(a[1..], b[1..], key); }
  }

  lemma PutSame(a: Run, b: Run, key: Key, v: ValueStruct, w: ValueStruct)
    requires SameRun(a, b) && SameStored(v, w)
    ensures SameRun(Put(a, key, v), Put(b, key, w))
  {
    hide SameStored, LowerBound;
    SameBound(a, b, key);
  }

  /** Writing entries under the same keys that store the same leaves the same memtable. */
  lemma {:induction false} PutPlacedSame(a: Run, b: Run, ps: seq<Placed>, qs: seq<Placed>)
    requires SameRun(a, b) && |ps| == |qs| && forall i :: 0 <= i < |ps| ==> |ps[i].log.key| >= 8
    requires forall i :: 0 <= i < |ps| ==> qs[i].log.key == ps[i].log.key && SameStored(Stored(ps[i]), Stored(qs[i]))
    ensures SameRun(PutPlaced(a, ps), PutPlaced(b, qs))
    decreases |ps|
  {
    hide SameStored, Put, LsmValue, SameRun;
    if ps != [] {
      PutSame(a, b, ps[0].log.key, Stored(ps[0]), Stored(qs[0]));
      PutPlacedSame(Put(a, ps[0].log.key, Stored(ps[0])), Put(b, qs[0].log.key, Stored(qs[0])), ps[1..], qs[1..]);
    }
  }

  /** Writing a batch and replaying it later, into memtables that agree, leaves memtables that agree. */
  lemma BatchRestored(a: Run, b: Run, es: seq<LogEntry>, ext: nat, pre: Bytes, blocks: seq<Block>,
                      gs: seq<seq<LogEntry>>, placed: seq<Placed>)
    requires AllFit(es) && Appended(es, ext, |pre|, blocks, gs, placed) && SameRun(a, b)
    requires ext < UINT64_LIMIT && |pre| + TotalSize(blocks) < UINT32_LIMIT
    requires forall i :: 0 <= i < |es| ==> |es[i].key| >= 8
    ensures AllProper(blocks)
    ensures var r := EntriesFrom(pre + Frames(blocks), ext, |pre|);
            r.Some? && |placed| == |r.value| == |es| &&
            (forall i :: 0 <= i < |es| ==> |placed[i].log.key| >= 8 && |r.value[i].log.key| >= 8) &&
            SameRun(PutPlaced(a, placed), PutPlaced(b, r.value))
  {
    hide AllFit, GroupsOk, Flatten, MixedBlocks, ValueBlocks, EntriesFrom, Frames, TotalSize, SmallRun, Replayed,
         SameStored, LsmValue, AllProper, PutPlaced, SameRun;
    BatchReplays(es, ext, pre, blocks, gs, placed);
    var r := EntriesFrom(pre + Frames(blocks), ext, |pre|).value;
    forall i | 0 <= i < |es| ensures placed[i].log.key == r[i].log.key == es[i].key { assert placed[i].log == es[i]; }
    PutPlacedSame(a, b, placed, r);
  }

  // ---------- a log of many batches ----------

  /** A batch as it was packed: small entries in groups, the others in a block of their own each. */
  datatype Pack = Pack(gs: seq<seq<LogEntry>>, values: seq<LogEntry>)

  ghost predicate PacksOk(ps: seq<Pack>)
  {
    forall i :: 0 <= i < |ps| ==> GroupsOk(ps[i].gs) && AllFit(ps[i].values)
  }

  ghost function FileBlocks(ps: seq<Pack>): seq<Block>
    requires PacksOk(ps)
    decreases |ps|
  {
    if ps == [] then [] else MixedBlocks(ps[0].gs) + ValueBlocks(ps[0].values) + FileBlocks(ps[1..])
  }

  /** The entries of the batches, in the order in which they were logged. */
  ghost function FileEntries(ps: seq<Pack>): seq<LogEntry>
    decreases |ps|
  {
    if ps == [] then [] else Flatten(ps[0].gs) + ps[0].values + FileEntries(ps[1..])
  }

  /** The replayed entries are the logged ones, each as replay may give it. */
  ghost predicate AllReplayOf(es: seq<LogEntry>, r: seq<Placed>)
  {
    |r| == |es| && forall i :: 0 <= i < |es| ==> ReplayOf(es[i], r[i].log)
  }

  lemma ReplayOfJoin(a: seq<LogEntry>, p: seq<Placed>, b: seq<LogEntry>, q: seq<Placed>)
    requires AllReplayOf(a, p) && AllReplayOf(b, q)
    ensures AllReplayOf(a + b, p + q)
  {
    hide ReplayOf;
  }

  /** The first entry of the block that holds entry i. */
  function StartOf(r: seq<Placed>, i: nat): (st: nat)
    requires i < |r|
    ensures st <= i
  {
    if i > 0 && r[i - 1].offset == r[i].offset then StartOf(r, i - 1) else i
  }

  lemma {:induction false} StartOfBlock(a: seq<Placed>, r: seq<Placed>, at: nat, i: nat)
    requires i < |a| && forall k :: 0 <= k < |a| ==> a[k].offset == at
    ensures StartOf(a + r, i) == 0
  {
    if i > 0 { StartOfBlock(a, r, at, i - 1); }
  }

  lemma {:induction false} StartBehind(a: seq<Placed>, r: seq<Placed>, at: nat, i: nat)
    requires i < |r| && (forall k :: 0 <= k < |a| ==> a[k].offset < at)
    requires forall k :: 0 <= k < |r| ==> r[k].offset >= at
    ensures StartOf(a + r, |a| + i) == |a| + StartOf(r, i)
  {
    if i > 0 {
      StartBehind(a, r, at, i - 1);
      assert (a + r)[|a| + i] == r[i] && (a + r)[|a| + i - 1] == r[i - 1];
    }
  }

  /** Entries are placed at or behind the first block. */
  lemma {:induction false} PlacedFrom(bs: seq<Block>, ext: nat, at: nat)
    requires ReplayBlocks(bs, ext, at).Some?
    ensures forall k :: 0 <= k < |ReplayBlocks(bs, ext, at).value| ==>
              at <= ReplayBlocks(bs, ext, at).value[k].offset < at + TotalSize(bs)
    decreases |bs|
  {
    hide ReplayBlock;
    if bs != [] { PlacedFrom(bs[1..], ext, at + SECTOR + bs[0].blockLength); }
  }

  /** Reading on from the block of entry i yields everything from the first entry of that block. */
  lemma {:induction false} EntriesFromBlock(pre: Bytes, bs: seq<Block>, ext: nat, i: nat)
    requires AllProper(bs) && ReplayBlocks(bs, ext, |pre|).Some? && i < |ReplayBlocks(bs, ext, |pre|).value|
    ensures var r := ReplayBlocks(bs, ext, |pre|).value;
            EntriesFrom(pre + Frames(bs), ext, r[i].offset) == Some(r[StartOf(r, i)..])
    decreases |bs|
  {
    hide ReplayBlock, EntriesFrom, Frame, Meta, Proper, StartOf;
    var at, at' := |pre|, |pre| + SECTOR + bs[0].blockLength;
    var es := ReplayBlock(bs[0]).value;
    var a, rest := PlaceAll(es, ext, at), ReplayBlocks(bs[1..], ext, at').value;
    if i < |es| {
      StartOfBlock(a, rest, at, i);
      EntriesOfFrames(pre, bs, ext);
    } else {
      ProperSize(bs[0]);
      PlacedFrom(bs[1..], ext, at');
      StartBehind(a, rest, at', i - |es|);
      assert pre + Frames(bs) == (pre + Frame(bs[0])) + Frames(bs[1..]);
      EntriesFromBlock(pre + Frame(bs[0]), bs[1..], ext, i - |es|);
      DropBehind(a, rest, StartOf(rest, i - |es|));
    }
  }

  lemma DropBehind(a: seq<Placed>, r: seq<Placed>, n: nat)
    requires n <= |r|
    ensures (a + r)[|a| + n..] == r[n..]
  {
  }

  lemma {:induction false} ReplayAppend(a: seq<Block>, b: seq<Block>, ext: nat, at: nat)
    requires ReplayBlocks(a, ext, at).Some? && ReplayBlocks(b, ext, at + TotalSize(a)).Some?
    ensures ReplayBlocks(a + b, ext, at) ==
            Some(ReplayBlocks(a, ext, at).value + ReplayBlocks(b, ext, at + TotalSize(a)).value)
    decreases |a|
  {
    hide ReplayBlock, PlaceAll;
    if a == [] {
      assert a + b == b;
      NothingBefore(ReplayBlocks(b, ext, at));
    } else {
      assert a + b == [a[0]] + (a[1..] + b);
      var es, at' := ReplayBlock(a[0]).value, at + SECTOR + a[0].blockLength;
      ReplayAppend(a[1..], b, ext, at');
      ReplayCons(a[0], a[1..] + b, ext, at, es);
      JoinPlaced(PlaceAll(es, ext, at), ReplayBlocks(a[1..], ext, at').value,
                 ReplayBlocks(b, ext, at' + TotalSize(a[1..])));
    }
  }

  lemma PackReplays(p: Pack, ext: nat, at: nat)
    requires GroupsOk(p.gs) && AllFit(p.values)
    ensures var bs := MixedBlocks(p.gs) + ValueBlocks(p.values);
            AllProper(bs) && ReplayBlocks(bs, ext, at).Some? &&
            AllReplayOf(Flatten(p.gs) + p.values, ReplayBlocks(bs, ext, at).value)
  {
    hide GroupsOk, AllFit, AllProper, ReplayBlocks, MixedBlocks, ValueBlocks, PlaceGroups, PlaceValues, Flatten,
         ReplayOf;
    var at' := at + TotalSize(MixedBlocks(p.gs));
    ReplayValues(p.values, ext, at');
    ReplayGroups(p.gs, ValueBlocks(p.values), ext, at);
    GroupsReplayed(p.gs, ext, at); ValuesReplayed(p.values, ext, at');
    ReplayOfJoin(Flatten(p.gs), PlaceGroups(p.gs, ext, at), p.values, PlaceValues(p.values, ext, at'));
  }

  lemma {:induction false} FileReplays(ps: seq<Pack>, ext: nat, at: nat)
    requires PacksOk(ps)
    ensures AllProper(FileBlocks(ps)) && ReplayBlocks(FileBlocks(ps), ext, at).Some?
    ensures AllReplayOf(FileEntries(ps), ReplayBlocks(FileBlocks(ps), ext, at).value)
    decreases |ps|
  {
    hide GroupsOk, AllFit, Proper, ReplayBlock, MixedBlocks, ValueBlocks, Flatten, AllReplayOf, PlaceAll;
    if ps == [] {
      assert AllReplayOf([], []) by { NoneReplayed(); }
    } else {
      var bs := MixedBlocks(ps[0].gs) + ValueBlocks(ps[0].values);
      PackReplays(ps[0], ext, at);
      FileReplays(ps[1..], ext, at + TotalSize(bs));
      ReplayAppend(bs, FileBlocks(ps[1..]), ext, at);
      ReplayOfJoin(Flatten(ps[0].gs) + ps[0].values, ReplayBlocks(bs, ext, at).value, FileEntries(ps[1..]),
                   ReplayBlocks(FileBlocks(ps[1..]), ext, at + TotalSize(bs)).value);
    }
  }

  lemma NoneReplayed()
    ensures AllReplayOf([], [])
  {
  }

  /** A log of any number of batches: replay from its start yields the entries of all of them in order, and replay
      from the block of any entry yields the entries from the first one in that block on. */
  lemma LogReplays(ps: seq<Pack>, pre: Bytes, ext: nat)
    requires PacksOk(ps)
    ensures AllProper(FileBlocks(ps))
    ensures var file := pre + Frames(FileBlocks(ps));
            var r := EntriesFrom(file, ext, |pre|);
            r.Some? && AllReplayOf(FileEntries(ps), r.value) &&
            forall i :: 0 <= i < |r.value| ==>
              EntriesFrom(file, ext, r.value[i].offset) == Some(r.value[StartOf(r.value, i)..])
  {
    hide GroupsOk, AllFit, AllProper, ReplayBlocks, EntriesFrom, Frames, StartOf, AllReplayOf, FileEntries;
    FileReplays(ps, ext, |pre|);
    var bs := FileBlocks(ps);
    EntriesOfFrames(pre, bs, ext);
    var r := ReplayBlocks(bs, ext, |pre|).value;
    forall i | 0 <= i < |r| ensures EntriesFrom(pre + Frames(bs), ext, r[i].offset) == Some(r[StartOf(r, i)..]) {
      EntriesFromBlock(pre, bs, ext, i);
    }
  }

  /** No block holds entries of two batches: an entry of the last batches starts no earlier than they do. */
  lemma StartsInBatch(before: seq<Pack>, after: seq<Pack>, pre: Bytes, ext: nat, i: nat)
    requires PacksOk(before) && PacksOk(after) && |FileEntries(before)| <= i < |FileEntries(before + after)|
    ensures PacksOk(before + after) && AllProper(FileBlocks(before + after))
    ensures var r := EntriesFrom(pre + Frames(FileBlocks(before + after)), ext, |pre|);
            r.Some? && |r.value| == |FileEntries(before + after)| && StartOf(r.value, i) >= |FileEntries(before)|
  {
    hide GroupsOk, AllFit, AllProper, ReplayBlocks, EntriesFrom, Frames, StartOf, FileEntries, FileBlocks;
    FileJoin(before, after);
    var a, b := FileBlocks(before), FileBlocks(after);
    var at := |pre| + TotalSize(a);
    FileReplays(before, ext, |pre|); FileReplays(after, ext, at); FileReplays(before + after, ext, |pre|);
    ReplayAppend(a, b, ext, |pre|);
    EntriesOfFrames(pre, FileBlocks(before + after), ext);
    PlacedFrom(a, ext, |pre|); PlacedFrom(b, ext, at);
    StartBehind(ReplayBlocks(a, ext, |pre|).value, ReplayBlocks(b, ext, at).value, at, i - |FileEntries(before)|);
  }

  lemma {:induction false} FileJoin(a: seq<Pack>, b: seq<Pack>)
    requires PacksOk(a) && PacksOk(b)
    ensures PacksOk(a + b) && FileBlocks(a + b) == FileBlocks(a) + FileBlocks(b)
    ensures FileEntries(a + b) == FileEntries(a) + FileEntries(b)
    decreases |a|
  {
    hide GroupsOk, AllFit, MixedBlocks, ValueBlocks, Flatten;
    if a == [] {
      assert a + b == b;
    } else {
      FileJoin(a[1..], b);
      assert (a + b)[0] == a[0] && (a + b)[1..] == a[1..] + b;
      assert PacksOk(a + b) by {
        forall i | 0 <= i < |a + b| ensures GroupsOk((a + b)[i].gs) && AllFit((a + b)[i].values) {
          if i >= |a| { assert (a + b)[i] == b[i - |a|]; }
        }
      }
    }
  }
}

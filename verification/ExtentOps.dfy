/** The extent object: appending, reading, sealing and reopening. */
module ExtentOps {
  import opened Bytes
  import opened Extents

  /** How far the two writes of one block got. writeBlock looks only at the outcome of the second. */
  datatype Outcome = Outcome(header: nat, data: nat)

  predicate DataFailed(o: Outcome, b: Block) { o.data < |b.data| }

  /** What the two writes leave in the file. */
  function Written(o: Outcome, b: Block): Bytes
    requires |Meta(b)| <= SECTOR
  {
    (if o.header < SECTOR then BlockHeader(b)[..o.header] else BlockHeader(b)) +
    (if o.data < |b.data| then b.data[..o.data] else b.data)
  }

  /** Truncate cuts a file, or extends it with zeros. */
  function Truncate(file: Bytes, n: nat): (r: Bytes)
    ensures |r| == n
  {
    if n <= |file| then file[..n] else file + Zeros(n - |file|)
  }

  function TotalSize(bs: seq<Block>): nat
  {
    if bs == [] then 0 else SECTOR + bs[0].blockLength + TotalSize(bs[1..])
  }

  /** Where each block of an append at some length goes. */
  function Offsets(at: nat, bs: seq<Block>): (r: seq<nat>)
    ensures |r| == |bs|
    decreases |bs|
  {
    if bs == [] then [] else [at] + Offsets(at + SECTOR + bs[0].blockLength, bs[1..])
  }

  lemma {:induction false} OffsetsSnoc(at: nat, bs: seq<Block>, b: Block)
    ensures Offsets(at, bs + [b]) == Offsets(at, bs) + [at + TotalSize(bs)]
    ensures TotalSize(bs + [b]) == TotalSize(bs) + SECTOR + b.blockLength
    decreases |bs|
  {
    if bs == [] {
      assert [b][1..] == [];
      assert Offsets(at, [b]) == [at] + Offsets(at + SECTOR + b.blockLength, [b][1..]);
      assert TotalSize([b]) == SECTOR + b.blockLength + TotalSize([b][1..]);
      assert [] + [b] == [b];
    } else {
      assert (bs + [b])[1..] == bs[1..] + [b];
      OffsetsSnoc(at + SECTOR + bs[0].blockLength, bs[1..], b);
    }
  }

  lemma OffsetsCons(at: nat, b: Block, bs: seq<Block>)
    ensures Offsets(at, [b] + bs) == [at] + Offsets(at + SECTOR + b.blockLength, bs)
    ensures TotalSize([b] + bs) == SECTOR + b.blockLength + TotalSize(bs)
  {
    assert ([b] + bs)[1..] == bs;
  }

  lemma {:induction false} OffsetsBound(at: nat, bs: seq<Block>, i: nat)
    requires i < |bs|
    ensures at <= Offsets(at, bs)[i] < at + TotalSize(bs)
    decreases |bs|
  {
    if i > 0 { OffsetsBound(at + SECTOR + bs[0].blockLength, bs[1..], i - 1); }
  }

  lemma {:induction false} SizesAppend(a: seq<Block>, b: seq<Block>)
    ensures TotalSize(a + b) == TotalSize(a) + TotalSize(b)
  {
    if a == [] {
      assert a + b == b;
    } else {
      assert (a + b)[1..] == a[1..] + b;
      SizesAppend(a[1..], b);
    }
  }

  lemma {:induction false} OffsetsAppend(at: nat, a: seq<Block>, b: seq<Block>)
    ensures Offsets(at, a + b) == Offsets(at, a) + Offsets(at + TotalSize(a), b)
    decreases |a|
  {
    if a == [] {
      assert a + b == b;
    } else {
      hide Offsets, TotalSize;
      var at', rest := at + SECTOR + a[0].blockLength, a[1..];
      assert a == [a[0]] + rest && a + b == [a[0]] + (rest + b);
      OffsetsCons(at, a[0], rest + b);
      OffsetsCons(at, a[0], rest);
      OffsetsAppend(at', rest, b);
    }
  }

  lemma {:induction false} FramesSize(bs: seq<Block>)
    requires AllProper(bs)
    ensures |Frames(bs)| == TotalSize(bs)
  {
    if bs != [] { FramesSize(bs[1..]); }
  }

  datatype ReadCode = Fine | EndOfExtent | EndOfStream | ReadError

  class Extent {
    const id: nat
    var file: Bytes
    var commitLength: nat
    var isSeal: bool
    var sealAttr: bool
    ghost var blocks: seq<Block>

    /** An open extent: the file is the header and whole blocks, and its length is the commit length. */
    ghost predicate Valid()
      reads this
    {
      && AllProper(blocks)
      && file == FileHeader(id) + Frames(blocks)
      && commitLength == |file| < UINT32_LIMIT
    }

    constructor Create(id: nat)
      ensures Valid() && this.id == id && blocks == [] && !isSeal
    {
      this.id := id;
      file := FileHeader(id);
      commitLength, isSeal, sealAttr, blocks := SECTOR, false, false, [];
    }

    /** writeBlock: nothing is written when the block is refused, and a short header write is not reported. */
    method WriteBlock(b: Block, o: Outcome) returns (failed: bool)
      requires |b.data| == b.blockLength < UINT32_LIMIT
      modifies this`file
      ensures failed <==> !Writable(b) || DataFailed(o, b)
      ensures file == old(file) + if Writable(b) then Written(o, b) else []
    {
      if !Writable(b) { assert file + [] == file; return true; }
      file := file + Written(o, b);
      failed := DataFailed(o, b);
    }

    /** AppendBlocks. `io` tells how far each block's writes get. On failure the blocks before the failing
        one stay in the extent, and the file is cut or extended to the length they should have. */
    method AppendBlocks(bs: seq<Block>, lastCommit: Option<nat>, io: seq<Outcome>)
        returns (ret: Option<seq<nat>>, ghost kept: nat)
      requires |io| == |bs| && commitLength + TotalSize(bs) < UINT32_LIMIT
      requires forall i :: 0 <= i < |bs| ==> |bs[i].data| == bs[i].blockLength
      modifies this`file, this`commitLength, this`blocks
      ensures kept <= |bs| && blocks == old(blocks) + bs[..kept]
      ensures commitLength == old(commitLength) + TotalSize(bs[..kept])
      ensures isSeal || (lastCommit.Some? && lastCommit.value != old(commitLength)) ==>
                ret == None && kept == 0 && file == old(file)
      ensures !isSeal && (lastCommit.Some? ==> lastCommit.value == old(commitLength)) ==>
                Accepted(bs[..kept], io[..kept]) && (kept < |bs| ==> Refused(bs[kept], io[kept])) &&
                (ret == if kept == |bs| then Some(Offsets(old(commitLength), bs)) else None) &&
                file == (if kept == |bs| then old(file) + WrittenAll(bs, io)
                         else Truncate(old(file) + WrittenAll(bs[..kept], io[..kept]) + Remains(bs[kept], io[kept]),
                              commitLength))
      ensures old(Valid()) && FullHeaders(io[..kept]) ==> Valid() && old(file) <= file
      ensures old(Valid()) && ret.Some? ==> (Valid() <==> FullHeaders(io))
      ensures old(Valid()) && ret.Some? ==> (|file| == commitLength <==> FullHeaders(io))
      ensures old(Valid()) && ret == None ==> |file| == commitLength
    {
      hide Frames, Frame, Meta, Refused, Offsets, TotalSize, FileHeader, AppendState, WrittenAll, Accepted, FullHeaders,
           Written, Extent.Valid;
      kept := 0;
      ghost var valid, blocks0 := Valid(), blocks;
      AppendNone(bs, io, blocks, commitLength);
      ValidLength();
      if isSeal || (lastCommit.Some? && lastCommit.value != commitLength) { return None, 0; }
      var currentLength: nat := commitLength;
      var offsets: seq<nat> := [];
      var i := 0;
      AppendStart(file, bs, io, commitLength);
      while i < |bs|
        invariant 0 <= i <= |bs| && isSeal == old(isSeal) && commitLength == old(commitLength) && blocks == old(blocks)
        invariant AppendState(file, old(file), bs, io, i, old(commitLength), currentLength, offsets)
      {
        AppendBounds(file, old(file), bs, io, i, old(commitLength), currentLength, offsets);
        ghost var was := file;
        var failed := WriteBlock(bs[i], io[i]);
        if failed {
          RefusedMeans(bs[i], io[i]);
          assert was + Remains(bs[i], io[i]) == file;
          file := Truncate(file, currentLength);
          commitLength := currentLength;
          blocks := blocks + bs[..i];
          if valid && FullHeaders(io[..i]) {
            FailedAppend(id, blocks0, old(file), bs[..i], io[..i], Remains(bs[i], io[i]));
            MakeValid();
          }
          return None, i;
        }
        RefusedMeans(bs[i], io[i]);
        AppendStep(was, old(file), bs, io, i, old(commitLength), currentLength, offsets);
        offsets := offsets + [currentLength];
        currentLength := currentLength + bs[i].blockLength + SECTOR;
        i := i + 1;
      }
      AppendBounds(file, old(file), bs, io, i, old(commitLength), currentLength, offsets);
      assert bs[..|bs|] == bs && io[..|bs|] == io;
      commitLength := currentLength;
      blocks := blocks + bs;
      if valid {
        SuccessfulAppend(id, blocks0, old(file), bs, io);
        if FullHeaders(io) { MakeValid(); }
        ValidLength();
      }
      return Some(offsets), |bs|;
    }

    lemma MakeValid()
      requires AllProper(blocks) && file == FileHeader(id) + Frames(blocks) && commitLength == |file| < UINT32_LIMIT
      ensures Valid()
    {
    }

    lemma ValidLength()
      ensures Valid() ==> |file| == commitLength && AllProper(blocks) && file == FileHeader(id) + Frames(blocks)
    {
    }

    /** Seal stops all later appends, even when it fails. */
    method Seal(commit: nat) returns (ok: bool)
      requires !isSeal ==> Valid()
      requires commit <= commitLength ==> commitLength <= |file|
      modifies this`isSeal, this`file, this`sealAttr
      ensures isSeal && (ok <==> commit <= commitLength)
      ensures ok ==> sealAttr && file == old(file)[..if commit < commitLength then commit else |old(file)|]
      ensures !ok ==> file == old(file) && sealAttr == old(sealAttr)
    {
      isSeal := true;
      if commitLength < commit { return false; }
      if commitLength > commit { file := file[..commit]; }
      sealAttr := true;
      ok := true;
    }

    /** ReadBlocks: up to `max` blocks, stopping once more than `maxTotal` bytes have been read. */
    method ReadBlocks(offset: nat, max: nat, maxTotal: nat) returns (ret: seq<Block>, code: ReadCode)
      ensures commitLength <= offset ==> ret == [] && code == if isSeal then EndOfExtent else EndOfStream
      ensures commitLength > offset ==> (ret, code) == ReadUpTo(file, offset, max, maxTotal, 0, isSeal)
    {
      if commitLength <= offset {
        return [], if isSeal then EndOfExtent else EndOfStream;
      }
      ret, code := ReadLoop(file, offset, max, maxTotal, isSeal);
    }
  }

  method ReadLoop(file: Bytes, offset: nat, max: nat, maxTotal: nat, sealed: bool)
      returns (ret: seq<Block>, code: ReadCode)
    ensures ret == ReadUpTo(file, offset, max, maxTotal, 0, sealed).0
    ensures code == ReadUpTo(file, offset, max, maxTotal, 0, sealed).1
  {
    hide ReadBlock, ReadUpTo, Joined;
    ret := [];
    var size: nat, at: nat, i := 0, offset, 0;
    JoinEmpty(ReadUpTo(file, offset, max, maxTotal, 0, sealed));
    while i < max
      invariant 0 <= i <= max
      invariant Joined(ret, ReadUpTo(file, at, max - i, maxTotal, size, sealed)) ==
                ReadUpTo(file, offset, max, maxTotal, 0, sealed)
    {
      ReadStep(file, at, max - i, maxTotal, size, sealed, ret);
      var r := ReadBlock(file, at);
      if r.Eof? { return ret, if sealed then EndOfExtent else EndOfStream; }
      if r.Failed? { return [], ReadError; }
      ret := ret + [r.block];
      at := at + r.block.blockLength + SECTOR;
      size := size + r.block.blockLength + SECTOR;
      if size > maxTotal { return ret, Fine; }
      i := i + 1;
    }
    ReadStep(file, at, max - i, maxTotal, size, sealed, ret);
    code := Fine;
  }

  lemma JoinEmpty(r: (seq<Block>, ReadCode))
    requires r.1 == ReadError ==> r.0 == []
    ensures Joined([], r) == r
  {
    assert [] + r.0 == r.0;
  }

  // ---------- appending ----------

  /** writeBlock reports an error. */
  predicate Refused(b: Block, o: Outcome) { !Writable(b) || DataFailed(o, b) }

  /** What a block that was refused leaves behind. */
  function Remains(b: Block, o: Outcome): Bytes { if Writable(b) then Written(o, b) else [] }

  ghost predicate Accepted(bs: seq<Block>, io: seq<Outcome>)
  {
    |io| == |bs| && forall i :: 0 <= i < |bs| ==> Proper(bs[i]) && !DataFailed(io[i], bs[i])
  }

  predicate FullHeaders(io: seq<Outcome>) { forall i :: 0 <= i < |io| ==> io[i].header >= SECTOR }

  /** What the writes of some blocks leave in the file. */
  function WrittenAll(bs: seq<Block>, io: seq<Outcome>): Bytes
    requires Accepted(bs, io)
  {
    if bs == [] then []
    else
      var n := |bs| - 1;
      WrittenAll(bs[..n], io[..n]) + Written(io[n], bs[n])
  }

  /** The writes leave the frames of the blocks exactly when every header was written in full; otherwise
      they leave fewer bytes. */
  lemma {:induction false} WrittenFrames(bs: seq<Block>, io: seq<Outcome>)
    requires Accepted(bs, io)
    ensures AllProper(bs) && |WrittenAll(bs, io)| <= |Frames(bs)|
    ensures FullHeaders(io) ==> WrittenAll(bs, io) == Frames(bs)
    ensures !FullHeaders(io) ==> |WrittenAll(bs, io)| < |Frames(bs)|
  {
    hide Frames, Meta, Adler;
    if bs == [] {
      NoFrames();
    } else {
      var n := |bs| - 1;
      WrittenFrames(bs[..n], io[..n]);
      FramesAppend(bs[..n], [bs[n]]); FramesOne(bs[n]);
      assert bs == bs[..n] + [bs[n]] && io == io[..n] + [io[n]];
      WrittenFrame(io[n], bs[n]);
    }
  }

  lemma NoFrames()
    ensures Frames([]) == []
  {
  }

  lemma WrittenFrame(o: Outcome, b: Block)
    requires Proper(b) && !DataFailed(o, b)
    ensures if o.header >= SECTOR then Written(o, b) == Frame(b) else |Written(o, b)| < |Frame(b)|
  {
  }

  lemma RefusedMeans(b: Block, o: Outcome)
    requires |b.data| == b.blockLength < UINT32_LIMIT
    ensures Refused(b, o) <==> !Writable(b) || DataFailed(o, b)
    ensures !Refused(b, o) ==> Proper(b)
  {
  }

  /** The first i blocks of an append have been written. */
  ghost predicate AppendState(file: Bytes, file0: Bytes, bs: seq<Block>, io: seq<Outcome>, i: nat, length0: nat,
                              currentLength: nat, offsets: seq<nat>)
  {
    && i <= |bs| == |io| && Accepted(bs[..i], io[..i]) && file == file0 + WrittenAll(bs[..i], io[..i])
    && currentLength == length0 + TotalSize(bs[..i]) && offsets == Offsets(length0, bs[..i])
    && currentLength + TotalSize(bs[i..]) < UINT32_LIMIT
  }

  lemma AppendNone(bs: seq<Block>, io: seq<Outcome>, blocks: seq<Block>, length: nat)
    requires |io| == |bs|
    ensures TotalSize(bs[..0]) == 0 && blocks + bs[..0] == blocks && Accepted(bs[..0], io[..0]) && FullHeaders(io[..0])
  {
  }

  lemma AppendStart(file: Bytes, bs: seq<Block>, io: seq<Outcome>, length: nat)
    requires |io| == |bs| && length + TotalSize(bs) < UINT32_LIMIT
    ensures AppendState(file, file, bs, io, 0, length, length, [])
  {
    assert bs[..0] == [] && bs[0..] == bs && file + [] == file;
  }

  lemma AppendBounds(file: Bytes, file0: Bytes, bs: seq<Block>, io: seq<Outcome>, i: nat, length0: nat,
                     currentLength: nat, offsets: seq<nat>)
    requires AppendState(file, file0, bs, io, i, length0, currentLength, offsets)
    ensures Accepted(bs[..i], io[..i]) && file == file0 + WrittenAll(bs[..i], io[..i]) && currentLength < UINT32_LIMIT
    ensures currentLength == length0 + TotalSize(bs[..i]) && offsets == Offsets(length0, bs[..i])
    ensures i < |bs| ==> bs[i].blockLength < UINT32_LIMIT
  {
    if i < |bs| { SplitAt(bs, i, 0); }
  }

  lemma AppendStep(file: Bytes, file0: Bytes, bs: seq<Block>, io: seq<Outcome>, i: nat, length0: nat,
                   currentLength: nat, offsets: seq<nat>)
    requires AppendState(file, file0, bs, io, i, length0, currentLength, offsets) && i < |bs|
    requires Proper(bs[i]) && !DataFailed(io[i], bs[i])
    ensures AppendState(file + Written(io[i], bs[i]), file0, bs, io, i + 1, length0,
                        currentLength + bs[i].blockLength + SECTOR, offsets + [currentLength])
  {
    hide Meta, Offsets, TotalSize, Written, DataFailed;
    SplitAt(bs, i, length0);
    var cs, os := bs[..i + 1], io[..i + 1];
    assert cs[..i] == bs[..i] && os[..i] == io[..i] && cs[i] == bs[i] && os[i] == io[i];
    assert WrittenAll(cs, os) == WrittenAll(bs[..i], io[..i]) + Written(io[i], bs[i]);
    assert file0 + WrittenAll(bs[..i], io[..i]) + Written(io[i], bs[i]) == file0 + WrittenAll(cs, os);
  }

  /** An append that succeeds leaves whole blocks exactly when no header write was short. If one was, the
      file is shorter than the length that is recorded. */
  lemma SuccessfulAppend(id: nat, blocks: seq<Block>, file: Bytes, bs: seq<Block>, io: seq<Outcome>)
    requires AllProper(blocks) && file == FileHeader(id) + Frames(blocks) && Accepted(bs, io)
    ensures AllProper(blocks + bs)
    ensures file + WrittenAll(bs, io) == FileHeader(id) + Frames(blocks + bs) <==> FullHeaders(io)
    ensures |file + WrittenAll(bs, io)| == |file| + TotalSize(bs) <==> FullHeaders(io)
  {
    hide Frames, FileHeader, WrittenAll, Accepted, FullHeaders, TotalSize;
    WrittenFrames(bs, io);
    FramesAppend(blocks, bs); FramesSize(bs);
    assert FileHeader(id) + Frames(blocks + bs) == file + Frames(bs);
  }

  /** An append that fails behind headers that were written in full leaves whole blocks. */
  lemma FailedAppend(id: nat, blocks: seq<Block>, file: Bytes, bs: seq<Block>, io: seq<Outcome>, rest: Bytes)
    requires AllProper(blocks) && file == FileHeader(id) + Frames(blocks) && Accepted(bs, io) && FullHeaders(io)
    ensures AllProper(blocks + bs)
    ensures Truncate(file + WrittenAll(bs, io) + rest, |file| + TotalSize(bs)) == FileHeader(id) + Frames(blocks + bs)
    ensures file <= FileHeader(id) + Frames(blocks + bs)
  {
    hide Frames, FileHeader, WrittenAll, Accepted, FullHeaders, TotalSize;
    WrittenFrames(bs, io);
    FramesAppend(blocks, bs); FramesSize(bs);
    assert FileHeader(id) + Frames(blocks + bs) == file + Frames(bs);
    assert (file + Frames(bs) + rest)[..|file| + |Frames(bs)|] == file + Frames(bs);
  }

  /** Behind a short header write, an append that fails later leaves whole blocks exactly when the data repeats
      the bytes the header lost, over and over, and what was written after the data is the rest of that pattern and
      the frames of the later blocks. `h` bytes of the header of b were written; `after` is what was written after
      its data, and `later` are the blocks behind it. */
  lemma FailedAppendExact(file: Bytes, b: Block, h: nat, after: Bytes, later: seq<Block>)
    requires Proper(b) && AllProper(later) && h < SECTOR
    ensures |Meta(b)| <= SECTOR
    ensures Truncate(file + BlockHeader(b)[..h] + b.data + after, |file| + |Frame(b)| + TotalSize(later)) ==
              file + Frame(b) + Frames(later) <==>
            Repeats(b.data, BlockHeader(b)[h..]) &&
            Truncate(after, SECTOR - h + TotalSize(later)) ==
                (BlockHeader(b)[h..] + b.data)[|b.data|..] + Frames(later)
  {
    hide Meta, Adler, Frames, TotalSize, Truncate, Repeats;
    FramesSize(later);
    var pre, lost := file + BlockHeader(b)[..h], BlockHeader(b)[h..];
    assert BlockHeader(b) == BlockHeader(b)[..h] + lost;
    assert file + Frame(b) + Frames(later) == pre + (lost + b.data) + Frames(later);
    CutPattern(pre, lost, b.data, after, Frames(later));
  }

  lemma CutPattern(pre: Bytes, lost: Bytes, data: Bytes, after: Bytes, frames: Bytes)
    ensures Truncate(pre + data + after, |pre| + |lost| + |data| + |frames|) == pre + (lost + data) + frames <==>
            Repeats(data, lost) && Truncate(after, |lost| + |frames|) == (lost + data)[|data|..] + frames
  {
    hide Truncate;
    var n, x, y := |lost| + |frames|, (lost + data)[..|data|], (lost + data)[|data|..];
    TruncateBehind(pre + data, after, n);
    assert lost + data == x + y;
    assert pre + (lost + data) + frames == (pre + x) + (y + frames);
    SplitEqual(pre + data, Truncate(after, n), pre + x, y + frames);
    Cancel(pre, data, x);
    assert Repeats(data, lost) <==> data == x;
  }

  /** The data starts with the lost bytes and goes on repeating them. */
  predicate Repeats(data: Bytes, lost: Bytes) { data <= lost + data }

  lemma SplitEqual(a: Bytes, b: Bytes, x: Bytes, y: Bytes)
    requires |a| == |x|
    ensures a + b == x + y <==> a == x && b == y
  {
    assert (a + b)[..|a|] == a && (a + b)[|a|..] == b && (x + y)[..|a|] == x && (x + y)[|a|..] == y;
  }

  lemma TruncateBehind(pre: Bytes, x: Bytes, n: nat)
    ensures Truncate(pre + x, |pre| + n) == pre + Truncate(x, n)
  {
  }

  lemma Cancel(a: Bytes, x: Bytes, y: Bytes)
    ensures a + x == a + y <==> x == y
  {
    assert (a + x)[|a|..] == x && (a + y)[|a|..] == y;
  }

  /** When the next block is refused outright, whole blocks are left exactly when the data and the lost part of
      the header are all zeros. */
  lemma ShortHeaderUnseen(file: Bytes, b: Block, h: nat)
    requires Proper(b) && h < SECTOR
    ensures |Meta(b)| <= SECTOR
    ensures Truncate(file + BlockHeader(b)[..h] + b.data + [], |file| + |Frame(b)| + TotalSize([])) ==
              file + Frame(b) + Frames([]) <==>
            b.data == Zeros(|b.data|) && BlockHeader(b)[h..] == Zeros(SECTOR - h)
  {
    hide Meta, Adler;
    NoFrames();
    FailedAppendExact(file, b, h, [], []);
    var lost, data := BlockHeader(b)[h..], b.data;
    var tail := (lost + data)[|data|..];
    assert Truncate([], SECTOR - h + TotalSize([])) == Zeros(SECTOR - h);
    assert tail + Frames([]) == tail;
    if Repeats(data, lost) && tail == Zeros(SECTOR - h) { AllZero(data, lost); }
    if data == Zeros(|data|) && lost == Zeros(SECTOR - h) {
      assert lost + data == Zeros(|lost| + |data|);
      assert Repeats(data, lost);
    }
  }

  /** A pattern that ends in zeros for a whole period is zero. */
  lemma AllZero(data: Bytes, lost: Bytes)
    requires lost != [] && Repeats(data, lost) && (lost + data)[|data|..] == Zeros(|lost|)
    ensures data == Zeros(|data|) && lost == Zeros(|lost|)
  {
    var all := lost + data;
    forall i | 0 <= i < |all| ensures all[i] == 0 { ZeroFrom(data, lost, i); }
    assert forall i :: 0 <= i < |lost| ==> lost[i] == all[i];
    assert forall i :: 0 <= i < |data| ==> data[i] == all[|lost| + i];
  }

  lemma {:induction false} ZeroFrom(data: Bytes, lost: Bytes, i: nat)
    requires lost != [] && Repeats(data, lost) && (lost + data)[|data|..] == Zeros(|lost|) && i < |lost| + |data|
    ensures (lost + data)[i] == 0
    decreases |lost| + |data| - i
  {
    var all := lost + data;
    if i >= |data| {
      assert all[i] == all[|data|..][i - |data|];
    } else {
      ZeroFrom(data, lost, i + |lost|);
      assert all[i + |lost|] == data[i] == all[i];
    }
  }

  /** The offsets before the first short header read back, whatever follows. */
  lemma OffsetsReadBack(id: nat, blocks: seq<Block>, bs: seq<Block>, io: seq<Outcome>, n: nat, rest: Bytes)
    requires AllProper(blocks) && Accepted(bs, io) && n <= |bs| && FullHeaders(io[..n])
    ensures AllProper(bs[..n])
    ensures var file := FileHeader(id) + Frames(blocks);
            var r := ReadUpTo(file + WrittenAll(bs[..n], io[..n]) + rest, |file|, n, TotalSize(bs[..n]), 0, false);
            r == (bs[..n], Fine)
  {
    hide Frames, FileHeader, WrittenAll, ReadUpTo, FullHeaders, TotalSize;
    WrittenFrames(bs[..n], io[..n]);
    ReadsAppended(FileHeader(id) + Frames(blocks), bs[..n], rest, TotalSize(bs[..n]), 0, false);
  }

  /** What was read before and what the rest of a read gives. */
  function Joined(ret: seq<Block>, r: (seq<Block>, ReadCode)): (seq<Block>, ReadCode)
  {
    if r.1 == ReadError then ([], ReadError) else (ret + r.0, r.1)
  }

  lemma ReadStep(file: Bytes, at: nat, max: nat, maxTotal: nat, size: nat, sealed: bool, ret: seq<Block>)
    ensures Joined(ret, ReadUpTo(file, at, max, maxTotal, size, sealed)) ==
            if max == 0 then (ret, Fine)
            else match ReadBlock(file, at)
              case Eof => (ret, if sealed then EndOfExtent else EndOfStream)
              case Failed => ([], ReadError)
              case Ok(b) =>
                var size' := size + b.blockLength + SECTOR;
                if size' > maxTotal then (ret + [b], Fine)
                else Joined(ret + [b], ReadUpTo(file, at + b.blockLength + SECTOR, max - 1, maxTotal, size', sealed))
  {
    hide ReadBlock;
    assert ret + [] == ret;
    if max > 0 && ReadBlock(file, at).Ok? {
      var b := ReadBlock(file, at).block;
      var rest := ReadUpTo(file, at + b.blockLength + SECTOR, max - 1, maxTotal, size + b.blockLength + SECTOR, sealed);
      assert ret + ([b] + rest.0) == ret + [b] + rest.0;
    }
  }

  function ReadUpTo(file: Bytes, at: nat, max: nat, maxTotal: nat, size: nat, sealed: bool): (r: (seq<Block>, ReadCode))
    ensures r.1 == ReadError ==> r.0 == []
    decreases max
  {
    if max == 0 then ([], Fine)
    else match ReadBlock(file, at)
      case Eof => ([], if sealed then EndOfExtent else EndOfStream)
      case Failed => ([], ReadError)
      case Ok(b) =>
        var size' := size + b.blockLength + SECTOR;
        if size' > maxTotal then ([b], Fine)
        else
          var rest := ReadUpTo(file, at + b.blockLength + SECTOR, max - 1, maxTotal, size', sealed);
          if rest.1 == ReadError then ([], ReadError) else ([b] + rest.0, rest.1)
  }

  lemma SplitAt(bs: seq<Block>, i: nat, at: nat)
    requires i < |bs|
    ensures bs[..i + 1] == bs[..i] + [bs[i]]
    ensures TotalSize(bs[..i + 1]) == TotalSize(bs[..i]) + SECTOR + bs[i].blockLength
    ensures Offsets(at, bs[..i + 1]) == Offsets(at, bs[..i]) + [at + TotalSize(bs[..i])]
    ensures TotalSize(bs[i..]) == SECTOR + bs[i].blockLength + TotalSize(bs[i + 1..])
  {
    assert bs[..i + 1] == bs[..i] + [bs[i]];
    OffsetsSnoc(at, bs[..i], bs[i]);
    assert bs[i..][1..] == bs[i + 1..];
  }

  /** Reading at the offset an append returned gives the appended blocks back in order: all of them
      when their bytes fit the limit, otherwise a leading part that is not empty. */
  lemma {:induction false} ReadsAppended(pre: Bytes, bs: seq<Block>, post: Bytes, maxTotal: nat, size: nat,
      sealed: bool)
    requires AllProper(bs)
    ensures var r := ReadUpTo(pre + Frames(bs) + post, |pre|, |bs|, maxTotal, size, sealed);
            r.1 == Fine && r.0 <= bs && (bs != [] ==> r.0 != []) && (size + TotalSize(bs) <= maxTotal ==> r.0 == bs)
    decreases |bs|
  {
    hide ReadBlock, Frame;
    if bs != [] {
      var b := bs[0];
      var f := Frame(b);
      assert pre + Frames(bs) + post == pre + f + (Frames(bs[1..]) + post);
      assert pre + Frames(bs) + post == (pre + f) + Frames(bs[1..]) + post;
      FrameReads(pre, b, Frames(bs[1..]) + post);
      ReadsAppended(pre + f, bs[1..], post, maxTotal, size + b.blockLength + SECTOR, sealed);
      assert bs == [b] + bs[1..];
    }
  }

  /** As many blocks as were asked for, unless the blocks before the last one would exceed the byte limit or the
      extent ends, and only the end gives another code. */
  ghost predicate RightRead(r: (seq<Block>, ReadCode), bs: seq<Block>, max: nat, maxTotal: nat, size: nat, sealed: bool)
  {
    var k := |r.0|;
    && k <= max && k <= |bs| && r.0 == bs[..k]
    && (k > 0 ==> size + TotalSize(bs[..k - 1]) <= maxTotal)
    && (if k == max || size + TotalSize(bs[..k]) > maxTotal then r.1 == Fine
        else k == |bs| && r.1 == if sealed then EndOfExtent else EndOfStream)
  }

  /** What a read of a well-formed extent returns. */
  lemma {:induction false} ReadsExactly(pre: Bytes, bs: seq<Block>, max: nat, maxTotal: nat, size: nat, sealed: bool)
    requires AllProper(bs) && size <= maxTotal
    ensures RightRead(ReadUpTo(pre + Frames(bs), |pre|, max, maxTotal, size, sealed), bs, max, maxTotal, size, sealed)
    decreases |bs|
  {
    hide ReadBlock, Frame, RightRead, Proper, TotalSize;
    if max == 0 || bs == [] {
      assert bs == [] ==> pre + Frames(bs) == pre;
      NothingThere(pre); ReadNone(bs, max, maxTotal, size, sealed);
    } else {
      ProperSize(bs[0]);
      var b, f := bs[0], Frame(bs[0]);
      assert pre + Frames(bs) == pre + f + Frames(bs[1..]);
      FrameReads(pre, b, Frames(bs[1..]));
      var size' := size + b.blockLength + SECTOR;
      if size' <= maxTotal {
        ReadsExactly(pre + f, bs[1..], max - 1, maxTotal, size', sealed);
        var r := ReadUpTo(pre + f + Frames(bs[1..]), |pre + f|, max - 1, maxTotal, size', sealed);
        ReadMore(r, bs, max, maxTotal, size, sealed);
      } else {
        ReadLast(bs, max, maxTotal, size, sealed);
      }
    }
  }

  lemma ProperSize(b: Block)
    requires Proper(b)
    ensures |Meta(b)| <= SECTOR && |Frame(b)| == SECTOR + b.blockLength
  {
  }

  lemma ReadNone(bs: seq<Block>, max: nat, maxTotal: nat, size: nat, sealed: bool)
    requires size <= maxTotal && (max == 0 || bs == [])
    ensures RightRead(([], if max == 0 then Fine else if sealed then EndOfExtent else EndOfStream), bs, max, maxTotal,
                      size, sealed)
  {
    assert bs[..0] == [];
  }

  lemma ReadLast(bs: seq<Block>, max: nat, maxTotal: nat, size: nat, sealed: bool)
    requires bs != [] && max > 0 && size <= maxTotal < size + bs[0].blockLength + SECTOR
    ensures RightRead(([bs[0]], Fine), bs, max, maxTotal, size, sealed)
  {
    assert bs[..1] == [bs[0]] && bs[..0] == [] && [bs[0]][1..] == [];
  }

  lemma ReadMore(r: (seq<Block>, ReadCode), bs: seq<Block>, max: nat, maxTotal: nat, size: nat, sealed: bool)
    requires bs != [] && max > 0 && size + bs[0].blockLength + SECTOR <= maxTotal
    requires RightRead(r, bs[1..], max - 1, maxTotal, size + bs[0].blockLength + SECTOR, sealed)
    ensures r.1 != ReadError && RightRead(([bs[0]] + r.0, r.1), bs, max, maxTotal, size, sealed)
  {
    var k := |r.0|;
    assert bs[..k + 1] == [bs[0]] + bs[1..][..k];
    assert bs[..k + 1][1..] == bs[1..][..k];
    if k > 0 {
      assert bs[..k] == [bs[0]] + bs[1..][..k - 1];
      assert bs[..k][1..] == bs[1..][..k - 1];
    } else {
      assert bs[..0] == [];
    }
  }

  lemma NothingThere(file: Bytes)
    ensures ReadBlock(file, |file|) == Eof
  {
  }

  // ---------- reopening ----------

  /** OpenExtent on an unsealed file: check the header, re-parse, and drop what does not parse. */
  method Recover(disk: Bytes) returns (id: Option<nat>, file: Bytes, offset: nat)
    requires |disk| < UINT32_LIMIT
    ensures id == HeaderId(disk)
    ensures id == None ==> file == disk
    ensures id.Some? ==>
              SECTOR <= |disk| && offset == RecoverLength(disk, SECTOR) && file == disk[..offset] && |file| == offset
  {
    hide ReadBlock;
    id := HeaderId(disk);
    file := disk;
    offset := SECTOR;
    if id == None { return; }
    while offset < |disk|
      invariant SECTOR <= offset <= |disk| && file == disk
      invariant RecoverLength(disk, offset) == RecoverLength(disk, SECTOR)
    {
      var r := ReadBlock(disk, offset);
      if !r.Ok? {
        file := disk[..offset];
        return;
      }
      offset := offset + r.block.blockLength + SECTOR;
    }
  }

  /** A crash that leaves any prefix of a well-formed extent, header included, loses exactly the
      blocks that do not lie wholly in the prefix, and recovering again changes nothing. */
  lemma CrashRecovery(id: nat, bs: seq<Block>, cut: nat)
    requires AllProper(bs) && SECTOR <= cut <= SECTOR + |Frames(bs)|
    ensures var disk := (FileHeader(id) + Frames(bs))[..cut];
            var k := WholeBefore(bs, cut - SECTOR);
            var n := RecoverLength(disk, SECTOR);
            n <= |disk| && disk[..n] == FileHeader(id) + Frames(bs[..k]) &&
            n <= cut && (k < |bs| ==> cut < SECTOR + |Frames(bs[..k + 1])|) &&
            RecoverLength(disk[..n], SECTOR) == n && (id < UINT64_LIMIT ==> HeaderId(disk) == Some(id))
  {
    hide RecoverLength, Frames, WholeBefore;
    var h := FileHeader(id);
    assert (h + Frames(bs))[..cut] == h + Frames(bs)[..cut - SECTOR];
    RecoverCut(h, bs, cut - SECTOR);
    WholeBeforeIs(bs, cut - SECTOR);
    RecoverTwice(h + Frames(bs)[..cut - SECTOR], SECTOR);
    if id < UINT64_LIMIT { HeaderIdReads(id, Frames(bs)[..cut - SECTOR]); }
  }
}

/** The extent file: a 512-byte header and then blocks, each framed by a 512-byte block header. */
module Extents {
  import opened Bytes

  const SECTOR: nat := 512

  // ---------- checksum: section 2.2 of RFC 1950 ----------

  const ADLER_BASE: nat := 65521

  function AdlerSums(data: Bytes): (r: (nat, nat))
    ensures r.0 < ADLER_BASE && r.1 < ADLER_BASE
  {
    if data == [] then (1, 0)
    else
      var p := AdlerSums(data[..|data| - 1]);
      var a := (p.0 + data[|data| - 1]) % ADLER_BASE;
      (a, (p.1 + a) % ADLER_BASE)
  }

  function Adler(data: Bytes): (r: nat)
    ensures r < UINT32_LIMIT
  {
    AdlerSums(data).1 * 0x1_0000 + AdlerSums(data).0
  }

  // ---------- blocks ----------

  datatype Block = Block(checkSum: nat, blockLength: nat, userData: Bytes, data: Bytes)

  predicate Aligned(n: nat) { n != 0 && n % SECTOR == 0 }

  /** The used part of a block header. */
  function Meta(b: Block): Bytes
  {
    BigEndian(b.checkSum, 4) + PutUvarint(b.blockLength) +
    if b.userData == [] then [] else PutUvarint(|b.userData|) + b.userData
  }

  /** What writeBlock accepts. */
  predicate Writable(b: Block)
  {
    Aligned(b.blockLength) && b.checkSum == Adler(b.data) && |Meta(b)| <= SECTOR
  }

  /** The data fills the block. */
  predicate Proper(b: Block) { Writable(b) && |b.data| == b.blockLength < UINT32_LIMIT }

  function BlockHeader(b: Block): (r: Bytes)
    requires |Meta(b)| <= SECTOR
    ensures |r| == SECTOR
  {
    Meta(b) + Zeros(SECTOR - |Meta(b)|)
  }

  function Frame(b: Block): (r: Bytes)
    requires |Meta(b)| <= SECTOR
    ensures |r| == SECTOR + |b.data|
  {
    BlockHeader(b) + b.data
  }

  predicate AllProper(bs: seq<Block>) { forall i :: 0 <= i < |bs| ==> Proper(bs[i]) }

  function Frames(bs: seq<Block>): Bytes
    requires AllProper(bs)
  {
    if bs == [] then [] else Frame(bs[0]) + Frames(bs[1..])
  }

  lemma {:induction false} FramesAppend(a: seq<Block>, b: seq<Block>)
    requires AllProper(a) && AllProper(b)
    ensures AllProper(a + b) && Frames(a + b) == Frames(a) + Frames(b)
  {
    hide Frame, Meta, Writable, Adler;
    if a == [] {
      assert a + b == b;
    } else {
      assert (a + b)[1..] == a[1..] + b;
      FramesAppend(a[1..], b);
    }
  }

  lemma FramesCons(b: Block, bs: seq<Block>)
    requires Proper(b) && AllProper(bs)
    ensures AllProper([b] + bs) && Frames([b] + bs) == Frame(b) + Frames(bs)
  {
    hide Proper;
    assert ([b] + bs)[1..] == bs;
  }

  lemma FramesOne(b: Block)
    requires Proper(b)
    ensures Frames([b]) == Frame(b)
  {
    assert [b][1..] == [];
    assert Frames([b]) == Frame(b) + Frames([b][1..]);
  }

  // ---------- reading a block ----------

  datatype ReadResult = Ok(block: Block) | Eof | Failed

  /** readBlock at a position of the file. Failed stands for an error and for the panics on headers
      that no writer produces. */
  function ReadBlock(file: Bytes, at: nat): (r: ReadResult)
    ensures r.Ok? ==> at + SECTOR + r.block.blockLength <= |file| && r.block.blockLength > 0
    ensures r.Eof? ==> at >= |file|
  {
    if at >= |file| then Eof
    else if at + SECTOR > |file| then Failed
    else
      var buf := file[at..at + SECTOR];
      var u := GetUvarint(buf[4..]);
      if u.width < 0 then Failed
      else
        var v := GetUvarint(buf[4 + u.width..]);
        var index := 4 + u.width + v.width;
        if v.value + index > SECTOR || (index < 0 && v.value > 0) then Failed
        else if at + SECTOR + u.value > |file| then Failed
        else
          var data := file[at + SECTOR..at + SECTOR + u.value];
          if Adler(data) != BigEndianValue(buf[..4]) || !Aligned(u.value) then Failed
          else Ok(Block(Adler(data), u.value, if v.value > 0 then buf[index..index + v.value] else [], data))
  }

  lemma AtPosition(pre: Bytes, x: Bytes, n: nat)
    requires n <= |x|
    ensures (pre + x)[|pre|..|pre| + n] == x[..n]
  {
  }

  /** What the fields of a header read back as. */
  lemma HeaderFields(b: Block)
    requires |Meta(b)| <= SECTOR && b.blockLength < UINT32_LIMIT && b.checkSum < UINT32_LIMIT && Aligned(b.blockLength)
    ensures var buf := BlockHeader(b);
            var u := GetUvarint(buf[4..]);
            u.value == b.blockLength && u.width > 0 && BigEndianValue(buf[..4]) == b.checkSum &&
            var v := GetUvarint(buf[4 + u.width..]);
            v.value == |b.userData| && v.width >= 0 && 4 + u.width + v.width + v.value <= SECTOR &&
            buf[4 + u.width + v.width..4 + u.width + v.width + v.value] == b.userData
  {
    hide GetUvarint, PutUvarint, BigEndianValue, BigEndian, Zeros;
    var buf := BlockHeader(b);
    var sum, len := BigEndian(b.checkSum, 4), PutUvarint(b.blockLength);
    var ud := if b.userData == [] then [] else PutUvarint(|b.userData|) + b.userData;
    var pad := Zeros(SECTOR - |Meta(b)|);
    PowerFacts(); BigEndianRoundTrip(b.checkSum, 4);
    HeaderParts(sum, len, ud, pad);
    assert buf == sum + len + ud + pad;
    UvarintRoundTrip(b.blockLength, ud + pad);
    UserDataFields(b.userData, pad);
    var v := GetUvarint(ud + pad);
    SliceLater(buf, 4 + |len|, v.width, v.value);
  }

  lemma HeaderParts(sum: Bytes, len: Bytes, ud: Bytes, pad: Bytes)
    requires |sum| == 4
    ensures var buf := sum + len + ud + pad;
            buf[..4] == sum && buf[4..] == len + (ud + pad) && buf[4 + |len|..] == ud + pad
  {
  }

  lemma SliceLater(buf: Bytes, at: nat, i: nat, n: nat)
    requires at + i + n <= |buf|
    ensures buf[at + i..at + i + n] == buf[at..][i..i + n]
  {
  }

  lemma UserDataFields(userData: Bytes, pad: Bytes)
    requires |userData| < UINT64_LIMIT && forall i :: 0 <= i < |pad| ==> pad[i] == 0
    ensures var rest := (if userData == [] then [] else PutUvarint(|userData|) + userData) + pad;
            var v := GetUvarint(rest);
            v.value == |userData| && 0 <= v.width && v.width + v.value <= |rest| &&
            rest[v.width..v.width + v.value] == userData
  {
    if userData == [] {
      assert [] + pad == pad;
    } else {
      var p := PutUvarint(|userData|);
      assert p + userData + pad == p + (userData + pad);
      UvarintRoundTrip(|userData|, userData + pad);
    }
  }

  /** A written block reads back, wherever it lies. */
  lemma FrameReads(pre: Bytes, b: Block, post: Bytes)
    requires Proper(b)
    ensures ReadBlock(pre + Frame(b) + post, |pre|) == Ok(b)
  {
    hide Adler, GetUvarint, BigEndianValue, Meta, BlockHeader;
    var x := Frame(b) + post;
    assert pre + Frame(b) + post == pre + x;
    var file := pre + x;
    AtPosition(pre, x, SECTOR);
    assert x[..SECTOR] == BlockHeader(b);
    HeaderFields(b);
    assert file[|pre| + SECTOR..|pre| + SECTOR + b.blockLength] == b.data;
  }

  /** Behind a written header, data of the right length reads exactly when it has the checksum in the header. */
  lemma DataChecked(pre: Bytes, b: Block, data: Bytes, post: Bytes)
    requires Proper(b) && |data| == |b.data|
    ensures ReadBlock(pre + BlockHeader(b) + data + post, |pre|) ==
            if Adler(data) == b.checkSum then Ok(b.(data := data)) else Failed
  {
    hide Adler, GetUvarint, BigEndianValue, Meta, BlockHeader;
    var x := BlockHeader(b) + data + post;
    assert pre + BlockHeader(b) + data + post == pre + x;
    AtPosition(pre, x, SECTOR);
    assert x[..SECTOR] == BlockHeader(b);
    HeaderFields(b);
    assert (pre + x)[|pre| + SECTOR..|pre| + SECTOR + b.blockLength] == data;
  }

  function ByteSum(data: Bytes): nat
  {
    if data == [] then 0 else ByteSum(data[..|data| - 1]) + data[|data| - 1]
  }

  lemma {:induction false} ByteSumUpdate(data: Bytes, i: nat, x: byte)
    requires i < |data|
    ensures ByteSum(data[i := x]) == ByteSum(data) - data[i] + x
  {
    var n := |data| - 1;
    if i < n {
      ByteSumUpdate(data[..n], i, x);
      assert data[i := x][..n] == data[..n][i := x];
    } else {
      assert data[i := x][..n] == data[..n];
    }
  }

  lemma {:induction false} AdlerLow(data: Bytes)
    ensures AdlerSums(data).0 == (1 + ByteSum(data)) % ADLER_BASE
  {
    if data != [] {
      var n := |data| - 1;
      AdlerLow(data[..n]);
      ModStep(1 + ByteSum(data[..n]), data[n]);
    }
  }

  lemma ModStep(m: nat, d: nat)
    ensures (m % ADLER_BASE + d) % ADLER_BASE == (m + d) % ADLER_BASE
  {
    var q := m / ADLER_BASE;
    assert m + d == m % ADLER_BASE + d + q * ADLER_BASE;
  }

  /** A block of which one byte has changed on disk does not read. */
  lemma ChangedByteFails(pre: Bytes, b: Block, i: nat, x: byte, post: Bytes)
    requires Proper(b) && i < |b.data| && x != b.data[i]
    ensures ReadBlock(pre + BlockHeader(b) + b.data[i := x] + post, |pre|) == Failed
  {
    hide ReadBlock, BlockHeader, Adler, Meta;
    DataChecked(pre, b, b.data[i := x], post);
    AdlerDiffers(b.data, i, x);
  }

  lemma AdlerDiffers(data: Bytes, i: nat, x: byte)
    requires i < |data| && x != data[i]
    ensures Adler(data[i := x]) != Adler(data)
  {
    hide AdlerSums, ByteSum;
    AdlerLow(data); AdlerLow(data[i := x]); ByteSumUpdate(data, i, x);
    Apart(1 + ByteSum(data), 1 + ByteSum(data[i := x]));
    LowHalf(AdlerSums(data).1, AdlerSums(data).0, AdlerSums(data[i := x]).1, AdlerSums(data[i := x]).0);
  }

  lemma LowHalf(a: nat, b: nat, c: nat, d: nat)
    requires b < 0x1_0000 && d < 0x1_0000 && b != d
    ensures a * 0x1_0000 + b != c * 0x1_0000 + d
  {
  }

  lemma Apart(m: nat, n: nat)
    requires m != n && -256 < m - n < 256
    ensures m % ADLER_BASE != n % ADLER_BASE
  {
  }

  /** A block that was cut off does not read. */
  lemma CutFails(pre: Bytes, b: Block, n: nat)
    requires Proper(b) && 0 < n < |Frame(b)|
    ensures ReadBlock(pre + Frame(b)[..n], |pre|) == Failed
  {
    hide Adler, GetUvarint, BigEndianValue, Meta, BlockHeader;
    var x := Frame(b)[..n];
    if n >= SECTOR {
      AtPosition(pre, x, SECTOR);
      assert x[..SECTOR] == BlockHeader(b);
      HeaderFields(b);
    }
  }

  // ---------- recovery ----------

  const MAGIC: Bytes := [69, 88, 84, 69, 78, 84, 88, 88]

  function FileHeader(id: nat): (r: Bytes)
    ensures |r| == SECTOR
  {
    MAGIC + BigEndian(id, 8) + Zeros(SECTOR - 16)
  }

  /** The extent's identifier, or none when the file is too short or does not start with the magic number. */
  function HeaderId(file: Bytes): Option<nat>
  {
    if |file| < SECTOR || file[..8] != MAGIC then None else Some(BigEndianValue(file[8..16]))
  }

  lemma HeaderIdReads(id: nat, rest: Bytes)
    requires id < UINT64_LIMIT
    ensures HeaderId(FileHeader(id) + rest) == Some(id)
  {
    hide BigEndian, BigEndianValue;
    var file := FileHeader(id) + rest;
    assert file[..8] == MAGIC && file[8..16] == BigEndian(id, 8);
    PowerFacts(); BigEndianRoundTrip(id, 8);
  }

  /** How far the file can be read block by block. */
  function RecoverLength(file: Bytes, at: nat): (r: nat)
    ensures at <= |file| ==> at <= r <= |file|
    decreases |file| - at
  {
    if at >= |file| then at
    else match ReadBlock(file, at)
      case Ok(b) => RecoverLength(file, at + SECTOR + b.blockLength)
      case _ => at
  }

  /** How many whole blocks lie before byte n. */
  function WholeBefore(bs: seq<Block>, n: nat): (k: nat)
    requires AllProper(bs)
    ensures k <= |bs|
  {
    if bs == [] || |Frame(bs[0])| > n then 0 else 1 + WholeBefore(bs[1..], n - |Frame(bs[0])|)
  }

  lemma {:induction false} WholeBeforeIs(bs: seq<Block>, n: nat)
    requires AllProper(bs) && n <= |Frames(bs)|
    ensures |Frames(bs[..WholeBefore(bs, n)])| <= n
    ensures WholeBefore(bs, n) < |bs| ==> n < |Frames(bs[..WholeBefore(bs, n) + 1])|
  {
    if bs != [] {
      if |Frame(bs[0])| <= n {
        var k := WholeBefore(bs[1..], n - |Frame(bs[0])|);
        WholeBeforeIs(bs[1..], n - |Frame(bs[0])|);
        assert bs[..k + 1][1..] == bs[1..][..k];
        if k + 1 < |bs| { assert bs[..k + 2][1..] == bs[1..][..k + 1]; }
      } else {
        assert bs[..1] == [bs[0]];
        FramesOne(bs[0]);
      }
    }
  }

  /** Recovering a file that was cut anywhere keeps exactly the blocks that lie wholly before the cut. */
  lemma {:induction false} RecoverCut(pre: Bytes, bs: seq<Block>, n: nat)
    requires AllProper(bs) && n <= |Frames(bs)|
    ensures var k := WholeBefore(bs, n);
            var file := pre + Frames(bs)[..n];
            RecoverLength(file, |pre|) == |pre| + |Frames(bs[..k])| <= |file| &&
            file[..RecoverLength(file, |pre|)] == pre + Frames(bs[..k])
    decreases |bs|
  {
    hide Frame, RecoverLength, Meta;
    if bs == [] || |Frame(bs[0])| > n {
      assert bs[..0] == [];
      if n > 0 { assert Frames(bs)[..n] == Frame(bs[0])[..n]; RecoverNothing(pre, bs[0], n); } else { RecoverEnd(pre); }
    } else {
      var f := Frame(bs[0]);
      var rest := Frames(bs[1..])[..n - |f|];
      var k := WholeBefore(bs[1..], n - |f|);
      assert Frames(bs)[..n] == f + rest;
      assert pre + Frames(bs)[..n] == pre + f + rest;
      RecoverStep(pre, bs[0], rest);
      RecoverCut(pre + f, bs[1..], n - |f|);
      assert bs[..k + 1][1..] == bs[1..][..k];
      assert pre + f + Frames(bs[1..][..k]) == pre + Frames(bs[..k + 1]);
    }
  }

  lemma RecoverEnd(pre: Bytes)
    ensures RecoverLength(pre + [], |pre|) == |pre| && pre + [] == pre
  {
  }

  lemma RecoverNothing(pre: Bytes, b: Block, n: nat)
    requires Proper(b) && 0 < n < |Frame(b)|
    ensures RecoverLength(pre + Frame(b)[..n], |pre|) == |pre|
  {
    hide ReadBlock, Frame;
    CutFails(pre, b, n);
  }

  lemma RecoverStep(pre: Bytes, b: Block, rest: Bytes)
    requires Proper(b)
    ensures RecoverLength(pre + Frame(b) + rest, |pre|) == RecoverLength(pre + Frame(b) + rest, |pre + Frame(b)|)
  {
    hide ReadBlock;
    FrameReads(pre, b, rest);
  }

  /** Recovering the recovered file changes nothing, whatever the file was. */
  lemma {:induction false} RecoverTwice(file: Bytes, at: nat)
    requires at <= |file|
    ensures var r := RecoverLength(file, at); RecoverLength(file[..r], at) == r
    decreases |file| - at
  {
    hide ReadBlock;
    var r := RecoverLength(file, at);
    if at < r {
      var b := ReadBlock(file, at).block;
      ReadInPrefix(file, r, at);
      RecoverTwice(file, at + SECTOR + b.blockLength);
    }
  }

  /** A block that lies within a prefix of the file reads the same there. */
  lemma ReadInPrefix(file: Bytes, r: nat, at: nat)
    requires r <= |file| && ReadBlock(file, at).Ok? && at + SECTOR + ReadBlock(file, at).block.blockLength <= r
    ensures ReadBlock(file[..r], at) == ReadBlock(file, at)
  {
    hide Adler, GetUvarint, BigEndianValue;
    var p := file[..r];
    assert p[at..at + SECTOR] == file[at..at + SECTOR];
    var n := ReadBlock(file, at).block.blockLength;
    assert p[at + SECTOR..at + SECTOR + n] == file[at + SECTOR..at + SECTOR + n];
  }
}

/** Log entries on their way into the memtable: what is stored, how much arena room it takes, and
    the reservation that makes the room before the first byte is written. */
module Room {
  import opened Bytes
  import opened Keys
  import opened Values
  import opened Runs
  import opened SkiplistShape
  import opened Skiplists
  import Partition

  const MAX_SKIPLIST: nat := 0x10_0000
  const WRITE_CH_CAPACITY: nat := 64
  const VPTR_SIZE: nat := 16
  const EMPTY_SIZE: nat := 107

  /** pb.Entry. */
  datatype LogEntry = LogEntry(key: Bytes, value: Bytes, meta: nat, userMeta: nat, expiresAt: nat)

  /** The value is small enough to sit next to the key. */
  predicate ShouldWriteValueToLSM(e: LogEntry) { !Has(e.meta, BIT_VALUE_POINTER) && |e.value| <= VALUE_THROTTLE }

  // ---------- value pointers ----------

  datatype ValuePointer = ValuePointer(extentID: nat, offset: nat, len: nat)

  predicate PointerOk(p: ValuePointer)
  {
    p.extentID < UINT64_LIMIT && p.offset < UINT32_LIMIT && p.len < UINT32_LIMIT
  }

  function EncodePointer(p: ValuePointer): (r: Bytes)
    ensures |r| == VPTR_SIZE
  {
    LittleEndian(p.extentID, 8) + LittleEndian(p.offset, 4) + LittleEndian(p.len, 4)
  }

  function DecodePointer(b: Bytes): ValuePointer
    requires |b| >= VPTR_SIZE
  {
    ValuePointer(LittleEndianValue(b[..8]), LittleEndianValue(b[8..12]), LittleEndianValue(b[12..16]))
  }

  lemma PointerRoundTrip(p: ValuePointer)
    requires PointerOk(p)
    ensures DecodePointer(EncodePointer(p)) == p
  {
    PowerFacts();
    var b := EncodePointer(p);
    assert b[..8] == LittleEndian(p.extentID, 8);
    assert b[8..12] == LittleEndian(p.offset, 4);
    assert b[12..16] == LittleEndian(p.len, 4);
    LittleEndianRoundTrip(p.extentID, 8); LittleEndianRoundTrip(p.offset, 4); LittleEndianRoundTrip(p.len, 4);
  }

  /** getLowerByte. */
  function LowerByte(n: nat): byte { n % 256 }

  function WithPointerBit(meta: byte): byte { if Has(meta, BIT_VALUE_POINTER) then meta else meta + 2 }

  /** What the memtable stores for a log entry that lies at a place in the log. */
  function LsmValue(e: LogEntry, extentID: nat, offset: nat): ValueStruct
  {
    if ShouldWriteValueToLSM(e) then
      ValueStruct(LowerByte(e.meta), LowerByte(e.userMeta), e.expiresAt, e.value)
    else
      ValueStruct(WithPointerBit(LowerByte(e.meta)), LowerByte(e.userMeta), e.expiresAt,
                  EncodePointer(ValuePointer(extentID, offset, |e.value| % UINT32_LIMIT)))
  }

  /** The pointer bit of a stored value tells whether it is a pointer, and then to where. */
  lemma LsmValueReads(e: LogEntry, extentID: nat, offset: nat)
    requires extentID < UINT64_LIMIT && offset < UINT32_LIMIT && |e.value| < UINT32_LIMIT
    ensures var v := LsmValue(e, extentID, offset);
            if Has(v.meta, BIT_VALUE_POINTER) then
              !ShouldWriteValueToLSM(e) && |v.value| == VPTR_SIZE &&
              DecodePointer(v.value) == ValuePointer(extentID, offset, |e.value|)
            else ShouldWriteValueToLSM(e) && v.value == e.value
    ensures var v := LsmValue(e, extentID, offset);
            v.userMeta == LowerByte(e.userMeta) && v.expiresAt == e.expiresAt &&
            WithPointerBit(v.meta) == WithPointerBit(LowerByte(e.meta))
    ensures Has(LsmValue(e, extentID, offset).meta, BIT_DELETE) <==> Has(e.meta, BIT_DELETE)
  {
    hide EncodePointer, DecodePointer, Has, LowerByte, WithPointerBit;
    PointerRoundTrip(ValuePointer(extentID, offset, |e.value|));
    LowerByteBits(e.meta); PointerBit(LowerByte(e.meta));
  }

  lemma LowerByteBits(m: nat)
    ensures Has(LowerByte(m), BIT_DELETE) <==> Has(m, BIT_DELETE)
    ensures Has(LowerByte(m), BIT_VALUE_POINTER) <==> Has(m, BIT_VALUE_POINTER)
  {
    var q, r := m / 256, m % 256;
    var u, v, t := r / 4, r / 2 % 2, r % 2;
    assert r == 4 * u + 2 * v + t;
    assert m == 2 * (2 * (64 * q + u) + v) + t;
    assert m % 2 == t && m / 2 == 2 * (64 * q + u) + v;
  }

  lemma PointerBit(b: byte)
    ensures Has(WithPointerBit(b), BIT_VALUE_POINTER)
    ensures Has(WithPointerBit(b), BIT_DELETE) <==> Has(b, BIT_DELETE)
    ensures WithPointerBit(WithPointerBit(b)) == WithPointerBit(b)
  {
  }

  // ---------- estimates ----------

  /** estimatedSizeInSkl. */
  function EstimatedSizeInSkl(e: LogEntry): nat
  {
    |e.key| + (if ShouldWriteValueToLSM(e) then |e.value| else VPTR_SIZE) + 2 + SizeVarint(e.expiresAt) +
    MAX_NODE_SIZE + 8
  }

  /** estimatedVS, the same for a stored value. */
  function EstimatedVS(key: Key, vs: ValueStruct): nat
  {
    |key| + (if !Has(vs.meta, BIT_VALUE_POINTER) && |vs.value| <= VALUE_THROTTLE then |vs.value| else VPTR_SIZE)
    + 2 + SizeVarint(vs.expiresAt) + MAX_NODE_SIZE + 8
  }

  /** Whatever the height of the node and whether or not the key is there, a Put takes no more of the
      arena than estimated. */
  lemma GrowthWithinEstimate(present: bool, e: LogEntry, extentID: nat, offset: nat, h: nat)
    requires |e.key| >= 8 && 1 <= h <= MAX_HEIGHT
    ensures PutGrowth(present, e.key, LsmValue(e, extentID, offset), h) < EstimatedSizeInSkl(e)
  {
  }

  /** The same for stored values, exactly when the value is inline and small or no longer than a pointer. */
  lemma GrowthWithinEstimateVS(key: Key, vs: ValueStruct)
    ensures (forall present, h :: 1 <= h <= MAX_HEIGHT ==> PutGrowth(present, key, vs, h) < EstimatedVS(key, vs)) <==>
            (!Has(vs.meta, BIT_VALUE_POINTER) && |vs.value| <= VALUE_THROTTLE) || |vs.value| <= VPTR_SIZE
  {
    if |vs.value| > VPTR_SIZE && !(!Has(vs.meta, BIT_VALUE_POINTER) && |vs.value| <= VALUE_THROTTLE) {
      assert PutGrowth(false, key, vs, MAX_HEIGHT) >= EstimatedVS(key, vs);
    }
  }

  function TotalEstimate(es: seq<LogEntry>): nat
  {
    if es == [] then 0 else EstimatedSizeInSkl(es[0]) + TotalEstimate(es[1..])
  }

  // ---------- batches ----------

  /** isReqsTooBig: over 30 MB to send, or over three channels full of entries. */
  predicate IsReqsTooBig(entriesPerRequest: seq<nat>, bytesPerRequest: seq<nat>)
    requires |entriesPerRequest| == |bytesPerRequest|
  {
    TooBigFrom(entriesPerRequest, bytesPerRequest, 0, 0)
  }

  predicate TooBigFrom(ns: seq<nat>, bytes: seq<nat>, n: nat, size: nat)
    requires |ns| == |bytes|
    decreases |ns|
  {
    ns != [] && (size + bytes[0] > 30 * 0x10_0000 || n + ns[0] > 3 * WRITE_CH_CAPACITY ||
                 TooBigFrom(ns[1..], bytes[1..], n + ns[0], size + bytes[0]))
  }

  function Sum(ns: seq<nat>): nat
  {
    if ns == [] then 0 else Sum(ns[..|ns| - 1]) + ns[|ns| - 1]
  }

  lemma {:induction false} SumCons(n: nat, ns: seq<nat>)
    ensures Sum([n] + ns) == n + Sum(ns)
  {
    if ns == [] {
      assert [n] + ns == [n] && [n][..0] == [];
    } else {
      var m := |ns| - 1;
      assert ([n] + ns)[..m + 1] == [n] + ns[..m] && ([n] + ns)[m + 1] == ns[m];
      SumCons(n, ns[..m]);
    }
  }

  /** A list of requests is too big exactly when, counted together, they are over 30 MB or over 192 entries. */
  lemma TooBigExactly(ns: seq<nat>, bytes: seq<nat>)
    requires |ns| == |bytes|
    ensures IsReqsTooBig(ns, bytes) <==> Sum(bytes) > 30 * 0x10_0000 || Sum(ns) > 3 * WRITE_CH_CAPACITY
  {
    TooBigSums(ns, bytes, 0, 0);
  }

  lemma {:induction false} TooBigSums(ns: seq<nat>, bytes: seq<nat>, n: nat, size: nat)
    requires |ns| == |bytes| && size <= 30 * 0x10_0000 && n <= 3 * WRITE_CH_CAPACITY
    ensures TooBigFrom(ns, bytes, n, size) <==>
            size + Sum(bytes) > 30 * 0x10_0000 || n + Sum(ns) > 3 * WRITE_CH_CAPACITY
    decreases |ns|
  {
    if ns != [] {
      assert ns == [ns[0]] + ns[1..] && bytes == [bytes[0]] + bytes[1..];
      SumCons(ns[0], ns[1..]); SumCons(bytes[0], bytes[1..]);
      if size + bytes[0] <= 30 * 0x10_0000 && n + ns[0] <= 3 * WRITE_CH_CAPACITY {
        TooBigSums(ns[1..], bytes[1..], n + ns[0], size + bytes[0]);
      }
    }
  }

  /** A batch of one-entry requests that is acceptable has at most 192 entries. */
  lemma {:induction false} BatchCount(ns: seq<nat>, bytes: seq<nat>, n: nat, size: nat)
    requires |ns| == |bytes| && !TooBigFrom(ns, bytes, n, size) && forall i :: 0 <= i < |ns| ==> ns[i] == 1
    requires n <= 3 * WRITE_CH_CAPACITY
    ensures n + |ns| <= 3 * WRITE_CH_CAPACITY
    decreases |ns|
  {
    if ns != [] { BatchCount(ns[1..], bytes[1..], n + 1, size + bytes[0]); }
  }

  lemma {:induction false} TotalBound(es: seq<LogEntry>, each: nat)
    requires forall e :: e in es ==> EstimatedSizeInSkl(e) <= each
    ensures TotalEstimate(es) <= |es| * each
  {
    hide EstimatedSizeInSkl;
    if es != [] {
      TotalBound(es[1..], each);
      MulStep(|es|, each);
    }
  }

  lemma MulStep(n: nat, k: nat)
    requires n > 0
    ensures n * k == k + (n - 1) * k
  {
  }

  /** Every batch the write loop puts together fits an empty memtable, with internal keys of up to
      4301 bytes: doWrites stops adding requests as soon as the batch is too big. */
  lemma BatchFits(es: seq<LogEntry>, ns: seq<nat>, bytes: seq<nat>)
    requires |es| == |ns| == |bytes| > 0 && forall i :: 0 <= i < |ns| ==> ns[i] == 1
    requires !IsReqsTooBig(ns[..|ns| - 1], bytes[..|ns| - 1])
    requires forall e :: e in es ==> 8 <= |e.key| <= 4301 && e.expiresAt == 0
    ensures EMPTY_SIZE + TotalEstimate(es) < MAX_SKIPLIST
  {
    BatchCount(ns[..|ns| - 1], bytes[..|ns| - 1], 0, 0);
    forall e | e in es ensures EstimatedSizeInSkl(e) <= 5432 { assert SizeVarint(0) == 1; }
    TotalBound(es, 5432);
    assert |es| * 5432 <= 193 * 5432;
  }

  // ---------- the memtables ----------

  datatype FlushTask = FlushTask(mt: Skiplist, vptr: nat, seqNum: nat)

  /** EntryInfo: a log entry and where the log holds it. */
  datatype Placed = Placed(log: LogEntry, extentID: nat, offset: nat)

  function Logs(es: seq<Placed>): seq<LogEntry> { seq(|es|, i requires 0 <= i < |es| => es[i].log) }

  ghost function PutPlaced(r: Run, es: seq<Placed>): Run
    requires forall e :: e in es ==> |e.log.key| >= 8
    decreases |es|
  {
    if es == [] then r
    else PutPlaced(Put(r, es[0].log.key, LsmValue(es[0].log, es[0].extentID, es[0].offset)), es[1..])
  }

  ghost predicate Mentions(es: seq<Placed>, key: Bytes) { exists i :: 0 <= i < |es| && es[i].log.key == key }

  /** Entry i puts e, and no later entry of the batch has its key. */
  ghost predicate PutsLast(es: seq<Placed>, i: nat, e: Entry)
  {
    && i < |es| && e.key == es[i].log.key && e.vs == LsmValue(es[i].log, es[i].extentID, es[i].offset)
    && forall j :: i < j < |es| ==> es[j].log.key != e.key
  }

  /** The batch stores e. */
  ghost predicate Stores(es: seq<Placed>, e: Entry) { exists i: nat :: PutsLast(es, i, e) }

  lemma {:induction false} PutPlacedHolds(r: Run, es: seq<Placed>, e: Entry)
    requires Sorted(r) && forall f :: f in es ==> |f.log.key| >= 8
    ensures Sorted(PutPlaced(r, es))
    ensures e in PutPlaced(r, es) <==> (e in r && !Mentions(es, e.key)) || Stores(es, e)
    decreases |es|
  {
    hide LsmValue, Put, Sorted, Mentions, Stores;
    if es == [] {
      NothingStored(e);
    } else {
      var f, rest := es[0], es[1..];
      var vs := LsmValue(f.log, f.extentID, f.offset);
      PutSorted(r, f.log.key, vs); PutHolds(r, f.log.key, vs, e);
      PutPlacedHolds(Put(r, f.log.key, vs), rest, e);
      MentionsFirst(es, e.key); StoresFirst(es, e); StoresRest(es, e);
    }
  }

  lemma NothingStored(e: Entry)
    ensures !Mentions([], e.key) && !Stores([], e)
  {
  }

  lemma MentionsFirst(es: seq<Placed>, key: Bytes)
    requires es != []
    ensures Mentions(es, key) <==> es[0].log.key == key || Mentions(es[1..], key)
  {
    var rest := es[1..];
    if Mentions(rest, key) { var i :| 0 <= i < |rest| && rest[i].log.key == key; assert es[i + 1].log.key == key; }
    if Mentions(es, key) && es[0].log.key != key {
      var i :| 0 <= i < |es| && es[i].log.key == key;
      assert rest[i - 1].log.key == key;
    }
  }

  /** The first entry is stored if no later one has its key. */
  lemma StoresFirst(es: seq<Placed>, e: Entry)
    requires es != []
    ensures PutsLast(es, 0, e) <==>
            e.key == es[0].log.key && e.vs == LsmValue(es[0].log, es[0].extentID, es[0].offset) &&
            !Mentions(es[1..], e.key)
    ensures PutsLast(es, 0, e) ==> Stores(es, e)
  {
    hide LsmValue;
    var rest := es[1..];
    forall j | 0 < j < |es| ensures es[j] == rest[j - 1] {}
    if Mentions(rest, e.key) {
      var i :| 0 <= i < |rest| && rest[i].log.key == e.key;
      assert es[i + 1].log.key == e.key;
    }
  }

  lemma StoresRest(es: seq<Placed>, e: Entry)
    requires es != []
    ensures Stores(es, e) <==> PutsLast(es, 0, e) || Stores(es[1..], e)
    ensures Stores(es[1..], e) ==> Mentions(es[1..], e.key)
  {
    hide LsmValue;
    var rest := es[1..];
    if Stores(rest, e) {
      var i: nat :| PutsLast(rest, i, e);
      forall j | i + 1 < j < |es| ensures es[j].log.key != e.key { assert rest[j - 1] == es[j]; }
      assert PutsLast(es, i + 1, e);
    }
    if Stores(es, e) && !PutsLast(es, 0, e) {
      var i: nat :| PutsLast(es, i, e);
      forall j | i - 1 < j < |rest| ensures rest[j].log.key != e.key { assert rest[j] == es[j + 1]; }
      assert PutsLast(rest, i - 1, e);
    }
  }

  class Memtables {
    var mt: Skiplist
    var imm: seq<Skiplist>
    var flushChan: seq<FlushTask>
    var seqNumber: nat

    ghost predicate Valid()
      reads this, mt
    {
      mt.Valid() && mt.Complete() && mt.size == MAX_SKIPLIST && mt !in imm
    }

    constructor ()
      ensures Valid() && mt.Contents() == [] && imm == [] && flushChan == [] && seqNumber == 0
    {
      mt := new Skiplist(MAX_SKIPLIST);
      imm, flushChan, seqNumber := [], [], 0;
    }

    /** ensureRoomForWrite: either nothing changed and there is room, or the full memtable went to the end of
        both the flush queue and the immutable list. A new memtable has room exactly for a batch that fits an
        empty one, which BatchFits promises. */
    method EnsureRoomForWrite(entries: seq<Placed>, head: nat, forceFlush: bool) returns (ok: bool)
      requires Valid() && TotalEstimate(Logs(entries)) <= MAX_SKIPLIST
      modifies this
      ensures Valid()
      ensures ok ==> (mt.n + TotalEstimate(Logs(entries)) < MAX_SKIPLIST <==>
                      mt == old(mt) || EMPTY_SIZE + TotalEstimate(Logs(entries)) < MAX_SKIPLIST)
      ensures mt == old(mt) ==>
                imm == old(imm) && flushChan == old(flushChan) && seqNumber == old(seqNumber) + if ok then 0 else 1
      ensures mt != old(mt) ==>
                ok && fresh(mt) && mt.Contents() == [] && imm == old(imm) + [old(mt)] &&
                    seqNumber == old(seqNumber) + 1 &&
                flushChan == old(flushChan) + [FlushTask(old(mt), head, old(seqNumber) + 1)]
      ensures ok == (mt != old(mt) || (!forceFlush && mt.n + TotalEstimate(Logs(entries)) < MAX_SKIPLIST))
    {
      var n := TotalEstimate(Logs(entries));
      if !forceFlush && mt.n + n < MAX_SKIPLIST {
        return true;
      }
      seqNumber := seqNumber + 1;
      if |flushChan| < Partition.FLUSH_CHAN_CAPACITY {
        flushChan := flushChan + [FlushTask(mt, head, seqNumber)];
        imm := imm + [mt];
        mt := new Skiplist(MAX_SKIPLIST);
        ok := true;
      } else {
        ok := false;
      }
    }

    /** writeToLSM: with the room reserved, no arena bound is ever hit. */
    method WriteToLSM(entries: seq<Placed>)
      requires Valid() && forall e :: e in entries ==> |e.log.key| >= 8
      requires mt.n + TotalEstimate(Logs(entries)) < MAX_SKIPLIST
      modifies mt
      ensures Valid() && mt == old(mt) && mt.n < MAX_SKIPLIST
      ensures mt.Contents() == PutPlaced(old(mt.Contents()), entries)
      ensures forall e :: e in mt.Contents() <==>
                (e in old(mt.Contents()) && !Mentions(entries, e.key)) || Stores(entries, e)
    {
      hide Skiplist.Valid, Skiplist.Complete, Runs.Put, Found, LsmValue, Evolves, ShowsOneOf, Grows;
      var i := 0;
      assert entries[0..] == entries;
      ghost var before := mt.Contents();
      ContentsSorted(mt);
      while i < |entries|
        invariant 0 <= i <= |entries| && mt == old(mt) && mt.Valid() && mt.Complete()
        invariant mt.n + TotalEstimate(Logs(entries[i..])) < MAX_SKIPLIST
        invariant PutPlaced(mt.Contents(), entries[i..]) == PutPlaced(old(mt.Contents()), entries)
      {
        var e := entries[i];
        var h: nat :| 1 <= h <= MAX_HEIGHT;
        var vs := LsmValue(e.log, e.extentID, e.offset);
        TakeOne(entries, i);
        GrowthWithinEstimate(Found(mt.Contents(), e.log.key), e.log, e.extentID, e.offset, h);
        ghost var trace := mt.Put(e.log.key, vs, h);
        i := i + 1;
      }
      assert entries[|entries|..] == [];
      forall e ensures e in mt.Contents() <==>
                (e in old(mt.Contents()) && !Mentions(entries, e.key)) || Stores(entries, e)
      {
        PutPlacedHolds(before, entries, e);
      }
    }
  }

  lemma ContentsSorted(mt: Skiplist)
    requires mt.Valid()
    ensures Sorted(mt.Contents())
  {
    EntriesSorted(mt.nodes, mt.head, mt.levels[0]);
  }

  lemma TakeOne(es: seq<Placed>, i: nat)
    requires i < |es|
    ensures es[i..][0] == es[i] && es[i..][1..] == es[i + 1..]
    ensures TotalEstimate(Logs(es[i..])) == EstimatedSizeInSkl(es[i].log) + TotalEstimate(Logs(es[i + 1..]))
  {
    assert Logs(es[i..])[1..] == Logs(es[i + 1..]);
  }
}

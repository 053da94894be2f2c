/** The protobuf wire form of a log entry and of the offset list that a log block carries. */
module Wire {
  import opened Bytes
  import opened Room

  // ---------- varints as the generated readers take them ----------

  /** The varint at the head of b, n of its bytes having been read: at most ten bytes, value not yet
      reduced. `width` is 0 when the bytes end too soon and negative when there are too many. */
  function VarintAfter(b: Bytes, n: nat): (r: Uvarint)
    ensures r.width <= |b|
  {
    if n >= 10 then Uvarint(0, -1)
    else if b == [] then Uvarint(0, 0)
    else if b[0] < 128 then Uvarint(b[0], 1)
    else
      var r := VarintAfter(b[1..], n + 1);
      if r.width <= 0 then r else Uvarint(b[0] - 128 + 128 * r.value, r.width + 1)
  }

  lemma {:induction false} VarintReads(x: nat, n: nat, rest: Bytes)
    requires n + |PutUvarint(x)| <= 10
    ensures VarintAfter(PutUvarint(x) + rest, n) == Uvarint(x, |PutUvarint(x)|)
    decreases x
  {
    var b := PutUvarint(x) + rest;
    if x >= 128 {
      assert b[1..] == PutUvarint(x / 128) + rest;
      VarintReads(x / 128, n + 1, rest);
    }
  }

  function Varint(b: Bytes): (r: Uvarint)
    ensures r.width <= |b|
  {
    VarintAfter(b, 0)
  }

  lemma VarintRoundTrip(x: nat, rest: Bytes)
    requires x < UINT64_LIMIT
    ensures Varint(PutUvarint(x) + rest) == Uvarint(x, |PutUvarint(x)|)
  {
    SizeVarintBounds(x);
    VarintReads(x, 0, rest);
  }

  // ---------- Entry ----------

  function BytesField(tag: byte, x: Bytes): Bytes { if x == [] then [] else [tag] + PutUvarint(|x|) + x }

  function VarintField(tag: byte, x: nat): Bytes { if x == 0 then [] else [tag] + PutUvarint(x) }

  /** Entry.Marshal: fields that have their default value are left out. */
  function EntryBytes(e: LogEntry): Bytes
  {
    BytesField(0x0a, e.key) + BytesField(0x12, e.value) +
    VarintField(0x18, e.meta) + VarintField(0x20, e.userMeta) + VarintField(0x28, e.expiresAt)
  }

  /** Entry.Size. */
  function EntrySize(e: LogEntry): (n: nat)
    ensures n == |EntryBytes(e)|
  {
    (if e.key == [] then 0 else 1 + |e.key| + SizeVarint(|e.key|)) +
    (if e.value == [] then 0 else 1 + |e.value| + SizeVarint(|e.value|)) +
    (if e.meta == 0 then 0 else 1 + SizeVarint(e.meta)) +
    (if e.userMeta == 0 then 0 else 1 + SizeVarint(e.userMeta)) +
    (if e.expiresAt == 0 then 0 else 1 + SizeVarint(e.expiresAt))
  }

  const NO_ENTRY: LogEntry := LogEntry([], [], 0, 0, 0)

  datatype Field = Field(entry: LogEntry, rest: Bytes)

  /** What a field with this tag and this varint after the tag sets; None is an error. */
  function SetField(wire: nat, x: nat, after: Bytes, e: LogEntry): (r: Option<Field>)
    ensures r.Some? ==> |r.value.rest| <= |after|
  {
    if wire == 0x0a && x <= |after| then Some(Field(e.(key := after[..x]), after[x..]))
    else if wire == 0x12 && x <= |after| then Some(Field(e.(value := after[..x]), after[x..]))
    else if wire == 0x18 then Some(Field(e.(meta := x % UINT32_LIMIT), after))
    else if wire == 0x20 then Some(Field(e.(userMeta := x % UINT32_LIMIT), after))
    else if wire == 0x28 then Some(Field(e.(expiresAt := x), after))
    else None
  }

  /** One turn of Entry.Unmarshal. */
  function ReadField(b: Bytes, e: LogEntry): (r: Option<Field>)
    ensures r.Some? ==> |r.value.rest| < |b|
  {
    var tag := Varint(b);
    if tag.width <= 0 then None
    else
      var rest := b[tag.width..];
      var n := Varint(rest);
      if n.width <= 0 then None
      else SetField(Tag(tag.value), n.value % UINT64_LIMIT, rest[n.width..], e)
  }

  /** The field number is the low 32 bits of the tag above the wire type. */
  function Tag(value: nat): nat { value % 0x8_0000_0000 }

  /** Entry.Unmarshal with the fields in e already read; None is an error. */
  function ParseEntry(b: Bytes, e: LogEntry): Option<LogEntry>
    decreases |b|
  {
    if b == [] then Some(e)
    else match ReadField(b, e)
      case None => None
      case Some(f) => ParseEntry(f.rest, f.entry)
  }

  /** The field types of pb.Entry. */
  predicate EntryOk(e: LogEntry)
  {
    && |e.key| < UINT32_LIMIT && |e.value| < UINT32_LIMIT
    && e.meta < UINT32_LIMIT && e.userMeta < UINT32_LIMIT && e.expiresAt < UINT64_LIMIT
  }

  /** What the reader sees after the tag byte of a field. */
  lemma TagReads(tag: byte, x: nat, rest: Bytes)
    requires tag < 128 && x < UINT64_LIMIT
    ensures var b := [tag] + PutUvarint(x) + rest;
            Varint(b) == Uvarint(tag, 1) && b[1..] == PutUvarint(x) + rest &&
            Varint(b[1..]) == Uvarint(x, |PutUvarint(x)|) && b[1..][|PutUvarint(x)|..] == rest
  {
    VarintRoundTrip(x, rest);
    var b := [tag] + PutUvarint(x) + rest;
    assert b[1..] == PutUvarint(x) + rest;
  }

  lemma FieldReads(tag: byte, x: nat, rest: Bytes, e: LogEntry)
    requires tag < 128 && x < UINT64_LIMIT
    ensures ReadField([tag] + PutUvarint(x) + rest, e) == SetField(tag, x, rest, e)
  {
    hide Varint, PutUvarint, SetField;
    TagReads(tag, x, rest);
  }

  lemma ParseStep(b: Bytes, e: LogEntry, f: Field)
    requires b != [] && ReadField(b, e) == Some(f)
    ensures ParseEntry(b, e) == ParseEntry(f.rest, f.entry)
  {
  }

  lemma BytesFieldReads(tag: byte, x: Bytes, rest: Bytes, e: LogEntry)
    requires tag == 0x0a || tag == 0x12
    requires |x| < UINT32_LIMIT
    requires if tag == 0x0a then e.key == [] else e.value == []
    ensures ParseEntry(BytesField(tag, x) + rest, e) ==
            ParseEntry(rest, if tag == 0x0a then e.(key := x) else e.(value := x))
  {
    hide ReadField, PutUvarint, ParseEntry;
    if x == [] {
      assert BytesField(tag, x) + rest == rest;
    } else {
      var b := [tag] + PutUvarint(|x|) + (x + rest);
      assert BytesField(tag, x) + rest == b;
      FieldReads(tag, |x|, x + rest, e);
      assert (x + rest)[..|x|] == x && (x + rest)[|x|..] == rest;
      ParseStep(b, e, Field(if tag == 0x0a then e.(key := x) else e.(value := x), rest));
    }
  }

  lemma VarintFieldReads(tag: byte, x: nat, rest: Bytes, e: LogEntry)
    requires tag == 0x18 || tag == 0x20 || tag == 0x28
    requires if tag == 0x28 then x < UINT64_LIMIT else x < UINT32_LIMIT
    requires if tag == 0x18 then e.meta == 0 else if tag == 0x20 then e.userMeta == 0 else e.expiresAt == 0
    ensures ParseEntry(VarintField(tag, x) + rest, e) ==
            ParseEntry(rest, if tag == 0x18 then e.(meta := x) else if tag == 0x20 then e.(userMeta := x)
                             else e.(expiresAt := x))
  {
    hide ReadField, PutUvarint, ParseEntry;
    if x == 0 {
      assert VarintField(tag, x) + rest == rest;
    } else {
      FieldReads(tag, x, rest, e);
      ParseStep([tag] + PutUvarint(x) + rest, e,
                Field(if tag == 0x18 then e.(meta := x) else if tag == 0x20 then e.(userMeta := x)
                      else e.(expiresAt := x), rest));
    }
  }

  /** An entry that was marshalled reads back. */
  lemma EntryRoundTrip(e: LogEntry)
    requires EntryOk(e)
    ensures ParseEntry(EntryBytes(e), NO_ENTRY) == Some(e)
  {
    hide ParseEntry, BytesField, VarintField;
    var k, v := BytesField(0x0a, e.key), BytesField(0x12, e.value);
    var m, u, x := VarintField(0x18, e.meta), VarintField(0x20, e.userMeta), VarintField(0x28, e.expiresAt);
    assert EntryBytes(e) == k + (v + (m + (u + (x + []))));
    BytesFieldReads(0x0a, e.key, v + (m + (u + (x + []))), NO_ENTRY);
    var e1 := NO_ENTRY.(key := e.key);
    BytesFieldReads(0x12, e.value, m + (u + (x + [])), e1);
    var e2 := e1.(value := e.value);
    VarintFieldReads(0x18, e.meta, u + (x + []), e2);
    var e3 := e2.(meta := e.meta);
    VarintFieldReads(0x20, e.userMeta, x + [], e3);
    var e4 := e3.(userMeta := e.userMeta);
    VarintFieldReads(0x28, e.expiresAt, [], e4);
    ParseNothing(e);
  }

  lemma ParseNothing(e: LogEntry)
    ensures ParseEntry([], e) == Some(e)
  {
  }

  // ---------- MixedLog ----------

  function Packed(offsets: seq<nat>): Bytes
  {
    if offsets == [] then [] else PutUvarint(offsets[0]) + Packed(offsets[1..])
  }

  /** MixedLog.Marshal: a packed repeated field. */
  function MixedBytes(offsets: seq<nat>): Bytes
  {
    if offsets == [] then [] else [0x0a] + PutUvarint(|Packed(offsets)|) + Packed(offsets)
  }

  datatype Unpacked = Unpacked(offsets: seq<nat>, rest: Bytes)

  /** The packed elements of a field that has `left` bytes left; the elements themselves are only
      bounded by the end of the message. */
  function Unpack(b: Bytes, left: int, offsets: seq<nat>): (r: Option<Unpacked>)
    ensures r.Some? ==> |r.value.rest| <= |b|
    decreases |b|
  {
    if left <= 0 then Some(Unpacked(offsets, b))
    else
      var v := Varint(b);
      if v.width <= 0 then None else Unpack(b[v.width..], left - v.width, offsets + [v.value % UINT32_LIMIT])
  }

  /** MixedLog.Unmarshal with some offsets already read; None is an error. */
  function ParseMixed(b: Bytes, offsets: seq<nat>): Option<seq<nat>>
    decreases |b|
  {
    if b == [] then Some(offsets)
    else
      var tag := Varint(b);
      if tag.width <= 0 then None
      else
        var wire, rest := Tag(tag.value), b[tag.width..];
        var n := Varint(rest);
        if n.width <= 0 then None
        else
          var x, after := n.value % UINT64_LIMIT, rest[n.width..];
          if wire == 0x08 then ParseMixed(after, offsets + [x % UINT32_LIMIT])
          else if wire != 0x0a || x > |after| then None
          else match Unpack(after, x, offsets)
            case None => None
            case Some(u) => ParseMixed(u.rest, u.offsets)
  }

  lemma {:induction false} UnpackPacked(xs: seq<nat>, offsets: seq<nat>)
    requires forall i :: 0 <= i < |xs| ==> xs[i] < UINT32_LIMIT
    ensures Unpack(Packed(xs), |Packed(xs)|, offsets) == Some(Unpacked(offsets + xs, []))
    decreases |xs|
  {
    hide Varint, PutUvarint;
    if xs == [] {
      assert offsets + xs == offsets;
    } else {
      var p := PutUvarint(xs[0]);
      VarintRoundTrip(xs[0], Packed(xs[1..]));
      assert Packed(xs)[|p|..] == Packed(xs[1..]);
      UnpackPacked(xs[1..], offsets + [xs[0]]);
      assert offsets + [xs[0]] + xs[1..] == offsets + xs;
    }
  }

  /** An offset list that was marshalled reads back. */
  lemma MixedRoundTrip(xs: seq<nat>)
    requires forall i :: 0 <= i < |xs| ==> xs[i] < UINT32_LIMIT
    requires |Packed(xs)| < UINT64_LIMIT
    ensures ParseMixed(MixedBytes(xs), []) == Some(xs)
  {
    hide Varint, PutUvarint, Packed, Unpack;
    if xs != [] {
      var p := Packed(xs);
      TagReads(0x0a, |p|, p);
      UnpackPacked(xs, []);
      assert [] + xs == xs;
    }
  }

  /** Offsets into a 4 KB block take at most two bytes each. */
  lemma {:induction false} PackedSize(xs: seq<nat>)
    requires forall i :: 0 <= i < |xs| ==> xs[i] < 16384
    ensures |Packed(xs)| <= 2 * |xs|
  {
    hide PutUvarint, SizeVarint;
    if xs != [] {
      SizeVarintBounds(xs[0]);
      PackedSize(xs[1..]);
    }
  }
}

/** Values as the memtables and tables store them. */
module Values {
  import opened Bytes

  const BIT_DELETE: byte := 1
  const BIT_VALUE_POINTER: byte := 2
  const VALUE_THROTTLE: nat := 1024

  datatype ValueStruct = ValueStruct(meta: byte, userMeta: byte, expiresAt: nat, value: Bytes)

  predicate Has(meta: nat, bit: byte)
    requires bit > 0
  {
    meta / bit % 2 == 1
  }

  /** Fields are those of the Go struct: the expiry is a 64-bit integer. */
  predicate Storable(v: ValueStruct) { v.expiresAt < UINT64_LIMIT }

  function Encoded(v: ValueStruct): Bytes
  {
    [v.meta, v.userMeta] + PutUvarint(v.expiresAt) + v.value
  }

  function EncodedSize(v: ValueStruct): nat
  {
    |v.value| + 2 + SizeVarint(v.expiresAt)
  }

  /** None stands for the panic on a slice that is too short. */
  function Decode(b: Bytes): Option<ValueStruct>
  {
    if |b| < 2 then None
    else
      var u := GetUvarint(b[2..]);
      if 2 + u.width < 0 then None
      else Some(ValueStruct(b[0], b[1], u.value, b[2 + u.width..]))
  }

  lemma ValueRoundTrip(v: ValueStruct)
    requires Storable(v)
    ensures Decode(Encoded(v)) == Some(v)
    ensures |Encoded(v)| == EncodedSize(v)
  {
    var b := Encoded(v);
    assert b[2..] == PutUvarint(v.expiresAt) + v.value;
    UvarintRoundTrip(v.expiresAt, v.value);
  }

  function Copied(s: Bytes, at: nat, data: Bytes): (r: Bytes)
    requires at + |data| <= |s|
    ensures |r| == |s|
  {
    s[..at] + data + s[at + |data|..]
  }

  /** `copy`: overwrite part of a buffer and leave the rest of it alone. */
  method CopyInto(buf: array<byte>, at: nat, data: Bytes)
    requires at + |data| <= buf.Length
    modifies buf
    ensures buf[..] == Copied(old(buf[..]), at, data)
  {
    forall i | 0 <= i < |data| { buf[at + i] := data[i]; }
  }

  lemma CopyTwice(s: Bytes, at: nat, a: Bytes, b: Bytes)
    requires at + |a| + |b| <= |s|
    ensures Copied(Copied(s, at, a), at + |a|, b) == Copied(s, at, a + b)
  {
  }

  method Encode(v: ValueStruct, buf: array<byte>, at: nat) returns (n: nat)
    requires at + EncodedSize(v) <= buf.Length
    modifies buf
    ensures n == EncodedSize(v)
    ensures buf[..] == Copied(old(buf[..]), at, Encoded(v))
  {
    hide Copied;
    var exp := PutUvarint(v.expiresAt);
    ghost var was, metas := buf[..], [v.meta, v.userMeta];
    CopyTwice(was, at, metas, exp);
    CopyTwice(was, at, metas + exp, v.value);
    CopyInto(buf, at, [v.meta, v.userMeta]);
    CopyInto(buf, at + 2, exp);
    CopyInto(buf, at + 2 + |exp|, v.value);
    n := 2 + |exp| + |v.value|;
  }
}

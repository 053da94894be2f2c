/** Byte strings: the comparison of Go's `bytes.Compare`, fixed-width integers and varints. */
module Bytes {

  type byte = x: int | 0 <= x < 256
  type Bytes = seq<byte>

  datatype Option<+T> = None | Some(value: T)

  // ---------- bytes.Compare ----------

  /** Lexicographic comparison: -1, 0 or 1. */
  function Compare(a: Bytes, b: Bytes): (r: int)
    ensures r == -1 || r == 0 || r == 1
  {
    if a == [] then (if b == [] then 0 else -1)
    else if b == [] then 1
    else if a[0] < b[0] then -1
    else if b[0] < a[0] then 1
    else Compare(a[1..], b[1..])
  }

  lemma {:induction false} CompareEqual(a: Bytes, b: Bytes)
    ensures Compare(a, b) == 0 <==> a == b
  {
    if a != [] && b != [] && a[0] == b[0] {
      CompareEqual(a[1..], b[1..]);
      assert a == [a[0]] + a[1..] && b == [b[0]] + b[1..];
    }
  }

  lemma {:induction false} CompareFlip(a: Bytes, b: Bytes)
    ensures Compare(a, b) == -Compare(b, a)
  {
    if a != [] && b != [] && a[0] == b[0] {
      CompareFlip(a[1..], b[1..]);
    }
  }

  lemma {:induction false} CompareTransitive(a: Bytes, b: Bytes, c: Bytes)
    requires Compare(a, b) < 0 && Compare(b, c) < 0
    ensures Compare(a, c) < 0
  {
    if a != [] && a[0] == b[0] && b[0] == c[0] {
      CompareTransitive(a[1..], b[1..], c[1..]);
    }
  }

  /** A string that starts with p is not below p. */
  lemma {:induction false} ComparePrefix(p: Bytes, s: Bytes)
    requires p <= s
    ensures Compare(p, s) <= 0
  {
    if p != [] {
      ComparePrefix(p[1..], s[1..]);
    }
  }

  /** The strings with a given prefix are contiguous in the order. */
  lemma {:induction false} PrefixConvex(p: Bytes, a: Bytes, b: Bytes, c: Bytes)
    requires p <= a && p <= c
    requires Compare(a, b) <= 0 && Compare(b, c) <= 0
    ensures p <= b
  {
    if p != [] {
      if b != [] {
        PrefixConvex(p[1..], a[1..], b[1..], c[1..]);
        assert p == [p[0]] + p[1..] && b == [b[0]] + b[1..];
      }
    }
  }

  // ---------- fixed-width integers ----------

  function Pow256(w: nat): (r: nat)
    ensures r > 0
  {
    if w == 0 then 1 else 256 * Pow256(w - 1)
  }

  /** Big-endian encoding of n modulo 256^w. */
  function BigEndian(n: nat, w: nat): (r: Bytes)
    ensures |r| == w
  {
    if w == 0 then [] else BigEndian(n / 256, w - 1) + [n % 256]
  }

  function BigEndianValue(b: Bytes): nat
  {
    if b == [] then 0 else 256 * BigEndianValue(b[..|b|-1]) + b[|b|-1]
  }

  lemma {:induction false} BigEndianRoundTrip(n: nat, w: nat)
    requires n < Pow256(w)
    ensures BigEndianValue(BigEndian(n, w)) == n
  {
    if w > 0 {
      BigEndianRoundTrip(n / 256, w - 1);
      var b := BigEndian(n, w);
      assert b[..|b|-1] == BigEndian(n / 256, w - 1);
    }
  }

  lemma {:induction false} BigEndianValueBound(b: Bytes)
    ensures BigEndianValue(b) < Pow256(|b|)
    ensures BigEndian(BigEndianValue(b), |b|) == b
  {
    if b != [] {
      var f := b[..|b|-1];
      BigEndianValueBound(f);
      assert BigEndianValue(b) / 256 == BigEndianValue(f);
      assert b == f + [b[|b|-1]];
    }
  }

  lemma {:induction false} CompareSnoc(a: Bytes, b: Bytes, x: byte, y: byte)
    requires |a| == |b|
    ensures Compare(a + [x], b + [y]) ==
            if Compare(a, b) != 0 then Compare(a, b)
            else if x < y then -1 else if y < x then 1 else 0
  {
    if a != [] {
      assert (a + [x])[1..] == a[1..] + [x];
      assert (b + [y])[1..] == b[1..] + [y];
      if a[0] == b[0] {
        CompareSnoc(a[1..], b[1..], x, y);
      }
    } else {
      assert (a + [x])[1..] == [] && (b + [y])[1..] == [];
    }
  }

  /** Big-endian bytes of one width compare exactly as the integers do. */
  lemma {:induction false} BigEndianOrder(m: nat, n: nat, w: nat)
    requires m < Pow256(w) && n < Pow256(w)
    ensures Compare(BigEndian(m, w), BigEndian(n, w)) == if m < n then -1 else if n < m then 1 else 0
  {
    if w > 0 {
      BigEndianOrder(m / 256, n / 256, w - 1);
      CompareSnoc(BigEndian(m / 256, w - 1), BigEndian(n / 256, w - 1), m % 256, n % 256);
    }
  }

  /** Little-endian encoding, which the table code takes from the host's memory layout. */
  function LittleEndian(n: nat, w: nat): (r: Bytes)
    ensures |r| == w
  {
    if w == 0 then [] else [n % 256] + LittleEndian(n / 256, w - 1)
  }

  function LittleEndianValue(b: Bytes): nat
  {
    if b == [] then 0 else b[0] + 256 * LittleEndianValue(b[1..])
  }

  lemma {:induction false} LittleEndianRoundTrip(n: nat, w: nat)
    requires n < Pow256(w)
    ensures LittleEndianValue(LittleEndian(n, w)) == n
  {
    if w > 0 {
      LittleEndianRoundTrip(n / 256, w - 1);
      assert LittleEndian(n, w)[1..] == LittleEndian(n / 256, w - 1);
    }
  }

  lemma PowerFacts()
    ensures Pow256(2) == 0x1_0000
    ensures Pow256(4) == 0x1_0000_0000
    ensures Pow256(8) == 0x1_0000_0000_0000_0000
  {
    assert Pow256(1) == 256 && Pow256(3) == 256 * Pow256(2);
    assert Pow256(5) == 256 * Pow256(4) && Pow256(6) == 256 * Pow256(5) && Pow256(7) == 256 * Pow256(6);
  }

  function Zeros(n: nat): (r: Bytes)
    ensures |r| == n && forall i :: 0 <= i < n ==> r[i] == 0
  {
    seq(n, _ => 0)
  }

  // ---------- varints ----------

  const UINT32_LIMIT: nat := 0x1_0000_0000
  const UINT64_LIMIT: nat := 0x1_0000_0000_0000_0000

  /** `binary.PutUvarint`: seven bits a byte, low bits first, high bit set on all but the last. */
  function PutUvarint(x: nat): (r: Bytes)
    ensures |r| > 0
  {
    if x < 128 then [x] else [128 + x % 128] + PutUvarint(x / 128)
  }

  /** `utils.SizeVarint`. */
  function SizeVarint(x: nat): (n: nat)
    ensures n == |PutUvarint(x)|
  {
    if x < 128 then 1 else 1 + SizeVarint(x / 128)
  }

  lemma SizeVarintBounds(x: nat)
    ensures x < 128 ==> SizeVarint(x) == 1
    ensures x < 16384 ==> SizeVarint(x) <= 2
    ensures x < UINT32_LIMIT ==> SizeVarint(x) <= 5
    ensures x < UINT64_LIMIT ==> SizeVarint(x) <= 10
  {
    if x < 16384 { assert SizeVarint(x / 128) == 1; }
    if x < UINT32_LIMIT {
      assert SizeVarint(x / 128 / 128 / 128 / 128) == 1;
      assert SizeVarint(x / 128 / 128 / 128) <= 2;
      assert SizeVarint(x / 128 / 128) <= 3;
    }
    if x < UINT64_LIMIT {
      var y := x / 128 / 128 / 128 / 128 / 128;
      assert SizeVarint(y / 128 / 128 / 128 / 128) == 1;
      assert SizeVarint(y / 128 / 128 / 128) <= 2;
      assert SizeVarint(y / 128 / 128) <= 3;
      assert SizeVarint(y / 128) <= 4;
      assert SizeVarint(y) <= 5;
      assert SizeVarint(x / 128 / 128 / 128 / 128) <= 6;
      assert SizeVarint(x / 128 / 128 / 128) <= 7;
      assert SizeVarint(x / 128 / 128) <= 8;
    }
  }

  /** The result of `binary.Uvarint`: `width` is 0 when the buffer ends too soon and negative on overflow. */
  datatype Uvarint = Uvarint(value: nat, width: int)

  /** `binary.Uvarint` from byte i of b on, i bytes having been read before. */
  function GetUvarintFrom(b: Bytes, i: nat): (r: Uvarint)
    requires i <= |b|
    ensures r.width <= |b| - i
    decreases |b| - i
  {
    if i == |b| then Uvarint(0, 0)
    else if b[i] < 128 then
      if i > 9 || (i == 9 && b[i] > 1) then Uvarint(0, -(i + 1)) else Uvarint(b[i], 1)
    else
      var rest := GetUvarintFrom(b, i + 1);
      if rest.width <= 0 then rest else Uvarint(b[i] - 128 + 128 * rest.value, rest.width + 1)
  }

  function GetUvarint(b: Bytes): (r: Uvarint)
    ensures r.width <= |b|
  {
    GetUvarintFrom(b, 0)
  }

  function Pow128(n: nat): (r: nat)
    ensures r > 0
  {
    if n == 0 then 1 else 128 * Pow128(n - 1)
  }

  /** Reading i bytes into a 64-bit varint, what is left fits in 64 - 7 i bits. */
  lemma {:induction false} UvarintRoundTripFrom(x: nat, pre: Bytes, rest: Bytes)
    requires |pre| <= 9
    requires x * Pow128(|pre|) < UINT64_LIMIT
    ensures GetUvarintFrom(pre + PutUvarint(x) + rest, |pre|) == Uvarint(x, |PutUvarint(x)|)
    decreases x
  {
    var b := pre + PutUvarint(x) + rest;
    Pow128Facts();
    if x < 128 {
      assert b[|pre|] == x;
      if |pre| == 9 { assert x <= 1; }
    } else {
      assert |pre| < 9;
      var c: byte := 128 + x % 128;
      var pre' := pre + [c];
      assert Pow128(|pre'|) == 128 * Pow128(|pre|);
      Shifted(x, Pow128(|pre|));
      UvarintRoundTripFrom(x / 128, pre', rest);
      assert pre' + PutUvarint(x / 128) + rest == b;
      assert b[|pre|] == c;
    }
  }

  lemma Shifted(x: nat, p: nat)
    ensures x / 128 * (128 * p) <= x * p
  {
    assert x / 128 * (128 * p) == (x / 128 * 128) * p;
    MulMono(x / 128 * 128, x, p);
  }

  lemma MulMono(a: nat, b: nat, c: nat)
    requires a <= b
    ensures a * c <= b * c
  {
  }

  lemma Pow128Facts()
    ensures Pow128(0) == 1
    ensures Pow128(9) == 0x8000_0000_0000_0000
  {
    assert Pow128(3) == 0x20_0000;
    assert Pow128(6) == 128 * (128 * (128 * Pow128(3)));
    assert Pow128(9) == 128 * (128 * (128 * Pow128(6)));
  }

  /** A 64-bit value written as a varint reads back, whatever follows it. */
  lemma UvarintRoundTrip(x: nat, rest: Bytes)
    requires x < UINT64_LIMIT
    ensures GetUvarint(PutUvarint(x) + rest) == Uvarint(x, |PutUvarint(x)|)
  {
    Pow128Facts();
    UvarintRoundTripFrom(x, [], rest);
    assert [] + PutUvarint(x) + rest == PutUvarint(x) + rest;
  }

  // ---------- lists of lists ----------

  function Flatten<T>(xs: seq<seq<T>>): seq<T>
  {
    if xs == [] then [] else xs[0] + Flatten(xs[1..])
  }

  lemma {:induction false} FlattenSnoc<T>(xs: seq<seq<T>>, x: seq<T>)
    ensures Flatten(xs + [x]) == Flatten(xs) + x
  {
    if xs == [] {
      assert [x][1..] == [] && [] + [x] == [x];
      assert Flatten([x]) == x + Flatten([x][1..]);
    } else {
      assert (xs + [x])[1..] == xs[1..] + [x];
      FlattenSnoc(xs[1..], x);
    }
  }

  lemma {:induction false} FlattenAppend<T>(a: seq<seq<T>>, b: seq<seq<T>>)
    ensures Flatten(a + b) == Flatten(a) + Flatten(b)
  {
    if a == [] {
      assert a + b == b;
    } else {
      assert (a + b)[1..] == a[1..] + b;
      FlattenAppend(a[1..], b);
    }
  }
}

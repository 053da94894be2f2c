/** Internal keys: a user key followed by eight bytes of inverted timestamp, and the one order
    every layer of the store uses. */
module Keys {
  import opened Bytes

  const MAX_UINT64: nat := 0xFFFF_FFFF_FFFF_FFFF

  /** An internal key carries eight bytes of timestamp. */
  type Key = k: Bytes | |k| >= 8 witness [0, 0, 0, 0, 0, 0, 0, 0]

  function KeyWithTs(user: Bytes, ts: nat): (k: Key)
    requires ts <= MAX_UINT64
  {
    user + BigEndian(MAX_UINT64 - ts, 8)
  }

  function ParseKey(k: Key): Bytes { k[..|k| - 8] }

  /** Zero for a key that is nothing but a timestamp. */
  function ParseTs(k: Key): (ts: nat)
    ensures ts <= MAX_UINT64
  {
    if |k| <= 8 then 0
    else
      BigEndianValueBound(k[|k| - 8..]); PowerFacts();
      MAX_UINT64 - BigEndianValue(k[|k| - 8..])
  }

  predicate SameKey(a: Key, b: Key) { |a| == |b| && ParseKey(a) == ParseKey(b) }

  function CompareKeys(a: Key, b: Key): (r: int)
    ensures r == -1 || r == 0 || r == 1
  {
    var c := Compare(a[..|a| - 8], b[..|b| - 8]);
    if c != 0 then c else Compare(a[|a| - 8..], b[|b| - 8..])
  }

  /** The order of the store. */
  predicate Less(a: Key, b: Key) { CompareKeys(a, b) < 0 }

  // ---------- the order is total ----------

  lemma CompareKeysEqual(a: Key, b: Key)
    ensures CompareKeys(a, b) == 0 <==> a == b
  {
    CompareEqual(a[..|a| - 8], b[..|b| - 8]);
    CompareEqual(a[|a| - 8..], b[|b| - 8..]);
    assert a == a[..|a| - 8] + a[|a| - 8..];
    assert b == b[..|b| - 8] + b[|b| - 8..];
  }

  lemma CompareKeysFlip(a: Key, b: Key)
    ensures CompareKeys(a, b) == -CompareKeys(b, a)
  {
    CompareFlip(a[..|a| - 8], b[..|b| - 8]);
    CompareFlip(a[|a| - 8..], b[|b| - 8..]);
  }

  lemma LessTransitive(a: Key, b: Key, c: Key)
    requires Less(a, b) && Less(b, c)
    ensures Less(a, c)
  {
    var a0, b0, c0 := a[..|a| - 8], b[..|b| - 8], c[..|c| - 8];
    CompareEqual(a0, b0); CompareEqual(b0, c0);
    if Compare(a0, b0) < 0 && Compare(b0, c0) < 0 {
      CompareTransitive(a0, b0, c0);
    } else if Compare(a0, b0) == 0 && Compare(b0, c0) == 0 {
      CompareTransitive(a[|a| - 8..], b[|b| - 8..], c[|c| - 8..]);
    }
  }

  /** Exactly one of a before b, a equal to b, b before a; and the sign of CompareKeys tells which. */
  lemma LessTotal(a: Key, b: Key)
    ensures a == b <==> CompareKeys(a, b) == 0
    ensures Less(b, a) <==> CompareKeys(a, b) > 0
    ensures Less(a, b) || a == b || Less(b, a)
    ensures !(Less(a, b) && Less(b, a)) && !Less(a, a) && !Less(b, b)
  {
    CompareKeysEqual(a, b); CompareKeysFlip(a, b);
    CompareKeysEqual(a, a); CompareKeysEqual(b, b);
  }

  // ---------- what the order means ----------

  lemma KeyParts(user: Bytes, ts: nat)
    requires ts <= MAX_UINT64
    ensures ParseKey(KeyWithTs(user, ts)) == user
    ensures KeyWithTs(user, ts)[|user|..] == BigEndian(MAX_UINT64 - ts, 8)
  {
    assert (user + BigEndian(MAX_UINT64 - ts, 8))[..|user|] == user;
  }

  /** The bytes compare as user key ascending, then timestamp descending. */
  lemma KeyOrder(u1: Bytes, t1: nat, u2: Bytes, t2: nat)
    requires t1 <= MAX_UINT64 && t2 <= MAX_UINT64
    ensures CompareKeys(KeyWithTs(u1, t1), KeyWithTs(u2, t2)) ==
            if Compare(u1, u2) != 0 then Compare(u1, u2)
            else if t1 > t2 then -1 else if t1 < t2 then 1 else 0
  {
    KeyParts(u1, t1); KeyParts(u2, t2); PowerFacts();
    BigEndianOrder(MAX_UINT64 - t1, MAX_UINT64 - t2, 8);
  }

  /** The timestamp is recovered exactly when the user key is not empty, or the timestamp is zero. */
  lemma TimestampRoundTrip(user: Bytes, ts: nat)
    requires ts <= MAX_UINT64
    ensures ParseTs(KeyWithTs(user, ts)) == ts <==> user != [] || ts == 0
  {
    KeyParts(user, ts); PowerFacts();
    BigEndianRoundTrip(MAX_UINT64 - ts, 8);
    var k := KeyWithTs(user, ts);
    assert k[|k| - 8..] == k[|user|..];
  }

  /** Every internal key longer than its timestamp is built from its two parts. */
  lemma KeyRebuild(k: Key)
    requires |k| > 8
    ensures k == KeyWithTs(ParseKey(k), ParseTs(k))
  {
    BigEndianValueBound(k[|k| - 8..]); PowerFacts();
    assert k == k[..|k| - 8] + k[|k| - 8..];
  }

  lemma SameKeyIffSameUser(a: Key, b: Key)
    ensures SameKey(a, b) <==> ParseKey(a) == ParseKey(b)
  {
    assert |ParseKey(a)| == |a| - 8 && |ParseKey(b)| == |b| - 8;
  }

  lemma LessUser(a: Key, b: Key)
    requires Less(a, b)
    ensures ParseKey(a) == ParseKey(b) || Compare(ParseKey(a), ParseKey(b)) < 0
  {
    CompareEqual(ParseKey(a), ParseKey(b));
  }

  /** The order read off the parsed parts of two keys. */
  lemma LessByParts(a: Key, b: Key)
    requires |a| > 8 && |b| > 8
    ensures Less(a, b) <==> Compare(ParseKey(a), ParseKey(b)) < 0 ||
                            (ParseKey(a) == ParseKey(b) && ParseTs(a) > ParseTs(b))
  {
    KeyRebuild(a); KeyRebuild(b);
    KeyOrder(ParseKey(a), ParseTs(a), ParseKey(b), ParseTs(b));
    CompareEqual(ParseKey(a), ParseKey(b));
  }
}

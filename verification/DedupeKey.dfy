/** internal/dedupe/key.go: the key a record's dedupe identity is stored under.
    SHA-256 and the bucket hash are parameters: nothing is assumed of them beyond
    the size of what they return. */
module DedupeKey {
  import opened Bytes
  import opened KeyEnc
  import Decimal

  const SLASH: byte := 0x2F
  const HASH_MARK: byte := 0x23
  const MAX_ID_BYTES := 1024
  const TABLE_BUCKETS := 256

  type Digest = d: Bytes | |d| == 32 witness seq(32, i => 0)
  type Bucket = n: int | 0 <= n < TABLE_BUCKETS

  datatype Key = Key(table: Bytes, id: Bytes)

  // tenant.Parse
  predicate TenantId(t: Bytes) {
    0 < |t| <= 64 && AllKept(t)
  }

  // Key.Hashed, with the two length tests that save measuring the escaped id.
  predicate Hashed(k: Key) {
    if |k.id| > MAX_ID_BYTES then true
    else if 3 * |k.id| <= MAX_ID_BYTES then false
    else |Escape(k.id)| > MAX_ID_BYTES
  }

  function HexLower(n: int): (c: byte)
    requires 0 <= n < 16
  {
    if n < 10 then 0x30 + n else 0x57 + n
  }

  function HexEncode(s: Bytes): (r: Bytes)
    ensures |r| == 2 * |s|
  {
    if s == [] then [] else [HexLower(s[0] / 16), HexLower(s[0] % 16)] + HexEncode(s[1..])
  }

  function HashedId(sha: Bytes -> Digest, id: Bytes): (r: Bytes)
    ensures |r| == 65 && r[0] == HASH_MARK
  {
    [HASH_MARK] + HexEncode(sha(id))
  }

  // appendID
  function StoredId(sha: Bytes -> Digest, k: Key): Bytes {
    if Hashed(k) then HashedId(sha, k.id) else Escape(k.id)
  }

  function KeyPrefix(tenant: Bytes): Bytes {
    tenant + [SLASH]
  }

  // AppendKey under a tenant's KeyPrefix, onto an empty buffer.
  function StoredKey(sha: Bytes -> Digest, tenant: Bytes, k: Key): Bytes {
    KeyPrefix(tenant) + Join(SLASH, [k.table]) + [SLASH] + StoredId(sha, k)
  }

  datatype ItemKey = ItemKey(pk: Bytes, sk: Bytes)

  function SortKey(sha: Bytes -> Digest, k: Key): Bytes {
    var s := StoredId(sha, k);
    if s == [] then HashedId(sha, k.id) else s
  }

  function PartitionedKey(sha: Bytes -> Digest, bucket: Bytes -> Bucket, tenant: Bytes, k: Key): ItemKey {
    var sk := SortKey(sha, k);
    ItemKey(KeyPrefix(tenant) + Join(SLASH, [k.table]) + [SLASH] + Decimal.Format(bucket(sk)), sk)
  }

  // The shortcuts agree with measuring the escaped id.
  lemma HashedMeansLong(k: Key)
    ensures Hashed(k) <==> |Escape(k.id)| > 1024
  {}

  // The layout of what is stored, which later builds must read.
  lemma KeysAreLaidOut(sha: Bytes -> Digest, bucket: Bytes -> Bucket, tenant: Bytes, k: Key)
    ensures var head := tenant + Chars("/") + Escape(k.table) + Chars("/");
      var hashed := Chars("#") + HexEncode(sha(k.id));
      && StoredKey(sha, tenant, k) == head + (if |Escape(k.id)| > 1024 then hashed else Escape(k.id))
      && PartitionedKey(sha, bucket, tenant, k).sk == (if k.id == [] || |Escape(k.id)| > 1024 then hashed else Escape(k.id))
      && PartitionedKey(sha, bucket, tenant, k).pk == head + Decimal.Format(bucket(PartitionedKey(sha, bucket, tenant, k).sk))
      && 0 <= bucket(PartitionedKey(sha, bucket, tenant, k).sk) < 256
  {
    HashedMeansLong(k);
    assert Join(SLASH, [k.table]) == Escape(k.table);
    assert Chars("/") == [SLASH] && Chars("#") == [HASH_MARK];
    assert Escape(k.id) == [] <==> k.id == [];
  }

  lemma {:induction false} HexEncodeInjective(s: Bytes, t: Bytes)
    requires HexEncode(s) == HexEncode(t)
    ensures s == t
  {
    if s != [] {
      var a, b := HexEncode(s), HexEncode(t);
      assert a[0] == b[0] && a[1] == b[1];
      assert a[2..] == HexEncode(s[1..]) && b[2..] == HexEncode(t[1..]);
      HexEncodeInjective(s[1..], t[1..]);
      assert s == [s[0]] + s[1..] && t == [t[0]] + t[1..];
    }
  }

  lemma HashedIdInjective(sha: Bytes -> Digest, a: Bytes, b: Bytes)
    requires HashedId(sha, a) == HashedId(sha, b)
    ensures sha(a) == sha(b)
  {
    assert HexEncode(sha(a)) == HashedId(sha, a)[1..];
    assert HexEncode(sha(b)) == HashedId(sha, b)[1..];
    HexEncodeInjective(sha(a), sha(b));
  }

  // Equal stored ids are equal ids, or two hashed ids whose digests collide; a hashed
  // id never reads as a verbatim one.
  lemma StoredIdInjective(sha: Bytes -> Digest, k: Key, l: Key)
    requires StoredId(sha, k) == StoredId(sha, l)
    ensures Hashed(k) <==> Hashed(l)
    ensures k.id == l.id || (Hashed(k) && sha(k.id) == sha(l.id))
  {
    if Hashed(k) && Hashed(l) {
      HashedIdInjective(sha, k.id, l.id);
    } else if !Hashed(k) && !Hashed(l) {
      EscapeInjective(k.id, l.id);
    }
  }

  // No two (tenant, table) pairs share the head of a key.
  lemma HeadInjective(t1: Bytes, table1: Bytes, rest1: Bytes, t2: Bytes, table2: Bytes, rest2: Bytes)
    requires TenantId(t1) && TenantId(t2)
    requires KeyPrefix(t1) + Join(SLASH, [table1]) + [SLASH] + rest1 == KeyPrefix(t2) + Join(SLASH, [table2]) + [SLASH] + rest2
    ensures t1 == t2 && table1 == table2 && rest1 == rest2
  {
    var e1, e2 := Escape(table1), Escape(table2);
    assert Join(SLASH, [table1]) == e1 && Join(SLASH, [table2]) == e2;
    assert KeyPrefix(t1) + e1 + [SLASH] + rest1 == t1 + [SLASH] + (e1 + [SLASH] + rest1);
    assert KeyPrefix(t2) + e2 + [SLASH] + rest2 == t2 + [SLASH] + (e2 + [SLASH] + rest2);
    HeadTail(t1, e1 + [SLASH] + rest1, t2, e2 + [SLASH] + rest2, SLASH);
    HeadTail(e1, rest1, e2, rest2, SLASH);
    EscapeInjective(table1, table2);
  }

  lemma StoredKeyInjective(sha: Bytes -> Digest, t1: Bytes, k1: Key, t2: Bytes, k2: Key)
    requires TenantId(t1) && TenantId(t2)
    requires StoredKey(sha, t1, k1) == StoredKey(sha, t2, k2)
    ensures t1 == t2 && k1.table == k2.table
    ensures k1 == k2 || (Hashed(k1) && Hashed(k2) && sha(k1.id) == sha(k2.id))
  {
    HeadInjective(t1, k1.table, StoredId(sha, k1), t2, k2.table, StoredId(sha, k2));
    StoredIdInjective(sha, k1, k2);
  }

  // What a tenant-partitioned table asks of a sort key.
  lemma SortKeyBounds(sha: Bytes -> Digest, k: Key)
    ensures 1 <= |SortKey(sha, k)| <= 1024
  {
    HashedMeansLong(k);
  }

  lemma PartitionedKeyInjective(sha: Bytes -> Digest, bucket: Bytes -> Bucket, t1: Bytes, k1: Key, t2: Bytes, k2: Key)
    requires TenantId(t1) && TenantId(t2)
    requires PartitionedKey(sha, bucket, t1, k1) == PartitionedKey(sha, bucket, t2, k2)
    ensures t1 == t2 && k1.table == k2.table
    ensures k1.id == k2.id || sha(k1.id) == sha(k2.id)
  {
    var b1 := Decimal.Format(bucket(SortKey(sha, k1)));
    var b2 := Decimal.Format(bucket(SortKey(sha, k2)));
    HeadInjective(t1, k1.table, b1, t2, k2.table, b2);
    var s1, s2 := StoredId(sha, k1), StoredId(sha, k2);
    if s1 != [] && s2 != [] {
      StoredIdInjective(sha, k1, k2);
    } else if s1 == [] && s2 == [] {
      EscapeInjective(k1.id, k2.id);
    } else {
      // One is the empty id, stored hashed: the other is hashed too.
      var s := SortKey(sha, k1);
      assert s[0] == HASH_MARK;
      HashedIdInjective(sha, k1.id, k2.id);
    }
  }
}

/** Byte keys as the database layer builds them (`DbKey`), RocksDB's bytewise order, and the
    half-open range that stands for "everything under this prefix". */
module KeySpace {

  type byte = b: int | 0 <= b < 256
  type Bytes = seq<byte>

  datatype Option<+T> = None | Some(value: T)

  ghost predicate Distinct<T>(s: seq<T>) {
    forall i, j :: 0 <= i < j < |s| ==> s[i] != s[j]
  }

  predicate Contains(s: string, part: string) {
    exists i :: 0 <= i <= |s| - |part| && s[i..][..|part|] == part
  }

  lemma ContainsMiddle(a: string, part: string, b: string)
    ensures Contains(a + part + b, part)
  {
    assert (a + part + b)[|a|..][..|part|] == part;
  }

  /** The serializer of the stored type. Decoding may fail on bytes the store did not write. */
  datatype Codec<!T> = Codec(enc: T -> Bytes, dec: Bytes -> Option<T>)

  ghost predicate RoundTrips<T(!new)>(c: Codec<T>) {
    forall t :: c.dec(c.enc(t)) == Some(t)
  }

  /** Reserved by the registry: never the first byte of a store prefix. */
  const SEPARATOR: byte := 255

  /** Strict order of RocksDB's default comparator: unsigned bytes, shorter first on a tie. */
  predicate Below(a: Bytes, b: Bytes) {
    b != [] && (a == [] || a[0] < b[0] || (a[0] == b[0] && Below(a[1..], b[1..])))
  }

  predicate InRange(k: Bytes, from: Bytes, to: Bytes) {
    !Below(k, from) && Below(k, to)
  }

  predicate Under(prefix: Bytes, k: Bytes) {
    prefix <= k
  }

  /** Upper bound of a prefix range: the last byte that can be bumped is, what follows it is dropped.
      There is none when every byte is already 0xFF. */
  function RangeEnd(prefix: Bytes): (end: Option<Bytes>)
    ensures end.None? <==> forall i :: 0 <= i < |prefix| ==> prefix[i] == 255
  {
    if prefix == [] then None
    else
      match RangeEnd(prefix[1..])
      case Some(rest) => Some([prefix[0]] + rest)
      case None => if prefix[0] < 255 then Some([prefix[0] + 1]) else None
  }

  /** The half-open range of a prefix contains exactly the extensions of that prefix. */
  lemma {:induction false} RangeIsExtensions(prefix: Bytes, k: Bytes)
    requires RangeEnd(prefix).Some?
    ensures InRange(k, prefix, RangeEnd(prefix).value) <==> Under(prefix, k)
  {
    var rest := prefix[1..];
    if k == [] {
    } else if k[0] == prefix[0] {
      assert prefix <= k <==> rest <= k[1..] by { ExtendsByHead(prefix, k); }
      if RangeEnd(rest).Some? {
        RangeIsExtensions(rest, k[1..]);
      } else {
        AllOnesIsTop(rest, k[1..]);
      }
    } else {
      var end := RangeEnd(prefix).value;
      assert end[0] == prefix[0] || (end[0] == prefix[0] + 1 && end[1..] == []);
      assert !Below(k[1..], []);
      ExtendsByHead(prefix, k);
    }
  }

  lemma ExtendsByHead(p: Bytes, k: Bytes)
    requires p != [] && k != []
    ensures p <= k <==> p[0] == k[0] && p[1..] <= k[1..]
  {
    if p[0] == k[0] && p[1..] <= k[1..] {
      assert p == [p[0]] + p[1..] && k == [k[0]] + k[1..];
    }
  }

  /** Below an all-0xFF prefix nothing but its extensions sorts at or above it. */
  lemma {:induction false} AllOnesIsTop(p: Bytes, k: Bytes)
    requires RangeEnd(p).None?
    ensures !Below(k, p) <==> p <= k
  {
    if p != [] && k != [] {
      assert p[0] == 255;
      ExtendsByHead(p, k);
      assert RangeEnd(p[1..]).None?;
      AllOnesIsTop(p[1..], k[1..]);
    }
  }

  /** Store prefixes start with a `DatabaseStorePrefixes` byte, which is never the separator, so the
      `unwrap` on the upper bound of a store or bucket range cannot fail. */
  lemma StorePrefixHasEnd(prefix: Bytes, bucket: Bytes)
    requires prefix != [] && prefix[0] != SEPARATOR
    ensures RangeEnd(prefix).Some? && RangeEnd(prefix + bucket).Some?
  {
    assert (prefix + bucket)[0] == prefix[0];
  }

  predicate Comparable(a: Bytes, b: Bytes) {
    a <= b || b <= a
  }

  /** Two prefixes share an extension exactly when one extends the other. */
  lemma ShareExtension(a: Bytes, b: Bytes)
    ensures Comparable(a, b) <==> exists k :: Under(a, k) && Under(b, k)
  {
    if a <= b {
      assert Under(a, b) && Under(b, b);
    } else if b <= a {
      assert Under(a, a) && Under(b, a);
    }
    forall k | Under(a, k) && Under(b, k)
      ensures Comparable(a, b)
    {
      if |a| <= |b| {
        assert a == k[..|a|] == b[..|a|];
      } else {
        assert b == k[..|b|] == a[..|b|];
      }
    }
  }

  /** Buckets of one width under one store prefix are comparable only when equal. */
  lemma FixedWidthBuckets(prefix: Bytes, b1: Bytes, b2: Bytes)
    requires |b1| == |b2|
    ensures Comparable(prefix + b1, prefix + b2) <==> b1 == b2
  {
    var x, y := prefix + b1, prefix + b2;
    assert b1 == x[|prefix|..] && b2 == y[|prefix|..];
    if Comparable(x, y) {
      assert x == y;
    }
  }

  /** A key under construction: `path` is what reaches the database, `prefixLen` is what iterators
      strip from the keys they return. */
  class DbKey {
    var path: Bytes
    var prefixLen: nat

    constructor (prefix: Bytes, key: Bytes)
      ensures path == prefix + key && prefixLen == |prefix|
    {
      path := prefix + key;
      prefixLen := |prefix|;
    }

    method AddBucket(bucket: Bytes)
      modifies this
      ensures path == old(path) + bucket
      ensures prefixLen == old(prefixLen) + |bucket|
    {
      path := path + bucket;
      prefixLen := prefixLen + |bucket|;
    }

    /** Counts the key into the prefix length as well. */
    method AddKey(key: Bytes)
      modifies this
      ensures path == old(path) + key
      ensures prefixLen == old(prefixLen) + |key|
    {
      path := path + key;
      prefixLen := prefixLen + |key|;
    }
  }

  /** The key scanned or range-deleted for a bucket carries an empty key part, and then what an
      iterator strips is exactly prefix and bucket. With a non-empty key part nothing would be left. */
  method NewWithBucket(prefix: Bytes, bucket: Bytes, key: Bytes) returns (k: DbKey)
    ensures fresh(k)
    ensures k.path == prefix + bucket + key && k.prefixLen == |k.path|
    ensures k.path[k.prefixLen..] == []
    ensures key == [] ==> forall suffix: Bytes :: (k.path + suffix)[k.prefixLen..] == suffix
  {
    k := new DbKey(prefix, []);
    k.AddBucket(bucket);
    k.AddKey(key);
  }

  lemma {:induction false} SubsetCount<T>(a: set<T>, b: set<T>)
    requires a <= b
    ensures |a| <= |b|
  {
    if a != {} {
      var x :| x in a;
      SubsetCount(a - {x}, b - {x});
    }
  }
}

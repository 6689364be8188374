/** The job encoders of `bridge/src/hasher.rs`: a 32-byte pre-PoW hash and a 64-bit timestamp as hex text, by
    two byte-order routes, and the legacy four-word form. */
module JobEncoding {
  import opened KeySpace
  import opened Hex

  const WORD: nat := 8
  const U64: nat := 0x1_0000_0000_0000_0000

  function Pow256(n: nat): (p: nat)
    ensures p >= 1
  {
    if n == 0 then 1 else 256 * Pow256(n - 1)
  }

  /** `from_be_bytes`. */
  function FromBe(bs: Bytes): nat {
    if bs == [] then 0 else 256 * FromBe(bs[..|bs| - 1]) + bs[|bs| - 1]
  }

  function Reverse(bs: Bytes): (r: Bytes)
    ensures |r| == |bs|
  {
    if bs == [] then [] else Reverse(bs[1..]) + [bs[0]]
  }

  /** `from_le_bytes`. */
  function FromLe(bs: Bytes): nat {
    if bs == [] then 0 else bs[0] + 256 * FromLe(bs[1..])
  }

  /** `to_le_bytes` and `to_be_bytes` of an `n`-byte number. */
  function ToLe(v: nat, n: nat): (bs: Bytes)
    ensures |bs| == n
  {
    if n == 0 then [] else [v % 256] + ToLe(v / 256, n - 1)
  }

  function ToBe(v: nat, n: nat): (bs: Bytes)
    ensures |bs| == n
  {
    if n == 0 then [] else ToBe(v / 256, n - 1) + [v % 256]
  }

  function Pair(b: nat): string
    requires b < 256
  {
    [Digit(b / 16), Digit(b % 16)]
  }

  /** `hex::encode`, and what printing a hash gives. */
  function Encode(bs: Bytes): (s: string)
    ensures |s| == 2 * |bs|
  {
    if bs == [] then ""
    else Encode(bs[..|bs| - 1]) + Pair(bs[|bs| - 1])
  }

  function Decode(s: string): Option<Bytes> {
    if s == "" then Some([])
    else if |s| == 1 then None
    else
      var hi, lo := DigitValue(s[|s| - 2]), DigitValue(s[|s| - 1]);
      match Decode(s[..|s| - 2])
      case None => None
      case Some(bs) => if hi.Some? && lo.Some? then Some(bs + [16 * hi.value + lo.value]) else None
  }

  lemma {:induction false} DecodeEncode(bs: Bytes)
    ensures Decode(Encode(bs)) == Some(bs)
  {
    if bs != [] {
      var front, last := EncodeSplit(bs);
      DecodeEncode(front);
      DecodeMore(Encode(front), last);
    }
  }

  lemma {:induction false} EncodeSplit(bs: Bytes) returns (front: Bytes, last: byte)
    requires bs != []
    ensures |front| == |bs| - 1 && bs == front + [last] && Encode(bs) == Encode(front) + Pair(last)
  {
    front, last := bs[..|bs| - 1], bs[|bs| - 1];
  }

  lemma {:induction false} DecodeMore(s: string, b: byte)
    ensures Decode(s + Pair(b)) == match Decode(s) case None => None case Some(bs) => Some(bs + [b])
  {
    DigitRoundTrip(b / 16);
    DigitRoundTrip(b % 16);
    assert (s + Pair(b))[..|s|] == s;
  }

  lemma {:induction false} EncodeMore(bs: Bytes, b: byte)
    ensures Encode(bs + [b]) == Encode(bs) + Pair(b)
  {
    assert (bs + [b])[..|bs|] == bs;
  }

  lemma {:induction false} EncodeConcat(a: Bytes, b: Bytes)
    ensures Encode(a + b) == Encode(a) + Encode(b)
  {
    if b == [] {
      assert a + b == a;
    } else {
      var n := |b| - 1;
      var front, last := b[..n], b[n];
      EncodeConcat(a, front);
      EncodeMore(a + front, last);
      EncodeMore(front, last);
      assert b == front + [last] && a + b == a + front + [last];
    }
  }

  /** Printing a big-endian number in hex is printing its bytes in hex. */
  lemma {:induction false} PaddedOfBytes(bs: Bytes)
    ensures Padded(FromBe(bs), 2 * |bs|) == Encode(bs)
  {
    if bs != [] {
      var n := |bs| - 1;
      PaddedOfBytes(bs[..n]);
      PaddedMore(FromBe(bs[..n]), bs[n], 2 * n);
    }
  }

  lemma {:induction false} PaddedMore(v: nat, b: byte, w: nat)
    ensures Padded(256 * v + b, w + 2) == Padded(v, w) + Pair(b)
  {
    var x := 256 * v + b;
    assert x / 16 == 16 * v + b / 16 && x % 16 == b % 16;
    assert x / 16 / 16 == v && x / 16 % 16 == b / 16;
    assert Padded(x, w + 2) == Padded(x / 16, w + 1) + [Digit(x % 16)];
    assert Padded(x / 16, w + 1) == Padded(v, w) + [Digit(b / 16)];
  }

  /** A number shifted right by `i` bytes. */
  function Shifted(v: nat, i: nat): nat {
    if i == 0 then v else Shifted(v / 256, i - 1)
  }

  /** Byte `i` of the little-endian form is the low byte after `i` shifts; big-endian has the bytes the other way. */
  lemma {:induction false} BytesAre(v: nat, n: nat, i: nat)
    requires i < n
    ensures ToLe(v, n)[i] == Shifted(v, i) % 256 && ToBe(v, n)[n - 1 - i] == Shifted(v, i) % 256
  {
    LeByteIs(v, n, i);
    BeByteIs(v, n, i);
  }

  lemma {:induction false} LeByteIs(v: nat, n: nat, i: nat)
    requires i < n
    ensures ToLe(v, n)[i] == Shifted(v, i) % 256
  {
    if i > 0 {
      LeByteIs(v / 256, n - 1, i - 1);
    }
  }

  lemma {:induction false} BeByteIs(v: nat, n: nat, i: nat)
    requires i < n
    ensures ToBe(v, n)[n - 1 - i] == Shifted(v, i) % 256
  {
    if i > 0 {
      BeByteIs(v / 256, n - 1, i - 1);
    }
  }

  lemma {:induction false} LeOfBe(v: nat, n: nat)
    ensures Reverse(ToBe(v, n)) == ToLe(v, n)
  {
    if n > 0 {
      LeOfBe(v / 256, n - 1);
      ReverseSnoc(ToBe(v / 256, n - 1), v % 256);
    }
  }

  lemma {:induction false} ReverseSnoc(bs: Bytes, b: byte)
    ensures Reverse(bs + [b]) == [b] + Reverse(bs)
  {
    if bs == [] {
      assert Reverse([b]) == [b] by { assert [b][1..] == []; }
    } else {
      ReverseSnoc(bs[1..], b);
      assert (bs + [b])[1..] == bs[1..] + [b];
    }
  }

  lemma {:induction false} FromLeIsReversed(bs: Bytes)
    ensures FromLe(bs) == FromBe(Reverse(bs))
  {
    if bs != [] {
      FromLeIsReversed(bs[1..]);
      assert Reverse(bs)[..|bs| - 1] == Reverse(bs[1..]);
    }
  }

  lemma {:induction false} ToLeFromLe(bs: Bytes)
    ensures FromLe(bs) < Pow256(|bs|) && ToLe(FromLe(bs), |bs|) == bs
  {
    if bs != [] {
      ToLeFromLe(bs[1..]);
      ToLeMore(bs[0], FromLe(bs[1..]), |bs| - 1);
      assert bs == [bs[0]] + bs[1..];
    }
  }

  lemma {:induction false} ToLeMore(b: byte, rest: nat, n: nat)
    ensures ToLe(b + 256 * rest, n + 1) == [b] + ToLe(rest, n)
  {
    assert (b + 256 * rest) % 256 == b && (b + 256 * rest) / 256 == rest;
  }

  lemma {:induction false} FromLeToLe(v: nat, n: nat)
    requires v < Pow256(n)
    ensures FromLe(ToLe(v, n)) == v
  {
    if n > 0 {
      FromLeToLe(v / 256, n - 1);
      assert ToLe(v, n)[1..] == ToLe(v / 256, n - 1);
    }
  }

  /** Swapping the timestamp's bytes and printing the number is printing its little-endian bytes. */
  lemma SwappedTimestamp(timestamp: nat)
    ensures Padded(FromLe(ToBe(timestamp, WORD)), 16) == Encode(ToLe(timestamp, WORD))
  {
    FromLeIsReversed(ToBe(timestamp, WORD));
    LeOfBe(timestamp, WORD);
    PaddedOfBytes(ToLe(timestamp, WORD));
  }

  // ---- the encoders ----

  function WordCount(len: nat): nat {
    if len / WORD < 4 then len / WORD else 4
  }

  /** IceRiver: the hash as printed, then the timestamp's little-endian bytes. */
  function IceRiverParams(hash: Bytes, timestamp: nat): string {
    Encode(hash) + Encode(ToLe(timestamp, WORD))
  }

  /** BzMiner: five numbers in hex. With fewer than four whole words in the header the fifth index is out of
      bounds and the function panics; `None` stands for that. */
  method LargeJobParams(header: Bytes, timestamp: nat) returns (params: Option<string>)
    ensures params.None? <==> |header| < 4 * WORD
    ensures |header| == 4 * WORD ==> params == Some(IceRiverParams(header, timestamp))
    ensures |header| > 4 * WORD ==> params == Some(IceRiverParams(header[..4 * WORD], timestamp))
  {
    var ids: seq<nat> := [];
    for i := 0 to 4
      invariant |ids| == if i <= WordCount(|header|) then i else WordCount(|header|)
      invariant forall j :: 0 <= j < |ids| ==> ids[j] == FromBe(header[WORD * j..WORD * j + WORD])
    {
      var offset := i * WORD;
      if offset + WORD <= |header| {
        ids := ids + [FromBe(header[offset..offset + WORD])];
      }
    }
    ids := ids + [FromLe(ToBe(timestamp, WORD))];
    if |ids| < 5 {
      return None;
    }
    FourWords(header, ids);
    SwappedTimestamp(timestamp);
    assert header[..4 * WORD] == header || |header| > 4 * WORD;
    return Some(Padded(ids[0], 16) + Padded(ids[1], 16) + Padded(ids[2], 16) + Padded(ids[3], 16) + Padded(ids[4], 16));
  }

  lemma FourWords(header: Bytes, ids: seq<nat>)
    requires |header| >= 4 * WORD && |ids| >= 4
    requires forall j :: 0 <= j < 4 ==> ids[j] == FromBe(header[WORD * j..WORD * j + WORD])
    ensures Padded(ids[0], 16) + Padded(ids[1], 16) + Padded(ids[2], 16) + Padded(ids[3], 16) == Encode(header[..4 * WORD])
  {
    FourParts(header);
    PaddedOfBytes(header[0..8]);
    PaddedOfBytes(header[8..16]);
    PaddedOfBytes(header[16..24]);
    PaddedOfBytes(header[24..32]);
    FourTexts(header[0..8], header[8..16], header[16..24], header[24..32]);
  }

  lemma FourTexts(a: Bytes, b: Bytes, c: Bytes, d: Bytes)
    ensures Encode(a + b + c + d) == Encode(a) + Encode(b) + Encode(c) + Encode(d)
  {
    EncodeConcat(a, b);
    EncodeConcat(a + b, c);
    EncodeConcat(a + b + c, d);
  }

  lemma FourParts(header: Bytes)
    requires |header| >= 4 * WORD
    ensures header[..4 * WORD] == header[0..8] + header[8..16] + header[16..24] + header[24..32]
  {
  }

  lemma WordBack(word: Bytes)
    requires |word| == WORD
    ensures FromLe(word) < U64 && ToLe(FromLe(word), WORD) == word
  {
    assert Pow256(8) == U64;
    ToLeFromLe(word);
  }

  lemma NumberBack(v: nat)
    requires v < U64
    ensures FromLe(ToLe(v, WORD)) == v
  {
    assert Pow256(8) == U64;
    FromLeToLe(v, WORD);
  }

  /** The text has 80 characters and gives back hash and timestamp. */
  lemma ParamsDecode(hash: Bytes, timestamp: nat)
    requires |hash| == 4 * WORD && timestamp < U64
    ensures var s := IceRiverParams(hash, timestamp);
            && |s| == 80 && Decode(s[..64]) == Some(hash)
            && exists tail :: Decode(s[64..]) == Some(tail) && FromLe(tail) == timestamp
  {
    var s, tail := IceRiverParams(hash, timestamp), ToLe(timestamp, WORD);
    assert s[..64] == Encode(hash) && s[64..] == Encode(tail);
    DecodeEncode(hash);
    DecodeEncode(tail);
    NumberBack(timestamp);
  }

  /** Two jobs with the same text are the same job. */
  lemma ParamsInjective(h1: Bytes, t1: nat, h2: Bytes, t2: nat)
    requires |h1| == 4 * WORD && |h2| == 4 * WORD && t1 < U64 && t2 < U64
    requires IceRiverParams(h1, t1) == IceRiverParams(h2, t2)
    ensures h1 == h2 && t1 == t2
  {
    ParamsDecode(h1, t1);
    ParamsDecode(h2, t2);
  }

  /** The number is the header's word at `j`, read little-endian. */
  ghost predicate IsWord(header: Bytes, j: nat, id: nat) {
    WORD * j + WORD <= |header| && id < U64 && ToLe(id, WORD) == header[WORD * j..WORD * j + WORD]
  }

  ghost predicate AreWords(header: Bytes, ids: seq<nat>) {
    forall j :: 0 <= j < |ids| ==> IsWord(header, j, ids[j])
  }

  lemma AnotherWord(header: Bytes, ids: seq<nat>)
    requires AreWords(header, ids) && WORD * |ids| + WORD <= |header|
    ensures AreWords(header, ids + [FromLe(header[WORD * |ids|..WORD * |ids| + WORD])])
  {
    WordBack(header[WORD * |ids|..WORD * |ids| + WORD]);
    assert IsWord(header, |ids|, FromLe(header[WORD * |ids|..WORD * |ids| + WORD]));
  }

  lemma WordsSpell(header: Bytes, ids: seq<nat>)
    requires AreWords(header, ids) && |ids| == 4 && |header| == 4 * WORD
    ensures ToLe(ids[0], WORD) + ToLe(ids[1], WORD) + ToLe(ids[2], WORD) + ToLe(ids[3], WORD) == header
  {
    FourParts(header);
    assert IsWord(header, 0, ids[0]) && IsWord(header, 1, ids[1]) && IsWord(header, 2, ids[2]) && IsWord(header, 3, ids[3]);
    assert header[..4 * WORD] == header;
  }

  /** Legacy form: the header's whole words read little-endian; four of them spell the hash. */
  method JobHeader(header: Bytes) returns (ids: seq<nat>)
    ensures |ids| == WordCount(|header|) && AreWords(header, ids)
    ensures |header| == 4 * WORD ==>
              ToLe(ids[0], WORD) + ToLe(ids[1], WORD) + ToLe(ids[2], WORD) + ToLe(ids[3], WORD) == header
  {
    ids := [];
    for i := 0 to 4
      invariant |ids| == if i <= WordCount(|header|) then i else WordCount(|header|)
      invariant AreWords(header, ids)
    {
      var offset := i * WORD;
      if offset + WORD <= |header| {
        AnotherWord(header, ids);
        ids := ids + [FromLe(header[offset..offset + WORD])];
      }
    }
    if |header| == 4 * WORD {
      WordsSpell(header, ids);
    }
  }
}

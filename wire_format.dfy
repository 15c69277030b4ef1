/** The primitive encodings that BinaryWriter and BinaryReader (the .NET
    runtime's binary stream adapters) apply to the fields of every message.

    - bool: one byte, written as 0 or 1; read back as "not zero".
    - Int32 / Int64: 4 / 8 bytes, little-endian two's complement.
    - string: its UTF-8 byte count as a 7-bit-encoded length prefix (unsigned
      LEB128, section 7.6 of the DWARF v5 standard, applied to an Int32),
      followed by exactly those bytes. The reader accepts at most five prefix
      bytes, of which the fifth may carry only four bits, and refuses a count
      whose Int32 reading is negative. */
module WireFormat {
  import opened Wrappers

  type byte = b: int | 0 <= b < 256

  const TwoTo31: int := 0x8000_0000
  const TwoTo32: int := 0x1_0000_0000
  const TwoTo63: int := 0x8000_0000_0000_0000
  const TwoTo64: int := 0x1_0000_0000_0000_0000

  type Int32 = x: int | -TwoTo31 <= x < TwoTo31
  type Int64 = x: int | -TwoTo63 <= x < TwoTo63

  /** The UTF-8 bytes of a .NET string; its byte count must fit an Int32. */
  type Utf8 = s: seq<byte> | |s| < TwoTo31

  /** Why a read stopped: the stream ended (EndOfStreamException), the length
      prefix was malformed (FormatException), or it read as a negative Int32
      (IOException). */
  datatype ReadError = EndOfStream | BadPrefix | NegativeLength

  /** What a decoder returns: the value and the bytes it did not consume. */
  type Decoded<T> = Result<(T, seq<byte>), ReadError>

  function Pow256(n: nat): (r: nat)
    ensures r >= 1
  {
    if n == 0 then 1 else 256 * Pow256(n - 1)
  }

  lemma Pow256Values()
    ensures Pow256(4) == TwoTo32
    ensures Pow256(8) == TwoTo64
  {
    assert Pow256(2) == 65536;
    assert Pow256(4) == 65536 * 65536;
  }

  // ---------------------------------------------------------------------------
  // Unsigned little-endian integers of a fixed width

  /** The `width` low-order bytes of `u`, least significant first. */
  function EncodeLE(u: nat, width: nat): (r: seq<byte>)
    ensures |r| == width
  {
    if width == 0 then [] else [u % 256] + EncodeLE(u / 256, width - 1)
  }

  /** The unsigned number whose little-endian bytes are `s`. */
  function DecodeLE(s: seq<byte>): (u: nat)
    ensures u < Pow256(|s|)
  {
    if s == [] then 0 else s[0] + 256 * DecodeLE(s[1..])
  }

  lemma {:induction false} DecodeEncodeLE(u: nat, width: nat)
    requires u < Pow256(width)
    ensures DecodeLE(EncodeLE(u, width)) == u
  {
    if width > 0 {
      var s := EncodeLE(u, width);
      assert s[1..] == EncodeLE(u / 256, width - 1);
      assert u / 256 < Pow256(width - 1);
      DecodeEncodeLE(u / 256, width - 1);
    }
  }

  // ---------------------------------------------------------------------------
  // bool

  function EncodeBool(b: bool): (r: seq<byte>)
    ensures |r| == 1 && (r[0] == 0 || r[0] == 1)
    ensures b <==> r[0] == 1
  {
    [if b then 1 else 0]
  }

  /** ReadBoolean: one byte, true unless it is zero. */
  function DecodeBool(s: seq<byte>): (r: Decoded<bool>)
    ensures r.Failure? <==> s == []
    ensures r.Failure? ==> r.error == EndOfStream
    ensures r.Success? ==> r.value == (s[0] != 0, s[1..])
  {
    if s == [] then Failure(EndOfStream) else Success((s[0] != 0, s[1..]))
  }

  lemma BoolRoundTrip(b: bool, rest: seq<byte>)
    ensures DecodeBool(EncodeBool(b) + rest) == Success((b, rest))
  {
    assert (EncodeBool(b) + rest)[1..] == rest;
  }

  // ---------------------------------------------------------------------------
  // Int32 and Int64, two's complement

  function EncodeInt32(x: Int32): (r: seq<byte>)
    ensures |r| == 4
  {
    EncodeLE(if x < 0 then x + TwoTo32 else x, 4)
  }

  /** ReadInt32: four bytes, little-endian, top bit is the sign. */
  function DecodeInt32(s: seq<byte>): (r: Decoded<Int32>)
    ensures r.Failure? <==> |s| < 4
    ensures r.Failure? ==> r.error == EndOfStream
    ensures r.Success? ==> r.value.1 == s[4..]
  {
    if |s| < 4 then Failure(EndOfStream)
    else
      var u := DecodeLE(s[..4]);
      Pow256Values();
      Success((if u >= TwoTo31 then u - TwoTo32 else u, s[4..]))
  }

  lemma Int32RoundTrip(x: Int32, rest: seq<byte>)
    ensures DecodeInt32(EncodeInt32(x) + rest) == Success((x, rest))
  {
    Pow256Values();
    var u := if x < 0 then x + TwoTo32 else x;
    DecodeEncodeLE(u, 4);
    var s := EncodeInt32(x) + rest;
    assert s[..4] == EncodeInt32(x);
    assert s[4..] == rest;
  }

  function EncodeInt64(x: Int64): (r: seq<byte>)
    ensures |r| == 8
  {
    EncodeLE(if x < 0 then x + TwoTo64 else x, 8)
  }

  /** ReadInt64: eight bytes, little-endian, top bit is the sign. */
  function DecodeInt64(s: seq<byte>): (r: Decoded<Int64>)
    ensures r.Failure? <==> |s| < 8
    ensures r.Failure? ==> r.error == EndOfStream
    ensures r.Success? ==> r.value.1 == s[8..]
  {
    if |s| < 8 then Failure(EndOfStream)
    else
      var u := DecodeLE(s[..8]);
      Pow256Values();
      Success((if u >= TwoTo63 then u - TwoTo64 else u, s[8..]))
  }

  lemma Int64RoundTrip(x: Int64, rest: seq<byte>)
    ensures DecodeInt64(EncodeInt64(x) + rest) == Success((x, rest))
  {
    Pow256Values();
    var u := if x < 0 then x + TwoTo64 else x;
    DecodeEncodeLE(u, 8);
    var s := EncodeInt64(x) + rest;
    assert s[..8] == EncodeInt64(x);
    assert s[8..] == rest;
  }

  // ---------------------------------------------------------------------------
  // The 7-bit-encoded length prefix

  /** Write7BitEncodedInt for a non-negative count: seven bits per byte, least
      significant group first, the high bit set on every byte but the last. */
  function EncodePrefix(n: nat): (r: seq<byte>)
    ensures |r| >= 1
    decreases n
  {
    if n < 128 then [n] else [n % 128 + 128] + EncodePrefix(n / 128)
  }

  /** The number of 7-bit groups a count needs: an independent reference for
      the length of its prefix. */
  function PrefixSize(n: nat): (k: nat)
  {
    if n < 0x80 then 1
    else if n < 0x4000 then 2
    else if n < 0x20_0000 then 3
    else if n < 0x1000_0000 then 4
    else 5
  }

  /** Read7BitEncodedInt from the byte at index `k` of the prefix on (k = 0 is
      the first byte): bytes 0 to 3 continue while their high bit is set, and
      byte 4 ends the prefix and must not exceed 15. The value is the unsigned
      reading of what remains, before the cast to Int32. */
  function DecodePrefixFrom(s: seq<byte>, k: nat): (r: Decoded<nat>)
    requires k <= 4
    ensures r.Success? ==> |r.value.1| < |s| && r.value.1 == s[|s| - |r.value.1|..]
    decreases 4 - k
  {
    if s == [] then Failure(EndOfStream)
    else if k == 4 then
      if s[0] > 15 then Failure(BadPrefix) else Success((s[0], s[1..]))
    else if s[0] < 128 then Success((s[0], s[1..]))
    else
      var tail :- DecodePrefixFrom(s[1..], k + 1);
      Success((s[0] - 128 + 128 * tail.0, tail.1))
  }

  function DecodePrefix(s: seq<byte>): (r: Decoded<nat>)
  {
    DecodePrefixFrom(s, 0)
  }

  /** Largest unsigned value the prefix bytes from index k on may carry while
      the whole count stays a non-negative Int32. */
  function PrefixBound(k: nat): (b: nat)
    requires k <= 4
    decreases 4 - k
  {
    if k == 4 then 8 else 128 * PrefixBound(k + 1)
  }

  lemma {:induction false} PrefixSizeFrom(n: nat, k: nat)
    requires k <= 4 && n < PrefixBound(k)
    ensures |EncodePrefix(n)| <= 5 - k
    decreases 4 - k
  {
    if n >= 128 {
      assert k < 4;
      PrefixSizeFrom(n / 128, k + 1);
    }
  }

  lemma {:induction false} DecodeEncodePrefixFrom(n: nat, k: nat, rest: seq<byte>)
    requires k <= 4 && n < PrefixBound(k)
    ensures DecodePrefixFrom(EncodePrefix(n) + rest, k) == Success((n, rest))
    decreases 4 - k
  {
    var s := EncodePrefix(n) + rest;
    if n < 128 {
      assert s[0] == n && s[1..] == rest;
    } else {
      assert k < 4;
      assert s[0] == n % 128 + 128;
      assert s[1..] == EncodePrefix(n / 128) + rest;
      DecodeEncodePrefixFrom(n / 128, k + 1, rest);
    }
  }

  /** A non-negative Int32 count round-trips through its prefix, and the
      prefix is between one and five bytes long. */
  lemma PrefixRoundTrip(n: nat, rest: seq<byte>)
    requires n < TwoTo31
    ensures DecodePrefix(EncodePrefix(n) + rest) == Success((n, rest))
    ensures 1 <= |EncodePrefix(n)| <= 5
  {
    assert PrefixBound(0) == TwoTo31;
    DecodeEncodePrefixFrom(n, 0, rest);
    PrefixSizeFrom(n, 0);
  }

  /** The prefix is exactly as long as the count has 7-bit groups. */
  lemma {:induction false} PrefixLength(n: nat)
    requires n < TwoTo31
    ensures |EncodePrefix(n)| == PrefixSize(n)
    decreases n
  {
    if n >= 128 {
      PrefixLength(n / 128);
    }
  }

  /** The reader also accepts prefixes the writer never produces, such as a
      zero padded to two bytes, so decoding is a left inverse of encoding
      only. */
  lemma PaddedPrefixAccepted()
    ensures DecodePrefix([0x80, 0x00]) == Success((0, []))
    ensures EncodePrefix(0) == [0x00]
  {
    var s: seq<byte> := [0x80, 0x00];
    assert s[1..] == [0x00];
    assert s[1..][1..] == [];
  }

  /** A fifth prefix byte above 15 is refused, and one from 8 to 15 gives a
      count that reads as a negative Int32. */
  lemma OverlongPrefixRefused()
    ensures DecodePrefix([0x80, 0x80, 0x80, 0x80, 0x10]).Failure?
    ensures DecodePrefix([0x80, 0x80, 0x80, 0x80, 0x10]).error == BadPrefix
    ensures DecodeString([0xFF, 0xFF, 0xFF, 0xFF, 0x0F]).Failure?
    ensures DecodeString([0xFF, 0xFF, 0xFF, 0xFF, 0x0F]).error == NegativeLength
  {
    var s: seq<byte> := [0x80, 0x80, 0x80, 0x80, 0x10];
    assert s[1..][1..][1..][1..] == [0x10];
    var t: seq<byte> := [0xFF, 0xFF, 0xFF, 0xFF, 0x0F];
    assert t[1..][1..][1..][1..] == [0x0F];
    assert t[1..][1..][1..][1..][1..] == [];
  }

  // ---------------------------------------------------------------------------
  // Strings

  function EncodeString(s: Utf8): (r: seq<byte>)
  {
    EncodePrefix(|s|) + s
  }

  /** ReadString: the prefix, then exactly that many bytes. */
  function DecodeString(s: seq<byte>): (r: Decoded<Utf8>)
    ensures r.Success? ==> |r.value.1| < |s| && r.value.1 == s[|s| - |r.value.1|..]
  {
    var prefix :- DecodePrefix(s);
    var n := prefix.0;
    var tail := prefix.1;
    if n >= TwoTo31 then Failure(NegativeLength)
    else if |tail| < n then Failure(EndOfStream)
    else Success((tail[..n], tail[n..]))
  }

  /** A string is written as its byte count's prefix followed by exactly its
      bytes; the empty string is the single byte 0x00. */
  lemma StringLayout(s: Utf8)
    ensures EncodeString(s) == EncodePrefix(|s|) + s
    ensures |EncodeString(s)| == PrefixSize(|s|) + |s|
    ensures 1 <= |EncodePrefix(|s|)| <= 5
    ensures s == [] ==> EncodeString(s) == [0x00]
  {
    PrefixLength(|s|);
    PrefixRoundTrip(|s|, []);
  }

  lemma StringRoundTrip(s: Utf8, rest: seq<byte>)
    ensures DecodeString(EncodeString(s) + rest) == Success((s, rest))
  {
    var e := EncodeString(s) + rest;
    assert e == EncodePrefix(|s|) + (s + rest);
    PrefixRoundTrip(|s|, s + rest);
    assert (s + rest)[..|s|] == s;
    assert (s + rest)[|s|..] == rest;
  }
}

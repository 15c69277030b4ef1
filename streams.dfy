/** A byte stream with a BinaryWriter on its end and a BinaryReader on a
    cursor. Every stream the messages meet behaves like this: the fresh
    MemoryStream behind SerializeAsArray, the MemoryStream over an array behind
    DeserializeFromArray, and a connection's NetworkStream. Writers and readers
    are opened with leaveOpen, so one stream carries several messages in turn. */
module Streams {
  import opened Wrappers
  import opened WireFormat

  class ByteStream {
    var buffer: seq<byte>
    var position: nat

    ghost predicate Valid()
      reads this
    {
      position <= |buffer|
    }

    /** The bytes a reader has not consumed yet. */
    ghost function Unread(): seq<byte>
      reads this
      requires Valid()
    {
      buffer[position..]
    }

    /** An empty stream (new MemoryStream()). */
    constructor ()
      ensures Valid() && buffer == [] && position == 0
    {
      buffer := [];
      position := 0;
    }

    /** A stream over existing bytes, read from the start (new MemoryStream(bytes)). */
    constructor FromArray(bytes: seq<byte>)
      ensures Valid() && buffer == bytes && position == 0 && Unread() == bytes
    {
      buffer := bytes;
      position := 0;
    }

    // -------------------------------------------------------------------------
    // Writing: every write appends and leaves the read cursor where it was

    method WriteByte(b: byte)
      requires Valid()
      modifies this
      ensures Valid() && buffer == old(buffer) + [b] && position == old(position)
    {
      buffer := buffer + [b];
    }

    method WriteBytes(s: seq<byte>)
      requires Valid()
      modifies this
      ensures Valid() && buffer == old(buffer) + s && position == old(position)
    {
      buffer := buffer + s;
    }

    /** Write7BitEncodedInt: emit the low seven bits with the high bit set
        while the value exceeds 0x7F, shifting right by seven each time. */
    method Write7BitEncodedInt(n: nat)
      requires Valid() && n < TwoTo31
      modifies this
      ensures Valid() && buffer == old(buffer) + EncodePrefix(n) && position == old(position)
    {
      var v := n;
      while v > 0x7F
        invariant Valid() && position == old(position)
        invariant buffer + EncodePrefix(v) == old(buffer) + EncodePrefix(n)
        decreases v
      {
        WriteByte(v % 128 + 128);
        v := v / 128;
      }
      WriteByte(v);
    }

    method WriteString(s: Utf8)
      requires Valid()
      modifies this
      ensures Valid() && buffer == old(buffer) + EncodeString(s) && position == old(position)
    {
      Write7BitEncodedInt(|s|);
      WriteBytes(s);
    }

    method WriteBool(b: bool)
      requires Valid()
      modifies this
      ensures Valid() && buffer == old(buffer) + EncodeBool(b) && position == old(position)
    {
      WriteByte(if b then 1 else 0);
    }

    method WriteInt32(x: Int32)
      requires Valid()
      modifies this
      ensures Valid() && buffer == old(buffer) + EncodeInt32(x) && position == old(position)
    {
      WriteBytes(EncodeInt32(x));
    }

    method WriteInt64(x: Int64)
      requires Valid()
      modifies this
      ensures Valid() && buffer == old(buffer) + EncodeInt64(x) && position == old(position)
    {
      WriteBytes(EncodeInt64(x));
    }

    // -------------------------------------------------------------------------
    // Reading: on success the cursor moves past exactly what was decoded

    method ReadByte() returns (r: Result<byte, ReadError>)
      requires Valid()
      modifies this
      ensures Valid() && buffer == old(buffer)
      ensures r.Failure? <==> old(Unread()) == []
      ensures r.Failure? ==> r.error == EndOfStream && position == old(position)
      ensures r.Success? ==> r.value == old(Unread())[0] && Unread() == old(Unread())[1..]
    {
      if position == |buffer| {
        return Failure(EndOfStream);
      }
      r := Success(buffer[position]);
      position := position + 1;
    }

    method ReadBytes(n: nat) returns (r: Result<seq<byte>, ReadError>)
      requires Valid()
      modifies this
      ensures Valid() && buffer == old(buffer)
      ensures r.Failure? <==> |old(Unread())| < n
      ensures r.Failure? ==> r.error == EndOfStream
      ensures r.Success? ==> r.value == old(Unread())[..n] && Unread() == old(Unread())[n..]
    {
      if |buffer| - position < n {
        position := |buffer|;
        return Failure(EndOfStream);
      }
      r := Success(buffer[position..position + n]);
      position := position + n;
    }

    /** Read7BitEncodedInt: up to four bytes that continue while their high
        bit is set, then a fifth that must not exceed 15. Returns the unsigned
        value; the caller applies the Int32 reading. */
    method Read7BitEncodedInt() returns (r: Result<nat, ReadError>)
      requires Valid()
      modifies this
      ensures Valid() && buffer == old(buffer)
      ensures Agrees(DecodePrefix(old(Unread())), r, Unread())
    {
      ghost var start := Unread();
      var result: nat := 0;
      var scale: nat := 1;
      var k: nat := 0;
      while k < 4
        invariant Valid() && buffer == old(buffer) && k <= 4
        invariant DecodePrefix(start) == Lift(DecodePrefixFrom(Unread(), k), result, scale)
      {
        ghost var here := Unread();
        var b := ReadByte();
        if b.Failure? {
          LiftEnd(here, k, result, scale);
          return Failure(b.error);
        }
        var group := Scaled(scale, b.value % 128);
        LiftStep(here, k, result, scale, group);
        if b.value < 128 {
          return Success(result + group);
        }
        result := result + group;
        scale := Scaled(scale, 128);
        k := k + 1;
      }
      ghost var here := Unread();
      var last := ReadByte();
      if last.Failure? {
        LiftEnd(here, 4, result, scale);
        return Failure(last.error);
      }
      var group := Scaled(scale, last.value);
      LiftLast(here, result, scale, group);
      if last.value > 15 {
        return Failure(BadPrefix);
      }
      r := Success(result + group);
    }

    method ReadString() returns (r: Result<Utf8, ReadError>)
      requires Valid()
      modifies this
      ensures Valid() && buffer == old(buffer)
      ensures Agrees(DecodeString(old(Unread())), r, Unread())
    {
      var n :- Read7BitEncodedInt();
      if n >= TwoTo31 {
        return Failure(NegativeLength);
      }
      var bytes :- ReadBytes(n);
      r := Success(bytes);
    }

    method ReadBoolean() returns (r: Result<bool, ReadError>)
      requires Valid()
      modifies this
      ensures Valid() && buffer == old(buffer)
      ensures Agrees(DecodeBool(old(Unread())), r, Unread())
    {
      var b :- ReadByte();
      r := Success(b != 0);
    }

    method ReadInt32() returns (r: Result<Int32, ReadError>)
      requires Valid()
      modifies this
      ensures Valid() && buffer == old(buffer)
      ensures Agrees(DecodeInt32(old(Unread())), r, Unread())
    {
      var bytes :- ReadBytes(4);
      Pow256Values();
      var u := DecodeLE(bytes);
      r := Success(if u >= TwoTo31 then u - TwoTo32 else u);
    }

    method ReadInt64() returns (r: Result<Int64, ReadError>)
      requires Valid()
      modifies this
      ensures Valid() && buffer == old(buffer)
      ensures Agrees(DecodeInt64(old(Unread())), r, Unread())
    {
      var bytes :- ReadBytes(8);
      Pow256Values();
      var u := DecodeLE(bytes);
      r := Success(if u >= TwoTo63 then u - TwoTo64 else u);
    }
  }

  /** The product of two naturals. */
  function Scaled(scale: nat, v: nat): (r: nat)
  {
    scale * v
  }

  /** The stream ended before the prefix did. */
  lemma LiftEnd(s: seq<byte>, k: nat, low: nat, scale: nat)
    requires k <= 4 && s == []
    ensures Lift(DecodePrefixFrom(s, k), low, scale) == Failure(EndOfStream)
  {
  }

  /** One of the first four prefix bytes read: the value of the whole prefix,
      lifted over the groups read so far, in terms of the bytes after it. */
  lemma LiftStep(s: seq<byte>, k: nat, low: nat, scale: nat, group: nat)
    requires k < 4 && s != [] && group == Scaled(scale, s[0] % 128)
    ensures s[0] < 128 ==> Lift(DecodePrefixFrom(s, k), low, scale) == Success((low + group, s[1..]))
    ensures s[0] >= 128 ==>
      Lift(DecodePrefixFrom(s, k), low, scale) == Lift(DecodePrefixFrom(s[1..], k + 1), low + group, Scaled(scale, 128))
  {
    if s[0] >= 128 {
      assert s[0] % 128 == s[0] - 128;
      var tail := DecodePrefixFrom(s[1..], k + 1);
      if tail.Success? {
        var v := tail.value.0;
        assert DecodePrefixFrom(s, k) == Success((s[0] - 128 + 128 * v, tail.value.1));
        Distribute(scale, s[0] - 128, v);
      }
    }
  }

  lemma Distribute(scale: nat, a: nat, v: nat)
    ensures scale * (a + 128 * v) == Scaled(scale, a) + Scaled(scale, 128) * v
  {
    calc {
      scale * (a + 128 * v);
      scale * a + scale * (128 * v);
      { assert scale * (128 * v) == (scale * 128) * v; }
      scale * a + (scale * 128) * v;
    }
  }

  /** The fifth prefix byte read. */
  lemma LiftLast(s: seq<byte>, low: nat, scale: nat, group: nat)
    requires s != [] && group == Scaled(scale, s[0])
    ensures Lift(DecodePrefixFrom(s, 4), low, scale)
      == if s[0] > 15 then Failure(BadPrefix) else Success((low + group, s[1..]))
  {
  }

  /** A reader's outcome agrees with a decoder's: the same value with the
      cursor left just before the undecoded bytes, or the same error. */
  ghost predicate Agrees<T>(d: Decoded<T>, r: Result<T, ReadError>, unread: seq<byte>)
  {
    match d
    case Success(v) => r == Success(v.0) && unread == v.1
    case Failure(e) => r == Failure(e)
  }

  /** A decoded tail placed above `low`, scaled by `scale`: the value the
      whole prefix has once the groups read so far are known. */
  ghost function Lift(r: Decoded<nat>, low: nat, scale: nat): Decoded<nat>
  {
    match r
    case Success(v) => Success((low + scale * v.0, v.1))
    case Failure(e) => Failure(e)
  }
}

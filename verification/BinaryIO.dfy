/** `BinaryWriter` and `BinaryReader` over byte sequences, as far as the pipe protocol uses them. */
module BinaryIO {
  import opened Wrappers

  type byte = x: int | 0 <= x < 256
  type Bytes = seq<byte>
  type int32 = x: int | -0x8000_0000 <= x < 0x8000_0000
  type uint32 = x: int | 0 <= x < 0x1_0000_0000
  type int64 = x: int | -0x8000_0000_0000_0000 <= x < 0x8000_0000_0000_0000

  /** What a .NET array or string can hold. */
  type NetBytes = b: Bytes | |b| < 0x8000_0000

  datatype ReadError = EndOfStream | BadFormat | NegativeLength

  // ---- Fixed-width integers -----------------------------------------------------------------

  function LittleEndian(v: nat, width: nat): (r: Bytes)
    ensures |r| == width
  {
    if width == 0 then [] else [v % 256] + LittleEndian(v / 256, width - 1)
  }

  function FromLittleEndian(b: Bytes): nat {
    if |b| == 0 then 0 else b[0] + 256 * FromLittleEndian(b[1..])
  }

  function Limit(width: nat): nat {
    if width == 0 then 1 else 256 * Limit(width - 1)
  }

  lemma {:induction false} LittleEndianRoundTrip(v: nat, width: nat)
    requires v < Limit(width)
    ensures FromLittleEndian(LittleEndian(v, width)) == v
  {
    if width > 0 {
      LittleEndianRoundTrip(v / 256, width - 1);
      assert LittleEndian(v, width)[1..] == LittleEndian(v / 256, width - 1);
    }
  }

  lemma {:induction false} FromLittleEndianBound(b: Bytes)
    ensures FromLittleEndian(b) < Limit(|b|)
  {
    if |b| > 0 {
      FromLittleEndianBound(b[1..]);
    }
  }

  lemma {:induction false} Limits()
    ensures Limit(4) == 0x1_0000_0000
    ensures Limit(8) == 0x1_0000_0000_0000_0000
  {
    assert Limit(2) == 65536;
    assert Limit(4) == 256 * (256 * Limit(2));
    assert Limit(6) == 256 * (256 * Limit(4));
    assert Limit(8) == 256 * (256 * Limit(6));
  }

  /** Two's complement. */
  function Int32Bytes(v: int32): (r: Bytes)
    ensures |r| == 4
  {
    LittleEndian(if v < 0 then v + 0x1_0000_0000 else v, 4)
  }

  function UInt32Bytes(v: uint32): (r: Bytes)
    ensures |r| == 4
  {
    LittleEndian(v, 4)
  }

  function Int64Bytes(v: int64): (r: Bytes)
    ensures |r| == 8
  {
    LittleEndian(if v < 0 then v + 0x1_0000_0000_0000_0000 else v, 8)
  }

  function ToUInt32(b: Bytes): uint32
    requires |b| == 4
  {
    FromLittleEndianBound(b);
    Limits();
    FromLittleEndian(b)
  }

  function ToInt32(b: Bytes): int32
    requires |b| == 4
  {
    var u := ToUInt32(b);
    if u >= 0x8000_0000 then u - 0x1_0000_0000 else u
  }

  function ToInt64(b: Bytes): int64
    requires |b| == 8
  {
    FromLittleEndianBound(b);
    Limits();
    var u := FromLittleEndian(b);
    if u >= 0x8000_0000_0000_0000 then u - 0x1_0000_0000_0000_0000 else u
  }

  lemma {:induction false} FixedRoundTrips(i: int32, u: uint32, l: int64)
    ensures ToInt32(Int32Bytes(i)) == i
    ensures ToUInt32(UInt32Bytes(u)) == u
    ensures ToInt64(Int64Bytes(l)) == l
  {
    Limits();
    LittleEndianRoundTrip(if i < 0 then i + 0x1_0000_0000 else i, 4);
    LittleEndianRoundTrip(u, 4);
    LittleEndianRoundTrip(if l < 0 then l + 0x1_0000_0000_0000_0000 else l, 8);
  }

  // ---- 7-bit encoded lengths ----------------------------------------------------------------

  /** `Write7BitEncodedInt`: seven bits a byte, least significant first, high bit set to go on. */
  function SevenBit(v: nat): Bytes {
    if v < 128 then [v] else [v % 128 + 128] + SevenBit(v / 128)
  }

  /** `Read7BitEncodedInt` after `k` bytes: the fifth byte may only carry four bits. */
  function TakeSevenBit(b: Bytes, k: nat): Result<(nat, Bytes), ReadError>
    requires k <= 4
    decreases |b|
  {
    if |b| == 0 then Err(EndOfStream)
    else if k == 4 then if b[0] > 15 then Err(BadFormat) else Ok((b[0], b[1..]))
    else if b[0] < 128 then Ok((b[0], b[1..]))
    else
      match TakeSevenBit(b[1..], k + 1)
      case Ok((high, rest)) => Ok((b[0] - 128 + 128 * high, rest))
      case Err(e) => Err(e)
  }

  function SevenBitLimit(k: nat): nat
    requires k <= 4
  {
    [0x1_0000_0000, 0x200_0000, 0x4_0000, 0x800, 0x10][k]
  }

  lemma {:induction false} SevenBitRoundTrip(v: nat, k: nat, rest: Bytes)
    requires k <= 4 && v < SevenBitLimit(k)
    ensures TakeSevenBit(SevenBit(v) + rest, k) == Ok((v, rest))
    decreases v
  {
    var b := SevenBit(v) + rest;
    if v < 128 {
      assert b[1..] == rest;
    } else {
      SevenBitRoundTrip(v / 128, k + 1, rest);
      assert b[1..] == SevenBit(v / 128) + rest;
    }
  }

  /** The value of a run of 7-bit groups, least significant first. */
  function SevenBitValue(b: Bytes): nat {
    if |b| == 0 then 0 else b[0] % 128 + 128 * SevenBitValue(b[1..])
  }

  /** The prefix is the shortest one: only its last byte has the high bit clear, that byte is not a
      padding zero, and the groups spell the value. */
  lemma {:induction false} SevenBitCanonical(v: nat)
    ensures var b := SevenBit(v);
      && |b| > 0 && b[|b| - 1] < 128
      && (forall i :: 0 <= i < |b| - 1 ==> b[i] >= 128)
      && (|b| > 1 ==> b[|b| - 1] > 0)
      && SevenBitValue(b) == v
  {
    if v >= 128 {
      SevenBitCanonical(v / 128);
      assert SevenBit(v)[1..] == SevenBit(v / 128);
    } else {
      assert SevenBit(v)[1..] == [];
    }
  }

  /** Byte order, and the unsigned LEB128 examples of section 7.6 of the DWARF 5 standard. */
  lemma {:induction false} KnownEncodings()
    ensures Int32Bytes(0x01020304) == [4, 3, 2, 1] && Int32Bytes(-2) == [254, 255, 255, 255]
    ensures SevenBit(2) == [2] && SevenBit(127) == [127] && SevenBit(128) == [0 + 0x80, 1]
    ensures SevenBit(129) == [1 + 0x80, 1] && SevenBit(12857) == [57 + 0x80, 100]
  {
    assert LittleEndian(0x01020304, 4) == [4] + ([3] + LittleEndian(0x0102, 2));
    assert LittleEndian(0x0102, 2) == [2] + ([1] + LittleEndian(0, 0));
    assert LittleEndian(0xFFFFFFFE, 4) == [254] + ([255] + LittleEndian(0xFFFF, 2));
    assert LittleEndian(0xFFFF, 2) == [255] + ([255] + LittleEndian(0, 0));
  }

  // ---- Strings and byte runs ----------------------------------------------------------------

  function StringBytes(s: NetBytes): Bytes {
    SevenBit(|s|) + s
  }

  function Take(b: Bytes, n: nat): Result<(Bytes, Bytes), ReadError> {
    if |b| < n then Err(EndOfStream) else Ok((b[..n], b[n..]))
  }

  /** `ReadBytes`: at the end of the stream it returns fewer bytes instead of failing. */
  function TakeUpTo(b: Bytes, n: int): Result<(Bytes, Bytes), ReadError> {
    if n < 0 then Err(NegativeLength)
    else if |b| < n then Ok((b, []))
    else Ok((b[..n], b[n..]))
  }

  /** `ReadString`: the length is an `int`, so a prefix of 2^31 or more is a negative length. */
  function TakeString(b: Bytes): Result<(Bytes, Bytes), ReadError> {
    match TakeSevenBit(b, 0)
    case Err(e) => Err(e)
    case Ok((n, rest)) => if n >= 0x8000_0000 then Err(NegativeLength) else Take(rest, n)
  }

  lemma {:induction false} StringRoundTrip(s: NetBytes, rest: Bytes)
    ensures TakeString(StringBytes(s) + rest) == Ok((s, rest))
  {
    SevenBitRoundTrip(|s|, 0, s + rest);
    assert StringBytes(s) + rest == SevenBit(|s|) + (s + rest);
  }

  function TakeInt32(b: Bytes): Result<(int32, Bytes), ReadError> {
    if |b| < 4 then Err(EndOfStream) else Ok((ToInt32(b[..4]), b[4..]))
  }

  function TakeUInt32(b: Bytes): Result<(uint32, Bytes), ReadError> {
    if |b| < 4 then Err(EndOfStream) else Ok((ToUInt32(b[..4]), b[4..]))
  }

  function TakeInt64(b: Bytes): Result<(int64, Bytes), ReadError> {
    if |b| < 8 then Err(EndOfStream) else Ok((ToInt64(b[..8]), b[8..]))
  }

  lemma {:induction false} FixedTakes(i: int32, u: uint32, l: int64, rest: Bytes)
    ensures TakeInt32(Int32Bytes(i) + rest) == Ok((i, rest))
    ensures TakeUInt32(UInt32Bytes(u) + rest) == Ok((u, rest))
    ensures TakeInt64(Int64Bytes(l) + rest) == Ok((l, rest))
  {
    FixedRoundTrips(i, u, l);
    assert (Int32Bytes(i) + rest)[..4] == Int32Bytes(i);
    assert (UInt32Bytes(u) + rest)[..4] == UInt32Bytes(u);
    assert (Int64Bytes(l) + rest)[..8] == Int64Bytes(l);
  }

  // ---- The two classes ----------------------------------------------------------------------

  class BinaryWriter {
    var stream: Bytes

    constructor ()
      ensures stream == []
    {
      stream := [];
    }

    method WriteInt32(v: int32)
      modifies this
      ensures stream == old(stream) + Int32Bytes(v)
    {
      stream := stream + Int32Bytes(v);
    }

    method WriteUInt32(v: uint32)
      modifies this
      ensures stream == old(stream) + UInt32Bytes(v)
    {
      stream := stream + UInt32Bytes(v);
    }

    method WriteInt64(v: int64)
      modifies this
      ensures stream == old(stream) + Int64Bytes(v)
    {
      stream := stream + Int64Bytes(v);
    }

    method WriteBytes(b: Bytes)
      modifies this
      ensures stream == old(stream) + b
    {
      stream := stream + b;
    }

    /** The length prefix byte by byte, then the contents. */
    method WriteString(s: NetBytes)
      modifies this
      ensures stream == old(stream) + StringBytes(s)
    {
      var v: nat := |s|;
      while v > 127
        invariant stream + SevenBit(v) == old(stream) + SevenBit(|s|)
        decreases v
      {
        stream := stream + [v % 128 + 128];
        v := v / 128;
      }
      stream := stream + [v] + s;
    }
  }

  class BinaryReader {
    const data: Bytes
    var position: nat

    ghost predicate Valid()
      reads this
    {
      position <= |data|
    }

    function Remaining(): Bytes
      reads this
      requires Valid()
    {
      data[position..]
    }

    constructor (data: Bytes)
      ensures Valid() && Remaining() == data && this.data == data
    {
      this.data := data;
      position := 0;
    }

    /** A read that succeeded moved past its bytes; a failed one reports why. */
    ghost predicate Follows<T>(expected: Result<(T, Bytes), ReadError>, r: Result<T, ReadError>)
      reads this
      requires Valid()
    {
      match expected
      case Ok((v, rest)) => r == Ok(v) && Remaining() == rest
      case Err(e) => r == Err(e)
    }

    method ReadInt32() returns (r: Result<int32, ReadError>)
      requires Valid()
      modifies this`position
      ensures Valid() && Follows(TakeInt32(old(Remaining())), r)
    {
      if |data| - position < 4 {
        return Err(EndOfStream);
      }
      r := Ok(ToInt32(data[position..][..4]));
      position := position + 4;
    }

    method ReadUInt32() returns (r: Result<uint32, ReadError>)
      requires Valid()
      modifies this`position
      ensures Valid() && Follows(TakeUInt32(old(Remaining())), r)
    {
      if |data| - position < 4 {
        return Err(EndOfStream);
      }
      r := Ok(ToUInt32(data[position..][..4]));
      position := position + 4;
    }

    method ReadInt64() returns (r: Result<int64, ReadError>)
      requires Valid()
      modifies this`position
      ensures Valid() && Follows(TakeInt64(old(Remaining())), r)
    {
      if |data| - position < 8 {
        return Err(EndOfStream);
      }
      r := Ok(ToInt64(data[position..][..8]));
      position := position + 8;
    }

    method ReadBytes(count: int) returns (r: Result<Bytes, ReadError>)
      requires Valid()
      modifies this`position
      ensures Valid() && Follows(TakeUpTo(old(Remaining()), count), r)
    {
      if count < 0 {
        return Err(NegativeLength);
      }
      var n := if |data| - position < count then |data| - position else count;
      assert data[position..][..|data| - position] == data[position..] && data[|data|..] == [];
      r := Ok(data[position..][..n]);
      position := position + n;
    }

    method ReadString() returns (r: Result<Bytes, ReadError>)
      requires Valid()
      modifies this`position
      ensures Valid() && Follows(TakeString(old(Remaining())), r)
    {
      match TakeSevenBit(data[position..], 0) {
        case Err(e) => return Err(e);
        case Ok((n, rest)) =>
          TakeSevenBitShrinks(data[position..], 0);
          if n >= 0x8000_0000 {
            return Err(NegativeLength);
          }
          position := |data| - |rest|;
          if |data| - position < n {
            return Err(EndOfStream);
          }
          r := Ok(data[position..][..n]);
          position := position + n;
      }
    }
  }

  lemma {:induction false} TakeSevenBitShrinks(b: Bytes, k: nat)
    requires k <= 4
    ensures var t := TakeSevenBit(b, k); t.Ok? ==> |t.value.1| <= |b| && t.value.1 == b[|b| - |t.value.1|..]
    decreases 4 - k
  {
    if |b| > 0 && k < 4 && b[0] >= 128 {
      TakeSevenBitShrinks(b[1..], k + 1);
    }
  }

  // ---- What is not a length -----------------------------------------------------------------

  /** The first `n` bytes all announce another one. */
  predicate AllGoOn(b: Bytes, n: nat)
    requires n <= |b|
  {
    forall i :: 0 <= i < n ==> b[i] >= 128
  }

  /** Exactly when a length prefix cannot be read: the stream ends while every byte announces another, or
      the fifth byte carries more than four bits; a length that is read has 32 bits. */
  lemma {:induction false} SevenBitFails(b: Bytes, k: nat)
    requires k <= 4
    ensures var r := TakeSevenBit(b, k);
      && (r == Err(EndOfStream) <==> |b| <= 4 - k && AllGoOn(b, |b|))
      && (r == Err(BadFormat) <==> |b| > 4 - k && AllGoOn(b, 4 - k) && b[4 - k] > 15)
      && r != Err(NegativeLength)
      && (r.Ok? ==> r.value.0 < SevenBitLimit(k))
    decreases 4 - k
  {
    if |b| > 0 && k < 4 && b[0] >= 128 {
      var rest := b[1..];
      SevenBitFails(rest, k + 1);
      assert forall i :: 0 <= i < |rest| ==> rest[i] == b[i + 1];
      assert forall i :: 0 < i < |b| ==> b[i] == rest[i - 1];
    }
  }

  /** A string whose length has the 32nd bit is negative to the reader, and one that is longer than what
      is left is cut. */
  lemma {:induction false} StringFails(v: nat, rest: Bytes)
    requires v < 0x1_0000_0000
    ensures var r := TakeString(SevenBit(v) + rest);
      && (r == Err(NegativeLength) <==> v >= 0x8000_0000)
      && (r == Err(EndOfStream) <==> |rest| < v < 0x8000_0000)
  {
    SevenBitRoundTrip(v, 0, rest);
  }
}

/** The compact binary conventions of .NET's `BinaryWriter` as extended by the
    osu! legacy `SerializationWriter`: little-endian integers, a 7-bit encoded
    length before UTF-8 text, a 0x0b marker before every string, and an int32
    length before a byte array. A reader for the same conventions is given
    beside each writer, with the round trip proved. */
module Binary {
  import opened Wrappers
  import opened Numbers
  import Utf8

  /** The marker `SerializationWriter.Write(string)` puts before a non-null string. */
  const STRING_MARKER: byte := 0x0b

  function Pow256(w: nat): (p: int)
    ensures p >= 1
  {
    if w == 0 then 1 else 0x100 * Pow256(w - 1)
  }

  /** `n` as `width` little-endian bytes. */
  function LittleEndian(n: nat, width: nat): (bs: seq<byte>)
    requires n < Pow256(width)
    ensures |bs| == width
  {
    if width == 0 then [] else [n % 0x100] + LittleEndian(n / 0x100, width - 1)
  }

  function FromLittleEndian(bs: seq<byte>): nat {
    if bs == [] then 0 else bs[0] + 0x100 * FromLittleEndian(bs[1..])
  }

  lemma {:induction false} LittleEndianRoundTrip(n: nat, width: nat)
    requires n < Pow256(width)
    ensures FromLittleEndian(LittleEndian(n, width)) == n
  {
    if width > 0 {
      var q := n / 0x100;
      assert n == q * 0x100 + n % 0x100;
      assert 0x100 * q <= n;
      LittleEndianRoundTrip(q, width - 1);
      assert LittleEndian(n, width)[1..] == LittleEndian(q, width - 1);
    }
  }

  /** Two's complement of a signed value in `width` bytes. */
  function Signed(n: int, width: nat): (bs: seq<byte>)
    requires width >= 1
    requires -Pow256(width) / 2 <= n < Pow256(width) / 2
    ensures |bs| == width
  {
    LittleEndian(if n < 0 then n + Pow256(width) else n, width)
  }

  function FromSigned(bs: seq<byte>): int {
    var u := FromLittleEndian(bs);
    if |bs| >= 1 && u >= Pow256(|bs|) / 2 then u - Pow256(|bs|) else u
  }

  lemma SignedRoundTrip(n: int, width: nat)
    requires width >= 1
    requires -Pow256(width) / 2 <= n < Pow256(width) / 2
    ensures FromSigned(Signed(n, width)) == n
  {
    LittleEndianRoundTrip(if n < 0 then n + Pow256(width) else n, width);
  }

  /** `BinaryWriter.Write7BitEncodedInt` for a non-negative length: seven bits
      per byte, low bits first, the high bit set on every byte but the last. */
  function SevenBit(n: nat): (bs: seq<byte>)
    ensures |bs| >= 1
  {
    if n < 0x80 then [n] else [n % 0x80 + 0x80] + SevenBit(n / 0x80)
  }

  /** Reads a 7-bit encoded value and says how many bytes it took. */
  function ReadSevenBit(bs: seq<byte>): (r: Option<(nat, nat)>)
    ensures r.Some? ==> 1 <= r.value.1 <= |bs|
  {
    if bs == [] then None
    else if bs[0] < 0x80 then Some((bs[0], 1))
    else match ReadSevenBit(bs[1..])
      case None => None
      case Some((v, k)) => Some((bs[0] - 0x80 + 0x80 * v, k + 1))
  }

  lemma {:induction false} SevenBitRoundTrip(n: nat, rest: seq<byte>)
    ensures ReadSevenBit(SevenBit(n) + rest) == Some((n, |SevenBit(n)|))
  {
    if n >= 0x80 {
      var bs := SevenBit(n) + rest;
      assert bs[1..] == SevenBit(n / 0x80) + rest;
      SevenBitRoundTrip(n / 0x80, rest);
      assert n == n % 0x80 + 0x80 * (n / 0x80);
    }
  }

  // Writers: the bytes each `SerializationWriter` overload appends.

  /** `Write(byte)`. */
  function EncodeByte(b: byte): (bs: seq<byte>)
    ensures |bs| == 1
  {
    [b]
  }

  /** `Write(bool)`: one byte, 1 for true and 0 for false. */
  function EncodeBool(flag: bool): (bs: seq<byte>)
    ensures |bs| == 1
  {
    [if flag then 1 else 0]
  }

  /** `Write(ushort)`. */
  function EncodeUInt16(v: u16): (bs: seq<byte>)
    ensures |bs| == 2
  {
    LittleEndian(v, 2)
  }

  /** `Write(int)`. */
  function EncodeInt32(v: i32): (bs: seq<byte>)
    ensures |bs| == 4
  {
    Signed(v, 4)
  }

  /** `Write(long)`, and `Write(DateTime)`, which writes the tick count. */
  function EncodeInt64(v: i64): (bs: seq<byte>)
    ensures |bs| == 8
  {
    Signed(v, 8)
  }

  /** `Write(ulong)`. */
  function EncodeUInt64(v: u64): (bs: seq<byte>)
    ensures |bs| == 8
  {
    LittleEndian(v, 8)
  }

  /** A .NET string or byte array cannot hold 2^31 or more elements. */
  predicate StringFits(s: string) {
    |Utf8.Encode(s)| < TWO_31
  }

  /** `Write(string)` for a non-null string: the marker, the 7-bit encoded
      byte count, then the UTF-8 bytes. */
  function EncodeString(s: string): (bs: seq<byte>)
    requires StringFits(s)
    ensures |bs| >= 2
  {
    [STRING_MARKER] + SevenBit(|Utf8.Encode(s)|) + Utf8.Encode(s)
  }

  /** `WriteByteArray`: the int32 length, then the bytes. */
  function EncodeByteArray(d: seq<byte>): (bs: seq<byte>)
    requires |d| < TWO_31
    ensures |bs| == 4 + |d|
  {
    Signed(|d|, 4) + d
  }

  // Readers: each takes one value off the front and returns it with the rest.

  function ReadByte(bs: seq<byte>): (r: Option<(byte, seq<byte>)>)
    ensures r.Some? <==> |bs| >= 1
  {
    if |bs| >= 1 then Some((bs[0], bs[1..])) else None
  }

  /** Any non-zero byte reads as true. */
  function ReadBool(bs: seq<byte>): (r: Option<(bool, seq<byte>)>)
    ensures r.Some? <==> |bs| >= 1
  {
    if |bs| >= 1 then Some((bs[0] != 0, bs[1..])) else None
  }

  lemma FromLittleEndianBound(bs: seq<byte>)
    ensures FromLittleEndian(bs) < Pow256(|bs|)
  {
    if bs != [] {
      FromLittleEndianBound(bs[1..]);
    }
  }

  function FromLittleEndianBounded(bs: seq<byte>): (n: nat)
    requires |bs| <= 8
    ensures n == FromLittleEndian(bs) && n < Pow256(|bs|)
  {
    FromLittleEndianBound(bs);
    FromLittleEndian(bs)
  }

  function FromSignedBounded(bs: seq<byte>): (n: int)
    requires 1 <= |bs| <= 8
    ensures n == FromSigned(bs) && -Pow256(|bs|) / 2 <= n < Pow256(|bs|) / 2
  {
    FromLittleEndianBound(bs);
    FromSigned(bs)
  }

  function ReadUInt16(bs: seq<byte>): (r: Option<(u16, seq<byte>)>)
    ensures r.Some? <==> |bs| >= 2
  {
    if |bs| >= 2 then Some((FromLittleEndianBounded(bs[..2]), bs[2..])) else None
  }

  function ReadInt32(bs: seq<byte>): (r: Option<(i32, seq<byte>)>)
    ensures r.Some? <==> |bs| >= 4
  {
    if |bs| >= 4 then Some((FromSignedBounded(bs[..4]), bs[4..])) else None
  }

  function ReadInt64(bs: seq<byte>): (r: Option<(i64, seq<byte>)>)
    ensures r.Some? <==> |bs| >= 8
  {
    if |bs| >= 8 then Some((FromSignedBounded(bs[..8]), bs[8..])) else None
  }

  function ReadUInt64(bs: seq<byte>): (r: Option<(u64, seq<byte>)>)
    ensures r.Some? <==> |bs| >= 8
  {
    if |bs| >= 8 then Some((FromLittleEndianBounded(bs[..8]), bs[8..])) else None
  }

  /** `ReadString` for a non-null string: the marker, a 7-bit length, then
      that many bytes of valid UTF-8. Anything else fails. */
  function ReadString(bs: seq<byte>): (r: Option<(string, seq<byte>)>)
    ensures r.Some? ==> |r.value.1| < |bs|
  {
    if |bs| >= 1 && bs[0] == STRING_MARKER then
      match ReadSevenBit(bs[1..])
      case None => None
      case Some((len, k)) =>
        if 1 + k + len <= |bs| then
          match Utf8.Decode(bs[1 + k..1 + k + len])
          case None => None
          case Some(s) => Some((s, bs[1 + k + len..]))
        else None
    else None
  }

  /** `ReadByteArray`: a non-negative int32 length, then that many bytes. */
  function ReadByteArray(bs: seq<byte>): (r: Option<(seq<byte>, seq<byte>)>)
    ensures r.Some? ==> |r.value.1| <= |bs| - 4
  {
    if |bs| >= 4 then
      var len := FromSigned(bs[..4]);
      if 0 <= len && 4 + len <= |bs| then Some((bs[4..4 + len], bs[4 + len..])) else None
    else None
  }

  // Round trips: whatever follows a written value is left untouched by reading it.

  lemma ReadByteRoundTrip(b: byte, rest: seq<byte>)
    ensures ReadByte(EncodeByte(b) + rest) == Some((b, rest))
  {
    assert (EncodeByte(b) + rest)[1..] == rest;
  }

  lemma ReadBoolRoundTrip(flag: bool, rest: seq<byte>)
    ensures ReadBool(EncodeBool(flag) + rest) == Some((flag, rest))
  {
    assert (EncodeBool(flag) + rest)[1..] == rest;
  }

  lemma ReadUInt16RoundTrip(v: u16, rest: seq<byte>)
    ensures ReadUInt16(EncodeUInt16(v) + rest) == Some((v, rest))
  {
    var bs := EncodeUInt16(v) + rest;
    assert bs[..2] == LittleEndian(v, 2);
    LittleEndianRoundTrip(v, 2);
    assert bs[2..] == rest;
  }

  lemma ReadInt32RoundTrip(v: i32, rest: seq<byte>)
    ensures ReadInt32(EncodeInt32(v) + rest) == Some((v, rest))
  {
    var bs := EncodeInt32(v) + rest;
    assert bs[..4] == Signed(v, 4);
    SignedRoundTrip(v, 4);
    assert bs[4..] == rest;
  }

  lemma ReadInt64RoundTrip(v: i64, rest: seq<byte>)
    ensures ReadInt64(EncodeInt64(v) + rest) == Some((v, rest))
  {
    var bs := EncodeInt64(v) + rest;
    assert bs[..8] == Signed(v, 8);
    SignedRoundTrip(v, 8);
    assert bs[8..] == rest;
  }

  lemma ReadUInt64RoundTrip(v: u64, rest: seq<byte>)
    ensures ReadUInt64(EncodeUInt64(v) + rest) == Some((v, rest))
  {
    var bs := EncodeUInt64(v) + rest;
    assert bs[..8] == LittleEndian(v, 8);
    LittleEndianRoundTrip(v, 8);
    assert bs[8..] == rest;
  }

  /** Where the pieces of a marker-length-payload record sit. */
  lemma RecordSlices(m: byte, len: seq<byte>, payload: seq<byte>, rest: seq<byte>)
    ensures var bs := [m] + len + payload + rest;
      && bs[0] == m
      && bs[1..] == len + (payload + rest)
      && bs[1 + |len|..1 + |len| + |payload|] == payload
      && bs[1 + |len| + |payload|..] == rest
  {
  }

  lemma ReadStringRoundTrip(s: string, rest: seq<byte>)
    requires StringFits(s)
    ensures ReadString(EncodeString(s) + rest) == Some((s, rest))
  {
    var e := Utf8.Encode(s);
    var len := SevenBit(|e|);
    RecordSlices(STRING_MARKER, len, e, rest);
    SevenBitRoundTrip(|e|, e + rest);
    Utf8.DecodeEncode(s);
  }

  lemma ReadByteArrayRoundTrip(d: seq<byte>, rest: seq<byte>)
    requires |d| < TWO_31
    ensures ReadByteArray(EncodeByteArray(d) + rest) == Some((d, rest))
  {
    var bs := EncodeByteArray(d) + rest;
    assert bs[..4] == Signed(|d|, 4);
    SignedRoundTrip(|d|, 4);
    assert bs[4..4 + |d|] == d;
    assert bs[4 + |d|..] == rest;
  }
}

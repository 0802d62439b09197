/**
 * The parts of System.IO.BinaryWriter / BinaryReader the persisted model uses,
 * as encoders to and decoders from byte sequences. A decoder returns the value
 * and the bytes that follow it; a short stream is EndOfStreamException.
 *
 * BinaryWriter.Write(string) writes a 7-bit-encoded length and then UTF-8; here
 * the length counts characters and each character is written as its code point
 * in three little-endian bytes, which keeps the length-prefixed shape.
 */
module BinaryFormat {
  import opened Wrappers

  type byte = x: int | 0 <= x < 0x100
  type ushort = x: int | 0 <= x < 0x1_0000

  /** Three writes followed by more bytes, regrouped so that each reader sees its own bytes first. */
  lemma Regroup(a: seq<byte>, b: seq<byte>, c: seq<byte>, rest: seq<byte>)
    ensures a + b + c + rest == a + (b + (c + rest))
  {
  }

  /** Two writes followed by more bytes, regrouped so that the first reader sees its own bytes first. */
  lemma Regroup2(a: seq<byte>, b: seq<byte>, rest: seq<byte>)
    ensures a + b + rest == a + (b + rest)
  {
  }

  /** BinaryReader.ReadByte */
  function ReadByte(data: seq<byte>): (r: Result<(byte, seq<byte>)>)
    ensures r.Success? <==> |data| >= 1
    ensures r.Success? ==> data == [r.value.0] + r.value.1
  {
    if |data| < 1 then Failure(EndOfStream) else Success((data[0], data[1..]))
  }

  /** BinaryWriter.Write(ushort): little-endian. */
  function WriteUInt16(v: ushort): (r: seq<byte>)
    ensures |r| == 2
  {
    [v % 0x100, v / 0x100]
  }

  /** BinaryReader.ReadUInt16 */
  function ReadUInt16(data: seq<byte>): (r: Result<(ushort, seq<byte>)>)
    ensures r.Success? <==> |data| >= 2
    ensures r.Success? ==> r.value.1 == data[2..]
  {
    if |data| < 2 then Failure(EndOfStream) else Success((data[0] as int + 0x100 * data[1] as int, data[2..]))
  }

  lemma UInt16RoundTrip(v: ushort, rest: seq<byte>)
    ensures ReadUInt16(WriteUInt16(v) + rest) == Success((v, rest))
  {
    assert (WriteUInt16(v) + rest)[2..] == rest;
  }

  /** BinaryWriter.Write7BitEncodedInt: seven bits per byte, low group first, high bit = more follows. */
  function Write7BitEncoded(n: nat): (r: seq<byte>)
    ensures |r| >= 1
    decreases n
  {
    if n < 0x80 then [n] else [n % 0x80 + 0x80] + Write7BitEncoded(n / 0x80)
  }

  /** BinaryReader.Read7BitEncodedInt */
  function Read7BitEncoded(data: seq<byte>): (r: Result<(nat, seq<byte>)>)
    ensures r.Success? ==> |r.value.1| < |data|
    decreases |data|
  {
    if |data| < 1 then Failure(EndOfStream)
    else if data[0] < 0x80 then Success((data[0], data[1..]))
    else
      match Read7BitEncoded(data[1..])
      case Failure(e) => Failure(e)
      case Success((high, rest)) => Success((data[0] - 0x80 + 0x80 * high, rest))
  }

  lemma {:induction false} Read7BitRoundTrip(n: nat, rest: seq<byte>)
    ensures Read7BitEncoded(Write7BitEncoded(n) + rest) == Success((n, rest))
    decreases n
  {
    var w := Write7BitEncoded(n) + rest;
    if n < 0x80 {
      assert w[1..] == rest;
    } else {
      assert w[1..] == Write7BitEncoded(n / 0x80) + rest;
      Read7BitRoundTrip(n / 0x80, rest);
    }
  }

  /** One character as its code point in three bytes. */
  function WriteChar(c: char): (r: seq<byte>)
    ensures |r| == 3
  {
    var v := c as int;
    [v % 0x100, (v / 0x100) % 0x100, v / 0x1_0000]
  }

  /** The code point in three bytes; one that is not a Unicode scalar value is a format error. */
  function ReadChar(data: seq<byte>): (r: Result<(char, seq<byte>)>)
    ensures r.Success? ==> |data| >= 3 && r.value.1 == data[3..]
  {
    if |data| < 3 then Failure(EndOfStream)
    else
      var v := data[0] as int + 0x100 * data[1] as int + 0x1_0000 * data[2] as int;
      if v < 0xD800 || 0xE000 <= v < 0x11_0000 then Success((v as char, data[3..]))
      else Failure(FormatError)
  }

  lemma CharRoundTrip(c: char, rest: seq<byte>)
    ensures ReadChar(WriteChar(c) + rest) == Success((c, rest))
  {
    var w := WriteChar(c) + rest;
    assert w[3..] == rest;
    var v := c as int;
    assert w[0] as int + 0x100 * w[1] as int + 0x1_0000 * w[2] as int == v;
  }

  function WriteChars(s: string): (r: seq<byte>)
    ensures |r| == 3 * |s|
  {
    if |s| == 0 then [] else WriteChar(s[0]) + WriteChars(s[1..])
  }

  function ReadChars(data: seq<byte>, n: nat): (r: Result<(string, seq<byte>)>)
    ensures r.Success? ==> |r.value.0| == n && |r.value.1| <= |data|
  {
    if n == 0 then Success(([], data))
    else
      match ReadChar(data)
      case Failure(e) => Failure(e)
      case Success((c, rest)) =>
        match ReadChars(rest, n - 1)
        case Failure(e) => Failure(e)
        case Success((cs, rest')) => Success(([c] + cs, rest'))
  }

  lemma {:induction false} CharsRoundTrip(s: string, rest: seq<byte>)
    ensures ReadChars(WriteChars(s) + rest, |s|) == Success((s, rest))
  {
    if |s| == 0 {
      assert WriteChars(s) + rest == rest;
    } else {
      var tail := WriteChars(s[1..]) + rest;
      assert WriteChars(s) + rest == WriteChar(s[0]) + tail;
      CharRoundTrip(s[0], tail);
      CharsRoundTrip(s[1..], rest);
      assert ReadChars(WriteChar(s[0]) + tail, |s|) == Success(([s[0]] + s[1..], rest));
      assert [s[0]] + s[1..] == s;
    }
  }

  /** BinaryWriter.Write(string): length prefix, then the characters. */
  function WriteString(s: string): (r: seq<byte>)
    ensures |r| >= 1 + 3 * |s|
  {
    Write7BitEncoded(|s|) + WriteChars(s)
  }

  /** BinaryReader.ReadString */
  function ReadString(data: seq<byte>): (r: Result<(string, seq<byte>)>)
    ensures r.Success? ==> |r.value.1| < |data|
  {
    match Read7BitEncoded(data)
    case Failure(e) => Failure(e)
    case Success((n, rest)) => ReadChars(rest, n)
  }

  lemma StringRoundTrip(s: string, rest: seq<byte>)
    ensures ReadString(WriteString(s) + rest) == Success((s, rest))
  {
    assert WriteString(s) + rest == Write7BitEncoded(|s|) + (WriteChars(s) + rest);
    Read7BitRoundTrip(|s|, WriteChars(s) + rest);
    CharsRoundTrip(s, rest);
  }
}

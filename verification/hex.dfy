/**
 * The hex step of the checksum: every digest byte is rendered with
 * `toString(16)`, left-padded with `'0'` to two characters, and the pieces
 * are joined with the empty separator.
 */
module Hex {
  import opened Wrappers
  import opened Text

  /** An element of a `Uint8Array`. */
  newtype byte = b: int | 0 <= b < 256

  predicate IsLowerHexDigit(c: char) {
    '0' <= c <= '9' || 'a' <= c <= 'f'
  }

  /** Every character of `s` is a lower-case hex digit. */
  predicate AllHex(s: string) {
    forall i :: 0 <= i < |s| ==> IsLowerHexDigit(s[i])
  }

  lemma AllHexConcat(a: string, b: string)
    requires AllHex(a) && AllHex(b)
    ensures AllHex(a + b)
  {
    forall i | 0 <= i < |a + b|
      ensures IsLowerHexDigit((a + b)[i])
    {
      if i >= |a| {
        assert (a + b)[i] == b[i - |a|];
      }
    }
  }

  /** The radix-16 digit for `n`, lower-case as `toString(16)` writes it. */
  function Digit(n: nat): (c: char)
    requires n < 16
    ensures IsLowerHexDigit(c)
  {
    if n < 10 then ('0' as int + n) as char else ('a' as int + n - 10) as char
  }

  /** The value of a lower-case hex digit; `None` for any other character. */
  function DigitValue(c: char): (v: Option<nat>)
    ensures v.Some? <==> IsLowerHexDigit(c)
    ensures v.Some? ==> v.value < 16 && Digit(v.value) == c
  {
    if '0' <= c <= '9' then Some(c as int - '0' as int)
    else if 'a' <= c <= 'f' then Some(c as int - 'a' as int + 10)
    else None
  }

  /** The number a string of hex digits denotes, most significant digit first. */
  function Value(s: string): nat
    requires AllHex(s)
  {
    if s == [] then 0
    else Value(s[..|s| - 1]) * 16 + DigitValue(s[|s| - 1]).value
  }

  /** `n.toString(16)` for a non-negative integer: the shortest radix-16 rendering. */
  function ToRadix16(n: nat): (s: string)
    ensures 1 <= |s|
    ensures AllHex(s)
    ensures Value(s) == n
    ensures s[0] == '0' ==> s == "0"
    decreases n
  {
    if n < 16 then [Digit(n)]
    else
      var s := ToRadix16(n / 16) + [Digit(n % 16)];
      AllHexConcat(ToRadix16(n / 16), [Digit(n % 16)]);
      assert s[..|s| - 1] == ToRadix16(n / 16);
      s
  }

  /** `s.padStart(targetLength, fill)` for a one-character `fill`. */
  function PadStart(s: string, targetLength: nat, fill: char): (r: string)
    ensures |r| == if |s| < targetLength then targetLength else |s|
    ensures r[|r| - |s|..] == s
    ensures forall i :: 0 <= i < |r| - |s| ==> r[i] == fill
  {
    if |s| >= targetLength then s else seq(targetLength - |s|, _ => fill) + s
  }

  /** One byte as `b.toString(16).padStart(2, '0')`: its high and its low nibble. */
  function ByteHex(b: byte): (r: string)
    ensures r == [Digit(b as int / 16), Digit(b as int % 16)]
    ensures AllHex(r)
  {
    var digits := ToRadix16(b as int);
    assert b as int >= 16 ==> digits == ToRadix16(b as int / 16) + [Digit(b as int % 16)];
    PadStart(digits, 2, '0')
  }

  /** The digest as `bytes.map(byteHex).join('')`: two lower-case digits per byte. */
  function HexEncode(bytes: seq<byte>): (h: string)
    ensures |h| == 2 * |bytes|
    ensures AllHex(h)
  {
    if bytes == [] then ""
    else
      var first, rest := ByteHex(bytes[0]), HexEncode(bytes[1..]);
      AllHexConcat(first, rest);
      first + rest
  }

  /** Byte `i` of the digest is written at positions `2 * i` and `2 * i + 1`, in order. */
  lemma {:induction false} HexEncodeAt(bytes: seq<byte>, i: nat)
    requires i < |bytes|
    ensures HexEncode(bytes)[2 * i..2 * i + 2] == ByteHex(bytes[i])
  {
    var first, rest := ByteHex(bytes[0]), HexEncode(bytes[1..]);
    assert HexEncode(bytes) == first + rest;
    if i > 0 {
      HexEncodeAt(bytes[1..], i - 1);
      SliceAfter(first, rest, 2 * (i - 1), 2);
    }
  }

  /** The byte a pair of lower-case hex digits denotes; `None` if either is not one. */
  function PairValue(hi: char, lo: char): (v: Option<byte>)
    ensures v.Some? <==> IsLowerHexDigit(hi) && IsLowerHexDigit(lo)
  {
    if DigitValue(hi).Some? && DigitValue(lo).Some? then
      Some((DigitValue(hi).value * 16 + DigitValue(lo).value) as byte)
    else None
  }

  /** Reads a string of lower-case hex pairs back into bytes; `None` if it is not one. */
  function HexDecode(h: string): (r: Option<seq<byte>>)
    ensures r.Some? ==> 2 * |r.value| == |h|
    decreases |h|
  {
    if h == [] then Some([])
    else if |h| == 1 then None
    else match PairValue(h[0], h[1])
      case None => None
      case Some(b) =>
        match HexDecode(h[2..])
        case None => None
        case Some(rest) => Some([b] + rest)
  }

  /** Reading a digit back gives the number it was written for. */
  lemma DigitRoundTrip(n: nat)
    requires n < 16
    ensures DigitValue(Digit(n)) == Some(n)
  {
  }

  /** Two digits read back as the byte made of their nibbles. */
  lemma PairOfDigits(hi: nat, lo: nat)
    requires hi < 16 && lo < 16
    ensures PairValue(Digit(hi), Digit(lo)) == Some((hi * 16 + lo) as byte)
  {
    DigitRoundTrip(hi);
    DigitRoundTrip(lo);
  }

  /** The two digits written for a byte read back as that byte. */
  lemma PairOfByteHex(b: byte)
    ensures PairValue(ByteHex(b)[0], ByteHex(b)[1]) == Some(b)
  {
    var n := b as int;
    var hi, lo := n / 16, n % 16;
    assert hi * 16 + lo == n;
    PairOfDigits(hi, lo);
  }

  /** A pair that reads as a byte is exactly how that byte is written. */
  lemma ByteHexOfPair(hi: char, lo: char)
    requires PairValue(hi, lo).Some?
    ensures ByteHex(PairValue(hi, lo).value) == [hi, lo]
  {
    var x, y := DigitValue(hi).value, DigitValue(lo).value;
    var n := x * 16 + y;
    assert n / 16 == x && n % 16 == y;
  }

  /** Decoding one encoded byte in front of a decodable string. */
  lemma DecodeByteHex(b: byte, rest: string)
    requires HexDecode(rest).Some?
    ensures HexDecode(ByteHex(b) + rest) == Some([b] + HexDecode(rest).value)
  {
    var h := ByteHex(b) + rest;
    PairOfByteHex(b);
    assert h[0] == ByteHex(b)[0] && h[1] == ByteHex(b)[1];
    assert h[2..] == rest;
  }

  /** Decoding the hex string recovers the digest. */
  lemma {:induction false} DecodeEncode(bytes: seq<byte>)
    ensures HexDecode(HexEncode(bytes)) == Some(bytes)
  {
    if bytes != [] {
      DecodeEncode(bytes[1..]);
      DecodeByteHex(bytes[0], HexEncode(bytes[1..]));
      assert bytes == [bytes[0]] + bytes[1..];
    }
  }

  /** The first pair of an accepted string is the encoding of the first byte decoded. */
  lemma DecodeHead(h: string)
    requires h != [] && HexDecode(h).Some?
    ensures HexDecode(h).value != []
    ensures h[..2] == ByteHex(HexDecode(h).value[0])
    ensures HexDecode(h[2..]) == Some(HexDecode(h).value[1..])
  {
    var b := PairValue(h[0], h[1]).value;
    var rest := HexDecode(h[2..]).value;
    assert HexDecode(h).value == [b] + rest;
    ByteHexOfPair(h[0], h[1]);
    assert h[..2] == [h[0], h[1]];
  }

  /** Any string the decoder accepts is exactly the encoding of what it returns. */
  lemma {:induction false} EncodeDecode(h: string)
    requires HexDecode(h).Some?
    ensures HexEncode(HexDecode(h).value) == h
    decreases |h|
  {
    if h != [] {
      var bytes := HexDecode(h).value;
      DecodeHead(h);
      EncodeDecode(h[2..]);
      assert HexEncode(bytes) == ByteHex(bytes[0]) + HexEncode(bytes[1..]);
      assert h == h[..2] + h[2..];
    }
  }

  /** Distinct digests never share a hex string. */
  lemma HexEncodeInjective(a: seq<byte>, b: seq<byte>)
    ensures HexEncode(a) == HexEncode(b) <==> a == b
  {
    if HexEncode(a) == HexEncode(b) {
      DecodeEncode(a);
      DecodeEncode(b);
    }
  }
}

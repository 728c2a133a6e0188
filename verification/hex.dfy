/**
 * Lower-case hexadecimal text of a byte string, as encoding/hex.EncodeToString
 * writes it, together with a strict decoder that reads exactly that alphabet
 * back. The decoder is the encoder's partner: it is what lets the signature
 * check be stated as "the header carries the digest".
 */
module Hex {
  import opened Wrappers
  import opened Bytes

  const Digits: string := "0123456789abcdef"

  predicate IsLowerHexDigit(c: char) {
    '0' <= c <= '9' || 'a' <= c <= 'f'
  }

  /** The digit for a nibble value. */
  function DigitOf(n: int): (c: char)
    requires 0 <= n < 16
    ensures IsLowerHexDigit(c)
  {
    Digits[n]
  }

  /** The nibble value of a lower-case hex digit; None for any other character. */
  function ValueOf(c: char): (r: Option<int>)
    ensures r.Some? <==> IsLowerHexDigit(c)
    ensures r.Some? ==> 0 <= r.value < 16 && DigitOf(r.value) == c
  {
    if '0' <= c <= '9' then Some(c as int - '0' as int)
    else if 'a' <= c <= 'f' then Some(c as int - 'a' as int + 10)
    else None
  }

  lemma ValueOfDigit(n: int)
    requires 0 <= n < 16
    ensures ValueOf(DigitOf(n)) == Some(n)
  {
  }

  /** A byte is its high nibble times sixteen plus its low nibble. */
  lemma NibbleSplit(b: byte)
    ensures 0 <= b as int / 16 < 16 && 0 <= b as int % 16 < 16
    ensures (b as int / 16 * 16 + b as int % 16) as byte == b
  {
  }

  /** The two digits written for a byte read back as that byte. */
  lemma DigitsOfByte(b: byte)
    ensures 0 <= b as int / 16 < 16 && 0 <= b as int % 16 < 16
    ensures IsLowerHexDigit(DigitOf(b as int / 16)) && IsLowerHexDigit(DigitOf(b as int % 16))
    ensures (ValueOf(DigitOf(b as int / 16)).value * 16 + ValueOf(DigitOf(b as int % 16)).value) as byte == b
  {
    NibbleSplit(b);
    ValueOfDigit(b as int / 16);
    ValueOfDigit(b as int % 16);
  }

  /** Decoding a text that starts with two digits. */
  lemma DecodePair(c0: char, c1: char, rest: string)
    requires IsLowerHexDigit(c0) && IsLowerHexDigit(c1) && Decode(rest).Some?
    ensures Decode([c0, c1] + rest)
         == Some([(ValueOf(c0).value * 16 + ValueOf(c1).value) as byte] + Decode(rest).value)
  {
    var s := [c0, c1] + rest;
    assert s[0] == c0 && s[1] == c1 && s[2..] == rest;
  }

  /** hex.EncodeToString: two lower-case digits per byte, high nibble first. */
  function Encode(bs: seq<byte>): (s: string)
    ensures |s| == 2 * |bs|
    ensures forall i :: 0 <= i < |s| ==> IsLowerHexDigit(s[i])
    decreases |bs|
  {
    if bs == [] then []
    else [DigitOf(bs[0] as int / 16), DigitOf(bs[0] as int % 16)] + Encode(bs[1..])
  }

  /** The encoding of a non-empty byte string starts with the two digits of its first byte. */
  lemma EncodeHead(bs: seq<byte>)
    requires bs != []
    ensures Encode(bs) == [DigitOf(bs[0] as int / 16), DigitOf(bs[0] as int % 16)] + Encode(bs[1..])
  {
  }

  /** Reads back a string of lower-case hex digit pairs; None for odd length or any other character. */
  function Decode(s: string): (r: Option<seq<byte>>)
    ensures r.Some? ==> 2 * |r.value| == |s|
    decreases |s|
  {
    if s == [] then Some([])
    else if |s| < 2 then None
    else
      match (ValueOf(s[0]), ValueOf(s[1]), Decode(s[2..]))
      case (Some(hi), Some(lo), Some(rest)) => Some([(hi * 16 + lo) as byte] + rest)
      case _ => None
  }

  /** Decoding what was encoded gives back the bytes. */
  lemma {:induction false} DecodeEncode(bs: seq<byte>)
    ensures Decode(Encode(bs)) == Some(bs)
    decreases |bs|
  {
    if bs != [] {
      var b, tail := bs[0], Encode(bs[1..]);
      DigitsOfByte(b);
      var hi, lo := DigitOf(b as int / 16), DigitOf(b as int % 16);
      EncodeHead(bs);
      DecodeEncode(bs[1..]);
      DecodePair(hi, lo, tail);
      assert Decode(Encode(bs)) == Some([b] + bs[1..]);
      assert [b] + bs[1..] == bs;
    }
  }

  /** Encoding what was decoded gives back the text: the decoder accepts only the encoder's own output. */
  lemma {:induction false} EncodeDecode(s: string)
    requires Decode(s).Some?
    ensures Encode(Decode(s).value) == s
    decreases |s|
  {
    if s != [] {
      var hi := ValueOf(s[0]).value;
      var lo := ValueOf(s[1]).value;
      var rest := Decode(s[2..]).value;
      var b := (hi * 16 + lo) as byte;
      assert Decode(s).value == [b] + rest;
      EncodeDecode(s[2..]);
      assert ([b] + rest)[1..] == rest;
      assert b as int / 16 == hi && b as int % 16 == lo;
      assert s == [s[0], s[1]] + s[2..];
    }
  }

  /** Distinct byte strings have distinct hex texts. */
  lemma EncodeInjective(a: seq<byte>, b: seq<byte>)
    requires Encode(a) == Encode(b)
    ensures a == b
  {
    DecodeEncode(a);
    DecodeEncode(b);
  }
}

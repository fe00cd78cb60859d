/** The standard Base64 encoding of section 4 of RFC 4648 ("base64", with
    the `+` and `/` alphabet and `=` padding), which `base64.b64encode`
    produces and `base64.b64decode` reads. Decoding here accepts only the
    canonical form that encoding produces. */
module Base64 {
  import opened Common

  type Byte = b: int | 0 <= b < 256
  type Sextet = s: int | 0 <= s < 64

  const Padding: char := '='

  /** Table 1 of RFC 4648: the character for a 6-bit value. */
  function SextetChar(s: Sextet): (c: char)
    ensures CharSextet(c) == Some(s)
    ensures c != Padding
  {
    if s < 26 then (65 + s) as char
    else if s < 52 then (97 + s - 26) as char
    else if s < 62 then (48 + s - 52) as char
    else if s == 62 then '+'
    else '/'
  }

  /** The inverse of Table 1; `None` for a character outside the alphabet. */
  function CharSextet(c: char): Option<Sextet>
  {
    if 'A' <= c <= 'Z' then Some(c as int - 65)
    else if 'a' <= c <= 'z' then Some(c as int - 97 + 26)
    else if '0' <= c <= '9' then Some(c as int - 48 + 52)
    else if c == '+' then Some(62)
    else if c == '/' then Some(63)
    else None
  }

  predicate IsAlphabetChar(c: char)
  {
    CharSextet(c).Some?
  }

  /** Table 1 is a bijection: a character that has a value is the character
      of that value. */
  lemma CharSextetInverse(c: char)
    requires IsAlphabetChar(c)
    ensures SextetChar(CharSextet(c).value) == c
  {
  }

  /** One full 24-bit input group as four characters. */
  function EncodeQuantum(b0: Byte, b1: Byte, b2: Byte): string
  {
    [SextetChar(b0 / 4), SextetChar((b0 % 4) * 16 + b1 / 16),
     SextetChar((b1 % 16) * 4 + b2 / 64), SextetChar(b2 % 64)]
  }

  /** Encodes a byte string: full groups first, then a final group of one or
      two bytes padded with `=` (section 4, cases (2) and (3)). */
  function Encode(data: seq<Byte>): (r: string)
    ensures |r| == 4 * ((|data| + 2) / 3)
    ensures forall i :: 0 <= i < |r| ==> IsAlphabetChar(r[i]) || (r[i] == Padding && i >= |r| - 2)
    decreases |data|
  {
    if |data| == 0 then []
    else if |data| == 1 then
      [SextetChar(data[0] / 4), SextetChar((data[0] % 4) * 16), Padding, Padding]
    else if |data| == 2 then
      [SextetChar(data[0] / 4), SextetChar((data[0] % 4) * 16 + data[1] / 16),
       SextetChar((data[1] % 16) * 4), Padding]
    else
      EncodeQuantum(data[0], data[1], data[2]) + Encode(data[3..])
  }

  function DecodeQuantum(c0: Sextet, c1: Sextet, c2: Sextet, c3: Sextet): seq<Byte>
  {
    [c0 * 4 + c1 / 16, (c1 % 16) * 16 + c2 / 4, (c2 % 4) * 64 + c3]
  }

  /** A group of four alphabet characters without padding. */
  function DecodeFull(q: string): Option<seq<Byte>>
    requires |q| == 4
  {
    var s0, s1, s2, s3 := CharSextet(q[0]), CharSextet(q[1]), CharSextet(q[2]), CharSextet(q[3]);
    if s0.Some? && s1.Some? && s2.Some? && s3.Some? then
      Some(DecodeQuantum(s0.value, s1.value, s2.value, s3.value))
    else None
  }

  /** The last group, which may carry one or two `=`; the bits that padding
      discards must be zero (the canonical form). */
  function DecodeFinal(q: string): Option<seq<Byte>>
    requires |q| == 4
  {
    var s0, s1, s2 := CharSextet(q[0]), CharSextet(q[1]), CharSextet(q[2]);
    if q[2] == Padding && q[3] == Padding then
      if s0.Some? && s1.Some? && s1.value % 16 == 0 then
        Some([s0.value * 4 + s1.value / 16])
      else None
    else if q[3] == Padding then
      if s0.Some? && s1.Some? && s2.Some? && s2.value % 4 == 0 then
        Some([s0.value * 4 + s1.value / 16, (s1.value % 16) * 16 + s2.value / 4])
      else None
    else DecodeFull(q)
  }

  /** Decodes a canonical Base64 string; `None` for anything else (a length
      that is not a multiple of four, a character outside the alphabet,
      padding before the last group, or non-zero discarded bits). */
  function Decode(s: string): Option<seq<Byte>>
    decreases |s|
  {
    if |s| == 0 then Some([])
    else if |s| < 4 then None
    else if |s| == 4 then DecodeFinal(s)
    else
      match DecodeFull(s[..4])
      case None => None
      case Some(g) =>
        match Decode(s[4..])
        case None => None
        case Some(rest) => Some(g + rest)
  }

  lemma QuantumRoundTrip(b0: Byte, b1: Byte, b2: Byte)
    ensures DecodeFull(EncodeQuantum(b0, b1, b2)) == Some([b0, b1, b2])
  {
    var c1 := (b0 % 4) * 16 + b1 / 16;
    var c2 := (b1 % 16) * 4 + b2 / 64;
    assert c1 / 16 == b0 % 4 && c1 % 16 == b1 / 16;
    assert c2 / 4 == b1 % 16 && c2 % 4 == b2 / 64;
  }

  /** Packing a high part and a low part below a constant radix, and
      reading them back with `/` and `%`. */
  lemma Pack(hi: int, lo: int, radix: int)
    requires radix == 4 || radix == 16 || radix == 64
    requires 0 <= lo < radix
    ensures (hi * radix + lo) / radix == hi && (hi * radix + lo) % radix == lo
  {
    if radix == 4 {
    } else if radix == 16 {
    } else {
    }
  }

  /** A full group that decodes is the encoding of its three bytes. */
  lemma QuantumCanonical(q: string)
    requires |q| == 4 && DecodeFull(q).Some?
    ensures var g := DecodeFull(q).value; EncodeQuantum(g[0], g[1], g[2]) == q
  {
    var c0: int, c1: int, c2: int, c3: int := CharSextet(q[0]).value, CharSextet(q[1]).value, CharSextet(q[2]).value, CharSextet(q[3]).value;
    CharSextetInverse(q[0]);
    CharSextetInverse(q[1]);
    CharSextetInverse(q[2]);
    CharSextetInverse(q[3]);
    var b0: int, b1: int, b2: int := c0 * 4 + c1 / 16, (c1 % 16) * 16 + c2 / 4, (c2 % 4) * 64 + c3;
    assert DecodeFull(q).value == [b0, b1, b2];
    Pack(c0, c1 / 16, 4);
    Pack(c1 % 16, c2 / 4, 16);
    Pack(c2 % 4, c3, 64);
    assert b0 / 4 == c0;
    assert (b0 % 4) * 16 + b1 / 16 == c1;
    assert (b1 % 16) * 4 + b2 / 64 == c2;
    assert b2 % 64 == c3;
    assert EncodeQuantum(b0, b1, b2) == [SextetChar(c0), SextetChar(c1), SextetChar(c2), SextetChar(c3)];
  }

  /** A last group with two `=` that decodes is the encoding of its byte. */
  lemma FinalOneCanonical(q: string)
    requires |q| == 4 && q[2] == Padding && q[3] == Padding && DecodeFinal(q).Some?
    ensures Encode(DecodeFinal(q).value) == q
  {
    var c0: int, c1: int := CharSextet(q[0]).value, CharSextet(q[1]).value;
    CharSextetInverse(q[0]);
    CharSextetInverse(q[1]);
    Pack(c0, c1 / 16, 4);
  }

  /** A last group with one `=` that decodes is the encoding of its two
      bytes. */
  lemma FinalTwoCanonical(q: string)
    requires |q| == 4 && q[2] != Padding && q[3] == Padding && DecodeFinal(q).Some?
    ensures Encode(DecodeFinal(q).value) == q
  {
    var c0: int, c1: int, c2: int := CharSextet(q[0]).value, CharSextet(q[1]).value, CharSextet(q[2]).value;
    CharSextetInverse(q[0]);
    CharSextetInverse(q[1]);
    CharSextetInverse(q[2]);
    var b0: int, b1: int := c0 * 4 + c1 / 16, (c1 % 16) * 16 + c2 / 4;
    assert DecodeFinal(q).value == [b0, b1];
    Pack(c0, c1 / 16, 4);
    Pack(c1 % 16, c2 / 4, 16);
    assert b0 / 4 == c0;
    assert (b0 % 4) * 16 + b1 / 16 == c1;
    assert (b1 % 16) * 4 == c2;
    assert Encode([b0, b1]) == [SextetChar(c0), SextetChar(c1), SextetChar(c2), Padding];
  }

  lemma FinalOneRoundTrip(b0: Byte)
    ensures Decode(Encode([b0])) == Some([b0])
  {
    var e := Encode([b0]);
    var c1 := (b0 % 4) * 16;
    assert e == [SextetChar(b0 / 4), SextetChar(c1), Padding, Padding];
    assert c1 / 16 == b0 % 4 && c1 % 16 == 0;
    assert DecodeFinal(e) == Some([b0]);
  }

  lemma FinalTwoRoundTrip(b0: Byte, b1: Byte)
    ensures Decode(Encode([b0, b1])) == Some([b0, b1])
  {
    var e := Encode([b0, b1]);
    var c1 := (b0 % 4) * 16 + b1 / 16;
    var c2 := (b1 % 16) * 4;
    assert e == [SextetChar(b0 / 4), SextetChar(c1), SextetChar(c2), Padding];
    assert c1 / 16 == b0 % 4 && c1 % 16 == b1 / 16;
    assert c2 / 4 == b1 % 16 && c2 % 4 == 0;
    assert DecodeFinal(e) == Some([b0, b1]);
  }

  /** Decoding a full group followed by a non-empty rest decodes both. */
  lemma DecodeConcat(q: string, rest: string)
    requires |q| == 4 && DecodeFull(q).Some? && |rest| > 0 && Decode(rest).Some?
    ensures Decode(q + rest) == Some(DecodeFull(q).value + Decode(rest).value)
  {
    var s := q + rest;
    assert s[..4] == q && s[4..] == rest;
  }

  lemma EncodeSplit(b0: Byte, b1: Byte, b2: Byte, tail: seq<Byte>)
    requires |tail| > 0
    ensures Encode([b0, b1, b2] + tail) == EncodeQuantum(b0, b1, b2) + Encode(tail)
    ensures |Encode(tail)| > 0
  {
    var data := [b0, b1, b2] + tail;
    assert data[3..] == tail;
    assert (|tail| + 2) / 3 >= 1;
  }

  lemma DecodeQuantumThenTail(b0: Byte, b1: Byte, b2: Byte, tail: seq<Byte>)
    requires |Encode(tail)| > 0 && Decode(Encode(tail)) == Some(tail)
    ensures Decode(EncodeQuantum(b0, b1, b2) + Encode(tail)) == Some([b0, b1, b2] + tail)
  {
    QuantumRoundTrip(b0, b1, b2);
    DecodeConcat(EncodeQuantum(b0, b1, b2), Encode(tail));
  }

  lemma DecodeEncodeStep(b0: Byte, b1: Byte, b2: Byte, tail: seq<Byte>)
    requires |tail| > 0 && Decode(Encode(tail)) == Some(tail)
    ensures Decode(Encode([b0, b1, b2] + tail)) == Some([b0, b1, b2] + tail)
  {
    EncodeSplit(b0, b1, b2, tail);
    DecodeQuantumThenTail(b0, b1, b2, tail);
  }

  /** Decoding undoes encoding: `b64decode(b64encode(data)) == data`. */
  lemma {:induction false} DecodeEncode(data: seq<Byte>)
    ensures Decode(Encode(data)) == Some(data)
    decreases |data|
  {
    if |data| == 1 {
      FinalOneRoundTrip(data[0]);
      assert data == [data[0]];
    } else if |data| == 2 {
      FinalTwoRoundTrip(data[0], data[1]);
      assert data == [data[0], data[1]];
    } else if |data| == 3 {
      QuantumRoundTrip(data[0], data[1], data[2]);
      assert Encode(data) == EncodeQuantum(data[0], data[1], data[2]) + [];
      assert data == [data[0], data[1], data[2]];
    } else if |data| > 3 {
      var tail := data[3..];
      assert data == [data[0], data[1], data[2]] + tail;
      DecodeEncode(tail);
      DecodeEncodeStep(data[0], data[1], data[2], tail);
    }
  }

  /** Decoding accepts only what encoding produces: whenever a string
      decodes, it is the encoding of what it decodes to. */
  lemma {:induction false} EncodeDecode(s: string)
    requires Decode(s).Some?
    ensures Encode(Decode(s).value) == s
    decreases |s|
  {
    if |s| == 4 {
      if s[2] == Padding && s[3] == Padding {
        FinalOneCanonical(s);
      } else if s[3] == Padding {
        FinalTwoCanonical(s);
      } else {
        QuantumCanonical(s);
        assert Encode(DecodeFull(s).value) == EncodeQuantum(DecodeFull(s).value[0], DecodeFull(s).value[1], DecodeFull(s).value[2]) + [];
      }
    } else if |s| > 4 {
      var g := DecodeFull(s[..4]).value;
      var rest := Decode(s[4..]).value;
      QuantumCanonical(s[..4]);
      EncodeDecode(s[4..]);
      var data := g + rest;
      assert data[3..] == rest;
      assert s == s[..4] + s[4..];
    }
  }
}

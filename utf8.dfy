/** UTF-8 as Rust's `String::into_bytes`, `str::from_utf8` and
    `String::from_utf8_lossy` use it. A Dafny `char` is a Unicode scalar
    value, so a `string` is exactly what a Rust `String` can hold. */
module Utf8 {
  import opened Errors

  type byte = x: int | 0 <= x < 256

  /** U+FFFD, which `from_utf8_lossy` puts in place of each ill-formed part. */
  const REPLACEMENT_CHARACTER: char := '�'

  /** The UTF-8 encoding of one scalar value: one to four bytes. */
  function EncodeChar(c: char): (r: seq<byte>)
    ensures 1 <= |r| <= 4
  {
    var cp := c as int;
    var q1 := cp / 64;
    var q2 := q1 / 64;
    var q3 := q2 / 64;
    if cp < 0x80 then [cp]
    else if cp < 0x800 then [0xC0 + q1, 0x80 + cp % 64]
    else if cp < 0x10000 then [0xE0 + q2, 0x80 + q1 % 64, 0x80 + cp % 64]
    else [0xF0 + q3, 0x80 + q2 % 64, 0x80 + q1 % 64, 0x80 + cp % 64]
  }

  /** The UTF-8 encoding of a string (`String::into_bytes`). */
  function Encode(s: string): (b: seq<byte>)
    ensures |s| <= |b| <= 4 * |s|
  {
    if |s| == 0 then [] else EncodeChar(s[0]) + Encode(s[1..])
  }

  /** Outcome of decoding at the start of a byte sequence: a scalar value and
      the number of bytes it took, or the length of the maximal ill-formed
      prefix (the "maximal subpart" that one replacement character stands for). */
  datatype Step = Scalar(c: char, len: nat) | Invalid(len: nat)

  /** Number of bytes a sequence starting with `b0` must have; 0 when `b0`
      cannot start a sequence (continuation bytes, 0xC0, 0xC1, 0xF5..0xFF). */
  function SequenceLength(b0: byte): nat
  {
    if b0 < 0x80 then 1
    else if 0xC2 <= b0 <= 0xDF then 2
    else if 0xE0 <= b0 <= 0xEF then 3
    else if 0xF0 <= b0 <= 0xF4 then 4
    else 0
  }

  predicate IsContinuation(b: byte)
  {
    0x80 <= b <= 0xBF
  }

  /** The allowed second bytes, which exclude overlong forms, surrogates and
      values above U+10FFFF. */
  predicate SecondByteOk(b0: byte, b1: byte)
  {
    if b0 == 0xE0 then 0xA0 <= b1 <= 0xBF
    else if b0 == 0xED then 0x80 <= b1 <= 0x9F
    else if b0 == 0xF0 then 0x90 <= b1 <= 0xBF
    else if b0 == 0xF4 then 0x80 <= b1 <= 0x8F
    else IsContinuation(b1)
  }

  function DecodeStep(b: seq<byte>): (r: Step)
    requires |b| > 0
    ensures 1 <= r.len <= |b|
  {
    var b0: int := b[0];
    var n := SequenceLength(b0);
    if n == 1 then Scalar(b0 as char, 1)
    else if n == 0 then Invalid(1)
    else if |b| < 2 || !SecondByteOk(b0, b[1]) then Invalid(1)
    else
      var x1: int := b[1] - 0x80;
      if n == 2 then Scalar(((b0 - 0xC0) * 64 + x1) as char, 2)
      else if |b| < 3 || !IsContinuation(b[2]) then Invalid(2)
      else
        var x2: int := b[2] - 0x80;
        if n == 3 then Scalar(((b0 - 0xE0) * 4096 + x1 * 64 + x2) as char, 3)
        else if |b| < 4 || !IsContinuation(b[3]) then Invalid(3)
        else
          var x3: int := b[3] - 0x80;
          Scalar(((b0 - 0xF0) * 262144 + x1 * 4096 + x2 * 64 + x3) as char, 4)
  }

  /** `str::from_utf8`: the decoded string, or `None` at the first
      ill-formed sequence. */
  function Decode(b: seq<byte>): (r: Option<string>)
    ensures r.Some? ==> |r.value| <= |b| <= 4 * |r.value|
    decreases |b|
  {
    if |b| == 0 then Some("")
    else match DecodeStep(b)
      case Invalid(_) => None
      case Scalar(c, n) =>
        match Decode(b[n..])
        case None => None
        case Some(rest) => Some([c] + rest)
  }

  /** `String::from_utf8_lossy`: decodes, replacing each maximal ill-formed
      subpart with U+FFFD. */
  function DecodeLossy(b: seq<byte>): (s: string)
    ensures |s| <= |b|
    ensures |b| > 0 ==> |s| > 0
    decreases |b|
  {
    if |b| == 0 then ""
    else match DecodeStep(b)
      case Invalid(n) => [REPLACEMENT_CHARACTER] + DecodeLossy(b[n..])
      case Scalar(c, n) => [c] + DecodeLossy(b[n..])
  }

  /** Decoding the encoding of a scalar value, whatever follows it, reads that
      value back and consumes exactly its encoding. */
  lemma DecodeStepEncodeChar(c: char, rest: seq<byte>)
    ensures DecodeStep(EncodeChar(c) + rest) == Scalar(c, |EncodeChar(c)|)
  {
    var cp := c as int;
    if cp < 0x80 {
    } else if cp < 0x800 {
      DecodeTwoBytes(c, rest);
    } else if cp < 0x10000 {
      DecodeThreeBytes(c, rest);
    } else {
      DecodeFourBytes(c, rest);
    }
  }

  lemma DecodeTwoBytes(c: char, rest: seq<byte>)
    requires 0x80 <= c as int < 0x800
    ensures DecodeStep(EncodeChar(c) + rest) == Scalar(c, 2)
  {
    var cp := c as int;
    var q1 := cp / 64;
    var b := EncodeChar(c) + rest;
    assert cp == q1 * 64 + cp % 64;
    assert b[0] == 0xC0 + q1 && b[1] == 0x80 + cp % 64;
    assert 2 <= q1 < 32;
  }

  lemma DecodeThreeBytes(c: char, rest: seq<byte>)
    requires 0x800 <= c as int < 0x10000
    ensures DecodeStep(EncodeChar(c) + rest) == Scalar(c, 3)
  {
    var cp := c as int;
    var q1 := cp / 64;
    var q2 := q1 / 64;
    var b := EncodeChar(c) + rest;
    assert cp == q1 * 64 + cp % 64;
    assert q1 == q2 * 64 + q1 % 64;
    assert b[0] == 0xE0 + q2 && b[1] == 0x80 + q1 % 64 && b[2] == 0x80 + cp % 64;
    assert q2 < 16;
    assert q2 == 0 ==> q1 >= 32;
    assert q2 == 13 ==> q1 % 64 < 32;
    assert cp == q2 * 4096 + (q1 % 64) * 64 + cp % 64;
  }

  lemma DecodeFourBytes(c: char, rest: seq<byte>)
    requires 0x10000 <= c as int
    ensures DecodeStep(EncodeChar(c) + rest) == Scalar(c, 4)
  {
    var cp := c as int;
    var q1 := cp / 64;
    var q2 := q1 / 64;
    var q3 := q2 / 64;
    var b := EncodeChar(c) + rest;
    assert cp == q1 * 64 + cp % 64;
    assert q1 == q2 * 64 + q1 % 64;
    assert q2 == q3 * 64 + q2 % 64;
    assert b[0] == 0xF0 + q3 && b[1] == 0x80 + q2 % 64;
    assert b[2] == 0x80 + q1 % 64 && b[3] == 0x80 + cp % 64;
    assert q3 <= 4;
    assert q3 == 0 ==> q2 % 64 >= 16;
    assert q3 == 4 ==> q2 % 64 < 16;
    assert cp == q3 * 262144 + (q2 % 64) * 4096 + (q1 % 64) * 64 + cp % 64;
  }

  /** A successful step reads exactly the encoding of the value it returns:
      `DecodeStep` accepts only the shortest form of each scalar value. */
  lemma DecodeStepIsEncoding(b: seq<byte>)
    requires |b| > 0 && DecodeStep(b).Scalar?
    ensures b[..DecodeStep(b).len] == EncodeChar(DecodeStep(b).c)
  {
    var n := DecodeStep(b).len;
    if n == 2 {
      TwoByteIsEncoding(b);
    } else if n == 3 {
      ThreeByteIsEncoding(b);
    } else if n == 4 {
      FourByteIsEncoding(b);
    }
  }

  lemma TwoByteIsEncoding(b: seq<byte>)
    requires |b| > 0 && DecodeStep(b).Scalar? && DecodeStep(b).len == 2
    ensures b[..2] == EncodeChar(DecodeStep(b).c)
  {
    var x0: int := b[0];
    var x1: int := b[1] - 0x80;
    var cp := DecodeStep(b).c as int;
    assert cp == (x0 - 0xC0) * 64 + x1;
    DivModUnique(x0 - 0xC0, x1);
  }

  lemma ThreeByteIsEncoding(b: seq<byte>)
    requires |b| > 0 && DecodeStep(b).Scalar? && DecodeStep(b).len == 3
    ensures b[..3] == EncodeChar(DecodeStep(b).c)
  {
    var x0: int := b[0];
    var x1: int := b[1] - 0x80;
    var x2: int := b[2] - 0x80;
    var cp := DecodeStep(b).c as int;
    var q1 := (x0 - 0xE0) * 64 + x1;
    assert cp == q1 * 64 + x2;
    DivModUnique(q1, x2);
    DivModUnique(x0 - 0xE0, x1);
  }

  lemma FourByteIsEncoding(b: seq<byte>)
    requires |b| > 0 && DecodeStep(b).Scalar? && DecodeStep(b).len == 4
    ensures b[..4] == EncodeChar(DecodeStep(b).c)
  {
    var x0: int := b[0];
    var x1: int := b[1] - 0x80;
    var x2: int := b[2] - 0x80;
    var x3: int := b[3] - 0x80;
    var cp := DecodeStep(b).c as int;
    var q2 := (x0 - 0xF0) * 64 + x1;
    var q1 := q2 * 64 + x2;
    assert cp == q1 * 64 + x3;
    DivModUnique(q1, x3);
    DivModUnique(q2, x2);
    DivModUnique(x0 - 0xF0, x1);
  }

  lemma DivModUnique(q: int, r: int)
    requires q >= 0 && 0 <= r < 64
    ensures (q * 64 + r) / 64 == q && (q * 64 + r) % 64 == r
  {
  }

  /** Round trip: `from_utf8(s.into_bytes())` gives back `s`. */
  lemma {:induction false} DecodeEncode(s: string)
    ensures Decode(Encode(s)) == Some(s)
  {
    if |s| > 0 {
      var e := EncodeChar(s[0]);
      DecodeStepEncodeChar(s[0], Encode(s[1..]));
      assert (e + Encode(s[1..]))[|e|..] == Encode(s[1..]);
      DecodeEncode(s[1..]);
      assert [s[0]] + s[1..] == s;
    }
  }

  /** The other direction: whatever `from_utf8` accepts is the encoding of
      the string it returns. */
  lemma {:induction false} EncodeDecode(b: seq<byte>)
    requires Decode(b).Some?
    ensures Encode(Decode(b).value) == b
    decreases |b|
  {
    if |b| > 0 {
      var c, n := DecodeFirst(b);
      var rest := Decode(b[n..]).value;
      EncodeDecode(b[n..]);
      EncodeCons(c, rest);
      assert b == b[..n] + b[n..];
    }
  }

  /** A successful decoding starts with the encoding of its first character,
      followed by the decoding of the remaining bytes. */
  lemma DecodeFirst(b: seq<byte>) returns (c: char, n: nat)
    requires |b| > 0 && Decode(b).Some?
    ensures 0 < n <= |b| && b[..n] == EncodeChar(c)
    ensures Decode(b[n..]).Some? && Decode(b).value == [c] + Decode(b[n..]).value
  {
    c, n := DecodeStep(b).c, DecodeStep(b).len;
    DecodeStepIsEncoding(b);
  }

  lemma EncodeCons(c: char, s: string)
    ensures Encode([c] + s) == EncodeChar(c) + Encode(s)
  {
    assert ([c] + s)[1..] == s;
  }

  /** `from_utf8` fails exactly on the byte sequences that are not the UTF-8
      encoding of any string. */
  lemma DecodeFailsIffNotEncoding(b: seq<byte>)
    ensures Decode(b).None? <==> forall s: string :: Encode(s) != b
  {
    if Decode(b).Some? {
      EncodeDecode(b);
    } else {
      forall s: string ensures Encode(s) != b {
        DecodeEncode(s);
      }
    }
  }

  /** On well-formed input `from_utf8_lossy` replaces nothing. */
  lemma {:induction false} LossyAgreesOnValid(b: seq<byte>)
    requires Decode(b).Some?
    ensures DecodeLossy(b) == Decode(b).value
    decreases |b|
  {
    if |b| > 0 {
      LossyAgreesOnValid(b[DecodeStep(b).len..]);
    }
  }

  /** The lossy decoding of an encoded string is that string. */
  lemma LossyDecodeEncode(s: string)
    ensures DecodeLossy(Encode(s)) == s
  {
    DecodeEncode(s);
    LossyAgreesOnValid(Encode(s));
  }
}

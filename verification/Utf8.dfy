/** Byte strings, and UTF-8 as Go's `range` over a string reads it and `string(rune)` writes it. */
module Utf8 {

  type byte = x: int | 0 <= x < 256
  type Bytes = seq<byte>

  const COMMA: byte := ',' as int

  /** What `range` yields for a byte that starts no well-formed sequence. */
  const RUNE_ERROR := 0xFFFD

  /** What a byte adds to a code point once its tag bits are taken off. */
  function Payload(b: byte, tag: int): int {
    b - tag
  }

  predicate Continuation(b: byte, lo: int, hi: int) {
    lo <= b <= hi
  }

  /** The rune at the head of `s` and its width; (RUNE_ERROR, 1) where `s` is malformed. */
  function DecodeRune(s: Bytes): (r: (nat, nat))
    requires s != []
    ensures 1 <= r.1 <= 4 && r.1 <= |s|
  {
    var b := s[0];
    if b < 0x80 then
      (b, 1)
    else if 0xC2 <= b <= 0xDF && |s| >= 2 && Continuation(s[1], 0x80, 0xBF) then
      (Payload(b, 0xC0) * 64 + Payload(s[1], 0x80), 2)
    else if 0xE0 <= b <= 0xEF && |s| >= 3
         && Continuation(s[1], if b == 0xE0 then 0xA0 else 0x80, if b == 0xED then 0x9F else 0xBF)
         && Continuation(s[2], 0x80, 0xBF) then
      ((Payload(b, 0xE0) * 64 + Payload(s[1], 0x80)) * 64 + Payload(s[2], 0x80), 3)
    else if 0xF0 <= b <= 0xF4 && |s| >= 4
         && Continuation(s[1], if b == 0xF0 then 0x90 else 0x80, if b == 0xF4 then 0x8F else 0xBF)
         && Continuation(s[2], 0x80, 0xBF) && Continuation(s[3], 0x80, 0xBF) then
      (((Payload(b, 0xF0) * 64 + Payload(s[1], 0x80)) * 64 + Payload(s[2], 0x80)) * 64 + Payload(s[3], 0x80), 4)
    else
      (RUNE_ERROR, 1)
  }

  /** The bytes of `string(cp)`; a surrogate or an out-of-range value is written as RUNE_ERROR. */
  function EncodeRune(cp: nat): (bs: Bytes)
    ensures 1 <= |bs| <= 4
  {
    if cp < 0x80 then
      [cp]
    else if cp < 0x800 then
      [0xC0 + cp / 64, 0x80 + cp % 64]
    else if cp > 0x10FFFF || 0xD800 <= cp <= 0xDFFF then
      [0xEF, 0xBF, 0xBD]
    else if cp < 0x10000 then
      [0xE0 + cp / 64 / 64, 0x80 + cp / 64 % 64, 0x80 + cp % 64]
    else
      [0xF0 + cp / 64 / 64 / 64, 0x80 + cp / 64 / 64 % 64, 0x80 + cp / 64 % 64, 0x80 + cp % 64]
  }

  predicate Malformed(s: Bytes)
    requires s != []
  {
    DecodeRune(s) == (RUNE_ERROR, 1)
  }

  /** Every rune of `s` is well formed. */
  predicate Valid(s: Bytes) {
    s == [] || (!Malformed(s) && Valid(s[DecodeRune(s).1..]))
  }

  lemma SixBits(hi: nat, lo: nat)
    requires lo < 64
    ensures (hi * 64 + lo) / 64 == hi && (hi * 64 + lo) % 64 == lo
  {
  }

  /** Three bytes hold four, six and six bits. */
  lemma ThreeBytes(a: nat, b: nat, c: nat)
    requires b < 64 && c < 64
    ensures var cp := (a * 64 + b) * 64 + c;
            cp / 64 / 64 == a && cp / 64 % 64 == b && cp % 64 == c
  {
    SixBits(a * 64 + b, c);
    SixBits(a, b);
  }

  /** Four bytes hold three, six, six and six bits. */
  lemma FourBytes(a: nat, b: nat, c: nat, d: nat)
    requires b < 64 && c < 64 && d < 64
    ensures var cp := ((a * 64 + b) * 64 + c) * 64 + d;
            cp / 64 / 64 / 64 == a && cp / 64 / 64 % 64 == b && cp / 64 % 64 == c && cp % 64 == d
  {
    SixBits((a * 64 + b) * 64 + c, d);
    ThreeBytes(a, b, c);
  }

  lemma EncodeTwo(b: byte, c: byte)
    requires 0xC2 <= b <= 0xDF && Continuation(c, 0x80, 0xBF)
    ensures EncodeRune(Payload(b, 0xC0) * 64 + Payload(c, 0x80)) == [b, c]
  {
    SixBits(b - 0xC0, c - 0x80);
  }

  lemma EncodeThree(b: byte, c: byte, d: byte)
    requires 0xE0 <= b <= 0xEF
    requires Continuation(c, if b == 0xE0 then 0xA0 else 0x80, if b == 0xED then 0x9F else 0xBF) && Continuation(d, 0x80, 0xBF)
    ensures EncodeRune((Payload(b, 0xE0) * 64 + Payload(c, 0x80)) * 64 + Payload(d, 0x80)) == [b, c, d]
  {
    var cp := ((b - 0xE0) * 64 + (c - 0x80)) * 64 + (d - 0x80);
    ThreeBytes(b - 0xE0, c - 0x80, d - 0x80);
    assert 0x800 <= cp < 0x10000 && !(0xD800 <= cp <= 0xDFFF);
  }

  lemma EncodeFour(b: byte, c: byte, d: byte, e: byte)
    requires 0xF0 <= b <= 0xF4
    requires Continuation(c, if b == 0xF0 then 0x90 else 0x80, if b == 0xF4 then 0x8F else 0xBF)
    requires Continuation(d, 0x80, 0xBF) && Continuation(e, 0x80, 0xBF)
    ensures EncodeRune(((Payload(b, 0xF0) * 64 + Payload(c, 0x80)) * 64 + Payload(d, 0x80)) * 64 + Payload(e, 0x80)) == [b, c, d, e]
  {
    var cp := (((b - 0xF0) * 64 + (c - 0x80)) * 64 + (d - 0x80)) * 64 + (e - 0x80);
    FourBytes(b - 0xF0, c - 0x80, d - 0x80, e - 0x80);
    assert 0x10000 <= cp <= 0x10FFFF;
  }

  /** Reading a well-formed rune and writing it back gives the bytes that were read. */
  lemma EncodeDecode(s: Bytes)
    requires s != [] && !Malformed(s)
    ensures EncodeRune(DecodeRune(s).0) == s[..DecodeRune(s).1]
  {
    var w := DecodeRune(s).1;
    if w == 2 {
      EncodeTwo(s[0], s[1]);
    } else if w == 3 {
      EncodeThree(s[0], s[1], s[2]);
    } else if w == 4 {
      EncodeFour(s[0], s[1], s[2], s[3]);
    }
  }

  /** A malformed byte is not ASCII, and it comes back as three bytes. */
  lemma MalformedGrows(s: Bytes)
    requires s != [] && Malformed(s)
    ensures s[0] >= 0x80 && EncodeRune(RUNE_ERROR) == [0xEF, 0xBF, 0xBD]
  {
  }

  /** No byte of a well-formed multi-byte rune is ASCII. */
  lemma MultiByteIsNotAscii(s: Bytes)
    requires s != [] && s[0] >= 0x80
    ensures forall k :: 0 <= k < DecodeRune(s).1 ==> s[k] >= 0x80
    ensures DecodeRune(s).0 >= 0x80
  {
  }

  /** A well-formed rune is read the same whatever follows it. */
  lemma DecodePrefix(a: Bytes, b: Bytes)
    requires a != [] && !Malformed(a)
    ensures DecodeRune(a + b) == DecodeRune(a)
  {
  }

  /** A Unicode scalar value: a code point that is no surrogate. */
  predicate Scalar(cp: nat) {
    cp < 0xD800 || 0xE000 <= cp <= 0x10FFFF
  }

  /** Writing a scalar value and reading it back gives the value, whatever follows. */
  lemma DecodeEncode(cp: nat, rest: Bytes)
    requires Scalar(cp)
    ensures DecodeRune(EncodeRune(cp) + rest) == (cp, |EncodeRune(cp)|)
  {
    var s := EncodeRune(cp) + rest;
    if cp >= 0x10000 {
      DecodeFour(cp, s);
    } else if cp >= 0x800 {
      DecodeThree(cp, s);
    }
  }

  lemma DecodeThree(cp: nat, s: Bytes)
    requires 0x800 <= cp < 0x10000 && Scalar(cp) && |s| >= 3 && s[..3] == EncodeRune(cp)
    ensures DecodeRune(s) == (cp, 3)
  {
    var a, b, c := cp / 64 / 64, cp / 64 % 64, cp % 64;
    assert s[0] == s[..3][0] == 0xE0 + a && s[1] == s[..3][1] == 0x80 + b && s[2] == s[..3][2] == 0x80 + c;
    assert cp == (a * 64 + b) * 64 + c;
  }

  lemma DecodeFour(cp: nat, s: Bytes)
    requires 0x10000 <= cp <= 0x10FFFF && |s| >= 4 && s[..4] == EncodeRune(cp)
    ensures DecodeRune(s) == (cp, 4)
  {
    var a, b, c, d := cp / 64 / 64 / 64, cp / 64 / 64 % 64, cp / 64 % 64, cp % 64;
    assert s[0] == s[..4][0] == 0xF0 + a && s[1] == s[..4][1] == 0x80 + b;
    assert s[2] == s[..4][2] == 0x80 + c && s[3] == s[..4][3] == 0x80 + d;
    assert cp == ((a * 64 + b) * 64 + c) * 64 + d;
  }

  /** A text is malformed at its head exactly when no scalar value is written there. */
  lemma MalformedIff(s: Bytes)
    requires s != []
    ensures !Malformed(s) <==> exists cp :: WrittenAt(cp, s)
  {
    if !Malformed(s) {
      EncodeDecode(s);
      DecodedIsScalar(s);
      assert WrittenAt(DecodeRune(s).0, s);
    }
    if cp :| WrittenAt(cp, s) {
      var n := |EncodeRune(cp)|;
      DecodeEncode(cp, s[n..]);
      assert EncodeRune(cp) + s[n..] == s;
    }
  }

  predicate WrittenAt(cp: nat, s: Bytes) {
    Scalar(cp) && |EncodeRune(cp)| <= |s| && s[..|EncodeRune(cp)|] == EncodeRune(cp)
  }

  lemma DecodedIsScalar(s: Bytes)
    requires s != [] && !Malformed(s)
    ensures Scalar(DecodeRune(s).0)
  {
  }

  /** The number of runes. */
  function Runes(s: Bytes): nat
    decreases |s|
  {
    if s == [] then 0 else 1 + Runes(s[DecodeRune(s).1..])
  }

  /** Inside a well-formed rune every byte but the first is a continuation; cut there, the rune is malformed. */
  lemma CutRune(s: Bytes, k: nat)
    requires s != [] && !Malformed(s) && 0 < k < DecodeRune(s).1
    ensures Malformed(s[..k]) && Continuation(s[k], 0x80, 0xBF)
  {
  }

  lemma KeptRune(s: Bytes, k: nat)
    requires s != [] && !Malformed(s) && DecodeRune(s).1 <= k <= |s|
    ensures DecodeRune(s[..k]) == DecodeRune(s)
  {
  }

  /** A valid text can be cut exactly where no continuation byte follows. */
  lemma {:induction false} ValidCut(s: Bytes, k: nat)
    requires Valid(s) && k <= |s|
    ensures Valid(s[..k]) <==> k == |s| || !Continuation(s[k], 0x80, 0xBF)
    decreases |s|
  {
    if k == |s| {
      assert s[..k] == s;
    } else if k > 0 {
      var w := DecodeRune(s).1;
      if k < w {
        CutRune(s, k);
      } else {
        KeptRune(s, k);
        assert s[..k][w..] == s[w..][..k - w];
        ValidCut(s[w..], k - w);
      }
    }
  }

  lemma {:induction false} ValidAppend(a: Bytes, b: Bytes)
    requires Valid(a)
    ensures Valid(a + b) <==> Valid(b)
    decreases |a|
  {
    if a == [] {
      assert a + b == b;
    } else {
      var w := DecodeRune(a).1;
      DecodePrefix(a, b);
      assert (a + b)[w..] == a[w..] + b;
      ValidAppend(a[w..], b);
    }
  }
}

/** UTF-8 as defined in sections 3 and 4 of RFC 3629. */
module Utf8 {
  import opened Options
  import opened Modular

  type Byte = x: int | 0 <= x < 256

  /** A Unicode scalar value: no surrogates, nothing above U+10FFFF. */
  type Scalar = x: int | 0 <= x < 0xD800 || 0xE000 <= x < 0x110000

  /** The bit test `byte & 0b11000000 == 0b10000000`. */
  predicate Continuation(b: Byte) {
    0x80 <= b < 0xC0
  }

  lemma ContinuationIsTheBitTest(b: bv8)
    ensures (b & 0xC0 == 0x80) <==> (0x80 <= b < 0xC0)
  {
  }

  /** Section 3: the encoding of one character. */
  function EncodeChar(c: Scalar): (e: seq<Byte>)
    ensures 1 <= |e| <= 4
    ensures !Continuation(e[0]) && forall i :: 1 <= i < |e| ==> Continuation(e[i])
  {
    if c < 0x80 then [c]
    else if c < 0x800 then [0xC0 + c / 64, 0x80 + c % 64]
    else if c < 0x10000 then [0xE0 + c / 4096, 0x80 + c / 64 % 64, 0x80 + c % 64]
    else [0xF0 + c / 262144, 0x80 + c / 4096 % 64, 0x80 + c / 64 % 64, 0x80 + c % 64]
  }

  /** The examples of section 7, one of each length above one. */
  lemma Section7Examples()
    ensures EncodeChar(0x391) == [0xCE, 0x91] && EncodeChar(0x2262) == [0xE2, 0x89, 0xA2]
    ensures EncodeChar(0xD55C) == [0xED, 0x95, 0x9C] && EncodeChar(0x65E5) == [0xE6, 0x97, 0xA5]
    ensures EncodeChar(0x233B4) == [0xF0, 0xA3, 0x8E, 0xB4]
  {
  }

  lemma OnlyAsciiIsSingle(c: Scalar)
    ensures |EncodeChar(c)| > 1 ==> EncodeChar(c)[0] >= 0xC0
  {
  }

  function Encode(text: seq<Scalar>): seq<Byte> {
    if text == [] then [] else EncodeChar(text[0]) + Encode(text[1..])
  }

  function Code2(a: int, b: int): int { (a - 0xC0) * 64 + (b - 0x80) }

  function Code3(a: int, b: int, c: int): int { (a - 0xE0) * 4096 + (b - 0x80) * 64 + (c - 0x80) }

  function Code4(a: int, b: int, c: int, d: int): int {
    (a - 0xF0) * 262144 + (b - 0x80) * 4096 + (c - 0x80) * 64 + (d - 0x80)
  }

  /** Section 4: the well-formed sequence at the front, and its length. */
  function FrontChar(b: seq<Byte>): (r: Option<(Scalar, nat)>)
    ensures r.Some? ==> 1 <= r.value.1 <= |b| && r.value.1 <= 4 && !Continuation(b[0])
  {
    if b == [] then None
    else if b[0] < 0x80 then Some((b[0], 1))
    else if 0xC2 <= b[0] <= 0xDF then
      if |b| >= 2 && Continuation(b[1])
      then Some((Code2(b[0], b[1]), 2)) else None
    else if 0xE0 <= b[0] <= 0xEF then
      if |b| >= 3 && Continuation(b[1]) && Continuation(b[2])
         && (b[0] == 0xE0 ==> b[1] >= 0xA0) && (b[0] == 0xED ==> b[1] <= 0x9F)
      then Some((Code3(b[0], b[1], b[2]), 3)) else None
    else if 0xF0 <= b[0] <= 0xF4 then
      if |b| >= 4 && Continuation(b[1]) && Continuation(b[2]) && Continuation(b[3])
         && (b[0] == 0xF0 ==> b[1] >= 0x90) && (b[0] == 0xF4 ==> b[1] <= 0x8F)
      then Some((Code4(b[0], b[1], b[2], b[3]), 4)) else None
    else None
  }

  function Decode(b: seq<Byte>): Option<seq<Scalar>>
    decreases |b|
  {
    if b == [] then Some([]) else
    match FrontChar(b)
    case None => None
    case Some((c, n)) =>
      match Decode(b[n..])
      case None => None
      case Some(rest) => Some([c] + rest)
  }

  /** The base-64 digits of a number. */
  lemma Digits(x: int, w: int, y: int, z: int)
    requires 0 <= w < 64 && 0 <= y < 64 && 0 <= z < 64 && x >= 0
    ensures var n := x * 262144 + w * 4096 + y * 64 + z;
      n / 262144 == x && n / 4096 % 64 == w && n / 64 % 64 == y && n % 64 == z
  {
    var n := x * 262144 + w * 4096 + y * 64 + z;
    assert n / 64 == x * 4096 + w * 64 + y;
    assert n / 4096 == x * 64 + w;
  }

  lemma DigitsOf(n: int)
    requires n >= 0
    ensures n == n / 262144 * 262144 + n / 4096 % 64 * 4096 + n / 64 % 64 * 64 + n % 64
  {
    var q1 := n / 64;
    var q2 := q1 / 64;
    var q3 := q2 / 64;
    DivisionIsUnique(n, 4096, q2, q1 % 64 * 64 + n % 64);
    DivisionIsUnique(n, 262144, q3, q2 % 64 * 4096 + q1 % 64 * 64 + n % 64);
  }

  lemma FrontOfEncoded(c: Scalar, rest: seq<Byte>)
    ensures FrontChar(EncodeChar(c) + rest) == Some((c, |EncodeChar(c)|))
  {
    var e := EncodeChar(c);
    var b := e + rest;
    assert forall i :: 0 <= i < |e| ==> b[i] == e[i];
    if |e| == 3 { FrontOfThree(c, b); } else if |e| == 4 { FrontOfFour(c, b); }
  }

  lemma FrontOfThree(c: Scalar, b: seq<Byte>)
    requires 0x800 <= c < 0x10000 && |b| >= 3
    requires b[0] == 0xE0 + c / 4096 && b[1] == 0x80 + c / 64 % 64 && b[2] == 0x80 + c % 64
    ensures FrontChar(b) == Some((c, 3))
  {
    DigitsOf(c);
    assert Code3(b[0], b[1], b[2]) == c;
    assert b[0] == 0xE0 ==> b[1] >= 0xA0;
    assert b[0] == 0xED ==> b[1] <= 0x9F;
  }

  lemma FrontOfFour(c: Scalar, b: seq<Byte>)
    requires c >= 0x10000 && |b| >= 4 && b[0] == 0xF0 + c / 262144
    requires b[1] == 0x80 + c / 4096 % 64 && b[2] == 0x80 + c / 64 % 64 && b[3] == 0x80 + c % 64
    ensures FrontChar(b) == Some((c, 4))
  {
    DigitsOf(c);
    assert Code4(b[0], b[1], b[2], b[3]) == c;
  }

  lemma EncodedFront(b: seq<Byte>)
    requires FrontChar(b).Some?
    ensures var (c, n) := FrontChar(b).value;
      b[..n] == EncodeChar(c)
  {
    var n := FrontChar(b).value.1;
    if n == 1 {
      assert b[..1] == [b[0]];
    } else if n == 2 {
      assert b[..2] == [b[0], b[1]];
    } else if n == 3 {
      EncodedFront3(b);
    } else {
      EncodedFront4(b);
    }
  }

  lemma EncodedFront3(b: seq<Byte>)
    requires FrontChar(b).Some? && FrontChar(b).value.1 == 3
    ensures b[..3] == EncodeChar(FrontChar(b).value.0)
  {
    var c := FrontChar(b).value.0;
    Digits(0, b[0] - 0xE0, b[1] - 0x80, b[2] - 0x80);
    assert EncodeChar(c) == [b[0], b[1], b[2]];
    assert b[..3] == [b[0], b[1], b[2]];
  }

  lemma EncodedFront4(b: seq<Byte>)
    requires FrontChar(b).Some? && FrontChar(b).value.1 == 4
    ensures b[..4] == EncodeChar(FrontChar(b).value.0)
  {
    var c := FrontChar(b).value.0;
    Digits(b[0] - 0xF0, b[1] - 0x80, b[2] - 0x80, b[3] - 0x80);
    assert EncodeChar(c) == [b[0], b[1], b[2], b[3]];
    assert b[..4] == [b[0], b[1], b[2], b[3]];
  }

  /** Every text survives the round trip. */
  lemma {:induction false} DecodeEncode(text: seq<Scalar>)
    ensures Decode(Encode(text)) == Some(text)
  {
    hide EncodeChar, FrontChar;
    if text != [] {
      var front, rest := EncodeChar(text[0]), Encode(text[1..]);
      FrontOfEncoded(text[0], rest);
      DecodeEncode(text[1..]);
      assert text == [text[0]] + text[1..];
      assert (front + rest)[|front|..] == rest;
    }
  }

  /** Only encodings decode, each to the one text it encodes. */
  lemma {:induction false} EncodeDecode(b: seq<Byte>)
    requires Decode(b).Some?
    ensures Encode(Decode(b).value) == b
    decreases |b|
  {
    hide EncodeChar, FrontChar;
    if b != [] {
      EncodedFront(b);
      var (c, n) := FrontChar(b).value;
      EncodeDecode(b[n..]);
      assert Decode(b).value[1..] == Decode(b[n..]).value;
      assert b == b[..n] + b[n..];
    }
  }

  lemma {:induction false} EncodeConcat(a: seq<Scalar>, b: seq<Scalar>)
    ensures Encode(a + b) == Encode(a) + Encode(b)
  {
    if a == [] {
      assert a + b == b;
    } else {
      assert (a + b)[1..] == a[1..] + b;
      EncodeConcat(a[1..], b);
    }
  }

  lemma EncodeSplit(text: seq<Scalar>, k: nat)
    requires k <= |text|
    ensures Encode(text) == Encode(text[..k]) + Encode(text[k..])
  {
    assert text == text[..k] + text[k..];
    EncodeConcat(text[..k], text[k..]);
  }

  // ---------------------------------------------------------------- character boundaries

  predicate Boundary(b: seq<Byte>, i: int) {
    0 <= i <= |b| && (i == 0 || i == |b| || !Continuation(b[i]))
  }

  /** The character that covers byte i. */
  lemma {:induction false} CharCovering(text: seq<Scalar>, i: nat) returns (k: nat)
    requires i < |Encode(text)|
    ensures k < |text|
    ensures |Encode(text[..k])| <= i < |Encode(text[..k])| + |EncodeChar(text[k])|
    ensures Encode(text) == Encode(text[..k]) + EncodeChar(text[k]) + Encode(text[k + 1..])
  {
    hide EncodeChar;
    var n := |EncodeChar(text[0])|;
    if i < n {
      k := 0;
      assert text[..0] == [];
    } else {
      var k' := CharCovering(text[1..], i - n);
      k := k' + 1;
      assert text[..k] == [text[0]] + text[1..][..k'];
      assert text[..k][1..] == text[1..][..k'];
      assert text[1..][k' + 1..] == text[k + 1..];
    }
  }

  /** A boundary of an encoded text falls between two characters. */
  lemma SplitAtBoundary(text: seq<Scalar>, i: nat) returns (k: nat)
    requires Boundary(Encode(text), i)
    ensures k <= |text|
    ensures Encode(text)[..i] == Encode(text[..k]) && Encode(text)[i..] == Encode(text[k..])
  {
    hide EncodeChar;
    var b := Encode(text);
    if i == |b| {
      k := |text|;
      assert text[..k] == text && text[k..] == [];
    } else {
      k := CharCovering(text, i);
      var at := |Encode(text[..k])|;
      assert b[i] == EncodeChar(text[k])[i - at];
      EncodeSplit(text, k);
    }
  }

  /** A stretch of an encoded text between two boundaries is the encoding of a stretch of the text. */
  lemma SliceBetweenBoundaries(text: seq<Scalar>, i: nat, j: nat) returns (part: seq<Scalar>)
    requires Boundary(Encode(text), i) && Boundary(Encode(text), j) && i <= j
    ensures Encode(text)[i..j] == Encode(part) && Decode(Encode(text)[i..j]) == Some(part)
    ensures forall c :: c in part ==> |EncodeChar(c)| <= j - i
    ensures forall c :: c in part ==> c in text
  {
    hide EncodeChar, Encode;
    var b := Encode(text);
    var k := SplitAtBoundary(text, j);
    var prefix := text[..k];
    assert b[..j] == Encode(prefix);
    if i < j {
      assert b[..j][i] == b[i];
    }
    var m := SplitAtBoundary(prefix, i);
    part := prefix[m..];
    assert b[..j][i..] == b[i..j];
    DecodeEncode(part);
    forall c | c in part ensures |EncodeChar(c)| <= j - i { CharFits(part, c); }
  }

  lemma {:induction false} CharFits(text: seq<Scalar>, c: Scalar)
    requires c in text
    ensures |EncodeChar(c)| <= |Encode(text)|
  {
    if text[0] != c { CharFits(text[1..], c); }
  }

  /** What follows a decodable front of a decodable whole decodes itself. */
  lemma {:induction false} DecodeRest(front: seq<Byte>, rest: seq<Byte>)
    requires Decode(front).Some? && Decode(front + rest).Some?
    ensures Decode(rest).Some?
    decreases |front|
  {
    hide EncodeChar, FrontChar;
    if front == [] {
      assert front + rest == rest;
    } else {
      EncodedFront(front);
      var (c, n) := FrontChar(front).value;
      assert front == EncodeChar(c) + front[n..];
      assert front + rest == EncodeChar(c) + (front[n..] + rest);
      FrontOfEncoded(c, front[n..] + rest);
      assert (front + rest)[n..] == front[n..] + rest;
      DecodeRest(front[n..], rest);
    }
  }

  lemma DecodableFrontIsNotContinuation(b: seq<Byte>)
    requires b != [] && Decode(b).Some?
    ensures !Continuation(b[0])
  {
  }

  /** A non-empty stretch of an encoded text decodes exactly when both its ends are boundaries. */
  lemma SliceDecodesIff(text: seq<Scalar>, i: nat, j: nat)
    requires i < j <= |Encode(text)|
    ensures Decode(Encode(text)[i..j]).Some? <==> Boundary(Encode(text), i) && Boundary(Encode(text), j)
  {
    hide EncodeChar, FrontChar, Decode, Encode;
    var b := Encode(text);
    if Boundary(b, i) && Boundary(b, j) {
      var part := SliceBetweenBoundaries(text, i, j);
    } else if Decode(b[i..j]).Some? {
      assert j < |b| ==> b[j..][0] == b[j];
      DecodableFrontIsNotContinuation(b[i..j]);
      assert b[i..j][0] == b[i];
      var k := SplitAtBoundary(text, i);
      DecodeEncode(text[k..]);
      assert b[i..] == b[i..j] + b[j..];
      DecodeRest(b[i..j], b[j..]);
      if j < |b| {
        DecodableFrontIsNotContinuation(b[j..]);
      }
    }
  }
}

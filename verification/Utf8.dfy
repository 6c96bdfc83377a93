// UTF-16 code units, Unicode scalar values and UTF-8 bytes, as the runtime's
// buffers convert between them.
module Utf8 {

  type Unit = c: int | 0 <= c < 0x10000

  type Byte = b: int | 0 <= b < 0x100

  predicate IsScalar(c: int) {
    0 <= c < 0xD800 || 0xE000 <= c < 0x110000
  }

  type Scalar = c: int | 0 <= c < 0xD800 || 0xE000 <= c < 0x110000

  const REPLACEMENT: Scalar := 0xFFFD

  predicate HighSurrogate(u: Unit) { 0xD800 <= u < 0xDC00 }

  predicate LowSurrogate(u: Unit) { 0xDC00 <= u < 0xE000 }

  // A lone surrogate is encoded as the replacement character.
  function Scalars(text: seq<Unit>): seq<Scalar> {
    if text == [] then []
    else if HighSurrogate(text[0]) && |text| > 1 && LowSurrogate(text[1]) then
      [0x10000 + (text[0] - 0xD800) * 0x400 + (text[1] - 0xDC00)] + Scalars(text[2..])
    else if HighSurrogate(text[0]) || LowSurrogate(text[0]) then [REPLACEMENT] + Scalars(text[1..])
    else [text[0]] + Scalars(text[1..])
  }

  function Units(scalars: seq<Scalar>): seq<Unit> {
    if scalars == [] then []
    else if scalars[0] < 0x10000 then [scalars[0]] + Units(scalars[1..])
    else
      var c := scalars[0] as int - 0x10000;
      [0xD800 + c / 0x400, 0xDC00 + c % 0x400] + Units(scalars[1..])
  }

  function EncodeScalar(c: Scalar): (bytes: seq<Byte>)
    ensures 1 <= |bytes| <= 4
  {
    if c < 0x80 then [c]
    else if c < 0x800 then [0xC0 + c / 0x40, 0x80 + c % 0x40]
    else if c < 0x10000 then [0xE0 + c / 0x1000, 0x80 + c / 0x40 % 0x40, 0x80 + c % 0x40]
    else
      assert c / 0x40000 < 8;
      [0xF0 + c / 0x40000, 0x80 + c / 0x1000 % 0x40, 0x80 + c / 0x40 % 0x40, 0x80 + c % 0x40]
  }

  function Encode(scalars: seq<Scalar>): seq<Byte> {
    if scalars == [] then [] else EncodeScalar(scalars[0]) + Encode(scalars[1..])
  }

  // `(b & 0xc0) == 0x80`.
  predicate Continuation(b: Byte) { 0x80 <= b < 0xC0 }

  // How many bytes the character a lead byte starts has; none for a byte that
  // starts nothing.
  function Width(lead: Byte): nat {
    if lead < 0x80 then 1
    else if lead < 0xC0 then 0
    else if lead < 0xE0 then 2
    else if lead < 0xF0 then 3
    else if lead < 0xF8 then 4
    else 0
  }

  function Above(b: Byte, mark: int): int { b as int - mark }

  function Assembled(bytes: seq<Byte>): int
    requires 1 <= |bytes| <= 4
  {
    if |bytes| == 1 then bytes[0]
    else if |bytes| == 2 then 0x40 * Above(bytes[0], 0xC0) + Above(bytes[1], 0x80)
    else if |bytes| == 3 then 0x1000 * Above(bytes[0], 0xE0) + 0x40 * Above(bytes[1], 0x80) + Above(bytes[2], 0x80)
    else
      0x40000 * Above(bytes[0], 0xF0) + 0x1000 * Above(bytes[1], 0x80) + 0x40 * Above(bytes[2], 0x80)
      + Above(bytes[3], 0x80)
  }

  predicate StartsCharacter(bytes: seq<Byte>) {
    && bytes != [] && 1 <= Width(bytes[0]) <= |bytes|
    && (forall i | 1 <= i < Width(bytes[0]) :: Continuation(bytes[i]))
    && IsScalar(Assembled(bytes[..Width(bytes[0])]))
  }

  // Reads whole characters; what starts none becomes a replacement character,
  // and a character cut off by the end becomes one.
  function Decode(bytes: seq<Byte>): seq<Scalar> {
    if bytes == [] then []
    else if StartsCharacter(bytes) then [Assembled(bytes[..Width(bytes[0])])] + Decode(bytes[Width(bytes[0])..])
    else if Width(bytes[0]) > |bytes| then [REPLACEMENT]
    else [REPLACEMENT] + Decode(bytes[1..])
  }

  lemma EncodedShape(c: Scalar)
    ensures var bytes := EncodeScalar(c);
            && Width(bytes[0]) == |bytes| && !Continuation(bytes[0])
            && (forall i | 1 <= i < |bytes| :: Continuation(bytes[i]))
            && Assembled(bytes) == c
  {
    if 0x800 <= c < 0x10000 {
      ThreeBytes(c);
    } else if c >= 0x10000 {
      FourBytes(c);
    }
  }

  lemma ThreeBytes(c: Scalar)
    requires 0x800 <= c < 0x10000
    ensures 0 <= c / 0x1000 < 0x10 && c == 0x1000 * (c / 0x1000) + 0x40 * (c / 0x40 % 0x40) + c % 0x40
  {
    assert c / 0x40 / 0x40 == c / 0x1000;
  }

  lemma FourBytes(c: Scalar)
    requires 0x10000 <= c
    ensures 0 <= c / 0x40000 < 8
    ensures c == 0x40000 * (c / 0x40000) + 0x1000 * (c / 0x1000 % 0x40) + 0x40 * (c / 0x40 % 0x40) + c % 0x40
  {
    assert c / 0x40 / 0x40 == c / 0x1000 && c / 0x1000 / 0x40 == c / 0x40000;
  }

  // The bytes of a character: a lead byte in its range, then its bits, six to
  // each continuation byte, high bits first.
  lemma EncodedBits(c: Scalar)
    ensures var b := EncodeScalar(c);
            if c < 0x80 then b == [c]
            else if c < 0x800 then
              |b| == 2 && 0xC0 <= b[0] < 0xE0 && 0x80 <= b[1] < 0xC0
              && 0x40 * (b[0] as int - 0xC0) + (b[1] as int - 0x80) == c
            else if c < 0x10000 then
              |b| == 3 && 0xE0 <= b[0] < 0xF0 && 0x80 <= b[1] < 0xC0 && 0x80 <= b[2] < 0xC0
              && 0x1000 * (b[0] as int - 0xE0) + 0x40 * (b[1] as int - 0x80) + (b[2] as int - 0x80) == c
            else
              |b| == 4 && 0xF0 <= b[0] < 0xF8 && 0x80 <= b[1] < 0xC0 && 0x80 <= b[2] < 0xC0 && 0x80 <= b[3] < 0xC0
              && 0x40000 * (b[0] as int - 0xF0) + 0x1000 * (b[1] as int - 0x80) + 0x40 * (b[2] as int - 0x80)
                 + (b[3] as int - 0x80) == c
  {
    if 0x800 <= c < 0x10000 {
      ThreeBytes(c);
    } else if c >= 0x10000 {
      FourBytes(c);
    }
  }

  // A character beyond the first 65536 is a high and a low surrogate; reading
  // the units of any characters gives the characters back.
  lemma {:induction false} ScalarsUnits(scalars: seq<Scalar>)
    ensures Scalars(Units(scalars)) == scalars
    ensures Units([0x10000]) == [0xD800, 0xDC00] && Units([0x1F600]) == [0xD83D, 0xDE00]
    ensures Units([0x10FFFF]) == [0xDBFF, 0xDFFF]
  {
    if scalars != [] {
      ScalarsUnits(scalars[1..]);
      var text := Units(scalars);
      if scalars[0] < 0x10000 {
        assert text[1..] == Units(scalars[1..]);
      } else {
        assert text[2..] == Units(scalars[1..]);
      }
    }
  }

  // The test on the top two bits.
  lemma ContinuationBits(b: Byte)
    ensures Continuation(b) <==> (b as bv8) & 0xC0 == 0x80
  {
  }

  // A lone surrogate reads as the replacement character.
  lemma LoneSurrogate(u: Unit, rest: seq<Unit>)
    requires 0xD800 <= u < 0xE000 && (u < 0xDC00 ==> rest == [] || !(0xDC00 <= rest[0] < 0xE000))
    ensures Scalars([u] + rest) == [0xFFFD] + Scalars(rest)
  {
    assert ([u] + rest)[1..] == rest;
  }

  // Decoding an encoding gives the characters back.
  lemma {:induction false} DecodeEncode(scalars: seq<Scalar>)
    ensures Decode(Encode(scalars)) == scalars
  {
    if scalars != [] {
      DecodesFirst(scalars[0], Encode(scalars[1..]));
      DecodeEncode(scalars[1..]);
    }
  }

  // A character cut off by the end reads as one replacement character.
  lemma {:induction false} DecodeCut(scalars: seq<Scalar>, c: Scalar, n: nat)
    requires 0 < n < |EncodeScalar(c)|
    ensures Decode(Encode(scalars) + EncodeScalar(c)[..n]) == scalars + [REPLACEMENT]
  {
    var cut := EncodeScalar(c)[..n];
    if scalars == [] {
      CutAlone(c, n);
      assert [] + cut == cut;
    } else {
      var first, rest := EncodeScalar(scalars[0]), Encode(scalars[1..]) + cut;
      DecodeCut(scalars[1..], c, n);
      Associate(first, Encode(scalars[1..]), cut);
      DecodesFirst(scalars[0], rest);
      assert scalars + [REPLACEMENT] == [scalars[0]] + (scalars[1..] + [REPLACEMENT]);
    }
  }

  lemma CutAlone(c: Scalar, n: nat)
    requires 0 < n < |EncodeScalar(c)|
    ensures Decode(EncodeScalar(c)[..n]) == [REPLACEMENT]
  {
    EncodedShape(c);
  }

  lemma DecodesFirst(c: Scalar, rest: seq<Byte>)
    ensures Decode(EncodeScalar(c) + rest) == [c] + Decode(rest)
  {
    var first := EncodeScalar(c);
    var bytes := first + rest;
    EncodedShape(c);
    assert bytes[..|first|] == first && bytes[|first|..] == rest;
    assert forall i | 0 <= i < |first| :: bytes[i] == first[i];
    assert StartsCharacter(bytes);
  }

  lemma Associate(a: seq<Byte>, b: seq<Byte>, c: seq<Byte>)
    ensures a + (b + c) == (a + b) + c
  {
  }

  lemma {:induction false} EncodeConcat(a: seq<Scalar>, b: seq<Scalar>)
    ensures Encode(a + b) == Encode(a) + Encode(b)
  {
    if a == [] {
      assert [] + b == b;
    } else {
      EncodeConcat(a[1..], b);
      assert (a + b)[0] == a[0] && (a + b)[1..] == a[1..] + b;
      Associate(EncodeScalar(a[0]), Encode(a[1..]), Encode(b));
    }
  }

  // Where the first `k` characters end.
  function Offset(scalars: seq<Scalar>, k: nat): nat
    requires k <= |scalars|
  {
    |Encode(scalars[..k])|
  }

  lemma OffsetSplits(scalars: seq<Scalar>, k: nat)
    requires k <= |scalars|
    ensures Encode(scalars) == Encode(scalars[..k]) + Encode(scalars[k..])
    ensures Offset(scalars, k) <= |Encode(scalars)| && Encode(scalars)[Offset(scalars, k)..] == Encode(scalars[k..])
  {
    assert scalars == scalars[..k] + scalars[k..];
    EncodeConcat(scalars[..k], scalars[k..]);
  }

  lemma OffsetStep(scalars: seq<Scalar>, k: nat)
    requires k < |scalars|
    ensures Offset(scalars, k + 1) == Offset(scalars, k) + |EncodeScalar(scalars[k])|
  {
    assert scalars[..k + 1] == scalars[..k] + [scalars[k]];
    EncodeConcat(scalars[..k], [scalars[k]]);
    assert Encode([scalars[k]]) == EncodeScalar(scalars[k]) + Encode([scalars[k]][1..]);
  }

  lemma {:induction false} OffsetsGrow(scalars: seq<Scalar>, j: nat, k: nat)
    requires j < k <= |scalars|
    ensures Offset(scalars, j) < Offset(scalars, k)
  {
    OffsetStep(scalars, k - 1);
    if j < k - 1 { OffsetsGrow(scalars, j, k - 1); }
  }

  // Each byte belongs to the character it lies in.
  lemma ByteOf(scalars: seq<Scalar>, k: nat, i: nat)
    requires k < |scalars| && Offset(scalars, k) <= i < Offset(scalars, k + 1) && i < |Encode(scalars)|
    ensures i - Offset(scalars, k) < |EncodeScalar(scalars[k])|
    ensures Encode(scalars)[i] == EncodeScalar(scalars[k])[i - Offset(scalars, k)]
  {
    OffsetSplits(scalars, k);
    OffsetStep(scalars, k);
    assert scalars[k..][1..] == scalars[k + 1..];
    assert Encode(scalars[k..]) == EncodeScalar(scalars[k]) + Encode(scalars[k + 1..]);
    assert Encode(scalars)[i] == Encode(scalars)[Offset(scalars, k)..][i - Offset(scalars, k)];
  }

  // A byte position inside the text starts a character exactly when its byte is
  // not a continuation byte.
  lemma {:induction false} BoundaryIff(scalars: seq<Scalar>, i: nat) returns (k: nat)
    requires i < |Encode(scalars)|
    ensures k < |scalars| && Offset(scalars, k) <= i < Offset(scalars, k + 1)
    ensures Continuation(Encode(scalars)[i]) <==> i != Offset(scalars, k)
  {
    assert scalars[..|scalars|] == scalars;
    k := CharacterAt(scalars, i, |scalars|);
    ByteOf(scalars, k, i);
    EncodedShape(scalars[k]);
  }

  lemma {:induction false} CharacterAt(scalars: seq<Scalar>, i: nat, n: nat) returns (k: nat)
    requires n <= |scalars| && i < Offset(scalars, n)
    ensures k < n && Offset(scalars, k) <= i < Offset(scalars, k + 1)
  {
    if Offset(scalars, n - 1) <= i {
      k := n - 1;
    } else {
      k := CharacterAt(scalars, i, n - 1);
    }
  }
}

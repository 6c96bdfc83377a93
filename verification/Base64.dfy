// Strict base64: the encoding of sections 3.5 and 4 of RFC 4648, and a decoder
// that accepts nothing else.
module Base64 {
  import opened Prelude

  type Byte = b: int | 0 <= b < 0x100

  // The 64 values of the alphabet, and the padding.
  type Symbol = s: int | 0 <= s <= 64

  const PAD: Symbol := 64

  function Spell(s: Symbol): char {
    if s < 26 then ('A' as int + s) as char
    else if s < 52 then ('a' as int + (s - 26)) as char
    else if s < 62 then ('0' as int + (s - 52)) as char
    else if s == 62 then '+'
    else if s == 63 then '/'
    else '='
  }

  predicate InAlphabet(c: char) {
    'A' <= c <= 'Z' || 'a' <= c <= 'z' || '0' <= c <= '9' || c == '+' || c == '/' || c == '='
  }

  function Read(c: char): Symbol
    requires InAlphabet(c)
  {
    if 'A' <= c <= 'Z' then c as int - 'A' as int
    else if 'a' <= c <= 'z' then 26 + (c as int - 'a' as int)
    else if '0' <= c <= '9' then 52 + (c as int - '0' as int)
    else if c == '+' then 62
    else if c == '/' then 63
    else PAD
  }

  function Spelled(symbols: seq<Symbol>): string {
    seq(|symbols|, i requires 0 <= i < |symbols| => Spell(symbols[i]))
  }

  predicate Legible(text: string) {
    forall i | 0 <= i < |text| :: InAlphabet(text[i])
  }

  function Symbols(text: string): seq<Symbol>
    requires Legible(text)
  {
    seq(|text|, i requires 0 <= i < |text| => Read(text[i]))
  }

  lemma SpelledRead(symbols: seq<Symbol>)
    ensures Legible(Spelled(symbols)) && Symbols(Spelled(symbols)) == symbols
  {
  }

  lemma ReadSpelled(text: string)
    requires Legible(text)
    ensures Spelled(Symbols(text)) == text
  {
  }

  /* ------------------------------- encoding ------------------------------ */

  // Three bytes make four symbols; a final group of one or two bytes is padded,
  // its unused bits zero.
  function EncodeSymbols(bytes: seq<Byte>): seq<Symbol> {
    if bytes == [] then []
    else if |bytes| == 1 then [bytes[0] / 4, bytes[0] % 4 * 16, PAD, PAD]
    else if |bytes| == 2 then [bytes[0] / 4, bytes[0] % 4 * 16 + bytes[1] / 16, bytes[1] % 16 * 4, PAD]
    else Group(bytes[0], bytes[1], bytes[2]) + EncodeSymbols(bytes[3..])
  }

  function Group(a: Byte, b: Byte, c: Byte): seq<Symbol> {
    [a / 4, a % 4 * 16 + b / 16, b % 16 * 4 + c / 64, c % 64]
  }

  function Encode(bytes: seq<Byte>): string {
    Spelled(EncodeSymbols(bytes))
  }

  const UPPER := "ABCDEFGHIJKLMNOPQRSTUVWXYZ"
  const LOWER := "abcdefghijklmnopqrstuvwxyz"
  const DIGITS := "0123456789"

  // The alphabet of section 4 of RFC 4648, value by value, and nothing else.
  lemma Alphabet(s: Symbol, c: char)
    ensures Spell(s) == (UPPER + LOWER + DIGITS + "+/=")[s]
    ensures InAlphabet(c) <==> c in UPPER + LOWER + DIGITS + "+/="
  {
    forall i | 0 <= i < 26
      ensures UPPER[i] == ('A' as int + i) as char && LOWER[i] == ('a' as int + i) as char
    {
      Uppers(i);
      Lowers(i);
    }
    forall i | 0 <= i < 10
      ensures DIGITS[i] == ('0' as int + i) as char
    {
      Digits(i);
    }
    RunHolds(UPPER, 'A', c);
    RunHolds(LOWER, 'a', c);
    RunHolds(DIGITS, '0', c);
  }

  lemma Uppers(i: nat)
    requires i < 26
    ensures UPPER[i] == ('A' as int + i) as char
  {
  }

  lemma Lowers(i: nat)
    requires i < 26
    ensures LOWER[i] == ('a' as int + i) as char
  {
  }

  // A run of consecutive characters holds exactly those between its ends.
  lemma RunHolds(run: string, first: char, c: char)
    requires run != [] && first as int + |run| < 0x100
    requires forall i | 0 <= i < |run| :: run[i] == (first as int + i) as char
    ensures c in run <==> first <= c && c as int < first as int + |run|
  {
    if first <= c && c as int < first as int + |run| { assert run[c as int - first as int] == c; }
  }

  lemma Digits(i: nat)
    requires i < 10
    ensures DIGITS[i] == ('0' as int + i) as char
  {
  }

  // Every group holds the bits of its bytes in order, six to a symbol, first
  // bits first; bits missing from a final group count as zero.
  lemma EncodingKeepsBits(bytes: seq<Byte>)
    requires bytes != []
    ensures var s := EncodeSymbols(bytes);
            && |s| >= 4 && s[0] != PAD && s[1] != PAD
            && (|bytes| == 1 ==>
                |s| == 4 && 0x40 * (s[0] as int) + (s[1] as int) == 0x10 * bytes[0] as int && s[2] == s[3] == PAD)
            && (|bytes| == 2 ==>
                && |s| == 4 && s[2] != PAD && s[3] == PAD
                && 0x1000 * (s[0] as int) + 0x40 * (s[1] as int) + (s[2] as int)
                   == 4 * (0x100 * (bytes[0] as int) + bytes[1] as int))
            && (|bytes| >= 3 ==>
                && s[2] != PAD && s[3] != PAD && s[4..] == EncodeSymbols(bytes[3..])
                && 0x40000 * (s[0] as int) + 0x1000 * (s[1] as int) + 0x40 * (s[2] as int) + (s[3] as int)
                   == 0x10000 * (bytes[0] as int) + 0x100 * (bytes[1] as int) + bytes[2] as int)
  {
    var c := if |bytes| >= 2 then bytes[1] else 0;
    SecondSymbolSplits(bytes[0], c);
    if |bytes| >= 2 { ThirdSymbolSplits(bytes[1], if |bytes| >= 3 then bytes[2] else 0); }
  }

  /* ------------------------------- decoding ------------------------------ */

  predicate OneBytePadded(s: seq<Symbol>) {
    |s| == 4 && s[0] != PAD && s[1] != PAD && s[2] == PAD && s[3] == PAD
  }

  predicate TwoBytePadded(s: seq<Symbol>) {
    |s| == 4 && s[0] != PAD && s[1] != PAD && s[2] != PAD && s[3] == PAD
  }

  predicate FullGroup(s: seq<Symbol>) {
    |s| >= 4 && s[0] != PAD && s[1] != PAD && s[2] != PAD && s[3] != PAD
  }

  // The syntax: whole groups of four, and at most one padded final group.
  predicate Canonical(s: seq<Symbol>) {
    s == [] || OneBytePadded(s) || TwoBytePadded(s) || (FullGroup(s) && Canonical(s[4..]))
  }

  // The runtime's own decoder on symbols of that syntax: it drops the spare bits.
  function LenientDecode(s: seq<Symbol>): seq<Byte>
    requires Canonical(s)
  {
    if s == [] then []
    else if OneBytePadded(s) then [FirstByte(s[0], s[1])]
    else if TwoBytePadded(s) then [FirstByte(s[0], s[1]), SecondByte(s[1], s[2])]
    else ThreeBytes(s[0], s[1], s[2], s[3]) + LenientDecode(s[4..])
  }

  function FirstByte(a: Symbol, b: Symbol): Byte
    requires a != PAD && b != PAD
  {
    4 * (a as int) + b as int / 16
  }

  function SecondByte(b: Symbol, c: Symbol): Byte
    requires b != PAD && c != PAD
  {
    16 * (b as int % 16) + c as int / 4
  }

  function ThirdByte(c: Symbol, d: Symbol): Byte
    requires c != PAD && d != PAD
  {
    64 * (c as int % 4) + d as int
  }

  function ThreeBytes(a: Symbol, b: Symbol, c: Symbol, d: Symbol): seq<Byte>
    requires a != PAD && b != PAD && c != PAD && d != PAD
  {
    [FirstByte(a, b), SecondByte(b, c), ThirdByte(c, d)]
  }

  // Padding stands in the last place or the last two of whole groups of four.
  lemma {:induction false} CanonicalMeans(s: seq<Symbol>)
    ensures Canonical(s) <==>
            |s| % 4 == 0 && forall i | 0 <= i < |s| && s[i] == PAD :: i == |s| - 1 || (i == |s| - 2 && s[i + 1] == PAD)
  {
    if |s| >= 4 {
      CanonicalMeans(s[4..]);
      if FullGroup(s) {
        assert forall i | 4 <= i < |s| :: s[i] == s[4..][i - 4];
      }
    }
  }

  predicate CanonicalText(text: string) {
    Legible(text) && Canonical(Symbols(text))
  }

  function DecodeStrictBase64(text: string): Option<seq<Byte>> {
    if text == "" || !CanonicalText(text) then None
    else
      var decoded := LenientDecode(Symbols(text));
      if Encode(decoded) != text then None else Some(decoded)
  }

  // The bits a padded final group does not use are zero.
  predicate SpareBitsZero(s: seq<Symbol>)
    requires Canonical(s)
  {
    if s == [] then true
    else if OneBytePadded(s) then s[1] % 16 == 0
    else if TwoBytePadded(s) then s[2] % 4 == 0
    else SpareBitsZero(s[4..])
  }

  /* --------------------------- what is accepted -------------------------- */

  lemma SecondSymbolSplits(a: Byte, b: Byte)
    ensures Group(a, b, 0)[1] / 16 == a % 4 && Group(a, b, 0)[1] % 16 == b / 16 && Group(a, b, 0)[1] < 64
  {
  }

  lemma ThirdSymbolSplits(b: Byte, c: Byte)
    ensures Group(0, b, c)[2] / 4 == b % 16 && Group(0, b, c)[2] % 4 == c / 64 && Group(0, b, c)[2] < 64
  {
  }

  lemma FirstDecodes(a: Byte, b: Byte)
    ensures a / 4 != PAD && Group(a, b, 0)[1] != PAD && FirstByte(a / 4, Group(a, b, 0)[1]) == a
  {
    SecondSymbolSplits(a, b);
  }

  lemma SecondDecodes(a: Byte, b: Byte, c: Byte)
    ensures Group(a, b, 0)[1] != PAD && Group(0, b, c)[2] != PAD
    ensures SecondByte(Group(a, b, 0)[1], Group(0, b, c)[2]) == b
  {
    SecondSymbolSplits(a, b);
    ThirdSymbolSplits(b, c);
  }

  lemma ThirdDecodes(b: Byte, c: Byte)
    ensures Group(0, b, c)[2] != PAD && c % 64 != PAD && ThirdByte(Group(0, b, c)[2], c % 64) == c
  {
    ThirdSymbolSplits(b, c);
  }

  lemma GroupDecodes(a: Byte, b: Byte, c: Byte)
    ensures var g := Group(a, b, c); FullGroup(g) && ThreeBytes(g[0], g[1], g[2], g[3]) == [a, b, c]
  {
    FirstDecodes(a, b);
    SecondDecodes(a, b, c);
    ThirdDecodes(b, c);
  }

  lemma FirstSplits(a: Symbol, b: Symbol)
    requires a != PAD && b != PAD
    ensures FirstByte(a, b) / 4 == a && FirstByte(a, b) % 4 == b / 16
  {
  }

  lemma SecondSplits(b: Symbol, c: Symbol)
    requires b != PAD && c != PAD
    ensures SecondByte(b, c) / 16 == b % 16 && SecondByte(b, c) % 16 == c / 4
  {
  }

  lemma ThirdSplits(c: Symbol, d: Symbol)
    requires c != PAD && d != PAD
    ensures ThirdByte(c, d) / 64 == c % 4 && ThirdByte(c, d) % 64 == d
  {
  }

  lemma GroupEncodes(a: Symbol, b: Symbol, c: Symbol, d: Symbol)
    requires a != PAD && b != PAD && c != PAD && d != PAD
    ensures Group(FirstByte(a, b), SecondByte(b, c), ThirdByte(c, d)) == [a, b, c, d]
  {
    FirstSplits(a, b);
    SecondSplits(b, c);
    ThirdSplits(c, d);
  }

  lemma {:induction false} EncodeIsCanonical(bytes: seq<Byte>)
    ensures Canonical(EncodeSymbols(bytes)) && (bytes != [] ==> EncodeSymbols(bytes) != [])
    ensures LenientDecode(EncodeSymbols(bytes)) == bytes
  {
    if |bytes| >= 3 {
      var group, rest := Group(bytes[0], bytes[1], bytes[2]), EncodeSymbols(bytes[3..]);
      GroupDecodes(bytes[0], bytes[1], bytes[2]);
      EncodeIsCanonical(bytes[3..]);
      assert (group + rest)[4..] == rest;
      assert bytes == bytes[..3] + bytes[3..] && bytes[..3] == [bytes[0], bytes[1], bytes[2]];
    }
  }

  // A string is accepted exactly when it is the encoding of some bytes, one or
  // more, and those bytes are returned.
  lemma AcceptsEncodings(text: string, bytes: seq<Byte>)
    ensures DecodeStrictBase64(text) == Some(bytes) <==> bytes != [] && Encode(bytes) == text
  {
    EncodeIsCanonical(bytes);
    SpelledRead(EncodeSymbols(bytes));
    if bytes != [] && Encode(bytes) == text {
      assert |text| == |EncodeSymbols(bytes)| > 0;
    }
    if DecodeStrictBase64(text) == Some(bytes) {
      assert bytes == [] ==> Encode(bytes) == "";
    }
  }

  lemma AcceptsOnlyEncodings(text: string)
    ensures DecodeStrictBase64(text).Some? <==> exists bytes :: bytes != [] && Encode(bytes) == text
  {
    if DecodeStrictBase64(text).Some? {
      AcceptsEncodings(text, DecodeStrictBase64(text).value);
    }
    if bytes :| bytes != [] && Encode(bytes) == text {
      AcceptsEncodings(text, bytes);
    }
  }

  // No two accepted strings stand for the same bytes.
  lemma DecodeInjective(text: string, other: string)
    requires DecodeStrictBase64(text).Some? && DecodeStrictBase64(text) == DecodeStrictBase64(other)
    ensures text == other
  {
    AcceptsEncodings(text, DecodeStrictBase64(text).value);
    AcceptsEncodings(other, DecodeStrictBase64(text).value);
  }

  // The same text with its spare bits set to zero.
  function SpareBitsCleared(s: seq<Symbol>): seq<Symbol>
    requires Canonical(s)
  {
    if s == [] then []
    else if OneBytePadded(s) then [s[0], s[1] / 16 * 16, PAD, PAD]
    else if TwoBytePadded(s) then [s[0], s[1], s[2] / 4 * 4, PAD]
    else s[..4] + SpareBitsCleared(s[4..])
  }

  lemma {:induction false} Reencodes(s: seq<Symbol>)
    requires Canonical(s)
    ensures EncodeSymbols(LenientDecode(s)) == SpareBitsCleared(s)
  {
    if s != [] && !OneBytePadded(s) && !TwoBytePadded(s) {
      var bytes, rest := ThreeBytes(s[0], s[1], s[2], s[3]), LenientDecode(s[4..]);
      Reencodes(s[4..]);
      GroupEncodes(s[0], s[1], s[2], s[3]);
      assert (bytes + rest)[3..] == rest;
      assert EncodeSymbols(bytes + rest) == s[..4] + EncodeSymbols(rest);
    } else if s != [] {
      PaddedReencodes(s);
    }
  }

  // Only the last symbol before the padding changes: the low four bits of it
  // become zero before "==", the low two before "=".
  lemma {:induction false} ClearedMeans(s: seq<Symbol>)
    requires Canonical(s)
    ensures var cleared, n := SpareBitsCleared(s), |s|;
            && |cleared| == n
            && forall i | 0 <= i < n ::
                 cleared[i] == if i == n - 3 && s[n - 2] == PAD then s[i] - s[i] % 16
                               else if i == n - 2 && s[i] != PAD && s[n - 1] == PAD then s[i] - s[i] % 4
                               else s[i]
  {
    if s != [] && !OneBytePadded(s) && !TwoBytePadded(s) {
      ClearedMeans(s[4..]);
      assert SpareBitsCleared(s) == s[..4] + SpareBitsCleared(s[4..]);
    }
  }

  lemma {:induction false} ClearedIff(s: seq<Symbol>)
    requires Canonical(s)
    ensures SpareBitsCleared(s) == s <==> SpareBitsZero(s)
  {
    if s != [] && !OneBytePadded(s) && !TwoBytePadded(s) {
      ClearedIff(s[4..]);
      assert s == s[..4] + s[4..];
    }
  }

  lemma PaddedReencodes(s: seq<Symbol>)
    requires OneBytePadded(s) || TwoBytePadded(s)
    ensures OneBytePadded(s) ==> EncodeSymbols(LenientDecode(s)) == [s[0], s[1] / 16 * 16, PAD, PAD]
    ensures TwoBytePadded(s) ==> EncodeSymbols(LenientDecode(s)) == [s[0], s[1], s[2] / 4 * 4, PAD]
  {
    FirstSplits(s[0], s[1]);
    if TwoBytePadded(s) { SecondSplits(s[1], s[2]); }
  }

  // Of the strings with the right syntax, those accepted are exactly the ones
  // whose spare bits are zero.
  lemma AcceptsIffSpareBitsZero(text: string)
    requires text != "" && CanonicalText(text)
    ensures DecodeStrictBase64(text).Some? <==> SpareBitsZero(Symbols(text))
  {
    var symbols := Symbols(text);
    Reencodes(symbols);
    ClearedIff(symbols);
    ReadSpelled(text);
    SpelledRead(EncodeSymbols(LenientDecode(symbols)));
  }

  lemma SymbolsCollide(s: seq<Symbol>, t: seq<Symbol>)
    requires Canonical(s) && Canonical(t)
    ensures LenientDecode(s) == LenientDecode(t) <==> SpareBitsCleared(s) == SpareBitsCleared(t)
    ensures Canonical(SpareBitsCleared(s)) && LenientDecode(SpareBitsCleared(s)) == LenientDecode(s)
  {
    Reencodes(s);
    Reencodes(t);
    EncodeIsCanonical(LenientDecode(s));
    EncodeIsCanonical(LenientDecode(t));
  }

  // What the runtime's own decoder makes of a text with the right syntax.
  function RuntimeDecode(text: string): seq<Byte>
    requires CanonicalText(text)
  {
    LenientDecode(Symbols(text))
  }

  function WithoutSpareBits(text: string): string
    requires CanonicalText(text)
  {
    Spelled(SpareBitsCleared(Symbols(text)))
  }

  // Two texts read the same to the runtime's decoder exactly when they differ in
  // nothing but spare bits; of those that do, the strict one keeps just the one
  // without any set, and reads it as the runtime reads them all.
  lemma SpareBitsCollide(text: string, other: string)
    requires CanonicalText(text) && CanonicalText(other)
    ensures RuntimeDecode(text) == RuntimeDecode(other) <==> WithoutSpareBits(text) == WithoutSpareBits(other)
    ensures text != "" ==> DecodeStrictBase64(WithoutSpareBits(text)) == Some(RuntimeDecode(text))
    ensures DecodeStrictBase64(text).Some? ==> text == WithoutSpareBits(text)
  {
    SymbolsCollide(Symbols(text), Symbols(other));
    SpelledRead(SpareBitsCleared(Symbols(text)));
    SpelledRead(SpareBitsCleared(Symbols(other)));
    StrictKeepsCleared(text);
  }

  lemma StrictKeepsCleared(text: string)
    requires CanonicalText(text)
    ensures text != "" ==> DecodeStrictBase64(WithoutSpareBits(text)) == Some(RuntimeDecode(text))
    ensures DecodeStrictBase64(text).Some? ==> text == WithoutSpareBits(text)
  {
    Reencodes(Symbols(text));
    assert Encode(RuntimeDecode(text)) == WithoutSpareBits(text);
    if text != "" {
      assert Symbols(text) != [] && RuntimeDecode(text) != [];
      AcceptsEncodings(WithoutSpareBits(text), RuntimeDecode(text));
    }
  }

  lemma {:induction false} NoPaddingNoSpareBits(s: seq<Symbol>)
    requires Canonical(s) && PAD !in s
    ensures SpareBitsZero(s)
  {
    if s != [] {
      assert s[|s| - 1] in s;
      assert forall x | x in s[4..] :: x in s;
      NoPaddingNoSpareBits(s[4..]);
    }
  }

  // Texts without padding have no spare bits: even the runtime's decoder tells
  // any two of them apart.
  lemma UnpaddedNeverCollide(text: string, other: string)
    requires CanonicalText(text) && CanonicalText(other) && '=' !in text && '=' !in other
    requires RuntimeDecode(text) == RuntimeDecode(other)
    ensures text == other
  {
    var s, t := Symbols(text), Symbols(other);
    NoPaddingNoSpareBits(s);
    NoPaddingNoSpareBits(t);
    ClearedIff(s);
    ClearedIff(t);
    SymbolsCollide(s, t);
    ReadSpelled(text);
    ReadSpelled(other);
  }
}

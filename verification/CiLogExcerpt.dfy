// Cutting a redacted log down to a byte budget without cutting a character in
// two or letting the start of a key block through.
module CiLogExcerpt {
  import opened Prelude
  import opened Utf8

  function Ascii(text: string): seq<Unit>
    requires forall i | 0 <= i < |text| :: text[i] as int < 0x80
  {
    seq(|text|, i requires 0 <= i < |text| => text[i] as int)
  }

  const BEGIN := Ascii("-----BEGIN ")
  const DASHES := Ascii("-----")
  const TRUNCATED_PEM := Ascii("[REDACTED TRUNCATED PEM]")
  const NEWLINE: Unit := 10

  function ByteLength(text: seq<Unit>): nat {
    |Encode(Scalars(text))|
  }

  /* -------------------------- key block markers -------------------------- */

  predicate Upper(u: Unit) { 'A' as int <= u <= 'Z' as int }

  predicate LabelUnit(u: Unit) {
    Upper(u) || '0' as int <= u <= '9' as int || u == ' ' as int
  }

  // "-----BEGIN ", a label of two or more characters, "-----".
  predicate IsMarker(text: seq<Unit>) {
    && |text| >= 18
    && text[..11] == BEGIN && text[|text| - 5..] == DASHES
    && Upper(text[11]) && forall i | 12 <= i < |text| - 5 :: LabelUnit(text[i])
  }

  predicate MarkerAt(text: seq<Unit>, start: nat) {
    exists end | start <= end <= |text| :: IsMarker(text[start..end])
  }

  predicate HasMarker(text: seq<Unit>) {
    exists start: nat | start < |text| :: MarkerAt(text, start)
  }

  // The leftmost marker at or after `start`.
  function FirstMarker(text: seq<Unit>, start: nat): Option<nat>
    requires start <= |text|
    decreases |text| - start
  {
    if start == |text| then None
    else if MarkerAt(text, start) then Some(start)
    else FirstMarker(text, start + 1)
  }

  // Everything from the first marker on gives way to the notice.
  function WithoutOpenBlock(text: seq<Unit>): seq<Unit> {
    match FirstMarker(text, 0)
    case None => text
    case Some(start) => if start <= |text| then text[..start] + TRUNCATED_PEM else text
  }

  lemma {:induction false} FirstMarkerMeans(text: seq<Unit>, start: nat)
    requires start <= |text|
    ensures FirstMarker(text, start).None? ==> forall k: nat | start <= k < |text| :: !MarkerAt(text, k)
    ensures FirstMarker(text, start).Some? ==>
      var found := FirstMarker(text, start).value;
      start <= found < |text| && MarkerAt(text, found) && forall k: nat | start <= k < found :: !MarkerAt(text, k)
    decreases |text| - start
  {
    if start < |text| && !MarkerAt(text, start) { FirstMarkerMeans(text, start + 1); }
  }

  predicate IsLabel(kind: seq<Unit>) {
    && |kind| >= 2 && 0x41 <= kind[0] <= 0x5A
    && forall i | 1 <= i < |kind| :: 0x41 <= kind[i] <= 0x5A || 0x30 <= kind[i] <= 0x39 || kind[i] == 0x20
  }

  // A marker is "-----BEGIN ", a label in capitals, digits and spaces, "-----".
  lemma MarkerMeans(text: seq<Unit>)
    ensures IsMarker(text) <==> exists kind :: IsLabel(kind) && text == Ascii("-----BEGIN ") + kind + Ascii("-----")
  {
    if IsMarker(text) {
      var kind := text[11..|text| - 5];
      assert forall i | 0 <= i < |kind| :: kind[i] == text[i + 11];
      assert IsLabel(kind) && text == Ascii("-----BEGIN ") + kind + Ascii("-----");
    }
    if kind :| IsLabel(kind) && text == Ascii("-----BEGIN ") + kind + Ascii("-----") {
      LabelMarks(text, kind);
    }
  }

  lemma LabelMarks(text: seq<Unit>, kind: seq<Unit>)
    requires IsLabel(kind) && text == Ascii("-----BEGIN ") + kind + Ascii("-----")
    ensures IsMarker(text)
  {
    assert |text| == 11 + |kind| + 5;
    assert forall i | 0 <= i < |kind| :: text[i + 11] == kind[i];
    assert forall i | 12 <= i < |text| - 5 :: text[i] == kind[i - 11];
  }

  // From the leftmost marker on, the text gives way to the notice.
  lemma OpenBlockMeans(text: seq<Unit>)
    ensures !HasMarker(text) ==> WithoutOpenBlock(text) == text
    ensures HasMarker(text) ==>
      exists cut: nat :: cut < |text| && MarkerAt(text, cut) && (forall k: nat | k < cut :: !MarkerAt(text, k))
        && WithoutOpenBlock(text) == text[..cut] + Ascii("[REDACTED TRUNCATED PEM]")
  {
    FirstMarkerMeans(text, 0);
  }

  lemma MarkerUnits(text: seq<Unit>)
    requires IsMarker(text)
    ensures text[0] == '-' as int && forall i | 0 <= i < |text| :: text[i] != '[' as int
  {
    forall i | 0 <= i < |text|
      ensures text[i] != '[' as int
    {
      if i < 11 { assert text[i] == BEGIN[i]; }
      else if i >= |text| - 5 { assert text[i] == DASHES[i - (|text| - 5)]; }
    }
    assert text[0] == BEGIN[0];
  }

  // The notice never completes a marker, so none is left.
  lemma NoMarkerLeft(text: seq<Unit>)
    ensures !HasMarker(WithoutOpenBlock(text))
  {
    FirstMarkerMeans(text, 0);
    var cut := FirstMarker(text, 0);
    if cut.Some? {
      var safe := WithoutOpenBlock(text);
      forall start: nat, end: nat | start <= end <= |safe| && start < |safe|
        ensures !IsMarker(safe[start..end])
      {
        NoMarkerIn(text, cut.value, safe, start, end);
      }
    }
  }

  lemma NoticeHasNoDash(i: nat)
    requires i < |TRUNCATED_PEM|
    ensures TRUNCATED_PEM[i] != '-' as int
  {
    assert '-' !in "[REDACTED TRUNCATED PEM]";
  }

  lemma NoMarkerIn(text: seq<Unit>, cut: nat, safe: seq<Unit>, start: nat, end: nat)
    requires cut < |text| && safe == text[..cut] + TRUNCATED_PEM && start <= end <= |safe|
    requires forall k: nat | k < cut :: !MarkerAt(text, k)
    ensures !IsMarker(safe[start..end])
  {
    if end <= cut {
      BeforeCut(text, cut, start, end);
      assert safe[start..end] == text[start..end];
    } else if start <= cut {
      assert safe[cut] == '[' as int;
      HoldsBracket(safe, start, end, cut);
    } else if start < end {
      assert safe[start] == TRUNCATED_PEM[start - cut];
      NoticeHasNoDash(start - cut);
      StartsElsewhere(safe, start, end);
    }
  }

  lemma BeforeCut(text: seq<Unit>, cut: nat, start: nat, end: nat)
    requires cut < |text| && start <= end <= cut
    requires forall k: nat | k < cut :: !MarkerAt(text, k)
    ensures !IsMarker(text[start..end])
  {
    if start < cut { assert !MarkerAt(text, start); }
  }

  lemma HoldsBracket(text: seq<Unit>, start: nat, end: nat, at: nat)
    requires start <= at < end <= |text| && text[at] == '[' as int
    ensures !IsMarker(text[start..end])
  {
    assert text[start..end][at - start] == '[' as int;
    if IsMarker(text[start..end]) { MarkerUnits(text[start..end]); }
  }

  lemma StartsElsewhere(text: seq<Unit>, start: nat, end: nat)
    requires start < end <= |text| && text[start] != '-' as int
    ensures !IsMarker(text[start..end])
  {
    if IsMarker(text[start..end]) { MarkerUnits(text[start..end]); }
  }

  lemma PrefixHasNoMarker(text: seq<Unit>, n: nat)
    requires n <= |text| && !HasMarker(text)
    ensures !HasMarker(text[..n])
  {
    forall start: nat, end: nat | start <= end <= n && start < n
      ensures !IsMarker(text[..n][start..end])
    {
      assert text[..n][start..end] == text[start..end];
      assert !MarkerAt(text, start);
    }
  }

  /* ------------------------------ the excerpt ---------------------------- */

  predicate LongestFitting(scalars: seq<Scalar>, k: nat, room: nat) {
    k <= |scalars| && |Encode(scalars[k..])| <= room && forall j | 0 <= j < k :: |Encode(scalars[j..])| > room
  }

  // Where the longest suffix of whole characters that fits starts; see `TailFromFits`.
  function TailFrom(scalars: seq<Scalar>, room: nat): (k: nat)
    ensures k <= |scalars|
  {
    if |Encode(scalars)| <= room then 0 else 1 + TailFrom(scalars[1..], room)
  }

  lemma {:induction false} TailFromFits(scalars: seq<Scalar>, room: nat)
    ensures LongestFitting(scalars, TailFrom(scalars, room), room)
  {
    if |Encode(scalars)| > room {
      TailFromFits(scalars[1..], room);
      var k := TailFrom(scalars[1..], room);
      assert scalars[k + 1..] == scalars[1..][k..];
      forall j | 0 <= j < k + 1
        ensures |Encode(scalars[j..])| > room
      {
        if j > 0 { assert scalars[j..] == scalars[1..][j - 1..]; } else { assert scalars[0..] == scalars; }
      }
    } else {
      assert scalars[0..] == scalars;
    }
  }

  function FirstLineBytes(value: seq<Unit>, preserveFirstLine: bool): nat {
    if preserveFirstLine && NEWLINE in value then ByteLength(value[..LineEnd(value) + 1]) else 0
  }

  function LineEnd(value: seq<Unit>): (end: nat)
    requires NEWLINE in value
    ensures end < |value| && value[end] == NEWLINE && NEWLINE !in value[..end]
  {
    if value[0] == NEWLINE then 0
    else
      var rest := LineEnd(value[1..]);
      assert value[..rest + 1] == [value[0]] + value[1..][..rest];
      rest + 1
  }

  function Least(a: nat, b: nat): nat { if a <= b then a else b }

  function Tail(scalars: seq<Scalar>, room: nat): seq<Byte> {
    Encode(scalars[TailFrom(scalars, room)..])
  }

  // The bytes kept of the front.
  function PrefixBytes(scalars: seq<Scalar>, requested: nat, maxBytes: nat): (n: nat)
    ensures n <= maxBytes && n <= |Encode(scalars)|
  {
    Least(Least(requested, maxBytes), |Encode(scalars)|)
  }

  // Those bytes, and the longest suffix of whole characters that fits beside them.
  function Kept(scalars: seq<Scalar>, requested: nat, maxBytes: nat): seq<Byte> {
    var prefixBytes := PrefixBytes(scalars, requested, maxBytes);
    Encode(scalars)[..prefixBytes] + Tail(scalars, maxBytes - prefixBytes)
  }

  function Excerpt(value: seq<Unit>, maxBytes: nat, preserveFirstLine: bool): seq<Unit> {
    Units(Decode(Kept(Scalars(value), FirstLineBytes(value, preserveFirstLine), maxBytes)))
  }

  // Skips forward to the start of a character; that is where the longest suffix
  // of whole characters fitting after `start` begins.
  method CharacterBoundary(bytes: seq<Byte>, start: nat, ghost scalars: seq<Scalar>) returns (tailStart: nat)
    requires bytes == Encode(scalars) && start <= |bytes|
    ensures start <= tailStart <= |bytes|
    ensures bytes[tailStart..] == Tail(scalars, |bytes| - start)
  {
    tailStart := start;
    while tailStart < |bytes| && Continuation(bytes[tailStart])
      invariant start <= tailStart <= |bytes|
      invariant forall i | start <= i < tailStart :: Continuation(bytes[i])
    {
      tailStart := tailStart + 1;
    }
    TailStartsAt(scalars, start, tailStart);
  }

  lemma TailStartsAt(scalars: seq<Scalar>, start: nat, stop: nat)
    requires start <= stop <= |Encode(scalars)|
    requires forall i | start <= i < stop :: Continuation(Encode(scalars)[i])
    requires stop < |Encode(scalars)| ==> !Continuation(Encode(scalars)[stop])
    ensures Encode(scalars)[stop..] == Tail(scalars, |Encode(scalars)| - start)
  {
    var k := TailStop(scalars, start, stop);
    OffsetSplits(scalars, k);
  }

  lemma TailStop(scalars: seq<Scalar>, start: nat, stop: nat) returns (k: nat)
    requires start <= stop <= |Encode(scalars)|
    requires forall i | start <= i < stop :: Continuation(Encode(scalars)[i])
    requires stop < |Encode(scalars)| ==> !Continuation(Encode(scalars)[stop])
    ensures k <= |scalars| && Offset(scalars, k) == stop && k == TailFrom(scalars, |Encode(scalars)| - start)
  {
    k := StopsAt(scalars, start, stop);
    OnlyOneLongest(scalars, k, |Encode(scalars)| - start);
  }

  lemma OnlyOneLongest(scalars: seq<Scalar>, k: nat, room: nat)
    requires LongestFitting(scalars, k, room)
    ensures k == TailFrom(scalars, room)
  {
    TailFromFits(scalars, room);
  }

  lemma StopsAt(scalars: seq<Scalar>, start: nat, stop: nat) returns (k: nat)
    requires start <= stop <= |Encode(scalars)|
    requires forall i | start <= i < stop :: Continuation(Encode(scalars)[i])
    requires stop < |Encode(scalars)| ==> !Continuation(Encode(scalars)[stop])
    ensures k <= |scalars| && Offset(scalars, k) == stop && LongestFitting(scalars, k, |Encode(scalars)| - start)
  {
    if stop == |Encode(scalars)| {
      k := |scalars|;
      assert scalars[..k] == scalars;
    } else {
      k := BoundaryIff(scalars, stop);
    }
    OffsetSplits(scalars, k);
    forall j | 0 <= j < k
      ensures |Encode(scalars[j..])| > |Encode(scalars)| - start
    {
      OffsetsGrow(scalars, j, k);
      OffsetSplits(scalars, j);
      var at := BoundaryIff(scalars, Offset(scalars, j));
      if at < j { OffsetsGrow(scalars, at, j); BeforeNext(scalars, at, j); }
      if j < at { OffsetsGrow(scalars, j, at); }
    }
  }

  lemma BeforeNext(scalars: seq<Scalar>, at: nat, j: nat)
    requires at < j <= |scalars|
    ensures Offset(scalars, at + 1) <= Offset(scalars, j)
  {
    if at + 1 < j { OffsetsGrow(scalars, at + 1, j); }
  }

  /* ------------------------------ the method ----------------------------- */

  method KeepBytes(scalars: seq<Scalar>, requested: nat, maxBytes: nat) returns (kept: seq<Byte>)
    requires |Encode(scalars)| > maxBytes
    ensures kept == Kept(scalars, requested, maxBytes)
  {
    var bytes := Encode(scalars);
    var prefixBytes := Least(requested, maxBytes);
    var tailBytes := maxBytes - prefixBytes;
    var tailStart := CharacterBoundary(bytes, |bytes| - tailBytes, scalars);
    assert PrefixBytes(scalars, requested, maxBytes) == prefixBytes;
    if tailBytes == 0 { NothingFitsInNothing(scalars); }
    assert (if tailBytes > 0 then bytes[tailStart..] else []) == Tail(scalars, tailBytes);
    kept := bytes[..prefixBytes] + (if tailBytes > 0 then bytes[tailStart..] else []);
  }

  lemma NothingFitsInNothing(scalars: seq<Scalar>)
    ensures Tail(scalars, 0) == []
  {
    TailFromFits(scalars, 0);
  }

  // Drops code units from the end until the text fits, and no more than that.
  method Trim(text: seq<Unit>, maxBytes: nat) returns (trimmed: seq<Unit>)
    ensures trimmed <= text && ByteLength(trimmed) <= maxBytes
    ensures trimmed != text ==> ByteLength(text[..|trimmed| + 1]) > maxBytes
  {
    trimmed := text;
    while ByteLength(trimmed) > maxBytes
      invariant trimmed <= text
      invariant trimmed != text ==> ByteLength(text[..|trimmed| + 1]) > maxBytes
      decreases |trimmed|
    {
      ghost var before := trimmed;
      trimmed := trimmed[..|trimmed| - 1];
      assert text[..|trimmed| + 1] == before;
    }
  }

  // A text that fits is returned as it is. A longer one is cut to the excerpt,
  // loses everything from the first key block marker on, and is trimmed until
  // it fits: it never exceeds the budget, and it holds a whole marker exactly
  // when the text did and was short enough to be kept.
  method TruncateRedactedCiLog(value: seq<Unit>, maxBytes: nat, preserveFirstLine: bool) returns (result: seq<Unit>)
    ensures ByteLength(result) <= maxBytes
    ensures ByteLength(value) <= maxBytes ==> result == value
    ensures HasMarker(result) <==> HasMarker(value) && ByteLength(value) <= maxBytes
    ensures ByteLength(value) > maxBytes ==>
      var safe := WithoutOpenBlock(Excerpt(value, maxBytes, preserveFirstLine));
      result <= safe && (result != safe ==> ByteLength(safe[..|result| + 1]) > maxBytes)
  {
    if ByteLength(value) <= maxBytes { return value; }
    var kept := KeepBytes(Scalars(value), FirstLineBytes(value, preserveFirstLine), maxBytes);
    var safeTruncated := WithoutOpenBlock(Units(Decode(kept)));
    NoMarkerLeft(Units(Decode(kept)));
    result := Trim(safeTruncated, maxBytes);
    PrefixHasNoMarker(safeTruncated, |result|);
    assert safeTruncated[..|result|] == result;
  }

  lemma KeptIsTail(scalars: seq<Scalar>, maxBytes: nat)
    ensures Kept(scalars, 0, maxBytes) == Tail(scalars, maxBytes)
  {
    Prepended(Encode(scalars), Tail(scalars, maxBytes));
  }

  lemma Prepended(bytes: seq<Byte>, tail: seq<Byte>)
    ensures bytes[..0] + tail == tail
  {
  }

  lemma ExcerptIsTail(value: seq<Unit>, maxBytes: nat)
    ensures Excerpt(value, maxBytes, false) == Units(Scalars(value)[TailFrom(Scalars(value), maxBytes)..])
  {
    KeptIsTail(Scalars(value), maxBytes);
    DecodeEncode(Scalars(value)[TailFrom(Scalars(value), maxBytes)..]);
  }

  // Without a first line to keep, the excerpt is the longest suffix of whole
  // characters that fits.
  lemma ExcerptIsLongestSuffix(value: seq<Unit>, maxBytes: nat) returns (k: nat)
    ensures LongestFitting(Scalars(value), k, maxBytes) && Excerpt(value, maxBytes, false) == Units(Scalars(value)[k..])
    ensures NEWLINE !in value ==> Excerpt(value, maxBytes, true) == Excerpt(value, maxBytes, false)
  {
    k := TailFrom(Scalars(value), maxBytes);
    TailFromFits(Scalars(value), maxBytes);
    ExcerptIsTail(value, maxBytes);
  }

  function FirstWidth(text: seq<Unit>): (width: nat)
    requires text != []
    ensures 0 < width <= |text|
  {
    if HighSurrogate(text[0]) && |text| > 1 && LowSurrogate(text[1]) then 2 else 1
  }

  function FirstOf(text: seq<Unit>): Scalar
    requires text != []
  {
    if FirstWidth(text) == 2 then 0x10000 + (text[0] - 0xD800) * 0x400 + (text[1] - 0xDC00)
    else if HighSurrogate(text[0]) || LowSurrogate(text[0]) then REPLACEMENT
    else text[0]
  }

  lemma FirstScalar(text: seq<Unit>)
    requires text != []
    ensures Scalars(text) == [FirstOf(text)] + Scalars(text[FirstWidth(text)..])
  {
  }

  lemma SameFirst(front: seq<Unit>, back: seq<Unit>)
    requires front != [] && (|front| == 1 ==> !HighSurrogate(front[0]))
    ensures FirstWidth(front + back) == FirstWidth(front) && FirstOf(front + back) == FirstOf(front)
    ensures (front + back)[FirstWidth(front)..] == front[FirstWidth(front)..] + back
  {
    assert (front + back)[0] == front[0];
    if |front| > 1 { assert (front + back)[1] == front[1]; }
  }

  lemma {:induction false} ScalarsSplit(front: seq<Unit>, back: seq<Unit>)
    requires front != [] && !HighSurrogate(front[|front| - 1])
    ensures Scalars(front + back) == Scalars(front) + Scalars(back)
    decreases |front|
  {
    var step := FirstWidth(front);
    SameFirst(front, back);
    FirstScalar(front);
    FirstScalar(front + back);
    if step < |front| {
      ScalarsSplit(front[step..], back);
    } else {
      assert front[step..] == [] && [] + back == back;
    }
  }

  lemma KeptFront(front: seq<Scalar>, back: seq<Scalar>, maxBytes: nat)
    requires |Encode(front)| <= maxBytes
    ensures var scalars := front + back;
            Kept(scalars, |Encode(front)|, maxBytes)
                == Encode(front + scalars[TailFrom(scalars, maxBytes - |Encode(front)|)..])
  {
    var scalars := front + back;
    EncodeConcat(front, back);
    EncodeConcat(front, scalars[TailFrom(scalars, maxBytes - |Encode(front)|)..]);
  }

  lemma LineSplits(value: seq<Unit>, end: nat)
    requires end < |value| && value[end] == NEWLINE
    ensures Scalars(value) == Scalars(value[..end + 1]) + Scalars(value[end + 1..])
  {
    assert value == value[..end + 1] + value[end + 1..];
    ScalarsSplit(value[..end + 1], value[end + 1..]);
  }

  lemma FirstLineIs(value: seq<Unit>, front: seq<Scalar>)
    requires NEWLINE in value && front == Scalars(value[..LineEnd(value) + 1])
    ensures FirstLineBytes(value, true) == |Encode(front)|
  {
  }

  lemma ExcerptIs(value: seq<Unit>, maxBytes: nat, bytes: seq<Byte>)
    requires bytes == Kept(Scalars(value), FirstLineBytes(value, true), maxBytes)
    ensures Excerpt(value, maxBytes, true) == Units(Decode(bytes))
  {
  }

  lemma ExcerptWithFront(value: seq<Unit>, maxBytes: nat, front: seq<Scalar>, back: seq<Scalar>) returns (k: nat)
    requires Scalars(value) == front + back && FirstLineBytes(value, true) == |Encode(front)| <= maxBytes
    ensures k == TailFrom(Scalars(value), maxBytes - |Encode(front)|)
    ensures Excerpt(value, maxBytes, true) == Units(front + Scalars(value)[k..])
  {
    k := TailFrom(Scalars(value), maxBytes - |Encode(front)|);
    KeptFront(front, back, maxBytes);
    var bytes := Encode(front + Scalars(value)[k..]);
    DecodeEncode(front + Scalars(value)[k..]);
    ExcerptIs(value, maxBytes, bytes);
  }

  // A first line that fits is kept whole, in front of the longest suffix of
  // whole characters that fits beside it.
  lemma ExcerptKeepsFirstLine(value: seq<Unit>, maxBytes: nat) returns (k: nat)
    requires NEWLINE in value && FirstLineBytes(value, true) <= maxBytes
    ensures k == TailFrom(Scalars(value), maxBytes - FirstLineBytes(value, true))
    ensures Excerpt(value, maxBytes, true) == Units(Scalars(value[..LineEnd(value) + 1]) + Scalars(value)[k..])
  {
    var front, back := Scalars(value[..LineEnd(value) + 1]), Scalars(value[LineEnd(value) + 1..]);
    LineSplits(value, LineEnd(value));
    FirstLineIs(value, front);
    k := ExcerptWithFront(value, maxBytes, front, back);
  }

  lemma LineIsLonger(value: seq<Unit>, maxBytes: nat)
    requires NEWLINE in value && FirstLineBytes(value, true) > maxBytes
    ensures |Encode(Scalars(value))| > maxBytes
  {
    var front, back := Scalars(value[..LineEnd(value) + 1]), Scalars(value[LineEnd(value) + 1..]);
    LineSplits(value, LineEnd(value));
    FirstLineIs(value, front);
    EncodeConcat(front, back);
  }

  lemma FrontBytes(scalars: seq<Scalar>, k: nat, n: nat)
    requires k < |scalars| && Offset(scalars, k) <= n < Offset(scalars, k + 1)
    ensures n < |Encode(scalars)| && n - Offset(scalars, k) < |EncodeScalar(scalars[k])|
    ensures Encode(scalars)[..n] == Encode(scalars[..k]) + EncodeScalar(scalars[k])[..n - Offset(scalars, k)]
  {
    OffsetSplits(scalars, k);
    OffsetSplits(scalars, k + 1);
    OffsetStep(scalars, k);
    assert scalars[k..][1..] == scalars[k + 1..];
    assert Encode(scalars[k..]) == EncodeScalar(scalars[k]) + Encode(scalars[k + 1..]);
  }

  lemma KeptWhenCut(value: seq<Unit>, maxBytes: nat)
    requires NEWLINE in value && FirstLineBytes(value, true) > maxBytes
    ensures |Encode(Scalars(value))| > maxBytes
    ensures Excerpt(value, maxBytes, true) == Units(Decode(Encode(Scalars(value))[..maxBytes]))
  {
    LineIsLonger(value, maxBytes);
    NothingFitsInNothing(Scalars(value));
    var front := Encode(Scalars(value))[..maxBytes];
    assert front + [] == front;
    ExcerptIs(value, maxBytes, front);
  }

  // A first line over the budget is cut there: its whole characters stay, and a
  // character the budget cuts in two becomes one replacement character.
  lemma ExcerptCutsFirstLine(value: seq<Unit>, maxBytes: nat) returns (k: nat)
    requires NEWLINE in value && FirstLineBytes(value, true) > maxBytes
    ensures var scalars := Scalars(value);
            && k < |scalars| && |Encode(scalars[..k])| <= maxBytes < |Encode(scalars[..k + 1])|
            && Excerpt(value, maxBytes, true)
               == Units(scalars[..k] + (if |Encode(scalars[..k])| == maxBytes then [] else [0xFFFD]))
  {
    var scalars := Scalars(value);
    KeptWhenCut(value, maxBytes);
    assert scalars[..|scalars|] == scalars;
    k := CharacterAt(scalars, maxBytes, |scalars|);
    FrontBytes(scalars, k, maxBytes);
    if Offset(scalars, k) == maxBytes {
      assert EncodeScalar(scalars[k])[..0] == [] && Encode(scalars[..k]) + [] == Encode(scalars[..k]);
      DecodeEncode(scalars[..k]);
      assert scalars[..k] + [] == scalars[..k];
    } else {
      DecodeCut(scalars[..k], scalars[k], maxBytes - Offset(scalars, k));
    }
  }
}

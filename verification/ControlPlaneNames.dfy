// File names in the durable entry directory, as text.
//
// The protocol below works on the `Name` datatype; this module ties each
// constructor to the characters the program writes and to the pattern the
// inventory uses to recognise leftovers.
module ControlPlaneNames {

  const LOCK_FILENAME := "ownership.lock"
  const STABLE_FILENAME := "control-plane-id.json"
  const OWNER_FILENAME := "owner.json"

  datatype RecordFile = StableFile | OwnerFile

  function RecordFilename(file: RecordFile): string {
    match file
    case StableFile => STABLE_FILENAME
    case OwnerFile => OWNER_FILENAME
  }

  predicate IsDigit(c: char) {
    '0' <= c <= '9'
  }

  predicate IsHex(c: char) {
    IsDigit(c) || 'a' <= c <= 'f'
  }

  // The shape of `randomUUID()`: 8-4-4-4-12 lower-case hexadecimal digits.
  predicate ValidUuid(id: string) {
    && |id| == 36
    && id[8] == '-' && id[13] == '-' && id[18] == '-' && id[23] == '-'
    && forall i | 0 <= i < 36 && i != 8 && i != 13 && i != 18 && i != 23 :: IsHex(id[i])
  }

  predicate ValidDigest(digest: string) {
    |digest| == 64 && forall i | 0 <= i < 64 :: IsHex(digest[i])
  }

  function Decimal(n: nat): (text: string)
    ensures |text| > 0 && forall i | 0 <= i < |text| :: IsDigit(text[i])
  {
    if n < 10 then [('0' as int + n) as char]
    else Decimal(n / 10) + [('0' as int + n % 10) as char]
  }

  function TempPrefix(file: RecordFile): string {
    "." + RecordFilename(file) + ".tmp-"
  }

  function TempFilename(file: RecordFile, pid: nat, incarnation: string): string {
    TempPrefix(file) + (Decimal(pid) + "-" + incarnation)
  }

  // One alternative of the inventory's regular expression. Its tail has a fixed
  // length, so a name splits in at most one way.
  predicate MatchesTempOf(file: RecordFile, name: string) {
    var prefix := TempPrefix(file);
    && |name| > |prefix| + 37
    && name[..|prefix|] == prefix
    && (forall i | |prefix| <= i < |name| - 37 :: IsDigit(name[i]))
    && name[|name| - 37] == '-'
    && (forall i | |name| - 36 <= i < |name| - 28 :: IsHex(name[i]))
    && name[|name| - 28] == '-'
    && (forall i | |name| - 27 <= i < |name| :: IsHex(name[i]) || name[i] == '-')
  }

  predicate MatchesTemp(name: string) {
    MatchesTempOf(StableFile, name) || MatchesTempOf(OwnerFile, name)
  }

  // A name every directory operation accepts: one path component.
  predicate ValidName(name: string) {
    name != "" && name != "." && name != ".." && '/' !in name && '\0' !in name
  }

  lemma TempLayout(prefix: string, digits: string, incarnation: string, name: string)
    requires |digits| > 0 && ValidUuid(incarnation)
    requires name == prefix + (digits + "-" + incarnation)
    ensures |name| == |prefix| + |digits| + 37
    ensures name[..|prefix|] == prefix
    ensures name[|prefix|..|name| - 37] == digits
    ensures name[|name| - 37] == '-'
    ensures name[|name| - 36..] == incarnation
  {
  }

  lemma TempTail(name: string, incarnation: string)
    requires ValidUuid(incarnation) && |name| >= 36 && name[|name| - 36..] == incarnation
    ensures forall i | |name| - 36 <= i < |name| - 28 :: IsHex(name[i])
    ensures name[|name| - 28] == '-'
    ensures forall i | |name| - 27 <= i < |name| :: IsHex(name[i]) || name[i] == '-'
  {
    forall i | |name| - 36 <= i < |name|
      ensures name[i] == incarnation[i - (|name| - 36)]
    {
      assert name[|name| - 36..][i - (|name| - 36)] == name[i];
    }
  }

  // Every temporary name the atomic writer can generate is recognised by the
  // inventory, for any process id and any incarnation id.
  lemma TempFilenameRecognised(file: RecordFile, pid: nat, incarnation: string)
    requires ValidUuid(incarnation)
    ensures MatchesTemp(TempFilename(file, pid, incarnation))
  {
    var name, prefix, digits := TempFilename(file, pid, incarnation), TempPrefix(file), Decimal(pid);
    TempLayout(prefix, digits, incarnation, name);
    TempTail(name, incarnation);
    forall i | |prefix| <= i < |name| - 37
      ensures IsDigit(name[i])
    {
      assert name[|prefix|..|name| - 37][i - |prefix|] == name[i];
    }
    assert MatchesTempOf(file, name);
  }

  // It is also one path component and none of the three fixed names, and it
  // determines its destination and its incarnation.
  lemma TempFilenameDistinct(file: RecordFile, pid: nat, incarnation: string)
    requires ValidUuid(incarnation)
    ensures ValidName(TempFilename(file, pid, incarnation))
    ensures TempFilename(file, pid, incarnation) != LOCK_FILENAME
    ensures forall f :: TempFilename(file, pid, incarnation) != RecordFilename(f)
  {
    var name, prefix, digits := TempFilename(file, pid, incarnation), TempPrefix(file), Decimal(pid);
    assert name[0] == '.';
    assert '/' !in prefix && '\0' !in prefix by { PrefixCharacters(file); }
    assert '/' !in digits && '\0' !in digits;
    assert '/' !in incarnation && '\0' !in incarnation;
    assert |name| > 2;
  }

  lemma PrefixCharacters(file: RecordFile)
    ensures '/' !in TempPrefix(file) && '\0' !in TempPrefix(file)
  {
    assert '/' !in ".tmp-" && '\0' !in ".tmp-";
    match file
    case StableFile => assert '/' !in STABLE_FILENAME && '\0' !in STABLE_FILENAME;
    case OwnerFile => assert '/' !in OWNER_FILENAME && '\0' !in OWNER_FILENAME;
  }

  lemma {:induction false} DecimalInjective(m: nat, n: nat)
    requires Decimal(m) == Decimal(n)
    ensures m == n
  {
    var text := Decimal(m);
    if m >= 10 && n >= 10 {
      assert Decimal(m / 10) == text[..|text| - 1] && Decimal(n / 10) == text[..|text| - 1];
      assert text[|text| - 1] == ('0' as int + m % 10) as char && text[|text| - 1] == ('0' as int + n % 10) as char;
      DecimalInjective(m / 10, n / 10);
    }
  }

  lemma SecondLetter(file: RecordFile, pid: nat, incarnation: string)
    ensures |TempFilename(file, pid, incarnation)| > 1
    ensures file == if TempFilename(file, pid, incarnation)[1] == 'c' then StableFile else OwnerFile
  {
    assert TempFilename(file, pid, incarnation)[1] == RecordFilename(file)[0];
  }

  // No two writes choose one temporary name.
  lemma TempFilenameInjective(file: RecordFile, pid: nat, incarnation: string,
                              file': RecordFile, pid': nat, incarnation': string)
    requires ValidUuid(incarnation) && ValidUuid(incarnation')
    requires TempFilename(file, pid, incarnation) == TempFilename(file', pid', incarnation')
    ensures file == file' && pid == pid' && incarnation == incarnation'
  {
    var name := TempFilename(file, pid, incarnation);
    SecondLetter(file, pid, incarnation);
    SecondLetter(file', pid', incarnation');
    TempLayout(TempPrefix(file), Decimal(pid), incarnation, name);
    TempLayout(TempPrefix(file'), Decimal(pid'), incarnation', name);
    DecimalInjective(pid, pid');
  }

  // The names in full, at one process id.
  lemma TempFilenameSpelled(incarnation: string)
    ensures TempFilename(OwnerFile, 4071, incarnation) == ".owner.json.tmp-4071-" + incarnation
    ensures TempFilename(StableFile, 4071, incarnation) == ".control-plane-id.json.tmp-4071-" + incarnation
  {
    DecimalSpelled();
    assert TempPrefix(OwnerFile) + "4071-" == ".owner.json.tmp-4071-";
    assert TempPrefix(StableFile) + "4071-" == ".control-plane-id.json.tmp-4071-";
    assert "4071" + "-" == "4071-";
    forall file
      ensures TempFilename(file, 4071, incarnation) == TempPrefix(file) + "4071-" + incarnation
    {
      Joined(TempPrefix(file), "4071", "-", incarnation);
    }
  }

  lemma Joined(a: string, b: string, c: string, d: string)
    ensures a + (b + c + d) == a + (b + c) + d
  {
  }

  lemma DecimalSpelled()
    ensures Decimal(4071) == "4071"
  {
    DecimalStep(4071);
    DecimalStep(407);
    DecimalStep(40);
  }

  lemma DecimalStep(n: nat)
    requires n >= 10
    ensures Decimal(n) == Decimal(n / 10) + [('0' as int + n % 10) as char]
  {
  }

  predicate HexDigits(text: string) {
    forall i | 0 <= i < |text| :: '0' <= text[i] <= '9' || 'a' <= text[i] <= 'f'
  }

  predicate Dashed(id: string, a: string, b: string, c: string, d: string, e: string) {
    && id == a + ("-" + b) + ("-" + c) + ("-" + d) + ("-" + e) && HexDigits(a + b + c + d + e)
    && |a| == 8 && |b| == |c| == |d| == 4 && |e| == 12
  }

  // A UUID is five runs of hexadecimal digits, eight, three times four, and
  // twelve, joined by dashes; a digest is 64 such digits.
  lemma UuidSpelled(id: string)
    ensures ValidUuid(id) <==> exists a, b, c, d, e :: Dashed(id, a, b, c, d, e)
    ensures ValidDigest(id) <==> |id| == 64 && HexDigits(id)
  {
    if ValidUuid(id) {
      assert Dashed(id, id[..8], id[9..13], id[14..18], id[19..23], id[24..]);
    }
    if a, b, c, d, e :| Dashed(id, a, b, c, d, e) {
      DashedIsUuid(id, a, b, c, d, e);
    }
  }

  lemma DashedIsUuid(id: string, a: string, b: string, c: string, d: string, e: string)
    requires Dashed(id, a, b, c, d, e)
    ensures ValidUuid(id)
  {
    var digits := a + b + c + d + e;
    forall i | 0 <= i < 36 && i != 8 && i != 13 && i != 18 && i != 23
      ensures IsHex(id[i])
    {
      var dashes := if i < 8 then 0 else if i < 13 then 1 else if i < 18 then 2 else if i < 23 then 3 else 4;
      assert id[i] == digits[i - dashes];
    }
  }

  predicate TempParts(rest: string, pid: string, head: string, tail: string) {
    && rest == pid + ("-" + head) + ("-" + tail)
    && pid != "" && (forall i | 0 <= i < |pid| :: '0' <= pid[i] <= '9')
    && |head| == 8 && HexDigits(head)
    && |tail| == 27 && forall i | 0 <= i < |tail| ::
         '0' <= tail[i] <= '9' || 'a' <= tail[i] <= 'f' || tail[i] == '-'
  }

  // The pattern of a leftover's name, part by part.
  lemma TempPattern(name: string)
    ensures MatchesTemp(name) <==>
      exists rest, pid, head, tail ::
        TempParts(rest, pid, head, tail)
        && (name == ".control-plane-id.json.tmp-" + rest || name == ".owner.json.tmp-" + rest)
  {
    assert TempPrefix(StableFile) == ".control-plane-id.json.tmp-" && TempPrefix(OwnerFile) == ".owner.json.tmp-";
    forall file: RecordFile
      ensures MatchesTempOf(file, name) <==>
        exists rest, pid, head, tail :: TempParts(rest, pid, head, tail) && name == TempPrefix(file) + rest
    {
      TempPatternOf(file, name);
    }
  }

  lemma TempPatternOf(file: RecordFile, name: string)
    ensures MatchesTempOf(file, name) <==>
      exists rest, pid, head, tail :: TempParts(rest, pid, head, tail) && name == TempPrefix(file) + rest
  {
    var prefix := TempPrefix(file);
    if MatchesTempOf(file, name) {
      var rest := name[|prefix|..];
      assert name == prefix + rest;
      RestSplits(rest, name, |prefix|);
    }
    if rest, pid, head, tail :| TempParts(rest, pid, head, tail) && name == prefix + rest {
      PartsMatch(rest, pid, head, tail);
      assert name[..|prefix|] == prefix && |name| == |prefix| + |rest|;
      assert forall i | 0 <= i < |rest| :: name[|prefix| + i] == rest[i];
      assert forall i | |prefix| <= i < |name| :: name[i] == rest[i - |prefix|];
    }
  }

  // The pattern after its prefix.
  predicate RestMatches(rest: string) {
    var n := |rest|;
    && n > 37 && (forall i | 0 <= i < n - 37 :: IsDigit(rest[i])) && rest[n - 37] == '-'
    && (forall i | n - 36 <= i < n - 28 :: IsHex(rest[i])) && rest[n - 28] == '-'
    && forall i | n - 27 <= i < n :: IsHex(rest[i]) || rest[i] == '-'
  }

  lemma RestSplits(rest: string, name: string, from: nat)
    requires from <= |name| && rest == name[from..] && |rest| > 37
    requires (forall i | from <= i < |name| - 37 :: IsDigit(name[i])) && name[|name| - 37] == '-'
    requires (forall i | |name| - 36 <= i < |name| - 28 :: IsHex(name[i])) && name[|name| - 28] == '-'
    requires forall i | |name| - 27 <= i < |name| :: IsHex(name[i]) || name[i] == '-'
    ensures exists pid, head, tail :: TempParts(rest, pid, head, tail)
  {
    var n := |rest|;
    var pid, head, tail := rest[..n - 37], rest[n - 36..n - 28], rest[n - 27..];
    assert rest == pid + ("-" + head) + ("-" + tail);
    assert TempParts(rest, pid, head, tail);
  }

  lemma PartsMatch(rest: string, pid: string, head: string, tail: string)
    requires TempParts(rest, pid, head, tail)
    ensures RestMatches(rest)
  {
    var n := |rest|;
    assert rest[..n - 37] == pid && rest[n - 36..n - 28] == head && rest[n - 27..] == tail;
    assert forall i | 0 <= i < n - 37 :: rest[i] == pid[i];
    assert forall i | n - 36 <= i < n - 28 :: rest[i] == head[i - (n - 36)];
    assert forall i | n - 27 <= i < n :: rest[i] == tail[i - (n - 27)];
  }
}

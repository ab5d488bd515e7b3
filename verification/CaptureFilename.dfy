/**
 The capture naming convention of network_analyzer/core/filename_parser.py: what
 the pattern matches, that a match is unique, and exactly when building and
 parsing undo each other.
 */
module CaptureFilename {
  import opened Wrappers

  datatype Scenario = UPLOAD | DOWNLOAD

  /** A calendar time as Python's `datetime` holds it. */
  datatype DateTime = DateTime(year: nat, month: nat, day: nat, hour: nat, minute: nat, second: nat,
                               microsecond: nat, utcOffset: int)

  datatype Descriptor = Descriptor(packageName: string, scenario: Scenario, capturedAt: DateTime)

  // ----- Calendar -----

  predicate LeapYear(y: nat) { y % 4 == 0 && (y % 100 != 0 || y % 400 == 0) }

  function DaysIn(y: nat, m: nat): nat {
    if m == 2 then (if LeapYear(y) then 29 else 28)
    else if m == 4 || m == 6 || m == 9 || m == 11 then 30 else 31
  }

  predicate RealTime(t: DateTime) {
    && 1 <= t.year <= 9999 && 1 <= t.month <= 12 && 1 <= t.day <= DaysIn(t.year, t.month)
    && t.hour < 24 && t.minute < 60 && t.second < 60
  }

  /** To the second, in UTC: all a file name can say. */
  function ToSecond(t: DateTime): DateTime { t.(microsecond := 0, utcOffset := 0) }

  // ----- Characters -----

  predicate IsDigit(c: char) { '0' <= c <= '9' }

  /** ASCII letters, and the four others that `[a-z]` matches when case is ignored. */
  predicate IsLetter(c: char) {
    'a' <= c <= 'z' || 'A' <= c <= 'Z' || c as int in {0x130, 0x131, 0x17F, 0x212A}
  }

  predicate IsWordChar(c: char) { IsLetter(c) || IsDigit(c) || c == '_' }

  function LowerChar(c: char): char {
    if 'A' <= c <= 'Z' then (c as int + 32) as char else c
  }

  function Lower(s: string): (r: string)
    ensures |r| == |s| && forall i :: 0 <= i < |s| ==> r[i] == LowerChar(s[i])
  {
    seq(|s|, i requires 0 <= i < |s| => LowerChar(s[i]))
  }

  function DigitOf(c: char): nat
    requires IsDigit(c)
  {
    c as int - '0' as int
  }

  function CharOf(d: nat): (c: char)
    requires d < 10
    ensures IsDigit(c) && DigitOf(c) == d
  {
    (d + '0' as int) as char
  }

  // ----- The package grammar -----

  /** A letter first, then word characters and dots: at least one dot, none doubled, none last. */
  predicate IsPackage(p: string) {
    && p != "" && IsLetter(p[0])
    && (forall i :: 0 <= i < |p| ==> IsWordChar(p[i]) || p[i] == '.')
    && (forall i :: 0 <= i < |p| && p[i] == '.' ==> i + 1 < |p| && p[i + 1] != '.')
    && (exists i :: 0 <= i < |p| && p[i] == '.')
  }

  // ----- Timestamps -----

  const STAMP_LENGTH: nat := 15

  /** Eight digits, a T in either case, six digits. */
  predicate IsStamp(s: string) {
    && |s| == STAMP_LENGTH
    && (forall i :: 0 <= i < STAMP_LENGTH && i != 8 ==> IsDigit(s[i]))
    && (s[8] == 'T' || s[8] == 't')
  }

  function Two(s: string, i: nat): nat
    requires i + 1 < |s| && IsDigit(s[i]) && IsDigit(s[i + 1])
  {
    10 * DigitOf(s[i]) + DigitOf(s[i + 1])
  }

  function Read(s: string): DateTime
    requires IsStamp(s)
  {
    DateTime(100 * Two(s, 0) + Two(s, 2), Two(s, 4), Two(s, 6), Two(s, 9), Two(s, 11), Two(s, 13), 0, 0)
  }

  function Pad2(n: nat): (s: string)
    requires n < 100
    ensures |s| == 2 && IsDigit(s[0]) && IsDigit(s[1]) && Two(s, 0) == n
  {
    [CharOf(n / 10), CharOf(n % 10)]
  }

  /** `%Y`: the year without padding. */
  function YearText(y: nat): (s: string)
    requires y <= 9999
    ensures forall i :: 0 <= i < |s| ==> IsDigit(s[i])
    ensures |s| == 4 <==> y >= 1000
    ensures |s| <= 4
  {
    if y >= 1000 then Pad2(y / 100) + Pad2(y % 100)
    else if y >= 100 then [CharOf(y / 100)] + Pad2(y % 100)
    else if y >= 10 then Pad2(y)
    else [CharOf(y)]
  }

  function Clock(t: DateTime): (s: string)
    requires RealTime(t)
    ensures |s| == 11
  {
    Pad2(t.month) + Pad2(t.day) + "T" + Pad2(t.hour) + Pad2(t.minute) + Pad2(t.second)
  }

  /** `strftime("%Y%m%dT%H%M%S")` */
  function Stamp(t: DateTime): string
    requires RealTime(t)
  {
    YearText(t.year) + Clock(t)
  }

  // ----- What the pattern matches -----

  datatype Parts = Parts(packageName: string, scenario: string, stamp: string)

  /** The stem, read as the pattern reads it: `$` also allows one final newline. */
  predicate Matches(stem: string, m: Parts) {
    && IsPackage(m.packageName) && ScenarioOf(m.scenario).Some? && IsStamp(m.stamp)
    && (stem == Joined(m) || stem == Joined(m) + "\n")
  }

  function Joined(m: Parts): string { m.packageName + "__" + m.scenario + "__" + m.stamp }

  /** `Scenario.parse` of a matched word, in any case. */
  function ScenarioOf(word: string): Option<Scenario> {
    if Lower(word) == "upload" then Some(UPLOAD)
    else if Lower(word) == "download" then Some(DOWNLOAD)
    else None
  }

  function WordOf(s: Scenario): string { if s == UPLOAD then "upload" else "download" }

  /** The parts of a stem that ends in the stamp, cut off from the right. */
  function Cut(s: string, word: nat): Option<Parts> {
    var n := |s| - STAMP_LENGTH;
    if n < word + 5 || s[n - 2..n] != "__" || s[n - 4 - word..n - 2 - word] != "__" then None
    else Some(Parts(s[..n - 4 - word], s[n - 2 - word..n - 2], s[n..]))
  }

  predicate Accepts(m: Option<Parts>) {
    && m.Some? && IsPackage(m.value.packageName) && ScenarioOf(m.value.scenario).Some? && IsStamp(m.value.stamp)
  }

  /** The match, if there is one: the last fifteen characters, the word before them, the rest. */
  function Split(stem: string): Option<Parts> {
    var s := if stem != "" && stem[|stem| - 1] == '\n' then stem[..|stem| - 1] else stem;
    if Accepts(Cut(s, 6)) then Cut(s, 6)
    else if Accepts(Cut(s, 8)) then Cut(s, 8)
    else None
  }

  lemma ScenarioLength(word: string)
    requires ScenarioOf(word).Some?
    ensures |word| == 6 || |word| == 8
    ensures |word| == 6 ==> ScenarioOf(word) == Some(UPLOAD)
    ensures |word| == 8 ==> ScenarioOf(word) == Some(DOWNLOAD)
  {
  }

  lemma CutJoins(s: string, word: nat)
    requires Cut(s, word).Some?
    ensures Joined(Cut(s, word).value) == s && |Cut(s, word).value.scenario| == word
  {
  }

  lemma JoinCuts(m: Parts)
    requires |m.stamp| == STAMP_LENGTH && m.packageName != ""
    ensures Cut(Joined(m), |m.scenario|) == Some(m)
  {
    var s, w := Joined(m), |m.scenario|;
    var n := |s| - STAMP_LENGTH;
    assert n == |m.packageName| + w + 4;
    assert s[n..] == m.stamp;
    assert s[n - 2..n] == "__";
    assert s[n - 2 - w..n - 2] == m.scenario;
    assert s[n - 4 - w..n - 2 - w] == "__";
    assert s[..n - 4 - w] == m.packageName;
  }

  lemma WordLetters(word: string)
    requires ScenarioOf(word).Some?
    ensures |word| == 6 ==> LowerChar(word[0]) == 'u'
    ensures |word| == 8 ==> LowerChar(word[2]) == 'w'
  {
  }

  /** A stem cannot be cut both ways: the two words end differently. */
  lemma OneWord(s: string)
    ensures !Accepts(Cut(s, 6)) || !Accepts(Cut(s, 8))
  {
    if Cut(s, 6).Some? && Cut(s, 8).Some? {
      var n := |s| - STAMP_LENGTH;
      var short, long := Cut(s, 6).value.scenario, Cut(s, 8).value.scenario;
      assert short[0] == s[n - 8] == long[2];
      if ScenarioOf(short).Some? { WordLetters(short); }
      if ScenarioOf(long).Some? { WordLetters(long); }
    }
  }

  lemma MatchIsSplit(stem: string, m: Parts)
    requires Matches(stem, m)
    ensures Split(stem) == Some(m)
  {
    ScenarioLength(m.scenario);
    JoinCuts(m);
    var last := Joined(m)[|Joined(m)| - 1];
    assert last == m.stamp[14];
    assert stem == Joined(m) + "\n" ==> stem[..|stem| - 1] == Joined(m);
    OneWord(Joined(m));
  }

  /** `Split` finds exactly the match, so a match is unique. */
  lemma SplitIsTheMatch(stem: string, m: Parts)
    ensures Matches(stem, m) <==> Split(stem) == Some(m)
  {
    if Matches(stem, m) { MatchIsSplit(stem, m); }
    if Split(stem) == Some(m) {
      var s := if stem != "" && stem[|stem| - 1] == '\n' then stem[..|stem| - 1] else stem;
      if Accepts(Cut(s, 6)) { CutJoins(s, 6); } else { CutJoins(s, 8); }
      assert stem == s || stem == s + "\n";
    }
  }

  // ----- Parsing and building -----

  /** Position of the last dot, or -1. */
  function LastDot(name: string): (i: int)
    ensures -1 <= i < |name|
    ensures i >= 0 ==> name[i] == '.'
    ensures forall j :: i < j < |name| ==> name[j] != '.'
  {
    if name == "" then -1
    else if name[|name| - 1] == '.' then |name| - 1
    else LastDot(name[..|name| - 1])
  }

  predicate HasSuffix(name: string) { 0 < LastDot(name) < |name| - 1 }

  /** `Path.stem` and `Path.suffix` of a file name. */
  function Stem(name: string): string { if HasSuffix(name) then name[..LastDot(name)] else name }

  function Suffix(name: string): string { if HasSuffix(name) then name[LastDot(name)..] else "" }

  datatype ConventionError = UnsupportedSuffix | NoMatch | NotACalendarTime

  /** `parse_capture_filename`, of a path's final component. */
  function Parse(name: string): Result<Descriptor, ConventionError> {
    if Lower(Suffix(name)) != ".pcap" && Lower(Suffix(name)) != ".pcapng" then Err(UnsupportedSuffix)
    else
      match Split(Stem(name))
      case None => Err(NoMatch)
      case Some(m) =>
        if IsStamp(m.stamp) && ScenarioOf(m.scenario).Some? && RealTime(Read(m.stamp))
        then Ok(Descriptor(m.packageName, ScenarioOf(m.scenario).value, Read(m.stamp)))
        else Err(NotACalendarTime)
  }

  /** `build_capture_filename` */
  function Build(d: Descriptor): string
    requires RealTime(d.capturedAt)
  {
    Joined(Parts(d.packageName, WordOf(d.scenario), Stamp(d.capturedAt))) + ".pcap"
  }

  lemma BuiltSuffix(stem: string)
    requires stem != ""
    ensures Suffix(stem + ".pcap") == ".pcap" && Stem(stem + ".pcap") == stem
  {
    var name := stem + ".pcap";
    assert name[|stem|] == '.';
    assert forall j :: |stem| < j < |name| ==> name[j] == ".pcap"[j - |stem|];
    assert LastDot(name) == |stem|;
  }

  lemma PlainWord(s: Scenario)
    ensures Lower(WordOf(s)) == WordOf(s) && ScenarioOf(WordOf(s)) == Some(s)
  {
  }

  /** A four-digit year makes a stamp, and reading it gives the time back to the second. */
  lemma StampReads(t: DateTime)
    requires RealTime(t) && t.year >= 1000
    ensures IsStamp(Stamp(t)) && Read(Stamp(t)) == ToSecond(t)
  {
  }

  /** A year of fewer than four digits makes a name that nothing matches. */
  lemma ShortYearNoMatch(packageName: string, scenario: Scenario, t: DateTime)
    requires RealTime(t) && t.year < 1000
    ensures Split(Joined(Parts(packageName, WordOf(scenario), Stamp(t)))).None?
  {
    var stem := Joined(Parts(packageName, WordOf(scenario), Stamp(t)));
    var n := |stem| - STAMP_LENGTH;
    var k := |YearText(t.year)|;
    assert |Stamp(t)| == k + 11 && k <= 3;
    // The fifteen last characters begin inside the separator.
    assert n == |packageName| + 2 + |WordOf(scenario)| + 2 + k - 4;
    var underscore := |packageName| + 2 + |WordOf(scenario)| + 1;
    assert stem[underscore] == '_' && n <= underscore < n + 8;
    assert stem[|stem| - 1] == Clock(t)[10] && IsDigit(Clock(t)[10]);
    assert stem[n..][underscore - n] == '_';
  }

  /**
   Parsing a built name gives back the package, the scenario and the time to the
   second, exactly when the package fits the grammar and the year has four digits.
   */
  lemma BuildThenParse(d: Descriptor)
    requires RealTime(d.capturedAt)
    ensures Parse(Build(d)) == Ok(d.(capturedAt := ToSecond(d.capturedAt)))
        <==> IsPackage(d.packageName) && d.capturedAt.year >= 1000
  {
    ParseOfBuilt(d);
    var m := PartsOf(d);
    if d.capturedAt.year < 1000 {
      ShortYearNoMatch(d.packageName, d.scenario, d.capturedAt);
    } else {
      StampReads(d.capturedAt);
      PlainWord(d.scenario);
      SplitIsTheMatch(Joined(m), m);
    }
  }

  function PartsOf(d: Descriptor): Parts
    requires RealTime(d.capturedAt)
  {
    Parts(d.packageName, WordOf(d.scenario), Stamp(d.capturedAt))
  }

  /** A built name has the right suffix, so only its stem decides. */
  lemma ParseOfBuilt(d: Descriptor)
    requires RealTime(d.capturedAt)
    ensures var found := Split(Joined(PartsOf(d)));
      && (Parse(Build(d)).Ok? ==> found.Some? && Accepts(found))
      && (found.Some? && RealTime(Read(found.value.stamp)) ==>
            Parse(Build(d)) == Ok(Descriptor(found.value.packageName, ScenarioOf(found.value.scenario).value,
                                             Read(found.value.stamp))))
      && (Parse(Build(d)).Ok? ==> found.value.packageName == Parse(Build(d)).value.packageName)
  {
    BuiltSuffix(Joined(PartsOf(d)));
    SuffixAccepted();
  }

  lemma SuffixAccepted()
    ensures Lower(".pcap") == ".pcap"
  {
  }

  // ----- Building what was parsed -----

  /** A parsable name in the form `Build` writes. */
  predicate Canonical(name: string) {
    && Suffix(name) == ".pcap"
    && Stem(name)[|Stem(name)| - 1..] != "\n"
    && var m := Split(Stem(name));
       m.Some? && IsStamp(m.value.stamp) && Lower(m.value.scenario) == m.value.scenario
       && m.value.stamp[8] == 'T' && m.value.stamp[0] != '0'
  }

  lemma Pad2Reads(s: string, i: nat)
    requires i + 1 < |s| && IsDigit(s[i]) && IsDigit(s[i + 1])
    ensures Two(s, i) < 100 && Pad2(Two(s, i)) == s[i..i + 2]
  {
  }

  /** Printing what was read from an upper-case stamp with a four-digit year gives the stamp. */
  lemma ReadStamps(s: string)
    requires IsStamp(s) && s[8] == 'T' && s[0] != '0' && RealTime(Read(s))
    ensures Read(s).year >= 1000 && Stamp(Read(s)) == s
  {
    var t := Read(s);
    Pad2Reads(s, 0);
    Pad2Reads(s, 2);
    Pad2Reads(s, 4);
    Pad2Reads(s, 6);
    Pad2Reads(s, 9);
    Pad2Reads(s, 11);
    Pad2Reads(s, 13);
    assert DigitOf(s[0]) >= 1;
    assert t.year / 100 == Two(s, 0) && t.year % 100 == Two(s, 2);
    assert s == s[0..2] + s[2..4] + s[4..6] + s[6..8] + s[8..9] + s[9..11] + s[11..13] + s[13..15];
    assert s[8..9] == "T";
  }

  lemma YearDigits(t: DateTime)
    requires RealTime(t) && t.year >= 1000
    ensures |Stamp(t)| == STAMP_LENGTH && Stamp(t)[8] == 'T' && Stamp(t)[0] != '0'
  {
  }

  /** A file name is its stem and its suffix. */
  lemma NameSplits(name: string)
    ensures Stem(name) + Suffix(name) == name
  {
  }

  /** Rebuilding a parsed name gives that name exactly when the name was canonical. */
  lemma ParseThenBuild(name: string)
    requires Parse(name).Ok?
    ensures RealTime(Parse(name).value.capturedAt)
    ensures Build(Parse(name).value) == name <==> Canonical(name)
  {
    if Canonical(name) { CanonicalRebuilds(name); }
    if Build(Parse(name).value) == name { BuiltIsCanonical(Parse(name).value); }
  }

  lemma CanonicalRebuilds(name: string)
    requires Parse(name).Ok?
    ensures Canonical(name) ==> Build(Parse(name).value) == name
  {
    if Canonical(name) {
      var d, m := Parse(name).value, Split(Stem(name)).value;
      SplitIsTheMatch(Stem(name), m);
      NameSplits(name);
      ReadStamps(m.stamp);
      PlainWord(d.scenario);
      assert Stem(name) == Joined(m);
      assert WordOf(d.scenario) == m.scenario;
    }
  }

  /** A built name that parses is canonical. */
  lemma BuiltIsCanonical(d: Descriptor)
    requires RealTime(d.capturedAt)
    ensures Parse(Build(d)).Ok? ==> Canonical(Build(d))
  {
    var m := Parts(d.packageName, WordOf(d.scenario), Stamp(d.capturedAt));
    BuiltSuffix(Joined(m));
    SuffixAccepted();
    PlainWord(d.scenario);
    if d.capturedAt.year < 1000 {
      ShortYearNoMatch(d.packageName, d.scenario, d.capturedAt);
    } else if Parse(Build(d)).Ok? {
      StampReads(d.capturedAt);
      YearDigits(d.capturedAt);
      var found := Split(Joined(m)).value;
      SplitIsTheMatch(Joined(m), found);
      JoinedLast(m);
      JoinedLast(found);
      SameParts(m, found);
    }
  }

  lemma JoinedLast(m: Parts)
    requires IsStamp(m.stamp)
    ensures Joined(m) != "" && Joined(m)[|Joined(m)| - 1] == m.stamp[14]
  {
  }

  /** Equal stems have equal parts, even when one package is not in the grammar. */
  lemma SameParts(a: Parts, b: Parts)
    requires IsStamp(a.stamp) && IsStamp(b.stamp)
    requires ScenarioOf(a.scenario).Some? && ScenarioOf(b.scenario).Some?
    requires Joined(b) == Joined(a) || Joined(b) + "\n" == Joined(a)
    ensures a == b
  {
    JoinedLast(a);
    JoinedLast(b);
    var s := Joined(a);
    var n := |s| - STAMP_LENGTH;
    ScenarioLength(a.scenario);
    ScenarioLength(b.scenario);
    assert s[n..] == a.stamp && s[n..] == b.stamp;
    WordLetters(a.scenario);
    WordLetters(b.scenario);
    assert forall i :: 0 <= i < |a.scenario| ==> s[n - 2 - |a.scenario| + i] == a.scenario[i];
    assert forall i :: 0 <= i < |b.scenario| ==> s[n - 2 - |b.scenario| + i] == b.scenario[i];
    assert |a.scenario| == |b.scenario|;
    assert s[n - 2 - |a.scenario|..n - 2] == a.scenario == b.scenario;
    assert s[..n - 4 - |a.scenario|] == a.packageName == b.packageName;
  }
}

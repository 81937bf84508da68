/**
 Making parts of PROMPT_COMMAND safe to join with further commands
 (src/main/bash-prompt-command-composition.ts).
 */
module BashPrompt {

  const CHUNK := 1024

  /** BASH_VERSINFO[0] and BASH_VERSINFO[1]. */
  datatype Version = Version(major: nat, minor: nat)

  predicate IsSeparator(c: char) {
    c == ' ' || c == '\t' || c == '\n' || c == ';'
  }

  predicate IsBackslash(c: char) {
    c == '\\'
  }

  predicate All(s: string, p: char -> bool) {
    forall k :: 0 <= k < |s| ==> p(s[k])
  }

  /** How many characters at the end satisfy `p`. */
  function Trailing(s: string, p: char -> bool): (n: nat)
    ensures n <= |s|
  {
    if s == "" || !p(s[|s| - 1]) then 0 else Trailing(s[..|s| - 1], p) + 1
  }

  /** `n` is the length of the longest suffix all of whose characters satisfy `p`. */
  ghost predicate LongestSuffix(s: string, p: char -> bool, n: nat) {
    n <= |s| && All(s[|s| - n..], p) && (n < |s| ==> !p(s[|s| - n - 1]))
  }

  lemma {:induction false} TrailingIsLongest(s: string, p: char -> bool)
    ensures LongestSuffix(s, p, Trailing(s, p))
  {
    if s != "" && p(s[|s| - 1]) {
      var n := Trailing(s, p);
      TrailingIsLongest(s[..|s| - 1], p);
      assert s[|s| - n..] == s[..|s| - 1][|s| - n..] + [s[|s| - 1]];
    }
  }

  lemma {:induction false} LongestIsTrailing(s: string, p: char -> bool, n: nat)
    requires LongestSuffix(s, p, n)
    ensures n == Trailing(s, p)
  {
    if n > 0 {
      assert s[|s| - 1] == s[|s| - n..][n - 1];
      assert s[..|s| - 1][|s| - n..] == s[|s| - n..][..n - 1];
      LongestIsTrailing(s[..|s| - 1], p, n - 1);
    }
  }

  lemma {:induction false} TrailingAtLeast(s: string, p: char -> bool, n: nat)
    requires n <= |s| && All(s[|s| - n..], p)
    ensures n <= Trailing(s, p)
  {
    if n > 0 {
      assert s[|s| - 1] == s[|s| - n..][n - 1];
      assert s[..|s| - 1][|s| - n..] == s[|s| - n..][..n - 1];
      TrailingAtLeast(s[..|s| - 1], p, n - 1);
    }
  }

  // ---------------------------------------------------------------- what a part becomes

  predicate PadsOddBackslash(v: Version) {
    (v.major == 4 && v.minor >= 4) || (v.major == 5 && v.minor == 0)
  }

  predicate EndsEvenly(s: string) {
    Trailing(s, IsBackslash) % 2 == 0
  }

  /**
   Separators at the end are dropped, except that one which an odd run of backslashes escapes is kept; a part that
   ends in an odd run itself gets one more backslash on the versions that need it.
   */
  function Normalized(part: string, version: Version): string {
    var body := part[..|part| - Trailing(part, IsSeparator)];
    if EndsEvenly(body) then body
    else if |body| < |part| then part[..|body| + 1]
    else if PadsOddBackslash(version) then part + "\\"
    else part
  }

  /** The prefix of length `n` keeps all but separators and does not end in a backslash that escapes the next one. */
  predicate SafeCut(part: string, n: nat) {
    n <= |part| && All(part[n..], IsSeparator) && EndsEvenly(part[..n])
  }

  /** A part with a separator at its end is cut at the first place where that is safe. */
  lemma CutAtFirstSafePlace(part: string, version: Version)
    requires part != "" && IsSeparator(part[|part| - 1])
    ensures var n := |Normalized(part, version)|;
            && SafeCut(part, n) && Normalized(part, version) == part[..n]
            && (forall m: nat :: SafeCut(part, m) ==> n <= m)
  {
    var k := Trailing(part, IsSeparator);
    var body := part[..|part| - k];
    TrailingIsLongest(part, IsSeparator);
    if !EndsEvenly(body) {
      OneSeparatorOn(part, k);
    }
    forall m: nat | SafeCut(part, m)
      ensures |Normalized(part, version)| <= m
    {
      assert part[|part| - (|part| - m)..] == part[m..];
      TrailingAtLeast(part, IsSeparator, |part| - m);
    }
  }

  lemma ShorterSuffix(s: string, p: char -> bool, i: nat, j: nat)
    requires i < j <= |s| && All(s[i..], p)
    ensures p(s[i]) && All(s[j..], p)
  {
    assert s[i] == s[i..][0];
    assert s[j..] == s[i..][j - i..];
  }

  lemma LoneSeparator(s: string)
    requires s != "" && IsSeparator(s[|s| - 1]) && (|s| > 1 ==> !IsSeparator(s[|s| - 2]))
    ensures EndsEvenly(s) && Trailing(s, IsSeparator) == 1
  {
    assert Trailing(s[..|s| - 1], IsSeparator) == 0;
  }

  /** The prefix that keeps one of several separators ends in that separator alone. */
  lemma OneSeparatorOn(part: string, k: nat)
    requires LongestSuffix(part, IsSeparator, k) && k > 0
    ensures var n := |part| - k + 1;
            && IsSeparator(part[n - 1]) && All(part[n..], IsSeparator)
            && EndsEvenly(part[..n]) && Trailing(part[..n], IsSeparator) == 1
  {
    var n := |part| - k + 1;
    ShorterSuffix(part, IsSeparator, n - 1, n);
    LoneSeparator(part[..n]);
  }

  /** Any other part stays as it is, but for the padding. */
  lemma OtherPartsStay(part: string, version: Version)
    requires part == "" || !IsSeparator(part[|part| - 1])
    ensures Normalized(part, version)
         == if PadsOddBackslash(version) && !EndsEvenly(part) then part + "\\" else part
  {
    assert part[..|part|] == part;
  }

  lemma PaddingEndsEvenly(s: string)
    ensures EndsEvenly(s + "\\") <==> !EndsEvenly(s)
  {
    assert (s + "\\")[..|s|] == s;
  }

  /** Normalizing once is enough, on every version. */
  lemma NormalizingIsIdempotent(part: string, version: Version)
    ensures Normalized(Normalized(part, version), version) == Normalized(part, version)
  {
    var body := part[..|part| - Trailing(part, IsSeparator)];
    var r := Normalized(part, version);
    if EndsEvenly(body) {
      TrailingIsLongest(part, IsSeparator);
      OtherPartsStay(r, version);
    } else if |body| < |part| {
      TrailingIsLongest(part, IsSeparator);
      OneSeparatorOn(part, |part| - |body|);
      assert r[..|r| - 1] == body;
    } else {
      assert body == part;
      PaddingEndsEvenly(part);
      OtherPartsStay(r, version);
    }
  }

  /** After normalizing, only an unpadded version can leave an odd run at the end, and only one that stood there. */
  lemma OddEndsAreLeftIff(part: string, version: Version)
    ensures !EndsEvenly(Normalized(part, version)) <==>
            !EndsEvenly(part) && !PadsOddBackslash(version)
  {
    if part != "" && IsSeparator(part[|part| - 1]) {
      CutAtFirstSafePlace(part, version);
    } else {
      OtherPartsStay(part, version);
      PaddingEndsEvenly(part);
    }
  }

  // ---------------------------------------------------------------- the same, told of the characters

  /** The backslashes at the end are odd in number. */
  ghost predicate EndsInOddRun(s: string) {
    exists n: nat ::
      && n <= |s| && n % 2 == 1
      && (forall k :: |s| - n <= k < |s| ==> s[k] == '\\')
      && (n < |s| ==> s[|s| - n - 1] != '\\')
  }

  lemma EndsInOddRunIff(s: string)
    ensures EndsInOddRun(s) <==> !EndsEvenly(s)
  {
    TrailingIsLongest(s, IsBackslash);
    var run := Trailing(s, IsBackslash);
    assert forall k :: |s| - run <= k < |s| ==> s[k] == s[|s| - run..][k - (|s| - run)];
    if n: nat :| n <= |s| && n % 2 == 1 && (forall k :: |s| - n <= k < |s| ==> s[k] == '\\')
                 && (n < |s| ==> s[|s| - n - 1] != '\\') {
      LongestIsTrailing(s, IsBackslash, n);
    }
  }

  /** From `n` on there are only blanks, tabs, newlines and semicolons, and none of them is escaped. */
  ghost predicate CanBeCut(part: string, n: nat) {
    n <= |part| && (forall k :: n <= k < |part| ==> part[k] in " \t\n;") && !EndsInOddRun(part[..n])
  }

  lemma CanBeCutIff(part: string, n: nat)
    ensures CanBeCut(part, n) <==> SafeCut(part, n)
  {
    if n <= |part| {
      EndsInOddRunIff(part[..n]);
      assert forall k :: n <= k < |part| ==> part[k] == part[n..][k - n];
    }
  }

  predicate NotOlder(v: Version, than: Version) {
    v.major > than.major || (v.major == than.major && v.minor >= than.minor)
  }

  /**
   A part that ends in a separator becomes its shortest prefix that can be cut there; any other stays, with one more
   backslash if it ends in an odd run of them and the version is one of 4.4 to 5.0.
   */
  lemma NormalizedMeans(part: string, version: Version)
    ensures var r := Normalized(part, version);
            if part != "" && part[|part| - 1] in " \t\n;" then
              r <= part && CanBeCut(part, |r|) && forall m: nat :: m < |r| ==> !CanBeCut(part, m)
            else if EndsInOddRun(part) && NotOlder(version, Version(4, 4)) && NotOlder(Version(5, 0), version) then
              r == part + ['\\']
            else r == part
  {
    EndsInOddRunIff(part);
    if part != "" && IsSeparator(part[|part| - 1]) {
      CutAtFirstSafePlace(part, version);
      forall m: nat
        ensures CanBeCut(part, m) <==> SafeCut(part, m)
      {
        CanBeCutIff(part, m);
      }
    } else {
      OtherPartsStay(part, version);
    }
  }

  // ---------------------------------------------------------------- the scans

  /** The longest separator suffix, by whole chunks first and then by characters. */
  method SeparatorSuffix(value: string) returns (suffixLength: nat)
    ensures suffixLength == Trailing(value, IsSeparator)
  {
    suffixLength := 0;
    while |value| - suffixLength >= CHUNK
      invariant suffixLength <= |value| && All(value[|value| - suffixLength..], IsSeparator)
      decreases |value| - suffixLength
    {
      var scanStart := |value| - suffixLength - CHUNK;
      var chunk := value[scanStart..scanStart + CHUNK];
      if !All(chunk, IsSeparator) {
        break;
      }
      assert value[scanStart..] == chunk + value[|value| - suffixLength..];
      suffixLength := suffixLength + CHUNK;
    }
    while suffixLength < |value|
      invariant suffixLength <= |value| && All(value[|value| - suffixLength..], IsSeparator)
    {
      var character := value[|value| - suffixLength - 1];
      if !IsSeparator(character) {
        break;
      }
      assert value[|value| - suffixLength - 1..] == [character] + value[|value| - suffixLength..];
      suffixLength := suffixLength + 1;
    }
    LongestIsTrailing(value, IsSeparator, suffixLength);
  }

  /** The backslashes at the end of the first `outputLength` characters, scanned the same way. */
  method BackslashRun(value: string, outputLength: nat) returns (backslashLength: nat)
    requires outputLength <= |value|
    ensures backslashLength == Trailing(value[..outputLength], IsBackslash)
  {
    backslashLength := 0;
    while outputLength - backslashLength >= CHUNK
      invariant backslashLength <= outputLength
      invariant All(value[outputLength - backslashLength..outputLength], IsBackslash)
      decreases outputLength - backslashLength
    {
      var scanStart := outputLength - backslashLength - CHUNK;
      var chunk := value[scanStart..scanStart + CHUNK];
      if !All(chunk, IsBackslash) {
        break;
      }
      assert value[scanStart..outputLength] == chunk + value[outputLength - backslashLength..outputLength];
      backslashLength := backslashLength + CHUNK;
    }
    while backslashLength < outputLength
      invariant backslashLength <= outputLength
      invariant All(value[outputLength - backslashLength..outputLength], IsBackslash)
    {
      var character := value[outputLength - backslashLength - 1];
      if !IsBackslash(character) {
        break;
      }
      assert value[outputLength - backslashLength - 1..outputLength]
          == [character] + value[outputLength - backslashLength..outputLength];
      backslashLength := backslashLength + 1;
    }
    assert value[..outputLength][outputLength - backslashLength..] ==
           value[outputLength - backslashLength..outputLength];
    LongestIsTrailing(value[..outputLength], IsBackslash, backslashLength);
  }

  method NormalizePart(part: string, version: Version) returns (value: string)
    ensures value == Normalized(part, version)
  {
    var suffixLength := SeparatorSuffix(part);
    var backslashLength := BackslashRun(part, |part| - suffixLength);
    if suffixLength > 0 && backslashLength % 2 == 1 {
      suffixLength := suffixLength - 1;
      backslashLength := 0;
    }
    value := part[..|part| - suffixLength];
    if suffixLength == 0 && PadsOddBackslash(version) && backslashLength % 2 == 1 {
      value := value + "\\";
    }
  }

  // ---------------------------------------------------------------- all parts

  /** A part that is empty once normalized is dropped. */
  function Kept(part: string, version: Version): seq<string> {
    if Normalized(part, version) == "" then [] else [Normalized(part, version)]
  }

  function NormalizedParts(parts: seq<string>, version: Version): seq<string> {
    if parts == [] then []
    else Kept(parts[0], version) + NormalizedParts(parts[1..], version)
  }

  lemma {:induction false} NormalizedPartsAppend(parts: seq<string>, part: string, version: Version)
    ensures NormalizedParts(parts + [part], version)
         == NormalizedParts(parts, version) + Kept(part, version)
  {
    if parts == [] {
      assert [part][1..] == [];
    } else {
      assert (parts + [part])[1..] == parts[1..] + [part];
      NormalizedPartsAppend(parts[1..], part, version);
      var first, last := Kept(parts[0], version), Kept(part, version);
      var rest := NormalizedParts(parts[1..], version);
      assert first + (rest + last) == first + rest + last;
    }
  }

  /** `kept` are the normalized forms, in their order, of exactly those parts that are not empty once normalized. */
  predicate KeptFrom(parts: seq<string>, version: Version, kept: seq<string>, from: seq<nat>) {
    && |from| == |kept|
    && (forall i :: 0 <= i < |from| ==> from[i] < |parts| && kept[i] == Normalized(parts[from[i]], version) != "")
    && (forall i, j :: 0 <= i < j < |from| ==> from[i] < from[j])
    && (forall k :: 0 <= k < |parts| && Normalized(parts[k], version) != "" ==> k in from)
  }

  lemma OneMoreKept(parts: seq<string>, part: string, version: Version, kept: seq<string>, from: seq<nat>)
    requires KeptFrom(parts, version, kept, from)
    ensures var value := Normalized(part, version);
            if value == "" then KeptFrom(parts + [part], version, kept, from)
            else KeptFrom(parts + [part], version, kept + [value], from + [|parts|])
  {
    var more := from + [|parts|];
    assert forall k :: k in more <==> k in from || k == |parts|;
  }

  lemma {:induction false} KeepsNonEmpty(parts: seq<string>, version: Version) returns (from: seq<nat>)
    ensures KeptFrom(parts, version, NormalizedParts(parts, version), from)
    decreases |parts|
  {
    from := [];
    if parts != [] {
      var n := |parts| - 1;
      from := KeepsNonEmpty(parts[..n], version);
      assert parts == parts[..n] + [parts[n]];
      NormalizedPartsAppend(parts[..n], parts[n], version);
      OneMoreKept(parts[..n], parts[n], version, NormalizedParts(parts[..n], version), from);
      var kept := NormalizedParts(parts[..n], version);
      assert kept + [] == kept;
      if Normalized(parts[n], version) != "" {
        from := from + [n];
      }
    }
  }

  lemma {:induction false} NormalizingPartsIsIdempotent(parts: seq<string>, version: Version)
    ensures NormalizedParts(NormalizedParts(parts, version), version) == NormalizedParts(parts, version)
  {
    if parts != [] {
      NormalizingPartsIsIdempotent(parts[1..], version);
      NormalizingIsIdempotent(parts[0], version);
      var r := Normalized(parts[0], version);
      var rest := NormalizedParts(parts[1..], version);
      if r != "" {
        assert ([r] + rest)[1..] == rest;
      } else {
        assert [] + rest == rest;
      }
    }
  }

  method NormalizeCommand(promptCommand: seq<string>, version: Version) returns (normalized: seq<string>)
    ensures normalized == NormalizedParts(promptCommand, version)
    ensures exists from :: KeptFrom(promptCommand, version, normalized, from)
  {
    normalized := [];
    for i := 0 to |promptCommand|
      invariant normalized == NormalizedParts(promptCommand[..i], version)
    {
      var part := NormalizePart(promptCommand[i], version);
      assert promptCommand[..i + 1] == promptCommand[..i] + [promptCommand[i]];
      NormalizedPartsAppend(promptCommand[..i], promptCommand[i], version);
      if part != "" {
        normalized := normalized + [part];
      }
    }
    assert promptCommand[..|promptCommand|] == promptCommand;
    var from := KeepsNonEmpty(promptCommand, version);
    assert promptCommand[..|promptCommand|] == promptCommand;
  }
}

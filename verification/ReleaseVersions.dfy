/** Release numbers, as the host's pattern reads them and as the maintenance agent does. */
module ReleaseVersions {
  import opened Values

  /** What the pattern calls a digit: the ASCII digits and those of other scripts, but none of
      the characters it puts around numbers. */
  ghost predicate Digits(digit: char -> bool) {
    && (forall c :: AsciiDigit(c) ==> digit(c))
    && !digit('.') && !digit('v') && !digit('-') && !digit('+')
  }

  predicate AsciiDigit(c: char): (r: bool)
    ensures r <==> c in "0123456789"
  {
    '0' <= c <= '9'
  }

  predicate AllDigits(s: string, digit: char -> bool) {
    forall k :: 0 <= k < |s| ==> digit(s[k])
  }

  predicate Number(s: string, digit: char -> bool) { s != "" && AllDigits(s, digit) }

  predicate Mark(s: string) { s == "" || s == "v" }

  /** A pre-release or build label, on one line. */
  predicate Label(s: string) {
    s != "" ==> (s[0] == '-' || s[0] == '+') && '\n' !in s
  }

  /** The host's pattern: three numbers between dots, perhaps with a mark and a label. */
  ghost predicate Release(v: string, major: string, digit: char -> bool) {
    exists mark, minor, patch, suffix :: Parts(v, mark, major, minor, patch, suffix, digit)
  }

  predicate Parts(v: string, mark: string, major: string, minor: string, patch: string, suffix: string, digit: char -> bool) {
    && Mark(mark) && Number(major, digit) && Number(minor, digit) && Number(patch, digit) && Label(suffix)
    && v == mark + (major + ("." + minor + ("." + patch + suffix)))
  }

  // ------------------------------------------------------------------ scanning

  /** How many digits a text begins with. */
  function Run(s: string, digit: char -> bool): (n: nat)
    ensures n <= |s| && AllDigits(s[..n], digit) && (n < |s| ==> !digit(s[n]))
  {
    if s == "" || !digit(s[0]) then 0
    else
      assert forall k :: 0 <= k < Run(s[1..], digit) ==> s[1..][..Run(s[1..], digit)][k] == s[k + 1];
      1 + Run(s[1..], digit)
  }

  /** A dot and a number, n times, and then at most a label. */
  predicate Rest(s: string, n: nat, digit: char -> bool) {
    if n == 0 then Label(s)
    else s != "" && s[0] == '.' && Run(s[1..], digit) > 0 && Rest(s[1..][Run(s[1..], digit)..], n - 1, digit)
  }

  function Unmarked(v: string): string {
    if v != "" && v[0] == 'v' then v[1..] else v
  }

  /** The first number of a release, where the whole text is one. */
  function Major(v: string, digit: char -> bool): Option<string> {
    var s := Unmarked(v);
    var n := Run(s, digit);
    if n == 0 || !Rest(s[n..], 2, digit) then None else Some(s[..n])
  }

  predicate Ends(s: string, digit: char -> bool) { s != "" ==> !digit(s[0]) }

  /** What follows the digits of `a` does not count. */
  lemma {:induction false} RunAppend(a: string, s: string, digit: char -> bool)
    requires Ends(s, digit)
    ensures Run(a + s, digit) == Run(a, digit)
    ensures AllDigits(a, digit) ==> Run(a, digit) == |a|
  {
    if a == "" {
      assert a + s == s;
    } else {
      assert (a + s)[1..] == a[1..] + s;
      RunAppend(a[1..], s, digit);
    }
  }

  lemma NumberFirst(a: string, s: string, digit: char -> bool)
    requires Number(a, digit) && Ends(s, digit)
    ensures Run(a + s, digit) == |a| && (a + s)[..|a|] == a && (a + s)[|a|..] == s
  {
    RunAppend(a, s, digit);
  }

  lemma RestStep(a: string, s: string, n: nat, digit: char -> bool)
    requires Number(a, digit) && Ends(s, digit) && Rest(s, n, digit)
    ensures Rest("." + a + s, n + 1, digit)
  {
    var all := "." + a + s;
    assert all[1..] == a + s;
    NumberFirst(a, s, digit);
  }

  lemma RestTaken(s: string, n: nat, digit: char -> bool) returns (a: string, t: string)
    requires n > 0 && Rest(s, n, digit)
    ensures Number(a, digit) && Rest(t, n - 1, digit) && s == "." + a + t
  {
    var k := Run(s[1..], digit);
    a, t := s[1..][..k], s[1..][k..];
    assert s == [s[0]] + s[1..] && s[1..] == a + t;
  }

  lemma UnmarkedOf(mark: string, s: string)
    requires Mark(mark) && s != "" && s[0] != 'v'
    ensures Unmarked(mark + s) == s
  {
  }

  lemma MajorOf(mark: string, major: string, first: string, digit: char -> bool)
    requires Digits(digit) && Mark(mark) && Number(major, digit) && Ends(first, digit) && Rest(first, 2, digit)
    ensures Major(mark + (major + first), digit) == Some(major)
  {
    UnmarkedOf(mark, major + first);
    NumberFirst(major, first, digit);
  }

  lemma ReleaseScanned(v: string, mark: string, major: string, minor: string, patch: string, suffix: string, digit: char -> bool)
    requires Digits(digit) && Parts(v, mark, major, minor, patch, suffix, digit)
    ensures Major(v, digit) == Some(major)
  {
    RestStep(patch, suffix, 0, digit);
    RestStep(minor, "." + patch + suffix, 1, digit);
    MajorOf(mark, major, "." + minor + ("." + patch + suffix), digit);
  }

  lemma ScannedRelease(v: string, digit: char -> bool) returns (mark: string, minor: string, patch: string, suffix: string)
    requires Major(v, digit).Some?
    ensures Parts(v, mark, Major(v, digit).value, minor, patch, suffix, digit)
  {
    var s, major := Unmarked(v), Major(v, digit).value;
    mark := if s == v then "" else "v";
    var t;
    minor, t := RestTaken(s[|major|..], 2, digit);
    patch, suffix := RestTaken(t, 1, digit);
    assert s == major + s[|major|..];
    assert v == mark + s;
  }

  /** The scan reads exactly the texts of the pattern, and of each the number that it captures. */
  lemma MajorIff(v: string, major: string, digit: char -> bool)
    requires Digits(digit)
    ensures Major(v, digit) == Some(major) <==> Release(v, major, digit)
  {
    if mark, minor, patch, suffix :| Parts(v, mark, major, minor, patch, suffix, digit) {
      ReleaseScanned(v, mark, major, minor, patch, suffix, digit);
    }
    if Major(v, digit) == Some(major) {
      var mark, minor, patch, suffix := ScannedRelease(v, digit);
      assert Parts(v, mark, major, minor, patch, suffix, digit);
    }
  }

  /** The host's comparison: both are releases, with the same text for their first number. */
  predicate SameMajor(v: string, w: string, digit: char -> bool) {
    Major(v, digit).Some? && Major(v, digit) == Major(w, digit)
  }

  // -------------------------------------------------------------- agent's side

  function Value(s: string): nat
    requires AllDigits(s, AsciiDigit)
  {
    if s == "" then 0 else Value(s[..|s| - 1]) * 10 + (s[|s| - 1] as int - '0' as int)
  }

  function LeadingDigits(v: string): (r: string)
    ensures AllDigits(r, AsciiDigit)
  {
    v[..Run(v, AsciiDigit)]
  }

  /** The agent's comparison: whatever number each text begins with, but not zero. */
  predicate AgentTakes(v: string, w: string) {
    Value(LeadingDigits(v)) == Value(LeadingDigits(w)) != 0
  }

  /** Of a release the agent reads the same first number, unless it is marked. */
  lemma AgentReads(v: string, digit: char -> bool)
    requires Digits(digit) && Major(v, digit).Some?
    ensures LeadingDigits(v) == if v[0] == 'v' then "" else LeadingDigits(Major(v, digit).value)
  {
    if v[0] != 'v' {
      var major := Major(v, digit).value;
      assert v == major + v[|major|..] && v[|major|] == '.';
      RunAppend(major, v[|major|..], AsciiDigit);
    }
  }

  /** Of two releases that the host finds alike, the agent takes exactly those without a mark
      whose first number is not zero. */
  lemma AgentTakesIff(v: string, w: string, digit: char -> bool)
    requires Digits(digit) && SameMajor(v, w, digit)
    ensures AgentTakes(v, w) <==> v[0] != 'v' && w[0] != 'v' && Value(LeadingDigits(Major(v, digit).value)) != 0
  {
    AgentReads(v, digit);
    AgentReads(w, digit);
  }
}

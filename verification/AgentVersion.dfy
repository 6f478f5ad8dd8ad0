/** Versions of the node agent: how they are read from text, ordered, and classified. */
module AgentVersion {
  import opened Numerals
  import opened Wrappers

  datatype Compatibility = Unknown | Unsupported | UpgradeAvailable | Scheduled | Current

  const MINIMUM_SUPPORTED: string := "node-agent-0.1"
  const RECOMMENDED: string := "node-agent-0.2"

  // ---------------------------------------------------------------- reading

  /** Numbers separated by single dots. */
  predicate IsVersionText(s: string) {
    && s != "" && IsDigit(s[0], 10) && IsDigit(s[|s| - 1], 10)
    && (forall i :: 0 <= i < |s| ==> IsDigit(s[i], 10) || s[i] == '.')
    && (forall i :: 0 < i < |s| && s[i] == '.' ==> s[i - 1] != '.')
  }

  /** The leftmost suffix that is a version text, as the pattern anchored at the end finds it. */
  function VersionText(s: string): (r: Option<string>)
    ensures r.Some? ==> IsVersionText(r.value)
  {
    if s == "" then None else if IsVersionText(s) then Some(s) else VersionText(s[1..])
  }

  /** The numbers between the dots. */
  function Numbers(s: string): seq<nat>
    decreases |s|
  {
    var d := LeadingDigits(s);
    if |d| == |s| then [Value(d, 10)] else [Value(d, 10)] + Numbers(s[|d| + 1..])
  }

  function ParseVersion(version: string): seq<nat> {
    var text := VersionText(version);
    if text.None? then [0] else Numbers(text.value)
  }

  function PrintParts(parts: seq<nat>): string {
    if parts == [] then ""
    else if |parts| == 1 then Digits(parts[0], 10)
    else Digits(parts[0], 10) + ("." + PrintParts(parts[1..]))
  }

  lemma NumbersOfDigits(n: nat)
    ensures Numbers(Digits(n, 10)) == [n] && IsVersionText(Digits(n, 10))
  {
    var d := Digits(n, 10);
    ValueOfDigits(n, 10);
    LeadingDigitsOf(d, "");
    assert d + "" == d;
  }

  lemma NumbersOfDotted(n: nat, rest: string)
    ensures Numbers(Digits(n, 10) + ("." + rest)) == [n] + Numbers(rest)
  {
    var d := Digits(n, 10);
    ValueOfDigits(n, 10);
    LeadingDigitsOf(d, "." + rest);
    assert (d + ("." + rest))[|d| + 1..] == rest;
  }

  lemma {:induction false} PrintedParts(parts: seq<nat>)
    requires parts != []
    ensures Numbers(PrintParts(parts)) == parts && IsVersionText(PrintParts(parts))
    decreases |parts|
  {
    if |parts| == 1 {
      NumbersOfDigits(parts[0]);
      assert parts == [parts[0]];
    } else {
      var rest := PrintParts(parts[1..]);
      PrintedParts(parts[1..]);
      NumbersOfDotted(parts[0], rest);
      DottedText(Digits(parts[0], 10), rest);
      assert parts == [parts[0]] + parts[1..];
    }
  }

  lemma DottedText(d: string, rest: string)
    requires d != "" && IsNumeral(d, 10) && IsVersionText(rest)
    ensures IsVersionText(d + ("." + rest))
  {
    var s := d + ("." + rest);
    forall i | 0 <= i < |s| ensures IsDigit(s[i], 10) || s[i] == '.' {
      if i < |d| { assert s[i] == d[i]; } else if i > |d| { assert s[i] == rest[i - |d| - 1]; }
    }
    forall i | 0 < i < |s| && s[i] == '.' ensures s[i - 1] != '.' {
      if i <= |d| { assert s[i - 1] == d[i - 1]; } else { assert s[i] == rest[i - |d| - 1]; }
    }
    assert s[0] == d[0] && s[|s| - 1] == rest[|rest| - 1];
  }

  /** A name that ends in neither a digit nor a dot, followed by numbers, reads back as the numbers. */
  lemma {:induction false} ParsePrinted(name: string, parts: seq<nat>)
    requires parts != [] && (name != "" ==> !IsDigit(name[|name| - 1], 10) && name[|name| - 1] != '.')
    ensures ParseVersion(name + PrintParts(parts)) == parts
    decreases |name|
  {
    var s := name + PrintParts(parts);
    PrintedParts(parts);
    if name == "" {
      assert s == PrintParts(parts);
    } else {
      assert s[|name| - 1] == name[|name| - 1];
      assert s[1..] == name[1..] + PrintParts(parts);
      ParsePrinted(name[1..], parts);
    }
  }

  // ---------------------------------------------------------------- order

  function Part(parts: seq<nat>, i: nat): nat { if i < |parts| then parts[i] else 0 }

  /** The difference at the first index from `i` on where the versions differ, missing parts counting as zero. */
  function CompareFrom(a: seq<nat>, b: seq<nat>, i: nat): int
    decreases |a| + |b| - i
  {
    if i >= |a| && i >= |b| then 0
    else if Part(a, i) != Part(b, i) then Part(a, i) - Part(b, i) else CompareFrom(a, b, i + 1)
  }

  function Compare(left: string, right: string): int { CompareFrom(ParseVersion(left), ParseVersion(right), 0) }

  method CompareAgentVersion(left: string, right: string) returns (result: int)
    ensures result == Compare(left, right)
  {
    var leftParts := ParseVersion(left);
    var rightParts := ParseVersion(right);
    var length := if |leftParts| > |rightParts| then |leftParts| else |rightParts|;
    for index := 0 to length
      invariant CompareFrom(leftParts, rightParts, 0) == CompareFrom(leftParts, rightParts, index)
    {
      var diff := Part(leftParts, index) - Part(rightParts, index);
      if diff != 0 {
        return diff;
      }
    }
    result := 0;
  }

  lemma {:induction false} CompareOrder(a: seq<nat>, b: seq<nat>, c: seq<nat>, i: nat)
    ensures CompareFrom(b, a, i) == -CompareFrom(a, b, i)
    ensures CompareFrom(a, b, i) <= 0 && CompareFrom(b, c, i) <= 0 ==>
      CompareFrom(a, c, i) <= 0 && (CompareFrom(a, c, i) == 0 ==> CompareFrom(a, b, i) == 0 == CompareFrom(b, c, i))
    decreases |a| + |b| + |c| - i
  {
    if i < |a| || i < |b| || i < |c| {
      CompareOrder(a, b, c, i + 1);
    }
  }

  /** Versions are totally preordered: the comparison is antisymmetric in sign and transitive, strictly
      when one side is strict. */
  lemma VersionOrder(x: string, y: string, z: string)
    ensures Compare(y, x) == -Compare(x, y)
    ensures Compare(x, y) <= 0 && Compare(y, z) <= 0 ==> Compare(x, z) <= 0
    ensures Compare(x, y) < 0 && Compare(y, z) <= 0 ==> Compare(x, z) < 0
    ensures Compare(x, y) <= 0 && Compare(y, z) < 0 ==> Compare(x, z) < 0
  {
    CompareOrder(ParseVersion(x), ParseVersion(y), ParseVersion(z), 0);
  }

  function Trimmed(parts: seq<nat>): seq<nat> {
    if parts != [] && parts[|parts| - 1] == 0 then Trimmed(parts[..|parts| - 1]) else parts
  }

  lemma {:induction false} TrimmedParts(parts: seq<nat>, i: nat)
    ensures Part(Trimmed(parts), i) == Part(parts, i)
    ensures Trimmed(parts) != [] ==> Trimmed(parts)[|Trimmed(parts)| - 1] != 0
  {
    if parts != [] && parts[|parts| - 1] == 0 {
      TrimmedParts(parts[..|parts| - 1], i);
    }
  }

  lemma {:induction false} EqualFrom(a: seq<nat>, b: seq<nat>, i: nat)
    ensures CompareFrom(a, b, i) == 0 <==> forall j :: i <= j ==> Part(a, j) == Part(b, j)
    decreases |a| + |b| - i
  {
    if i < |a| || i < |b| {
      EqualFrom(a, b, i + 1);
    }
  }

  /** Versions compare as equal exactly when they agree up to trailing zero parts. */
  lemma CompareZero(a: seq<nat>, b: seq<nat>)
    ensures CompareFrom(a, b, 0) == 0 <==> Trimmed(a) == Trimmed(b)
  {
    EqualFrom(a, b, 0);
    var x, y := Trimmed(a), Trimmed(b);
    forall j: nat ensures Part(x, j) == Part(a, j) && Part(y, j) == Part(b, j) {
      TrimmedParts(a, j);
      TrimmedParts(b, j);
    }
    TrimmedParts(a, 0);
    TrimmedParts(b, 0);
    if forall j :: 0 <= j ==> Part(a, j) == Part(b, j) {
      SameTrimmed(x, y);
    } else {
      var j :| 0 <= j && Part(a, j) != Part(b, j);
      assert Part(x, j) != Part(y, j);
    }
  }

  lemma SameTrimmed(x: seq<nat>, y: seq<nat>)
    requires forall j: nat :: Part(x, j) == Part(y, j)
    requires (x != [] ==> x[|x| - 1] != 0) && (y != [] ==> y[|y| - 1] != 0)
    ensures x == y
  {
    assert x != [] ==> Part(y, |x| - 1) == x[|x| - 1];
    assert y != [] ==> Part(x, |y| - 1) == y[|y| - 1];
    forall i | 0 <= i < |x| ensures x[i] == y[i] {
      assert Part(x, i) == Part(y, i);
    }
  }

  // ---------------------------------------------------------------- classification

  function CompatibilityFor(version: Option<string>, target: string): Compatibility {
    if version.None? || version.value == "" then Unknown
    else if Compare(version.value, MINIMUM_SUPPORTED) < 0 then Unsupported
    else if Compare(version.value, target) >= 0 then Current else UpgradeAvailable
  }

  function Rank(c: Compatibility): nat {
    match c
    case Unknown => 0
    case Unsupported => 1
    case UpgradeAvailable => 2
    case Scheduled => 2
    case Current => 3
  }

  /** A newer version is never classified lower, whatever the target. */
  lemma CompatibilityMonotone(x: string, y: string, target: string)
    requires x != "" && y != "" && Compare(x, y) <= 0
    ensures Rank(CompatibilityFor(Some(x), target)) <= Rank(CompatibilityFor(Some(y), target))
  {
    VersionOrder(x, y, MINIMUM_SUPPORTED);
    VersionOrder(target, x, y);
    VersionOrder(x, target, x);
    VersionOrder(y, target, y);
  }

  /** A higher target never makes a version current that was not. */
  lemma CompatibilityAntitone(x: string, target: string, higher: string)
    requires Compare(target, higher) <= 0
    ensures CompatibilityFor(Some(x), higher).Current? ==> CompatibilityFor(Some(x), target).Current?
  {
    VersionOrder(target, higher, x);
    VersionOrder(higher, x, higher);
    VersionOrder(target, x, target);
  }

  /** The rollout bucket of a connector: the sum of its character codes modulo one hundred. */
  function CodeSum(id: string): nat { if id == "" then 0 else CodeSum(id[..|id| - 1]) + CodeUnit(id[|id| - 1]) }

  /** `charCodeAt(0)`: of a character beyond the basic plane the code of its high surrogate. */
  function CodeUnit(c: char): nat { if c as int < 0x1_0000 then c as nat else 0xD800 + (c as nat - 0x1_0000) / 0x400 }

  function RolloutBucket(id: string): nat { CodeSum(id) % 100 }

  predicate RolloutEligible(id: string, percent: nat) { percent >= 100 || RolloutBucket(id) < percent }

  // ---------------------------------------------------------------- by the numbers

  /** Where two versions differ first, if they do, decides: the comparison is the difference there. */
  lemma {:induction false} FirstDifference(a: seq<nat>, b: seq<nat>, i: nat) returns (k: nat)
    ensures i <= k && forall j :: i <= j < k ==> Part(a, j) == Part(b, j)
    ensures CompareFrom(a, b, i) == Part(a, k) - Part(b, k)
    ensures Part(a, k) == Part(b, k) ==> forall j :: k <= j ==> Part(a, j) == Part(b, j)
    decreases |a| + |b| - i
  {
    if (i >= |a| && i >= |b|) || Part(a, i) != Part(b, i) {
      k := i;
    } else {
      k := FirstDifference(a, b, i + 1);
    }
  }

  /** `p` reaches `t`: a part that is lower comes after one that is higher. */
  ghost predicate Reaches(p: seq<nat>, t: seq<nat>) {
    forall i: nat :: Part(p, i) < Part(t, i) ==> Above(p, t, i)
  }

  ghost predicate Above(p: seq<nat>, t: seq<nat>, i: nat) { exists j: nat :: j < i && Part(p, j) > Part(t, j) }

  lemma ReachesIs(p: seq<nat>, t: seq<nat>)
    ensures CompareFrom(p, t, 0) >= 0 <==> Reaches(p, t)
  {
    var k := FirstDifference(p, t, 0);
    if Part(p, k) > Part(t, k) {
      forall i: nat | Part(p, i) < Part(t, i) ensures Above(p, t, i) {
        assert k < i;
      }
    } else if Part(p, k) < Part(t, k) {
      assert !Above(p, t, k);
    }
  }

  predicate IsName(name: string) { name != "" && !('0' <= name[|name| - 1] <= '9') && name[|name| - 1] != '.' }

  lemma KnownVersion(s: string, n: nat)
    requires n < 10 && s == "node-agent-0." + [DigitChar(n)]
    ensures ParseVersion(s) == [0, n]
  {
    var zero := "" + Digits(0, 10);
    assert zero == "0" && PrintParts([n]) == [DigitChar(n)];
    assert [0, n][1..] == [n];
    assert PrintParts([0, n]) == "0" + ("." + [DigitChar(n)]);
    ParsePrinted("node-agent-", [0, n]);
    assert s == "node-agent-" + PrintParts([0, n]);
  }

  /** How the version of an agent is judged against a target, by their numbers: below 0.1 it is not supported, from
      there on it is current if it reaches the target, and otherwise there is an upgrade. */
  lemma Classified(name: string, p: seq<nat>, other: string, t: seq<nat>)
    requires IsName(name) && IsName(other) && p != [] && t != []
    ensures CompatibilityFor(Some(name + PrintParts(p)), other + PrintParts(t)) ==
      if Part(p, 0) == 0 && Part(p, 1) == 0 then Unsupported
      else if Reaches(p, t) then Current else UpgradeAvailable
    ensures CompatibilityFor(None, other) == CompatibilityFor(Some(""), other) == Unknown
  {
    ParsePrinted(name, p);
    ParsePrinted(other, t);
    ReachesIs(p, t);
    ClassifiedBy(name + PrintParts(p), other + PrintParts(t), MINIMUM_SUPPORTED);
  }

  lemma ClassifiedBy(version: string, target: string, minimum: string)
    requires minimum == MINIMUM_SUPPORTED && version != ""
    ensures var p := ParseVersion(version);
      CompatibilityFor(Some(version), target) ==
        if Part(p, 0) == 0 && Part(p, 1) == 0 then Unsupported
        else if CompareFrom(p, ParseVersion(target), 0) >= 0 then Current else UpgradeAvailable
  {
    KnownVersion(minimum, 1);
    MinimumReached(ParseVersion(version));
  }

  lemma MinimumReached(p: seq<nat>)
    ensures CompareFrom(p, [0, 1], 0) < 0 <==> Part(p, 0) == 0 && Part(p, 1) == 0
  {
    var k := FirstDifference(p, [0, 1], 0);
    assert Part([0, 1], 0) == 0 && Part([0, 1], 1) == 1 && forall j :: 2 <= j ==> Part([0, 1], j) == 0;
  }

  /** A text that does not end in a number counts as version zero. */
  lemma {:induction false} NoVersion(s: string)
    requires s == "" || !('0' <= s[|s| - 1] <= '9')
    ensures ParseVersion(s) == [0]
    decreases |s|
  {
    if s != "" {
      NoVersion(s[1..]);
    }
  }

  // ---------------------------------------------------------------- rollout

  /** The bucket is the sum of the id's character codes modulo one hundred, whatever the id. */
  lemma BucketOfMore(id: string, c: char)
    ensures var code := if c as int < 0x1_0000 then c as nat else 0xD800 + (c as nat - 0x1_0000) / 0x400;
      RolloutBucket(id + [c]) == (RolloutBucket(id) + code) % 100 && RolloutBucket("") == 0
  {
    assert (id + [c])[..|id|] == id;
    SumModulo(CodeSum(id), CodeUnit(c));
  }

  lemma SumModulo(n: nat, k: nat)
    ensures (n + k) % 100 == (n % 100 + k) % 100
  {
  }

  /** So a percentage from a hundred on takes in every id, and zero takes in none. */
  lemma RolloutEnds(id: string, percent: nat)
    ensures percent >= 100 ==> RolloutEligible(id, percent)
    ensures percent < 100 ==> (RolloutEligible(id, percent) <==> RolloutBucket(id) < percent)
    ensures !RolloutEligible(id, 0)
  {
  }
}

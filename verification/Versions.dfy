/**
  Version order and the report of the latest version (src/runtime/release.ts). The order is that of
  section 11 of Semantic Versioning 2.0.0: `Lower` states it by the first difference, and the
  comparison loop is proved against it.

  `ComparisonIsPreorder` and `PrecedenceIsTotal` are about every pair and triple of valid versions. Numbers
  are compared by value and identifiers by text, so `ValueIsInjective` is what lets the two agree: equal
  values without leading zeros are equal texts. `CheckLatestVersion` follows the check through every answer of
  the registry, including malformed and missing ones, and its report always passes its own validator.
*/
module Versions {
  import opened Options

  // ---------------------------------------------------------------- lexicographic orders

  /** a comes before b: where they first differ a ends, or has the smaller element. */
  ghost predicate LexLower<T(!new)>(less: (T, T) -> bool, a: seq<T>, b: seq<T>) {
    exists i :: DiffersAt(less, a, b, i)
  }

  ghost predicate DiffersAt<T(!new)>(less: (T, T) -> bool, a: seq<T>, b: seq<T>, i: nat) {
    && i <= |a| && i <= |b| && a[..i] == b[..i]
    && i < |b|
    && (i == |a| || less(a[i], b[i]))
  }

  /** The elements that satisfy `ok` are strictly and totally ordered. */
  ghost predicate StrictOrder<T(!new)>(less: (T, T) -> bool, ok: T -> bool) {
    && (forall x, y :: ok(x) && ok(y) ==> less(x, y) || x == y || less(y, x))
    && (forall x, y :: ok(x) && ok(y) && less(x, y) ==> x != y && !less(y, x))
    && (forall x, y, z :: ok(x) && ok(y) && ok(z) && less(x, y) && less(y, z) ==> less(x, z))
  }

  ghost predicate AllOk<T(!new)>(ok: T -> bool, s: seq<T>) {
    forall i :: 0 <= i < |s| ==> ok(s[i])
  }

  lemma {:induction false} FirstDifference<T(!new)>(a: seq<T>, b: seq<T>) returns (i: nat)
    ensures i <= |a| && i <= |b| && a[..i] == b[..i]
    ensures (i == |a| == |b| && a == b) || (i == |a| < |b|) || (i == |b| < |a|) || (i < |a| && i < |b| && a[i] != b[i])
  {
    if a == [] || b == [] || a[0] != b[0] {
      i := 0;
    } else {
      i := FirstDifference(a[1..], b[1..]);
      i := i + 1;
      assert a[..i] == [a[0]] + a[1..][..i - 1] && b[..i] == [b[0]] + b[1..][..i - 1];
      if a[1..] == b[1..] { assert a == [a[0]] + a[1..] && b == [b[0]] + b[1..]; }
    }
  }

  lemma LexTotal<T(!new)>(less: (T, T) -> bool, ok: T -> bool, a: seq<T>, b: seq<T>)
    requires StrictOrder(less, ok) && AllOk(ok, a) && AllOk(ok, b)
    ensures LexLower(less, a, b) || a == b || LexLower(less, b, a)
  {
    var i := FirstDifference(a, b);
    if a != b {
      assert DiffersAt(less, a, b, i) || DiffersAt(less, b, a, i);
    }
  }

  lemma LexStrict<T(!new)>(less: (T, T) -> bool, ok: T -> bool, a: seq<T>, b: seq<T>)
    requires StrictOrder(less, ok) && AllOk(ok, a) && AllOk(ok, b) && LexLower(less, a, b)
    ensures a != b && !LexLower(less, b, a)
  {
    var i: nat :| DiffersAt(less, a, b, i);
    forall j: nat ensures !DiffersAt(less, b, a, j) && a != b {
      if j < i { assert a[..i][j] == b[..i][j]; }
      if i < j && j <= |a| && j <= |b| { assert b[..j][i] == b[i] && a[..j][i] == a[i]; }
    }
  }

  lemma LexTransitive<T(!new)>(less: (T, T) -> bool, ok: T -> bool, a: seq<T>, b: seq<T>, c: seq<T>)
    requires StrictOrder(less, ok) && AllOk(ok, a) && AllOk(ok, b) && AllOk(ok, c)
    requires LexLower(less, a, b) && LexLower(less, b, c)
    ensures LexLower(less, a, c)
  {
    var i: nat :| DiffersAt(less, a, b, i);
    var j: nat :| DiffersAt(less, b, c, j);
    var k := if i < j then i else j;
    assert a[..k] == a[..i][..k] == b[..i][..k] == b[..k];
    assert c[..k] == c[..j][..k] == b[..j][..k] == b[..k];
    if i < j { assert c[i] == c[..j][i] == b[..j][i] == b[i]; }
    if j < i { assert a[j] == a[..i][j] == b[..i][j] == b[j]; }
    assert DiffersAt(less, a, c, k);
  }

  // ---------------------------------------------------------------- decimal numbers

  predicate IsDigit(c: char) {
    '0' <= c <= '9'
  }

  predicate Digits(s: string) {
    s != [] && forall i :: 0 <= i < |s| ==> IsDigit(s[i])
  }

  /** A number without leading zeros. */
  predicate Canonical(s: string) {
    Digits(s) && (|s| == 1 || s[0] != '0')
  }

  function DigitValue(c: char): (d: nat)
    requires IsDigit(c)
    ensures d < 10
  {
    c as int - '0' as int
  }

  function Value(s: string): nat
    requires forall i :: 0 <= i < |s| ==> IsDigit(s[i])
  {
    if s == [] then 0
    else
      assert IsDigit(s[|s| - 1]);
      10 * Value(s[..|s| - 1]) + DigitValue(s[|s| - 1])
  }

  lemma {:induction false} CanonicalIsPositive(s: string)
    requires Digits(s) && s[0] != '0'
    ensures Value(s) > 0
  {
    if |s| > 1 { CanonicalIsPositive(s[..|s| - 1]); }
  }

  /** Different numbers without leading zeros have different values. */
  lemma {:induction false} ValueIsInjective(a: string, b: string)
    requires Canonical(a) && Canonical(b) && Value(a) == Value(b)
    ensures a == b
    decreases |a| + |b|
  {
    var m, n := |a| - 1, |b| - 1;
    assert a == a[..m] + [a[m]] && b == b[..n] + [b[n]];
    if m > 0 { CanonicalIsPositive(a[..m]); }
    if n > 0 { CanonicalIsPositive(b[..n]); }
    assert Value(a[..m]) == Value(b[..n]);
    if m > 0 && n > 0 {
      ValueIsInjective(a[..m], b[..n]);
    } else {
      assert m == 0 ==> Value(a[..m]) == 0;
      assert n == 0 ==> Value(b[..n]) == 0;
    }
  }

  // ---------------------------------------------------------------- parsing

  predicate IsIdentifier(s: string) {
    s != [] && forall i :: 0 <= i < |s| ==> IsDigit(s[i]) || 'a' <= s[i] <= 'z' || 'A' <= s[i] <= 'Z' || s[i] == '-'
  }

  /** A pre-release identifier: a number has no leading zeros. */
  predicate IsPreIdentifier(s: string) {
    IsIdentifier(s) && (Digits(s) ==> Canonical(s))
  }

  function Split(s: string, c: char): (parts: seq<string>)
    ensures parts != []
  {
    if s == [] then [[]]
    else
      var rest := Split(s[1..], c);
      if s[0] == c then [[]] + rest else [[s[0]] + rest[0]] + rest[1..]
  }

  function IndexOf(s: string, c: char): (i: nat)
    ensures i <= |s|
  {
    if s == [] || s[0] == c then 0 else 1 + IndexOf(s[1..], c)
  }

  datatype Version = Version(core: seq<nat>, pre: Option<seq<string>>)

  predicate WellFormed(v: Version) {
    && |v.core| == 3
    && (v.pre.Some? ==> v.pre.value != [] && forall i :: 0 <= i < |v.pre.value| ==> IsPreIdentifier(v.pre.value[i]))
  }

  predicate AllCanonical(parts: seq<string>) {
    forall i :: 0 <= i < |parts| ==> Canonical(parts[i])
  }

  function ParseCore(text: string): Option<seq<nat>> {
    var parts := Split(text, '.');
    if |parts| == 3 && AllCanonical(parts) then Some([Value(parts[0]), Value(parts[1]), Value(parts[2])]) else None
  }

  function ParsePre(text: string): Option<seq<string>> {
    var parts := Split(text, '.');
    if forall i :: 0 <= i < |parts| ==> IsPreIdentifier(parts[i]) then Some(parts) else None
  }

  predicate BuildOk(text: string) {
    var parts := Split(text, '.');
    forall i :: 0 <= i < |parts| ==> IsIdentifier(parts[i])
  }

  /** parsedVersion: core, pre-release and build; the build is checked and dropped. */
  function Parsed(value: string): (v: Option<Version>)
    ensures v.Some? ==> WellFormed(v.value)
  {
    if |value| > 128 then None
    else
      var plus := IndexOf(value, '+');
      var main := value[..plus];
      var dash := IndexOf(main, '-');
      var core := ParseCore(main[..dash]);
      if core.None? || (plus < |value| && !BuildOk(value[plus + 1..])) then None
      else if dash == |main| then Some(Version(core.value, None))
      else if ParsePre(main[dash + 1..]).None? then None
      else Some(Version(core.value, ParsePre(main[dash + 1..])))
  }

  // ---------------------------------------------------------------- precedence

  predicate IdentifierLower(a: string, b: string) {
    if Digits(a) && Digits(b) then Value(a) < Value(b)
    else if Digits(a) || Digits(b) then Digits(a)
    else TextLower(a, b)
  }

  predicate TextLower(a: string, b: string) {
    b != [] && (a == [] || a[0] < b[0] || (a[0] == b[0] && TextLower(a[1..], b[1..])))
  }

  ghost predicate Lower(a: Version, b: Version) {
    || LexLower((x: nat, y: nat) => x < y, a.core, b.core)
    || (a.core == b.core
        && (|| (a.pre.Some? && b.pre.None?)
            || (a.pre.Some? && b.pre.Some? && LexLower(IdentifierLower, a.pre.value, b.pre.value))))
  }

  /** The text comparison is the lexicographic order of its characters. */
  lemma {:induction false} TextIsLexicographic(a: string, b: string)
    ensures TextLower(a, b) <==> LexLower((x: char, y: char) => x < y, a, b)
  {
    var less := (x: char, y: char) => x < y;
    if a != [] && b != [] && a[0] == b[0] {
      TextIsLexicographic(a[1..], b[1..]);
      if LexLower(less, a[1..], b[1..]) {
        var i: nat :| DiffersAt(less, a[1..], b[1..], i);
        assert a[..i + 1] == [a[0]] + a[1..][..i] && b[..i + 1] == [b[0]] + b[1..][..i];
        assert DiffersAt(less, a, b, i + 1);
      }
      if LexLower(less, a, b) {
        var i: nat :| DiffersAt(less, a, b, i);
        assert i > 0;
        assert a[1..][..i - 1] == a[..i][1..] && b[1..][..i - 1] == b[..i][1..];
        assert DiffersAt(less, a[1..], b[1..], i - 1);
      }
    } else if b != [] && (a == [] || a[0] < b[0]) {
      assert DiffersAt(less, a, b, 0);
    } else if LexLower(less, a, b) {
      var i: nat :| DiffersAt(less, a, b, i);
      HeadsAgree(a, b, i);
    }
  }

  lemma HeadsAgree(a: string, b: string, i: nat)
    requires i <= |a| && i <= |b|
    ensures i > 0 && a[..i] == b[..i] ==> a[0] == b[0]
  {
    if i > 0 { assert a[..i][0] == a[0] && b[..i][0] == b[0]; }
  }

  lemma CharactersAreOrdered()
    ensures StrictOrder((x: char, y: char) => x < y, (x: char) => true)
  {
  }

  lemma NumbersAreOrdered()
    ensures StrictOrder((x: nat, y: nat) => x < y, (x: nat) => true)
  {
  }

  lemma TextsAreOrdered(a: string, b: string, c: string)
    ensures TextLower(a, b) || a == b || TextLower(b, a)
    ensures TextLower(a, b) ==> a != b && !TextLower(b, a)
    ensures TextLower(a, b) && TextLower(b, c) ==> TextLower(a, c)
  {
    var less, ok := (x: char, y: char) => x < y, (x: char) => true;
    CharactersAreOrdered();
    TextIsLexicographic(a, b);
    TextIsLexicographic(b, a);
    TextIsLexicographic(b, c);
    TextIsLexicographic(a, c);
    LexTotal(less, ok, a, b);
    if TextLower(a, b) { LexStrict(less, ok, a, b); }
    if TextLower(a, b) && TextLower(b, c) { LexTransitive(less, ok, a, b, c); }
  }

  lemma IdentifierPair(a: string, b: string)
    requires IsPreIdentifier(a) && IsPreIdentifier(b)
    ensures IdentifierLower(a, b) || a == b || IdentifierLower(b, a)
    ensures IdentifierLower(a, b) ==> a != b && !IdentifierLower(b, a)
  {
    TextsAreOrdered(a, b, b);
    if Digits(a) && Digits(b) && Value(a) == Value(b) { ValueIsInjective(a, b); }
  }

  lemma IdentifiersAreOrdered()
    ensures StrictOrder(IdentifierLower, IsPreIdentifier)
  {
    forall a, b | IsPreIdentifier(a) && IsPreIdentifier(b)
      ensures IdentifierLower(a, b) || a == b || IdentifierLower(b, a)
      ensures IdentifierLower(a, b) ==> a != b && !IdentifierLower(b, a)
    {
      IdentifierPair(a, b);
    }
    forall a, b, c | IsPreIdentifier(a) && IsPreIdentifier(b) && IsPreIdentifier(c)
                     && IdentifierLower(a, b) && IdentifierLower(b, c)
      ensures IdentifierLower(a, c)
    {
      TextsAreOrdered(a, b, c);
    }
  }

  /** Precedence is a strict total order of core and pre-release. */
  lemma PrecedenceIsTotal(a: Version, b: Version)
    requires WellFormed(a) && WellFormed(b)
    ensures Lower(a, b) || a == b || Lower(b, a)
    ensures Lower(a, b) ==> a != b && !Lower(b, a)
  {
    var less, any := (x: nat, y: nat) => x < y, (x: nat) => true;
    NumbersAreOrdered();
    IdentifiersAreOrdered();
    LexTotal(less, any, a.core, b.core);
    if LexLower(less, a.core, b.core) { LexStrict(less, any, a.core, b.core); }
    if LexLower(less, b.core, a.core) { LexStrict(less, any, b.core, a.core); }
    if a.pre.Some? && b.pre.Some? {
      LexTotal(IdentifierLower, IsPreIdentifier, a.pre.value, b.pre.value);
      if LexLower(IdentifierLower, a.pre.value, b.pre.value) {
        LexStrict(IdentifierLower, IsPreIdentifier, a.pre.value, b.pre.value);
      }
    }
  }

  lemma PrecedenceIsTransitive(a: Version, b: Version, c: Version)
    requires WellFormed(a) && WellFormed(b) && WellFormed(c) && Lower(a, b) && Lower(b, c)
    ensures Lower(a, c)
  {
    var less, any := (x: nat, y: nat) => x < y, (x: nat) => true;
    NumbersAreOrdered();
    IdentifiersAreOrdered();
    if LexLower(less, a.core, b.core) && LexLower(less, b.core, c.core) {
      LexTransitive(less, any, a.core, b.core, c.core);
    } else if a.core == b.core && b.core == c.core && c.pre.Some? {
      LexTransitive(IdentifierLower, IsPreIdentifier, a.pre.value, b.pre.value, c.pre.value);
    }
  }

  // ---------------------------------------------------------------- the comparison

  /** What a comparison has to return for two valid versions. */
  ghost function Precedence(a: Version, b: Version): int {
    if Lower(a, b) then -1 else if Lower(b, a) then 1 else 0
  }

  method CompareVersions(first: string, second: string) returns (result: Option<int>)
    ensures result.Some? <==> Parsed(first).Some? && Parsed(second).Some?
    ensures result.Some? ==> result.value == Precedence(Parsed(first).value, Parsed(second).value)
  {
    var pa, pb := Parsed(first), Parsed(second);
    if pa.None? || pb.None? {
      return None;
    }
    var a, b := pa.value, pb.value;
    PrecedenceIsTotal(a, b);
    PrecedenceIsTotal(b, a);
    ghost var less := (x: nat, y: nat) => x < y;
    var index := 0;
    while index < 3
      invariant index <= 3 && a.core[..index] == b.core[..index]
    {
      if a.core[index] < b.core[index] {
        assert DiffersAt(less, a.core, b.core, index);
        return Some(-1);
      }
      if a.core[index] > b.core[index] {
        assert DiffersAt(less, b.core, a.core, index);
        return Some(1);
      }
      assert a.core[..index + 1] == a.core[..index] + [a.core[index]];
      assert b.core[..index + 1] == b.core[..index] + [b.core[index]];
      index := index + 1;
    }
    assert a.core == a.core[..3] && b.core == b.core[..3];
    if a.pre.None? && b.pre.None? {
      return Some(0);
    }
    if a.pre.None? {
      return Some(1);
    }
    if b.pre.None? {
      return Some(-1);
    }
    var order := ComparePre(a.pre.value, b.pre.value);
    result := Some(order);
  }

  /** The loop over the pre-release identifiers. */
  method ComparePre(a: seq<string>, b: seq<string>) returns (order: int)
    requires forall i :: 0 <= i < |a| ==> IsPreIdentifier(a[i])
    requires forall i :: 0 <= i < |b| ==> IsPreIdentifier(b[i])
    ensures order == -1 || order == 0 || order == 1
    ensures order == 0 ==> a == b
    ensures order == -1 ==> LexLower(IdentifierLower, a, b)
    ensures order == 1 ==> LexLower(IdentifierLower, b, a)
  {
    var index := 0;
    while index < |a| || index < |b|
      invariant index <= |a| && index <= |b| && a[..index] == b[..index]
      decreases |a| + |b| - 2 * index
    {
      if index == |a| {
        assert DiffersAt(IdentifierLower, a, b, index);
        return -1;
      }
      if index == |b| {
        assert DiffersAt(IdentifierLower, b, a, index);
        return 1;
      }
      var left, right := a[index], b[index];
      if left != right {
        IdentifierPair(left, right);
        assert DiffersAt(IdentifierLower, a, b, index) || DiffersAt(IdentifierLower, b, a, index);
        var leftNumber, rightNumber := Digits(left), Digits(right);
        if leftNumber && rightNumber {
          return if Value(left) < Value(right) then -1 else 1;
        }
        if leftNumber != rightNumber {
          return if leftNumber then -1 else 1;
        }
        return if TextLower(left, right) then -1 else 1;
      }
      assert a[..index + 1] == a[..index] + [left] && b[..index + 1] == b[..index] + [right];
      index := index + 1;
    }
    assert a == a[..index] && b == b[..index];
    order := 0;
  }

  /** compareVersions is a total preorder, and equates versions that differ at most in their build. */
  lemma ComparisonIsPreorder(a: Version, b: Version, c: Version)
    requires WellFormed(a) && WellFormed(b) && WellFormed(c)
    ensures Precedence(b, a) == -Precedence(a, b)
    ensures Precedence(a, b) == 0 <==> a == b
    ensures Precedence(a, b) <= 0 && Precedence(b, c) <= 0 ==> Precedence(a, c) <= 0
  {
    PrecedenceIsTotal(a, b);
    PrecedenceIsTotal(b, a);
    PrecedenceIsTotal(b, c);
    PrecedenceIsTotal(a, c);
    PrecedenceIsTotal(c, a);
    PrecedenceIsTotal(c, b);
    if Lower(a, b) && Lower(b, c) { PrecedenceIsTransitive(a, b, c); }
  }

  // ---------------------------------------------------------------- the report

  datatype Status = Current | Outdated | NewerThanLatest | Prerelease | Unavailable
  datatype Comparison = Older | Equal | Newer
  datatype Reason = Timeout | RegistryUnavailable | InvalidResponse | InvalidRunningVersion

  datatype Report = Report(
    latest: Option<string>, running: string, status: Status, comparison: Option<Comparison>, reason: Option<Reason>)

  /** What came back from the registry: a version text, or the kind of failure. */
  datatype Answer = Answered(version: string) | TimedOut | BadResponse | Unreachable

  predicate IsRelease(version: string) {
    Parsed(version).Some? && Parsed(version).value.pre.None?
  }

  /** isLatestVersionCheck. */
  ghost predicate IsLatestVersionCheck(r: Report) {
    if r.status == Unavailable then
      && r.comparison.None?
      && (if r.reason == Some(InvalidRunningVersion)
          then Parsed(r.running).None? && r.latest.Some? && IsRelease(r.latest.value)
          else r.reason.Some? && r.latest.None?)
    else
      && Parsed(r.running).Some? && r.latest.Some? && IsRelease(r.latest.value) && r.reason.None?
      && var running := Parsed(r.running).value;
         var compared := Precedence(running, Parsed(r.latest.value).value);
         && r.comparison == Some(if compared < 0 then Older else if compared > 0 then Newer else Equal)
         && r.status == if running.pre.Some? then Prerelease
                        else if compared < 0 then Outdated
                        else if compared > 0 then NewerThanLatest
                        else Current
  }

  /** checkLatestVersion: whatever the registry answers, the report is one its validator accepts. */
  method CheckLatestVersion(running: string, answer: Answer) returns (report: Report)
    ensures IsLatestVersionCheck(report) && report.running == running
    ensures report.status != Unavailable <==> answer.Answered? && IsRelease(answer.version) && Parsed(running).Some?
    ensures report.status != Unavailable ==> report.latest == Some(answer.version)
    ensures report.reason == Some(Timeout) <==> answer.TimedOut?
    ensures report.reason == Some(RegistryUnavailable) <==> answer.Unreachable?
    ensures report.reason == Some(InvalidResponse)
       <==> answer.BadResponse? || (answer.Answered? && !IsRelease(answer.version))
  {
    report := Report(None, running, Unavailable, None, None);
    if !answer.Answered? || !IsRelease(answer.version) {
      report := report.(reason := Some(
        match answer
        case TimedOut => Timeout
        case Unreachable => RegistryUnavailable
        case _ => InvalidResponse));
      return;
    }
    report := report.(latest := Some(answer.version));
    var compared := CompareVersions(running, answer.version);
    if compared.None? {
      report := report.(reason := Some(InvalidRunningVersion));
      return;
    }
    var comparison := compared.value;
    report := report.(comparison := Some(if comparison < 0 then Older else if comparison > 0 then Newer else Equal));
    report := report.(status :=
      if Parsed(running).value.pre.Some? then Prerelease
      else if comparison < 0 then Outdated
      else if comparison > 0 then NewerThanLatest
      else Current);
  }
}

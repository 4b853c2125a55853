/**
  Versions as texts (src/runtime/release.ts): a text is read as a version exactly when it is that version
  written out, with or without a build; and the rules of section 11 of Semantic Versioning 2.0.0, one by
  one, for the precedence that the comparison computes.
*/
module VersionTexts {
  import opened Options
  import opened Versions

  // ---------------------------------------------------------------- numbers

  function Decimal(n: nat): (s: string)
    ensures s != [] && forall i :: 0 <= i < |s| ==> IsDigit(s[i])
  {
    if n < 10 then [(n as char) + '0'] else Decimal(n / 10) + [((n % 10) as char) + '0']
  }

  lemma {:induction false} DecimalIsCanonical(n: nat)
    ensures Canonical(Decimal(n)) && Value(Decimal(n)) == n && (n > 0 ==> Decimal(n)[0] != '0')
  {
    var s := Decimal(n);
    if n >= 10 {
      DecimalIsCanonical(n / 10);
      assert s[..|s| - 1] == Decimal(n / 10) && s[0] == Decimal(n / 10)[0];
    } else {
      assert s[..|s| - 1] == [];
    }
  }

  // ---------------------------------------------------------------- parts

  predicate Without(s: string, c: char) {
    c !in s
  }

  function Join(parts: seq<string>): string {
    if parts == [] then [] else if |parts| == 1 then parts[0] else parts[0] + "." + Join(parts[1..])
  }

  predicate NoDots(parts: seq<string>) {
    forall i :: 0 <= i < |parts| ==> Without(parts[i], '.')
  }

  lemma {:induction false} SplitWord(a: string, rest: string)
    requires Without(a, '.')
    ensures Split(a, '.') == [a] && Split(a + "." + rest, '.') == [a] + Split(rest, '.')
  {
    var s := a + "." + rest;
    if a == [] {
      assert s[0] == '.' && s[1..] == rest;
      assert [[]] + Split(rest, '.') == [a] + Split(rest, '.');
    } else {
      SplitWord(a[1..], rest);
      assert s[0] == a[0] && s[1..] == a[1..] + "." + rest;
      var tail := Split(s[1..], '.');
      assert tail[1..] == Split(rest, '.') && [a[0]] + a[1..] == a;
    }
  }

  lemma {:induction false} SplitJoined(parts: seq<string>)
    requires parts != [] && NoDots(parts)
    ensures Split(Join(parts), '.') == parts
  {
    if |parts| == 1 {
      SplitWord(parts[0], []);
    } else {
      SplitWord(parts[0], Join(parts[1..]));
      SplitJoined(parts[1..]);
      assert [parts[0]] + parts[1..] == parts;
    }
  }

  lemma {:induction false} JoinSplit(s: string)
    ensures Join(Split(s, '.')) == s && NoDots(Split(s, '.'))
  {
    if s != [] {
      var rest := Split(s[1..], '.');
      var parts := Split(s, '.');
      JoinSplit(s[1..]);
      if s[0] == '.' {
        assert parts == [[]] + rest && parts[1..] == rest;
        assert Join(parts) == [] + "." + s[1..] == s;
      } else {
        assert parts[1..] == rest[1..] && parts[0] == [s[0]] + rest[0];
        assert Join(parts) == [s[0]] + Join(rest) by {
          if |rest| > 1 {
            assert [s[0]] + rest[0] + "." + Join(rest[1..]) == [s[0]] + (rest[0] + "." + Join(rest[1..]));
          }
        }
      }
    }
  }

  lemma {:induction false} JoinWithout(parts: seq<string>, c: char)
    requires c != '.' && forall i :: 0 <= i < |parts| ==> Without(parts[i], c)
    ensures Without(Join(parts), c)
  {
    if |parts| > 1 { JoinWithout(parts[1..], c); }
  }

  /** The character is found where it first stands. */
  lemma {:induction false} IndexFound(a: string, c: char, rest: string)
    requires Without(a, c)
    ensures IndexOf(a, c) == |a| && IndexOf(a + [c] + rest, c) == |a|
  {
    if a != [] {
      IndexFound(a[1..], c, rest);
      assert (a + [c] + rest)[1..] == a[1..] + [c] + rest;
    }
  }

  lemma {:induction false} IndexMeans(s: string, c: char)
    ensures Without(s[..IndexOf(s, c)], c)
    ensures IndexOf(s, c) < |s| ==> s[IndexOf(s, c)] == c
  {
    if s != [] && s[0] != c {
      IndexMeans(s[1..], c);
      assert s[..IndexOf(s, c)] == [s[0]] + s[1..][..IndexOf(s[1..], c)];
    }
  }

  // ---------------------------------------------------------------- versions

  function CoreText(core: seq<nat>): string
    requires |core| == 3
  {
    Join([Decimal(core[0]), Decimal(core[1]), Decimal(core[2])])
  }

  /** The version without its build. */
  function MainText(v: Version): string
    requires |v.core| == 3
  {
    if v.pre.Some? then CoreText(v.core) + ['-'] + Join(v.pre.value) else CoreText(v.core)
  }

  function Written(v: Version, build: Option<seq<string>>): string
    requires |v.core| == 3
  {
    if build.Some? then MainText(v) + ['+'] + Join(build.value) else MainText(v)
  }

  predicate BuildFits(build: Option<seq<string>>) {
    build.Some? ==> build.value != [] && forall i :: 0 <= i < |build.value| ==> IsIdentifier(build.value[i])
  }

  lemma CoreIsRead(core: seq<nat>)
    requires |core| == 3
    ensures ParseCore(CoreText(core)) == Some(core)
    ensures Without(CoreText(core), '-') && Without(CoreText(core), '+')
  {
    var parts := [Decimal(core[0]), Decimal(core[1]), Decimal(core[2])];
    DecimalIsCanonical(core[0]);
    DecimalIsCanonical(core[1]);
    DecimalIsCanonical(core[2]);
    assert !IsDigit('.') && !IsDigit('-') && !IsDigit('+');
    assert NoDots(parts);
    SplitJoined(parts);
    JoinWithout(parts, '-');
    JoinWithout(parts, '+');
    assert core == [core[0], core[1], core[2]];
  }

  lemma CoreWasWritten(text: string)
    requires ParseCore(text).Some?
    ensures |ParseCore(text).value| == 3 && text == CoreText(ParseCore(text).value)
  {
    var parts, core := Split(text, '.'), ParseCore(text).value;
    JoinSplit(text);
    forall i | 0 <= i < 3 ensures Decimal(core[i]) == parts[i] {
      DecimalIsCanonical(core[i]);
      ValueIsInjective(Decimal(core[i]), parts[i]);
    }
    assert parts == [Decimal(core[0]), Decimal(core[1]), Decimal(core[2])];
  }

  lemma IdentifierIsPlain(s: string)
    requires IsIdentifier(s)
    ensures Without(s, '.') && Without(s, '+')
  {
  }

  lemma IdentifiersAreRead(parts: seq<string>)
    requires parts != [] && forall i :: 0 <= i < |parts| ==> IsIdentifier(parts[i])
    ensures Split(Join(parts), '.') == parts && Without(Join(parts), '+')
  {
    forall i | 0 <= i < |parts| ensures Without(parts[i], '.') && Without(parts[i], '+') {
      IdentifierIsPlain(parts[i]);
    }
    SplitJoined(parts);
    JoinWithout(parts, '+');
  }

  lemma MainIsRead(v: Version)
    requires WellFormed(v)
    ensures Without(MainText(v), '+')
    ensures var dash := IndexOf(MainText(v), '-');
            && ParseCore(MainText(v)[..dash]) == Some(v.core)
            && (dash == |MainText(v)| <==> v.pre.None?)
            && (v.pre.Some? ==> ParsePre(MainText(v)[dash + 1..]) == v.pre)
  {
    CoreIsRead(v.core);
    var core, main := CoreText(v.core), MainText(v);
    hide CoreText, ParseCore;
    if v.pre.Some? {
      var rest := Join(v.pre.value);
      IdentifiersAreRead(v.pre.value);
      IndexFound(core, '-', rest);
      assert main[..|core|] == core && main[|core| + 1..] == rest;
    } else {
      IndexFound(core, '-', []);
      assert main[..|core|] == core;
    }
  }

  /** Reading a text part by part. */
  lemma ReadByParts(text: string, plus: nat, dash: nat, v: Version)
    requires |text| <= 128 && plus == IndexOf(text, '+') && dash == IndexOf(text[..plus], '-')
    requires plus < |text| ==> BuildOk(text[plus + 1..])
    requires ParseCore(text[..plus][..dash]) == Some(v.core) && (dash == |text[..plus]| <==> v.pre.None?)
    requires v.pre.Some? ==> ParsePre(text[..plus][dash + 1..]) == v.pre
    ensures Parsed(text) == Some(v)
  {
    hide IndexOf, BuildOk, ParseCore, ParsePre;
  }

  /** A version that is written out in at most 128 characters is read as itself. */
  lemma WrittenIsRead(v: Version, build: Option<seq<string>>)
    requires WellFormed(v) && BuildFits(build) && |Written(v, build)| <= 128
    ensures Parsed(Written(v, build)) == Some(v)
  {
    var main, text := MainText(v), Written(v, build);
    MainIsRead(v);
    if build.Some? {
      IdentifiersAreRead(build.value);
      IndexFound(main, '+', Join(build.value));
      assert text[|main| + 1..] == Join(build.value);
    } else {
      IndexFound(main, '+', []);
    }
    assert text[..|main|] == main;
    hide MainText, ParseCore, ParsePre, Parsed, IndexOf, Join;
    ReadByParts(text, |main|, IndexOf(main, '-'), v);
  }

  lemma PreWasWritten(text: string)
    requires ParsePre(text).Some?
    ensures text == Join(ParsePre(text).value)
  {
    JoinSplit(text);
  }

  lemma CutAt(s: string, i: nat)
    requires i < |s|
    ensures s == s[..i] + [s[i]] + s[i + 1..]
  {
  }

  lemma MainWasWritten(main: string, v: Version, dash: nat)
    requires dash == IndexOf(main, '-') && ParseCore(main[..dash]) == Some(v.core)
    requires v.pre == if dash == |main| then None else ParsePre(main[dash + 1..])
    requires dash < |main| ==> v.pre.Some?
    ensures |v.core| == 3 && main == MainText(v)
  {
    CoreWasWritten(main[..dash]);
    IndexMeans(main, '-');
    hide CoreText, ParseCore, ParsePre, IndexOf, Join, Without;
    if dash < |main| {
      PreWasWritten(main[dash + 1..]);
      CutAt(main, dash);
    } else {
      assert main == main[..dash];
    }
  }

  lemma ReadWasWritten(text: string) returns (build: Option<seq<string>>)
    requires Parsed(text).Some?
    ensures BuildFits(build) && text == Written(Parsed(text).value, build)
  {
    var plus := IndexOf(text, '+');
    var main := text[..plus];
    MainWasWritten(main, Parsed(text).value, IndexOf(main, '-'));
    IndexMeans(text, '+');
    hide MainText, ParseCore, ParsePre;
    if plus < |text| {
      var rest := text[plus + 1..];
      JoinSplit(rest);
      build := Some(Split(rest, '.'));
      CutAt(text, plus);
    } else {
      build := None;
      assert text == main;
    }
  }

  /** A text is read as a version exactly when it is that version written out, in at most 128 characters. */
  lemma ParsedExactly(text: string, v: Version)
    ensures Parsed(text) == Some(v)
       <==> |text| <= 128 && WellFormed(v) && exists build :: BuildFits(build) && text == Written(v, build)
  {
    hide Written;
    if Parsed(text) == Some(v) {
      var build := ReadWasWritten(text);
    }
    forall build | |text| <= 128 && WellFormed(v) && BuildFits(build) && text == Written(v, build)
      ensures Parsed(text) == Some(v)
    {
      WrittenIsRead(v, build);
    }
  }

  // ---------------------------------------------------------------- the rules of precedence

  /** The smaller number wins at the first place where two cores differ. */
  lemma CoreDecides(a: Version, b: Version, i: nat)
    requires WellFormed(a) && WellFormed(b) && i < 3
    requires a.core[..i] == b.core[..i] && a.core[i] < b.core[i]
    ensures Precedence(a, b) == -1
  {
    assert DiffersAt((x: nat, y: nat) => x < y, a.core, b.core, i);
  }

  /** A pre-release comes before its release. */
  lemma PreReleaseComesFirst(core: seq<nat>, pre: seq<string>)
    requires WellFormed(Version(core, Some(pre)))
    ensures Precedence(Version(core, Some(pre)), Version(core, None)) == -1
  {
  }

  /** A longer pre-release comes after its beginning. */
  lemma LongerComesLater(core: seq<nat>, pre: seq<string>, more: seq<string>)
    requires WellFormed(Version(core, Some(pre + more))) && pre != [] && more != []
    ensures Precedence(Version(core, Some(pre)), Version(core, Some(pre + more))) == -1
  {
    assert (pre + more)[..|pre|] == pre;
    assert DiffersAt(IdentifierLower, pre, pre + more, |pre|);
  }

  /**
    At the first place where two pre-releases differ, numbers are compared by value, texts by the first
    character that differs or by length, and a number comes before a text.
  */
  lemma IdentifierDecides(
    core: seq<nat>, same: seq<string>, a: string, b: string, restA: seq<string>, restB: seq<string>)
    requires WellFormed(Version(core, Some(same + [a] + restA))) && WellFormed(Version(core, Some(same + [b] + restB)))
    requires || (Digits(a) && Digits(b) && Value(a) < Value(b))
             || (Digits(a) && !Digits(b))
             || (!Digits(a) && !Digits(b) && LexLower((x: char, y: char) => x < y, a, b))
    ensures Precedence(Version(core, Some(same + [a] + restA)), Version(core, Some(same + [b] + restB))) == -1
  {
    var first, second := same + [a] + restA, same + [b] + restB;
    TextIsLexicographic(a, b);
    assert first[..|same|] == same == second[..|same|] && first[|same|] == a && second[|same|] == b;
    assert DiffersAt(IdentifierLower, first, second, |same|);
  }
}

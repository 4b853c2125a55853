/**
  Whether an allow rule covers a whole tree (allowRuleCoversAnchor in src/runtime/path-policy.ts).
  The code compares texts: the recursive root of an include, and the text of an exclusion before its
  first wildcard, with the path of the tree. Paths hold no braces.

  `CoveredTreeIsAllowed` needs that the literal text of every exclusion ends where a segment ends, and
  `CoversExactlyAtBoundaries` says that for one exclusion this is exactly what the comparison of texts
  needs; `CoversRightlyExactly` has the condition for several. `CoveredTreeIsExcluded` is a rule that
  fails it. The include side has no such condition: what a recursive root covers is what it matches
  (`CoveredIsIncluded`).
*/
module AllowRules {
  import opened Options
  import opened GlobPatterns
  import opened BraceSelectors
  import opened PathPolicy

  predicate Special(n: Node) {
    n.Group? || n.c in "?*[{"
  }

  /** The text before the first wildcard. */
  function Literal(s: Selector): string
    decreases |s|
  {
    if s == [] || Special(s[0]) then [] else [s[0].c] + Literal(s[1..])
  }

  /** The text that comes before a recursive tail, as segments; None when it holds braces. */
  function CoveringRoot(s: Selector): Option<Pattern> {
    if TextRoot(s).Some? && IsPlain(TextRoot(s).value) then Some(Segments(Text(TextRoot(s).value))) else None
  }

  predicate Comparable(a: Pattern, b: Pattern) {
    a <= b || b <= a
  }

  /** allowRuleCoversAnchor for the tree at anchor + root. */
  predicate AllowCovers(rule: Rule, root: Path) {
    && (exists s :: s in rule.includes && CoveringRoot(s).Some? && CoveringRoot(s).value <= root)
    && (forall e :: e in rule.excludes ==>
          root != [] && Literal(e) != [] && !Comparable(Segments(Literal(e)), root))
  }

  // ---------------------------------------------------------------- what an include covers

  lemma {:induction false} MatchesItself(p: string)
    ensures SegmentMatches(p, p)
  {
    if p != [] {
      MatchesItself(p[1..]);
      if p[0] == '*' { StarTakesOne(p, p); }
    }
  }

  lemma StarTakesOne(p: string, text: string)
    requires p != [] && p[0] == '*' && text != [] && SegmentMatches(p[1..], text[1..])
    ensures SegmentMatches(p, text)
  {
    assert SegmentMatches(p, text[1..]);
  }

  lemma {:induction false} PathMatchesItself(p: Pattern, bare: bool)
    ensures Matches(p, p, bare)
  {
    if p != [] {
      PathMatchesItself(p[1..], bare);
      MatchesItself(p[0]);
      if p[0] == DEEP && p != [DEEP] { DeepTakesOne(p, p, bare); }
    }
  }

  lemma DeepTakesOne(p: Pattern, path: Path, bare: bool)
    requires p != [] && p[0] == DEEP && path != [] && Matches(p[1..], path[1..], bare)
    ensures Matches(p, path, bare)
  {
    if p == [DEEP] {
      assert bare || path != [];
    } else {
      assert Matches(p, path[1..], bare);
    }
  }

  /** The word of a recursive selector whose text has no braces. */
  lemma RecursiveWord(s: Selector) returns (word: string, tail: Pattern)
    requires CoveringRoot(s).Some? && TextRoot(s).value != []
    ensures word in Words(s) && (tail == [DEEP] || tail == [DEEP, "*"])
    ensures Segments(word) == CoveringRoot(s).value + tail
    ensures Words(TextRoot(s).value) == {Text(TextRoot(s).value)}
  {
    var t := TextRoot(s).value;
    var end := TailOf(s);
    SplitEnd(s, "/" + end);
    PlainHasOneWord(t);
    word := Text(t) + "/" + end;
    tail := Segments(end);
    assert word == Text(t) + ("/" + end);
    Multiplies(Words(t), {"/" + end}, Text(t), "/" + end);
    SegmentsJoin(Text(t), end);
    SegmentsOfTails();
  }

  /** Everything at or below a covered root is matched by the include. */
  lemma CoveredIsIncluded(s: Selector, root: Path, rest: Path, bare: bool)
    requires CoveringRoot(s).Some? && CoveringRoot(s).value <= root
    ensures SelectorMatches(s, root + rest, bare)
  {
    var t, r, path := TextRoot(s).value, CoveringRoot(s).value, root + rest;
    if t != [] {
      var word, tail := RecursiveWord(s);
      assert r == Segments(Text(t)) && path == r + path[|r|..];
      hide Segments, TextRoot, CoveringRoot, Words, Matches;
      PathMatchesItself(r, bare);
      if path[|r|..] == [] {
        assert path == r;
        assert GlobMatches(t, path, bare);
      } else {
        MatchesBelow(r, tail, r, path[|r|..], bare);
        assert GlobMatches(s, path, bare);
      }
    }
  }

  // ---------------------------------------------------------------- what an exclusion reaches

  /** The literal text of an exclusion ends where a segment of each of its words ends. */
  predicate AtBoundary(e: Selector) {
    var n := |Literal(e)|;
    n > 0 && Literal(e)[n - 1] != '/' ==>
      forall w :: w in Words(e) ==> |w| <= n || w[n] == '/'
  }

  lemma {:induction false} WordStartsLiterally(e: Selector, w: string)
    requires w in Words(e)
    ensures Literal(e) <= w
    decreases |e|
  {
    if e != [] && !Special(e[0]) {
      var x, y := Factors(NodeWords(e[0]), Words(e[1..]), w);
      WordStartsLiterally(e[1..], y);
    }
  }

  lemma {:induction false} LiteralHasNoSpecials(e: Selector)
    ensures IsLiteral(Literal(e))
    decreases |e|
  {
    if e != [] && !Special(e[0]) {
      LiteralHasNoSpecials(e[1..]);
      assert e[0].c !in "?*[{";
      assert '?' in "?*[{" && '*' in "?*[{" && '[' in "?*[{" && '{' in "?*[{";
    }
  }

  lemma LiteralPart(text: string, part: string)
    requires IsLiteral(text) && forall c :: c in part ==> c in text
    ensures IsLiteral(part)
  {
  }

  lemma {:induction false} SegmentsOfLiteral(text: string)
    requires IsLiteral(text)
    ensures forall i :: 0 <= i < |Segments(text)| ==> IsLiteral(Segments(text)[i])
    decreases |text|
  {
    if text != [] {
      if text[0] == '/' {
        LiteralPart(text, text[1..]);
        SegmentsOfLiteral(text[1..]);
      } else {
        LiteralPart(text, text[HeadLength(text)..]);
        LiteralPart(text, text[..HeadLength(text)]);
        SegmentsOfLiteral(text[HeadLength(text)..]);
      }
    }
  }

  /** A text that ends in a slash has the segments of the text without it. */
  lemma SegmentsOfSlashed(a: string, b: string)
    requires a != [] && a[|a| - 1] == '/'
    ensures Segments(a + b) == Segments(a) + Segments(b)
  {
    var head := a[..|a| - 1];
    assert a == head + "/" + [] && a + b == head + "/" + b;
    SegmentsJoin(head, []);
    SegmentsJoin(head, b);
    assert Segments([]) == [];
  }

  lemma WordsOfBoundary(e: Selector, w: string) returns (more: Pattern)
    requires AtBoundary(e) && w in Words(e) && Literal(e) != []
    ensures Segments(w) == Segments(Literal(e)) + more
  {
    WordStartsLiterally(e, w);
    var literal := Literal(e);
    var v := w[|literal|..];
    assert w == literal + v;
    if literal[|literal| - 1] == '/' {
      SegmentsOfSlashed(literal, v);
      more := Segments(v);
    } else if v == [] {
      more := [];
      assert w == literal;
    } else {
      assert v[0] == w[|literal|] == '/';
      assert w == literal + "/" + v[1..];
      SegmentsJoin(literal, v[1..]);
      more := Segments(v[1..]);
    }
  }

  lemma {:induction false} LiteralMatchIsEqual(p: string, text: string)
    requires IsLiteral(p) && SegmentMatches(p, text)
    ensures p == text
  {
    if p != [] {
      assert p[0] in p;
      LiteralPart(p, p[1..]);
      LiteralMatchIsEqual(p[1..], text[1..]);
    }
  }

  lemma {:induction false} LiteralPathIsEqual(p: Pattern, path: Path, bare: bool)
    requires (forall i :: 0 <= i < |p| ==> IsLiteral(p[i])) && Matches(p, path, bare)
    ensures p == path
  {
    if p != [] {
      LiteralIsNotDeep(p[0]);
      LiteralMatchIsEqual(p[0], path[0]);
      LiteralPathIsEqual(p[1..], path[1..], bare);
    }
  }

  /** A pattern that starts with literal segments selects only paths below them. */
  lemma LiteralStart(literal: Pattern, more: Pattern, path: Path, bare: bool)
    requires forall i :: 0 <= i < |literal| ==> IsLiteral(literal[i])
    requires Selects(literal + more, path, bare) && literal != []
    ensures literal <= path
  {
    var pattern := literal + more;
    if Matches(pattern, path, bare) {
      LiteralPrefix(literal, more, path, bare);
    } else {
      var tail := RecursiveTail(pattern);
      var r := RecursiveRoot(pattern).value;
      assert literal <= r + tail;
      LiteralPrefixBeforeDeep(literal, r, tail);
      assert r == literal + r[|literal|..];
      LiteralPrefix(literal, r[|literal|..], path, bare);
    }
    LiteralPathIsEqual(literal, path[..|literal|], bare);
  }

  lemma NothingExcluded(e: Selector, root: Path, rest: Path, bare: bool)
    requires AtBoundary(e) && root != []
    requires Literal(e) != [] && !Comparable(Segments(Literal(e)), root)
    ensures !SelectorMatches(e, root + rest, bare)
  {
    if SelectorMatches(e, root + rest, bare) {
      var w := SelectedByAWord(e, root + rest, bare);
      var more := WordsOfBoundary(e, w);
      LiteralHasNoSpecials(e);
      SegmentsOfLiteral(Literal(e));
      LiteralStart(Segments(Literal(e)), more, root + rest, bare);
      PrefixesCompare(Segments(Literal(e)), root, root + rest);
    }
  }

  lemma PrefixesCompare(a: Pattern, b: Pattern, path: Path)
    requires a <= path && b <= path
    ensures Comparable(a, b)
  {
    if |a| <= |b| { assert a == b[..|a|]; } else { assert b == a[..|b|]; }
  }

  /** An allow rule that covers a tree selects everything in it. */
  lemma CoveredTreeIsAllowed(rule: Rule, root: Path, rest: Path, bare: bool)
    requires AllowCovers(rule, root)
    requires forall e :: e in rule.excludes ==> AtBoundary(e)
    ensures RuleSelects(rule, root + rest, bare)
  {
    var s :| s in rule.includes && CoveringRoot(s).Some? && CoveringRoot(s).value <= root;
    CoveredIsIncluded(s, root, rest, bare);
    forall e | e in rule.excludes ensures !SelectorMatches(e, root + rest, bare) && root != [] {
      NothingExcluded(e, root, rest, bare);
    }
  }

  // ---------------------------------------------------------------- exactly when

  lemma HeadIsPositive(text: string)
    requires text != [] && text[0] != '/'
    ensures HeadLength(text) > 0
  {
  }

  lemma FirstDiffers(a: string, b: string, more: Pattern)
    requires a != b
    ensures !Comparable([a], [b] + more)
  {
    assert [a][0] == a && ([b] + more)[0] == b;
  }

  /** The first segment of a text that goes on after `a`. */
  lemma SegmentGoesOn(a: string, v: string) returns (longer: string, rest: string)
    requires '/' !in a && v != [] && v[0] != '/'
    ensures longer + rest == a + v && |longer| > |a| && '/' !in longer && (rest == [] || rest[0] == '/')
  {
    HeadIsPositive(v);
    var m := HeadLength(v);
    hide HeadLength;
    longer, rest := a + v[..m], v[m..];
    assert v[..m] + v[m..] == v;
    assert longer + rest == a + v;
  }

  lemma LongerSegment(a: string, v: string)
    requires a != [] && '/' !in a && v != [] && v[0] != '/'
    ensures !Comparable(Segments(a), Segments(a + v))
  {
    hide Segments, HeadLength, Comparable;
    var longer, rest := SegmentGoesOn(a, v);
    OneSegment(a);
    NextSegment(longer, rest);
    FirstDiffers(a, longer, Segments(rest));
  }

  lemma {:induction false} SegmentsDiverge(a: string, v: string)
    requires a != [] && a[|a| - 1] != '/' && v != [] && v[0] != '/'
    ensures !Comparable(Segments(a), Segments(a + v))
    decreases |a|
  {
    if a[0] == '/' {
      assert (a + v)[0] == '/' && (a + v)[1..] == a[1..] + v;
      SegmentsDiverge(a[1..], v);
    } else {
      var n := HeadLength(a);
      var head, rest := a[..n], a[n..];
      hide Segments, HeadLength, Comparable;
      assert head + rest == a && head + (rest + v) == a + v;
      if n < |a| {
        SegmentsDiverge(rest, v);
        NextSegment(head, rest);
        NextSegment(head, rest + v);
        PrependedDiverges(head, Segments(rest), Segments(rest + v));
      } else {
        assert a == head;
        LongerSegment(a, v);
      }
    }
  }

  lemma PrependedDiverges(head: string, a: Pattern, b: Pattern)
    ensures Comparable([head] + a, [head] + b) ==> Comparable(a, b)
  {
    assert ([head] + a)[1..] == a && ([head] + b)[1..] == b;
    forall x, y | [head] + x <= [head] + y ensures x <= y {
      forall i | 0 <= i < |x| ensures x[i] == y[i] {
        assert ([head] + x)[i + 1] == ([head] + y)[i + 1];
      }
    }
  }

  /** Every tree that the rule covers is selected as a whole. */
  ghost predicate CoversRightly(rule: Rule, bare: bool) {
    forall root, rest :: AllowCovers(rule, root) ==> RuleSelects(rule, root + rest, bare)
  }

  /** These exclusions make the comparison of texts wrong for no includes. */
  ghost predicate AlwaysCoversRightly(excludes: seq<Selector>, bare: bool) {
    forall includes :: CoversRightly(Rule(includes, excludes), bare)
  }

  /** The rule that allows everything but what these exclude. */
  function AllBut(excludes: seq<Selector>): Rule {
    Rule([Plain("**")], excludes)
  }

  /**
    With a single exclusion the comparison of texts is right for every tree under every includes, and
    under the include `**` alone, if and only if its literal text ends where a segment ends.
  */
  lemma CoversExactlyAtBoundaries(e: Selector, bare: bool)
    ensures AlwaysCoversRightly([e], bare) <==> AtBoundary(e)
    ensures CoversRightly(AllBut([e]), bare) <==> AtBoundary(e)
  {
    var rule := AllBut([e]);
    if AtBoundary(e) {
      forall includes, root, rest | AllowCovers(Rule(includes, [e]), root)
        ensures RuleSelects(Rule(includes, [e]), root + rest, bare)
      {
        CoveredTreeIsAllowed(Rule(includes, [e]), root, rest, bare);
      }
    } else {
      var n := |Literal(e)|;
      var w :| w in Words(e) && !(|w| <= n || w[n] == '/');
      WordStartsLiterally(e, w);
      assert w == Literal(e) + w[n..];
      SegmentsDiverge(Literal(e), w[n..]);
      var root := Segments(w);
      PathMatchesItself(root, bare);
      assert Comparable(Segments(Literal(e)), []);
      assert CoveringRoot(Plain("**")).Some? && CoveringRoot(Plain("**")).value == [] <= root;
      assert Plain("**") in rule.includes;
      assert AllowCovers(rule, root);
      assert root + [] == root && GlobMatches(e, root, bare) && e in rule.excludes;
      assert !RuleSelects(rule, root + [], bare);
    }
  }

  // ---------------------------------------------------------------- several exclusions

  /** No word of an exclusion, taken as a tree, is covered. */
  ghost predicate WordsAreBlocked(excludes: seq<Selector>) {
    forall e, w :: e in excludes && w in Words(e) ==> !AllowCovers(AllBut(excludes), Segments(w))
  }

  /** One exclusion keeps the rule from covering this tree. */
  predicate Blocks(e: Selector, root: Path) {
    root == [] || Literal(e) == [] || Comparable(Segments(Literal(e)), root)
  }

  lemma UnblockedWhenCovered(rule: Rule, root: Path)
    requires AllowCovers(rule, root)
    ensures forall e :: e in rule.excludes ==> !Blocks(e, root)
  {
  }

  lemma CoversUnlessBlocked(excludes: seq<Selector>, root: Path)
    ensures AllowCovers(AllBut(excludes), root) <==> forall e :: e in excludes ==> !Blocks(e, root)
  {
    var all := Plain("**");
    assert CoveringRoot(all).Some? && CoveringRoot(all).value == [] <= root;
    assert all in AllBut(excludes).includes;
  }

  /** A literal pattern selects only its own path. */
  lemma LiteralSelectsItself(literal: Pattern, path: Path, bare: bool)
    requires forall i :: 0 <= i < |literal| ==> IsLiteral(literal[i])
    requires Selects(literal, path, bare)
    ensures path == literal
  {
    LiteralIsNotRecursive(literal);
    LiteralPathIsEqual(literal, path, bare);
  }

  lemma LiteralIsNotRecursive(literal: Pattern)
    requires forall i :: 0 <= i < |literal| ==> IsLiteral(literal[i])
    ensures RecursiveRoot(literal).None?
  {
    var n := |literal|;
    forall i | 0 <= i < n ensures literal[i] != DEEP {
      LiteralIsNotDeep(literal[i]);
    }
    assert n >= 2 ==> literal[n - 2..][0] == literal[n - 2];
  }

  /**
    An exclusion that blocks a word, taken as a tree, blocks every tree in which that word selects
    something: its literal text is the start of everything the word selects, or the word is literal.
  */
  lemma BlockedEverywhere(e: Selector, w: string, root: Path, rest: Path, bare: bool)
    requires Blocks(e, Segments(w)) && Selects(Segments(w), root + rest, bare)
    ensures Blocks(e, root)
  {
    var p, literal := Segments(w), Segments(Literal(e));
    LiteralHasNoSpecials(e);
    SegmentsOfLiteral(Literal(e));
    if p == [] {
      LiteralSelectsItself([], root + rest, bare);
    } else if Literal(e) != [] && literal != [] {
      if literal <= p {
        assert p == literal + p[|literal|..];
        LiteralStart(literal, p[|literal|..], root + rest, bare);
        PrefixesCompare(literal, root, root + rest);
      } else {
        assert p <= literal && forall i :: 0 <= i < |p| ==> p[i] == literal[i];
        LiteralSelectsItself(p, root + rest, bare);
        PrefixesCompare(root, literal, literal);
      }
    }
  }

  /** Under any includes: exclusions that block each other's words leave a covered tree whole. */
  lemma CoveredWhenBlocked(rule: Rule, root: Path, rest: Path, bare: bool)
    requires AllowCovers(rule, root) && WordsAreBlocked(rule.excludes)
    ensures RuleSelects(rule, root + rest, bare)
  {
    var excludes := rule.excludes;
    var s :| s in rule.includes && CoveringRoot(s).Some? && CoveringRoot(s).value <= root;
    CoveredIsIncluded(s, root, rest, bare);
    UnblockedWhenCovered(rule, root);
    forall e | e in excludes ensures root != [] && !SelectorMatches(e, root + rest, bare) {
      assert !Blocks(e, root);
      if SelectorMatches(e, root + rest, bare) {
        var w := SelectedByAWord(e, root + rest, bare);
        CoversUnlessBlocked(excludes, Segments(w));
        var other :| other in excludes && Blocks(other, Segments(w));
        BlockedEverywhere(other, w, root, rest, bare);
      }
    }
  }

  /**
    For any exclusions the comparison of texts is right for every tree under every includes, and under
    the include `**` alone, if and only if the rule for everything but them covers no word of any of
    them, taken as a tree. So an exclusion whose literal text stops inside a segment does no harm when
    another one blocks its words.
  */
  lemma CoversRightlyExactly(excludes: seq<Selector>, bare: bool)
    ensures AlwaysCoversRightly(excludes, bare) <==> WordsAreBlocked(excludes)
    ensures CoversRightly(AllBut(excludes), bare) <==> WordsAreBlocked(excludes)
  {
    var rule := AllBut(excludes);
    if WordsAreBlocked(excludes) {
      forall includes, root, rest | AllowCovers(Rule(includes, excludes), root)
        ensures RuleSelects(Rule(includes, excludes), root + rest, bare)
      {
        CoveredWhenBlocked(Rule(includes, excludes), root, rest, bare);
      }
    } else {
      var e, w :| e in excludes && w in Words(e) && AllowCovers(rule, Segments(w));
      var root := Segments(w);
      CoversUnlessBlocked(excludes, root);
      PathMatchesItself(root, bare);
      assert root + [] == root && GlobMatches(e, root, bare) && !Blocks(e, root);
      assert !RuleSelects(rule, root + [], bare);
    }
  }

  /** The rule that allows everything but `a*`. */
  function AllButA(): Rule {
    Rule([Plain("**")], [Plain("a*")])
  }

  lemma AnyA(bare: bool)
    ensures Segments("a*") == ["a*"] && Segments("a") == ["a"] && Segments("abc") == ["abc"]
    ensures Matches(["a*"], ["abc"], bare)
  {
    OneSegment("a*");
    OneSegment("a");
    OneSegment("abc");
    assert "a*"[1..] == "*" && "abc"[1..] == "bc";
    StarMatches("bc");
    assert ["a*"][1..] == [] && ["abc"][1..] == [];
  }

  /** An allow rule that covers the tree at `abc` and selects nothing there: it excludes `a*`. */
  lemma CoveredTreeIsExcluded(bare: bool)
    ensures AllowCovers(AllButA(), ["abc"]) && !RuleSelects(AllButA(), ["abc"], bare)
  {
    var e, all := Plain("a*"), Plain("**");
    AnyA(bare);
    PlainWord("a*");
    assert e == [Ch('a'), Ch('*')] && e[1..] == [Ch('*')];
    assert '*' in "?*[{" && 'a' !in "?*[{";
    assert Literal(e) == "a";
    FirstDiffers("a", "abc", []);
    FirstDiffers("abc", "a", []);
    assert CoveringRoot(all).Some? && CoveringRoot(all).value == [] <= ["abc"];
    assert all in AllButA().includes && e in AllButA().excludes;
    assert GlobMatches(e, ["abc"], bare);
  }
}

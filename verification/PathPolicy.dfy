/**
  Which path rules reach into a tree (src/runtime/path-policy.ts). Selectors are normalised and have
  no character classes; a glob with braces matches what one of its words matches, and a word is read
  by its segments. `bare` says whether a final `**` also matches its bare parent.
*/
module PathPolicy {
  import opened Options
  import opened GlobPatterns
  import opened BraceSelectors

  datatype Rule = Rule(includes: seq<Selector>, excludes: seq<Selector>)

  // ---------------------------------------------------------------- segments of a text

  function HeadLength(text: string): (n: nat)
    ensures n <= |text|
    ensures n < |text| ==> text[n] == '/'
    ensures forall i :: 0 <= i < n ==> text[i] != '/'
  {
    if text == [] || text[0] == '/' then 0 else 1 + HeadLength(text[1..])
  }

  /** selectorSegments. */
  function Segments(text: string): Pattern
    decreases |text|
  {
    if text == [] then []
    else if text[0] == '/' then Segments(text[1..])
    else [text[..HeadLength(text)]] + Segments(text[HeadLength(text)..])
  }

  lemma HeadIs(text: string, n: nat)
    requires n <= |text| && (n < |text| ==> text[n] == '/') && forall i :: 0 <= i < n ==> text[i] != '/'
    ensures HeadLength(text) == n
  {
  }

  lemma NextSegment(head: string, rest: string)
    requires head != [] && '/' !in head && (rest == [] || rest[0] == '/')
    ensures Segments(head + rest) == [head] + Segments(rest)
  {
    var text := head + rest;
    HeadIs(text, |head|);
    assert text[..|head|] == head && text[|head|..] == rest;
  }

  lemma {:induction false} SegmentsJoin(a: string, b: string)
    ensures Segments(a + "/" + b) == Segments(a) + Segments(b)
    decreases |a|
  {
    var text := a + "/" + b;
    if a == [] {
      assert text[0] == '/' && text[1..] == b;
    } else if a[0] == '/' {
      assert text[0] == '/' && text[1..] == a[1..] + "/" + b;
      SegmentsJoin(a[1..], b);
    } else {
      var n := HeadLength(a);
      hide Segments, HeadLength;
      SegmentsJoin(a[n..], b);
      NextSegment(a[..n], a[n..]);
      NextSegment(a[..n], a[n..] + "/" + b);
      assert a[..n] + a[n..] == a && a[..n] + (a[n..] + "/" + b) == text;
    }
  }

  lemma SegmentsOfTails()
    ensures Segments("**") == [DEEP] && Segments("*") == ["*"]
    ensures Segments("**/*") == [DEEP, "*"]
  {
    HeadIs("**", 2);
    HeadIs("*", 1);
    assert "**"[..2] == DEEP && "*"[..1] == "*" && "**"[2..] == [] && "*"[1..] == [];
    assert "**/*" == "**" + "/" + "*";
    SegmentsJoin("**", "*");
  }

  // ---------------------------------------------------------------- recursive selectors

  predicate Ends(s: Selector, text: string) {
    |text| <= |s| && s[|s| - |text|..] == Plain(text)
  }

  /** recursiveSelectorPath on a selector as it is written. */
  function TextRoot(s: Selector): Option<Selector> {
    if s == Plain("**") || s == Plain("**/*") then Some([])
    else if Ends(s, "/**/*") then Some(s[..|s| - 5])
    else if Ends(s, "/**") then Some(s[..|s| - 3])
    else None
  }

  /** Appending a recursive tail to a text appends its segments. */
  lemma TailRecurs(head: string, tail: string)
    requires tail == "**" || tail == "**/*"
    ensures RecursiveRoot(Segments(head + "/" + tail)) == Some(Segments(head))
  {
    SegmentsJoin(head, tail);
    SegmentsOfTails();
    var p := Segments(head) + Segments(tail);
    var n := |p|;
    assert tail == "**" ==> p[n - 1] == DEEP && p[..n - 1] == Segments(head);
    assert DEEP != "*";
    assert tail == "**/*" ==> p[n - 2..] == [DEEP, "*"] && p[..n - 2] == Segments(head);
  }

  lemma TailStandsAlone(tail: string)
    requires tail == "**" || tail == "**/*"
    ensures RecursiveRoot(Segments(tail)) == Some([])
  {
    TailRecurs("", tail);
    assert "" + "/" + tail == "/" + tail && ("/" + tail)[1..] == tail;
    assert Segments("") == [];
  }

  lemma PlainWord(text: string)
    ensures IsPlain(Plain(text)) && Text(Plain(text)) == text && Words(Plain(text)) == {text}
  {
    PlainHasOneWord(Plain(text));
    assert Text(Plain(text)) == text;
  }

  lemma SplitEnd(s: Selector, text: string)
    requires Ends(s, text)
    ensures s == s[..|s| - |text|] + Plain(text)
    ensures Words(s) == Product(Words(s[..|s| - |text|]), {text})
  {
    assert s == s[..|s| - |text|] + s[|s| - |text|..];
    WordsConcat(s[..|s| - |text|], Plain(text));
    PlainWord(text);
  }

  /** The tail of a recursive selector that is more than the tail. */
  ghost function TailOf(s: Selector): string {
    if Ends(s, "/**/*") then "**/*" else "**"
  }

  // ---------------------------------------------------------------- what a rule selects

  /** Bun.Glob(s).match(path). */
  predicate GlobMatches(s: Selector, path: Path, bare: bool) {
    exists w :: w in Words(s) && Matches(Segments(w), path, bare)
  }

  /** selectorMatches. */
  predicate SelectorMatches(s: Selector, path: Path, bare: bool) {
    || GlobMatches(s, path, bare)
    || (TextRoot(s).Some? && (TextRoot(s).value == [] || GlobMatches(TextRoot(s).value, path, bare)))
  }

  predicate Excluded(excludes: seq<Selector>, path: Path, bare: bool) {
    exists e :: e in excludes && SelectorMatches(e, if path == [] then ["."] else path, bare)
  }

  /** matches. */
  predicate RuleSelects(rule: Rule, path: Path, bare: bool) {
    && !Excluded(rule.excludes, path, bare)
    && (path == [] || exists s :: s in rule.includes && SelectorMatches(s, path, bare))
  }

  /** A path that the root of a recursive selector matches is selected by a word of the selector. */
  lemma SelectedByTheRoot(s: Selector, path: Path, bare: bool) returns (w: string)
    requires TextRoot(s).Some? && s != Plain("**") && s != Plain("**/*")
    requires TextRoot(s).value == [] || GlobMatches(TextRoot(s).value, path, bare)
    ensures w in Words(s) && Selects(Segments(w), path, bare)
  {
    var root, tail := TextRoot(s).value, TailOf(s);
    assert Words([]) == {[]} && Segments([]) == [];
    SplitEnd(s, "/" + tail);
    assert s[..|s| - |"/" + tail|] == root;
    hide TextRoot, Words, Segments, Plain, Ends, Matches;
    var head: string := [];
    if root != [] { head :| head in Words(root) && Matches(Segments(head), path, bare); }
    w := head + "/" + tail;
    TailRecurs(head, tail);
    assert w == head + ("/" + tail);
    Multiplies(Words(root), {"/" + tail}, head, "/" + tail);
  }

  /** A selector matches a path only if one of its words selects it. */
  lemma SelectedByAWord(s: Selector, path: Path, bare: bool) returns (w: string)
    requires SelectorMatches(s, path, bare)
    ensures w in Words(s) && Selects(Segments(w), path, bare)
  {
    if GlobMatches(s, path, bare) {
      w :| w in Words(s) && Matches(Segments(w), path, bare);
    } else if s == Plain("**") {
      w := "**";
      PlainWord(w);
      TailStandsAlone(w);
    } else if s == Plain("**/*") {
      w := "**/*";
      PlainWord(w);
      TailStandsAlone(w);
    } else {
      w := SelectedByTheRoot(s, path, bare);
    }
  }

  // ---------------------------------------------------------------- which rules reach into a tree

  /** expandSelectorAlternatives. */
  function Alternatives(s: Selector): Option<set<string>>
    requires Branching(s)
  {
    if Expand(s).None? then None
    else
      ExpansionIsPlain(s);
      Some(set t | t in Expand(s).value :: Text(t))
  }

  lemma AlternativesAreWords(s: Selector)
    requires Branching(s) && Alternatives(s).Some?
    ensures Alternatives(s).value == Words(s)
  {
    ExpansionIsPlain(s);
    ExpansionKeepsWords(s);
    var list := Expand(s).value;
    forall w ensures w in Alternatives(s).value <==> w in Words(s) {
      if w in Alternatives(s).value {
        var t :| t in list && Text(t) == w;
        PlainHasOneWord(t);
        assert SomeWords(list, w);
      }
      if w in Words(s) {
        assert SomeWords(list, w);
        var t :| t in list && w in Words(t);
        PlainHasOneWord(t);
      }
    }
  }

  lemma PlainAlternatives(text: string)
    ensures Branching(Plain(text)) && Words(Plain(text)) == {text} && Alternatives(Plain(text)) == Some({text})
  {
    PlainWord(text);
    PlainBranches(Plain(text));
    PlainHasNoGroups(Plain(text));
    assert Expand(Plain(text)) == Some([Plain(text)]);
    AlternativesAreWords(Plain(text));
  }

  predicate AllBranch(list: seq<Selector>) {
    forall i :: 0 <= i < |list| ==> Branching(list[i])
  }

  /** expandedSelectorExclusions for one exclusion: none when it has too many alternatives. */
  function ExpandedExclusion(e: Selector): set<string>
    requires Branching(e)
  {
    if Alternatives(e).Some? then Alternatives(e).value else {}
  }

  predicate Dropped(w: string, excludes: seq<Selector>, root: Path, bare: bool)
    requires AllBranch(excludes)
  {
    exists i, x :: 0 <= i < |excludes| && x in ExpandedExclusion(excludes[i])
                && (CoveredBy(Segments(w), Segments(x)) || CoversTree(Segments(x), root, bare))
  }

  /** selectorIntersectsRuleTree. */
  predicate SelectorIntersects(s: Selector, excludes: seq<Selector>, root: Path, bare: bool)
    requires Branching(s) && AllBranch(excludes)
  {
    && s !in excludes
    && (Alternatives(s).None?
        || exists w :: w in Alternatives(s).value
                       && ReachesTree(Segments(w), root) && !Dropped(w, excludes, root, bare))
  }

  /** ruleIntersectsAnchor; anchor and root are absolute paths. */
  predicate RuleIntersectsAnchor(rule: Rule, anchor: Path, root: Path, bare: bool)
    requires AllBranch(rule.includes) && AllBranch(rule.excludes)
  {
    if root <= anchor then true
    else if !(anchor <= root) then false
    else exists i :: 0 <= i < |rule.includes|
                     && SelectorIntersects(rule.includes[i], rule.excludes, root[|anchor|..], bare)
  }

  // ---------------------------------------------------------------- no rule is missed

  /**
    Whatever the root of a recursive alternative of an exclusion matches below `root` is excluded:
    the search drops it, so `matches` has to drop it as well.
  */
  ghost predicate RecursiveRootsExcluded(excludes: seq<Selector>, root: Path, bare: bool)
    requires AllBranch(excludes)
  {
    forall i, x, rest :: 0 <= i < |excludes| && x in ExpandedExclusion(excludes[i]) && RootSelects(x, root + rest, bare)
                     ==> Excluded(excludes, root + rest, bare)
  }

  predicate RootSelects(x: string, path: Path, bare: bool) {
    var r := RecursiveRoot(Segments(x));
    r.Some? && r.value != [] && Matches(r.value, path, bare)
  }

  /** A word of an exclusion selects a path only if the exclusion does, or by its recursive root. */
  lemma WordExcludes(excludes: seq<Selector>, i: nat, x: string, path: Path, bare: bool)
    requires AllBranch(excludes) && i < |excludes| && path != []
    requires x in ExpandedExclusion(excludes[i]) && Selects(Segments(x), path, bare)
    ensures Excluded(excludes, path, bare) || RootSelects(x, path, bare)
  {
    AlternativesAreWords(excludes[i]);
    var p := Segments(x);
    if !RootSelects(x, path, bare) {
      if !Matches(p, path, bare) {
        var tail := RecursiveTail(p);
        assert p == tail;
        DeepMatches(path, bare);
      }
      assert GlobMatches(excludes[i], path, bare);
      assert excludes[i] in excludes && SelectorMatches(excludes[i], path, bare);
    }
  }

  lemma SelectedIsNotDropped(w: string, excludes: seq<Selector>, root: Path, rest: Path, bare: bool)
    requires AllBranch(excludes) && root != [] && RecursiveRootsExcluded(excludes, root, bare)
    requires Selects(Segments(w), root + rest, bare) && !Excluded(excludes, root + rest, bare)
    ensures !Dropped(w, excludes, root, bare)
  {
    forall i, x | 0 <= i < |excludes| && x in ExpandedExclusion(excludes[i])
      ensures !CoveredBy(Segments(w), Segments(x)) && !CoversTree(Segments(x), root, bare)
    {
      if CoveredBy(Segments(w), Segments(x)) {
        CoveredIsSelected(Segments(w), Segments(x), root + rest, bare);
      } else if CoversTree(Segments(x), root, bare) {
        CoveredTreeIsSelected(Segments(x), root, rest, bare);
      }
      if Selects(Segments(x), root + rest, bare) {
        WordExcludes(excludes, i, x, root + rest, bare);
      }
    }
  }

  lemma SelectorIsNotMissed(s: Selector, excludes: seq<Selector>, root: Path, rest: Path, bare: bool)
    requires Branching(s) && AllBranch(excludes) && root != []
    requires RecursiveRootsExcluded(excludes, root, bare)
    requires SelectorMatches(s, root + rest, bare) && !Excluded(excludes, root + rest, bare)
    ensures SelectorIntersects(s, excludes, root, bare)
  {
    if Alternatives(s).Some? {
      AlternativesAreWords(s);
      var w := SelectedByAWord(s, root + rest, bare);
      SelectedIsReached(Segments(w), root, rest, bare);
      SelectedIsNotDropped(w, excludes, root, rest, bare);
    }
  }

  /** No rule that selects something at or below a root is missed by the search for that root. */
  lemma NoRuleIsMissed(rule: Rule, anchor: Path, root: Path, target: Path, bare: bool)
    requires AllBranch(rule.includes) && AllBranch(rule.excludes)
    requires anchor < root ==> RecursiveRootsExcluded(rule.excludes, root[|anchor|..], bare)
    requires root <= target && anchor <= target && RuleSelects(rule, target[|anchor|..], bare)
    ensures RuleIntersectsAnchor(rule, anchor, root, bare)
  {
    if !(root <= anchor) {
      assert anchor <= root;
      var relative, rest := root[|anchor|..], target[|root|..];
      assert target[|anchor|..] == relative + rest;
      var s :| s in rule.includes && SelectorMatches(s, relative + rest, bare);
      var i :| 0 <= i < |rule.includes| && rule.includes[i] == s;
      SelectorIsNotMissed(s, rule.excludes, relative, rest, bare);
    }
  }

  // ---------------------------------------------------------------- when a rule can be missed

  /** No selector is missed below `root`, whatever it selects there. */
  ghost predicate NeverMisses(excludes: seq<Selector>, root: Path, bare: bool)
    requires AllBranch(excludes)
  {
    forall s, rest :: Branching(s) && SelectorMatches(s, root + rest, bare) && !Excluded(excludes, root + rest, bare)
                 ==> SelectorIntersects(s, excludes, root, bare)
  }

  function Join(p: Pattern): string {
    if p == [] then [] else if |p| == 1 then p[0] else p[0] + "/" + Join(p[1..])
  }

  predicate Clean(segment: string) {
    segment != [] && '/' !in segment
  }

  lemma {:induction false} SegmentsAreClean(text: string)
    ensures forall i :: 0 <= i < |Segments(text)| ==> Clean(Segments(text)[i])
    decreases |text|
  {
    if text != [] {
      if text[0] == '/' { SegmentsAreClean(text[1..]); } else { SegmentsAreClean(text[HeadLength(text)..]); }
    }
  }

  lemma OneSegment(segment: string)
    requires Clean(segment)
    ensures Segments(segment) == [segment]
  {
    HeadIs(segment, |segment|);
    assert segment[..|segment|] == segment && segment[|segment|..] == [];
  }

  lemma {:induction false} SegmentsOfJoin(p: Pattern)
    requires forall i :: 0 <= i < |p| ==> Clean(p[i])
    ensures Segments(Join(p)) == p
  {
    if p != [] {
      OneSegment(p[0]);
      if |p| > 1 {
        SegmentsJoin(p[0], Join(p[1..]));
        SegmentsOfJoin(p[1..]);
      }
    }
  }

  lemma EndsAt(s: Selector, text: string, k: nat)
    requires 1 <= k <= |s| && k <= |text|
    ensures Ends(s, text) ==> s[|s| - k] == Ch(text[|text| - k])
  {
    if Ends(s, text) {
      assert s[|s| - |text|..][|text| - k] == Plain(text)[|text| - k];
    }
  }

  lemma TextRootOf(head: string, tail: string)
    requires head != [] && (tail == "**" || tail == "**/*")
    ensures TextRoot(Plain(head + "/" + tail)) == Some(Plain(head))
  {
    var text := head + "/" + tail;
    var s := Plain(text);
    assert text == head + ("/" + tail) && s == Plain(head) + Plain("/" + tail);
    assert |s| > 3;
    assert s[|s| - 2] == Ch(text[|text| - 2]) && s[|s| - 1] == Ch(text[|text| - 1]);
    if tail == "**" {
      assert "/" + tail == "/**" && s[|s| - 3..] == Plain("/**") && s[..|s| - 3] == Plain(head);
      assert s[|s| - 2] == Ch('*');
      assert Plain("**/*")[2] == Ch('/');
      EndsAt(s, "/**/*", 2);
    } else {
      assert "/" + tail == "/**/*" && s[|s| - 5..] == Plain("/**/*") && s[..|s| - 5] == Plain(head);
    }
  }

  /** A recursive word written with single slashes. */
  lemma CanonicalWord(x: string) returns (word: string)
    requires RecursiveRoot(Segments(x)).Some? && RecursiveRoot(Segments(x)).value != []
    ensures Segments(word) == Segments(x)
    ensures var r := RecursiveRoot(Segments(x)).value;
            TextRoot(Plain(word)) == Some(Plain(Join(r))) && Segments(Join(r)) == r
  {
    var r := RecursiveRoot(Segments(x)).value;
    var end := RecursiveTail(Segments(x));
    assert forall k :: 0 <= k < |r| ==> r[k] == Segments(x)[k];
    var tail := if end == [DEEP] then "**" else "**/*";
    hide Segments, RecursiveRoot, TextRoot, Plain, Join;
    SegmentsAreClean(x);
    SegmentsOfJoin(r);
    SegmentsOfTails();
    word := Join(r) + "/" + tail;
    SegmentsJoin(Join(r), tail);
    JoinIsText(r);
    TextRootOf(Join(r), tail);
  }

  lemma JoinIsText(p: Pattern)
    requires p != [] && p[0] != []
    ensures Join(p) != []
  {
  }

  /** The recursive alternative itself, taken as an include, is missed unless its root is excluded. */
  lemma RecursiveRootIsMissed(excludes: seq<Selector>, i: nat, x: string, root: Path, path: Path, bare: bool)
    returns (s: Selector)
    requires AllBranch(excludes) && i < |excludes| && x in ExpandedExclusion(excludes[i])
    requires RootSelects(x, path, bare)
    ensures Branching(s) && SelectorMatches(s, path, bare) && !SelectorIntersects(s, excludes, root, bare)
  {
    var r := RecursiveRoot(Segments(x)).value;
    var word := CanonicalWord(x);
    hide Segments, RecursiveRoot, TextRoot, Plain, Join, Words, Matches, Expand, Alternatives, ReachesTree;
    s := Plain(word);
    PlainWord(Join(r));
    assert GlobMatches(Plain(Join(r)), path, bare);
    PlainAlternatives(word);
    assert Dropped(word, excludes, root, bare);
  }

  /** Exactly when no selector can be missed below a root. */
  lemma MissesExactly(excludes: seq<Selector>, root: Path, bare: bool)
    requires AllBranch(excludes) && root != []
    ensures NeverMisses(excludes, root, bare) <==> RecursiveRootsExcluded(excludes, root, bare)
  {
    if RecursiveRootsExcluded(excludes, root, bare) {
      forall s, rest | Branching(s) && SelectorMatches(s, root + rest, bare) && !Excluded(excludes, root + rest, bare)
        ensures SelectorIntersects(s, excludes, root, bare)
      {
        SelectorIsNotMissed(s, excludes, root, rest, bare);
      }
    } else {
      var i, x, rest :| 0 <= i < |excludes| && x in ExpandedExclusion(excludes[i])
                        && RootSelects(x, root + rest, bare) && !Excluded(excludes, root + rest, bare);
      var s := RecursiveRootIsMissed(excludes, i, x, root, root + rest, bare);
    }
  }

  /** The text of an exclusion with a recursive alternative is itself recursive. */
  predicate RecursiveAsWritten(e: Selector) {
    (exists w :: w in Words(e) && RecursiveRoot(Segments(w)).Some?) ==> TextRoot(e).Some?
  }

  /** A caller can rely on the search for exclusions that recurse as they are written. */
  lemma WrittenRecursionIsEnough(excludes: seq<Selector>, root: Path, bare: bool)
    requires AllBranch(excludes) && root != []
    requires forall e :: e in excludes ==> RecursiveAsWritten(e)
    ensures RecursiveRootsExcluded(excludes, root, bare)
  {
    forall i, x, rest | 0 <= i < |excludes| && x in ExpandedExclusion(excludes[i]) && RootSelects(x, root + rest, bare)
      ensures Excluded(excludes, root + rest, bare)
    {
      var e := excludes[i];
      AlternativesAreWords(e);
      assert e in excludes && RecursiveAsWritten(e);
      assert x in Words(e) && RecursiveRoot(Segments(x)).Some?;
      WrittenRootMatches(e, x, root + rest, bare);
      assert e in excludes;
    }
  }

  lemma WrittenRootMatches(e: Selector, x: string, path: Path, bare: bool)
    requires x in Words(e) && TextRoot(e).Some? && RootSelects(x, path, bare)
    ensures SelectorMatches(e, path, bare)
  {
    var root := TextRoot(e).value;
    if root != [] {
      var tail := TailOf(e);
      SplitEnd(e, "/" + tail);
      var head, end := Factors(Words(root), {"/" + tail}, x);
      assert x == head + "/" + tail;
      TailRecurs(head, tail);
      assert GlobMatches(root, path, bare);
    }
  }

  lemma TwoWayBranches(e: Selector, a: string, b: string)
    requires e == [Group([Alternative(Plain(a)), Alternative(Plain(b))])]
    ensures Branching(e)
  {
    PlainWord(a);
    PlainWord(b);
    PlainBranches(Plain(a));
    PlainBranches(Plain(b));
    hide Plain, Words;
    var list := e[0].alternatives;
    assert list[1..][0] == list[1] && list[1..][1..] == [] && e[1..] == [];
    assert AllBranching(list[1..]);
  }

  lemma WordsOfGroup(list: seq<Alternative>)
    ensures Words([Group(list)]) == AnyWords(list)
  {
    var s: Selector := [Group(list)];
    assert s[1..] == [] && Words(s[1..]) == {[]};
    assert NodeWords(s[0]) == AnyWords(list);
    assert Words(s) == Product(AnyWords(list), {[]});
    hide Words, AnyWords, NodeWords, Product;
    UnitProduct(AnyWords(list));
  }

  lemma AnyWordsOfPair(first: Alternative, second: Alternative)
    ensures AnyWords([first, second]) == Words(first.nodes) + Words(second.nodes)
  {
    hide Words;
    var list := [first, second];
    assert list[1..] == [second] && [second][1..] == [];
    assert AnyWords([second]) == Words(second.nodes) + AnyWords([]);
  }

  lemma TwoWayWords(e: Selector, a: string, b: string)
    requires e == [Group([Alternative(Plain(a)), Alternative(Plain(b))])]
    ensures Words(e) == {a, b}
  {
    hide Words, AnyWords, Plain;
    PlainWord(a);
    PlainWord(b);
    AnyWordsOfPair(Alternative(Plain(a)), Alternative(Plain(b)));
    WordsOfGroup([Alternative(Plain(a)), Alternative(Plain(b))]);
  }

  lemma TwoWayExpands(e: Selector, a: string, b: string)
    requires e == [Group([Alternative(Plain(a)), Alternative(Plain(b))])]
    ensures Expand(e) == Some([Plain(a), Plain(b)])
  {
    PlainWord(a);
    PlainWord(b);
    PlainHasNoGroups(Plain(a));
    PlainHasNoGroups(Plain(b));
    assert Splits(e[0].alternatives) && Choices(e) == 2 && e[1..] == [];
    assert Pick(e, 0) == Plain(a) && Pick(e, 1) == Plain(b);
    assert Expand(Plain(a)) == Some([Plain(a)]) && Expand(Plain(b)) == Some([Plain(b)]);
    hide Choices, Pick, Words;
    assert [] + [Plain(a)] == [Plain(a)] && [Plain(a)] + [Plain(b)] == [Plain(a), Plain(b)];
    assert ExpandFrom(e, 2, [Plain(a), Plain(b)]) == Some([Plain(a), Plain(b)]);
    assert ExpandFrom(e, 1, [Plain(a)]) == ExpandFrom(e, 2, [Plain(a), Plain(b)]);
    assert ExpandFrom(e, 0, []) == ExpandFrom(e, 1, [Plain(a)]);
  }

  lemma OneSegmentAndTail(a: string)
    requires a != [] && '/' !in a
    ensures Segments(a + "/" + "**/*") == [a, DEEP, "*"]
  {
    OneSegment(a);
    SegmentsOfTails();
    SegmentsJoin(a, "**/*");
  }

  lemma OneLetterSegments()
    ensures Segments("a") == ["a"] && Segments("b") == ["b"] && Segments("a/**/*") == ["a", DEEP, "*"]
  {
    OneSegment("a");
    OneSegment("b");
    OneSegmentAndTail("a");
    assert "a/**/*" == "a" + "/" + "**/*";
  }

  lemma OneLetterMatching(bare: bool)
    ensures Segments("a") == ["a"] && Segments("b") == ["b"] && Segments("a/**/*") == ["a", DEEP, "*"]
    ensures Matches(["a"], ["a"], bare) && !Matches(["b"], ["a"], bare) && !Matches(["a", DEEP, "*"], ["a"], bare)
    ensures RecursiveRoot(["a", DEEP, "*"]) == Some(["a"])
    ensures ReachesTree(["a"], ["a"])
  {
    OneLetterSegments();
    hide Segments, HeadLength;
    var p := ["a", DEEP, "*"];
    assert "a"[1..] == "" && SegmentMatches("a", "a") && !SegmentMatches("b", "a");
    assert ["a"][1..] == [] && ["b"][1..] == [] && p[1..] == [DEEP, "*"] && [DEEP, "*"][1..] == ["*"];
    assert !Matches(["*"], [], bare) && !Matches([DEEP, "*"], [], bare);
    assert p[..1] == ["a"];
  }

  lemma BranchedDoesNotExclude(e: Selector, bare: bool)
    requires Words(e) == {"a/**/*", "b"} && TextRoot(e).None?
    ensures !Excluded([e], ["a"], bare)
  {
    OneLetterMatching(bare);
    hide Segments, Matches, TextRoot, Words;
    assert !GlobMatches(e, ["a"], bare);
  }

  lemma BranchedStillCovers(e: Selector, bare: bool)
    requires Branching(e) && Alternatives(e) == Some({"a/**/*", "b"})
    ensures Dropped("a", [e], ["a"], bare)
  {
    OneLetterMatching(bare);
    assert [e][0] == e;
    hide Segments, Matches, Words, Expand, Alternatives, Branching;
    assert CoversTree(Segments("a/**/*"), ["a"], bare);
    assert "a/**/*" in ExpandedExclusion([e][0]);
  }

  lemma MissedBy(e: Selector, s: Selector, root: Path, bare: bool)
    requires Branching(e) && Branching(s) && root != []
    requires Alternatives(s) == Some({"a"}) && Matches(Segments("a"), root, bare) && Words(s) == {"a"}
    requires !Excluded([e], root, bare) && Dropped("a", [e], root, bare)
    ensures RuleSelects(Rule([s], [e]), root, bare)
    ensures !RuleIntersectsAnchor(Rule([s], [e]), [], root, bare)
  {
    hide Words, Segments, Matches, Branching, TextRoot, Alternatives, Dropped, Excluded;
    assert GlobMatches(s, root, bare) && s in [s];
    assert root[0..] == root;
    assert !SelectorIntersects(s, [e], root, bare);
  }

  lemma TwoWayAlternatives(e: Selector, a: string, b: string)
    requires e == [Group([Alternative(Plain(a)), Alternative(Plain(b))])]
    ensures Branching(e) && Words(e) == {a, b} && Alternatives(e) == Some({a, b}) && TextRoot(e).None?
  {
    assert e[0].Group? && TextRoot(e).None?;
    hide Words, Expand, Branching, Plain, TextRoot;
    TwoWayBranches(e, a, b);
    TwoWayWords(e, a, b);
    TwoWayExpands(e, a, b);
    AlternativesAreWords(e);
  }

  /** `{a/**/*,b}`. */
  function BranchedExclusion(): Selector {
    [Group([Alternative(Plain("a/**/*")), Alternative(Plain("b"))])]
  }

  // Without that condition a rule can be missed, whatever a trailing `**` matches: the exclusion
  // `{a/**/*,b}` does not exclude `a`, yet its alternative `a/**/*` covers the tree at `a`.
  lemma BranchedRecursionMisses(bare: bool)
    ensures Branching(BranchedExclusion()) && Branching(Plain("a"))
    ensures RuleSelects(Rule([Plain("a")], [BranchedExclusion()]), ["a"], bare)
    ensures !RuleIntersectsAnchor(Rule([Plain("a")], [BranchedExclusion()]), [], ["a"], bare)
  {
    var e, s := BranchedExclusion(), Plain("a");
    assert e == [Group([Alternative(Plain("a/**/*")), Alternative(Plain("b"))])];
    hide *;
    PlainAlternatives("a");
    TwoWayAlternatives(e, "a/**/*", "b");
    OneLetterMatching(bare);
    BranchedDoesNotExclude(e, bare);
    BranchedStillCovers(e, bare);
    MissedBy(e, s, ["a"], bare);
  }
}

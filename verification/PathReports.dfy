/**
  What a reported rule tells (src/runtime/path-policy.ts): that no rule is missed is proved in
  `PathPolicy`; here, that a rule without exclusions is reported only when it selects something, and that
  a recursive exclusion silences a rule in the trees that it matches.
*/
module PathReports {
  import opened Options
  import opened GlobPatterns
  import opened BraceSelectors
  import opened PathPolicy

  /** A selector has more alternatives than are expanded; such a rule is reported unseen. */
  predicate TooMany(includes: seq<Selector>)
    requires AllBranch(includes)
  {
    exists i :: 0 <= i < |includes| && Alternatives(includes[i]).None?
  }

  lemma ReachedIsSelected(s: Selector, root: Path, bare: bool) returns (rest: Path)
    requires Branching(s) && Alternatives(s).Some? && SelectorIntersects(s, [], root, bare)
    ensures SelectorMatches(s, root + rest, bare)
  {
    AlternativesAreWords(s);
    var w :| w in Words(s) && ReachesTree(Segments(w), root);
    SearchIsExact(Segments(w), root, bare);
    rest :| Matches(Segments(w), root + rest, bare);
    assert GlobMatches(s, root + rest, bare);
  }

  lemma NothingExcluded(path: Path, bare: bool)
    ensures !Excluded([], path, bare)
  {
  }

  /**
    Below its anchor a rule without exclusions is reported exactly when it selects some path at or below the
    root, or when one of its selectors has too many alternatives.
  */
  lemma ReportedExactly(includes: seq<Selector>, anchor: Path, root: Path, bare: bool)
    requires AllBranch(includes) && anchor < root
    ensures RuleIntersectsAnchor(Rule(includes, []), anchor, root, bare)
       <==> TooMany(includes) || exists rest :: RuleSelects(Rule(includes, []), root[|anchor|..] + rest, bare)
  {
    var rule, relative := Rule(includes, []), root[|anchor|..];
    hide Alternatives, Words, Expand, Branching;
    if RuleIntersectsAnchor(rule, anchor, root, bare) && !TooMany(includes) {
      var i :| 0 <= i < |includes| && SelectorIntersects(includes[i], [], relative, bare);
      var rest := ReachedIsSelected(includes[i], relative, bare);
      NothingExcluded(relative + rest, bare);
      assert includes[i] in includes && RuleSelects(rule, relative + rest, bare);
    }
    if TooMany(includes) {
      var i :| 0 <= i < |includes| && Alternatives(includes[i]).None?;
      assert SelectorIntersects(includes[i], [], relative, bare);
    }
    if rest :| RuleSelects(rule, relative + rest, bare) {
      assert anchor + (relative + rest) == root + rest;
      assert (root + rest)[|anchor|..] == relative + rest;
      NoRuleIsMissed(rule, anchor, root, root + rest, bare);
    }
  }

  lemma PlainRecurs(text: string, tail: string)
    requires Plain(text) == Plain(tail) || Ends(Plain(text), "/" + tail)
    requires tail == "**" || tail == "**/*"
    ensures RecursiveRoot(Segments(text)).Some?
  {
    hide RecursiveRoot, Segments;
    if Plain(text) == Plain(tail) {
      PlainWord(text);
      PlainWord(tail);
      TailStandsAlone(tail);
    } else {
      EndOfPlain(text, "/" + tail);
      var head := text[..|text| - |"/" + tail|];
      assert text == head + "/" + tail;
      TailRecurs(head, tail);
    }
  }

  /** A plain recursive exclusion that matches the root of a tree covers the tree. */
  lemma RecursiveCovers(text: string, root: Path, bare: bool)
    requires TextRoot(Plain(text)).Some? && SelectorMatches(Plain(text), root, bare)
    ensures CoversTree(Segments(text), root, bare)
  {
    var tail := TailOfRoot(Plain(text));
    PlainRecurs(text, tail);
    PlainWord(text);
    hide Words, Segments, RecursiveRoot, TextRoot, SelectorMatches, Selects, Plain, Ends;
    var w := SelectedByAWord(Plain(text), root, bare);
    assert w == text;
  }

  lemma TailOfRoot(e: Selector) returns (tail: string)
    requires TextRoot(e).Some?
    ensures (tail == "**" || tail == "**/*") && (e == Plain(tail) || Ends(e, "/" + tail))
  {
    assert "/" + "**" == "/**" && "/" + "**/*" == "/**/*";
    hide Ends, Plain;
    tail := if e == Plain("**") || (e != Plain("**/*") && !Ends(e, "/**/*")) then "**" else "**/*";
  }

  lemma EndOfPlain(text: string, end: string)
    requires Ends(Plain(text), end)
    ensures |end| <= |text| && text == text[..|text| - |end|] + end
  {
    var n := |text| - |end|;
    forall i | 0 <= i < |end| ensures text[n + i] == end[i] {
      assert Plain(text)[n..][i] == Plain(end)[i];
    }
  }

  /** Where a plain recursive exclusion matches the root, a rule is reported only with too many alternatives. */
  lemma RecursiveExclusionSilences(rule: Rule, text: string, anchor: Path, root: Path, bare: bool)
    requires AllBranch(rule.includes) && AllBranch(rule.excludes) && anchor < root
    requires Plain(text) in rule.excludes && TextRoot(Plain(text)).Some?
    requires SelectorMatches(Plain(text), root[|anchor|..], bare)
    ensures RuleIntersectsAnchor(rule, anchor, root, bare) ==> TooMany(rule.includes)
  {
    var relative := root[|anchor|..];
    PlainAlternatives(text);
    RecursiveCovers(text, relative, bare);
    var k :| 0 <= k < |rule.excludes| && rule.excludes[k] == Plain(text);
    hide Words, Expand, Branching, TextRoot, Segments, Plain, SelectorMatches, CoversTree;
    assert text in ExpandedExclusion(rule.excludes[k]);
    forall w ensures Dropped(w, rule.excludes, relative, bare) {
      assert CoversTree(Segments(text), relative, bare);
    }
  }
}

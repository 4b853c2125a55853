/**
  Brace-free glob patterns by path segment, and the search that asks whether a pattern can match
  anything at or below a root (src/runtime/path-policy.ts). `**` stands for any number of
  segments, `*` and `?` for characters within one segment. Whether a final `**` also matches the
  bare parent is left to the parameter `bare`: the policy code does not rely on it.
*/
module GlobPatterns {
  import opened Options

  type Pattern = seq<string>
  type Path = seq<string>

  const DEEP := "**"

  predicate SegmentMatches(pattern: string, text: string)
    decreases |pattern| + |text|
  {
    if pattern == [] then text == []
    else if pattern[0] == '*' then
      SegmentMatches(pattern[1..], text) || (text != [] && SegmentMatches(pattern, text[1..]))
    else
      && text != []
      && (pattern[0] == '?' || pattern[0] == text[0])
      && SegmentMatches(pattern[1..], text[1..])
  }

  predicate Matches(pattern: Pattern, path: Path, bare: bool)
    decreases |pattern| + |path|
  {
    if pattern == [] then path == []
    else if pattern == [DEEP] then bare || path != []
    else if pattern[0] == DEEP then
      Matches(pattern[1..], path, bare) || (path != [] && Matches(pattern, path[1..], bare))
    else
      path != [] && SegmentMatches(pattern[0], path[0]) && Matches(pattern[1..], path[1..], bare)
  }

  // ---------------------------------------------------------------- the tree search

  /** The search without its memo: can pattern[i..] match some extension of root[k..]? */
  predicate Reaches(pattern: Pattern, root: Path, i: nat, k: nat)
    requires i <= |pattern| && k <= |root|
    decreases |pattern| - i + |root| - k
  {
    if k == |root| then true
    else if i == |pattern| then false
    else if pattern[i] == DEEP then Reaches(pattern, root, i + 1, k) || Reaches(pattern, root, i, k + 1)
    else SegmentMatches(pattern[i], root[k]) && Reaches(pattern, root, i + 1, k + 1)
  }

  predicate ReachesTree(pattern: Pattern, root: Path) {
    Reaches(pattern, root, 0, 0)
  }

  /** Whatever the pattern matches below the root, the search reaches the root. */
  lemma {:induction false} MatchReaches(pattern: Pattern, root: Path, i: nat, k: nat, path: Path, bare: bool)
    requires i <= |pattern| && k <= |root| && root[k..] <= path
    requires Matches(pattern[i..], path, bare)
    ensures Reaches(pattern, root, i, k)
    decreases |pattern| - i + |root| - k
  {
    if k < |root| && i < |pattern| {
      assert pattern[i..][1..] == pattern[i + 1..];
      assert root[k..][0] == path[0] && root[k..][1..] == root[k + 1..];
      if pattern[i] != DEEP || (pattern[i..] != [DEEP] && !Matches(pattern[i + 1..], path, bare)) {
        if pattern[i] == DEEP {
          MatchReaches(pattern, root, i, k + 1, path[1..], bare);
        } else {
          MatchReaches(pattern, root, i + 1, k + 1, path[1..], bare);
        }
      } else if pattern[i..] == [DEEP] {
        FinalDeepReaches(pattern, root, i, k);
      } else {
        MatchReaches(pattern, root, i + 1, k, path, bare);
      }
    }
  }

  lemma {:induction false} FinalDeepReaches(pattern: Pattern, root: Path, i: nat, k: nat)
    requires i < |pattern| && k <= |root| && pattern[i] == DEEP
    ensures Reaches(pattern, root, i, k)
    decreases |root| - k
  {
    if k < |root| { FinalDeepReaches(pattern, root, i, k + 1); }
  }

  /** A text that a segment pattern matches. */
  function Sample(pattern: string): (text: string)
    ensures SegmentMatches(pattern, text)
  {
    if pattern == [] then []
    else if pattern[0] == '*' then Sample(pattern[1..])
    else [pattern[0]] + Sample(pattern[1..])
  }

  function SamplePath(pattern: Pattern, bare: bool): (path: Path)
    ensures Matches(pattern, path, bare)
  {
    if pattern == [] then []
    else if pattern == [DEEP] then [""]
    else if pattern[0] == DEEP then SamplePath(pattern[1..], bare)
    else
      var path := [Sample(pattern[0])] + SamplePath(pattern[1..], bare);
      assert path[1..] == SamplePath(pattern[1..], bare);
      path
  }

  /** Where the search reaches, something below the root does match: the search is exact. */
  lemma {:induction false} ReachMatches(pattern: Pattern, root: Path, i: nat, k: nat, bare: bool)
    returns (rest: Path)
    requires i <= |pattern| && k <= |root| && Reaches(pattern, root, i, k)
    ensures Matches(pattern[i..], root[k..] + rest, bare)
    decreases |pattern| - i + |root| - k
  {
    if k == |root| {
      rest := SamplePath(pattern[i..], bare);
      assert root[k..] + rest == rest;
    } else {
      assert pattern[i..][1..] == pattern[i + 1..];
      assert pattern[i..] == [pattern[i]] + pattern[i + 1..];
      if pattern[i] == DEEP && Reaches(pattern, root, i + 1, k) {
        rest := ReachMatches(pattern, root, i + 1, k, bare);
      } else if pattern[i] == DEEP {
        rest := ReachMatches(pattern, root, i, k + 1, bare);
      } else {
        rest := ReachMatches(pattern, root, i + 1, k + 1, bare);
      }
      assert (root[k..] + rest)[0] == root[k] && (root[k..] + rest)[1..] == root[k + 1..] + rest;
    }
  }

  lemma SearchIsExact(pattern: Pattern, root: Path, bare: bool)
    ensures ReachesTree(pattern, root) <==> exists rest :: Matches(pattern, root + rest, bare)
  {
    assert pattern[0..] == pattern && root[0..] == root;
    if ReachesTree(pattern, root) {
      var rest := ReachMatches(pattern, root, 0, 0, bare);
      assert Matches(pattern, root + rest, bare);
    }
    if rest :| Matches(pattern, root + rest, bare) {
      MatchReaches(pattern, root, 0, 0, root + rest, bare);
    }
  }

  // ---------------------------------------------------------------- the search as it runs

  function Grid(m: nat, n: nat): set<(nat, nat)> {
    set i, k | 0 <= i < m && 0 <= k < n :: (i, k)
  }

  lemma {:induction false} GridSize(m: nat, n: nat)
    ensures |Grid(m, n)| == m * n
  {
    if m > 0 {
      var i: nat := m - 1;
      GridSize(i, n);
      RowSize(i, n);
      var row: set<(nat, nat)> := set k: nat | 0 <= k < n :: (i, k);
      assert Grid(m, n) == Grid(i, n) + row;
      assert Grid(i, n) !! row;
      assert |Grid(m, n)| == |Grid(i, n)| + |row|;
      Distribute(m, n);
    }
  }

  lemma Distribute(m: nat, n: nat)
    requires m > 0
    ensures (m - 1) * n + n == m * n
  {
  }

  lemma {:induction false} RowSize(i: nat, n: nat)
    ensures |set k: nat | 0 <= k < n :: (i, k)| == n
  {
    if n > 0 {
      RowSize(i, n - 1);
      assert (set k: nat | 0 <= k < n :: (i, k)) == (set k: nat | 0 <= k < n - 1 :: (i, k)) + {(i, n - 1)};
    }
  }

  lemma {:induction false} SubsetSize<T>(a: set<T>, b: set<T>)
    requires a <= b
    ensures |a| <= |b|
  {
    if a != {} {
      var x :| x in a;
      SubsetSize(a - {x}, b - {x});
    }
  }

  /** The search with its memo: a state that was visited before is not searched again. */
  class TreeSearch {
    const pattern: Pattern
    const root: Path
    var visited: set<(nat, nat)>

    constructor (pattern: Pattern, root: Path)
      ensures this.pattern == pattern && this.root == root && visited == {}
    {
      this.pattern, this.root, visited := pattern, root, {};
    }

    /** States at depth n or deeper that were visited are finished, without success. */
    ghost predicate DeadEnds(n: nat)
      reads this
    {
      && visited <= Grid(|pattern|, |root|)
      && forall s :: s in visited && s.0 + s.1 >= n ==>
           s.0 <= |pattern| && s.1 <= |root| && !Reaches(pattern, root, s.0, s.1)
    }

    method Intersects(i: nat, k: nat) returns (found: bool)
      requires i <= |pattern| && k <= |root| && DeadEnds(i + k)
      modifies `visited
      ensures found == Reaches(pattern, root, i, k)
      ensures old(visited) <= visited <= Grid(|pattern|, |root|)
      ensures forall s :: s in visited && s !in old(visited) ==> s.0 + s.1 >= i + k
      ensures !found ==> DeadEnds(i + k)
      decreases |pattern| - i + |root| - k
    {
      if k == |root| {
        return true;
      }
      if i == |pattern| || (i, k) in visited {
        return false;
      }
      visited := visited + {(i, k)};
      if pattern[i] == DEEP {
        found := Intersects(i + 1, k);
        if !found {
          found := Intersects(i, k + 1);
        }
      } else if SegmentMatches(pattern[i], root[k]) {
        found := Intersects(i + 1, k + 1);
      } else {
        found := false;
      }
    }
  }

  /** selectorAlternativeIntersectsTree: the memo changes no answer and bounds the states visited. */
  method AlternativeIntersectsTree(pattern: Pattern, root: Path) returns (found: bool, states: nat)
    ensures found == ReachesTree(pattern, root)
    ensures states <= |pattern| * |root|
  {
    var search := new TreeSearch(pattern, root);
    found := search.Intersects(0, 0);
    states := |search.visited|;
    SubsetSize(search.visited, Grid(|pattern|, |root|));
    GridSize(|pattern|, |root|);
  }

  // ---------------------------------------------------------------- recursive selectors

  predicate IsLiteral(segment: string) {
    forall c :: c in segment ==> c != '?' && c != '*' && c != '[' && c != '{'
  }

  /** recursiveSelectorPath: what is left of a trailing `**` or `**` followed by `*`. */
  function RecursiveRoot(pattern: Pattern): Option<Pattern> {
    var n := |pattern|;
    if n >= 2 && pattern[n - 2..] == [DEEP, "*"] then Some(pattern[..n - 2])
    else if n >= 1 && pattern[n - 1] == DEEP then Some(pattern[..n - 1])
    else None
  }

  /** What `matches` means for one selector: a match, or the root of a recursive selector itself. */
  predicate Selects(pattern: Pattern, path: Path, bare: bool) {
    || Matches(pattern, path, bare)
    || (RecursiveRoot(pattern).Some?
        && (RecursiveRoot(pattern).value == [] || Matches(RecursiveRoot(pattern).value, path, bare)))
  }

  /** selectorCoveredByExclusion for a brace-free exclusion. */
  predicate CoveredBy(pattern: Pattern, exclusion: Pattern) {
    || exclusion == pattern
    || (RecursiveRoot(exclusion).Some? &&
        var r := RecursiveRoot(exclusion).value;
        r == [] || ((forall i :: 0 <= i < |r| ==> IsLiteral(r[i])) && r <= pattern))
  }

  /** exclusionCoversRequestedTree. */
  predicate CoversTree(exclusion: Pattern, root: Path, bare: bool) {
    RecursiveRoot(exclusion).Some? && Selects(exclusion, root, bare)
  }

  /** `*` matches every segment. */
  lemma {:induction false} StarMatches(text: string)
    ensures SegmentMatches("*", text)
  {
    assert "*"[1..] == "";
    if text != [] { StarMatches(text[1..]); }
  }

  lemma {:induction false} DeepMatches(path: Path, bare: bool)
    requires path != []
    ensures Matches([DEEP], path, bare) && Matches([DEEP, "*"], path, bare)
  {
    assert [DEEP, "*"][1..] == ["*"] && ["*"][1..] == [];
    if |path| == 1 {
      StarMatches(path[0]);
      assert path[1..] == [];
    } else {
      DeepMatches(path[1..], bare);
    }
  }

  /** Whatever r matches, r with a recursive tail matches everything below it. */
  lemma {:induction false} MatchesBelow(r: Pattern, tail: Pattern, path: Path, rest: Path, bare: bool)
    requires tail == [DEEP] || tail == [DEEP, "*"]
    requires rest != [] && Matches(r, path, bare)
    ensures Matches(r + tail, path + rest, bare)
    decreases |r| + |path|
  {
    if r == [] {
      assert r + tail == tail && path + rest == rest;
      DeepMatches(rest, bare);
    } else {
      assert (r + tail)[1..] == r[1..] + tail;
      if path != [] { assert (path + rest)[1..] == path[1..] + rest; }
      if r[0] == DEEP {
        if r == [DEEP] {
          assert r[1..] + tail == tail;
          DeepMatches(path + rest, bare);
        } else if Matches(r[1..], path, bare) {
          MatchesBelow(r[1..], tail, path, rest, bare);
        } else {
          MatchesBelow(r, tail, path[1..], rest, bare);
        }
      } else {
        MatchesBelow(r[1..], tail, path[1..], rest, bare);
      }
    }
  }

  /** A recursive pattern that matches a path also matches everything below that path. */
  lemma {:induction false} DeepExtends(r: Pattern, tail: Pattern, path: Path, rest: Path, bare: bool)
    requires tail == [DEEP] || tail == [DEEP, "*"]
    requires Matches(r + tail, path, bare)
    ensures Matches(r + tail, path + rest, bare)
    decreases |r| + |path|
  {
    if rest == [] {
      assert path + rest == path;
    } else if r == [] {
      assert r + tail == tail;
      DeepMatches(path + rest, bare);
    } else {
      assert (r + tail)[0] == r[0] && (r + tail)[1..] == r[1..] + tail;
      assert r + tail != [DEEP];
      if path != [] { assert (path + rest)[0] == path[0] && (path + rest)[1..] == path[1..] + rest; }
      if r[0] == DEEP {
        if Matches(r[1..] + tail, path, bare) {
          DeepExtends(r[1..], tail, path, rest, bare);
        } else {
          DeepExtends(r, tail, path[1..], rest, bare);
        }
      } else {
        DeepExtends(r[1..], tail, path[1..], rest, bare);
      }
    }
  }

  lemma RecursiveTail(pattern: Pattern) returns (tail: Pattern)
    requires RecursiveRoot(pattern).Some?
    ensures tail == [DEEP] || tail == [DEEP, "*"]
    ensures pattern == RecursiveRoot(pattern).value + tail
  {
    var n := |pattern|;
    tail := if n >= 2 && pattern[n - 2..] == [DEEP, "*"] then [DEEP, "*"] else [DEEP];
  }

  /** An exclusion that covers the requested tree selects every path in it. */
  lemma CoveredTreeIsSelected(exclusion: Pattern, root: Path, rest: Path, bare: bool)
    requires CoversTree(exclusion, root, bare)
    ensures Selects(exclusion, root + rest, bare)
  {
    var r := RecursiveRoot(exclusion).value;
    var tail := RecursiveTail(exclusion);
    if r != [] {
      if Matches(exclusion, root, bare) {
        DeepExtends(r, tail, root, rest, bare);
      } else if rest != [] {
        MatchesBelow(r, tail, root, rest, bare);
      } else {
        assert root + rest == root;
      }
    }
  }

  lemma LiteralIsNotDeep(segment: string)
    requires IsLiteral(segment)
    ensures segment != DEEP
  {
    assert DEEP[0] == '*' && '*' in DEEP;
  }

  /** A pattern that starts with the literal segments r only matches below them. */
  lemma {:induction false} LiteralPrefix(r: Pattern, more: Pattern, path: Path, bare: bool)
    requires forall i :: 0 <= i < |r| ==> IsLiteral(r[i])
    requires Matches(r + more, path, bare)
    ensures |r| <= |path| && Matches(r, path[..|r|], bare)
  {
    if r != [] {
      assert (r + more)[0] == r[0] && (r + more)[1..] == r[1..] + more;
      LiteralIsNotDeep(r[0]);
      LiteralPrefix(r[1..], more, path[1..], bare);
      assert path[..|r|][0] == path[0] && path[..|r|][1..] == path[1..][..|r| - 1];
    }
  }

  lemma {:induction false} LiteralPrefixBeforeDeep(r: Pattern, root: Pattern, tail: Pattern)
    requires forall i :: 0 <= i < |r| ==> IsLiteral(r[i])
    requires tail != [] && tail[0] == DEEP && r <= root + tail
    ensures r <= root
  {
    if r != [] {
      LiteralIsNotDeep(r[0]);
      assert root != [] by { assert root == [] ==> root + tail == tail; }
      assert (root + tail)[1..] == root[1..] + tail;
      LiteralPrefixBeforeDeep(r[1..], root[1..], tail);
    }
  }

  lemma LiteralPrefixExcluded(r: Pattern, pattern: Pattern, exclusion: Pattern, path: Path, bare: bool)
    requires forall i :: 0 <= i < |r| ==> IsLiteral(r[i])
    requires r <= pattern && Matches(pattern, path, bare)
    requires RecursiveRoot(exclusion) == Some(r)
    ensures Selects(exclusion, path, bare)
  {
    assert pattern == r + pattern[|r|..];
    LiteralPrefix(r, pattern[|r|..], path, bare);
    var tail := RecursiveTail(exclusion);
    if |path| == |r| {
      assert path[..|r|] == path;
    } else {
      MatchesBelow(r, tail, path[..|r|], path[|r|..], bare);
      assert path[..|r|] + path[|r|..] == path;
    }
  }

  /** A covered pattern selects nothing that its exclusion does not select. */
  lemma CoveredIsSelected(pattern: Pattern, exclusion: Pattern, path: Path, bare: bool)
    requires CoveredBy(pattern, exclusion) && Selects(pattern, path, bare)
    ensures Selects(exclusion, path, bare)
  {
    if exclusion != pattern {
      var r := RecursiveRoot(exclusion).value;
      if r != [] {
        if Matches(pattern, path, bare) {
          LiteralPrefixExcluded(r, pattern, exclusion, path, bare);
        } else {
          var tail := RecursiveTail(pattern);
          var root := RecursiveRoot(pattern).value;
          LiteralPrefixBeforeDeep(r, root, tail);
          LiteralPrefixExcluded(r, root, exclusion, path, bare);
        }
      }
    }
  }

  /** A pattern reaches the root of every tree in which it selects something. */
  lemma SelectedIsReached(pattern: Pattern, root: Path, rest: Path, bare: bool)
    requires Selects(pattern, root + rest, bare)
    ensures ReachesTree(pattern, root)
  {
    assert pattern[0..] == pattern && root[0..] == root;
    if Matches(pattern, root + rest, bare) {
      MatchReaches(pattern, root, 0, 0, root + rest, bare);
    } else {
      var tail := RecursiveTail(pattern);
      var r := RecursiveRoot(pattern).value;
      if r == [] {
        FinalDeepReaches(pattern, root, 0, 0);
      } else {
        assert r[0..] == r;
        MatchReaches(r, root, 0, 0, root + rest, bare);
        ReachesOn(r, tail, root, 0, 0);
      }
    }
  }

  lemma {:induction false} ReachesOn(r: Pattern, tail: Pattern, root: Path, i: nat, k: nat)
    requires i <= |r| && k <= |root| && Reaches(r, root, i, k)
    ensures Reaches(r + tail, root, i, k)
    decreases |r| - i + |root| - k
  {
    if k < |root| {
      if r[i] == DEEP {
        if Reaches(r, root, i + 1, k) {
          ReachesOn(r, tail, root, i + 1, k);
        } else {
          ReachesOn(r, tail, root, i, k + 1);
        }
      } else {
        ReachesOn(r, tail, root, i + 1, k + 1);
      }
    }
  }
}

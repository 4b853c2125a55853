/**
  What a brace-free glob matches, told without a search: the text is cut into one piece per character of
  the pattern, and the path into one run of segments per segment of the pattern.
*/
module GlobMeaning {
  import opened GlobPatterns

  /** The places k = cuts[0] <= cuts[1] <= .. where a text of n units is cut into pieces, from k to its end. */
  predicate Cuts(cuts: seq<nat>, pieces: nat, k: nat, n: nat) {
    && |cuts| == pieces + 1 && cuts[0] == k && cuts[pieces] == n
    && forall i, j :: 0 <= i <= j <= pieces ==> cuts[i] <= cuts[j]
  }

  lemma CutBefore(cuts: seq<nat>, pieces: nat, k: nat, n: nat, first: nat)
    requires Cuts(cuts, pieces, k, n) && first <= k
    ensures Cuts([first] + cuts, pieces + 1, first, n)
  {
  }

  lemma CutEarlier(cuts: seq<nat>, pieces: nat, k: nat, n: nat, first: nat)
    requires Cuts(cuts, pieces, k, n) && first <= k && (pieces == 0 ==> first == k)
    ensures Cuts(cuts[0 := first], pieces, first, n)
  {
  }

  // ---------------------------------------------------------------- one segment

  /** The piece of one character: anything for `*`, one character for `?`, and itself otherwise. */
  predicate Fits(c: char, piece: string) {
    c == '*' || (|piece| == 1 && (c == '?' || piece[0] == c))
  }

  predicate PieceFits(pattern: string, text: string, cuts: seq<nat>, j: nat) {
    && j < |pattern| && j + 1 < |cuts| && cuts[j] <= cuts[j + 1] <= |text|
    && Fits(pattern[j], text[cuts[j]..cuts[j + 1]])
  }

  predicate Aligned(pattern: string, text: string, k: nat, cuts: seq<nat>) {
    && Cuts(cuts, |pattern|, k, |text|)
    && forall j: nat :: j < |pattern| ==> PieceFits(pattern, text, cuts, j)
  }

  /** A first piece and the pieces of the rest. */
  lemma PiecesOn(pattern: string, text: string, k: nat, next: nat, rest: seq<nat>)
    requires pattern != [] && k <= next <= |text| && Aligned(pattern[1..], text, next, rest)
    requires Fits(pattern[0], text[k..next])
    ensures Aligned(pattern, text, k, [k] + rest)
  {
    CutBefore(rest, |pattern| - 1, next, |text|, k);
    forall j: nat | j < |pattern| ensures PieceFits(pattern, text, [k] + rest, j) {
      if j > 0 { assert PieceFits(pattern[1..], text, rest, j - 1); }
    }
  }

  lemma PiecesEarlier(pattern: string, text: string, k: nat, cuts: seq<nat>)
    requires pattern != [] && pattern[0] == '*' && k < |text| && Aligned(pattern, text, k + 1, cuts)
    ensures cuts != [] && Aligned(pattern, text, k, cuts[0 := k])
  {
    var earlier := cuts[0 := k];
    CutEarlier(cuts, |pattern|, k + 1, |text|, k);
    forall j: nat | j < |pattern| ensures PieceFits(pattern, text, earlier, j) {
      assert PieceFits(pattern, text, cuts, j);
    }
  }

  lemma {:induction false} MatchIsAligned(pattern: string, text: string, k: nat) returns (cuts: seq<nat>)
    requires k <= |text| && SegmentMatches(pattern, text[k..])
    ensures Aligned(pattern, text, k, cuts)
    decreases |pattern|, |text| - k
  {
    if pattern == [] {
      cuts := [k];
    } else if pattern[0] == '*' && !SegmentMatches(pattern[1..], text[k..]) {
      assert text[k..][1..] == text[k + 1..];
      hide Aligned;
      var rest := MatchIsAligned(pattern, text, k + 1);
      PiecesEarlier(pattern, text, k, rest);
      cuts := rest[0 := k];
    } else {
      assert text[k..] != [] ==> text[k..][1..] == text[k + 1..] && text[k..k + 1] == [text[k..][0]];
      hide Aligned;
      var next := if pattern[0] == '*' then k else k + 1;
      var rest := MatchIsAligned(pattern[1..], text, next);
      PiecesOn(pattern, text, k, next, rest);
      cuts := [k] + rest;
    }
  }

  lemma {:induction false} StarSkips(pattern: string, text: string, k: nat, end: nat)
    requires k <= end <= |text| && pattern != [] && pattern[0] == '*' && SegmentMatches(pattern[1..], text[end..])
    ensures SegmentMatches(pattern, text[k..])
    decreases end - k
  {
    if k < end {
      StarSkips(pattern, text, k + 1, end);
      assert text[k..] != [] && text[k..][1..] == text[k + 1..];
    }
  }

  lemma {:induction false} AlignedMatches(pattern: string, text: string, k: nat, cuts: seq<nat>)
    requires k <= |text| && Aligned(pattern, text, k, cuts)
    ensures SegmentMatches(pattern, text[k..])
    decreases |pattern|
  {
    if pattern != [] {
      var end := cuts[1];
      assert PieceFits(pattern, text, cuts, 0);
      AlignedRest(pattern, text, k, cuts);
      AlignedMatches(pattern[1..], text, end, cuts[1..]);
      if pattern[0] == '*' {
        StarSkips(pattern, text, k, end);
      } else {
        assert text[k..][1..] == text[end..];
      }
    }
  }

  lemma AlignedRest(pattern: string, text: string, k: nat, cuts: seq<nat>)
    requires pattern != [] && Aligned(pattern, text, k, cuts)
    ensures Aligned(pattern[1..], text, cuts[1], cuts[1..])
  {
    forall j: nat | j < |pattern| - 1 ensures PieceFits(pattern[1..], text, cuts[1..], j) {
      assert PieceFits(pattern, text, cuts, j + 1);
    }
  }

  /** A segment pattern matches exactly the texts that can be cut into pieces for its characters. */
  lemma SegmentMatchesExactly(pattern: string, text: string)
    ensures SegmentMatches(pattern, text) <==> exists cuts :: Aligned(pattern, text, 0, cuts)
  {
    assert text[0..] == text;
    if SegmentMatches(pattern, text) {
      var cuts := MatchIsAligned(pattern, text, 0);
    }
    forall cuts | Aligned(pattern, text, 0, cuts) ensures SegmentMatches(pattern, text) {
      AlignedMatches(pattern, text, 0, cuts);
    }
  }

  // ---------------------------------------------------------------- paths

  /** The run of one segment: any run for `**`, a run of one otherwise; a final `**` may need one segment. */
  predicate RunFits(segment: string, run: Path, last: bool, bare: bool) {
    if segment == DEEP then last && !bare ==> run != []
    else |run| == 1 && SegmentMatches(segment, run[0])
  }

  predicate RunFitsAt(pattern: Pattern, path: Path, cuts: seq<nat>, j: nat, bare: bool) {
    && j < |pattern| && j + 1 < |cuts| && cuts[j] <= cuts[j + 1] <= |path|
    && RunFits(pattern[j], path[cuts[j]..cuts[j + 1]], j + 1 == |pattern|, bare)
  }

  predicate Covers(pattern: Pattern, path: Path, k: nat, cuts: seq<nat>, bare: bool) {
    && Cuts(cuts, |pattern|, k, |path|)
    && forall j: nat :: j < |pattern| ==> RunFitsAt(pattern, path, cuts, j, bare)
  }

  /** A first run and the runs of the rest. */
  lemma RunsOn(pattern: Pattern, path: Path, k: nat, next: nat, rest: seq<nat>, bare: bool)
    requires pattern != [] && k <= next <= |path| && Covers(pattern[1..], path, next, rest, bare)
    requires RunFits(pattern[0], path[k..next], |pattern| == 1, bare)
    ensures Covers(pattern, path, k, [k] + rest, bare)
  {
    CutBefore(rest, |pattern| - 1, next, |path|, k);
    forall j: nat | j < |pattern| ensures RunFitsAt(pattern, path, [k] + rest, j, bare) {
      if j > 0 { assert RunFitsAt(pattern[1..], path, rest, j - 1, bare); }
    }
  }

  lemma RunsEarlier(pattern: Pattern, path: Path, k: nat, cuts: seq<nat>, bare: bool)
    requires pattern != [] && pattern[0] == DEEP && k < |path| && Covers(pattern, path, k + 1, cuts, bare)
    ensures cuts != [] && Covers(pattern, path, k, cuts[0 := k], bare)
  {
    var earlier := cuts[0 := k];
    CutEarlier(cuts, |pattern|, k + 1, |path|, k);
    forall j: nat | j < |pattern| ensures RunFitsAt(pattern, path, earlier, j, bare) {
      assert RunFitsAt(pattern, path, cuts, j, bare);
    }
  }

  lemma {:induction false} MatchCovers(pattern: Pattern, path: Path, k: nat, bare: bool) returns (cuts: seq<nat>)
    requires k <= |path| && Matches(pattern, path[k..], bare)
    ensures Covers(pattern, path, k, cuts, bare)
    decreases |pattern|, |path| - k
  {
    hide Covers;
    if pattern == [] || pattern == [DEEP] {
      cuts := if pattern == [] then [k] else [k, |path|];
      WholeRun(pattern, path, k, bare);
    } else if pattern[0] == DEEP && !Matches(pattern[1..], path[k..], bare) {
      assert path[k..][1..] == path[k + 1..];
      var rest := MatchCovers(pattern, path, k + 1, bare);
      RunsEarlier(pattern, path, k, rest, bare);
      cuts := rest[0 := k];
    } else {
      assert path[k..] != [] ==> path[k..][1..] == path[k + 1..] && path[k..k + 1] == [path[k..][0]];
      var next := if pattern[0] == DEEP then k else k + 1;
      var rest := MatchCovers(pattern[1..], path, next, bare);
      RunsOn(pattern, path, k, next, rest, bare);
      cuts := [k] + rest;
    }
  }

  lemma WholeRun(pattern: Pattern, path: Path, k: nat, bare: bool)
    requires k <= |path| && Matches(pattern, path[k..], bare) && (pattern == [] || pattern == [DEEP])
    ensures Covers(pattern, path, k, if pattern == [] then [k] else [k, |path|], bare)
  {
  }

  lemma {:induction false} DeepSkips(pattern: Pattern, path: Path, k: nat, end: nat, bare: bool)
    requires k <= end <= |path| && |pattern| > 1 && pattern[0] == DEEP && Matches(pattern[1..], path[end..], bare)
    ensures Matches(pattern, path[k..], bare)
    decreases end - k
  {
    if k < end {
      DeepSkips(pattern, path, k + 1, end, bare);
      assert path[k..] != [] && path[k..][1..] == path[k + 1..];
    }
  }

  lemma {:induction false} CoveredMatches(pattern: Pattern, path: Path, k: nat, cuts: seq<nat>, bare: bool)
    requires k <= |path| && Covers(pattern, path, k, cuts, bare)
    ensures Matches(pattern, path[k..], bare)
    decreases |pattern|
  {
    if pattern != [] {
      var end := cuts[1];
      assert RunFitsAt(pattern, path, cuts, 0, bare);
      if pattern == [DEEP] {
        assert path[k..end] == path[k..];
      } else {
        CoversRest(pattern, path, k, cuts, bare);
        CoveredMatches(pattern[1..], path, end, cuts[1..], bare);
        if pattern[0] == DEEP {
          DeepSkips(pattern, path, k, end, bare);
        } else {
          assert path[k..][1..] == path[end..] && path[k..][0] == path[k..end][0];
        }
      }
    }
  }

  lemma CoversRest(pattern: Pattern, path: Path, k: nat, cuts: seq<nat>, bare: bool)
    requires pattern != [] && Covers(pattern, path, k, cuts, bare)
    ensures Covers(pattern[1..], path, cuts[1], cuts[1..], bare)
  {
    forall j: nat | j < |pattern| - 1 ensures RunFitsAt(pattern[1..], path, cuts[1..], j, bare) {
      assert RunFitsAt(pattern, path, cuts, j + 1, bare);
    }
  }

  /** A pattern matches exactly the paths that can be cut into runs for its segments. */
  lemma MatchesExactly(pattern: Pattern, path: Path, bare: bool)
    ensures Matches(pattern, path, bare) <==> exists cuts :: Covers(pattern, path, 0, cuts, bare)
  {
    assert path[0..] == path;
    if Matches(pattern, path, bare) {
      var cuts := MatchCovers(pattern, path, 0, bare);
    }
    forall cuts | Covers(pattern, path, 0, cuts, bare) ensures Matches(pattern, path, bare) {
      CoveredMatches(pattern, path, 0, cuts, bare);
    }
  }
}

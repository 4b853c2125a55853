/**
  When the brace expansion gives up (src/runtime/path-policy.ts). A step makes one copy of the whole selector
  for each alternative of one group, so every group multiplies the results, even one inside an alternative
  that another group may not take: `{a{b,c},d}` has three words and four results.
*/
module BraceLimits {
  import opened Options
  import opened BraceSelectors

  /** The product of the numbers of alternatives of all groups, however deep. */
  function Copies(s: Selector): nat
    decreases s
  {
    if s == [] then 1 else NodeCopies(s[0]) * Copies(s[1..])
  }

  function NodeCopies(n: Node): nat
    decreases n
  {
    match n
    case Ch(_) => 1
    case Group(alternatives) => |alternatives| * AnyCopies(alternatives)
  }

  function AnyCopies(alternatives: seq<Alternative>): nat
    decreases alternatives
  {
    if alternatives == [] then 1 else Copies(alternatives[0].nodes) * AnyCopies(alternatives[1..])
  }

  // ---------------------------------------------------------------- products

  lemma Regroup(a: nat, b: nat, c: nat)
    ensures (a * b) * c == a * (b * c) && (a * b) * c == (a * c) * b
  {
  }

  lemma GroupDivides(n: nat, a: nat, rest: nat, c: nat)
    ensures ((n * a) * rest) * c == (n * (a * c)) * rest
  {
    Regroup(n * a, rest, c);
    Regroup(n, a, c);
  }

  lemma SameFactor(a: nat, b: nat, c: nat)
    requires a * c == b * c && c > 0
    ensures a == b
  {
  }

  lemma Monotone(i: nat, n: nat, w: nat)
    requires i <= n
    ensures i * w <= n * w && (i + 1) * w == i * w + w
  {
    assert (n - i) * w >= 0 && n * w == i * w + (n - i) * w;
  }

  lemma Positive(a: nat, b: nat)
    requires a > 0 && b > 0
    ensures a * b > 0
  {
  }

  // ---------------------------------------------------------------- one step divides the copies

  lemma {:induction false} PlainCopies(s: Selector)
    requires IsPlain(s)
    ensures Copies(s) == 1
    decreases s
  {
    if s != [] { PlainCopies(s[1..]); }
  }

  lemma {:induction false} SplitCopies(alternatives: seq<Alternative>)
    requires forall i :: 0 <= i < |alternatives| ==> IsPlain(alternatives[i].nodes)
    ensures AnyCopies(alternatives) == 1
    decreases alternatives
  {
    if alternatives != [] {
      PlainCopies(alternatives[0].nodes);
      SplitCopies(alternatives[1..]);
    }
  }

  lemma {:induction false} CopiesOfPlainAnd(s: Selector, t: Selector)
    requires IsPlain(s)
    ensures Copies(s + t) == Copies(t)
    decreases s
  {
    if s == [] {
      assert s + t == t;
    } else {
      assert (s + t)[0] == s[0] && (s + t)[1..] == s[1..] + t;
      CopiesOfPlainAnd(s[1..], t);
    }
  }

  lemma {:induction false} PickDivides(s: Selector, i: nat)
    requires i < Choices(s)
    ensures Copies(Pick(s, i)) * Choices(s) == Copies(s)
    decreases s
  {
    hide Copies, NodeCopies, AnyCopies;
    match s[0]
    case Ch(_) =>
      PickDivides(s[1..], i);
      LaterPickDivides(s, i);
    case Group(alternatives) =>
      if Splits(alternatives) {
        SplitPickDivides(s, alternatives, i);
      } else if AnyChoices(alternatives) > 0 {
        AnyPickDivides(alternatives, i);
        InnerPickDivides(s, alternatives, i);
      } else {
        PickDivides(s[1..], i);
        LaterPickDivides(s, i);
      }
  }

  /** The step takes the first node, a group. */
  lemma SplitPickDivides(s: Selector, alternatives: seq<Alternative>, i: nat)
    requires s != [] && s[0] == Group(alternatives) && Splits(alternatives) && i < |alternatives|
    ensures Copies(Pick(s, i)) * Choices(s) == Copies(s)
  {
    SplitCopies(alternatives);
    CopiesOfPlainAnd(alternatives[i].nodes, s[1..]);
    Unfolded(s);
    assert NodeCopies(s[0]) == |alternatives| * 1;
    assert Pick(s, i) == alternatives[i].nodes + s[1..] && Choices(s) == |alternatives|;
  }

  /** The step takes a group inside the first one. */
  lemma InnerPickDivides(s: Selector, alternatives: seq<Alternative>, i: nat)
    requires s != [] && s[0] == Group(alternatives) && !Splits(alternatives) && i < AnyChoices(alternatives)
    requires |AnyPick(alternatives, i)| == |alternatives|
    requires AnyCopies(AnyPick(alternatives, i)) * AnyChoices(alternatives) == AnyCopies(alternatives)
    ensures Copies(Pick(s, i)) * Choices(s) == Copies(s)
  {
    var picked, others := Pick(s, i), AnyPick(alternatives, i);
    assert picked[0] == Group(others) && picked[1..] == s[1..];
    Unfolded(s);
    Unfolded(picked);
    hide Copies, AnyCopies, AnyChoices, Pick, AnyPick, Splits;
    GroupDivides(|alternatives|, AnyCopies(others), Copies(s[1..]), AnyChoices(alternatives));
  }

  /** The step leaves the first node alone. */
  lemma LaterPickDivides(s: Selector, i: nat)
    requires s != [] && i < Choices(s) && Choices(s) == Choices(s[1..]) && Pick(s, i) == [s[0]] + Pick(s[1..], i)
    requires Copies(Pick(s[1..], i)) * Choices(s[1..]) == Copies(s[1..])
    ensures Copies(Pick(s, i)) * Choices(s) == Copies(s)
  {
    var picked := Pick(s, i);
    assert picked[0] == s[0] && picked[1..] == Pick(s[1..], i);
    Unfolded(s);
    Unfolded(picked);
    hide *;
    Regroup(NodeCopies(s[0]), Copies(Pick(s[1..], i)), Choices(s[1..]));
  }

  lemma Unfolded(s: Selector)
    requires s != []
    ensures Copies(s) == NodeCopies(s[0]) * Copies(s[1..])
  {
  }

  lemma {:induction false} AnyPickDivides(alternatives: seq<Alternative>, i: nat)
    requires i < AnyChoices(alternatives)
    ensures |AnyPick(alternatives, i)| == |alternatives|
    ensures AnyCopies(AnyPick(alternatives, i)) * AnyChoices(alternatives) == AnyCopies(alternatives)
    decreases alternatives
  {
    var first, others := alternatives[0].nodes, alternatives[1..];
    var picked := AnyPick(alternatives, i);
    if Choices(first) > 0 {
      PickDivides(first, i);
      assert picked[0].nodes == Pick(first, i) && picked[1..] == others;
      Regroup(Copies(Pick(first, i)), AnyCopies(others), Choices(first));
    } else {
      AnyPickDivides(others, i);
      assert picked[0] == alternatives[0] && picked[1..] == AnyPick(others, i);
      Regroup(Copies(first), AnyCopies(AnyPick(others, i)), AnyChoices(others));
    }
  }

  lemma {:induction false} BranchingHasCopies(s: Selector)
    requires Branching(s)
    ensures Copies(s) > 0
    decreases s
  {
    if s != [] {
      BranchingHasCopies(s[1..]);
      if s[0].Group? {
        AnyBranchingHasCopies(s[0].alternatives);
        Positive(|s[0].alternatives|, AnyCopies(s[0].alternatives));
      }
      Positive(NodeCopies(s[0]), Copies(s[1..]));
    }
  }

  lemma {:induction false} AnyBranchingHasCopies(alternatives: seq<Alternative>)
    requires AllBranching(alternatives)
    ensures AnyCopies(alternatives) > 0
    decreases alternatives
  {
    if alternatives != [] {
      BranchingHasCopies(alternatives[0].nodes);
      AnyBranchingHasCopies(alternatives[1..]);
      Positive(Copies(alternatives[0].nodes), AnyCopies(alternatives[1..]));
    }
  }

  // ---------------------------------------------------------------- the whole expansion

  /** What an expansion comes to that needs so many results. */
  predicate ComesTo(result: Option<seq<Selector>>, copies: nat) {
    if copies <= EXPANSION_LIMIT then result.Some? && |result.value| == copies else result.None?
  }

  /** The expansion has one result per copy, and gives up exactly when there are more than 256 of them. */
  lemma {:induction false} ExpandsExactly(s: Selector)
    requires Branching(s)
    ensures Expand(s).Some? <==> Copies(s) <= EXPANSION_LIMIT
    ensures Expand(s).Some? ==> |Expand(s).value| == Copies(s)
    decreases Groups(s), 1, 0
  {
    if Choices(s) == 0 {
      NothingToSplit(s);
      PlainCopies(s);
    } else {
      var w := Copies(Pick(s, 0));
      PickDivides(s, 0);
      PickBranches(s, 0);
      BranchingHasCopies(Pick(s, 0));
      Monotone(0, Choices(s), w);
      ExpandsFromExactly(s, 0, [], w);
    }
  }

  lemma {:induction false} ExpandsFromExactly(s: Selector, i: nat, expanded: seq<Selector>, w: nat)
    requires Branching(s) && i <= Choices(s) && 0 < w && w * Choices(s) == Copies(s)
    requires |expanded| == i * w <= EXPANSION_LIMIT
    ensures ComesTo(ExpandFrom(s, i, expanded), Choices(s) * w)
    decreases Groups(s), 0, Choices(s) - i
  {
    if i < Choices(s) {
      PickShrinks(s, i);
      PickBranches(s, i);
      PickDivides(s, i);
      SameFactor(Copies(Pick(s, i)), w, Choices(s));
      ExpandsExactly(Pick(s, i));
      Monotone(i, Choices(s), w);
      Monotone(i + 1, Choices(s), w);
      Monotone(1, Choices(s), w);
      var nested := Expand(Pick(s, i));
      if nested.Some? && (i + 1) * w <= EXPANSION_LIMIT {
        assert |expanded + nested.value| == (i + 1) * w;
        ExpandsFromExactly(s, i + 1, expanded + nested.value, w);
      }
    }
  }

  // ---------------------------------------------------------------- more results than words

  /** `{a{b,c},d}`. */
  function Nested(): Selector {
    [Group([Alternative([Ch('a'), Group([Alternative([Ch('b')]), Alternative([Ch('c')])])]), Alternative([Ch('d')])])]
  }

  lemma {:induction false} OneLetter(c: char)
    ensures Words([Ch(c)]) == {[c]} && Copies([Ch(c)]) == 1
  {
    assert [Ch(c)][1..] == [];
    assert Words([]) == {[]} && Product({[c]}, {[]}) == {[c] + []} && [c] + [] == [c];
  }

  lemma TwoAlternatives(a: Selector, b: Selector)
    ensures AnyWords([Alternative(a), Alternative(b)]) == Words(a) + Words(b)
    ensures AnyCopies([Alternative(a), Alternative(b)]) == Copies(a) * Copies(b)
  {
    var both, second := [Alternative(a), Alternative(b)], [Alternative(b)];
    assert both[1..] == second && second[1..] == [];
    assert AnyWords([]) == {} && AnyCopies([]) == 1;
    assert AnyWords(second) == Words(b) && AnyCopies(second) == Copies(b);
  }

  lemma OneGroup(alternatives: seq<Alternative>)
    ensures Words([Group(alternatives)]) == AnyWords(alternatives)
    ensures Copies([Group(alternatives)]) == |alternatives| * AnyCopies(alternatives)
  {
    var s := [Group(alternatives)];
    assert s[1..] == [] && Words([]) == {[]} && Copies([]) == 1;
    var words := AnyWords(alternatives);
    forall w ensures w in Product(words, {[]}) <==> w in words {
      assert w + [] == w;
      if w in words { Multiplies(words, {[]}, w, []); }
      if w in Product(words, {[]}) {
        var x, y := Factors(words, {[]}, w);
        assert x + [] == x;
      }
    }
    assert Product(words, {[]}) == words;
  }

  lemma FirstLetter(c: char, rest: Selector)
    ensures Words([Ch(c)] + rest) == Product({[c]}, Words(rest)) && Copies([Ch(c)] + rest) == Copies(rest)
  {
    var s := [Ch(c)] + rest;
    assert s[0] == Ch(c) && s[1..] == rest;
  }

  lemma InnerGroup()
    ensures var inner := [Alternative([Ch('b')]), Alternative([Ch('c')])];
            Words([Group(inner)]) == {"b"} + {"c"} && Copies([Group(inner)]) == 2
  {
    OneLetter('b');
    OneLetter('c');
    hide Words, Copies, AnyWords, AnyCopies;
    TwoAlternatives([Ch('b')], [Ch('c')]);
    OneGroup([Alternative([Ch('b')]), Alternative([Ch('c')])]);
  }

  lemma FirstAlternative()
    ensures var first := [Ch('a'), Group([Alternative([Ch('b')]), Alternative([Ch('c')])])];
            Words(first) == {"ab", "ac"} && Copies(first) == 2
  {
    var inner := [Group([Alternative([Ch('b')]), Alternative([Ch('c')])])];
    InnerGroup();
    hide Words, Copies;
    FirstLetter('a', inner);
    assert [Ch('a')] + inner == [Ch('a'), inner[0]];
    assert Product({"a"}, {"b"} + {"c"}) == {"a" + "b", "a" + "c"};
    assert "a" + "b" == "ab" && "a" + "c" == "ac";
  }

  /** Such a selector: three words, and four results. */
  lemma MoreResultsThanWords()
    ensures Words(Nested()) == {"ab", "ac", "d"} && Copies(Nested()) == 4
  {
    var first := [Ch('a'), Group([Alternative([Ch('b')]), Alternative([Ch('c')])])];
    FirstAlternative();
    OneLetter('d');
    hide Words, Copies, AnyWords, AnyCopies;
    TwoAlternatives(first, [Ch('d')]);
    OneGroup([Alternative(first), Alternative([Ch('d')])]);
  }
}

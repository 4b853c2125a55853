/**
  Selectors with brace alternatives, and their expansion (src/runtime/path-policy.ts). A selector is
  a sequence of characters and brace groups; its words are the brace-free texts it stands for.
  Each expansion step takes the leftmost group that holds no other group and has a comma.

  An expansion ends with the words of the selector, at most 256 of them, and gives up beyond that; when
  every group has a comma it leaves no group (`ExpansionKeepsWords`, `ExpansionIsPlain`). A group without
  a comma stays in the expansion; here it stands for the words of its one alternative, and what Bun.Glob
  takes such a group for is outside this model.
*/
module BraceSelectors {
  import opened Options

  datatype Node = Ch(c: char) | Group(alternatives: seq<Alternative>)
  datatype Alternative = Alternative(nodes: seq<Node>)
  type Selector = seq<Node>

  const EXPANSION_LIMIT := 256

  function Product(a: set<string>, b: set<string>): set<string> {
    set x, y | x in a && y in b :: x + y
  }

  lemma Factors(a: set<string>, b: set<string>, w: string) returns (x: string, y: string)
    requires w in Product(a, b)
    ensures x in a && y in b && w == x + y
  {
    x, y :| x in a && y in b && x + y == w;
  }

  lemma Multiplies(a: set<string>, b: set<string>, x: string, y: string)
    requires x in a && y in b
    ensures x + y in Product(a, b)
  {
  }

  function Words(s: Selector): set<string>
    decreases s
  {
    if s == [] then {[]} else Product(NodeWords(s[0]), Words(s[1..]))
  }

  function NodeWords(n: Node): set<string>
    decreases n
  {
    match n
    case Ch(c) => {[c]}
    case Group(alternatives) => AnyWords(alternatives)
  }

  function AnyWords(alternatives: seq<Alternative>): set<string>
    decreases alternatives
  {
    if alternatives == [] then {} else Words(alternatives[0].nodes) + AnyWords(alternatives[1..])
  }

  function Plain(text: string): Selector {
    seq(|text|, i requires 0 <= i < |text| => Ch(text[i]))
  }

  predicate IsPlain(s: Selector) {
    forall i :: 0 <= i < |s| ==> s[i].Ch?
  }

  function Text(s: Selector): string
    requires IsPlain(s)
  {
    seq(|s|, i requires 0 <= i < |s| => s[i].c)
  }

  // ---------------------------------------------------------------- one expansion step

  /** A group that a step can replace: no group inside it, and at least one comma. */
  predicate Splits(alternatives: seq<Alternative>) {
    |alternatives| >= 2 && forall i :: 0 <= i < |alternatives| ==> IsPlain(alternatives[i].nodes)
  }

  /** The number of alternatives of the leftmost group that splits; 0 when none does. */
  function Choices(s: Selector): nat
    decreases s
  {
    if s == [] then 0 else
    match s[0]
    case Ch(_) => Choices(s[1..])
    case Group(alternatives) =>
      if Splits(alternatives) then |alternatives|
      else if AnyChoices(alternatives) > 0 then AnyChoices(alternatives)
      else Choices(s[1..])
  }

  function AnyChoices(alternatives: seq<Alternative>): nat
    decreases alternatives
  {
    if alternatives == [] then 0
    else if Choices(alternatives[0].nodes) > 0 then Choices(alternatives[0].nodes)
    else AnyChoices(alternatives[1..])
  }

  /** The selector with that group replaced by its i-th alternative. */
  function Pick(s: Selector, i: nat): Selector
    requires i < Choices(s)
    decreases s
  {
    match s[0]
    case Ch(_) => [s[0]] + Pick(s[1..], i)
    case Group(alternatives) =>
      if Splits(alternatives) then alternatives[i].nodes + s[1..]
      else if AnyChoices(alternatives) > 0 then [Group(AnyPick(alternatives, i))] + s[1..]
      else [s[0]] + Pick(s[1..], i)
  }

  function AnyPick(alternatives: seq<Alternative>, i: nat): seq<Alternative>
    requires i < AnyChoices(alternatives)
    decreases alternatives
  {
    if Choices(alternatives[0].nodes) > 0 then [Alternative(Pick(alternatives[0].nodes, i))] + alternatives[1..]
    else [alternatives[0]] + AnyPick(alternatives[1..], i)
  }

  /** The number of groups. */
  function Groups(s: Selector): nat
    decreases s
  {
    if s == [] then 0 else
      (match s[0] case Ch(_) => 0 case Group(alternatives) => 1 + AnyGroups(alternatives)) + Groups(s[1..])
  }

  function AnyGroups(alternatives: seq<Alternative>): nat
    decreases alternatives
  {
    if alternatives == [] then 0 else Groups(alternatives[0].nodes) + AnyGroups(alternatives[1..])
  }

  lemma {:induction false} GroupsConcat(s: Selector, t: Selector)
    ensures Groups(s + t) == Groups(s) + Groups(t)
    decreases s
  {
    if s == [] {
      assert s + t == t;
    } else {
      assert (s + t)[0] == s[0] && (s + t)[1..] == s[1..] + t;
      GroupsConcat(s[1..], t);
    }
  }

  lemma {:induction false} PlainHasNoGroups(s: Selector)
    requires IsPlain(s)
    ensures Groups(s) == 0 && Choices(s) == 0
    decreases s
  {
    if s != [] { PlainHasNoGroups(s[1..]); }
  }

  /** Every step removes exactly one group, so expansion ends. */
  lemma {:induction false} PickShrinks(s: Selector, i: nat)
    requires i < Choices(s)
    ensures Groups(Pick(s, i)) < Groups(s)
    decreases s
  {
    match s[0]
    case Ch(_) =>
      PickShrinks(s[1..], i);
      assert ([s[0]] + Pick(s[1..], i))[1..] == Pick(s[1..], i);
    case Group(alternatives) =>
      if Splits(alternatives) {
        PlainHasNoGroups(alternatives[i].nodes);
        GroupsConcat(alternatives[i].nodes, s[1..]);
      } else if AnyChoices(alternatives) > 0 {
        AnyPickShrinks(alternatives, i);
        assert ([Group(AnyPick(alternatives, i))] + s[1..])[1..] == s[1..];
      } else {
        PickShrinks(s[1..], i);
        assert ([s[0]] + Pick(s[1..], i))[1..] == Pick(s[1..], i);
      }
  }

  lemma {:induction false} AnyPickShrinks(alternatives: seq<Alternative>, i: nat)
    requires i < AnyChoices(alternatives)
    ensures AnyGroups(AnyPick(alternatives, i)) < AnyGroups(alternatives)
    decreases alternatives
  {
    if Choices(alternatives[0].nodes) > 0 {
      PickShrinks(alternatives[0].nodes, i);
      assert ([Alternative(Pick(alternatives[0].nodes, i))] + alternatives[1..])[1..] == alternatives[1..];
    } else {
      AnyPickShrinks(alternatives[1..], i);
      assert ([alternatives[0]] + AnyPick(alternatives[1..], i))[1..] == AnyPick(alternatives[1..], i);
    }
  }

  // ---------------------------------------------------------------- a step keeps the words

  lemma {:induction false} WordsConcat(s: Selector, t: Selector)
    ensures Words(s + t) == Product(Words(s), Words(t))
    decreases s
  {
    if s == [] {
      assert s + t == t;
      UnitProduct(Words(t));
    } else {
      assert (s + t)[0] == s[0] && (s + t)[1..] == s[1..] + t;
      WordsConcat(s[1..], t);
      ProductAssociates(NodeWords(s[0]), Words(s[1..]), Words(t));
    }
  }

  lemma UnitProduct(a: set<string>)
    ensures Product({[]}, a) == a && Product(a, {[]}) == a
  {
    forall x ensures x in Product({[]}, a) <==> x in a {
      assert [] + x == x;
      if x in Product({[]}, a) {
        var y :| y in a && [] + y == x;
        assert x == y;
      }
    }
    forall x ensures x in Product(a, {[]}) <==> x in a {
      assert x + [] == x;
      if x in Product(a, {[]}) {
        var y :| y in a && y + [] == x;
        assert x == y;
      }
    }
  }

  lemma ProductAssociates(a: set<string>, b: set<string>, c: set<string>)
    ensures Product(a, Product(b, c)) == Product(Product(a, b), c)
  {
    forall w | w in Product(a, Product(b, c)) ensures w in Product(Product(a, b), c) {
      var x, yz :| x in a && yz in Product(b, c) && x + yz == w;
      var y, z :| y in b && z in c && y + z == yz;
      assert x + y in Product(a, b) && (x + y) + z == w;
    }
    forall w | w in Product(Product(a, b), c) ensures w in Product(a, Product(b, c)) {
      var xy, z :| xy in Product(a, b) && z in c && xy + z == w;
      var x, y :| x in a && y in b && x + y == xy;
      assert y + z in Product(b, c) && x + (y + z) == w;
    }
  }

  /** The words of all the selectors that one step makes of s. */
  ghost predicate Picked(s: Selector, w: string) {
    exists i: nat :: i < Choices(s) && w in Words(Pick(s, i))
  }

  ghost predicate AnyPicked(alternatives: seq<Alternative>, w: string) {
    exists i: nat :: i < AnyChoices(alternatives) && w in AnyWords(AnyPick(alternatives, i))
  }

  lemma SplitPieces(s: Selector)
    requires s != [] && s[0].Group? && Splits(s[0].alternatives)
    ensures Choices(s) == |s[0].alternatives|
    ensures Words(s) == Product(AnyWords(s[0].alternatives), Words(s[1..]))
    ensures forall i: nat :: i < Choices(s) ==>
              Words(Pick(s, i)) == Product(Words(s[0].alternatives[i].nodes), Words(s[1..]))
  {
    assert Choices(s) == |s[0].alternatives|;
    assert Words(s) == Product(AnyWords(s[0].alternatives), Words(s[1..]));
    forall i: nat | i < Choices(s)
      ensures Words(Pick(s, i)) == Product(Words(s[0].alternatives[i].nodes), Words(s[1..]))
    {
      assert Pick(s, i) == s[0].alternatives[i].nodes + s[1..];
      hide Words, Product, Pick, Choices, Splits;
      WordsConcat(s[0].alternatives[i].nodes, s[1..]);
    }
  }

  lemma WordsOfSplit(s: Selector, w: string)
    requires s != [] && s[0].Group? && Splits(s[0].alternatives)
    ensures w in Words(s) <==> Picked(s, w)
  {
    var alternatives := s[0].alternatives;
    SplitPieces(s);
    hide Product, Words, AnyWords, Pick, Choices, Splits;
    if w in Words(s) {
      var x, y := Factors(AnyWords(alternatives), Words(s[1..]), w);
      var i := InAnyWords(alternatives, x);
      Multiplies(Words(alternatives[i].nodes), Words(s[1..]), x, y);
      assert w in Words(Pick(s, i));
    }
    if Picked(s, w) {
      var i: nat :| i < Choices(s) && w in Words(Pick(s, i));
      var x, y := Factors(Words(alternatives[i].nodes), Words(s[1..]), w);
      AlternativeInAnyWords(alternatives, i, x);
      Multiplies(AnyWords(alternatives), Words(s[1..]), x, y);
    }
  }

  lemma {:induction false} InAnyWords(alternatives: seq<Alternative>, w: string) returns (i: nat)
    requires w in AnyWords(alternatives)
    ensures i < |alternatives| && w in Words(alternatives[i].nodes)
    decreases alternatives
  {
    if w in Words(alternatives[0].nodes) {
      i := 0;
    } else {
      i := InAnyWords(alternatives[1..], w);
      i := i + 1;
    }
  }

  lemma {:induction false} AlternativeInAnyWords(alternatives: seq<Alternative>, i: nat, w: string)
    requires i < |alternatives| && w in Words(alternatives[i].nodes)
    ensures w in AnyWords(alternatives)
    decreases alternatives
  {
    if i > 0 { AlternativeInAnyWords(alternatives[1..], i - 1, w); }
  }

  lemma HeadPieces(s: Selector)
    requires s != [] && s[0].Group? && !Splits(s[0].alternatives) && AnyChoices(s[0].alternatives) > 0
    ensures Choices(s) == AnyChoices(s[0].alternatives)
    ensures Words(s) == Product(AnyWords(s[0].alternatives), Words(s[1..]))
    ensures forall i: nat :: i < Choices(s) ==>
              Words(Pick(s, i)) == Product(AnyWords(AnyPick(s[0].alternatives, i)), Words(s[1..]))
  {
    var alternatives, rest := s[0].alternatives, s[1..];
    assert Choices(s) == AnyChoices(alternatives);
    forall i: nat | i < AnyChoices(alternatives)
      ensures Words(Pick(s, i)) == Product(AnyWords(AnyPick(alternatives, i)), Words(rest))
    {
      assert Pick(s, i) == [Group(AnyPick(alternatives, i))] + rest;
      assert Pick(s, i)[0] == Group(AnyPick(alternatives, i)) && Pick(s, i)[1..] == rest;
    }
  }

  /** A step on the first node's alternatives, or on what follows it, keeps the words of the whole. */
  lemma WordsOfHead(s: Selector, w: string)
    requires s != [] && s[0].Group? && !Splits(s[0].alternatives) && AnyChoices(s[0].alternatives) > 0
    requires forall x :: x in AnyWords(s[0].alternatives) <==> AnyPicked(s[0].alternatives, x)
    ensures w in Words(s) <==> Picked(s, w)
  {
    var alternatives, rest := s[0].alternatives, s[1..];
    HeadPieces(s);
    hide Product, Words, AnyWords, Pick, AnyPick, Choices, AnyChoices, Splits;
    if w in Words(s) {
      var x, y := Factors(AnyWords(alternatives), Words(rest), w);
      var i: nat :| i < AnyChoices(alternatives) && x in AnyWords(AnyPick(alternatives, i));
      Multiplies(AnyWords(AnyPick(alternatives, i)), Words(rest), x, y);
      assert w in Words(Pick(s, i));
    }
    if Picked(s, w) {
      var i: nat :| i < Choices(s) && w in Words(Pick(s, i));
      var x, y := Factors(AnyWords(AnyPick(alternatives, i)), Words(rest), w);
      assert AnyPicked(alternatives, x);
      Multiplies(AnyWords(alternatives), Words(rest), x, y);
    }
  }

  lemma WordsOfTail(s: Selector, w: string)
    requires s != [] && Choices(s) > 0 && Choices(s) == Choices(s[1..])
    requires forall i: nat :: i < Choices(s) ==> Pick(s, i) == [s[0]] + Pick(s[1..], i)
    requires forall x :: x in Words(s[1..]) <==> Picked(s[1..], x)
    ensures w in Words(s) <==> Picked(s, w)
  {
    var head, rest := NodeWords(s[0]), s[1..];
    forall i: nat | i < Choices(s)
      ensures Words(Pick(s, i)) == Product(head, Words(Pick(rest, i)))
    {
      assert Pick(s, i)[0] == s[0] && Pick(s, i)[1..] == Pick(rest, i);
    }
    assert Words(s) == Product(head, Words(rest));
    hide Product, Words, NodeWords, Pick, Choices;
    if w in Words(s) {
      var x, y := Factors(head, Words(rest), w);
      var i: nat :| i < Choices(rest) && y in Words(Pick(rest, i));
      Multiplies(head, Words(Pick(rest, i)), x, y);
      assert w in Words(Pick(s, i));
    }
    if Picked(s, w) {
      var i: nat :| i < Choices(s) && w in Words(Pick(s, i));
      var x, y := Factors(head, Words(Pick(rest, i)), w);
      assert Picked(rest, y);
      Multiplies(head, Words(rest), x, y);
    }
  }

  /** One step keeps the words: a word of s is a word of one of the selectors the step makes. */
  lemma {:induction false} StepKeepsWords(s: Selector)
    requires Choices(s) > 0
    ensures forall w :: w in Words(s) <==> Picked(s, w)
    decreases s
  {
    if s[0].Group? && Splits(s[0].alternatives) {
      forall w ensures w in Words(s) <==> Picked(s, w) { WordsOfSplit(s, w); }
    } else if s[0].Group? && AnyChoices(s[0].alternatives) > 0 {
      AnyStepKeepsWords(s[0].alternatives);
      forall w ensures w in Words(s) <==> Picked(s, w) { WordsOfHead(s, w); }
    } else {
      StepKeepsWords(s[1..]);
      forall w ensures w in Words(s) <==> Picked(s, w) { WordsOfTail(s, w); }
    }
  }

  lemma {:induction false} AnyStepKeepsWords(alternatives: seq<Alternative>)
    requires AnyChoices(alternatives) > 0
    ensures forall w :: w in AnyWords(alternatives) <==> AnyPicked(alternatives, w)
    decreases alternatives
  {
    var first, others := alternatives[0].nodes, alternatives[1..];
    if Choices(first) > 0 {
      StepKeepsWords(first);
      forall w ensures w in AnyWords(alternatives) <==> AnyPicked(alternatives, w) {
        AnyWordsOfFirst(alternatives, w);
      }
    } else {
      AnyStepKeepsWords(others);
      forall w ensures w in AnyWords(alternatives) <==> AnyPicked(alternatives, w) {
        AnyWordsOfOthers(alternatives, w);
      }
    }
  }

  lemma AnyWordsOfFirst(alternatives: seq<Alternative>, w: string)
    requires alternatives != [] && Choices(alternatives[0].nodes) > 0
    requires w in Words(alternatives[0].nodes) <==> Picked(alternatives[0].nodes, w)
    ensures w in AnyWords(alternatives) <==> AnyPicked(alternatives, w)
  {
    var first, others := alternatives[0].nodes, alternatives[1..];
    forall i: nat | i < Choices(first)
      ensures AnyWords(AnyPick(alternatives, i)) == Words(Pick(first, i)) + AnyWords(others)
    {
      assert AnyPick(alternatives, i)[0].nodes == Pick(first, i) && AnyPick(alternatives, i)[1..] == others;
    }
    if w in Words(first) {
      var i: nat :| i < Choices(first) && w in Words(Pick(first, i));
      assert w in AnyWords(AnyPick(alternatives, i));
    } else if w in AnyWords(others) {
      assert w in AnyWords(AnyPick(alternatives, 0));
    }
  }

  lemma AnyWordsOfOthers(alternatives: seq<Alternative>, w: string)
    requires alternatives != [] && Choices(alternatives[0].nodes) == 0 && AnyChoices(alternatives) > 0
    requires w in AnyWords(alternatives[1..]) <==> AnyPicked(alternatives[1..], w)
    ensures w in AnyWords(alternatives) <==> AnyPicked(alternatives, w)
  {
    var first, others := alternatives[0].nodes, alternatives[1..];
    forall i: nat | i < AnyChoices(others)
      ensures AnyWords(AnyPick(alternatives, i)) == Words(first) + AnyWords(AnyPick(others, i))
    {
      assert AnyPick(alternatives, i)[0].nodes == first && AnyPick(alternatives, i)[1..] == AnyPick(others, i);
    }
    if w in Words(first) {
      assert w in AnyWords(AnyPick(alternatives, 0));
    } else if w in AnyWords(others) {
      var i: nat :| i < AnyChoices(others) && w in AnyWords(AnyPick(others, i));
      assert w in AnyWords(AnyPick(alternatives, i));
    }
  }

  // ---------------------------------------------------------------- the whole expansion

  /** expandBraceAlternatives: None when more than the limit would be needed on the way. */
  function Expand(s: Selector): Option<seq<Selector>>
    decreases Groups(s), 1, 0
  {
    if Choices(s) == 0 then Some([s]) else ExpandFrom(s, 0, [])
  }

  /** The loop over the alternatives of the leftmost group, from the i-th on. */
  function ExpandFrom(s: Selector, i: nat, expanded: seq<Selector>): Option<seq<Selector>>
    requires i <= Choices(s)
    decreases Groups(s), 0, Choices(s) - i
  {
    if i == Choices(s) then Some(expanded)
    else
      PickShrinks(s, i);
      match Expand(Pick(s, i))
      case None => None
      case Some(nested) =>
        if |expanded + nested| > EXPANSION_LIMIT then None else ExpandFrom(s, i + 1, expanded + nested)
  }

  method ExpandBraceAlternatives(s: Selector) returns (result: Option<seq<Selector>>)
    ensures result == Expand(s)
    decreases Groups(s)
  {
    if Choices(s) == 0 {
      return Some([s]);
    }
    var expanded: seq<Selector> := [];
    var i := 0;
    while i < Choices(s)
      invariant i <= Choices(s)
      invariant Expand(s) == ExpandFrom(s, i, expanded)
    {
      PickShrinks(s, i);
      var nested := ExpandBraceAlternatives(Pick(s, i));
      if nested.None? {
        return None;
      }
      expanded := expanded + nested.value;
      if |expanded| > EXPANSION_LIMIT {
        return None;
      }
      i := i + 1;
    }
    result := Some(expanded);
  }

  ghost predicate SomeWords(list: seq<Selector>, w: string) {
    exists t :: t in list && w in Words(t)
  }

  /** What a successful expansion returns: nothing left to split, and exactly the words of s. */
  ghost predicate Faithful(list: seq<Selector>, s: Selector) {
    && (forall t :: t in list ==> Choices(t) == 0)
    && (forall w :: w in Words(s) <==> SomeWords(list, w))
  }

  ghost predicate PickedFrom(s: Selector, i: nat, w: string) {
    exists k: nat :: i <= k < Choices(s) && w in Words(Pick(s, k))
  }

  lemma {:induction false} ExpansionKeepsWords(s: Selector)
    requires Expand(s).Some?
    ensures Faithful(Expand(s).value, s)
    ensures |Expand(s).value| <= EXPANSION_LIMIT
    decreases Groups(s), 1, 0
  {
    var list := Expand(s).value;
    if Choices(s) == 0 {
      assert s in list;
    } else {
      ExpansionFromKeeps(s, 0, []);
      StepKeepsWords(s);
      forall w ensures w in Words(s) <==> SomeWords(list, w) {
        assert !SomeWords([], w);
        assert Picked(s, w) <==> PickedFrom(s, 0, w);
      }
    }
  }

  lemma {:induction false} ExpansionFromKeeps(s: Selector, i: nat, expanded: seq<Selector>)
    requires i <= Choices(s) && |expanded| <= EXPANSION_LIMIT && ExpandFrom(s, i, expanded).Some?
    requires forall t :: t in expanded ==> Choices(t) == 0
    ensures var list := ExpandFrom(s, i, expanded).value;
            && |list| <= EXPANSION_LIMIT
            && (forall t :: t in list ==> Choices(t) == 0)
            && forall w :: SomeWords(list, w) <==> SomeWords(expanded, w) || PickedFrom(s, i, w)
    decreases Groups(s), 0, Choices(s) - i
  {
    if i < Choices(s) {
      PickShrinks(s, i);
      ExpansionKeepsWords(Pick(s, i));
      var nested := Expand(Pick(s, i)).value;
      ExpansionFromKeeps(s, i + 1, expanded + nested);
      assert ExpandFrom(s, i, expanded) == ExpandFrom(s, i + 1, expanded + nested);
      forall w ensures SomeWords(expanded + nested, w) || PickedFrom(s, i + 1, w)
                  <==> SomeWords(expanded, w) || PickedFrom(s, i, w)
      {
        SomeWordsConcat(expanded, nested, w);
        assert w in Words(Pick(s, i)) <==> SomeWords(nested, w);
        PickedNext(s, i, w);
      }
    }
  }

  lemma PickedNext(s: Selector, i: nat, w: string)
    requires i < Choices(s)
    ensures PickedFrom(s, i, w) <==> w in Words(Pick(s, i)) || PickedFrom(s, i + 1, w)
  {
    hide Words, Pick, Choices;
    if PickedFrom(s, i, w) && w !in Words(Pick(s, i)) {
      var k: nat :| i <= k < Choices(s) && w in Words(Pick(s, k));
      assert i + 1 <= k;
    }
  }

  lemma SomeWordsConcat(a: seq<Selector>, b: seq<Selector>, w: string)
    ensures SomeWords(a + b, w) <==> SomeWords(a, w) || SomeWords(b, w)
  {
    if SomeWords(a, w) {
      var t :| t in a && w in Words(t);
      assert t in a + b;
    }
    if SomeWords(b, w) {
      var t :| t in b && w in Words(t);
      assert t in a + b;
    }
  }

  // ---------------------------------------------------------------- selectors whose groups all have a comma

  predicate Branching(s: Selector)
    decreases s
  {
    s != [] ==>
      && (s[0].Group? ==> |s[0].alternatives| >= 2 && AllBranching(s[0].alternatives))
      && Branching(s[1..])
  }

  predicate AllBranching(alternatives: seq<Alternative>)
    decreases alternatives
  {
    alternatives != [] ==> Branching(alternatives[0].nodes) && AllBranching(alternatives[1..])
  }

  lemma {:induction false} BranchingConcat(s: Selector, t: Selector)
    requires Branching(s) && Branching(t)
    ensures Branching(s + t)
    decreases s
  {
    if s == [] {
      assert s + t == t;
    } else {
      assert (s + t)[0] == s[0] && (s + t)[1..] == s[1..] + t;
      BranchingConcat(s[1..], t);
    }
  }

  lemma {:induction false} PlainBranches(s: Selector)
    requires IsPlain(s)
    ensures Branching(s)
    decreases s
  {
    if s != [] { PlainBranches(s[1..]); }
  }

  lemma {:induction false} PickBranches(s: Selector, i: nat)
    requires Branching(s) && i < Choices(s)
    ensures Branching(Pick(s, i))
    decreases s
  {
    match s[0]
    case Ch(_) =>
      PickBranches(s[1..], i);
      assert Pick(s, i)[1..] == Pick(s[1..], i);
    case Group(alternatives) =>
      if Splits(alternatives) {
        PlainBranches(alternatives[i].nodes);
        BranchingConcat(alternatives[i].nodes, s[1..]);
      } else if AnyChoices(alternatives) > 0 {
        AnyPickBranches(alternatives, i);
        assert Pick(s, i)[0] == Group(AnyPick(alternatives, i)) && Pick(s, i)[1..] == s[1..];
      } else {
        PickBranches(s[1..], i);
        assert Pick(s, i)[0] == s[0] && Pick(s, i)[1..] == Pick(s[1..], i);
      }
  }

  lemma {:induction false} AnyPickBranches(alternatives: seq<Alternative>, i: nat)
    requires AllBranching(alternatives) && i < AnyChoices(alternatives)
    ensures AllBranching(AnyPick(alternatives, i)) && |AnyPick(alternatives, i)| == |alternatives|
    decreases alternatives
  {
    if Choices(alternatives[0].nodes) > 0 {
      PickBranches(alternatives[0].nodes, i);
      assert AnyPick(alternatives, i)[1..] == alternatives[1..];
    } else {
      AnyPickBranches(alternatives[1..], i);
      assert AnyPick(alternatives, i)[1..] == AnyPick(alternatives[1..], i);
    }
  }

  lemma {:induction false} NothingToSplit(s: Selector)
    requires Branching(s) && Choices(s) == 0
    ensures IsPlain(s)
    decreases s
  {
    if s != [] {
      NothingToSplit(s[1..]);
      if s[0].Group? { NothingToSplitIn(s[0].alternatives); }
    }
  }

  lemma {:induction false} NothingToSplitIn(alternatives: seq<Alternative>)
    requires AllBranching(alternatives) && AnyChoices(alternatives) == 0
    ensures forall i :: 0 <= i < |alternatives| ==> IsPlain(alternatives[i].nodes)
    decreases alternatives
  {
    if alternatives != [] {
      NothingToSplit(alternatives[0].nodes);
      NothingToSplitIn(alternatives[1..]);
      forall i | 0 <= i < |alternatives| ensures IsPlain(alternatives[i].nodes) {
        if i > 0 { assert alternatives[i] == alternatives[1..][i - 1]; }
      }
    }
  }

  /** If every group has a comma, a successful expansion leaves no group. */
  lemma {:induction false} ExpansionIsPlain(s: Selector)
    requires Branching(s) && Expand(s).Some?
    ensures forall t :: t in Expand(s).value ==> IsPlain(t)
    decreases Groups(s), 1, 0
  {
    if Choices(s) == 0 {
      NothingToSplit(s);
    } else {
      ExpansionFromIsPlain(s, 0, []);
    }
  }

  lemma {:induction false} ExpansionFromIsPlain(s: Selector, i: nat, expanded: seq<Selector>)
    requires Branching(s) && i <= Choices(s) && ExpandFrom(s, i, expanded).Some?
    requires forall t :: t in expanded ==> IsPlain(t)
    ensures forall t :: t in ExpandFrom(s, i, expanded).value ==> IsPlain(t)
    decreases Groups(s), 0, Choices(s) - i
  {
    if i < Choices(s) {
      PickShrinks(s, i);
      PickBranches(s, i);
      ExpansionIsPlain(Pick(s, i));
      ExpansionFromIsPlain(s, i + 1, expanded + Expand(Pick(s, i)).value);
    }
  }

  lemma {:induction false} PlainHasOneWord(s: Selector)
    requires IsPlain(s)
    ensures Words(s) == {Text(s)}
    decreases s
  {
    if s == [] {
      assert Text(s) == [];
    } else {
      PlainHasOneWord(s[1..]);
      assert Text(s) == [s[0].c] + Text(s[1..]);
      assert Product({[s[0].c]}, {Text(s[1..])}) == {[s[0].c] + Text(s[1..])};
    }
  }
}

/**
  Sharding of the test inventory (scripts/testing/test-shard.ts): files are taken longest first
  and each goes to the shard with the smallest load so far. Every CI job runs the same
  computation for its own shard index, so the results must fit together without communication.

  Durations are exact reals. `collate` is the locale's collation key behind `localeCompare`.
*/
module TestShard {
  import opened Sorting
  import opened ListScheduling

  datatype Number = Finite(value: real) | NotFinite

  datatype ShardError = ShardOutOfRange | DuplicatePaths | InvalidDuration

  datatype Result<+T> = Ok(value: T) | Err(error: ShardError)

  datatype Duration = Duration(file: string, value: Number)

  type Cost = string -> real
  type Collation = string -> int

  // ---------------------------------------------------------------- weights and orders

  predicate IsInteger(n: Number) {
    n.Finite? && n.value.Floor as real == n.value
  }

  predicate Usable(n: Number) {
    n.Finite? && n.value > 0.0
  }

  function Recorded(weights: seq<Duration>, file: string): seq<Number> {
    if weights == [] then []
    else if weights[0].file == file then [weights[0].value]
    else Recorded(weights[1..], file)
  }

  function Measured(weights: seq<Duration>): seq<real> {
    if weights == [] then []
    else (if Usable(weights[0].value) then [weights[0].value.value] else []) + Measured(weights[1..])
  }

  /** The median measured duration stands in for files without a record. */
  function Baseline(weights: seq<Duration>): real {
    var measured := SortBy((a: real, b: real) => a <= b, Measured(weights));
    if measured == [] then 1.0 else assert |measured| / 2 < |measured|; measured[|measured| / 2]
  }

  function Weight(weights: seq<Duration>, file: string): Result<real> {
    var recorded := Recorded(weights, file);
    var value := if recorded == [] then Finite(Baseline(weights)) else recorded[0];
    if Usable(value) then Ok(value.value) else Err(InvalidDuration)
  }

  function CostOf(weights: seq<Duration>): Cost {
    (file: string) => var w := Weight(weights, file); if w.Ok? then w.value else 0.0
  }

  predicate Longest(cost: Cost, collate: Collation, a: string, b: string) {
    cost(a) > cost(b) || (cost(a) == cost(b) && collate(a) <= collate(b))
  }

  function LongestFirst(cost: Cost, collate: Collation): (string, string) -> bool {
    (a: string, b: string) => Longest(cost, collate, a, b)
  }

  predicate CodeUnits(a: string, b: string) {
    a == [] || (b != [] && (a[0] < b[0] || (a[0] == b[0] && CodeUnits(a[1..], b[1..]))))
  }

  // ---------------------------------------------------------------- the selection

  ghost function Costs(files: seq<string>, cost: Cost): (w: seq<real>)
    ensures |w| == |files| && forall i :: 0 <= i < |w| ==> w[i] == cost(files[i])
  {
    if files == [] then [] else Costs(files[..|files| - 1], cost) + [cost(files[|files| - 1])]
  }

  /** The files of machine j under the assignment a, in order. */
  ghost function Picked(files: seq<string>, a: seq<nat>, j: nat): seq<string>
    requires |a| == |files|
  {
    if files == [] then []
    else
      var n := |files| - 1;
      Picked(files[..n], a[..n], j) + (if a[n] == j then [files[n]] else [])
  }

  /** Shard j of m, for given costs and processing order. */
  ghost function ShardOf(
    files: seq<string>, j: nat, m: nat, cost: Cost, leq: (string, string) -> bool): seq<string>
    requires 0 < m
  {
    var ordered := SortBy(leq, files);
    SortBy(CodeUnits, Picked(ordered, Choice(Costs(ordered, cost), m), j))
  }

  ghost function Shard(
    files: seq<string>, j: nat, m: nat, weights: seq<Duration>, collate: Collation): seq<string>
    requires 0 < m
  {
    ShardOf(files, j, m, CostOf(weights), LongestFirst(CostOf(weights), collate))
  }

  predicate ValidShard(shard: Number, shards: Number) {
    && IsInteger(shards) && shards.value >= 1.0
    && IsInteger(shard) && 0.0 <= shard.value < shards.value
  }

  ghost predicate AllWeighed(files: seq<string>, weights: seq<Duration>) {
    forall f :: f in files ==> Weight(weights, f).Ok?
  }

  ghost function Selection(
    files: seq<string>, shard: Number, shards: Number, weights: seq<Duration>, collate: Collation)
    : Result<seq<string>>
  {
    if !ValidShard(shard, shards) then Err(ShardOutOfRange)
    else if !Distinct(files) then Err(DuplicatePaths)
    else if !AllWeighed(files, weights) then Err(InvalidDuration)
    else Ok(Shard(files, shard.value.Floor, shards.value.Floor, weights, collate))
  }

  method ValidShardIndex(shard: Number, shards: Number) returns (index: nat, count: nat)
    requires ValidShard(shard, shards)
    ensures index == shard.value.Floor && count == shards.value.Floor && index < count
  {
    index, count := shard.value.Floor, shards.value.Floor;
  }

  /** One job's computation of its own shard. */
  method SelectTestShard(
    files: seq<string>, shard: Number, shards: Number, weights: seq<Duration>, collate: Collation)
    returns (r: Result<seq<string>>)
    ensures r == Selection(files, shard, shards, weights, collate)
  {
    if !IsInteger(shards) || shards.value < 1.0 || !IsInteger(shard) ||
       shard.value < 0.0 || shard.value >= shards.value {
      return Err(ShardOutOfRange);
    }
    var index, count := ValidShardIndex(shard, shards);
    SetSizeTestsDistinct(files);
    if |set f | f in files| != |files| {
      return Err(DuplicatePaths);
    }
    var ordered := SortBy(LongestFirst(CostOf(weights), collate), files);
    SortKeepsElements(LongestFirst(CostOf(weights), collate), files);
    SameElements(ordered, files);
    var bins := FillBins(ordered, count, weights, Costs(ordered, CostOf(weights)));
    assert bins.Ok? <==> AllWeighed(ordered, weights);
    if bins.Err? {
      return Err(InvalidDuration);
    }
    return Ok(SortBy(CodeUnits, bins.value[index]));
  }

  /** What the bins hold once the first i files have been placed. */
  ghost predicate Filled(
    loads: array<real>, bins: array<seq<string>>, ordered: seq<string>, w: seq<real>, a: seq<nat>, i: nat)
    requires i <= |w| == |a| == |ordered|
    reads loads, bins
  {
    && (forall j :: 0 <= j < loads.Length ==> loads[j] == Load(w[..i], a[..i], j))
    && (forall j :: 0 <= j < bins.Length ==> bins[j] == Picked(ordered[..i], a[..i], j))
  }

  method FillBins(ordered: seq<string>, m: nat, weights: seq<Duration>, ghost w: seq<real>)
    returns (r: Result<seq<seq<string>>>)
    requires 0 < m && |w| == |ordered|
    requires forall i :: 0 <= i < |w| && Weight(weights, ordered[i]).Ok? ==>
               w[i] == Weight(weights, ordered[i]).value
    ensures r.Ok? <==> forall i :: 0 <= i < |ordered| ==> Weight(weights, ordered[i]).Ok?
    ensures r.Ok? ==> |r.value| == m
    ensures r.Ok? ==> forall j :: 0 <= j < m ==> r.value[j] == Picked(ordered, Choice(w, m), j)
    ensures r.Err? ==> r.error == InvalidDuration
  {
    var loads := new real[m](_ => 0.0);
    var bins := new seq<string>[m](_ => []);
    ghost var a := Choice(w, m);
    for i := 0 to |ordered|
      invariant forall k :: 0 <= k < i ==> Weight(weights, ordered[k]).Ok?
      invariant Filled(loads, bins, ordered, w, a, i)
    {
      var weight := Weight(weights, ordered[i]);
      if weight.Err? {
        return Err(InvalidDuration);
      }
      ChoicePrefix(w, m, i);
      Place(loads, bins, ordered[i], weight.value, ordered, w, a, i);
    }
    assert ordered[..|ordered|] == ordered && a[..|ordered|] == a;
    return Ok(bins[..]);
  }

  method Place(
    loads: array<real>, bins: array<seq<string>>, file: string, weight: real,
    ghost ordered: seq<string>, ghost w: seq<real>, ghost a: seq<nat>, ghost i: nat)
    requires i < |w| == |a| == |ordered| && ordered[i] == file && w[i] == weight
    requires loads.Length == bins.Length > 0
    requires Filled(loads, bins, ordered, w, a, i)
    requires a[i] == Least(w[..i], a[..i], loads.Length)
    modifies loads, bins
    ensures Filled(loads, bins, ordered, w, a, i + 1)
  {
    var target := LeastLoaded(loads, w[..i], a[..i]);
    PickedNext(ordered, a, i);
    LoadNext(w, a, i);
    bins[target] := bins[target] + [file];
    loads[target] := loads[target] + weight;
  }

  method LeastLoaded(loads: array<real>, ghost w: seq<real>, ghost a: seq<nat>) returns (target: nat)
    requires loads.Length > 0 && |a| == |w|
    requires forall j :: 0 <= j < loads.Length ==> loads[j] == Load(w, a, j)
    ensures target == Least(w, a, loads.Length)
  {
    target := 0;
    for candidate := 1 to loads.Length
      invariant target < loads.Length
      invariant target == Least(w, a, candidate)
    {
      if loads[candidate] < loads[target] {
        target := candidate;
      }
    }
  }

  lemma PickedNext(files: seq<string>, a: seq<nat>, i: nat)
    requires |a| == |files| && i < |a|
    ensures forall j: nat :: Picked(files[..i + 1], a[..i + 1], j)
                          == Picked(files[..i], a[..i], j) + (if a[i] == j then [files[i]] else [])
  {
    assert files[..i + 1][..i] == files[..i] && a[..i + 1][..i] == a[..i];
  }

  lemma LoadNext(w: seq<real>, a: seq<nat>, i: nat)
    requires |a| == |w| && i < |a|
    ensures forall j: nat :: Load(w[..i + 1], a[..i + 1], j)
                          == Load(w[..i], a[..i], j) + (if a[i] == j then w[i] else 0.0)
  {
    assert w[..i + 1][..i] == w[..i] && a[..i + 1][..i] == a[..i];
  }

  lemma SameElements<T>(s: seq<T>, t: seq<T>)
    requires multiset(s) == multiset(t)
    ensures forall x :: x in s <==> x in t
  {
    assert forall x :: x in s <==> x in multiset(s);
  }

  /** The choice made after i files is the one the final assignment records. */
  lemma {:induction false} ChoicePrefix(w: seq<real>, m: nat, i: nat)
    requires 0 < m && i < |w|
    ensures Choice(w, m)[..i] == Choice(w[..i], m)
    ensures Choice(w, m)[i] == Least(w[..i], Choice(w[..i], m), m)
  {
    var n := |w| - 1;
    assert Choice(w, m)[..n] == Choice(w[..n], m);
    if i < n {
      ChoicePrefix(w[..n], m, i);
      assert w[..n][..i] == w[..i];
    }
  }

  // ---------------------------------------------------------------- the shards partition the inventory

  ghost function Merge(parts: seq<multiset<string>>): multiset<string> {
    if parts == [] then multiset{} else Merge(parts[..|parts| - 1]) + parts[|parts| - 1]
  }

  /** What the first k of the m separate computations select. */
  ghost function Shards(
    files: seq<string>, k: nat, m: nat, cost: Cost, leq: (string, string) -> bool)
    : (parts: seq<multiset<string>>)
    requires 0 < m
    ensures |parts| == k
    ensures forall j: nat :: j < k ==> parts[j] == multiset(ShardOf(files, j, m, cost, leq))
  {
    if k == 0 then [] else Shards(files, k - 1, m, cost, leq) + [multiset(ShardOf(files, k - 1, m, cost, leq))]
  }

  ghost function PickedBag(files: seq<string>, a: seq<nat>, j: nat): multiset<string>
    requires |a| == |files|
  {
    multiset(Picked(files, a, j))
  }

  ghost function PickedTogether(files: seq<string>, a: seq<nat>, k: nat): multiset<string>
    requires |a| == |files|
  {
    if k == 0 then multiset{}
    else PickedTogether(files, a, k - 1) + PickedBag(files, a, k - 1)
  }

  function Once(added: bool, file: string, x: string): nat {
    if added && x == file then 1 else 0
  }

  lemma PickedElements(files: seq<string>, a: seq<nat>, j: nat, x: string)
    requires |a| == |files| > 0
    ensures var n := |files| - 1;
            PickedBag(files, a, j)[x] == PickedBag(files[..n], a[..n], j)[x] + Once(a[n] == j, files[n], x)
  {
    var n := |files| - 1;
    var front := Picked(files[..n], a[..n], j);
    assert multiset(front + [files[n]]) == multiset(front) + multiset{files[n]};
    assert front + [] == front;
  }

  /** In shard j the files with one more file are the others and that file if the shard is its own. */
  ghost predicate AddsOnce(
    files: seq<string>, a: seq<nat>, front: seq<string>, ends: seq<nat>, file: string, owner: nat, j: nat, x: string)
    requires |a| == |files| && |ends| == |front|
  {
    PickedBag(files, a, j)[x] == PickedBag(front, ends, j)[x] + Once(owner == j, file, x)
  }

  lemma TogetherNext(files: seq<string>, a: seq<nat>, k: nat, x: string)
    requires |a| == |files| && k > 0
    ensures PickedTogether(files, a, k)[x] == PickedTogether(files, a, k - 1)[x] + PickedBag(files, a, k - 1)[x]
  {
    hide PickedBag;
  }

  ghost predicate TogetherAddsOnce(
    files: seq<string>, a: seq<nat>, front: seq<string>, ends: seq<nat>, file: string, owner: nat, k: nat, x: string)
    requires |a| == |files| && |ends| == |front|
  {
    PickedTogether(files, a, k)[x] == PickedTogether(front, ends, k)[x] + Once(owner < k, file, x)
  }

  lemma AddsOnceNext(
    files: seq<string>, a: seq<nat>, front: seq<string>, ends: seq<nat>, file: string, owner: nat, k: nat, x: string)
    requires |a| == |files| && |ends| == |front| && k > 0
    requires AddsOnce(files, a, front, ends, file, owner, k - 1, x)
    requires TogetherAddsOnce(files, a, front, ends, file, owner, k - 1, x)
    ensures TogetherAddsOnce(files, a, front, ends, file, owner, k, x)
  {
    TogetherNext(files, a, k, x);
    TogetherNext(front, ends, k, x);
    hide PickedBag, PickedTogether;
  }

  lemma {:induction false} OneMorePicked(
    files: seq<string>, a: seq<nat>, front: seq<string>, ends: seq<nat>, file: string, owner: nat, k: nat, x: string)
    requires |a| == |files| && |ends| == |front|
    requires forall j: nat :: j < k ==> AddsOnce(files, a, front, ends, file, owner, j, x)
    ensures TogetherAddsOnce(files, a, front, ends, file, owner, k, x)
  {
    hide *;
    if k == 0 {
      AddsNothing(files, a, front, ends, file, owner, x);
    } else {
      OneMorePicked(files, a, front, ends, file, owner, k - 1, x);
      AddsOnceNext(files, a, front, ends, file, owner, k, x);
    }
  }

  lemma AddsNothing(
    files: seq<string>, a: seq<nat>, front: seq<string>, ends: seq<nat>, file: string, owner: nat, x: string)
    requires |a| == |files| && |ends| == |front|
    ensures TogetherAddsOnce(files, a, front, ends, file, owner, 0, x)
  {
    assert PickedTogether(files, a, 0) == multiset{} == PickedTogether(front, ends, 0);
  }

  lemma LastFilePicked(files: seq<string>, a: seq<nat>, k: nat, x: string)
    requires |a| == |files| > 0
    ensures var n := |files| - 1;
            PickedTogether(files, a, k)[x] == PickedTogether(files[..n], a[..n], k)[x] + Once(a[n] < k, files[n], x)
  {
    var n := |files| - 1;
    hide PickedBag, Once;
    forall j: nat | j < k ensures AddsOnce(files, a, files[..n], a[..n], files[n], a[n], j, x) {
      PickedElements(files, a, j, x);
    }
    OneMorePicked(files, a, files[..n], a[..n], files[n], a[n], k, x);
  }

  lemma CountLast(files: seq<string>, x: string)
    requires files != []
    ensures multiset(files)[x] == multiset(files[..|files| - 1])[x] + Once(true, files[|files| - 1], x)
  {
    var n := |files| - 1;
    assert files == files[..n] + [files[n]];
  }

  lemma {:induction false} PickedCount(files: seq<string>, a: seq<nat>, m: nat, x: string)
    requires |a| == |files| && Uses(a, m)
    ensures PickedTogether(files, a, m)[x] == multiset(files)[x]
  {
    if files == [] {
      NothingPicked(m);
    } else {
      var n := |files| - 1;
      hide PickedTogether, Once;
      LastFilePicked(files, a, m, x);
      PickedCount(files[..n], a[..n], m, x);
      CountLast(files, x);
    }
  }

  lemma PickedPartition(files: seq<string>, a: seq<nat>, m: nat)
    requires |a| == |files| && Uses(a, m)
    ensures PickedTogether(files, a, m) == multiset(files)
  {
    forall x ensures PickedTogether(files, a, m)[x] == multiset(files)[x] {
      PickedCount(files, a, m, x);
    }
  }

  lemma {:induction false} NothingPicked(m: nat)
    ensures PickedTogether([], [], m) == multiset{}
  {
    if m > 0 { NothingPicked(m - 1); }
  }

  lemma {:induction false} MergeIsTogether(parts: seq<multiset<string>>, files: seq<string>, a: seq<nat>)
    requires |a| == |files|
    requires forall j :: 0 <= j < |parts| ==> parts[j] == PickedBag(files, a, j)
    ensures Merge(parts) == PickedTogether(files, a, |parts|)
  {
    if parts != [] {
      var front := parts[..|parts| - 1];
      assert Merge(parts) == Merge(front) + parts[|parts| - 1];
      assert PickedTogether(files, a, |parts|) == PickedTogether(files, a, |front|) + parts[|parts| - 1];
      hide PickedBag, PickedTogether, Merge;
      MergeIsTogether(front, files, a);
    }
  }

  lemma TogetherIsPicked(
    files: seq<string>, k: nat, m: nat, cost: Cost, leq: (string, string) -> bool)
    requires 0 < m
    ensures var ordered := SortBy(leq, files);
            Merge(Shards(files, k, m, cost, leq))
              == PickedTogether(ordered, Choice(Costs(ordered, cost), m), k)
  {
    var ordered := SortBy(leq, files);
    var choice := Choice(Costs(ordered, cost), m);
    var parts := Shards(files, k, m, cost, leq);
    forall j | 0 <= j < k ensures parts[j] == PickedBag(ordered, choice, j) {
      SortKeepsElements(CodeUnits, Picked(ordered, choice, j));
    }
    MergeIsTogether(parts, ordered, choice);
  }

  /** The independently computed shards 0..m-1 hold every file, with its multiplicity, and nothing else. */
  lemma ShardsPartition(files: seq<string>, m: nat, weights: seq<Duration>, collate: Collation)
    requires 0 < m
    ensures Merge(Shards(files, m, m, CostOf(weights), LongestFirst(CostOf(weights), collate)))
         == multiset(files)
  {
    var cost := CostOf(weights);
    var leq := LongestFirst(cost, collate);
    var ordered := SortBy(leq, files);
    TogetherIsPicked(files, m, m, cost, leq);
    PickedPartition(ordered, Choice(Costs(ordered, cost), m), m);
    SortKeepsElements(leq, files);
  }

  /** A file of a duplicate-free inventory is run by exactly one of the m jobs. */
  lemma ExactlyOneShard(files: seq<string>, m: nat, weights: seq<Duration>, collate: Collation, file: string)
    returns (owner: nat)
    requires 0 < m && Distinct(files) && file in files
    ensures owner < m
    ensures forall j: nat :: j < m ==> (file in Shard(files, j, m, weights, collate) <==> j == owner)
  {
    var cost := CostOf(weights);
    var leq := LongestFirst(cost, collate);
    ShardsPartition(files, m, weights, collate);
    OnceInDistinct(files, file);
    var parts := Shards(files, m, m, cost, leq);
    owner := FindOwner(parts, file);
    forall j: nat | j < m ensures file in Shard(files, j, m, weights, collate) <==> j == owner {
      assert file in Shard(files, j, m, weights, collate) <==> file in parts[j];
    }
  }

  lemma {:induction false} OnceInDistinct(files: seq<string>, file: string)
    requires Distinct(files) && file in files
    ensures multiset(files)[file] == 1
  {
    var n := |files| - 1;
    assert files == files[..n] + [files[n]];
    if file == files[n] {
      assert file !in files[..n];
    } else {
      OnceInDistinct(files[..n], file);
    }
  }

  lemma {:induction false} FindOwner(parts: seq<multiset<string>>, file: string) returns (owner: nat)
    requires Merge(parts)[file] == 1
    ensures owner < |parts|
    ensures forall j: nat :: j < |parts| ==> (file in parts[j] <==> j == owner)
  {
    var n := |parts| - 1;
    if parts[n][file] == 0 {
      owner := FindOwner(parts[..n], file);
    } else {
      owner := n;
      NoOwner(parts[..n], file);
    }
  }

  lemma {:induction false} NoOwner(parts: seq<multiset<string>>, file: string)
    requires Merge(parts)[file] == 0
    ensures forall j: nat :: j < |parts| ==> file !in parts[j]
  {
    if parts != [] { NoOwner(parts[..|parts| - 1], file); }
  }

  // ---------------------------------------------------------------- how far from the best assignment

  /** Time that machine j needs for `files` when file f runs on machine assign(f). */
  ghost function Time(files: seq<string>, cost: Cost, assign: string -> nat, j: nat): real {
    if files == [] then 0.0
    else (if assign(files[0]) == j then cost(files[0]) else 0.0) + Time(files[1..], cost, assign, j)
  }

  ghost function Anywhere(file: string): nat { 0 }

  ghost function TotalTime(files: seq<string>, cost: Cost): real {
    Time(files, cost, Anywhere, 0)
  }

  lemma {:induction false} TimeOfInsert(
    leq: (string, string) -> bool, x: string, s: seq<string>, cost: Cost, assign: string -> nat, j: nat)
    ensures Time(Insert(leq, x, s), cost, assign, j) == Time([x] + s, cost, assign, j)
  {
    if s != [] && !leq(x, s[0]) {
      TimeOfInsert(leq, x, s[1..], cost, assign, j);
      assert ([s[0]] + Insert(leq, x, s[1..]))[1..] == Insert(leq, x, s[1..]);
      assert ([x] + s)[1..] == s && ([x] + s[1..])[1..] == s[1..];
    }
  }

  lemma {:induction false} TimeOfSort(
    leq: (string, string) -> bool, s: seq<string>, cost: Cost, assign: string -> nat, j: nat)
    ensures Time(SortBy(leq, s), cost, assign, j) == Time(s, cost, assign, j)
  {
    if s != [] {
      TimeOfSort(leq, s[1..], cost, assign, j);
      TimeOfInsert(leq, s[0], SortBy(leq, s[1..]), cost, assign, j);
      assert ([s[0]] + SortBy(leq, s[1..]))[1..] == SortBy(leq, s[1..]);
    }
  }

  lemma {:induction false} TimeOfAppend(
    s: seq<string>, x: string, cost: Cost, assign: string -> nat, j: nat)
    ensures Time(s + [x], cost, assign, j)
         == Time(s, cost, assign, j) + (if assign(x) == j then cost(x) else 0.0)
  {
    if s != [] {
      TimeOfAppend(s[1..], x, cost, assign, j);
      assert (s + [x])[1..] == s[1..] + [x];
    }
  }

  ghost function Positions(files: seq<string>, assign: string -> nat): (a: seq<nat>)
    ensures |a| == |files| && forall i :: 0 <= i < |a| ==> a[i] == assign(files[i])
  {
    seq(|files|, i requires 0 <= i < |files| => assign(files[i]))
  }

  lemma {:induction false} TimeIsLoad(files: seq<string>, cost: Cost, assign: string -> nat, j: nat)
    ensures Load(Costs(files, cost), Positions(files, assign), j) == Time(files, cost, assign, j)
  {
    if files != [] {
      var n := |files| - 1;
      TimeIsLoad(files[..n], cost, assign, j);
      TimeOfAppend(files[..n], files[n], cost, assign, j);
      assert files[..n] + [files[n]] == files;
      assert Costs(files, cost)[..n] == Costs(files[..n], cost);
      assert Positions(files, assign)[..n] == Positions(files[..n], assign);
    }
  }

  lemma {:induction false} TotalTimeIsSum(files: seq<string>, cost: Cost)
    ensures Sum(Costs(files, cost)) == TotalTime(files, cost)
  {
    if files != [] {
      var n := |files| - 1;
      TotalTimeIsSum(files[..n], cost);
      TimeOfAppend(files[..n], files[n], cost, Anywhere, 0);
      assert files[..n] + [files[n]] == files;
      assert Costs(files, cost)[..n] == Costs(files[..n], cost);
    }
  }

  lemma {:induction false} PickedTime(files: seq<string>, cost: Cost, a: seq<nat>, j: nat)
    requires |a| == |files|
    ensures TotalTime(Picked(files, a, j), cost) == Load(Costs(files, cost), a, j)
  {
    if files != [] {
      var n := |files| - 1;
      PickedTime(files[..n], cost, a[..n], j);
      assert Picked(files[..n], a[..n], j) + [] == Picked(files[..n], a[..n], j);
      TimeOfAppend(Picked(files[..n], a[..n], j), files[n], cost, Anywhere, 0);
      assert Costs(files, cost)[..n] == Costs(files[..n], cost);
      assert Picked(files, a, j) == Picked(files[..n], a[..n], j) + (if a[n] == j then [files[n]] else []);
    }
  }

  lemma ShardTime(files: seq<string>, j: nat, m: nat, cost: Cost, leq: (string, string) -> bool)
    requires 0 < m
    ensures var w := Costs(SortBy(leq, files), cost);
            TotalTime(ShardOf(files, j, m, cost, leq), cost) == Load(w, Choice(w, m), j)
  {
    var ordered := SortBy(leq, files);
    var a := Choice(Costs(ordered, cost), m);
    TimeOfSort(CodeUnits, Picked(ordered, a, j), cost, Anywhere, 0);
    PickedTime(ordered, cost, a, j);
  }

  lemma OrderedCosts(files: seq<string>, cost: Cost, leq: (string, string) -> bool, longest: real)
    requires TotalPreorder(leq) && forall a, b :: leq(a, b) ==> cost(a) >= cost(b)
    requires forall f :: f in files ==> 0.0 < cost(f) <= longest
    ensures var w := Costs(SortBy(leq, files), cost);
            Positive(w) && Descending(w) && forall i :: 0 <= i < |w| ==> w[i] <= longest
  {
    var ordered := SortBy(leq, files);
    SortSorts(leq, files);
    SortKeepsElements(leq, files);
    SameElements(ordered, files);
    var w := Costs(ordered, cost);
    forall i | 0 <= i < |w| ensures 0.0 < w[i] <= longest {
      assert ordered[i] in files;
    }
    forall i, k | 0 <= i < k < |w| ensures w[i] >= w[k] {
      assert leq(ordered[i], ordered[k]);
    }
  }

  lemma NearAverage(
    files: seq<string>, j: nat, m: nat, cost: Cost, leq: (string, string) -> bool, longest: real)
    requires 0 < m && j < m && longest >= 0.0
    requires TotalPreorder(leq) && forall a, b :: leq(a, b) ==> cost(a) >= cost(b)
    requires forall f :: f in files ==> 0.0 < cost(f) <= longest
    ensures Scale(m, TotalTime(ShardOf(files, j, m, cost, leq), cost))
         <= TotalTime(files, cost) + Scale(m - 1, longest)
  {
    var ordered := SortBy(leq, files);
    OrderedCosts(files, cost, leq, longest);
    GreedyBound(Costs(ordered, cost), m, longest, j);
    ShardTime(files, j, m, cost, leq);
    TotalTimeIsSum(ordered, cost);
    TimeOfSort(leq, files, cost, Anywhere, 0);
  }

  lemma NearOptimal(
    files: seq<string>, j: nat, m: nat, cost: Cost, leq: (string, string) -> bool, longest: real,
    assign: string -> nat, cap: real)
    requires 0 < m && j < m
    requires TotalPreorder(leq) && forall a, b :: leq(a, b) ==> cost(a) >= cost(b)
    requires forall f :: f in files ==> 0.0 < cost(f) <= longest && assign(f) < m
    requires forall k: nat :: k < m ==> Time(files, cost, assign, k) <= cap
    ensures 3.0 * Scale(m, TotalTime(ShardOf(files, j, m, cost, leq), cost))
         <= 3.0 * Scale(m, cap) + Scale(m - 1, cap)
  {
    var ordered := SortBy(leq, files);
    var w, b := Costs(ordered, cost), Positions(ordered, assign);
    OrderedCosts(files, cost, leq, longest);
    SortKeepsElements(leq, files);
    SameElements(ordered, files);
    forall i | 0 <= i < |b| ensures b[i] < m {
      assert ordered[i] in files;
    }
    forall k: nat | k < m ensures Load(w, b, k) <= cap {
      TimeIsLoad(ordered, cost, assign, k);
      TimeOfSort(leq, files, cost, assign, k);
    }
    LongestFirstBound(w, b, m, cap, j);
    ShardTime(files, j, m, cost, leq);
  }

  lemma LongestFirstOrders(cost: Cost, collate: Collation)
    ensures var leq := LongestFirst(cost, collate);
            TotalPreorder(leq) && forall a, b :: leq(a, b) ==> cost(a) >= cost(b)
  {
  }

  /** Every shard takes at most total/m + (1 - 1/m) * longest, multiplied out. */
  lemma ShardNearAverage(
    files: seq<string>, j: nat, m: nat, weights: seq<Duration>, collate: Collation, longest: real)
    requires 0 < m && j < m && longest >= 0.0
    requires forall f :: f in files ==> 0.0 < CostOf(weights)(f) <= longest
    ensures m as real * TotalTime(Shard(files, j, m, weights, collate), CostOf(weights))
         <= TotalTime(files, CostOf(weights)) + (m as real - 1.0) * longest
  {
    var cost := CostOf(weights);
    LongestFirstOrders(cost, collate);
    NearAverage(files, j, m, cost, LongestFirst(cost, collate), longest);
    hide ShardOf, CostOf, LongestFirst;
    AverageInProducts(m, TotalTime(Shard(files, j, m, weights, collate), cost), TotalTime(files, cost), longest);
  }

  lemma AverageInProducts(m: nat, load: real, total: real, longest: real)
    requires 0 < m && Scale(m, load) <= total + Scale(m - 1, longest)
    ensures m as real * load <= total + (m as real - 1.0) * longest
  {
    ScaleIsProduct(m, load);
    ScaleIsProduct(m, longest);
    OneLess(m as real, longest);
  }

  lemma OneLess(m: real, x: real)
    ensures m * x - x == (m - 1.0) * x
  {
  }

  /** No assignment of the files to m machines beats the shards by more than 4/3 - 1/(3m). */
  lemma ShardNearOptimal(
    files: seq<string>, j: nat, m: nat, weights: seq<Duration>, collate: Collation,
    assign: string -> nat, cap: real)
    requires 0 < m && j < m && AllWeighed(files, weights)
    requires forall f :: f in files ==> assign(f) < m
    requires forall k: nat :: k < m ==> Time(files, CostOf(weights), assign, k) <= cap
    ensures 3.0 * (m as real * TotalTime(Shard(files, j, m, weights, collate), CostOf(weights)))
         <= (4.0 * m as real - 1.0) * cap
  {
    var cost := CostOf(weights);
    LongestFirstOrders(cost, collate);
    var longest := LongestCost(files, cost);
    NearOptimal(files, j, m, cost, LongestFirst(cost, collate), longest, assign, cap);
    OptimumInProducts(m, TotalTime(Shard(files, j, m, weights, collate), cost), cap);
  }

  lemma OptimumInProducts(m: nat, load: real, cap: real)
    requires 0 < m && 3.0 * Scale(m, load) <= 3.0 * Scale(m, cap) + Scale(m - 1, cap)
    ensures 3.0 * (m as real * load) <= (4.0 * m as real - 1.0) * cap
  {
    ScaleIsProduct(m, load);
    ScaleIsProduct(m, cap);
    ScaleIsProduct(m - 1, cap);
    Distribute(m as real, cap);
  }

  lemma {:induction false} LongestCost(files: seq<string>, cost: Cost) returns (longest: real)
    ensures forall f :: f in files ==> cost(f) <= longest
  {
    if files == [] {
      longest := 0.0;
    } else {
      longest := LongestCost(files[1..], cost);
      if cost(files[0]) > longest { longest := cost(files[0]); }
    }
  }

  lemma Distribute(m: real, cap: real)
    ensures 3.0 * (m * cap) + (m - 1.0) * cap == (4.0 * m - 1.0) * cap
  {
  }
}

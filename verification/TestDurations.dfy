/**
  What the recorded durations do to the shards (scripts/testing/test-shard.ts): a file without a record
  counts as the median of the usable durations, an unusable record of a file in the inventory is the only
  thing about durations that stops the selection, and a selected shard is in order.
*/
module TestDurations {
  import opened Sorting
  import ListScheduling
  import opened TestShard


  lemma SameFirst(s: seq<real>, t: seq<real>)
    requires Sorted((a: real, b: real) => a <= b, s) && Sorted((a: real, b: real) => a <= b, t)
    requires multiset(s) == multiset(t) && s != [] && t != []
    ensures s[0] == t[0]
  {
    assert s[0] in multiset(t) && t[0] in multiset(s);
  }

  lemma SameRest(s: seq<real>, t: seq<real>)
    requires multiset(s) == multiset(t) && s != [] && t != [] && s[0] == t[0]
    ensures multiset(s[1..]) == multiset(t[1..])
  {
    assert s == [s[0]] + s[1..] && t == [t[0]] + t[1..];
    assert multiset(s[1..]) == multiset(s) - multiset{s[0]};
    assert multiset(t[1..]) == multiset(t) - multiset{t[0]};
  }

  /** There is one way to put real numbers in order. */
  lemma {:induction false} OneOrder(s: seq<real>, t: seq<real>)
    requires Sorted((a: real, b: real) => a <= b, s) && Sorted((a: real, b: real) => a <= b, t)
    requires multiset(s) == multiset(t)
    ensures s == t
  {
    assert |multiset(s)| == |s| && |multiset(t)| == |t|;
    if s != [] {
      SameFirst(s, t);
      SameRest(s, t);
      OneOrder(s[1..], t[1..]);
      assert s == [s[0]] + s[1..] && t == [t[0]] + t[1..];
    }
  }

  lemma NumbersAreOrdered()
    ensures TotalPreorder((a: real, b: real) => a <= b)
  {
  }

  /** The usable durations are the recorded ones that are finite and positive. */
  lemma {:induction false} MeasuredExactly(weights: seq<Duration>, x: real)
    ensures x in Measured(weights)
       <==> exists i :: 0 <= i < |weights| && weights[i].value == Finite(x) && x > 0.0
  {
    if weights != [] {
      MeasuredExactly(weights[1..], x);
      if x in Measured(weights[1..]) {
        var i :| 0 <= i < |weights| - 1 && weights[1..][i].value == Finite(x);
        assert weights[i + 1].value == Finite(x);
      }
      if i :| 0 <= i < |weights| && weights[i].value == Finite(x) && x > 0.0 {
        if i > 0 { assert weights[1..][i - 1].value == Finite(x); }
      }
    }
  }

  /** In whatever way the usable durations are put in order, the baseline is the one in the middle. */
  lemma BaselineIsMedian(weights: seq<Duration>, s: seq<real>)
    requires Sorted((a: real, b: real) => a <= b, s) && multiset(s) == multiset(Measured(weights))
    ensures Baseline(weights) == if s == [] then 1.0 else s[|s| / 2]
    ensures Baseline(weights) > 0.0
  {
    var leq := (a: real, b: real) => a <= b;
    var sorted := SortBy(leq, Measured(weights));
    NumbersAreOrdered();
    SortSorts(leq, Measured(weights));
    SortKeepsElements(leq, Measured(weights));
    OneOrder(sorted, s);
    if s != [] {
      var b := s[|s| / 2];
      assert b in multiset(s);
      assert b in Measured(weights);
      MeasuredExactly(weights, b);
    }
  }

  ghost predicate OneRecordEach(weights: seq<Duration>) {
    forall i, j :: 0 <= i < j < |weights| ==> weights[i].file != weights[j].file
  }

  lemma {:induction false} RecordedExactly(weights: seq<Duration>, file: string)
    requires OneRecordEach(weights)
    ensures Recorded(weights, file) == [] <==> forall i :: 0 <= i < |weights| ==> weights[i].file != file
    ensures forall i :: 0 <= i < |weights| && weights[i].file == file ==>
              Recorded(weights, file) == [weights[i].value]
  {
    if weights != [] {
      RecordedExactly(weights[1..], file);
      assert forall i :: 0 < i < |weights| ==> weights[i] == weights[1..][i - 1];
    }
  }

  /** A record counts as it is if it is usable; a file without a record has the baseline. */
  lemma WeightExactly(weights: seq<Duration>, file: string)
    requires OneRecordEach(weights)
    ensures forall i :: 0 <= i < |weights| && weights[i].file == file ==>
              Weight(weights, file) ==
                if Usable(weights[i].value) then Ok(weights[i].value.value) else Err(InvalidDuration)
    ensures (forall i :: 0 <= i < |weights| ==> weights[i].file != file) ==>
              Weight(weights, file) == Ok(Baseline(weights))
  {
    RecordedExactly(weights, file);
    var leq := (a: real, b: real) => a <= b;
    NumbersAreOrdered();
    SortSorts(leq, Measured(weights));
    SortKeepsElements(leq, Measured(weights));
    BaselineIsMedian(weights, SortBy(leq, Measured(weights)));
    hide Recorded, Baseline;
  }

  /** A job gets its shard exactly for a valid index, an inventory without duplicates, and usable records of it. */
  lemma SelectsExactly(
    files: seq<string>, shard: Number, shards: Number, weights: seq<Duration>, collate: Collation)
    requires OneRecordEach(weights)
    ensures Selection(files, shard, shards, weights, collate).Ok?
       <==> && ValidShard(shard, shards) && Distinct(files)
            && forall i :: 0 <= i < |weights| && weights[i].file in files ==> Usable(weights[i].value)
  {
    hide Weight, Shard;
    forall f ensures Weight(weights, f).Ok?
                <==> forall i :: 0 <= i < |weights| && weights[i].file == f ==> Usable(weights[i].value) {
      WeightExactly(weights, f);
    }
  }

  lemma {:induction false} CodeUnitsAreOrdered(a: string, b: string, c: string)
    ensures CodeUnits(a, b) || CodeUnits(b, a)
    ensures CodeUnits(a, b) && CodeUnits(b, c) ==> CodeUnits(a, c)
    ensures CodeUnits(a, b) && CodeUnits(b, a) ==> a == b
    decreases |a| + |b| + |c|
  {
    if a != [] && b != [] {
      CodeUnitsAreOrdered(a[1..], b[1..], if c != [] then c[1..] else c);
      if a[0] == b[0] && a[1..] == b[1..] { assert a == [a[0]] + a[1..] == b; }
    }
  }

  /** The files of a shard are in the order of their code units. */
  lemma ShardIsInOrder(files: seq<string>, j: nat, m: nat, weights: seq<Duration>, collate: Collation)
    requires 0 < m
    ensures Sorted(CodeUnits, Shard(files, j, m, weights, collate))
  {
    forall a, b ensures CodeUnits(a, b) || CodeUnits(b, a) {
      CodeUnitsAreOrdered(a, b, []);
    }
    forall a, b, c | CodeUnits(a, b) && CodeUnits(b, c) ensures CodeUnits(a, c) {
      CodeUnitsAreOrdered(a, b, c);
    }
    var cost := CostOf(weights);
    var ordered := SortBy(LongestFirst(cost, collate), files);
    SortSorts(CodeUnits, Picked(ordered, ListScheduling.Choice(Costs(ordered, cost), m), j));
  }
}

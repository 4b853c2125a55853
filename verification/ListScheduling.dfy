/**
  List scheduling of jobs on identical machines, independent of any file system: the greedy
  choice "first machine of least load", its bound for jobs in any order, and the sharper bound
  for jobs in descending order. Durations are exact reals.
*/
module ListScheduling {

  // ---------------------------------------------------------------- loads of an assignment

  /** What machine j carries when job i runs on machine a[i]. */
  ghost function Load(w: seq<real>, a: seq<nat>, j: nat): real
    requires |a| == |w|
  {
    if w == [] then 0.0
    else
      var n := |w| - 1;
      Load(w[..n], a[..n], j) + (if a[n] == j then w[n] else 0.0)
  }

  ghost function Loads(w: seq<real>, a: seq<nat>, m: nat): real
    requires |a| == |w|
  {
    if m == 0 then 0.0 else Loads(w, a, m - 1) + Load(w, a, m - 1)
  }

  ghost function Sum(w: seq<real>): real {
    if w == [] then 0.0 else Sum(w[..|w| - 1]) + w[|w| - 1]
  }

  ghost predicate Uses(a: seq<nat>, m: nat) {
    forall i :: 0 <= i < |a| ==> a[i] < m
  }

  lemma {:induction false} LastJobOfLoads(w: seq<real>, a: seq<nat>, m: nat)
    requires |a| == |w| > 0
    ensures var n := |w| - 1;
            Loads(w, a, m) == Loads(w[..n], a[..n], m) + (if a[n] < m then w[n] else 0.0)
  {
    if m > 0 {
      LastJobOfLoads(w, a, m - 1);
    }
  }

  /** Conservation: the loads of the machines add up to the work there is. */
  lemma {:induction false} LoadsAddUp(w: seq<real>, a: seq<nat>, m: nat)
    requires |a| == |w| && Uses(a, m)
    ensures Loads(w, a, m) == Sum(w)
  {
    if w == [] {
      NoJobsNoLoads(m);
    } else {
      LastJobOfLoads(w, a, m);
      LoadsAddUp(w[..|w| - 1], a[..|w| - 1], m);
    }
  }

  lemma {:induction false} NoJobsNoLoads(m: nat)
    ensures Loads([], [], m) == 0.0
  {
    if m > 0 { NoJobsNoLoads(m - 1); }
  }

  /** m copies of x, so that proofs about a symbolic number of machines stay linear. */
  ghost function Scale(m: nat, x: real): real {
    if m == 0 then 0.0 else Scale(m - 1, x) + x
  }

  lemma {:induction false} ScaleIsProduct(m: nat, x: real)
    ensures Scale(m, x) == m as real * x
  {
    if m > 0 {
      ScaleIsProduct(m - 1, x);
      assert m as real * x == (m - 1) as real * x + x;
    }
  }

  lemma {:induction false} ScaleAdds(m: nat, x: real, y: real)
    ensures Scale(m, x + y) == Scale(m, x) + Scale(m, y)
  {
    if m > 0 { ScaleAdds(m - 1, x, y); }
  }

  lemma {:induction false} ScaleMonotone(m: nat, x: real, y: real)
    requires x <= y
    ensures Scale(m, x) <= Scale(m, y)
    ensures m > 0 && x < y ==> Scale(m, x) < Scale(m, y)
  {
    if m > 0 { ScaleMonotone(m - 1, x, y); }
  }

  lemma EqualShare(m: nat, limit: real) returns (share: real)
    requires 0 < m
    ensures Scale(m, share) == limit
    ensures limit >= 0.0 ==> share >= 0.0
  {
    share := limit / m as real;
    ScaleIsProduct(m, share);
    ScaleNotNegative(m, 0.0);
    ScaleIsProduct(m, 0.0);
    if share < 0.0 { ScaleMonotone(m, share, 0.0); }
  }

  lemma {:induction false} LoadsAtLeast(w: seq<real>, a: seq<nat>, m: nat, low: real)
    requires |a| == |w|
    requires forall j: nat :: j < m ==> low <= Load(w, a, j)
    ensures Scale(m, low) <= Loads(w, a, m)
  {
    if m > 0 {
      LoadsAtLeast(w, a, m - 1, low);
    }
  }

  lemma {:induction false} LoadsAtMost(w: seq<real>, a: seq<nat>, m: nat, high: real)
    requires |a| == |w|
    requires forall j: nat :: j < m ==> Load(w, a, j) <= high
    ensures Loads(w, a, m) <= Scale(m, high)
  {
    if m > 0 {
      LoadsAtMost(w, a, m - 1, high);
    }
  }

  // ---------------------------------------------------------------- the greedy choice

  /** The first machine of least load, as the reduction over the bins finds it. */
  ghost function Least(w: seq<real>, a: seq<nat>, m: nat): (best: nat)
    requires |a| == |w| && m > 0
    ensures best < m && forall j: nat :: j < m ==> Load(w, a, best) <= Load(w, a, j)
  {
    if m == 1 then 0
    else
      var best := Least(w, a, m - 1);
      if Load(w, a, m - 1) < Load(w, a, best) then m - 1 else best
  }

  ghost function Choice(w: seq<real>, m: nat): (a: seq<nat>)
    requires m > 0
    ensures |a| == |w| && Uses(a, m)
  {
    if w == [] then []
    else
      var n := |w| - 1;
      var a := Choice(w[..n], m);
      a + [Least(w[..n], a, m)]
  }

  /** The load of the machine that job k lands on, just after it landed. */
  ghost function Placed(w: seq<real>, m: nat, k: nat): real
    requires 0 < m && k < |w|
  {
    var a := Choice(w[..k], m);
    Load(w[..k], a, Least(w[..k], a, m)) + w[k]
  }

  lemma {:induction false} PlacedWithin(w: seq<real>, m: nat, bound: real, j: nat)
    requires 0 < m && j < m && bound >= 0.0
    requires forall k: nat :: k < |w| ==> Placed(w, m, k) <= bound
    ensures Load(w, Choice(w, m), j) <= bound
  {
    if w != [] {
      var n := |w| - 1;
      var a := Choice(w[..n], m);
      assert Choice(w, m)[..n] == a;
      forall k: nat | k < n ensures Placed(w[..n], m, k) <= bound {
        assert w[..n][..k] == w[..k];
        assert Placed(w, m, k) <= bound;
      }
      PlacedWithin(w[..n], m, bound, j);
      assert Placed(w, m, n) <= bound;
    }
  }

  /** List scheduling, in whatever order the jobs come. */
  lemma GreedyBound(w: seq<real>, m: nat, heaviest: real, j: nat)
    requires 0 < m && j < m
    requires forall i :: 0 <= i < |w| ==> 0.0 <= w[i] <= heaviest
    requires 0.0 <= heaviest
    ensures Scale(m, Load(w, Choice(w, m), j)) <= Sum(w) + Scale(m - 1, heaviest)
  {
    SumGrows(w, 0);
    ScaleNotNegative(m - 1, heaviest);
    var bound := EqualShare(m, Sum(w) + Scale(m - 1, heaviest));
    forall k: nat | k < |w| ensures Placed(w, m, k) <= bound {
      PlacedGreedy(w, m, heaviest, bound, k);
    }
    PlacedWithin(w, m, bound, j);
    ScaleMonotone(m, Load(w, Choice(w, m), j), bound);
  }

  lemma PlacedGreedy(w: seq<real>, m: nat, heaviest: real, bound: real, k: nat)
    requires 0 < m && k < |w|
    requires forall i :: 0 <= i < |w| ==> 0.0 <= w[i] <= heaviest
    requires Scale(m, bound) == Sum(w) + Scale(m - 1, heaviest)
    ensures Placed(w, m, k) <= bound
  {
    LeastIsAtMostAverage(w[..k], m);
    SumGrows(w, k);
    ShareOfLastJob(m, Placed(w, m, k) - w[k], w[k], bound);
    ScaleMonotone(m - 1, w[k], heaviest);
  }

  lemma {:induction false} ScaleNotNegative(m: nat, x: real)
    requires x >= 0.0
    ensures Scale(m, x) >= 0.0
  {
    if m > 0 { ScaleNotNegative(m - 1, x); }
  }

  lemma {:induction false} SumGrows(w: seq<real>, k: nat)
    requires k <= |w| && forall i :: 0 <= i < |w| ==> 0.0 <= w[i]
    ensures 0.0 <= Sum(w[..k]) + (if k < |w| then w[k] else 0.0) <= Sum(w)
    decreases |w|
  {
    if k == |w| {
      assert w[..k] == w;
    }
    if w != [] {
      var n := |w| - 1;
      if k < n { assert w[..n][..k] == w[..k]; }
      SumGrows(w[..n], if k < n then k else n);
      assert w[..n][..n] == w[..n];
    }
  }

  /** m machines of load + job carry m*load + job, and m - 1 jobs more. */
  lemma ShareOfLastJob(m: nat, load: real, job: real, bound: real)
    requires 0 < m
    ensures Scale(m, load) + job + Scale(m - 1, job) <= Scale(m, bound) ==> load + job <= bound
  {
    ScaleAdds(m, load, job);
    if load + job > bound { ScaleMonotone(m, bound, load + job); }
  }

  lemma LeastIsAtMostAverage(w: seq<real>, m: nat)
    requires 0 < m
    ensures var a := Choice(w, m);
            Scale(m, Load(w, a, Least(w, a, m))) <= Sum(w)
  {
    var a := Choice(w, m);
    LoadsAddUp(w, a, m);
    LoadsAtLeast(w, a, m, Load(w, a, Least(w, a, m)));
  }

  // ---------------------------------------------------------------- longest first

  ghost predicate Positive(w: seq<real>) {
    forall i :: 0 <= i < |w| ==> w[i] > 0.0
  }

  ghost predicate Descending(w: seq<real>) {
    forall i, k :: 0 <= i < k < |w| ==> w[i] >= w[k]
  }

  /** Some assignment b finishes within `cap` on every machine. */
  ghost predicate Fits(w: seq<real>, b: seq<nat>, m: nat, cap: real) {
    && |b| == |w| && Uses(b, m)
    && forall j: nat :: j < m ==> Load(w, b, j) <= cap
  }

  lemma {:induction false} LoadHolds(w: seq<real>, a: seq<nat>, i: nat)
    requires |a| == |w| && i < |w|
    requires forall x :: 0 <= x < |w| ==> w[x] >= 0.0
    ensures Load(w, a, a[i]) >= w[i]
  {
    var n := |w| - 1;
    LoadNotNegative(w[..n], a[..n], a[i]);
    if i < n { LoadHolds(w[..n], a[..n], i); }
  }

  lemma {:induction false} LoadHoldsPair(w: seq<real>, a: seq<nat>, i: nat, k: nat)
    requires |a| == |w| && i < k < |w| && a[i] == a[k]
    requires forall x :: 0 <= x < |w| ==> w[x] >= 0.0
    ensures Load(w, a, a[i]) >= w[i] + w[k]
  {
    var n := |w| - 1;
    if k < n { LoadHoldsPair(w[..n], a[..n], i, k); } else { LoadHolds(w[..n], a[..n], i); }
  }

  lemma {:induction false} LoadNotNegative(w: seq<real>, a: seq<nat>, j: nat)
    requires |a| == |w|
    requires forall x :: 0 <= x < |w| ==> w[x] >= 0.0
    ensures Load(w, a, j) >= 0.0
  {
    if w != [] { LoadNotNegative(w[..|w| - 1], a[..|w| - 1], j); }
  }

  /** How many jobs run on machine j. */
  ghost function Count(a: seq<nat>, j: nat): nat {
    if a == [] then 0 else Count(a[..|a| - 1], j) + (if a[|a| - 1] == j then 1 else 0)
  }

  lemma {:induction false} CountHolds(a: seq<nat>, i: nat)
    requires i < |a|
    ensures Count(a, a[i]) >= 1
  {
    if i < |a| - 1 { CountHolds(a[..|a| - 1], i); }
  }

  lemma {:induction false} CountHoldsPair(a: seq<nat>, i: nat, k: nat)
    requires i < k < |a| && a[i] == a[k]
    ensures Count(a, a[i]) >= 2
  {
    if k < |a| - 1 { CountHoldsPair(a[..|a| - 1], i, k); } else { CountHolds(a[..|a| - 1], i); }
  }

  /** Jobs of equal size load a machine by size times count. */
  lemma {:induction false} EqualJobs(w: seq<real>, a: seq<nat>, j: nat, size: real)
    requires |a| == |w|
    requires forall i :: 0 <= i < |w| && a[i] == j ==> w[i] == size
    ensures Load(w, a, j) == size * Count(a, j) as real
  {
    if w != [] {
      var n := |w| - 1;
      EqualJobs(w[..n], a[..n], j, size);
      var c := Count(a[..n], j);
      assert size * (c + 1) as real == size * c as real + size;
    }
  }

  lemma {:induction false} OnlyJob(w: seq<real>, a: seq<nat>, i: nat)
    requires |a| == |w| && i < |w|
    requires forall k :: 0 <= k < |w| && a[k] == a[i] ==> k == i
    ensures Load(w, a, a[i]) == w[i]
  {
    var n := |w| - 1;
    if i < n {
      OnlyJob(w[..n], a[..n], i);
    } else {
      EqualJobs(w[..n], a[..n], a[i], 0.0);
    }
  }

  /** Jobs longer than a third of `cap`: a machine within `cap` runs at most two of them. */
  lemma {:induction false} BigJobs(w: seq<real>, a: seq<nat>, j: nat, cap: real)
    requires |a| == |w|
    requires forall i :: 0 <= i < |w| ==> 3.0 * w[i] > cap
    ensures 3.0 * Load(w, a, j) >= cap * Count(a, j) as real
    ensures Count(a, j) > 0 ==> 3.0 * Load(w, a, j) > cap * Count(a, j) as real
  {
    if w != [] {
      var n := |w| - 1;
      BigJobs(w[..n], a[..n], j, cap);
      var c := Count(a[..n], j);
      assert cap * (c + 1) as real == cap * c as real + cap;
    }
  }

  lemma ScaleByCap(cap: real, x: real, y: real)
    requires cap > 0.0
    ensures x >= y ==> cap * x >= cap * y
  {
    if x >= y { assert cap * (x - y) >= 0.0; }
  }

  lemma AtMostTwoBigJobs(w: seq<real>, a: seq<nat>, j: nat, cap: real)
    requires |a| == |w|
    requires cap > 0.0
    requires forall i :: 0 <= i < |w| ==> 3.0 * w[i] > cap
    requires Load(w, a, j) <= cap
    ensures Count(a, j) <= 2
  {
    BigJobs(w, a, j, cap);
    ScaleByCap(cap, Count(a, j) as real, 3.0);
  }

  /**
    The counting argument. A job alone on its greedy machine gets two tokens, every other job
    one. Greedy machines then carry two tokens each, so placing one more job makes 2m + 1.
  */
  ghost function Tokens(a: seq<nat>): (c: seq<real>)
    ensures |c| == |a| + 1
  {
    seq(|a| + 1, i => if 0 <= i < |a| && Count(a, a[i]) == 1 then 2.0 else 1.0)
  }

  lemma GreedyTokens(a: seq<nat>, m: nat)
    requires Uses(a, m)
    requires forall j: nat :: j < m ==> 1 <= Count(a, j) <= 2
    ensures Sum(Tokens(a)) == 2.0 * m as real + 1.0
  {
    var c := Tokens(a)[..|a|];
    forall j: nat | j < m ensures Load(c, a, j) == 2.0 {
      EqualJobs(c, a, j, if Count(a, j) == 1 then 2.0 else 1.0);
    }
    LoadsAtLeast(c, a, m, 2.0);
    LoadsAtMost(c, a, m, 2.0);
    LoadsAddUp(c, a, m);
    ScaleIsProduct(m, 2.0);
  }

  /** If the last job did not fit, no assignment within `cap` puts more than two tokens on a machine. */
  lemma TokensOfFit(w: seq<real>, a: seq<nat>, b: seq<nat>, m: nat, cap: real, j: nat)
    requires |w| == |a| + 1 && cap > 0.0 && j < m
    requires Positive(w) && Descending(w) && forall i :: 0 <= i < |w| ==> 3.0 * w[i] > cap
    requires Fits(w, b, m, cap)
    requires Uses(a, m)
    requires forall k: nat :: k < m ==> Load(w[..|a|], a, k) + w[|a|] > cap
    ensures Load(Tokens(a), b, j) <= 2.0
  {
    var n := |a|;
    var c := Tokens(a);
    if i :| 0 <= i < n && b[i] == j && Count(a, a[i]) == 1 {
      forall k | 0 <= k < n && a[k] == a[i] ensures k == i {
        if k < i { CountHoldsPair(a, k, i); } else if i < k { CountHoldsPair(a, i, k); }
      }
      OnlyJob(w[..n], a, i);
      assert w[i] + w[n] > cap;
      forall k | 0 <= k < |w| && b[k] == j ensures k == i {
        assert w[k] >= w[n];
        if k < i { LoadHoldsPair(w, b, k, i); } else if i < k { LoadHoldsPair(w, b, i, k); }
      }
      OnlyJob(c, b, i);
    } else {
      AtMostTwoBigJobs(w, b, j, cap);
      EqualJobs(c, b, j, 1.0);
    }
  }

  /** With only big jobs, longest-first is as good as any assignment. */
  lemma {:induction false} BigJobsOptimal(w: seq<real>, b: seq<nat>, m: nat, cap: real, j: nat)
    requires 0 < m && j < m && cap > 0.0
    requires Positive(w) && Descending(w) && forall i :: 0 <= i < |w| ==> 3.0 * w[i] > cap
    requires Fits(w, b, m, cap)
    ensures Load(w, Choice(w, m), j) <= cap
  {
    if w != [] {
      var n := |w| - 1;
      var a := Choice(w[..n], m);
      assert Choice(w, m)[..n] == a;
      PrefixFits(w, b, m, cap, n);
      forall k: nat | k < m ensures Load(w[..n], a, k) <= cap {
        BigJobsOptimal(w[..n], b[..n], m, cap, k);
      }
      BigJobFits(w, a, b, m, cap, Least(w[..n], a, m));
    }
  }

  /** If every machine were too full for the last job, the tokens could not be counted right. */
  lemma BigJobFits(w: seq<real>, a: seq<nat>, b: seq<nat>, m: nat, cap: real, least: nat)
    requires |w| == |a| + 1 && cap > 0.0 && least < m
    requires Positive(w) && Descending(w) && forall i :: 0 <= i < |w| ==> 3.0 * w[i] > cap
    requires Fits(w, b, m, cap) && Fits(w[..|a|], a, m, cap)
    requires forall k: nat :: k < m ==> Load(w[..|a|], a, least) <= Load(w[..|a|], a, k)
    ensures Load(w[..|a|], a, least) + w[|a|] <= cap
  {
    var n := |a|;
    if Load(w[..n], a, least) + w[n] > cap {
      forall k: nat | k < m ensures 1 <= Count(a, k) <= 2 {
        AtMostTwoBigJobs(w[..n], a, k, cap);
        SomeJob(w, a, b, m, cap, k);
      }
      GreedyTokens(a, m);
      forall k: nat | k < m ensures Load(Tokens(a), b, k) <= 2.0 {
        TokensOfFit(w, a, b, m, cap, k);
      }
      LoadsAtMost(Tokens(a), b, m, 2.0);
      LoadsAddUp(Tokens(a), b, m);
      ScaleIsProduct(m, 2.0);
      assert false;
    }
  }

  lemma SomeJob(w: seq<real>, a: seq<nat>, b: seq<nat>, m: nat, cap: real, k: nat)
    requires |w| == |a| + 1 && k < m && Positive(w) && Fits(w, b, m, cap)
    requires Load(w[..|a|], a, k) + w[|a|] > cap
    ensures Count(a, k) >= 1
  {
    if Count(a, k) == 0 {
      CountZero(a, k);
      EqualJobs(w[..|a|], a, k, 0.0);
      LoadHolds(w, b, |a|);
    }
  }

  lemma {:induction false} CountZero(a: seq<nat>, j: nat)
    requires Count(a, j) == 0
    ensures forall i :: 0 <= i < |a| ==> a[i] != j
  {
    forall i | 0 <= i < |a| ensures a[i] != j {
      if a[i] == j { CountHolds(a, i); }
    }
  }

  lemma {:induction false} PrefixFits(w: seq<real>, b: seq<nat>, m: nat, cap: real, k: nat)
    requires k <= |w| && Positive(w) && Fits(w, b, m, cap)
    ensures Fits(w[..k], b[..k], m, cap)
    decreases |w| - k
  {
    if k == |w| {
      assert w[..k] == w && b[..k] == b;
    } else {
      PrefixFits(w, b, m, cap, k + 1);
      assert w[..k + 1][..k] == w[..k] && b[..k + 1][..k] == b[..k];
      forall j: nat | j < m ensures Load(w[..k], b[..k], j) <= cap {
        assert Load(w[..k + 1], b[..k + 1], j) <= cap;
      }
    }
  }

  /** Longest-first is within 4/3 - 1/(3m) of every assignment. */
  lemma LongestFirstBound(w: seq<real>, b: seq<nat>, m: nat, cap: real, j: nat)
    requires 0 < m && j < m
    requires Positive(w) && Descending(w) && Fits(w, b, m, cap)
    ensures 3.0 * Scale(m, Load(w, Choice(w, m), j)) <= 3.0 * Scale(m, cap) + Scale(m - 1, cap)
  {
    LoadNotNegative(w, b, j);
    ScaleNotNegative(m - 1, cap);
    ScaleNotNegative(m, cap);
    var bound := EqualShare(m, Scale(m, cap) + Scale(m - 1, cap) / 3.0);
    forall k: nat | k < |w| ensures Placed(w, m, k) <= bound {
      PrefixFits(w, b, m, cap, k + 1);
      PlacedLongestFirst(w[..k + 1], b[..k + 1], m, cap, bound);
      assert w[..k + 1][..k] == w[..k];
    }
    PlacedWithin(w, m, bound, j);
    ScaleMonotone(m, Load(w, Choice(w, m), j), bound);
  }

  lemma PlacedLongestFirst(w: seq<real>, b: seq<nat>, m: nat, cap: real, bound: real)
    requires 0 < m && |w| > 0 && cap >= 0.0
    requires Positive(w) && Descending(w) && Fits(w, b, m, cap)
    requires Scale(m, bound) == Scale(m, cap) + Scale(m - 1, cap) / 3.0
    ensures Placed(w, m, |w| - 1) <= bound
  {
    var n := |w| - 1;
    LoadHolds(w, b, n);
    if 3.0 * w[n] > cap {
      var a := Choice(w[..n], m);
      assert Choice(w, m)[..n] == a;
      BigJobsOptimal(w, b, m, cap, Least(w[..n], a, m));
      CapWithinBound(m, cap, bound);
    } else {
      LeastIsAtMostAverage(w[..n], m);
      LoadsAtMost(w, b, m, cap);
      LoadsAddUp(w, b, m);
      ShareOfLastJob(m, Placed(w, m, n) - w[n], w[n], bound);
      ScaleThird(m - 1, w[n], cap);
    }
  }

  lemma CapWithinBound(m: nat, cap: real, bound: real)
    requires 0 < m && cap >= 0.0
    requires Scale(m, bound) == Scale(m, cap) + Scale(m - 1, cap) / 3.0
    ensures cap <= bound
  {
    ScaleNotNegative(m - 1, cap);
    if cap > bound { ScaleMonotone(m, bound, cap); }
  }

  lemma {:induction false} ScaleThird(m: nat, job: real, cap: real)
    requires 3.0 * job <= cap
    ensures 3.0 * Scale(m, job) <= Scale(m, cap)
  {
    if m > 0 { ScaleThird(m - 1, job, cap); }
  }
}

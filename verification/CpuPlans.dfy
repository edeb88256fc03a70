/** Planning of processor quantities: the growing plan used to fill a partition up to its
    maximum, and the random split of its total used by the mixed runs. */
module CpuPlans {
  import opened Arithmetic

  /** n * step, by repeated addition. */
  function Times(step: real, n: nat): real {
    if n == 0 then 0.0 else Times(step, n - 1) + step
  }

  lemma {:induction false} TimesIsProduct(step: real, n: nat)
    ensures Times(step, n) == n as real * step
  {
    if n > 0 {
      TimesIsProduct(step, n - 1);
    }
  }

  /** step, 2*step, ..., n*step. */
  function Ramp(step: real, n: nat): (s: seq<real>)
    ensures |s| == n
  {
    seq(n, i requires 0 <= i < n => Times(step, i + 1))
  }

  /** What the first `n` elements of a plan with this step add up to. */
  function RampTotal(step: real, n: nat): real {
    if n == 0 then 0.0 else RampTotal(step, n - 1) + Times(step, n)
  }

  /** The total of a ramp is the step times a triangular number. */
  lemma {:induction false} RampTotalIsTriangular(step: real, n: nat)
    ensures RampTotal(step, n) == step * Triangular(n) as real
  {
    if n > 0 {
      RampTotalIsTriangular(step, n - 1);
      TimesIsProduct(step, n);
    }
  }

  /** Twice the total of a ramp, without triangular numbers. */
  lemma RampTotalClosed(step: real, n: nat)
    ensures 2.0 * RampTotal(step, n) == step * (n * (n + 1)) as real
  {
    RampTotalIsTriangular(step, n);
    TriangularClosed(n);
    assert 2.0 * (step * Triangular(n) as real) == step * (2 * Triangular(n)) as real;
  }

  /** The length of the longest ramp, not shorter than `n`, that fits in `room`. */
  function RungsFrom(room: real, step: real, n: nat): (m: nat)
    requires step > 0.0
    requires n == 0 || RampTotal(step, n) <= room
    ensures m == 0 || RampTotal(step, m) <= room
    ensures room < RampTotal(step, m + 1)
    decreases (room / step).Floor - n
  {
    if RampTotal(step, n + 1) <= room then
      RungBound(room, step, n + 1);
      RungsFrom(room, step, n + 1)
    else
      n
  }

  function CpuPlan(room: real, step: real): seq<real>
    requires step > 0.0
  {
    Ramp(step, RungsFrom(room, step, 0))
  }

  lemma RungBound(room: real, step: real, n: nat)
    requires step > 0.0 && RampTotal(step, n) <= room
    ensures n <= (room / step).Floor
  {
    TriangularGrows(0, n);
    var q := room / step;
    assert step * q == room;
    RampTotalIsTriangular(step, n);
    ScaleOrder(step, Triangular(n) as real, q);
  }

  lemma RampTotalOrder(step: real, m: nat, n: nat)
    requires step > 0.0 && m <= n
    ensures RampTotal(step, m) <= RampTotal(step, n)
  {
    TriangularGrows(m, n);
    RampTotalIsTriangular(step, m);
    RampTotalIsTriangular(step, n);
    ScaleOrder(step, Triangular(m) as real, Triangular(n) as real);
  }

  lemma {:induction false} RampSum(step: real, n: nat)
    ensures SumReal(Ramp(step, n)) == RampTotal(step, n)
  {
    if n > 0 {
      RampSum(step, n - 1);
      assert Ramp(step, n)[..n - 1] == Ramp(step, n - 1);
    }
  }

  /** A ramp of length `n` fits in the room exactly when the plan is at least that long, that
      is when step * n * (n + 1) / 2 is at most the room: the plan is the longest one that
      fits and one more element would overflow. */
  lemma CpuPlanIsLongest(room: real, step: real, n: nat)
    requires step > 0.0 && n > 0
    ensures var plan := CpuPlan(room, step);
            && plan == Ramp(step, |plan|)
            && (forall i | 0 <= i < |plan| :: plan[i] == step * (i + 1) as real)
            && (SumReal(Ramp(step, n)) <= room <==> n <= |plan|)
            && (step * (n * (n + 1)) as real <= 2.0 * room <==> n <= |plan|)
  {
    var m := RungsFrom(room, step, 0);
    forall i | 0 <= i < m
      ensures Ramp(step, m)[i] == step * (i + 1) as real
    {
      TimesIsProduct(step, i + 1);
    }
    RampSum(step, n);
    RampTotalClosed(step, n);
    if n <= m {
      RampTotalOrder(step, n, m);
    } else {
      RampTotalOrder(step, m + 1, n);
    }
  }

  function NonZero(s: seq<real>): seq<real> {
    if s == [] then []
    else NonZero(s[..|s| - 1]) + (if s[|s| - 1] != 0.0 then [s[|s| - 1]] else [])
  }

  /** The list the planning loop builds: it starts with a useless zero. */
  function Counted(step: real, n: nat): (s: seq<real>)
    ensures |s| == n
  {
    seq(n, i requires 0 <= i < n => Times(step, i))
  }

  lemma {:induction false} NonZeroOfCounted(step: real, n: nat)
    requires step > 0.0
    ensures NonZero(Counted(step, n)) == if n == 0 then [] else Ramp(step, n - 1)
  {
    if n > 0 {
      NonZeroOfCounted(step, n - 1);
      assert Counted(step, n)[..n - 1] == Counted(step, n - 1);
      if n > 1 {
        TimesIsProduct(step, n - 1);
        ScaleOrder(step, 0.0, (n - 1) as real);
        assert Ramp(step, n - 1) == Ramp(step, n - 2) + [Times(step, n - 1)];
      }
    }
  }

  method CpuPayloadData(maxValue: real, currProc: real, step: real) returns (plan: seq<real>)
    requires step > 0.0
    ensures plan == CpuPlan(maxValue - currProc, step)
  {
    var indexList: seq<real> := [];
    var currentSum := currProc;
    var index := 0.0;
    ghost var room := maxValue - currProc;
    ghost var i: nat := 0;
    while true
      invariant index == Times(step, i)
      invariant indexList == Counted(step, i)
      invariant currentSum == currProc + if i == 0 then 0.0 else RampTotal(step, i - 1)
      invariant i == 0 || RampTotal(step, i - 1) <= room
      decreases (room / step).Floor - i
    {
      assert currentSum + index == currProc + RampTotal(step, i);
      if currentSum + index > maxValue {
        break;
      }
      RungBound(room, step, i);
      indexList := indexList + [index];
      currentSum := currentSum + index;
      index := index + step;
      i := i + 1;
    }
    plan := NonZero(indexList);
    NonZeroOfCounted(step, i);
    LongestIsUnique(room, step, if i == 0 then 0 else i - 1);
  }

  /** The two bounds the loop stops with determine the length of the plan. */
  lemma LongestIsUnique(room: real, step: real, n: nat)
    requires step > 0.0
    requires room < RampTotal(step, n + 1)
    requires n == 0 || RampTotal(step, n) <= room
    ensures RungsFrom(room, step, 0) == n
  {
    var m := RungsFrom(room, step, 0);
    if m < n {
      RampTotalOrder(step, m + 1, n);
    } else if n < m {
      RampTotalOrder(step, n + 1, m);
    }
  }

  // ----- random split -----

  /** A random integer in [1, bound], drawn from the generator's k-th output. */
  function Draw(rnd: nat -> nat, k: nat, bound: int): (v: int)
    requires bound > 0
    ensures 1 <= v <= bound
  {
    1 + rnd(k) % bound
  }

  function SplitFrom(rnd: nat -> nat, k: nat, remaining: int): (parts: seq<int>)
    decreases remaining
  {
    if remaining <= 0 then []
    else
      var v := Draw(rnd, k, remaining);
      [v] + SplitFrom(rnd, k + 1, remaining - v)
  }

  function MixPlan(values: seq<real>, rnd: nat -> nat): seq<int> {
    SplitFrom(rnd, 0, Truncate(SumReal(values)))
  }

  ghost predicate IsComposition(parts: seq<int>, total: int) {
    && Sum(parts) == total
    && forall i | 0 <= i < |parts| :: parts[i] >= 1
  }

  lemma {:induction false} SplitIsComposition(rnd: nat -> nat, k: nat, remaining: int)
    requires remaining >= 0
    ensures IsComposition(SplitFrom(rnd, k, remaining), remaining)
    decreases remaining
  {
    if remaining > 0 {
      var v := Draw(rnd, k, remaining);
      var rest := SplitFrom(rnd, k + 1, remaining - v);
      SplitIsComposition(rnd, k + 1, remaining - v);
      SumConcat([v], rest);
      assert Sum([v]) == v;
    }
  }

  /** A generator that makes the k-th draw come out as `parts[k - from]`. */
  function Replay(parts: seq<int>, from: nat): nat -> nat {
    k => if from <= k < from + |parts| && parts[k - from] >= 1 then parts[k - from] - 1 else 0
  }

  /** The draws of a split depend only on the generator's outputs from `k` on. */
  lemma {:induction false} SplitDependsOnTail(f: nat -> nat, g: nat -> nat, k: nat, remaining: int)
    requires forall j: nat | j >= k :: f(j) == g(j)
    ensures SplitFrom(f, k, remaining) == SplitFrom(g, k, remaining)
    decreases remaining
  {
    if remaining > 0 {
      SplitDependsOnTail(f, g, k + 1, remaining - Draw(f, k, remaining));
    }
  }

  lemma DrawHits(rnd: nat -> nat, k: nat, bound: int, v: int)
    requires 1 <= v <= bound && rnd(k) == v - 1
    ensures Draw(rnd, k, bound) == v
  {
  }

  lemma CompositionTail(parts: seq<int>, total: int)
    requires IsComposition(parts, total) && parts != []
    ensures 1 <= parts[0] <= total
    ensures IsComposition(parts[1..], total - parts[0])
  {
    assert parts == [parts[0]] + parts[1..];
    SumConcat([parts[0]], parts[1..]);
    assert Sum([parts[0]]) == parts[0];
    SumPrefix(parts[1..], 0);
  }

  /** Every composition of the total is a possible outcome of the random split. */
  lemma {:induction false} EveryCompositionIsDrawn(parts: seq<int>, total: int, k: nat)
    requires IsComposition(parts, total)
    ensures SplitFrom(Replay(parts, k), k, total) == parts
    decreases |parts|
  {
    if parts != [] {
      var f, rest := Replay(parts, k), parts[1..];
      CompositionTail(parts, total);
      EveryCompositionIsDrawn(rest, total - parts[0], k + 1);
      SplitDependsOnTail(f, Replay(rest, k + 1), k + 1, total - parts[0]);
      DrawHits(f, k, total, parts[0]);
      assert parts == [parts[0]] + rest;
    }
  }

  /** The possible mixed plans are exactly the ways to write the integer total of the
      values, or 0 if that is negative, as an ordered sum of positive parts. */
  lemma MixPlansAreCompositions(values: seq<real>, parts: seq<int>)
    ensures (exists rnd: nat -> nat :: MixPlan(values, rnd) == parts) <==>
            IsComposition(parts, Max(0, Truncate(SumReal(values))))
  {
    var total := Max(0, Truncate(SumReal(values)));
    assert forall rnd :: MixPlan(values, rnd) == SplitFrom(rnd, 0, total);
    if IsComposition(parts, total) {
      EveryCompositionIsDrawn(parts, total, 0);
      assert MixPlan(values, Replay(parts, 0)) == parts;
    }
    if rnd: nat -> nat :| MixPlan(values, rnd) == parts {
      SplitIsComposition(rnd, 0, total);
    }
  }

  method MixPayloadData(values: seq<real>, rnd: nat -> nat) returns (randomValues: seq<int>)
    ensures randomValues == MixPlan(values, rnd)
  {
    var totalSum := Truncate(SumReal(values));
    randomValues := [];
    var remainingSum := totalSum;
    while remainingSum > 0
      invariant randomValues + SplitFrom(rnd, |randomValues|, remainingSum) == MixPlan(values, rnd)
    {
      var value := Draw(rnd, |randomValues|, remainingSum);
      randomValues := randomValues + [value];
      remainingSum := remainingSum - value;
    }
  }
}

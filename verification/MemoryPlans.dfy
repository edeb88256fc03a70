/** Planning of memory quantities in logical memory blocks: one block, then twice as much
    each time, until the capacity is used up exactly. */
module MemoryPlans {
  import opened Arithmetic

  /** Fills `room`, taking `next` first and twice as much every further time; the last
      element is whatever is left. */
  function Fill(next: int, room: int): (plan: seq<int>)
    requires next > 0 && room > 0
    ensures plan != []
    decreases room
  {
    if room <= next then [room] else [next] + Fill(2 * next, room - next)
  }

  function MemPlan(lmb: int, room: int): seq<int>
    requires lmb > 0
  {
    if room < lmb then [] else Fill(lmb, room)
  }

  /** next * 2^i, by repeated doubling. */
  function Doubled(next: int, i: nat): int {
    if i == 0 then next else 2 * Doubled(next, i - 1)
  }

  lemma {:induction false} DoubledIsPower(next: int, i: nat)
    ensures Doubled(next, i) == Pow2(i) * next
  {
    if i > 0 {
      DoubledIsPower(next, i - 1);
    }
  }

  lemma {:induction false} DoubledFromNext(next: int, i: nat)
    ensures Doubled(2 * next, i) == Doubled(next, i + 1)
  {
    if i > 0 {
      DoubledFromNext(next, i - 1);
    }
  }

  lemma {:induction false} DoubledGrows(next: int, m: nat, n: nat)
    requires m <= n && next > 0
    ensures 0 < Doubled(next, m) <= Doubled(next, n)
    decreases n
  {
    if m < n {
      DoubledGrows(next, m, n - 1);
    } else if m > 0 {
      DoubledGrows(next, m - 1, n - 1);
    }
  }

  /** next, 2*next, ..., 2^(n-2)*next, r with 0 < r <= 2^(n-1)*next and the given sum. */
  ghost predicate IsDoublingPlan(plan: seq<int>, next: int, room: int) {
    var last := |plan| - 1;
    && plan != []
    && (forall i | 0 <= i < last :: plan[i] == Doubled(next, i))
    && 0 < plan[last] <= Doubled(next, last)
    && Sum(plan) == room
  }

  lemma {:induction false} FillIsDoubling(next: int, room: int)
    requires next > 0 && room > 0
    ensures IsDoublingPlan(Fill(next, room), next, room)
    decreases room
  {
    var plan := Fill(next, room);
    if room <= next {
      assert Sum([room]) == room;
    } else {
      var rest := Fill(2 * next, room - next);
      FillIsDoubling(2 * next, room - next);
      SumConcat([next], rest);
      assert Sum([next]) == next;
      forall i | 0 < i < |plan|
        ensures plan[i] == rest[i - 1] && Doubled(next, i) == Doubled(2 * next, i - 1)
      {
        DoubledFromNext(next, i - 1);
      }
    }
  }

  /** The doubling part of a plan adds up to the next doubling less the first. */
  lemma {:induction false} DoublingSum(plan: seq<int>, next: int, k: nat)
    requires k <= |plan|
    requires forall i | 0 <= i < k :: plan[i] == Doubled(next, i)
    ensures Sum(plan[..k]) == Doubled(next, k) - next
  {
    if k > 0 {
      DoublingSum(plan, next, k - 1);
      assert plan[..k][..k - 1] == plan[..k - 1];
    }
  }

  lemma DoublingPlanLength(plan: seq<int>, next: int, room: int)
    requires next > 0 && IsDoublingPlan(plan, next, room)
    ensures var n := |plan|;
            && plan[n - 1] == room - (Doubled(next, n - 1) - next)
            && Doubled(next, n - 1) - next < room <= Doubled(next, n) - next
  {
    DoublingSum(plan, next, |plan| - 1);
  }

  /** The bounds on the capacity determine the number of elements. */
  lemma LengthIsUnique(next: int, room: int, m: nat, n: nat)
    requires next > 0 && m > 0 && n > 0
    requires Doubled(next, m - 1) - next < room <= Doubled(next, m) - next
    requires Doubled(next, n - 1) - next < room <= Doubled(next, n) - next
    ensures m == n
  {
    if m < n {
      DoubledGrows(next, m, n - 1);
    } else if n < m {
      DoubledGrows(next, n, m - 1);
    }
  }

  /** The doubling shape with this sum is met by no other list. */
  lemma DoublingPlanIsUnique(a: seq<int>, b: seq<int>, next: int, room: int)
    requires next > 0 && IsDoublingPlan(a, next, room) && IsDoublingPlan(b, next, room)
    ensures a == b
  {
    DoublingPlanLength(a, next, room);
    DoublingPlanLength(b, next, room);
    LengthIsUnique(next, room, |a|, |b|);
  }

  /** With less than a block free the plan is empty. Otherwise it fills the capacity exactly,
      doubling on the way, and no other list does so. */
  lemma MemPlanFillsExactly(lmb: int, room: int, other: seq<int>)
    requires lmb > 0
    ensures room < lmb <==> MemPlan(lmb, room) == []
    ensures room >= lmb ==> (IsDoublingPlan(other, lmb, room) <==> other == MemPlan(lmb, room))
  {
    if room >= lmb {
      FillIsDoubling(lmb, room);
      if IsDoublingPlan(other, lmb, room) {
        DoublingPlanIsUnique(MemPlan(lmb, room), other, lmb, room);
      }
    }
  }

  /** Entry i is there if and only if the 2^i - 1 blocks before it leave something of a
      capacity of at least one block, and it is 2^i blocks or what is left if that is less. */
  lemma MemPlanEntry(lmb: int, room: int, i: nat)
    requires lmb > 0
    ensures var plan, before := MemPlan(lmb, room), (Pow2(i) - 1) * lmb;
            && (i < |plan| <==> lmb <= room && before < room)
            && (i < |plan| ==> plan[i] == Min(Pow2(i) * lmb, room - before))
  {
    var plan := MemPlan(lmb, room);
    DoubledLessOne(lmb, i);
    DoubledIsPower(lmb, i);
    if room >= lmb {
      FillIsDoubling(lmb, room);
      DoublingPlanLength(plan, lmb, room);
      if i < |plan| {
        DoubledGrows(lmb, i, |plan| - 1);
        assert i < |plan| - 1 ==> Doubled(lmb, i + 1) <= Doubled(lmb, |plan| - 1) by {
          if i < |plan| - 1 {
            DoubledGrows(lmb, i + 1, |plan| - 1);
          }
        }
      } else {
        DoubledGrows(lmb, |plan|, i);
      }
    }
  }

  /** The elements as powers of two, and the capacities for which a plan has `n` of them. */
  lemma MemPlanPowers(lmb: int, room: int, n: nat, i: nat)
    requires lmb > 0 && room >= lmb && n > 0
    ensures |MemPlan(lmb, room)| == n <==> (Pow2(n - 1) - 1) * lmb < room <= (Pow2(n) - 1) * lmb
    ensures i < |MemPlan(lmb, room)| - 1 ==> MemPlan(lmb, room)[i] == Pow2(i) * lmb
  {
    var plan := MemPlan(lmb, room);
    FillIsDoubling(lmb, room);
    DoublingPlanLength(plan, lmb, room);
    DoubledIsPower(lmb, i);
    DoubledLessOne(lmb, n);
    DoubledLessOne(lmb, n - 1);
    if Doubled(lmb, n - 1) - lmb < room <= Doubled(lmb, n) - lmb {
      LengthIsUnique(lmb, room, n, |plan|);
    }
  }

  lemma DoubledLessOne(lmb: int, n: nat)
    ensures (Pow2(n) - 1) * lmb == Doubled(lmb, n) - lmb
  {
    DoubledIsPower(lmb, n);
  }

  /** When the capacity is whole blocks, every element is whole blocks. */
  lemma MemPlanAligned(lmb: int, room: int, i: nat)
    requires lmb > 0 && Divides(lmb, room) && i < |MemPlan(lmb, room)|
    ensures MemPlan(lmb, room)[i] >= lmb && Divides(lmb, MemPlan(lmb, room)[i])
  {
    var plan := MemPlan(lmb, room);
    FillIsDoubling(lmb, room);
    DoublingPlanLength(plan, lmb, room);
    DoubledIsAligned(lmb, i);
    DoubledIsAligned(lmb, |plan| - 1);
    DoubledIsAligned(lmb, 0);
    DividesSum(lmb, Doubled(lmb, |plan| - 1), lmb);
    DividesSum(lmb, room, Doubled(lmb, |plan| - 1) - lmb);
    DoubledGrows(lmb, 0, i);
    DividesAtLeast(lmb, plan[i]);
  }

  lemma DoubledIsAligned(lmb: int, i: nat)
    ensures Divides(lmb, Doubled(lmb, i))
  {
    DoubledIsPower(lmb, i);
    DividesMultiple(lmb, Pow2(i));
  }

  /** The share of the current memory that a removal may take, in fifths. */
  function ShareInFifths(idle: bool): int {
    if idle then 4 else 2
  }

  /** The same as the factor in the code. */
  function RemovalShare(idle: bool): real {
    if idle then 0.8 else 0.4
  }

  /** The share of the current memory, moved up past itself to the next whole block. */
  function RemovalTarget(currMem: int, lmb: int, idle: bool): int
    requires lmb > 0
  {
    (ShareInFifths(idle) * currMem / (5 * lmb) + 1) * lmb
  }

  /** The float computation of the target is exact and yields a whole number of blocks. */
  lemma TargetIsExact(currMem: int, lmb: int, idle: bool)
    requires lmb > 0
    ensures var share := currMem as real * if idle then 0.8 else 0.4;
            share + (lmb as real - FloatMod(share, lmb as real)) == RemovalTarget(currMem, lmb, idle) as real
  {
    var share := currMem as real * RemovalShare(idle);
    ShareIsFifths(currMem, idle);
    hide RemovalShare;
    QuotientInBlocks(share, ShareInFifths(idle) * currMem, lmb);
  }

  lemma ShareIsFifths(currMem: int, idle: bool)
    ensures 5.0 * (currMem as real * RemovalShare(idle)) == (ShareInFifths(idle) * currMem) as real
  {
  }

  /** The blocks a share reaches into, and its remainder, for a share of n fifths. */
  lemma QuotientInBlocks(share: real, n: int, lmb: int)
    requires lmb > 0 && 5.0 * share == n as real
    ensures share + (lmb as real - FloatMod(share, lmb as real)) == ((n / (5 * lmb) + 1) * lmb) as real
  {
    var q := share / lmb as real;
    assert q * lmb as real == share;
    assert q * (5 * lmb) as real == 5.0 * (q * lmb as real);
    FloorOfQuotient(q, n, 5 * lmb);
    assert ((q.Floor + 1) * lmb) as real == q.Floor as real * lmb as real + lmb as real;
  }

  /** The target as the test computes it, with float arithmetic. */
  function ComputeTarget(currMem: int, lmb: int, idle: bool): (target: int)
    requires lmb > 0
    ensures target == RemovalTarget(currMem, lmb, idle)
  {
    TargetIsExact(currMem, lmb, idle);
    var share := currMem as real * RemovalShare(idle);
    (share + (lmb as real - FloatMod(share, lmb as real))).Floor
  }

  /** The plan to remove (`maxValue` zero) or to add up to `maxValue`. */
  function PlanFor(currMem: int, lmb: int, maxValue: int, idle: bool): seq<int>
    requires lmb > 0
  {
    if maxValue == 0 then MemPlan(lmb, RemovalTarget(currMem, lmb, idle))
    else MemPlan(lmb, maxValue - currMem)
  }

  method MemPayloadData(currMem: int, lmb: int, maxValue: int, idle: bool) returns (resultList: seq<int>)
    requires lmb > 0
    ensures resultList == PlanFor(currMem, lmb, maxValue, idle)
  {
    var currentSum := 0;
    var limit := maxValue;
    if maxValue == 0 {
      limit := ComputeTarget(currMem, lmb, idle);
    } else {
      currentSum := currMem;
    }
    resultList := FillUpTo(currentSum, lmb, limit);
  }

  /** The planning loop proper. */
  method FillUpTo(start: int, lmb: int, limit: int) returns (resultList: seq<int>)
    requires lmb > 0
    ensures resultList == MemPlan(lmb, limit - start)
  {
    resultList := [];
    var currentSum := start;
    var indexValue := lmb;
    ghost var plan := MemPlan(lmb, limit - start);
    ghost var next := lmb;
    ghost var pending := plan;
    while currentSum + indexValue <= limit
      invariant next > 0 && indexValue > 0
      invariant resultList + pending == plan
      invariant currentSum + indexValue <= limit ==>
                  && pending == Fill(next, limit - currentSum)
                  && indexValue == Min(next, limit - currentSum)
      invariant currentSum + indexValue > limit ==> pending == []
      decreases limit - currentSum
    {
      FillHead(next, limit - currentSum);
      assert resultList + [indexValue] + pending[1..] == plan;
      resultList := resultList + [indexValue];
      currentSum := currentSum + indexValue;
      pending := pending[1..];
      next := 2 * next;
      var remainingCapacity := limit - currentSum;
      if remainingCapacity <= 0 {
        break;
      } else if remainingCapacity < indexValue {
        indexValue := remainingCapacity;
      } else {
        indexValue := Min(indexValue * 2, remainingCapacity);
      }
    }
  }

  lemma FillHead(next: int, room: int)
    requires next > 0 && room > 0
    ensures Fill(next, room) == [Min(next, room)] + Fill(next, room)[1..]
    ensures Fill(next, room)[1..] == if room <= next then [] else Fill(2 * next, room - next)
  {
  }
}

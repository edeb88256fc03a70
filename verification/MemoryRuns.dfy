/** The memory tests of a partition: add, remove and mixed runs over a doubling plan. */
module MemoryRuns {
  import opened Arithmetic
  import opened Partition
  import opened MemoryPlans

  /** Python's `s[:-1]`. */
  function AllButLast(s: seq<int>): seq<int> {
    if s == [] then [] else s[..|s| - 1]
  }

  function MemAdds(s: seq<int>): seq<seq<Command>> {
    seq(|s|, i requires 0 <= i < |s| => [AddMem(s[i])])
  }

  function MemRemoves(s: seq<int>): seq<seq<Command>> {
    seq(|s|, i requires 0 <= i < |s| => [RemoveMem(s[i])])
  }

  /** What the mixed run removes after adding `add`: 80% of it, cut to an integer and moved
      up past itself to the next whole block. */
  function PairedRemoval(add: int, lmb: int): int
    requires lmb > 0
  {
    var i := Truncate(add as real * 0.8);
    i + (lmb - i % lmb)
  }

  function PairedRemovals(adds: seq<int>, lmb: int): (s: seq<int>)
    requires lmb > 0
    ensures |s| == |adds|
  {
    seq(|adds|, i requires 0 <= i < |adds| => PairedRemoval(adds[i], lmb))
  }

  function MemMix(adds: seq<int>, lmb: int): seq<seq<Command>>
    requires lmb > 0
  {
    seq(|adds|, i requires 0 <= i < |adds| => [AddMem(adds[i]), RemoveMem(PairedRemoval(adds[i], lmb))])
  }

  // ----- the tests -----

  method TestMemAdd(l: Lpar, idle: bool) returns (passed: bool)
    requires l.lmb > 0
    modifies l
    ensures Followed(l.accepts, old(l.Observe()),
                     FlatAll(MemAdds(AllButLast(PlanFor(old(l.mem), l.lmb, l.maxMem, idle)))), l.Observe(), passed)
  {
    hide Followed, Run;
    ghost var before := l.Observe();
    var memPayload := MemPayloadData(l.mem, l.lmb, l.maxMem, idle);
    var payload := AllButLast(memPayload);
    ghost var rounds := MemAdds(payload);
    FollowedNothing(l.accepts, before);
    for i := 0 to |payload|
      invariant Followed(l.accepts, before, Flat(rounds, i), l.Observe(), true)
    {
      passed := l.IssueNext(before, Flat(rounds, i), AddMem(payload[i]));
      if !passed {
        StoppedInRound(l.accepts, before, rounds, i, l.Observe());
        return;
      }
    }
    return true;
  }

  method TestMemRem(l: Lpar, idle: bool) returns (passed: bool)
    requires l.lmb > 0
    modifies l
    ensures Followed(l.accepts, old(l.Observe()),
                     FlatAll(MemRemoves(AllButLast(PlanFor(old(l.mem), l.lmb, 0, idle)))), l.Observe(), passed)
  {
    hide Followed, Run;
    ghost var before := l.Observe();
    var memRemove := MemPayloadData(l.mem, l.lmb, 0, idle);
    var payload := AllButLast(memRemove);
    ghost var rounds := MemRemoves(payload);
    FollowedNothing(l.accepts, before);
    for i := 0 to |payload|
      invariant Followed(l.accepts, before, Flat(rounds, i), l.Observe(), true)
    {
      passed := l.IssueNext(before, Flat(rounds, i), RemoveMem(payload[i]));
      if !passed {
        StoppedInRound(l.accepts, before, rounds, i, l.Observe());
        return;
      }
    }
    return true;
  }

  method TestMemMix(l: Lpar, idle: bool) returns (passed: bool)
    requires l.lmb > 0
    modifies l
    ensures Followed(l.accepts, old(l.Observe()),
                     FlatAll(MemMix(PlanFor(old(l.mem), l.lmb, l.maxMem, idle), l.lmb)), l.Observe(), passed)
  {
    hide Followed, Run;
    ghost var before := l.Observe();
    var memAdd := MemPayloadData(l.mem, l.lmb, l.maxMem, idle);
    var memRem: seq<int> := [];
    for i := 0 to |memAdd|
      invariant memRem == PairedRemovals(memAdd[..i], l.lmb)
    {
      memRem := memRem + [PairedRemoval(memAdd[i], l.lmb)];
    }
    assert memAdd[..|memAdd|] == memAdd;
    ghost var rounds := MemMix(memAdd, l.lmb);
    FollowedNothing(l.accepts, before);
    for i := 0 to |memAdd|
      invariant Followed(l.accepts, before, Flat(rounds, i), l.Observe(), true)
    {
      passed := l.IssueTwo(before, Flat(rounds, i), AddMem(memAdd[i]), RemoveMem(memRem[i]));
      if !passed {
        StoppedInRound(l.accepts, before, rounds, i, l.Observe());
        return;
      }
    }
    return true;
  }

  // ----- the states of the runs -----

  lemma MemStates(r: Resources, s: seq<int>, k: nat)
    requires k <= |s|
    ensures |FlatAll(MemAdds(s))| == |FlatAll(MemRemoves(s))| == |s|
    ensures StateAt(r, FlatAll(MemAdds(s)), k) == r.(mem := r.mem + Sum(s[..k]))
    ensures StateAt(r, FlatAll(MemRemoves(s)), k) == r.(mem := r.mem - Sum(s[..k]))
  {
    hide Flat;
    var add, remove := MemAdds(s), MemRemoves(s);
    FlatLength(add, 1, |s|);
    FlatLength(remove, 1, |s|);
    var up := seq(|s| + 1, i requires 0 <= i <= |s| => r.(mem := r.mem + Sum(s[..i])));
    var down := seq(|s| + 1, i requires 0 <= i <= |s| => r.(mem := r.mem - Sum(s[..i])));
    forall i | 0 <= i < |s|
      ensures up[i + 1] == Run(up[i], add[i]) && down[i + 1] == Run(down[i], remove[i])
    {
      assert s[..i + 1][..i] == s[..i];
      RunShort(up[i], add[i][0], add[i][0], []);
      RunShort(down[i], remove[i][0], remove[i][0], []);
    }
    StateAtBoundary(r, add, up, 1, k);
    StateAtBoundary(r, remove, down, 1, k);
  }

  lemma MemRunEnds(r: Resources, s: seq<int>)
    ensures Run(r, FlatAll(MemAdds(s))) == r.(mem := r.mem + Sum(s))
    ensures Run(r, FlatAll(MemRemoves(s))) == r.(mem := r.mem - Sum(s))
  {
    MemStates(r, s, |s|);
    var add, remove := FlatAll(MemAdds(s)), FlatAll(MemRemoves(s));
    assert s[..|s|] == s && add[..|s|] == add && remove[..|s|] == remove;
  }

  lemma PlanIsPositive(lmb: int, room: int)
    requires lmb > 0
    ensures forall i | 0 <= i < |MemPlan(lmb, room)| :: MemPlan(lmb, room)[i] > 0
    ensures Sum(MemPlan(lmb, room)) == if room < lmb then 0 else room
  {
    if room >= lmb {
      FillIsDoubling(lmb, room);
      forall i | 0 <= i < |MemPlan(lmb, room)| - 1
        ensures Doubled(lmb, i) > 0
      {
        DoubledGrows(lmb, 0, i);
      }
    }
  }

  // ----- the add run -----

  /** The add run climbs towards the maximum and stops one plan element short of it: by at
      least one block when the free capacity is whole blocks. */
  lemma MemAddStaysBelowMax(r: Resources, lmb: int, maxMem: int, idle: bool, k: nat)
    requires lmb > 0 && maxMem != 0 && r.mem <= maxMem
    requires k <= |FlatAll(MemAdds(AllButLast(PlanFor(r.mem, lmb, maxMem, idle))))|
    ensures var plan := PlanFor(r.mem, lmb, maxMem, idle);
            var cs := FlatAll(MemAdds(AllButLast(plan)));
            && k <= |AllButLast(plan)|
            && r.mem <= StateAt(r, cs, k).mem <= Run(r, cs).mem <= maxMem
            && (plan != [] ==> Run(r, cs).mem == maxMem - plan[|plan| - 1] < maxMem)
            && (plan != [] && Divides(lmb, maxMem - r.mem) ==> Run(r, cs).mem <= maxMem - lmb)
  {
    var room := maxMem - r.mem;
    var plan := MemPlan(lmb, room);
    PlanIsPositive(lmb, room);
    MemStates(r, AllButLast(plan), 0);
    AddsStayInRange(r, plan, k);
    if plan != [] && Divides(lmb, room) {
      MemPlanAligned(lmb, room, |plan| - 1);
    }
  }

  lemma AddsStayInRange(r: Resources, plan: seq<int>, k: nat)
    requires forall i | 0 <= i < |plan| :: plan[i] > 0
    requires k <= |AllButLast(plan)|
    ensures var cs := FlatAll(MemAdds(AllButLast(plan)));
            && |cs| == |AllButLast(plan)|
            && r.mem <= StateAt(r, cs, k).mem <= Run(r, cs).mem
            && Run(r, cs).mem == r.mem + Sum(plan) - if plan == [] then 0 else plan[|plan| - 1]
  {
    var s := AllButLast(plan);
    MemStates(r, s, k);
    MemRunEnds(r, s);
    SumPrefix(s, k);
  }

  // ----- the removal run -----

  /** A quotient by some blocks, and the whole blocks on both sides of it. */
  lemma BlockQuotient(n: int, d: int, lmb: int)
    requires lmb > 0 && d > 0
    ensures d * lmb > 0
    ensures var q := n / (d * lmb);
            && d * (q * lmb) <= n < d * (q * lmb) + d * lmb
            && (q + 1) * lmb == q * lmb + lmb
            && Divides(lmb, (q + 1) * lmb)
            && (n >= 0 ==> q * lmb >= 0)
  {
    ProductOrder(d, lmb);
    var q := n / (d * lmb);
    Regroup(q, d, lmb);
    QuotientBounds(n, d * lmb);
    DividesMultiple(lmb, q + 1);
    assert (q + 1) * lmb == q * lmb + lmb;
    if n >= 0 {
      ProductOrder(lmb, -q);
      assert lmb * -q == -(q * lmb);
    }
  }

  lemma Regroup(q: int, d: int, lmb: int)
    ensures q * (d * lmb) == d * (q * lmb)
  {
  }

  lemma QuotientBounds(n: int, d: int)
    requires d > 0
    ensures n / d * d <= n < n / d * d + d
    ensures n >= 0 ==> n / d >= 0
  {
  }

  lemma TargetBounds(currMem: int, lmb: int, idle: bool)
    requires lmb > 0 && currMem >= 0
    ensures var target := RemovalTarget(currMem, lmb, idle);
            && Divides(lmb, target)
            && target >= lmb
            && 5 * (target - lmb) <= (if idle then 4 else 2) * currMem < 5 * target
  {
    BlockQuotient(ShareInFifths(idle) * currMem, 5, lmb);
  }

  /** The whole removal plan would take more than the permitted share of the memory, 80% or
      40%, because its target was moved up. Without its last element it never does, at any
      command, so at least the other share is always left. */
  lemma MemRemoveWithinShare(r: Resources, lmb: int, idle: bool, k: nat)
    requires lmb > 0 && r.mem >= 0
    requires k <= |FlatAll(MemRemoves(AllButLast(PlanFor(r.mem, lmb, 0, idle))))|
    ensures var plan := PlanFor(r.mem, lmb, 0, idle);
            var cs := FlatAll(MemRemoves(AllButLast(plan)));
            var removed := r.mem - StateAt(r, cs, k).mem;
            && 0 <= removed
            && 5 * removed <= (if idle then 4 else 2) * r.mem < 5 * Sum(plan)
            && removed <= Sum(plan) - lmb
  {
    var target := RemovalTarget(r.mem, lmb, idle);
    var plan := MemPlan(lmb, target);
    var s := AllButLast(plan);
    TargetBounds(r.mem, lmb, idle);
    PlanIsPositive(lmb, target);
    MemPlanAligned(lmb, target, |plan| - 1);
    MemStates(r, s, 0);
    MemStates(r, s, k);
    SumPrefix(s, k);
  }

  // ----- the commands of the runs, in numbers -----

  /** The i-th command of the add run adds 2^i blocks, and is there if and only if these
      blocks and the ones before are less than the free capacity. */
  lemma MemAddCommands(mem: int, lmb: int, maxMem: int, idle: bool, i: nat)
    requires lmb > 0 && maxMem != 0
    ensures var cs := FlatAll(MemAdds(AllButLast(PlanFor(mem, lmb, maxMem, idle))));
            && (i < |cs| <==> (Pow2(i + 1) - 1) * lmb < maxMem - mem)
            && (i < |cs| ==> cs[i] == AddMem(Pow2(i) * lmb))
  {
    var plan := MemPlan(lmb, maxMem - mem);
    RoundOfOne(MemAdds(AllButLast(plan)), i);
    EntryBeforeLast(lmb, maxMem - mem, i);
  }

  lemma EntryBeforeLast(lmb: int, room: int, i: nat)
    requires lmb > 0
    ensures var s := AllButLast(MemPlan(lmb, room));
            && (i < |s| <==> (Pow2(i + 1) - 1) * lmb < room)
            && (i < |s| ==> s[i] == Pow2(i) * lmb)
  {
    MemPlanEntry(lmb, room, i);
    MemPlanEntry(lmb, room, i + 1);
    FactorOrder(lmb, 1, Pow2(i + 1) - 1);
    assert (Pow2(i + 1) - 1) * lmb == (Pow2(i) - 1) * lmb + Pow2(i) * lmb;
  }

  /** The i-th command of the removal run removes 2^i blocks, and is there if and only if
      with it no more than the permitted share is removed. */
  lemma MemRemoveCommands(mem: int, lmb: int, idle: bool, i: nat)
    requires lmb > 0 && mem >= 0
    ensures var cs := FlatAll(MemRemoves(AllButLast(PlanFor(mem, lmb, 0, idle))));
            && (i < |cs| <==> 5 * ((Pow2(i + 1) - 1) * lmb) <= (if idle then 4 else 2) * mem)
            && (i < |cs| ==> cs[i] == RemoveMem(Pow2(i) * lmb))
  {
    var target := RemovalTarget(mem, lmb, idle);
    RoundOfOne(MemRemoves(AllButLast(MemPlan(lmb, target))), i);
    EntryBeforeLast(lmb, target, i);
    TargetBounds(mem, lmb, idle);
    BlocksBelow(lmb, Pow2(i + 1) - 1, target);
  }

  /** Between whole blocks, being less is being less by a block. */
  lemma BlocksBelow(lmb: int, b: int, target: int)
    requires lmb > 0 && Divides(lmb, target)
    ensures b * lmb < target <==> b * lmb <= target - lmb
  {
    var q: int :| lmb * q == target;
    FactorOrder(lmb, b, q);
  }

  /** Pair i of the mixed run adds what entry i of the plan says, and removes the one number
      of whole blocks that lies less than or just one block above 80% of it. */
  lemma MemMixCommands(mem: int, lmb: int, maxMem: int, idle: bool, i: nat)
    requires lmb > 0 && maxMem != 0
    ensures var cs := FlatAll(MemMix(PlanFor(mem, lmb, maxMem, idle), lmb));
            var room, before := maxMem - mem, (Pow2(i) - 1) * lmb;
            && |cs| % 2 == 0
            && (2 * i < |cs| <==> lmb <= room && before < room)
            && (2 * i < |cs| ==>
                && cs[2 * i] == AddMem(Min(Pow2(i) * lmb, room - before))
                && cs[2 * i + 1].RemoveMem?
                && Divides(lmb, cs[2 * i + 1].size)
                && 4 * cs[2 * i].size < 5 * cs[2 * i + 1].size <= 4 * cs[2 * i].size + 5 * lmb)
  {
    hide PairedRemoval, Fill, Divides;
    var plan := MemPlan(lmb, maxMem - mem);
    RoundOfTwo(MemMix(plan, lmb), i);
    MemPlanEntry(lmb, maxMem - mem, i);
    PlanIsPositive(lmb, maxMem - mem);
    if i < |plan| {
      PairedRemovalBounds(plan[i], lmb);
    }
  }

  // ----- the mixed run -----

  lemma NestedDivision(a: int, lmb: int)
    requires lmb > 0
    ensures (4 * a / 5) / lmb == 4 * a / (5 * lmb)
  {
    var q := 4 * a / (5 * lmb);
    var p := 4 * a / 5;
    assert q * (5 * lmb) == 5 * (q * lmb);
    assert q * lmb <= p < q * lmb + lmb;
    QuotientIs(p, lmb, q);
  }

  lemma QuotientIs(p: int, d: int, q: int)
    requires d > 0 && q * d <= p < q * d + d
    ensures p / d == q
  {
    assert p / d * d <= p < p / d * d + d;
    ProductOrder(d, p / d - q);
    ProductOrder(d, q - p / d);
    assert d * (p / d - q) == p / d * d - q * d && d * (q - p / d) == q * d - p / d * d;
  }

  /** A paired removal in closed form: the first whole block above 80% of the addition. */
  lemma PairedRemovalClosed(add: int, lmb: int)
    requires lmb > 0 && add >= 0
    ensures PairedRemoval(add, lmb) == (4 * add / (5 * lmb) + 1) * lmb
  {
    var x := add as real * 0.8;
    FloorOfQuotient(x, 4 * add, 5);
    NestedDivision(add, lmb);
    var i := 4 * add / 5;
    assert i - i % lmb == i / lmb * lmb;
    assert (i / lmb + 1) * lmb == i / lmb * lmb + lmb;
  }

  /** Every paired removal is whole blocks and more than 80% of its addition. It is no more
      than the addition exactly when a block boundary lies above the 80% mark and not above
      the addition, which is always so for an addition of whole blocks. */
  lemma PairedRemovalBounds(add: int, lmb: int)
    requires lmb > 0 && add > 0
    ensures var rem := PairedRemoval(add, lmb);
            && Divides(lmb, rem)
            && 4 * add < 5 * rem <= 4 * add + 5 * lmb
            && (rem <= add <==> 4 * add / (5 * lmb) < add / lmb)
            && (Divides(lmb, add) ==> rem <= add)
  {
    PairedRemovalClosed(add, lmb);
    BlockQuotient(4 * add, 5, lmb);
    FirstBlockAbove(add, lmb);
    if Divides(lmb, add) {
      DividesIffMod(lmb, add);
    }
  }

  /** The first block above the 80% mark fits under `add` iff some block boundary does. */
  lemma FirstBlockAbove(add: int, lmb: int)
    requires lmb > 0 && add > 0
    ensures var q, b := 4 * add / (5 * lmb), add / lmb;
            && ((q + 1) * lmb <= add <==> q < b)
            && (add % lmb == 0 ==> q < b)
  {
    var q, b := 4 * add / (5 * lmb), add / lmb;
    BlockQuotient(4 * add, 5, lmb);
    var wq, wb := q * lmb, b * lmb;
    assert wb + add % lmb == add;
    FactorOrder(lmb, q, b);
    FactorOrder(lmb, b, q + 1);
  }

  /** What the first `i` pairs leave behind. */
  function Gain(adds: seq<int>, lmb: int, i: nat): int
    requires lmb > 0 && i <= |adds|
  {
    if i == 0 then 0 else Gain(adds, lmb, i - 1) + adds[i - 1] - PairedRemoval(adds[i - 1], lmb)
  }

  lemma MemMixStates(r: Resources, adds: seq<int>, lmb: int, i: nat)
    requires lmb > 0 && i <= |adds|
    ensures var cs := FlatAll(MemMix(adds, lmb));
            && |cs| == 2 * |adds|
            && StateAt(r, cs, 2 * i) == r.(mem := r.mem + Gain(adds, lmb, i))
            && (i < |adds| ==>
                StateAt(r, cs, 2 * i + 1) == r.(mem := r.mem + Gain(adds, lmb, i) + adds[i]))
  {
    var rounds := MemMix(adds, lmb);
    var states := seq(|adds| + 1, j requires 0 <= j <= |adds| => r.(mem := r.mem + Gain(adds, lmb, j)));
    forall j | 0 <= j < |adds|
      ensures states[j + 1] == Run(states[j], rounds[j])
    {
      RunShort(states[j], rounds[j][0], rounds[j][1], []);
    }
    StatesInPair(r, rounds, states, i);
  }

  /** Each pair keeps less than a fifth of what it added. */
  lemma {:induction false} GainBelowFifth(adds: seq<int>, lmb: int, i: nat)
    requires lmb > 0 && i <= |adds|
    requires forall j | 0 <= j < |adds| :: adds[j] > 0
    ensures 5 * Gain(adds, lmb, i) <= Sum(adds[..i])
    ensures i > 0 ==> 5 * Gain(adds, lmb, i) < Sum(adds[..i])
  {
    if i > 0 {
      GainBelowFifth(adds, lmb, i - 1);
      PairedRemovalBounds(adds[i - 1], lmb);
      assert adds[..i][..i - 1] == adds[..i - 1];
    }
  }

  /** As long as no pair takes back more than it gave, the gain never turns negative. */
  lemma {:induction false} GainNonNegative(adds: seq<int>, lmb: int, i: nat)
    requires lmb > 0 && i <= |adds|
    requires forall j | 0 <= j < i :: PairedRemoval(adds[j], lmb) <= adds[j]
    ensures Gain(adds, lmb, i) >= 0
  {
    if i > 0 {
      GainNonNegative(adds, lmb, i - 1);
    }
  }

  /** The mixed run never passes the maximum, and what it leaves behind is less than a
      fifth of the capacity it started with, aligned or not. */
  lemma MemMixBelowMax(r: Resources, lmb: int, maxMem: int, idle: bool, k: nat)
    requires lmb > 0 && maxMem != 0 && r.mem <= maxMem
    requires k <= |FlatAll(MemMix(PlanFor(r.mem, lmb, maxMem, idle), lmb))|
    ensures var plan := PlanFor(r.mem, lmb, maxMem, idle);
            var cs := FlatAll(MemMix(plan, lmb));
            && StateAt(r, cs, k).mem <= maxMem
            && (k % 2 == 0 && k > 0 ==> 5 * (StateAt(r, cs, k).mem - r.mem) < maxMem - r.mem)
  {
    hide PairedRemoval, Run, Flat, Fill;
    var room := maxMem - r.mem;
    var plan := MemPlan(lmb, room);
    var i := k / 2;
    PlanIsPositive(lmb, room);
    MemMixStates(r, plan, lmb, 0);
    MemMixStates(r, plan, lmb, i);
    GainBelowFifth(plan, lmb, i);
    SumPrefix(plan, i);
    assert k == 2 * i || k == 2 * i + 1;
    if k == 2 * i + 1 {
      SumPrefix(plan, i + 1);
      assert plan[..i + 1][..i] == plan[..i];
    }
  }

  /** With a capacity of whole blocks the mixed run never falls below its start either. */
  lemma MemMixAboveStartWhenAligned(r: Resources, lmb: int, maxMem: int, idle: bool, k: nat)
    requires lmb > 0 && maxMem != 0 && r.mem <= maxMem && Divides(lmb, maxMem - r.mem)
    requires k <= |FlatAll(MemMix(PlanFor(r.mem, lmb, maxMem, idle), lmb))|
    ensures r.mem <= StateAt(r, FlatAll(MemMix(PlanFor(r.mem, lmb, maxMem, idle), lmb)), k).mem
  {
    hide PairedRemoval, Flat, Run, Fill;
    var room := maxMem - r.mem;
    var plan := MemPlan(lmb, room);
    forall j | 0 <= j < |plan|
      ensures PairedRemoval(plan[j], lmb) <= plan[j] && plan[j] > 0
    {
      MemPlanAligned(lmb, room, j);
      PairedRemovalBounds(plan[j], lmb);
    }
    MemMixStates(r, plan, lmb, 0);
    MemMixStates(r, plan, lmb, k / 2);
    GainNonNegative(plan, lmb, k / 2);
    assert k == 2 * (k / 2) || k == 2 * (k / 2) + 1;
  }

  /** Without that, a capacity one unit above a block makes the run end below its start. */
  lemma MemMixCanEndBelowStart(r: Resources)
    requires r.mem == 1024
    ensures MemPlan(256, 257) == [256, 1]
    ensures Run(r, FlatAll(MemMix(PlanFor(r.mem, 256, 1281, true), 256))).mem == 769
  {
    assert Fill(512, 1) == [1];
    var plan := MemPlan(256, 257);
    MemMixStates(r, plan, 256, 2);
    PairedRemovalClosed(256, 256);
    PairedRemovalClosed(1, 256);
    assert Gain(plan, 256, 1) == 0;
    assert Gain(plan, 256, 2) == -255;
    var cs := FlatAll(MemMix(plan, 256));
    assert cs[..4] == cs;
  }

  // ----- when exactly the mixed run stays above its start -----

  lemma PairedRemovalOfBlocks(b: nat, lmb: int)
    requires lmb > 0
    ensures PairedRemoval(b * lmb, lmb) == (4 * b / 5 + 1) * lmb
  {
    PairedRemovalClosed(b * lmb, lmb);
    assert 4 * (b * lmb) == 4 * b * lmb;
    ScaledFloor(4 * b, 4 * b / 5, lmb);
  }

  /** A fifth of whole blocks, in blocks: what the pair keeps. */
  lemma KeptOfCount(b: nat, lmb: int)
    requires lmb > 0
    ensures b * lmb - PairedRemoval(b * lmb, lmb) == (b - 4 * b / 5 - 1) * lmb
  {
    PairedRemovalOfBlocks(b, lmb);
    var q := 4 * b / 5;
    assert (b - q - 1) * lmb == b * lmb - (q + 1) * lmb;
  }

  lemma ScaledFloor(n: int, q: int, lmb: int)
    requires lmb > 0 && q * 5 <= n < q * 5 + 5
    ensures n * lmb / (5 * lmb) == q
  {
    ProductOrder(lmb, n - q * 5);
    ProductOrder(lmb, q * 5 + 5 - n);
    assert lmb * (n - q * 5) == n * lmb - q * (5 * lmb) by {
      assert lmb * (n - q * 5) == lmb * n - lmb * (q * 5);
    }
    assert lmb * (q * 5 + 5 - n) == q * (5 * lmb) + 5 * lmb - n * lmb by {
      assert lmb * (q * 5 + 5 - n) == lmb * (q * 5 + 5) - lmb * n;
    }
    if n == q * 5 {
      assert lmb * (n - q * 5) == 0;
    }
    QuotientIs(n * lmb, 5 * lmb, q);
  }

  /** Before its last element a plan doubles whole blocks: the first three pairs take back
      all they gave, the fourth leaves one block, and later ones never lose any. */
  lemma {:induction false} GainOfDoubling(plan: seq<int>, lmb: int, i: nat)
    requires lmb > 0 && i <= |plan|
    requires forall j | 0 <= j < i :: plan[j] == Doubled(lmb, j)
    ensures Gain(plan, lmb, i) >= 0
    ensures i <= 3 ==> Gain(plan, lmb, i) == 0
    ensures i >= 4 ==> Gain(plan, lmb, i) >= lmb
  {
    if i > 0 {
      GainOfDoubling(plan, lmb, i - 1);
      KeptOfBlocks(i - 1, lmb);
    }
  }

  /** The i-th doubling keeps nothing for i < 3, and one block for i == 3. */
  lemma KeptOfBlocks(i: nat, lmb: int)
    requires lmb > 0
    ensures var kept := Doubled(lmb, i) - PairedRemoval(Doubled(lmb, i), lmb);
            && kept >= 0
            && (i < 3 ==> kept == 0)
            && (i == 3 ==> kept == lmb)
  {
    hide PairedRemoval, Doubled;
    DoubledIsPower(lmb, i);
    KeptOfCount(Pow2(i), lmb);
    assert Pow2(0) == 1 && Pow2(1) == 2 && Pow2(2) == 4 && Pow2(3) == 8;
    var blocks := Pow2(i) - 4 * Pow2(i) / 5 - 1;
    ProductOrder(lmb, -blocks);
  }

  /** The whole blocks of a plan before its last element, for up to fifteen blocks. */
  function BlocksBeforeLast(lmb: int, room: int): int {
    if room <= lmb then 0
    else if room <= 3 * lmb then 1
    else if room <= 7 * lmb then 3
    else 7
  }

  /** The mixed run stays at or above its start at every command if and only if the capacity
      is less than one block, or more than fifteen blocks, or four times the part of it
      beyond whole blocks is less than the whole blocks left for the last element. */
  lemma MemMixAboveStartIff(r: Resources, lmb: int, maxMem: int, idle: bool)
    requires lmb > 0 && maxMem != 0
    ensures var room := maxMem - r.mem;
            var cs := FlatAll(MemMix(PlanFor(r.mem, lmb, maxMem, idle), lmb));
            (forall k | 0 <= k <= |cs| :: r.mem <= StateAt(r, cs, k).mem) <==>
            (room < lmb || room > 15 * lmb ||
             4 * (room % lmb) < (room / lmb - BlocksBeforeLast(lmb, room)) * lmb)
  {
    hide StateAt, Run, PairedRemoval, Flat;
    var room := maxMem - r.mem;
    var plan := MemPlan(lmb, room);
    if room < lmb {
      MemMixStates(r, plan, lmb, 0);
    } else {
      MemMixStatesAboveStartBut(r, lmb, room);
      FillIsDoubling(lmb, room);
      DoublingPlanLength(plan, lmb, room);
      PlanOfFifteenBlocks(lmb, room, |plan|);
      LastRemovalFitsIff(lmb, room);
    }
  }

  /** Whether the last pair of a short plan loses nothing, in terms of the capacity. */
  lemma LastRemovalFitsIff(lmb: int, room: int)
    requires lmb > 0 && room >= lmb
    ensures var plan := MemPlan(lmb, room);
            var last := plan[|plan| - 1];
            |plan| < 5 ==>
              (PairedRemoval(last, lmb) <= last <==>
               4 * (room % lmb) < (room / lmb - BlocksBeforeLast(lmb, room)) * lmb)
  {
    var plan := MemPlan(lmb, room);
    FillIsDoubling(lmb, room);
    DoublingPlanLength(plan, lmb, room);
    if |plan| < 5 {
      LastOfShortPlan(lmb, room, |plan|);
      RemovalFitsIff(room, BlocksBeforeLast(lmb, room), lmb);
    }
  }

  lemma LastOfShortPlan(lmb: int, room: int, n: nat)
    requires lmb > 0 && 0 < n < 5
    requires Doubled(lmb, n - 1) - lmb < room <= Doubled(lmb, n) - lmb
    ensures Doubled(lmb, n - 1) - lmb == BlocksBeforeLast(lmb, room) * lmb
  {
    assert Doubled(lmb, 1) == 2 * lmb && Doubled(lmb, 2) == 4 * lmb && Doubled(lmb, 3) == 8 * lmb;
    assert Doubled(lmb, 4) == 16 * lmb;
  }

  /** For an addition of `room` less `before` blocks, in quotient and remainder of `room`. */
  lemma RemovalFitsIff(room: int, before: int, lmb: int)
    requires lmb > 0 && room > before * lmb
    ensures var add := room - before * lmb;
            PairedRemoval(add, lmb) <= add <==> 4 * (room % lmb) < (room / lmb - before) * lmb
  {
    hide PairedRemoval, Divides;
    var add, b := room - before * lmb, room / lmb - before;
    BlocksLeft(room, before, lmb);
    PairedRemovalBounds(add, lmb);
    QuotientIs(add, lmb, b);
    QuotientBelowIff(4 * add, b, lmb);
  }

  lemma BlocksLeft(room: int, before: int, lmb: int)
    requires lmb > 0
    ensures room - before * lmb == (room / lmb - before) * lmb + room % lmb
    ensures 0 <= room % lmb < lmb
  {
    assert room / lmb * lmb + room % lmb == room;
    assert (room / lmb - before) * lmb == room / lmb * lmb - before * lmb;
  }

  lemma QuotientBelowIff(n: int, b: int, lmb: int)
    requires lmb > 0
    ensures n / (5 * lmb) < b <==> n < 5 * (b * lmb)
  {
    var q := n / (5 * lmb);
    BlockQuotient(n, 5, lmb);
    FactorOrder(lmb, q, b);
    FactorOrder(lmb, b, q + 1);
  }

  /** Only the very last state of the run can be below the start, and it is at or above it
      if the plan is long enough to have gained a block, or if the last pair loses nothing. */
  lemma MemMixStatesAboveStartBut(r: Resources, lmb: int, room: int)
    requires lmb > 0 && room >= lmb
    ensures var plan := MemPlan(lmb, room);
            var cs := FlatAll(MemMix(plan, lmb));
            var last := plan[|plan| - 1];
            (forall k | 0 <= k <= |cs| :: r.mem <= StateAt(r, cs, k).mem) <==>
            (|plan| >= 5 || PairedRemoval(last, lmb) <= last)
  {
    var plan := MemPlan(lmb, room);
    var cs := FlatAll(MemMix(plan, lmb));
    var n := |plan|;
    forall k | 0 <= k < 2 * n
      ensures |cs| == 2 * n && r.mem <= StateAt(r, cs, k).mem
    {
      MixStateAboveStart(r, lmb, room, k);
    }
    MemMixStates(r, plan, lmb, n);
    LastGain(lmb, room);
  }

  lemma MixStateAboveStart(r: Resources, lmb: int, room: int, k: nat)
    requires lmb > 0 && room >= lmb && k < 2 * |MemPlan(lmb, room)|
    ensures var cs := FlatAll(MemMix(MemPlan(lmb, room), lmb));
            |cs| == 2 * |MemPlan(lmb, room)| && r.mem <= StateAt(r, cs, k).mem
  {
    var plan := MemPlan(lmb, room);
    FillIsDoubling(lmb, room);
    GainOfDoubling(plan, lmb, k / 2);
    PlanIsPositive(lmb, room);
    MixStateFromGain(r, plan, lmb, k);
  }

  /** A command before the end leaves the memory at the gain so far, or above it. */
  lemma MixStateFromGain(r: Resources, adds: seq<int>, lmb: int, k: nat)
    requires lmb > 0 && k < 2 * |adds|
    requires Gain(adds, lmb, k / 2) >= 0 && adds[k / 2] >= 0
    ensures |FlatAll(MemMix(adds, lmb))| == 2 * |adds|
    ensures r.mem <= StateAt(r, FlatAll(MemMix(adds, lmb)), k).mem
  {
    MemMixStates(r, adds, lmb, k / 2);
    assert k == 2 * (k / 2) || k == 2 * (k / 2) + 1;
  }

  lemma LastGain(lmb: int, room: int)
    requires lmb > 0 && room >= lmb
    ensures var plan := MemPlan(lmb, room);
            var last := plan[|plan| - 1];
            Gain(plan, lmb, |plan|) >= 0 <==> (|plan| >= 5 || PairedRemoval(last, lmb) <= last)
  {
    var plan := MemPlan(lmb, room);
    FillIsDoubling(lmb, room);
    GainOfDoubling(plan, lmb, |plan| - 1);
    LastPairLosesLessThanBlock(plan[|plan| - 1], lmb);
  }

  lemma LastPairLosesLessThanBlock(add: int, lmb: int)
    requires lmb > 0 && add > 0
    ensures PairedRemoval(add, lmb) - add < lmb
  {
    PairedRemovalBounds(add, lmb);
  }

  /** More than fifteen blocks is exactly a plan of five elements or more. */
  lemma PlanOfFifteenBlocks(lmb: int, room: int, n: nat)
    requires lmb > 0 && n > 0
    requires Doubled(lmb, n - 1) - lmb < room <= Doubled(lmb, n) - lmb
    ensures room > 15 * lmb <==> n >= 5
  {
    assert Doubled(lmb, 1) == 2 * lmb && Doubled(lmb, 2) == 4 * lmb && Doubled(lmb, 3) == 8 * lmb;
    assert Doubled(lmb, 4) == 16 * lmb;
    if n >= 5 {
      DoubledGrows(lmb, 4, n - 1);
    } else {
      DoubledGrows(lmb, n, 4);
    }
  }
}

/** What the processor runs keep, whatever the limits and the starting resources. */
module CpuRunProperties {
  import opened Arithmetic
  import opened Partition
  import opened CpuPlans
  import opened CpuRuns

  // ----- dedicated mode: the states of the three runs -----

  lemma DedicatedStates(r: Resources, p: Payload, k: nat)
    requires k <= |p|
    ensures |FlatAll(DedicatedAdd(p))| == |FlatAll(DedicatedRemove(p))| == |p|
    ensures StateAt(r, FlatAll(DedicatedAdd(p)), k) == r.(procs := r.procs + ProcsIn(p, k))
    ensures StateAt(r, FlatAll(DedicatedRemove(p)), k) == r.(procs := r.procs - ProcsIn(p, k))
  {
    hide Flat;
    var add, remove := DedicatedAdd(p), DedicatedRemove(p);
    FlatLength(add, 1, |p|);
    FlatLength(remove, 1, |p|);
    var up := seq(|p| + 1, i requires 0 <= i <= |p| => r.(procs := r.procs + ProcsIn(p, i)));
    var down := seq(|p| + 1, i requires 0 <= i <= |p| => r.(procs := r.procs - ProcsIn(p, i)));
    forall i | 0 <= i < |p|
      ensures up[i + 1] == Run(up[i], add[i]) && down[i + 1] == Run(down[i], remove[i])
    {
      RunShort(up[i], add[i][0], add[i][0], []);
      RunShort(down[i], remove[i][0], remove[i][0], []);
    }
    StateAtBoundary(r, add, up, 1, k);
    StateAtBoundary(r, remove, down, 1, k);
  }

  lemma {:induction false} ProcsInUnitRamp(n: nat, k: nat)
    requires k <= n
    ensures ProcsIn(Ramp(1.0, n), k) == Triangular(k)
  {
    if k > 0 {
      ProcsInUnitRamp(n, k - 1);
      TimesIsProduct(1.0, k);
    }
  }

  /** The length of the dedicated plan, in whole processors. */
  lemma DedicatedPlanLength(room: int)
    ensures var n := |CpuPlan(room as real, 1.0)|;
            && CpuPlan(room as real, 1.0) == Ramp(1.0, n)
            && (n > 0 ==> Triangular(n) <= room)
            && room < Triangular(n) + n + 1
  {
    var n := RungsFrom(room as real, 1.0, 0);
    RampTotalIsTriangular(1.0, n);
    RampTotalIsTriangular(1.0, n + 1);
    assert 1.0 * Triangular(n + 1) as real == Triangular(n + 1) as real;
    assert Triangular(n + 1) == Triangular(n) + n + 1;
  }

  lemma DedicatedAddEnds(r: Resources, p: Payload)
    ensures Run(r, FlatAll(DedicatedAdd(p))) == r.(procs := r.procs + ProcsIn(p, |p|))
    ensures Run(r, FlatAll(DedicatedRemove(p))) == r.(procs := r.procs - ProcsIn(p, |p|))
  {
    DedicatedStates(r, p, |p|);
    var add, remove := FlatAll(DedicatedAdd(p)), FlatAll(DedicatedRemove(p));
    assert add[..|p|] == add && remove[..|p|] == remove;
  }

  /** The add run climbs 1, 1+2, 1+2+3, ... processors and stops where the next addition
      would pass the maximum; only the processor count changes. */
  lemma DedicatedAddFillsToMax(lim: Limits, r: Resources, k: nat)
    requires k <= |FlatAll(AddRounds(Dedicated, AddLines(Dedicated, lim, r)))|
    ensures var cs := FlatAll(AddRounds(Dedicated, AddLines(Dedicated, lim, r)));
            var s := StateAt(r, cs, k);
            && s == r.(procs := r.procs + Triangular(k))
            && s.procs <= Max(lim.maxProcs, r.procs)
            && lim.maxProcs < Run(r, cs).procs + |cs| + 1
  {
    var room := lim.maxProcs - r.procs;
    var p := CpuPlan(room as real, 1.0);
    var cs := FlatAll(DedicatedAdd(p));
    assert cs == FlatAll(AddRounds(Dedicated, AddLines(Dedicated, lim, r)));
    DedicatedPlanLength(room);
    DedicatedStates(r, p, |p|);
    DedicatedStates(r, p, k);
    assert Run(r, cs) == StateAt(r, cs, |p|) by {
      assert cs[..|p|] == cs;
    }
    ProcsInUnitRamp(|p|, k);
    ProcsInUnitRamp(|p|, |p|);
    TriangularGrows(k, |p|);
  }

  /** Between the tops of the climb and the start, the removal run stays in range, and it
      ends at the start. */
  lemma DedicatedRemoveReturns(lim: Limits, r: Resources, k: nat)
    requires k <= |FlatAll(RemoveRounds(Dedicated, AddLines(Dedicated, lim, r)))|
    ensures var lines := AddLines(Dedicated, lim, r);
            var top := Run(r, FlatAll(AddRounds(Dedicated, lines)));
            var cs := FlatAll(RemoveRounds(Dedicated, lines));
            && r.procs <= StateAt(top, cs, k).procs <= top.procs
            && Run(top, cs) == r
  {
    var p := CpuPlan((lim.maxProcs - r.procs) as real, 1.0);
    var n := |p|;
    var add := FlatAll(DedicatedAdd(p));
    DedicatedAddEnds(r, p);
    DedicatedAddEnds(Run(r, add), p);
    DedicatedStates(Run(r, add), p, n);
    DedicatedStates(Run(r, add), p, k);
    ProcsInUnitRamp(n, k);
    ProcsInUnitRamp(n, n);
    TriangularGrows(k, n);
  }

  lemma DedicatedMixStates(r: Resources, parts: seq<int>, i: nat)
    requires i < |parts|
    ensures var cs := FlatAll(DedicatedMix(parts));
            && |cs| == 2 * |parts|
            && StateAt(r, cs, 2 * i) == r
            && StateAt(r, cs, 2 * i + 1) == r.(procs := r.procs + parts[i])
            && Run(r, cs) == r
  {
    var rounds := DedicatedMix(parts);
    var states := seq(|parts| + 1, j => r);
    forall j | 0 <= j < |parts|
      ensures states[j + 1] == Run(states[j], rounds[j])
    {
      RunShort(r, rounds[j][0], rounds[j][1], []);
    }
    StatesInPair(r, rounds, states, i);
    RunToBoundary(r, rounds, states, |parts|);
  }

  /** The plan's entries are whole, so its integer total is what the add run adds. */
  lemma UnitRampTotal(n: nat)
    ensures Truncate(SumReal(Ramp(1.0, n))) == Triangular(n)
  {
    RampSum(1.0, n);
    RampTotalIsTriangular(1.0, n);
  }

  lemma {:induction false} PartIsAtMostSum(parts: seq<int>, i: nat)
    requires i < |parts| && forall j | 0 <= j < |parts| :: parts[j] >= 0
    ensures 0 <= parts[i] <= Sum(parts)
  {
    SumPrefix(parts, i + 1);
    SumPrefix(parts, i);
    assert parts[..i + 1][..i] == parts[..i];
  }

  /** For every random split, the mixed run on the plan of the same partition adds only
      positive amounts that fit below the maximum (the whole sum comes last), and it is back
      at the starting count after every add/remove pair. */
  lemma DedicatedMixStaysInRange(lim: Limits, r: Resources, rnd: nat -> nat, i: nat)
    requires i < |MixParts(CpuPlan((lim.maxProcs - r.procs) as real, 1.0), rnd)|
    ensures var p := CpuPlan((lim.maxProcs - r.procs) as real, 1.0);
            var parts := MixParts(p, rnd);
            var cs := FlatAll(MixRounds(Dedicated, [p], rnd));
            && |cs| == 2 * |parts|
            && StateAt(r, cs, 2 * i) == r
            && r.procs <= StateAt(r, cs, 2 * i + 1).procs <= Max(lim.maxProcs, r.procs)
            && (i == |parts| - 1 ==> StateAt(r, cs, 2 * i + 1).procs == r.procs + Triangular(|p|))
            && Run(r, cs) == r
  {
    var p := CpuPlan((lim.maxProcs - r.procs) as real, 1.0);
    UnitRampTotal(|p|);
    DedicatedPlanLength(lim.maxProcs - r.procs);
    MixPartsAreBounded(p, rnd, i);
    DedicatedMixStates(r, MixParts(p, rnd), i);
  }

  // ----- shared mode: the states of the three runs -----

  function SharedLevel(r: Resources, vp: Payload, pu: Payload, i: nat): Resources
    requires i <= |vp| && i <= |pu|
  {
    r.(procs := r.procs + ProcsIn(vp, i), units := r.units + UnitsIn(pu, i))
  }

  /** Units come first in every pair, so in the middle of a pair only they have grown. */
  lemma SharedAddStates(r: Resources, vp: Payload, pu: Payload, i: nat)
    requires |vp| == |pu| && i <= |vp|
    ensures var cs := FlatAll(SharedAdd(vp, pu));
            && |cs| == 2 * |vp|
            && StateAt(r, cs, 2 * i) == SharedLevel(r, vp, pu, i)
            && (i < |vp| ==> StateAt(r, cs, 2 * i + 1) ==
                             SharedLevel(r, vp, pu, i).(units := r.units + UnitsIn(pu, i + 1)))
  {
    var rounds := SharedAdd(vp, pu);
    var states := seq(|vp| + 1, j requires 0 <= j <= |vp| => SharedLevel(r, vp, pu, j));
    forall j | 0 <= j < |vp|
      ensures states[j + 1] == Run(states[j], rounds[j])
    {
      RunShort(states[j], rounds[j][0], rounds[j][1], []);
    }
    StatesInPair(r, rounds, states, i);
  }

  lemma SharedRemoveIsMirror(vp: Payload, pu: Payload)
    requires |vp| == |pu|
    ensures FlatAll(SharedRemove(vp, pu)) == Mirror(FlatAll(SharedAdd(vp, pu)))
  {
    var n := |vp|;
    var add, remove := SharedAdd(vp, pu), SharedRemove(vp, pu);
    FlatLength(add, 2, n);
    FlatLength(remove, 2, n);
    forall k | 0 <= k < 2 * n
      ensures FlatAll(remove)[k] == Mirror(FlatAll(add))[k]
    {
      var i, j := k / 2, k % 2;
      var i', j' := n - 1 - i, 1 - j;
      CommandInRound(remove, 2, i, j);
      CommandInRound(add, 2, i', j');
      assert i * 2 + j == k && i' * 2 + j' == 2 * n - 1 - k;
      assert remove[i][j] == Inverse(add[i'][j']);
    }
  }

  /** The removal run passes through the states of the add run in the opposite order, so it
      satisfies whatever the add run satisfied at every command, and ends at the start. */
  lemma SharedRemoveRetracesAdd(r: Resources, vp: Payload, pu: Payload, k: nat)
    requires |vp| == |pu| && k <= 2 * |vp|
    ensures var add := FlatAll(SharedAdd(vp, pu));
            var remove := FlatAll(SharedRemove(vp, pu));
            && |add| == |remove| == 2 * |vp|
            && StateAt(Run(r, add), remove, k) == StateAt(r, add, 2 * |vp| - k)
            && Run(Run(r, add), remove) == r
  {
    var add, remove := FlatAll(SharedAdd(vp, pu)), FlatAll(SharedRemove(vp, pu));
    SharedRemoveIsMirror(vp, pu);
    FlatLength(SharedAdd(vp, pu), 2, |vp|);
    MirrorReversesStates(r, add, k);
    MirrorReversesStates(r, add, |add|);
    assert remove[..|add|] == remove;
  }

  /** Inside round `i` of a mixed run: the processors of the pair are there, and then its
      units as well. */
  function MoreProcs(r: Resources, vp: Payload, i: nat): Resources
    requires i < |vp|
  {
    r.(procs := r.procs + Truncate(vp[i]))
  }

  function MorePair(r: Resources, vp: Payload, pu: Payload, i: nat): Resources
    requires i < |vp| && i < |pu|
  {
    MoreProcs(r, vp, i).(units := r.units + pu[i])
  }

  lemma SharedMixStates(r: Resources, vp: Payload, pu: Payload, i: nat)
    requires i < Min(|vp|, |pu|)
    ensures var cs := FlatAll(SharedMix(vp, pu));
            && |cs| == 4 * Min(|vp|, |pu|)
            && StateAt(r, cs, 4 * i) == r
            && StateAt(r, cs, 4 * i + 1) == MoreProcs(r, vp, i)
            && StateAt(r, cs, 4 * i + 2) == MorePair(r, vp, pu, i)
            && StateAt(r, cs, 4 * i + 3) == MoreProcs(r, vp, i)
  {
    SharedMixBoundaries(r, vp, pu);
    StatesInQuad(r, SharedMix(vp, pu), seq(Min(|vp|, |pu|) + 1, j => r), i);
  }

  /** The state after any number of commands of a mixed run, whatever the two lists. */
  lemma SharedMixState(r: Resources, vp: Payload, pu: Payload, k: nat)
    requires k <= |FlatAll(SharedMix(vp, pu))|
    ensures |FlatAll(SharedMix(vp, pu))| == 4 * Min(|vp|, |pu|)
    ensures var s := StateAt(r, FlatAll(SharedMix(vp, pu)), k);
            if k % 4 == 0 then s == r
            else if k % 4 == 2 then s == MorePair(r, vp, pu, k / 4)
            else s == MoreProcs(r, vp, k / 4)
  {
    hide Run, Flat;
    var cs := FlatAll(SharedMix(vp, pu));
    FlatLength(SharedMix(vp, pu), 4, Min(|vp|, |pu|));
    if k < |cs| {
      SharedMixStates(r, vp, pu, k / 4);
      assert k == 4 * (k / 4) + k % 4;
    } else {
      SharedMixBoundaries(r, vp, pu);
      assert cs[..k] == cs;
    }
  }

  lemma SharedMixBoundaries(r: Resources, vp: Payload, pu: Payload)
    ensures Boundaries(r, SharedMix(vp, pu), seq(|SharedMix(vp, pu)| + 1, j => r))
    ensures Run(r, FlatAll(SharedMix(vp, pu))) == r
  {
    var rounds := SharedMix(vp, pu);
    var states := seq(|rounds| + 1, j => r);
    forall j | 0 <= j < |rounds|
      ensures states[j + 1] == Run(states[j], rounds[j])
    {
      var c := rounds[j];
      RunShort(r, c[0], c[1], [c[2], c[3]]);
      assert c == [c[0], c[1]] + [c[2], c[3]];
      RunShort(Run(r, [c[0], c[1]]), c[2], c[3], []);
    }
    RunToBoundary(r, rounds, states, |rounds|);
  }

  lemma {:induction false} RampAmounts(lim: Limits, n: nat, k: nat)
    requires k <= n
    ensures ProcsIn(Ramp(VirtualStep(lim.maxProcs), n), k) as real == RampTotal(VirtualStep(lim.maxProcs), k)
    ensures UnitsIn(Ramp(0.75, n), k) == RampTotal(0.75, k)
  {
    if k > 0 {
      RampAmounts(lim, n, k - 1);
      RatioAlwaysAllowed(lim.maxProcs, k - 1);
    }
  }

  /** The state after `k` commands of the add run, in terms of the two steps. */
  lemma SharedAddState(lim: Limits, r: Resources, k: nat)
    requires k <= 2 * SharedPairs(lim, r)
    ensures var cs := FlatAll(AddRounds(Shared, AddLines(Shared, lim, r)));
            && |cs| == 2 * SharedPairs(lim, r)
            && (StateAt(r, cs, k).procs - r.procs) as real == RampTotal(VirtualStep(lim.maxProcs), k / 2)
            && StateAt(r, cs, k).units == r.units + RampTotal(0.75, (k + 1) / 2)
  {
    var step, n := VirtualStep(lim.maxProcs), SharedPairs(lim, r);
    SharedAddStates(r, Ramp(step, n), Ramp(0.75, n), k / 2);
    RampAmounts(lim, n, k / 2);
    RampAmounts(lim, n, (k + 1) / 2);
    assert k == 2 * (k / 2) || k == 2 * (k / 2) + 1;
  }

  /** The same in closed form: triangular numbers of pairs. */
  lemma SharedAddStateClosed(lim: Limits, r: Resources, k: nat)
    requires k <= 2 * SharedPairs(lim, r)
    ensures var cs := FlatAll(AddRounds(Shared, AddLines(Shared, lim, r)));
            var t := Triangular(k / 2);
            && |cs| == 2 * SharedPairs(lim, r)
            && StateAt(r, cs, k).procs == r.procs + (if lim.maxProcs > 20 then 2 * t else t)
            && StateAt(r, cs, k).units == r.units + 0.75 * Triangular((k + 1) / 2) as real
  {
    hide Run, Flat, RungsFrom;
    SharedAddState(lim, r, k);
    RampTotalIsTriangular(VirtualStep(lim.maxProcs), k / 2);
    RampTotalIsTriangular(0.75, (k + 1) / 2);
  }

  /** Pairs are added until one of the two lists has reached its maximum: no state of the
      add run is above either maximum. */
  lemma SharedAddBelowMaxima(lim: Limits, r: Resources, k: nat)
    requires r.procs <= lim.maxProcs && r.units <= lim.maxUnits
    requires k <= 2 * SharedPairs(lim, r)
    ensures var cs := FlatAll(AddRounds(Shared, AddLines(Shared, lim, r)));
            && |cs| == 2 * SharedPairs(lim, r)
            && r.procs <= StateAt(r, cs, k).procs <= lim.maxProcs
            && r.units <= StateAt(r, cs, k).units <= lim.maxUnits
  {
    SharedAddState(lim, r, k);
    RampWithinRoom((lim.maxProcs - r.procs) as real, VirtualStep(lim.maxProcs), k / 2);
    RampWithinRoom(lim.maxUnits - r.units, 0.75, (k + 1) / 2);
  }

  lemma RampWithinRoom(room: real, step: real, k: nat)
    requires step > 0.0 && room >= 0.0 && k <= RungsFrom(room, step, 0)
    ensures 0.0 <= RampTotal(step, k) <= room
  {
    RampTotalOrder(step, 0, k);
    RampTotalOrder(step, k, RungsFrom(room, step, 0));
  }

  ghost predicate RatioInRange(r: Resources) {
    r.procs > 0 && 0.05 * r.procs as real <= r.units <= r.procs as real
  }

  /** A units-to-processors ratio in [0.05, 1] is there again after every completed pair. */
  lemma RatioKeptByPairs(lim: Limits, r: Resources, i: nat)
    requires RatioInRange(r) && i <= SharedPairs(lim, r)
    ensures var cs := FlatAll(AddRounds(Shared, AddLines(Shared, lim, r)));
            2 * i <= |cs| && RatioInRange(StateAt(r, cs, 2 * i))
  {
    SharedAddStateClosed(lim, r, 2 * i);
  }

  /** How far the processors must be ahead of the units for `n` pairs to be added without
      the units ever overtaking them. */
  function HeadroomNeeded(maxProcs: int, n: nat): real {
    if n == 0 then 0.0
    else if maxProcs > 20 || n == 1 then 0.75
    else if n == 2 then 1.25
    else 1.5
  }

  predicate UnitsWithinProcs(r: Resources) {
    r.units <= r.procs as real
  }

  /** Inside a pair the units lead, so the add run can hold more units than processors for
      one command. It never does exactly when the processors start far enough ahead. */
  lemma SharedAddUnitsWithinProcsIff(lim: Limits, r: Resources)
    ensures var cs := FlatAll(AddRounds(Shared, AddLines(Shared, lim, r)));
            (forall k | 0 <= k <= |cs| :: UnitsWithinProcs(StateAt(r, cs, k))) <==>
            r.procs as real - r.units >= HeadroomNeeded(lim.maxProcs, SharedPairs(lim, r))
  {
    var n := SharedPairs(lim, r);
    var cs := FlatAll(AddRounds(Shared, AddLines(Shared, lim, r)));
    var ahead := r.procs as real - r.units;
    forall k | 0 <= k <= 2 * n
      ensures |cs| == 2 * n
      ensures UnitsWithinProcs(StateAt(r, cs, k)) <==> ahead >= LeadOfUnits(lim.maxProcs, k)
    {
      SharedAddLead(lim, r, k);
    }
    assert |cs| == 2 * n by {
      SharedAddLead(lim, r, 0);
    }
    if ahead >= HeadroomNeeded(lim.maxProcs, n) {
      forall k | 0 <= k <= 2 * n
        ensures UnitsWithinProcs(StateAt(r, cs, k))
      {
        LeadIsBounded(lim.maxProcs, n, k);
      }
    } else {
      var worst := WorstPosition(lim.maxProcs, n);
      LeadIsReached(lim.maxProcs, n);
      assert !UnitsWithinProcs(StateAt(r, cs, worst));
    }
  }

  /** At 2 of 10 processors with 2.0 of 10.0 units the first command already leaves more
      units than processors. */
  lemma SharedAddUnitsCanExceedProcs(r: Resources)
    requires r.procs == 2 && r.units == 2.0
    ensures var cs := FlatAll(AddRounds(Shared, AddLines(Shared, Limits(10, 10.0), r)));
            && |cs| >= 1
            && StateAt(r, cs, 1).procs == 2 && StateAt(r, cs, 1).units == 2.75
            && !UnitsWithinProcs(StateAt(r, cs, 1))
  {
    var lim := Limits(10, 10.0);
    RampTotalIsTriangular(1.0, 1);
    RampTotalIsTriangular(0.75, 1);
    assert Triangular(1) == 1 && Triangular(0) == 0;
    assert RungsFrom(8.0, 1.0, 0) >= 1 && RungsFrom(8.0, 0.75, 0) >= 1;
    SharedAddStateClosed(lim, r, 1);
  }

  /** How much the units have gained on the processors after `k` commands. */
  function LeadOfUnits(maxProcs: int, k: nat): real {
    var t := Triangular(k / 2);
    0.75 * Triangular((k + 1) / 2) as real - (if maxProcs > 20 then 2 * t else t) as real
  }

  lemma SharedAddLead(lim: Limits, r: Resources, k: nat)
    requires k <= 2 * SharedPairs(lim, r)
    ensures var cs := FlatAll(AddRounds(Shared, AddLines(Shared, lim, r)));
            && |cs| == 2 * SharedPairs(lim, r)
            && (UnitsWithinProcs(StateAt(r, cs, k)) <==>
                r.procs as real - r.units >= LeadOfUnits(lim.maxProcs, k))
  {
    SharedAddStateClosed(lim, r, k);
  }

  /** The lead is largest in the middle of the third pair (of the first for step 2). */
  function WorstPosition(maxProcs: int, n: nat): nat {
    if n == 0 then 0
    else if maxProcs > 20 || n == 1 then 1
    else if n == 2 then 3
    else 5
  }

  lemma LeadIsReached(maxProcs: int, n: nat)
    ensures WorstPosition(maxProcs, n) <= 2 * n
    ensures LeadOfUnits(maxProcs, WorstPosition(maxProcs, n)) == HeadroomNeeded(maxProcs, n)
  {
    assert Triangular(0) == 0 && Triangular(1) == 1 && Triangular(2) == 3 && Triangular(3) == 6;
  }

  lemma LeadIsBounded(maxProcs: int, n: nat, k: nat)
    requires k <= 2 * n
    ensures LeadOfUnits(maxProcs, k) <= HeadroomNeeded(maxProcs, n)
  {
    var i := k / 2;
    var t := Triangular(i);
    if k % 2 == 0 {
      assert (k + 1) / 2 == i;
    } else {
      assert (k + 1) / 2 == i + 1 && Triangular(i + 1) == t + i + 1;
      TriangularAtLeastLine(i);
      assert Triangular(1) == 1;
    }
  }

  /** Three tangents of the triangular numbers. */
  lemma {:induction false} TriangularAtLeastLine(i: nat)
    ensures Triangular(i) >= i && Triangular(i) >= 2 * i - 1 && Triangular(i) >= 3 * i - 3
  {
    if i > 0 {
      TriangularAtLeastLine(i - 1);
    }
  }

  /** The mixed run adds processors before units and removes units before processors, so
      the units never exceed the processors at any command, nor either maximum. */
  lemma SharedMixWithinBounds(lim: Limits, r: Resources, rnd: nat -> nat, k: nat)
    requires UnitsWithinProcs(r) && r.procs <= lim.maxProcs && r.units <= lim.maxUnits
    requires k < |FlatAll(MixRounds(Shared, AddLines(Shared, lim, r), rnd))|
    ensures var s := StateAt(r, FlatAll(MixRounds(Shared, AddLines(Shared, lim, r), rnd)), k);
            && UnitsWithinProcs(s)
            && r.procs <= s.procs <= lim.maxProcs
            && r.units <= s.units <= lim.maxUnits
            && (k % 4 == 0 ==> s == r)
  {
    hide Run, RungsFrom, Times, Flat;
    var step, n := VirtualStep(lim.maxProcs), SharedPairs(lim, r);
    SharedMixState(r, Ramp(step, n), Ramp(0.75, n), k);
    PairAmounts(lim, r, k / 4);
  }

  // ----- mixed runs on any lines of the file -----

  lemma MixPartsAreBounded(p: Payload, rnd: nat -> nat, i: nat)
    requires i < |MixParts(p, rnd)|
    ensures var parts := MixParts(p, rnd);
            && 0 <= parts[i] <= parts[|parts| - 1]
            && parts[|parts| - 1] == Max(0, Truncate(SumReal(p)))
  {
    var split, total := MixPlan(p, rnd), Truncate(SumReal(p));
    if total >= 0 {
      SplitIsComposition(rnd, 0, total);
      if i < |split| {
        PartIsAtMostSum(split, i);
      }
    }
  }

  /** Whatever line a dedicated mixed run reads and however it is split, no command leaves
      more processors than the maximum if and only if the whole total of the line fits. */
  lemma DedicatedMixBelowMaxIff(p: Payload, rnd: nat -> nat, r: Resources, maxProcs: int)
    ensures var cs := FlatAll(MixRounds(Dedicated, [p], rnd));
            (forall k | 0 <= k <= |cs| :: StateAt(r, cs, k).procs <= maxProcs) <==>
            r.procs + Max(0, Truncate(SumReal(p))) <= maxProcs
  {
    hide Run, Flat, MixParts;
    var parts := MixParts(p, rnd);
    var cs := FlatAll(DedicatedMix(parts));
    var last := MixPartsNotEmpty(p, rnd);
    MixPartsAreBounded(p, rnd, last);
    DedicatedMixStates(r, parts, last);
    forall k | 0 <= k <= |cs|
      ensures r.procs <= StateAt(r, cs, k).procs <= r.procs + parts[last]
    {
      if k < |cs| {
        MixPartsAreBounded(p, rnd, k / 2);
        DedicatedMixStates(r, parts, k / 2);
        assert k == 2 * (k / 2) || k == 2 * (k / 2) + 1;
      } else {
        assert cs[..k] == cs;
      }
    }
    assert StateAt(r, cs, 2 * last + 1).procs == r.procs + parts[last];
  }

  lemma MixPartsNotEmpty(p: Payload, rnd: nat -> nat) returns (last: nat)
    ensures |MixParts(p, rnd)| == last + 1
  {
    last := |MixPlan(p, rnd)|;
  }

  /** Whatever two lines a shared mixed run reads, a property holds at every command if and
      only if it holds at the start and inside every pair used. */
  lemma SharedMixAlwaysIff(vp: Payload, pu: Payload, r: Resources, good: Resources -> bool)
    ensures var cs := FlatAll(SharedMix(vp, pu));
            (forall k | 0 <= k <= |cs| :: good(StateAt(r, cs, k))) <==>
            good(r) &&
            forall i | 0 <= i < Min(|vp|, |pu|) :: good(MoreProcs(r, vp, i)) && good(MorePair(r, vp, pu, i))
  {
    hide Run, Flat, SharedMix, MoreProcs, MorePair;
    var cs := FlatAll(SharedMix(vp, pu));
    forall k | 0 <= k <= |cs|
      ensures |cs| == 4 * Min(|vp|, |pu|)
      ensures var s := StateAt(r, cs, k);
              if k % 4 == 0 then s == r
              else if k % 4 == 2 then s == MorePair(r, vp, pu, k / 4)
              else s == MoreProcs(r, vp, k / 4)
    {
      SharedMixState(r, vp, pu, k);
    }
    assert |cs| == 4 * Min(|vp|, |pu|) by {
      SharedMixState(r, vp, pu, 0);
    }
    if forall k | 0 <= k <= |cs| :: good(StateAt(r, cs, k)) {
      assert good(StateAt(r, cs, 0));
      forall i | 0 <= i < Min(|vp|, |pu|)
        ensures good(MoreProcs(r, vp, i)) && good(MorePair(r, vp, pu, i))
      {
        assert good(StateAt(r, cs, 4 * i + 1)) && good(StateAt(r, cs, 4 * i + 2));
        assert (4 * i + 1) / 4 == i && (4 * i + 2) / 4 == i;
      }
    }
  }

  /** So no command passes a maximum if and only if every single pair fits on top of the
      start. */
  lemma SharedMixBelowMaximaIff(vp: Payload, pu: Payload, r: Resources, lim: Limits)
    ensures var cs := FlatAll(SharedMix(vp, pu));
            (forall k | 0 <= k <= |cs| :: BelowMaxima(lim, StateAt(r, cs, k))) <==>
            BelowMaxima(lim, r) &&
            forall i | 0 <= i < Min(|vp|, |pu|) ::
              r.procs + Truncate(vp[i]) <= lim.maxProcs && r.units + pu[i] <= lim.maxUnits
  {
    hide Run, Flat, SharedMix, Truncate;
    SharedMixAlwaysIff(vp, pu, r, s => BelowMaxima(lim, s));
    forall i | 0 <= i < Min(|vp|, |pu|) && BelowMaxima(lim, r)
      ensures BelowMaxima(lim, MoreProcs(r, vp, i)) && BelowMaxima(lim, MorePair(r, vp, pu, i)) <==>
              r.procs + Truncate(vp[i]) <= lim.maxProcs && r.units + pu[i] <= lim.maxUnits
    {
    }
  }

  predicate BelowMaxima(lim: Limits, r: Resources) {
    r.procs <= lim.maxProcs && r.units <= lim.maxUnits
  }

  /** And units stay within processors at every command if and only if they do at the start
      and in both states inside every pair. */
  lemma SharedMixUnitsWithinProcsIff(vp: Payload, pu: Payload, r: Resources)
    ensures var cs := FlatAll(SharedMix(vp, pu));
            (forall k | 0 <= k <= |cs| :: UnitsWithinProcs(StateAt(r, cs, k))) <==>
            UnitsWithinProcs(r) &&
            forall i | 0 <= i < Min(|vp|, |pu|) ::
              var more := (r.procs + Truncate(vp[i])) as real;
              r.units <= more && r.units + pu[i] <= more
  {
    hide Run, Flat, SharedMix, Truncate;
    SharedMixAlwaysIff(vp, pu, r, s => UnitsWithinProcs(s));
    forall i | 0 <= i < Min(|vp|, |pu|)
      ensures UnitsWithinProcs(MoreProcs(r, vp, i)) && UnitsWithinProcs(MorePair(r, vp, pu, i)) <==>
              var more := (r.procs + Truncate(vp[i])) as real;
              r.units <= more && r.units + pu[i] <= more
    {
    }
  }

  lemma PairAmounts(lim: Limits, r: Resources, i: nat)
    requires r.procs <= lim.maxProcs && r.units <= lim.maxUnits && i < SharedPairs(lim, r)
    ensures var vp, pu := Times(VirtualStep(lim.maxProcs), i + 1), Times(0.75, i + 1);
            && 0 <= Truncate(vp) <= lim.maxProcs - r.procs
            && 0.0 < pu <= lim.maxUnits - r.units
            && pu <= Truncate(vp) as real
  {
    var step := VirtualStep(lim.maxProcs);
    RatioAlwaysAllowed(lim.maxProcs, i);
    TimesIsProduct(step, i + 1);
    TimesIsProduct(0.75, i + 1);
    RampEntryWithinRoom((lim.maxProcs - r.procs) as real, step, i);
    RampEntryWithinRoom(lim.maxUnits - r.units, 0.75, i);
  }

  lemma RampEntryWithinRoom(room: real, step: real, i: nat)
    requires step > 0.0 && room >= 0.0 && i < RungsFrom(room, step, 0)
    ensures 0.0 < Times(step, i + 1) <= room
  {
    RampWithinRoom(room, step, i);
    RampWithinRoom(room, step, i + 1);
    TimesIsProduct(step, i + 1);
    ScaleOrder(step, 0.0, (i + 1) as real);
  }

  // ----- whole rounds of add, remove and mix -----

  /** In both modes removing a plan undoes adding it. */
  lemma RemoveUndoesAdd(mode: Mode, lim: Limits, r: Resources)
    ensures var lines := AddLines(mode, lim, r);
            Run(Run(r, FlatAll(AddRounds(mode, lines))), FlatAll(RemoveRounds(mode, lines))) == r
  {
    match mode
    case Dedicated => DedicatedRemoveReturns(lim, r, 0);
    case Shared =>
      var n := SharedPairs(lim, r);
      SharedRemoveRetracesAdd(r, Ramp(VirtualStep(lim.maxProcs), n), Ramp(0.75, n), 0);
  }

  /** A completed mixed run changes nothing, whatever lines it reads. */
  lemma MixIsNeutral(mode: Mode, lines: seq<Payload>, rnd: nat -> nat, r: Resources)
    requires Readable(mode, lines)
    ensures Run(r, FlatAll(MixRounds(mode, lines, rnd))) == r
  {
    match mode
    case Dedicated => DedicatedMixStates(r, MixParts(lines[0], rnd), 0);
    case Shared => SharedMixBoundaries(r, lines[0], lines[1]);
  }

  /** The whole list of a passed test has been run. */
  lemma PassedRanAll(accepts: nat -> bool, before: Progress, cs: seq<Command>, after: Progress)
    requires Followed(accepts, before, cs, after, true)
    ensures after.now == Run(before.now, cs)
  {
    assert cs[..|cs|] == cs;
  }

  // ----- runs stopped at any command -----

  /** A dedicated add run that carried out `k` commands has added 1 + ... + k processors. */
  lemma StoppedAddLeavesPrefix(accepts: nat -> bool, lim: Limits, before: Progress, after: Progress, ok: bool)
    requires Followed(accepts, before, FlatAll(AddRounds(Dedicated, AddLines(Dedicated, lim, before.now))), after, ok)
    ensures var k := |after.done| - |before.done|;
            && k >= 0
            && after.now == before.now.(procs := before.now.procs + Triangular(k))
            && after.now.procs <= Max(lim.maxProcs, before.now.procs)
  {
    DedicatedAddFillsToMax(lim, before.now, |after.done| - |before.done|);
  }

  /** A shared add run that carried out `k` commands has added the units of the first
      (k + 1) / 2 pairs and the processors of the first k / 2 pairs. */
  lemma StoppedSharedAddLeavesPrefix(accepts: nat -> bool, lim: Limits, before: Progress, after: Progress, ok: bool)
    requires Followed(accepts, before, FlatAll(AddRounds(Shared, AddLines(Shared, lim, before.now))), after, ok)
    ensures var k := |after.done| - |before.done|;
            && 0 <= k <= 2 * SharedPairs(lim, before.now)
            && after.now.procs == before.now.procs + (if lim.maxProcs > 20 then 2 else 1) * Triangular(k / 2)
            && after.now.units == before.now.units + 0.75 * Triangular((k + 1) / 2) as real
  {
    SharedAddStateClosed(lim, before.now, 0);
    SharedAddStateClosed(lim, before.now, |after.done| - |before.done|);
  }

  /** A dedicated removal run of the plan stopped after `k` commands is 1 + ... + k
      processors below where it started. */
  lemma StoppedRemoveLeavesPrefix(accepts: nat -> bool, lim: Limits, r: Resources,
                                  before: Progress, after: Progress, ok: bool)
    requires Followed(accepts, before, FlatAll(RemoveRounds(Dedicated, AddLines(Dedicated, lim, r))), after, ok)
    ensures var k := |after.done| - |before.done|;
            && 0 <= k <= |FlatAll(AddRounds(Dedicated, AddLines(Dedicated, lim, r)))|
            && after.now == before.now.(procs := before.now.procs - Triangular(k))
  {
    hide Flat, Run;
    DedicatedRemoveState(lim, r, before.now, 0);
    DedicatedRemoveState(lim, r, before.now, |after.done| - |before.done|);
  }

  /** A shared removal run, started where the add run ended and stopped after `k` commands,
      is in the state the add run had `k` commands before its end. */
  lemma StoppedSharedRemoveLeavesPrefix(accepts: nat -> bool, lim: Limits, r: Resources,
                                        before: Progress, after: Progress, ok: bool)
    requires before.now == Run(r, FlatAll(AddRounds(Shared, AddLines(Shared, lim, r))))
    requires Followed(accepts, before, FlatAll(RemoveRounds(Shared, AddLines(Shared, lim, r))), after, ok)
    ensures var k := |after.done| - |before.done|;
            var add := FlatAll(AddRounds(Shared, AddLines(Shared, lim, r)));
            && 0 <= k <= |add|
            && after.now == StateAt(r, add, |add| - k)
  {
    hide Flat, Run, SharedPairs;
    var n := SharedPairs(lim, r);
    var vp, pu := Ramp(VirtualStep(lim.maxProcs), n), Ramp(0.75, n);
    SharedRemoveRetracesAdd(r, vp, pu, 0);
    SharedRemoveRetracesAdd(r, vp, pu, |after.done| - |before.done|);
  }

  lemma DedicatedRemoveState(lim: Limits, r: Resources, top: Resources, k: nat)
    requires k <= |FlatAll(RemoveRounds(Dedicated, AddLines(Dedicated, lim, r)))|
    ensures var plan := AddLines(Dedicated, lim, r);
            var cs := FlatAll(RemoveRounds(Dedicated, plan));
            && |FlatAll(AddRounds(Dedicated, plan))| == |cs|
            && StateAt(top, cs, k) == top.(procs := top.procs - Triangular(k))
  {
    hide Run, Flat;
    var p := CpuPlan((lim.maxProcs - r.procs) as real, 1.0);
    DedicatedStates(top, p, 0);
    DedicatedStates(top, p, k);
    ProcsInUnitRamp(|p|, k);
  }

  /** A dedicated mixed run stopped after `k` commands is at its start, or exactly one part
      above it. */
  lemma StoppedMixLeavesPrefix(accepts: nat -> bool, p: Payload, rnd: nat -> nat,
                               before: Progress, after: Progress, ok: bool)
    requires Followed(accepts, before, FlatAll(MixRounds(Dedicated, [p], rnd)), after, ok)
    ensures var k := |after.done| - |before.done|;
            var parts := MixParts(p, rnd);
            && 0 <= k <= 2 * |parts|
            && (k % 2 == 0 ==> after.now == before.now)
            && (k % 2 == 1 ==> after.now == before.now.(procs := before.now.procs + parts[k / 2]))
  {
    var k := |after.done| - |before.done|;
    var parts := MixParts(p, rnd);
    var cs := FlatAll(DedicatedMix(parts));
    DedicatedMixStates(before.now, parts, 0);
    if k < |cs| {
      DedicatedMixStates(before.now, parts, k / 2);
      assert k == 2 * (k / 2) || k == 2 * (k / 2) + 1;
    } else {
      assert cs[..k] == cs;
    }
  }

  /** A shared mixed run on any two lines stopped after `k` commands is at its start, has
      the processors of pair k / 4 more, or its units as well. */
  lemma StoppedSharedMixLeavesPrefix(accepts: nat -> bool, vp: Payload, pu: Payload, rnd: nat -> nat,
                                     before: Progress, after: Progress, ok: bool)
    requires Followed(accepts, before, FlatAll(MixRounds(Shared, [vp, pu], rnd)), after, ok)
    ensures var k := |after.done| - |before.done|;
            && 0 <= k <= 4 * Min(|vp|, |pu|)
            && if k % 4 == 0 then after.now == before.now
               else if k % 4 == 2 then after.now == MorePair(before.now, vp, pu, k / 4)
               else after.now == MoreProcs(before.now, vp, k / 4)
  {
    hide Run, Flat, SharedMix;
    SharedMixState(before.now, vp, pu, |after.done| - |before.done|);
  }

  // ----- whole runs -----

  /** Any number of rounds of the three tests, each with its own random draws `rnds(i)`,
      started without a file: if every command is accepted the partition is back where it
      started and no file is left behind. */
  method RunRounds(mode: Mode, l: Lpar, f: ConfigFile, rnds: nat -> nat -> nat, rounds: nat) returns (passed: bool)
    requires f.lines == None
    modifies l, f
    ensures passed ==> l.Now() == old(l.Now()) && f.lines == None
    ensures (forall k :: k >= old(l.issued) ==> l.accepts(k)) ==> passed
  {
    for i := 0 to rounds
      invariant l.Now() == old(l.Now()) && f.lines == None
      invariant l.issued >= old(l.issued)
    {
      var outcome := RunRound(mode, l, f, rnds(i));
      if outcome != Passed {
        return false;
      }
    }
    return true;
  }

  method RunRound(mode: Mode, l: Lpar, f: ConfigFile, rnd: nat -> nat) returns (outcome: Outcome)
    requires f.lines == None
    modifies l, f
    ensures outcome != Crashed
    ensures outcome == Passed ==> l.Now() == old(l.Now()) && f.lines == None
    ensures l.issued >= old(l.issued)
    ensures outcome == Stopped ==> exists k :: k >= old(l.issued) && !l.accepts(k)
  {
    ghost var lines := AddLines(mode, LimitsOf(l), l.Now());
    assert [] + lines == lines;
    ghost var p0 := l.Observe();
    outcome := TestCpuAdd(mode, l, f);
    if outcome != Passed {
      return;
    }
    ghost var p1 := l.Observe();
    PassedRanAll(l.accepts, p0, FlatAll(AddRounds(mode, lines)), p1);
    outcome := TestCpuRm(mode, l, f);
    if outcome != Passed {
      return;
    }
    ghost var p2 := l.Observe();
    PassedRanAll(l.accepts, p1, FlatAll(RemoveRounds(mode, lines)), p2);
    RemoveUndoesAdd(mode, LimitsOf(l), p0.now);
    outcome := TestMixCpu(mode, l, f, rnd);
    if outcome == Passed {
      PassedRanAll(l.accepts, p2, FlatAll(MixRounds(mode, lines, rnd)), l.Observe());
      MixIsNeutral(mode, lines, rnd, p2.now);
    }
  }
}

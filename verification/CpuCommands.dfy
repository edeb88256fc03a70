/** The file lines and the commands of the processor tests, entry by entry and in numbers:
    how long every list is, and what stands at every position of it. */
module CpuCommands {
  import opened Arithmetic
  import opened Positions
  import opened Partition
  import opened CpuPlans
  import opened CpuRuns
  import opened CpuRunProperties

  // ----- the plans in the file -----

  /** The dedicated line is 1, 2, 3, ... and has an n-th entry if and only if 1 + ... + n
      processors are free. */
  lemma DedicatedLineIsLongest(lim: Limits, r: Resources, n: nat)
    requires n > 0
    ensures var lines := AddLines(Dedicated, lim, r);
            && |lines| == 1
            && (forall i | 0 <= i < |lines[0]| :: lines[0][i] == (i + 1) as real)
            && (n <= |lines[0]| <==> n * (n + 1) <= 2 * (lim.maxProcs - r.procs))
  {
    CpuPlanIsLongest((lim.maxProcs - r.procs) as real, 1.0, n);
  }

  /** The two shared lines are equally long, steps of one or two processors and of 0.75
      units; they have an n-th pair if and only if n steps of both kinds are free, so they end
      only where the processors or the units can take no more. */
  lemma SharedLinesAreLongest(lim: Limits, r: Resources, n: nat)
    requires n > 0
    ensures var lines := AddLines(Shared, lim, r);
            var step := if lim.maxProcs > 20 then 2 else 1;
            && |lines| == 2 && |lines[0]| == |lines[1]|
            && (forall i | 0 <= i < |lines[0]| ::
                  lines[0][i] == (step * (i + 1)) as real && lines[1][i] == 0.75 * (i + 1) as real)
            && (n <= |lines[0]| <==>
                && step * (n * (n + 1)) <= 2 * (lim.maxProcs - r.procs)
                && 0.75 * (n * (n + 1)) as real <= 2.0 * (lim.maxUnits - r.units))
  {
    hide RungsFrom, Ramp, Times;
    var lines := AddLines(Shared, lim, r);
    forall i | 0 <= i < |lines[0]|
      ensures lines[0][i] == ((if lim.maxProcs > 20 then 2 else 1) * (i + 1)) as real
      ensures lines[1][i] == 0.75 * (i + 1) as real
    {
      RampEntry(VirtualStep(lim.maxProcs), |lines[0]|, i);
      RampEntry(0.75, |lines[0]|, i);
    }
    SharedLength(lim, r, n);
  }

  lemma RampEntry(step: real, n: nat, i: nat)
    requires i < n
    ensures Ramp(step, n)[i] == step * (i + 1) as real
  {
    TimesIsProduct(step, i + 1);
  }

  lemma SharedLength(lim: Limits, r: Resources, n: nat)
    requires n > 0
    ensures n <= SharedPairs(lim, r) <==>
            && (if lim.maxProcs > 20 then 2 else 1) * (n * (n + 1)) <= 2 * (lim.maxProcs - r.procs)
            && 0.75 * (n * (n + 1)) as real <= 2.0 * (lim.maxUnits - r.units)
  {
    CpuPlanIsLongest((lim.maxProcs - r.procs) as real, VirtualStep(lim.maxProcs), n);
    CpuPlanIsLongest(lim.maxUnits - r.units, 0.75, n);
  }

  // ----- the commands for any lines -----

  lemma AddCommands(mode: Mode, lines: seq<Payload>, i: nat)
    requires Readable(mode, lines)
    ensures var cs := FlatAll(AddRounds(mode, lines));
            match mode
            case Dedicated => |cs| == |lines[0]| && (i < |cs| ==> cs[i] == AddProcs(Truncate(lines[0][i])))
            case Shared =>
              var n := Min(|lines[0]|, |lines[1]|);
              && |cs| == 2 * n
              && (i < n ==> cs[2 * i] == AddUnits(lines[1][i]) && cs[2 * i + 1] == AddProcs(Truncate(lines[0][i])))
  {
    match mode
    case Dedicated => RoundOfOne(AddRounds(mode, lines), i);
    case Shared => RoundOfTwo(AddRounds(mode, lines), i);
  }

  /** In shared mode the removal starts at the ends of both lines, and with the processors. */
  lemma RemoveCommands(mode: Mode, lines: seq<Payload>, i: nat)
    requires Readable(mode, lines)
    ensures var cs := FlatAll(RemoveRounds(mode, lines));
            match mode
            case Dedicated => |cs| == |lines[0]| && (i < |cs| ==> cs[i] == RemoveProcs(Truncate(lines[0][i])))
            case Shared =>
              var vp, pu := lines[0], lines[1];
              var n := Min(|vp|, |pu|);
              && |cs| == 2 * n
              && (i < n ==>
                  && cs[2 * i] == RemoveProcs(Truncate(vp[|vp| - 1 - i]))
                  && cs[2 * i + 1] == RemoveUnits(pu[|pu| - 1 - i]))
  {
    match mode
    case Dedicated => RoundOfOne(RemoveRounds(mode, lines), i);
    case Shared => RoundOfTwo(RemoveRounds(mode, lines), i);
  }

  /** In dedicated mode every part of the random split is added and removed, in order, and
      then the whole total of the line (nothing for a negative one). */
  lemma MixCommands(mode: Mode, lines: seq<Payload>, rnd: nat -> nat, i: nat)
    requires Readable(mode, lines)
    ensures var cs := FlatAll(MixRounds(mode, lines, rnd));
            match mode
            case Dedicated =>
              var parts, total := MixPlan(lines[0], rnd), Max(0, Truncate(SumReal(lines[0])));
              && |cs| == 2 * |parts| + 2
              && (i < |parts| ==> cs[2 * i] == AddProcs(parts[i]) && cs[2 * i + 1] == RemoveProcs(parts[i]))
              && cs[|cs| - 2] == AddProcs(total) && cs[|cs| - 1] == RemoveProcs(total)
            case Shared =>
              var n := Min(|lines[0]|, |lines[1]|);
              && |cs| == 4 * n
              && (i < n ==>
                  var procs, units := Truncate(lines[0][i]), lines[1][i];
                  && cs[4 * i] == AddProcs(procs) && cs[4 * i + 1] == AddUnits(units)
                  && cs[4 * i + 2] == RemoveUnits(units) && cs[4 * i + 3] == RemoveProcs(procs))
  {
    var rounds := MixRounds(mode, lines, rnd);
    match mode
    case Dedicated =>
      var last := |MixPlan(lines[0], rnd)|;
      MixPartsAreBounded(lines[0], rnd, last);
      RoundOfTwo(rounds, i);
      RoundOfTwo(rounds, last);
    case Shared => RoundOfFour(rounds, i);
  }

  // ----- the add runs in numbers -----

  /** The i-th command of the dedicated add run adds i + 1 processors, and is there if and
      only if that many fit on top of the ones before. */
  lemma DedicatedAddCommands(lim: Limits, r: Resources, i: nat)
    ensures var cs := FlatAll(AddRounds(Dedicated, AddLines(Dedicated, lim, r)));
            && (i < |cs| <==> (i + 1) * (i + 2) <= 2 * (lim.maxProcs - r.procs))
            && (i < |cs| ==> cs[i] == AddProcs(i + 1))
  {
    AddCommands(Dedicated, AddLines(Dedicated, lim, r), i);
    DedicatedLineIsLongest(lim, r, i + 1);
  }

  /** Pair i of the shared add run adds 0.75 * (i + 1) units and then i + 1 steps of
      processors, and is there if and only if both fit. */
  lemma SharedAddCommands(lim: Limits, r: Resources, i: nat)
    ensures var cs := FlatAll(AddRounds(Shared, AddLines(Shared, lim, r)));
            var step := if lim.maxProcs > 20 then 2 else 1;
            && |cs| % 2 == 0
            && (2 * i < |cs| <==>
                && step * ((i + 1) * (i + 2)) <= 2 * (lim.maxProcs - r.procs)
                && 0.75 * ((i + 1) * (i + 2)) as real <= 2.0 * (lim.maxUnits - r.units))
            && (2 * i < |cs| ==>
                cs[2 * i] == AddUnits(0.75 * (i + 1) as real) && cs[2 * i + 1] == AddProcs(step * (i + 1)))
  {
    hide AddRounds;
    AddCommands(Shared, AddLines(Shared, lim, r), i);
    SharedLinesAreLongest(lim, r, i + 1);
  }

  // ----- the filter on any lists -----

  /** For any two lists, the filter keeps exactly the positions whose units are between a
      twentieth of the processors and all of them, in order. */
  lemma {:induction false} FilterKeeps(vp: Payload, pu: Payload, n: nat) returns (kept: seq<nat>)
    requires n <= |vp| && n <= |pu| && NoZero(vp)
    ensures Lists(kept, n, (i: nat) => i < |vp| && i < |pu| && UnitsSuitProcs(pu[i], vp[i]))
    ensures var (v, u) := Allowed(vp, pu, n);
            && |v| == |u| == |kept|
            && forall j | 0 <= j < |kept| ::
                 kept[j] < n && v[j] == Truncate(vp[kept[j]]) as real && u[j] == pu[kept[j]]
  {
    if n == 0 {
      kept := [];
    } else {
      var before := FilterKeeps(vp, pu, n - 1);
      RatioAllowedIff(pu[n - 1], vp[n - 1]);
      kept := before + if UnitsSuitProcs(pu[n - 1], vp[n - 1]) then [n - 1] else [];
      ListsNext(before, n - 1, (i: nat) => i < |vp| && i < |pu| && UnitsSuitProcs(pu[i], vp[i]), kept);
    }
  }

  /** Without a division; a negative divisor turns the comparisons round. */
  predicate UnitsSuitProcs(units: real, procs: real) {
    if procs > 0.0 then procs <= 20.0 * units && units <= procs
    else 20.0 * units <= procs && procs <= units
  }

  lemma RatioAllowedIff(units: real, procs: real)
    requires procs != 0.0
    ensures RatioAllowed(units, procs) <==> UnitsSuitProcs(units, procs)
  {
    var q := units / procs;
    assert procs * q == units;
    if procs > 0.0 {
      ScaleOrder(procs, 0.05, q);
      ScaleOrder(procs, q, 1.0);
    } else {
      assert -procs * q == -units;
      ScaleOrder(-procs, 0.05, q);
      ScaleOrder(-procs, q, 1.0);
    }
  }
}

/** Runs that do not start from a clean `config.txt`: the add test stopped at any command, and
    old lines left in the file, which the removal and mixed tests read instead of the plan. */
module CpuFileRuns {
  import opened Arithmetic
  import opened Partition
  import opened CpuPlans
  import opened CpuRuns
  import opened CpuRunProperties

  // ----- what the add and the removal amount to -----

  /** The processors in the last `n` entries of a line. */
  function ProcsInLast(p: Payload, n: nat): int
    requires n <= |p|
  {
    ProcsIn(p, |p|) - ProcsIn(p, |p| - n)
  }

  function UnitsInLast(p: Payload, n: nat): real
    requires n <= |p|
  {
    UnitsIn(p, |p|) - UnitsIn(p, |p| - n)
  }

  /** What the removal test takes away when the file has these lines. In shared mode it uses
      as many entries, from the ends of the first two lines, as the shorter one has. */
  function Removed(mode: Mode, lines: seq<Payload>): (int, real)
    requires Readable(mode, lines)
  {
    match mode
    case Dedicated => (ProcsIn(lines[0], |lines[0]|), 0.0)
    case Shared =>
      var n := Min(|lines[0]|, |lines[1]|);
      (ProcsInLast(lines[0], n), UnitsInLast(lines[1], n))
  }

  function Changed(r: Resources, procs: int, units: real): Resources {
    r.(procs := r.procs + procs, units := r.units + units)
  }

  /** The first line of every plan holds whole numbers, so truncating an entry of it, as
      `RemoveShared` does, changes nothing. */
  lemma PlannedProcsAreWhole(mode: Mode, lim: Limits, r: Resources, i: nat)
    ensures var plan := AddLines(mode, lim, r);
            i < |plan[0]| ==> Truncate(plan[0][i]) as real == plan[0][i]
  {
    if i < |AddLines(mode, lim, r)[0]| {
      var step := if mode == Shared then VirtualStep(lim.maxProcs) else 1.0;
      assert AddLines(mode, lim, r)[0][i] == Times(step, i + 1);
      TimesIsProduct(step, i + 1);
      assert Times(step, i + 1) == (if step == 2.0 then 2 * (i + 1) else i + 1) as real;
    }
  }

  lemma SharedRemoveEffect(r: Resources, vp: Payload, pu: Payload)
    ensures Run(r, FlatAll(SharedRemove(vp, pu))) ==
            var n := Min(|vp|, |pu|);
            Changed(r, -ProcsInLast(vp, n), -UnitsInLast(pu, n))
  {
    var rounds, n := SharedRemove(vp, pu), Min(|vp|, |pu|);
    var states := seq(n + 1, i requires 0 <= i <= n => Changed(r, -ProcsInLast(vp, i), -UnitsInLast(pu, i)));
    forall i | 0 <= i < n
      ensures states[i + 1] == Run(states[i], rounds[i])
    {
      RunShort(states[i], rounds[i][0], rounds[i][1], []);
    }
    RunToBoundary(r, rounds, states, n);
  }

  lemma RemoveEffect(mode: Mode, r: Resources, lines: seq<Payload>)
    requires Readable(mode, lines)
    ensures var (procs, units) := Removed(mode, lines);
            Run(r, FlatAll(RemoveRounds(mode, lines))) == Changed(r, -procs, -units)
  {
    match mode
    case Dedicated => DedicatedAddEnds(r, lines[0]);
    case Shared => SharedRemoveEffect(r, lines[0], lines[1]);
  }

  /** What the first `k` commands of the add test amount to. */
  function Added(mode: Mode, lim: Limits, k: nat): (int, real) {
    match mode
    case Dedicated => (Triangular(k), 0.0)
    case Shared =>
      ((if lim.maxProcs > 20 then 2 else 1) * Triangular(k / 2), 0.75 * Triangular((k + 1) / 2) as real)
  }

  lemma AddEffect(mode: Mode, lim: Limits, r: Resources, k: nat)
    requires k <= |FlatAll(AddRounds(mode, AddLines(mode, lim, r)))|
    ensures var (procs, units) := Added(mode, lim, k);
            var s := StateAt(r, FlatAll(AddRounds(mode, AddLines(mode, lim, r))), k);
            s.procs == r.procs + procs && s.units == r.units + units && s.mem == r.mem
  {
    hide Run, Flat;
    match mode
    case Dedicated => DedicatedAddFillsToMax(lim, r, k);
    case Shared =>
      SharedAddStateClosed(lim, r, 0);
      SharedAddStateClosed(lim, r, k);
      MemUnchanged(lim, r, k);
  }

  lemma MemUnchanged(lim: Limits, r: Resources, k: nat)
    requires k <= 2 * SharedPairs(lim, r)
    requires |FlatAll(AddRounds(Shared, AddLines(Shared, lim, r)))| == 2 * SharedPairs(lim, r)
    ensures StateAt(r, FlatAll(AddRounds(Shared, AddLines(Shared, lim, r))), k).mem == r.mem
  {
    var n := SharedPairs(lim, r);
    SharedAddStates(r, Ramp(VirtualStep(lim.maxProcs), n), Ramp(0.75, n), k / 2);
    assert k == 2 * (k / 2) || k == 2 * (k / 2) + 1;
  }

  // ----- removal after an addition stopped anywhere -----

  /** The add test appends its whole plan to the old lines of the file before its first
      command. After it has carried out any `k` commands, the removal test restores the
      partition if and only if the entries it reads amount to what was added by then. With a
      single old line the shared removal reads that line as processors and the new processors
      as units. */
  lemma RemovalRestoresIff(mode: Mode, lim: Limits, r: Resources, older: seq<Payload>, k: nat)
    requires k <= |FlatAll(AddRounds(mode, AddLines(mode, lim, r)))|
    ensures var plan := AddLines(mode, lim, r);
            var stopped := StateAt(r, FlatAll(AddRounds(mode, plan)), k);
            Run(stopped, FlatAll(RemoveRounds(mode, older + plan))) == r <==>
            Removed(mode, older + plan) == Added(mode, lim, k)
  {
    hide Flat, Run, StateAt;
    var plan := AddLines(mode, lim, r);
    var stopped := StateAt(r, FlatAll(AddRounds(mode, plan)), k);
    AddEffect(mode, lim, r, k);
    RemoveEffect(mode, stopped, older + plan);
  }

  lemma {:induction false} TriangularStrict(m: nat, n: nat)
    requires m < n
    ensures Triangular(m) < Triangular(n)
    decreases n
  {
    if m < n - 1 {
      TriangularStrict(m, n - 1);
    }
  }

  lemma TriangularOneToOne(m: nat, n: nat)
    ensures Triangular(m) == Triangular(n) ==> m == n
  {
    if m < n {
      TriangularStrict(m, n);
    } else if n < m {
      TriangularStrict(n, m);
    }
  }

  /** Different numbers of commands add different amounts. */
  lemma AddedOneToOne(mode: Mode, lim: Limits, j: nat, k: nat)
    ensures Added(mode, lim, j) == Added(mode, lim, k) ==> j == k
  {
    TriangularOneToOne(j, k);
    TriangularOneToOne(j / 2, k / 2);
    TriangularOneToOne((j + 1) / 2, (k + 1) / 2);
  }

  /** On a new file the removal undoes the addition if and only if the addition ran to its
      end: a refused add leaves a plan behind that takes away too much. */
  lemma NewFileRestoresIff(mode: Mode, lim: Limits, r: Resources, k: nat)
    requires k <= |FlatAll(AddRounds(mode, AddLines(mode, lim, r)))|
    ensures var plan := AddLines(mode, lim, r);
            var add := FlatAll(AddRounds(mode, plan));
            Run(StateAt(r, add, k), FlatAll(RemoveRounds(mode, plan))) == r <==> k == |add|
  {
    hide Flat, Added, AddRounds, RemoveRounds;
    var plan := AddLines(mode, lim, r);
    var add := FlatAll(AddRounds(mode, plan));
    assert [] + plan == plan;
    assert add[..|add|] == add;
    RemovalRestoresIff(mode, lim, r, [], k);
    RemovalRestoresIff(mode, lim, r, [], |add|);
    RemoveUndoesAdd(mode, lim, r);
    AddedOneToOne(mode, lim, k, |add|);
  }

  /** The two tests on a partition and a file, whatever the file holds before and whether or
      not the add test is stopped: `k` is the number of its commands that were carried out. */
  method AddThenRemove(mode: Mode, l: Lpar, f: ConfigFile) returns (added: Outcome, removed: Outcome, ghost k: nat)
    modifies l, f
    ensures added != Crashed && removed != Crashed
    ensures var plan := AddLines(mode, LimitsOf(l), old(l.Now()));
            var lines := LinesIn(old(f.lines)) + plan;
            var add := FlatAll(AddRounds(mode, plan));
            && f.lines == Some(lines)
            && k <= |add| && (added == Passed <==> k == |add|)
            && (removed == Passed ==>
                && l.done == old(l.done) + add[..k] + FlatAll(RemoveRounds(mode, lines))
                && (l.Now() == old(l.Now()) <==> Removed(mode, lines) == Added(mode, LimitsOf(l), k)))
  {
    ghost var lim, older, p0 := LimitsOf(l), LinesIn(f.lines), l.Observe();
    ghost var plan := AddLines(mode, lim, p0.now);
    ghost var remove := FlatAll(RemoveRounds(mode, older + plan));
    added := TestCpuAdd(mode, l, f);
    ghost var p1 := l.Observe();
    k := |p1.done| - |p0.done|;
    removed := TestCpuRm(mode, l, f);
    if removed == Passed {
      PassedRanAll(l.accepts, p1, remove, l.Observe());
      assert remove[..|remove|] == remove;
      RemovalRestoresIff(mode, lim, p0.now, older, k);
    }
  }

  // ----- concrete runs -----

  /** Room for ten more processors, an add run refused after two commands, then the removal:
      the partition ends seven processors below its start. */
  lemma RemovalAfterStoppedAdd(r: Resources, lim: Limits)
    requires lim.maxProcs == r.procs + 10
    ensures var lines := AddLines(Dedicated, lim, r);
            var add := FlatAll(AddRounds(Dedicated, lines));
            && |add| == 4
            && StateAt(r, add, 2).procs == r.procs + 3
            && Run(StateAt(r, add, 2), FlatAll(RemoveRounds(Dedicated, lines))).procs == r.procs - 7
  {
    var p := PlanOfTen(r, lim);
    DedicatedAddEnds(StateAt(r, FlatAll(DedicatedAdd(p)), 2), p);
    ProcsInUnitRamp(4, 4);
  }

  lemma PlanOfTen(r: Resources, lim: Limits) returns (p: Payload)
    requires lim.maxProcs == r.procs + 10
    ensures p == Ramp(1.0, 4) && AddLines(Dedicated, lim, r) == [p]
    ensures Triangular(2) == 3 && Triangular(3) == 6 && Triangular(4) == 10
    ensures |FlatAll(DedicatedAdd(p))| == 4
    ensures StateAt(r, FlatAll(DedicatedAdd(p)), 2) == r.(procs := r.procs + 3)
  {
    assert Triangular(2) == 3 && Triangular(3) == 6 && Triangular(4) == 10;
    p := Ramp(1.0, 4);
    UnitRampOf(10, 4);
    DedicatedStates(r, p, 2);
    ProcsInUnitRamp(4, 2);
  }

  /** Repeating the add instead and then removing takes one processor more than the partition
      had at the start. */
  lemma StaleFileAfterStoppedAdd(r: Resources, lim: Limits)
    requires lim.maxProcs == r.procs + 10
    ensures var lines := AddLines(Dedicated, lim, r);
            var add := FlatAll(AddRounds(Dedicated, lines));
            |add| == 4 &&
            var stopped := StateAt(r, add, 2);
            var again := AddLines(Dedicated, lim, stopped);
            var top := Run(stopped, FlatAll(AddRounds(Dedicated, again)));
            && stopped.procs == r.procs + 3
            && top.procs == r.procs + 9
            && Run(top, FlatAll(RemoveRounds(Dedicated, lines + again))).procs == r.procs - 1
  {
    var p := PlanOfTen(r, lim);
    var q := Ramp(1.0, 3);
    var stopped := StateAt(r, FlatAll(DedicatedAdd(p)), 2);
    UnitRampOf(7, 3);
    DedicatedAddEnds(stopped, q);
    DedicatedAddEnds(Run(stopped, FlatAll(DedicatedAdd(q))), p);
    ProcsInUnitRamp(4, 4);
    ProcsInUnitRamp(3, 3);
  }

  /** The mixed test after the stopped add: for every random split the last addition leaves
      three processors more than the maximum. */
  lemma MixAfterStoppedAdd(r: Resources, lim: Limits, rnd: nat -> nat)
    requires lim.maxProcs == r.procs + 10
    ensures var lines := AddLines(Dedicated, lim, r);
            var add := FlatAll(AddRounds(Dedicated, lines));
            |add| == 4 &&
            var stopped := StateAt(r, add, 2);
            var mix := FlatAll(MixRounds(Dedicated, lines, rnd));
            |mix| >= 2 && StateAt(stopped, mix, |mix| - 1).procs == lim.maxProcs + 3
  {
    var p := PlanOfTen(r, lim);
    var stopped := StateAt(r, FlatAll(DedicatedAdd(p)), 2);
    var last := MixPartsNotEmpty(p, rnd);
    UnitRampTotal(4);
    MixPartsAreBounded(p, rnd, last);
    DedicatedMixStates(stopped, MixParts(p, rnd), last);
  }

  lemma UnitRampOf(room: nat, n: nat)
    requires Triangular(n) <= room < Triangular(n) + n + 1
    ensures CpuPlan(room as real, 1.0) == Ramp(1.0, n)
  {
    RampTotalIsTriangular(1.0, n);
    RampTotalIsTriangular(1.0, n + 1);
    LongestIsUnique(room as real, 1.0, n);
  }
}

/** The processor tests of a partition: add, remove and mixed runs in dedicated and shared
    mode, and the `config.txt` file that carries a plan from one test to the next. */
module CpuRuns {
  import opened Arithmetic
  import opened Partition
  import opened CpuPlans

  type Payload = seq<real>

  datatype Mode = Dedicated | Shared

  /** Stopped: a command was refused. Crashed: the file or a line of it was missing. */
  datatype Outcome = Passed | Stopped | Crashed

  datatype Limits = Limits(maxProcs: int, maxUnits: real)

  function LimitsOf(l: Lpar): Limits {
    Limits(l.maxProcs, l.maxProcUnits)
  }

  // ----- the command lists of the tests -----

  /** The whole processors of the first `n` entries of a plan. */
  function ProcsIn(p: Payload, n: nat): int
    requires n <= |p|
  {
    if n == 0 then 0 else ProcsIn(p, n - 1) + Truncate(p[n - 1])
  }

  function UnitsIn(p: Payload, n: nat): real
    requires n <= |p|
  {
    if n == 0 then 0.0 else UnitsIn(p, n - 1) + p[n - 1]
  }

  function DedicatedAdd(p: Payload): seq<seq<Command>> {
    seq(|p|, i requires 0 <= i < |p| => [AddProcs(Truncate(p[i]))])
  }

  function DedicatedRemove(p: Payload): seq<seq<Command>> {
    seq(|p|, i requires 0 <= i < |p| => [RemoveProcs(Truncate(p[i]))])
  }

  function DedicatedMix(parts: seq<int>): seq<seq<Command>> {
    seq(|parts|, i requires 0 <= i < |parts| => [AddProcs(parts[i]), RemoveProcs(parts[i])])
  }

  function SharedAdd(vp: Payload, pu: Payload): seq<seq<Command>> {
    var n := Min(|vp|, |pu|);
    seq(n, i requires 0 <= i < n => [AddUnits(pu[i]), AddProcs(Truncate(vp[i]))])
  }

  /** Both lists are walked from their last elements, until the shorter one is used up. */
  function SharedRemove(vp: Payload, pu: Payload): seq<seq<Command>> {
    var n := Min(|vp|, |pu|);
    seq(n, i requires 0 <= i < n =>
      [RemoveProcs(Truncate(vp[|vp| - 1 - i])), RemoveUnits(pu[|pu| - 1 - i])])
  }

  function SharedMix(vp: Payload, pu: Payload): seq<seq<Command>> {
    var n := Min(|vp|, |pu|);
    seq(n, i requires 0 <= i < n =>
      [AddProcs(Truncate(vp[i])), AddUnits(pu[i]), RemoveUnits(pu[i]), RemoveProcs(Truncate(vp[i]))])
  }

  // ----- planning -----

  function VirtualStep(maxProcs: int): real {
    if maxProcs > 20 then 2.0 else 1.0
  }

  /** How many pairs of units and virtual processors fit below both maxima. */
  function SharedPairs(lim: Limits, now: Resources): nat {
    Min(RungsFrom((lim.maxProcs - now.procs) as real, VirtualStep(lim.maxProcs), 0),
        RungsFrom(lim.maxUnits - now.units, 0.75, 0))
  }

  /** The lines the add test appends to the file. */
  function AddLines(mode: Mode, lim: Limits, now: Resources): seq<Payload> {
    match mode
    case Dedicated => [CpuPlan((lim.maxProcs - now.procs) as real, 1.0)]
    case Shared =>
      var n := SharedPairs(lim, now);
      [Ramp(VirtualStep(lim.maxProcs), n), Ramp(0.75, n)]
  }

  predicate Readable(mode: Mode, lines: seq<Payload>) {
    |lines| >= if mode == Dedicated then 1 else 2
  }

  function AddRounds(mode: Mode, lines: seq<Payload>): seq<seq<Command>>
    requires Readable(mode, lines)
  {
    match mode
    case Dedicated => DedicatedAdd(lines[0])
    case Shared => SharedAdd(lines[0], lines[1])
  }

  function RemoveRounds(mode: Mode, lines: seq<Payload>): seq<seq<Command>>
    requires Readable(mode, lines)
  {
    match mode
    case Dedicated => DedicatedRemove(lines[0])
    case Shared => SharedRemove(lines[0], lines[1])
  }

  /** The dedicated mixed run uses a random split and, last, its whole sum. */
  function MixParts(p: Payload, rnd: nat -> nat): seq<int> {
    MixPlan(p, rnd) + [Sum(MixPlan(p, rnd))]
  }

  function MixRounds(mode: Mode, lines: seq<Payload>, rnd: nat -> nat): seq<seq<Command>>
    requires Readable(mode, lines)
  {
    match mode
    case Dedicated => DedicatedMix(MixParts(lines[0], rnd))
    case Shared => SharedMix(lines[0], lines[1])
  }

  // ----- the filter on the units-to-processors ratio -----

  predicate RatioAllowed(pu: real, vp: real)
    requires vp != 0.0
  {
    0.05 <= pu / vp <= 1.0
  }

  /** For both virtual steps no ramp entry is zero and every pair passes the filter. */
  lemma RatioAlwaysAllowed(maxProcs: int, i: nat)
    ensures var v := Times(VirtualStep(maxProcs), i + 1);
            v != 0.0 && RatioAllowed(Times(0.75, i + 1), v) && Truncate(v) as real == v
  {
    var step := VirtualStep(maxProcs);
    var v := Times(step, i + 1);
    TimesIsProduct(step, i + 1);
    TimesIsProduct(0.75, i + 1);
    assert v == (if maxProcs > 20 then 2 * (i + 1) else i + 1) as real;
    QuotientInBounds(Times(0.75, i + 1), v);
  }

  lemma QuotientInBounds(u: real, v: real)
    requires v > 0.0 && 0.05 * v <= u <= v
    ensures RatioAllowed(u, v)
  {
    var q := u / v;
    assert v * q == u;
    ScaleOrder(v, 0.05, q);
    ScaleOrder(v, q, 1.0);
  }

  predicate NoZero(vp: Payload) {
    forall i | 0 <= i < |vp| :: vp[i] != 0.0
  }

  /** The pairs among the first `n` whose ratio is allowed; processors become integers. */
  function Allowed(vp: Payload, pu: Payload, n: nat): (r: (Payload, Payload))
    requires n <= |vp| && n <= |pu| && NoZero(vp)
  {
    if n == 0 then ([], [])
    else
      var (v, u) := Allowed(vp, pu, n - 1);
      if RatioAllowed(pu[n - 1], vp[n - 1]) then
        (v + [Truncate(vp[n - 1]) as real], u + [pu[n - 1]])
      else
        (v, u)
  }

  method FilterByRatio(virtualProcs: Payload, procUnits: Payload) returns (Vp: Payload, Pu: Payload)
    requires |virtualProcs| == |procUnits| && NoZero(virtualProcs)
    ensures (Vp, Pu) == Allowed(virtualProcs, procUnits, |procUnits|)
  {
    Pu, Vp := [], [];
    for i := 0 to |procUnits|
      invariant (Vp, Pu) == Allowed(virtualProcs, procUnits, i)
    {
      var ratio := procUnits[i] / virtualProcs[i];
      if 0.05 <= ratio <= 1.0 {
        Pu := Pu + [procUnits[i]];
        Vp := Vp + [Truncate(virtualProcs[i]) as real];
      }
    }
  }

  /** On planned lists the filter keeps every pair, and the processors already are whole. */
  lemma {:induction false} FilterKeepsEveryPair(maxProcs: int, n: nat, k: nat)
    requires k <= n
    ensures var vp, pu := Ramp(VirtualStep(maxProcs), n), Ramp(0.75, n);
            NoZero(vp) && Allowed(vp, pu, k) == (vp[..k], pu[..k])
  {
    var vp, pu := Ramp(VirtualStep(maxProcs), n), Ramp(0.75, n);
    forall i: nat | i < n
      ensures vp[i] != 0.0
    {
      RatioAlwaysAllowed(maxProcs, i);
    }
    if k > 0 {
      FilterKeepsEveryPair(maxProcs, n, k - 1);
      RatioAlwaysAllowed(maxProcs, k - 1);
      AllowedStep(vp, pu, k - 1);
    }
  }

  /** A pair that passes is appended to the kept ones. */
  lemma AllowedStep(vp: Payload, pu: Payload, k: nat)
    requires k < |vp| && k < |pu| && NoZero(vp)
    requires RatioAllowed(pu[k], vp[k]) && Truncate(vp[k]) as real == vp[k]
    requires Allowed(vp, pu, k) == (vp[..k], pu[..k])
    ensures Allowed(vp, pu, k + 1) == (vp[..k + 1], pu[..k + 1])
  {
    hide RatioAllowed, Truncate;
    assert vp[..k] + [vp[k]] == vp[..k + 1] && pu[..k] + [pu[k]] == pu[..k + 1];
  }

  /** Plans both lists, cuts the longer one, and filters the pairs by their ratio. */
  method PlanShared(lim: Limits, now: Resources) returns (Vp: Payload, Pu: Payload)
    ensures [Vp, Pu] == AddLines(Shared, lim, now)
  {
    var virtualProcs: Payload;
    if lim.maxProcs > 20 {
      virtualProcs := CpuPayloadData(lim.maxProcs as real, now.procs as real, 2.0);
    } else {
      virtualProcs := CpuPayloadData(lim.maxProcs as real, now.procs as real, 1.0);
    }
    var procUnits := CpuPayloadData(lim.maxUnits, now.units, 0.75);
    ghost var step := VirtualStep(lim.maxProcs);
    assert virtualProcs == CpuPlan((lim.maxProcs - now.procs) as real, step);
    if |procUnits| > |virtualProcs| {
      procUnits := procUnits[..|virtualProcs|];
    } else if |procUnits| < |virtualProcs| {
      virtualProcs := virtualProcs[..|procUnits|];
    }
    ghost var n := SharedPairs(lim, now);
    assert virtualProcs == Ramp(step, n) && procUnits == Ramp(0.75, n);
    FilterKeepsEveryPair(lim.maxProcs, n, n);
    Vp, Pu := FilterByRatio(virtualProcs, procUnits);
    assert virtualProcs[..n] == virtualProcs && procUnits[..n] == procUnits;
  }

  // ----- the file -----

  class ConfigFile {
    /** None when the file does not exist. */
    var lines: Option<seq<Payload>>

    constructor ()
      ensures lines == None
    {
      lines := None;
    }

    /** Appends a line, creating the file if needed. */
    method Backup(p: Payload)
      modifies this
      ensures lines == Some(LinesIn(old(lines)) + [p])
    {
      lines := Some(LinesIn(lines) + [p]);
    }

    method Remove() returns (ok: bool)
      modifies this
      ensures ok == old(lines).Some? && lines == None
    {
      ok := lines.Some?;
      lines := None;
    }
  }

  function LinesIn(file: Option<seq<Payload>>): seq<Payload> {
    match file
    case None => []
    case Some(lines) => lines
  }

  // ----- the tests -----

  method TestCpuAdd(mode: Mode, l: Lpar, f: ConfigFile) returns (outcome: Outcome)
    modifies l, f
    ensures outcome != Crashed
    ensures f.lines == Some(LinesIn(old(f.lines)) + AddLines(mode, LimitsOf(l), old(l.Now())))
    ensures Followed(l.accepts, old(l.Observe()), FlatAll(AddRounds(mode, AddLines(mode, LimitsOf(l), old(l.Now())))),
                     l.Observe(), outcome == Passed)
  {
    ghost var older := LinesIn(f.lines);
    var ok;
    match mode {
      case Dedicated =>
        var cpuPayload := CpuPayloadData(l.maxProcs as real, l.procs as real, 1.0);
        f.Backup(cpuPayload);
        ok := AddDedicated(l, cpuPayload);
      case Shared =>
        var Vp, Pu := PlanShared(LimitsOf(l), l.Now());
        f.Backup(Vp);
        f.Backup(Pu);
        assert older + [Vp] + [Pu] == older + [Vp, Pu];
        ok := AddShared(l, Vp, Pu);
    }
    return if ok then Passed else Stopped;
  }

  method AddDedicated(l: Lpar, cpuPayload: Payload) returns (ok: bool)
    modifies l
    ensures Followed(l.accepts, old(l.Observe()), FlatAll(DedicatedAdd(cpuPayload)), l.Observe(), ok)
  {
    hide Followed, Run;
    ghost var before := l.Observe();
    ghost var rounds := DedicatedAdd(cpuPayload);
    FollowedNothing(l.accepts, before);
    for i := 0 to |cpuPayload|
      invariant Followed(l.accepts, before, Flat(rounds, i), l.Observe(), true)
    {
      ok := l.IssueNext(before, Flat(rounds, i), AddProcs(Truncate(cpuPayload[i])));
      if !ok {
        StoppedInRound(l.accepts, before, rounds, i, l.Observe());
        return;
      }
    }
    return true;
  }

  method AddShared(l: Lpar, Vp: Payload, Pu: Payload) returns (ok: bool)
    requires |Vp| == |Pu|
    modifies l
    ensures Followed(l.accepts, old(l.Observe()), FlatAll(SharedAdd(Vp, Pu)), l.Observe(), ok)
  {
    hide Followed, Run;
    ghost var before := l.Observe();
    ghost var rounds := SharedAdd(Vp, Pu);
    FollowedNothing(l.accepts, before);
    for i := 0 to |Pu|
      invariant Followed(l.accepts, before, Flat(rounds, i), l.Observe(), true)
    {
      ok := l.IssueTwo(before, Flat(rounds, i), AddUnits(Pu[i]), AddProcs(Truncate(Vp[i])));
      if !ok {
        StoppedInRound(l.accepts, before, rounds, i, l.Observe());
        return;
      }
    }
    return true;
  }

  method TestCpuRm(mode: Mode, l: Lpar, f: ConfigFile) returns (outcome: Outcome)
    modifies l
    ensures outcome == Crashed <==> !Readable(mode, LinesIn(f.lines))
    ensures outcome == Crashed ==> l.Observe() == old(l.Observe())
    ensures outcome != Crashed ==>
              Followed(l.accepts, old(l.Observe()), FlatAll(RemoveRounds(mode, LinesIn(f.lines))),
                       l.Observe(), outcome == Passed)
  {
    var lines := LinesIn(f.lines);
    if !Readable(mode, lines) {
      return Crashed;
    }
    var ok;
    match mode {
      case Dedicated =>
        ok := RemoveDedicated(l, lines[0]);
      case Shared =>
        ok := RemoveShared(l, lines[0], lines[1]);
    }
    return if ok then Passed else Stopped;
  }

  method RemoveDedicated(l: Lpar, cpuPayload: Payload) returns (ok: bool)
    modifies l
    ensures Followed(l.accepts, old(l.Observe()), FlatAll(DedicatedRemove(cpuPayload)), l.Observe(), ok)
  {
    hide Followed, Run;
    ghost var before := l.Observe();
    ghost var rounds := DedicatedRemove(cpuPayload);
    FollowedNothing(l.accepts, before);
    for i := 0 to |cpuPayload|
      invariant Followed(l.accepts, before, Flat(rounds, i), l.Observe(), true)
    {
      ok := l.IssueNext(before, Flat(rounds, i), RemoveProcs(Truncate(cpuPayload[i])));
      if !ok {
        StoppedInRound(l.accepts, before, rounds, i, l.Observe());
        return;
      }
    }
    return true;
  }

  method RemoveShared(l: Lpar, Vp: Payload, Pu: Payload) returns (ok: bool)
    modifies l
    ensures Followed(l.accepts, old(l.Observe()), FlatAll(SharedRemove(Vp, Pu)), l.Observe(), ok)
  {
    hide Followed, Run;
    ghost var before := l.Observe();
    ghost var rounds := SharedRemove(Vp, Pu);
    FollowedNothing(l.accepts, before);
    for i := 0 to Min(|Vp|, |Pu|)
      invariant Followed(l.accepts, before, Flat(rounds, i), l.Observe(), true)
    {
      var vp, pu := Vp[|Vp| - 1 - i], Pu[|Pu| - 1 - i];
      ok := l.IssueTwo(before, Flat(rounds, i), RemoveProcs(Truncate(vp)), RemoveUnits(pu));
      if !ok {
        StoppedInRound(l.accepts, before, rounds, i, l.Observe());
        return;
      }
    }
    return true;
  }

  method TestMixCpu(mode: Mode, l: Lpar, f: ConfigFile, rnd: nat -> nat) returns (outcome: Outcome)
    modifies l, f
    ensures outcome == Crashed <==> !Readable(mode, LinesIn(old(f.lines)))
    ensures outcome == Crashed ==> l.Observe() == old(l.Observe())
    ensures outcome != Crashed ==>
              Followed(l.accepts, old(l.Observe()), FlatAll(MixRounds(mode, LinesIn(old(f.lines)), rnd)),
                       l.Observe(), outcome == Passed)
    ensures f.lines == if outcome == Passed then None else old(f.lines)
  {
    var lines := LinesIn(f.lines);
    if !Readable(mode, lines) {
      return Crashed;
    }
    var ok;
    match mode {
      case Dedicated =>
        var cpuMix := MixPayloadData(lines[0], rnd);
        cpuMix := cpuMix + [Sum(cpuMix)];
        ok := MixDedicated(l, cpuMix);
      case Shared =>
        ok := MixShared(l, lines[0], lines[1]);
    }
    if !ok {
      return Stopped;
    }
    var _ := f.Remove();
    return Passed;
  }

  method MixDedicated(l: Lpar, cpuMix: seq<int>) returns (ok: bool)
    modifies l
    ensures Followed(l.accepts, old(l.Observe()), FlatAll(DedicatedMix(cpuMix)), l.Observe(), ok)
  {
    hide Followed, Run;
    ghost var before := l.Observe();
    ghost var rounds := DedicatedMix(cpuMix);
    FollowedNothing(l.accepts, before);
    for i := 0 to |cpuMix|
      invariant Followed(l.accepts, before, Flat(rounds, i), l.Observe(), true)
    {
      ok := l.IssueTwo(before, Flat(rounds, i), AddProcs(cpuMix[i]), RemoveProcs(cpuMix[i]));
      if !ok {
        StoppedInRound(l.accepts, before, rounds, i, l.Observe());
        return;
      }
    }
    return true;
  }

  method MixShared(l: Lpar, Vp: Payload, Pu: Payload) returns (ok: bool)
    modifies l
    ensures Followed(l.accepts, old(l.Observe()), FlatAll(SharedMix(Vp, Pu)), l.Observe(), ok)
  {
    hide Followed, Run;
    ghost var before := l.Observe();
    ghost var rounds := SharedMix(Vp, Pu);
    FollowedNothing(l.accepts, before);
    for i := 0 to Min(|Vp|, |Pu|)
      invariant Followed(l.accepts, before, Flat(rounds, i), l.Observe(), true)
    {
      var vp, pu := Truncate(Vp[i]), Pu[i];
      ghost var half := Flat(rounds, i) + [AddProcs(vp), AddUnits(pu)];
      ghost var back := [RemoveUnits(pu), RemoveProcs(vp)];
      assert half + back == Flat(rounds, i + 1);
      ok := l.IssueTwo(before, Flat(rounds, i), AddProcs(vp), AddUnits(pu));
      if ok {
        ok := l.IssueTwo(before, half, RemoveUnits(pu), RemoveProcs(vp));
      } else {
        FollowedStop(l.accepts, before, half, l.Observe(), back);
      }
      if !ok {
        StoppedInRound(l.accepts, before, rounds, i, l.Observe());
        return;
      }
    }
    return true;
  }
}

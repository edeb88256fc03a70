/** The per-core hotplug test: cores in random order, and for each the threads offline in one
    random order and online again in another. CPU 0 is never switched. */
module CoreHotplug {
  import opened Arithmetic
  import opened Positions
  import opened Hotplug
  import opened Shuffling

  // ----- random orders -----

  function Range(lo: int, count: nat): (s: seq<int>)
    ensures |s| == count
  {
    seq(count, i => lo + i)
  }

  ghost predicate Shuffled(s: seq<int>, lo: int, count: nat) {
    SameElements(s, Range(lo, count))
  }

  lemma {:induction false} RangeCounts(lo: int, count: nat, c: int)
    ensures multiset(Range(lo, count))[c] == if lo <= c < lo + count then 1 else 0
  {
    if count > 0 {
      RangeCounts(lo, count - 1, c);
      assert Range(lo, count) == Range(lo, count - 1) + [lo + count - 1];
    }
  }

  method RandomRange(lo: int, count: nat, rnd: nat -> nat) returns (nums: seq<int>)
    ensures nums == ShuffledBy(Range(lo, count), rnd)
    ensures Shuffled(nums, lo, count)
  {
    hide ShuffledBy;
    var a := new int[count](i => lo + i);
    assert a[..] == Range(lo, count);
    Shuffle(a, rnd);
    nums := a[..];
    ShuffledIsPermutation(Range(lo, count), rnd);
  }

  // ----- the calls of the test -----

  /** CPU 0 is left out. */
  function WithoutZero(s: seq<int>): seq<int> {
    if s == [] then []
    else WithoutZero(s[..|s| - 1]) + (if s[|s| - 1] != 0 then [s[|s| - 1]] else [])
  }

  function Offs(s: seq<int>): seq<Call> {
    seq(|s|, i requires 0 <= i < |s| => Offline(s[i]))
  }

  function Ons(s: seq<int>): seq<Call> {
    seq(|s|, i requires 0 <= i < |s| => Online(s[i]))
  }

  function CoreCalls(off: seq<int>, on: seq<int>): seq<Call> {
    Offs(WithoutZero(off)) + Ons(WithoutZero(on))
  }

  lemma CallsAppend(s: seq<int>, c: int)
    ensures Ons(s + [c]) == Ons(s) + [Online(c)] && Offs(s + [c]) == Offs(s) + [Offline(c)]
  {
  }

  /** The random choices for one core: the orders of its threads. */
  datatype CorePass = CorePass(core: int, off: seq<int>, on: seq<int>)

  ghost predicate ValidPass(p: CorePass, smt: nat) {
    Shuffled(p.off, smt * p.core, smt) && Shuffled(p.on, smt * p.core, smt)
  }

  function CoresOf(passes: seq<CorePass>): (s: seq<int>)
    ensures |s| == |passes|
  {
    seq(|passes|, i requires 0 <= i < |passes| => passes[i].core)
  }

  /** An iteration passes over all cores in some order. */
  ghost predicate ValidIteration(passes: seq<CorePass>, cores: nat, smt: nat) {
    Shuffled(CoresOf(passes), 0, cores) && forall p | p in passes :: ValidPass(p, smt)
  }

  /** What the generators choose: the orders of one core's threads, of the cores and their
      threads in an iteration (the j-th shuffle draws from `rnds(j)`), and in a whole test. */
  function PassOf(core: int, smt: nat, offRnd: nat -> nat, onRnd: nat -> nat): CorePass {
    var threads := Range(smt * core, smt);
    CorePass(core, ShuffledBy(threads, offRnd), ShuffledBy(threads, onRnd))
  }

  function PassesOf(cores: nat, smt: nat, rnds: nat -> nat -> nat): (passes: seq<CorePass>)
    ensures |passes| == cores
  {
    var coreList := ShuffledBy(Range(0, cores), rnds(0));
    seq(cores, i requires 0 <= i < cores => PassOf(coreList[i], smt, rnds(2 * i + 1), rnds(2 * i + 2)))
  }

  function IterationsOf(count: nat, cores: nat, smt: nat, rnds: nat -> nat -> nat -> nat): seq<seq<CorePass>> {
    seq(count, i requires 0 <= i < count => PassesOf(cores, smt, rnds(i + 1)))
  }

  function IterationCalls(passes: seq<CorePass>): seq<Call> {
    if passes == [] then []
    else
      var n := |passes| - 1;
      IterationCalls(passes[..n]) + CoreCalls(passes[n].off, passes[n].on)
  }

  ghost predicate ValidTest(iterations: seq<seq<CorePass>>, cores: nat, smt: nat) {
    forall i | 0 <= i < |iterations| :: ValidIteration(iterations[i], cores, smt)
  }

  function TestCalls(iterations: seq<seq<CorePass>>): seq<Call> {
    if iterations == [] then []
    else
      var n := |iterations| - 1;
      TestCalls(iterations[..n]) + IterationCalls(iterations[n])
  }

  // ----- the test -----

  class HotplugTest {
    const cpus: Cpus
    const tCores: nat
    const maxSmt: nat
    var nfail: nat

    constructor (cpus: Cpus, tCores: nat, maxSmt: nat)
      ensures this.cpus == cpus && this.tCores == tCores && this.maxSmt == maxSmt && nfail == 0
    {
      this.cpus, this.tCores, this.maxSmt, nfail := cpus, tCores, maxSmt, 0;
    }

    /** The calls `cs` were made since `before`, and every failed one was counted. */
    ghost predicate Counted(before: seq<Call>, start: set<int>, failed: nat, cs: seq<Call>)
      reads this, cpus
    {
      cpus.Did(before, start, cs) && nfail == failed + Failures(cpus.machine, |before|, cs)
    }

    method CpuOnOff(c: Call, ghost before: seq<Call>, ghost start: set<int>, ghost failed: nat, ghost cs: seq<Call>)
      requires Counted(before, start, failed, cs)
      modifies this, cpus
      ensures Counted(before, start, failed, cs + [c])
    {
      var ok := cpus.Switch(c, before, start, cs);
      assert (cs + [c])[..|cs|] == cs;
      if !ok {
        nfail := nfail + 1;
      }
    }

    /** Takes the listed threads of a core offline, but never CPU 0. */
    method OfflineThreads(core: int, cpuList: seq<int>)
      requires core != 0 ==> 0 !in cpuList
      modifies this, cpus
      ensures Counted(old(cpus.calls), old(cpus.online), old(nfail), Offs(WithoutZero(cpuList)))
    {
      ghost var before, start, failed := cpus.calls, cpus.online, nfail;
      for i := 0 to |cpuList|
        invariant Counted(before, start, failed, Offs(WithoutZero(cpuList[..i])))
      {
        var cpuNum := cpuList[i];
        assert cpuList[..i + 1][..i] == cpuList[..i];
        ghost var s := WithoutZero(cpuList[..i]);
        assert cpuNum in cpuList;
        if core != 0 || (core == 0 && cpuNum != 0) {
          CallsAppend(s, cpuNum);
          CpuOnOff(Offline(cpuNum), before, start, failed, Offs(s));
        } else {
          assert s + [] == s;
        }
      }
      assert cpuList[..|cpuList|] == cpuList;
    }

    method OnlineThreads(cpuList: seq<int>)
      modifies this, cpus
      ensures Counted(old(cpus.calls), old(cpus.online), old(nfail), Ons(cpuList))
    {
      ghost var before, start, failed := cpus.calls, cpus.online, nfail;
      for i := 0 to |cpuList|
        invariant Counted(before, start, failed, Ons(cpuList[..i]))
      {
        var cpuNum := cpuList[i];
        assert cpuList[..i + 1] == cpuList[..i] + [cpuNum];
        CallsAppend(cpuList[..i], cpuNum);
        CpuOnOff(Online(cpuNum), before, start, failed, Ons(cpuList[..i]));
      }
      assert cpuList[..|cpuList|] == cpuList;
    }

    /** One core: its threads off in one order, then on in another. */
    method SwitchCore(core: int, offRnd: nat -> nat, onRnd: nat -> nat) returns (ghost p: CorePass)
      requires maxSmt > 0 && core >= 0
      modifies this, cpus
      ensures p == PassOf(core, maxSmt, offRnd, onRnd) && ValidPass(p, maxSmt)
      ensures Counted(old(cpus.calls), old(cpus.online), old(nfail), CoreCalls(p.off, p.on))
    {
      ghost var m, before, start := cpus.machine, cpus.calls, cpus.online;
      var off := RandomRange(maxSmt * core, maxSmt, offRnd);
      OnlyCoreZeroHasZero(off, core, maxSmt);
      OfflineThreads(core, off);
      var on := RandomRange(maxSmt * core, maxSmt, onRnd);
      OnlyCoreZeroHasZero(on, core, maxSmt);
      p := CorePass(core, off, on);
      if core == 0 {
        on := WithoutZero(on);
      }
      OnlineThreads(on);
      DidBoth(m, before, start, Offs(WithoutZero(p.off)), Ons(WithoutZero(p.on)));
    }

    method SwitchEveryCore(rnds: nat -> nat -> nat) returns (ghost passes: seq<CorePass>)
      requires maxSmt > 0
      modifies this, cpus
      ensures passes == PassesOf(tCores, maxSmt, rnds) && ValidIteration(passes, tCores, maxSmt)
      ensures Counted(old(cpus.calls), old(cpus.online), old(nfail), IterationCalls(passes))
    {
      hide After, Failures, CoreCalls, ShuffledBy, PassOf, PassesOf, ValidPass, ValidIteration, SameElements;
      ghost var m, before, start, failed := cpus.machine, cpus.calls, cpus.online, nfail;
      ghost var all := PassesOf(tCores, maxSmt, rnds);
      var coreList := RandomRange(0, tCores, rnds(0));
      passes := [];
      CountedNothing(m, before, start);
      for i := 0 to |coreList|
        invariant passes == all[..i]
        invariant Counted(before, start, failed, IterationCalls(passes))
      {
        ShuffledIsRange(coreList, 0, tCores, i);
        ghost var p := SwitchCore(coreList[i], rnds(2 * i + 1), rnds(2 * i + 2));
        DidBoth(m, before, start, IterationCalls(passes), CoreCalls(p.off, p.on));
        PassAtPosition(tCores, maxSmt, rnds, i);
        passes := all[..i + 1];
        assert passes[..i] == all[..i] && passes[i] == p;
      }
      assert passes == all;
      DrawnIterationIsValid(tCores, maxSmt, rnds);
    }

    /** `loop - 1` iterations over all cores, iteration `val` with the generators `rnds(val)`;
        the test fails if any call failed. */
    method Test(loop: nat, rnds: nat -> nat -> nat -> nat) returns (passed: bool, ghost iterations: seq<seq<CorePass>>)
      requires nfail == 0 && maxSmt > 0
      modifies this, cpus
      ensures iterations == IterationsOf(Max(loop - 1, 0), tCores, maxSmt, rnds)
      ensures ValidTest(iterations, tCores, maxSmt)
      ensures Counted(old(cpus.calls), old(cpus.online), 0, TestCalls(iterations))
      ensures passed <==> Failures(cpus.machine, |old(cpus.calls)|, TestCalls(iterations)) == 0
    {
      hide After, Failures, IterationCalls, PassesOf, ValidIteration;
      ghost var m, before, start := cpus.machine, cpus.calls, cpus.online;
      ghost var all := IterationsOf(Max(loop - 1, 0), tCores, maxSmt, rnds);
      iterations := [];
      CountedNothing(m, before, start);
      var val := 1;
      while val < loop
        invariant 1 <= val <= Max(loop, 1)
        invariant iterations == all[..val - 1]
        invariant Counted(before, start, 0, TestCalls(iterations))
      {
        ghost var passes := SwitchEveryCore(rnds(val));
        DidBoth(m, before, start, TestCalls(iterations), IterationCalls(passes));
        iterations := all[..val];
        assert iterations[..val - 1] == all[..val - 1] && iterations[val - 1] == passes;
        val := val + 1;
      }
      assert iterations == all;
      DrawnTestIsValid(Max(loop - 1, 0), tCores, maxSmt, rnds);
      passed := nfail == 0;
    }
  }

  lemma CountedNothing(m: Machine, before: seq<Call>, start: set<int>)
    ensures before + [] == before
    ensures After(m, start, |before|, []) == start && Failures(m, |before|, []) == 0
  {
  }

  // ----- members of shuffled ranges -----

  lemma ShuffledIsRange(s: seq<int>, lo: int, count: nat, i: nat)
    requires Shuffled(s, lo, count) && i < |s|
    ensures lo <= s[i] < lo + count
  {
    RangeCounts(lo, count, s[i]);
    assert s[i] in multiset(s);
  }

  /** CPU 0 is a thread of core 0 only, and there it is listed once. */
  lemma OnlyCoreZeroHasZero(s: seq<int>, core: int, smt: nat)
    requires Shuffled(s, smt * core, smt) && smt > 0 && core >= 0
    ensures core != 0 ==> 0 !in s && WithoutZero(s) == s
    ensures core == 0 ==> multiset(s)[0] == 1
  {
    RangeCounts(smt * core, smt, 0);
    if core != 0 {
      FactorOrder(smt, 0, core);
      assert 0 !in multiset(s);
      WithoutZeroKeeps(s);
    }
  }

  lemma {:induction false} WithoutZeroKeeps(s: seq<int>)
    requires 0 !in s
    ensures WithoutZero(s) == s
  {
    if s != [] {
      assert s == s[..|s| - 1] + [s[|s| - 1]];
      WithoutZeroKeeps(s[..|s| - 1]);
    }
  }

  lemma AppendCounts(s: seq<int>, x: int, c: int)
    ensures multiset(s + [x])[c] == multiset(s)[c] + if x == c then 1 else 0
  {
  }

  lemma {:induction false} WithoutZeroCounts(s: seq<int>, c: int)
    ensures multiset(WithoutZero(s))[c] == if c == 0 then 0 else multiset(s)[c]
  {
    if s != [] {
      var n := |s| - 1;
      WithoutZeroCounts(s[..n], c);
      var before, last := s[..n], s[n];
      AppendCounts(before, last, c);
      AppendCounts(WithoutZero(before), last, c);
      assert s == before + [last];
    }
  }

  lemma {:induction false} CallCounts(s: seq<int>, c: int)
    ensures multiset(Offs(s))[Offline(c)] == multiset(Ons(s))[Online(c)] == multiset(s)[c]
    ensures multiset(Offs(s))[Online(c)] == multiset(Ons(s))[Offline(c)] == 0
  {
    if s != [] {
      var n := |s| - 1;
      CallCounts(s[..n], c);
      assert s == s[..n] + [s[n]];
      assert Offs(s) == Offs(s[..n]) + [Offline(s[n])];
      assert Ons(s) == Ons(s[..n]) + [Online(s[n])];
    }
  }

  /** The threads of the cores tile the CPUs: each CPU is a thread of exactly one core. */
  lemma ThreadsTileCpus(smt: nat, cores: nat, c: int, core: int)
    requires smt > 0 && 0 <= c < smt * cores
    ensures 0 <= c / smt < cores
    ensures IsThread(c, core, smt) <==> core == c / smt
  {
    var q := c / smt;
    assert smt * q <= c < smt * q + smt;
    FactorOrder(smt, q, core);
    FactorOrder(smt, core, q);
    FactorOrder(smt, cores, q);
    FactorOrder(smt, q, -1);
  }

  // ----- the generators choose every valid test -----

  lemma DrawnPassIsValid(core: int, smt: nat, offRnd: nat -> nat, onRnd: nat -> nat)
    ensures var p := PassOf(core, smt, offRnd, onRnd); p.core == core && ValidPass(p, smt)
  {
    ShuffledIsPermutation(Range(smt * core, smt), offRnd);
    ShuffledIsPermutation(Range(smt * core, smt), onRnd);
  }

  lemma PassAtPosition(cores: nat, smt: nat, rnds: nat -> nat -> nat, i: nat)
    requires i < cores
    ensures PassesOf(cores, smt, rnds)[i] ==
            PassOf(ShuffledBy(Range(0, cores), rnds(0))[i], smt, rnds(2 * i + 1), rnds(2 * i + 2))
  {
  }

  lemma DrawnIterationIsValid(cores: nat, smt: nat, rnds: nat -> nat -> nat)
    ensures ValidIteration(PassesOf(cores, smt, rnds), cores, smt)
  {
    hide ShuffledBy, PassOf, ValidPass, SameElements, Range;
    var passes, coreList := PassesOf(cores, smt, rnds), ShuffledBy(Range(0, cores), rnds(0));
    ShuffledIsPermutation(Range(0, cores), rnds(0));
    forall i | 0 <= i < cores
      ensures ValidPass(passes[i], smt) && passes[i].core == coreList[i]
    {
      DrawnPassIsValid(coreList[i], smt, rnds(2 * i + 1), rnds(2 * i + 2));
    }
    assert CoresOf(passes) == coreList;
  }

  lemma DrawnTestIsValid(count: nat, cores: nat, smt: nat, rnds: nat -> nat -> nat -> nat)
    ensures ValidTest(IterationsOf(count, cores, smt, rnds), cores, smt)
  {
    hide ValidIteration, PassesOf;
    forall i | 0 <= i < count
      ensures ValidIteration(IterationsOf(count, cores, smt, rnds)[i], cores, smt)
    {
      DrawnIterationIsValid(cores, smt, rnds(i + 1));
    }
  }

  /** The generator that lists the threads of a pass in their offline or online order. */
  ghost function ThreadGenerator(p: CorePass, smt: nat, off: bool): nat -> nat
    requires ValidPass(p, smt)
  {
    GeneratorFor(Range(smt * p.core, smt), if off then p.off else p.on)
  }

  /** The generator for the j-th shuffle of an iteration that comes out as `passes`. */
  ghost function ShuffleGenerator(passes: seq<CorePass>, cores: nat, smt: nat, j: nat): nat -> nat
    requires ValidIteration(passes, cores, smt)
  {
    if j == 0 then GeneratorFor(Range(0, cores), CoresOf(passes))
    else if (j - 1) / 2 < |passes| then ThreadGenerator(PassAt(passes, cores, smt, (j - 1) / 2), smt, j % 2 == 1)
    else (_: nat) => 0
  }

  ghost function IterationGenerators(passes: seq<CorePass>, cores: nat, smt: nat): nat -> nat -> nat
    requires ValidIteration(passes, cores, smt)
  {
    (j: nat) => ShuffleGenerator(passes, cores, smt, j)
  }

  ghost function PassAt(passes: seq<CorePass>, cores: nat, smt: nat, i: nat): (p: CorePass)
    requires ValidIteration(passes, cores, smt) && i < |passes|
    ensures ValidPass(p, smt) && p == passes[i]
  {
    assert passes[i] in passes;
    passes[i]
  }

  lemma PassIsDrawn(p: CorePass, smt: nat)
    requires ValidPass(p, smt)
    ensures PassOf(p.core, smt, ThreadGenerator(p, smt, true), ThreadGenerator(p, smt, false)) == p
  {
  }

  lemma EveryIterationIsDrawn(passes: seq<CorePass>, cores: nat, smt: nat)
    requires ValidIteration(passes, cores, smt)
    ensures PassesOf(cores, smt, IterationGenerators(passes, cores, smt)) == passes
  {
    hide ShuffledBy, PassOf, ThreadGenerator, ValidPass, SameElements, Range;
    var rnds := IterationGenerators(passes, cores, smt);
    SameLength(Range(0, cores), CoresOf(passes));
    assert ShuffledBy(Range(0, cores), rnds(0)) == CoresOf(passes);
    forall i | 0 <= i < cores
      ensures PassesOf(cores, smt, rnds)[i] == passes[i]
    {
      PassIsDrawn(PassAt(passes, cores, smt, i), smt);
      GeneratorsOfPass(passes, cores, smt, i);
    }
  }

  lemma GeneratorsOfPass(passes: seq<CorePass>, cores: nat, smt: nat, i: nat)
    requires ValidIteration(passes, cores, smt) && i < |passes|
    ensures var rnds, p := IterationGenerators(passes, cores, smt), PassAt(passes, cores, smt, i);
            && rnds(2 * i + 1) == ThreadGenerator(p, smt, true)
            && rnds(2 * i + 2) == ThreadGenerator(p, smt, false)
  {
    hide GeneratorFor, ThreadGenerator, ValidIteration, ValidPass, ShuffledBy, SameElements, Range, CoresOf;
    assert (2 * i + 1 - 1) / 2 == i && (2 * i + 2 - 1) / 2 == i;
    assert (2 * i + 1) % 2 == 1 && (2 * i + 2) % 2 == 0;
  }

  ghost function TestGenerators(iterations: seq<seq<CorePass>>, cores: nat, smt: nat): nat -> nat -> nat -> nat
    requires ValidTest(iterations, cores, smt)
  {
    (i: nat) =>
      if 1 <= i <= |iterations| then IterationGenerators(iterations[i - 1], cores, smt)
      else (_: nat) => (_: nat) => 0
  }

  /** The tests that the generators can choose are exactly those that pass over all cores in
      some order and switch the threads of each off and on in some orders. */
  lemma DrawnTestsAreValid(iterations: seq<seq<CorePass>>, count: nat, cores: nat, smt: nat)
    ensures (exists rnds: nat -> nat -> nat -> nat :: IterationsOf(count, cores, smt, rnds) == iterations) <==>
            |iterations| == count && ValidTest(iterations, cores, smt)
  {
    hide ValidIteration, PassesOf, IterationGenerators;
    if rnds: nat -> nat -> nat -> nat :| IterationsOf(count, cores, smt, rnds) == iterations {
      DrawnTestIsValid(count, cores, smt, rnds);
    }
    if |iterations| == count && ValidTest(iterations, cores, smt) {
      var rnds := TestGenerators(iterations, cores, smt);
      forall i | 0 <= i < count
        ensures IterationsOf(count, cores, smt, rnds)[i] == iterations[i]
      {
        EveryIterationIsDrawn(iterations[i], cores, smt);
      }
      assert IterationsOf(count, cores, smt, rnds) == iterations;
    }
  }

  // ----- the calls of one core -----

  lemma {:induction false} WithoutZeroListed(s: seq<int>) returns (at: seq<nat>)
    ensures Lists(at, |s|, (k: nat) => k < |s| && s[k] != 0)
    ensures |WithoutZero(s)| == |at|
    ensures forall j | 0 <= j < |at| :: at[j] < |s| && WithoutZero(s)[j] == s[at[j]]
  {
    if s == [] {
      at := [];
    } else {
      var n := |s| - 1;
      var before := WithoutZeroListed(s[..n]);
      at := before + if s[n] != 0 then [n] else [];
      assert forall k: nat | k < n :: s[..n][k] == s[k];
      assert Lists(before, n, (k: nat) => k < |s| && s[k] != 0);
      ListsNext(before, n, (k: nat) => k < |s| && s[k] != 0, at);
    }
  }

  /** The threads but CPU 0 go offline in the order of the first shuffle, and after all of
      them they come online in the order of the second. */
  lemma CoreCallsListed(p: CorePass) returns (off: seq<nat>, on: seq<nat>)
    ensures Lists(off, |p.off|, (k: nat) => k < |p.off| && p.off[k] != 0)
    ensures Lists(on, |p.on|, (k: nat) => k < |p.on| && p.on[k] != 0)
    ensures var cs := CoreCalls(p.off, p.on);
            && |cs| == |off| + |on|
            && (forall j | 0 <= j < |off| :: off[j] < |p.off| && cs[j] == Offline(p.off[off[j]]))
            && (forall j | 0 <= j < |on| :: on[j] < |p.on| && cs[|off| + j] == Online(p.on[on[j]]))
  {
    off := WithoutZeroListed(p.off);
    on := WithoutZeroListed(p.on);
  }

  // ----- every thread is switched, CPU 0 never is -----

  lemma CorePassCounts(p: CorePass, smt: nat, c: int)
    requires ValidPass(p, smt)
    ensures var cs := multiset(CoreCalls(p.off, p.on));
            cs[Offline(c)] == cs[Online(c)] == if c != 0 && IsThread(c, p.core, smt) then 1 else 0
  {
    RangeCounts(smt * p.core, smt, c);
    WithoutZeroCounts(p.off, c);
    WithoutZeroCounts(p.on, c);
    CallCounts(WithoutZero(p.off), c);
    CallCounts(WithoutZero(p.on), c);
  }

  lemma {:induction false} IterationCounts(passes: seq<CorePass>, cores: nat, smt: nat, c: int)
    requires smt > 0 && 0 <= c < smt * cores && forall p | p in passes :: ValidPass(p, smt)
    ensures var cs := multiset(IterationCalls(passes));
            cs[Offline(c)] == cs[Online(c)] == if c == 0 then 0 else multiset(CoresOf(passes))[c / smt]
  {
    hide IsThread, CoreCalls;
    if passes != [] {
      var n := |passes| - 1;
      IterationCounts(passes[..n], cores, smt, c);
      CorePassCounts(passes[n], smt, c);
      ThreadsTileCpus(smt, cores, c, passes[n].core);
      assert CoresOf(passes) == CoresOf(passes[..n]) + [passes[n].core];
    }
  }

  /** In a test every CPU but CPU 0 is switched off exactly once an iteration and on exactly
      once an iteration; CPU 0 is never switched. */
  lemma {:induction false} EveryThreadIsSwitched(iterations: seq<seq<CorePass>>, cores: nat, smt: nat, c: int)
    requires smt > 0 && 0 <= c < smt * cores && ValidTest(iterations, cores, smt)
    ensures var cs := multiset(TestCalls(iterations));
            cs[Offline(c)] == cs[Online(c)] == if c == 0 then 0 else |iterations|
  {
    if iterations != [] {
      var n := |iterations| - 1;
      EveryThreadIsSwitched(iterations[..n], cores, smt, c);
      IterationSwitchesOnce(iterations[n], cores, smt, c);
    }
  }

  lemma IterationSwitchesOnce(passes: seq<CorePass>, cores: nat, smt: nat, c: int)
    requires smt > 0 && 0 <= c < smt * cores && ValidIteration(passes, cores, smt)
    ensures var cs := multiset(IterationCalls(passes));
            cs[Offline(c)] == cs[Online(c)] == if c == 0 then 0 else 1
  {
    IterationCounts(passes, cores, smt, c);
    ThreadsTileCpus(smt, cores, c, 0);
    RangeCounts(0, cores, c / smt);
  }

  // ----- what is online on the way -----

  ghost predicate IsThread(c: int, core: int, smt: nat) {
    smt * core <= c < smt * core + smt
  }

  ghost predicate OnlyCoreOffline(m: Machine, online: set<int>, core: int, smt: nat) {
    forall c | c in m.present && c !in online :: c != 0 && IsThread(c, core, smt)
  }

  /** Everything is online except some threads, not CPU 0, of at most one core. */
  ghost predicate AllButOneCore(m: Machine, online: set<int>, smt: nat) {
    online <= m.present && exists core :: OnlyCoreOffline(m, online, core, smt)
  }

  /** All states of the calls `cs` started with every CPU online, and the last one. */
  ghost predicate KeepsToOneCore(m: Machine, from: nat, cs: seq<Call>, smt: nat) {
    && (forall k | 0 <= k <= |cs| :: AllButOneCore(m, After(m, m.present, from, cs[..k]), smt))
    && After(m, m.present, from, cs) == m.present
  }

  lemma CpusOfPass(p: CorePass, smt: nat)
    requires ValidPass(p, smt)
    ensures forall c :: c in CpusIn(Offs(WithoutZero(p.off))) <==> c != 0 && IsThread(c, p.core, smt)
    ensures forall c :: c in CpusIn(Ons(WithoutZero(p.on))) <==> c != 0 && IsThread(c, p.core, smt)
  {
    forall c: int
      ensures c in CpusIn(Offs(WithoutZero(p.off))) <==> c != 0 && IsThread(c, p.core, smt)
      ensures c in CpusIn(Ons(WithoutZero(p.on))) <==> c != 0 && IsThread(c, p.core, smt)
    {
      MemberOfShuffle(p.off, smt * p.core, smt, c);
      MemberOfShuffle(p.on, smt * p.core, smt, c);
    }
  }

  lemma MemberOfShuffle(s: seq<int>, lo: int, count: nat, c: int)
    requires Shuffled(s, lo, count)
    ensures c in CpusIn(Offs(WithoutZero(s))) <==> c != 0 && lo <= c < lo + count
    ensures c in CpusIn(Ons(WithoutZero(s))) <==> c != 0 && lo <= c < lo + count
  {
    var t := WithoutZero(s);
    WithoutZeroCounts(s, c);
    RangeCounts(lo, count, c);
    assert c in t <==> c in multiset(t);
    if c in t {
      var i :| 0 <= i < |t| && t[i] == c;
      assert Offs(t)[i] in Offs(t) && Ons(t)[i] in Ons(t);
    }
  }

  lemma CorePassKeepsToOneCore(m: Machine, from: nat, p: CorePass, smt: nat)
    requires NothingFails(m) && ValidPass(p, smt)
    ensures KeepsToOneCore(m, from, CoreCalls(p.off, p.on), smt)
  {
    var a, b := Offs(WithoutZero(p.off)), Ons(WithoutZero(p.on));
    CpusOfPass(p, smt);
    forall k | 0 <= k <= |a + b|
      ensures AllButOneCore(m, After(m, m.present, from, (a + b)[..k]), smt)
    {
      AfterOffOn(m, m.present, from, a, b, k);
      assert OnlyCoreOffline(m, After(m, m.present, from, (a + b)[..k]), p.core, smt);
    }
    AfterOffOn(m, m.present, from, a, b, 0);
  }

  lemma KeepsToOneCoreConcat(m: Machine, from: nat, a: seq<Call>, b: seq<Call>, smt: nat)
    requires KeepsToOneCore(m, from, a, smt) && KeepsToOneCore(m, from + |a|, b, smt)
    ensures KeepsToOneCore(m, from, a + b, smt)
  {
    AfterConcat(m, m.present, from, a, b);
    forall k | 0 <= k <= |a + b|
      ensures AllButOneCore(m, After(m, m.present, from, (a + b)[..k]), smt)
    {
      AfterPrefix(m, m.present, from, a, b, k);
    }
  }

  lemma NothingKeepsToOneCore(m: Machine, from: nat, smt: nat)
    ensures KeepsToOneCore(m, from, [], smt)
  {
    var none: seq<Call> := [];
    forall k | 0 <= k <= |none|
      ensures AllButOneCore(m, After(m, m.present, from, none[..k]), smt)
    {
      assert none[..k] == none;
      assert OnlyCoreOffline(m, m.present, 0, smt);
    }
  }

  lemma {:induction false} IterationKeepsToOneCore(m: Machine, from: nat, passes: seq<CorePass>, smt: nat)
    requires NothingFails(m) && forall p | p in passes :: ValidPass(p, smt)
    ensures KeepsToOneCore(m, from, IterationCalls(passes), smt)
  {
    if passes == [] {
      NothingKeepsToOneCore(m, from, smt);
    } else {
      var n := |passes| - 1;
      var a := IterationCalls(passes[..n]);
      IterationKeepsToOneCore(m, from, passes[..n], smt);
      CorePassKeepsToOneCore(m, from + |a|, passes[n], smt);
      KeepsToOneCoreConcat(m, from, a, CoreCalls(passes[n].off, passes[n].on), smt);
    }
  }

  /** When no call fails, at every step of the test only threads of one core are offline and
      CPU 0 is online, and in the end everything is online. */
  lemma {:induction false} TestKeepsToOneCore(m: Machine, from: nat, iterations: seq<seq<CorePass>>, cores: nat,
                                              smt: nat)
    requires NothingFails(m) && ValidTest(iterations, cores, smt)
    ensures KeepsToOneCore(m, from, TestCalls(iterations), smt)
  {
    if iterations == [] {
      NothingKeepsToOneCore(m, from, smt);
    } else {
      var n := |iterations| - 1;
      var a := TestCalls(iterations[..n]);
      TestKeepsToOneCore(m, from, iterations[..n], cores, smt);
      IterationKeepsToOneCore(m, from + |a|, iterations[n], smt);
      KeepsToOneCoreConcat(m, from, a, IterationCalls(iterations[n]), smt);
    }
  }

  // ----- every core goes offline as a whole -----

  lemma {:induction false} IterationCallsSplit(passes: seq<CorePass>, a: nat)
    requires a < |passes|
    ensures IterationCalls(passes[..a]) + CoreCalls(passes[a].off, passes[a].on) <= IterationCalls(passes)
    decreases |passes|
  {
    hide CoreCalls;
    var n := |passes| - 1;
    if a < n {
      IterationCallsSplit(passes[..n], a);
      assert passes[..n][..a] == passes[..a];
    }
  }

  lemma {:induction false} TestCallsSplit(iterations: seq<seq<CorePass>>, i: nat)
    requires i < |iterations|
    ensures TestCalls(iterations[..i]) + IterationCalls(iterations[i]) <= TestCalls(iterations)
    decreases |iterations|
  {
    hide IterationCalls;
    var n := |iterations| - 1;
    if i < n {
      TestCallsSplit(iterations[..n], i);
      assert iterations[..n][..i] == iterations[..i];
    }
  }

  /** In every iteration every core has its moment: all its threads but CPU 0 are offline
      together, and everything else is online. */
  lemma WholeCoreGoesOffline(m: Machine, from: nat, iterations: seq<seq<CorePass>>, cores: nat, smt: nat,
                             i: nat, core: nat) returns (k: nat)
    requires NothingFails(m) && ValidTest(iterations, cores, smt) && i < |iterations| && core < cores
    ensures var done := |TestCalls(iterations[..i])|;
            done <= k <= done + |IterationCalls(iterations[i])| && k <= |TestCalls(iterations)|
    ensures forall c :: c in After(m, m.present, from, TestCalls(iterations)[..k]) <==>
                        c in m.present && (c == 0 || c < smt * core || c >= smt * core + smt)
  {
    hide ValidPass, Shuffled, CoreCalls, After;
    var before, passes := TestCalls(iterations[..i]), iterations[i];
    TestKeepsToOneCore(m, from, iterations[..i], cores, smt);
    var j := CoreGoesOffline(m, from + |before|, passes, cores, smt, core);
    k := |before| + j;
    TestCallsSplit(iterations, i);
    var both := before + IterationCalls(passes);
    assert TestCalls(iterations)[..k] == both[..k] == before + IterationCalls(passes)[..j];
    AfterConcat(m, m.present, from, before, IterationCalls(passes)[..j]);
  }

  lemma CoreGoesOffline(m: Machine, from: nat, passes: seq<CorePass>, cores: nat, smt: nat, core: nat) returns (k: nat)
    requires NothingFails(m) && ValidIteration(passes, cores, smt) && core < cores
    ensures k <= |IterationCalls(passes)|
    ensures forall c :: c in After(m, m.present, from, IterationCalls(passes)[..k]) <==>
                        c in m.present && (c == 0 || c < smt * core || c >= smt * core + smt)
  {
    hide After;
    var a := PassOfCore(passes, cores, smt, core);
    var before, p := IterationCalls(passes[..a]), passes[a];
    var off, on := Offs(WithoutZero(p.off)), Ons(WithoutZero(p.on));
    IterationKeepsToOneCore(m, from, passes[..a], smt);
    IterationCallsSplit(passes, a);
    k := |before| + |off|;
    var all := before + (off + on);
    assert IterationCalls(passes)[..k] == all[..k] == before + off;
    AfterConcat(m, m.present, from, before, off);
    AfterOfflines(m, m.present, from + |before|, off);
    CpusOfPass(p, smt);
  }

  lemma PassOfCore(passes: seq<CorePass>, cores: nat, smt: nat, core: nat) returns (a: nat)
    requires ValidIteration(passes, cores, smt) && core < cores
    ensures a < |passes| && passes[a].core == core && ValidPass(passes[a], smt)
  {
    RangeCounts(0, cores, core);
    assert core in multiset(CoresOf(passes));
    assert core in CoresOf(passes);
    a :| 0 <= a < |passes| && CoresOf(passes)[a] == core;
    assert passes[a] in passes;
  }

  /** Whatever fails, a CPU whose offline call is never made stays online. */
  lemma {:induction false} UntouchedStaysOnline(m: Machine, online: set<int>, from: nat, cs: seq<Call>, c: int)
    requires c in online && Offline(c) !in cs
    ensures c in After(m, online, from, cs)
  {
    if cs != [] {
      var n := |cs| - 1;
      assert cs == cs[..n] + [cs[n]];
      UntouchedStaysOnline(m, online, from, cs[..n], c);
    }
  }

  /** CPU 0 stays online at every step even when calls fail. */
  lemma BootCpuStaysOnline(m: Machine, online: set<int>, from: nat, iterations: seq<seq<CorePass>>,
                           cores: nat, smt: nat, k: nat)
    requires smt > 0 && cores > 0 && 0 in online
    requires ValidTest(iterations, cores, smt) && k <= |TestCalls(iterations)|
    ensures 0 in After(m, online, from, TestCalls(iterations)[..k])
  {
    var cs := TestCalls(iterations);
    ProductOrder(smt, cores);
    EveryThreadIsSwitched(iterations, cores, smt, 0);
    assert Offline(0) !in multiset(cs);
    assert forall c | c in cs[..k] :: c in multiset(cs);
    UntouchedStaysOnline(m, online, from, cs[..k], 0);
  }

  // ----- no failures are counted -----

  /** Calls on existing CPUs do not fail when nothing does. */
  lemma {:induction false} NoFailures(m: Machine, from: nat, cs: seq<Call>)
    requires NothingFails(m) && forall c | c in cs :: c.cpu in m.present
    ensures Failures(m, from, cs) == 0
  {
    if cs != [] {
      NoFailures(m, from, cs[..|cs| - 1]);
    }
  }

  lemma PassIsOnCpus(p: CorePass, cores: nat, smt: nat, c: Call)
    requires ValidPass(p, smt) && 0 <= p.core < cores && c in CoreCalls(p.off, p.on)
    ensures 0 < c.cpu < smt * cores
  {
    CorePassCounts(p, smt, c.cpu);
    assert c in multiset(CoreCalls(p.off, p.on));
    assert c == Offline(c.cpu) || c == Online(c.cpu);
    ThreadsOfCore(p.core, cores, smt, c.cpu);
  }

  lemma ThreadsOfCore(core: int, cores: nat, smt: nat, c: int)
    requires 0 <= core < cores && c != 0 && IsThread(c, core, smt)
    ensures 0 < c < smt * cores
  {
    FactorOrder(smt, core, cores);
    FactorOrder(smt, 0, core);
  }

  lemma {:induction false} IterationDoesNotFail(m: Machine, from: nat, passes: seq<CorePass>, cores: nat, smt: nat)
    requires NothingFails(m) && forall c | 0 < c < smt * cores :: c in m.present
    requires forall p | p in passes :: ValidPass(p, smt) && 0 <= p.core < cores
    ensures Failures(m, from, IterationCalls(passes)) == 0
  {
    if passes != [] {
      var n := |passes| - 1;
      var a, b := IterationCalls(passes[..n]), CoreCalls(passes[n].off, passes[n].on);
      IterationDoesNotFail(m, from, passes[..n], cores, smt);
      forall c: Call | c in b
        ensures c.cpu in m.present
      {
        PassIsOnCpus(passes[n], cores, smt, c);
      }
      NoFailures(m, from + |a|, b);
      AfterConcat(m, m.present, from, a, b);
    }
  }

  /** On a machine that has all the threads, when nothing fails the test counts no failure. */
  lemma {:induction false} TestPasses(m: Machine, from: nat, iterations: seq<seq<CorePass>>, cores: nat, smt: nat)
    requires NothingFails(m) && forall c | 0 < c < smt * cores :: c in m.present
    requires ValidTest(iterations, cores, smt)
    ensures Failures(m, from, TestCalls(iterations)) == 0
  {
    hide After, Failures, IterationCalls, ValidPass, SameElements;
    if iterations == [] {
      NoFailures(m, from, []);
    } else {
      var n := |iterations| - 1;
      var a, b := TestCalls(iterations[..n]), IterationCalls(iterations[n]);
      TestPasses(m, from, iterations[..n], cores, smt);
      forall p | p in iterations[n]
        ensures 0 <= p.core < cores
      {
        var i :| 0 <= i < |iterations[n]| && iterations[n][i] == p;
        ShuffledIsRange(CoresOf(iterations[n]), 0, cores, i);
      }
      IterationDoesNotFail(m, from + |a|, iterations[n], cores, smt);
      AfterConcat(m, m.present, from, a, b);
    }
  }

  /** When the machine accepts every call, the test fails exactly if some CPU it should
      switch is missing. */
  lemma TestPassesIff(m: Machine, from: nat, iterations: seq<seq<CorePass>>, cores: nat, smt: nat)
    requires NothingFails(m) && smt > 0 && ValidTest(iterations, cores, smt)
    ensures Failures(m, from, TestCalls(iterations)) == 0 <==>
            iterations == [] || forall c | 0 < c < smt * cores :: c in m.present
  {
    var cs := TestCalls(iterations);
    var failed := FailuresAreCounted(m, from, cs);
    if c :| iterations != [] && 0 < c < smt * cores && c !in m.present {
      EveryThreadIsSwitched(iterations, cores, smt, c);
      assert Offline(c) in multiset(cs);
      var k :| 0 <= k < |cs| && cs[k] == Offline(c);
      assert k in failed;
    }
    if iterations != [] && forall c | 0 < c < smt * cores :: c in m.present {
      TestPasses(m, from, iterations, cores, smt);
    }
  }
}

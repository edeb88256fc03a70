/** The serial off/on test: all CPUs but one go offline and online again, then every second
    one does, in both directions. `n` is one less than the number of CPUs. */
module SerialHotplug {
  import opened Hotplug

  function OfflineUp(lo: nat, hi: nat): seq<Call> {
    seq(if lo <= hi then hi - lo else 0, i => Offline(lo + i))
  }

  function OnlineUp(hi: nat): seq<Call> {
    seq(hi, i => Online(i))
  }

  function OnlineDown(n: nat): seq<Call> {
    seq(n + 1, i => Online(n - i))
  }

  /** n, n - 2, n - 4, ..., down to 1 or 0. */
  function OfflineDownByTwo(n: nat): seq<Call> {
    seq(n / 2 + 1, i => Offline(n - 2 * i))
  }

  /** The two halves of an iteration. */
  function AllOffOn(n: nat): seq<Call> {
    (if n != 0 then OfflineUp(1, n) else []) + OnlineDown(n)
  }

  function HalfOffOn(n: nat): seq<Call> {
    (if n != 0 then OfflineDownByTwo(n) else []) + OnlineUp(n)
  }

  function SerialCalls(n: nat, iterations: nat): seq<Call> {
    if iterations == 0 then [] else SerialCalls(n, iterations - 1) + (AllOffOn(n) + HalfOffOn(n))
  }

  method OnlineCpus(s: Cpus, cores: nat)
    modifies s
    ensures s.Did(old(s.calls), old(s.online), OnlineUp(cores))
  {
    ghost var before, start := s.calls, s.online;
    for cpus := 0 to cores
      invariant s.Did(before, start, OnlineUp(cpus))
    {
      var _ := s.Switch(Online(cpus), before, start, OnlineUp(cpus));
      assert OnlineUp(cpus) + [Online(cpus)] == OnlineUp(cpus + 1);
    }
  }

  method OfflineAllButFirst(s: Cpus, totalcpus: nat)
    requires totalcpus != 0
    modifies s
    ensures s.Did(old(s.calls), old(s.online), OfflineUp(1, totalcpus))
  {
    ghost var before, start := s.calls, s.online;
    for cpus := 1 to totalcpus
      invariant s.Did(before, start, OfflineUp(1, cpus))
    {
      var _ := s.Switch(Offline(cpus), before, start, OfflineUp(1, cpus));
      assert OfflineUp(1, cpus) + [Offline(cpus)] == OfflineUp(1, cpus + 1);
    }
  }

  method OnlineInReverse(s: Cpus, totalcpus: nat)
    modifies s
    ensures s.Did(old(s.calls), old(s.online), OnlineDown(totalcpus))
  {
    ghost var before, start := s.calls, s.online;
    ghost var on := OnlineDown(totalcpus);
    ghost var done: nat := 0;
    var cpus: int := totalcpus;
    while cpus > -1
      invariant done == totalcpus - cpus && cpus >= -1
      invariant s.Did(before, start, on[..done])
    {
      var _ := s.Switch(Online(cpus), before, start, on[..done]);
      assert on[..done] + [Online(cpus)] == on[..done + 1];
      cpus, done := cpus - 1, done + 1;
    }
    assert on[..done] == on;
  }

  method OfflineEverySecond(s: Cpus, totalcpus: nat)
    modifies s
    ensures s.Did(old(s.calls), old(s.online), OfflineDownByTwo(totalcpus))
  {
    ghost var before, start := s.calls, s.online;
    ghost var off := OfflineDownByTwo(totalcpus);
    ghost var done: nat := 0;
    var cpus: int := totalcpus;
    while cpus > -1
      invariant cpus == totalcpus - 2 * done && cpus >= -2
      invariant done <= |off| && s.Did(before, start, off[..done])
    {
      var _ := s.Switch(Offline(cpus), before, start, off[..done]);
      assert off[..done] + [Offline(cpus)] == off[..done + 1];
      cpus, done := cpus - 2, done + 1;
    }
    assert off[..done] == off;
  }

  method SerialIteration(s: Cpus, totalcpus: nat)
    modifies s
    ensures s.Did(old(s.calls), old(s.online), AllOffOn(totalcpus) + HalfOffOn(totalcpus))
  {
    ghost var m, before, start := s.machine, s.calls, s.online;
    ghost var off1 := if totalcpus != 0 then OfflineUp(1, totalcpus) else [];
    ghost var off2 := if totalcpus != 0 then OfflineDownByTwo(totalcpus) else [];
    if totalcpus != 0 {
      OfflineAllButFirst(s, totalcpus);
    }
    assert s.Did(before, start, off1);
    OnlineInReverse(s, totalcpus);
    DidBoth(m, before, start, off1, OnlineDown(totalcpus));
    ghost var half, mid := s.calls, s.online;
    if totalcpus != 0 {
      OfflineEverySecond(s, totalcpus);
    }
    assert s.Did(half, mid, off2);
    OnlineCpus(s, totalcpus);
    DidBoth(m, half, mid, off2, OnlineUp(totalcpus));
    DidBoth(m, before, start, AllOffOn(totalcpus), HalfOffOn(totalcpus));
  }

  method CpuSerialOffOn(s: Cpus, totalcpus: nat, iteration: nat)
    modifies s
    ensures s.Did(old(s.calls), old(s.online), SerialCalls(totalcpus, iteration))
  {
    ghost var before, start := s.calls, s.online;
    for i := 0 to iteration
      invariant s.Did(before, start, SerialCalls(totalcpus, i))
    {
      SerialIteration(s, totalcpus);
      DidBoth(s.machine, before, start, SerialCalls(totalcpus, i), AllOffOn(totalcpus) + HalfOffOn(totalcpus));
    }
  }

  // ----- what every run keeps -----

  ghost predicate HasUpTo(s: set<int>, n: nat) {
    forall c | 0 <= c < n :: c in s
  }

  /** The set {0, ..., n - 1}. */
  ghost predicate IsUpTo(s: set<int>, n: nat) {
    forall c :: c in s <==> 0 <= c < n
  }

  /** The machine has the CPUs 0..n - 1 and possibly one more, and nothing fails. */
  ghost predicate Suits(m: Machine, n: nat) {
    NothingFails(m) && (IsUpTo(m.present, n) || IsUpTo(m.present, n + 1))
  }

  lemma SuitsContains(m: Machine, n: nat, s: set<int>)
    requires Suits(m, n)
    ensures IsUpTo(s, n) ==> HasUpTo(s, n) && s <= m.present
  {
    if IsUpTo(s, n) {
      forall c | c in s
        ensures c in m.present
      {
      }
    }
  }

  lemma CpusOfPasses(n: nat)
    requires n >= 1
    ensures forall c :: c in CpusIn(OfflineUp(1, n)) <==> 1 <= c < n
    ensures forall c :: c in CpusIn(OnlineDown(n)) <==> 0 <= c <= n
    ensures forall c :: c in CpusIn(OfflineDownByTwo(n)) <==> 0 <= c <= n && (n - c) % 2 == 0
    ensures forall c :: c in CpusIn(OnlineUp(n)) <==> 0 <= c < n
  {
    var a, b, d, e := OfflineUp(1, n), OnlineDown(n), OfflineDownByTwo(n), OnlineUp(n);
    forall c | 0 <= c <= n
      ensures c in CpusIn(b)
      ensures 1 <= c < n ==> c in CpusIn(a)
      ensures (n - c) % 2 == 0 ==> c in CpusIn(d)
      ensures c < n ==> c in CpusIn(e)
    {
      assert b[n - c] in b;
      if 1 <= c < n {
        assert a[c - 1] in a;
      }
      if (n - c) % 2 == 0 {
        assert d[(n - c) / 2] in d;
      }
      if c < n {
        assert e[c] in e;
      }
    }
  }

  /** While all but CPU 0 go off and on, CPU 0 stays online; in the end every CPU is online. */
  lemma AllOffOnKeepsBootCpu(m: Machine, n: nat, online: set<int>, from: nat, k: nat)
    requires n >= 1 && Suits(m, n) && HasUpTo(online, n) && online <= m.present
    requires k <= |AllOffOn(n)|
    ensures 0 in After(m, online, from, AllOffOn(n)[..k])
    ensures After(m, online, from, AllOffOn(n)) == m.present
  {
    CpusOfPasses(n);
    AfterOffOn(m, online, from, OfflineUp(1, n), OnlineDown(n), k);
    forall c | c in m.present
      ensures c in CpusIn(OnlineDown(n))
    {
      assert IsUpTo(m.present, n) || IsUpTo(m.present, n + 1);
    }
  }

  /** While every second CPU goes off, CPU n - 1 stays online; in the end exactly the CPUs
      0..n - 1 are. */
  lemma HalfOffOnKeepsNeighbour(m: Machine, n: nat, from: nat, k: nat)
    requires n >= 1 && Suits(m, n) && k <= |HalfOffOn(n)|
    ensures n - 1 in After(m, m.present, from, HalfOffOn(n)[..k])
    ensures IsUpTo(After(m, m.present, from, HalfOffOn(n)), n)
  {
    CpusOfPasses(n);
    AfterOffOn(m, m.present, from, OfflineDownByTwo(n), OnlineUp(n), k);
  }

  ghost predicate AlwaysSome(m: Machine, online: set<int>, from: nat, cs: seq<Call>) {
    forall k | 0 <= k <= |cs| :: After(m, online, from, cs[..k]) != {}
  }

  lemma AlwaysSomeConcat(m: Machine, online: set<int>, from: nat, a: seq<Call>, b: seq<Call>)
    requires AlwaysSome(m, online, from, a)
    requires AlwaysSome(m, After(m, online, from, a), from + |a|, b)
    ensures AlwaysSome(m, online, from, a + b)
    ensures After(m, online, from, a + b) == After(m, After(m, online, from, a), from + |a|, b)
  {
    AfterConcat(m, online, from, a, b);
    forall k | 0 <= k <= |a + b|
      ensures After(m, online, from, (a + b)[..k]) != {}
    {
      AfterPrefix(m, online, from, a, b, k);
    }
  }

  lemma IterationKeepsSomeCpu(m: Machine, n: nat, online: set<int>, from: nat)
    requires n >= 1 && Suits(m, n) && HasUpTo(online, n) && online <= m.present
    ensures AlwaysSome(m, online, from, AllOffOn(n) + HalfOffOn(n))
    ensures IsUpTo(After(m, online, from, AllOffOn(n) + HalfOffOn(n)), n)
  {
    var a, b := AllOffOn(n), HalfOffOn(n);
    HalvesKeepSomeCpu(m, n, online, from);
    HalvesKeepSomeCpu(m, n, online, from + |a|);
    AlwaysSomeConcat(m, online, from, a, b);
  }

  lemma HalvesKeepSomeCpu(m: Machine, n: nat, online: set<int>, from: nat)
    requires n >= 1 && Suits(m, n) && HasUpTo(online, n) && online <= m.present
    ensures AlwaysSome(m, online, from, AllOffOn(n)) && AlwaysSome(m, m.present, from, HalfOffOn(n))
    ensures After(m, online, from, AllOffOn(n)) == m.present
    ensures IsUpTo(After(m, m.present, from, HalfOffOn(n)), n)
  {
    AllOffOnKeepsBootCpu(m, n, online, from, 0);
    HalfOffOnKeepsNeighbour(m, n, from, 0);
    forall k | 0 <= k <= |AllOffOn(n)|
      ensures After(m, online, from, AllOffOn(n)[..k]) != {}
    {
      AllOffOnKeepsBootCpu(m, n, online, from, k);
    }
    forall k | 0 <= k <= |HalfOffOn(n)|
      ensures After(m, m.present, from, HalfOffOn(n)[..k]) != {}
    {
      HalfOffOnKeepsNeighbour(m, n, from, k);
    }
  }

  /** One more iteration after calls that left enough CPUs online. */
  lemma AppendIteration(m: Machine, n: nat, online: set<int>, from: nat, a: seq<Call>)
    requires n >= 1 && Suits(m, n) && AlwaysSome(m, online, from, a)
    requires HasUpTo(After(m, online, from, a), n) && After(m, online, from, a) <= m.present
    ensures AlwaysSome(m, online, from, a + (AllOffOn(n) + HalfOffOn(n)))
    ensures IsUpTo(After(m, online, from, a + (AllOffOn(n) + HalfOffOn(n))), n)
  {
    hide AllOffOn, HalfOffOn, After;
    IterationKeepsSomeCpu(m, n, After(m, online, from, a), from + |a|);
    AlwaysSomeConcat(m, online, from, a, AllOffOn(n) + HalfOffOn(n));
  }

  /** At every step of every run some CPU is online, and each iteration ends with exactly
      the CPUs 0..n - 1 online, whether n is odd or even. */
  lemma {:induction false} SomeCpuStaysOnline(m: Machine, n: nat, iterations: nat, online: set<int>, from: nat)
    requires n >= 1 && Suits(m, n) && HasUpTo(online, n) && online <= m.present
    ensures AlwaysSome(m, online, from, SerialCalls(n, iterations))
    ensures var s := After(m, online, from, SerialCalls(n, iterations));
            if iterations > 0 then IsUpTo(s, n) else s == online
    decreases iterations
  {
    if iterations == 0 {
      assert 0 in online && SerialCalls(n, 0)[..0] == [];
    } else {
      var a := SerialCalls(n, iterations - 1);
      SomeCpuStaysOnline(m, n, iterations - 1, online, from);
      SuitsContains(m, n, After(m, online, from, a));
      AppendIteration(m, n, online, from, a);
    }
  }

  ghost predicate AlwaysOnline(m: Machine, online: set<int>, from: nat, cs: seq<Call>, c: int) {
    forall k | 0 <= k <= |cs| :: c in After(m, online, from, cs[..k])
  }

  lemma AlwaysOnlineConcat(m: Machine, online: set<int>, from: nat, a: seq<Call>, b: seq<Call>, c: int)
    ensures AlwaysOnline(m, online, from, a + b, c) <==>
            AlwaysOnline(m, online, from, a, c) &&
            AlwaysOnline(m, After(m, online, from, a), from + |a|, b, c)
    ensures After(m, online, from, a + b) == After(m, After(m, online, from, a), from + |a|, b)
  {
    AfterConcat(m, online, from, a, b);
    forall k | 0 <= k <= |a + b|
      ensures After(m, online, from, (a + b)[..k]) ==
              if k <= |a| then After(m, online, from, a[..k])
              else After(m, After(m, online, from, a), from + |a|, b[..k - |a|])
    {
      AfterPrefix(m, online, from, a, b, k);
    }
    if AlwaysOnline(m, online, from, a + b, c) {
      forall k | 0 <= k <= |a|
        ensures c in After(m, online, from, a[..k])
      {
        assert c in After(m, online, from, (a + b)[..k]);
      }
      forall k | 0 <= k <= |b|
        ensures c in After(m, After(m, online, from, a), from + |a|, b[..k])
      {
        assert c in After(m, online, from, (a + b)[..|a| + k]);
        assert a[..|a|] == a && b[..0] == [];
      }
    }
  }

  lemma HalfTakesBootCpuIff(m: Machine, n: nat, from: nat)
    requires n >= 1 && Suits(m, n)
    ensures AlwaysOnline(m, m.present, from, HalfOffOn(n), 0) <==> n % 2 == 1
  {
    var off, on := OfflineDownByTwo(n), OnlineUp(n);
    CpusOfPasses(n);
    if n % 2 == 0 {
      assert (off + on)[..|off|] == off;
      AfterOfflines(m, m.present, from, off);
      assert 0 !in After(m, m.present, from, HalfOffOn(n)[..|off|]);
    } else {
      forall k | 0 <= k <= |off + on|
        ensures 0 in After(m, m.present, from, HalfOffOn(n)[..k])
      {
        AfterOffOn(m, m.present, from, off, on, k);
      }
    }
  }

  lemma IterationTakesBootCpuIff(m: Machine, n: nat, online: set<int>, from: nat)
    requires n >= 1 && Suits(m, n) && HasUpTo(online, n) && online <= m.present
    ensures AlwaysOnline(m, online, from, AllOffOn(n) + HalfOffOn(n), 0) <==> n % 2 == 1
  {
    hide AllOffOn, HalfOffOn, After;
    HalvesKeepSomeCpu(m, n, online, from);
    forall k | 0 <= k <= |AllOffOn(n)|
      ensures 0 in After(m, online, from, AllOffOn(n)[..k])
    {
      AllOffOnKeepsBootCpu(m, n, online, from, k);
    }
    HalfTakesBootCpuIff(m, n, from + |AllOffOn(n)|);
    AlwaysOnlineConcat(m, online, from, AllOffOn(n), HalfOffOn(n), 0);
  }

  lemma {:induction false} BootCpuAlwaysOnlineIff(m: Machine, n: nat, iterations: nat, online: set<int>, from: nat)
    requires n >= 1 && Suits(m, n) && HasUpTo(online, n) && online <= m.present
    ensures AlwaysOnline(m, online, from, SerialCalls(n, iterations), 0) <==> n % 2 == 1 || iterations == 0
    decreases iterations
  {
    hide AllOffOn, HalfOffOn, After;
    if iterations == 0 {
      NothingKeepsOnline(m, online, from, 0);
    } else {
      var a := SerialCalls(n, iterations - 1);
      BootCpuAlwaysOnlineIff(m, n, iterations - 1, online, from);
      SomeCpuStaysOnline(m, n, iterations - 1, online, from);
      SuitsContains(m, n, After(m, online, from, a));
      IterationTakesBootCpuIff(m, n, After(m, online, from, a), from + |a|);
      AlwaysOnlineConcat(m, online, from, a, AllOffOn(n) + HalfOffOn(n), 0);
    }
  }

  lemma NothingKeepsOnline(m: Machine, online: set<int>, from: nat, c: int)
    ensures AlwaysOnline(m, online, from, [], c) <==> c in online
  {
    var none: seq<Call> := [];
    assert none[..0] == none;
    assert forall k | 0 <= k <= |none| :: none[..k] == none;
  }

  /** CPU 0 itself is taken offline in every run of at least one iteration when n is even,
      and in no run when n is odd. */
  lemma BootCpuGoesOfflineIff(m: Machine, n: nat, iterations: nat, online: set<int>, from: nat)
    requires n >= 1 && Suits(m, n) && HasUpTo(online, n) && online <= m.present
    ensures (exists k | 0 <= k <= |SerialCalls(n, iterations)| ::
               0 !in After(m, online, from, SerialCalls(n, iterations)[..k])) <==>
            n % 2 == 0 && iterations > 0
  {
    hide SerialCalls, After;
    BootCpuAlwaysOnlineIff(m, n, iterations, online, from);
  }

  // ----- the calls and the stages of every iteration -----

  /** An iteration makes n - 1 calls, n + 1, every second of these, and n. */
  function IterationLength(n: nat): nat {
    3 * n + n / 2 + 1
  }

  /** The j-th call of an iteration: 1, 2, ..., n - 1 offline; n, ..., 1, 0 online; n, n - 2,
      ... offline; 0, 1, ..., n - 1 online. */
  lemma IterationCallAt(n: nat, j: nat)
    ensures var cs := AllOffOn(n) + HalfOffOn(n);
            && |cs| == IterationLength(n)
            && (j < |cs| ==>
                cs[j] == if n == 0 then Online(0)
                         else if j < n - 1 then Offline(1 + j)
                         else if j < 2 * n then Online(2 * n - 1 - j)
                         else if j < 2 * n + n / 2 + 1 then Offline(n - 2 * (j - 2 * n))
                         else Online(j - (2 * n + n / 2 + 1)))
  {
  }

  lemma {:induction false} SerialCallsLength(n: nat, iterations: nat)
    ensures |SerialCalls(n, iterations)| == iterations * IterationLength(n)
  {
    hide AllOffOn, HalfOffOn, IterationLength;
    IterationCallAt(n, 0);
    if iterations > 0 {
      SerialCallsLength(n, iterations - 1);
      var len := IterationLength(n);
      assert iterations * len == (iterations - 1) * len + len;
    }
  }

  /** The calls of a whole run are those of the iterations, one after the other. */
  lemma {:induction false} SerialCallsSplit(n: nat, iterations: nat, i: nat)
    requires i < iterations
    ensures SerialCalls(n, i) + (AllOffOn(n) + HalfOffOn(n)) <= SerialCalls(n, iterations)
    decreases iterations
  {
    hide AllOffOn, HalfOffOn;
    if i < iterations - 1 {
      SerialCallsSplit(n, iterations - 1, i);
    }
  }

  /** The state after `j` calls of iteration `i` is that of an iteration of its own. */
  lemma StateInIteration(m: Machine, n: nat, iterations: nat, i: nat, j: nat, online: set<int>, from: nat)
    requires i < iterations && j <= IterationLength(n)
    ensures var cs, a, b := SerialCalls(n, iterations), SerialCalls(n, i), AllOffOn(n) + HalfOffOn(n);
            && |a| + j <= |cs| && j <= |b|
            && After(m, online, from, cs[..|a| + j]) == After(m, After(m, online, from, a), from + |a|, b[..j])
  {
    hide AllOffOn, HalfOffOn, SerialCalls, After, IterationLength;
    var cs, a, b := SerialCalls(n, iterations), SerialCalls(n, i), AllOffOn(n) + HalfOffOn(n);
    IterationCallAt(n, 0);
    SerialCallsSplit(n, iterations, i);
    assert (a + b)[..|a| + j] == a + b[..j];
    assert cs[..|a + b|] == a + b && cs[..|a| + j] == cs[..|a + b|][..|a| + j];
    AfterConcat(m, online, from, a, b[..j]);
  }

  /** Call j of iteration i of a run, whatever n and the number of iterations. */
  lemma SerialCallAt(n: nat, iterations: nat, i: nat, j: nat)
    requires i < iterations && j < IterationLength(n)
    ensures var cs, at := SerialCalls(n, iterations), i * IterationLength(n) + j;
            && |cs| == iterations * IterationLength(n) && at < |cs|
            && cs[at] == if n == 0 then Online(0)
                         else if j < n - 1 then Offline(1 + j)
                         else if j < 2 * n then Online(2 * n - 1 - j)
                         else if j < 2 * n + n / 2 + 1 then Offline(n - 2 * (j - 2 * n))
                         else Online(j - (2 * n + n / 2 + 1))
  {
    hide AllOffOn, HalfOffOn, SerialCalls;
    var a, b := SerialCalls(n, i), AllOffOn(n) + HalfOffOn(n);
    IterationCallAt(n, j);
    SerialCallsSplit(n, iterations, i);
    SerialCallsLength(n, i);
    SerialCallsLength(n, iterations);
    assert (a + b)[|a| + j] == b[j] == SerialCalls(n, iterations)[|a| + j];
  }

  /** In the middle of the first half all CPUs but CPU 0 and CPU n have been taken offline. */
  lemma FirstHalfTurns(m: Machine, n: nat, online: set<int>, from: nat)
    requires n >= 1 && Suits(m, n) && online <= m.present
    ensures |AllOffOn(n)| == 2 * n
    ensures forall c :: c in After(m, online, from, AllOffOn(n)[..n - 1]) <==> c in online && !(1 <= c < n)
  {
    hide After;
    var off := OfflineUp(1, n);
    CpusOfPasses(n);
    assert AllOffOn(n)[..n - 1] == off;
    AfterOfflines(m, online, from, off);
  }

  /** In the middle of the second half exactly every second CPU is left. */
  lemma SecondHalfTurns(m: Machine, n: nat, from: nat)
    requires n >= 1 && Suits(m, n)
    ensures |HalfOffOn(n)| == n / 2 + 1 + n
    ensures forall c :: c in After(m, m.present, from, HalfOffOn(n)[..n / 2 + 1]) <==>
                        c in m.present && (n - c) % 2 == 1
  {
    hide After;
    var off := OfflineDownByTwo(n);
    CpusOfPasses(n);
    assert HalfOffOn(n)[..n / 2 + 1] == off;
    AfterOfflines(m, m.present, from, off);
    assert forall c | c in m.present :: 0 <= c <= n;
  }

  /** What is online at the four turning points of an iteration started with `online`. */
  lemma IterationStages(m: Machine, n: nat, online: set<int>, from: nat)
    requires n >= 1 && Suits(m, n) && HasUpTo(online, n) && online <= m.present
    ensures var cs := AllOffOn(n) + HalfOffOn(n);
            && |cs| == IterationLength(n)
            && (forall c :: c in After(m, online, from, cs[..n - 1]) <==> c in online && !(1 <= c < n))
            && After(m, online, from, cs[..2 * n]) == m.present
            && (forall c :: c in After(m, online, from, cs[..2 * n + n / 2 + 1]) <==>
                            c in m.present && (n - c) % 2 == 1)
            && IsUpTo(After(m, online, from, cs), n)
  {
    hide After, AllOffOn, HalfOffOn, Suits, HasUpTo, IsUpTo;
    var a, b, h := AllOffOn(n), HalfOffOn(n), n / 2 + 1;
    FirstHalfTurns(m, n, online, from);
    SecondHalfTurns(m, n, from + |a|);
    HalvesKeepSomeCpu(m, n, online, from);
    HalvesKeepSomeCpu(m, n, online, from + |a|);
    assert (a + b)[..n - 1] == a[..n - 1] && (a + b)[..2 * n] == a && (a + b)[..2 * n + h] == a + b[..h];
    AfterConcat(m, online, from, a, b[..h]);
    AfterConcat(m, online, from, a, b);
  }

  /** In every iteration of every run first all CPUs but CPU 0 (and, at the very start, CPU n)
      are offline together, then all are online, then exactly every second one is, those an
      odd number below n, and in the end exactly the CPUs below n. */
  lemma SerialStages(m: Machine, n: nat, iterations: nat, i: nat, online: set<int>, from: nat)
    requires n >= 1 && Suits(m, n) && HasUpTo(online, n) && online <= m.present && i < iterations
    ensures var cs, done := SerialCalls(n, iterations), i * IterationLength(n);
            && |cs| == iterations * IterationLength(n) >= done + IterationLength(n)
            && (forall c :: c in After(m, online, from, cs[..done + (n - 1)]) <==>
                            if i == 0 then c in online && !(1 <= c < n) else c == 0)
            && After(m, online, from, cs[..done + 2 * n]) == m.present
            && (forall c :: c in After(m, online, from, cs[..done + 2 * n + n / 2 + 1]) <==>
                            c in m.present && (n - c) % 2 == 1)
            && IsUpTo(After(m, online, from, cs[..done + IterationLength(n)]), n)
  {
    hide After, AllOffOn, HalfOffOn, SerialCalls, Suits, IsUpTo;
    var len, a, b := IterationLength(n), SerialCalls(n, i), AllOffOn(n) + HalfOffOn(n);
    var start := After(m, online, from, a);
    IterationStart(m, n, i, online, from);
    IterationStages(m, n, start, from + |a|);
    SerialCallsLength(n, i);
    SerialCallsLength(n, iterations);
    StateInIteration(m, n, iterations, i, n - 1, online, from);
    StateInIteration(m, n, iterations, i, 2 * n, online, from);
    StateInIteration(m, n, iterations, i, 2 * n + n / 2 + 1, online, from);
    StateInIteration(m, n, iterations, i, len, online, from);
    assert b[..len] == b && |a| == i * len;
    var first := After(m, online, from, SerialCalls(n, iterations)[..|a| + (n - 1)]);
    assert first == After(m, start, from + |a|, b[..n - 1]);
    forall c
      ensures c in first <==> if i == 0 then c in online && !(1 <= c < n) else c == 0
    {
      assert c in start <==> if i == 0 then c in online else 0 <= c < n;
    }
  }

  lemma IterationStart(m: Machine, n: nat, i: nat, online: set<int>, from: nat)
    requires n >= 1 && Suits(m, n) && HasUpTo(online, n) && online <= m.present
    ensures var start := After(m, online, from, SerialCalls(n, i));
            && HasUpTo(start, n) && start <= m.present
            && forall c :: c in start <==> if i == 0 then c in online else 0 <= c < n
  {
    hide After, SerialCalls, Suits;
    SomeCpuStaysOnline(m, n, i, online, from);
    SuitsContains(m, n, After(m, online, from, SerialCalls(n, i)));
  }

  /** The start state set by the test's driver: whatever was online, 0..n - 1 are now. */
  lemma OnlineCpusPrepares(m: Machine, n: nat, online: set<int>, from: nat)
    requires Suits(m, n) && online <= m.present
    ensures HasUpTo(After(m, online, from, OnlineUp(n)), n)
    ensures After(m, online, from, OnlineUp(n)) <= m.present
  {
    AfterOnlines(m, online, from, OnlineUp(n));
    if n >= 1 {
      CpusOfPasses(n);
    }
  }

  /** The driver: whatever was online before, CPUs 0..n - 1 are exactly those online after. */
  method TestSerial(s: Cpus, totalcpus: nat, iteration: nat)
    modifies s
    ensures s.Did(old(s.calls), old(s.online), OnlineUp(totalcpus) + SerialCalls(totalcpus, iteration))
    ensures Suits(s.machine, totalcpus) && totalcpus >= 1 && iteration > 0 && old(s.online) <= s.machine.present ==>
              IsUpTo(s.online, totalcpus)
  {
    ghost var m, before, start := s.machine, s.calls, s.online;
    OnlineCpus(s, totalcpus);
    ghost var prepared := s.online;
    CpuSerialOffOn(s, totalcpus, iteration);
    DidBoth(m, before, start, OnlineUp(totalcpus), SerialCalls(totalcpus, iteration));
    if Suits(m, totalcpus) && totalcpus >= 1 && start <= m.present {
      OnlineCpusPrepares(m, totalcpus, start, |before|);
      SomeCpuStaysOnline(m, totalcpus, iteration, prepared, |before + OnlineUp(totalcpus)|);
    }
  }
}

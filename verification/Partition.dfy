/** The logical partition and the commands the management console (HMC) runs on it.
    A test issues a list of commands in order and stops at the first one refused. */
module Partition {
  datatype Resources = Resources(procs: int, units: real, mem: int)

  datatype Command =
    | AddProcs(count: int)
    | RemoveProcs(count: int)
    | AddUnits(amount: real)
    | RemoveUnits(amount: real)
    | AddMem(size: int)
    | RemoveMem(size: int)

  function Apply(r: Resources, c: Command): Resources {
    match c
    case AddProcs(n) => r.(procs := r.procs + n)
    case RemoveProcs(n) => r.(procs := r.procs - n)
    case AddUnits(u) => r.(units := r.units + u)
    case RemoveUnits(u) => r.(units := r.units - u)
    case AddMem(m) => r.(mem := r.mem + m)
    case RemoveMem(m) => r.(mem := r.mem - m)
  }

  function Inverse(c: Command): Command {
    match c
    case AddProcs(n) => RemoveProcs(n)
    case RemoveProcs(n) => AddProcs(n)
    case AddUnits(u) => RemoveUnits(u)
    case RemoveUnits(u) => AddUnits(u)
    case AddMem(m) => RemoveMem(m)
    case RemoveMem(m) => AddMem(m)
  }

  /** The resources after running every command of `cs` in order. */
  function Run(r: Resources, cs: seq<Command>): Resources {
    if cs == [] then r else Apply(Run(r, cs[..|cs| - 1]), cs[|cs| - 1])
  }

  /** The resources after the first `k` commands: the k-th state of the run. */
  function StateAt(r: Resources, cs: seq<Command>, k: nat): Resources
    requires k <= |cs|
  {
    Run(r, cs[..k])
  }

  /** `cs` undone: the inverse commands in the opposite order. */
  function Mirror(cs: seq<Command>): (m: seq<Command>)
    ensures |m| == |cs|
  {
    seq(|cs|, i requires 0 <= i < |cs| => Inverse(cs[|cs| - 1 - i]))
  }

  lemma {:induction false} RunConcat(r: Resources, a: seq<Command>, b: seq<Command>)
    ensures Run(r, a + b) == Run(Run(r, a), b)
  {
    if b == [] {
      assert a + b == a;
    } else {
      RunConcat(r, a, b[..|b| - 1]);
      assert (a + b)[..|a + b| - 1] == a + b[..|b| - 1];
    }
  }

  /** Undoing a run from its end visits the same states backwards. */
  lemma {:induction false} MirrorReversesStates(r: Resources, cs: seq<Command>, k: nat)
    requires k <= |cs|
    ensures StateAt(Run(r, cs), Mirror(cs), k) == StateAt(r, cs, |cs| - k)
  {
    if k == 0 {
      assert cs[..|cs|] == cs;
    } else {
      MirrorReversesStates(r, cs, k - 1);
      var m := Mirror(cs)[..k];
      assert m[..|m| - 1] == Mirror(cs)[..k - 1];
      assert m[|m| - 1] == Inverse(cs[|cs| - k]);
      var p := cs[..|cs| - k + 1];
      assert p[..|p| - 1] == cs[..|cs| - k];
      assert p[|p| - 1] == cs[|cs| - k];
    }
  }

  // ----- command lists made of loop rounds -----

  /** The commands of the first `n` rounds of a loop, one after the other. */
  function Flat(rounds: seq<seq<Command>>, n: nat): seq<Command>
    requires n <= |rounds|
  {
    if n == 0 then [] else Flat(rounds, n - 1) + rounds[n - 1]
  }

  function FlatAll(rounds: seq<seq<Command>>): seq<Command> {
    Flat(rounds, |rounds|)
  }

  ghost predicate HasWidth(rounds: seq<seq<Command>>, width: nat) {
    forall i | 0 <= i < |rounds| :: |rounds[i]| == width
  }

  lemma {:induction false} FlatLength(rounds: seq<seq<Command>>, width: nat, n: nat)
    requires HasWidth(rounds, width) && n <= |rounds|
    ensures |Flat(rounds, n)| == n * width
  {
    if n > 0 {
      FlatLength(rounds, width, n - 1);
      assert n * width == (n - 1) * width + width;
    }
  }

  lemma {:induction false} FlatIsPrefix(rounds: seq<seq<Command>>, i: nat, n: nat)
    requires i <= n <= |rounds|
    ensures Flat(rounds, i) <= Flat(rounds, n)
    decreases n - i
  {
    if i < n {
      FlatIsPrefix(rounds, i + 1, n);
    }
  }

  /** `states[i]` is the state in which round `i` starts. */
  ghost predicate Boundaries(r: Resources, rounds: seq<seq<Command>>, states: seq<Resources>) {
    && |states| == |rounds| + 1
    && states[0] == r
    && forall i | 0 <= i < |rounds| :: states[i + 1] == Run(states[i], rounds[i])
  }

  lemma {:induction false} RunToBoundary(r: Resources, rounds: seq<seq<Command>>, states: seq<Resources>, i: nat)
    requires Boundaries(r, rounds, states) && i <= |rounds|
    ensures Run(r, Flat(rounds, i)) == states[i]
  {
    if i > 0 {
      RunToBoundary(r, rounds, states, i - 1);
      RunConcat(r, Flat(rounds, i - 1), rounds[i - 1]);
    }
  }

  lemma StateAtBoundary(r: Resources, rounds: seq<seq<Command>>, states: seq<Resources>, width: nat, i: nat)
    requires Boundaries(r, rounds, states) && HasWidth(rounds, width) && i <= |rounds|
    ensures i * width <= |FlatAll(rounds)|
    ensures StateAt(r, FlatAll(rounds), i * width) == states[i]
  {
    FlatLength(rounds, width, i);
    FlatIsPrefix(rounds, i, |rounds|);
    RunToBoundary(r, rounds, states, i);
    assert FlatAll(rounds)[..i * width] == Flat(rounds, i);
  }

  /** The j-th command of round `i`. */
  lemma CommandInRound(rounds: seq<seq<Command>>, width: nat, i: nat, j: nat)
    requires HasWidth(rounds, width) && i < |rounds| && j < width
    ensures i * width + j < |FlatAll(rounds)|
    ensures FlatAll(rounds)[i * width + j] == rounds[i][j]
  {
    FlatLength(rounds, width, i);
    FlatLength(rounds, width, i + 1);
    FlatIsPrefix(rounds, i + 1, |rounds|);
    assert FlatAll(rounds)[i * width + j] == Flat(rounds, i + 1)[i * width + j];
  }

  /** The length of the list and the commands of round `i`, for one, two or four a round. */
  lemma RoundOfOne(rounds: seq<seq<Command>>, i: nat)
    requires HasWidth(rounds, 1)
    ensures |FlatAll(rounds)| == |rounds|
    ensures i < |rounds| ==> FlatAll(rounds)[i] == rounds[i][0]
  {
    FlatLength(rounds, 1, |rounds|);
    if i < |rounds| {
      CommandInRound(rounds, 1, i, 0);
    }
  }

  lemma RoundOfTwo(rounds: seq<seq<Command>>, i: nat)
    requires HasWidth(rounds, 2)
    ensures |FlatAll(rounds)| == 2 * |rounds|
    ensures i < |rounds| ==>
              FlatAll(rounds)[2 * i] == rounds[i][0] && FlatAll(rounds)[2 * i + 1] == rounds[i][1]
  {
    FlatLength(rounds, 2, |rounds|);
    if i < |rounds| {
      CommandInRound(rounds, 2, i, 0);
      CommandInRound(rounds, 2, i, 1);
    }
  }

  lemma RoundOfFour(rounds: seq<seq<Command>>, i: nat)
    requires HasWidth(rounds, 4)
    ensures |FlatAll(rounds)| == 4 * |rounds|
    ensures i < |rounds| ==>
              && FlatAll(rounds)[4 * i] == rounds[i][0] && FlatAll(rounds)[4 * i + 1] == rounds[i][1]
              && FlatAll(rounds)[4 * i + 2] == rounds[i][2] && FlatAll(rounds)[4 * i + 3] == rounds[i][3]
  {
    FlatLength(rounds, 4, |rounds|);
    if i < |rounds| {
      CommandInRound(rounds, 4, i, 0);
      CommandInRound(rounds, 4, i, 1);
      CommandInRound(rounds, 4, i, 2);
      CommandInRound(rounds, 4, i, 3);
    }
  }

  lemma StateStep(r: Resources, cs: seq<Command>, k: nat)
    requires k < |cs|
    ensures StateAt(r, cs, k + 1) == Apply(StateAt(r, cs, k), cs[k])
  {
    assert cs[..k + 1][..k] == cs[..k];
  }

  /** Two commands a round: the states at the start and in the middle of round `i`. */
  lemma StatesInPair(r: Resources, rounds: seq<seq<Command>>, states: seq<Resources>, i: nat)
    requires Boundaries(r, rounds, states) && HasWidth(rounds, 2) && i <= |rounds|
    ensures |FlatAll(rounds)| == 2 * |rounds|
    ensures StateAt(r, FlatAll(rounds), 2 * i) == states[i]
    ensures i < |rounds| ==>
              StateAt(r, FlatAll(rounds), 2 * i + 1) == Apply(states[i], rounds[i][0])
  {
    FlatLength(rounds, 2, |rounds|);
    StateAtBoundary(r, rounds, states, 2, i);
    if i < |rounds| {
      CommandInRound(rounds, 2, i, 0);
      StateStep(r, FlatAll(rounds), 2 * i);
    }
  }

  /** Four commands a round: the states at the start of round `i` and inside it. */
  lemma StatesInQuad(r: Resources, rounds: seq<seq<Command>>, states: seq<Resources>, i: nat)
    requires Boundaries(r, rounds, states) && HasWidth(rounds, 4) && i < |rounds|
    ensures |FlatAll(rounds)| == 4 * |rounds|
    ensures var s1 := Apply(states[i], rounds[i][0]);
            var s2 := Apply(s1, rounds[i][1]);
            && StateAt(r, FlatAll(rounds), 4 * i) == states[i]
            && StateAt(r, FlatAll(rounds), 4 * i + 1) == s1
            && StateAt(r, FlatAll(rounds), 4 * i + 2) == s2
            && StateAt(r, FlatAll(rounds), 4 * i + 3) == Apply(s2, rounds[i][2])
  {
    FlatLength(rounds, 4, |rounds|);
    StateAtBoundary(r, rounds, states, 4, i);
    forall j | 0 <= j < 3
      ensures StateAt(r, FlatAll(rounds), 4 * i + j + 1) ==
              Apply(StateAt(r, FlatAll(rounds), 4 * i + j), rounds[i][j])
    {
      CommandInRound(rounds, 4, i, j);
      StateStep(r, FlatAll(rounds), 4 * i + j);
    }
    var cs := FlatAll(rounds);
    assert StateAt(r, cs, 4 * i + 0 + 1) == Apply(StateAt(r, cs, 4 * i + 0), rounds[i][0]);
    assert StateAt(r, cs, 4 * i + 1 + 1) == Apply(StateAt(r, cs, 4 * i + 1), rounds[i][1]);
    assert StateAt(r, cs, 4 * i + 2 + 1) == Apply(StateAt(r, cs, 4 * i + 2), rounds[i][2]);
  }

  lemma RunShort(r: Resources, a: Command, b: Command, rest: seq<Command>)
    ensures Run(r, [a]) == Apply(r, a)
    ensures Run(r, [a, b]) == Apply(Apply(r, a), b)
    ensures Run(r, [a, b] + rest) == Run(Run(r, [a, b]), rest)
  {
    assert [a][..0] == [] && [a, b][..1] == [a];
    RunConcat(r, [a, b], rest);
  }

  /** What is observable of the partition: how many commands were issued, which of them
      were carried out, and the resources assigned now. */
  datatype Progress = Progress(issued: nat, done: seq<Command>, now: Resources)

  /** One command: carried out when the console accepts it, otherwise without effect. */
  ghost predicate Stepped(accepts: nat -> bool, before: Progress, c: Command, after: Progress, ok: bool) {
    && ok == accepts(before.issued)
    && after.issued == before.issued + 1
    && after.done == (if ok then before.done + [c] else before.done)
    && after.now == (if ok then Apply(before.now, c) else before.now)
  }

  /** The commands `cs` were issued in order up to the first refusal: exactly the commands
      before it were carried out, nothing else was, and `ok` says there was no refusal. */
  ghost predicate Followed(accepts: nat -> bool, before: Progress, cs: seq<Command>, after: Progress, ok: bool) {
    var k := |after.done| - |before.done|;
    && 0 <= k <= |cs|
    && after.done == before.done + cs[..k]
    && after.now == StateAt(before.now, cs, k)
    && (forall j | before.issued <= j < before.issued + k :: accepts(j))
    && ok == (k == |cs|)
    && (!ok ==> !accepts(before.issued + k))
    && after.issued == before.issued + k + (if ok then 0 else 1)
  }

  lemma FollowedNothing(accepts: nat -> bool, p: Progress)
    ensures Followed(accepts, p, [], p, true)
  {
  }

  lemma FollowedStep(accepts: nat -> bool, before: Progress, cs: seq<Command>, mid: Progress,
                     c: Command, after: Progress, ok: bool)
    requires Followed(accepts, before, cs, mid, true)
    requires Stepped(accepts, mid, c, after, ok)
    ensures Followed(accepts, before, cs + [c], after, ok)
  {
    hide Apply, Run;
    var n, all := |cs|, cs + [c];
    assert all[..n] == cs[..n] == cs;
    StateStep(before.now, all, n);
    if ok {
      assert all[..n + 1] == all && mid.done + [c] == before.done + all;
    }
  }

  /** After a refusal the remaining commands of the test are never issued. */
  lemma FollowedStop(accepts: nat -> bool, before: Progress, cs: seq<Command>, after: Progress,
                     rest: seq<Command>)
    requires Followed(accepts, before, cs, after, false)
    ensures Followed(accepts, before, cs + rest, after, false)
  {
    var k := |after.done| - |before.done|;
    assert (cs + rest)[..k] == cs[..k];
  }

  /** A loop stopped inside round `i` has stopped as a whole. */
  lemma StoppedInRound(accepts: nat -> bool, before: Progress, rounds: seq<seq<Command>>, i: nat, after: Progress)
    requires i < |rounds|
    requires Followed(accepts, before, Flat(rounds, i + 1), after, false)
    ensures Followed(accepts, before, FlatAll(rounds), after, false)
  {
    hide Run;
    FlatIsPrefix(rounds, i + 1, |rounds|);
    var cs := Flat(rounds, i + 1);
    var rest := FlatAll(rounds)[|cs|..];
    FollowedStop(accepts, before, cs, after, rest);
    assert cs + rest == FlatAll(rounds);
  }

  /** The assigned resources, and the limits of the partition's profile. */
  class Lpar {
    var procs: int
    var procUnits: real
    var mem: int
    const maxProcs: int
    const maxProcUnits: real
    const maxMem: int
    const lmb: int

    /** Whether the console accepts the k-th command it is sent. */
    const accepts: nat -> bool
    var issued: nat
    var done: seq<Command>

    constructor (now: Resources, maxProcs: int, maxProcUnits: real, maxMem: int, lmb: int, accepts: nat -> bool)
      ensures Observe() == Progress(0, [], now)
      ensures this.maxProcs == maxProcs && this.maxProcUnits == maxProcUnits
      ensures this.maxMem == maxMem && this.lmb == lmb && this.accepts == accepts
    {
      procs, procUnits, mem := now.procs, now.units, now.mem;
      this.maxProcs, this.maxProcUnits := maxProcs, maxProcUnits;
      this.maxMem, this.lmb, this.accepts := maxMem, lmb, accepts;
      issued, done := 0, [];
    }

    function Now(): Resources
      reads this
    {
      Resources(procs, procUnits, mem)
    }

    function Observe(): Progress
      reads this
    {
      Progress(issued, done, Now())
    }

    method Issue(c: Command) returns (ok: bool)
      modifies this
      ensures Stepped(accepts, old(Observe()), c, Observe(), ok)
    {
      ok := accepts(issued);
      issued := issued + 1;
      if ok {
        match c {
        case AddProcs(n) => procs := procs + n;
        case RemoveProcs(n) => procs := procs - n;
        case AddUnits(u) => procUnits := procUnits + u;
        case RemoveUnits(u) => procUnits := procUnits - u;
        case AddMem(m) => mem := mem + m;
        case RemoveMem(m) => mem := mem - m;
        }
        done := done + [c];
      }
    }

    /** Issues the next command of a test whose commands so far, `cs`, all succeeded. */
    method IssueNext(ghost before: Progress, ghost cs: seq<Command>, c: Command) returns (ok: bool)
      requires Followed(accepts, before, cs, Observe(), true)
      modifies this
      ensures Followed(accepts, before, cs + [c], Observe(), ok)
    {
      ghost var mid := Observe();
      ok := Issue(c);
      FollowedStep(accepts, before, cs, mid, c, Observe(), ok);
    }

    /** Two commands of one loop round; the second is issued only if the first succeeded. */
    method IssueTwo(ghost before: Progress, ghost cs: seq<Command>, first: Command, second: Command)
      returns (ok: bool)
      requires Followed(accepts, before, cs, Observe(), true)
      modifies this
      ensures Followed(accepts, before, cs + [first, second], Observe(), ok)
    {
      ok := IssueNext(before, cs, first);
      assert cs + [first] + [second] == cs + [first, second];
      if ok {
        ok := IssueNext(before, cs + [first], second);
      } else {
        FollowedStop(accepts, before, cs + [first], Observe(), [second]);
      }
    }
  }
}

/** CPUs that are switched online and offline one call at a time. */
module Hotplug {
  import opened Arithmetic
  import opened Positions

  datatype Call = Online(cpu: int) | Offline(cpu: int)

  /** The CPUs that exist, and whether the k-th call on an existing CPU succeeds. */
  datatype Machine = Machine(present: set<int>, accepts: nat -> bool)

  predicate Succeeds(m: Machine, k: nat, c: Call) {
    c.cpu in m.present && m.accepts(k)
  }

  function Effect(online: set<int>, c: Call): set<int> {
    match c
    case Online(cpu) => online + {cpu}
    case Offline(cpu) => online - {cpu}
  }

  /** The online CPUs after `calls`, the first of which is call number `from`. */
  function After(m: Machine, online: set<int>, from: nat, calls: seq<Call>): set<int> {
    if calls == [] then online
    else
      var n := |calls| - 1;
      var before := After(m, online, from, calls[..n]);
      if Succeeds(m, from + n, calls[n]) then Effect(before, calls[n]) else before
  }

  function Failures(m: Machine, from: nat, calls: seq<Call>): nat {
    if calls == [] then 0
    else
      var n := |calls| - 1;
      Failures(m, from, calls[..n]) + if Succeeds(m, from + n, calls[n]) then 0 else 1
  }

  /** The count of failures is the number of calls on a missing CPU or not accepted. */
  lemma {:induction false} FailuresAreCounted(m: Machine, from: nat, calls: seq<Call>) returns (failed: seq<nat>)
    ensures Lists(failed, |calls|, (k: nat) => k < |calls| && !(calls[k].cpu in m.present && m.accepts(from + k)))
    ensures Failures(m, from, calls) == |failed|
  {
    if calls == [] {
      failed := [];
    } else {
      var n := |calls| - 1;
      var before := FailuresAreCounted(m, from, calls[..n]);
      failed := before + if Succeeds(m, from + n, calls[n]) then [] else [n];
      assert forall k: nat | k < n :: calls[..n][k] == calls[k];
      assert Lists(before, n, (k: nat) => k < |calls| && !(calls[k].cpu in m.present && m.accepts(from + k)));
      ListsNext(before, n, (k: nat) => k < |calls| && !(calls[k].cpu in m.present && m.accepts(from + k)), failed);
    }
  }

  class Cpus {
    const machine: Machine
    var online: set<int>
    var calls: seq<Call>

    constructor (machine: Machine, online: set<int>)
      ensures this.machine == machine && this.online == online && calls == []
    {
      this.machine, this.online, calls := machine, online, [];
    }

    /** What has happened since there were `from` calls and `start` was online. */
    ghost predicate Did(before: seq<Call>, start: set<int>, cs: seq<Call>)
      reads this
    {
      calls == before + cs && online == After(machine, start, |before|, cs)
    }

    method Switch(c: Call, ghost before: seq<Call>, ghost start: set<int>, ghost cs: seq<Call>) returns (ok: bool)
      requires Did(before, start, cs)
      modifies this
      ensures Did(before, start, cs + [c])
      ensures ok == Succeeds(machine, |before| + |cs|, c)
    {
      ok := c.cpu in machine.present && machine.accepts(|calls|);
      calls := calls + [c];
      if ok {
        match c
        case Online(cpu) => online := online + {cpu};
        case Offline(cpu) => online := online - {cpu};
      }
      assert (cs + [c])[..|cs|] == cs;
      assert before + cs + [c] == before + (cs + [c]);
    }
  }

  lemma {:induction false} AfterConcat(m: Machine, online: set<int>, from: nat, a: seq<Call>, b: seq<Call>)
    ensures After(m, online, from, a + b) == After(m, After(m, online, from, a), from + |a|, b)
    ensures Failures(m, from, a + b) == Failures(m, from, a) + Failures(m, from + |a|, b)
  {
    if b == [] {
      assert a + b == a;
    } else {
      var n := |b| - 1;
      AfterConcat(m, online, from, a, b[..n]);
      assert (a + b)[..|a + b| - 1] == a + b[..n];
    }
  }

  /** The states of a run continued by `b` are those of `a`, then those of `b`. */
  lemma AfterPrefix(m: Machine, online: set<int>, from: nat, a: seq<Call>, b: seq<Call>, k: nat)
    requires k <= |a + b|
    ensures After(m, online, from, (a + b)[..k]) ==
            if k <= |a| then After(m, online, from, a[..k])
            else After(m, After(m, online, from, a), from + |a|, b[..k - |a|])
  {
    if k <= |a| {
      assert (a + b)[..k] == a[..k];
    } else {
      assert (a + b)[..k] == a + b[..k - |a|];
      AfterConcat(m, online, from, a, b[..k - |a|]);
    }
  }

  /** Every existing CPU can be switched, any time. */
  ghost predicate NothingFails(m: Machine) {
    forall k: nat :: m.accepts(k)
  }

  function CpusIn(calls: seq<Call>): set<int> {
    set c | c in calls :: c.cpu
  }

  /** A stretch of offline calls removes their CPUs. */
  lemma {:induction false} AfterOfflines(m: Machine, online: set<int>, from: nat, calls: seq<Call>)
    requires NothingFails(m) && online <= m.present
    requires forall i | 0 <= i < |calls| :: calls[i].Offline?
    ensures After(m, online, from, calls) == online - CpusIn(calls)
  {
    if calls != [] {
      var n := |calls| - 1;
      AfterOfflines(m, online, from, calls[..n]);
      assert calls == calls[..n] + [calls[n]];
      assert CpusIn(calls) == CpusIn(calls[..n]) + {calls[n].cpu};
    }
  }

  /** A stretch of online calls adds those of their CPUs that exist. */
  lemma {:induction false} AfterOnlines(m: Machine, online: set<int>, from: nat, calls: seq<Call>)
    requires NothingFails(m)
    requires forall i | 0 <= i < |calls| :: calls[i].Online?
    ensures After(m, online, from, calls) == online + CpusIn(calls) * m.present
  {
    if calls != [] {
      var n := |calls| - 1;
      AfterOnlines(m, online, from, calls[..n]);
      assert calls == calls[..n] + [calls[n]];
      assert CpusIn(calls) == CpusIn(calls[..n]) + {calls[n].cpu};
    }
  }

  /** Offline calls followed by online calls: every state on the way lies between the CPUs
      spared by the offline calls and everything, and the last one is known. */
  lemma AfterOffOn(m: Machine, online: set<int>, from: nat, off: seq<Call>, on: seq<Call>, k: nat)
    requires NothingFails(m) && online <= m.present
    requires forall i | 0 <= i < |off| :: off[i].Offline?
    requires forall i | 0 <= i < |on| :: on[i].Online?
    requires k <= |off + on|
    ensures online - CpusIn(off) <= After(m, online, from, (off + on)[..k]) <= m.present
    ensures After(m, online, from, off + on) == (online - CpusIn(off)) + CpusIn(on) * m.present
  {
    var low := online - CpusIn(off);
    AfterOfflines(m, online, from, off);
    AfterConcat(m, online, from, off, on);
    AfterOnlines(m, low, from + |off|, on);
    var j := Min(k, |off|);
    var first, rest := off[..j], on[..k - j];
    assert (off + on)[..k] == first + rest;
    AfterConcat(m, online, from, first, rest);
    AfterOfflines(m, online, from, first);
    AfterOnlines(m, online - CpusIn(first), from + j, rest);
    CpusInPrefix(off, j);
  }

  lemma CpusInPrefix(calls: seq<Call>, k: nat)
    requires k <= |calls|
    ensures CpusIn(calls[..k]) <= CpusIn(calls)
  {
    assert forall c | c in calls[..k] :: c in calls;
  }

  /** Two runs, one after the other, are one run, and their failures add up. */
  lemma DidBoth(m: Machine, before: seq<Call>, start: set<int>, a: seq<Call>, b: seq<Call>)
    ensures (before + a) + b == before + (a + b)
    ensures After(m, After(m, start, |before|, a), |before + a|, b) == After(m, start, |before|, a + b)
    ensures Failures(m, |before|, a) + Failures(m, |before + a|, b) == Failures(m, |before|, a + b)
  {
    AfterConcat(m, start, |before|, a, b);
  }
}

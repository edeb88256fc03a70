/** Grouping of CPUs by die, the choice of CPU sets for the performance test, and the check
    that a die lies in one package. A CPU's ids are None when they cannot be read as numbers. */
module DieTopology {
  import opened Arithmetic
  import opened Positions
  import opened Sorting

  datatype Group = Group(die: int, cpus: seq<int>)

  /** The online CPUs of a die, in the order they are listed. */
  function Members(online: seq<int>, dieOf: int -> Option<int>, die: int): seq<int> {
    if online == [] then []
    else
      var n := |online| - 1;
      Members(online[..n], dieOf, die) + (if dieOf(online[n]) == Some(die) then [online[n]] else [])
  }

  /** Appends a CPU to the group of its die, opening a new group at the end if needed. */
  function AddToGroup(groups: seq<Group>, die: int, cpu: int): seq<Group> {
    if groups == [] then [Group(die, [cpu])]
    else if groups[0].die == die then [Group(die, groups[0].cpus + [cpu])] + groups[1..]
    else [groups[0]] + AddToGroup(groups[1..], die, cpu)
  }

  function Groups(online: seq<int>, dieOf: int -> Option<int>): seq<Group> {
    if online == [] then []
    else
      var n := |online| - 1;
      var before := Groups(online[..n], dieOf);
      match dieOf(online[n])
      case None => before
      case Some(die) => if die >= 0 then AddToGroup(before, die, online[n]) else before
  }

  /** The group-by-die loop: unreadable and negative dies are skipped. */
  method GroupByDie(online: seq<int>, dieOf: int -> Option<int>) returns (dieGroups: seq<Group>)
    ensures dieGroups == Groups(online, dieOf)
  {
    dieGroups := [];
    for i := 0 to |online|
      invariant dieGroups == Groups(online[..i], dieOf)
    {
      var cpu := online[i];
      assert online[..i + 1][..i] == online[..i];
      match dieOf(cpu) {
        case None =>
        case Some(die) =>
          if die >= 0 {
            dieGroups := AddToGroup(dieGroups, die, cpu);
          }
      }
    }
    assert online[..|online|] == online;
  }

  // ----- the groups are the dies -----

  ghost predicate DistinctDies(groups: seq<Group>) {
    forall i, j | 0 <= i < j < |groups| :: groups[i].die != groups[j].die
  }

  function CpusOf(groups: seq<Group>, die: int): seq<int> {
    if groups == [] then []
    else if groups[0].die == die then groups[0].cpus
    else CpusOf(groups[1..], die)
  }

  lemma {:induction false} CpusOfGroup(groups: seq<Group>, i: nat)
    requires DistinctDies(groups) && i < |groups|
    ensures CpusOf(groups, groups[i].die) == groups[i].cpus
  {
    if i > 0 {
      assert groups[0].die != groups[i].die;
      CpusOfGroup(groups[1..], i - 1);
    }
  }

  lemma {:induction false} GroupOfDie(groups: seq<Group>, die: int) returns (i: nat)
    requires CpusOf(groups, die) != []
    ensures i < |groups| && groups[i].die == die
  {
    if groups[0].die == die {
      i := 0;
    } else {
      i := GroupOfDie(groups[1..], die);
      i := i + 1;
    }
  }

  ghost predicate ProperGroups(groups: seq<Group>) {
    && DistinctDies(groups)
    && forall g | g in groups :: g.die >= 0 && g.cpus != []
  }

  lemma {:induction false} AddToGroupCpus(groups: seq<Group>, die: int, cpu: int, other: int)
    ensures CpusOf(AddToGroup(groups, die, cpu), other) ==
            if other == die then CpusOf(groups, die) + [cpu] else CpusOf(groups, other)
  {
    if groups != [] && groups[0].die != die {
      AddToGroupCpus(groups[1..], die, cpu, other);
    }
  }

  /** Only the group of the die changes, and a new group is the only new die. */
  lemma {:induction false} AddToGroupOthers(groups: seq<Group>, die: int, cpu: int)
    ensures forall g | g in AddToGroup(groups, die, cpu) :: (g.die == die && g.cpus != []) || g in groups
  {
    if groups != [] && groups[0].die != die {
      AddToGroupOthers(groups[1..], die, cpu);
    }
  }

  lemma {:induction false} AddToGroupProper(groups: seq<Group>, die: int, cpu: int)
    requires ProperGroups(groups) && die >= 0
    ensures ProperGroups(AddToGroup(groups, die, cpu))
  {
    AddToGroupOthers(groups, die, cpu);
    if groups == [] {
    } else if groups[0].die == die {
      var r := AddToGroup(groups, die, cpu);
      assert forall j | 0 < j < |r| :: r[j] == groups[j];
    } else {
      var rest := groups[1..];
      assert forall j | 0 <= j < |rest| :: rest[j] == groups[j + 1];
      AddToGroupProper(rest, die, cpu);
      AddToGroupOthers(rest, die, cpu);
      forall h | h in AddToGroup(rest, die, cpu)
        ensures h.die != groups[0].die
      {
        if h in rest {
          var k :| 0 <= k < |rest| && rest[k] == h;
          assert groups[k + 1] == h;
        }
      }
      PrependDie(groups[0], AddToGroup(rest, die, cpu));
    }
  }

  lemma PrependDie(g: Group, rest: seq<Group>)
    requires DistinctDies(rest) && forall h | h in rest :: h.die != g.die
    ensures DistinctDies([g] + rest)
  {
    var groups := [g] + rest;
    assert forall k | 0 < k < |groups| :: groups[k] == rest[k - 1] && rest[k - 1] in rest;
  }

  /** Every group is a non-negative die with all its online CPUs, every such die with a CPU
      has a group, and no die has two. */
  lemma {:induction false} GroupsAreDies(online: seq<int>, dieOf: int -> Option<int>, die: int)
    ensures ProperGroups(Groups(online, dieOf))
    ensures die >= 0 ==> CpusOf(Groups(online, dieOf), die) == Members(online, dieOf, die)
  {
    if online != [] {
      var n := |online| - 1;
      var before := Groups(online[..n], dieOf);
      GroupsAreDies(online[..n], dieOf, die);
      match dieOf(online[n]) {
        case None =>
        case Some(d) =>
          if d >= 0 {
            AddToGroupCpus(before, d, online[n], die);
            AddToGroupProper(before, d, online[n]);
          }
      }
    }
  }

  /** Adding a CPU keeps the first CPU of every group, and a new group comes last. */
  lemma {:induction false} AddToGroupKeepsFirst(groups: seq<Group>, die: int, cpu: int)
    requires forall i | 0 <= i < |groups| :: groups[i].cpus != []
    ensures var r := AddToGroup(groups, die, cpu);
            && (forall i | 0 <= i < |r| :: r[i].cpus != [])
            && |groups| <= |r| <= |groups| + 1
            && (forall i | 0 <= i < |groups| :: r[i].cpus[0] == groups[i].cpus[0])
            && (|r| == |groups| + 1 ==> r[|groups|].cpus[0] == cpu)
  {
    if groups != [] && groups[0].die != die {
      var rest := groups[1..];
      AddToGroupKeepsFirst(rest, die, cpu);
      var r, t := AddToGroup(groups, die, cpu), AddToGroup(rest, die, cpu);
      assert forall i | 0 < i < |r| :: r[i] == t[i - 1];
      assert forall i | 0 < i < |groups| :: groups[i] == rest[i - 1];
    }
  }

  ghost predicate Before(online: seq<int>, c: int, d: int) {
    exists a, b | 0 <= a < b < |online| :: online[a] == c && online[b] == d
  }

  ghost predicate Seen(online: seq<int>, g: Group) {
    g.cpus != [] && g.cpus[0] in online
  }

  /** The first CPU of `g` is listed before the first of `h`. */
  ghost predicate SeenBefore(online: seq<int>, g: Group, h: Group) {
    g.cpus != [] && h.cpus != [] && Before(online, g.cpus[0], h.cpus[0])
  }

  ghost predicate InOrderSeen(online: seq<int>, groups: seq<Group>) {
    && (forall i | 0 <= i < |groups| :: Seen(online, groups[i]))
    && (forall i, j | 0 <= i < j < |groups| :: SeenBefore(online, groups[i], groups[j]))
  }

  /** The groups are in the order in which their first CPUs are listed. */
  lemma {:induction false} GroupsInOrderSeen(online: seq<int>, dieOf: int -> Option<int>)
    ensures InOrderSeen(online, Groups(online, dieOf))
  {
    if online != [] {
      var n := |online| - 1;
      var cpu, before, groups := online[n], Groups(online[..n], dieOf), Groups(online, dieOf);
      GroupsInOrderSeen(online[..n], dieOf);
      BeforeExtends(online);
      forall i | 0 <= i < |before|
        ensures Seen(online, before[i]) && Before(online, before[i].cpus[0], cpu)
      {
        assert Seen(online[..n], before[i]);
        var a :| 0 <= a < n && online[..n][a] == before[i].cpus[0];
        assert online[a] == before[i].cpus[0];
      }
      forall i, j | 0 <= i < j < |before|
        ensures SeenBefore(online, before[i], before[j])
      {
        assert SeenBefore(online[..n], before[i], before[j]);
      }
      if dieOf(cpu).Some? && dieOf(cpu).value >= 0 {
        AddToGroupKeepsFirst(before, dieOf(cpu).value, cpu);
        FirstCpusDecide(online, before, groups, cpu);
      }
    }
  }

  /** Order seen depends on the first CPUs only. */
  lemma FirstCpusDecide(online: seq<int>, before: seq<Group>, groups: seq<Group>, cpu: int)
    requires InOrderSeen(online, before) && cpu in online
    requires forall i | 0 <= i < |before| :: before[i].cpus != [] && Before(online, before[i].cpus[0], cpu)
    requires |before| <= |groups| <= |before| + 1
    requires forall i | 0 <= i < |groups| :: groups[i].cpus != []
    requires forall i | 0 <= i < |before| :: groups[i].cpus[0] == before[i].cpus[0]
    requires |groups| == |before| + 1 ==> groups[|before|].cpus[0] == cpu
    ensures InOrderSeen(online, groups)
  {
    forall i | 0 <= i < |groups|
      ensures Seen(online, groups[i])
    {
      assert i < |before| ==> Seen(online, before[i]);
    }
    forall i, j | 0 <= i < j < |groups|
      ensures SeenBefore(online, groups[i], groups[j])
    {
      assert j < |before| ==> SeenBefore(online, before[i], before[j]);
      assert before[i].cpus != [] && groups[i].cpus[0] == before[i].cpus[0];
    }
  }

  lemma BeforeExtends(online: seq<int>)
    requires online != []
    ensures forall c, d | Before(online[..|online| - 1], c, d) :: Before(online, c, d)
    ensures forall c | c in online[..|online| - 1] :: c in online
  {
    var init := online[..|online| - 1];
    forall c, d | Before(init, c, d)
      ensures Before(online, c, d)
    {
      var a, b :| 0 <= a < b < |init| && init[a] == c && init[b] == d;
      assert online[a] == c && online[b] == d;
    }
  }

  // ----- choosing the CPU sets -----

  /** Sorting by this key puts the dies with most CPUs first. */
  function FewerCpus(g: Group): int {
    -|g.cpus|
  }

  function Cpu(c: int): int {
    c
  }

  function SortedDies(online: seq<int>, dieOf: int -> Option<int>): seq<Group> {
    Sort(Groups(online, dieOf), FewerCpus)
  }

  /** The `k` CPUs with the lowest numbers. */
  function Lowest(cpus: seq<int>, k: nat): seq<int>
    requires k <= |cpus|
  {
    Sort(cpus, Cpu)[..k]
  }

  datatype CpuSets = CpuSets(sameDie: seq<int>, crossDie: seq<int>)

  function Selection(online: seq<int>, dieOf: int -> Option<int>): Option<CpuSets> {
    var dies := SortedDies(online, dieOf);
    if |dies| < 2 || |dies[0].cpus| < 8 || |dies[1].cpus| < 8 then None
    else
      var die0, die1 := dies[0].cpus, dies[1].cpus;
      Some(CpuSets(Lowest(die0, Min(16, |die0|)), Sort(Lowest(die0, 8) + Lowest(die1, 8), Cpu)))
  }

  method SelectTestCpuSets(online: seq<int>, dieOf: int -> Option<int>) returns (sets: Option<CpuSets>)
    ensures sets == Selection(online, dieOf)
  {
    var dieGroups := GroupByDie(online, dieOf);
    if |dieGroups| < 2 {
      return None;
    }
    var sortedDies := Sort(dieGroups, FewerCpus);
    if |sortedDies[0].cpus| < 8 || |sortedDies[1].cpus| < 8 {
      return None;
    }
    var die0Cpus, die1Cpus := sortedDies[0].cpus, sortedDies[1].cpus;
    var numSameDie := Min(16, |die0Cpus|);
    var sameDieCpus := Sort(die0Cpus, Cpu)[..numSameDie];
    var numFromDie0, numFromDie1 := Min(8, |die0Cpus|), Min(8, |die1Cpus|);
    var crossDieCpus := Sort(die0Cpus, Cpu)[..numFromDie0] + Sort(die1Cpus, Cpu)[..numFromDie1];
    crossDieCpus := Sort(crossDieCpus, Cpu);
    return Some(CpuSets(sameDieCpus, crossDieCpus));
  }

  /** The dies in the order they are tried: largest first, one entry per die, complete. */
  lemma SortedDiesAreDies(online: seq<int>, dieOf: int -> Option<int>)
    ensures var dies := SortedDies(online, dieOf);
            && DistinctDies(dies)
            && (forall i, j | 0 <= i < j < |dies| :: |dies[i].cpus| >= |dies[j].cpus|)
            && (forall i | 0 <= i < |dies| ::
                  dies[i].die >= 0 && dies[i].cpus == Members(online, dieOf, dies[i].die))
  {
    var groups, dies := Groups(online, dieOf), SortedDies(online, dieOf);
    GroupsAreDies(online, dieOf, 0);
    SortIsPermutation(groups, FewerCpus);
    SortIsSorted(groups, FewerCpus);
    forall i, j | 0 <= i < j < |dies|
      ensures |dies[i].cpus| >= |dies[j].cpus|
    {
      assert FewerCpus(dies[i]) <= FewerCpus(dies[j]);
    }
    assert NoDuplicates(groups);
    SortKeepsNoDuplicates(groups, FewerCpus);
    forall i | 0 <= i < |dies|
      ensures dies[i] in groups && dies[i].die >= 0 && dies[i].cpus == Members(online, dieOf, dies[i].die)
    {
      assert dies[i] in dies;
      var k :| 0 <= k < |groups| && groups[k] == dies[i];
      CpusOfGroup(groups, k);
      GroupsAreDies(online, dieOf, dies[i].die);
    }
    forall i, j | 0 <= i < j < |dies|
      ensures dies[i].die != dies[j].die
    {
      assert dies[i] in groups && dies[j] in groups && dies[i] != dies[j];
    }
  }

  lemma SortedDieOf(online: seq<int>, dieOf: int -> Option<int>, die: int) returns (i: nat)
    requires die >= 0 && Members(online, dieOf, die) != []
    ensures i < |SortedDies(online, dieOf)| && SortedDies(online, dieOf)[i].die == die
  {
    var groups := Groups(online, dieOf);
    GroupsAreDies(online, dieOf, die);
    var k := GroupOfDie(groups, die);
    SortIsPermutation(groups, FewerCpus);
    assert groups[k] in SortedDies(online, dieOf);
    i :| 0 <= i < |SortedDies(online, dieOf)| && SortedDies(online, dieOf)[i] == groups[k];
  }

  ghost predicate BigDies(online: seq<int>, dieOf: int -> Option<int>, d: int, e: int) {
    d >= 0 && e >= 0 && d != e && |Members(online, dieOf, d)| >= 8 && |Members(online, dieOf, e)| >= 8
  }

  /** Sets are returned if and only if two different non-negative dies have 8 CPUs each. */
  lemma SelectionExistsIff(online: seq<int>, dieOf: int -> Option<int>)
    ensures Selection(online, dieOf).Some? <==> exists d, e :: BigDies(online, dieOf, d, e)
  {
    var dies := SortedDies(online, dieOf);
    SortedDiesAreDies(online, dieOf);
    if Selection(online, dieOf).Some? {
      assert BigDies(online, dieOf, dies[0].die, dies[1].die);
    }
    if d, e :| BigDies(online, dieOf, d, e) {
      var i := SortedDieOf(online, dieOf, d);
      var j := SortedDieOf(online, dieOf, e);
      assert i != j;
      assert |dies[1].cpus| >= |dies[if i < j then j else i].cpus|;
    }
  }

  ghost predicate Ascending(s: seq<int>) {
    forall i, j | 0 <= i < j < |s| :: s[i] < s[j]
  }

  /** `chosen` lists, in ascending order, the `k` lowest of `all`. */
  ghost predicate AreLowest(chosen: seq<int>, all: seq<int>, k: nat) {
    && |chosen| == k
    && Ascending(chosen)
    && (forall c | c in chosen :: c in all)
    && (forall c, d | c in chosen && d in all && d !in chosen :: c < d)
  }

  lemma {:induction false} MembersSubsequence(online: seq<int>, dieOf: int -> Option<int>, die: int)
    ensures forall c :: c in Members(online, dieOf, die) <==> c in online && dieOf(c) == Some(die)
    ensures NoDuplicates(online) ==> NoDuplicates(Members(online, dieOf, die))
  {
    if online != [] {
      var n := |online| - 1;
      MembersSubsequence(online[..n], dieOf, die);
      assert online == online[..n] + [online[n]];
      if NoDuplicates(online) {
        assert online[n] !in online[..n];
      }
    }
  }

  /** A die's CPUs are those at the positions with its id, in the order of the list. */
  lemma {:induction false} MembersAreListed(online: seq<int>, dieOf: int -> Option<int>, die: int)
    returns (at: seq<nat>)
    ensures Lists(at, |online|, (k: nat) => k < |online| && dieOf(online[k]) == Some(die))
    ensures |Members(online, dieOf, die)| == |at|
    ensures forall j | 0 <= j < |at| :: at[j] < |online| && Members(online, dieOf, die)[j] == online[at[j]]
  {
    if online == [] {
      at := [];
    } else {
      var n := |online| - 1;
      var before := MembersAreListed(online[..n], dieOf, die);
      at := before + if dieOf(online[n]) == Some(die) then [n] else [];
      assert forall k: nat | k < n :: online[..n][k] == online[k];
      assert Lists(before, n, (k: nat) => k < |online| && dieOf(online[k]) == Some(die));
      ListsNext(before, n, (k: nat) => k < |online| && dieOf(online[k]) == Some(die), at);
    }
  }

  lemma SortedCpusAscend(cpus: seq<int>)
    requires NoDuplicates(cpus)
    ensures Ascending(Sort(cpus, Cpu))
    ensures forall c :: c in Sort(cpus, Cpu) <==> c in cpus
  {
    var s := Sort(cpus, Cpu);
    SortIsSorted(cpus, Cpu);
    SortIsPermutation(cpus, Cpu);
    SortKeepsNoDuplicates(cpus, Cpu);
    forall i, j | 0 <= i < j < |s|
      ensures s[i] < s[j]
    {
      assert Cpu(s[i]) <= Cpu(s[j]);
    }
  }

  lemma LowestAreLowest(cpus: seq<int>, k: nat)
    requires NoDuplicates(cpus) && k <= |cpus|
    ensures AreLowest(Lowest(cpus, k), cpus, k)
  {
    var s := Sort(cpus, Cpu);
    SortedCpusAscend(cpus);
    forall c, d | c in s[..k] && d in cpus && d !in s[..k]
      ensures c < d
    {
      var i :| 0 <= i < k && s[i] == c;
      assert d in s;
      var j :| 0 <= j < |s| && s[j] == d;
      assert j >= k;
    }
  }

  /** The sets come from two largest dies: the same-die set is the (at most 16) lowest CPUs
      of a largest die; the cross-die set lists, in ascending order, 16 distinct CPUs, the 8
      lowest of each; and the two sets share exactly the 8 lowest CPUs of the first die. */
  lemma SelectionIsLowestOfLargestDies(online: seq<int>, dieOf: int -> Option<int>)
    requires NoDuplicates(online) && Selection(online, dieOf).Some?
    ensures var sets := Selection(online, dieOf).value;
            var dies := SortedDies(online, dieOf);
            var m0, m1 := Members(online, dieOf, dies[0].die), Members(online, dieOf, dies[1].die);
            && dies[0].die != dies[1].die
            && LargestTwo(online, dieOf, dies[0].die, dies[1].die)
            && AreLowest(sets.sameDie, m0, Min(16, |m0|))
            && CrossesDies(sets.crossDie, m0, m1)
            && (forall c :: c in sets.sameDie && c in sets.crossDie <==> c in Lowest(m0, 8))
  {
    var sets := Selection(online, dieOf).value;
    var dies := SortedDies(online, dieOf);
    var d0, d1 := dies[0].die, dies[1].die;
    var m0, m1 := Members(online, dieOf, d0), Members(online, dieOf, d1);
    SortedDiesAreDies(online, dieOf);
    SelectedDiesAreLargest(online, dieOf);
    MembersSubsequence(online, dieOf, d0);
    MembersSubsequence(online, dieOf, d1);
    LowestAreLowest(m0, Min(16, |m0|));
    CrossSetCrosses(m0, m1);
    SortedCpusAscend(m0);
    assert forall c | c in Lowest(m0, 8) :: c in Lowest(m0, Min(16, |m0|));
  }

  /** Of equally large dies the one whose first CPU is listed first is tried first. */
  lemma TiesGoToDieSeenFirst(online: seq<int>, dieOf: int -> Option<int>, p: nat, q: nat)
    requires p < q < |SortedDies(online, dieOf)|
    requires |SortedDies(online, dieOf)[p].cpus| == |SortedDies(online, dieOf)[q].cpus|
    ensures var dies := SortedDies(online, dieOf);
            SeenBefore(online, dies[p], dies[q])
  {
    var groups := Groups(online, dieOf);
    var i, j := TiesKeepOrder(groups, FewerCpus, p, q);
    GroupsInOrderSeen(online, dieOf);
    assert SeenBefore(online, groups[i], groups[j]);
  }

  /** No die has more CPUs than `d0`, and none but `d0` has more than `d1`. */
  ghost predicate LargestTwo(online: seq<int>, dieOf: int -> Option<int>, d0: int, d1: int) {
    forall d | d >= 0 ::
      && |Members(online, dieOf, d)| <= |Members(online, dieOf, d0)|
      && (d != d0 ==> |Members(online, dieOf, d)| <= |Members(online, dieOf, d1)|)
  }

  lemma SelectedDiesAreLargest(online: seq<int>, dieOf: int -> Option<int>)
    requires |SortedDies(online, dieOf)| >= 2
    ensures LargestTwo(online, dieOf, SortedDies(online, dieOf)[0].die, SortedDies(online, dieOf)[1].die)
  {
    var dies := SortedDies(online, dieOf);
    SortedDiesAreDies(online, dieOf);
    forall d | d >= 0 && Members(online, dieOf, d) != []
      ensures |Members(online, dieOf, d)| <= |dies[0].cpus|
      ensures d != dies[0].die ==> |Members(online, dieOf, d)| <= |dies[1].cpus|
    {
      var i := SortedDieOf(online, dieOf, d);
      assert i == 0 || i == 1 || (|dies[i].cpus| <= |dies[0].cpus| && |dies[i].cpus| <= |dies[1].cpus|);
      assert |dies[1].cpus| <= |dies[0].cpus|;
    }
  }

  ghost predicate CrossesDies(cross: seq<int>, m0: seq<int>, m1: seq<int>)
  {
    && |m0| >= 8 && |m1| >= 8
    && |cross| == 16
    && Ascending(cross)
    && (forall c :: c in cross <==> c in Lowest(m0, 8) || c in Lowest(m1, 8))
    && AreLowest(Lowest(m0, 8), m0, 8)
    && AreLowest(Lowest(m1, 8), m1, 8)
    && (forall c | c in Lowest(m0, 8) :: c !in m1)
  }

  lemma CrossSetCrosses(m0: seq<int>, m1: seq<int>)
    requires |m0| >= 8 && |m1| >= 8 && NoDuplicates(m0) && NoDuplicates(m1)
    requires forall c | c in m0 :: c !in m1
    ensures CrossesDies(Sort(Lowest(m0, 8) + Lowest(m1, 8), Cpu), m0, m1)
  {
    var a, b := Lowest(m0, 8), Lowest(m1, 8);
    LowestAreLowest(m0, 8);
    LowestAreLowest(m1, 8);
    forall i, j | 0 <= i < j < |a + b|
      ensures (a + b)[i] != (a + b)[j]
    {
      if i < 8 <= j {
        assert a[i] in a && b[j - 8] in b;
      }
    }
    SortedCpusAscend(a + b);
  }

  // ----- dies and packages -----

  datatype Violation = Violation(cpu: int, die: int, pkg: int, expected: int)

  /** A CPU takes part in the check when both ids are readable and its die is not -1. */
  predicate Checked(cpu: int, dieOf: int -> Option<int>, pkgOf: int -> Option<int>) {
    dieOf(cpu).Some? && pkgOf(cpu).Some? && dieOf(cpu).value != -1
  }

  /** The package of the first checked CPU of a die. */
  function FirstPackage(online: seq<int>, dieOf: int -> Option<int>, pkgOf: int -> Option<int>, die: int): Option<int> {
    if online == [] then None
    else if Checked(online[0], dieOf, pkgOf) && dieOf(online[0]).value == die then pkgOf(online[0])
    else FirstPackage(online[1..], dieOf, pkgOf, die)
  }

  predicate Violates(online: seq<int>, dieOf: int -> Option<int>, pkgOf: int -> Option<int>, cpu: int) {
    && Checked(cpu, dieOf, pkgOf)
    && var first := FirstPackage(online, dieOf, pkgOf, dieOf(cpu).value);
       first.Some? && first != pkgOf(cpu)
  }

  lemma {:induction false} FirstPackageExtends(a: seq<int>, b: seq<int>, dieOf: int -> Option<int>,
                                               pkgOf: int -> Option<int>, die: int)
    ensures FirstPackage(a + b, dieOf, pkgOf, die) ==
            if FirstPackage(a, dieOf, pkgOf, die).Some? then FirstPackage(a, dieOf, pkgOf, die)
            else FirstPackage(b, dieOf, pkgOf, die)
  {
    if a == [] {
      assert a + b == b;
    } else {
      assert (a + b)[1..] == a[1..] + b;
      FirstPackageExtends(a[1..], b, dieOf, pkgOf, die);
    }
  }

  lemma {:induction false} FirstPackageOfChecked(online: seq<int>, dieOf: int -> Option<int>,
                                                 pkgOf: int -> Option<int>, cpu: int)
    requires cpu in online && Checked(cpu, dieOf, pkgOf)
    ensures var p := FirstPackage(online, dieOf, pkgOf, dieOf(cpu).value);
            p.Some? && exists c :: c in online && Checked(c, dieOf, pkgOf) && dieOf(c) == dieOf(cpu) && pkgOf(c) == p
  {
    if Checked(online[0], dieOf, pkgOf) && dieOf(online[0]) == dieOf(cpu) {
      assert online[0] in online;
    } else {
      FirstPackageOfChecked(online[1..], dieOf, pkgOf, cpu);
    }
  }

  /** The violations of a list of CPUs, each compared with the first package of its die. */
  function Violations(online: seq<int>, dieOf: int -> Option<int>, pkgOf: int -> Option<int>, n: nat): seq<Violation>
    requires n <= |online|
  {
    if n == 0 then []
    else
      var cpu := online[n - 1];
      Violations(online, dieOf, pkgOf, n - 1) +
      if Violates(online, dieOf, pkgOf, cpu) then
        [Violation(cpu, dieOf(cpu).value, pkgOf(cpu).value,
                   FirstPackage(online, dieOf, pkgOf, dieOf(cpu).value).value)]
      else []
  }

  /** One pass with a map from dies to the first package seen. */
  method DiePackageRelationship(online: seq<int>, dieOf: int -> Option<int>, pkgOf: int -> Option<int>)
    returns (violations: seq<Violation>)
    ensures violations == Violations(online, dieOf, pkgOf, |online|)
  {
    var diePackageMap: map<int, int> := map[];
    violations := [];
    for i := 0 to |online|
      invariant violations == Violations(online, dieOf, pkgOf, i)
      invariant forall die: int :: FirstPackage(online[..i], dieOf, pkgOf, die) ==
                  if die in diePackageMap then Some(diePackageMap[die]) else None
    {
      var cpu := online[i];
      ghost var before := diePackageMap;
      if dieOf(cpu).Some? && pkgOf(cpu).Some? {
        var dieId, pkgId := dieOf(cpu).value, pkgOf(cpu).value;
        if dieId != -1 {
          if dieId !in diePackageMap {
            diePackageMap := diePackageMap[dieId := pkgId];
          } else if diePackageMap[dieId] != pkgId {
            violations := violations + [Violation(cpu, dieId, pkgId, diePackageMap[dieId])];
          }
        }
      }
      forall die: int
        ensures FirstPackage(online[..i + 1], dieOf, pkgOf, die) ==
                if die in diePackageMap then Some(diePackageMap[die]) else None
        ensures die in diePackageMap ==> FirstPackage(online, dieOf, pkgOf, die) == Some(diePackageMap[die])
      {
        assert online[..i + 1] == online[..i] + [cpu];
        FirstPackageExtends(online[..i], [cpu], dieOf, pkgOf, die);
        assert [cpu][1..] == [];
        assert online == online[..i + 1] + online[i + 1..];
        FirstPackageExtends(online[..i + 1], online[i + 1..], dieOf, pkgOf, die);
      }
    }
  }

  /** The first position of a CPU of the die whose package can be read. */
  ghost predicate FirstOfDie(online: seq<int>, dieOf: int -> Option<int>, pkgOf: int -> Option<int>, die: int, f: nat) {
    && f < |online| && dieOf(online[f]) == Some(die) && pkgOf(online[f]).Some?
    && forall e | 0 <= e < f :: dieOf(online[e]) != Some(die) || pkgOf(online[e]) == None
  }

  lemma {:induction false} FirstPackageIsThere(online: seq<int>, dieOf: int -> Option<int>, pkgOf: int -> Option<int>,
                                               die: int, k: nat) returns (f: nat)
    requires die != -1 && k < |online| && dieOf(online[k]) == Some(die) && pkgOf(online[k]).Some?
    ensures FirstOfDie(online, dieOf, pkgOf, die, f)
    ensures FirstPackage(online, dieOf, pkgOf, die) == pkgOf(online[f])
  {
    if dieOf(online[0]) == Some(die) && pkgOf(online[0]).Some? {
      f := 0;
    } else {
      f := FirstPackageIsThere(online[1..], dieOf, pkgOf, die, k - 1);
      assert forall e | 0 < e < |online| :: online[e] == online[1..][e - 1];
      f := f + 1;
    }
  }

  /** Both ids of the CPU can be read, its die is not -1, and its package is not that of the
      first CPU of its die. */
  ghost predicate Disagrees(online: seq<int>, dieOf: int -> Option<int>, pkgOf: int -> Option<int>, k: nat) {
    && k < |online| && dieOf(online[k]).Some? && dieOf(online[k]) != Some(-1) && pkgOf(online[k]).Some?
    && exists f: nat ::
         FirstOfDie(online, dieOf, pkgOf, dieOf(online[k]).value, f) && pkgOf(online[f]) != pkgOf(online[k])
  }

  /** The entry names the CPU, its die and package, and the package of the first of the die. */
  ghost predicate Describes(online: seq<int>, dieOf: int -> Option<int>, pkgOf: int -> Option<int>, k: nat,
                            v: Violation) {
    && k < |online| && v.cpu == online[k] && dieOf(v.cpu) == Some(v.die) && pkgOf(v.cpu) == Some(v.pkg)
    && exists f: nat :: FirstOfDie(online, dieOf, pkgOf, v.die, f) && pkgOf(online[f]) == Some(v.expected)
  }

  lemma ViolatesIff(online: seq<int>, dieOf: int -> Option<int>, pkgOf: int -> Option<int>, k: nat)
    requires k < |online|
    ensures Violates(online, dieOf, pkgOf, online[k]) <==> Disagrees(online, dieOf, pkgOf, k)
    ensures Violates(online, dieOf, pkgOf, online[k]) ==>
              var c := online[k];
              Describes(online, dieOf, pkgOf, k, Violation(c, dieOf(c).value, pkgOf(c).value,
                                                  FirstPackage(online, dieOf, pkgOf, dieOf(c).value).value))
  {
    if Checked(online[k], dieOf, pkgOf) {
      var f := FirstPackageIsThere(online, dieOf, pkgOf, dieOf(online[k]).value, k);
      forall g: nat | FirstOfDie(online, dieOf, pkgOf, dieOf(online[k]).value, g)
        ensures g == f
      {
        assert !(f < g) && !(g < f);
      }
    }
  }

  /** The violations list, in order, exactly the CPUs that disagree with the first of their
      die, with their die, their package and the package of the first. */
  lemma {:induction false} ViolationsAreListed(online: seq<int>, dieOf: int -> Option<int>, pkgOf: int -> Option<int>,
                                               n: nat) returns (at: seq<nat>)
    requires n <= |online|
    ensures Lists(at, n, (k: nat) => Disagrees(online, dieOf, pkgOf, k))
    ensures var violations := Violations(online, dieOf, pkgOf, n);
            && |violations| == |at|
            && forall j | 0 <= j < |at| :: Describes(online, dieOf, pkgOf, at[j], violations[j])
  {
    hide Violates, FirstPackage, Describes, Disagrees;
    if n == 0 {
      at := [];
    } else {
      var before := ViolationsAreListed(online, dieOf, pkgOf, n - 1);
      ViolatesIff(online, dieOf, pkgOf, n - 1);
      at := before + if Disagrees(online, dieOf, pkgOf, n - 1) then [n - 1] else [];
      ListsNext(before, n - 1, (k: nat) => Disagrees(online, dieOf, pkgOf, k), at);
    }
  }

  ghost predicate OnePackagePerDie(online: seq<int>, dieOf: int -> Option<int>, pkgOf: int -> Option<int>) {
    forall a, b | a in online && b in online && Checked(a, dieOf, pkgOf) && Checked(b, dieOf, pkgOf)
                  && dieOf(a) == dieOf(b) :: pkgOf(a) == pkgOf(b)
  }

  lemma {:induction false} ViolationsEmptyIff(online: seq<int>, dieOf: int -> Option<int>, pkgOf: int -> Option<int>,
                                              n: nat)
    requires n <= |online|
    ensures Violations(online, dieOf, pkgOf, n) == [] <==>
            forall i | 0 <= i < n :: !Violates(online, dieOf, pkgOf, online[i])
  {
    if n > 0 {
      ViolationsEmptyIff(online, dieOf, pkgOf, n - 1);
    }
  }

  /** Comparing every CPU with one representative finds no violation if and only if any two
      checked CPUs of a die have the same package. */
  lemma NoViolationIff(online: seq<int>, dieOf: int -> Option<int>, pkgOf: int -> Option<int>)
    ensures Violations(online, dieOf, pkgOf, |online|) == [] <==> OnePackagePerDie(online, dieOf, pkgOf)
  {
    ViolationsEmptyIff(online, dieOf, pkgOf, |online|);
    if OnePackagePerDie(online, dieOf, pkgOf) {
      forall a | a in online
        ensures !Violates(online, dieOf, pkgOf, a)
      {
        if Checked(a, dieOf, pkgOf) {
          FirstPackageOfChecked(online, dieOf, pkgOf, a);
        }
      }
    }
    if Violations(online, dieOf, pkgOf, |online|) == [] {
      forall a | a in online && Checked(a, dieOf, pkgOf)
        ensures pkgOf(a) == FirstPackage(online, dieOf, pkgOf, dieOf(a).value)
      {
        var i :| 0 <= i < |online| && online[i] == a;
        assert !Violates(online, dieOf, pkgOf, online[i]);
        FirstPackageOfChecked(online, dieOf, pkgOf, a);
      }
    }
  }

  /** So whether the check passes does not depend on the order of the CPUs. */
  lemma CheckIgnoresOrder(online: seq<int>, other: seq<int>, dieOf: int -> Option<int>, pkgOf: int -> Option<int>)
    requires multiset(online) == multiset(other)
    ensures Violations(online, dieOf, pkgOf, |online|) == [] <==> Violations(other, dieOf, pkgOf, |other|) == []
  {
    NoViolationIff(online, dieOf, pkgOf);
    NoViolationIff(other, dieOf, pkgOf);
    assert forall c :: c in online <==> c in multiset(online);
    assert forall c :: c in other <==> c in multiset(other);
  }
}

/** Shuffling in place, as Python's `random.shuffle` does it. */
module Shuffling {

  ghost predicate SameElements(a: seq<int>, b: seq<int>) {
    multiset(a) == multiset(b)
  }

  /** A random position up to `n`, drawn from the generator's output for `n`. */
  function Draw(rnd: nat -> nat, n: nat): (j: nat)
    ensures j <= n
  {
    rnd(n) % (n + 1)
  }

  /** The j-th and the last element change places. */
  function Exchanged(s: seq<int>, j: nat): (t: seq<int>)
    requires j < |s|
    ensures |t| == |s| && t[|s| - 1] == s[j]
  {
    s[|s| - 1 := s[j]][j := s[|s| - 1]]
  }

  /** Exchanges the last element with one before it or itself, chosen by the generator, and
      shuffles the elements before it in the same way. */
  function ShuffledBy(s: seq<int>, rnd: nat -> nat): (r: seq<int>)
    ensures |r| == |s|
    decreases |s|
  {
    if |s| <= 1 then s
    else
      var t := Exchanged(s, Draw(rnd, |s| - 1));
      ShuffledBy(t[..|s| - 1], rnd) + [t[|s| - 1]]
  }

  method Shuffle(a: array<int>, rnd: nat -> nat)
    modifies a
    ensures a[..] == ShuffledBy(old(a[..]), rnd)
  {
    hide ShuffledBy, Draw;
    ghost var s := a[..];
    if a.Length <= 1 {
      ShuffleShort(s, rnd);
      return;
    }
    var i := a.Length - 1;
    assert a[..i + 1] == s && a[i + 1..] == [] && ShuffledBy(s, rnd) + [] == ShuffledBy(s, rnd);
    while i >= 1
      invariant 0 <= i < a.Length
      invariant ShuffledBy(a[..i + 1], rnd) + a[i + 1..] == ShuffledBy(s, rnd)
    {
      ghost var first, rest := a[..i + 1], a[i + 1..];
      var j := Draw(rnd, i);
      ExchangeInPlace(a, i, j);
      ShuffleStep(first, rest, rnd);
      i := i - 1;
    }
    assert a[..] == a[..1] + a[1..];
    ShuffleShort(a[..1], rnd);
  }

  /** Exchanges two elements; those behind the later one stay as they are. */
  method ExchangeInPlace(a: array<int>, i: nat, j: nat)
    requires j <= i < a.Length
    modifies a
    ensures a[..i] == Exchanged(old(a[..i + 1]), j)[..i]
    ensures a[i..] == [Exchanged(old(a[..i + 1]), j)[i]] + old(a[i + 1..])
  {
    a[i], a[j] := a[j], a[i];
  }

  lemma ShuffleStep(first: seq<int>, rest: seq<int>, rnd: nat -> nat)
    requires |first| >= 2
    ensures var n := |first| - 1;
            var t := Exchanged(first, Draw(rnd, n));
            ShuffledBy(first, rnd) + rest == ShuffledBy(t[..n], rnd) + ([t[n]] + rest)
  {
    hide Exchanged, Draw;
    var n := |first| - 1;
    var t := Exchanged(first, Draw(rnd, n));
    AppendThen(ShuffledBy(t[..n], rnd), t[n], rest);
  }

  lemma AppendThen(a: seq<int>, x: int, b: seq<int>)
    ensures (a + [x]) + b == a + ([x] + b)
  {
  }

  lemma ShuffleShort(s: seq<int>, rnd: nat -> nat)
    requires |s| <= 1
    ensures ShuffledBy(s, rnd) == s
  {
  }

  // ----- the outcomes of a shuffle are the permutations -----

  lemma ExchangedPermutes(s: seq<int>, j: nat)
    requires j < |s|
    ensures SameElements(Exchanged(s, j), s)
  {
  }

  lemma AppendSame(a: seq<int>, b: seq<int>, x: int)
    ensures SameElements(a + [x], b + [x]) <==> SameElements(a, b)
  {
    if SameElements(a + [x], b + [x]) {
      assert multiset(a) == multiset(a + [x]) - multiset{x};
      assert multiset(b) == multiset(b + [x]) - multiset{x};
    }
  }

  lemma {:induction false} ShuffledIsPermutation(s: seq<int>, rnd: nat -> nat)
    ensures SameElements(ShuffledBy(s, rnd), s)
    decreases |s|
  {
    hide Exchanged, Draw, SameElements;
    if |s| <= 1 {
      ShuffleShort(s, rnd);
      SameThrough(s, s, s);
    } else {
      var n := |s| - 1;
      var t := Exchanged(s, Draw(rnd, n));
      ShuffledIsPermutation(t[..n], rnd);
      AppendSame(ShuffledBy(t[..n], rnd), t[..n], t[n]);
      ExchangedPermutes(s, Draw(rnd, n));
      assert t == t[..n] + [t[n]];
      SameThrough(ShuffledBy(s, rnd), t, s);
    }
  }

  lemma SameThrough(a: seq<int>, b: seq<int>, c: seq<int>)
    ensures SameElements(a, a)
    ensures SameElements(a, b) && SameElements(b, c) ==> SameElements(a, c)
  {
  }

  /** Only the draws below the length matter. */
  lemma {:induction false} ShuffleDependsOn(s: seq<int>, f: nat -> nat, g: nat -> nat)
    requires forall k: nat | k < |s| :: Draw(f, k) == Draw(g, k)
    ensures ShuffledBy(s, f) == ShuffledBy(s, g)
    decreases |s|
  {
    hide Exchanged, Draw;
    if |s| > 1 {
      ShuffleDependsOn(Exchanged(s, Draw(f, |s| - 1))[..|s| - 1], f, g);
    }
  }

  /** A generator that draws `j` for `n`, and otherwise as `below` does. */
  lemma DrawFirst(n: nat, j: nat, below: nat -> nat) returns (rnd: nat -> nat)
    requires j <= n
    ensures Draw(rnd, n) == j
    ensures forall k: nat | k < n :: Draw(rnd, k) == Draw(below, k)
  {
    rnd := (k: nat) => if k == n then j else below(k);
  }

  /** Where the last element of `q` is in `s`; the exchange leaves the others. */
  lemma LastIsFound(s: seq<int>, q: seq<int>) returns (j: nat)
    requires SameElements(q, s) && |q| == |s| > 0
    ensures j < |s| && s[j] == q[|s| - 1]
    ensures SameElements(q[..|s| - 1], Exchanged(s, j)[..|s| - 1])
  {
    assert q[|q| - 1] in multiset(s);
    j :| 0 <= j < |s| && s[j] == q[|q| - 1];
    ExchangedPermutes(s, j);
    WithoutLastSame(q, Exchanged(s, j));
  }

  lemma WithoutLastSame(q: seq<int>, t: seq<int>)
    requires SameElements(q, t) && |q| == |t| > 0 && q[|q| - 1] == t[|t| - 1]
    ensures SameElements(q[..|q| - 1], t[..|t| - 1])
  {
    hide SameElements;
    var n := |q| - 1;
    assert q == q[..n] + [q[n]] && t == t[..n] + [q[n]];
    AppendSame(q[..n], t[..n], q[n]);
  }

  lemma SameLength(s: seq<int>, q: seq<int>)
    requires SameElements(q, s)
    ensures |q| == |s|
    ensures |s| <= 1 ==> q == s
  {
    assert |multiset(q)| == |q| && |multiset(s)| == |s|;
    if |s| == 1 {
      assert q[0] in multiset(s);
    }
  }

  /** Finds a generator that shuffles `s` into `q`. */
  lemma {:induction false} EveryOrderIsDrawn(s: seq<int>, q: seq<int>) returns (rnd: nat -> nat)
    requires SameElements(q, s)
    ensures ShuffledBy(s, rnd) == q
    decreases |s|
  {
    hide Exchanged, SameElements, Draw;
    SameLength(s, q);
    if |s| <= 1 {
      rnd := (_: nat) => 0;
      ShuffleShort(s, rnd);
    } else {
      var n := |s| - 1;
      var j := LastIsFound(s, q);
      var t := Exchanged(s, j);
      var below := EveryOrderIsDrawn(t[..n], q[..n]);
      rnd := DrawFirst(n, j, below);
      ShuffleDependsOn(t[..n], rnd, below);
      assert q == q[..n] + [q[n]];
    }
  }

  /** The possible outcomes of a shuffle are exactly the permutations. */
  lemma ShufflesArePermutations(s: seq<int>, q: seq<int>)
    ensures (exists rnd: nat -> nat :: ShuffledBy(s, rnd) == q) <==> multiset(q) == multiset(s)
  {
    if rnd: nat -> nat :| ShuffledBy(s, rnd) == q {
      ShuffledIsPermutation(s, rnd);
    }
    if SameElements(q, s) {
      var rnd := EveryOrderIsDrawn(s, q);
    }
  }

  ghost function GeneratorFor(s: seq<int>, q: seq<int>): (rnd: nat -> nat)
    requires SameElements(q, s)
    ensures ShuffledBy(s, rnd) == q
  {
    ShufflesArePermutations(s, q);
    var rnd: nat -> nat :| ShuffledBy(s, rnd) == q;
    rnd
  }
}

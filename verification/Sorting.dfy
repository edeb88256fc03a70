/** Stable sorting by an integer key, as Python's `sorted` does it. */
module Sorting {

  function Insert<T>(s: seq<T>, x: T, key: T -> int): (r: seq<T>)
    ensures |r| == |s| + 1
  {
    if s == [] || key(x) < key(s[0]) then [x] + s else [s[0]] + Insert(s[1..], x, key)
  }

  function Sort<T>(s: seq<T>, key: T -> int): (r: seq<T>)
    ensures |r| == |s|
  {
    if s == [] then [] else Insert(Sort(s[..|s| - 1], key), s[|s| - 1], key)
  }

  ghost predicate SortedBy<T>(s: seq<T>, key: T -> int) {
    forall i, j | 0 <= i < j < |s| :: key(s[i]) <= key(s[j])
  }

  lemma {:induction false} InsertIsPermutation<T>(s: seq<T>, x: T, key: T -> int)
    ensures multiset(Insert(s, x, key)) == multiset(s) + multiset{x}
  {
    if s != [] {
      InsertIsPermutation(s[1..], x, key);
      assert s == [s[0]] + s[1..];
    }
  }

  lemma {:induction false} SortIsPermutation<T>(s: seq<T>, key: T -> int)
    ensures multiset(Sort(s, key)) == multiset(s)
    ensures forall x :: x in Sort(s, key) <==> x in s
  {
    if s != [] {
      var n := |s| - 1;
      SortIsPermutation(s[..n], key);
      InsertIsPermutation(Sort(s[..n], key), s[n], key);
      assert s == s[..n] + [s[n]];
    }
    assert forall x :: x in s <==> x in multiset(s);
    assert forall x :: x in Sort(s, key) <==> x in multiset(Sort(s, key));
  }

  lemma {:induction false} InsertKeepsSorted<T>(s: seq<T>, x: T, key: T -> int)
    requires SortedBy(s, key)
    ensures SortedBy(Insert(s, x, key), key)
  {
    if s != [] && key(x) >= key(s[0]) {
      InsertKeepsSorted(s[1..], x, key);
      InsertIsPermutation(s[1..], x, key);
      var r := Insert(s[1..], x, key);
      forall j | 0 <= j < |r|
        ensures key(s[0]) <= key(r[j])
      {
        assert r[j] in multiset(r);
        assert r[j] == x || r[j] in s[1..];
      }
    }
  }

  lemma {:induction false} SortIsSorted<T>(s: seq<T>, key: T -> int)
    ensures SortedBy(Sort(s, key), key)
  {
    if s != [] {
      SortIsSorted(s[..|s| - 1], key);
      InsertKeepsSorted(Sort(s[..|s| - 1], key), s[|s| - 1], key);
    }
  }

  /** The elements with a given key, in order. */
  function WithKey<T>(s: seq<T>, key: T -> int, k: int): seq<T> {
    if s == [] then [] else (if key(s[0]) == k then [s[0]] else []) + WithKey(s[1..], key, k)
  }

  lemma {:induction false} WithKeyConcat<T>(a: seq<T>, b: seq<T>, key: T -> int, k: int)
    ensures WithKey(a + b, key, k) == WithKey(a, key, k) + WithKey(b, key, k)
  {
    if a == [] {
      assert a + b == b;
    } else {
      WithKeyConcat(a[1..], b, key, k);
      var h: seq<T> := if key(a[0]) == k then [a[0]] else [];
      var u, v := WithKey(a[1..], key, k), WithKey(b, key, k);
      assert (a + b)[1..] == a[1..] + b && (a + b)[0] == a[0];
      assert WithKey(a + b, key, k) == h + (u + v);
      assert h + (u + v) == (h + u) + v;
    }
  }

  lemma {:induction false} NoneWithKey<T>(s: seq<T>, key: T -> int, k: int)
    requires forall i | 0 <= i < |s| :: key(s[i]) > k
    ensures WithKey(s, key, k) == []
  {
    if s != [] {
      NoneWithKey(s[1..], key, k);
    }
  }

  lemma {:induction false} InsertIsLastOfItsKey<T>(s: seq<T>, x: T, key: T -> int, k: int)
    requires SortedBy(s, key)
    ensures WithKey(Insert(s, x, key), key, k) == WithKey(s + [x], key, k)
  {
    WithKeyConcat(s, [x], key, k);
    if s == [] {
    } else if key(x) < key(s[0]) {
      WithKeyConcat([x], s, key, k);
      if k == key(x) {
        NoneWithKey(s, key, k);
      }
    } else {
      InsertIsLastOfItsKey(s[1..], x, key, k);
      WithKeyConcat(s[1..], [x], key, k);
    }
  }

  /** Elements with equal keys keep their order. */
  lemma {:induction false} SortIsStable<T>(s: seq<T>, key: T -> int, k: int)
    ensures WithKey(Sort(s, key), key, k) == WithKey(s, key, k)
  {
    if s != [] {
      var n := |s| - 1;
      SortIsStable(s[..n], key, k);
      SortIsSorted(s[..n], key);
      InsertIsLastOfItsKey(Sort(s[..n], key), s[n], key, k);
      WithKeyConcat(Sort(s[..n], key), [s[n]], key, k);
      WithKeyConcat(s[..n], [s[n]], key, k);
      assert s == s[..n] + [s[n]];
    }
  }

  lemma {:induction false} PositionWithKey<T>(s: seq<T>, key: T -> int, i: nat) returns (a: nat)
    requires i < |s|
    ensures a < |WithKey(s, key, key(s[i]))| && WithKey(s, key, key(s[i]))[a] == s[i]
  {
    if i == 0 {
      a := 0;
    } else {
      a := PositionWithKey(s[1..], key, i - 1);
      a := if key(s[0]) == key(s[i]) then a + 1 else a;
    }
  }

  lemma {:induction false} OrderWithKey<T>(s: seq<T>, key: T -> int, i: nat, j: nat) returns (a: nat, b: nat)
    requires i < j < |s| && key(s[i]) == key(s[j])
    ensures var w := WithKey(s, key, key(s[i]));
            a < b < |w| && w[a] == s[i] && w[b] == s[j]
  {
    if i == 0 {
      a := 0;
      b := PositionWithKey(s[1..], key, j - 1);
      b := b + 1;
    } else {
      a, b := OrderWithKey(s[1..], key, i - 1, j - 1);
      if key(s[0]) == key(s[i]) {
        a, b := a + 1, b + 1;
      }
    }
  }

  lemma {:induction false} PositionOfWithKey<T>(s: seq<T>, key: T -> int, k: int, a: nat) returns (i: nat)
    requires a < |WithKey(s, key, k)|
    ensures i < |s| && s[i] == WithKey(s, key, k)[a]
  {
    if key(s[0]) == k && a == 0 {
      i := 0;
    } else {
      i := PositionOfWithKey(s[1..], key, k, if key(s[0]) == k then a - 1 else a);
      i := i + 1;
    }
  }

  lemma {:induction false} OrderOfWithKey<T>(s: seq<T>, key: T -> int, k: int, a: nat, b: nat) returns (i: nat, j: nat)
    requires a < b < |WithKey(s, key, k)|
    ensures i < j < |s| && s[i] == WithKey(s, key, k)[a] && s[j] == WithKey(s, key, k)[b]
  {
    if key(s[0]) == k && a == 0 {
      i := 0;
      j := PositionOfWithKey(s[1..], key, k, b - 1);
      j := j + 1;
    } else {
      var d := if key(s[0]) == k then 1 else 0;
      i, j := OrderOfWithKey(s[1..], key, k, a - d, b - d);
      i, j := i + 1, j + 1;
    }
  }

  /** Of two elements with equal keys the one sorted first also stood first. */
  lemma TiesKeepOrder<T>(s: seq<T>, key: T -> int, p: nat, q: nat) returns (i: nat, j: nat)
    requires p < q < |s| && key(Sort(s, key)[p]) == key(Sort(s, key)[q])
    ensures i < j < |s| && s[i] == Sort(s, key)[p] && s[j] == Sort(s, key)[q]
  {
    var k := key(Sort(s, key)[p]);
    SortIsStable(s, key, k);
    var a, b := OrderWithKey(Sort(s, key), key, p, q);
    i, j := OrderOfWithKey(s, key, k, a, b);
  }

  ghost predicate NoDuplicates<T>(s: seq<T>) {
    forall i, j | 0 <= i < j < |s| :: s[i] != s[j]
  }

  lemma {:induction false} CountWithoutDuplicates<T>(s: seq<T>)
    ensures NoDuplicates(s) <==> forall x :: multiset(s)[x] <= 1
  {
    if s != [] {
      var n := |s| - 1;
      CountWithoutDuplicates(s[..n]);
      assert s == s[..n] + [s[n]];
      if NoDuplicates(s) {
        assert NoDuplicates(s[..n]) && s[n] !in s[..n];
        assert multiset(s[..n])[s[n]] == 0;
      } else {
        var i, j :| 0 <= i < j < |s| && s[i] == s[j];
        if j < n {
          assert !NoDuplicates(s[..n]) by {
            assert s[..n][i] == s[..n][j];
          }
          var x :| multiset(s[..n])[x] > 1;
          assert multiset(s)[x] > 1;
        } else {
          assert s[i] in s[..n] && s[i] in multiset(s[..n]);
          assert multiset(s)[s[i]] >= 2;
        }
      }
    }
  }

  lemma SortKeepsNoDuplicates<T>(s: seq<T>, key: T -> int)
    requires NoDuplicates(s)
    ensures NoDuplicates(Sort(s, key))
  {
    SortIsPermutation(s, key);
    CountWithoutDuplicates(s);
    CountWithoutDuplicates(Sort(s, key));
  }
}

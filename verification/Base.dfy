/** Result types and the few facts about sums and permutations that every other module needs. */
module Base {

  datatype Option<+T> = None | Some(value: T)

  /** A value, or the message of the exception that the source raises. */
  datatype Result<+T> = Ok(value: T) | Err(message: string)

  function Max(a: int, b: int): int {
    if a >= b then a else b
  }

  function Min(a: int, b: int): int {
    if a <= b then a else b
  }

  function RMax(a: real, b: real): real {
    if a >= b then a else b
  }

  function RMin(a: real, b: real): real {
    if a <= b then a else b
  }

  /** Python's `int(x)` of a float: toward zero. */
  function Trunc(x: real): int {
    if x >= 0.0 then x.Floor else -((-x).Floor)
  }

  /** The nearest whole number on the side of zero. */
  lemma TruncIsTowardZero(x: real)
    ensures x >= 0.0 ==> Trunc(x) as real <= x < Trunc(x) as real + 1.0
    ensures x <= 0.0 ==> Trunc(x) as real - 1.0 < x <= Trunc(x) as real
    ensures Trunc(x) == 0 <==> -1.0 < x < 1.0
  {
  }

  function Sum(s: seq<int>): int {
    if s == [] then 0 else s[0] + Sum(s[1..])
  }

  function SumR(s: seq<real>): real {
    if s == [] then 0.0 else s[0] + SumR(s[1..])
  }

  lemma {:induction false} SumAppend(a: seq<int>, b: seq<int>)
    ensures Sum(a + b) == Sum(a) + Sum(b)
  {
    if a == [] {
      assert a + b == b;
    } else {
      assert (a + b)[1..] == a[1..] + b;
      SumAppend(a[1..], b);
    }
  }

  lemma {:induction false} SumRAppend(a: seq<real>, b: seq<real>)
    ensures SumR(a + b) == SumR(a) + SumR(b)
  {
    if a == [] {
      assert a + b == b;
    } else {
      assert (a + b)[1..] == a[1..] + b;
      SumRAppend(a[1..], b);
    }
  }

  /** Extending a prefix by one element adds that element. */
  lemma SumPrefix(s: seq<int>, i: nat)
    requires i < |s|
    ensures Sum(s[..i + 1]) == Sum(s[..i]) + s[i]
  {
    assert s[..i + 1] == s[..i] + [s[i]];
    SumAppend(s[..i], [s[i]]);
  }

  lemma SumRPrefix(s: seq<real>, i: nat)
    requires i < |s|
    ensures SumR(s[..i + 1]) == SumR(s[..i]) + s[i]
  {
    assert s[..i + 1] == s[..i] + [s[i]];
    SumRAppend(s[..i], [s[i]]);
  }

  lemma {:induction false} SumUpdate(s: seq<int>, i: nat, v: int)
    requires i < |s|
    ensures Sum(s[i := v]) == Sum(s) - s[i] + v
  {
    if i > 0 {
      assert s[i := v][1..] == s[1..][i - 1 := v];
      SumUpdate(s[1..], i - 1, v);
    } else {
      assert s[i := v][1..] == s[1..];
    }
  }

  lemma {:induction false} SumNonNegative(s: seq<int>)
    requires forall i :: 0 <= i < |s| ==> 0 <= s[i]
    ensures 0 <= Sum(s)
    ensures forall i :: 0 <= i < |s| ==> s[i] <= Sum(s)
  {
    if s != [] {
      SumNonNegative(s[1..]);
      forall i | 0 <= i < |s|
        ensures s[i] <= Sum(s)
      {
        if i > 0 {
          assert s[1..][i - 1] <= Sum(s[1..]);
        }
      }
    }
  }

  lemma {:induction false} SumMonotone(a: seq<int>, b: seq<int>)
    requires |a| == |b| && forall i :: 0 <= i < |a| ==> a[i] <= b[i]
    ensures Sum(a) <= Sum(b)
  {
    if a != [] {
      SumMonotone(a[1..], b[1..]);
    }
  }

  lemma {:induction false} SameSumBelow(counts: seq<int>, r: seq<int>)
    requires |r| == |counts| && Sum(r) >= Sum(counts)
    requires forall i :: 0 <= i < |r| ==> r[i] <= counts[i]
    ensures r == counts
    decreases |r|
  {
    if r != [] {
      SumMonotone(r[1..], counts[1..]);
      SameSumBelow(counts[1..], r[1..]);
      assert r == [r[0]] + r[1..] && counts == [counts[0]] + counts[1..];
    }
  }

  /** Two lists of the same sum that differ differ in both directions. */
  lemma DiffersBothWays(a: seq<int>, b: seq<int>) returns (i: nat, j: nat)
    requires |a| == |b| && Sum(a) == Sum(b) && a != b
    ensures i < |a| && j < |a| && a[i] < b[i] && b[j] < a[j]
  {
    if forall k :: 0 <= k < |a| ==> a[k] <= b[k] {
      SameSumBelow(b, a);
      assert false;
    }
    if forall k :: 0 <= k < |a| ==> b[k] <= a[k] {
      SameSumBelow(a, b);
      assert false;
    }
    i :| 0 <= i < |a| && a[i] < b[i];
    j :| 0 <= j < |a| && b[j] < a[j];
  }

  /** Order of addition does not matter. */
  lemma {:induction false} SumMultiset(a: seq<int>, b: seq<int>)
    requires multiset(a) == multiset(b)
    ensures Sum(a) == Sum(b)
  {
    if a == [] {
      assert multiset(b) == multiset{};
      assert b == [];
    } else {
      var k := RemoveFirst(a, b);
      SumMultiset(a[1..], b[..k] + b[k + 1..]);
      SumAppend(b[..k], b[k..]);
      SumAppend(b[..k], b[k + 1..]);
      assert b == b[..k] + b[k..];
    }
  }

  lemma {:induction false} SumRMultiset(a: seq<real>, b: seq<real>)
    requires multiset(a) == multiset(b)
    ensures SumR(a) == SumR(b)
  {
    if a == [] {
      assert multiset(b) == multiset{};
      assert b == [];
    } else {
      var k := RemoveFirst(a, b);
      SumRMultiset(a[1..], b[..k] + b[k + 1..]);
      SumRAppend(b[..k], b[k..]);
      SumRAppend(b[..k], b[k + 1..]);
      assert b == b[..k] + b[k..];
    }
  }

  lemma TakeOut<T>(b: seq<T>, k: nat)
    requires k < |b|
    ensures multiset(b[..k] + b[k + 1..]) == multiset(b) - multiset{b[k]}
  {
    assert b == b[..k] + [b[k]] + b[k + 1..];
  }

  lemma TailMultiset<T>(a: seq<T>)
    requires a != []
    ensures multiset(a[1..]) == multiset(a) - multiset{a[0]}
  {
    assert a == [a[0]] + a[1..];
  }

  lemma SameTails<T>(a: seq<T>, b: seq<T>)
    requires a != [] && b != [] && a[0] == b[0] && multiset(a) == multiset(b)
    ensures multiset(a[1..]) == multiset(b[1..])
  {
    TailMultiset(a);
    TailMultiset(b);
  }

  /** Where the first element of `a` sits in a rearrangement `b` of `a`. */
  lemma RemoveFirst<T>(a: seq<T>, b: seq<T>) returns (k: nat)
    requires a != [] && multiset(a) == multiset(b)
    ensures k < |b| && b[k] == a[0]
    ensures multiset(a[1..]) == multiset(b[..k] + b[k + 1..])
  {
    assert a == [a[0]] + a[1..];
    assert a[0] in multiset(b);
    k :| 0 <= k < |b| && b[k] == a[0];
    TakeOut(b, k);
    assert multiset(a[1..]) == multiset(a) - multiset{a[0]};
  }

  /** `p` lists each of 0 .. n-1 exactly once: a completion order of n tasks. */
  ghost predicate Permutation(p: seq<nat>, n: nat) {
    && |p| == n
    && (forall i :: 0 <= i < n ==> p[i] < n)
    && (forall i, j :: 0 <= i < j < n ==> p[i] != p[j])
  }

  function Iota(n: nat): (r: seq<nat>)
    ensures |r| == n && forall i :: 0 <= i < n ==> r[i] == i
  {
    seq(n, i requires 0 <= i < n => i)
  }

  lemma {:induction false} PermutationMultiset(p: seq<nat>, n: nat)
    requires Permutation(p, n)
    ensures multiset(p) == multiset(Iota(n))
    decreases n
  {
    if n == 0 {
      assert p == [] == Iota(0);
    } else {
      var last: nat := n - 1;
      var rest := WithoutLargest(p, last);
      PermutationMultiset(rest, last);
      IotaStep(last);
    }
  }

  lemma WithoutLargest(p: seq<nat>, last: nat) returns (rest: seq<nat>)
    requires Permutation(p, last + 1)
    ensures Permutation(rest, last) && multiset(p) == multiset(rest) + multiset{last}
  {
    PermutationHits(p, last + 1, last);
    var k :| 0 <= k <= last && p[k] == last;
    PermutationShrinks(p, last + 1, k);
    TakeOut(p, k);
    rest := p[..k] + p[k + 1..];
    assert last in p;
  }

  lemma IotaStep(last: nat)
    ensures multiset(Iota(last + 1)) == multiset(Iota(last)) + multiset{last}
  {
    assert Iota(last + 1) == Iota(last) + [last];
  }

  lemma PermutationShrinks(p: seq<nat>, n: nat, k: nat)
    requires Permutation(p, n) && k < n && p[k] == n - 1
    ensures Permutation(p[..k] + p[k + 1..], n - 1)
  {
    var rest := p[..k] + p[k + 1..];
    assert forall i :: 0 <= i < n - 1 ==> rest[i] == if i < k then p[i] else p[i + 1];
  }

  /** Pigeonhole: n distinct values below n include every value below n. */
  lemma PermutationHits(p: seq<nat>, n: nat, x: nat)
    requires Permutation(p, n) && x < n
    ensures x in p
  {
    if x !in p {
      DistinctCardinality(p);
      BelowCardinality(n);
      SubsetCardinality(Elems(p), Below(n) - {x});
      assert false;
    }
  }

  ghost function Elems<T>(s: seq<T>): set<T> {
    set x | x in s
  }

  lemma {:induction false} DistinctCardinality<T>(p: seq<T>)
    requires forall i, j :: 0 <= i < j < |p| ==> p[i] != p[j]
    ensures |Elems(p)| == |p|
  {
    if p == [] {
      assert Elems(p) == {};
    } else {
      DistinctCardinality(p[1..]);
      assert Elems(p) == {p[0]} + Elems(p[1..]);
    }
  }

  ghost function Below(n: nat): set<nat> {
    if n == 0 then {} else Below(n - 1) + {n - 1}
  }

  lemma {:induction false} BelowCardinality(n: nat)
    ensures |Below(n)| == n
    ensures forall x: nat :: x in Below(n) <==> x < n
  {
    if n > 0 {
      BelowCardinality(n - 1);
    }
  }

  lemma {:induction false} SubsetCardinality<T>(a: set<T>, b: set<T>)
    requires a <= b
    ensures |a| <= |b|
  {
    if a != {} {
      var x :| x in a;
      SubsetCardinality(a - {x}, b - {x});
    }
  }

  /** `s` read in the order `p`. */
  function Reorder<T>(s: seq<T>, p: seq<nat>): (r: seq<T>)
    requires forall i :: 0 <= i < |p| ==> p[i] < |s|
    ensures |r| == |p| && forall i :: 0 <= i < |p| ==> r[i] == s[p[i]]
  {
    seq(|p|, i requires 0 <= i < |p| => s[p[i]])
  }

  /** Reading `s` in a completion order only rearranges it. */
  lemma ReorderMultiset<T>(s: seq<T>, p: seq<nat>)
    requires Permutation(p, |s|)
    ensures multiset(Reorder(s, p)) == multiset(s)
  {
    PermutationMultiset(p, |s|);
    ReorderRespects(s, p, Iota(|s|));
    assert Reorder(s, Iota(|s|)) == s;
  }

  lemma ReorderSplit<T>(s: seq<T>, q: seq<nat>, k: nat, rest: seq<nat>)
    requires forall i :: 0 <= i < |q| ==> q[i] < |s|
    requires k < |q| && rest == q[..k] + q[k + 1..]
    ensures multiset(Reorder(s, q)) == multiset([s[q[k]]]) + multiset(Reorder(s, rest))
  {
    var r := Reorder(s, q);
    assert r == r[..k] + ([r[k]] + r[k + 1..]);
    assert Reorder(s, rest) == r[..k] + r[k + 1..];
  }

  lemma {:induction false} ReorderRespects<T>(s: seq<T>, p: seq<nat>, q: seq<nat>)
    requires forall i :: 0 <= i < |p| ==> p[i] < |s|
    requires forall i :: 0 <= i < |q| ==> q[i] < |s|
    requires multiset(p) == multiset(q)
    ensures multiset(Reorder(s, p)) == multiset(Reorder(s, q))
  {
    if p == [] {
      assert multiset(q) == multiset{};
      assert q == [];
    } else {
      var k := RemoveFirst(p, q);
      var rest := q[..k] + q[k + 1..];
      ReorderRespects(s, p[1..], rest);
      assert p[..0] + p[1..] == p[1..];
      ReorderSplit(s, p, 0, p[1..]);
      ReorderSplit(s, q, k, rest);
    }
  }

  function Flatten<T>(parts: seq<seq<T>>): seq<T> {
    if parts == [] then [] else Flatten(parts[..|parts| - 1]) + parts[|parts| - 1]
  }

  lemma {:induction false} FlattenAppend<T>(a: seq<seq<T>>, c: seq<seq<T>>)
    ensures Flatten(a + c) == Flatten(a) + Flatten(c)
  {
    if c == [] {
      assert a + c == a;
    } else {
      assert (a + c)[..|a + c| - 1] == a + c[..|c| - 1];
      FlattenAppend(a, c[..|c| - 1]);
    }
  }

  lemma FlattenSwap<T>(x: seq<seq<T>>, front: seq<seq<T>>, back: seq<seq<T>>)
    ensures multiset(Flatten(front + (x + back))) == multiset(Flatten(x)) + multiset(Flatten(front + back))
  {
    FlattenAppend(front, back);
    FlattenAppend(x, back);
    FlattenAppend(front, x + back);
  }

  /** Joining parts in another order only rearranges their elements. */
  lemma {:induction false} FlattenMultiset<T>(a: seq<seq<T>>, c: seq<seq<T>>)
    requires multiset(a) == multiset(c)
    ensures multiset(Flatten(a)) == multiset(Flatten(c))
  {
    if a == [] {
      assert multiset(c) == multiset{};
      assert c == [];
    } else {
      var k := RemoveFirst(a, c);
      var front, back := c[..k], c[k + 1..];
      FlattenMultiset(a[1..], front + back);
      FlattenAppend([a[0]], a[1..]);
      assert a == [a[0]] + a[1..] && c == front + ([a[0]] + back);
      FlattenSwap([a[0]], front, back);
    }
  }

  ghost predicate Possible<A, B(!new)>(ok: (A, B) -> bool, a: A) {
    exists b :: ok(a, b)
  }

  /** One witness for each item. */
  lemma {:induction false} Collect<A, B(!new)>(items: seq<A>, ok: (A, B) -> bool) returns (found: seq<B>)
    requires forall i :: 0 <= i < |items| ==> Possible(ok, items[i])
    ensures |found| == |items| && forall i :: 0 <= i < |items| ==> ok(items[i], found[i])
    decreases |items|
  {
    if items == [] {
      return [];
    }
    var n := |items| - 1;
    var init := Collect(items[..n], ok);
    assert Possible(ok, items[n]);
    var last :| ok(items[n], last);
    found := init + [last];
  }
}

/** Order-preserving selection and single-row removal on sequences: the two
    operations every in-memory repository table of the model is built from. */
module Seqs {

  /** The elements of `s` that satisfy `p`, in their original order. */
  function Filter<T(!new)>(s: seq<T>, p: T -> bool): (r: seq<T>)
    ensures |r| <= |s|
    ensures forall x {:trigger x in r} :: x in r <==> x in s && p(x)
  {
    if s == [] then [] else (if p(s[0]) then [s[0]] else []) + Filter(s[1..], p)
  }

  /** `s` with its first occurrence of `x` taken out (unchanged when `x` is absent). */
  function RemoveFirst<T(==,!new)>(s: seq<T>, x: T): (r: seq<T>)
    ensures multiset(r) == multiset(s) - multiset{x}
    ensures x in s ==> |r| == |s| - 1
    ensures x !in s ==> r == s
  {
    if s == [] then []
    else
      assert s == [s[0]] + s[1..];
      if s[0] == x then s[1..] else [s[0]] + RemoveFirst(s[1..], x)
  }

  /** No value occurs twice. */
  ghost predicate NoDuplicates<T(!new)>(s: seq<T>) {
    forall x :: multiset(s)[x] <= 1
  }

  lemma {:induction false} FilterAppend<T(!new)>(a: seq<T>, b: seq<T>, p: T -> bool)
    ensures Filter(a + b, p) == Filter(a, p) + Filter(b, p)
  {
    if a == [] {
      assert a + b == b;
    } else {
      var head := if p(a[0]) then [a[0]] else [];
      assert (a + b)[0] == a[0];
      assert (a + b)[1..] == a[1..] + b;
      FilterAppend(a[1..], b, p);
      assert Filter(a + b, p) == head + (Filter(a[1..], p) + Filter(b, p));
      assert Filter(a, p) == head + Filter(a[1..], p);
    }
  }

  /** Filtering a concatenation whose second part `p` rejects entirely. */
  lemma FilterAppendRejected<T(!new)>(a: seq<T>, b: seq<T>, p: T -> bool)
    requires forall x :: x in b ==> !p(x)
    ensures Filter(a + b, p) == Filter(a, p)
  {
    FilterAppend(a, b, p);
    FilterRejectsAll(b, p);
    assert Filter(a, p) + [] == Filter(a, p);
  }

  /** Filtering a concatenation whose first part `p` rejects and whose second
      part it keeps entirely. */
  lemma FilterAppendKept<T(!new)>(a: seq<T>, b: seq<T>, p: T -> bool)
    requires forall x :: x in a ==> !p(x)
    requires forall x :: x in b ==> p(x)
    ensures Filter(a + b, p) == b
  {
    FilterAppend(a, b, p);
    FilterRejectsAll(a, p);
    FilterKeepsAll(b, p);
    assert [] + b == b;
  }

  /** Filtering a sequence extended by one element. */
  lemma FilterSnoc<T(!new)>(a: seq<T>, x: T, p: T -> bool)
    ensures Filter(a + [x], p) == Filter(a, p) + (if p(x) then [x] else [])
  {
    FilterAppend(a, [x], p);
    assert [x][1..] == [];
  }

  /** A filter keeps every copy of a value it accepts and none of one it rejects. */
  lemma {:induction false} FilterCount<T(!new)>(s: seq<T>, p: T -> bool, x: T)
    ensures multiset(Filter(s, p))[x] == if p(x) then multiset(s)[x] else 0
  {
    if s != [] {
      assert s == [s[0]] + s[1..];
      FilterCount(s[1..], p, x);
    }
  }

  lemma FilterNoDuplicates<T(!new)>(s: seq<T>, p: T -> bool)
    requires NoDuplicates(s)
    ensures NoDuplicates(Filter(s, p))
  {
    forall x ensures multiset(Filter(s, p))[x] <= 1 {
      FilterCount(s, p, x);
    }
  }

  /** A filter and its complement split a sequence: together they hold every
      element exactly as often as the sequence does. */
  lemma {:induction false} FilterSplit<T(!new)>(s: seq<T>, p: T -> bool, q: T -> bool)
    requires forall y :: q(y) == !p(y)
    ensures |Filter(s, p)| + |Filter(s, q)| == |s|
    ensures multiset(Filter(s, p)) + multiset(Filter(s, q)) == multiset(s)
  {
    if s != [] {
      assert s == [s[0]] + s[1..];
      FilterSplit(s[1..], p, q);
    }
  }

  lemma {:induction false} FilterKeepsAll<T(!new)>(s: seq<T>, p: T -> bool)
    requires forall x :: x in s ==> p(x)
    ensures Filter(s, p) == s
  {
    if s != [] {
      FilterKeepsAll(s[1..], p);
    }
  }

  lemma {:induction false} FilterRejectsAll<T(!new)>(s: seq<T>, p: T -> bool)
    requires forall x :: x in s ==> !p(x)
    ensures Filter(s, p) == []
  {
    if s != [] {
      FilterRejectsAll(s[1..], p);
    }
  }

  /** When `p` finds nothing, its complement keeps everything. */
  lemma ComplementKeepsAll<T(!new)>(s: seq<T>, p: T -> bool, q: T -> bool)
    requires forall y :: q(y) == !p(y)
    requires Filter(s, p) == []
    ensures Filter(s, q) == s
  {
    forall x | x in s ensures q(x) {
      assert x !in Filter(s, p);
    }
    FilterKeepsAll(s, q);
  }

  /** Removing the first row a filter selects shortens that filter's result by
      its head and leaves the complementary filter's result as it was. */
  lemma {:induction false} RemoveFirstSelected<T(!new)>(s: seq<T>, x: T, p: T -> bool, q: T -> bool)
    requires forall y :: q(y) == !p(y)
    requires Filter(s, p) != [] && Filter(s, p)[0] == x
    ensures Filter(RemoveFirst(s, x), p) == Filter(s, p)[1..]
    ensures Filter(RemoveFirst(s, x), q) == Filter(s, q)
  {
    assert x in Filter(s, p);
    if s[0] == x {
      assert RemoveFirst(s, x) == s[1..];
    } else {
      assert !p(s[0]);
      var rest := RemoveFirst(s[1..], x);
      RemoveFirstSelected(s[1..], x, p, q);
      var r := [s[0]] + rest;
      assert r[0] == s[0] && r[1..] == rest;
      assert RemoveFirst(s, x) == r;
    }
  }

  /** When every element `p` accepts equals `x` and `x` occurs at most once,
      the filter yields `[x]` or nothing. */
  lemma {:induction false} FilterSingleton<T(!new)>(s: seq<T>, p: T -> bool, x: T)
    requires p(x)
    requires forall y :: p(y) ==> y == x
    requires multiset(s)[x] <= 1
    ensures Filter(s, p) == if x in s then [x] else []
  {
    if s != [] {
      assert s == [s[0]] + s[1..];
      FilterSingleton(s[1..], p, x);
      if p(s[0]) {
        assert s[0] == x && multiset(s[1..])[x] == 0;
      }
    }
  }

  /** A filter that accepts only the element at index `i` yields just that element. */
  lemma {:induction false} FilterOnlyAt<T(!new)>(s: seq<T>, p: T -> bool, i: int)
    requires 0 <= i < |s| && p(s[i])
    requires forall k :: 0 <= k < |s| && k != i ==> !p(s[k])
    ensures Filter(s, p) == [s[i]]
  {
    if i == 0 {
      forall x | x in s[1..] ensures !p(x) {
        var k :| 0 <= k < |s[1..]| && s[1..][k] == x;
        assert s[k + 1] == x;
      }
      FilterRejectsAll(s[1..], p);
    } else {
      FilterOnlyAt(s[1..], p, i - 1);
    }
  }

  /** The sequences `f(s)`, `f(s + 1)`, ..., `f(s + n - 1)`, concatenated. */
  function Concat<T>(f: int -> seq<T>, s: int, n: nat): seq<T> {
    if n == 0 then [] else Concat(f, s, n - 1) + f(s + n - 1)
  }

  /** `g(s) + g(s + 1) + ... + g(s + n - 1)`. */
  function Sum(g: int -> nat, s: int, n: nat): nat {
    if n == 0 then 0 else Sum(g, s, n - 1) + g(s + n - 1)
  }

  /** An element occurs in a concatenation as often as in all its parts together. */
  lemma {:induction false} ConcatCount<T(!new)>(f: int -> seq<T>, g: int -> nat, s: int, n: nat, x: T)
    requires forall d :: s <= d < s + n ==> multiset(f(d))[x] == g(d)
    ensures multiset(Concat(f, s, n))[x] == Sum(g, s, n)
  {
    if n > 0 {
      ConcatCount(f, g, s, n - 1, x);
      assert multiset(f(s + n - 1))[x] == g(s + n - 1);
    }
  }

  lemma {:induction false} SumZero(g: int -> nat, s: int, n: nat)
    requires forall d :: s <= d < s + n ==> g(d) == 0
    ensures Sum(g, s, n) == 0
  {
    if n > 0 {
      SumZero(g, s, n - 1);
      assert g(s + n - 1) == 0;
    }
  }

  /** Filtering by a stricter test first by a looser one changes nothing. */
  lemma {:induction false} FilterOfFilter<T(!new)>(s: seq<T>, p: T -> bool, q: T -> bool)
    requires forall x :: q(x) ==> p(x)
    ensures Filter(Filter(s, p), q) == Filter(s, q)
  {
    if s != [] {
      var rest := Filter(s[1..], p);
      FilterOfFilter(s[1..], p, q);
      if p(s[0]) {
        assert Filter(s, p) == [s[0]] + rest;
        assert ([s[0]] + rest)[0] == s[0] && ([s[0]] + rest)[1..] == rest;
      } else {
        assert Filter(s, p) == [] + rest == rest;
      }
    }
  }
}

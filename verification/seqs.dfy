/** Sequence utilities shared by the controllers: duplicate-freedom, filtering
    (a database `find` over a collection), removal of one or of every occurrence
    of a value, sums, and the ascending enumeration of an identifier set that
    stands for a collection's natural order. */
module Seqs {

  /** No element occurs twice. */
  ghost predicate Distinct<T>(xs: seq<T>) {
    forall i, j :: 0 <= i < j < |xs| ==> xs[i] != xs[j]
  }

  /** Strictly increasing, hence also duplicate-free. */
  ghost predicate Increasing(xs: seq<nat>) {
    forall i, j :: 0 <= i < j < |xs| ==> xs[i] < xs[j]
  }

  /** The elements of `xs` that satisfy `p`, in their original order. */
  function Filter<T(!new)>(xs: seq<T>, p: T -> bool): (r: seq<T>)
    ensures forall x :: x in r <==> x in xs && p(x)
    ensures |r| <= |xs|
  {
    if xs == [] then []
    else (if p(xs[0]) then [xs[0]] else []) + Filter(xs[1..], p)
  }

  /** Every occurrence of `x` dropped and every other entry kept as often
      as it was, nothing changed when `x` is absent: what a document
      array's `pull` does. `WithoutAppend` and `WithoutSplit` fix the order. */
  function Without<T(==,!new)>(xs: seq<T>, x: T): (r: seq<T>)
    ensures x !in r
    ensures forall y :: y != x ==> (y in r <==> y in xs)
    ensures forall y :: y != x ==> multiset(r)[y] == multiset(xs)[y]
    ensures x !in xs ==> r == xs
  {
    FilterCounts(xs, Other(x));
    FilterNoneDropped(xs, Other(x));
    Filter(xs, Other(x))
  }

  /** The test "differs from `x`", named so that every use is the same function.
      The ensures only lets the verifier apply the returned function; it is
      not a specification. */
  function Other<T(==,!new)>(x: T): (p: T -> bool)
    ensures forall y :: p(y) <==> y != x
  {
    y => y != x
  }

  /** The first occurrence of `x` dropped, all else kept in order: what
      deleting the document a `findOne` returned does to a collection. */
  function RemoveFirst<T(==)>(xs: seq<T>, x: T): (r: seq<T>)
    ensures x in xs ==> multiset(r) == multiset(xs) - multiset{x}
    ensures x !in xs ==> r == xs
  {
    if xs == [] then []
    else if xs[0] == x then
      assert xs == [xs[0]] + xs[1..];
      xs[1..]
    else
      assert xs == [xs[0]] + xs[1..];
      [xs[0]] + RemoveFirst(xs[1..], x)
  }

  /** The sum of `f` over the elements of `xs`. */
  function SumOf<T>(xs: seq<T>, f: T -> nat): nat {
    if xs == [] then 0 else f(xs[0]) + SumOf(xs[1..], f)
  }

  /** Every non-empty set of naturals has a least element. */
  lemma {:induction false} LeastExists(s: set<nat>)
    requires s != {}
    ensures exists m :: m in s && IsLeast(m, s)
    decreases |s|
  {
    var x :| x in s;
    var rest := s - {x};
    if rest == {} {
      forall y | y in s ensures x <= y {
        assert y !in rest;
      }
      assert IsLeast(x, s);
    } else {
      LeastExists(rest);
      var m :| m in rest && IsLeast(m, rest);
      var least := if x < m then x else m;
      forall y | y in s ensures least <= y {
        if y != x {
          assert y in rest;
        }
      }
      assert least in s && IsLeast(least, s);
    }
  }

  predicate IsLeast(m: nat, s: set<nat>) {
    forall y :: y in s ==> m <= y
  }

  /** The identifiers of `s` in ascending order: the model's stand-in for the
      order in which the database scans a collection. */
  function Ascending(s: set<nat>): (r: seq<nat>)
    ensures Increasing(r)
    ensures forall x :: x in r <==> x in s
    ensures |r| == |s|
    decreases |s|
  {
    if s == {} then []
    else
      LeastExists(s);
      var m :| m in s && IsLeast(m, s);
      var rest := Ascending(s - {m});
      AscendingCons(s, m, rest);
      [m] + rest
  }

  lemma AscendingCons(s: set<nat>, m: nat, rest: seq<nat>)
    requires m in s && IsLeast(m, s)
    requires Increasing(rest)
    requires forall x :: x in rest <==> x in s - {m}
    requires |rest| == |s - {m}|
    ensures Increasing([m] + rest)
    ensures forall x :: x in [m] + rest <==> x in s
    ensures |[m] + rest| == |s|
  {
    forall i | 0 <= i < |rest| ensures m < rest[i] {
      assert rest[i] in s - {m};
    }
    var r := [m] + rest;
    forall i, j | 0 <= i < j < |r| ensures r[i] < r[j] {
      if i > 0 {
        assert r[i] == rest[i - 1] && r[j] == rest[j - 1];
      } else {
        assert r[j] == rest[j - 1];
      }
    }
    forall x ensures x in r <==> x in s {
      if x in s && x != m {
        assert x in rest;
      }
    }
  }

  /** Strictly increasing sequences have no duplicates. */
  lemma IncreasingDistinct(xs: seq<nat>)
    requires Increasing(xs)
    ensures Distinct(xs)
  {
  }

  /** Two increasing sequences with the same elements are equal, so the
      ascending enumeration of a set is the only one. */
  lemma {:induction false} IncreasingUnique(a: seq<nat>, b: seq<nat>)
    requires Increasing(a) && Increasing(b)
    requires forall x :: x in a <==> x in b
    ensures a == b
    decreases |a| + |b|
  {
    if a != [] {
      assert a[0] in b;
    }
    if b != [] {
      assert b[0] in a;
    }
    if a != [] && b != [] {
      IncreasingTail(a);
      IncreasingTail(b);
      SameHead(a, b);
      SameTail(a, b);
      IncreasingUnique(a[1..], b[1..]);
      assert a == [a[0]] + a[1..];
      assert b == [b[0]] + b[1..];
    }
  }

  lemma IncreasingTail(a: seq<nat>)
    requires Increasing(a) && a != []
    ensures Increasing(a[1..])
    ensures forall x :: x in a[1..] ==> a[0] < x
  {
    forall i, j | 0 <= i < j < |a[1..]| ensures a[1..][i] < a[1..][j] {
      assert a[1..][i] == a[i + 1] && a[1..][j] == a[j + 1];
    }
  }

  lemma SameHead(a: seq<nat>, b: seq<nat>)
    requires Increasing(a) && Increasing(b) && a != [] && b != []
    requires forall x :: x in a <==> x in b
    ensures a[0] == b[0]
  {
    assert a[0] in b && b[0] in a;
    var i :| 0 <= i < |a| && a[i] == b[0];
    var j :| 0 <= j < |b| && b[j] == a[0];
    assert a[0] <= a[i] && b[0] <= b[j];
  }

  lemma SameTail(a: seq<nat>, b: seq<nat>)
    requires a != [] && b != [] && a[0] == b[0]
    requires forall x :: x in a <==> x in b
    requires forall x :: x in a[1..] ==> a[0] < x
    requires forall x :: x in b[1..] ==> b[0] < x
    ensures forall x :: x in a[1..] <==> x in b[1..]
  {
    assert a == [a[0]] + a[1..];
    assert b == [b[0]] + b[1..];
    forall x ensures x in a[1..] ==> x in b[1..] {
      if x in a[1..] {
        assert x in b && x != b[0];
      }
    }
    forall x ensures x in b[1..] ==> x in a[1..] {
      if x in b[1..] {
        assert x in a && x != a[0];
      }
    }
  }

  /** The ascending enumeration of a set with one element taken out is the
      ascending enumeration of the whole set with that element taken out. */
  lemma {:induction false} AscendingRemove(s: set<nat>, k: nat)
    ensures Ascending(s - {k}) == Without<nat>(Ascending(s), k)
  {
    var all := Ascending(s);
    var w := Filter<nat>(all, Other<nat>(k));
    var less := Ascending(s - {k});
    FilterIncreasing(all, Other<nat>(k));
    forall x ensures x in less <==> x in w {
      assert x in less <==> x in s - {k};
      assert x in w <==> x in all && x != k;
    }
    IncreasingUnique(less, w);
  }

  lemma {:induction false} FilterIncreasing(xs: seq<nat>, p: nat -> bool)
    requires Increasing(xs)
    ensures Increasing(Filter(xs, p))
  {
    if xs != [] {
      FilterIncreasing(xs[1..], p);
      var rest := Filter(xs[1..], p);
      forall i | 0 <= i < |rest| ensures xs[0] < rest[i] {
        assert rest[i] in xs[1..];
      }
    }
  }

  lemma {:induction false} FilterDistinct<T(!new)>(xs: seq<T>, p: T -> bool)
    requires Distinct(xs)
    ensures Distinct(Filter(xs, p))
  {
    if xs != [] {
      FilterDistinct(xs[1..], p);
      assert xs[0] !in xs[1..];
    }
  }

  /** Filtering with a predicate that holds throughout keeps everything. */
  lemma {:induction false} FilterAll<T(!new)>(xs: seq<T>, p: T -> bool)
    requires forall i :: 0 <= i < |xs| ==> p(xs[i])
    ensures Filter(xs, p) == xs
  {
    if xs != [] {
      FilterAll(xs[1..], p);
      assert xs == [xs[0]] + xs[1..];
    }
  }

  lemma {:induction false} FilterAppend<T(!new)>(xs: seq<T>, y: T, p: T -> bool)
    ensures Filter(xs + [y], p) == Filter(xs, p) + (if p(y) then [y] else [])
  {
    if xs != [] {
      assert (xs + [y])[1..] == xs[1..] + [y];
      FilterAppend(xs[1..], y, p);
    }
  }

  /** A kept value occurs as often as in `xs`, a dropped one not at all;
      with `FilterAppend` this fixes the result's order as well. */
  lemma {:induction false} FilterCount<T(!new)>(xs: seq<T>, p: T -> bool, x: T)
    ensures multiset(Filter(xs, p))[x] == if p(x) then multiset(xs)[x] else 0
  {
    if xs != [] {
      FilterCount(xs[1..], p, x);
      assert xs == [xs[0]] + xs[1..];
    }
  }

  lemma FilterCounts<T(!new)>(xs: seq<T>, p: T -> bool)
    ensures forall x :: multiset(Filter(xs, p))[x] == if p(x) then multiset(xs)[x] else 0
  {
    forall x ensures multiset(Filter(xs, p))[x] == if p(x) then multiset(xs)[x] else 0 {
      FilterCount(xs, p, x);
    }
  }

  lemma FilterNoneDropped<T(!new)>(xs: seq<T>, p: T -> bool)
    ensures (forall x :: x in xs ==> p(x)) ==> Filter(xs, p) == xs
  {
    if forall x :: x in xs ==> p(x) {
      FilterAll(xs, p);
    }
  }

  /** Filtering distributes over concatenation. */
  lemma {:induction false} FilterConcat<T(!new)>(xs: seq<T>, ys: seq<T>, p: T -> bool)
    ensures Filter(xs + ys, p) == Filter(xs, p) + Filter(ys, p)
  {
    if xs == [] {
      assert xs + ys == ys;
    } else {
      var t := xs[1..];
      assert xs == [xs[0]] + t;
      assert xs + ys == [xs[0]] + (t + ys);
      FilterConcat(t, ys, p);
      FilterCons(xs[0], t, p);
      FilterCons(xs[0], t + ys, p);
    }
  }

  lemma FilterCons<T(!new)>(x: T, ys: seq<T>, p: T -> bool)
    ensures Filter([x] + ys, p) == (if p(x) then [x] else []) + Filter(ys, p)
  {
    assert ([x] + ys)[1..] == ys;
  }

  /** Two predicates that agree on the elements of `xs` filter it alike. */
  lemma {:induction false} FilterCongruent<T(!new)>(xs: seq<T>, p: T -> bool, q: T -> bool)
    requires forall i :: 0 <= i < |xs| ==> p(xs[i]) == q(xs[i])
    ensures Filter(xs, p) == Filter(xs, q)
  {
    if xs != [] {
      FilterCongruent(xs[1..], p, q);
    }
  }

  lemma {:induction false} FilterCommute<T(!new)>(xs: seq<T>, p: T -> bool, q: T -> bool)
    ensures Filter(Filter(xs, p), q) == Filter(Filter(xs, q), p)
  {
    if xs != [] {
      FilterCommute(xs[1..], p, q);
      var x := xs[0];
      var fp := Filter(xs[1..], p);
      var fq := Filter(xs[1..], q);
      if p(x) {
        assert Filter(xs, p) == [x] + fp;
        assert Filter(xs, p)[1..] == fp;
      } else {
        assert Filter(xs, p) == fp;
      }
      if q(x) {
        assert Filter(xs, q) == [x] + fq;
        assert Filter(xs, q)[1..] == fq;
      } else {
        assert Filter(xs, q) == fq;
      }
    }
  }

  /** A duplicate-free sequence has as many elements as the set of its
      elements. */
  lemma {:induction false} DistinctCard<T>(xs: seq<T>)
    requires Distinct(xs)
    ensures |set x | x in xs| == |xs|
  {
    if xs != [] {
      DistinctCard(xs[1..]);
      assert xs[0] !in xs[1..];
      assert (set x | x in xs) == {xs[0]} + (set x | x in xs[1..]);
    }
  }

  /** A set whose members are exactly those of a duplicate-free sequence has
      the sequence's length as its size. */
  lemma DistinctSize<T>(xs: seq<T>, s: set<T>)
    requires Distinct(xs)
    requires forall x :: x in s ==> x in xs
    requires forall i :: 0 <= i < |xs| ==> xs[i] in s
    ensures |s| == |xs|
  {
    DistinctCard(xs);
    assert s == set x | x in xs;
  }

  /** Duplicate-freedom stated by indices and by multiplicities agree. */
  lemma {:induction false} DistinctMultiset<T>(xs: seq<T>)
    ensures Distinct(xs) <==> forall x :: multiset(xs)[x] <= 1
  {
    if xs != [] {
      var t := xs[1..];
      DistinctMultiset(t);
      assert xs == [xs[0]] + t;
      assert multiset(xs) == multiset{xs[0]} + multiset(t);
      if Distinct(xs) {
        assert xs[0] !in t by {
          forall j | 0 <= j < |t| ensures t[j] != xs[0] {
            assert t[j] == xs[j + 1];
          }
        }
        assert Distinct(t) by {
          forall i, j | 0 <= i < j < |t| ensures t[i] != t[j] {
            assert t[i] == xs[i + 1] && t[j] == xs[j + 1];
          }
        }
        forall x ensures multiset(xs)[x] <= 1 {
          assert multiset(t)[x] <= 1;
          if x == xs[0] {
            assert multiset(t)[x] == 0;
          }
        }
      }
      if forall x :: multiset(xs)[x] <= 1 {
        assert multiset(xs)[xs[0]] <= 1;
        assert multiset(t)[xs[0]] == 0;
        assert xs[0] !in t;
        forall x ensures multiset(t)[x] <= 1 {
          assert multiset(xs)[x] <= 1;
        }
        forall i, j | 0 <= i < j < |xs| ensures xs[i] != xs[j] {
          if i > 0 {
            assert xs[i] == t[i - 1] && xs[j] == t[j - 1];
          } else {
            assert xs[j] == t[j - 1];
          }
        }
      }
    }
  }

  /** Dropping an element that occurs once removes exactly its value from
      the sum. */
  lemma {:induction false} SumWithout<T(!new)>(xs: seq<T>, x: T, f: T -> nat)
    requires Distinct(xs) && x in xs
    ensures SumOf(Without(xs, x), f) + f(x) == SumOf(xs, f)
  {
    FilterDistinct(xs, Other(x));
    if xs[0] == x {
      assert x !in xs[1..];
      FilterAll(xs[1..], Other(x));
      assert Filter(xs, Other(x)) == xs[1..];
    } else {
      SumWithout(xs[1..], x, f);
      assert Filter(xs, Other(x)) == [xs[0]] + Filter(xs[1..], Other(x));
      assert Without(xs[1..], x) == Filter(xs[1..], Other(x));
    }
  }

  /** Two functions that agree on the elements of `xs` sum alike over it. */
  lemma {:induction false} SumCongruent<T>(xs: seq<T>, f: T -> nat, g: T -> nat)
    requires forall i :: 0 <= i < |xs| ==> f(xs[i]) == g(xs[i])
    ensures SumOf(xs, f) == SumOf(xs, g)
  {
    if xs != [] {
      SumCongruent(xs[1..], f, g);
    }
  }

  /** Appending a value that was absent and then removing its first
      occurrence gives back the original sequence. */
  lemma {:induction false} RemoveFirstAppend<T>(xs: seq<T>, x: T)
    requires x !in xs
    ensures RemoveFirst(xs + [x], x) == xs
  {
    if xs != [] {
      assert (xs + [x])[0] == xs[0];
      assert (xs + [x])[1..] == xs[1..] + [x];
      RemoveFirstAppend(xs[1..], x);
      assert xs == [xs[0]] + xs[1..];
    }
  }

  /** Removing a value that a filter rejects does not change what the
      filter keeps. */
  lemma {:induction false} FilterRemoveFirst<T(!new)>(xs: seq<T>, x: T, p: T -> bool)
    requires !p(x)
    ensures Filter(RemoveFirst(xs, x), p) == Filter(xs, p)
  {
    if xs != [] && xs[0] != x {
      FilterRemoveFirst(xs[1..], x, p);
      assert ([xs[0]] + RemoveFirst(xs[1..], x))[1..] == RemoveFirst(xs[1..], x);
    }
  }

  /** Dropping a value that occurs once shortens the sequence by one. */
  lemma {:induction false} WithoutOnce<T(!new)>(xs: seq<T>, x: T)
    requires Distinct(xs) && x in xs
    ensures |Without(xs, x)| == |xs| - 1
  {
    if xs[0] == x {
      assert x !in xs[1..];
      FilterAll(xs[1..], Other(x));
    } else {
      WithoutOnce(xs[1..], x);
    }
  }

  /** `pull` keeps order: pulling from a list with one more entry at its end
      pulls from the list and then keeps that entry unless it is `x`. */
  lemma WithoutAppend<T(!new)>(xs: seq<T>, y: T, x: T)
    ensures Without(xs + [y], x) == Without(xs, x) + (if y == x then [] else [y])
  {
    FilterAppend(xs, y, Other(x));
  }

  /** Pulling a value that occurs once, at `i`, closes the gap it leaves. */
  lemma WithoutSplit<T(!new)>(xs: seq<T>, x: T, i: nat)
    requires i < |xs| && xs[i] == x && x !in xs[..i] + xs[i + 1..]
    ensures Without(xs, x) == xs[..i] + xs[i + 1..]
  {
    var before, after := xs[..i], xs[i + 1..];
    assert xs == before + ([x] + after);
    FilterConcat(before, [x] + after, Other(x));
    FilterConcat([x], after, Other(x));
    assert x !in before && x !in after;
    FilterNoneDropped(before, Other(x));
    FilterNoneDropped(after, Other(x));
  }
}

/** Mapping, filtering and folding of lists, and what a permutation leaves unchanged. */
module Sequences {
  import opened Ordering

  function Map<A, B>(f: A -> B, s: seq<A>): (r: seq<B>)
    ensures |r| == |s| && forall i :: 0 <= i < |s| ==> r[i] == f(s[i])
  {
    if s == [] then [] else [f(s[0])] + Map(f, s[1..])
  }

  function Filter<T>(p: T -> bool, s: seq<T>): seq<T> {
    if s == [] then [] else (if p(s[0]) then [s[0]] else []) + Filter(p, s[1..])
  }

  lemma {:induction false} FilterMembers<T>(p: T -> bool, s: seq<T>, x: T)
    ensures x in Filter(p, s) <==> x in s && p(x)
  {
    if s != [] {
      FilterMembers(p, s[1..], x);
      assert s == [s[0]] + s[1..];
    }
  }

  lemma {:induction false} FilterAll<T>(p: T -> bool, s: seq<T>)
    requires forall x :: x in s ==> p(x)
    ensures Filter(p, s) == s
  {
    if s != [] {
      assert s == [s[0]] + s[1..];
      FilterAll(p, s[1..]);
    }
  }

  function Fold<T>(op: (T, T) -> T, unit: T, s: seq<T>): T {
    if s == [] then unit else op(s[0], Fold(op, unit, s[1..]))
  }

  ghost predicate CommutativeMonoid<T(!new)>(op: (T, T) -> T, unit: T) {
    && (forall a, b :: op(a, b) == op(b, a))
    && (forall a, b, c :: op(op(a, b), c) == op(a, op(b, c)))
    && (forall a :: op(unit, a) == a)
  }

  lemma {:induction false} Regroup<T(!new)>(op: (T, T) -> T, unit: T, a: T, b: T, c: T)
    requires CommutativeMonoid(op, unit)
    ensures op(op(a, b), c) == op(a, op(b, c)) && op(a, b) == op(b, a) && op(unit, a) == a
  {
  }

  // ----- concatenation -----

  lemma {:induction false} Assoc<T>(a: seq<T>, b: seq<T>, c: seq<T>)
    ensures a + (b + c) == a + b + c
  {
  }

  lemma {:induction false} MapConcat<A, B>(f: A -> B, a: seq<A>, b: seq<A>)
    ensures Map(f, a + b) == Map(f, a) + Map(f, b)
  {
  }

  lemma {:induction false} FilterConcat<T>(p: T -> bool, a: seq<T>, b: seq<T>)
    ensures Filter(p, a + b) == Filter(p, a) + Filter(p, b)
  {
    if a == [] {
      assert a + b == b;
    } else {
      FilterConcat(p, a[1..], b);
      assert (a + b)[1..] == a[1..] + b && (a + b)[0] == a[0];
      var head: seq<T> := if p(a[0]) then [a[0]] else [];
      Assoc(head, Filter(p, a[1..]), Filter(p, b));
    }
  }

  lemma {:induction false} FoldConcat<T(!new)>(op: (T, T) -> T, unit: T, a: seq<T>, b: seq<T>)
    requires CommutativeMonoid(op, unit)
    ensures Fold(op, unit, a + b) == op(Fold(op, unit, a), Fold(op, unit, b))
  {
    hide CommutativeMonoid;
    if a == [] {
      assert a + b == b;
      Regroup(op, unit, Fold(op, unit, b), unit, unit);
    } else {
      FoldConcat(op, unit, a[1..], b);
      assert (a + b)[1..] == a[1..] + b;
      Regroup(op, unit, a[0], Fold(op, unit, a[1..]), Fold(op, unit, b));
    }
  }

  // ----- permutations -----

  /** Takes the first element of `a` out of its permutation `b`. */
  lemma {:induction false} FindHead<T>(a: seq<T>, b: seq<T>) returns (j: nat)
    requires a != [] && multiset(a) == multiset(b)
    ensures j < |b| && b[j] == a[0] && b == b[..j] + [b[j]] + b[j + 1..]
    ensures multiset(a[1..]) == multiset(b[..j] + b[j + 1..])
  {
    assert a[0] in multiset(b);
    j :| 0 <= j < |b| && b[j] == a[0];
    TailMultiset(a);
    WithoutOne(b, j);
  }

  lemma {:induction false} WithoutOne<T>(b: seq<T>, j: nat)
    requires j < |b|
    ensures b == b[..j] + [b[j]] + b[j + 1..]
    ensures multiset(b) == multiset{b[j]} + multiset(b[..j] + b[j + 1..])
  {
    assert b == b[..j] + [b[j]] + b[j + 1..];
  }

  lemma {:induction false} MapPerm<A, B>(f: A -> B, a: seq<A>, b: seq<A>)
    requires multiset(a) == multiset(b)
    ensures multiset(Map(f, a)) == multiset(Map(f, b))
  {
    assert |multiset(a)| == |multiset(b)|;
    if a != [] {
      var j := FindHead(a, b);
      MapPerm(f, a[1..], b[..j] + b[j + 1..]);
      MapConcat(f, b[..j], b[j + 1..]);
      MapConcat(f, b[..j] + [b[j]], b[j + 1..]);
      MapConcat(f, b[..j], [b[j]]);
      assert Map(f, a) == [f(a[0])] + Map(f, a[1..]);
      assert Map(f, [b[j]]) == [f(b[j])];
    }
  }

  lemma {:induction false} FilterPerm<T>(p: T -> bool, a: seq<T>, b: seq<T>)
    requires multiset(a) == multiset(b)
    ensures multiset(Filter(p, a)) == multiset(Filter(p, b))
  {
    assert |multiset(a)| == |multiset(b)|;
    if a != [] {
      var j := FindHead(a, b);
      FilterPerm(p, a[1..], b[..j] + b[j + 1..]);
      FilterConcat(p, b[..j], b[j + 1..]);
      FilterConcat(p, b[..j] + [b[j]], b[j + 1..]);
      FilterConcat(p, b[..j], [b[j]]);
    }
  }

  lemma {:induction false} FoldPerm<T(!new)>(op: (T, T) -> T, unit: T, a: seq<T>, b: seq<T>)
    requires CommutativeMonoid(op, unit) && multiset(a) == multiset(b)
    ensures Fold(op, unit, a) == Fold(op, unit, b)
  {
    assert |multiset(a)| == |multiset(b)|;
    if a != [] {
      hide CommutativeMonoid;
      var j := FindHead(a, b);
      FoldPerm(op, unit, a[1..], b[..j] + b[j + 1..]);
      FoldConcat(op, unit, b[..j], b[j + 1..]);
      FoldMiddle(op, unit, b[..j], b[j], b[j + 1..]);
    }
  }

  lemma {:induction false} FoldMiddle<T(!new)>(op: (T, T) -> T, unit: T, a: seq<T>, x: T, b: seq<T>)
    requires CommutativeMonoid(op, unit)
    ensures Fold(op, unit, a + [x] + b) == op(x, op(Fold(op, unit, a), Fold(op, unit, b)))
  {
    hide CommutativeMonoid;
    var fa, fb := Fold(op, unit, a), Fold(op, unit, b);
    FoldConcat(op, unit, a + [x], b);
    FoldConcat(op, unit, a, [x]);
    Regroup(op, unit, x, unit, unit);
    assert Fold(op, unit, [x]) == x;
    Regroup(op, unit, fa, x, fb);
    Regroup(op, unit, x, fa, fb);
  }

  // ----- sorting -----

  lemma {:induction false} FilterSorted<T>(p: T -> bool, s: seq<T>, leq: (T, T) -> bool)
    requires Sorted(s, leq)
    ensures Sorted(Filter(p, s), leq)
  {
    if s != [] {
      FilterSorted(p, s[1..], leq);
      var r := Filter(p, s[1..]);
      forall i | 0 <= i < |r| ensures leq(s[0], r[i]) {
        FilterMembers(p, s[1..], r[i]);
      }
    }
  }

  lemma {:induction false} InsertMap<A, B>(f: A -> B, x: A, s: seq<A>, leqA: (A, A) -> bool, leqB: (B, B) -> bool)
    requires forall y :: y in s ==> leqA(x, y) == leqB(f(x), f(y))
    ensures Map(f, Insert(x, s, leqA)) == Insert(f(x), Map(f, s), leqB)
  {
    if s == [] || leqA(x, s[0]) {
    } else {
      InsertMap(f, x, s[1..], leqA, leqB);
      assert Map(f, s)[1..] == Map(f, s[1..]);
    }
  }

  /** Sorting by a key and reading off the keys is sorting the keys. */
  lemma {:induction false} SortMap<A(!new), B(!new)>(f: A -> B, s: seq<A>, leqA: (A, A) -> bool, leqB: (B, B) -> bool)
    requires TotalPreorder(leqA)
    requires forall x, y :: leqA(x, y) == leqB(f(x), f(y))
    ensures Map(f, Sort(s, leqA)) == Sort(Map(f, s), leqB)
  {
    if s != [] {
      SortMap(f, s[1..], leqA, leqB);
      InsertMap(f, s[0], Sort(s[1..], leqA), leqA, leqB);
      assert Map(f, s)[1..] == Map(f, s[1..]);
    }
  }

  /** Sorting by a key that tells the elements apart depends only on the elements. */
  lemma {:induction false} SortByKey<T(!new)>(key: T -> string, leq: (T, T) -> bool, cs: seq<T>, ds: seq<T>)
    requires multiset(cs) == multiset(ds)
    requires TotalPreorder(leq) && forall x, y :: leq(x, y) == StrLeq(key(x), key(y))
    requires forall a, b :: a in cs && b in cs && key(a) == key(b) ==> a == b
    ensures Sort(cs, leq) == Sort(ds, leq)
  {
    hide StrLeq, Sort;
    var s, t := Sort(cs, leq), Sort(ds, leq);
    SortCorrect(cs, leq);
    SortCorrect(ds, leq);
    SortMembers(cs, leq);
    SortMembers(ds, leq);
    StrTotal();
    SortMap(key, cs, leq, StrLeq);
    SortMap(key, ds, leq, StrLeq);
    MapPerm(key, cs, ds);
    SortCanonical(Map(key, cs), Map(key, ds), StrLeq);
    assert Map(key, s) == Map(key, t);
    forall x ensures x in cs <==> x in ds {
      assert x in multiset(cs) <==> x in multiset(ds);
    }
    forall i | 0 <= i < |s| ensures s[i] == t[i] {
      assert Map(key, s)[i] == Map(key, t)[i];
      assert s[i] in s && t[i] in t;
    }
  }
}

/** Sorting as Python's `sorted` does it: a stable sort by a total preorder, and
    the lexicographic orders on strings and on lists of strings. */
module Ordering {

  ghost predicate TotalPreorder<T(!new)>(leq: (T, T) -> bool) {
    && (forall a, b :: leq(a, b) || leq(b, a))
    && (forall a, b, c :: leq(a, b) && leq(b, c) ==> leq(a, c))
  }

  ghost predicate TotalOrder<T(!new)>(leq: (T, T) -> bool) {
    TotalPreorder(leq) && forall a, b :: leq(a, b) && leq(b, a) ==> a == b
  }

  ghost predicate Sorted<T>(s: seq<T>, leq: (T, T) -> bool) {
    forall i, j :: 0 <= i < j < |s| ==> leq(s[i], s[j])
  }

  ghost predicate Distinct<T>(s: seq<T>) {
    forall i, j :: 0 <= i < j < |s| ==> s[i] != s[j]
  }

  function Min(a: nat, b: nat): nat {
    if b < a then b else a
  }

  function Insert<T>(x: T, s: seq<T>, leq: (T, T) -> bool): seq<T> {
    if s == [] || leq(x, s[0]) then [x] + s else [s[0]] + Insert(x, s[1..], leq)
  }

  /** Insertion sort; an element is never moved past an equal one. */
  function Sort<T>(s: seq<T>, leq: (T, T) -> bool): seq<T> {
    if s == [] then [] else Insert(s[0], Sort(s[1..], leq), leq)
  }

  lemma {:induction false} InsertMultiset<T>(x: T, s: seq<T>, leq: (T, T) -> bool)
    ensures multiset(Insert(x, s, leq)) == multiset(s) + multiset{x}
  {
    if s == [] || leq(x, s[0]) {
    } else {
      assert s == [s[0]] + s[1..];
      InsertMultiset(x, s[1..], leq);
    }
  }

  lemma {:induction false} InsertSorted<T(!new)>(x: T, s: seq<T>, leq: (T, T) -> bool)
    requires TotalPreorder(leq) && Sorted(s, leq)
    ensures Sorted(Insert(x, s, leq), leq)
  {
    if s == [] {
    } else if leq(x, s[0]) {
      forall j | 0 <= j < |s| ensures leq(x, s[j]) {
        assert j > 0 ==> leq(s[0], s[j]);
      }
    } else {
      InsertSorted(x, s[1..], leq);
      InsertMultiset(x, s[1..], leq);
      var r := Insert(x, s[1..], leq);
      forall j | 0 <= j < |r| ensures leq(s[0], r[j]) {
        assert r[j] in multiset(r);
        assert r[j] == x || r[j] in s[1..];
      }
    }
  }

  lemma {:induction false} SortCorrect<T(!new)>(s: seq<T>, leq: (T, T) -> bool)
    requires TotalPreorder(leq)
    ensures multiset(Sort(s, leq)) == multiset(s)
    ensures Sorted(Sort(s, leq), leq)
    ensures |Sort(s, leq)| == |s|
  {
    if s != [] {
      assert s == [s[0]] + s[1..];
      SortCorrect(s[1..], leq);
      InsertSorted(s[0], Sort(s[1..], leq), leq);
      InsertMultiset(s[0], Sort(s[1..], leq), leq);
      assert |multiset(Sort(s, leq))| == |multiset(s)|;
    }
  }

  lemma {:induction false} SortMembers<T(!new)>(s: seq<T>, leq: (T, T) -> bool)
    requires TotalPreorder(leq)
    ensures forall x :: x in Sort(s, leq) <==> x in s
  {
    SortCorrect(s, leq);
    forall x ensures x in Sort(s, leq) <==> x in s {
      assert x in multiset(Sort(s, leq)) <==> x in multiset(s);
    }
  }

  lemma {:induction false} SortFixed<T(!new)>(s: seq<T>, leq: (T, T) -> bool)
    requires Sorted(s, leq)
    ensures Sort(s, leq) == s
  {
    if s != [] {
      SortFixed(s[1..], leq);
    }
  }

  lemma {:induction false} TailMultiset<T>(s: seq<T>)
    requires s != []
    ensures multiset(s[1..]) == multiset(s) - multiset{s[0]}
  {
    assert s == [s[0]] + s[1..];
  }

  lemma {:induction false} SortedUnique<T(!new)>(a: seq<T>, b: seq<T>, leq: (T, T) -> bool)
    requires TotalOrder(leq) && Sorted(a, leq) && Sorted(b, leq)
    requires multiset(a) == multiset(b)
    ensures a == b
  {
    assert |multiset(a)| == |multiset(b)|;
    if a != [] {
      assert a[0] in multiset(a) && b[0] in multiset(b);
      assert a[0] == b[0];
      TailMultiset(a);
      TailMultiset(b);
      SortedUnique(a[1..], b[1..], leq);
      assert a == [a[0]] + a[1..] && b == [b[0]] + b[1..];
    }
  }

  /** Under a total order the sorted list depends only on which elements there are. */
  lemma {:induction false} SortCanonical<T(!new)>(a: seq<T>, b: seq<T>, leq: (T, T) -> bool)
    requires TotalOrder(leq) && multiset(a) == multiset(b)
    ensures Sort(a, leq) == Sort(b, leq)
  {
    SortCorrect(a, leq);
    SortCorrect(b, leq);
    SortedUnique(Sort(a, leq), Sort(b, leq), leq);
  }

  lemma {:induction false} DistinctMultiset<T>(a: seq<T>, b: seq<T>)
    requires multiset(a) == multiset(b) && Distinct(a)
    ensures Distinct(b)
  {
    MultisetDistinct(a);
    forall i, j | 0 <= i < j < |b| ensures b[i] != b[j] {
      OccursTwice(b, i, j);
    }
  }

  lemma {:induction false} OccursTwice<T>(b: seq<T>, i: nat, j: nat)
    requires i < j < |b|
    ensures b[i] == b[j] ==> multiset(b)[b[i]] >= 2
  {
    assert b == b[..i] + [b[i]] + b[i + 1..j] + [b[j]] + b[j + 1..];
  }

  lemma {:induction false} MultisetDistinct<T>(a: seq<T>)
    requires Distinct(a)
    ensures forall x :: multiset(a)[x] <= 1
  {
    if a != [] {
      assert a == [a[0]] + a[1..];
      MultisetDistinct(a[1..]);
    }
  }

  /** Two duplicate-free lists with the same members are permutations of each other. */
  lemma {:induction false} DistinctSameMembers<T>(a: seq<T>, b: seq<T>)
    requires Distinct(a) && Distinct(b)
    requires forall x :: x in a <==> x in b
    ensures multiset(a) == multiset(b)
  {
    MultisetDistinct(a);
    MultisetDistinct(b);
    forall x ensures multiset(a)[x] == multiset(b)[x] {
      assert x in multiset(a) <==> x in a;
      assert x in multiset(b) <==> x in b;
    }
  }

  /** A duplicate-free list drawn from a set is no longer than the set. */
  lemma {:induction false} DistinctBound<T>(s: seq<T>, r: set<T>)
    requires Distinct(s) && forall x :: x in s ==> x in r
    ensures |s| <= |r|
    ensures |s| == |r| ==> forall x :: x in r ==> x in s
  {
    if s == [] {
      assert |r| == 0 ==> r == {};
    } else {
      DistinctBound(s[1..], r - {s[0]});
      assert s == [s[0]] + s[1..];
    }
  }

  // ----- lexicographic orders -----

  predicate LexLeq<T(==)>(leq: (T, T) -> bool, a: seq<T>, b: seq<T>) {
    if a == [] then true
    else if b == [] then false
    else if a[0] == b[0] then LexLeq(leq, a[1..], b[1..])
    else leq(a[0], b[0])
  }

  lemma {:induction false} LexTotal<T(!new)>(leq: (T, T) -> bool, a: seq<T>, b: seq<T>)
    requires TotalOrder(leq)
    ensures LexLeq(leq, a, b) || LexLeq(leq, b, a)
    ensures LexLeq(leq, a, b) && LexLeq(leq, b, a) ==> a == b
  {
    if a != [] && b != [] && a[0] == b[0] {
      LexTotal(leq, a[1..], b[1..]);
      assert a == [a[0]] + a[1..] && b == [b[0]] + b[1..];
    }
  }

  lemma {:induction false} LexTrans<T(!new)>(leq: (T, T) -> bool, a: seq<T>, b: seq<T>, c: seq<T>)
    requires TotalOrder(leq) && LexLeq(leq, a, b) && LexLeq(leq, b, c)
    ensures LexLeq(leq, a, c)
  {
    if a != [] && a[0] == b[0] && b[0] == c[0] {
      LexTrans(leq, a[1..], b[1..], c[1..]);
    }
  }

  predicate CharLeq(a: char, b: char) {
    a <= b
  }

  predicate StrLeq(a: string, b: string) {
    LexLeq(CharLeq, a, b)
  }

  predicate StrListLeq(a: seq<string>, b: seq<string>) {
    LexLeq(StrLeq, a, b)
  }

  lemma {:induction false} StrLinear(a: string, b: string)
    ensures StrLeq(a, b) || StrLeq(b, a)
    ensures StrLeq(a, b) && StrLeq(b, a) ==> a == b
  {
    LexTotal(CharLeq, a, b);
  }

  lemma {:induction false} StrTrans(a: string, b: string, c: string)
    requires StrLeq(a, b) && StrLeq(b, c)
    ensures StrLeq(a, c)
  {
    LexTrans(CharLeq, a, b, c);
  }

  lemma {:induction false} StrTotal()
    ensures TotalOrder(StrLeq)
  {
    hide StrLeq;
    forall a, b ensures (StrLeq(a, b) || StrLeq(b, a)) && (StrLeq(a, b) && StrLeq(b, a) ==> a == b) {
      StrLinear(a, b);
    }
    forall a, b, c | StrLeq(a, b) && StrLeq(b, c) ensures StrLeq(a, c) {
      StrTrans(a, b, c);
    }
  }

  /** Python's order of strings: the first difference decides, by code point, and a proper
      prefix comes first. */
  lemma {:induction false} StrFirstDifference(p: string, c: char, s: string, d: char, t: string)
    ensures StrLeq(p + [c] + s, p + [d] + t) <==> c < d || (c == d && StrLeq(s, t))
    ensures StrLeq(p, p + [c] + s) && !StrLeq(p + [c] + s, p)
  {
    var a, b := p + [c] + s, p + [d] + t;
    if p == [] {
      assert a[1..] == s && b[1..] == t;
    } else {
      StrFirstDifference(p[1..], c, s, d, t);
      assert a[1..] == p[1..] + [c] + s && b[1..] == p[1..] + [d] + t;
    }
  }

  lemma {:induction false} StrListTotal()
    ensures TotalOrder(StrListLeq)
  {
    StrTotal();
    forall a, b ensures (StrListLeq(a, b) || StrListLeq(b, a)) && (StrListLeq(a, b) && StrListLeq(b, a) ==> a == b) {
      LexTotal(StrLeq, a, b);
    }
    forall a, b, c | StrListLeq(a, b) && StrListLeq(b, c) ensures StrListLeq(a, c) {
      LexTrans(StrLeq, a, b, c);
    }
  }

  // ----- sorted enumeration of a set of strings: Python's sorted(set) -----

  lemma {:induction false} FindMinimum(s: set<string>) returns (m: string)
    requires s != {}
    ensures m in s && forall y :: y in s ==> StrLeq(m, y)
  {
    hide StrLeq;
    var x :| x in s;
    var rest := s - {x};
    m := x;
    StrLinear(x, x);
    if rest != {} {
      var n := FindMinimum(rest);
      StrLinear(x, n);
      if StrLeq(x, n) {
        forall y | y in s ensures StrLeq(x, y) {
          if y != x { StrTrans(x, n, y); }
        }
      } else {
        m := n;
      }
    }
    assert forall y :: y in s ==> y == x || y in rest;
  }

  lemma {:induction false} MinimumExists(s: set<string>)
    requires s != {}
    ensures exists x :: x in s && forall y :: y in s ==> StrLeq(x, y)
  {
    var m := FindMinimum(s);
  }

  function Minimum(s: set<string>): (m: string)
    requires s != {}
    ensures m in s && forall y :: y in s ==> StrLeq(m, y)
  {
    MinimumExists(s);
    assert forall a, b :: a in s && b in s && StrLeq(a, b) && StrLeq(b, a) ==> a == b by { StrTotal(); }
    var m :| m in s && forall y :: y in s ==> StrLeq(m, y);
    m
  }

  function SortedSet(s: set<string>): (r: seq<string>)
    ensures forall x :: x in r <==> x in s
    ensures Sorted(r, StrLeq) && Distinct(r)
  {
    if s == {} then []
    else
      var m := Minimum(s);
      [m] + SortedSet(s - {m})
  }

  // ----- first occurrences: the keys of a dictionary built from a list -----

  function FirstOccurrences(s: seq<string>): (r: seq<string>)
    ensures Distinct(r) && forall x :: x in r <==> x in s
  {
    if s == [] then []
    else
      assert s == s[..|s| - 1] + [s[|s| - 1]];
      var rest := FirstOccurrences(s[..|s| - 1]);
      if s[|s| - 1] in rest then rest else rest + [s[|s| - 1]]
  }

  /** Names come in the order of their first occurrences. */
  lemma {:induction false} FirstOccurrencesInOrder(s: seq<string>, i: nat, j: nat)
    requires i < j < |FirstOccurrences(s)|
    ensures exists p :: 0 <= p < |s| && s[p] == FirstOccurrences(s)[i] && forall q :: 0 <= q <= p ==> s[q] != FirstOccurrences(s)[j]
  {
    var n := |s| - 1;
    var r, rest := FirstOccurrences(s), FirstOccurrences(s[..n]);
    assert r == rest || r == rest + [s[n]];
    if j < |rest| {
      FirstOccurrencesInOrder(s[..n], i, j);
      var p :| 0 <= p < n && s[..n][p] == rest[i] && forall q :: 0 <= q <= p ==> s[..n][q] != rest[j];
      assert s[p] == r[i] && forall q :: 0 <= q <= p ==> s[q] == s[..n][q];
    } else {
      assert rest[i] in s[..n] && r[j] !in rest;
      var p :| 0 <= p < n && s[..n][p] == rest[i];
      forall q | 0 <= q <= p ensures s[q] != r[j] {
        assert s[q] == s[..n][q] && s[..n][q] in s[..n];
      }
    }
  }
}

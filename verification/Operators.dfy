/** The arithmetic that both expression normalisers work with. */
module Operators {
  import opened Sequences

  predicate Commutative(kind: string) {
    kind in {"Add", "Mul", "And", "Or", "Max", "Min"}
  }

  function Plus(a: real, b: real): real { a + b }
  function Times(a: real, b: real): real { a * b }

  function Sum(xs: seq<real>): real { Fold(Plus, 0.0, xs) }
  function Product(xs: seq<real>): real { Fold(Times, 1.0, xs) }

  /** The neutral element that is filtered out of the operands of `kind`. */
  function Neutral(kind: string): real {
    if kind == "Mul" then 1.0 else 0.0
  }

  function Total(kind: string, xs: seq<real>): real {
    if kind == "Mul" then Product(xs) else Sum(xs)
  }

  function Combine(kind: string, a: real, b: real): real {
    if kind == "Mul" then a * b else a + b
  }

  predicate Arithmetic(kind: string) {
    kind == "Add" || kind == "Mul"
  }

  lemma {:induction false} SumMonoid()
    ensures CommutativeMonoid(Plus, 0.0) && CommutativeMonoid(Times, 1.0)
  {
  }

  lemma {:induction false} TotalPerm(kind: string, xs: seq<real>, ys: seq<real>)
    requires multiset(xs) == multiset(ys)
    ensures Total(kind, xs) == Total(kind, ys)
  {
    SumMonoid();
    FoldPerm(Plus, 0.0, xs, ys);
    FoldPerm(Times, 1.0, xs, ys);
  }

  lemma {:induction false} SmallTotals(kind: string, x: real)
    ensures Total(kind, [x]) == x && Total(kind, []) == Neutral(kind)
  {
    assert [x][1..] == [];
    assert Sum([x]) == Plus(x, Sum([])) && Product([x]) == Times(x, Product([]));
  }

  lemma {:induction false} TotalCons(kind: string, x: real, xs: seq<real>)
    ensures Total(kind, [x] + xs) == Combine(kind, x, Total(kind, xs))
  {
    assert ([x] + xs)[1..] == xs;
    assert Sum([x] + xs) == Plus(x, Sum(xs)) && Product([x] + xs) == Times(x, Product(xs));
  }
}

/** Expressions of the symbolic-regression integration, their meaning, and the
    normaliser of the DAG compiler. `key` stands for the textual sort key of an
    expression, `prim` for the operators whose meaning does not matter here. */
module SrExpr {
  import opened Wrappers
  import opened Ordering
  import opened Sequences
  import opened Operators

  datatype Expr = Num(value: real) | Sym(name: string) | App(func: string, args: seq<Expr>)

  type Key = Expr -> string

  // ----- meaning: None is an undefined value, and it spreads -----

  type Env = string -> Option<real>
  type Prim = (string, seq<real>) -> Option<real>

  function Get(o: Option<real>): real {
    if o.Some? then o.value else 0.0
  }

  predicate AllSome(os: seq<Option<real>>) {
    forall i :: 0 <= i < |os| ==> os[i].Some?
  }

  function Collect(os: seq<Option<real>>): Option<seq<real>> {
    if AllSome(os) then Some(Map(Get, os)) else None
  }

  function Power(prim: Prim, x: real, y: real): Option<real> {
    if y == 1.0 then Some(x)
    else if y == -1.0 then if x == 0.0 then None else Some(1.0 / x)
    else prim("Pow", [x, y])
  }

  /** Indicators are recognised whatever their case. */
  function UpperChar(c: char): char {
    if 'a' <= c <= 'z' then (c as int - 32) as char else c
  }

  function Upper(s: string): string {
    seq(|s|, i requires 0 <= i < |s| => UpperChar(s[i]))
  }

  predicate Indicator(f: string) {
    Upper(f) in {"EMA", "SMA", "RSI", "MACD", "VWAP"}
  }

  /** Operators are recognised by their exact name, before indicators are considered. */
  predicate Operator(f: string) {
    || Commutative(f)
    || f in {"Pow", "Not", "Abs", "sin", "cos", "exp", "log"}
    || f in {"GreaterThan", "StrictGreaterThan", "LessThan", "StrictLessThan", "Equality", "Unequality"}
  }

  function Resolve(f: string): string {
    if !Operator(f) && Indicator(f) then Upper(f) else f
  }

  function Apply(prim: Prim, f: string, xs: seq<real>): Option<real> {
    if Arithmetic(f) then Some(Total(f, xs))
    else if f == "Pow" && |xs| == 2 then Power(prim, xs[0], xs[1])
    else prim(Resolve(f), xs)
  }

  function Bind(prim: Prim, f: string, vs: Option<seq<real>>): Option<real> {
    match vs
    case None => None
    case Some(xs) => Apply(prim, f, xs)
  }

  function Eval(prim: Prim, env: Env, e: Expr): Option<real>
    decreases e, 1
  {
    match e
    case Num(v) => Some(v)
    case Sym(n) => env(n)
    case App(f, args) => Bind(prim, f, Collect(EvalAll(prim, env, args)))
  }

  function EvalAll(prim: Prim, env: Env, es: seq<Expr>): (r: seq<Option<real>>)
    ensures |r| == |es| && forall i :: 0 <= i < |es| ==> r[i] == Eval(prim, env, es[i])
    decreases es, 0
  {
    if es == [] then [] else [Eval(prim, env, es[0])] + EvalAll(prim, env, es[1..])
  }

  /** And, Or, Max and Min do not look at the order of their operands. */
  ghost predicate Symmetric(prim: Prim) {
    forall f, xs, ys :: Commutative(f) && multiset(xs) == multiset(ys) ==> prim(f, xs) == prim(f, ys)
  }

  // ----- the normaliser -----

  function KeyLeq(key: Key): (Expr, Expr) -> bool {
    (a, b) => StrLeq(key(a), key(b))
  }

  function SortCommutative(key: Key, f: string, args: seq<Expr>): seq<Expr> {
    if Commutative(f) then Sort(args, KeyLeq(key)) else args
  }

  function NotNeutral(f: string): Expr -> bool {
    (e: Expr) => e != Num(Neutral(f))
  }

  /** Neutral operands disappear only when at most one other operand is left. */
  function DropNeutral(f: string, args: seq<Expr>): Option<Expr> {
    if !Arithmetic(f) then None
    else
      var kept := Filter(NotNeutral(f), args);
      if kept == [] then Some(Num(Neutral(f)))
      else if |kept| == 1 then Some(kept[0])
      else None
  }

  function SimplifyPow(f: string, args: seq<Expr>): Option<Expr> {
    if f == "Pow" && |args| == 2 && args[1] == Num(1.0) then Some(args[0]) else None
  }

  function Simplify(f: string, args: seq<Expr>): Expr {
    match DropNeutral(f, args)
    case Some(r) => r
    case None =>
      match SimplifyPow(f, args)
      case Some(r) => r
      case None => App(f, args)
  }

  function Rebuild(key: Key, f: string, args: seq<Expr>): Expr {
    Simplify(f, SortCommutative(key, f, args))
  }

  function Normalize(key: Key, e: Expr): Expr
    decreases e, 1
  {
    match e
    case Num(_) => e
    case Sym(_) => e
    case App(f, args) => Rebuild(key, f, NormalizeAll(key, args))
  }

  function NormalizeAll(key: Key, es: seq<Expr>): (r: seq<Expr>)
    ensures |r| == |es| && forall i :: 0 <= i < |es| ==> r[i] == Normalize(key, es[i])
    decreases es, 0
  {
    if es == [] then [] else [Normalize(key, es[0])] + NormalizeAll(key, es[1..])
  }

  // ----- sorting by the key -----

  lemma {:induction false} KeyPreorder(key: Key)
    ensures TotalPreorder(KeyLeq(key))
  {
    hide StrLeq;
    var leq := KeyLeq(key);
    forall a, b ensures leq(a, b) || leq(b, a) {
      StrLinear(key(a), key(b));
    }
    forall a, b, c | leq(a, b) && leq(b, c) ensures leq(a, c) {
      StrTrans(key(a), key(b), key(c));
    }
  }

  lemma {:induction false} SortedArgs(key: Key, f: string, args: seq<Expr>)
    ensures var s := SortCommutative(key, f, args);
            multiset(s) == multiset(args) && |s| == |args| && (Commutative(f) ==> Sorted(s, KeyLeq(key)))
    ensures forall e :: e in SortCommutative(key, f, args) <==> e in args
  {
    if Commutative(f) {
      KeyPreorder(key);
      SortCorrect(args, KeyLeq(key));
      SortMembers(args, KeyLeq(key));
    }
  }

  // ----- the normaliser keeps the meaning -----

  lemma {:induction false} EvalAllIsMap(prim: Prim, env: Env, es: seq<Expr>)
    ensures EvalAll(prim, env, es) == Map(e => Eval(prim, env, e), es)
  {
  }

  lemma {:induction false} BindPerm(prim: Prim, env: Env, f: string, cs: seq<Expr>, ds: seq<Expr>)
    requires Symmetric(prim) && Commutative(f) && multiset(cs) == multiset(ds)
    ensures Bind(prim, f, Collect(EvalAll(prim, env, cs))) == Bind(prim, f, Collect(EvalAll(prim, env, ds)))
  {
    hide Eval, Total;
    var vs, ws := EvalAll(prim, env, cs), EvalAll(prim, env, ds);
    EvalAllIsMap(prim, env, cs);
    EvalAllIsMap(prim, env, ds);
    MapPerm(e => Eval(prim, env, e), cs, ds);
    AllSomePerm(vs, ws);
    AllSomePerm(ws, vs);
    MapPerm(Get, vs, ws);
    TotalPerm(f, Map(Get, vs), Map(Get, ws));
  }

  lemma {:induction false} AllSomePerm(vs: seq<Option<real>>, ws: seq<Option<real>>)
    requires multiset(vs) == multiset(ws)
    ensures AllSome(vs) ==> AllSome(ws)
  {
    if AllSome(vs) {
      forall i | 0 <= i < |ws| ensures ws[i].Some? {
        assert ws[i] in multiset(vs);
      }
    }
  }

  lemma {:induction false} NeutralKept(prim: Prim, env: Env, f: string, es: seq<Expr>)
    requires Arithmetic(f)
    ensures Bind(prim, f, Collect(EvalAll(prim, env, Filter(NotNeutral(f), es)))) == Bind(prim, f, Collect(EvalAll(prim, env, es)))
  {
    if es != [] {
      NeutralKept(prim, env, f, es[1..]);
      var rest := Filter(NotNeutral(f), es[1..]);
      BindCons(prim, env, f, es[0], es[1..]);
      BindCons(prim, env, f, es[0], rest);
      assert es == [es[0]] + es[1..];
      if es[0] == Num(Neutral(f)) {
        assert Filter(NotNeutral(f), es) == [] + rest == rest;
      }
    }
  }

  /** The value of a sum or product in terms of its first operand and the rest. */
  lemma {:induction false} BindCons(prim: Prim, env: Env, f: string, e: Expr, es: seq<Expr>)
    requires Arithmetic(f)
    ensures var first := Eval(prim, env, e);
            var rest := Bind(prim, f, Collect(EvalAll(prim, env, es)));
            Bind(prim, f, Collect(EvalAll(prim, env, [e] + es))) ==
            if first.None? || rest.None? then None
            else Some(Combine(f, first.value, rest.value))
  {
    hide Total;
    var tail := EvalAll(prim, env, es);
    assert ([e] + es)[1..] == es;
    assert EvalAll(prim, env, [e] + es) == [Eval(prim, env, e)] + tail;
    CollectCons(Eval(prim, env, e), tail);
    TotalCons(f, Get(Eval(prim, env, e)), Map(Get, tail));
  }

  lemma {:induction false} CollectCons(o: Option<real>, os: seq<Option<real>>)
    ensures Collect([o] + os) == if o.None? || Collect(os).None? then None else Some([o.value] + Collect(os).value)
  {
    var all := [o] + os;
    assert all[1..] == os;
    if o.Some? && AllSome(os) {
      assert forall i :: 0 <= i < |all| ==> all[i] == if i == 0 then o else os[i - 1];
    } else if AllSome(all) {
      assert all[0] == o;
      forall i | 0 <= i < |os| ensures os[i].Some? {
        assert all[i + 1] == os[i];
      }
    }
  }

  lemma {:induction false} CollectSome(os: seq<Option<real>>, xs: seq<real>)
    requires |os| == |xs| && forall i :: 0 <= i < |os| ==> os[i] == Some(xs[i])
    ensures Collect(os) == Some(xs)
  {
    forall i | 0 <= i < |os| ensures Map(Get, os)[i] == xs[i] {
      assert Get(os[i]) == xs[i];
    }
    assert Map(Get, os) == xs;
  }

  lemma {:induction false} SimplifyMeaning(prim: Prim, env: Env, f: string, args: seq<Expr>)
    ensures Eval(prim, env, Simplify(f, args)) == Bind(prim, f, Collect(EvalAll(prim, env, args)))
  {
    hide Total, Collect, Filter;
    if DropNeutral(f, args).Some? {
      NeutralKept(prim, env, f, args);
      SmallMeaning(prim, env, f, Filter(NotNeutral(f), args));
    } else if SimplifyPow(f, args).Some? {
      PowOne(prim, env, args);
    }
  }

  lemma {:induction false} SmallMeaning(prim: Prim, env: Env, f: string, kept: seq<Expr>)
    requires Arithmetic(f) && |kept| <= 1
    ensures Bind(prim, f, Collect(EvalAll(prim, env, kept))) ==
            if kept == [] then Some(Neutral(f)) else Eval(prim, env, kept[0])
  {
    hide Total;
    if kept == [] {
      CollectSome(EvalAll(prim, env, kept), []);
      SmallTotals(f, 0.0);
    } else {
      var v := Eval(prim, env, kept[0]);
      assert EvalAll(prim, env, kept) == [v];
      SmallTotals(f, Get(v));
      if v.Some? {
        CollectSome([v], [v.value]);
      } else {
        assert [v][0].None? && !AllSome([v]);
      }
    }
  }

  lemma {:induction false} PowOne(prim: Prim, env: Env, args: seq<Expr>)
    requires |args| == 2 && args[1] == Num(1.0)
    ensures Bind(prim, "Pow", Collect(EvalAll(prim, env, args))) == Eval(prim, env, args[0])
  {
    var vs := EvalAll(prim, env, args);
    assert Eval(prim, env, Num(1.0)) == Some(1.0);
    if vs[0].Some? {
      CollectSome(vs, [vs[0].value, 1.0]);
    }
  }

  /** Normalising an expression does not change its value, defined or not. */
  lemma {:induction false} NormalizeMeaning(key: Key, prim: Prim, env: Env, e: Expr)
    requires Symmetric(prim)
    ensures Eval(prim, env, Normalize(key, e)) == Eval(prim, env, e)
    decreases e
  {
    hide Symmetric, Simplify, KeyLeq, Sort, Collect, Bind;
    if e.App? {
      var args := NormalizeAll(key, e.args);
      forall i | 0 <= i < |e.args| ensures Eval(prim, env, args[i]) == Eval(prim, env, e.args[i]) {
        NormalizeMeaning(key, prim, env, e.args[i]);
      }
      assert EvalAll(prim, env, args) == EvalAll(prim, env, e.args);
      SortedArgs(key, e.func, args);
      SimplifyMeaning(prim, env, e.func, SortCommutative(key, e.func, args));
      if Commutative(e.func) {
        BindPerm(prim, env, e.func, SortCommutative(key, e.func, args), args);
      }
    }
  }

  // ----- idempotence -----

  /** Every expression whose operands are normal and sorted simplifies to one
      that a second pass leaves alone. */
  lemma {:induction false} SimplifyTwice(key: Key, f: string, args: seq<Expr>)
    requires Commutative(f) ==> Sorted(args, KeyLeq(key))
    ensures var r := Simplify(f, args);
            r.Num? || r in args || (r == App(f, args) && Rebuild(key, f, args) == r)
  {
    if Arithmetic(f) {
      forall e ensures e in Filter(NotNeutral(f), args) ==> e in args {
        FilterMembers(NotNeutral(f), args, e);
      }
    }
    if Commutative(f) {
      SortFixed(args, KeyLeq(key));
    }
  }

  /** Normalising twice is normalising once, whatever the sort key. */
  lemma {:induction false} NormalizeIdempotent(key: Key, e: Expr)
    ensures Normalize(key, Normalize(key, e)) == Normalize(key, e)
    decreases e
  {
    hide Simplify, KeyLeq, Sort;
    if e.App? {
      var args := NormalizeAll(key, e.args);
      var sorted := SortCommutative(key, e.func, args);
      forall a | a in args ensures Normalize(key, a) == a {
        var i :| 0 <= i < |args| && args[i] == a;
        NormalizeIdempotent(key, e.args[i]);
      }
      SortedArgs(key, e.func, args);
      SimplifyTwice(key, e.func, sorted);
      forall i | 0 <= i < |sorted| ensures NormalizeAll(key, sorted)[i] == sorted[i] {
        assert sorted[i] in sorted;
      }
      assert NormalizeAll(key, sorted) == sorted;
    }
  }

  // ----- reordering, and the limits of neutral removal -----

  /** One reordering of commutative operands, at any depth. */
  ghost predicate Reordering(a: Expr, b: Expr)
    decreases a
  {
    && a.App? && b.App? && a.func == b.func
    && (|| (Commutative(a.func) && multiset(a.args) == multiset(b.args))
        || (&& |a.args| == |b.args|
            && exists i :: 0 <= i < |a.args| && Reordering(a.args[i], b.args[i]) && b.args == a.args[i := b.args[i]]))
  }

  /** The sort key tells apart the normalised operands of each operator in `e`. */
  ghost predicate Distinguishes(key: Key, e: Expr)
    decreases e
  {
    e.App? ==> (forall a :: a in e.args ==> Distinguishes(key, a)) && ToldApart(key, e.args)
  }

  ghost predicate ToldApart(key: Key, es: seq<Expr>) {
    forall a, b :: a in es && b in es && key(Normalize(key, a)) == key(Normalize(key, b)) ==> Normalize(key, a) == Normalize(key, b)
  }

  lemma {:induction false} SortOperands(key: Key, cs: seq<Expr>, ds: seq<Expr>)
    requires multiset(cs) == multiset(ds)
    requires forall a, b :: a in cs && b in cs && key(a) == key(b) ==> a == b
    ensures Sort(cs, KeyLeq(key)) == Sort(ds, KeyLeq(key))
  {
    hide StrLeq, Sort;
    KeyPreorder(key);
    SortByKey(key, KeyLeq(key), cs, ds);
  }

  /** Reordering commutative operands anywhere does not change the normal form. */
  lemma {:induction false} ReorderingNormal(key: Key, a: Expr, b: Expr)
    requires Reordering(a, b) && Distinguishes(key, a)
    ensures Normalize(key, a) == Normalize(key, b)
    decreases a
  {
    hide Normalize, Simplify, KeyLeq, Sort;
    NormalizeApp(key, a.func, a.args);
    NormalizeApp(key, b.func, b.args);
    if Commutative(a.func) && multiset(a.args) == multiset(b.args) {
      RootReordering(key, a.func, a.args, b.args);
    } else {
      var i :| 0 <= i < |a.args| && Reordering(a.args[i], b.args[i]) && b.args == a.args[i := b.args[i]];
      assert a.args[i] in a.args;
      ReorderingNormal(key, a.args[i], b.args[i]);
      NormalizeUpdated(key, a.args, b.args, i);
    }
  }

  lemma {:induction false} NormalizeUpdated(key: Key, xs: seq<Expr>, ys: seq<Expr>, i: nat)
    requires i < |xs| == |ys| && ys == xs[i := ys[i]] && Normalize(key, xs[i]) == Normalize(key, ys[i])
    ensures NormalizeAll(key, xs) == NormalizeAll(key, ys)
  {
  }

  lemma {:induction false} NormalizeConcat(key: Key, xs: seq<Expr>, ys: seq<Expr>)
    ensures NormalizeAll(key, xs + ys) == NormalizeAll(key, xs) + NormalizeAll(key, ys)
  {
  }

  lemma {:induction false} RootReordering(key: Key, f: string, xs: seq<Expr>, ys: seq<Expr>)
    requires Commutative(f) && multiset(xs) == multiset(ys) && Distinguishes(key, App(f, xs))
    ensures SortCommutative(key, f, NormalizeAll(key, xs)) == SortCommutative(key, f, NormalizeAll(key, ys))
  {
    NormalsApart(key, xs);
    hide Normalize, NormalizeAll, KeyLeq, Sort, Distinguishes;
    var n := e => Normalize(key, e);
    NormalizeAllIsMap(key, xs);
    NormalizeAllIsMap(key, ys);
    MapPerm(n, xs, ys);
    SortOperands(key, NormalizeAll(key, xs), NormalizeAll(key, ys));
  }

  lemma {:induction false} NormalizeAllIsMap(key: Key, xs: seq<Expr>)
    ensures NormalizeAll(key, xs) == Map(e => Normalize(key, e), xs)
  {
    hide Normalize;
  }

  lemma {:induction false} NormalsApart(key: Key, xs: seq<Expr>)
    requires ToldApart(key, xs)
    ensures var cs := NormalizeAll(key, xs); forall x, y :: x in cs && y in cs && key(x) == key(y) ==> x == y
  {
    hide Normalize;
    var cs := NormalizeAll(key, xs);
    forall x, y | x in cs && y in cs && key(x) == key(y) ensures x == y {
      var i :| 0 <= i < |cs| && cs[i] == x;
      var j :| 0 <= j < |cs| && cs[j] == y;
      assert xs[i] in xs && xs[j] in xs;
    }
  }

  lemma {:induction false} ToldApartMembers(key: Key, xs: seq<Expr>, ys: seq<Expr>)
    requires ToldApart(key, xs) && multiset(xs) == multiset(ys)
    ensures ToldApart(key, ys) && forall e :: e in ys <==> e in xs
  {
    hide Normalize;
    forall e ensures e in ys <==> e in xs {
      assert e in multiset(ys) <==> e in multiset(xs);
    }
  }

  lemma {:induction false} ToldApartUpdate(key: Key, xs: seq<Expr>, ys: seq<Expr>, i: nat)
    requires ToldApart(key, xs) && i < |xs| == |ys| && ys == xs[i := ys[i]] && Normalize(key, ys[i]) == Normalize(key, xs[i])
    ensures ToldApart(key, ys) && forall e :: e in ys ==> e in xs || e == ys[i]
  {
    hide Normalize;
    assert forall j :: 0 <= j < |xs| ==> Normalize(key, ys[j]) == Normalize(key, xs[j]) && xs[j] in xs;
    forall e ensures e in ys ==> e in xs || e == ys[i] {
      if j :| 0 <= j < |ys| && ys[j] == e { assert j != i ==> xs[j] == e; }
    }
  }

  /** The sort key goes on telling the operands apart after a reordering. */
  lemma {:induction false} ReorderingDistinguishes(key: Key, a: Expr, b: Expr)
    requires Reordering(a, b) && Distinguishes(key, a)
    ensures Distinguishes(key, b)
    decreases a
  {
    hide Normalize, Commutative, ToldApart;
    if multiset(a.args) == multiset(b.args) {
      ToldApartMembers(key, a.args, b.args);
    } else {
      var i :| 0 <= i < |a.args| && Reordering(a.args[i], b.args[i]) && b.args == a.args[i := b.args[i]];
      assert a.args[i] in a.args;
      ReorderingDistinguishes(key, a.args[i], b.args[i]);
      ReorderingNormal(key, a.args[i], b.args[i]);
      ToldApartUpdate(key, a.args, b.args, i);
    }
  }

  /** Reorderings one after the other. */
  ghost predicate Reorderings(p: seq<Expr>) {
    p != [] && forall i, j :: 0 <= i < j < |p| && j == i + 1 ==> Reordering(p[i], p[j])
  }

  /** Any number of reorderings, at any depth, keep the normal form. */
  lemma {:induction false} ReorderingsNormal(key: Key, p: seq<Expr>)
    requires Reorderings(p) && Distinguishes(key, p[0])
    ensures Normalize(key, p[0]) == Normalize(key, p[|p| - 1])
    decreases |p|
  {
    hide Normalize, Reordering, Distinguishes;
    if |p| > 1 {
      ReorderingNormal(key, p[0], p[1]);
      ReorderingDistinguishes(key, p[0], p[1]);
      ReorderingsNormal(key, p[1..]);
    }
  }

  lemma {:induction false} NormalizeNum(key: Key, e: Expr)
    ensures e.Num? ==> Normalize(key, e) == e
  {
  }

  lemma {:induction false} NormalizeApp(key: Key, f: string, args: seq<Expr>)
    ensures Normalize(key, App(f, args)) == Rebuild(key, f, NormalizeAll(key, args))
  {
  }
}

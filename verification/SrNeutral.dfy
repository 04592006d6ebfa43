/** What the normaliser of the DAG compiler does with neutral operands: exactly when adding
    one, at any depth, goes unnoticed. */
module SrNeutral {
  import opened Ordering
  import opened Sequences
  import opened Operators
  import opened SrExpr

  /** How many operands are still there after normalising and dropping neutral ones. */
  function Significant(key: Key, f: string, args: seq<Expr>): nat {
    |Filter(NotNeutral(f), NormalizeAll(key, args))|
  }

  lemma {:induction false} RootInsertion(key: Key, f: string, us: seq<Expr>, ws: seq<Expr>)
    requires Arithmetic(f)
    ensures var z := Num(Neutral(f));
            Normalize(key, App(f, us + [z] + ws)) == Normalize(key, App(f, us + ws)) <==> Significant(key, f, us + ws) <= 1
    ensures Significant(key, f, us + ws) > 1 ==>
            Normalize(key, App(f, us + [Num(Neutral(f))] + ws)).App? && Normalize(key, App(f, us + ws)).App?
  {
    hide Sort, KeyLeq, Filter, Simplify, Normalize;
    var z := Num(Neutral(f));
    var nu, nw := NormalizeAll(key, us), NormalizeAll(key, ws);
    NormalizeNum(key, z);
    NormalizeConcat(key, us, ws);
    NormalizeConcat(key, us + [z], ws);
    NormalizeConcat(key, us, [z]);
    assert NormalizeAll(key, [z]) == [z];
    SameSignificant(f, nu, nw);
    NormalizeApp(key, f, us + ws);
    NormalizeApp(key, f, us + [z] + ws);
    CompareRebuilt(key, f, nu + nw, nu + [z] + nw);
  }

  lemma {:induction false} CompareRebuilt(key: Key, f: string, cs: seq<Expr>, ds: seq<Expr>)
    requires Arithmetic(f) && |cs| != |ds| && Filter(NotNeutral(f), cs) == Filter(NotNeutral(f), ds)
    ensures Rebuild(key, f, cs) == Rebuild(key, f, ds) <==> |Filter(NotNeutral(f), cs)| <= 1
    ensures |Filter(NotNeutral(f), cs)| > 1 ==> Rebuild(key, f, cs).App? && Rebuild(key, f, ds).App?
  {
    hide Sort, KeyLeq, Filter;
    var s, t := SortCommutative(key, f, cs), SortCommutative(key, f, ds);
    SortedArgs(key, f, cs);
    SortedArgs(key, f, ds);
    FilterPerm(NotNeutral(f), s, cs);
    FilterPerm(NotNeutral(f), t, ds);
    var ks, kt := Filter(NotNeutral(f), s), Filter(NotNeutral(f), t);
    assert |multiset(ks)| == |multiset(kt)| == |multiset(Filter(NotNeutral(f), cs))|;
    if |ks| == 1 {
      assert ks[0] in multiset(kt);
    }
  }

  lemma {:induction false} SameSignificant(f: string, us: seq<Expr>, ws: seq<Expr>)
    ensures Filter(NotNeutral(f), us + [Num(Neutral(f))] + ws) == Filter(NotNeutral(f), us + ws)
  {
    var z := Num(Neutral(f));
    FilterConcat(NotNeutral(f), us + [z], ws);
    FilterConcat(NotNeutral(f), us, [z]);
    FilterConcat(NotNeutral(f), us, ws);
    assert Filter(NotNeutral(f), [z]) == [];
  }

  // ----- at any depth -----

  /** `b` is `a` with the neutral element of `f` put between the operands `us` and `ws` of
      one application of `f`. */
  ghost predicate Inserted(a: Expr, b: Expr, f: string, us: seq<Expr>, ws: seq<Expr>)
    decreases a
  {
    || (a == App(f, us + ws) && b == App(f, us + [Num(Neutral(f))] + ws))
    || InsertedBelow(a, b, f, us, ws)
  }

  ghost predicate InsertedBelow(a: Expr, b: Expr, f: string, us: seq<Expr>, ws: seq<Expr>)
    decreases a, 0
  {
    && a.App? && b.App? && a.func == b.func && |a.args| == |b.args|
    && exists i :: 0 <= i < |a.args| && b.args == a.args[i := b.args[i]] && Inserted(a.args[i], b.args[i], f, us, ws)
  }

  /** Both are applications, and different ones. */
  predicate Apart(x: Expr, y: Expr) {
    x.App? && y.App? && x != y
  }

  lemma {:induction false} UpdatedParts(cs: seq<Expr>, ds: seq<Expr>, i: nat)
    requires i < |cs| == |ds| && ds == cs[i := ds[i]]
    ensures cs == cs[..i] + [cs[i]] + cs[i + 1..] && ds == cs[..i] + [ds[i]] + cs[i + 1..]
  {
  }

  lemma {:induction false} UpdatedMultiset(cs: seq<Expr>, ds: seq<Expr>, i: nat)
    requires i < |cs| == |ds| && ds == cs[i := ds[i]] && cs[i] != ds[i]
    ensures multiset(cs) != multiset(ds)
  {
    UpdatedParts(cs, ds, i);
    var rest := multiset(cs[..i]) + multiset(cs[i + 1..]);
    assert multiset(cs) == rest + multiset{cs[i]} && multiset(ds) == rest + multiset{ds[i]};
    assert multiset(cs)[cs[i]] == rest[cs[i]] + 1 && multiset(ds)[cs[i]] == rest[cs[i]];
  }

  /** What is kept of two operand lists that differ in one kept operand. */
  lemma {:induction false} UpdatedKept(f: string, cs: seq<Expr>, ds: seq<Expr>, i: nat)
    requires i < |cs| == |ds| && ds == cs[i := ds[i]] && cs[i].App? && ds[i].App?
    ensures var p := NotNeutral(f);
            && |Filter(p, cs)| == |Filter(p, ds)| >= 1
            && (|Filter(p, cs)| == 1 ==> Filter(p, cs) == [cs[i]] && Filter(p, ds) == [ds[i]])
  {
    var p := NotNeutral(f);
    UpdatedParts(cs, ds, i);
    var l, r := cs[..i], cs[i + 1..];
    FilterConcat(p, l + [cs[i]], r);
    FilterConcat(p, l, [cs[i]]);
    FilterConcat(p, l + [ds[i]], r);
    FilterConcat(p, l, [ds[i]]);
    assert Filter(p, [cs[i]]) == [cs[i]] && Filter(p, [ds[i]]) == [ds[i]];
  }

  lemma {:induction false} SumsApart(key: Key, f: string, cs: seq<Expr>, ds: seq<Expr>, i: nat)
    requires Arithmetic(f) && i < |cs| == |ds| && ds == cs[i := ds[i]] && Apart(cs[i], ds[i])
    ensures Apart(Rebuild(key, f, cs), Rebuild(key, f, ds))
  {
    hide Sort, KeyLeq, Filter;
    var s, t := SortCommutative(key, f, cs), SortCommutative(key, f, ds);
    SortedArgs(key, f, cs);
    SortedArgs(key, f, ds);
    FilterPerm(NotNeutral(f), s, cs);
    FilterPerm(NotNeutral(f), t, ds);
    UpdatedMultiset(cs, ds, i);
    UpdatedKept(f, cs, ds, i);
    var ks, kt := Filter(NotNeutral(f), s), Filter(NotNeutral(f), t);
    assert |multiset(ks)| == |multiset(Filter(NotNeutral(f), cs))| && |multiset(kt)| == |multiset(Filter(NotNeutral(f), ds))|;
    if |ks| == 1 {
      assert ks[0] in multiset(Filter(NotNeutral(f), cs)) && kt[0] in multiset(Filter(NotNeutral(f), ds));
    }
  }

  lemma {:induction false} OthersApart(key: Key, f: string, cs: seq<Expr>, ds: seq<Expr>, i: nat)
    requires !Arithmetic(f) && i < |cs| == |ds| && ds == cs[i := ds[i]] && Apart(cs[i], ds[i])
    ensures Apart(Rebuild(key, f, cs), Rebuild(key, f, ds))
  {
    hide Sort, KeyLeq;
    SortedArgs(key, f, cs);
    SortedArgs(key, f, ds);
    UpdatedMultiset(cs, ds, i);
    assert f == "Pow" ==> !Commutative(f);
  }

  /** A difference between operands in normal form shows in the whole. */
  lemma {:induction false} DifferenceShows(key: Key, a: Expr, b: Expr, i: nat)
    requires a.App? && b.App? && a.func == b.func && i < |a.args| == |b.args| && b.args == a.args[i := b.args[i]]
    requires Apart(Normalize(key, a.args[i]), Normalize(key, b.args[i]))
    ensures Apart(Normalize(key, a), Normalize(key, b))
  {
    hide Normalize, Rebuild;
    NormalizeApp(key, a.func, a.args);
    NormalizeApp(key, b.func, b.args);
    var cs, ds := NormalizeAll(key, a.args), NormalizeAll(key, b.args);
    assert ds == cs[i := ds[i]];
    if Arithmetic(a.func) { SumsApart(key, a.func, cs, ds, i); } else { OthersApart(key, a.func, cs, ds, i); }
  }

  /** An insertion that leaves two significant operands shows at every level above it. */
  lemma {:induction false} InsertionShows(key: Key, a: Expr, b: Expr, f: string, us: seq<Expr>, ws: seq<Expr>)
    requires Arithmetic(f) && Inserted(a, b, f, us, ws) && Significant(key, f, us + ws) > 1
    ensures Apart(Normalize(key, a), Normalize(key, b))
    decreases a
  {
    hide Normalize, Significant, Arithmetic, Apart;
    if a == App(f, us + ws) && b == App(f, us + [Num(Neutral(f))] + ws) {
      RootShows(key, f, us, ws);
    } else {
      var i :| 0 <= i < |a.args| && b.args == a.args[i := b.args[i]] && Inserted(a.args[i], b.args[i], f, us, ws);
      InsertionShows(key, a.args[i], b.args[i], f, us, ws);
      DifferenceShows(key, a, b, i);
    }
  }

  lemma {:induction false} RootShows(key: Key, f: string, us: seq<Expr>, ws: seq<Expr>)
    requires Arithmetic(f) && Significant(key, f, us + ws) > 1
    ensures Apart(Normalize(key, App(f, us + ws)), Normalize(key, App(f, us + [Num(Neutral(f))] + ws)))
  {
    hide Normalize, Significant;
    RootInsertion(key, f, us, ws);
  }

  lemma {:induction false} InsertionHidden(key: Key, a: Expr, b: Expr, f: string, us: seq<Expr>, ws: seq<Expr>)
    requires Arithmetic(f) && Inserted(a, b, f, us, ws) && Significant(key, f, us + ws) <= 1
    ensures Normalize(key, a) == Normalize(key, b)
    decreases a
  {
    hide Normalize, Rebuild, Significant;
    if a == App(f, us + ws) && b == App(f, us + [Num(Neutral(f))] + ws) {
      RootInsertion(key, f, us, ws);
    } else {
      var i :| 0 <= i < |a.args| && b.args == a.args[i := b.args[i]] && Inserted(a.args[i], b.args[i], f, us, ws);
      InsertionHidden(key, a.args[i], b.args[i], f, us, ws);
      NormalizeApp(key, a.func, a.args);
      NormalizeApp(key, b.func, b.args);
      NormalizeUpdated(key, a.args, b.args, i);
    }
  }

  /** Adding a neutral operand, at any depth, leaves the normal form alone exactly when at most
      one significant operand stands beside it; with two or more the normaliser keeps it. */
  lemma {:induction false} NeutralInsertion(key: Key, a: Expr, b: Expr, f: string, us: seq<Expr>, ws: seq<Expr>)
    requires Arithmetic(f) && Inserted(a, b, f, us, ws)
    ensures Normalize(key, a) == Normalize(key, b) <==> Significant(key, f, us + ws) <= 1
  {
    hide Normalize, Inserted, Significant;
    if Significant(key, f, us + ws) <= 1 {
      InsertionHidden(key, a, b, f, us, ws);
    } else {
      InsertionShows(key, a, b, f, us, ws);
    }
  }

  // ----- the shape of normal forms -----

  /** What becomes of each application: with at most one significant operand a sum or product is
      that operand or its neutral element, a power of one is its base, and anything else keeps
      its operator and all its operands, sorted exactly for the six commutative operators. */
  lemma {:induction false} NormalShape(key: Key, f: string, args: seq<Expr>)
    ensures var ns, r := NormalizeAll(key, args), Normalize(key, App(f, args));
            var kept := Filter(NotNeutral(f), ns);
            if (f == "Add" || f == "Mul") && |kept| <= 1 then
              r == if kept != [] then kept[0] else if f == "Add" then Num(0.0) else Num(1.0)
            else if f == "Pow" && |ns| == 2 && ns[1] == Num(1.0) then r == ns[0]
            else
              && r.App? && r.func == f && multiset(r.args) == multiset(ns)
              && if f in ["Add", "Mul", "And", "Or", "Max", "Min"] then Sorted(r.args, KeyLeq(key)) else r.args == ns
  {
    hide Normalize, NormalizeAll, Sort, KeyLeq, Filter;
    NormalizeApp(key, f, args);
    var ns := NormalizeAll(key, args);
    var s := SortCommutative(key, f, ns);
    SortedArgs(key, f, ns);
    FilterPerm(NotNeutral(f), s, ns);
    var ks, kn := Filter(NotNeutral(f), s), Filter(NotNeutral(f), ns);
    assert |multiset(ks)| == |multiset(kn)|;
    if |ks| == 1 {
      assert ks[0] in multiset(kn);
    }
    assert f in ["Add", "Mul", "And", "Or", "Max", "Min"] <==> Commutative(f);
  }

  /** The order of two variables that the key tells apart is forgotten exactly for the six
      commutative operators. */
  lemma {:induction false} OrderForgotten(key: Key, f: string, x: Expr, y: Expr)
    requires x.Sym? && y.Sym? && key(x) != key(y)
    ensures Normalize(key, App(f, [x, y])) == Normalize(key, App(f, [y, x])) <==> f in ["Add", "Mul", "And", "Or", "Max", "Min"]
  {
    hide Normalize, Rebuild;
    NormalizePair(key, f, x, y);
    NormalizePair(key, f, y, x);
    if f in ["Add", "Mul", "And", "Or", "Max", "Min"] {
      RebuildPair(key, f, x, y);
    } else {
      KeptAsIs(key, f, [x, y]);
      KeptAsIs(key, f, [y, x]);
      assert [x, y][0] != [y, x][0];
    }
  }

  lemma {:induction false} NormalizePair(key: Key, f: string, x: Expr, y: Expr)
    requires x.Sym? && y.Sym?
    ensures Normalize(key, App(f, [x, y])) == Rebuild(key, f, [x, y])
  {
    hide Rebuild;
    NormalizeSym(key, x);
    NormalizeSym(key, y);
    hide Normalize;
    NormalizeApp(key, f, [x, y]);
    assert NormalizeAll(key, [x, y]) == [x, y];
  }

  lemma {:induction false} RebuildPair(key: Key, f: string, x: Expr, y: Expr)
    requires Commutative(f) && key(x) != key(y)
    ensures Rebuild(key, f, [x, y]) == Rebuild(key, f, [y, x])
  {
    hide Sort, KeyLeq, Simplify;
    assert multiset([x, y]) == multiset([y, x]);
    SortOperands(key, [x, y], [y, x]);
  }

  lemma {:induction false} KeptAsIs(key: Key, f: string, es: seq<Expr>)
    requires f !in ["Add", "Mul", "And", "Or", "Max", "Min"] && forall e :: e in es ==> e.Sym?
    ensures Rebuild(key, f, es) == App(f, es)
  {
    assert !Commutative(f) && !Arithmetic(f);
    assert |es| == 2 ==> es[1] in es;
  }

  lemma {:induction false} NormalizeSym(key: Key, e: Expr)
    ensures e.Sym? ==> Normalize(key, e) == e
  {
  }

  /** A power is its base exactly when its exponent is one. */
  lemma {:induction false} PowerOfOne(key: Key, a: Expr, b: Expr)
    ensures Normalize(key, App("Pow", [a, b])) == Normalize(key, a) <==> Normalize(key, b) == Num(1.0)
  {
    hide Normalize, Filter, Sort;
    NormalShape(key, "Pow", [a, b]);
    var n := Normalize(key, a);
    if n.App? && n.args != [] { NotItself(n); }
  }

  lemma {:induction false} NotItself(e: Expr)
    requires e.App? && e.args != []
    ensures e.args[0] != e
    decreases e
  {
    if e.args[0] == e { NotItself(e.args[0]); }
  }
}

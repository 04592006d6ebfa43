/** What the normal forms behind the expression key look like. */
module ExpressionForms {
  import opened Wrappers
  import opened Ordering
  import opened Sequences
  import opened Text
  import opened Operators
  import opened ExpressionKey

  // ----- constant folding -----

  /** Built from constants, sums and products only. */
  predicate Ground(a: Ast)
    decreases a
  {
    match a
    case Const(_) => true
    case Var(_) => false
    case Op(k, cs) => (k == "Add" || k == "Mul") && forall c :: c in cs ==> Ground(c)
  }

  /** Such an expression folds to the constant that is its value, in any environment. */
  lemma {:induction false} GroundFolds(repr: real -> string, a: Ast, env: Env, ops: Ops)
    requires Ground(a)
    ensures Normalize(repr, a) == Const(Eval(a, env, ops))
    decreases a
  {
    hide Eval, Normalize, Sort, KeyLeq, Reduce;
    match a {
      case Const(v) => LeafFolds(repr, a, env, ops);
      case Op(k, cs) =>
        var ns := NormalizeAll(repr, cs);
        forall i | 0 <= i < |cs| ensures ns[i] == Const(Eval(cs[i], env, ops)) {
          assert cs[i] in cs;
          GroundFolds(repr, cs[i], env, ops);
        }
        SortedConstants(repr, ns);
        FoldsConstants(k, Arrange(repr, k, ns));
        OpNormal(repr, k, cs);
        NormalConst(repr, a, env, ops, Total(k, Values(Arrange(repr, k, ns))));
    }
  }

  lemma {:induction false} LeafFolds(repr: real -> string, a: Ast, env: Env, ops: Ops)
    requires a.Const?
    ensures Normalize(repr, a) == Const(Eval(a, env, ops))
  {
  }

  lemma {:induction false} OpNormal(repr: real -> string, k: string, cs: seq<Ast>)
    ensures Normalize(repr, Op(k, cs)) == Reduce(k, Arrange(repr, k, NormalizeAll(repr, cs)))
  {
    hide Reduce;
  }

  lemma {:induction false} SortedConstants(repr: real -> string, ns: seq<Ast>)
    requires AllConst(ns)
    ensures AllConst(Sort(ns, KeyLeq(repr)))
  {
    hide KeyLeq, Sort;
    KeyPreorder(repr);
    SortMembers(ns, KeyLeq(repr));
    var s := Sort(ns, KeyLeq(repr));
    forall i | 0 <= i < |s| ensures s[i].Const? {
      assert s[i] in s;
    }
  }

  lemma {:induction false} FoldsConstants(k: string, cs: seq<Ast>)
    requires (k == "Add" || k == "Mul") && AllConst(cs)
    ensures Reduce(k, cs) == Const(Total(k, Values(cs)))
  {
    assert Arithmetic(k);
  }

  /** A constant as the normal form is the value, since normalising keeps it; the remaining
      operators do not occur, so any that are symmetric will do. */
  lemma {:induction false} NormalConst(repr: real -> string, a: Ast, env: Env, ops: Ops, x: real)
    requires Ground(a) && Normalize(repr, a) == Const(x)
    ensures x == Eval(a, env, ops)
  {
    hide Normalize;
    var none: Ops := (k: string, xs: seq<real>) => 0.0;
    NormalizeMeaning(repr, a, env, none);
    GroundValue(a, env, ops, none);
    assert Eval(Const(x), env, none) == x;
  }

  lemma {:induction false} GroundValue(a: Ast, env: Env, ops: Ops, other: Ops)
    requires Ground(a)
    ensures Eval(a, env, ops) == Eval(a, env, other)
    decreases a
  {
    if a.Op? {
      forall i | 0 <= i < |a.children| ensures Eval(a.children[i], env, ops) == Eval(a.children[i], env, other) {
        assert a.children[i] in a.children;
        GroundValue(a.children[i], env, ops, other);
      }
      assert EvalAll(a.children, env, ops) == EvalAll(a.children, env, other);
    }
  }

  // ----- the shape of normal forms -----

  /** Sums and products have two or more operands, one of them no constant, and no neutral
      one; operands of the six commutative operators stand in the order of their texts. */
  ghost predicate Reduced(repr: real -> string, a: Ast)
    decreases a
  {
    a.Op? ==>
      && (forall c :: c in a.children ==> Reduced(repr, c))
      && (a.kind == "Add" || a.kind == "Mul" ==> |a.children| >= 2 && exists c :: c in a.children && !c.Const?)
      && (a.kind == "Add" ==> Const(0.0) !in a.children)
      && (a.kind == "Mul" ==> Const(1.0) !in a.children)
      && (a.kind in ["Add", "Mul", "And", "Or", "Max", "Min"] ==> Sorted(a.children, KeyLeq(repr)))
  }

  lemma {:induction false} NormalReduced(repr: real -> string, a: Ast)
    ensures Reduced(repr, Normalize(repr, a))
    decreases a
  {
    hide Reduce, Arrange, Normalize;
    if a.Op? {
      var ns := NormalizeAll(repr, a.children);
      forall c | c in ns ensures Reduced(repr, c) {
        var i :| 0 <= i < |ns| && ns[i] == c;
        NormalReduced(repr, a.children[i]);
      }
      OpNormal(repr, a.kind, a.children);
      ArrangeReduces(repr, a.kind, ns);
    } else {
      LeafNormal(repr, a);
    }
  }

  lemma {:induction false} LeafNormal(repr: real -> string, a: Ast)
    requires !a.Op?
    ensures Normalize(repr, a) == a
  {
  }

  lemma {:induction false} ArrangeReduces(repr: real -> string, k: string, ns: seq<Ast>)
    requires forall c :: c in ns ==> Reduced(repr, c)
    ensures Reduced(repr, Reduce(k, Arrange(repr, k, ns)))
  {
    hide Reduced, Sort, KeyLeq, Reduce;
    var cs := Arrange(repr, k, ns);
    KeyPreorder(repr);
    if Commutative(k) {
      SortMembers(ns, KeyLeq(repr));
      SortCorrect(ns, KeyLeq(repr));
    }
    ReduceReduced(repr, k, cs);
  }

  lemma {:induction false} ReduceReduced(repr: real -> string, k: string, cs: seq<Ast>)
    requires forall c :: c in cs ==> Reduced(repr, c)
    requires k in ["Add", "Mul", "And", "Or", "Max", "Min"] ==> Sorted(cs, KeyLeq(repr))
    ensures Reduced(repr, Reduce(k, cs))
  {
    hide KeyLeq, Filter, Total;
    var kept := Filter(NotNeutral(k), cs);
    forall c ensures c in kept <==> c in cs && NotNeutral(k)(c) { FilterMembers(NotNeutral(k), cs, c); }
    if Arithmetic(k) {
      KeyPreorder(repr);
      FilterSorted(NotNeutral(k), cs, KeyLeq(repr));
      if !AllConst(cs) {
        var i :| 0 <= i < |cs| && !cs[i].Const?;
        assert cs[i] in cs && cs[i] in kept;
      }
      assert kept != [] ==> kept[0] in kept;
    }
  }

  // ----- which operators may be reordered -----

  /** The order of two different operands is forgotten exactly for the commutative operators. */
  lemma {:induction false} OrderForgotten(repr: real -> string, k: string, x: string, y: string)
    requires x != y
    ensures Normalize(repr, Op(k, [Var(x), Var(y)])) == Normalize(repr, Op(k, [Var(y), Var(x)])) <==>
            k in ["Add", "Mul", "And", "Or", "Max", "Min"]
  {
    var a, b := Var(x), Var(y);
    assert NormalizeAll(repr, [a, b]) == [a, b] && NormalizeAll(repr, [b, a]) == [b, a];
    OpNormal(repr, k, [a, b]);
    OpNormal(repr, k, [b, a]);
    hide Normalize, NormalizeAll, Reduce, Sort;
    if k in ["Add", "Mul", "And", "Or", "Max", "Min"] {
      SortTwo(repr, a, b);
    } else {
      assert !Arithmetic(k) && !Commutative(k);
      KeptAsIs(k, [a, b]);
      KeptAsIs(k, [b, a]);
      assert [a, b][0] != [b, a][0];
    }
  }

  lemma {:induction false} KeptAsIs(k: string, cs: seq<Ast>)
    requires !Arithmetic(k)
    ensures Reduce(k, cs) == Op(k, cs)
  {
  }

  lemma {:induction false} SortTwo(repr: real -> string, a: Ast, b: Ast)
    requires a.Var? && b.Var? && a != b
    ensures Sort([a, b], KeyLeq(repr)) == Sort([b, a], KeyLeq(repr))
  {
    var text: Ast -> string := (c: Ast) => Canon(repr, c);
    assert text(a)[2..] == a.name && text(b)[2..] == b.name;
    assert multiset([a, b]) == multiset{a, b} == multiset([b, a]);
    KeyPreorder(repr);
    hide Sort, StrLeq;
    SortByKey(text, KeyLeq(repr), [a, b], [b, a]);
  }

  // ----- the text itself -----

  /** The notation, on an example: kinds and operands in the order given, `C:` before constants
      and `V:` before variables, commas between operands, the version first. */
  lemma {:induction false} KeyTextSample(repr: real -> string)
    ensures KeyPayload(repr, "v1", Op("f", [Var("x"), Const(-12.0), Op("g", [])])) == Some("v1:f(V:x,C:-12,g())")
  {
    var x, c, g := Var("x"), Const(-12.0), Op("g", []);
    var cs := [x, c, g];
    SampleNormal(repr);
    SampleOperands(repr);
    hide Canon, Normalize, CanonAll, Join;
    JoinThree("V:x", "C:-12", "g()");
    SampleText(repr, cs);
    assert "v1" + ":" + "f(V:x,C:-12,g())" == "v1:f(V:x,C:-12,g())";
  }

  lemma {:induction false} SampleNormal(repr: real -> string)
    ensures var a := Op("f", [Var("x"), Const(-12.0), Op("g", [])]); Normalize(repr, a) == a
  {
    var g := Op("g", []);
    var cs := [Var("x"), Const(-12.0), g];
    assert !Commutative("f") && !Arithmetic("f") && !Commutative("g") && !Arithmetic("g");
    assert Normalize(repr, g) == g;
    assert NormalizeAll(repr, cs) == cs;
    OpNormal(repr, "f", cs);
    KeptAsIs("f", cs);
  }

  lemma {:induction false} SampleOperands(repr: real -> string)
    ensures CanonAll(repr, [Var("x"), Const(-12.0), Op("g", [])]) == ["V:x", "C:-12", "g()"]
  {
    var cs := [Var("x"), Const(-12.0), Op("g", [])];
    assert Digits(12) == Digits(1) + [Digit(2)] && Digit(1) == '1' && Digit(2) == '2';
    assert Show(repr, -12.0) == "-12";
    var none: seq<Ast> := [];
    assert CanonAll(repr, none) == [] && Join(",", []) == "";
    assert "g" + "(" + "" + ")" == "g()";
    assert Canon(repr, cs[0]) == "V:x" && Canon(repr, cs[1]) == "C:-12" && Canon(repr, cs[2]) == "g()";
    hide Canon, CanonAll;
    assert CanonAll(repr, cs) == ["V:x", "C:-12", "g()"];
  }

  lemma {:induction false} JoinThree(a: string, b: string, c: string)
    ensures Join(",", [a, b, c]) == a + "," + (b + "," + c)
  {
    assert [a, b, c][1..] == [b, c] && [b, c][1..] == [c];
    assert Join(",", [c]) == c;
    assert Join(",", [b, c]) == b + "," + Join(",", [b, c][1..]);
  }

  lemma {:induction false} SampleText(repr: real -> string, cs: seq<Ast>)
    requires Join(",", CanonAll(repr, cs)) == "V:x" + "," + ("C:-12" + "," + "g()")
    ensures Canon(repr, Op("f", cs)) == "f(V:x,C:-12,g())"
  {
    hide Join, CanonAll;
    assert "f" + "(" + ("V:x" + "," + ("C:-12" + "," + "g()")) + ")" == "f(V:x,C:-12,g())";
  }
}

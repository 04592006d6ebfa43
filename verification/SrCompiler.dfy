/** Correctness of the expression compiler: the emitted DAG computes what the
    expression means, and its nodes and edges form a tree in list order. */
module SrCompiler {
  import opened Wrappers
  import opened Ordering
  import opened Sequences
  import opened Operators
  import opened SrExpr
  import opened SrDag

  // ----- the recognised forms mean what the emitted nodes compute -----

  lemma {:induction false} EvalTwo(prim: Prim, env: Env, f: string, a: Expr, b: Expr)
    requires Arithmetic(f)
    ensures var va, vb := Eval(prim, env, a), Eval(prim, env, b);
            Eval(prim, env, App(f, [a, b])) ==
            if va.None? || vb.None? then None else Some(Combine(f, va.value, vb.value))
  {
    hide Total, Collect, Bind;
    assert [a, b] == [a] + [b] && [b] == [b] + [];
    BindCons(prim, env, f, a, [b]);
    SmallMeaning(prim, env, f, [b]);
  }

  lemma {:induction false} NegMeaning(prim: Prim, env: Env, e: Expr)
    requires UnaryNeg(e).Some?
    ensures var v := Eval(prim, env, UnaryNeg(e).value);
            Eval(prim, env, e) == if v.None? then None else Some(-v.value)
  {
    hide Bind;
    assert e == App("Mul", [Num(-1.0), e.args[1]]);
    EvalTwo(prim, env, "Mul", Num(-1.0), e.args[1]);
  }

  lemma {:induction false} InverseMeaning(prim: Prim, env: Env, e: Expr)
    requires InversePow(e).Some?
    ensures var v := Eval(prim, env, InversePow(e).value);
            Eval(prim, env, e) == if v.None? || v.value == 0.0 then None else Some(1.0 / v.value)
  {
    hide Operator, Indicator;
    var vs := EvalAll(prim, env, e.args);
    assert Eval(prim, env, Num(-1.0)) == Some(-1.0);
    if vs[0].Some? {
      CollectSome(vs, [vs[0].value, -1.0]);
    }
  }

  /** The value of a planned node, from the values of its operands. */
  function PlanValue(prim: Prim, env: Env, plan: Plan): Option<real> {
    match Collect(EvalAll(prim, env, plan.operands))
    case None => None
    case Some(xs) => NodeValue(prim, env, plan.nodeType, plan.params, xs)
  }

  lemma {:induction false} CollectTwo(prim: Prim, env: Env, a: Expr, b: Expr)
    ensures var va, vb := Eval(prim, env, a), Eval(prim, env, b);
            Collect(EvalAll(prim, env, [a, b])) ==
            if va.None? || vb.None? then None else Some([va.value, vb.value])
  {
    var vs := EvalAll(prim, env, [a, b]);
    if vs[0].Some? && vs[1].Some? {
      CollectSome(vs, [vs[0].value, vs[1].value]);
    }
  }

  lemma {:induction false} SubtractionMeaning(prim: Prim, env: Env, e: Expr)
    requires Subtraction(e).Some?
    ensures PlanValue(prim, env, Plan(MathSub, [Subtraction(e).value.0, Subtraction(e).value.1], map[])) == Eval(prim, env, e)
  {
    hide Collect, Eval;
    var (l, r) := Subtraction(e).value;
    CollectTwo(prim, env, l, r);
    assert e == App("Add", [e.args[0], e.args[1]]);
    EvalTwo(prim, env, "Add", e.args[0], e.args[1]);
    if UnaryNeg(e.args[1]).Some? {
      NegMeaning(prim, env, e.args[1]);
    } else {
      NegMeaning(prim, env, e.args[0]);
    }
  }

  lemma {:induction false} TimesInverse(x: real, y: real)
    requires y != 0.0
    ensures Combine("Mul", x, 1.0 / y) == x / y && Combine("Mul", 1.0 / y, x) == x / y
  {
  }

  lemma {:induction false} DivisionMeaning(prim: Prim, env: Env, e: Expr)
    requires Division(e).Some?
    ensures PlanValue(prim, env, Plan(MathDiv, [Division(e).value.0, Division(e).value.1], map[])) == Eval(prim, env, e)
  {
    hide Collect, Eval, Combine;
    var (l, r) := Division(e).value;
    CollectTwo(prim, env, l, r);
    assert e == App("Mul", [e.args[0], e.args[1]]);
    EvalTwo(prim, env, "Mul", e.args[0], e.args[1]);
    var vl, vr := Eval(prim, env, l), Eval(prim, env, r);
    if vl.Some? && vr.Some? && vr.value != 0.0 {
      TimesInverse(vl.value, vr.value);
    }
    if InversePow(e.args[1]).Some? {
      InverseMeaning(prim, env, e.args[1]);
    } else {
      InverseMeaning(prim, env, e.args[0]);
    }
  }

  lemma {:induction false} NegationMeaning(prim: Prim, env: Env, e: Expr)
    requires UnaryNeg(e).Some?
    ensures PlanValue(prim, env, Plan(MathNeg, [UnaryNeg(e).value], map[])) == Eval(prim, env, e)
  {
    hide Eval;
    NegMeaning(prim, env, e);
    var t := UnaryNeg(e).value;
    var vs := EvalAll(prim, env, [t]);
    if vs[0].Some? {
      CollectSome(vs, [vs[0].value]);
    }
  }

  // ----- the mapping tables agree with the evaluator -----

  /** Every table entry sends an operator to the node type that computes it. */
  lemma {:induction false} TablesAgree(f: string)
    requires Lookup(f).Some?
    ensures Computes(Lookup(f).value.nodeType) == Resolve(f)
  {
    hide Indicator, Upper, LookupUnary, LookupComparison;
    if Lookup(f) == LookupUnary(f) {
      UnaryAgree(f);
    }
  }

  lemma {:induction false} UnaryAgree(f: string)
    requires Lookup(f).Some? && Lookup(f) == LookupUnary(f)
    ensures Computes(LookupUnary(f).value.nodeType) == Resolve(f)
  {
    hide Indicator, Upper, LookupComparison, Lookup;
    if LookupUnary(f) == LookupComparison(f) {
      ComparisonsAgree(f);
    }
  }

  lemma {:induction false} ComparisonsAgree(f: string)
    requires LookupComparison(f).Some? && Lookup(f) == LookupComparison(f)
    ensures Computes(LookupComparison(f).value.nodeType) == Resolve(f)
  {
    hide Upper, Lookup, LookupIndicator;
    if LookupComparison(f) == LookupIndicator(Upper(f)) {
      IndicatorsAgree(Upper(f));
      NotOperator(f);
    }
  }

  lemma {:induction false} IndicatorsAgree(u: string)
    requires LookupIndicator(u).Some?
    ensures Computes(LookupIndicator(u).value.nodeType) == u && u in {"EMA", "SMA", "RSI", "MACD", "VWAP"}
  {
  }

  predicate IndicatorNode(t: NodeType) {
    t in {IndEma, IndSma, IndRsi, IndMacd, IndVwap}
  }

  lemma {:induction false} IndicatorNodes(u: string)
    requires LookupIndicator(u).Some?
    ensures IndicatorNode(LookupIndicator(u).value.nodeType)
  {
  }

  lemma {:induction false} OperatorNodes(f: string)
    requires Operator(f) && Lookup(f).Some?
    ensures !IndicatorNode(Lookup(f).value.nodeType)
  {
    hide LookupIndicator, Upper;
    MaxMinUnmapped();
  }

  lemma {:induction false} NotOperator(f: string)
    requires Lookup(f).Some? && Lookup(f) == LookupIndicator(Upper(f))
    ensures !Operator(f)
  {
    hide Upper, Lookup, LookupIndicator, Operator, IndicatorNode;
    IndicatorNodes(Upper(f));
    if Operator(f) { OperatorNodes(f); }
  }

  lemma {:induction false} MaxMinUnmapped()
    ensures Lookup("Max").None? && Lookup("Min").None?
  {
    assert Upper("Max")[1] == 'A' && Upper("Min")[1] == 'I';
    assert Upper("Max")[0] == 'M' && Upper("Min")[0] == 'M';
    assert |Upper("Max")| == 3 && |Upper("Min")| == 3;
  }

  /** Parameters are read under the names they are stored under. */
  ghost predicate Consistent(m: Mapping) {
    && Reads(m.nodeType) == m.paramNames && Distinct(m.paramNames)
    && (m.nodeType in {MathAdd, MathMul, MathPow} ==> m.paramNames == [] && m.arity.None?)
    && m.nodeType !in {Input, Const, MathSub, MathDiv, MathNeg}
  }

  lemma {:induction false} TableParams(f: string)
    requires Lookup(f).Some?
    ensures Consistent(Lookup(f).value)
  {
    hide LookupUnary;
    if LookupUnary(f).Some? { UnaryParams(f); }
  }

  lemma {:induction false} UnaryParams(f: string)
    requires LookupUnary(f).Some?
    ensures Consistent(LookupUnary(f).value)
  {
    hide LookupComparison;
    if LookupComparison(f).Some? { ComparisonParams(f); }
  }

  lemma {:induction false} ComparisonParams(f: string)
    requires LookupComparison(f).Some?
    ensures Consistent(LookupComparison(f).value)
  {
    hide LookupIndicator, Upper;
    if LookupIndicator(Upper(f)).Some? { IndicatorParams(Upper(f)); }
  }

  lemma {:induction false} IndicatorParams(u: string)
    requires LookupIndicator(u).Some?
    ensures Consistent(LookupIndicator(u).value)
  {
    assert "fast"[0] == 'f' && "slow"[1] == 'l' && "signal"[1] == 'i';
  }

  lemma {:induction false} TableKinds(f: string)
    requires Lookup(f).Some?
    ensures var t := Lookup(f).value.nodeType;
            && (t == MathAdd <==> f == "Add") && (t == MathMul <==> f == "Mul") && (t == MathPow <==> f == "Pow")
  {
    hide Upper;
  }

  lemma {:induction false} ParamsReadBack(names: seq<string>, es: seq<Expr>, name: string)
    requires |names| == |es| && AllNumeric(es) && Distinct(names)
    ensures name in ParamMap(names, es) <==> name in names
    ensures forall i :: 0 <= i < |names| ==> ReadParam(ParamMap(names, es))(names[i]) == es[i].value
  {
    if names != [] {
      ParamsReadBack(names[1..], es[1..], name);
      var m := ParamMap(names[1..], es[1..]);
      forall i | 0 <= i < |names| ensures ReadParam(ParamMap(names, es))(names[i]) == es[i].value {
        if i > 0 {
          assert names[1..][i - 1] == names[i] && es[1..][i - 1] == es[i];
          assert ReadParam(m)(names[i]) == es[i].value;
          ParamsReadBack(names[1..], es[1..], names[i]);
        }
      }
    }
  }

  function NumValue(e: Expr): real {
    if e.Num? then e.value else 0.0
  }

  lemma {:induction false} CollectParams(prim: Prim, env: Env, es: seq<Expr>, k: nat)
    requires k <= |es| && AllNumeric(es[k..])
    ensures Collect(EvalAll(prim, env, es)) ==
            match Collect(EvalAll(prim, env, es[..k]))
            case None => None
            case Some(xs) => Some(xs + Map(NumValue, es[k..]))
  {
    var vs, us := EvalAll(prim, env, es), EvalAll(prim, env, es[..k]);
    assert forall i :: 0 <= i < k ==> vs[i] == us[i];
    forall i | k <= i < |es| ensures vs[i] == Some(NumValue(es[i])) {
      assert es[i] == es[k..][i - k];
    }
    if AllSome(us) {
      assert AllSome(vs);
      assert Map(Get, vs) == Map(Get, us) + Map(NumValue, es[k..]);
    }
  }

  lemma {:induction false} ReadsParams(names: seq<string>, es: seq<Expr>)
    requires |names| == |es| && AllNumeric(es) && Distinct(names)
    ensures Map(ReadParam(ParamMap(names, es)), names) == Map(NumValue, es)
  {
    ParamsReadBack(names, es, "");
    forall i | 0 <= i < |names| ensures Map(ReadParam(ParamMap(names, es)), names)[i] == Map(NumValue, es)[i] {
      assert es[i].Num?;
    }
  }

  lemma {:induction false} MappedMeaning(prim: Prim, env: Env, f: string, args: seq<Expr>)
    requires MappedPlan(f, args).Some?
    ensures PlanValue(prim, env, MappedPlan(f, args).value) == Eval(prim, env, App(f, args))
  {
    hide Lookup, Collect, Operator, Resolve, Computes, Reads, ParamMap;
    TableParams(f);
    var m := Lookup(f).value;
    var k := |MappedPlan(f, args).value.operands|;
    assert args[..k] == MappedPlan(f, args).value.operands;
    CollectParams(prim, env, args, k);
    ReadsParams(m.paramNames, args[k..]);
    var ps := Map(NumValue, args[k..]);
    match Collect(EvalAll(prim, env, args[..k]))
    case None =>
    case Some(xs) =>
      ApplyNode(prim, env, f, MappedPlan(f, args).value.params, xs, ps);
  }

  /** Running a mapped node is applying the operator to inputs and parameters. */
  lemma {:induction false} ApplyNode(prim: Prim, env: Env, f: string, params: map<string, Param>, xs: seq<real>, ps: seq<real>)
    requires Lookup(f).Some? && Map(ReadParam(params), Lookup(f).value.paramNames) == ps
    ensures NodeValue(prim, env, Lookup(f).value.nodeType, params, xs) == Apply(prim, f, xs + ps)
  {
    hide Lookup, Operator, Resolve, Reads, ReadParam, Fold, Power;
    TablesAgree(f);
    TableParams(f);
    TableKinds(f);
    assert xs + [] == xs;
  }

  /** What is emitted for an operator computes the operator. */
  lemma {:induction false} PlanMeaning(prim: Prim, env: Env, e: Expr)
    requires e.App? && PlanOf(e).Some?
    ensures PlanValue(prim, env, PlanOf(e).value) == Eval(prim, env, e)
  {
    hide PlanValue, MappedPlan, Eval;
    if Subtraction(e).Some? {
      SubtractionMeaning(prim, env, e);
    } else if Division(e).Some? {
      DivisionMeaning(prim, env, e);
    } else if UnaryNeg(e).Some? {
      NegationMeaning(prim, env, e);
    } else {
      MappedMeaning(prim, env, e.func, e.args);
    }
  }

  // ----- running the compiled nodes -----

  /** No node numbered `base` or higher has a value yet. */
  ghost predicate Fresh(m: Values, base: nat) {
    forall i: nat :: i >= base ==> Name(i) !in m
  }

  ghost predicate Extends(m: Values, r: Values) {
    forall id :: id in m ==> id in r && r[id] == m[id]
  }

  lemma {:induction false} RunConcat(prim: Prim, env: Env, m: Values, a: seq<Node>, b: seq<Node>)
    ensures Run(prim, env, m, a + b) == Run(prim, env, Run(prim, env, m, a), b)
    decreases |a|
  {
    if a == [] {
      assert a + b == b;
    } else {
      assert (a + b)[0] == a[0] && (a + b)[1..] == a[1..] + b;
      RunConcat(prim, env, m[a[0].id := NodeResult(prim, env, m, a[0])], a[1..], b);
    }
  }

  lemma {:induction false} RunOne(prim: Prim, env: Env, m: Values, base: nat, n: Node)
    requires Fresh(m, base) && n.id == Name(base)
    ensures var r := Run(prim, env, m, [n]);
            Extends(m, r) && Fresh(r, base + 1) && Name(base) in r && Inputs(r)(Name(base)) == NodeResult(prim, env, m, n)
  {
    assert [n][1..] == [];
    var r := m[n.id := NodeResult(prim, env, m, n)];
    assert Run(prim, env, r, []) == r;
    assert Run(prim, env, m, [n]) == Run(prim, env, r, [n][1..]);
    forall i: nat | i >= base + 1 ensures Name(i) !in r {
      if Name(i) == Name(base) { NameInjective(i, base); }
    }
  }

  lemma {:induction false} LeafResult(prim: Prim, env: Env, m: Values, n: Node)
    requires n.inputs == []
    ensures NodeResult(prim, env, m, n) == NodeValue(prim, env, n.nodeType, n.params, [])
  {
    CollectSome(Map(Inputs(m), n.inputs), []);
  }

  ghost predicate Computed(prim: Prim, env: Env, m: Values, e: Expr, base: nat, ns: seq<Node>) {
    var r := Run(prim, env, m, ns);
    && ns != [] && Extends(m, r) && Fresh(r, base + |ns|) && Name(base + |ns| - 1) in r
    && Inputs(r)(Name(base + |ns| - 1)) == Eval(prim, env, e)
  }

  ghost predicate ComputedAll(prim: Prim, env: Env, m: Values, es: seq<Expr>, base: nat, ns: seq<Node>, ids: seq<string>) {
    var r := Run(prim, env, m, ns);
    && Extends(m, r) && Fresh(r, base + |ns|) && |ids| == |es|
    && (forall i :: 0 <= i < |ids| ==> ids[i] in r)
    && Map(Inputs(r), ids) == EvalAll(prim, env, es)
  }

  /** Running the nodes of `e` gives its node the value of `e` and touches no other. */
  lemma {:induction false} CompileMeaning(prim: Prim, env: Env, m: Values, e: Expr, base: nat)
    requires Compile(e, base).Ok? && Fresh(m, base)
    ensures Computed(prim, env, m, e, base, Compile(e, base).value)
    decreases Size(e), 0
  {
    hide Run, Eval, NodeValue, PlanOf, Fresh, Extends, Collect;
    if e.App? {
      var plan := PlanOf(e).value;
      var (ns, ids) := CompileAll(plan.operands, base).value;
      PlanSmaller(e);
      CompileAllMeaning(prim, env, m, plan.operands, base);
      OperatorComputed(prim, env, m, e, base, ns, ids);
    } else {
      LeafComputed(prim, env, m, e, base);
    }
  }

  lemma {:induction false} LeafComputed(prim: Prim, env: Env, m: Values, e: Expr, base: nat)
    requires !e.App? && Fresh(m, base)
    ensures Computed(prim, env, m, e, base, Compile(e, base).value)
  {
    hide Run, Fresh, Extends, Collect;
    var n := Compile(e, base).value[0];
    RunOne(prim, env, m, base, n);
    LeafResult(prim, env, m, n);
  }

  lemma {:induction false} OperatorComputed(prim: Prim, env: Env, m: Values, e: Expr, base: nat, ns: seq<Node>, ids: seq<string>)
    requires e.App? && PlanOf(e).Some? && ComputedAll(prim, env, m, PlanOf(e).value.operands, base, ns, ids)
    ensures var plan := PlanOf(e).value;
            Computed(prim, env, m, e, base, ns + [Node(Name(base + |ns|), plan.nodeType, plan.params, ids)])
  {
    hide Run, Eval, NodeValue, PlanOf, Fresh, Collect;
    var plan := PlanOf(e).value;
    var n := Node(Name(base + |ns|), plan.nodeType, plan.params, ids);
    var r := Run(prim, env, m, ns);
    RunConcat(prim, env, m, ns, [n]);
    RunOne(prim, env, r, base + |ns|, n);
    PlanMeaning(prim, env, e);
  }

  lemma {:induction false} CompileAllMeaning(prim: Prim, env: Env, m: Values, es: seq<Expr>, base: nat)
    requires CompileAll(es, base).Ok? && Fresh(m, base)
    ensures var (ns, ids) := CompileAll(es, base).value; ComputedAll(prim, env, m, es, base, ns, ids)
    decreases SizeAll(es), 1 + |es|
  {
    hide Compile, Run, Fresh, Name, Computed, ComputedAll;
    if es == [] {
      NilComputed(prim, env, m, base);
    } else {
      var first := Compile(es[0], base).value;
      CompileMeaning(prim, env, m, es[0], base);
      var r1 := Run(prim, env, m, first);
      ComputedFresh(prim, env, m, es[0], base, first);
      CompileAllMeaning(prim, env, r1, es[1..], base + |first|);
      var (rest, ids) := CompileAll(es[1..], base + |first|).value;
      ConsComputed(prim, env, m, es, base, first, rest, ids);
    }
  }

  lemma {:induction false} NilComputed(prim: Prim, env: Env, m: Values, base: nat)
    requires Fresh(m, base)
    ensures ComputedAll(prim, env, m, [], base, [], [])
  {
  }

  lemma {:induction false} ComputedFresh(prim: Prim, env: Env, m: Values, e: Expr, base: nat, ns: seq<Node>)
    requires Computed(prim, env, m, e, base, ns)
    ensures ns != [] && Fresh(Run(prim, env, m, ns), base + |ns|)
  {
  }

  lemma {:induction false} ConsComputed(prim: Prim, env: Env, m: Values, es: seq<Expr>, base: nat, first: seq<Node>, rest: seq<Node>, ids: seq<string>)
    requires es != [] && Computed(prim, env, m, es[0], base, first)
    requires ComputedAll(prim, env, Run(prim, env, m, first), es[1..], base + |first|, rest, ids)
    ensures ComputedAll(prim, env, m, es, base, first + rest, [Name(base + |first| - 1)] + ids)
  {
    hide Eval, Run, Fresh, Name;
    var r1 := Run(prim, env, m, first);
    RunConcat(prim, env, m, first, rest);
    var r := Run(prim, env, r1, rest);
    var id := Name(base + |first| - 1);
    assert Inputs(r)(id) == Inputs(r1)(id);
    assert Map(Inputs(r), [id] + ids) == [Inputs(r)(id)] + Map(Inputs(r), ids);
    assert EvalAll(prim, env, es) == [Eval(prim, env, es[0])] + EvalAll(prim, env, es[1..]);
  }

  // ----- the whole compiler -----

  /** Compiler correctness: for every expression the builder accepts, the DAG it
      emits for the normalised expression evaluates, at its output, to the value of
      the original expression. */
  lemma {:induction false} CompilerCorrect(key: Key, prim: Prim, env: Env, e: Expr)
    requires Symmetric(prim) && Compile(Normalize(key, e), 0).Ok?
    ensures var ns := Compile(Normalize(key, e), 0).value;
            ns != [] && EvalDag(prim, env, ns, Name(|ns| - 1)) == Eval(prim, env, e)
  {
    hide Compile, Normalize, Eval, Run, Symmetric;
    NormalizeMeaning(key, prim, env, e);
    CompileMeaning(prim, env, map[], Normalize(key, e), 0);
  }

  // ----- the shape of the DAG -----

  function Names(lo: nat, hi: nat): seq<string>
    requires lo <= hi
    decreases hi - lo
  {
    if lo == hi then [] else Names(lo, hi - 1) + [Name(hi - 1)]
  }

  function AllInputs(ns: seq<Node>): seq<string> {
    if ns == [] then [] else AllInputs(ns[..|ns| - 1]) + ns[|ns| - 1].inputs
  }

  /** The edges `_add` records: one per input, in order. */
  function EdgesTo(id: string, inputs: seq<string>): seq<Edge> {
    if inputs == [] then [] else EdgesTo(id, inputs[..|inputs| - 1]) + [(inputs[|inputs| - 1], id)]
  }

  function EdgesOf(ns: seq<Node>): seq<Edge> {
    if ns == [] then [] else EdgesOf(ns[..|ns| - 1]) + EdgesTo(ns[|ns| - 1].id, ns[|ns| - 1].inputs)
  }

  ghost predicate Numbered(x: string, lo: nat, hi: nat) {
    exists j: nat :: lo <= j < hi && x == Name(j)
  }

  /** Ids are dense from `base`, and every input was numbered earlier. */
  ghost predicate Dense(ns: seq<Node>, base: nat) {
    && (forall i :: 0 <= i < |ns| ==> ns[i].id == Name(base + i))
    && (forall i, x :: 0 <= i < |ns| && x in ns[i].inputs ==> Numbered(x, base, base + i))
  }

  lemma {:induction false} AllInputsConcat(a: seq<Node>, b: seq<Node>)
    ensures AllInputs(a + b) == AllInputs(a) + AllInputs(b)
  {
    if b == [] {
      assert a + b == a;
    } else {
      var n := |b| - 1;
      assert (a + b)[..|a + b| - 1] == a + b[..n] && (a + b)[|a + b| - 1] == b[n];
      AllInputsConcat(a, b[..n]);
      Assoc(AllInputs(a), AllInputs(b[..n]), b[n].inputs);
    }
  }

  lemma {:induction false} NamesConcat(lo: nat, mid: nat, hi: nat)
    requires lo <= mid <= hi
    ensures Names(lo, hi) == Names(lo, mid) + Names(mid, hi)
    decreases hi
  {
    if mid < hi {
      NamesConcat(lo, mid, hi - 1);
      Assoc(Names(lo, mid), Names(mid, hi - 1), [Name(hi - 1)]);
    }
  }

  lemma {:induction false} DenseConcat(a: seq<Node>, b: seq<Node>, base: nat)
    requires Dense(a, base) && Dense(b, base + |a|)
    ensures Dense(a + b, base)
  {
    var c := a + b;
    forall i | 0 <= i < |c| ensures c[i].id == Name(base + i) {
      if i >= |a| { assert c[i] == b[i - |a|]; }
    }
    forall i, x | 0 <= i < |c| && x in c[i].inputs ensures Numbered(x, base, base + i) {
      if i >= |a| {
        assert c[i] == b[i - |a|];
        assert Numbered(x, base + |a|, base + i);
      }
    }
  }

  /** A compiled expression is a tree: each node but the last is an input exactly once. */
  ghost predicate Tree(ns: seq<Node>, base: nat) {
    ns != [] && Dense(ns, base) && ConsumedOnce(ns, base)
  }

  ghost predicate ConsumedOnce(ns: seq<Node>, base: nat)
    requires ns != []
  {
    multiset(AllInputs(ns)) == multiset(Names(base, base + |ns| - 1))
  }

  ghost predicate AllButOperands(ns: seq<Node>, ids: seq<string>, base: nat) {
    multiset(AllInputs(ns)) + multiset(ids) == multiset(Names(base, base + |ns|))
  }

  /** A list of compiled operands: everything but the operands' own nodes is consumed. */
  ghost predicate Forest(ns: seq<Node>, ids: seq<string>, base: nat) {
    && Dense(ns, base) && AllButOperands(ns, ids, base)
    && (forall x :: x in ids ==> Numbered(x, base, base + |ns|))
  }

  lemma {:induction false} CompileTree(e: Expr, base: nat)
    requires Compile(e, base).Ok?
    ensures Tree(Compile(e, base).value, base)
    decreases Size(e), 0
  {
    hide PlanOf, Name, Tree, Forest, CompileAll;
    if e.App? {
      PlanSmaller(e);
      var plan := PlanOf(e).value;
      CompileForest(plan.operands, base);
      var (ns, ids) := CompileAll(plan.operands, base).value;
      RootedForest(ns, ids, base, plan);
    } else {
      LeafTree(Compile(e, base).value[0], base);
    }
  }

  lemma {:induction false} LeafTree(n: Node, base: nat)
    requires n.id == Name(base) && n.inputs == []
    ensures Tree([n], base)
  {
    assert [n][..0] == [];
    assert AllInputs([n]) == AllInputs([n][..0]) + n.inputs;
  }

  lemma {:induction false} RootedForest(ns: seq<Node>, ids: seq<string>, base: nat, plan: Plan)
    requires Forest(ns, ids, base)
    ensures Tree(ns + [Node(Name(base + |ns|), plan.nodeType, plan.params, ids)], base)
  {
    hide Name, Names;
    var n := Node(Name(base + |ns|), plan.nodeType, plan.params, ids);
    var all := ns + [n];
    assert all[..|all| - 1] == ns;
    assert AllInputs(all) == AllInputs(ns) + ids;
    forall i, x | 0 <= i < |all| && x in all[i].inputs ensures Numbered(x, base, base + i) {
    }
  }

  lemma {:induction false} CompileForest(es: seq<Expr>, base: nat)
    requires CompileAll(es, base).Ok?
    ensures var (ns, ids) := CompileAll(es, base).value; Forest(ns, ids, base)
    decreases SizeAll(es), 1 + |es|
  {
    hide Compile, Name, Tree, Forest;
    if es == [] {
      EmptyForest(base);
    } else {
      var first := Compile(es[0], base).value;
      CompileTree(es[0], base);
      CompileForest(es[1..], base + |first|);
      var (rest, ids) := CompileAll(es[1..], base + |first|).value;
      GrowForest(first, rest, ids, base);
    }
  }

  lemma {:induction false} EmptyForest(base: nat)
    ensures Forest([], [], base)
  {
  }

  lemma {:induction false} GrowForest(first: seq<Node>, rest: seq<Node>, ids: seq<string>, base: nat)
    requires Tree(first, base) && Forest(rest, ids, base + |first|)
    ensures Forest(first + rest, [Name(base + |first| - 1)] + ids, base)
  {
    hide Name, Dense, Numbered, ConsumedOnce, AllButOperands;
    DenseConcat(first, rest, base);
    GrowCounts(first, rest, ids, base);
    GrownIds(base + |first|, base + |first + rest|, ids, base);
  }

  lemma {:induction false} GrowCounts(first: seq<Node>, rest: seq<Node>, ids: seq<string>, base: nat)
    requires first != [] && ConsumedOnce(first, base) && AllButOperands(rest, ids, base + |first|)
    ensures AllButOperands(first + rest, [Name(base + |first| - 1)] + ids, base)
  {
    hide *;
    var mid := base + |first|;
    NamesLast(base, mid);
    AllInputsConcat(first, rest);
    NamesConcat(base, mid, mid + |rest|);
    CountsHere(first, rest, ids, base);
    MergeCounts(AllInputs(first), Names(base, mid - 1), Name(mid - 1), AllInputs(rest), ids, Names(mid, mid + |rest|),
                AllInputs(first + rest), Names(base, mid + |rest|));
    CountsThere(first + rest, [Name(mid - 1)] + ids, base);
  }

  lemma {:induction false} NamesLast(lo: nat, hi: nat)
    requires lo < hi
    ensures Names(lo, hi) == Names(lo, hi - 1) + [Name(hi - 1)]
  {
  }

  lemma {:induction false} CountsHere(first: seq<Node>, rest: seq<Node>, ids: seq<string>, base: nat)
    requires first != [] && ConsumedOnce(first, base) && AllButOperands(rest, ids, base + |first|)
    ensures multiset(AllInputs(first)) == multiset(Names(base, base + |first| - 1))
    ensures multiset(AllInputs(rest)) + multiset(ids) == multiset(Names(base + |first|, base + |first| + |rest|))
  {
  }

  lemma {:induction false} CountsThere(ns: seq<Node>, ids: seq<string>, base: nat)
    requires multiset(AllInputs(ns)) + multiset(ids) == multiset(Names(base, base + |ns|))
    ensures AllButOperands(ns, ids, base)
  {
  }

  lemma {:induction false} MergeCounts(a: seq<string>, n: seq<string>, x: string, b: seq<string>, ids: seq<string>, m: seq<string>,
                                       inputs: seq<string>, names: seq<string>)
    requires multiset(a) == multiset(n) && multiset(b) + multiset(ids) == multiset(m)
    requires inputs == a + b && names == n + [x] + m
    ensures multiset(inputs) + multiset([x] + ids) == multiset(names)
  {
    assert multiset(names) == multiset(n) + multiset{x} + multiset(m);
  }

  lemma {:induction false} GrownIds(mid: nat, hi: nat, ids: seq<string>, base: nat)
    requires base < mid <= hi && forall x :: x in ids ==> Numbered(x, mid, hi)
    ensures forall x :: x in [Name(mid - 1)] + ids ==> Numbered(x, base, hi)
  {
    hide Name;
  }

  // ----- consequences of the tree shape -----

  lemma {:induction false} NamesDistinct(lo: nat, hi: nat)
    requires lo <= hi
    ensures Distinct(Names(lo, hi)) && |Names(lo, hi)| == hi - lo
    ensures forall x :: x in Names(lo, hi) <==> Numbered(x, lo, hi)
    decreases hi
  {
    if lo < hi {
      NamesDistinct(lo, hi - 1);
      LastNameNew(lo, hi);
    }
  }

  lemma {:induction false} LastNameNew(lo: nat, hi: nat)
    requires lo < hi
    ensures !Numbered(Name(hi - 1), lo, hi - 1)
    ensures forall x :: Numbered(x, lo, hi) <==> Numbered(x, lo, hi - 1) || x == Name(hi - 1)
  {
    hide Name;
    forall j: nat | lo <= j < hi - 1 ensures Name(hi - 1) != Name(j) {
      if Name(hi - 1) == Name(j) { NameInjective(hi - 1, j); }
    }
    assert Numbered(Name(hi - 1), lo, hi);
  }

  lemma {:induction false} EdgesToCount(id: string, inputs: seq<string>)
    ensures |EdgesTo(id, inputs)| == |inputs|
    ensures forall i :: 0 <= i < |inputs| ==> EdgesTo(id, inputs)[i] == (inputs[i], id)
  {
    if inputs != [] {
      EdgesToCount(id, inputs[..|inputs| - 1]);
    }
  }

  lemma {:induction false} EdgesOfCount(ns: seq<Node>)
    ensures |EdgesOf(ns)| == |AllInputs(ns)|
    ensures forall i :: 0 <= i < |EdgesOf(ns)| ==> EdgesOf(ns)[i].0 == AllInputs(ns)[i]
  {
    if ns != [] {
      var n := |ns| - 1;
      EdgesOfCount(ns[..n]);
      EdgesToCount(ns[n].id, ns[n].inputs);
    }
  }

  /** `(s, d)` is an edge exactly when `s` is listed among the inputs of node `d`. */
  lemma {:induction false} EdgesAreInputs(ns: seq<Node>, e: Edge)
    ensures e in EdgesOf(ns) <==> exists i :: 0 <= i < |ns| && ns[i].id == e.1 && e.0 in ns[i].inputs
  {
    if ns != [] {
      var n := |ns| - 1;
      EdgesAreInputs(ns[..n], e);
      EdgesToCount(ns[n].id, ns[n].inputs);
      assert ns == ns[..n] + [ns[n]];
      if i :| 0 <= i < |ns| && ns[i].id == e.1 && e.0 in ns[i].inputs {
        if i < n {
          assert ns[..n][i] == ns[i];
        } else {
          var j :| 0 <= j < |ns[n].inputs| && ns[n].inputs[j] == e.0;
          assert EdgesTo(ns[n].id, ns[n].inputs)[j] == e;
        }
      }
    }
  }

  /** Every compiled DAG has one edge fewer than nodes, and every node but the
      output has exactly one consumer. */
  lemma {:induction false} OneConsumerEach(e: Expr, base: nat)
    requires Compile(e, base).Ok?
    ensures var ns := Compile(e, base).value;
            && |EdgesOf(ns)| == |ns| - 1
            && (forall j: nat :: base <= j < base + |ns| - 1 ==> multiset(AllInputs(ns))[Name(j)] == 1)
            && multiset(AllInputs(ns))[Name(base + |ns| - 1)] == 0
  {
    hide Compile, Name, Dense, AllInputs, EdgesOf, Names;
    CompileTree(e, base);
    var ns := Compile(e, base).value;
    var hi: nat := base + |ns| - 1;
    EdgesOfCount(ns);
    NamesDistinct(base, hi);
    NamesOnce(base, hi);
    assert |multiset(AllInputs(ns))| == |multiset(Names(base, hi))|;
  }

  lemma {:induction false} NamesOnce(lo: nat, hi: nat)
    requires lo <= hi
    ensures forall j: nat :: lo <= j < hi ==> multiset(Names(lo, hi))[Name(j)] == 1
    ensures multiset(Names(lo, hi))[Name(hi)] == 0
  {
    hide Name, Names;
    NamesDistinct(lo, hi);
    LastNameNew(lo, hi + 1);
    MultisetDistinct(Names(lo, hi));
    forall j: nat | lo <= j < hi ensures multiset(Names(lo, hi))[Name(j)] == 1 {
      assert Numbered(Name(j), lo, hi);
      assert Name(j) in multiset(Names(lo, hi));
    }
    assert Name(hi) !in multiset(Names(lo, hi));
  }
}

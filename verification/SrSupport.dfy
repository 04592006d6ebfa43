/** Which expressions the compiler accepts. */
module SrSupport {
  import opened Wrappers
  import opened Ordering
  import opened Sequences
  import opened Operators
  import opened SrExpr
  import opened SrDag

  /** The operators that take any number of operands, exactly one, and exactly two. */
  predicate Variadic(f: string) {
    f in ["Add", "Mul", "Pow", "And", "Or"]
  }

  predicate Unary(f: string) {
    f in ["Not", "Abs", "sin", "cos", "exp", "log"]
  }

  predicate Comparison(f: string) {
    f in ["GreaterThan", "StrictGreaterThan", "LessThan", "StrictLessThan", "Equality", "Unequality"]
  }

  /** The text is the given capital letters, each in either case. */
  predicate Spells(f: string, capitals: string) {
    |f| == |capitals| && forall i :: 0 <= i < |f| ==> f[i] == capitals[i] || f[i] as int == capitals[i] as int + 32
  }

  /** How many numbers an indicator takes after its operand. */
  function Parameters(f: string): Option<nat> {
    if Spells(f, "EMA") || Spells(f, "SMA") || Spells(f, "RSI") then Some(1)
    else if Spells(f, "MACD") then Some(3)
    else if Spells(f, "VWAP") then Some(0)
    else None
  }

  type Test = Expr -> bool

  function IsNumber(): Test {
    (e: Expr) => e.Num?
  }

  function BecomesNumber(key: Key): Test {
    (e: Expr) => Normalize(key, e).Num?
  }

  /** Leaves are supported, an operator needs the right number of supported operands, and an
      indicator one supported operand followed by the right number of parameters. */
  predicate Supported(parameter: Test, e: Expr)
    decreases e
  {
    match e
    case Num(_) => true
    case Sym(_) => true
    case App(f, args) =>
      if Variadic(f) || (Unary(f) && |args| == 1) || (Comparison(f) && |args| == 2) then
        forall c :: c in args ==> Supported(parameter, c)
      else
        && !Unary(f) && !Comparison(f) && Parameters(f).Some? && |args| == 1 + Parameters(f).value
        && Supported(parameter, args[0])
        && forall i :: 1 <= i < |args| ==> parameter(args[i])
  }

  // ----- the mapping tables -----

  lemma {:induction false} UpperSpells(f: string, capitals: string)
    requires forall c :: c in capitals ==> 'A' <= c <= 'Z'
    ensures Upper(f) == capitals <==> Spells(f, capitals)
  {
    if |f| == |capitals| {
      forall i | 0 <= i < |f|
        ensures Upper(f)[i] == capitals[i] <==> f[i] == capitals[i] || f[i] as int == capitals[i] as int + 32
      {
        assert capitals[i] in capitals;
      }
    }
  }

  lemma {:induction false} NamedRows(f: string)
    ensures Variadic(f) ==> Lookup(f).Some? && Lookup(f).value.arity == None && Lookup(f).value.paramNames == []
    ensures Unary(f) ==> Lookup(f).Some? && Lookup(f).value.arity == Some(1) && Lookup(f).value.paramNames == []
    ensures Comparison(f) ==> Lookup(f).Some? && Lookup(f).value.arity == Some(2) && Lookup(f).value.paramNames == []
    ensures !Variadic(f) && !Unary(f) && !Comparison(f) ==> Lookup(f) == LookupIndicator(Upper(f))
  {
    hide LookupIndicator, Upper;
  }

  lemma {:induction false} IndicatorRows(f: string)
    ensures var row := LookupIndicator(Upper(f));
            if Parameters(f).None? then row.None?
            else row.Some? && row.value.arity == Some(1) && |row.value.paramNames| == Parameters(f).value
  {
    UpperSpells(f, "EMA");
    UpperSpells(f, "SMA");
    UpperSpells(f, "RSI");
    UpperSpells(f, "MACD");
    UpperSpells(f, "VWAP");
    hide Upper, Spells;
  }

  /** A call is planned exactly with the right number of operands and numbers as parameters. */
  lemma {:induction false} MappedIff(f: string, args: seq<Expr>)
    ensures var p := MappedPlan(f, args);
            if Variadic(f) || (Unary(f) && |args| == 1) || (Comparison(f) && |args| == 2) then
              p.Some? && p.value.operands == args
            else if !Unary(f) && !Comparison(f) && Parameters(f).Some? && |args| == 1 + Parameters(f).value then
              && (p.Some? <==> forall i :: 1 <= i < |args| ==> args[i].Num?)
              && (p.Some? ==> p.value.operands == args[..1])
            else p.None?
  {
    NamedRows(f);
    IndicatorRows(f);
    hide Lookup, LookupIndicator, Variadic, Unary, Comparison, Parameters, ParamMap, Upper;
    if Lookup(f).Some? {
      var k := if Lookup(f).value.arity.Some? then Lookup(f).value.arity.value else |args|;
      if k <= |args| {
        assert forall i :: k <= i < |args| ==> args[i] == args[k..][i - k];
        assert k == |args| ==> args[..k] == args;
      }
    }
  }

  /** The numbers after the operand are emitted under the names the runtime reads. */
  lemma {:induction false} IndicatorNumbers(f: string, args: seq<Expr>)
    requires !Variadic(f) && !Unary(f) && !Comparison(f) && MappedPlan(f, args).Some?
    ensures var p := MappedPlan(f, args).value;
            || (Spells(f, "EMA") && p.nodeType == IndEma && Period(args, p.params))
            || (Spells(f, "SMA") && p.nodeType == IndSma && Period(args, p.params))
            || (Spells(f, "RSI") && p.nodeType == IndRsi && Period(args, p.params))
            || (Spells(f, "MACD") && p.nodeType == IndMacd && FastSlowSignal(args, p.params))
            || (Spells(f, "VWAP") && p.nodeType == IndVwap && |args| == 1 && p.params == map[])
  {
    NamedRows(f);
    IndicatorTypes(f);
    hide Lookup, LookupIndicator, Upper, Spells, Variadic, Unary, Comparison, ParamMap, Period, FastSlowSignal;
    var names := Lookup(f).value.paramNames;
    if names == ["period"] {
      OneParam(args);
    } else if names == ["fast", "slow", "signal"] {
      ThreeParams(args);
    } else {
      NoParams(args[1..]);
    }
  }

  predicate Period(args: seq<Expr>, params: map<string, Param>) {
    |args| == 2 && args[1].Num? && params == map["period" := Number(args[1].value)]
  }

  predicate FastSlowSignal(args: seq<Expr>, params: map<string, Param>) {
    && |args| == 4 && args[1].Num? && args[2].Num? && args[3].Num?
    && params == map["fast" := Number(args[1].value), "slow" := Number(args[2].value), "signal" := Number(args[3].value)]
  }

  lemma {:induction false} IndicatorTypes(f: string)
    requires LookupIndicator(Upper(f)).Some?
    ensures var row := LookupIndicator(Upper(f)).value;
            || (Spells(f, "EMA") && row == Mapping(IndEma, ["period"], Some(1)))
            || (Spells(f, "SMA") && row == Mapping(IndSma, ["period"], Some(1)))
            || (Spells(f, "RSI") && row == Mapping(IndRsi, ["period"], Some(1)))
            || (Spells(f, "MACD") && row == Mapping(IndMacd, ["fast", "slow", "signal"], Some(1)))
            || (Spells(f, "VWAP") && row == Mapping(IndVwap, [], Some(1)))
  {
    UpperSpells(f, "EMA");
    UpperSpells(f, "SMA");
    UpperSpells(f, "RSI");
    UpperSpells(f, "MACD");
    UpperSpells(f, "VWAP");
    hide Upper, Spells;
  }

  lemma {:induction false} NoParams(es: seq<Expr>)
    ensures es == [] ==> ParamMap([], es) == map[]
  {
  }

  lemma {:induction false} OneParam(args: seq<Expr>)
    requires |args| == 2 && AllNumeric(args[1..])
    ensures Period(args, ParamMap(["period"], args[1..]))
  {
    var es := args[1..];
    assert es[0].Num? && ["period"][1..] == [] && ParamMap([], es[1..]) == map[];
  }

  lemma {:induction false} ThreeParams(args: seq<Expr>)
    requires |args| == 4 && AllNumeric(args[1..])
    ensures FastSlowSignal(args, ParamMap(["fast", "slow", "signal"], args[1..]))
  {
    var es := args[1..];
    var names := ["fast", "slow", "signal"];
    assert es[0].Num? && es[1].Num? && es[2].Num?;
    LastTwo(es);
    assert names[1..] == ["slow", "signal"];
    assert "fast"[0] == 'f' && "slow"[1] == 'l' && "signal"[1] == 'i';
  }

  lemma {:induction false} LastTwo(es: seq<Expr>)
    requires |es| == 3 && AllNumeric(es)
    ensures ParamMap(["slow", "signal"], es[1..]) == map["signal" := Number(es[2].value), "slow" := Number(es[1].value)]
  {
    var names := ["slow", "signal"];
    assert names[1..] == ["signal"] && names[1..][1..] == [];
    var last := ParamMap(["signal"], es[1..][1..]);
    assert ParamMap([], es[1..][1..][1..]) == map[];
    assert ["signal"][1..] == [] && es[1..][1..][0] == es[2];
    assert last == map["signal" := Number(es[2].value)];
  }

  // ----- planning -----

  predicate AllSupported(es: seq<Expr>) {
    forall c :: c in es ==> Supported(IsNumber(), c)
  }

  lemma {:induction false} NegatedSupported(e: Expr)
    requires UnaryNeg(e).Some?
    ensures Supported(IsNumber(), e) <==> Supported(IsNumber(), UnaryNeg(e).value)
  {
    assert e.args == [Num(-1.0), UnaryNeg(e).value];
  }

  lemma {:induction false} InverseSupported(e: Expr)
    requires InversePow(e).Some?
    ensures Supported(IsNumber(), e) <==> Supported(IsNumber(), InversePow(e).value)
  {
    assert e.args == [InversePow(e).value, Num(-1.0)];
  }

  lemma {:induction false} PairSupported(f: string, a: Expr, b: Expr)
    requires Variadic(f)
    ensures Supported(IsNumber(), App(f, [a, b])) <==> Supported(IsNumber(), a) && Supported(IsNumber(), b)
    ensures AllSupported([a, b]) <==> Supported(IsNumber(), a) && Supported(IsNumber(), b)
  {
    var args := [a, b];
    assert args[0] in args && args[1] in args;
  }

  /** An operator is supported exactly when it can be planned with supported operands. */
  lemma {:induction false} PlanSupported(e: Expr)
    requires e.App?
    ensures Supported(IsNumber(), e) <==> PlanOf(e).Some? && AllSupported(PlanOf(e).value.operands)
  {
    hide MappedPlan;
    if Subtraction(e).Some? {
      SubtractionSupported(e);
    } else if Division(e).Some? {
      DivisionSupported(e);
    } else if UnaryNeg(e).Some? {
      NegatedSupported(e);
    } else {
      MappedSupported(e);
    }
  }

  lemma {:induction false} SubtractionSupported(e: Expr)
    requires Subtraction(e).Some?
    ensures var (a, b) := Subtraction(e).value; Supported(IsNumber(), e) <==> AllSupported([a, b])
  {
    hide Supported, AllSupported;
    var (a, b) := Subtraction(e).value;
    assert e == App("Add", [e.args[0], e.args[1]]);
    PairSupported("Add", e.args[0], e.args[1]);
    PairSupported("Add", a, b);
    if UnaryNeg(e.args[1]).Some? { NegatedSupported(e.args[1]); } else { NegatedSupported(e.args[0]); }
  }

  lemma {:induction false} DivisionSupported(e: Expr)
    requires Division(e).Some?
    ensures var (a, b) := Division(e).value; Supported(IsNumber(), e) <==> AllSupported([a, b])
  {
    hide Supported, AllSupported;
    var (a, b) := Division(e).value;
    assert e == App("Mul", [e.args[0], e.args[1]]);
    PairSupported("Mul", e.args[0], e.args[1]);
    PairSupported("Mul", a, b);
    if InversePow(e.args[1]).Some? { InverseSupported(e.args[1]); } else { InverseSupported(e.args[0]); }
  }

  lemma {:induction false} MappedSupported(e: Expr)
    requires e.App?
    ensures Supported(IsNumber(), e) <==>
            MappedPlan(e.func, e.args).Some? && AllSupported(MappedPlan(e.func, e.args).value.operands)
  {
    hide MappedPlan, Variadic, Unary, Comparison, Parameters;
    MappedIff(e.func, e.args);
    if e.args != [] {
      assert forall c :: c in e.args[..1] <==> c == e.args[0];
    }
  }

  // ----- compiling -----

  /** An expression compiles exactly when it is supported. */
  lemma {:induction false} CompileIff(e: Expr, base: nat)
    ensures Compile(e, base).Ok? <==> Supported(IsNumber(), e)
    decreases Size(e), 0
  {
    hide Supported, PlanOf, Lookup, Name, CompileAll;
    if e.App? {
      PlanSupported(e);
      if PlanOf(e).Some? {
        PlanSmaller(e);
        CompileAllIff(PlanOf(e).value.operands, base);
      }
    } else {
      LeafSupported(e);
    }
  }

  lemma {:induction false} LeafSupported(e: Expr)
    requires !e.App?
    ensures Supported(IsNumber(), e)
  {
  }

  lemma {:induction false} CompileAllIff(es: seq<Expr>, base: nat)
    ensures CompileAll(es, base).Ok? <==> AllSupported(es)
    decreases SizeAll(es), 1 + |es|
  {
    hide Compile, Name, Supported;
    if es != [] {
      assert forall c :: c in es <==> c == es[0] || c in es[1..];
      CompileIff(es[0], base);
      if Compile(es[0], base).Ok? {
        CompileAllIff(es[1..], base + |Compile(es[0], base).value|);
      }
    }
  }

  // ----- normalising first -----

  /** The normal form is supported exactly when the expression is, if parameters are allowed
      that become numbers. */
  lemma {:induction false} NormalSupported(key: Key, e: Expr)
    ensures Supported(IsNumber(), Normalize(key, e)) <==> Supported(BecomesNumber(key), e)
    decreases e
  {
    hide Normalize, Supported;
    if e.App? {
      var args := NormalizeAll(key, e.args);
      forall i | 0 <= i < |args| ensures Supported(IsNumber(), args[i]) <==> Supported(BecomesNumber(key), e.args[i]) {
        NormalSupported(key, e.args[i]);
      }
      NormalizeApp(key, e.func, e.args);
      AppSupported(key, e.func, e.args, args);
      RebuiltSupported(key, e.func, args);
    } else {
      LeafNormal(key, e);
    }
  }

  lemma {:induction false} LeafNormal(key: Key, e: Expr)
    requires !e.App?
    ensures Normalize(key, e) == e && Supported(IsNumber(), e) && Supported(BecomesNumber(key), e)
  {
  }

  lemma {:induction false} AppSupported(key: Key, f: string, es: seq<Expr>, ns: seq<Expr>)
    requires |es| == |ns| && forall i :: 0 <= i < |es| ==> ns[i] == Normalize(key, es[i])
    requires forall i :: 0 <= i < |es| ==> (Supported(IsNumber(), ns[i]) <==> Supported(BecomesNumber(key), es[i]))
    ensures Supported(IsNumber(), App(f, ns)) <==> Supported(BecomesNumber(key), App(f, es))
  {
    hide Variadic, Unary, Comparison, Parameters, Normalize;
    assert (forall c :: c in ns ==> Supported(IsNumber(), c)) <==> (forall c :: c in es ==> Supported(BecomesNumber(key), c)) by {
      hide Supported;
      assert (forall c :: c in ns ==> Supported(IsNumber(), c)) <==> (forall i :: 0 <= i < |ns| ==> Supported(IsNumber(), ns[i]));
      assert (forall c :: c in es ==> Supported(BecomesNumber(key), c)) <==>
             (forall i :: 0 <= i < |es| ==> Supported(BecomesNumber(key), es[i]));
    }
  }

  lemma {:induction false} RebuiltSupported(key: Key, f: string, ns: seq<Expr>)
    ensures Supported(IsNumber(), Rebuild(key, f, ns)) <==> Supported(IsNumber(), App(f, ns))
  {
    hide Supported, Simplify, Sort, KeyLeq;
    var s := SortCommutative(key, f, ns);
    SortedArgs(key, f, ns);
    if Commutative(f) {
      PermSupported(f, s, ns);
    }
    SimplifySupported(f, s);
  }

  lemma {:induction false} PermSupported(f: string, s: seq<Expr>, ns: seq<Expr>)
    requires Commutative(f) && forall c :: c in s <==> c in ns
    ensures Supported(IsNumber(), App(f, s)) <==> Supported(IsNumber(), App(f, ns))
  {
    assert Variadic(f) || f == "Max" || f == "Min";
    if Parameters(f).Some? { IndicatorNames(f); }
    hide Parameters;
  }

  lemma {:induction false} IndicatorNames(f: string)
    requires Parameters(f).Some?
    ensures !Commutative(f)
  {
    assert Spells(f, "EMA") ==> f[0] in ['E', 'e'];
    assert Spells(f, "SMA") ==> f[0] in ['S', 's'];
    assert Spells(f, "RSI") ==> f[0] in ['R', 'r'];
    assert Spells(f, "MACD") || Spells(f, "VWAP") ==> |f| == 4;
  }

  lemma {:induction false} SimplifySupported(f: string, s: seq<Expr>)
    ensures Supported(IsNumber(), Simplify(f, s)) <==> Supported(IsNumber(), App(f, s))
  {
    hide Filter;
    if DropNeutral(f, s).Some? {
      var kept := Filter(NotNeutral(f), s);
      forall c ensures c in kept <==> c in s && c != Num(Neutral(f)) { FilterMembers(NotNeutral(f), s, c); }
      assert Variadic(f);
      if |kept| == 1 {
        assert kept[0] in kept;
      }
    } else if SimplifyPow(f, s).Some? {
      assert s == [s[0], Num(1.0)];
      PairSupported(f, s[0], Num(1.0));
    }
  }

  /** What a spec can be built for. */
  lemma {:induction false} BuildableIff(key: Key, e: Expr)
    ensures Compile(Normalize(key, e), 0).Ok? <==> Supported(BecomesNumber(key), e)
  {
    hide Compile, Normalize, Supported;
    CompileIff(Normalize(key, e), 0);
    NormalSupported(key, e);
  }

  /** The two tests differ: a sum that normalises to a number serves as a parameter. */
  lemma {:induction false} SumAsPeriod(key: Key)
    ensures var e := App("ema", [Sym("close"), App("Add", [Num(20.0)])]);
            !Supported(IsNumber(), e) && Supported(BecomesNumber(key), e)
  {
    var sum := App("Add", [Num(20.0)]);
    assert Normalize(key, sum) == Num(20.0) by {
      assert NormalizeAll(key, [Num(20.0)]) == [Num(20.0)];
      assert SortCommutative(key, "Add", [Num(20.0)]) == [Num(20.0)];
      FilterAll(NotNeutral("Add"), [Num(20.0)]);
    }
    var args := [Sym("close"), sum];
    assert Spells("ema", "EMA") && Parameters("ema") == Some(1);
    assert !Variadic("ema") && !Unary("ema") && !Comparison("ema");
    assert !IsNumber()(args[1]) && BecomesNumber(key)(args[1]);
    hide Normalize, Spells, Parameters, Variadic, Unary, Comparison;
  }
}

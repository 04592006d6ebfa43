/** Compilation of a normalised expression to a flat DAG of runtime nodes, and a
    reference evaluator for such DAGs. */
module SrDag {
  import opened Wrappers
  import opened Sequences
  import opened Operators
  import opened Text
  import opened SrExpr

  // ----- nodes -----

  datatype NodeType =
    | Input | Const
    | MathAdd | MathMul | MathPow | MathSub | MathDiv | MathNeg
    | MathAbs | MathSin | MathCos | MathExp | MathLog
    | LogicAnd | LogicOr | LogicNot
    | CmpGte | CmpGt | CmpLte | CmpLt | CmpEq | CmpNe
    | IndEma | IndSma | IndRsi | IndMacd | IndVwap

  datatype Param = Number(number: real) | Field(field: string)

  datatype Node = Node(id: string, nodeType: NodeType, params: map<string, Param>, inputs: seq<string>)

  type Edge = (string, string)

  function Name(i: nat): string {
    "n" + Decimal(i)
  }

  lemma {:induction false} NameInjective(i: nat, j: nat)
    requires Name(i) == Name(j)
    ensures i == j
  {
    assert Name(i)[1..] == Decimal(i) && Name(j)[1..] == Decimal(j);
    DecimalInjective(i, j);
  }

  // ----- the mapping tables -----

  datatype Mapping = Mapping(nodeType: NodeType, paramNames: seq<string>, arity: Option<nat>)

  function Lookup(f: string): Option<Mapping> {
    if f == "Add" then Some(Mapping(MathAdd, [], None))
    else if f == "Mul" then Some(Mapping(MathMul, [], None))
    else if f == "Pow" then Some(Mapping(MathPow, [], None))
    else if f == "And" then Some(Mapping(LogicAnd, [], None))
    else if f == "Or" then Some(Mapping(LogicOr, [], None))
    else LookupUnary(f)
  }

  function LookupUnary(f: string): Option<Mapping> {
    if f == "Not" then Some(Mapping(LogicNot, [], Some(1)))
    else if f == "Abs" then Some(Mapping(MathAbs, [], Some(1)))
    else if f == "sin" then Some(Mapping(MathSin, [], Some(1)))
    else if f == "cos" then Some(Mapping(MathCos, [], Some(1)))
    else if f == "exp" then Some(Mapping(MathExp, [], Some(1)))
    else if f == "log" then Some(Mapping(MathLog, [], Some(1)))
    else LookupComparison(f)
  }

  function LookupComparison(f: string): Option<Mapping> {
    if f == "GreaterThan" then Some(Mapping(CmpGte, [], Some(2)))
    else if f == "StrictGreaterThan" then Some(Mapping(CmpGt, [], Some(2)))
    else if f == "LessThan" then Some(Mapping(CmpLte, [], Some(2)))
    else if f == "StrictLessThan" then Some(Mapping(CmpLt, [], Some(2)))
    else if f == "Equality" then Some(Mapping(CmpEq, [], Some(2)))
    else if f == "Unequality" then Some(Mapping(CmpNe, [], Some(2)))
    else LookupIndicator(Upper(f))
  }

  function LookupIndicator(upper: string): Option<Mapping> {
    if upper == "EMA" then Some(Mapping(IndEma, ["period"], Some(1)))
    else if upper == "SMA" then Some(Mapping(IndSma, ["period"], Some(1)))
    else if upper == "RSI" then Some(Mapping(IndRsi, ["period"], Some(1)))
    else if upper == "MACD" then Some(Mapping(IndMacd, ["fast", "slow", "signal"], Some(1)))
    else if upper == "VWAP" then Some(Mapping(IndVwap, [], Some(1)))
    else None
  }

  // ----- the reference evaluator -----

  /** What each node type computes, as a named operator. */
  function Computes(t: NodeType): string {
    match t
    case Input => "" case Const => ""
    case MathAdd => "Add" case MathMul => "Mul" case MathPow => "Pow"
    case MathSub => "" case MathDiv => "" case MathNeg => ""
    case MathAbs => "Abs" case MathSin => "sin" case MathCos => "cos" case MathExp => "exp" case MathLog => "log"
    case LogicAnd => "And" case LogicOr => "Or" case LogicNot => "Not"
    case CmpGte => "GreaterThan" case CmpGt => "StrictGreaterThan" case CmpLte => "LessThan"
    case CmpLt => "StrictLessThan" case CmpEq => "Equality" case CmpNe => "Unequality"
    case IndEma => "EMA" case IndSma => "SMA" case IndRsi => "RSI" case IndMacd => "MACD" case IndVwap => "VWAP"
  }

  /** The parameters a node type reads, in the order its operator takes them. */
  function Reads(t: NodeType): seq<string> {
    match t
    case IndEma => ["period"] case IndSma => ["period"] case IndRsi => ["period"]
    case IndMacd => ["fast", "slow", "signal"]
    case _ => []
  }

  function ReadParam(params: map<string, Param>): string -> real {
    name => if name in params && params[name].Number? then params[name].number else 0.0
  }

  /** The value of one node, given the values of its inputs. */
  function NodeValue(prim: Prim, env: Env, t: NodeType, params: map<string, Param>, xs: seq<real>): Option<real> {
    match t
    case Input => if "field" in params && params["field"].Field? then env(params["field"].field) else None
    case Const => if "value" in params && params["value"].Number? then Some(params["value"].number) else None
    case MathAdd => Some(Sum(xs))
    case MathMul => Some(Product(xs))
    case MathSub => if |xs| == 2 then Some(xs[0] - xs[1]) else None
    case MathDiv => if |xs| == 2 && xs[1] != 0.0 then Some(xs[0] / xs[1]) else None
    case MathNeg => if |xs| == 1 then Some(-xs[0]) else None
    case MathPow => if |xs| == 2 then Power(prim, xs[0], xs[1]) else prim("Pow", xs)
    case _ => prim(Computes(t), xs + Map(ReadParam(params), Reads(t)))
  }

  type Values = map<string, Option<real>>

  function Inputs(m: Values): string -> Option<real> {
    id => if id in m then m[id] else None
  }

  function NodeResult(prim: Prim, env: Env, m: Values, n: Node): Option<real> {
    match Collect(Map(Inputs(m), n.inputs))
    case None => None
    case Some(xs) => NodeValue(prim, env, n.nodeType, n.params, xs)
  }

  /** Evaluates the nodes in list order. */
  function Run(prim: Prim, env: Env, m: Values, ns: seq<Node>): Values
    decreases |ns|
  {
    if ns == [] then m else Run(prim, env, m[ns[0].id := NodeResult(prim, env, m, ns[0])], ns[1..])
  }

  function EvalDag(prim: Prim, env: Env, ns: seq<Node>, output: string): Option<real> {
    Inputs(Run(prim, env, map[], ns))(output)
  }

  // ----- what is emitted for one operator -----

  datatype Plan = Plan(nodeType: NodeType, operands: seq<Expr>, params: map<string, Param>)

  /** `-1 * x` */
  function UnaryNeg(e: Expr): Option<Expr> {
    if e.App? && e.func == "Mul" && |e.args| == 2 && e.args[0] == Num(-1.0) then Some(e.args[1]) else None
  }

  /** `x ** -1` */
  function InversePow(e: Expr): Option<Expr> {
    if e.App? && e.func == "Pow" && |e.args| == 2 && e.args[1] == Num(-1.0) then Some(e.args[0]) else None
  }

  function Subtraction(e: Expr): Option<(Expr, Expr)> {
    if e.App? && e.func == "Add" && |e.args| == 2 then
      if UnaryNeg(e.args[1]).Some? then Some((e.args[0], UnaryNeg(e.args[1]).value))
      else if UnaryNeg(e.args[0]).Some? then Some((e.args[1], UnaryNeg(e.args[0]).value))
      else None
    else None
  }

  function Division(e: Expr): Option<(Expr, Expr)> {
    if e.App? && e.func == "Mul" && |e.args| == 2 then
      if InversePow(e.args[1]).Some? then Some((e.args[0], InversePow(e.args[1]).value))
      else if InversePow(e.args[0]).Some? then Some((e.args[1], InversePow(e.args[0]).value))
      else None
    else None
  }

  predicate AllNumeric(es: seq<Expr>) {
    forall i :: 0 <= i < |es| ==> es[i].Num?
  }

  function ExtractParams(names: seq<string>, es: seq<Expr>): Option<map<string, Param>> {
    if |names| != |es| || !AllNumeric(es) then None else Some(ParamMap(names, es))
  }

  function ParamMap(names: seq<string>, es: seq<Expr>): map<string, Param>
    requires |names| == |es| && AllNumeric(es)
  {
    if names == [] then map[] else ParamMap(names[1..], es[1..])[names[0] := Number(es[0].value)]
  }

  function MappedPlan(f: string, args: seq<Expr>): Option<Plan> {
    match Lookup(f)
    case None => None
    case Some(m) =>
      var arity := if m.arity.Some? then m.arity.value else |args|;
      if |args| < arity then None
      else
        match ExtractParams(m.paramNames, args[arity..])
        case None => None
        case Some(params) => Some(Plan(m.nodeType, args[..arity], params))
  }

  function PlanOf(e: Expr): Option<Plan>
    requires e.App?
  {
    if Subtraction(e).Some? then Some(Plan(MathSub, [Subtraction(e).value.0, Subtraction(e).value.1], map[]))
    else if Division(e).Some? then Some(Plan(MathDiv, [Division(e).value.0, Division(e).value.1], map[]))
    else if UnaryNeg(e).Some? then Some(Plan(MathNeg, [UnaryNeg(e).value], map[]))
    else MappedPlan(e.func, e.args)
  }

  // ----- size, for termination -----

  function Size(e: Expr): nat
    decreases e, 1
  {
    if e.App? then 1 + SizeAll(e.args) else 1
  }

  function SizeAll(es: seq<Expr>): nat
    decreases es, 0
  {
    if es == [] then 0 else Size(es[0]) + SizeAll(es[1..])
  }

  lemma {:induction false} SizePrefix(es: seq<Expr>, k: nat)
    requires k <= |es|
    ensures SizeAll(es[..k]) <= SizeAll(es)
  {
    if k > 0 {
      assert es[..k][1..] == es[1..][..k - 1];
      SizePrefix(es[1..], k - 1);
    }
  }

  lemma {:induction false} SizeTwo(es: seq<Expr>)
    requires |es| == 2
    ensures SizeAll(es) == Size(es[0]) + Size(es[1])
  {
    assert es[1..] == [es[1]] && [es[1]][1..] == [];
    assert SizeAll([es[1]]) == Size(es[1]) + SizeAll([es[1]][1..]);
  }

  lemma {:induction false} PlanSmaller(e: Expr)
    requires e.App? && PlanOf(e).Some?
    ensures SizeAll(PlanOf(e).value.operands) < Size(e)
  {
    var ops := PlanOf(e).value.operands;
    if Subtraction(e).Some? || Division(e).Some? {
      SizeTwo(e.args);
      SizeTwo(ops);
      var k := if Subtraction(e).Some? then (if UnaryNeg(e.args[1]).Some? then 1 else 0)
               else (if InversePow(e.args[1]).Some? then 1 else 0);
      SizeTwo(e.args[k].args);
    } else if UnaryNeg(e).Some? {
      SizeTwo(e.args);
      assert ops[1..] == [];
    } else {
      SizePrefix(e.args, |ops|);
    }
  }

  // ----- the compiler, as a function -----

  /** The nodes `walk` appends when the next free number is `base`; the last one
      is the node of `e` itself. */
  function Compile(e: Expr, base: nat): Result<seq<Node>>
    decreases Size(e), 0
  {
    match e
    case Sym(n) => Ok([Node(Name(base), Input, map["field" := Field(n)], [])])
    case Num(v) => Ok([Node(Name(base), Const, map["value" := Number(v)], [])])
    case App(_, _) =>
      match PlanOf(e)
      case None => Err
      case Some(plan) =>
        PlanSmaller(e);
        match CompileAll(plan.operands, base)
        case Err => Err
        case Ok((ns, ids)) => Ok(ns + [Node(Name(base + |ns|), plan.nodeType, plan.params, ids)])
  }

  function CompileAll(es: seq<Expr>, base: nat): Result<(seq<Node>, seq<string>)>
    decreases SizeAll(es), 1 + |es|
  {
    if es == [] then Ok(([], []))
    else
      match Compile(es[0], base)
      case Err => Err
      case Ok(first) =>
        match CompileAll(es[1..], base + |first|)
        case Err => Err
        case Ok((rest, ids)) => Ok((first + rest, [Name(base + |first| - 1)] + ids))
  }
}

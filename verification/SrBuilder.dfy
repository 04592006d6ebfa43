/** The DAG builder: nodes and edges are appended while the expression is walked. */
module SrBuilder {
  import opened Wrappers
  import opened Sequences
  import opened Operators
  import opened Text
  import opened SrExpr
  import opened SrNeutral
  import opened SrDag
  import opened SrCompiler
  import opened SrSupport

  lemma {:induction false} EdgesOfConcat(a: seq<Node>, b: seq<Node>)
    ensures EdgesOf(a + b) == EdgesOf(a) + EdgesOf(b)
  {
    if b == [] {
      assert a + b == a;
    } else {
      var n := |b| - 1;
      assert (a + b)[..|a + b| - 1] == a + b[..n] && (a + b)[|a + b| - 1] == b[n];
      EdgesOfConcat(a, b[..n]);
      Assoc(EdgesOf(a), EdgesOf(b[..n]), EdgesTo(b[n].id, b[n].inputs));
    }
  }

  class DagBuilder {
    var nodes: seq<Node>
    var edges: seq<Edge>
    var nextId: nat

    constructor ()
      ensures nodes == [] && edges == [] && nextId == 0
    {
      nodes, edges, nextId := [], [], 0;
    }

    /** The builder has moved from the given contents by appending `ns`. */
    ghost predicate Appended(nodes0: seq<Node>, edges0: seq<Edge>, id0: nat, ns: seq<Node>)
      reads this
    {
      nodes == nodes0 + ns && edges == edges0 + EdgesOf(ns) && nextId == id0 + |ns|
    }

    method Add(nodeType: NodeType, params: map<string, Param>, inputs: seq<string>) returns (nid: string)
      modifies this
      ensures nid == Name(old(nextId)) == "n" + Decimal(old(nextId))
      ensures Appended(old(nodes), old(edges), old(nextId), [Node(nid, nodeType, params, inputs)])
    {
      nid := Name(nextId);
      for k := 0 to |inputs|
        invariant nodes == old(nodes) && nextId == old(nextId)
        invariant edges == old(edges) + EdgesTo(nid, inputs[..k])
      {
        assert inputs[..k + 1][..k] == inputs[..k];
        edges := edges + [(inputs[k], nid)];
      }
      assert inputs[..|inputs|] == inputs;
      var n := Node(nid, nodeType, params, inputs);
      assert [n][..0] == [] && EdgesOf([n]) == EdgesOf([n][..0]) + EdgesTo(nid, inputs);
      nodes := nodes + [n];
      nextId := nextId + 1;
    }

    method Walk(e: Expr) returns (r: Result<string>)
      modifies this
      ensures (r.Ok? <==> Compile(e, old(nextId)).Ok?) && (r.Ok? <==> Supported(IsNumber(), e))
      ensures r.Ok? ==>
        var ns := Compile(e, old(nextId)).value;
        ns != [] && r.value == Name(old(nextId) + |ns| - 1) && Appended(old(nodes), old(edges), old(nextId), ns)
      decreases Size(e), 0
    {
      hide Compile, CompileAll, EdgesOf, Name, PlanOf, Supported;
      CompileCases(e, nextId);
      CompileIff(e, nextId);
      match e {
        case Sym(name) =>
          var nid := Add(Input, map["field" := Field(name)], []);
          return Ok(nid);
        case Num(value) =>
          var nid := Add(Const, map["value" := Number(value)], []);
          return Ok(nid);
        case App(_, _) =>
          var planned := PlanOf(e);
          if planned.None? { return Err; }
          PlanSmaller(e);
          var plan := planned.value;
          ghost var nodes0, edges0, id0 := nodes, edges, nextId;
          var inputs := WalkAll(plan.operands);
          if inputs.Err? { return Err; }
          ghost var ns := CompileAll(plan.operands, id0).value.0;
          var nid := Add(plan.nodeType, plan.params, inputs.value);
          AppendTwice(nodes0, edges0, ns, [Node(nid, plan.nodeType, plan.params, inputs.value)]);
          return Ok(nid);
      }
    }

    /** `[self.walk(arg) for arg in ...]` */
    method WalkAll(es: seq<Expr>) returns (r: Result<seq<string>>)
      modifies this
      ensures r.Ok? <==> CompileAll(es, old(nextId)).Ok?
      ensures r.Ok? ==>
        var (ns, ids) := CompileAll(es, old(nextId)).value;
        r.value == ids && Appended(old(nodes), old(edges), old(nextId), ns)
      decreases SizeAll(es), 1 + |es|
    {
      hide Compile, CompileAll, EdgesOf, Name;
      CompileStep(es, nextId);
      if es == [] {
        return Ok([]);
      }
      ghost var nodes0, edges0, id0 := nodes, edges, nextId;
      var first := Walk(es[0]);
      if first.Err? { return Err; }
      ghost var ns1 := Compile(es[0], id0).value;
      var rest := WalkAll(es[1..]);
      if rest.Err? { return Err; }
      ghost var ns2 := CompileAll(es[1..], id0 + |ns1|).value.0;
      AppendTwice(nodes0, edges0, ns1, ns2);
      return Ok([first.value] + rest.value);
    }
  }

  /** What compiling an expression appends, by its kind. */
  lemma {:induction false} CompileCases(e: Expr, base: nat)
    ensures e.Sym? ==> Compile(e, base) == Ok([Node(Name(base), Input, map["field" := Field(e.name)], [])])
    ensures e.Num? ==> Compile(e, base) == Ok([Node(Name(base), Const, map["value" := Number(e.value)], [])])
    ensures e.App? ==>
      Compile(e, base) ==
        if PlanOf(e).None? || CompileAll(PlanOf(e).value.operands, base).Err? then Err
        else
          var plan := PlanOf(e).value;
          var (ns, ids) := CompileAll(plan.operands, base).value;
          Ok(ns + [Node(Name(base + |ns|), plan.nodeType, plan.params, ids)])
  {
    hide PlanOf, CompileAll, Name;
  }

  lemma {:induction false} CompileStep(es: seq<Expr>, base: nat)
    ensures EdgesOf([]) == []
    ensures es == [] ==> CompileAll(es, base) == Ok(([], []))
    ensures es != [] ==>
      && Size(es[0]) <= SizeAll(es) && SizeAll(es[1..]) < SizeAll(es)
      && CompileAll(es, base) ==
         match Compile(es[0], base)
         case Err => Err
         case Ok(first) =>
           if first == [] then Err
           else
             match CompileAll(es[1..], base + |first|)
             case Err => Err
             case Ok((rest, ids)) => Ok((first + rest, [Name(base + |first| - 1)] + ids))
  {
    hide Compile, Name, ConsumedOnce, Dense;
    if es != [] {
      SizePositive(es[0]);
      if Compile(es[0], base).Ok? {
        CompileTree(es[0], base);
      }
    }
  }

  lemma {:induction false} SizePositive(e: Expr)
    ensures Size(e) >= 1
  {
  }

  lemma {:induction false} AppendTwice(nodes: seq<Node>, edges: seq<Edge>, a: seq<Node>, b: seq<Node>)
    ensures nodes + a + b == nodes + (a + b)
    ensures edges + EdgesOf(a) + EdgesOf(b) == edges + EdgesOf(a + b)
  {
    Assoc(nodes, a, b);
    EdgesOfConcat(a, b);
    Assoc(edges, EdgesOf(a), EdgesOf(b));
  }

  datatype DagSpec = DagSpec(nodes: seq<Node>, edges: seq<Edge>, output: string, keyPayload: string, nodeCount: nat)

  /** The text hashed into the expression key. */
  function KeyPayload(key: Key, version: string, e: Expr): string {
    version + ":" + key(Normalize(key, e))
  }

  /** Two payloads agree exactly when the versions and the texts of the normal forms do, for
      versions without a colon. */
  lemma {:induction false} KeyPayloadIff(key: Key, v: string, w: string, a: Expr, b: Expr)
    requires ':' !in v && ':' !in w
    ensures KeyPayload(key, v, a) == KeyPayload(key, w, b) <==> v == w && key(Normalize(key, a)) == key(Normalize(key, b))
  {
    hide Normalize;
    var x, y := key(Normalize(key, a)), key(Normalize(key, b));
    if KeyPayload(key, v, a) == KeyPayload(key, w, b) {
      assert v + (":" + x) == v + ":" + x && w + (":" + y) == w + ":" + y;
      CutUnique((c: char) => c == ':', v, ":" + x, w, ":" + y);
      assert (":" + x)[1..] == x && (":" + y)[1..] == y;
    }
  }

  /** Expressions linked by reorderings of commutative operands share the expression key. */
  lemma {:induction false} ReorderedSameKey(key: Key, version: string, p: seq<Expr>)
    requires Reorderings(p) && Distinguishes(key, p[0])
    ensures KeyPayload(key, version, p[0]) == KeyPayload(key, version, p[|p| - 1])
  {
    hide Normalize, Reorderings, Distinguishes;
    ReorderingsNormal(key, p);
  }

  /** The sort key tells these two expressions apart. */
  predicate TellsApart(key: Key, a: Expr, b: Expr) {
    key(a) == key(b) ==> a == b
  }

  /** Adding a neutral operand at any depth keeps the expression key exactly when at most one
      significant operand stands beside it. */
  lemma {:induction false} NeutralKey(key: Key, version: string, a: Expr, b: Expr, f: string, us: seq<Expr>, ws: seq<Expr>)
    requires Arithmetic(f) && Inserted(a, b, f, us, ws) && TellsApart(key, Normalize(key, a), Normalize(key, b))
    ensures KeyPayload(key, version, a) == KeyPayload(key, version, b) <==> Significant(key, f, us + ws) <= 1
  {
    hide Normalize, Inserted, Significant, Arithmetic;
    NeutralInsertion(key, a, b, f, us, ws);
    var p := version + ":";
    assert (p + key(Normalize(key, a)))[|p|..] == key(Normalize(key, a));
    assert (p + key(Normalize(key, b)))[|p|..] == key(Normalize(key, b));
  }

  lemma {:induction false} EdgeCount(e: Expr)
    requires Compile(e, 0).Ok?
    ensures |EdgesOf(Compile(e, 0).value)| == |Compile(e, 0).value| - 1
  {
    hide Compile, EdgesOf;
    OneConsumerEach(e, 0);
  }

  /** Normalise, compute the key of the normalised expression (which normalises
      again), compile. The key is the one of the raw expression. */
  method Build(key: Key, version: string, e: Expr) returns (r: Result<DagSpec>)
    ensures (r.Ok? <==> Compile(Normalize(key, e), 0).Ok?) && (r.Ok? <==> Supported(BecomesNumber(key), e))
    ensures r.Ok? ==>
      && r.value.nodes == Compile(Normalize(key, e), 0).value && r.value.nodes != []
      && r.value.edges == EdgesOf(r.value.nodes)
      && r.value.output == Name(|r.value.nodes| - 1)
      && r.value.keyPayload == KeyPayload(key, version, e)
      && r.value.nodeCount == |r.value.edges| + 1
  {
    hide Compile, Normalize, Supported, EdgesOf, Name;
    var normalized := Normalize(key, e);
    NormalizeIdempotent(key, e);
    BuildableIff(key, e);
    var payload := KeyPayload(key, version, normalized);
    var builder := new DagBuilder();
    var output := builder.Walk(normalized);
    if output.Err? { return Err; }
    EdgeCount(normalized);
    return Ok(DagSpec(builder.nodes, builder.edges, output.value, payload, |builder.nodes|));
  }

  /** The spec that `Build` returns computes the expression it was built from. */
  lemma {:induction false} BuiltDagMeaning(key: Key, prim: Prim, env: Env, e: Expr, spec: DagSpec)
    requires Symmetric(prim) && Compile(Normalize(key, e), 0) == Ok(spec.nodes)
    requires spec.nodes != [] && spec.output == Name(|spec.nodes| - 1)
    ensures EvalDag(prim, env, spec.nodes, spec.output) == Eval(prim, env, e)
  {
    hide Compile, Normalize, Eval, EvalDag;
    CompilerCorrect(key, prim, env, e);
  }
}

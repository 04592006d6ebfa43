/** Node wiring in `DagStrategy.setup`: after the topological sort each node is
    connected to the already created objects of its inputs. */
module SrWiring {
  import opened Wrappers
  import opened Ordering
  import opened Sequences
  import opened Operators
  import opened Graph
  import opened SrExpr
  import opened SrDag
  import opened SrCompiler
  import opened SrSupport
  import T = TopoSort
  import B = SrBuilder

  /** The upstream list each created node object got, by node id. */
  type Objects = map<string, seq<string>>

  datatype Setup = Wired(objects: Objects) | SortFailed(outcome: T.Outcome) | NoUpstream(id: string)

  function Ids(nodes: seq<Node>): (r: seq<string>)
    ensures |r| == |nodes| && forall i :: 0 <= i < |nodes| ==> r[i] == nodes[i].id
  {
    if nodes == [] then [] else [nodes[0].id] + Ids(nodes[1..])
  }

  /** The dictionary entry for `id`: a later node replaces an earlier one. */
  function SpecOf(nodes: seq<Node>, id: string): Node
    requires id in Ids(nodes)
  {
    if nodes[|nodes| - 1].id == id then nodes[|nodes| - 1]
    else SpecOf(nodes[..|nodes| - 1], id)
  }

  /** Sources of the edges into `id`. */
  function Sources(edges: seq<Edge>, id: string): seq<string> {
    if edges == [] then [] else (if edges[0].1 == id then [edges[0].0] else []) + Sources(edges[1..], id)
  }

  function Known(objects: Objects): string -> bool {
    x => x in objects
  }

  function Among(done: seq<string>): string -> bool {
    x => x in done
  }

  /** The listed inputs that already exist; if there are none, the edge sources that do. */
  function Upstream(known: string -> bool, edges: seq<Edge>, n: Node): seq<string> {
    var listed := Filter(known, n.inputs);
    if listed != [] then listed else Filter(known, Sources(edges, n.id))
  }

  ghost predicate OrderOf(nodes: seq<Node>, order: seq<string>) {
    Distinct(order) && forall x :: x in order <==> x in Ids(nodes)
  }

  /** What the `j`-th node in the order finds upstream among the nodes before it. */
  function UpstreamAt(nodes: seq<Node>, edges: seq<Edge>, order: seq<string>, j: nat): seq<string>
    requires j < |order| && order[j] in Ids(nodes)
  {
    Upstream(Among(order[..j]), edges, SpecOf(nodes, order[j]))
  }

  predicate SuppliedAt(nodes: seq<Node>, edges: seq<Edge>, order: seq<string>, j: nat)
    requires j < |order| && order[j] in Ids(nodes)
  {
    SpecOf(nodes, order[j]).nodeType == Input || UpstreamAt(nodes, edges, order, j) != []
  }

  function GivenAt(nodes: seq<Node>, edges: seq<Edge>, order: seq<string>, j: nat): seq<string>
    requires j < |order| && order[j] in Ids(nodes)
  {
    if SpecOf(nodes, order[j]).nodeType == Input then [] else UpstreamAt(nodes, edges, order, j)
  }

  // ----- compiled DAGs can be sorted -----

  /** Inputs and constants have no inputs of their own. */
  ghost predicate Leaves(nodes: seq<Node>) {
    forall i :: 0 <= i < |nodes| && nodes[i].nodeType in {Input, Const} ==> nodes[i].inputs == []
  }

  lemma {:induction false} CompiledLeaves(e: Expr, base: nat)
    requires Compile(e, base).Ok?
    ensures Leaves(Compile(e, base).value)
    decreases Size(e), 0
  {
    hide PlanOf, Lookup, Name, CompileAll;
    if e.App? {
      PlanSmaller(e);
      var plan := PlanOf(e).value;
      CompiledAllLeaves(plan.operands, base);
      PlansAreNotLeaves(e);
    }
  }

  lemma {:induction false} PlansAreNotLeaves(e: Expr)
    requires e.App? && PlanOf(e).Some?
    ensures PlanOf(e).value.nodeType !in {Input, Const}
  {
    hide Lookup;
    if Lookup(e.func).Some? { TableParams(e.func); }
  }

  lemma {:induction false} CompiledAllLeaves(es: seq<Expr>, base: nat)
    requires CompileAll(es, base).Ok?
    ensures Leaves(CompileAll(es, base).value.0)
    decreases SizeAll(es), 1 + |es|
  {
    hide Compile, Name;
    if es != [] {
      CompiledLeaves(es[0], base);
      CompiledAllLeaves(es[1..], base + |Compile(es[0], base).value|);
    }
  }

  lemma {:induction false} OccurOnce(ids: seq<string>)
    requires Distinct(ids)
    ensures FirstOccurrences(ids) == ids
  {
    if ids != [] {
      var n := |ids| - 1;
      OccurOnce(ids[..n]);
      assert ids == ids[..n] + [ids[n]];
    }
  }

  lemma {:induction false} DenseIds(nodes: seq<Node>)
    requires Dense(nodes, 0)
    ensures Distinct(Ids(nodes)) && FirstOccurrences(Ids(nodes)) == Ids(nodes)
  {
    hide Name;
    forall i, j | 0 <= i < j < |nodes| ensures Ids(nodes)[i] != Ids(nodes)[j] {
      if Name(i) == Name(j) { NameInjective(i, j); }
    }
    OccurOnce(Ids(nodes));
  }

  /** The list order of a compiled DAG is already a topological order. */
  lemma {:induction false} CompiledSortable(nodes: seq<Node>)
    requires Dense(nodes, 0)
    ensures var ids := FirstOccurrences(Ids(nodes)); T.Scoped(ids, EdgesOf(nodes)) && T.Acyclic(ids, EdgesOf(nodes))
  {
    hide Dense, EdgesOf, OnCycle;
    var ids := Ids(nodes);
    DenseIds(nodes);
    forall e | e in EdgesOf(nodes) ensures T.Before(ids, e.0, e.1) {
      EdgeAscends(nodes, e);
    }
    assert T.Scoped(ids, EdgesOf(nodes));
    T.TopologicalAcyclic(ids, EdgesOf(nodes), ids);
  }

  lemma {:induction false} DenseAt(nodes: seq<Node>, j: nat)
    requires Dense(nodes, 0) && j < |nodes|
    ensures Ids(nodes)[j] == Name(j)
  {
    hide Name, Ids;
    assert nodes[j].id == Name(0 + j);
  }

  /** An input was numbered before the node that lists it. */
  lemma {:induction false} InputNumber(nodes: seq<Node>, i: nat, x: string) returns (j: nat)
    requires Dense(nodes, 0) && i < |nodes| && x in nodes[i].inputs
    ensures j < i && x == Name(j)
  {
    hide Name;
    assert Numbered(x, 0, 0 + i);
    j :| j < i && x == Name(j);
  }

  lemma {:induction false} EdgeAscends(nodes: seq<Node>, e: Edge)
    requires Dense(nodes, 0) && e in EdgesOf(nodes)
    ensures T.Before(Ids(nodes), e.0, e.1)
  {
    hide Name, EdgesOf, Dense, Ids;
    EdgesAreInputs(nodes, e);
    var i :| 0 <= i < |nodes| && nodes[i].id == e.1 && e.0 in nodes[i].inputs;
    var j := InputNumber(nodes, i, e.0);
    DenseAt(nodes, j);
    assert Ids(nodes)[j] == e.0 && Ids(nodes)[i] == e.1;
  }

  // ----- every input is there when its consumer is wired -----

  ghost predicate SortedDag(nodes: seq<Node>, edges: seq<Edge>, order: seq<string>) {
    Dense(nodes, 0) && Leaves(nodes) && edges == EdgesOf(nodes) && T.Topological(Ids(nodes), edges, order)
  }

  lemma {:induction false} NoSources(edges: seq<Edge>, id: string)
    requires forall e :: e in edges ==> e.1 != id
    ensures Sources(edges, id) == []
  {
    if edges != [] {
      NoSources(edges[1..], id);
      assert edges[0] in edges;
    }
  }

  lemma {:induction false} IdMember(nodes: seq<Node>, i: nat)
    requires i < |nodes|
    ensures nodes[i].id in Ids(nodes)
  {
    hide Ids;
    assert Ids(nodes)[i] == nodes[i].id;
  }

  lemma {:induction false} FindId(nodes: seq<Node>, id: string) returns (i: nat)
    requires id in Ids(nodes)
    ensures i < |nodes| && nodes[i].id == id
  {
    hide Ids;
    i :| 0 <= i < |Ids(nodes)| && Ids(nodes)[i] == id;
  }

  lemma {:induction false} IdsInit(nodes: seq<Node>, id: string)
    requires id in Ids(nodes)
    ensures nodes != [] && (nodes[|nodes| - 1].id == id || id in Ids(nodes[..|nodes| - 1]))
  {
    hide Ids;
    var i := FindId(nodes, id);
    var init := nodes[..|nodes| - 1];
    if i < |init| { IdMember(init, i); }
  }

  lemma {:induction false} SpecOfMember(nodes: seq<Node>, id: string)
    requires id in Ids(nodes)
    ensures SpecOf(nodes, id) in nodes && SpecOf(nodes, id).id == id
  {
    hide Ids;
    IdsInit(nodes, id);
    var n := |nodes| - 1;
    if nodes[n].id != id { SpecOfMember(nodes[..n], id); }
  }

  lemma {:induction false} SpecUnique(nodes: seq<Node>, n: Node, m: Node)
    requires Dense(nodes, 0) && n in nodes && m in nodes && n.id == m.id
    ensures n == m
  {
    hide Name;
    DenseIds(nodes);
    var i :| 0 <= i < |nodes| && nodes[i] == n;
    var j :| 0 <= j < |nodes| && nodes[j] == m;
    assert Ids(nodes)[i] == Ids(nodes)[j];
  }

  /** In a topologically sorted compiled DAG the upstream list of each node is exactly its
      list of inputs. */
  lemma {:induction false} UpstreamIsInputs(nodes: seq<Node>, edges: seq<Edge>, order: seq<string>, k: nat)
    requires SortedDag(nodes, edges, order) && k < |order| && order[k] in Ids(nodes)
    ensures UpstreamAt(nodes, edges, order, k) == SpecOf(nodes, order[k]).inputs
  {
    hide Name, EdgesOf, Dense, SpecOf;
    var n := SpecOf(nodes, order[k]);
    SpecOfMember(nodes, order[k]);
    DenseIds(nodes);
    DistinctMultiset(Ids(nodes), order);
    forall x | x in n.inputs ensures x in order[..k] {
      InputCreated(nodes, edges, order, k, n, x);
    }
    FilterAll(Among(order[..k]), n.inputs);
    if n.inputs == [] {
      NoEdgesInto(nodes, n);
      NoSources(edges, n.id);
    }
  }

  /** In any sorted DAG all sources of the edges into a node exist when it is wired. */
  lemma {:induction false} SourcesExist(ids: seq<string>, edges: seq<Edge>, order: seq<string>, k: nat)
    requires T.Topological(ids, edges, order) && Distinct(order) && k < |order| && order[k] in ids
    ensures Filter(Among(order[..k]), Sources(edges, order[k])) == Sources(edges, order[k])
  {
    forall x | x in Sources(edges, order[k]) ensures x in order[..k] {
      SourceEdge(edges, order[k], x);
      assert T.Before(order, (x, order[k]).0, (x, order[k]).1);
      var a, b :| 0 <= a < b < |order| && order[a] == x && order[b] == order[k];
      assert b == k && order[..k][a] == x;
    }
    FilterAll(Among(order[..k]), Sources(edges, order[k]));
  }

  lemma {:induction false} SourceEdge(edges: seq<Edge>, id: string, x: string)
    ensures x in Sources(edges, id) <==> (x, id) in edges
  {
    if edges != [] {
      SourceEdge(edges[1..], id, x);
      assert edges == [edges[0]] + edges[1..];
    }
  }

  lemma {:induction false} InputCreated(nodes: seq<Node>, edges: seq<Edge>, order: seq<string>, k: nat, n: Node, x: string)
    requires edges == EdgesOf(nodes) && T.Topological(Ids(nodes), edges, order) && Distinct(order)
    requires k < |order| && order[k] == n.id && n in nodes && n.id in Ids(nodes) && x in n.inputs
    ensures x in order[..k]
  {
    hide EdgesOf;
    var i :| 0 <= i < |nodes| && nodes[i] == n;
    EdgesAreInputs(nodes, (x, n.id));
    assert (x, n.id) in edges;
    assert T.Before(order, (x, n.id).0, (x, n.id).1);
    var a, b :| 0 <= a < b < |order| && order[a] == x && order[b] == n.id;
    assert b == k;
    assert order[..k][a] == x;
  }

  lemma {:induction false} NoEdgesInto(nodes: seq<Node>, n: Node)
    requires Dense(nodes, 0) && n in nodes && n.inputs == []
    ensures forall e :: e in EdgesOf(nodes) ==> e.1 != n.id
  {
    hide EdgesOf, Dense;
    forall e | e in EdgesOf(nodes) ensures e.1 != n.id {
      EdgesAreInputs(nodes, e);
      var i :| 0 <= i < |nodes| && nodes[i].id == e.1 && e.0 in nodes[i].inputs;
      assert nodes[i] in nodes;
      if e.1 == n.id {
        SpecUnique(nodes, n, nodes[i]);
      }
    }
  }

  // ----- the wiring loop -----

  /** The first `k` nodes of the order exist, each with what it found upstream. */
  ghost predicate WiredSoFar(nodes: seq<Node>, edges: seq<Edge>, order: seq<string>, k: nat, objects: Objects)
    requires k <= |order| && OrderOf(nodes, order)
  {
    && objects.Keys == T.Names(order[..k])
    && forall j :: 0 <= j < k ==>
         order[j] in objects && SuppliedAt(nodes, edges, order, j) && objects[order[j]] == GivenAt(nodes, edges, order, j)
  }

  /** `id` is the first node in the order that is no input and finds nothing upstream. */
  ghost predicate StuckAt(nodes: seq<Node>, edges: seq<Edge>, order: seq<string>, id: string)
    requires OrderOf(nodes, order)
  {
    exists j :: 0 <= j < |order| && order[j] == id && !SuppliedAt(nodes, edges, order, j) &&
                forall i :: 0 <= i < j ==> SuppliedAt(nodes, edges, order, i)
  }

  /** The wiring loop, for any nodes and edges in any order of the nodes: each node that is no
      input is given what it finds upstream, and the first one that finds nothing is refused. */
  method WireAll(nodes: seq<Node>, edges: seq<Edge>, order: seq<string>) returns (r: Setup)
    requires OrderOf(nodes, order)
    ensures match r
            case Wired(objects) => WiredSoFar(nodes, edges, order, |order|, objects)
            case NoUpstream(id) => StuckAt(nodes, edges, order, id)
            case SortFailed(_) => false
  {
    hide Upstream, SpecOf, T.Names, Ids;
    var objects: Objects := map[];
    NoNames(order);
    for k := 0 to |order|
      invariant WiredSoFar(nodes, edges, order, k, objects)
    {
      var nid := order[k];
      assert nid in order;
      var spec := SpecOf(nodes, nid);
      var upstream := Upstream(Known(objects), edges, spec);
      SameUpstream(objects, order[..k], edges, spec);
      NextName(order, k, objects);
      if spec.nodeType == Input {
        objects := objects[nid := []];
      } else {
        if upstream == [] {
          return NoUpstream(nid);
        }
        objects := objects[nid := upstream];
      }
    }
    return Wired(objects);
  }

  lemma {:induction false} FilterSame(p: string -> bool, q: string -> bool, s: seq<string>)
    requires forall x :: p(x) == q(x)
    ensures Filter(p, s) == Filter(q, s)
  {
    if s != [] { FilterSame(p, q, s[1..]); }
  }

  lemma {:induction false} SameUpstream(objects: Objects, done: seq<string>, edges: seq<Edge>, n: Node)
    requires objects.Keys == T.Names(done)
    ensures Upstream(Known(objects), edges, n) == Upstream(Among(done), edges, n)
  {
    forall x ensures Known(objects)(x) == Among(done)(x) {
      assert x in objects.Keys <==> x in T.Names(done);
    }
    FilterSame(Known(objects), Among(done), n.inputs);
    FilterSame(Known(objects), Among(done), Sources(edges, n.id));
  }

  lemma {:induction false} NoNames(order: seq<string>)
    ensures T.Names(order[..0]) == {}
  {
  }

  lemma {:induction false} NextName(order: seq<string>, k: nat, objects: Objects)
    requires k < |order| && objects.Keys == T.Names(order[..k])
    ensures objects.Keys + {order[k]} == T.Names(order[..k + 1])
  {
    assert order[..k + 1] == order[..k] + [order[k]];
  }

  // ----- what a node finds upstream -----

  /** Of several nodes with one id the last one counts. */
  lemma {:induction false} SpecOfLast(nodes: seq<Node>, i: nat)
    requires i < |nodes| && forall j :: i < j < |nodes| ==> nodes[j].id != nodes[i].id
    ensures nodes[i].id in Ids(nodes) && SpecOf(nodes, nodes[i].id) == nodes[i]
    decreases |nodes|
  {
    hide Ids;
    IdMember(nodes, i);
    var init := nodes[..|nodes| - 1];
    if i < |init| {
      SpecOfLast(init, i);
    }
  }

  function SourceOf(e: Edge): string { e.0 }

  function Into(id: string): Edge -> bool {
    (e: Edge) => e.1 == id
  }

  lemma {:induction false} SourcesInOrder(edges: seq<Edge>, id: string)
    ensures Sources(edges, id) == Map(SourceOf, Filter(Into(id), edges))
  {
    if edges != [] { SourcesInOrder(edges[1..], id); }
  }

  /** A node is given the inputs that exist, in their order; only when none exists it is given
      the existing sources of its edges, in theirs. */
  lemma {:induction false} UpstreamMembers(done: seq<string>, edges: seq<Edge>, n: Node, x: string)
    ensures var u := Upstream(Among(done), edges, n);
            && (x in u <==> x in done && (x in n.inputs || ((x, n.id) in edges && forall y :: y in n.inputs ==> y !in done)))
            && (if exists y :: y in n.inputs && y in done then u == Filter(Among(done), n.inputs)
                else u == Filter(Among(done), Map(SourceOf, Filter(Into(n.id), edges))))
  {
    var listed := Filter(Among(done), n.inputs);
    forall y ensures y in listed <==> y in n.inputs && y in done { FilterMembers(Among(done), n.inputs, y); }
    SourcesInOrder(edges, n.id);
    SourceEdge(edges, n.id, x);
    FilterMembers(Among(done), Sources(edges, n.id), x);
    hide Filter, Sources, Into, SourceOf;
    assert listed != [] ==> listed[0] in listed;
  }

  // ----- wiring compiled DAGs -----

  ghost predicate AllFed(nodes: seq<Node>) {
    forall n :: n in nodes && n.nodeType != Input ==> n.inputs != []
  }

  ghost predicate WiredToInputs(nodes: seq<Node>, objects: Objects) {
    forall n :: n in nodes ==> n.id in objects && objects[n.id] == n.inputs
  }

  lemma {:induction false} LeafInputs(nodes: seq<Node>, edges: seq<Edge>, order: seq<string>, nid: string)
    requires SortedDag(nodes, edges, order) && nid in Ids(nodes)
    ensures SpecOf(nodes, nid).nodeType == Input ==> SpecOf(nodes, nid).inputs == []
  {
    SpecOfMember(nodes, nid);
  }

  /** In a sorted compiled DAG each node is given its inputs, if it has any or needs none. */
  lemma {:induction false} CompiledAt(nodes: seq<Node>, edges: seq<Edge>, order: seq<string>, j: nat)
    requires SortedDag(nodes, edges, order) && OrderOf(nodes, order) && j < |order| && order[j] in Ids(nodes)
    ensures var n := SpecOf(nodes, order[j]);
            && GivenAt(nodes, edges, order, j) == n.inputs
            && (SuppliedAt(nodes, edges, order, j) <==> n.nodeType == Input || n.inputs != [])
  {
    hide SortedDag, SpecOf, UpstreamAt, Ids;
    UpstreamIsInputs(nodes, edges, order, j);
    LeafInputs(nodes, edges, order, order[j]);
  }

  lemma {:induction false} FindNode(nodes: seq<Node>, order: seq<string>, n: Node) returns (j: nat)
    requires Dense(nodes, 0) && OrderOf(nodes, order) && n in nodes
    ensures j < |order| && order[j] == n.id && n.id in Ids(nodes) && SpecOf(nodes, n.id) == n
  {
    hide Dense, SpecOf;
    var i :| 0 <= i < |nodes| && nodes[i] == n;
    assert Ids(nodes)[i] == n.id && n.id in Ids(nodes) && n.id in order;
    j :| 0 <= j < |order| && order[j] == n.id;
    SpecOfMember(nodes, n.id);
    SpecUnique(nodes, n, SpecOf(nodes, n.id));
  }

  lemma {:induction false} CompiledWired(nodes: seq<Node>, edges: seq<Edge>, order: seq<string>, objects: Objects)
    requires SortedDag(nodes, edges, order) && OrderOf(nodes, order) && WiredSoFar(nodes, edges, order, |order|, objects)
    ensures AllFed(nodes) && WiredToInputs(nodes, objects)
  {
    hide Dense, SpecOf, EdgesOf, OrderOf, Ids, GivenAt, SuppliedAt;
    forall n | n in nodes ensures n.id in objects && objects[n.id] == n.inputs && (n.nodeType == Input || n.inputs != []) {
      var j := FindNode(nodes, order, n);
      CompiledAt(nodes, edges, order, j);
    }
  }

  lemma {:induction false} CompiledStuck(nodes: seq<Node>, edges: seq<Edge>, order: seq<string>, id: string)
    requires SortedDag(nodes, edges, order) && OrderOf(nodes, order) && StuckAt(nodes, edges, order, id)
    ensures !AllFed(nodes)
  {
    hide SortedDag, SpecOf, Ids, GivenAt, SuppliedAt;
    var j :| 0 <= j < |order| && order[j] == id && !SuppliedAt(nodes, edges, order, j);
    assert order[j] in order;
    CompiledAt(nodes, edges, order, j);
    SpecOfMember(nodes, order[j]);
  }

  /** The whole of `setup`. It fails to sort exactly when the edges cross between declared and
      undeclared nodes or form a cycle; otherwise it wires the nodes along some topological
      order. For a compiled DAG the sort never fails, and wiring succeeds exactly when every
      node has inputs or is one; then each is wired to its inputs, in order, dropping none. */
  method SetupNodes(nodes: seq<Node>, edges: seq<Edge>) returns (r: Setup, ghost order: seq<string>)
    ensures r.SortFailed? <==> !(T.Scoped(FirstOccurrences(Ids(nodes)), edges) && T.Acyclic(FirstOccurrences(Ids(nodes)), edges))
    ensures !r.SortFailed? ==> T.Topological(FirstOccurrences(Ids(nodes)), edges, order) && OrderOf(nodes, order)
    ensures !r.SortFailed? ==> T.FirstReadyFirst(FirstOccurrences(Ids(nodes)), edges, order)
    ensures r.Wired? ==> WiredSoFar(nodes, edges, order, |order|, r.objects)
    ensures r.NoUpstream? ==> StuckAt(nodes, edges, order, r.id)
    ensures Dense(nodes, 0) && Leaves(nodes) && edges == EdgesOf(nodes) ==>
      && !r.SortFailed? && (r.Wired? <==> AllFed(nodes)) && (r.Wired? ==> WiredToInputs(nodes, r.objects))
  {
    hide Dense, Leaves, EdgesOf, AllFed, WiredToInputs, OnCycle, WiredSoFar, StuckAt, T.Topological, T.FirstReadyFirst, T.Acyclic, T.Scoped, Ids;
    var ids := Ids(nodes);
    var outcome := T.TopologicalOrder(ids, edges);
    if Dense(nodes, 0) && edges == EdgesOf(nodes) {
      CompiledSortable(nodes);
      DenseIds(nodes);
    }
    if !outcome.Ordered? {
      return SortFailed(outcome), [];
    }
    order := outcome.order;
    SortedOrder(nodes, edges, order);
    r := WireAll(nodes, edges, outcome.order);
    if Dense(nodes, 0) && Leaves(nodes) && edges == EdgesOf(nodes) {
      match r
      case Wired(objects) => CompiledWired(nodes, edges, order, objects);
      case NoUpstream(id) => CompiledStuck(nodes, edges, order, id);
    }
  }

  lemma {:induction false} SortedOrder(nodes: seq<Node>, edges: seq<Edge>, order: seq<string>)
    requires T.Topological(FirstOccurrences(Ids(nodes)), edges, order)
    ensures OrderOf(nodes, order)
  {
    hide Ids;
    var ids := Ids(nodes);
    DistinctMultiset(FirstOccurrences(ids), order);
    forall x ensures x in order <==> x in ids {
      assert x in multiset(order) <==> x in multiset(FirstOccurrences(ids));
    }
  }

  // ----- which expressions can be set up -----

  /** `-1 * x`, `x ** -1`, and a call whose operands after the first are parameters. */
  predicate Negated(e: Expr) {
    e.App? && e.func == "Mul" && |e.args| == 2 && e.args[0] == Num(-1.0)
  }

  predicate Inverted(e: Expr) {
    e.App? && e.func == "Pow" && |e.args| == 2 && e.args[1] == Num(-1.0)
  }

  predicate TakesParameters(f: string) {
    !Operator(f) && Indicator(f)
  }

  /** No constant is left as an operand, and no operator is without operands. The -1 of a
      difference, a quotient or a negation is not an operand, nor are an indicator's parameters. */
  predicate Fed(e: Expr)
    decreases e, 1
  {
    match e
    case Sym(_) => true
    case Num(_) => false
    case App(f, args) =>
      if f == "Add" && |args| == 2 && Negated(args[1]) then Fed(args[0]) && Fed(args[1].args[1])
      else if f == "Add" && |args| == 2 && Negated(args[0]) then Fed(args[1]) && Fed(args[0].args[1])
      else if f == "Mul" && |args| == 2 && Inverted(args[1]) then Fed(args[0]) && Fed(args[1].args[0])
      else if f == "Mul" && |args| == 2 && Inverted(args[0]) then Fed(args[1]) && Fed(args[0].args[0])
      else if Negated(e) then Fed(args[1])
      else if TakesParameters(f) then args != [] && Fed(args[0])
      else args != [] && FedAll(args)
  }

  predicate FedAll(es: seq<Expr>)
    decreases es, 0
  {
    es != [] ==> Fed(es[0]) && FedAll(es[1..])
  }

  lemma {:induction false} FedAllTwo(a: Expr, b: Expr)
    ensures FedAll([a, b]) <==> Fed(a) && Fed(b)
  {
    assert [a, b][1..] == [b];
    FedAllOne(b);
  }

  lemma {:induction false} FedAllOne(a: Expr)
    ensures FedAll([a]) <==> Fed(a)
  {
    assert [a][1..] == [];
  }

  /** Indicators are exactly the table entries with parameters; the others take all operands. */
  lemma {:induction false} TableArity(f: string)
    requires Lookup(f).Some?
    ensures var m := Lookup(f).value;
            if TakesParameters(f) then m.arity == Some(1) else m.paramNames == [] && m.nodeType !in {Input, Const}
  {
    TablesAgree(f);
    TableParams(f);
    if Lookup(f) == LookupIndicator(Upper(f)) { NotOperator(f); }
  }

  lemma {:induction false} MappedFed(f: string, args: seq<Expr>)
    requires MappedPlan(f, args).Some?
    ensures var ops := MappedPlan(f, args).value.operands;
            ops != [] && FedAll(ops) <==> if TakesParameters(f) then args != [] && Fed(args[0]) else args != [] && FedAll(args)
  {
    TableArity(f);
    hide Lookup, TakesParameters, Fed, FedAll, ParamMap;
    var ops := MappedPlan(f, args).value.operands;
    if TakesParameters(f) {
      assert ops == [args[0]];
      FedAllOne(args[0]);
    } else {
      assert ops == args;
    }
  }

  /** An operator's nodes are fed exactly when it is planned with operands that are. */
  lemma {:induction false} PlanFed(e: Expr)
    requires e.App? && PlanOf(e).Some?
    ensures Fed(e) <==> PlanOf(e).value.operands != [] && FedAll(PlanOf(e).value.operands)
  {
    hide Lookup, TakesParameters, FedAll, MappedPlan;
    if Subtraction(e).Some? {
      FedAllTwo(Subtraction(e).value.0, Subtraction(e).value.1);
    } else if Division(e).Some? {
      FedAllTwo(Division(e).value.0, Division(e).value.1);
    } else if UnaryNeg(e).Some? {
      FedAllOne(UnaryNeg(e).value);
    } else {
      MappedFed(e.func, e.args);
    }
  }

  lemma {:induction false} AllFedConcat(a: seq<Node>, b: seq<Node>)
    ensures AllFed(a + b) <==> AllFed(a) && AllFed(b)
  {
    assert forall n :: n in a + b <==> n in a || n in b;
  }

  lemma {:induction false} FedIff(e: Expr, base: nat)
    requires Compile(e, base).Ok?
    ensures AllFed(Compile(e, base).value) <==> Fed(e)
    decreases Size(e), 0
  {
    hide PlanOf, Lookup, Name, CompileAll, FedAll;
    if e.App? {
      hide Fed;
      PlanSmaller(e);
      PlanFed(e);
      var plan := PlanOf(e).value;
      var (ns, ids) := CompileAll(plan.operands, base).value;
      FedAllIff(plan.operands, base);
      PlansAreNotLeaves(e);
      AllFedConcat(ns, [Node(Name(base + |ns|), plan.nodeType, plan.params, ids)]);
    }
  }

  lemma {:induction false} FedAllIff(es: seq<Expr>, base: nat)
    requires CompileAll(es, base).Ok?
    ensures AllFed(CompileAll(es, base).value.0) <==> FedAll(es)
    ensures |CompileAll(es, base).value.1| == |es|
    decreases SizeAll(es), 1 + |es|
  {
    hide Compile, Name, AllFed, Fed;
    if es == [] {
      NoneUnfed();
    } else {
      var first := Compile(es[0], base).value;
      FedIff(es[0], base);
      FedAllIff(es[1..], base + |first|);
      AllFedConcat(first, CompileAll(es[1..], base + |first|).value.0);
    }
  }

  lemma {:induction false} NoneUnfed()
    ensures AllFed([])
  {
  }

  lemma {:induction false} CompiledSetup(e: Expr)
    requires Compile(e, 0).Ok?
    ensures var ns := Compile(e, 0).value; Dense(ns, 0) && Leaves(ns) && (AllFed(ns) <==> Fed(e))
  {
    hide Compile, Dense, Leaves, AllFed, Fed;
    CompileTree(e, 0);
    CompiledLeaves(e, 0);
    FedIff(e, 0);
  }

  /** Compiling an expression and setting up the resulting DAG: the sort never fails, and
      every node is wired to its inputs exactly when the normal form leaves no constant and
      no operator without operands. */
  method BuildAndSetup(key: Key, version: string, e: Expr) returns (r: Result<Setup>)
    ensures (r.Ok? <==> Compile(Normalize(key, e), 0).Ok?) && (r.Ok? <==> Supported(BecomesNumber(key), e))
    ensures r.Ok? ==> !r.value.SortFailed? && (r.value.Wired? <==> Fed(Normalize(key, e)))
    ensures r.Ok? && r.value.Wired? ==> WiredToInputs(Compile(Normalize(key, e), 0).value, r.value.objects)
  {
    hide Compile, Normalize, Fed, AllFed, Dense, Leaves, EdgesOf, WiredToInputs, Supported;
    var built := B.Build(key, version, e);
    if built.Err? { return Err; }
    CompiledSetup(Normalize(key, e));
    var setup, _ := SetupNodes(built.value.nodes, built.value.edges);
    return Ok(setup);
  }

  lemma {:induction false} LeafCompiles(e: Expr, base: nat)
    requires !e.App?
    ensures Compile(e, base).Ok? && |Compile(e, base).value| == 1
  {
  }

  lemma {:induction false} NothingCompiles(base: nat)
    ensures CompileAll([], base).Ok?
  {
  }

  lemma {:induction false} ListCompiles(es: seq<Expr>, base: nat)
    requires es != [] && Compile(es[0], base).Ok? && CompileAll(es[1..], base + |Compile(es[0], base).value|).Ok?
    ensures CompileAll(es, base).Ok?
  {
    hide Compile, Name;
  }

  lemma {:induction false} SumPlan(args: seq<Expr>)
    requires |args| == 2 && !args[0].App? && !args[1].App?
    ensures PlanOf(App("Add", args)) == Some(Plan(MathAdd, args, map[]))
  {
    assert args[..2] == args && args[2..] == [];
    assert Lookup("Add") == Some(Mapping(MathAdd, [], None));
    hide Lookup;
  }

  lemma {:induction false} LeavesCompile(args: seq<Expr>)
    requires |args| == 2 && !args[0].App? && !args[1].App?
    ensures Compile(App("Add", args), 0).Ok?
  {
    SumPlan(args);
    LeafCompiles(args[0], 0);
    LeafCompiles(args[1], 1);
    NothingCompiles(2);
    hide PlanOf, Lookup, Name, CompileAll;
    assert args[1..][1..] == [];
    ListCompiles(args[1..], 1);
    ListCompiles(args, 0);
  }

  /** A sum of a variable and a constant other than 0 is normal up to the order of the two. */
  lemma {:induction false} SumNormal(key: Key, x: Expr, c: Expr) returns (args: seq<Expr>)
    requires x.Sym? && c.Num? && c.value != 0.0
    ensures Normalize(key, App("Add", [x, c])) == App("Add", args) && |args| == 2
    ensures (args[0] == x && args[1] == c) || (args[0] == c && args[1] == x)
  {
    LeavesNormal(key, x, c);
    hide SortCommutative, Filter, Normalize, NormalizeAll, Simplify;
    args := SortCommutative(key, "Add", [x, c]);
    SortedArgs(key, "Add", [x, c]);
    TwoMembers(args, x, c);
    FilterAll(NotNeutral("Add"), args);
    NothingToDrop("Add", args);
    NormalizeApp(key, "Add", [x, c]);
  }

  lemma {:induction false} LeavesNormal(key: Key, x: Expr, c: Expr)
    requires !x.App? && !c.App?
    ensures NormalizeAll(key, [x, c]) == [x, c]
  {
    hide NormalizeAll;
    assert Normalize(key, x) == x && Normalize(key, c) == c;
  }

  lemma {:induction false} NothingToDrop(f: string, args: seq<Expr>)
    requires Arithmetic(f) && |args| >= 2 && Filter(NotNeutral(f), args) == args
    ensures Simplify(f, args) == App(f, args)
  {
    hide Filter;
  }

  lemma {:induction false} TwoMembers(args: seq<Expr>, x: Expr, c: Expr)
    requires |args| == 2 && forall e :: e in args <==> e in [x, c]
    ensures (args[0] == x && args[1] == c) || (args[0] == c && args[1] == x)
    ensures forall e :: e in args ==> e == x || e == c
  {
    assert args[0] in args && args[1] in args && [x, c][0] in args && [x, c][1] in args;
  }

  /** A constant operand compiles but cannot be set up. */
  lemma {:induction false} ConstantRefused(key: Key, name: string, value: real)
    requires value != 0.0
    ensures var e := Normalize(key, App("Add", [Sym(name), Num(value)])); Compile(e, 0).Ok? && !Fed(e)
  {
    hide Compile, Normalize;
    var args := SumNormal(key, Sym(name), Num(value));
    LeavesCompile(args);
    assert args == [args[0], args[1]];
    FedAllTwo(args[0], args[1]);
    hide FedAll;
  }
}

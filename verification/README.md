# QMTL core: a verified model

This project models the parts of QMTL whose correctness everything else leans on, and proves
what they are for:

- **Import cycles** (`Graph`, `Tarjan`, `ImportCycles`). Tarjan's search with its mutable
  numbering, low links and stack, the list of cyclic components, and the comparison with a
  recorded baseline.
- **Topological sort and wiring** (`TopoSort`, `SrWiring`). Kahn's algorithm over arbitrary
  node and edge lists, and the creation of node objects from their inputs.
- **Expressions** (`ExpressionKey`, `ExpressionForms`, `ExpressionDedup`, `ExpressionCollisions`,
  `SrExpr`, `SrNeutral`, `SrDag`, `SrSupport`, `SrCompiler`, `SrBuilder`). The two normalisers, the
  deduplication key, and the compiler from expressions to flat DAGs with a reference evaluator.
- **Node identity** (`PyValue`, `NodeParams`, `TagQuery`, `NodeSpec`, `NodeSpecAgreement`,
  `NodeSpecBuilder`, `NodeId`, `NodeValidation`, `WorldValues`, `WorldIndependence`). Canonical
  parameters, the two serialisation paths, the fluent builder, the collision-avoiding hash, the
  validating loop, and its independence of the world a node runs in.
- **Stateful protocols** (`CircuitBreaker`, `Reconnect`, `SchemaFlatten`, `SchemaRegistry`).
- **Compute context and key** (`ComputeContext`, `ContextEffects`, `ComputeKey`).

`Wrappers`, `Ordering`, `Sequences`, `Text` and `Operators` hold the optional values, lists, strings
and sums the rest needs.

How the model is set up:

- Code that updates state is a class or a method with loops; its `ensures` ties it to a
  function of the old state (or states the promise outright), and lemmas about that function
  say what the code is for.
- Foreign functions are parameters: JSON rendering, `repr` of containers, number parsing,
  digests and checksums (`PyValue.Host`), the rendering of non-integral constants (`repr`),
  the textual sort key of the DAG compiler (`key`), and operators whose meaning does not
  matter (`prim`, `ops`). Where a result needs such a function to tell values apart, this is
  assumed only for the values that occur.
- Numbers are exact reals and unbounded integers, strings are sequences of characters, case
  conversion covers ASCII letters. Exceptions are `Err`, `None` or a named outcome.

Where the code and its documentation disagree the model follows the code:

- `qmtl/integrations/sr/expression_key.py:88` announces `Sub(0, x) -> Neg(x)`; such a
  difference is left as it is, for every `x` (`ExpressionKey.SubtractionKept`).
- `qmtl/integrations/sr/dag.py:330-332` announces that equivalent expressions share a key, and
  line 100 that neutral elements are dropped when safe. A neutral operand beside two or more
  significant ones stays, and expressions that differ in one get different keys, however deep it
  stands (`SrNeutral.NeutralInsertion` and `SrBuilder.NeutralKey` say exactly when).
- `qmtl/foundation/common/nodespec.py:15-17` asks that node identity exclude environment fields;
  a tag query takes them in when its tags or its mode are, or contain, a mapping
  (`WorldIndependence.QueryIgnoresWorldIff` says exactly when).

Behaviour the documentation does not mention:

- Node types `math/sub`, `math/div` and `math/neg` have no case in the runtime table
  (`qmtl/integrations/sr/strategy_template.py:734-736`); the reference evaluator gives them
  their arithmetic meaning.
- A tag query without an interval is reported as lacking tags too, because the error text
  contains the word "TagQuery" (`qmtl/foundation/common/node_validation.py:177-182`,
  `NodeValidation.IntervalBlamesTags`).
- `with_overrides` re-evaluates the flags and can clear a downgrade
  (`ComputeContext.EmptyOverride` says exactly when, `ComputeContext.DowngradeCleared` that it
  happens).
- The expression key depends on names that avoid `(`, `)` and `,`, and on names or versions that
  avoid `:`; otherwise different expressions or versions collide
  (`ExpressionCollisions.SoundIff`).

## Model

| member | source | states |
|---|---|---|
| `ImportCycles.Search.StrongConnect` | scripts/check_import_cycles.py:28-51 | the recursive visit keeps the numbering, stack and low-link invariant, discovers only what is reachable, and leaves a low link that is attained and undercut by no edge of its stack segment; it ends because unvisited vertices run out |
| `ImportCycles.Search.ScanSuccessors` | scripts/check_import_cycles.py:36-41 | after the loop every successor is numbered and the low link accounts for all of them |
| `ImportCycles.Search.Finish` | scripts/check_import_cycles.py:43-51 | a root emits its component, any other vertex stays pending with an older anchor on the stack |
| `ImportCycles.Search.PopComponent` | scripts/check_import_cycles.py:45-50 | the pop loop removes exactly the stack from the root upwards and returns it without repetition |
| `Tarjan.RootComponent` | scripts/check_import_cycles.py:43-51 | what lies above a root on the stack is a whole strongly connected component |
| `Tarjan.EmitComponents` | scripts/check_import_cycles.py:45-51 | emitting it keeps the components disjoint, complete and in reverse topological order |
| `Tarjan.EmitKeeps` | scripts/check_import_cycles.py:43-51 | emitting keeps the whole search invariant |
| `Tarjan.LeaveKeeps` | scripts/check_import_cycles.py:43-43 | a call that is no root hands its invariant to its caller |
| `Tarjan.ScanChildKeeps` | scripts/check_import_cycles.py:37-39 | taking over the low link of a visited child keeps the invariant |
| `Tarjan.ScanKnownKeeps` | scripts/check_import_cycles.py:40-41 | taking over the number of a pending successor keeps the invariant |
| `ImportCycles.FindComponents` | scripts/check_import_cycles.py:53-55 | two visible vertices share a component exactly when each reaches the other, every visible vertex is in exactly one, and an edge leaving a component leads to an earlier one |
| `ImportCycles.ComponentCyclic` | scripts/check_import_cycles.py:57-64 | the size-or-self-import test holds exactly for components whose vertices lie on cycles |
| `ImportCycles.CyclesOfCorrect` | scripts/check_import_cycles.py:57-64 | a vertex is listed exactly when it was found and has a non-empty path back to itself |
| `ImportCycles.TarjanCycles` | scripts/check_import_cycles.py:18-65 | the report holds exactly the visible vertices on cycles, component by component, sorted by size and names, without repetition |
| `ImportCycles.ListedOnce` | scripts/check_import_cycles.py:57-65 | no vertex occurs in two entries |
| `ImportCycles.ReportOrder` | scripts/check_import_cycles.py:65-65 | shorter entries come first, and among those of one size the first members decide |
| `ImportCycles.ReportUnique` | scripts/check_import_cycles.py:53-65 | there is one correct report, whatever the order or repetition of the module list |
| `ImportCycles.GateCorrect` | scripts/check_import_cycles.py:123-148 | the check passes exactly when the component of every visible vertex on a cycle is recorded in the baseline |
| `ImportCycles.FreshBaselinePasses` | scripts/check_import_cycles.py:84-87 | a baseline just written is accepted |
| `TopoSort.CountIncoming` | qmtl/integrations/sr/strategy_template.py:630-634 | the counters hold the number of edges into each declared node |
| `TopoSort.Relax` | qmtl/integrations/sr/strategy_template.py:641-645 | taking a node off updates every counter and queues exactly the nodes that became ready, none twice |
| `TopoSort.TopologicalOrder` | qmtl/integrations/sr/strategy_template.py:630-648 | an order is produced exactly when no edge crosses between declared and undeclared names and no declared node lies on a cycle; it holds each node once, sources before targets, in the order in which the nodes become ready, those ready at the start as declared |
| `Ordering.FirstOccurrencesInOrder` | qmtl/integrations/sr/strategy_template.py:630-631 | the declared names are taken once, in the order of their first occurrences |
| `TopoSort.NextQueued` | qmtl/integrations/sr/strategy_template.py:636-645 | taking a node off and queueing what became ready keeps the queue in the order of readiness |
| `TopoSort.TopologicalAcyclic` | qmtl/integrations/sr/strategy_template.py:647-648 | a graph with a topological order has no cycle |
| `TopoSort.Stuck` | qmtl/integrations/sr/strategy_template.py:647-648 | an emptied queue with nodes left over means a cycle or an undeclared source |
| `TopoSort.FindCycle` | qmtl/integrations/sr/strategy_template.py:647-648 | nodes that all wait for each other contain a cycle (pigeonhole over predecessor paths) |
| `SrWiring.UpstreamIsInputs` | qmtl/integrations/sr/strategy_template.py:757-764 | when a node of a sorted compiled DAG is wired all its inputs exist, so the upstream list is its input list, in order |
| `SrWiring.CompiledSortable` | qmtl/integrations/sr/strategy_template.py:630-648 | a DAG in the builder's numbering is acyclic and closed, so the sort cannot fail |
| `SrWiring.WireAll` | qmtl/integrations/sr/strategy_template.py:752-791 | for any nodes and edges in any order of the nodes: each node that is no stream input is given its listed inputs created so far, or else the created sources of its edges; the first node that finds nothing is refused |
| `SrWiring.UpstreamMembers` | qmtl/integrations/sr/strategy_template.py:758-764 | what a node finds upstream: its inputs that exist, in order, and only when none exists the existing sources of its edges, in the order of the edges |
| `SrWiring.SpecOfLast` | qmtl/integrations/sr/strategy_template.py:630-630 | of several nodes with one id the last one counts |
| `SrWiring.SourcesExist` | qmtl/integrations/sr/strategy_template.py:759-764 | in a topological order all edge sources of a node exist when it is wired, so the fallback drops none |
| `SrWiring.CompiledWired` | qmtl/integrations/sr/strategy_template.py:752-791 | wiring a sorted compiled DAG to the end means every node but the stream inputs has inputs, and each is wired to exactly these |
| `SrWiring.CompiledStuck` | qmtl/integrations/sr/strategy_template.py:774-775 | a refusal means some node but the stream inputs has none |
| `SrWiring.SetupNodes` | qmtl/integrations/sr/strategy_template.py:630-791 | for any nodes and edges: it fails to sort exactly for crossing edges or cycles, otherwise it wires along that topological order as above; a compiled DAG is never unsortable, is wired exactly when all its nodes are fed, and then to exactly its inputs |
| `SrWiring.FedIff` | qmtl/integrations/sr/strategy_template.py:774-775 | the nodes of a compiled expression all have inputs exactly when no constant stands as an operand (the -1 of differences, quotients and negations and indicator parameters do not count) and no operator is without operands |
| `SrWiring.CompiledSetup` | qmtl/integrations/sr/dag.py:246-290 | what the compiler emits meets the conditions of setup, and is fed exactly for such expressions |
| `SrWiring.BuildAndSetup` | qmtl/integrations/sr/strategy_template.py:622-793 | building a spec, which succeeds exactly for such supported expressions, and setting it up: the sort never fails, and every node is wired to exactly its inputs exactly when the normal form is such an expression |
| `SrWiring.ConstantRefused` | qmtl/integrations/sr/strategy_template.py:774-775 | a sum of a variable and a constant other than 0 compiles and is refused by setup |
| `ExpressionKey.NormalizeMeaning` | qmtl/integrations/sr/expression_key.py:81-167 | sorting, folding and identity removal keep the value in every environment |
| `ExpressionKey.NormalizeIdempotent` | qmtl/integrations/sr/expression_key.py:81-167 | normalising twice is normalising once |
| `ExpressionForms.GroundFolds` | qmtl/integrations/sr/expression_key.py:125-138 | an expression built from constants, sums and products only normalises to the constant that is its value |
| `ExpressionForms.NormalReduced` | qmtl/integrations/sr/expression_key.py:81-167 | in a normal form every sum and product has two or more operands, not all constants and none neutral, and operands of the six commutative operators stand in the order of their texts |
| `ExpressionForms.OrderForgotten` | qmtl/integrations/sr/expression_key.py:100-126 | the order of two variables is forgotten exactly under the six commutative operators |
| `ExpressionForms.KeyTextSample` | qmtl/integrations/sr/expression_key.py:77-187 | the text hashed for one expression, literally |
| `ExpressionKey.CanonUnique` | qmtl/integrations/sr/expression_key.py:170-187 | the canonical string is uniquely decodable: an operand and what follows it are determined by the text |
| `ExpressionKey.ListUnique` | qmtl/integrations/sr/expression_key.py:184-187 | the same for operand lists |
| `ExpressionDedup.KeyIdentifiesNormalForm` | qmtl/integrations/sr/expression_key.py:68-78 | two key payloads are equal exactly when versions and normal forms are |
| `ExpressionDedup.DedupSound` | qmtl/integrations/sr/expression_key.py:77-187 | equal key payloads imply equal versions and equal values in every environment |
| `ExpressionKey.ReadableIff` | qmtl/integrations/sr/expression_key.py:170-187 | for every set of characters, canonical strings tell apart the expressions whose names avoid the set exactly when it holds `(`, `)` and `,` |
| `ExpressionCollisions.SoundIff` | qmtl/integrations/sr/expression_key.py:77-187 | for every set of characters that names avoid and every set that versions avoid, keys are sound (same version, same value everywhere) exactly when names avoid `(`, `)` and `,` and names or versions avoid `:` |
| `ExpressionCollisions.VersionFromEnd` | qmtl/integrations/sr/expression_key.py:77-77 | if names avoid the colon too, the version can be told from the end of the payload, whatever it contains |
| `ExpressionKey.SubtractionKept` | qmtl/integrations/sr/expression_key.py:118-167 | a difference from 0 keeps its form, whatever is subtracted |
| `ExpressionCollisions.CollisionConfused` | qmtl/integrations/sr/expression_key.py:184-187 | for each of the three characters, two expressions of different value with one key and no other character in their names |
| `ExpressionCollisions.ColonConfused` | qmtl/integrations/sr/expression_key.py:77-77 | with colons in versions and names two versions collide |
| `ExpressionDedup.DedupComplete` | qmtl/integrations/sr/expression_key.py:100-167 | expressions linked by reordering commutative operands and inserting or removing neutral operands, at any depth, share the key payload |
| `ExpressionDedup.NormalFormComplete` | qmtl/integrations/sr/expression_key.py:100-167 | and, when well named, the normal form |
| `SrExpr.NormalizeMeaning` | qmtl/integrations/sr/dag.py:95-149 | normalising keeps the value, defined or not, in every environment |
| `SrExpr.NormalizeIdempotent` | qmtl/integrations/sr/dag.py:95-157 | normalising twice is normalising once, whatever the sort key |
| `SrNeutral.NormalShape` | qmtl/integrations/sr/dag.py:95-149 | a sum or product with at most one significant operand becomes that operand or its neutral element, a power of one its base, and anything else keeps its operator and all its operands, sorted exactly under the six commutative operators |
| `SrNeutral.PowerOfOne` | qmtl/integrations/sr/dag.py:146-149 | a power normalises to its base exactly when its exponent normalises to one |
| `SrNeutral.OrderForgotten` | qmtl/integrations/sr/dag.py:128-131 | the order of two variables that the sort key tells apart is forgotten exactly under the six commutative operators |
| `SrExpr.ReorderingNormal` | qmtl/integrations/sr/dag.py:110-131 | one reordering of commutative operands at any depth keeps the normal form when the sort key tells operands apart |
| `SrExpr.ReorderingDistinguishes` | qmtl/integrations/sr/dag.py:128-131 | after it the sort key still tells operands apart |
| `SrExpr.ReorderingsNormal` | qmtl/integrations/sr/dag.py:110-131 | so any number of reorderings keep the normal form |
| `SrBuilder.ReorderedSameKey` | qmtl/integrations/sr/dag.py:152-157 | and the expression key |
| `SrBuilder.KeyPayloadIff` | qmtl/integrations/sr/dag.py:152-157 | payloads of versions without a colon agree exactly when the versions and the printed normal forms do |
| `SrNeutral.NeutralInsertion` | qmtl/integrations/sr/dag.py:110-143 | adding a neutral operand at any depth keeps the normal form exactly when at most one other operand beside it is significant |
| `SrNeutral.InsertionShows` | qmtl/integrations/sr/dag.py:110-149 | otherwise the two normal forms stay different applications at every level above |
| `SrBuilder.NeutralKey` | qmtl/integrations/sr/dag.py:152-157 | and the same for the expression key, if the printed form tells the two normal forms apart |
| `SrCompiler.TablesAgree` | qmtl/integrations/sr/dag.py:51-85 | every table entry sends an operator to the node type that computes it |
| `SrSupport.CompileIff` | qmtl/integrations/sr/dag.py:181-290 | an expression compiles exactly when it is built from leaves, operators with their exact number of supported operands, and indicators with one supported operand followed by exactly one, three or no numbers |
| `SrSupport.MappedIff` | qmtl/integrations/sr/dag.py:181-209 | when a call is planned, and which of its arguments become operands |
| `SrSupport.IndicatorNumbers` | qmtl/integrations/sr/dag.py:74-209 | the node type of each indicator and its numbers, in order, under the names the runtime reads |
| `SrSupport.NormalSupported` | qmtl/integrations/sr/dag.py:95-149 | the normal form is supported exactly when the expression is, with parameters that become numbers |
| `SrSupport.SumAsPeriod` | qmtl/integrations/sr/dag.py:202-208 | a sum that normalises to a number serves as a period, though the raw expression is refused |
| `SrCompiler.PlanMeaning` | qmtl/integrations/sr/dag.py:191-290 | the node emitted for an operator, including recognised subtraction, division and negation and extracted parameters, computes that operator |
| `SrCompiler.CompileMeaning` | qmtl/integrations/sr/dag.py:246-290 | running the emitted nodes gives the last one the value of the expression and disturbs no earlier node |
| `SrCompiler.CompilerCorrect` | qmtl/integrations/sr/dag.py:334-337 | for every accepted expression the DAG of its normal form evaluates to the value of the original in every environment |
| `SrCompiler.CompileTree` | qmtl/integrations/sr/dag.py:168-179 | ids are dense, inputs point strictly backwards, every node but the last is consumed exactly once |
| `SrCompiler.EdgesAreInputs` | qmtl/integrations/sr/dag.py:173-176 | an edge exists exactly for each listed input |
| `SrCompiler.OneConsumerEach` | qmtl/integrations/sr/dag.py:246-290 | there is one edge less than nodes, each node but the output has one consumer, the output none |
| `SrBuilder.DagBuilder.Add` | qmtl/integrations/sr/dag.py:168-179 | appends one node with the next id and one edge per input |
| `SrBuilder.DagBuilder.Walk` | qmtl/integrations/sr/dag.py:246-290 | appends exactly the nodes and edges of the compiled expression and returns its node, or refuses exactly when the expression is not supported (`SrSupport.Supported`) |
| `SrBuilder.Build` | qmtl/integrations/sr/dag.py:319-350 | a spec is built exactly for expressions that are supported up to parameters that become numbers; it holds the compiled normal form, its edges and output, and the key of the raw expression although it is computed from the normalised one |
| `SrBuilder.BuiltDagMeaning` | qmtl/integrations/sr/dag.py:334-347 | the built spec evaluates to the original expression |
| `NodeParams.CanonIgnoresExcluded` | qmtl/foundation/common/nodespec.py:86-126 | excluded entries at any depth have no influence on the canonical parameters |
| `NodeParams.CanonAscending` | qmtl/foundation/common/nodespec.py:108-118 | the keys of a canonical mapping are strictly ascending |
| `NodeParams.CanonContents` | qmtl/foundation/common/nodespec.py:100-118 | a canonical mapping holds exactly the keys that are not excluded, with canonical values |
| `NodeParams.ExcludedIff` | qmtl/foundation/common/nodespec.py:18-35 | which keys are excluded: the listed names and everything that starts with `env_`, in any case of letters |
| `NodeParams.CanonPlain` | qmtl/foundation/common/nodespec.py:86-97 | numbers, booleans, texts and null are their own canonical form, bytes their text, lists element by element in order |
| `NodeParams.CanonEqualIff` | qmtl/foundation/common/nodespec.py:86-126 | two mappings have the same canonical form exactly when they agree on every key that is not excluded |
| `NodeParams.SetOrderIrrelevant` | qmtl/foundation/common/nodespec.py:129-140 | a set's iteration order does not matter when the JSON text tells its members apart |
| `TagQuery.SplitTagList` | qmtl/foundation/common/tagquery.py:25-37 | the loop yields the stripped, non-blank parts in order |
| `TagQuery.SplitJoin` | qmtl/foundation/common/tagquery.py:30-31 | splitting at commas is undone by joining and leaves no comma |
| `TagQuery.TagOrderIrrelevant` | qmtl/foundation/common/tagquery.py:86-104 | order, repetition and surrounding blanks of listed tags never matter |
| `TagQuery.ModeIff` | qmtl/foundation/common/tagquery.py:40-45 | the mode is "all" exactly for a text that spells it in some case, an error exactly for a value that is neither false nor text, and "any" otherwise |
| `TagQuery.TagParamsFields` | qmtl/foundation/common/tagquery.py:86-104 | the canonical parameters field by field: the given tags sorted and distinct, the mode, the interval as a number if it is one |
| `NodeSpec.NormalizeDependencies` | qmtl/foundation/common/nodespec.py:45-60 | the loop computes the sorted non-empty names |
| `NodeSpec.NormDepsMembers` | qmtl/foundation/common/nodespec.py:45-60 | a name is among the normalised dependencies exactly when some item that is not null has it and it is not empty |
| `NodeSpec.NormDepsTwice` | qmtl/foundation/common/nodespec.py:45-60 | normalised dependencies are left alone by a second normalisation |
| `NodeSpec.CompatTwice` | qmtl/foundation/common/nodespec.py:63-78 | a settled compatibility id passes the check against the same legacy id |
| `NodeSpecAgreement.PlainSerializersAgree` | qmtl/foundation/common/nodespec.py:374-424 | for nodes that are no tag queries both serialisations agree exactly under four conditions on the payload |
| `NodeSpecAgreement.TagSerializersAgree` | qmtl/foundation/common/nodespec.py:374-424 | for tag queries, parameters under `params` or `config`, they agree exactly when texts, dependencies, interval, tags and mode are read alike |
| `NodeSpecAgreement.SerializersAgree` | qmtl/foundation/common/nodespec.py:337-424 | for payloads with textual type and hash, one dependency field, visible parameters and, for tag queries, a usable interval and tags, both serialisations agree, refusals included |
| `NodeSpecAgreement.TagValueInjective` | qmtl/foundation/common/tagquery.py:98-104 | canonical tag parameters determine tags, mode and interval |
| `NodeSpecAgreement.QueryParamsIff` | qmtl/foundation/common/tagquery.py:86-137 | two tag queries share their canonical parameters exactly when they have the same tags and interval and both or neither ask for all tags |
| `NodeSpecAgreement.ModesDiffer` | qmtl/foundation/common/tagquery.py:40-45 | a query for all tags and a query for any never share their serialised parts |
| `NodeSpecBuilder.CanonicalNodeSpec.constructor` | qmtl/foundation/common/nodespec.py:193-207 | a new builder is empty |
| `NodeSpecBuilder.CanonicalNodeSpec.WithNodeType` | qmtl/foundation/common/nodespec.py:210-212 | sets the type and nothing else |
| `NodeSpecBuilder.CanonicalNodeSpec.WithInterval` | qmtl/foundation/common/nodespec.py:214-220 | sets number and payload value together, or raises and changes nothing |
| `NodeSpecBuilder.CanonicalNodeSpec.WithPeriod` | qmtl/foundation/common/nodespec.py:222-228 | the same for the period |
| `NodeSpecBuilder.CanonicalNodeSpec.WithParams` | qmtl/foundation/common/nodespec.py:230-239 | sets the parameters, their field name and whether they are written |
| `NodeSpecBuilder.CanonicalNodeSpec.WithDependencies` | qmtl/foundation/common/nodespec.py:244-246 | stores normalised dependencies, or raises and changes nothing |
| `NodeSpecBuilder.CanonicalNodeSpec.WithSchemaCompatId` | qmtl/foundation/common/nodespec.py:248-254 | stores the settled id, or raises on a conflict and changes nothing |
| `NodeSpecBuilder.CanonicalNodeSpec.WithCodeHash` | qmtl/foundation/common/nodespec.py:256-258 | sets the code hash and nothing else |
| `NodeSpecBuilder.CanonicalNodeSpec.WithExtra` | qmtl/foundation/common/nodespec.py:260-264 | stores an extra, or refuses a reserved key and changes nothing |
| `NodeSpecBuilder.CanonicalNodeSpec.UpdateExtras` | qmtl/foundation/common/nodespec.py:266-271 | merges exactly the entries that are not reserved |
| `NodeSpecBuilder.CanonicalNodeSpec.Read` | qmtl/foundation/common/nodespec.py:336-371 | the builder made from a payload, or a refusal exactly where a setter raises |
| `NodeSpecBuilder.CanonicalNodeSpec.Write` | qmtl/foundation/common/nodespec.py:310-334 | the payload of the builder, which the round-trip lemmas are about |
| `NodeSpecBuilder.EveryChainBuilt` | qmtl/foundation/common/nodespec.py:193-271 | after any sequence of setter calls, failing ones included, extras hold no reserved key, dependencies are sorted and non-empty, the compatibility id is stripped and numbers match their payload values |
| `NodeSpecBuilder.FromPayloadIsChain` | qmtl/foundation/common/nodespec.py:336-371 | reading a payload is calling the setters one by one up to the first that raises |
| `NodeSpecBuilder.BuilderRoundTrip` | qmtl/foundation/common/nodespec.py:310-371 | a builder can be read back from its own payload exactly when its parameters are readable and no legacy id among the extras interferes |
| `NodeSpecBuilder.ChainRoundTrip` | qmtl/foundation/common/nodespec.py:209-371 | the same for the outcome of any sequence of setter calls |
| `NodeSpecBuilder.PayloadRoundTrip` | qmtl/foundation/common/nodespec.py:310-371 | a builder made from a payload always can, and serialises to the same bytes |
| `NodeSpecBuilder.OtherFieldsKept` | qmtl/foundation/common/nodespec.py:310-371 | every field outside the builder's own eight passes from payload to payload unchanged |
| `NodeId.BytesIdentify` | qmtl/foundation/common/nodespec.py:413-424 | the hashed bytes are equal exactly when all parts are, up to the JSON text of the parameters, if no other part contains the separator |
| `NodeId.RenderFields` | qmtl/foundation/common/nodespec.py:413-424 | the hashed bytes, literally: seven fields in order with bars between |
| `NodeId.DecodableIff` | qmtl/foundation/common/nodespec.py:413-424 | if the text of the parameters is self-delimiting, as JSON is, the bytes determine the parts exactly when type, compatibility id and hash avoid the bar and dependencies avoid the comma |
| `NodeId.HashBlake3` | qmtl/foundation/common/nodeid.py:29-49 | the retry loop ends within one retry more than there are identifiers and returns the first candidate outside the set: the plain digest if it is free, else a digest of the data with the number of the retry |
| `NodeId.FirstFreeUnique` | qmtl/foundation/common/nodeid.py:29-49 | that candidate is unique, so the result is deterministic |
| `NodeId.ComputeNodeId` | qmtl/foundation/common/nodeid.py:52-64 | the identifier is the first free candidate for the serialised node, or an error exactly when it does not serialise; without identifiers to avoid it is `Identify` |
| `NodeId.IdentifyIff` | qmtl/foundation/common/nodeid.py:52-64 | if the digest tells the two rendered texts apart, two nodes share their identifier exactly when all seven fields agree, the parameters up to their JSON text |
| `NodeId.RetryDataDistinct` | qmtl/foundation/common/nodeid.py:42-44 | different retries hash different data |
| `NodeValidation.ValidateNodeIdentity` | qmtl/foundation/common/node_validation.py:213-276 | the loop with its four lists computes the specified report, or raises exactly when some node's examination does |
| `NodeValidation.ReportExact` | qmtl/foundation/common/node_validation.py:218-266 | each list names exactly the nodes with that fault: incomplete, contradictory schema ids, complete but misidentified |
| `NodeValidation.RecordsTruthful` | qmtl/foundation/common/node_validation.py:218-266 | every record tells the truth about its node: the fields it lacks, the identifier it carries and the one it should, the two schema ids that contradict each other |
| `NodeValidation.ContradictoryIff` | qmtl/foundation/common/nodespec.py:63-78 | the schema ids of a node contradict each other exactly when both are there, stripped, and differ |
| `NodeValidation.CodesTell` | qmtl/foundation/common/node_validation.py:156-166 | the error code names the first kind of fault there is: fields, schema ids, checksum, identifiers |
| `NodeValidation.StandardRequirements` | qmtl/foundation/common/node_validation.py:16-22 | the standard fields are present exactly with type, three hashes, and a compatibility id of its own or a legacy one |
| `NodeValidation.NoneMissing` | qmtl/foundation/common/node_validation.py:249-251 | nothing required is missing exactly when every field is there, the compatibility id possibly through the legacy field |
| `NodeValidation.QueryNothingMissing` | qmtl/foundation/common/node_validation.py:169-184 | a tag query lacks nothing exactly when its canonical parameters exist with a tag and an interval |
| `NodeValidation.IntervalBlamesTags` | qmtl/foundation/common/node_validation.py:172-184 | a tag query is said to lack tags and interval exactly when it has tags and no number as its interval |
| `NodeValidation.AcceptedIff` | qmtl/foundation/common/node_validation.py:143-166 | a list is accepted exactly when every mapping in it is complete and carries its canonical identifier and the checksum is that of these identifiers |
| `WorldValues.MappingFreeFixed` | qmtl/foundation/common/nodespec.py:86-126 | a value without mappings is the same in every world |
| `WorldIndependence.IdentityIgnoresWorld` | qmtl/foundation/common/nodeid.py:52-64 | reordering dependencies and changing excluded entries keeps the serialised parts and the identifier, for a tag query if its own tags and mode hold no mapping |
| `WorldIndependence.QueryIgnoresWorldIff` | qmtl/foundation/common/tagquery.py:107-137 | a tag query has the same parts in every world exactly when it takes neither tags nor mode from a value with a mapping inside (given that the text of a container shows its plain keys and the text of the containers in it) |
| `WorldIndependence.TagsSeen` | qmtl/foundation/common/tagquery.py:25-37 | a fresh excluded name slipped into a mapping among the chosen tags changes the serialised parts |
| `WorldIndependence.ModeSeen` | qmtl/foundation/common/tagquery.py:40-45 | an excluded entry in a mapping given as the mode changes the outcome |
| `WorldValues.TruthSettledIff` | qmtl/foundation/common/node_validation.py:249-249 | whether parameters count as present is the same in every world exactly when they are no mapping or hold an entry that is not excluded |
| `WorldIndependence.AcceptanceIgnoresWorld` | qmtl/foundation/common/node_validation.py:213-288 | the whole report, checksum and outcome of a node list are the same in every world, under conditions on the list alone |
| `WorldIndependence.StandardAcceptance` | qmtl/foundation/common/node_validation.py:16-22 | with the standard required fields only tag queries that read a mapping are excepted |
| `CircuitBreaker.AsyncCircuitBreaker.Begin` | qmtl/foundation/common/circuit_breaker.py:53-57 | a call is admitted exactly when the circuit is closed |
| `CircuitBreaker.AsyncCircuitBreaker.Failed` | qmtl/foundation/common/circuit_breaker.py:58-67 | counts, reports and possibly opens, as the failure step says |
| `CircuitBreaker.AsyncCircuitBreaker.Succeeded` | qmtl/foundation/common/circuit_breaker.py:68-71 | clears the counter, as the success step says |
| `CircuitBreaker.AsyncCircuitBreaker.ResetCircuit` | qmtl/foundation/common/circuit_breaker.py:42-48 | closes and clears, reporting a closing exactly when it was open |
| `CircuitBreaker.CounterIsTrailingFailures` | qmtl/foundation/common/circuit_breaker.py:58-71 | under every interleaving the counter is the number of failed completions since the last success or reset |
| `CircuitBreaker.ClosedBelowLimit` | qmtl/foundation/common/circuit_breaker.py:62-64 | a closed breaker is below a limit of at least one in every reachable state, and a smaller limit is violated at once |
| `CircuitBreaker.OpenIffTripped` | qmtl/foundation/common/circuit_breaker.py:58-66 | it is open exactly when since the last reset a failure brought the trailing failures to the limit |
| `CircuitBreaker.NoCallStartsWhileOpen` | qmtl/foundation/common/circuit_breaker.py:53-55 | between an opening and the next reset it stays open and starts no call |
| `CircuitBreaker.CallbacksAlternate` | qmtl/foundation/common/circuit_breaker.py:42-66 | openings and closings are reported strictly in turn, and it is open exactly when the last was an opening |
| `CircuitBreaker.FailureReported` | qmtl/foundation/common/circuit_breaker.py:59-61 | each failed completion reports the count it leads to, before an opening |
| `CircuitBreaker.OpenWithZeroFailures` | qmtl/foundation/common/circuit_breaker.py:57-70 | calls in flight can leave an open breaker with no failures |
| `Reconnect.ReconnectingSession.RefreshSession` | qmtl/foundation/common/reconnect.py:86-89 | closes one session and creates one |
| `Reconnect.ReconnectingSession.Attempt` | qmtl/foundation/common/reconnect.py:91-109 | calls the session exactly when there is no breaker or it is closed, with the breaker's start and completion steps |
| `Reconnect.ReconnectingSession.Run` | qmtl/foundation/common/reconnect.py:104-114 | returns exactly when a call within the budget (attempts and remaining failures) succeeds, makes no further call, replaces the session once per failed attempt but the last, keeps exactly one open |
| `SchemaFlatten.FlattenLeaves` | qmtl/foundation/schema/registry.py:306-319 | for any object, whatever its keys: every flattened path comes from a leaf of its type, and no leaf's path is missing |
| `SchemaFlatten.FlattenIsLeaves` | qmtl/foundation/schema/registry.py:306-319 | a flattened path stands for exactly the leaves that have it precisely when these are of one type |
| `SchemaFlatten.TidyUnambiguous` | qmtl/foundation/schema/registry.py:308-309 | which holds for every path when keys are non-empty, distinct and dot-free |
| `SchemaFlatten.PathUnique` | qmtl/foundation/schema/registry.py:309-309 | a dotted path determines its keys |
| `SchemaFlatten.WholeDocument` | qmtl/foundation/schema/registry.py:296-303 | documents that are no object flatten to one path, and alike exactly when both are no JSON or both are JSON of one type |
| `SchemaFlatten.CompatibleIff` | qmtl/foundation/schema/registry.py:166-175 | no breaking change exactly when the old flattened schema is a sub-map of the new; the changes are exactly the lost and retyped paths |
| `SchemaRegistry.AlwaysNumbered` | qmtl/foundation/schema/registry.py:209-214 | in every run versions are 1..n per subject and ids are unique and below the counter |
| `SchemaRegistry.RegisterEffect` | qmtl/foundation/schema/registry.py:118-148 | a refusal stores nothing and uses no id, an acceptance appends one version; acceptance is canary mode, first version, or sub-map |
| `SchemaRegistry.ReportKept` | qmtl/foundation/schema/registry.py:143-185 | the report kept names exactly the lost, retyped and new paths and carries the new schema's numbers exactly when one was stored |
| `SchemaRegistry.StrictVersionsKeepPaths` | qmtl/foundation/schema/registry.py:118-175 | over strictly registered versions the earlier flattened schema is a sub-map of the later |
| `SchemaRegistry.StrictVersionsKeepLeaves` | qmtl/foundation/schema/registry.py:118-319 | so between objects every leaf of the earlier document whose path stands for one type is in the later, with its path and type |
| `SchemaRegistry.TidyLeafKept` | qmtl/foundation/schema/registry.py:306-319 | and between objects with tidy keys it also keeps its keys |
| `SchemaRegistry.SchemaRegistryClient.RegisterSchema` | qmtl/foundation/schema/registry.py:118-148 | the method performs that step with the requested or the client's mode and returns the stored schema |
| `SchemaRegistry.SchemaRegistryClient.Get` | qmtl/foundation/schema/registry.py:191-195 | the version asked for, if it exists |
| `SchemaRegistry.SchemaRegistryClient.GetById` | qmtl/foundation/schema/registry.py:197-203 | some stored schema with the id exactly when there is one |
| `ComputeContext.ResolveExecutionDomain` | qmtl/foundation/common/compute_context.py:107-124 | the loop finds the first segment that is an alias |
| `ComputeContext.ResolveIdempotent` | qmtl/foundation/common/compute_context.py:107-124 | resolving a domain twice is resolving it once |
| `ContextEffects.AliasIff` | qmtl/foundation/common/compute_context.py:27-50 | which spellings stand for which domain |
| `ContextEffects.SqueezeDropsGaps` | qmtl/foundation/common/compute_context.py:107-124 | blanks, underscores and hyphens inside a segment do not matter |
| `ContextEffects.SegmentsBetween` | qmtl/foundation/common/compute_context.py:107-124 | the segments are what stands between slashes and colons |
| `ContextEffects.FirstSpelling` | qmtl/foundation/common/compute_context.py:107-124 | the first segment that spells a domain decides |
| `ContextEffects.NoSpelling` | qmtl/foundation/common/compute_context.py:107-124 | without one the domain is the text in lower case |
| `ComputeContext.ConstructorPromises` | qmtl/foundation/common/compute_context.py:176-187 | no constructor call leaves the domain missing or a dry run without as-of; all promises hold exactly when it downgrades by itself or the given flags agree |
| `ContextEffects.DowngradeIff` | qmtl/foundation/common/compute_context.py:136-160 | a domain is downgraded exactly when it is absent, blank or "default", or needs an as-of that is missing; the reason says which, and any other domain becomes its stripped lower-case text |
| `ComputeContext.EveryContextIsSafe` | qmtl/foundation/common/compute_context.py:136-295 | along every chain of factories and overrides the domain is there, a dry run has an as-of, and downgraded, safe mode and having a reason coincide and force backtest |
| `ComputeContext.EveryReasonExplained` | qmtl/foundation/common/compute_context.py:141-160 | along every chain only a context without an as-of blames the as-of |
| `ComputeContext.DowngradeWithAsOf` | qmtl/foundation/common/compute_context.py:145-149 | a downgrade with an as-of is blamed on the missing decision |
| `ComputeContext.WorldServiceDomain` | qmtl/foundation/common/compute_context.py:332-353 | a decision puts the context in the domain of its mode unless the as-of it needs is missing |
| `ContextEffects.ModeDomainIff` | qmtl/foundation/common/compute_context.py:52-80 | which modes of a decision stand for which domain |
| `ContextEffects.MoveFields` | qmtl/foundation/common/compute_context.py:189-295 | for every factory and every change: world, as-of, partition and fingerprint are the stripped argument, or nothing for a blank one, and the old value where no argument is given |
| `ContextEffects.OverrideDomain` | qmtl/foundation/common/compute_context.py:192-225 | overriding with a text that resolves to a canonical domain puts any context in that domain, or in a downgraded backtest exactly when the domain needs an as-of and there is none |
| `ContextEffects.OverrideByName` | qmtl/foundation/common/compute_context.py:192-225 | so each canonical domain takes effect under its own name |
| `ContextEffects.OverrideKeepsDomain` | qmtl/foundation/common/compute_context.py:192-225 | without a domain argument the domain stays, unless the as-of it needs is gone |
| `ContextEffects.InitialDomain` | qmtl/foundation/common/compute_context.py:270-295 | the same for the factories |
| `ContextEffects.WorldOnly` | qmtl/foundation/common/compute_context.py:189-190 | changing the world changes nothing else |
| `ComputeContext.EmptyOverride` | qmtl/foundation/common/compute_context.py:192-225 | an override without arguments clears a downgrade exactly when an as-of is present |
| `ComputeContext.DowngradeCleared` | qmtl/foundation/common/compute_context.py:192-225 | a factory given an as-of and no domain yields a downgraded context, and an override without arguments clears the downgrade |
| `ComputeKey.KeyTextIdentifies` | qmtl/foundation/common/compute_key.py:19-23 | the joined text identifies its parts exactly when no part contains the separator |
| `ComputeKey.KeyText` | qmtl/foundation/common/compute_key.py:16-23 | the hashed text, literally: node, world, domain, as-of and partition, nothing for what is absent |
| `ComputeKey.KeySeparates` | qmtl/foundation/common/compute_key.py:19-23 | equal key texts mean the same node, world, domain, as-of and partition, an absent value counting as empty |

## Left out

- Hash functions, CRC-32, JSON rendering and JSON parsing: parameters; results are stated on the hashed text.
- SymPy: parsing, `srepr`, automatic evaluation, the difference between integers and floats, and the fallback that keeps an expression whose constructor fails; the model has its own expression type.
- Floating-point rounding: constants are exact reals, so results about folded constants do not cover rounding.
- SrBuilder.DagBuilder.Walk: boolean atoms, and any other node for which SymPy's `is_Boolean` holds, become constants before operators are looked up; the model has no boolean atoms and assumes `And`, `Or` and `Not` do not take that branch.
- Node labels and the metadata fields of a built DAG (equation, complexity, loss, data specification).
- `_make_compute` and stream extraction in the strategy template: they depend on SDK classes outside the modelled files and lack several emitted node types.
- `compute_expression_key` with `normalize=False` or with a string that needs parsing, and AST nodes without a type or children.
- WorldIndependence.QueryIgnoresWorldIff: assumes of the host's text of containers only that it shows keys made of lower-case letters and underscores, which no quoting changes, and the text of the containers inside; what else it shows is not modelled.
- Mappings with keys that are not strings are modelled through their text form only; sets are lists in iteration order; `MatchMode` members count as their string values; bytes are assumed to decode.
- Deep copies of parameters in the builder: values are immutable in the model, so aliasing is not captured.
- Case conversion outside ASCII.
- Callbacks of the circuit breaker that call back into it, and wall-clock time: only whether the circuit is open matters.
- CircuitBreaker.AsyncCircuitBreaker.Begin: the set of running calls and the list of signals are bookkeeping of the model.
- Reconnect.ReconnectingSession.Run: closing, reconnecting and creating a session are taken not to fail, and no other user of the breaker runs in between.
- Remote schema registry, Redis and Neo4j drivers, metrics, environment configuration: network and process plumbing.
- Writing the cycle baseline to disk and building the import graph: file and package access.
- Building a context from a metadata mapping: only which arguments reach the common factory; reading the mapping would add easy members.

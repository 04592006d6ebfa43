/** The import-cycle check: Tarjan's search, the list of cyclic components, and
    the comparison with a recorded baseline. */
module ImportCycles {
  import opened Ordering
  import opened Graph
  import opened Tarjan

  // ----- the search -----

  class Search {
    const edges: Graph
    var index: nat
    var indices: map<string, nat>
    var lowlink: map<string, nat>
    var stack: seq<string>
    var onstack: set<string>
    var sccs: seq<seq<string>>

    ghost function St(): State
      reads this
    {
      State(index, indices, lowlink, stack, onstack, sccs)
    }

    constructor (edges: Graph)
      ensures this.edges == edges && St() == State(0, map[], map[], [], {}, [])
    {
      this.edges := edges;
      index, indices, lowlink, stack, onstack, sccs := 0, map[], map[], [], {}, [];
    }

    method StrongConnect(v: string, ghost gray: set<string>, ghost universe: set<string>)
      requires Inv(edges, St(), gray) && Mirrored(St()) && v !in indices
      requires forall x :: x in gray ==> Reach(edges, x, v)
      requires v in universe && Closed(edges, universe)
      modifies this
      ensures Visited(edges, old(St()), St(), gray, v)
      ensures Mirrored(St()) && old(stack) <= stack
      decreases universe - indices.Keys, 1
    {
      hide Scanning, Visited, Inv, Reach;
      ghost var s0 := St();
      indices := indices[v := index];
      lowlink := lowlink[v := index];
      index := index + 1;
      stack := stack + [v];
      onstack := onstack + {v};
      var ws := SortedSet(Succ(edges, v));
      EnterKeeps(edges, s0, gray, v, ws);
      EnterMirrors(edges, s0, gray, v);
      assert Enter(s0, v) == St();
      ScanSuccessors(v, ws, s0, gray, universe);
      Finish(v, ws, s0, gray);
    }

    /** The end of the call: a root pops its component. */
    method Finish(v: string, ghost ws: seq<string>, ghost s0: State, ghost gray: set<string>)
      requires Scanning(edges, s0, St(), gray, v, ws, |ws|) && Elems(ws) == Succ(edges, v)
      requires Mirrored(s0) && Mirrored(St()) && s0.stack + [v] <= stack
      modifies this
      ensures Visited(edges, s0, St(), gray, v)
      ensures Mirrored(St()) && s0.stack <= stack
    {
      hide Scanning, Visited, Inv, Reach;
      ghost var s := St();
      LowDefined(edges, s0, s, gray, v, ws, |ws|);
      if lowlink[v] == indices[v] {
        var component := PopComponent(v, |s0.stack|);
        sccs := sccs + [component];
        PoppedSegment(s0, s, v, component);
        EmitKeeps(edges, s0, s, gray, v, ws, component);
      } else {
        LowBelow(edges, s0, s, gray, v, ws);
        LeaveKeeps(edges, s0, s, gray, v, ws);
      }
    }

    /** The `for w in sorted(edges.get(v, ()))` loop. */
    method ScanSuccessors(v: string, ws: seq<string>, ghost s0: State, ghost gray: set<string>, ghost universe: set<string>)
      requires Scanning(edges, s0, St(), gray, v, ws, 0) && Elems(ws) == Succ(edges, v)
      requires Mirrored(St()) && s0.stack + [v] <= stack
      requires forall x :: x in gray ==> Reach(edges, x, v)
      requires v in universe && Closed(edges, universe)
      modifies this
      ensures Scanning(edges, s0, St(), gray, v, ws, |ws|)
      ensures Mirrored(St()) && s0.stack + [v] <= stack
      decreases universe - s0.indices.Keys, 0, 1
    {
      hide Scanning, Inv, Reach;
      for k := 0 to |ws|
        invariant Scanning(edges, s0, St(), gray, v, ws, k)
        invariant Mirrored(St()) && s0.stack + [v] <= stack
      {
        assert ws[k] in Elems(ws);
        ScanOne(v, ws, k, s0, gray, universe);
      }
    }

    /** One turn of that loop. */
    method ScanOne(v: string, ws: seq<string>, k: nat, ghost s0: State, ghost gray: set<string>, ghost universe: set<string>)
      requires k < |ws| && ws[k] in Succ(edges, v)
      requires Scanning(edges, s0, St(), gray, v, ws, k)
      requires Mirrored(St())
      requires forall x :: x in gray ==> Reach(edges, x, v)
      requires v in universe && Closed(edges, universe)
      modifies this
      ensures Scanning(edges, s0, St(), gray, v, ws, k + 1)
      ensures Mirrored(St()) && old(stack) <= stack
      decreases universe - s0.indices.Keys, 0, 0
    {
      hide Scanning, Visited, Inv, Reach;
      var w := ws[k];
      ghost var s := St();
      LowDefined(edges, s0, s, gray, v, ws, k);
      if w !in indices {
        ReachNext(edges, s, gray, v, w);
        StrongConnect(w, gray + {v}, universe);
        ghost var t := St();
        LowStillDefined(edges, s, t, gray + {v}, v, w);
        lowlink := lowlink[v := Min(lowlink[v], lowlink[w])];
        ScanChildKeeps(edges, s0, s, t, gray, v, ws, k);
      } else {
        if w in onstack {
          lowlink := lowlink[v := Min(lowlink[v], indices[w])];
        }
        ScanKnownKeeps(edges, s0, s, gray, v, ws, k);
      }
    }

    /** The pop loop: everything from `v` upwards, topmost first. */
    method PopComponent(v: string, ghost base: nat) returns (component: seq<string>)
      requires Mirrored(St()) && base < |stack| && stack[base] == v
      modifies this`stack, this`onstack
      ensures stack == old(stack)[..base] && onstack == old(onstack) - Elems(component)
      ensures Distinct(component) && Elems(component) == Elems(old(stack)[base..])
    {
      component := [];
      while true
        invariant base < |stack| && stack == old(stack)[..|stack|]
        invariant Distinct(component) && Elems(component) == Elems(old(stack)[|stack|..])
        invariant onstack == old(onstack) - Elems(component)
        decreases |stack|
      {
        var w := stack[|stack| - 1];
        SegmentStep(old(stack), |stack| - 1, component);
        stack := stack[..|stack| - 1];
        onstack := onstack - {w};
        component := component + [w];
        if w == v { break; }
      }
    }
  }

  lemma {:induction false} EnterMirrors(g: Graph, s: State, gray: set<string>, v: string)
    requires Inv(g, s, gray) && Mirrored(s) && v !in s.indices
    ensures Mirrored(Enter(s, v))
  {
    assert v !in s.onstack;
    assert v !in s.stack by { assert v in s.stack ==> v in Elems(s.stack); }
  }

  lemma {:induction false} ReachNext(g: Graph, s: State, gray: set<string>, v: string, w: string)
    requires Inv(g, s, gray + {v}) && v in s.indices && w in Succ(g, v)
    requires forall x :: x in gray ==> Reach(g, x, v)
    ensures forall x :: x in gray + {v} ==> Reach(g, x, w)
  {
    ReachEdge(g, v, w);
    forall x | x in gray ensures Reach(g, x, w) {
      ReachTrans(g, x, v, w);
    }
  }

  lemma {:induction false} LowDefined(g: Graph, s0: State, s: State, gray: set<string>, v: string, ws: seq<string>, k: nat)
    requires Scanning(g, s0, s, gray, v, ws, k)
    ensures Inv(g, s, gray + {v})
    ensures v in s.indices && v in s.lowlink && v !in s0.indices && s0.indices.Keys <= s.indices.Keys
  {
  }

  lemma {:induction false} LowBelow(g: Graph, s0: State, s: State, gray: set<string>, v: string, ws: seq<string>)
    requires Scanning(g, s0, s, gray, v, ws, |ws|)
    ensures v in s.indices && v in s.lowlink && s.lowlink[v] <= s.indices[v]
  {
  }

  lemma {:induction false} LowStillDefined(g: Graph, s: State, t: State, gray: set<string>, v: string, w: string)
    requires Visited(g, s, t, gray, w) && v in s.lowlink
    ensures v in t.lowlink && w in t.lowlink
  {
  }

  lemma {:induction false} SegmentStep(s: seq<string>, k: nat, comp: seq<string>)
    requires k < |s| && Distinct(s) && Elems(comp) == Elems(s[k + 1..])
    ensures s[k] !in comp && Elems(comp + [s[k]]) == Elems(s[k..])
  {
    assert s[k..] == [s[k]] + s[k + 1..] && Distinct(s[k..]);
    DistinctParts([s[k]], s[k + 1..]);
    assert s[k] !in Elems(comp);
    forall x ensures x in Elems(comp + [s[k]]) <==> x in Elems(s[k..]) {
      assert x in comp <==> x in Elems(comp);
    }
  }

  lemma {:induction false} DistinctParts(a: seq<string>, b: seq<string>)
    requires Distinct(a + b)
    ensures forall x :: x in a ==> x !in b
  {
    forall i, j | 0 <= i < |a| && 0 <= j < |b| ensures a[i] != b[j] {
      assert (a + b)[i] != (a + b)[|a| + j];
    }
  }

  lemma {:induction false} PoppedSegment(s0: State, s: State, v: string, comp: seq<string>)
    requires Mirrored(s0) && Mirrored(s) && s0.stack + [v] <= s.stack
    requires Elems(comp) == Elems(s.stack[|s0.stack|..])
    ensures Elems(comp) == s.onstack - s0.onstack && v in comp
    ensures s.stack[..|s0.stack|] == s0.stack
  {
    var n := |s0.stack|;
    assert s.stack == s0.stack + s.stack[n..];
    assert s.stack[n..][0] == v;
    assert v in Elems(comp);
    DistinctParts(s0.stack, s.stack[n..]);
  }

  // ----- the report -----

  /** `v` is listed in `modules` or imported, directly or not, by a module that is. */
  ghost predicate Visible(g: Graph, modules: seq<string>, v: string) {
    exists m :: m in modules && Reach(g, m, v)
  }

  /** Python's key `(len(c), c)`. */
  predicate CycleLeq(a: seq<string>, b: seq<string>) {
    |a| < |b| || (|a| == |b| && StrListLeq(a, b))
  }

  lemma {:induction false} CycleTotal()
    ensures TotalOrder(CycleLeq)
  {
    hide StrListLeq;
    StrListTotal();
  }

  /** One entry of the report: a whole strongly connected component, sorted,
      each member of which lies on an import cycle and is visible. */
  ghost predicate CycleEntry(g: Graph, modules: seq<string>, c: seq<string>) {
    && IsComponent(g, c) && Sorted(c, StrLeq)
    && forall v :: v in c ==> OnCycle(g, v) && Visible(g, modules, v)
  }

  ghost predicate Listed(cycles: seq<seq<string>>, v: string) {
    exists i :: 0 <= i < |cycles| && v in cycles[i]
  }

  /** The report: exactly the visible vertices on cycles, component by component,
      in the order of the key and without repetition. */
  ghost predicate CycleReport(g: Graph, modules: seq<string>, cycles: seq<seq<string>>) {
    && (forall i :: 0 <= i < |cycles| ==> CycleEntry(g, modules, cycles[i]))
    && (forall v :: Visible(g, modules, v) && OnCycle(g, v) ==> Listed(cycles, v))
    && Sorted(cycles, CycleLeq) && Distinct(cycles)
  }

  /** What the search hands over: every visible vertex in exactly one component,
      nothing else, in reverse topological order. */
  ghost predicate Decomposition(g: Graph, modules: seq<string>, sccs: seq<seq<string>>) {
    Components(g, sccs) && forall v :: v in Emitted(sccs) <==> Visible(g, modules, v)
  }

  ghost function Vertices(g: Graph, modules: seq<string>): set<string> {
    Elems(modules) + g.Keys + set v, w | v in g && w in g[v] :: w
  }

  /** `strongconnect` from every module, in sorted order. */
  method FindComponents(modules: seq<string>, edges: Graph) returns (sccs: seq<seq<string>>)
    ensures Decomposition(edges, modules, sccs)
  {
    hide Reach, Visited, Inv, Decomposition, Vertices, Closed, Sort, Visible;
    var search := new Search(edges);
    EmptyInv(edges);
    ghost var universe := Vertices(edges, modules);
    VerticesClosed(edges, modules);
    var order := Sort(modules, StrLeq);
    for k := 0 to |order|
      invariant search.edges == edges
      invariant Inv(edges, search.St(), {}) && Mirrored(search.St())
      invariant forall j :: 0 <= j < k ==> order[j] in search.indices
      invariant forall x :: x in search.indices ==> Visible(edges, modules, x)
    {
      assert order[k] in modules && order[k] in Elems(modules);
      ghost var s := search.St();
      if order[k] !in search.indices {
        search.StrongConnect(order[k], {}, universe);
        Discovered(edges, modules, s, search.St(), order[k]);
      }
    }
    sccs := search.sccs;
    AllVisible(edges, modules, search.St());
  }

  lemma {:induction false} VerticesClosed(g: Graph, modules: seq<string>)
    ensures Closed(g, Vertices(g, modules)) && Elems(modules) <= Vertices(g, modules)
    ensures forall x :: x in Sort(modules, StrLeq) <==> x in modules
  {
    StrTotal();
    SortMembers(modules, StrLeq);
  }

  lemma {:induction false} EmptyInv(g: Graph)
    ensures Inv(g, State(0, map[], map[], [], {}, []), {})
  {
  }

  lemma {:induction false} Discovered(g: Graph, modules: seq<string>, s: State, t: State, v: string)
    requires Visited(g, s, t, {}, v) && v in modules
    requires forall x :: x in s.indices ==> Visible(g, modules, x)
    ensures Inv(g, t, {}) && v in t.indices && s.indices.Keys <= t.indices.Keys
    ensures forall x :: x in t.indices ==> Visible(g, modules, x)
  {
  }

  lemma {:induction false} AllVisible(g: Graph, modules: seq<string>, s: State)
    requires Inv(g, s, {})
    requires forall m :: m in modules ==> m in s.indices
    requires forall x :: x in s.indices ==> Visible(g, modules, x)
    ensures Decomposition(g, modules, s.sccs)
  {
    hide Linked, IsComponent, Visible;
    NothingPending(g, s);
    forall v | Visible(g, modules, v) ensures v in Emitted(s.sccs) {
      ReachesEmitted(g, modules, s.sccs, v);
    }
  }

  lemma {:induction false} ReachesEmitted(g: Graph, modules: seq<string>, sccs: seq<seq<string>>, v: string)
    requires ReverseTopological(g, sccs) && Visible(g, modules, v)
    requires forall m :: m in modules ==> m in Emitted(sccs)
    ensures v in Emitted(sccs)
  {
    EmittedClosed(g, sccs);
    var m :| m in modules && Reach(g, m, v);
    ClosedReach(g, Emitted(sccs), m, v);
  }

  function Entry(g: Graph, comp: seq<string>): seq<seq<string>> {
    if |comp| > 1 then [Sort(comp, StrLeq)]
    else if |comp| == 1 && comp[0] in Succ(g, comp[0]) then [comp] else []
  }

  /** The components that form cycles, in the order they were found. */
  function CyclesOf(g: Graph, sccs: seq<seq<string>>): seq<seq<string>> {
    if sccs == [] then []
    else
      var comp := sccs[|sccs| - 1];
      CyclesOf(g, sccs[..|sccs| - 1]) + Entry(g, comp)
  }

  /** In one component either every vertex lies on a cycle or none does. */
  lemma {:induction false} ComponentCyclic(g: Graph, c: seq<string>, v: string)
    requires IsComponent(g, c) && v in c
    ensures OnCycle(g, v) <==> |c| > 1 || c[0] in Succ(g, c[0])
  {
    hide Reach, OnCycle;
    OnCycleIff(g, v);
    if |c| > 1 {
      var w := if c[0] == v then c[1] else c[0];
      assert w in c && w != v;
    } else {
      assert c == [v];
    }
  }

  lemma {:induction false} SortedComponent(g: Graph, c: seq<string>)
    requires IsComponent(g, c)
    ensures IsComponent(g, Sort(c, StrLeq)) && Sorted(Sort(c, StrLeq), StrLeq)
    ensures forall x :: x in Sort(c, StrLeq) <==> x in c
  {
    hide StrLeq, Reach;
    StrTotal();
    SortMembers(c, StrLeq);
    SortCorrect(c, StrLeq);
    DistinctMultiset(c, Sort(c, StrLeq));
  }

  /** Every entry is a sorted component of vertices on cycles. */
  ghost predicate Entries(g: Graph, cycles: seq<seq<string>>) {
    forall i :: 0 <= i < |cycles| ==>
      && IsComponent(g, cycles[i]) && Sorted(cycles[i], StrLeq)
      && forall v :: v in cycles[i] ==> OnCycle(g, v)
  }

  lemma {:induction false} CyclesOfCorrect(g: Graph, sccs: seq<seq<string>>)
    requires forall i :: 0 <= i < |sccs| ==> IsComponent(g, sccs[i])
    requires Disjoint(sccs)
    ensures Entries(g, CyclesOf(g, sccs)) && Distinct(CyclesOf(g, sccs))
    ensures forall v :: Listed(CyclesOf(g, sccs), v) <==> v in Emitted(sccs) && OnCycle(g, v)
  {
    if sccs != [] {
      var n := |sccs| - 1;
      var comp, init := sccs[n], sccs[..n];
      CyclesOfCorrect(g, init);
      LastIsNew(sccs);
      AddCycle(g, CyclesOf(g, init), Emitted(init), comp);
    }
  }

  lemma {:induction false} LastIsNew(sccs: seq<seq<string>>)
    requires sccs != [] && Disjoint(sccs)
    ensures Disjoint(sccs[..|sccs| - 1])
    ensures Elems(sccs[|sccs| - 1]) !! Emitted(sccs[..|sccs| - 1])
  {
    var n := |sccs| - 1;
    forall x | x in sccs[n] ensures x !in Emitted(sccs[..n]) {
      EmittedIff(sccs[..n], x);
    }
  }

  lemma {:induction false} AddCycle(g: Graph, cycles: seq<seq<string>>, seen: set<string>, comp: seq<string>)
    requires Entries(g, cycles) && Distinct(cycles) && IsComponent(g, comp)
    requires forall v :: Listed(cycles, v) <==> v in seen && OnCycle(g, v)
    requires Elems(comp) !! seen
    ensures Entries(g, cycles + Entry(g, comp)) && Distinct(cycles + Entry(g, comp))
    ensures forall v :: Listed(cycles + Entry(g, comp), v) <==> v in seen + Elems(comp) && OnCycle(g, v)
  {
    hide Reach, OnCycle, StrLeq;
    var after := cycles + Entry(g, comp);
    EntryCorrect(g, comp);
    forall v ensures Listed(after, v) <==> v in seen + Elems(comp) && OnCycle(g, v) {
      if i :| 0 <= i < |cycles| && v in cycles[i] {
        assert v in after[i] && Listed(cycles, v);
      } else if Entry(g, comp) != [] {
        assert after[|cycles|] == Entry(g, comp)[0];
      }
    }
    if Entry(g, comp) != [] {
      var e := Entry(g, comp)[0];
      var x := e[0];
      assert x in e && x in Elems(comp) && !Listed(cycles, x);
      forall i | 0 <= i < |cycles| ensures cycles[i] != e {
        assert x !in cycles[i];
      }
    }
  }

  lemma {:induction false} EntryCorrect(g: Graph, comp: seq<string>)
    requires comp != [] && IsComponent(g, comp)
    ensures Entries(g, Entry(g, comp))
    ensures Entry(g, comp) != [] ==> Entry(g, comp)[0] != [] && forall v :: v in Entry(g, comp)[0] <==> v in comp
    ensures forall v :: v in comp ==> (OnCycle(g, v) <==> Entry(g, comp) != [])
  {
    hide Reach, OnCycle, StrLeq;
    SortedComponent(g, comp);
    forall v | v in comp ensures OnCycle(g, v) <==> Entry(g, comp) != [] {
      ComponentCyclic(g, comp, v);
    }
  }

  /** Sorting the found cycles by the key yields the report. */
  lemma {:induction false} ReportCorrect(g: Graph, modules: seq<string>, sccs: seq<seq<string>>)
    requires Decomposition(g, modules, sccs)
    ensures CycleReport(g, modules, Sort(CyclesOf(g, sccs), CycleLeq))
  {
    hide Reach, OnCycle, IsComponent, StrLeq, CycleLeq, Visible;
    var found := CyclesOf(g, sccs);
    var cycles := Sort(found, CycleLeq);
    CyclesOfCorrect(g, sccs);
    CycleTotal();
    SortMembers(found, CycleLeq);
    SortCorrect(found, CycleLeq);
    DistinctMultiset(found, cycles);
    SameReport(g, modules, found, cycles);
  }

  lemma {:induction false} SameReport(g: Graph, modules: seq<string>, found: seq<seq<string>>, cycles: seq<seq<string>>)
    requires Entries(g, found) && forall c :: c in cycles <==> c in found
    requires forall v :: Listed(found, v) <==> Visible(g, modules, v) && OnCycle(g, v)
    ensures forall i :: 0 <= i < |cycles| ==> CycleEntry(g, modules, cycles[i])
    ensures forall v :: Visible(g, modules, v) && OnCycle(g, v) ==> Listed(cycles, v)
  {
    hide OnCycle, IsComponent, StrLeq, Visible;
    forall i | 0 <= i < |cycles| ensures CycleEntry(g, modules, cycles[i]) {
      assert cycles[i] in cycles;
      var j :| 0 <= j < |found| && found[j] == cycles[i];
      assert forall v :: v in cycles[i] ==> Listed(found, v);
    }
    forall v | Visible(g, modules, v) && OnCycle(g, v) ensures Listed(cycles, v) {
      assert Listed(found, v);
      var j :| 0 <= j < |found| && v in found[j];
      assert found[j] in cycles;
    }
  }

  method TarjanCycles(modules: seq<string>, edges: Graph) returns (cycles: seq<seq<string>>)
    ensures CycleReport(edges, modules, cycles)
  {
    var sccs := FindComponents(modules, edges);
    ComponentsNonempty(edges, modules, sccs);
    hide Decomposition, CycleReport, Sort, CyclesOf;
    NoCycles(edges);
    var found: seq<seq<string>> := [];
    for k := 0 to |sccs|
      invariant found == CyclesOf(edges, sccs[..k])
    {
      var comp := sccs[k];
      NextCycle(edges, sccs, k);
      if |comp| > 1 {
        found := found + [Sort(comp, StrLeq)];
      } else {
        var node := comp[0];
        assert comp == [node];
        if node in Succ(edges, node) {
          found := found + [[node]];
        }
      }
    }
    assert sccs[..|sccs|] == sccs;
    cycles := Sort(found, CycleLeq);
    ReportCorrect(edges, modules, sccs);
  }

  lemma {:induction false} ComponentsNonempty(g: Graph, modules: seq<string>, sccs: seq<seq<string>>)
    requires Decomposition(g, modules, sccs)
    ensures forall k :: 0 <= k < |sccs| ==> sccs[k] != []
  {
  }

  lemma {:induction false} NoCycles(g: Graph)
    ensures CyclesOf(g, []) == []
  {
  }

  lemma {:induction false} NextCycle(g: Graph, sccs: seq<seq<string>>, k: nat)
    requires k < |sccs|
    ensures CyclesOf(g, sccs[..k + 1]) == CyclesOf(g, sccs[..k]) + Entry(g, sccs[k])
  {
    hide Entry;
    assert sccs[..k + 1][..k] == sccs[..k];
  }

  // ----- the report is determined by the graph -----

  /** Two sorted listings of components that share a vertex are the same list. */
  lemma {:induction false} SameEntry(g: Graph, c: seq<string>, d: seq<string>, v: string)
    requires IsComponent(g, c) && IsComponent(g, d) && v in c && v in d
    requires Sorted(c, StrLeq) && Sorted(d, StrLeq)
    ensures c == d
  {
    hide Reach, StrLeq;
    StrTotal();
    forall x ensures x in c <==> x in d {
      assert x in c <==> Mutual(g, v, x);
      assert x in d <==> Mutual(g, v, x);
    }
    DistinctSameMembers(c, d);
    SortedUnique(c, d, StrLeq);
  }

  /** No vertex is listed twice. */
  lemma {:induction false} ListedOnce(g: Graph, modules: seq<string>, cycles: seq<seq<string>>, i: nat, j: nat, v: string)
    requires CycleReport(g, modules, cycles) && i < |cycles| && j < |cycles| && v in cycles[i] && v in cycles[j]
    ensures i == j
  {
    hide Reach, StrLeq, OnCycle, Visible, CycleLeq;
    assert CycleEntry(g, modules, cycles[i]) && CycleEntry(g, modules, cycles[j]);
    SameEntry(g, cycles[i], cycles[j], v);
  }

  lemma {:induction false} EntryCarriesOver(g: Graph, m1: seq<string>, m2: seq<string>, c1: seq<seq<string>>, c2: seq<seq<string>>, c: seq<string>)
    requires CycleReport(g, m1, c1) && CycleReport(g, m2, c2) && c in c1
    requires forall v :: Visible(g, m1, v) ==> Visible(g, m2, v)
    ensures c in c2
  {
    hide Reach, StrLeq, OnCycle, Visible, CycleLeq;
    var i :| 0 <= i < |c1| && c1[i] == c;
    assert CycleEntry(g, m1, c1[i]) && c[0] in c;
    assert Listed(c2, c[0]);
    var j :| 0 <= j < |c2| && c[0] in c2[j];
    assert CycleEntry(g, m2, c2[j]);
    SameEntry(g, c, c2[j], c[0]);
  }

  /** Shorter entries come first; among those of one size the first members decide, since no
      two entries share one. */
  lemma {:induction false} ReportOrder(g: Graph, modules: seq<string>, cycles: seq<seq<string>>, i: nat, j: nat)
    requires CycleReport(g, modules, cycles) && i < j < |cycles|
    ensures cycles[i] != [] && cycles[j] != []
    ensures |cycles[i]| < |cycles[j]| ||
            (|cycles[i]| == |cycles[j]| && StrLeq(cycles[i][0], cycles[j][0]) && cycles[i][0] != cycles[j][0])
  {
    hide Reach, StrLeq, OnCycle, Visible;
    var c, d := cycles[i], cycles[j];
    assert CycleEntry(g, modules, c) && CycleEntry(g, modules, d) && CycleLeq(c, d);
    if c[0] == d[0] { ListedOnce(g, modules, cycles, i, j, c[0]); }
  }

  /** There is only one correct report: it depends on what is visible, not on the
      order or repetition of the module list or on the order of the search. */
  lemma {:induction false} ReportUnique(g: Graph, m1: seq<string>, m2: seq<string>, c1: seq<seq<string>>, c2: seq<seq<string>>)
    requires CycleReport(g, m1, c1) && CycleReport(g, m2, c2)
    requires forall v :: Visible(g, m1, v) <==> Visible(g, m2, v)
    ensures c1 == c2
  {
    forall c ensures c in c1 <==> c in c2 {
      if c in c1 { EntryCarriesOver(g, m1, m2, c1, c2, c); }
      if c in c2 { EntryCarriesOver(g, m2, m1, c2, c1, c); }
    }
    DistinctSameMembers(c1, c2);
    CycleTotal();
    SortedUnique(c1, c2, CycleLeq);
  }

  // ----- the baseline gate -----

  function LoadBaseline(raw: seq<seq<string>>): seq<seq<string>> {
    seq(|raw|, i requires 0 <= i < |raw| => Sort(raw[i], StrLeq))
  }

  /** The exit code of the check: 1 exactly when a cycle is missing from the baseline. */
  function ExitCode(cycles: seq<seq<string>>, raw: seq<seq<string>>): nat {
    var current := set c | c in cycles;
    var baseline := set c | c in LoadBaseline(raw);
    if current - baseline != {} then 1 else 0
  }

  /** `b` records the strongly connected component of `v`. */
  ghost predicate Records(g: Graph, b: seq<string>, v: string) {
    Distinct(b) && forall w :: w in b <==> Mutual(g, v, w)
  }

  ghost predicate Recorded(g: Graph, raw: seq<seq<string>>, v: string) {
    exists i :: 0 <= i < |raw| && Records(g, raw[i], v)
  }

  lemma {:induction false} ExitZero(cycles: seq<seq<string>>, raw: seq<seq<string>>)
    ensures ExitCode(cycles, raw) == 0 <==> forall c :: c in cycles ==> c in LoadBaseline(raw)
  {
    var current := set c | c in cycles;
    var baseline := set c | c in LoadBaseline(raw);
    var missing := current - baseline;
    forall c | c in cycles ensures c in missing <==> c !in LoadBaseline(raw) {
    }
    if missing != {} {
      var c :| c in missing;
    }
  }

  lemma {:induction false} EntryRecorded(g: Graph, modules: seq<string>, c: seq<string>, b: seq<string>, v: string)
    requires CycleEntry(g, modules, c) && v in c
    ensures Sort(b, StrLeq) == c <==> Records(g, b, v)
  {
    hide Reach, StrLeq, OnCycle, Visible;
    StrTotal();
    SortCorrect(b, StrLeq);
    SortMembers(b, StrLeq);
    assert forall w :: w in c <==> Mutual(g, v, w);
    if Sort(b, StrLeq) == c {
      DistinctMultiset(c, b);
    }
    if Records(g, b, v) {
      DistinctSameMembers(b, c);
      SortCanonical(b, c, StrLeq);
      SortFixed(c, StrLeq);
    }
  }

  /** The gate passes exactly when the strongly connected component of every
      visible vertex on an import cycle is recorded in the baseline file. */
  lemma {:induction false} GateCorrect(g: Graph, modules: seq<string>, cycles: seq<seq<string>>, raw: seq<seq<string>>)
    requires CycleReport(g, modules, cycles)
    ensures ExitCode(cycles, raw) == 0 <==> forall v :: Visible(g, modules, v) && OnCycle(g, v) ==> Recorded(g, raw, v)
  {
    hide Reach, StrLeq, OnCycle, Visible, CycleLeq, Records, ExitCode;
    ExitZero(cycles, raw);
    if ExitCode(cycles, raw) == 0 {
      forall v | Visible(g, modules, v) && OnCycle(g, v) ensures Recorded(g, raw, v) {
        assert Listed(cycles, v);
        var k :| 0 <= k < |cycles| && v in cycles[k];
        assert cycles[k] in LoadBaseline(raw);
        var i :| 0 <= i < |raw| && LoadBaseline(raw)[i] == cycles[k];
        EntryRecorded(g, modules, cycles[k], raw[i], v);
      }
    }
    if forall v :: Visible(g, modules, v) && OnCycle(g, v) ==> Recorded(g, raw, v) {
      forall c | c in cycles ensures c in LoadBaseline(raw) {
        var k :| 0 <= k < |cycles| && cycles[k] == c;
        assert CycleEntry(g, modules, cycles[k]) && c[0] in c;
        assert Recorded(g, raw, c[0]);
        var i :| 0 <= i < |raw| && Records(g, raw[i], c[0]);
        EntryRecorded(g, modules, c, raw[i], c[0]);
        assert LoadBaseline(raw)[i] == c;
      }
    }
  }

  /** A baseline written from a report accepts that report. */
  lemma {:induction false} FreshBaselinePasses(g: Graph, modules: seq<string>, cycles: seq<seq<string>>)
    requires CycleReport(g, modules, cycles)
    ensures ExitCode(cycles, cycles) == 0
  {
    ExitZero(cycles, cycles);
    forall c | c in cycles ensures c in LoadBaseline(cycles) {
      var k :| 0 <= k < |cycles| && cycles[k] == c;
      assert CycleEntry(g, modules, cycles[k]);
      SortFixed(c, StrLeq);
      assert LoadBaseline(cycles)[k] == c;
    }
  }
}

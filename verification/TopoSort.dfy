/** The topological sort at the start of `DagStrategy.setup`: Kahn's algorithm
    over a list of node names and a list of edges, both taken as they come. */
module TopoSort {
  import opened Ordering
  import opened Graph

  type Edge = (string, string)

  datatype Outcome = Ordered(order: seq<string>) | CycleError | UnknownTarget(name: string)

  function Names(s: seq<string>): set<string> {
    set x | x in s
  }

  /** How many edges into `x` come from a source outside `done`. */
  function Pending(edges: seq<Edge>, done: set<string>, x: string): nat {
    if edges == [] then 0
    else (if edges[0].1 == x && edges[0].0 !in done then 1 else 0) + Pending(edges[1..], done, x)
  }

  // ----- what is to be computed -----

  ghost function GraphOf(edges: seq<Edge>): Graph {
    map e | e in edges :: e.0 := Targets(edges, e.0)
  }

  ghost function Targets(edges: seq<Edge>, s: string): set<string> {
    set e | e in edges && e.0 == s :: e.1
  }

  ghost predicate Before(order: seq<string>, a: string, b: string) {
    exists i, j :: 0 <= i < j < |order| && order[i] == a && order[j] == b
  }

  /** Each name once, and the source of every edge before its target. */
  ghost predicate Topological(ids: seq<string>, edges: seq<Edge>, order: seq<string>) {
    && multiset(order) == multiset(ids)
    && forall e :: e in edges && e.1 in ids ==> Before(order, e.0, e.1)
  }

  /** All edges into `x` come from finished names. */
  ghost predicate Ready(edges: seq<Edge>, done: seq<string>, x: string) {
    forall e :: e in edges && e.1 == x ==> e.0 in done
  }

  /** Names come in the order in which they become ready; those ready at the start as declared. */
  ghost predicate FirstReadyFirst(ids: seq<string>, edges: seq<Edge>, order: seq<string>) {
    && (forall i, j, k :: 0 <= i < j < |order| && 0 <= k <= |order| && Ready(edges, order[..k], order[j]) ==>
          Ready(edges, order[..k], order[i]))
    && (forall i, j :: 0 <= i < j < |order| && Ready(edges, [], order[j]) ==> Before(ids, order[i], order[j]))
  }

  /** No edge links a declared name with an undeclared one. */
  ghost predicate Scoped(ids: seq<string>, edges: seq<Edge>) {
    forall e :: e in edges ==> (e.0 in ids <==> e.1 in ids)
  }

  ghost predicate Acyclic(ids: seq<string>, edges: seq<Edge>) {
    forall v :: v in ids ==> !OnCycle(GraphOf(edges), v)
  }

  // ----- counting edges -----

  lemma {:induction false} PendingConcat(a: seq<Edge>, b: seq<Edge>, done: set<string>, x: string)
    ensures Pending(a + b, done, x) == Pending(a, done, x) + Pending(b, done, x)
  {
    if a == [] {
      assert a + b == b;
    } else {
      PendingConcat(a[1..], b, done, x);
      assert (a + b)[1..] == a[1..] + b;
    }
  }

  lemma {:induction false} PendingZero(edges: seq<Edge>, done: set<string>, x: string)
    ensures Pending(edges, done, x) == 0 <==> forall e :: e in edges && e.1 == x ==> e.0 in done
  {
    if edges != [] {
      PendingZero(edges[1..], done, x);
      assert edges == [edges[0]] + edges[1..];
    }
  }

  // ----- the algorithm -----

  /** Every edge into a finished name comes from a name finished earlier. */
  ghost predicate Settled(edges: seq<Edge>, topo: seq<string>) {
    forall j :: 0 <= j < |topo| ==> Pending(edges, Names(topo[..j]), topo[j]) == 0
  }

  lemma {:induction false} SettledNext(edges: seq<Edge>, topo: seq<string>, nid: string)
    requires Settled(edges, topo) && Pending(edges, Names(topo), nid) == 0
    ensures Settled(edges, topo + [nid])
  {
    var topo' := topo + [nid];
    assert topo'[..|topo|] == topo;
    forall j | 0 <= j < |topo'| ensures Pending(edges, Names(topo'[..j]), topo'[j]) == 0 {
      if j < |topo| {
        assert topo'[..j] == topo[..j];
      }
    }
  }

  /** Outer loop: `topo` is finished, `queue` is ready, the rest still waits. */
  ghost predicate Inv(ids: seq<string>, edges: seq<Edge>, indegree: map<string, int>, queue: seq<string>, topo: seq<string>) {
    && Distinct(topo + queue) && (forall x :: x in topo + queue ==> x in ids)
    && (forall x :: x in ids ==> x in indegree && indegree[x] == Pending(edges, Names(topo), x))
    && (forall x :: x in ids ==> (x in topo + queue <==> Pending(edges, Names(topo), x) == 0))
    && Settled(edges, topo)
    && (forall e :: e in edges && e.0 in topo ==> e.1 in ids)
    && indegree.Keys == Names(ids)
  }

  /** Edges into `x` that still count after the first `k` edges out of `nid` were taken off. */
  ghost function Mixed(edges: seq<Edge>, k: nat, topo: seq<string>, nid: string, x: string): nat
    requires k <= |edges|
  {
    Pending(edges[..k], Names(topo + [nid]), x) + Pending(edges[k..], Names(topo), x)
  }

  /** Inner loop over the edges out of `nid`, which has just been taken from the queue. */
  ghost predicate Relaxing(ids: seq<string>, edges: seq<Edge>, indegree: map<string, int>, queue: seq<string>,
                           topo: seq<string>, nid: string, k: nat) {
    && k <= |edges| && nid !in topo
    && Distinct(topo + [nid] + queue) && (forall x :: x in topo + [nid] + queue ==> x in ids)
    && (forall x :: x in ids ==> x in indegree && indegree[x] == Mixed(edges, k, topo, nid, x))
    && (forall x :: x in ids ==> (x in topo + [nid] + queue <==> Mixed(edges, k, topo, nid, x) == 0))
    && (forall e :: e in edges[..k] && e.0 == nid ==> e.1 in ids)
    && indegree.Keys == Names(ids)
  }

  lemma {:induction false} MixedStep(edges: seq<Edge>, k: nat, topo: seq<string>, nid: string, x: string)
    requires k < |edges| && nid !in topo
    ensures Mixed(edges, k + 1, topo, nid, x) ==
            Mixed(edges, k, topo, nid, x) - (if edges[k] == (nid, x) then 1 else 0)
  {
    var e := edges[k];
    assert edges[..k + 1] == edges[..k] + [e];
    assert edges[k..] == [e] + edges[k + 1..];
    PendingConcat(edges[..k], [e], Names(topo + [nid]), x);
    PendingConcat([e], edges[k + 1..], Names(topo), x);
  }

  lemma {:induction false} RelaxOther(ids: seq<string>, edges: seq<Edge>, indegree: map<string, int>, queue: seq<string>,
                   topo: seq<string>, nid: string, k: nat)
    requires Relaxing(ids, edges, indegree, queue, topo, nid, k) && k < |edges| && edges[k].0 != nid
    ensures Relaxing(ids, edges, indegree, queue, topo, nid, k + 1)
  {
    forall x | x in ids ensures Mixed(edges, k + 1, topo, nid, x) == Mixed(edges, k, topo, nid, x) {
      MixedStep(edges, k, topo, nid, x);
    }
    assert edges[..k + 1] == edges[..k] + [edges[k]];
  }

  lemma {:induction false} RelaxEdge(ids: seq<string>, edges: seq<Edge>, indegree: map<string, int>, queue: seq<string>,
                  topo: seq<string>, nid: string, k: nat)
    requires Relaxing(ids, edges, indegree, queue, topo, nid, k) && k < |edges|
    requires edges[k].0 == nid && edges[k].1 in indegree
    ensures var dst := edges[k].1;
            var after := indegree[dst := indegree[dst] - 1];
            Relaxing(ids, edges, after, if after[dst] == 0 then queue + [dst] else queue, topo, nid, k + 1)
  {
    var dst := edges[k].1;
    var after := indegree[dst := indegree[dst] - 1];
    var queue' := if after[dst] == 0 then queue + [dst] else queue;
    assert dst in ids;
    MixedStep(edges, k, topo, nid, dst);
    assert dst !in topo + [nid] + queue;
    assert edges[..k + 1] == edges[..k] + [edges[k]];
    assert topo + [nid] + (queue + [dst]) == topo + [nid] + queue + [dst];
    forall x | x in ids
      ensures after[x] == Mixed(edges, k + 1, topo, nid, x)
      ensures x in topo + [nid] + queue' <==> Mixed(edges, k + 1, topo, nid, x) == 0
    {
      MixedStep(edges, k, topo, nid, x);
    }
  }

  lemma {:induction false} StartRelaxing(ids: seq<string>, edges: seq<Edge>, indegree: map<string, int>, queue: seq<string>, topo: seq<string>)
    requires Inv(ids, edges, indegree, queue, topo) && queue != []
    ensures Relaxing(ids, edges, indegree, queue[1..], topo, queue[0], 0)
    ensures |topo| < |ids|
  {
    var nid := queue[0];
    assert topo + [nid] + queue[1..] == topo + queue;
    assert (topo + queue)[|topo|] == nid;
    assert edges[..0] == [] && edges[0..] == edges;
    assert forall x :: Mixed(edges, 0, topo, nid, x) == Pending(edges, Names(topo), x);
    DistinctLonger(topo + queue, ids);
    assert forall i :: 0 <= i < |topo| ==> topo[i] == (topo + queue)[i];
  }

  lemma {:induction false} DistinctLonger(a: seq<string>, ids: seq<string>)
    requires Distinct(a) && forall x :: x in a ==> x in ids
    ensures |a| <= |ids|
  {
    DistinctBound(a, Names(ids));
    NamesSize(ids);
  }

  lemma {:induction false} NamesSize(ids: seq<string>)
    ensures |Names(ids)| <= |ids|
    ensures Distinct(ids) ==> |Names(ids)| == |ids|
  {
    if ids == [] {
      assert Names(ids) == {};
    } else {
      NamesSize(ids[1..]);
      assert ids == [ids[0]] + ids[1..];
      assert Names(ids) == {ids[0]} + Names(ids[1..]);
    }
  }

  lemma {:induction false} EndRelaxing(ids: seq<string>, edges: seq<Edge>, before: map<string, int>, indegree: map<string, int>,
                    queue: seq<string>, queue': seq<string>, topo: seq<string>, nid: string)
    requires Inv(ids, edges, before, [nid] + queue, topo)
    requires Relaxing(ids, edges, indegree, queue', topo, nid, |edges|)
    ensures Inv(ids, edges, indegree, queue', topo + [nid])
  {
    hide Pending, Mixed, Settled, Names;
    var topo' := topo + [nid];
    forall x ensures Mixed(edges, |edges|, topo, nid, x) == Pending(edges, Names(topo'), x) {
      MixedEnd(edges, topo, nid, x);
    }
    assert nid in topo + ([nid] + queue) by { assert (topo + ([nid] + queue))[|topo|] == nid; }
    SettledNext(edges, topo, nid);
    assert edges[..|edges|] == edges;
  }

  lemma {:induction false} MixedEnd(edges: seq<Edge>, topo: seq<string>, nid: string, x: string)
    ensures Mixed(edges, |edges|, topo, nid, x) == Pending(edges, Names(topo + [nid]), x)
  {
    assert edges[..|edges|] == edges && edges[|edges|..] == [];
  }

  method CountIncoming(ids: seq<string>, edges: seq<Edge>) returns (indegree: map<string, int>)
    ensures indegree.Keys == Names(ids)
    ensures forall x :: x in ids ==> indegree[x] == Pending(edges, {}, x)
  {
    indegree := map x | x in ids :: 0;
    for k := 0 to |edges|
      invariant indegree.Keys == Names(ids)
      invariant forall x :: x in ids ==> indegree[x] == Pending(edges[..k], {}, x)
    {
      var dst := edges[k].1;
      if dst in indegree {
        indegree := indegree[dst := indegree[dst] + 1];
      }
      assert edges[..k + 1] == edges[..k] + [edges[k]];
      forall x | x in ids ensures Pending(edges[..k + 1], {}, x) == Pending(edges[..k], {}, x) + if dst == x then 1 else 0 {
        PendingConcat(edges[..k], [edges[k]], {}, x);
      }
    }
    assert edges[..|edges|] == edges;
  }

  datatype Relaxed = Done(indegree: map<string, int>, queue: seq<string>) | Missing(name: string)

  /** The loop over all edges once `nid` has been appended to the order. */
  method Relax(ids: seq<string>, edges: seq<Edge>, indegree0: map<string, int>, queue0: seq<string>,
               ghost topo: seq<string>, nid: string) returns (r: Relaxed)
    requires Relaxing(ids, edges, indegree0, queue0, topo, nid, 0)
    ensures r.Done? ==> Relaxing(ids, edges, r.indegree, r.queue, topo, nid, |edges|)
    ensures r.Done? ==> queue0 <= r.queue
    ensures r.Missing? ==> (nid, r.name) in edges && r.name !in ids
  {
    hide Relaxing;
    var indegree, queue := indegree0, queue0;
    for k := 0 to |edges|
      invariant queue0 <= queue
      invariant Relaxing(ids, edges, indegree, queue, topo, nid, k)
    {
      var (src, dst) := edges[k];
      RelaxingKeys(ids, edges, indegree, queue, topo, nid, k);
      if src == nid {
        if dst !in indegree {
          assert (nid, dst) in edges;
          return Missing(dst);
        }
        RelaxEdge(ids, edges, indegree, queue, topo, nid, k);
        indegree := indegree[dst := indegree[dst] - 1];
        if indegree[dst] == 0 {
          queue := queue + [dst];
        }
      } else {
        RelaxOther(ids, edges, indegree, queue, topo, nid, k);
      }
    }
    return Done(indegree, queue);
  }

  lemma {:induction false} RelaxingKeys(ids: seq<string>, edges: seq<Edge>, indegree: map<string, int>, queue: seq<string>,
                     topo: seq<string>, nid: string, k: nat)
    requires Relaxing(ids, edges, indegree, queue, topo, nid, k)
    ensures forall x :: x in indegree <==> x in ids
  {
  }

  /** At every point so far, what came before a ready name was ready too. */
  ghost predicate Queued(edges: seq<Edge>, topo: seq<string>, queue: seq<string>) {
    forall i, j, k :: 0 <= i < j < |topo + queue| && 0 <= k <= |topo| && Ready(edges, topo[..k], (topo + queue)[j]) ==>
      Ready(edges, topo[..k], (topo + queue)[i])
  }

  lemma {:induction false} ReadyIff(edges: seq<Edge>, done: seq<string>, x: string)
    ensures Ready(edges, done, x) <==> Pending(edges, Names(done), x) == 0
  {
    PendingZero(edges, Names(done), x);
    assert forall y :: y in done <==> y in Names(done);
  }

  lemma {:induction false} InvReady(ids: seq<string>, edges: seq<Edge>, indegree: map<string, int>, queue: seq<string>, topo: seq<string>)
    requires Inv(ids, edges, indegree, queue, topo)
    ensures forall x :: x in topo + queue <==> x in ids && Ready(edges, topo, x)
  {
    forall x ensures x in topo + queue <==> x in ids && Ready(edges, topo, x) {
      ReadyIff(edges, topo, x);
    }
  }

  lemma {:induction false} StartQueued(ids: seq<string>, edges: seq<Edge>, indegree: map<string, int>, queue: seq<string>)
    requires Inv(ids, edges, indegree, queue, [])
    ensures Queued(edges, [], queue)
  {
    InvReady(ids, edges, indegree, queue, []);
    hide Ready, Inv;
    var none: seq<string> := [];
    assert none[..0] == none;
    forall i | 0 <= i < |none + queue| ensures Ready(edges, none, (none + queue)[i]) {
      assert (none + queue)[i] in none + queue;
    }
  }

  /** Names join the queue at its end, when the last of their sources has been taken off. */
  lemma {:induction false} NextQueued(ids: seq<string>, edges: seq<Edge>, before: map<string, int>, indegree: map<string, int>,
                   queue: seq<string>, queue': seq<string>, topo: seq<string>, nid: string)
    requires Inv(ids, edges, before, [nid] + queue, topo) && Queued(edges, topo, [nid] + queue)
    requires Inv(ids, edges, indegree, queue', topo + [nid]) && queue <= queue'
    ensures Queued(edges, topo + [nid], queue')
  {
    var topo' := topo + [nid];
    var earlier, later := topo + ([nid] + queue), topo' + queue';
    InvReady(ids, edges, before, [nid] + queue, topo);
    InvReady(ids, edges, indegree, queue', topo');
    InvDistinct(ids, edges, indegree, queue', topo');
    hide Ready, Inv;
    assert forall n :: 0 <= n < |earlier| ==> later[n] == earlier[n];
    forall j | |earlier| <= j < |later| ensures !Ready(edges, topo, later[j]) {
      assert later[j] in later && forall n :: 0 <= n < |earlier| ==> earlier[n] != later[j];
    }
    forall x, k | 0 <= k <= |topo| && Ready(edges, topo[..k], x) ensures Ready(edges, topo, x) {
      ReadyLater(edges, topo, k, x);
    }
    forall i, j, k | 0 <= i < j < |later| && 0 <= k <= |topo'| && Ready(edges, topo'[..k], later[j])
      ensures Ready(edges, topo'[..k], later[i])
    {
      if k == |topo'| {
        assert topo'[..k] == topo' && later[i] in later;
      } else {
        assert topo'[..k] == topo[..k];
      }
    }
  }

  lemma {:induction false} InvDistinct(ids: seq<string>, edges: seq<Edge>, indegree: map<string, int>, queue: seq<string>, topo: seq<string>)
    requires Inv(ids, edges, indegree, queue, topo)
    ensures Distinct(topo + queue) && forall x :: x in topo + queue ==> x in ids
  {
  }

  lemma {:induction false} ReadyLater(edges: seq<Edge>, topo: seq<string>, k: nat, x: string)
    requires k <= |topo| && Ready(edges, topo[..k], x)
    ensures Ready(edges, topo, x)
  {
  }

  lemma {:induction false} SourcesAscend(ids: seq<string>, indegree: map<string, int>, i: nat, j: nat)
    requires i < j < |Sources(ids, indegree)|
    ensures Before(ids, Sources(ids, indegree)[i], Sources(ids, indegree)[j])
  {
    var n := |ids| - 1;
    var s := Sources(ids[..n], indegree);
    if j < |s| {
      SourcesAscend(ids[..n], indegree, i, j);
      var a, b :| 0 <= a < b < n && ids[..n][a] == s[i] && ids[..n][b] == s[j];
      assert ids[a] == s[i] && ids[b] == s[j];
    } else {
      SourcesAmong(ids[..n], indegree);
      assert s[i] in ids[..n];
      var a :| 0 <= a < n && ids[..n][a] == s[i];
      assert ids[a] == s[i] && ids[n] == Sources(ids, indegree)[j];
    }
  }

  lemma {:induction false} SourcesAmong(ids: seq<string>, indegree: map<string, int>)
    ensures forall x :: x in Sources(ids, indegree) ==> x in ids
  {
    if ids != [] {
      SourcesAmong(ids[..|ids| - 1], indegree);
    }
  }

  lemma {:induction false} PrefixIndex(s: seq<string>, topo: seq<string>, j: nat)
    requires s <= topo && Distinct(topo) && j < |topo| && topo[j] in s
    ensures j < |s|
  {
    var n :| 0 <= n < |s| && s[n] == topo[j];
    assert topo[n] == topo[j];
  }

  /** The finished order begins with the sources, as declared. */
  lemma {:induction false} SourcesFirst(ids: seq<string>, start: map<string, int>, topo: seq<string>, i: nat, j: nat)
    requires Sources(ids, start) <= topo && Distinct(topo) && i < j < |topo| && topo[j] in Sources(ids, start)
    ensures Before(ids, topo[i], topo[j])
  {
    hide Before, Sources;
    PrefixIndex(Sources(ids, start), topo, j);
    SourcesAscend(ids, start, i, j);
  }

  lemma {:induction false} QueueOrder(ids: seq<string>, edges: seq<Edge>, start: map<string, int>, indegree: map<string, int>, topo: seq<string>)
    requires Inv(ids, edges, start, Sources(ids, start), []) && Inv(ids, edges, indegree, [], topo)
    requires Queued(edges, topo, []) && Sources(ids, start) <= topo
    ensures FirstReadyFirst(ids, edges, topo)
  {
    hide Ready, Inv, Before, Sources, Queued;
    InvDistinct(ids, edges, indegree, [], topo);
    InvReady(ids, edges, start, Sources(ids, start), []);
    assert topo + [] == topo && [] + Sources(ids, start) == Sources(ids, start);
    forall i, j | 0 <= i < j < |topo| && Ready(edges, [], topo[j]) ensures Before(ids, topo[i], topo[j]) {
      assert topo[j] in topo;
      SourcesFirst(ids, start, topo, i, j);
    }
    ReadyInTurn(edges, topo);
  }

  lemma {:induction false} ReadyInTurn(edges: seq<Edge>, topo: seq<string>)
    requires Queued(edges, topo, [])
    ensures forall i, j, k :: 0 <= i < j < |topo| && 0 <= k <= |topo| && Ready(edges, topo[..k], topo[j]) ==>
              Ready(edges, topo[..k], topo[i])
  {
    hide Ready;
    assert topo + [] == topo;
  }

  /** The nodes with no incoming edge, in dictionary order. */
  function Sources(ids: seq<string>, indegree: map<string, int>): seq<string> {
    if ids == [] then []
    else Sources(ids[..|ids| - 1], indegree) +
         (var x := ids[|ids| - 1]; if x in indegree && indegree[x] == 0 then [x] else [])
  }

  lemma {:induction false} SourcesCorrect(ids: seq<string>, indegree: map<string, int>)
    requires Distinct(ids)
    ensures Distinct(Sources(ids, indegree))
    ensures forall x :: x in Sources(ids, indegree) <==> x in ids && x in indegree && indegree[x] == 0
  {
    if ids != [] {
      var n := |ids| - 1;
      assert ids == ids[..n] + [ids[n]];
      SourcesCorrect(ids[..n], indegree);
    }
  }

  lemma {:induction false} InitialInv(ids: seq<string>, edges: seq<Edge>, indegree: map<string, int>)
    requires Distinct(ids) && indegree.Keys == Names(ids)
    requires forall x :: x in ids ==> indegree[x] == Pending(edges, {}, x)
    ensures Inv(ids, edges, indegree, Sources(ids, indegree), [])
  {
    SourcesCorrect(ids, indegree);
    assert [] + Sources(ids, indegree) == Sources(ids, indegree);
    assert Names([]) == {};
  }

  datatype Drained = Emptied(indegree: map<string, int>, topo: seq<string>) | Stopped(source: string, target: string)

  /** The loop that empties the queue. */
  method Drain(ids: seq<string>, edges: seq<Edge>, indegree0: map<string, int>, queue0: seq<string>) returns (r: Drained)
    requires Inv(ids, edges, indegree0, queue0, [])
    ensures r.Emptied? ==> Inv(ids, edges, r.indegree, [], r.topo) && Queued(edges, r.topo, []) && queue0 <= r.topo
    ensures r.Stopped? ==> (r.source, r.target) in edges && r.source in ids && r.target !in ids
  {
    hide Inv, Relaxing, Queued;
    var indegree, queue, topo := indegree0, queue0, [];
    StartQueued(ids, edges, indegree, queue);
    while queue != []
      invariant Inv(ids, edges, indegree, queue, topo) && Queued(edges, topo, queue) && queue0 <= topo + queue
      decreases |ids| - |topo|
    {
      var nid := queue[0];
      StartRelaxing(ids, edges, indegree, queue, topo);
      assert queue == [nid] + queue[1..];
      var r := Relax(ids, edges, indegree, queue[1..], topo, nid);
      match r {
        case Missing(name) =>
          return Stopped(nid, name);
        case Done(indegree', queue') =>
          EndRelaxing(ids, edges, indegree, indegree', queue[1..], queue', topo, nid);
          NextQueued(ids, edges, indegree, indegree', queue[1..], queue', topo, nid);
          indegree, queue, topo := indegree', queue', topo + [nid];
      }
    }
    assert topo + [] == topo;
    return Emptied(indegree, topo);
  }

  /** Kahn's algorithm. It yields an order exactly when no edge crosses between
      declared and undeclared names and no declared name lies on a cycle. */
  method TopologicalOrder(nodes: seq<string>, edges: seq<Edge>) returns (out: Outcome)
    ensures out.Ordered? <==> Scoped(FirstOccurrences(nodes), edges) && Acyclic(FirstOccurrences(nodes), edges)
    ensures out.Ordered? ==> Topological(FirstOccurrences(nodes), edges, out.order)
    ensures out.Ordered? ==> FirstReadyFirst(FirstOccurrences(nodes), edges, out.order)
    ensures out.UnknownTarget? ==> out.name !in nodes && exists e :: e in edges && e.0 in nodes && e.1 == out.name
  {
    hide Inv, Topological, Acyclic, Pending, FirstReadyFirst, Queued;
    var ids := FirstOccurrences(nodes);
    var indegree := CountIncoming(ids, edges);
    InitialInv(ids, edges, indegree);
    ghost var start := indegree;
    var r := Drain(ids, edges, indegree, Sources(ids, indegree));
    match r {
      case Stopped(source, target) =>
        assert (source, target) in edges;
        return UnknownTarget(target);
      case Emptied(indegree, topo) =>
        if |topo| != |ids| {
          Stuck(ids, edges, indegree, topo);
          return CycleError;
        }
        Complete(ids, edges, indegree, topo);
        QueueOrder(ids, edges, start, indegree, topo);
        TopologicalAcyclic(ids, edges, topo);
        return Ordered(topo);
    }
  }

  // ----- why success and failure are right -----

  lemma {:induction false} Complete(ids: seq<string>, edges: seq<Edge>, indegree: map<string, int>, topo: seq<string>)
    requires Distinct(ids) && Inv(ids, edges, indegree, [], topo) && |topo| == |ids|
    ensures Scoped(ids, edges) && Topological(ids, edges, topo)
  {
    assert topo + [] == topo;
    NamesSize(ids);
    DistinctBound(topo, Names(ids));
    assert forall x :: x in ids ==> x in Names(ids);
    DistinctSameMembers(topo, ids);
    forall e | e in edges && e.1 in ids ensures Before(topo, e.0, e.1) && e.0 in ids {
      var j :| 0 <= j < |topo| && topo[j] == e.1;
      PendingZero(edges, Names(topo[..j]), topo[j]);
      assert e.0 in topo[..j];
      var i :| 0 <= i < j && topo[..j][i] == e.0;
      assert topo[i] == e.0;
    }
  }

  lemma {:induction false} PathAscends(ids: seq<string>, edges: seq<Edge>, order: seq<string>, p: seq<string>, k: nat)
    requires Distinct(order) && Topological(ids, edges, order) && Scoped(ids, edges)
    requires IsPath(GraphOf(edges), p) && p[0] in ids && 0 < k < |p|
    ensures p[k] in ids && Before(order, p[0], p[k])
  {
    assert (p[k - 1], p[k]) in edges;
    if k > 1 {
      PathAscends(ids, edges, order, p, k - 1);
      var a, b :| 0 <= a < b < |order| && order[a] == p[0] && order[b] == p[k - 1];
      var c, d :| 0 <= c < d < |order| && order[c] == p[k - 1] && order[d] == p[k];
      assert b == c;
    }
  }

  lemma {:induction false} TopologicalAcyclic(ids: seq<string>, edges: seq<Edge>, order: seq<string>)
    requires Distinct(ids) && Topological(ids, edges, order) && Scoped(ids, edges)
    ensures Acyclic(ids, edges)
  {
    DistinctMultiset(ids, order);
    forall v | v in ids ensures !OnCycle(GraphOf(edges), v) {
      forall p | PathBetween(GraphOf(edges), p, v, v) ensures |p| < 2 {
        if |p| >= 2 {
          PathAscends(ids, edges, order, p, |p| - 1);
        }
      }
    }
  }

  ghost predicate HasPredecessor(edges: seq<Edge>, rest: set<string>, x: string) {
    exists y :: y in rest && (y, x) in edges
  }

  ghost predicate Supplied(edges: seq<Edge>, rest: set<string>) {
    forall x {:trigger HasPredecessor(edges, rest, x)} :: x in rest ==> HasPredecessor(edges, rest, x)
  }

  /** When nothing is ready but names remain, each of them has an unfinished predecessor. */
  lemma {:induction false} Stuck(ids: seq<string>, edges: seq<Edge>, indegree: map<string, int>, topo: seq<string>)
    requires Distinct(ids) && Inv(ids, edges, indegree, [], topo) && |topo| != |ids|
    ensures !(Scoped(ids, edges) && Acyclic(ids, edges))
  {
    assert topo + [] == topo;
    var rest := Names(ids) - Names(topo);
    SomeLeft(ids, topo);
    if Scoped(ids, edges) {
      forall x {:trigger HasPredecessor(edges, rest, x)} | x in rest ensures HasPredecessor(edges, rest, x) {
        PendingZero(edges, Names(topo), x);
        var e :| e in edges && e.1 == x && e.0 !in Names(topo);
        assert e == (e.0, x);
      }
      var v := FindCycle(edges, rest);
      assert v in ids;
    }
  }

  lemma {:induction false} SomeLeft(ids: seq<string>, topo: seq<string>)
    requires Distinct(ids) && Distinct(topo) && |topo| != |ids| && forall x :: x in topo ==> x in ids
    ensures Names(ids) - Names(topo) != {}
  {
    NamesSize(ids);
    NamesSize(topo);
    assert Names(ids) == Names(topo) + (Names(ids) - Names(topo));
  }

  /** Following predecessors inside a finite set must revisit a name. */
  lemma {:induction false} FindCycle(edges: seq<Edge>, rest: set<string>) returns (v: string)
    requires rest != {}
    requires Supplied(edges, rest)
    ensures v in rest && OnCycle(GraphOf(edges), v)
  {
    var p := BackwardPath(edges, rest, |rest| + 1);
    if Distinct(p) {
      DistinctBound(p, rest);
    }
    var i, j :| 0 <= i < j < |p| && p[i] == p[j];
    v := p[i];
    var q := p[i..j + 1];
    forall a, b | 0 <= a < b < |q| && b == a + 1 ensures q[b] in Succ(GraphOf(edges), q[a]) {
      assert q[a] == p[i + a] && q[b] == p[i + b];
    }
    assert PathBetween(GraphOf(edges), q, v, v);
  }

  lemma {:induction false} BackwardPath(edges: seq<Edge>, rest: set<string>, n: nat) returns (p: seq<string>)
    requires rest != {} && n > 0
    requires Supplied(edges, rest)
    ensures |p| == n && IsPath(GraphOf(edges), p) && forall x :: x in p ==> x in rest
  {
    if n == 1 {
      var x :| x in rest;
      p := [x];
    } else {
      var q := BackwardPath(edges, rest, n - 1);
      assert q[0] in q && HasPredecessor(edges, rest, q[0]);
      var y :| y in rest && (y, q[0]) in edges;
      p := [y] + q;
      forall a, b | 0 <= a < b < |p| && b == a + 1 ensures p[b] in Succ(GraphOf(edges), p[a]) {
        if a > 0 { assert p[a] == q[a - 1] && p[b] == q[b - 1]; }
      }
    }
  }
}

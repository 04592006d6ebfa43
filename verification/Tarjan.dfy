/** The state of Tarjan's algorithm and the facts that each of its steps keeps.
    `gray` is the set of vertices whose `strongconnect` call is still running. */
module Tarjan {
  import opened Ordering
  import opened Graph

  datatype State = State(
    index: nat,
    indices: map<string, nat>,
    lowlink: map<string, nat>,
    stack: seq<string>,
    onstack: set<string>,
    sccs: seq<seq<string>>)

  function Elems(s: seq<string>): set<string> {
    set x | x in s
  }

  ghost predicate EmittedBy(sccs: seq<seq<string>>, i: nat, x: string) {
    exists j :: 0 <= j <= i && j < |sccs| && x in sccs[j]
  }

  ghost function Emitted(sccs: seq<seq<string>>): set<string> {
    if sccs == [] then {} else Emitted(sccs[..|sccs| - 1]) + Elems(sccs[|sccs| - 1])
  }

  lemma {:induction false} EmittedIff(sccs: seq<seq<string>>, x: string)
    ensures x in Emitted(sccs) <==> exists i :: 0 <= i < |sccs| && x in sccs[i]
  {
    if sccs != [] {
      var n := |sccs| - 1;
      EmittedIff(sccs[..n], x);
      if i :| 0 <= i < |sccs| && x in sccs[i] {
        if i < n { assert x in sccs[..n][i]; }
      }
      if i :| 0 <= i < n && x in sccs[..n][i] {
        assert x in sccs[i];
      }
    }
  }

  /** `c` lists one whole strongly connected component, without repetition. */
  ghost predicate IsComponent(g: Graph, c: seq<string>) {
    c != [] && Distinct(c) && forall a, b :: a in c ==> (b in c <==> Mutual(g, a, b))
  }

  // ----- the invariant -----

  ghost predicate Numbered(s: State) {
    && s.indices.Keys == s.lowlink.Keys
    && (forall v :: v in s.indices ==> s.indices[v] < s.index)
    && s.indices.Keys == s.onstack + Emitted(s.sccs)
    && s.onstack !! Emitted(s.sccs)
  }

  ghost predicate Explored(g: Graph, s: State, gray: set<string>) {
    && gray <= s.onstack
    && forall v :: v in s.indices && v !in gray ==> Succ(g, v) <= s.indices.Keys
  }

  ghost predicate Older(s: State, x: string, y: string) {
    x in s.indices && y in s.indices && s.indices[x] <= s.indices[y]
  }

  /** Some running call, not younger than `y`, is reachable from `y`. */
  ghost predicate Anchored(g: Graph, s: State, gray: set<string>, y: string) {
    exists x :: x in gray && Older(s, x, y) && Reach(g, y, x)
  }

  ghost predicate Linked(g: Graph, s: State, gray: set<string>) {
    && (forall x, y {:trigger Older(s, x, y)} :: x in gray && y in s.onstack && Older(s, x, y) ==> Reach(g, x, y))
    && (forall y {:trigger Anchored(g, s, gray, y)} :: y in s.onstack ==> Anchored(g, s, gray, y))
  }

  /** Components are emitted in reverse topological order: an edge that leaves
      a component leads to one emitted earlier. */
  ghost predicate ReverseTopological(g: Graph, sccs: seq<seq<string>>) {
    forall i, x, y :: 0 <= i < |sccs| && x in sccs[i] && y in Succ(g, x) ==> EmittedBy(sccs, i, y)
  }

  ghost predicate Disjoint(sccs: seq<seq<string>>) {
    forall i, j, x :: 0 <= i < j < |sccs| && x in sccs[i] ==> x !in sccs[j]
  }

  ghost predicate Components(g: Graph, sccs: seq<seq<string>>) {
    && (forall i :: 0 <= i < |sccs| ==> IsComponent(g, sccs[i]))
    && Disjoint(sccs)
    && ReverseTopological(g, sccs)
  }

  ghost predicate Inv(g: Graph, s: State, gray: set<string>) {
    Numbered(s) && Explored(g, s, gray) && Linked(g, s, gray) && Components(g, s.sccs)
  }

  /** `onstack` mirrors the list `stack`, which has no repetition. */
  ghost predicate Mirrored(s: State) {
    s.onstack == Elems(s.stack) && Distinct(s.stack)
  }

  // ----- what a step may change -----

  ghost predicate Grows(s: State, t: State) {
    && s.index <= t.index
    && (forall v :: v in s.indices ==> v in t.indices && t.indices[v] == s.indices[v])
    && (forall v :: v in t.indices && v !in s.indices ==> t.indices[v] >= s.index)
    && (forall v :: v in s.lowlink ==> v in t.lowlink && t.lowlink[v] == s.lowlink[v])
    && s.onstack <= t.onstack
    && (forall v :: v in t.onstack && v in s.indices ==> v in s.onstack)
    && s.sccs <= t.sccs
  }

  ghost predicate DiscoveredFrom(g: Graph, s: State, t: State, v: string) {
    forall x :: x in t.indices && x !in s.indices ==> Reach(g, v, x)
  }

  /** The low link of `v` is the number of a vertex of `older` that `v` reaches. */
  ghost predicate Attained(g: Graph, t: State, older: set<string>, v: string) {
    v in t.lowlink && exists y :: y in older && y in t.indices && t.indices[y] == t.lowlink[v] && Reach(g, v, y)
  }

  /** No edge from the stack segment `from` into `older` undercuts the low link of `v`. */
  ghost predicate Bounded(g: Graph, t: State, older: set<string>, from: set<string>, v: string) {
    v in t.lowlink &&
    forall x, y :: x in from && y in older && y in t.indices && y in Succ(g, x) ==> t.lowlink[v] <= t.indices[y]
  }

  /** What a finished `strongconnect(v)`, started in `s`, says about `v` in `t`. */
  ghost predicate Returned(g: Graph, s: State, t: State, v: string) {
    && Grows(s, t) && DiscoveredFrom(g, s, t, v)
    && v in t.indices && v in t.lowlink
    && (t.lowlink[v] == t.indices[v] || Attained(g, t, s.onstack, v))
    && Bounded(g, t, s.onstack, t.onstack - s.onstack, v)
  }

  ghost predicate Visited(g: Graph, s: State, t: State, gray: set<string>, v: string) {
    Inv(g, t, gray) && Returned(g, s, t, v)
  }

  /** What the low link of `v` says once the first `k` successors are scanned. */
  ghost predicate LowSoFar(g: Graph, s0: State, s: State, v: string, ws: seq<string>, k: nat) {
    && v in s.indices && s.indices[v] == s0.index && v in s.lowlink && s.lowlink[v] <= s.indices[v]
    && k <= |ws| && (forall j :: 0 <= j < k ==> ws[j] in s.indices)
    && (s.lowlink[v] == s.indices[v] || Attained(g, s, s0.onstack, v))
    && Bounded(g, s, s0.onstack, s.onstack - s0.onstack - {v}, v)
    && (forall j :: 0 <= j < k && ws[j] in s0.onstack ==> s.lowlink[v] <= s.indices[ws[j]])
  }

  /** The call `strongconnect(v)`, started in `s0`, has only grown the state. */
  ghost predicate Within(g: Graph, s0: State, s: State, gray: set<string>, v: string) {
    && Grows(s0, s) && DiscoveredFrom(g, s0, s, v)
    && Numbered(s0) && gray <= s0.onstack && v !in s0.indices
  }

  /** The state `s` inside `strongconnect(v)`, started in `s0`, after the first `k` successors. */
  ghost predicate Scanning(g: Graph, s0: State, s: State, gray: set<string>, v: string, ws: seq<string>, k: nat) {
    Inv(g, s, gray + {v}) && Within(g, s0, s, gray, v) && LowSoFar(g, s0, s, v, ws, k)
  }

  // ----- entering a vertex -----

  function Enter(s: State, v: string): State {
    State(s.index + 1, s.indices[v := s.index], s.lowlink[v := s.index], s.stack + [v], s.onstack + {v}, s.sccs)
  }

  lemma {:induction false} EnterKeeps(g: Graph, s: State, gray: set<string>, v: string, ws: seq<string>)
    requires Inv(g, s, gray) && v !in s.indices
    requires forall x :: x in gray ==> Reach(g, x, v)
    ensures Scanning(g, s, Enter(s, v), gray, v, ws, 0)
  {
    ReachSelf(g, v);
    EnterLinked(g, s, gray, v);
  }

  lemma {:induction false} EnterLinked(g: Graph, s: State, gray: set<string>, v: string)
    requires Inv(g, s, gray) && v !in s.indices
    requires forall x :: x in gray ==> Reach(g, x, v)
    ensures Linked(g, Enter(s, v), gray + {v})
  {
    var t := Enter(s, v);
    ReachSelf(g, v);
    forall x, y | x in gray + {v} && y in t.onstack && Older(t, x, y) ensures Reach(g, x, y) {
      if x != v && y != v { assert Older(s, x, y); }
    }
    forall y | y in t.onstack ensures Anchored(g, t, gray + {v}, y) {
      if y == v {
        assert Older(t, v, v);
      } else {
        assert Anchored(g, s, gray, y);
        var x :| x in gray && Older(s, x, y) && Reach(g, y, x);
        assert x in gray + {v} && Older(t, x, y);
      }
    }
  }

  // ----- looking at one successor -----

  lemma {:induction false} InvLow(g: Graph, s: State, gray: set<string>, v: string, n: nat)
    requires Inv(g, s, gray) && v in s.lowlink
    ensures Inv(g, s.(lowlink := s.lowlink[v := n]), gray)
  {
    var t := s.(lowlink := s.lowlink[v := n]);
    forall x, y | x in gray && y in t.onstack && Older(t, x, y) ensures Reach(g, x, y) {
      assert Older(s, x, y);
    }
    forall y {:trigger Anchored(g, t, gray, y)} | y in t.onstack ensures Anchored(g, t, gray, y) {
      assert Anchored(g, s, gray, y);
      var x :| x in gray && Older(s, x, y) && Reach(g, y, x);
      assert Older(t, x, y);
    }
  }

  function ScanKnown(s: State, v: string, w: string): State
    requires v in s.lowlink && w in s.indices
  {
    if w in s.onstack then s.(lowlink := s.lowlink[v := Min(s.lowlink[v], s.indices[w])]) else s
  }

  lemma {:induction false} ScanKnownKeeps(g: Graph, s0: State, s: State, gray: set<string>, v: string, ws: seq<string>, k: nat)
    requires Scanning(g, s0, s, gray, v, ws, k) && k < |ws| && ws[k] in s.indices && ws[k] in Succ(g, v)
    requires v in s.lowlink
    ensures Scanning(g, s0, ScanKnown(s, v, ws[k]), gray, v, ws, k + 1)
  {
    hide Linked, Explored, Components, LowSoFar;
    var t := ScanKnown(s, v, ws[k]);
    if ws[k] in s.onstack {
      InvLow(g, s, gray + {v}, v, t.lowlink[v]);
    }
    KnownLow(g, s0, s, v, ws, k);
  }

  lemma {:induction false} KnownLow(g: Graph, s0: State, s: State, v: string, ws: seq<string>, k: nat)
    requires Numbered(s) && Grows(s0, s) && LowSoFar(g, s0, s, v, ws, k)
    requires k < |ws| && ws[k] in s.indices && ws[k] in Succ(g, v)
    ensures LowSoFar(g, s0, ScanKnown(s, v, ws[k]), v, ws, k + 1)
  {
    var w := ws[k];
    var t := ScanKnown(s, v, w);
    if w in s.onstack {
      ReachEdge(g, v, w);
      if s.indices[w] < s.lowlink[v] {
        assert w in s0.onstack;
        assert Attained(g, t, s0.onstack, v);
      } else if s.lowlink[v] != s.indices[v] {
        var y :| y in s0.onstack && y in s.indices && s.indices[y] == s.lowlink[v] && Reach(g, v, y);
        assert Attained(g, t, s0.onstack, v);
      }
    }
  }

  function ScanChild(t: State, v: string, w: string): State
    requires v in t.lowlink && w in t.lowlink
  {
    t.(lowlink := t.lowlink[v := Min(t.lowlink[v], t.lowlink[w])])
  }

  lemma {:induction false} ScanChildKeeps(g: Graph, s0: State, s: State, t: State, gray: set<string>, v: string, ws: seq<string>, k: nat)
    requires Scanning(g, s0, s, gray, v, ws, k) && k < |ws| && ws[k] in Succ(g, v) && ws[k] !in s.indices
    requires Visited(g, s, t, gray + {v}, ws[k])
    ensures Scanning(g, s0, ScanChild(t, v, ws[k]), gray, v, ws, k + 1)
  {
    InvLow(g, t, gray + {v}, v, ScanChild(t, v, ws[k]).lowlink[v]);
    ReachEdge(g, v, ws[k]);
    ChildWithin(g, s0, s, t, gray, v, ws[k]);
    ChildLow(g, s0, s, t, v, ws, k);
  }

  lemma {:induction false} ChildLow(g: Graph, s0: State, s: State, t: State, v: string, ws: seq<string>, k: nat)
    requires Numbered(s0) && Numbered(s) && Grows(s0, s) && LowSoFar(g, s0, s, v, ws, k)
    requires k < |ws| && ws[k] !in s.indices && Reach(g, v, ws[k]) && Returned(g, s, t, ws[k])
    ensures LowSoFar(g, s0, ScanChild(t, v, ws[k]), v, ws, k + 1)
  {
    ChildAttained(g, s0, s, t, v, ws[k]);
    ChildBounded(g, s0, s, t, v, ws[k]);
    assert ws[k] !in s0.onstack;
  }

  lemma {:induction false} ChildWithin(g: Graph, s0: State, s: State, t: State, gray: set<string>, v: string, w: string)
    requires Within(g, s0, s, gray, v) && v in s.indices && v in s.lowlink && w in t.lowlink
    requires s.lowlink.Keys == s.indices.Keys && s0.lowlink.Keys == s0.indices.Keys
    requires Grows(s, t) && DiscoveredFrom(g, s, t, w) && Reach(g, v, w)
    ensures Within(g, s0, ScanChild(t, v, w), gray, v)
  {
    forall x | x in t.indices && x !in s0.indices ensures Reach(g, v, x) {
      if x !in s.indices {
        ReachTrans(g, v, w, x);
      }
    }
  }

  lemma {:induction false} ChildAttained(g: Graph, s0: State, s: State, t: State, v: string, w: string)
    requires Numbered(s) && Grows(s0, s) && v in s.indices && s.indices[v] == s0.index && s.lowlink[v] <= s.indices[v]
    requires s.lowlink[v] == s.indices[v] || Attained(g, s, s0.onstack, v)
    requires Returned(g, s, t, w) && w !in s.indices && Reach(g, v, w)
    ensures var u := ScanChild(t, v, w); u.lowlink[v] == u.indices[v] || Attained(g, u, s0.onstack, v)
  {
    var u := ScanChild(t, v, w);
    if t.lowlink[w] < t.lowlink[v] {
      assert t.indices[w] >= s.index > s.indices[v];
      var y :| y in s.onstack && y in t.indices && t.indices[y] == t.lowlink[w] && Reach(g, w, y);
      ReachTrans(g, v, w, y);
      assert y in s0.onstack;
    } else if s.lowlink[v] != s.indices[v] {
      var y :| y in s0.onstack && y in s.indices && s.indices[y] == s.lowlink[v] && Reach(g, v, y);
      assert y in u.indices && u.indices[y] == u.lowlink[v];
    }
  }

  lemma {:induction false} ChildBounded(g: Graph, s0: State, s: State, t: State, v: string, w: string)
    requires v in s.lowlink && w in t.lowlink && w != v && Grows(s, t) && s0.onstack <= s.onstack
    requires Bounded(g, s, s0.onstack, s.onstack - s0.onstack - {v}, v)
    requires Bounded(g, t, s.onstack, t.onstack - s.onstack, w)
    requires s0.onstack <= s.indices.Keys
    ensures Bounded(g, ScanChild(t, v, w), s0.onstack, t.onstack - s0.onstack - {v}, v)
  {
    var u := ScanChild(t, v, w);
    forall x, y | x in t.onstack - s0.onstack - {v} && y in s0.onstack && y in u.indices && y in Succ(g, x)
      ensures u.lowlink[v] <= u.indices[y]
    {
      if x in s.onstack {
        assert x in s.onstack - s0.onstack - {v};
      } else {
        assert x in t.onstack - s.onstack;
      }
    }
  }

  // ----- leaving a vertex that is not a root -----

  lemma {:induction false} LeaveKeeps(g: Graph, s0: State, s: State, gray: set<string>, v: string, ws: seq<string>)
    requires Scanning(g, s0, s, gray, v, ws, |ws|) && Succ(g, v) == Elems(ws)
    requires s.lowlink[v] < s.indices[v]
    ensures Visited(g, s0, s, gray, v)
  {
    LeaveLinked(g, s0, s, gray, v);
    SegmentBounded(g, s0, s, v, ws);
    assert Explored(g, s, gray);
  }

  lemma {:induction false} LeaveLinked(g: Graph, s0: State, s: State, gray: set<string>, v: string)
    requires Linked(g, s, gray + {v}) && Attained(g, s, s0.onstack, v) && s0.onstack <= s.onstack
    requires v in s.indices && s.lowlink[v] < s.indices[v]
    ensures Linked(g, s, gray)
  {
    var o :| o in s0.onstack && o in s.indices && s.indices[o] == s.lowlink[v] && Reach(g, v, o);
    assert Anchored(g, s, gray + {v}, o);
    var z :| z in gray + {v} && Older(s, z, o) && Reach(g, o, z);
    ReachTrans(g, v, o, z);
    forall y {:trigger Anchored(g, s, gray, y)} | y in s.onstack ensures Anchored(g, s, gray, y) {
      assert Anchored(g, s, gray + {v}, y);
      var x :| x in gray + {v} && Older(s, x, y) && Reach(g, y, x);
      if x == v {
        ReachTrans(g, y, v, z);
        assert z in gray && Older(s, z, y);
      }
    }
  }

  lemma {:induction false} SegmentBounded(g: Graph, s0: State, s: State, v: string, ws: seq<string>)
    requires v in s.lowlink && Succ(g, v) == Elems(ws)
    requires Bounded(g, s, s0.onstack, s.onstack - s0.onstack - {v}, v)
    requires forall j :: 0 <= j < |ws| ==> ws[j] in s.indices
    requires forall j :: 0 <= j < |ws| && ws[j] in s0.onstack ==> s.lowlink[v] <= s.indices[ws[j]]
    ensures Bounded(g, s, s0.onstack, s.onstack - s0.onstack, v)
  {
  }

  // ----- popping a component -----

  /** The state after the pop loop: `comp` has left the stack for the result. */
  function Emit(s: State, base: seq<string>, comp: seq<string>): State {
    s.(stack := base, onstack := s.onstack - Elems(comp), sccs := s.sccs + [comp])
  }

  /** All successors of `v` are scanned, its low link is its own number, and
      `comp` is what lies on the stack from `v` upwards. */
  ghost predicate AtRoot(g: Graph, s0: State, s: State, gray: set<string>, v: string, ws: seq<string>, comp: seq<string>) {
    && Scanning(g, s0, s, gray, v, ws, |ws|) && Succ(g, v) == Elems(ws)
    && s.lowlink[v] == s.indices[v] && v in comp
    && Distinct(comp) && Elems(comp) == s.onstack - s0.onstack
  }

  lemma {:induction false} EmittedClosed(g: Graph, sccs: seq<seq<string>>)
    requires ReverseTopological(g, sccs)
    ensures Closed(g, Emitted(sccs))
  {
    forall v, y | v in Emitted(sccs) && y in Succ(g, v) ensures y in Emitted(sccs) {
      EmittedIff(sccs, v);
      EmittedIff(sccs, y);
      var i :| 0 <= i < |sccs| && v in sccs[i];
      assert EmittedBy(sccs, i, y);
    }
  }

  lemma {:induction false} SegmentClosed(g: Graph, s0: State, s: State, gray: set<string>, v: string, ws: seq<string>, comp: seq<string>)
    requires AtRoot(g, s0, s, gray, v, ws, comp)
    ensures Closed(g, Elems(comp) + Emitted(s.sccs))
  {
    SegmentBounded(g, s0, s, v, ws);
    EmittedClosed(g, s.sccs);
    forall x, y | x in Elems(comp) && y in Succ(g, x) ensures y in Elems(comp) + Emitted(s.sccs) {
      assert y in s.indices.Keys;
      assert x in s.onstack - s0.onstack;
      assert y !in s0.onstack;
    }
  }

  lemma {:induction false} SegmentReachesRoot(g: Graph, s0: State, s: State, gray: set<string>, v: string, ws: seq<string>, comp: seq<string>, x: string)
    requires AtRoot(g, s0, s, gray, v, ws, comp) && x in comp
    ensures Mutual(g, v, x)
  {
    hide Reach;
    assert x in Elems(comp);
    assert Older(s, v, x);
    assert Anchored(g, s, gray + {v}, x);
    var z :| z in gray + {v} && Older(s, z, x) && Reach(g, x, z);
    SegmentClosed(g, s0, s, gray, v, ws, comp);
    ClosedReach(g, Elems(comp) + Emitted(s.sccs), x, z);
    assert z in Elems(comp);
    assert z == v;
  }

  lemma {:induction false} RootComponent(g: Graph, s0: State, s: State, gray: set<string>, v: string, ws: seq<string>, comp: seq<string>)
    requires AtRoot(g, s0, s, gray, v, ws, comp)
    ensures IsComponent(g, comp)
  {
    forall a, b | a in comp ensures b in comp <==> Mutual(g, a, b) {
      SegmentReachesRoot(g, s0, s, gray, v, ws, comp, a);
      if b in comp {
        SegmentReachesRoot(g, s0, s, gray, v, ws, comp, b);
        ReachTrans(g, a, v, b);
        ReachTrans(g, b, v, a);
      }
      if Mutual(g, a, b) {
        MutualStays(g, s0, s, gray, v, ws, comp, a, b);
      }
    }
  }

  lemma {:induction false} MutualStays(g: Graph, s0: State, s: State, gray: set<string>, v: string, ws: seq<string>, comp: seq<string>, a: string, b: string)
    requires AtRoot(g, s0, s, gray, v, ws, comp) && a in comp && Mutual(g, a, b)
    ensures b in comp
  {
    assert a in Elems(comp);
    SegmentClosed(g, s0, s, gray, v, ws, comp);
    ClosedReach(g, Elems(comp) + Emitted(s.sccs), a, b);
    EmittedClosed(g, s.sccs);
    assert a !in Emitted(s.sccs);
    if b in Emitted(s.sccs) {
      ClosedReach(g, Emitted(s.sccs), b, a);
    }
  }

  lemma {:induction false} EmitComponents(g: Graph, s0: State, s: State, gray: set<string>, v: string, ws: seq<string>, comp: seq<string>)
    requires AtRoot(g, s0, s, gray, v, ws, comp)
    ensures Components(g, s.sccs + [comp])
    ensures Emitted(s.sccs + [comp]) == Emitted(s.sccs) + Elems(comp)
  {
    var after := s.sccs + [comp];
    RootComponent(g, s0, s, gray, v, ws, comp);
    SegmentClosed(g, s0, s, gray, v, ws, comp);
    EmitOrder(g, s.sccs, comp);
    forall i, x | 0 <= i < |s.sccs| && x in s.sccs[i] ensures x !in comp {
      EmittedIff(s.sccs, x);
      assert x in comp ==> x in Elems(comp);
    }
    assert after[..|s.sccs|] == s.sccs;
  }

  lemma {:induction false} EmitOrder(g: Graph, sccs: seq<seq<string>>, comp: seq<string>)
    requires ReverseTopological(g, sccs) && Closed(g, Elems(comp) + Emitted(sccs))
    ensures ReverseTopological(g, sccs + [comp])
  {
    var after := sccs + [comp];
    forall i, x, y | 0 <= i < |after| && x in after[i] && y in Succ(g, x) ensures EmittedBy(after, i, y) {
      if i < |sccs| {
        assert EmittedBy(sccs, i, y);
        var j :| 0 <= j <= i && y in sccs[j];
        assert y in after[j];
      } else {
        assert x in Elems(comp) + Emitted(sccs);
        EmittedIff(sccs, y);
        if j :| 0 <= j < |sccs| && y in sccs[j] {
          assert y in after[j];
        } else {
          assert y in after[i];
        }
      }
    }
  }

  lemma {:induction false} EmitKeeps(g: Graph, s0: State, s: State, gray: set<string>, v: string, ws: seq<string>, comp: seq<string>)
    requires AtRoot(g, s0, s, gray, v, ws, comp)
    ensures Visited(g, s0, Emit(s, s0.stack, comp), gray, v)
  {
    var t := Emit(s, s0.stack, comp);
    EmitComponents(g, s0, s, gray, v, ws, comp);
    assert t.onstack == s0.onstack;
    EmitLinked(g, s0, s, t, gray, v);
    assert Numbered(t) && Explored(g, t, gray);
  }

  lemma {:induction false} EmitLinked(g: Graph, s0: State, s: State, t: State, gray: set<string>, v: string)
    requires Linked(g, s, gray + {v}) && gray <= s0.onstack <= s.onstack
    requires Numbered(s0) && Grows(s0, s) && v in s.indices && s.indices[v] == s0.index
    requires t.indices == s.indices && t.onstack == s0.onstack
    ensures Linked(g, t, gray)
  {
    forall x, y {:trigger Older(t, x, y)} | x in gray && y in t.onstack && Older(t, x, y) ensures Reach(g, x, y) {
      assert Older(s, x, y);
    }
    forall y {:trigger Anchored(g, t, gray, y)} | y in t.onstack ensures Anchored(g, t, gray, y) {
      assert Anchored(g, s, gray + {v}, y);
      var x :| x in gray + {v} && Older(s, x, y) && Reach(g, y, x);
      assert x in gray && Older(t, x, y);
    }
  }

  // ----- the whole search -----

  /** With no call running everything numbered has been emitted. */
  lemma {:induction false} NothingPending(g: Graph, s: State)
    requires Inv(g, s, {})
    ensures s.onstack == {} && s.indices.Keys == Emitted(s.sccs)
  {
    forall y ensures y !in s.onstack {
      assert !Anchored(g, s, {}, y);
    }
  }
}

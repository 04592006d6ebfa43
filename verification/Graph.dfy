/** Finite directed graphs over named vertices: paths, reachability, cycles. */
module Graph {

  type Graph = map<string, set<string>>

  /** `edges.get(v, ())` */
  function Succ(g: Graph, v: string): set<string> {
    if v in g then g[v] else {}
  }

  ghost predicate IsPath(g: Graph, p: seq<string>) {
    |p| >= 1 && forall i, j :: 0 <= i < j < |p| && j == i + 1 ==> p[j] in Succ(g, p[i])
  }

  ghost predicate PathBetween(g: Graph, p: seq<string>, a: string, b: string) {
    IsPath(g, p) && p[0] == a && p[|p| - 1] == b
  }

  ghost predicate Reach(g: Graph, a: string, b: string) {
    exists p :: PathBetween(g, p, a, b)
  }

  ghost predicate Mutual(g: Graph, a: string, b: string) {
    Reach(g, a, b) && Reach(g, b, a)
  }

  /** `v` lies on a cycle: some path with at least one edge leads from `v` back to `v`. */
  ghost predicate OnCycle(g: Graph, v: string) {
    exists p :: PathBetween(g, p, v, v) && |p| >= 2
  }

  ghost predicate Closed(g: Graph, s: set<string>) {
    forall v :: v in s ==> Succ(g, v) <= s
  }

  lemma {:induction false} ReachSelf(g: Graph, a: string)
    ensures Reach(g, a, a)
  {
    assert PathBetween(g, [a], a, a);
  }

  lemma {:induction false} ReachEdge(g: Graph, a: string, b: string)
    requires b in Succ(g, a)
    ensures Reach(g, a, b)
  {
    assert PathBetween(g, [a, b], a, b);
  }

  lemma {:induction false} JoinPaths(g: Graph, p: seq<string>, q: seq<string>, a: string, b: string, c: string)
    requires PathBetween(g, p, a, b) && PathBetween(g, q, b, c)
    ensures PathBetween(g, p + q[1..], a, c)
  {
    var r := p + q[1..];
    forall i, j | 0 <= i < j < |r| && j == i + 1 ensures r[j] in Succ(g, r[i]) {
      if i >= |p| - 1 {
        assert r[i] == q[i - |p| + 1] && r[j] == q[j - |p| + 1];
      }
    }
    assert r[|r| - 1] == q[|q| - 1];
  }

  lemma {:induction false} ReachTrans(g: Graph, a: string, b: string, c: string)
    requires Reach(g, a, b) && Reach(g, b, c)
    ensures Reach(g, a, c)
  {
    var p :| PathBetween(g, p, a, b);
    var q :| PathBetween(g, q, b, c);
    JoinPaths(g, p, q, a, b, c);
  }

  lemma {:induction false} ClosedPath(g: Graph, s: set<string>, p: seq<string>, k: nat)
    requires Closed(g, s) && IsPath(g, p) && p[0] in s && k < |p|
    ensures p[k] in s
  {
    if k > 0 {
      ClosedPath(g, s, p, k - 1);
      assert p[k] in Succ(g, p[k - 1]);
    }
  }

  /** Nothing outside a successor-closed set can be reached from inside it. */
  lemma {:induction false} ClosedReach(g: Graph, s: set<string>, a: string, b: string)
    requires Closed(g, s) && a in s && Reach(g, a, b)
    ensures b in s
  {
    var p :| PathBetween(g, p, a, b);
    ClosedPath(g, s, p, |p| - 1);
  }

  /** A vertex is on a cycle exactly when it is its own successor or shares a
      strongly connected component with another vertex. */
  lemma {:induction false} OnCycleIff(g: Graph, v: string)
    ensures OnCycle(g, v) <==> v in Succ(g, v) || exists w :: w != v && Mutual(g, v, w)
  {
    if v in Succ(g, v) {
      assert PathBetween(g, [v, v], v, v);
    }
    if w :| w != v && Mutual(g, v, w) {
      var p :| PathBetween(g, p, v, w);
      var q :| PathBetween(g, q, w, v);
      JoinPaths(g, p, q, v, w, v);
      assert |p| >= 2;
    }
    if OnCycle(g, v) && v !in Succ(g, v) {
      var p :| PathBetween(g, p, v, v) && |p| >= 2;
      var w := p[1];
      assert p[1] in Succ(g, p[0]);
      ReachEdge(g, v, w);
      var t := p[1..];
      forall i, j | 0 <= i < j < |t| && j == i + 1 ensures t[j] in Succ(g, t[i]) {
        assert t[i] == p[i + 1] && t[j] == p[j + 1];
      }
      assert PathBetween(g, t, w, v);
      assert Mutual(g, v, w);
    }
  }
}

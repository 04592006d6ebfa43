/** What the expression key is for: equal keys mean equal expressions (soundness),
    and rearranged expressions get equal keys (completeness). */
module ExpressionDedup {
  import opened Wrappers
  import opened Ordering
  import opened Sequences
  import opened Text
  import opened Operators
  import opened ExpressionKey

  // ----- soundness -----

  lemma {:induction false} ReduceAvoids(kind: string, cs: seq<Ast>, avoided: set<char>)
    requires Avoids(kind, avoided) && forall c :: c in cs ==> NamesAvoid(c, avoided)
    ensures NamesAvoid(Reduce(kind, cs), avoided)
  {
    forall c ensures c in Filter(NotNeutral(kind), cs) ==> c in cs {
      FilterMembers(NotNeutral(kind), cs, c);
    }
  }

  /** Normalising brings no new names. */
  lemma {:induction false} NormalizeAvoids(repr: real -> string, a: Ast, avoided: set<char>)
    requires NamesAvoid(a, avoided)
    ensures NamesAvoid(Normalize(repr, a), avoided)
    decreases a
  {
    hide Reduce, Sort, KeyLeq;
    if a.Op? {
      var cs := NormalizeAll(repr, a.children);
      forall c | c in cs ensures NamesAvoid(c, avoided) {
        var i :| 0 <= i < |cs| && cs[i] == c;
        assert a.children[i] in a.children;
        NormalizeAvoids(repr, a.children[i], avoided);
      }
      if Commutative(a.kind) {
        KeyPreorder(repr);
        SortMembers(cs, KeyLeq(repr));
      }
      ReduceAvoids(a.kind, Arrange(repr, a.kind, cs), avoided);
    }
  }

  predicate Version(v: string) {
    v != "" && ':' !in v
  }

  lemma {:induction false} PayloadParts(v: string, c: string, w: string, d: string)
    requires ':' !in v && ':' !in w && v + ":" + c == w + ":" + d
    ensures v == w && c == d
  {
    Assoc(v, ":", c);
    Assoc(w, ":", d);
    CutUnique(x => x == ':', v, ":" + c, w, ":" + d);
    assert (":" + c)[1..] == c && (":" + d)[1..] == d;
  }

  /** Two payloads are equal exactly when the versions and the normal forms are. */
  lemma {:induction false} KeyIdentifiesNormalForm(repr: real -> string, v: string, a: Ast, w: string, b: Ast)
    requires Version(v) && Version(w)
    requires WellNamed(a) && WellNamed(b)
    requires Faithful(repr, Normalize(repr, a), Normalize(repr, b))
    ensures KeyPayload(repr, v, a) == KeyPayload(repr, w, b) <==> v == w && Normalize(repr, a) == Normalize(repr, b)
  {
    hide Normalize, Canon, Faithful, NamesAvoid;
    var na, nb := Normalize(repr, a), Normalize(repr, b);
    NormalizeAvoids(repr, a, NOTATION);
    NormalizeAvoids(repr, b, NOTATION);
    if KeyPayload(repr, v, a) == KeyPayload(repr, w, b) {
      PayloadParts(v, Canon(repr, na), w, Canon(repr, nb));
      assert Canon(repr, na) + [] == Canon(repr, nb) + [];
      CanonUnique(repr, na, nb, na, [], nb, []);
    }
  }

  /** Soundness of deduplication: expressions with the same key payload have the
      same version and the same value in every environment. */
  lemma {:induction false} DedupSound(repr: real -> string, v: string, a: Ast, w: string, b: Ast, env: Env, ops: Ops)
    requires Version(v) && Version(w)
    requires WellNamed(a) && WellNamed(b)
    requires Faithful(repr, Normalize(repr, a), Normalize(repr, b))
    requires Symmetric(ops) && KeyPayload(repr, v, a) == KeyPayload(repr, w, b)
    ensures v == w && Eval(a, env, ops) == Eval(b, env, ops)
  {
    hide *;
    KeyIdentifiesNormalForm(repr, v, a, w, b);
    NormalizeMeaning(repr, a, env, ops);
    NormalizeMeaning(repr, b, env, ops);
  }

  // ----- the view of an operand that normalisation looks at -----

  datatype View = View(text: string, num: Option<real>)

  function ViewOf(repr: real -> string): Ast -> View {
    (a: Ast) => View(Canon(repr, a), if a.Const? then Some(a.value) else None)
  }

  function TextOf(v: View): string { v.text }

  function ConstOf(v: View): real { if v.num.Some? then v.num.value else 0.0 }

  function KeptView(kind: string): View -> bool {
    (v: View) => v.num != Some(Neutral(kind))
  }

  function ConstView(repr: real -> string, x: real): View {
    View("C:" + Show(repr, x), Some(x))
  }

  function OpView(kind: string, vs: seq<View>): View {
    View(kind + "(" + Join(",", Map(TextOf, vs)) + ")", None)
  }

  predicate AllConstViews(vs: seq<View>) {
    forall i :: 0 <= i < |vs| ==> vs[i].num.Some?
  }

  /** `Reduce`, computed from views alone. */
  function ReduceView(repr: real -> string, kind: string, vs: seq<View>): View {
    if !Arithmetic(kind) then OpView(kind, vs)
    else if AllConstViews(vs) then ConstView(repr, Total(kind, Map(ConstOf, vs)))
    else
      var kept := Filter(KeptView(kind), vs);
      if kept == [] then ConstView(repr, Neutral(kind))
      else if |kept| == 1 then kept[0]
      else OpView(kind, kept)
  }

  predicate ViewLeq(v: View, w: View) {
    StrLeq(v.text, w.text)
  }

  function BuildView(repr: real -> string, kind: string, vs: seq<View>): View {
    ReduceView(repr, kind, if Commutative(kind) then Sort(vs, ViewLeq) else vs)
  }

  lemma {:induction false} FilterViews(repr: real -> string, kind: string, cs: seq<Ast>)
    ensures Map(ViewOf(repr), Filter(NotNeutral(kind), cs)) == Filter(KeptView(kind), Map(ViewOf(repr), cs))
  {
    hide Canon;
    if cs != [] {
      FilterViews(repr, kind, cs[1..]);
      var vs := Map(ViewOf(repr), cs);
      assert vs[1..] == Map(ViewOf(repr), cs[1..]) && vs[0] == ViewOf(repr)(cs[0]);
      var head: seq<Ast> := if NotNeutral(kind)(cs[0]) then [cs[0]] else [];
      MapConcat(ViewOf(repr), head, Filter(NotNeutral(kind), cs[1..]));
    }
  }

  lemma {:induction false} ValueViews(repr: real -> string, cs: seq<Ast>)
    requires AllConst(cs)
    ensures Values(cs) == Map(ConstOf, Map(ViewOf(repr), cs))
  {
    if cs != [] {
      ValueViews(repr, cs[1..]);
      assert Map(ViewOf(repr), cs)[1..] == Map(ViewOf(repr), cs[1..]);
    }
  }

  lemma {:induction false} OpViews(repr: real -> string, kind: string, cs: seq<Ast>)
    ensures ViewOf(repr)(Op(kind, cs)) == OpView(kind, Map(ViewOf(repr), cs))
  {
    assert Map(TextOf, Map(ViewOf(repr), cs)) == CanonAll(repr, cs);
  }

  lemma {:induction false} ReduceViews(repr: real -> string, kind: string, cs: seq<Ast>)
    ensures ViewOf(repr)(Reduce(kind, cs)) == ReduceView(repr, kind, Map(ViewOf(repr), cs))
  {
    hide OpView, Total, Fold;
    var vs := Map(ViewOf(repr), cs);
    if !Arithmetic(kind) {
      OpViews(repr, kind, cs);
    } else {
      assert AllConst(cs) <==> AllConstViews(vs) by {
        assert forall i :: 0 <= i < |cs| ==> (cs[i].Const? <==> vs[i].num.Some?);
      }
      if AllConst(cs) {
        ValueViews(repr, cs);
      } else {
        FilterViews(repr, kind, cs);
        OpViews(repr, kind, Filter(NotNeutral(kind), cs));
      }
    }
  }

  lemma {:induction false} ViewPreorder()
    ensures TotalPreorder(ViewLeq)
  {
    hide StrLeq;
    StrTotal();
  }

  lemma {:induction false} BuildViews(repr: real -> string, kind: string, cs: seq<Ast>)
    ensures ViewOf(repr)(Build(repr, kind, cs)) == BuildView(repr, kind, Map(ViewOf(repr), cs))
  {
    hide Canon, Reduce, ReduceView, Sort, StrLeq;
    ReduceViews(repr, kind, Arrange(repr, kind, cs));
    if Commutative(kind) {
      KeyPreorder(repr);
      SortMap(ViewOf(repr), cs, KeyLeq(repr), ViewLeq);
    }
  }

  // ----- when two operand lists build the same view -----

  lemma {:induction false} SortedTexts(p: View -> bool, vs: seq<View>, ws: seq<View>)
    requires multiset(Filter(p, vs)) == multiset(Filter(p, ws))
    ensures Map(TextOf, Filter(p, Sort(vs, ViewLeq))) == Map(TextOf, Filter(p, Sort(ws, ViewLeq)))
  {
    hide StrLeq, Sort, Filter;
    var a, b := Filter(p, Sort(vs, ViewLeq)), Filter(p, Sort(ws, ViewLeq));
    ViewPreorder();
    SortCorrect(vs, ViewLeq);
    SortCorrect(ws, ViewLeq);
    FilterPerm(p, Sort(vs, ViewLeq), vs);
    FilterPerm(p, Sort(ws, ViewLeq), ws);
    FilterSorted(p, Sort(vs, ViewLeq), ViewLeq);
    FilterSorted(p, Sort(ws, ViewLeq), ViewLeq);
    MapPerm(TextOf, a, b);
    StrTotal();
    SortedUnique(Map(TextOf, a), Map(TextOf, b), StrLeq);
  }

  lemma {:induction false} AllConstPerm(vs: seq<View>, ws: seq<View>)
    requires multiset(vs) == multiset(ws) && AllConstViews(vs)
    ensures AllConstViews(ws)
  {
    forall i | 0 <= i < |ws| ensures ws[i].num.Some? {
      assert ws[i] in multiset(vs);
    }
  }

  /** The operands contribute the same constants and the same kept operands. */
  ghost predicate SameOperands(kind: string, vs: seq<View>, ws: seq<View>) {
    if Arithmetic(kind) then
      && (AllConstViews(vs) <==> AllConstViews(ws))
      && (AllConstViews(vs) ==> Total(kind, Map(ConstOf, vs)) == Total(kind, Map(ConstOf, ws)))
      && multiset(Filter(KeptView(kind), vs)) == multiset(Filter(KeptView(kind), ws))
    else
      multiset(vs) == multiset(ws)
  }

  lemma {:induction false} SortedOperands(kind: string, vs: seq<View>)
    ensures Arithmetic(kind) ==> SameOperands(kind, Sort(vs, ViewLeq), vs)
  {
    hide StrLeq, Sort, Filter, Total;
    var s := Sort(vs, ViewLeq);
    ViewPreorder();
    SortCorrect(vs, ViewLeq);
    FilterPerm(KeptView(kind), s, vs);
    MapPerm(ConstOf, s, vs);
    TotalPerm(kind, Map(ConstOf, s), Map(ConstOf, vs));
    if AllConstViews(s) { AllConstPerm(s, vs); }
    if AllConstViews(vs) { AllConstPerm(vs, s); }
  }

  lemma {:induction false} SameBuild(repr: real -> string, kind: string, vs: seq<View>, ws: seq<View>)
    requires Commutative(kind) && SameOperands(kind, vs, ws)
    ensures BuildView(repr, kind, vs) == BuildView(repr, kind, ws)
  {
    hide StrLeq, Sort, Filter, Total, Fold, Show;
    var a, b := Sort(vs, ViewLeq), Sort(ws, ViewLeq);
    if Arithmetic(kind) {
      SortedOperands(kind, vs);
      SortedOperands(kind, ws);
      SortedTexts(KeptView(kind), vs, ws);
      var ka, kb := Filter(KeptView(kind), a), Filter(KeptView(kind), b);
      assert |multiset(ka)| == |multiset(kb)|;
      if |ka| == 1 {
        assert ka[0] in multiset(kb);
      }
    } else {
      FilterAll(x => true, vs);
      FilterAll(x => true, ws);
      FilterAll(x => true, a);
      FilterAll(x => true, b);
      SortedTexts(x => true, vs, ws);
    }
  }

  // ----- rewriting steps -----

  ghost predicate Inserted(cs: seq<Ast>, ds: seq<Ast>, x: Ast) {
    exists i :: 0 <= i <= |cs| && ds == cs[..i] + [x] + cs[i..]
  }

  /** The two expressions differ at the root: the operands of a commutative
      operator are reordered, or a 0 is put into a sum or a 1 into a product. */
  ghost predicate RootStep(a: Ast, b: Ast) {
    && a.Op? && b.Op? && a.kind == b.kind
    && (|| (Commutative(a.kind) && multiset(a.children) == multiset(b.children))
        || (Arithmetic(a.kind) && Inserted(a.children, b.children, Const(Neutral(a.kind)))))
  }

  /** The same, at one place at any depth. */
  ghost predicate Step(a: Ast, b: Ast)
    decreases a
  {
    || RootStep(a, b)
    || (&& a.Op? && b.Op? && a.kind == b.kind && |a.children| == |b.children|
        && exists i :: 0 <= i < |a.children| && Step(a.children[i], b.children[i]) &&
                       b.children == a.children[i := b.children[i]])
  }

  /** A chain of steps, each taken in either direction. */
  ghost predicate Chain(p: seq<Ast>) {
    p != [] && forall i, j :: 0 <= i < j < |p| && j == i + 1 ==> Step(p[i], p[j]) || Step(p[j], p[i])
  }

  function NormalView(repr: real -> string): Ast -> View {
    (a: Ast) => ViewOf(repr)(Normalize(repr, a))
  }

  lemma {:induction false} NormalViewOf(repr: real -> string, a: Ast)
    ensures NormalView(repr)(a) == ViewOf(repr)(Normalize(repr, a))
  {
  }

  lemma {:induction false} ReorderedOperands(repr: real -> string, kind: string, cs: seq<Ast>, ds: seq<Ast>)
    requires multiset(cs) == multiset(ds)
    ensures var f := NormalView(repr); SameOperands(kind, Map(f, cs), Map(f, ds))
  {
    hide NormalView, Filter, Total, Fold;
    var f := NormalView(repr);
    MapPerm(f, cs, ds);
    var vs, ws := Map(f, cs), Map(f, ds);
    FilterPerm(KeptView(kind), vs, ws);
    MapPerm(ConstOf, vs, ws);
    TotalPerm(kind, Map(ConstOf, vs), Map(ConstOf, ws));
    if AllConstViews(vs) { AllConstPerm(vs, ws); }
    if AllConstViews(ws) { AllConstPerm(ws, vs); }
  }

  lemma {:induction false} InsertedViews(repr: real -> string, kind: string, us: seq<View>, ws: seq<View>)
    requires Arithmetic(kind)
    ensures SameOperands(kind, us + ws, us + [ConstView(repr, Neutral(kind))] + ws)
  {
    hide Filter, Fold, Total, AllConstViews;
    var z := ConstView(repr, Neutral(kind));
    NeutralDropped(repr, kind);
    FilterConcat(KeptView(kind), us, ws);
    FilterConcat(KeptView(kind), us + [z], ws);
    FilterConcat(KeptView(kind), us, [z]);
    ConstParts(us, ws);
    ConstParts(us + [z], ws);
    ConstParts(us, [z]);
    MapConcat(ConstOf, us, ws);
    MapConcat(ConstOf, us + [z], ws);
    MapConcat(ConstOf, us, [z]);
    NeutralTotal(kind, Map(ConstOf, us), Map(ConstOf, ws));
  }

  lemma {:induction false} NeutralDropped(repr: real -> string, kind: string)
    ensures var z := ConstView(repr, Neutral(kind));
            Filter(KeptView(kind), [z]) == [] && AllConstViews([z]) && Map(ConstOf, [z]) == [Neutral(kind)]
  {
  }

  lemma {:induction false} ConstParts(us: seq<View>, ws: seq<View>)
    ensures AllConstViews(us + ws) <==> AllConstViews(us) && AllConstViews(ws)
  {
    var all := us + ws;
    if AllConstViews(all) {
      assert forall i :: 0 <= i < |us| ==> all[i] == us[i];
      forall i | 0 <= i < |ws| ensures ws[i].num.Some? {
        assert all[|us| + i] == ws[i];
      }
    }
  }

  lemma {:induction false} NeutralTotal(kind: string, xs: seq<real>, ys: seq<real>)
    ensures Total(kind, xs + [Neutral(kind)] + ys) == Total(kind, xs + ys)
  {
    SumMonoid();
    hide CommutativeMonoid, Fold;
    FoldMiddle(Plus, 0.0, xs, 0.0, ys);
    FoldMiddle(Times, 1.0, xs, 1.0, ys);
    FoldConcat(Plus, 0.0, xs, ys);
    FoldConcat(Times, 1.0, xs, ys);
  }

  lemma {:induction false} NormalViews(repr: real -> string, a: Ast)
    requires a.Op?
    ensures var f := NormalView(repr);
            f(a) == BuildView(repr, a.kind, Map(f, a.children))
  {
    hide NormalView, Build, BuildView;
    var f := NormalView(repr);
    NormalViewOf(repr, a);
    BuildViews(repr, a.kind, NormalizeAll(repr, a.children));
    forall i | 0 <= i < |a.children| ensures f(a.children[i]) == ViewOf(repr)(NormalizeAll(repr, a.children)[i]) {
      NormalViewOf(repr, a.children[i]);
    }
    assert Map(ViewOf(repr), NormalizeAll(repr, a.children)) == Map(f, a.children);
  }

  lemma {:induction false} RootStepKeepsView(repr: real -> string, a: Ast, b: Ast)
    requires RootStep(a, b)
    ensures NormalView(repr)(a) == NormalView(repr)(b)
  {
    hide NormalView, BuildView, SameOperands, Map;
    var f := NormalView(repr);
    NormalViews(repr, a);
    NormalViews(repr, b);
    if Commutative(a.kind) && multiset(a.children) == multiset(b.children) {
      ReorderedOperands(repr, a.kind, a.children, b.children);
    } else {
      var z := Const(Neutral(a.kind));
      var i :| 0 <= i <= |a.children| && b.children == a.children[..i] + [z] + a.children[i..];
      assert a.children == a.children[..i] + a.children[i..];
      InsertedOperands(repr, a.kind, a.children[..i], a.children[i..]);
    }
    SameBuild(repr, a.kind, Map(f, a.children), Map(f, b.children));
  }

  lemma {:induction false} InsertedOperands(repr: real -> string, kind: string, us: seq<Ast>, ws: seq<Ast>)
    requires Arithmetic(kind)
    ensures var f := NormalView(repr);
            SameOperands(kind, Map(f, us + ws), Map(f, us + [Const(Neutral(kind))] + ws))
  {
    hide NormalView, SameOperands;
    var f := NormalView(repr);
    var z := Const(Neutral(kind));
    NeutralView(repr, Neutral(kind));
    MapConcat(f, us, ws);
    MapConcat(f, us + [z], ws);
    MapConcat(f, us, [z]);
    assert Map(f, [z]) == [ConstView(repr, Neutral(kind))];
    InsertedViews(repr, kind, Map(f, us), Map(f, ws));
  }

  lemma {:induction false} NeutralView(repr: real -> string, x: real)
    ensures NormalView(repr)(Const(x)) == ConstView(repr, x)
  {
    NormalViewOf(repr, Const(x));
  }

  lemma {:induction false} SameMap(f: Ast -> View, cs: seq<Ast>, ds: seq<Ast>, i: nat)
    requires i < |cs| == |ds| && ds == cs[i := ds[i]] && f(cs[i]) == f(ds[i])
    ensures Map(f, cs) == Map(f, ds)
  {
  }

  lemma {:induction false} StepKeepsView(repr: real -> string, a: Ast, b: Ast)
    requires Step(a, b)
    ensures NormalView(repr)(a) == NormalView(repr)(b)
    decreases a
  {
    hide NormalView, BuildView, RootStep;
    if RootStep(a, b) {
      RootStepKeepsView(repr, a, b);
    } else {
      var f := NormalView(repr);
      var i :| 0 <= i < |a.children| && Step(a.children[i], b.children[i]) && b.children == a.children[i := b.children[i]];
      StepKeepsView(repr, a.children[i], b.children[i]);
      NormalViews(repr, a);
      NormalViews(repr, b);
      SameMap(f, a.children, b.children, i);
    }
  }

  lemma {:induction false} ChainKeepsCanon(repr: real -> string, p: seq<Ast>, k: nat)
    requires Chain(p) && k < |p|
    ensures Canon(repr, Normalize(repr, p[k])) == Canon(repr, Normalize(repr, p[0]))
  {
    hide NormalView, Normalize, Step;
    if k > 0 {
      NormalViewOf(repr, p[k - 1]);
      NormalViewOf(repr, p[k]);
      ChainKeepsCanon(repr, p, k - 1);
      if Step(p[k - 1], p[k]) {
        StepKeepsView(repr, p[k - 1], p[k]);
      } else {
        StepKeepsView(repr, p[k], p[k - 1]);
      }
    }
  }

  /** Completeness of deduplication: expressions linked by reorderings of
      commutative operands and insertions or removals of neutral operands, at any
      depth, have the same key payload. */
  lemma {:induction false} DedupComplete(repr: real -> string, version: string, p: seq<Ast>)
    requires Chain(p)
    ensures KeyPayload(repr, version, p[0]) == KeyPayload(repr, version, p[|p| - 1])
  {
    ChainKeepsCanon(repr, p, |p| - 1);
  }

  /** For well-named expressions the normal forms themselves coincide. */
  lemma {:induction false} NormalFormComplete(repr: real -> string, p: seq<Ast>)
    requires Chain(p) && WellNamed(p[0]) && WellNamed(p[|p| - 1])
    requires Faithful(repr, Normalize(repr, p[0]), Normalize(repr, p[|p| - 1]))
    ensures Normalize(repr, p[0]) == Normalize(repr, p[|p| - 1])
  {
    hide Canon, Normalize, Step, Faithful, WellNamed;
    KeyIdentifiesNormalForm(repr, "v1", p[0], "v1", p[|p| - 1]);
    DedupComplete(repr, "v1", p);
  }
}

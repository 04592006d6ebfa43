/** Exactly which names and versions keep expression keys apart. */
module ExpressionCollisions {
  import opened Text
  import opened Operators
  import opened ExpressionKey
  import opened ExpressionDedup

  // ----- one delimiter in names is enough to confuse keys -----

  lemma {:induction false} ShortNames(k: string)
    requires |k| <= 1
    ensures !Commutative(k) && !Arithmetic(k)
  {
  }

  /** The colliding expressions are in normal form. */
  lemma {:induction false} CollisionNormal(repr: real -> string, c: char)
    requires c in NOTATION
    ensures Normalize(repr, Collision(c).0) == Collision(c).0 && Normalize(repr, Collision(c).1) == Collision(c).1
  {
    var x, y := Var(""), Var([c]);
    assert Normalize(repr, x) == x && Normalize(repr, y) == y;
    ShortNames("");
    ShortNames([c]);
    hide Normalize, Commutative;
    NormalOne(repr, "", x);
    NormalOne(repr, "", y);
    NormalOne(repr, [c], x);
    NormalTwo(repr, "", x, Op([c], [x]));
    NormalTwo(repr, "", y, Op("", [x]));
    NormalOne(repr, [c], Op("", [x]));
    NormalOne(repr, "", Op([c], [x]));
    NormalOne(repr, "", Op("", [x]));
    NormalTwo(repr, "", Op("", [Op("", [x])]), y);
    NormalTwo(repr, "", Op("", [y]), x);
    NormalOne(repr, "", Op("", [Op("", [y]), x]));
  }

  /** An environment and operators that tell the colliding expressions apart. */
  function NameLength(n: string): real {
    |n| as real
  }

  function Doubling(k: string, xs: seq<real>): real {
    if Commutative(k) || xs == [] then 0.0 else 2.0 * xs[0] + |k| as real
  }

  lemma {:induction false} EvalFirst(k: string, cs: seq<Ast>)
    requires |k| <= 1 && cs != []
    ensures Eval(Op(k, cs), NameLength, Doubling) == 2.0 * Eval(cs[0], NameLength, Doubling) + |k| as real
  {
    ShortNames(k);
    hide Commutative;
    assert k != "Add" && k != "Mul";
  }

  lemma {:induction false} CollisionMeaning(c: char)
    requires c in NOTATION
    ensures Eval(Collision(c).0, NameLength, Doubling) != Eval(Collision(c).1, NameLength, Doubling)
  {
    var x, y := Var(""), Var([c]);
    assert Eval(x, NameLength, Doubling) == 0.0 && Eval(y, NameLength, Doubling) == 1.0;
    hide Eval, Doubling;
    EvalFirst("", [x]);
    EvalFirst("", [y]);
    EvalFirst([c], [x]);
    EvalFirst("", [x, Op([c], [x])]);
    EvalFirst("", [y, Op("", [x])]);
    EvalFirst([c], [Op("", [x])]);
    EvalFirst("", [Op([c], [x])]);
    EvalFirst("", [Op("", [x])]);
    EvalFirst("", [Op("", [Op("", [x])]), y]);
    EvalFirst("", [Op("", [y]), x]);
    EvalFirst("", [Op("", [Op("", [y]), x])]);
  }

  /** Same key payload although the versions or, somewhere, the values differ. */
  ghost predicate Confused(repr: real -> string, v: string, a: Ast, w: string, b: Ast) {
    && KeyPayload(repr, v, a) == KeyPayload(repr, w, b)
    && (v != w || exists env: Env, ops: Ops :: Symmetric(ops) && Eval(a, env, ops) != Eval(b, env, ops))
  }

  lemma {:induction false} CollisionConfused(repr: real -> string, v: string, c: char)
    requires c in NOTATION
    ensures Confused(repr, v, Collision(c).0, v, Collision(c).1)
  {
    hide Collision, Normalize, Canon, Eval, Symmetric, Doubling, NameLength;
    CollisionNormal(repr, c);
    CollisionTexts(repr, c);
    CollisionMeaning(c);
    DoublingSymmetric();
  }

  lemma {:induction false} DoublingSymmetric()
    ensures Symmetric(Doubling)
  {
  }

  // ----- a colon in versions, if names have one -----

  /** A version ending in a colon can be mistaken for the version without it. */
  lemma {:induction false} ColonConfused(repr: real -> string)
    ensures Confused(repr, "::", Op("", []), ":", Op(":", []))
  {
    var a, b := Op("", []), Op(":", []);
    ShortNames("");
    ShortNames(":");
    assert Normalize(repr, a) == a && Normalize(repr, b) == b;
    assert Canon(repr, a) == "" + "(" + "" + ")" == "()" && Canon(repr, b) == ":" + "(" + "" + ")" == ":()";
    var v, w := "::", ":";
    assert |v| == 2 && |w| == 1;
    hide Canon, Normalize;
    assert v + ":" + "()" == w + ":" + ":()";
  }

  // ----- without a colon in names the version can be told from the end -----

  /** Closing minus opening parentheses. */
  function Depth(s: string): int {
    if s == [] then 0 else (if s[0] == '(' then -1 else if s[0] == ')' then 1 else 0) + Depth(s[1..])
  }

  /** As many closing as opening parentheses, and no suffix with more opening ones. */
  ghost predicate Balanced(s: string) {
    Depth(s) == 0 && forall i :: 0 <= i <= |s| ==> Depth(s[i..]) >= 0
  }

  lemma {:induction false} DepthConcat(x: string, y: string)
    ensures Depth(x + y) == Depth(x) + Depth(y)
  {
    if x == [] {
      assert x + y == y;
    } else {
      DepthConcat(x[1..], y);
      assert (x + y)[1..] == x[1..] + y;
    }
  }

  lemma {:induction false} BalancedConcat(x: string, y: string)
    requires Balanced(x) && Balanced(y)
    ensures Balanced(x + y)
  {
    hide Depth;
    DepthConcat(x, y);
    var w := x + y;
    forall i | 0 <= i <= |w| ensures Depth(w[i..]) >= 0 {
      if i <= |x| {
        assert w[i..] == x[i..] + y;
        DepthConcat(x[i..], y);
      } else {
        assert w[i..] == y[i - |x|..];
      }
    }
  }

  lemma {:induction false} CleanDepth(s: string)
    requires Clean(s)
    ensures Depth(s) == 0
  {
    if s != [] {
      assert s[0] in s && forall c :: c in s[1..] ==> c in s;
      CleanDepth(s[1..]);
    }
  }

  lemma {:induction false} CleanBalanced(s: string)
    requires Clean(s)
    ensures Balanced(s)
  {
    hide Depth;
    CleanDepth(s);
    forall i | 0 <= i <= |s| ensures Depth(s[i..]) >= 0 {
      assert forall c :: c in s[i..] ==> c in s;
      CleanDepth(s[i..]);
    }
  }

  lemma {:induction false} Brackets()
    ensures Depth("(") == -1 && Depth(")") == 1 && Depth("") == 0
  {
    assert "("[1..] == "" && ")"[1..] == "";
  }

  /** Whatever starts inside the parentheses and runs to the end closes more than it opens. */
  lemma {:induction false} InsideCloses(s: string, m: nat)
    requires Balanced(s) && m <= |s|
    ensures Depth((s + ")")[m..]) >= 1
  {
    hide Depth;
    Brackets();
    assert (s + ")")[m..] == s[m..] + ")";
    DepthConcat(s[m..], ")");
  }

  lemma {:induction false} BalancedParens(s: string)
    requires Balanced(s)
    ensures Balanced("(" + s + ")")
  {
    hide Depth;
    Brackets();
    var w := "(" + s + ")";
    assert w == "(" + (s + ")");
    DepthConcat("(", s + ")");
    DepthConcat(s, ")");
    forall i | 0 <= i <= |w| ensures Depth(w[i..]) >= 0 {
      if i == 0 {
        assert w[i..] == w;
      } else {
        assert w[i..] == (s + ")")[i - 1..];
        if i - 1 <= |s| { InsideCloses(s, i - 1); } else { assert w[i..] == ""; }
      }
    }
  }

  /** Names avoid the delimiters and the colon, and so do the texts of constants. */
  ghost predicate Legible(repr: real -> string, a: Ast) {
    && NamesAvoid(a, NOTATION + {':'})
    && forall x :: Mentions(a, x) && !Integral(x) ==> Clean(repr(x)) && ':' !in repr(x)
  }

  lemma {:induction false} LegibleChildren(repr: real -> string, a: Ast)
    requires Legible(repr, a) && a.Op?
    ensures Clean(a.kind) && ':' !in a.kind && forall c :: c in a.children ==> Legible(repr, c)
  {
  }

  /** A leaf's text after its two-character mark. */
  function LeafBody(repr: real -> string, a: Ast): string
    requires !a.Op?
  {
    if a.Const? then Show(repr, a.value) else a.name
  }

  lemma {:induction false} LeafLegible(repr: real -> string, a: Ast)
    requires Legible(repr, a) && !a.Op?
    ensures Clean(LeafBody(repr, a)) && ':' !in LeafBody(repr, a)
    ensures Canon(repr, a) == (if a.Const? then "C:" else "V:") + LeafBody(repr, a)
  {
    if a.Const? {
      assert Mentions(a, a.value);
      DecimalClean(a.value.Floor);
      DecimalShape(a.value.Floor);
    }
  }

  lemma {:induction false} LeafBalanced(repr: real -> string, a: Ast)
    requires Legible(repr, a) && !a.Op?
    ensures Balanced(Canon(repr, a)) && Canon(repr, a) != ""
  {
    hide Legible, Balanced, Canon, LeafBody;
    LeafLegible(repr, a);
    var mark := if a.Const? then "C:" else "V:";
    CleanBalanced(mark);
    CleanBalanced(LeafBody(repr, a));
    BalancedConcat(mark, LeafBody(repr, a));
  }

  lemma {:induction false} OperatorText(repr: real -> string, a: Ast)
    requires a.Op?
    ensures Canon(repr, a) == a.kind + ("(" + Join(",", CanonAll(repr, a.children)) + ")")
  {
    hide Join, CanonAll;
    var j := Join(",", CanonAll(repr, a.children));
    assert a.kind + "(" + j + ")" == a.kind + ("(" + j + ")");
  }

  lemma {:induction false} CanonBalanced(repr: real -> string, a: Ast)
    requires Legible(repr, a)
    ensures Balanced(Canon(repr, a)) && Canon(repr, a) != ""
    decreases a, 1
  {
    hide Legible, Balanced, Canon, CanonAll, Join;
    if a.Op? {
      LegibleChildren(repr, a);
      ListBalanced(repr, a.children);
      var j := Join(",", CanonAll(repr, a.children));
      BalancedParens(j);
      CleanBalanced(a.kind);
      BalancedConcat(a.kind, "(" + j + ")");
      OperatorText(repr, a);
    } else {
      LeafBalanced(repr, a);
    }
  }

  lemma {:induction false} ListBalanced(repr: real -> string, cs: seq<Ast>)
    requires forall c :: c in cs ==> Legible(repr, c)
    ensures Balanced(Join(",", CanonAll(repr, cs)))
    decreases cs, 0
  {
    hide Legible, Balanced, Canon;
    CommaBalanced();
    if cs != [] {
      assert cs[0] in cs && forall c :: c in cs[1..] ==> c in cs;
      CanonBalanced(repr, cs[0]);
      var all := CanonAll(repr, cs);
      assert all[1..] == CanonAll(repr, cs[1..]);
      ListBalanced(repr, cs[1..]);
      if |cs| > 1 {
        BalancedConcat(all[0], ",");
        BalancedConcat(all[0] + ",", Join(",", all[1..]));
      }
    }
  }

  lemma {:induction false} CommaBalanced()
    ensures Balanced(",") && Balanced("")
  {
    assert ","[1..] == "" && ","[0..] == ",";
  }

  /** No legible text continues, after one of its colons, as another. */
  lemma {:induction false} NoInnerText(repr: real -> string, a: Ast, b: Ast, r: string)
    requires Legible(repr, a) && Legible(repr, b)
    ensures Canon(repr, a) != r + ":" + Canon(repr, b)
  {
    hide Canon, Legible, Balanced, Clean, Show;
    if Canon(repr, a) == r + ":" + Canon(repr, b) {
      assert Canon(repr, a)[|r|] == ':' && Canon(repr, a)[|r| + 1..] == Canon(repr, b);
      CanonBalanced(repr, b);
      if a.Op? { NoneInOperator(repr, a, b, |r|); } else { NoneInLeaf(repr, a, b, |r|); }
    }
  }

  lemma {:induction false} NoneInLeaf(repr: real -> string, a: Ast, b: Ast, n: nat)
    requires Legible(repr, a) && Legible(repr, b) && !a.Op? && n < |Canon(repr, a)| && Canon(repr, a)[n] == ':'
    ensures Canon(repr, a)[n + 1..] != Canon(repr, b)
  {
    LeafLegible(repr, a);
    var body := LeafBody(repr, a);
    MarksShow(repr, b);
    hide Canon, Legible, LeafBody;
    var c := Canon(repr, a);
    assert forall i :: 2 <= i < |c| ==> c[i] in body;
    assert n == 1 && c[n + 1..] == body;
  }

  /** Every canonical text holds a colon or an opening parenthesis. */
  lemma {:induction false} MarksShow(repr: real -> string, b: Ast)
    ensures ':' in Canon(repr, b) || '(' in Canon(repr, b)
  {
    var c := Canon(repr, b);
    if b.Op? { assert c[|b.kind|] == '('; } else { assert c[1] == ':'; }
  }

  /** A colon in `k(j)` that is not in `k` stands inside the parentheses. */
  lemma {:induction false} ColonInside(k: string, j: string, n: nat)
    requires ':' !in k && n < |k + ("(" + j + ")")| && (k + ("(" + j + ")"))[n] == ':'
    ensures n > |k| && (k + ("(" + j + ")"))[n + 1..] == (j + ")")[n - |k|..]
  {
    var c := k + ("(" + j + ")");
    assert forall i :: 0 <= i < |k| ==> c[i] in k;
    assert c[|k|] == '(';
    assert c[|k| + 1..] == j + ")";
    assert c[n + 1..] == c[|k| + 1..][n - |k|..];
  }

  lemma {:induction false} NoneInOperator(repr: real -> string, a: Ast, b: Ast, n: nat)
    requires Legible(repr, a) && a.Op? && n < |Canon(repr, a)| && Canon(repr, a)[n] == ':'
    requires Balanced(Canon(repr, b)) && Canon(repr, b) != ""
    ensures Canon(repr, a)[n + 1..] != Canon(repr, b)
  {
    hide Canon, Legible, Join, CanonAll, Depth, Balanced;
    LegibleChildren(repr, a);
    ListBalanced(repr, a.children);
    OperatorText(repr, a);
    var j := Join(",", CanonAll(repr, a.children));
    ColonInside(a.kind, j, n);
    var m := n - |a.kind|;
    if m <= |j| {
      InsideCloses(j, m);
      BalancedDepth(Canon(repr, b));
    }
  }

  lemma {:induction false} BalancedDepth(s: string)
    requires Balanced(s)
    ensures Depth(s) == 0
  {
  }

  /** Legible texts under the same payload come with the same version. */
  lemma {:induction false} VersionFromEnd(repr: real -> string, v: string, a: Ast, w: string, b: Ast)
    requires Legible(repr, a) && Legible(repr, b) && v + ":" + Canon(repr, a) == w + ":" + Canon(repr, b)
    ensures v == w && Canon(repr, a) == Canon(repr, b)
  {
    hide Canon, Legible;
    var ca, cb := Canon(repr, a), Canon(repr, b);
    var p := v + ":" + ca;
    assert v == p[..|v|] && w == p[..|w|] && ca == p[|v| + 1..] && cb == p[|w| + 1..];
    if |v| < |w| {
      InnerPart(v, ca, w, cb);
      NoInnerText(repr, a, b, w[|v| + 1..]);
    } else if |w| < |v| {
      InnerPart(w, cb, v, ca);
      NoInnerText(repr, b, a, v[|w| + 1..]);
    }
  }

  lemma {:induction false} InnerPart(v: string, ca: string, w: string, cb: string)
    requires v + ":" + ca == w + ":" + cb && |v| < |w|
    ensures ca == w[|v| + 1..] + ":" + cb
  {
    var p := w + ":" + cb;
    assert ca == p[|v| + 1..];
    assert w == p[..|w|] && p[|w|..] == ":" + cb;
  }

  // ----- exactly when keys are sound -----

  ghost predicate ColonFree(repr: real -> string, a: Ast) {
    forall x :: Mentions(a, x) && !Integral(x) ==> ':' !in repr(x)
  }

  /** Admissible pairs: non-empty versions and names that avoid these characters, and constants
      whose texts do not get in the way. */
  ghost predicate Admitted(repr: real -> string, names: set<char>, versions: set<char>, v: string, a: Ast, w: string, b: Ast) {
    && v != "" && w != "" && Avoids(v, versions) && Avoids(w, versions)
    && NamesAvoid(a, names) && NamesAvoid(b, names)
    && Faithful(repr, Normalize(repr, a), Normalize(repr, b))
    && ColonFree(repr, Normalize(repr, a)) && ColonFree(repr, Normalize(repr, b))
  }

  /** The key never confuses two admitted pairs. */
  ghost predicate Sound(repr: real -> string, names: set<char>, versions: set<char>) {
    forall v, a, w, b :: Admitted(repr, names, versions, v, a, w, b) ==> !Confused(repr, v, a, w, b)
  }

  lemma {:induction false} SameNormalForm(repr: real -> string, v: string, a: Ast, w: string, b: Ast)
    requires WellNamed(a) && WellNamed(b) && Faithful(repr, Normalize(repr, a), Normalize(repr, b))
    requires v == w && Canon(repr, Normalize(repr, a)) == Canon(repr, Normalize(repr, b))
    ensures !Confused(repr, v, a, w, b)
  {
    hide Normalize, Canon, Faithful, NamesAvoid, Eval, KeyPayload;
    var na, nb := Normalize(repr, a), Normalize(repr, b);
    NormalizeAvoids(repr, a, NOTATION);
    NormalizeAvoids(repr, b, NOTATION);
    assert Canon(repr, na) + [] == Canon(repr, nb) + [];
    CanonUnique(repr, na, nb, na, [], nb, []);
    forall env: Env, ops: Ops | Symmetric(ops) ensures Eval(a, env, ops) == Eval(b, env, ops) {
      NormalizeMeaning(repr, a, env, ops);
      NormalizeMeaning(repr, b, env, ops);
    }
  }

  lemma {:induction false} NotConfused(repr: real -> string, names: set<char>, versions: set<char>, v: string, a: Ast, w: string, b: Ast)
    requires Admitted(repr, names, versions, v, a, w, b) && NOTATION <= names && (':' in versions || ':' in names)
    ensures !Confused(repr, v, a, w, b)
  {
    hide NamesAvoid, Normalize, Canon, Eval, Mentions;
    var na, nb := Normalize(repr, a), Normalize(repr, b);
    AvoidsMore(a, NOTATION, names);
    AvoidsMore(b, NOTATION, names);
    if v + ":" + Canon(repr, na) == w + ":" + Canon(repr, nb) {
      if ':' in versions {
        PayloadParts(v, Canon(repr, na), w, Canon(repr, nb));
      } else {
        LegibleNormal(repr, names, a);
        LegibleNormal(repr, names, b);
        VersionFromEnd(repr, v, na, w, nb);
      }
      SameNormalForm(repr, v, a, w, b);
    }
  }

  lemma {:induction false} LegibleNormal(repr: real -> string, names: set<char>, e: Ast)
    requires NamesAvoid(e, names) && NOTATION + {':'} <= names && ColonFree(repr, Normalize(repr, e))
    requires forall x :: Mentions(Normalize(repr, e), x) && !Integral(x) ==> Clean(repr(x))
    ensures Legible(repr, Normalize(repr, e))
  {
    hide NamesAvoid, Normalize, Mentions;
    NormalizeAvoids(repr, e, names);
    AvoidsMore(Normalize(repr, e), NOTATION + {':'}, names);
  }

  lemma {:induction false} CollisionAdmitted(repr: real -> string, names: set<char>, versions: set<char>, letter: char, c: char)
    requires letter !in versions && c in NOTATION && c !in names
    ensures Admitted(repr, names, versions, [letter], Collision(c).0, [letter], Collision(c).1)
  {
    CollisionNormal(repr, c);
    CollisionNames(repr, c, names);
    CollisionMute(c);
    hide NamesAvoid, Normalize, Faithful, Mentions, Collision;
  }

  lemma {:induction false} CollisionMute(c: char)
    requires c in NOTATION
    ensures forall x :: !Mentions(Collision(c).0, x) && !Mentions(Collision(c).1, x)
  {
    CollisionBare(c, {});
    hide Mentions, Collision;
  }

  lemma {:induction false} ColonAdmitted(repr: real -> string, names: set<char>, versions: set<char>)
    requires ':' !in names && ':' !in versions
    ensures Admitted(repr, names, versions, "::", Op("", []), ":", Op(":", []))
  {
    ShortNames("");
    ShortNames(":");
    assert Normalize(repr, Op("", [])) == Op("", []) && Normalize(repr, Op(":", [])) == Op(":", []);
  }

  /** As long as there are versions at all, deduplication is sound exactly when names avoid the
      three delimiters and names or versions avoid the colon. */
  lemma {:induction false} SoundIff(repr: real -> string, names: set<char>, versions: set<char>, letter: char)
    requires letter !in versions
    ensures Sound(repr, names, versions) <==> NOTATION <= names && (':' in versions || ':' in names)
  {
    hide Admitted, Confused, Collision;
    if NOTATION <= names && (':' in versions || ':' in names) {
      forall v, a, w, b | Admitted(repr, names, versions, v, a, w, b) ensures !Confused(repr, v, a, w, b) {
        NotConfused(repr, names, versions, v, a, w, b);
      }
    } else if !(NOTATION <= names) {
      var c :| c in NOTATION && c !in names;
      CollisionConfused(repr, [letter], c);
      CollisionAdmitted(repr, names, versions, letter, c);
    } else {
      ColonConfused(repr);
      ColonAdmitted(repr, names, versions);
    }
  }
}

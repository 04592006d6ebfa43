/** The expression key: normalisation of an AST, its canonical string, and the
    payload that is hashed. Constants are exact reals; `repr` stands for Python's
    rendering of a number that is not integral. */
module ExpressionKey {
  import opened Wrappers
  import opened Ordering
  import opened Sequences
  import opened Text
  import opened Operators

  datatype Ast = Const(value: real) | Var(name: string) | Op(kind: string, children: seq<Ast>)

  // ----- the canonical string -----

  predicate Integral(x: real) {
    x == x.Floor as real
  }

  function Show(repr: real -> string, x: real): string {
    if Integral(x) then Decimal(x.Floor) else repr(x)
  }

  function Canon(repr: real -> string, a: Ast): string
    decreases a, 1
  {
    match a
    case Const(v) => "C:" + Show(repr, v)
    case Var(n) => "V:" + n
    case Op(k, cs) => k + "(" + Join(",", CanonAll(repr, cs)) + ")"
  }

  function CanonAll(repr: real -> string, cs: seq<Ast>): (r: seq<string>)
    ensures |r| == |cs| && forall i :: 0 <= i < |cs| ==> r[i] == Canon(repr, cs[i])
    decreases cs, 0
  {
    if cs == [] then [] else [Canon(repr, cs[0])] + CanonAll(repr, cs[1..])
  }

  // ----- normalisation -----

  function KeyLeq(repr: real -> string): (Ast, Ast) -> bool {
    (a, b) => StrLeq(Canon(repr, a), Canon(repr, b))
  }

  predicate AllConst(cs: seq<Ast>) {
    forall i :: 0 <= i < |cs| ==> cs[i].Const?
  }

  function Values(cs: seq<Ast>): seq<real>
    requires AllConst(cs)
  {
    if cs == [] then [] else [cs[0].value] + Values(cs[1..])
  }

  function NotNeutral(kind: string): Ast -> bool {
    (a: Ast) => !(a.Const? && a.value == Neutral(kind))
  }

  /** Constant folding, then removal of identities. */
  function Reduce(kind: string, cs: seq<Ast>): Ast {
    if !Arithmetic(kind) then Op(kind, cs)
    else if AllConst(cs) then Const(Total(kind, Values(cs)))
    else
      var kept := Filter(NotNeutral(kind), cs);
      if kept == [] then Const(Neutral(kind))
      else if |kept| == 1 then kept[0]
      else Op(kind, kept)
  }

  function Arrange(repr: real -> string, kind: string, cs: seq<Ast>): seq<Ast> {
    if Commutative(kind) then Sort(cs, KeyLeq(repr)) else cs
  }

  /** What `normalize_ast` does once the children are normalised. */
  function Build(repr: real -> string, kind: string, cs: seq<Ast>): Ast {
    Reduce(kind, Arrange(repr, kind, cs))
  }

  function Normalize(repr: real -> string, a: Ast): Ast
    decreases a, 1
  {
    match a
    case Const(_) => a
    case Var(_) => a
    case Op(k, cs) => Build(repr, k, NormalizeAll(repr, cs))
  }

  function NormalizeAll(repr: real -> string, cs: seq<Ast>): (r: seq<Ast>)
    ensures |r| == |cs| && forall i :: 0 <= i < |cs| ==> r[i] == Normalize(repr, cs[i])
    decreases cs, 0
  {
    if cs == [] then [] else [Normalize(repr, cs[0])] + NormalizeAll(repr, cs[1..])
  }

  /** The string that is hashed; a missing version is refused. */
  function KeyPayload(repr: real -> string, version: string, a: Ast): Option<string> {
    if version == "" then None else Some(version + ":" + Canon(repr, Normalize(repr, a)))
  }

  // ----- meaning -----

  type Env = string -> real
  type Ops = (string, seq<real>) -> real

  function Apply(ops: Ops, kind: string, xs: seq<real>): real {
    if kind == "Add" then Sum(xs) else if kind == "Mul" then Product(xs) else ops(kind, xs)
  }

  function Eval(a: Ast, env: Env, ops: Ops): real
    decreases a, 1
  {
    match a
    case Const(v) => v
    case Var(n) => env(n)
    case Op(k, cs) => Apply(ops, k, EvalAll(cs, env, ops))
  }

  function EvalAll(cs: seq<Ast>, env: Env, ops: Ops): (r: seq<real>)
    ensures |r| == |cs| && forall i :: 0 <= i < |cs| ==> r[i] == Eval(cs[i], env, ops)
    decreases cs, 0
  {
    if cs == [] then [] else [Eval(cs[0], env, ops)] + EvalAll(cs[1..], env, ops)
  }

  /** The remaining commutative operators do not look at the order of their operands. */
  ghost predicate Symmetric(ops: Ops) {
    forall k, xs, ys :: Commutative(k) && multiset(xs) == multiset(ys) ==> ops(k, xs) == ops(k, ys)
  }

  // ----- basic facts -----

  lemma {:induction false} KeyPreorder(repr: real -> string)
    ensures TotalPreorder(KeyLeq(repr))
  {
    hide StrLeq, Canon;
    var leq := KeyLeq(repr);
    forall a, b ensures leq(a, b) || leq(b, a) {
      StrLinear(Canon(repr, a), Canon(repr, b));
    }
    forall a, b, c | leq(a, b) && leq(b, c) ensures leq(a, c) {
      StrTrans(Canon(repr, a), Canon(repr, b), Canon(repr, c));
    }
  }

  lemma {:induction false} SortedChildren(repr: real -> string, cs: seq<Ast>)
    ensures var s := Sort(cs, KeyLeq(repr)); multiset(s) == multiset(cs) && Sorted(s, KeyLeq(repr)) && |s| == |cs|
  {
    KeyPreorder(repr);
    SortCorrect(cs, KeyLeq(repr));
  }

  // ----- normalisation keeps the meaning -----

  lemma {:induction false} EvalAllIsMap(cs: seq<Ast>, env: Env, ops: Ops)
    ensures EvalAll(cs, env, ops) == Map(a => Eval(a, env, ops), cs)
  {
  }

  lemma {:induction false} ApplyPerm(ops: Ops, kind: string, cs: seq<Ast>, ds: seq<Ast>, env: Env)
    requires Symmetric(ops) && Commutative(kind) && multiset(cs) == multiset(ds)
    ensures Apply(ops, kind, EvalAll(cs, env, ops)) == Apply(ops, kind, EvalAll(ds, env, ops))
  {
    var f := (a: Ast) => Eval(a, env, ops);
    EvalAllIsMap(cs, env, ops);
    EvalAllIsMap(ds, env, ops);
    MapPerm(f, cs, ds);
    TotalPerm(kind, EvalAll(cs, env, ops), EvalAll(ds, env, ops));
  }

  lemma {:induction false} ValuesAreEval(cs: seq<Ast>, env: Env, ops: Ops)
    requires AllConst(cs)
    ensures Values(cs) == EvalAll(cs, env, ops)
  {
    if cs != [] {
      ValuesAreEval(cs[1..], env, ops);
    }
  }

  lemma {:induction false} DropNeutral(kind: string, cs: seq<Ast>, env: Env, ops: Ops)
    requires Arithmetic(kind)
    ensures Total(kind, EvalAll(Filter(NotNeutral(kind), cs), env, ops)) == Total(kind, EvalAll(cs, env, ops))
  {
    if cs != [] {
      DropNeutral(kind, cs[1..], env, ops);
      var rest := Filter(NotNeutral(kind), cs[1..]);
      if NotNeutral(kind)(cs[0]) {
        var all := [cs[0]] + rest;
        assert Filter(NotNeutral(kind), cs) == all && all[1..] == rest;
        assert EvalAll(all, env, ops)[1..] == EvalAll(rest, env, ops);
      } else {
        assert Filter(NotNeutral(kind), cs) == [] + rest == rest;
      }
      assert EvalAll(cs, env, ops)[1..] == EvalAll(cs[1..], env, ops);
    }
  }

  lemma {:induction false} ReduceMeaning(kind: string, cs: seq<Ast>, env: Env, ops: Ops)
    ensures Eval(Reduce(kind, cs), env, ops) == Apply(ops, kind, EvalAll(cs, env, ops))
  {
    hide Fold;
    if Arithmetic(kind) {
      if AllConst(cs) {
        ValuesAreEval(cs, env, ops);
      } else {
        DropNeutral(kind, cs, env, ops);
        SmallTotals(kind, Eval(Reduce(kind, cs), env, ops));
        var kept := Filter(NotNeutral(kind), cs);
        if kept == [] {
          assert EvalAll(kept, env, ops) == [];
        } else if |kept| == 1 {
          assert EvalAll(kept, env, ops) == [Eval(kept[0], env, ops)];
        }
      }
    }
  }

  lemma {:induction false} BuildMeaning(repr: real -> string, kind: string, cs: seq<Ast>, env: Env, ops: Ops)
    requires Symmetric(ops)
    ensures Eval(Build(repr, kind, cs), env, ops) == Apply(ops, kind, EvalAll(cs, env, ops))
  {
    hide Symmetric, Reduce, KeyLeq, Sort;
    if Commutative(kind) {
      SortedChildren(repr, cs);
      ApplyPerm(ops, kind, Arrange(repr, kind, cs), cs, env);
    }
    ReduceMeaning(kind, Arrange(repr, kind, cs), env, ops);
  }

  /** Normalising an expression does not change its value. */
  lemma {:induction false} NormalizeMeaning(repr: real -> string, a: Ast, env: Env, ops: Ops)
    requires Symmetric(ops)
    ensures Eval(Normalize(repr, a), env, ops) == Eval(a, env, ops)
    decreases a
  {
    if a.Op? {
      var cs := a.children;
      forall i | 0 <= i < |cs| ensures Eval(Normalize(repr, cs[i]), env, ops) == Eval(cs[i], env, ops) {
        NormalizeMeaning(repr, cs[i], env, ops);
      }
      assert EvalAll(NormalizeAll(repr, cs), env, ops) == EvalAll(cs, env, ops);
      BuildMeaning(repr, a.kind, NormalizeAll(repr, cs), env, ops);
    }
  }

  // ----- normalisation is idempotent -----

  lemma {:induction false} AllNormalFixed(repr: real -> string, cs: seq<Ast>)
    requires forall c :: c in cs ==> Normalize(repr, c) == c
    ensures NormalizeAll(repr, cs) == cs
  {
    forall i | 0 <= i < |cs| ensures NormalizeAll(repr, cs)[i] == cs[i] {
      assert cs[i] in cs;
    }
  }

  lemma {:induction false} FilterTwice(p: Ast -> bool, cs: seq<Ast>)
    ensures Filter(p, Filter(p, cs)) == Filter(p, cs)
  {
    if cs != [] {
      FilterTwice(p, cs[1..]);
      var rest := Filter(p, cs[1..]);
      if p(cs[0]) {
        assert Filter(p, cs)[1..] == rest;
      } else {
        assert Filter(p, cs) == rest;
      }
    }
  }

  /** A reduced node made of sorted operands is left alone by a second reduction. */
  lemma {:induction false} ReduceTwice(repr: real -> string, kind: string, cs: seq<Ast>)
    requires Commutative(kind) ==> Sorted(cs, KeyLeq(repr))
    ensures var r := Reduce(kind, cs);
            r.Const? || r in cs || (r.Op? && r.kind == kind && (forall c :: c in r.children ==> c in cs) &&
                                    Build(repr, kind, r.children) == r)
  {
    if Arithmetic(kind) {
      if !AllConst(cs) {
        var kept := Filter(NotNeutral(kind), cs);
        forall c ensures c in kept <==> c in cs && NotNeutral(kind)(c) {
          FilterMembers(NotNeutral(kind), cs, c);
        }
        if |kept| > 1 {
          FilterSorted(NotNeutral(kind), cs, KeyLeq(repr));
          SortFixed(kept, KeyLeq(repr));
          FilterTwice(NotNeutral(kind), cs);
          var i :| 0 <= i < |cs| && !cs[i].Const?;
          assert cs[i] in kept;
          assert !AllConst(kept);
        }
      }
    } else if Commutative(kind) {
      SortFixed(cs, KeyLeq(repr));
    }
  }

  lemma {:induction false} BuildNormal(repr: real -> string, kind: string, cs: seq<Ast>)
    requires forall c :: c in cs ==> Normalize(repr, c) == c
    ensures Normalize(repr, Build(repr, kind, cs)) == Build(repr, kind, cs)
  {
    hide KeyLeq, Sort, Reduce;
    var arranged := Arrange(repr, kind, cs);
    if Commutative(kind) {
      KeyPreorder(repr);
      SortMembers(cs, KeyLeq(repr));
      SortedChildren(repr, cs);
    }
    ReduceTwice(repr, kind, arranged);
    var r := Reduce(kind, arranged);
    if r.Op? && r !in arranged {
      AllNormalFixed(repr, r.children);
    }
  }

  /** Normalising twice is normalising once. */
  lemma {:induction false} NormalizeIdempotent(repr: real -> string, a: Ast)
    ensures Normalize(repr, Normalize(repr, a)) == Normalize(repr, a)
    decreases a
  {
    if a.Op? {
      var cs := NormalizeAll(repr, a.children);
      forall c | c in cs ensures Normalize(repr, c) == c {
        var i :| 0 <= i < |cs| && cs[i] == c;
        NormalizeIdempotent(repr, a.children[i]);
      }
      BuildNormal(repr, a.kind, cs);
    }
  }

  lemma {:induction false} NormalOne(repr: real -> string, k: string, a: Ast)
    requires !Commutative(k)
    ensures Normalize(repr, Op(k, [a])) == Op(k, [Normalize(repr, a)])
  {
    assert NormalizeAll(repr, [a]) == [Normalize(repr, a)];
    hide Normalize, NormalizeAll;
    assert !Arithmetic(k);
  }

  lemma {:induction false} NormalTwo(repr: real -> string, k: string, a: Ast, b: Ast)
    requires !Commutative(k)
    ensures Normalize(repr, Op(k, [a, b])) == Op(k, [Normalize(repr, a), Normalize(repr, b)])
  {
    assert NormalizeAll(repr, [a, b]) == [Normalize(repr, a), Normalize(repr, b)];
    hide Normalize, NormalizeAll;
    assert !Arithmetic(k);
  }

  /** A difference from 0 is left as it is. */
  lemma {:induction false} SubtractionKept(repr: real -> string, x: Ast)
    ensures Normalize(repr, Op("Sub", [Const(0.0), x])) == Op("Sub", [Const(0.0), Normalize(repr, x)])
  {
    NormalTwo(repr, "Sub", Const(0.0), x);
  }

  // ----- the canonical string can be read back -----

  /** The characters that delimit operands in a canonical string. The `:` after `C` and `V`
      is not one of them: a leaf ends where its operand ends. */
  const NOTATION: set<char> := {'(', ')', ','}

  predicate Delimiter(c: char) {
    c in NOTATION
  }

  predicate Avoids(s: string, cs: set<char>) {
    forall c :: c in s ==> c !in cs
  }

  predicate Clean(s: string) {
    Avoids(s, NOTATION)
  }

  /** Variable and operator names contain none of the characters `avoided`. */
  predicate NamesAvoid(a: Ast, avoided: set<char>)
    decreases a
  {
    match a
    case Const(_) => true
    case Var(n) => Avoids(n, avoided)
    case Op(k, cs) => Avoids(k, avoided) && forall c :: c in cs ==> NamesAvoid(c, avoided)
  }

  predicate WellNamed(a: Ast) {
    NamesAvoid(a, NOTATION)
  }

  ghost predicate Mentions(a: Ast, x: real)
    decreases a
  {
    match a
    case Const(v) => v == x
    case Var(_) => false
    case Op(_, cs) => exists c :: c in cs && Mentions(c, x)
  }

  ghost predicate IsDecimal(s: string) {
    exists i :: Decimal(i) == s
  }

  /** `repr` tells the non-integral constants of two expressions apart, from
      each other and from integers, without using the notation's characters. */
  ghost predicate Faithful(repr: real -> string, a: Ast, b: Ast) {
    && (forall x :: (Mentions(a, x) || Mentions(b, x)) && !Integral(x) ==> Clean(repr(x)) && !IsDecimal(repr(x)))
    && (forall x, y :: Mentions(a, x) && Mentions(b, y) && !Integral(x) && !Integral(y) && repr(x) == repr(y) ==> x == y)
  }

  lemma {:induction false} DecimalClean(i: int)
    ensures Clean(Decimal(i)) && IsDecimal(Decimal(i))
  {
    DecimalShape(i);
  }

  lemma {:induction false} ShowInjective(repr: real -> string, a: Ast, b: Ast, x: real, y: real)
    requires Faithful(repr, a, b) && Mentions(a, x) && Mentions(b, y)
    ensures Show(repr, x) == Show(repr, y) ==> x == y
  {
    DecimalClean(x.Floor);
    DecimalClean(y.Floor);
    if Integral(x) && Integral(y) && Show(repr, x) == Show(repr, y) {
      DecimalInjective(x.Floor, y.Floor);
    }
  }

  /** What follows an operand in a canonical string. */
  predicate Ends(s: string) {
    s == [] || s[0] == ',' || s[0] == ')'
  }

  /** A canonical string up to its first delimiter: all of a leaf, the name of an operator. */
  function Head(repr: real -> string, a: Ast): string {
    match a
    case Const(v) => "C:" + Show(repr, v)
    case Var(n) => "V:" + n
    case Op(k, _) => k
  }

  function Tail(repr: real -> string, a: Ast): string {
    match a
    case Const(_) => ""
    case Var(_) => ""
    case Op(_, cs) => "(" + Join(",", CanonAll(repr, cs)) + ")"
  }

  lemma {:induction false} HeadTail(repr: real -> string, a: Ast)
    ensures Canon(repr, a) == Head(repr, a) + Tail(repr, a)
    ensures if a.Op? then Tail(repr, a) != [] && Tail(repr, a)[0] == '(' else Tail(repr, a) == []
  {
    if a.Op? {
      var j := Join(",", CanonAll(repr, a.children));
      assert a.kind + "(" + j + ")" == a.kind + ("(" + j + ")");
    }
  }

  lemma {:induction false} HeadClean(repr: real -> string, r1: Ast, r2: Ast, a: Ast)
    requires Faithful(repr, r1, r2) && WellNamed(a)
    requires (forall x :: Mentions(a, x) ==> Mentions(r1, x)) || (forall x :: Mentions(a, x) ==> Mentions(r2, x))
    ensures Clean(Head(repr, a))
  {
    hide Show;
    if a.Const? {
      assert Mentions(a, a.value);
      ShowClean(repr, r1, r2, a.value);
    }
  }

  lemma {:induction false} ShowClean(repr: real -> string, a: Ast, b: Ast, x: real)
    requires Faithful(repr, a, b) && (Mentions(a, x) || Mentions(b, x))
    ensures Clean(Show(repr, x))
  {
    DecimalClean(x.Floor);
  }

  lemma {:induction false} CleanCut(x: string, s: string, y: string, t: string)
    requires Clean(x) && Clean(y) && x + s == y + t
    requires s != [] ==> Delimiter(s[0])
    requires t != [] ==> Delimiter(t[0])
    ensures x == y && s == t
  {
    CutUnique(Delimiter, x, s, y, t);
  }

  /** Unique decodability: an operand and what follows it are determined by the text. */
  lemma {:induction false} CanonUnique(repr: real -> string, r1: Ast, r2: Ast, a: Ast, s: string, b: Ast, t: string)
    requires Faithful(repr, r1, r2) && WellNamed(a) && WellNamed(b) && Ends(s) && Ends(t)
    requires forall x :: Mentions(a, x) ==> Mentions(r1, x)
    requires forall x :: Mentions(b, x) ==> Mentions(r2, x)
    requires Canon(repr, a) + s == Canon(repr, b) + t
    ensures a == b && s == t
    decreases a, 1
  {
    hide Faithful, Mentions, Canon, Head, Tail, WellNamed, Clean;
    var ha, ta, hb, tb := Head(repr, a), Tail(repr, a), Head(repr, b), Tail(repr, b);
    HeadTail(repr, a);
    HeadTail(repr, b);
    HeadClean(repr, r1, r2, a);
    HeadClean(repr, r1, r2, b);
    Regrouped(ha, ta, s, hb, tb, t);
    CleanCut(ha, ta + s, hb, tb + t);
    if a.Op? && b.Op? {
      OperandsUnique(repr, r1, r2, a, s, b, t);
    } else {
      assert !a.Op? ==> ta + s == s;
      assert !b.Op? ==> tb + t == t;
      assert a.Op? <==> b.Op?;
      LeafUnique(repr, r1, r2, a, b);
    }
  }

  lemma {:induction false} Regrouped(a: string, b: string, c: string, d: string, e: string, f: string)
    ensures a + b + c == d + e + f ==> a + (b + c) == d + (e + f)
  {
    assert a + b + c == a + (b + c) && d + e + f == d + (e + f);
  }

  lemma {:induction false} OperandsUnique(repr: real -> string, r1: Ast, r2: Ast, a: Ast, s: string, b: Ast, t: string)
    requires a.Op? && b.Op? && Head(repr, a) == Head(repr, b)
    requires Faithful(repr, r1, r2) && WellNamed(a) && WellNamed(b)
    requires forall x :: Mentions(a, x) ==> Mentions(r1, x)
    requires forall x :: Mentions(b, x) ==> Mentions(r2, x)
    requires Tail(repr, a) + s == Tail(repr, b) + t
    ensures a == b && s == t
    decreases a, 0
  {
    hide Faithful, Canon, CanonAll, Join;
    var ja, jb := Join(",", CanonAll(repr, a.children)), Join(",", CanonAll(repr, b.children));
    Assoc("(" + ja, ")", s);
    Assoc("(" + jb, ")", t);
    DropFirst("(", ja, ")" + s, jb, ")" + t);
    ListUnique(repr, r1, r2, a.children, s, b.children, t);
  }

  lemma {:induction false} LeafUnique(repr: real -> string, r1: Ast, r2: Ast, a: Ast, b: Ast)
    requires !a.Op? && !b.Op? && Head(repr, a) == Head(repr, b) && Faithful(repr, r1, r2)
    requires forall x :: Mentions(a, x) ==> Mentions(r1, x)
    requires forall x :: Mentions(b, x) ==> Mentions(r2, x)
    ensures a == b
  {
    hide Faithful, Show;
    var ta, tb := Head(repr, a), Head(repr, b);
    assert ta[0] == (if a.Const? then 'C' else 'V') && tb[0] == if b.Const? then 'C' else 'V';
    assert ta[2..] == (if a.Const? then Show(repr, a.value) else a.name);
    assert tb[2..] == (if b.Const? then Show(repr, b.value) else b.name);
    if a.Const? {
      assert Mentions(a, a.value) && Mentions(b, b.value);
      ShowInjective(repr, r1, r2, a.value, b.value);
    }
  }

  lemma {:induction false} DropFirst(h: string, x: string, s: string, y: string, t: string)
    requires |h| == 1
    ensures h + x + s == h + y + t ==> x + s == y + t
  {
    assert (h + x + s)[1..] == x + s && (h + y + t)[1..] == y + t;
  }

  lemma {:induction false} ListUnique(repr: real -> string, r1: Ast, r2: Ast, cs: seq<Ast>, s: string, ds: seq<Ast>, t: string)
    requires Faithful(repr, r1, r2)
    requires forall c :: c in cs ==> WellNamed(c) && forall x :: Mentions(c, x) ==> Mentions(r1, x)
    requires forall d :: d in ds ==> WellNamed(d) && forall x :: Mentions(d, x) ==> Mentions(r2, x)
    requires Join(",", CanonAll(repr, cs)) + (")" + s) == Join(",", CanonAll(repr, ds)) + (")" + t)
    ensures cs == ds && s == t
    decreases cs, 2
  {
    hide Faithful, Mentions, WellNamed, Canon;
    if cs == [] || ds == [] {
      EmptyList(repr, cs, s, ds, t);
    } else {
      var u := More(repr, cs, s);
      var v := More(repr, ds, t);
      JoinMore(repr, cs, s);
      JoinMore(repr, ds, t);
      assert cs[0] in cs && ds[0] in ds;
      CanonUnique(repr, r1, r2, cs[0], u, ds[0], v);
      assert |cs| > 1 <==> |ds| > 1;
      assert u[1..] == v[1..];
      if |cs| > 1 {
        assert u[1..] == Join(",", CanonAll(repr, cs[1..])) + (")" + s);
        assert v[1..] == Join(",", CanonAll(repr, ds[1..])) + (")" + t);
        assert forall c :: c in cs[1..] ==> c in cs;
        assert forall d :: d in ds[1..] ==> d in ds;
        ListUnique(repr, r1, r2, cs[1..], s, ds[1..], t);
      } else {
        assert u[1..] == s && v[1..] == t;
      }
      assert cs == [cs[0]] + cs[1..] && ds == [ds[0]] + ds[1..];
    }
  }

  /** What comes after the first operand of an operand list. */
  function More(repr: real -> string, cs: seq<Ast>, s: string): string
    requires cs != []
  {
    if |cs| > 1 then "," + (Join(",", CanonAll(repr, cs[1..])) + (")" + s)) else ")" + s
  }

  lemma {:induction false} JoinMore(repr: real -> string, cs: seq<Ast>, s: string)
    requires cs != []
    ensures Join(",", CanonAll(repr, cs)) + (")" + s) == Canon(repr, cs[0]) + More(repr, cs, s)
  {
    var all := CanonAll(repr, cs);
    assert all[1..] == CanonAll(repr, cs[1..]);
    if |cs| > 1 {
      var rest := Join(",", all[1..]);
      Assoc(all[0] + ",", rest, ")" + s);
      Assoc(all[0], ",", rest + (")" + s));
    }
  }

  lemma {:induction false} EmptyList(repr: real -> string, cs: seq<Ast>, s: string, ds: seq<Ast>, t: string)
    requires cs == [] || ds == []
    requires forall c :: c in cs ==> WellNamed(c)
    requires forall d :: d in ds ==> WellNamed(d)
    requires Join(",", CanonAll(repr, cs)) + (")" + s) == Join(",", CanonAll(repr, ds)) + (")" + t)
    ensures cs == ds && s == t
  {
    NonemptyList(repr, cs, s);
    NonemptyList(repr, ds, t);
    if cs == [] && ds == [] {
      assert "" + (")" + s) == ")" + s && "" + (")" + t) == ")" + t;
      assert (")" + s)[1..] == s && (")" + t)[1..] == t;
    }
  }

  /** The text of an operand list starts with `)` only when the list is empty. */
  lemma {:induction false} NonemptyList(repr: real -> string, cs: seq<Ast>, s: string)
    requires forall c :: c in cs ==> WellNamed(c)
    ensures var all := Join(",", CanonAll(repr, cs)) + (")" + s); all[0] == ')' <==> cs == []
  {
    if cs != [] {
      JoinMore(repr, cs, s);
      assert cs[0] in cs;
      HeadTail(repr, cs[0]);
      hide Show;
      var h := Head(repr, cs[0]);
      assert h != [] ==> h[0] in h;
      assert Canon(repr, cs[0])[0] == if h != [] then h[0] else Tail(repr, cs[0])[0];
    }
  }

  // ----- exactly which names can be read back -----

  /** Expressions whose names avoid these characters are told apart by their canonical strings. */
  ghost predicate Readable(repr: real -> string, avoided: set<char>) {
    forall a, b :: NamesAvoid(a, avoided) && NamesAvoid(b, avoided) && Faithful(repr, a, b) && Canon(repr, a) == Canon(repr, b) ==> a == b
  }

  lemma {:induction false} AvoidsMore(a: Ast, few: set<char>, many: set<char>)
    requires NamesAvoid(a, many) && few <= many
    ensures NamesAvoid(a, few)
    decreases a
  {
    if a.Op? {
      forall c | c in a.children ensures NamesAvoid(c, few) { AvoidsMore(c, few, many); }
    }
  }

  /** For each delimiter two different expressions with one canonical string, whose names
      contain no character but that delimiter. */
  function Collision(c: char): (Ast, Ast)
  {
    var x, y := Var(""), Var([c]);
    if c == ',' then (Op("", [x, Op([c], [x])]), Op("", [y, Op("", [x])]))
    else if c == '(' then (Op([c], [Op("", [x])]), Op("", [Op([c], [x])]))
    else (Op("", [Op("", [Op("", [x])]), y]), Op("", [Op("", [Op("", [y]), x])]))
  }

  lemma {:induction false} CanonOne(repr: real -> string, k: string, a: Ast)
    ensures Canon(repr, Op(k, [a])) == k + "(" + Canon(repr, a) + ")"
  {
    assert [a][1..] == [];
    assert CanonAll(repr, [a]) == [Canon(repr, a)];
  }

  lemma {:induction false} CanonTwo(repr: real -> string, k: string, a: Ast, b: Ast)
    ensures Canon(repr, Op(k, [a, b])) == k + "(" + Canon(repr, a) + "," + Canon(repr, b) + ")"
  {
    assert [a, b][1..] == [b];
    assert CanonAll(repr, [a, b]) == [Canon(repr, a), Canon(repr, b)];
    var ca, cb := Canon(repr, a), Canon(repr, b);
    assert [ca, cb][1..] == [cb] && Join(",", [ca, cb]) == ca + "," + cb;
    assert k + "(" + (ca + "," + cb) + ")" == k + "(" + ca + "," + cb + ")";
  }

  lemma {:induction false} CommaCollision(repr: real -> string)
    ensures Canon(repr, Collision(',').0) == Canon(repr, Collision(',').1)
  {
    var x, y := Var(""), Var(",");
    assert Canon(repr, x) == "V:" && Canon(repr, y) == "V:" + ",";
    CanonOne(repr, "", x);
    CanonOne(repr, ",", x);
    CanonTwo(repr, "", x, Op(",", [x]));
    CanonTwo(repr, "", y, Op("", [x]));
    hide Canon;
  }

  lemma {:induction false} OpenCollision(repr: real -> string)
    ensures Canon(repr, Collision('(').0) == Canon(repr, Collision('(').1)
  {
    var x := Var("");
    CanonOne(repr, "", x);
    CanonOne(repr, "(", x);
    CanonOne(repr, "(", Op("", [x]));
    CanonOne(repr, "", Op("(", [x]));
    hide Canon;
  }

  lemma {:induction false} CloseCollision(repr: real -> string)
    ensures Canon(repr, Collision(')').0) == Canon(repr, Collision(')').1)
  {
    var x, y := Var(""), Var(")");
    assert Canon(repr, x) == "V:" && Canon(repr, y) == "V:" + ")";
    CanonOne(repr, "", x);
    CanonOne(repr, "", y);
    CanonOne(repr, "", Op("", [x]));
    CanonTwo(repr, "", Op("", [Op("", [x])]), y);
    CanonTwo(repr, "", Op("", [y]), x);
    CanonOne(repr, "", Op("", [Op("", [y]), x]));
    hide Canon;
  }

  lemma {:induction false} CollisionTexts(repr: real -> string, c: char)
    requires c in NOTATION
    ensures Canon(repr, Collision(c).0) == Canon(repr, Collision(c).1) && Collision(c).0 != Collision(c).1
  {
    CommaCollision(repr);
    OpenCollision(repr);
    CloseCollision(repr);
    hide Canon;
  }

  /** Names avoid these characters, and there are no constants. */
  ghost predicate Bare(a: Ast, avoided: set<char>) {
    NamesAvoid(a, avoided) && forall x :: !Mentions(a, x)
  }

  lemma {:induction false} BareVar(n: string, avoided: set<char>)
    requires Avoids(n, avoided)
    ensures Bare(Var(n), avoided)
  {
  }

  lemma {:induction false} BareOne(k: string, a: Ast, avoided: set<char>)
    requires Avoids(k, avoided) && Bare(a, avoided)
    ensures Bare(Op(k, [a]), avoided)
  {
  }

  lemma {:induction false} BareTwo(k: string, a: Ast, b: Ast, avoided: set<char>)
    requires Avoids(k, avoided) && Bare(a, avoided) && Bare(b, avoided)
    ensures Bare(Op(k, [a, b]), avoided)
  {
  }

  lemma {:induction false} CollisionBare(c: char, avoided: set<char>)
    requires c in NOTATION && c !in avoided
    ensures Bare(Collision(c).0, avoided) && Bare(Collision(c).1, avoided)
  {
    var x, y := Var(""), Var([c]);
    BareVar("", avoided);
    BareVar([c], avoided);
    hide Mentions, NamesAvoid;
    BareOne("", x, avoided);
    BareOne("", y, avoided);
    BareOne([c], x, avoided);
    if c == ',' {
      BareTwo("", x, Op([c], [x]), avoided);
      BareTwo("", y, Op("", [x]), avoided);
    } else if c == '(' {
      BareOne([c], Op("", [x]), avoided);
      BareOne("", Op([c], [x]), avoided);
    } else {
      BareOne("", Op("", [x]), avoided);
      BareTwo("", Op("", [Op("", [x])]), y, avoided);
      BareTwo("", Op("", [y]), x, avoided);
      BareOne("", Op("", [Op("", [y]), x]), avoided);
    }
  }

  lemma {:induction false} CollisionNames(repr: real -> string, c: char, avoided: set<char>)
    requires c in NOTATION && c !in avoided
    ensures NamesAvoid(Collision(c).0, avoided) && NamesAvoid(Collision(c).1, avoided)
    ensures Faithful(repr, Collision(c).0, Collision(c).1)
  {
    CollisionBare(c, avoided);
    hide Collision, Mentions, NamesAvoid;
  }

  /** Canonical strings can be read back exactly when names avoid all three delimiters. */
  lemma {:induction false} ReadableIff(repr: real -> string, avoided: set<char>)
    ensures Readable(repr, avoided) <==> NOTATION <= avoided
  {
    hide Canon, Faithful, NamesAvoid, Collision;
    if NOTATION <= avoided {
      forall a, b | NamesAvoid(a, avoided) && NamesAvoid(b, avoided) && Faithful(repr, a, b) && Canon(repr, a) == Canon(repr, b)
        ensures a == b
      {
        AvoidsMore(a, NOTATION, avoided);
        AvoidsMore(b, NOTATION, avoided);
        assert Canon(repr, a) + [] == Canon(repr, b) + [];
        CanonUnique(repr, a, b, a, [], b, []);
      }
    } else {
      var c :| c in NOTATION && c !in avoided;
      CollisionTexts(repr, c);
      CollisionNames(repr, c, avoided);
    }
  }
}

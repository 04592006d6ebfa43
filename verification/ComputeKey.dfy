/** The text hashed into a compute key: five parts joined by the unit separator. */
module ComputeKey {
  import opened Wrappers
  import opened Sequences
  import opened Text
  import C = ComputeContext

  const SEP := "\U{1f}"

  predicate HasSep(s: string) {
    '\U{1f}' in s
  }

  /** World, domain, as-of and partition of a context, with nothing for an absent value. */
  function HashComponents(c: C.Context): seq<string> {
    [c.worldId, if C.MissingDomain(Some(c.domain)) then C.COMPUTE_ONLY else c.domain,
     C.OrEmpty(c.asOf), C.OrEmpty(c.partition)]
  }

  function Preimage(parts: seq<string>): string {
    Join(SEP, parts)
  }

  function KeyParts(node: Option<string>, c: C.Context): seq<string> {
    [C.OrEmpty(node)] + HashComponents(c)
  }

  /** The text in full: node, world, domain, as-of and partition, with a unit separator between
      them, nothing for an absent value and `backtest` for a missing domain. */
  lemma {:induction false} KeyText(node: Option<string>, c: C.Context)
    ensures Preimage(KeyParts(node, c)) ==
            (if node.Some? then node.value else "") + "\U{1f}" + (c.worldId + "\U{1f}" +
              ((if C.MissingDomain(Some(c.domain)) then "backtest" else c.domain) + "\U{1f}" +
                ((if c.asOf.Some? then c.asOf.value else "") + "\U{1f}" + (if c.partition.Some? then c.partition.value else ""))))
  {
    hide C.MissingDomain;
    var ps := KeyParts(node, c);
    JoinStep(ps);
    JoinStep(ps[1..]);
    JoinStep(ps[1..][1..]);
    JoinStep(ps[1..][1..][1..]);
    assert Join(SEP, ps[1..][1..][1..][1..]) == ps[4];
  }

  lemma {:induction false} JoinStep(ps: seq<string>)
    requires |ps| >= 2
    ensures Join(SEP, ps) == ps[0] + SEP + Join(SEP, ps[1..])
  {
  }

  // ----- counting separators -----

  function Seps(s: string): nat {
    if s == [] then 0 else (if s[0] == '\U{1f}' then 1 else 0) + Seps(s[1..])
  }

  function SepsAll(parts: seq<string>): nat {
    if parts == [] then 0 else Seps(parts[0]) + SepsAll(parts[1..])
  }

  lemma {:induction false} SepsConcat(a: string, b: string)
    ensures Seps(a + b) == Seps(a) + Seps(b)
  {
    if a == [] {
      assert a + b == b;
    } else {
      SepsConcat(a[1..], b);
      assert (a + b)[1..] == a[1..] + b;
    }
  }

  lemma {:induction false} SepsZero(s: string)
    ensures Seps(s) == 0 <==> !HasSep(s)
  {
    if s != [] {
      SepsZero(s[1..]);
      assert s == [s[0]] + s[1..];
    }
  }

  lemma {:induction false} SepsAllZero(parts: seq<string>)
    ensures SepsAll(parts) == 0 <==> forall i :: 0 <= i < |parts| ==> !HasSep(parts[i])
  {
    if parts != [] {
      SepsZero(parts[0]);
      SepsAllZero(parts[1..]);
      assert forall i :: 0 < i < |parts| ==> parts[i] == parts[1..][i - 1];
      assert forall i :: 0 <= i < |parts[1..]| ==> parts[1..][i] == parts[i + 1];
    }
  }

  lemma {:induction false} SepsOfJoin(parts: seq<string>)
    requires parts != []
    ensures Seps(Join(SEP, parts)) == SepsAll(parts) + |parts| - 1
  {
    if |parts| == 1 {
      assert parts[1..] == [];
    } else {
      SepsOfJoin(parts[1..]);
      SepsConcat(parts[0] + SEP, Join(SEP, parts[1..]));
      SepsConcat(parts[0], SEP);
      assert SEP[1..] == [] && Seps(SEP) == 1 + Seps(SEP[1..]);
    }
  }

  // ----- separation -----

  lemma {:induction false} SepFreeJoinUnique(ps: seq<string>, qs: seq<string>)
    requires |ps| == |qs| && ps != [] && Join(SEP, ps) == Join(SEP, qs)
    requires SepsAll(ps) == 0 && SepsAll(qs) == 0
    ensures ps == qs
  {
    if |ps| > 1 {
      SepsZero(ps[0]);
      SepsZero(qs[0]);
      var s, t := Join(SEP, ps[1..]), Join(SEP, qs[1..]);
      Assoc(ps[0], SEP, s);
      Assoc(qs[0], SEP, t);
      CutUnique(c => c == '\U{1f}', ps[0], SEP + s, qs[0], SEP + t);
      assert (SEP + s)[1..] == s && (SEP + t)[1..] == t;
      SepFreeJoinUnique(ps[1..], qs[1..]);
      assert ps == [ps[0]] + ps[1..] && qs == [qs[0]] + qs[1..];
    }
  }

  /** Moving a separator from one part into the next leaves the text unchanged. */
  lemma {:induction false} ShiftSeparator(pre: seq<string>, a: string, b: string, y: string, post: seq<string>)
    ensures Join(SEP, pre + [a + SEP + b, y] + post) == Join(SEP, pre + [a, b + SEP + y] + post)
  {
    var l, r := pre + [a + SEP + b, y] + post, pre + [a, b + SEP + y] + post;
    if pre == [] {
      assert l == [a + SEP + b, y] + post && r == [a, b + SEP + y] + post;
    } else {
      ShiftSeparator(pre[1..], a, b, y, post);
      assert l[1..] == pre[1..] + [a + SEP + b, y] + post && r[1..] == pre[1..] + [a, b + SEP + y] + post;
    }
  }

  ghost predicate SepFree(parts: seq<string>) {
    forall i :: 0 <= i < |parts| ==> !HasSep(parts[i])
  }

  /** No other list of as many parts has the same text. */
  ghost predicate Identified(parts: seq<string>) {
    forall qs: seq<string> :: |qs| == |parts| && Preimage(qs) == Preimage(parts) ==> qs == parts
  }

  lemma {:induction false} SepFreeIdentified(parts: seq<string>)
    requires parts != [] && SepFree(parts)
    ensures Identified(parts)
  {
    SepsAllZero(parts);
    SepsOfJoin(parts);
    forall qs: seq<string> | |qs| == |parts| && Preimage(qs) == Preimage(parts) ensures qs == parts {
      SepsOfJoin(qs);
      SepFreeJoinUnique(parts, qs);
    }
  }

  lemma {:induction false} FindSep(s: string) returns (a: string, b: string)
    requires HasSep(s)
    ensures s == a + SEP + b
  {
    var k :| 0 <= k < |s| && s[k] == '\U{1f}';
    a, b := s[..k], s[k + 1..];
    assert s == s[..k] + [s[k]] + s[k + 1..];
  }

  lemma {:induction false} SeparatorNotIdentified(parts: seq<string>, i: nat)
    requires |parts| >= 2 && i < |parts| && HasSep(parts[i])
    ensures !Identified(parts)
  {
    var a, b := FindSep(parts[i]);
    if i + 1 < |parts| {
      ShiftForward(parts, i, a, b);
    } else {
      ShiftBack(parts, i, a, b);
    }
  }

  lemma {:induction false} ShiftForward(parts: seq<string>, i: nat, a: string, b: string)
    requires i + 1 < |parts| && parts[i] == a + SEP + b
    ensures !Identified(parts)
  {
    hide Join;
    var pre, y, post := parts[..i], parts[i + 1], parts[i + 2..];
    var qs := pre + [a, b + SEP + y] + post;
    assert parts == pre + [a + SEP + b, y] + post;
    ShiftSeparator(pre, a, b, y, post);
    assert qs[i] == a && |a| < |parts[i]|;
    assert Preimage(qs) == Preimage(parts) && |qs| == |parts|;
  }

  lemma {:induction false} ShiftBack(parts: seq<string>, i: nat, a: string, b: string)
    requires 1 <= i == |parts| - 1 && parts[i] == a + SEP + b
    ensures !Identified(parts)
  {
    hide Join;
    var pre, x := parts[..i - 1], parts[i - 1];
    var qs := pre + [x + SEP + a, b] + [];
    assert parts == pre + [x, a + SEP + b] + [];
    ShiftSeparator(pre, x, a, b, []);
    assert qs[i] == b && |b| < |parts[i]|;
    assert Preimage(qs) == Preimage(parts) && |qs| == |parts|;
  }

  /** The key text identifies its parts exactly when no part contains the separator. */
  lemma {:induction false} KeyTextIdentifies(parts: seq<string>)
    requires |parts| >= 2
    ensures Identified(parts) <==> SepFree(parts)
  {
    if SepFree(parts) {
      SepFreeIdentified(parts);
    } else {
      var i :| 0 <= i < |parts| && HasSep(parts[i]);
      SeparatorNotIdentified(parts, i);
    }
  }

  /** Equal key texts mean the same node, world, domain, as-of and partition, an absent value
      counting as empty, whenever one side is free of separators. No constructed context lacks
      its domain. */
  lemma {:induction false} KeySeparates(n: Option<string>, c: C.Context, m: Option<string>, d: C.Context)
    requires !C.MissingDomain(Some(c.domain)) && !C.MissingDomain(Some(d.domain)) && SepFree(KeyParts(n, c))
    requires Preimage(KeyParts(n, c)) == Preimage(KeyParts(m, d))
    ensures C.OrEmpty(n) == C.OrEmpty(m) && c.worldId == d.worldId && c.domain == d.domain
    ensures C.OrEmpty(c.asOf) == C.OrEmpty(d.asOf) && C.OrEmpty(c.partition) == C.OrEmpty(d.partition)
  {
    hide C.MissingDomain, Join;
    var ps, qs := KeyParts(n, c), KeyParts(m, d);
    SepFreeIdentified(ps);
    assert qs == ps;
    assert ps[0] == qs[0] && ps[1] == qs[1] && ps[2] == qs[2] && ps[3] == qs[3] && ps[4] == qs[4];
  }
}

/** Node identifiers: what the hashed bytes determine, and the collision-avoiding hash. */
module NodeId {
  import opened Wrappers
  import opened Ordering
  import opened Sequences
  import opened Text
  import opened PyValue
  import opened NodeSpec

  // ----- the hashed bytes determine the parts -----

  lemma {:induction false} CutFirst(sep: char, x: string, s: string, y: string, t: string)
    requires sep !in x && sep !in y && x + [sep] + s == y + [sep] + t
    ensures x == y && s == t
  {
    Assoc(x, [sep], s);
    Assoc(y, [sep], t);
    CutUnique(c => c == sep, x, [sep] + s, y, [sep] + t);
    assert ([sep] + s)[1..] == s && ([sep] + t)[1..] == t;
  }

  lemma {:induction false} CutLast(sep: char, x: string, s: string, y: string, t: string)
    requires sep !in s && sep !in t && x + [sep] + s == y + [sep] + t
    ensures x == y && s == t
  {
    if |x| < |y| { SepInside(sep, x, s, y, t); }
    if |y| < |x| { SepInside(sep, y, t, x, s); }
    var w := x + [sep] + s;
    assert x == w[..|x|] && y == w[..|y|] && s == w[|x| + 1..] && t == w[|y| + 1..];
  }

  lemma {:induction false} SepInside(sep: char, x: string, s: string, y: string, t: string)
    requires x + [sep] + s == y + [sep] + t && |x| < |y|
    ensures sep in s
  {
    assert (y + [sep] + t)[|y|] == sep;
    assert s[|y| - |x| - 1] == sep;
  }

  /** Dependencies that can be told apart once joined. */
  ghost predicate Listable(deps: seq<string>) {
    forall d :: d in deps ==> d != "" && ',' !in d
  }

  ghost predicate BarFree(deps: seq<string>) {
    forall d :: d in deps ==> '|' !in d
  }

  lemma {:induction false} ListTail(deps: seq<string>)
    requires deps != []
    ensures Listable(deps) ==> Listable(deps[1..]) && deps[0] != "" && ',' !in deps[0]
    ensures BarFree(deps) ==> BarFree(deps[1..]) && '|' !in deps[0]
    ensures deps == [deps[0]] + deps[1..]
  {
    assert deps[0] in deps;
    assert deps == [deps[0]] + deps[1..];
    assert forall d :: d in deps[1..] ==> d in deps;
  }

  lemma {:induction false} JoinListable(deps: seq<string>)
    requires Listable(deps)
    ensures Join(",", deps) == "" <==> deps == []
    ensures ',' in Join(",", deps) <==> |deps| > 1
  {
    if deps != [] {
      ListTail(deps);
      JoinListable(deps[1..]);
      if |deps| > 1 {
        var w := deps[0] + "," + Join(",", deps[1..]);
        assert w[|deps[0]|] == ',';
      }
    }
  }

  lemma {:induction false} JoinBarFree(deps: seq<string>)
    requires BarFree(deps)
    ensures '|' !in Join(",", deps)
  {
    if deps != [] {
      ListTail(deps);
      JoinBarFree(deps[1..]);
    }
  }

  lemma {:induction false} JoinUnique(a: seq<string>, b: seq<string>)
    requires Listable(a) && Listable(b) && Join(",", a) == Join(",", b)
    ensures a == b
  {
    JoinListable(a);
    JoinListable(b);
    if a != [] {
      ListTail(a);
      ListTail(b);
      if |a| > 1 {
        CutFirst(',', a[0], Join(",", a[1..]), b[0], Join(",", b[1..]));
        JoinUnique(a[1..], b[1..]);
      }
    }
  }

  /** No part other than the parameters contains the field separator. */
  ghost predicate Separable(p: Parts) {
    '|' !in p.nodeType && '|' !in p.compat && '|' !in p.codeHash && Listable(p.deps) && BarFree(p.deps)
  }

  function Front(p: Parts, rest: string): string {
    p.nodeType + "|" + (Decimal(p.interval) + "|" + (Decimal(p.period) + "|" + rest))
  }

  function Back(h: Host, p: Parts): string {
    h.dumps(p.params) + "|" + Join(",", p.deps) + "|" + p.compat + "|" + p.codeHash
  }

  lemma {:induction false} RenderShape(h: Host, p: Parts)
    ensures Render(h, p) == Front(p, Back(h, p))
  {
    var blob, deps := h.dumps(p.params), Join(",", p.deps);
    JoinTail(p.nodeType, [Decimal(p.interval), Decimal(p.period), blob, deps, p.compat, p.codeHash]);
    JoinTail(Decimal(p.interval), [Decimal(p.period), blob, deps, p.compat, p.codeHash]);
    JoinTail(Decimal(p.period), [blob, deps, p.compat, p.codeHash]);
    JoinTail(blob, [deps, p.compat, p.codeHash]);
    JoinTail(deps, [p.compat, p.codeHash]);
    JoinTail(p.compat, [p.codeHash]);
    hide Join, Decimal;
    LastFour(blob, deps, p.compat, p.codeHash);
  }

  lemma {:induction false} JoinTail(x: string, rest: seq<string>)
    requires rest != []
    ensures Join("|", [x] + rest) == x + "|" + Join("|", rest)
  {
    assert ([x] + rest)[1..] == rest;
  }

  lemma {:induction false} LastFour(a: string, b: string, c: string, d: string)
    ensures Join("|", [a, b, c, d]) == a + "|" + b + "|" + c + "|" + d
  {
    JoinTail(a, [b, c, d]);
    JoinTail(b, [c, d]);
    JoinTail(c, [d]);
    assert [a, b, c, d] == [a] + [b, c, d] && [b, c, d] == [b] + [c, d] && [c, d] == [c] + [d];
    var u := b + "|" + (c + "|" + d);
    assert u == b + "|" + c + "|" + d;
    assert a + "|" + u == a + "|" + b + "|" + c + "|" + d;
  }

  lemma {:induction false} FrontUnique(p: Parts, s: string, q: Parts, t: string)
    requires '|' !in p.nodeType && '|' !in q.nodeType && Front(p, s) == Front(q, t)
    ensures p.nodeType == q.nodeType && p.interval == q.interval && p.period == q.period && s == t
  {
    DecimalPlain(p.interval);
    DecimalPlain(q.interval);
    DecimalPlain(p.period);
    DecimalPlain(q.period);
    hide Decimal;
    var u, v := Decimal(p.period) + "|" + s, Decimal(q.period) + "|" + t;
    CutFirst('|', p.nodeType, Decimal(p.interval) + "|" + u, q.nodeType, Decimal(q.interval) + "|" + v);
    CutFirst('|', Decimal(p.interval), u, Decimal(q.interval), v);
    CutFirst('|', Decimal(p.period), s, Decimal(q.period), t);
    DecimalInjective(p.interval, q.interval);
    DecimalInjective(p.period, q.period);
  }

  lemma {:induction false} DecimalPlain(i: int)
    ensures '|' !in Decimal(i)
  {
    DecimalShape(i);
  }

  /** What follows the text of the parameters determines the remaining parts. */
  lemma {:induction false} RestUnique(p: Parts, q: Parts)
    requires '|' !in p.compat && '|' !in p.codeHash && '|' !in q.compat && '|' !in q.codeHash
    requires Listable(p.deps) && Listable(q.deps) && Rest(p) == Rest(q)
    ensures p.deps == q.deps && p.compat == q.compat && p.codeHash == q.codeHash
  {
    hide Join, Listable;
    CutLast('|', Join(",", p.deps) + "|" + p.compat, p.codeHash, Join(",", q.deps) + "|" + q.compat, q.codeHash);
    CutLast('|', Join(",", p.deps), p.compat, Join(",", q.deps), q.compat);
    JoinUnique(p.deps, q.deps);
  }

  function Rest(p: Parts): string {
    Join(",", p.deps) + "|" + p.compat + "|" + p.codeHash
  }

  lemma {:induction false} BackShape(h: Host, p: Parts)
    ensures Back(h, p) == h.dumps(p.params) + "|" + Rest(p)
  {
    hide Join;
    var a, b, c, d := h.dumps(p.params), Join(",", p.deps), p.compat, p.codeHash;
    assert a + "|" + b + "|" + c + "|" + d == a + "|" + (b + "|" + c + "|" + d);
  }

  /** The bytes determine every part of a node, up to the text of its parameters. */
  lemma {:induction false} BytesIdentify(h: Host, p: Parts, q: Parts)
    requires Separable(p) && Separable(q)
    ensures Render(h, p) == Render(h, q) <==> h.dumps(p.params) == h.dumps(q.params) && p == q.(params := p.params)
  {
    hide Join, Decimal, Listable, BarFree;
    if Render(h, p) == Render(h, q) {
      RenderShape(h, p);
      RenderShape(h, q);
      FrontUnique(p, Back(h, p), q, Back(h, q));
      var a, b := h.dumps(p.params), h.dumps(q.params);
      JoinBarFree(p.deps);
      JoinBarFree(q.deps);
      CutLast('|', a + "|" + Join(",", p.deps) + "|" + p.compat, p.codeHash, b + "|" + Join(",", q.deps) + "|" + q.compat, q.codeHash);
      CutLast('|', a + "|" + Join(",", p.deps), p.compat, b + "|" + Join(",", q.deps), q.compat);
      CutLast('|', a, Join(",", p.deps), b, Join(",", q.deps));
      JoinUnique(p.deps, q.deps);
    }
  }

  // ----- exactly which characters parts must avoid -----

  /** Where the text of a value ends can be told from the text, as for JSON. */
  ghost predicate SelfDelimiting(h: Host) {
    forall v, w, s, t :: h.dumps(v) + "|" + s == h.dumps(w) + "|" + t ==> h.dumps(v) == h.dumps(w)
  }

  ghost predicate Without(s: string, avoided: set<char>) {
    forall c :: c in s ==> c !in avoided
  }

  /** Type, compatibility id and code hash avoid `texts`; dependencies, which are never empty,
      avoid `names`. */
  ghost predicate PartsAvoid(p: Parts, texts: set<char>, names: set<char>) {
    && Without(p.nodeType, texts) && Without(p.compat, texts) && Without(p.codeHash, texts)
    && forall d :: d in p.deps ==> d != "" && Without(d, names)
  }

  ghost predicate SameBut(h: Host, p: Parts, q: Parts) {
    h.dumps(p.params) == h.dumps(q.params) && p == q.(params := p.params)
  }

  /** The bytes of such nodes determine all their parts, up to the text of the parameters. */
  ghost predicate Decodable(h: Host, texts: set<char>, names: set<char>) {
    forall p, q :: PartsAvoid(p, texts, names) && PartsAvoid(q, texts, names) && Render(h, p) == Render(h, q) ==> SameBut(h, p, q)
  }

  lemma {:induction false} DecodeAny(h: Host, texts: set<char>, names: set<char>, p: Parts, q: Parts)
    requires SelfDelimiting(h) && '|' in texts && ',' in names
    requires PartsAvoid(p, texts, names) && PartsAvoid(q, texts, names) && Render(h, p) == Render(h, q)
    ensures SameBut(h, p, q)
  {
    assert Listable(p.deps) && Listable(q.deps);
    assert '|' !in p.nodeType && '|' !in p.compat && '|' !in p.codeHash && '|' !in q.nodeType && '|' !in q.compat && '|' !in q.codeHash;
    hide Join, Decimal, Listable, PartsAvoid, Render, Front, Back, Rest;
    RenderShape(h, p);
    RenderShape(h, q);
    FrontUnique(p, Back(h, p), q, Back(h, q));
    BackShape(h, p);
    BackShape(h, q);
    var a, b := h.dumps(p.params), h.dumps(q.params);
    assert (a + "|" + Rest(p))[|a| + 1..] == Rest(p) && (b + "|" + Rest(q))[|b| + 1..] == Rest(q);
    RestUnique(p, q);
  }

  /** A bar can move between the compatibility id and the code hash. */
  lemma {:induction false} BarMoves(h: Host)
    ensures Render(h, Parts("", 0, 0, Null, [], "|", "")) == Render(h, Parts("", 0, 0, Null, [], "", "|"))
  {
    var p, q := Parts("", 0, 0, Null, [], "|", ""), Parts("", 0, 0, Null, [], "", "|");
    RenderShape(h, p);
    RenderShape(h, q);
    hide Decimal, Render;
    var a := h.dumps(Null) + "|" + "" + "|";
    assert a + "|" + "|" + "" == a + "" + "|" + "|";
  }

  /** A comma inside a dependency looks like one between two. */
  lemma {:induction false} CommaMoves(h: Host)
    ensures Render(h, Parts("", 0, 0, Null, [",", ","], "", "")) == Render(h, Parts("", 0, 0, Null, [",,,"], "", ""))
  {
    assert [",", ","][1..] == [","];
    assert Join(",", [",", ","]) == "," + "," + "," == ",,," == Join(",", [",,,"]);
  }

  /** If the text of the parameters is self-delimiting, the bytes determine the parts exactly
      when texts avoid the bar and dependencies the comma; a bar in dependencies does no harm. */
  lemma {:induction false} DecodableIff(h: Host, texts: set<char>, names: set<char>)
    requires SelfDelimiting(h)
    ensures Decodable(h, texts, names) <==> '|' in texts && ',' in names
  {
    hide Render, SelfDelimiting;
    if '|' in texts && ',' in names {
      forall p, q | PartsAvoid(p, texts, names) && PartsAvoid(q, texts, names) && Render(h, p) == Render(h, q) ensures SameBut(h, p, q) {
        DecodeAny(h, texts, names, p, q);
      }
    } else if '|' !in texts {
      BarMoves(h);
      var p, q := Parts("", 0, 0, Null, [], "|", ""), Parts("", 0, 0, Null, [], "", "|");
      assert PartsAvoid(p, texts, names) && PartsAvoid(q, texts, names) && !SameBut(h, p, q);
    } else {
      CommaMoves(h);
      var p, q := Parts("", 0, 0, Null, [",", ","], "", ""), Parts("", 0, 0, Null, [",,,"], "", "");
      assert PartsAvoid(p, texts, names) && PartsAvoid(q, texts, names) && |p.deps| != |q.deps|;
    }
  }

  // ----- identifiers -----

  const PREFIX := "blake3:"

  /** The canonical identifier of a node mapping; `Err` when serialising it raises. */
  function Identify(h: Host, n: Payload): Result<string> {
    var p :- MappingParts(h, n);
    Ok(PREFIX + h.digest(Render(h, p)))
  }

  /** The identifier of attempt `k`: the plain digest first, then digests of the data with
      the attempt's number appended. */
  function Candidate(digest: string -> string, extended: string -> string, data: string, k: nat): string {
    PREFIX + if k == 0 then digest(data) else extended(data + "|collision:" + Decimal(k))
  }

  /** The extended digests of the first `n` retries are distinct. */
  ghost predicate RetriesDistinct(digest: string -> string, extended: string -> string, data: string, n: nat) {
    forall i, j :: 1 <= i < j <= n ==> Candidate(digest, extended, data, i) != Candidate(digest, extended, data, j)
  }

  lemma {:induction false} RetriesBounded(
      digest: string -> string, extended: string -> string, data: string, n: nat, seen: set<string>)
    requires RetriesDistinct(digest, extended, data, n)
    requires forall j :: 1 <= j <= n ==> Candidate(digest, extended, data, j) in seen
    ensures n <= |seen|
  {
    hide Candidate;
    var used := seq(n, i requires 0 <= i < n => Candidate(digest, extended, data, i + 1));
    DistinctBound(used, seen);
  }

  /** `id` is the first candidate outside `seen`, reached with at most one retry more than
      there are identifiers in it. */
  ghost predicate FirstFree(digest: string -> string, extended: string -> string, data: string, seen: set<string>, id: string) {
    exists k: nat :: k <= |seen| + 1 && FreeAt(digest, extended, data, seen, id, k)
  }

  ghost predicate FreeAt(digest: string -> string, extended: string -> string, data: string, seen: set<string>, id: string, k: nat) {
    && id == Candidate(digest, extended, data, k) && id !in seen
    && forall j :: 0 <= j < k ==> Candidate(digest, extended, data, j) in seen
  }

  /** `hash_blake3`: if the retries are distinct the loop ends with the first free candidate. */
  method HashBlake3(digest: string -> string, extended: string -> string, data: string, existing: seq<string>) returns (id: string)
    requires RetriesDistinct(digest, extended, data, |set x | x in existing| + 1)
    ensures FirstFree(digest, extended, data, (set x | x in existing), id)
    ensures "blake3:" + digest(data) !in existing ==> id == "blake3:" + digest(data)
    ensures "blake3:" + digest(data) in existing ==>
              exists k: nat :: 1 <= k && id == "blake3:" + extended(data + "|collision:" + Decimal(k))
  {
    hide Decimal;
    var seen := set x | x in existing;
    id := PREFIX + digest(data);
    assert id == Candidate(digest, extended, data, 0);
    if existing == [] || id !in seen {
      assert FreeAt(digest, extended, data, seen, id, 0);
      return;
    }
    var counter := 1;
    while true
      invariant 1 <= counter <= |seen| + 1
      invariant forall j :: 0 <= j < counter ==> Candidate(digest, extended, data, j) in seen
      decreases |seen| + 1 - counter
    {
      id := PREFIX + extended(data + "|collision:" + Decimal(counter));
      assert id == Candidate(digest, extended, data, counter);
      if id !in seen {
        assert FreeAt(digest, extended, data, seen, id, counter);
        return;
      }
      RetriesBounded(digest, extended, data, counter, seen);
      counter := counter + 1;
    }
  }

  /** The first free candidate is unique. */
  lemma {:induction false} FirstFreeUnique(
      digest: string -> string, extended: string -> string, data: string, seen: set<string>, a: string, b: string)
    requires FirstFree(digest, extended, data, seen, a) && FirstFree(digest, extended, data, seen, b)
    ensures a == b && a !in seen
  {
    var i: nat :| i <= |seen| + 1 && FreeAt(digest, extended, data, seen, a, i);
    var j: nat :| j <= |seen| + 1 && FreeAt(digest, extended, data, seen, b, j);
    hide Candidate;
    assert i < j ==> Candidate(digest, extended, data, i) in seen;
    assert j < i ==> Candidate(digest, extended, data, j) in seen;
  }

  /** Retries hash different data, so only a genuine hash collision can repeat one. */
  lemma {:induction false} RetryDataDistinct(data: string, i: nat, j: nat)
    requires data + "|collision:" + Decimal(i) == data + "|collision:" + Decimal(j)
    ensures i == j
  {
    hide Decimal;
    var n := |data + "|collision:"|;
    assert (data + "|collision:" + Decimal(i))[n..] == Decimal(i);
    assert (data + "|collision:" + Decimal(j))[n..] == Decimal(j);
    DecimalInjective(i, j);
  }

  // ----- the identifier of a node -----

  /** The hashed bytes are the seven fields in this order, separated by bars. */
  lemma {:induction false} RenderFields(h: Host, p: Parts)
    ensures Render(h, p) ==
            p.nodeType + "|" + Decimal(p.interval) + "|" + Decimal(p.period) + "|" + h.dumps(p.params) + "|" +
            Join(",", p.deps) + "|" + p.compat + "|" + p.codeHash
  {
    RenderShape(h, p);
    hide Decimal, Join, Render;
    var t, i, k, back := p.nodeType, Decimal(p.interval), Decimal(p.period), Back(h, p);
    var a, b, c, d := h.dumps(p.params), Join(",", p.deps), p.compat, p.codeHash;
    Assoc(t + "|", i + "|", k + "|" + back);
    assert t + "|" + (i + "|" + (k + "|" + back)) == t + "|" + i + "|" + k + "|" + back;
    assert t + "|" + i + "|" + k + "|" + (a + "|" + b + "|" + c + "|" + d) ==
           t + "|" + i + "|" + k + "|" + a + "|" + b + "|" + c + "|" + d;
  }

  /** Without identifiers to avoid, the identifier is the first candidate for these bytes. */
  lemma {:induction false} IdentifyHashes(h: Host, extended: string -> string, n: Payload, p: Parts)
    requires MappingParts(h, n) == Ok(p)
    ensures Identify(h, n).Ok? && FirstFree(h.digest, extended, Render(h, p), {}, Identify(h, n).value)
  {
    hide MappingParts, Render;
    assert FreeAt(h.digest, extended, Render(h, p), {}, Identify(h, n).value, 0);
  }

  /** `compute_node_id`: the serialised node is hashed, avoiding the existing identifiers. */
  method ComputeNodeId(h: Host, extended: string -> string, n: Payload, existing: seq<string>) returns (r: Result<string>)
    requires MappingParts(h, n).Ok? ==>
               RetriesDistinct(h.digest, extended, Render(h, MappingParts(h, n).value), |set x | x in existing| + 1)
    ensures r.Ok? <==> MappingParts(h, n).Ok?
    ensures r.Ok? ==> FirstFree(h.digest, extended, Render(h, MappingParts(h, n).value), (set x | x in existing), r.value)
    ensures existing == [] ==> r == Identify(h, n)
  {
    hide MappingParts, Render, Candidate, RetriesDistinct;
    var parts := MappingParts(h, n);
    if parts.Err? { return Err; }
    var id := HashBlake3(h.digest, extended, Render(h, parts.value), existing);
    if existing == [] {
      IdentifyHashes(h, extended, n, parts.value);
      assert (set x | x in existing) == {};
      FirstFreeUnique(h.digest, extended, Render(h, parts.value), {}, id, Identify(h, n).value);
    }
    return Ok(id);
  }

  /** Two nodes have one identifier exactly when they serialise alike: every field counts. */
  lemma {:induction false} IdentifyIff(h: Host, n: Payload, m: Payload, p: Parts, q: Parts)
    requires MappingParts(h, n) == Ok(p) && MappingParts(h, m) == Ok(q) && Separable(p) && Separable(q)
    requires h.digest(Render(h, p)) == h.digest(Render(h, q)) ==> Render(h, p) == Render(h, q)
    ensures Identify(h, n) == Identify(h, m) <==> SameBut(h, p, q)
  {
    hide MappingParts, Render, Separable;
    BytesIdentify(h, p, q);
    var a, b := h.digest(Render(h, p)), h.digest(Render(h, q));
    assert (PREFIX + a)[|PREFIX|..] == a && (PREFIX + b)[|PREFIX|..] == b;
  }
}

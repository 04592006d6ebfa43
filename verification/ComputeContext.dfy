/** The compute context: normalisation of its fields, the default-safe downgrade,
    and the factories and overrides through which contexts are made. */
module ComputeContext {
  import opened Wrappers
  import opened Text

  const DEFAULT_DOMAIN := "default"
  const COMPUTE_ONLY := "backtest"

  datatype Reason = MissingAsOf | DecisionUnavailable | StaleDecision

  /** A loosely typed argument: absent, something with a text form (a string or a
      number), or anything else. */
  datatype Arg = Absent | Textual(text: string) | Other

  function NormalizeValue(a: Arg): Option<string> {
    match a
    case Textual(t) => if Strip(t) == "" then None else Some(Strip(t))
    case _ => None
  }

  function OrEmpty(o: Option<string>): string {
    if o.Some? then o.value else ""
  }

  // ----- execution domains -----

  predicate IsSeparator(c: char) {
    c == '/' || c == ':'
  }

  /** `re.split(r"[/:]", s)` */
  function Segments(s: string): (r: seq<string>)
    ensures r != []
  {
    if s == [] then [[]]
    else
      var rest := Segments(s[1..]);
      if IsSeparator(s[0]) then [[]] + rest else [[s[0]] + rest[0]] + rest[1..]
  }

  /** `re.sub(r"[\s_-]+", "", s)` */
  function Squeeze(s: string): string {
    if s == [] then []
    else (if IsSpace(s[0]) || s[0] == '_' || s[0] == '-' then [] else [s[0]]) + Squeeze(s[1..])
  }

  /** The canonical domain an alias stands for. */
  function Alias(token: string): Option<string> {
    if token in {"backtest", "backtesting", "compute", "computeonly", "offline", "sandbox", "validate", "validation"}
    then Some("backtest")
    else if token in {"dryrun", "dryrunmode", "papermode", "paper", "papertrade", "papertrading", "papertrader",
                      "sim", "simulation", "simulated"}
    then Some("dryrun")
    else if token in {"live", "prod", "production"} then Some("live")
    else if token in {"shadow"} then Some("shadow")
    else None
  }

  /** The first segment that is an alias decides. */
  function FirstAlias(segments: seq<string>): Option<string> {
    if segments == [] then None
    else if Alias(Squeeze(segments[0])).Some? then Alias(Squeeze(segments[0]))
    else FirstAlias(segments[1..])
  }

  function Resolve(value: Option<string>): Option<string> {
    match value
    case None => None
    case Some(v) =>
      match FirstAlias(Segments(Lower(v)))
      case Some(d) => Some(d)
      case None => Some(Lower(v))
  }

  method ResolveExecutionDomain(value: Option<string>) returns (r: Option<string>)
    ensures r == Resolve(value)
  {
    if value.None? { return None; }
    var lowered := Lower(value.value);
    var segments := Segments(lowered);
    for k := 0 to |segments|
      invariant FirstAlias(segments) == FirstAlias(segments[k..])
    {
      var token := Squeeze(segments[k]);
      assert segments[k..][1..] == segments[k + 1..];
      if Alias(token).Some? { return Alias(token); }
    }
    return Some(lowered);
  }

  predicate MissingDomain(domain: Option<string>) {
    domain.None? || Strip(domain.value) == "" || Lower(Strip(domain.value)) == DEFAULT_DOMAIN
  }

  /** Absent or empty. */
  predicate Blank(as_of: Option<string>) {
    as_of.None? || as_of.value == ""
  }

  datatype Verdict = Verdict(domain: string, downgraded: bool, reason: Option<Reason>, safeMode: bool)

  function EvaluateSafeMode(domain: Option<string>, asOf: Option<string>): Verdict {
    if MissingDomain(domain) then Verdict(COMPUTE_ONLY, true, Some(DecisionUnavailable), true)
    else
      var d := Lower(Strip(domain.value));
      if (d == "backtest" || d == "dryrun") && Blank(asOf) then Verdict(COMPUTE_ONLY, true, Some(MissingAsOf), true)
      else Verdict(d, false, None, false)
  }

  // ----- contexts -----

  datatype Context = Context(
    worldId: string, domain: string, asOf: Option<string>, partition: Option<string>, fingerprint: Option<string>,
    downgraded: bool, reason: Option<Reason>, safeMode: bool)

  /** Construction: `__post_init__` re-evaluates the domain and can only add flags. */
  function Construct(c: Context): Context {
    var v := EvaluateSafeMode(Some(c.domain), c.asOf);
    c.(domain := v.domain, downgraded := c.downgraded || v.downgraded,
       reason := if c.reason.None? then v.reason else c.reason, safeMode := c.safeMode || v.safeMode)
  }

  function Initial(world: Arg, domain: Arg, asOf: Arg, partition: Arg, fingerprint: Arg): Context {
    var as_of := NormalizeValue(asOf);
    var v := EvaluateSafeMode(Resolve(NormalizeValue(domain)), as_of);
    Construct(Context(OrEmpty(NormalizeValue(world)), v.domain, as_of, NormalizeValue(partition), NormalizeValue(fingerprint),
                      v.downgraded, v.reason, v.safeMode))
  }

  function WithWorld(c: Context, world: Arg): Context {
    Construct(c.(worldId := OrEmpty(NormalizeValue(world))))
  }

  function Override(current: Option<string>, a: Arg): Option<string> {
    if a.Absent? then current else NormalizeValue(a)
  }

  function WithOverrides(c: Context, domain: Arg, asOf: Arg, partition: Arg, fingerprint: Arg): Context {
    var d := if domain.Absent? then c.domain else OrEmpty(Resolve(NormalizeValue(domain)));
    var as_of := Override(c.asOf, asOf);
    var v := EvaluateSafeMode(if d == "" then None else Some(d), as_of);
    Construct(c.(domain := v.domain, asOf := as_of, partition := Override(c.partition, partition),
                 fingerprint := Override(c.fingerprint, fingerprint),
                 downgraded := v.downgraded, reason := v.reason, safeMode := v.safeMode))
  }

  // ----- world modes -----

  function WorldModeDomain(mode: Arg): string {
    if !mode.Textual? then "backtest"
    else
      var token := Lower(Strip(mode.text));
      if token in {"paper", "sim", "simulation", "simulated", "papertrade", "papertrading", "paper_trading"} then "dryrun"
      else if token in {"live", "active"} then "live"
      else if token in {"shadow"} then "shadow"
      else "backtest"
  }

  // ----- how contexts come about -----

  /** One way of making or changing a context. */
  datatype Move =
    | FromStrategy(domain: Arg, asOf: Arg, partition: Arg, fingerprint: Arg)
    | FromWorldService(world: Arg, mode: Arg, asOf: Arg, partition: Arg, fingerprint: Arg)
    | Coerce(world: Arg, domain: Arg, asOf: Arg, partition: Arg, fingerprint: Arg)
    | SetWorld(world: Arg)
    | SetOverrides(domain: Arg, asOf: Arg, partition: Arg, fingerprint: Arg)

  function Apply(c: Context, m: Move): Context {
    match m
    case FromStrategy(d, a, p, f) => Initial(Absent, d, a, p, f)
    case FromWorldService(w, mode, a, p, f) => Initial(w, Textual(WorldModeDomain(mode)), a, p, f)
    case Coerce(w, d, a, p, f) => Initial(w, d, a, p, f)
    case SetWorld(w) => WithWorld(c, w)
    case SetOverrides(d, a, p, f) => WithOverrides(c, d, a, p, f)
  }

  function Chain(start: Move, moves: seq<Move>): Context
    requires start.FromStrategy? || start.FromWorldService? || start.Coerce?
  {
    if moves == [] then Apply(Context("", "", None, None, None, false, None, false), start)
    else Apply(Chain(start, moves[..|moves| - 1]), moves[|moves| - 1])
  }

  /** What every context promises: a domain is there; a backtest or dry run without
      an as-of is a downgraded backtest; the flags agree and force backtest. */
  ghost predicate Safe(c: Context) {
    && !MissingDomain(Some(c.domain))
    && (c.domain == "dryrun" ==> !Blank(c.asOf))
    && (c.domain == "backtest" && Blank(c.asOf) ==> c.downgraded)
    && (c.downgraded <==> c.safeMode) && (c.downgraded <==> c.reason.Some?)
    && (c.downgraded ==> c.domain == "backtest")
    && Lower(Strip(c.domain)) == c.domain
  }

  /** Canonicalising a domain twice changes nothing more. */
  lemma {:induction false} CanonicalTwice(s: string)
    ensures var d := Lower(Strip(s)); Strip(d) == d && Lower(Strip(d)) == d
  {
    StripStripped(s);
    LowerFixed(Strip(s));
    StripFixed(Lower(Strip(s)));
  }

  lemma {:induction false} VerdictStable(domain: Option<string>, asOf: Option<string>)
    ensures var v := EvaluateSafeMode(domain, asOf);
            && !MissingDomain(Some(v.domain)) && Lower(Strip(v.domain)) == v.domain
            && (v.domain == "dryrun" ==> !Blank(asOf))
            && (v.downgraded ==> v.domain == "backtest")
            && (v.domain == "backtest" && Blank(asOf) ==> v.downgraded)
            && (v.downgraded <==> v.safeMode) && (v.downgraded <==> v.reason.Some?)
  {
    if domain.Some? { CanonicalTwice(domain.value); }
  }

  /** Construction keeps a safe context as it is. */
  lemma {:induction false} ConstructSafe(c: Context)
    requires Safe(c)
    ensures Construct(c) == c
  {
    hide Lower, Strip;
  }

  /** The constructor alone decides to downgrade. */
  predicate MustDowngrade(c: Context) {
    || MissingDomain(Some(c.domain))
    || (Lower(Strip(c.domain)) in ["backtest", "dryrun"] && Blank(c.asOf))
  }

  /** Whatever is passed to the constructor, the domain is present and a dry run has an
      as-of. The result keeps all promises exactly when the constructor downgrades by itself
      or the caller's flags agree with each other and ask for no downgrade outside backtest. */
  lemma {:induction false} ConstructorPromises(c: Context)
    ensures var r := Construct(c);
            && !MissingDomain(Some(r.domain)) && (r.domain == "dryrun" ==> !Blank(r.asOf))
            && (r.domain == "backtest" && Blank(r.asOf) ==> r.downgraded && r.safeMode && r.reason.Some?)
    ensures Safe(Construct(c)) <==>
            || MustDowngrade(c)
            || (&& (c.downgraded <==> c.safeMode) && (c.downgraded <==> c.reason.Some?)
                && (c.downgraded ==> Lower(Strip(c.domain)) == "backtest"))
  {
    hide Lower, Strip, MissingDomain;
    VerdictStable(Some(c.domain), c.asOf);
  }

  lemma {:induction false} MoveSafe(c: Context, m: Move)
    requires m.SetWorld? ==> Safe(c)
    ensures Safe(Apply(c, m))
  {
    hide Lower, Strip, Alias, WorldModeDomain, EvaluateSafeMode, Construct, Resolve;
    match m {
      case SetWorld(w) =>
        ConstructSafe(c.(worldId := OrEmpty(NormalizeValue(w))));
      case SetOverrides(d, a, p, f) =>
        var dom := if d.Absent? then c.domain else OrEmpty(Resolve(NormalizeValue(d)));
        var as_of := Override(c.asOf, a);
        VerdictStable(if dom == "" then None else Some(dom), as_of);
        ConstructSafe(Decided(c, if dom == "" then None else Some(dom), as_of, Override(c.partition, p), Override(c.fingerprint, f)));
      case FromStrategy(d, a, p, f) => InitialSafe(Absent, d, a, p, f);
      case FromWorldService(w, mode, a, p, f) => InitialSafe(w, Textual(WorldModeDomain(mode)), a, p, f);
      case Coerce(w, d, a, p, f) => InitialSafe(w, d, a, p, f);
    }
  }

  function Decided(c: Context, domain: Option<string>, asOf: Option<string>, partition: Option<string>, fingerprint: Option<string>): Context {
    var v := EvaluateSafeMode(domain, asOf);
    c.(domain := v.domain, asOf := asOf, partition := partition, fingerprint := fingerprint,
       downgraded := v.downgraded, reason := v.reason, safeMode := v.safeMode)
  }

  lemma {:induction false} InitialSafe(world: Arg, domain: Arg, asOf: Arg, partition: Arg, fingerprint: Arg)
    ensures Safe(Initial(world, domain, asOf, partition, fingerprint))
  {
    hide Lower, Strip, Alias, EvaluateSafeMode, Construct, Resolve;
    var as_of := NormalizeValue(asOf);
    VerdictStable(Resolve(NormalizeValue(domain)), as_of);
    var v := EvaluateSafeMode(Resolve(NormalizeValue(domain)), as_of);
    ConstructSafe(Context(OrEmpty(NormalizeValue(world)), v.domain, as_of, NormalizeValue(partition),
                          NormalizeValue(fingerprint), v.downgraded, v.reason, v.safeMode));
  }

  /** Every context reached by any chain of factories and overrides is safe. */
  lemma {:induction false} EveryContextIsSafe(start: Move, moves: seq<Move>)
    requires start.FromStrategy? || start.FromWorldService? || start.Coerce?
    ensures Safe(Chain(start, moves))
  {
    hide Apply, Safe;
    if moves == [] {
      MoveSafe(Context("", "", None, None, None, false, None, false), start);
    } else {
      EveryContextIsSafe(start, moves[..|moves| - 1]);
      MoveSafe(Chain(start, moves[..|moves| - 1]), moves[|moves| - 1]);
    }
  }

  // ----- resolving aliases -----

  /** The reason tells what was missing: only a context without an as-of blames the as-of. */
  ghost predicate Explained(c: Context) {
    c.reason != Some(StaleDecision) && (c.reason == Some(MissingAsOf) ==> Blank(c.asOf))
  }

  lemma {:induction false} ConstructExplained(c: Context)
    requires Explained(c)
    ensures Explained(Construct(c))
  {
    hide MissingDomain, Lower, Strip;
  }

  lemma {:induction false} VerdictExplained(domain: Option<string>, asOf: Option<string>)
    ensures var v := EvaluateSafeMode(domain, asOf);
            && v.reason != Some(StaleDecision) && (v.reason == Some(MissingAsOf) ==> Blank(asOf))
            && (v.reason == Some(DecisionUnavailable) <==> MissingDomain(domain))
  {
    hide MissingDomain, Lower, Strip;
  }

  lemma {:induction false} MoveExplained(c: Context, m: Move)
    requires Explained(c)
    ensures Explained(Apply(c, m))
  {
    hide Lower, Strip, Alias, WorldModeDomain, EvaluateSafeMode, Construct, Resolve;
    match m {
      case SetWorld(w) =>
        ConstructExplained(c.(worldId := OrEmpty(NormalizeValue(w))));
      case SetOverrides(d, a, p, f) =>
        var dom := if d.Absent? then c.domain else OrEmpty(Resolve(NormalizeValue(d)));
        var as_of := Override(c.asOf, a);
        VerdictExplained(if dom == "" then None else Some(dom), as_of);
        ConstructExplained(Decided(c, if dom == "" then None else Some(dom), as_of, Override(c.partition, p), Override(c.fingerprint, f)));
      case FromStrategy(d, a, p, f) => InitialExplained(Absent, d, a, p, f);
      case FromWorldService(w, mode, a, p, f) => InitialExplained(w, Textual(WorldModeDomain(mode)), a, p, f);
      case Coerce(w, d, a, p, f) => InitialExplained(w, d, a, p, f);
    }
  }

  lemma {:induction false} InitialExplained(world: Arg, domain: Arg, asOf: Arg, partition: Arg, fingerprint: Arg)
    ensures Explained(Initial(world, domain, asOf, partition, fingerprint))
  {
    hide Lower, Strip, Alias, EvaluateSafeMode, Construct, Resolve;
    var as_of := NormalizeValue(asOf);
    VerdictExplained(Resolve(NormalizeValue(domain)), as_of);
    var v := EvaluateSafeMode(Resolve(NormalizeValue(domain)), as_of);
    ConstructExplained(Context(OrEmpty(NormalizeValue(world)), v.domain, as_of, NormalizeValue(partition),
                               NormalizeValue(fingerprint), v.downgraded, v.reason, v.safeMode));
  }

  /** Along every chain the reason tells what was missing ... */
  lemma {:induction false} EveryReasonExplained(start: Move, moves: seq<Move>)
    requires start.FromStrategy? || start.FromWorldService? || start.Coerce?
    ensures Explained(Chain(start, moves))
  {
    hide Apply;
    if moves == [] {
      MoveExplained(Context("", "", None, None, None, false, None, false), start);
    } else {
      EveryReasonExplained(start, moves[..|moves| - 1]);
      MoveExplained(Chain(start, moves[..|moves| - 1]), moves[|moves| - 1]);
    }
  }

  /** ... so a downgrade that has an as-of is blamed on the missing decision. */
  lemma {:induction false} DowngradeWithAsOf(start: Move, moves: seq<Move>)
    requires start.FromStrategy? || start.FromWorldService? || start.Coerce?
    requires Chain(start, moves).downgraded && !Blank(Chain(start, moves).asOf)
    ensures Chain(start, moves).reason == Some(DecisionUnavailable)
  {
    hide Chain, MissingDomain, Lower, Strip;
    EveryContextIsSafe(start, moves);
    EveryReasonExplained(start, moves);
    var reason := Chain(start, moves).reason;
    assert reason.Some? && (reason.value.MissingAsOf? || reason.value.StaleDecision? || reason.value.DecisionUnavailable?);
  }

  lemma {:induction false} OneSegment(s: string)
    requires forall c :: c in s ==> !IsSeparator(c)
    ensures Segments(s) == [s]
  {
    if s != [] {
      OneSegment(s[1..]);
      assert s[0] in s && s == [s[0]] + s[1..];
    }
  }

  lemma {:induction false} SqueezeFixed(s: string)
    requires forall c :: c in s ==> !IsSpace(c) && c != '_' && c != '-'
    ensures Squeeze(s) == s
  {
    if s != [] {
      SqueezeFixed(s[1..]);
      assert s[0] in s && s == [s[0]] + s[1..];
    }
  }

  predicate Canonical(d: string) {
    d in {"backtest", "dryrun", "live", "shadow"}
  }

  predicate Lowercase(s: string) {
    forall c :: c in s ==> 'a' <= c <= 'z'
  }

  lemma {:induction false} CanonicalShape(d: string)
    requires Canonical(d)
    ensures Lowercase(d) && d != "" && d != DEFAULT_DOMAIN
  {
  }

  lemma {:induction false} CanonicalAlias(d: string)
    requires Canonical(d)
    ensures Alias(d) == Some(d)
  {
  }

  lemma {:induction false} LowercaseFixed(d: string)
    requires Lowercase(d)
    ensures Lower(d) == d && Strip(d) == d && Segments(d) == [d] && Squeeze(d) == d
  {
    forall i | 0 <= i < |d| ensures LowerChar(d[i]) == d[i] {
      assert d[i] in d;
    }
    OneSegment(d);
    SqueezeFixed(d);
    assert d != [] ==> d[0] in d && d[|d| - 1] in d;
    StripFixed(d);
  }

  lemma {:induction false} CanonicalResolves(d: string)
    requires Canonical(d)
    ensures Resolve(Some(d)) == Some(d) && Lower(d) == d && Strip(d) == d
  {
    hide Canonical, Alias, Lowercase, Lower, Strip, Segments, Squeeze;
    CanonicalShape(d);
    CanonicalAlias(d);
    LowercaseFixed(d);
    assert [d][0] == d;
  }

  lemma {:induction false} FirstAliasCanonical(segments: seq<string>)
    ensures FirstAlias(segments).Some? ==> Canonical(FirstAlias(segments).value)
  {
    if segments != [] { FirstAliasCanonical(segments[1..]); }
  }

  /** Resolving a domain twice is resolving it once. */
  lemma {:induction false} ResolveIdempotent(value: Option<string>)
    ensures Resolve(Resolve(value)) == Resolve(value)
  {
    hide Lower, Segments, Squeeze, Alias, FirstAlias;
    if value.Some? {
      var segments := Segments(Lower(value.value));
      FirstAliasCanonical(segments);
      LowerFixed(value.value);
      if FirstAlias(segments).Some? {
        CanonicalResolves(FirstAlias(segments).value);
      }
    }
  }

  predicate NeedsAsOf(d: string) {
    d == "backtest" || d == "dryrun"
  }

  /** A world-service decision puts the context in the domain of its mode, except that
      backtest and dry run without an as-of fall back to a downgraded backtest. */
  lemma {:induction false} WorldServiceDomain(w: Arg, mode: Arg, asOf: Arg, p: Arg, f: Arg)
    ensures var d := WorldModeDomain(mode);
            var c := Initial(w, Textual(d), asOf, p, f);
            if NeedsAsOf(d) && Blank(NormalizeValue(asOf)) then c.domain == "backtest" && c.downgraded
            else c.domain == d && !c.downgraded
  {
    hide WorldModeDomain, Lower, Strip, Resolve, Canonical, EvaluateSafeMode, Construct;
    ModeDomainCanonical(mode);
    var d := WorldModeDomain(mode);
    CanonicalResolves(d);
    CanonicalShape(d);
    hide NeedsAsOf, Initial, Blank;
    CanonicalVerdict(d, NormalizeValue(asOf));
    InitialVerdict(w, Textual(d), asOf, p, f);
  }

  /** A factory's context carries the verdict on its resolved domain and as-of. */
  lemma {:induction false} InitialVerdict(w: Arg, domain: Arg, asOf: Arg, p: Arg, f: Arg)
    ensures var v := EvaluateSafeMode(Resolve(NormalizeValue(domain)), NormalizeValue(asOf));
            var c := Initial(w, domain, asOf, p, f);
            c.domain == v.domain && c.downgraded == v.downgraded && c.reason == v.reason && c.safeMode == v.safeMode
  {
    hide Lower, Strip, Alias, EvaluateSafeMode, Construct, Resolve;
    var as_of := NormalizeValue(asOf);
    VerdictStable(Resolve(NormalizeValue(domain)), as_of);
    var v := EvaluateSafeMode(Resolve(NormalizeValue(domain)), as_of);
    ConstructSafe(Context(OrEmpty(NormalizeValue(w)), v.domain, as_of, NormalizeValue(p),
                          NormalizeValue(f), v.downgraded, v.reason, v.safeMode));
  }

  lemma {:induction false} CanonicalVerdict(d: string, asOf: Option<string>)
    requires Lower(d) == d && Strip(d) == d && d != "" && d != DEFAULT_DOMAIN
    ensures var v := EvaluateSafeMode(Some(d), asOf);
            if NeedsAsOf(d) && Blank(asOf) then v.domain == "backtest" && v.downgraded
            else v.domain == d && !v.downgraded
  {
    hide Lower, Strip;
  }

  lemma {:induction false} ModeDomainCanonical(mode: Arg)
    ensures Canonical(WorldModeDomain(mode))
  {
  }

  /** An override without arguments re-evaluates the flags: it clears the downgrade
      of a safe context exactly when an as-of is present. */
  lemma {:induction false} EmptyOverride(c: Context)
    requires Safe(c)
    ensures var r := WithOverrides(c, Absent, Absent, Absent, Absent);
            && r == c.(downgraded := r.downgraded, reason := r.reason, safeMode := r.safeMode)
            && (r.downgraded <==> c.downgraded && Blank(c.asOf))
  {
    hide Lower, Strip, Alias;
    CanonicalResolves("backtest");
  }

  /** Such a context comes from any factory that is given an as-of and no domain. */
  lemma {:induction false} DowngradeCleared(world: Arg, asOf: Arg, partition: Arg, fingerprint: Arg)
    requires NormalizeValue(asOf).Some?
    ensures var c := Initial(world, Absent, asOf, partition, fingerprint);
            c.downgraded && !WithOverrides(c, Absent, Absent, Absent, Absent).downgraded
  {
    var c := Initial(world, Absent, asOf, partition, fingerprint);
    InitialSafe(world, Absent, asOf, partition, fingerprint);
    InitialVerdict(world, Absent, asOf, partition, fingerprint);
    EmptyOverride(c);
    hide Lower, Strip, WithOverrides, Construct;
    assert NormalizeValue(asOf).value != "" && c.asOf == NormalizeValue(asOf);
  }
}

/** What making, moving and overriding a compute context does to each of its fields, and which
    spellings name which execution domain. */
module ContextEffects {
  import opened Wrappers
  import opened Sequences
  import opened Text
  import opened ComputeContext

  // ----- spellings of domains -----

  /** The spellings of the four domains. */
  lemma {:induction false} AliasIff(token: string)
    ensures Alias(token) == Some("backtest") <==>
            token in ["backtest", "backtesting", "compute", "computeonly", "offline", "sandbox", "validate", "validation"]
    ensures Alias(token) == Some("dryrun") <==>
            || token in ["dryrun", "dryrunmode", "papermode", "paper", "papertrade", "papertrading", "papertrader"]
            || token in ["sim", "simulation", "simulated"]
    ensures Alias(token) == Some("live") <==> token in ["live", "prod", "production"]
    ensures Alias(token) == Some("shadow") <==> token == "shadow"
  {
    assert |"backtest"| == 8 && |"dryrun"| == 6 && |"live"| == 4 && |"shadow"| == 6;
    assert "dryrun"[0] == 'd' && "shadow"[0] == 's';
  }

  predicate Gap(c: char) {
    IsSpace(c) || c == '_' || c == '-'
  }

  /** Blanks, underscores and hyphens do not count, wherever they stand. */
  lemma {:induction false} SqueezeDropsGaps(s: string)
    ensures Squeeze(s) == Filter(c => !Gap(c), s)
  {
    if s != [] { SqueezeDropsGaps(s[1..]); }
  }

  /** The parts put together again with separators between them. */
  function Weave(parts: seq<string>, seps: string): string
    requires |parts| == |seps| + 1
  {
    if seps == [] then parts[0] else parts[0] + [seps[0]] + Weave(parts[1..], seps[1..])
  }

  /** Segments are what stands between slashes and colons. */
  lemma {:induction false} SegmentsBetween(s: string) returns (seps: string)
    ensures |Segments(s)| == |seps| + 1 && s == Weave(Segments(s), seps) && forall c :: c in seps ==> c == '/' || c == ':'
    ensures forall i :: 0 <= i < |Segments(s)| ==> '/' !in Segments(s)[i] && ':' !in Segments(s)[i]
  {
    if s == [] {
      seps := "";
    } else {
      var rest := SegmentsBetween(s[1..]);
      var parts, tail := Segments(s), Segments(s[1..]);
      assert s == [s[0]] + s[1..];
      if IsSeparator(s[0]) {
        seps := [s[0]] + rest;
        assert parts[1..] == tail && seps[1..] == rest;
      } else {
        seps := rest;
        assert parts[1..] == tail[1..];
        if rest != [] {
          assert [s[0]] + tail[0] + [rest[0]] + Weave(tail[1..], rest[1..]) == [s[0]] + (tail[0] + [rest[0]] + Weave(tail[1..], rest[1..]));
        }
      }
    }
  }

  /** The first segment that spells a domain, whatever its case and gaps, decides; a text
      without one stands for itself in lower case. */
  lemma {:induction false} FirstSpelling(parts: seq<string>, i: nat)
    requires i < |parts| && Alias(Squeeze(parts[i])).Some? && forall j :: 0 <= j < i ==> Alias(Squeeze(parts[j])).None?
    ensures FirstAlias(parts) == Alias(Squeeze(parts[i]))
  {
    hide Alias, Squeeze;
    if i > 0 {
      assert forall j :: 0 <= j < i - 1 ==> parts[1..][j] == parts[j + 1];
      FirstSpelling(parts[1..], i - 1);
    }
  }

  predicate NoneSpells(parts: seq<string>) {
    forall j :: 0 <= j < |parts| ==> Alias(Squeeze(parts[j])).None?
  }

  lemma {:induction false} NoSpelling(value: string)
    requires NoneSpells(Segments(Lower(value)))
    ensures Resolve(Some(value)) == Some(Lower(value))
  {
    hide Alias, Squeeze, Lower, Segments, NoneSpells;
    NoFirst(Segments(Lower(value)));
  }

  lemma {:induction false} NoFirst(parts: seq<string>)
    requires NoneSpells(parts)
    ensures FirstAlias(parts).None?
  {
    hide Alias, Squeeze;
    if parts != [] {
      assert forall j :: 0 <= j < |parts| - 1 ==> parts[1..][j] == parts[j + 1];
      NoFirst(parts[1..]);
    }
  }

  /** A text without separators whose letters spell a domain names it. */
  lemma {:induction false} SpellingResolves(value: string, d: string)
    requires (forall c :: c in Lower(value) ==> !IsSeparator(c)) && Alias(Squeeze(Lower(value))) == Some(d)
    ensures Resolve(Some(value)) == Some(d)
  {
    hide Alias, Squeeze, Lower, Segments;
    OneSegment(Lower(value));
    FirstSpelling([Lower(value)], 0);
  }

  /** The modes of a world-service decision. */
  lemma {:induction false} ModeDomainIff(mode: Arg)
    ensures var text := if mode.Textual? then Lower(Strip(mode.text)) else "";
            && (WorldModeDomain(mode) == "live" <==> text in ["live", "active"])
            && (WorldModeDomain(mode) == "shadow" <==> text == "shadow")
            && (WorldModeDomain(mode) == "dryrun" <==>
                  text in ["paper", "sim", "simulation", "simulated", "papertrade", "papertrading", "paper_trading"])
            && WorldModeDomain(mode) in ["backtest", "dryrun", "live", "shadow"]
  {
    hide Lower, Strip;
    assert |"backtest"| == 8 && |"dryrun"| == 6 && |"live"| == 4 && |"shadow"| == 6 && |"paper"| == 5 && |"active"| == 6;
    assert "dryrun"[0] == 'd' && "shadow"[0] == 's' && "active"[0] == 'a' && |"sim"| == 3 && |"simulation"| == 10 && |"simulated"| == 9;
    assert |"papertrade"| == 10 && |"papertrading"| == 12 && |"paper_trading"| == 13;
  }

  // ----- the plain fields -----

  /** An argument's effect on a field: absent keeps the old value, text counts once stripped
      and unless blank, anything else clears it. */
  predicate FieldFrom(now: Option<string>, before: Option<string>, a: Arg) {
    match a
    case Absent => now == before
    case Textual(t) => now == if Strip(t) == "" then None else Some(Strip(t))
    case Other => now == None
  }

  predicate WorldFrom(now: string, before: string, a: Arg) {
    match a
    case Absent => now == before
    case Textual(t) => now == Strip(t)
    case Other => now == ""
  }

  /** Construction keeps everything but the domain and the flags. */
  lemma {:induction false} ConstructFields(c: Context)
    ensures var r := Construct(c);
            r.worldId == c.worldId && r.asOf == c.asOf && r.partition == c.partition && r.fingerprint == c.fingerprint
  {
    hide EvaluateSafeMode;
  }

  lemma {:induction false} InitialFields(world: Arg, domain: Arg, asOf: Arg, partition: Arg, fingerprint: Arg)
    ensures var r := Initial(world, domain, asOf, partition, fingerprint);
            && WorldFrom(r.worldId, "", world) && FieldFrom(r.asOf, None, asOf)
            && FieldFrom(r.partition, None, partition) && FieldFrom(r.fingerprint, None, fingerprint)
  {
    hide EvaluateSafeMode, Resolve, Strip;
  }

  /** What every way of making or changing a context does to the plain fields. */
  lemma {:induction false} MoveFields(c: Context, m: Move)
    ensures var r := Apply(c, m);
            match m
            case FromStrategy(_, a, p, f) =>
              r.worldId == "" && FieldFrom(r.asOf, None, a) && FieldFrom(r.partition, None, p) && FieldFrom(r.fingerprint, None, f)
            case FromWorldService(w, _, a, p, f) =>
              && WorldFrom(r.worldId, "", w) && FieldFrom(r.asOf, None, a) && FieldFrom(r.partition, None, p)
              && FieldFrom(r.fingerprint, None, f)
            case Coerce(w, _, a, p, f) =>
              && WorldFrom(r.worldId, "", w) && FieldFrom(r.asOf, None, a) && FieldFrom(r.partition, None, p)
              && FieldFrom(r.fingerprint, None, f)
            case SetWorld(w) =>
              && WorldFrom(r.worldId, "", w) && r.asOf == c.asOf && r.partition == c.partition && r.fingerprint == c.fingerprint
            case SetOverrides(_, a, p, f) =>
              && r.worldId == c.worldId && FieldFrom(r.asOf, c.asOf, a) && FieldFrom(r.partition, c.partition, p)
              && FieldFrom(r.fingerprint, c.fingerprint, f)
  {
    hide EvaluateSafeMode, Resolve, Strip, WorldModeDomain, Construct, Initial, WorldFrom, FieldFrom;
    match m {
      case FromStrategy(d, a, p, f) =>
        InitialFields(Absent, d, a, p, f);
        assert WorldFrom(Apply(c, m).worldId, "", Absent);
        WorldAbsent(Apply(c, m).worldId);
      case FromWorldService(w, mode, a, p, f) => InitialFields(w, Textual(WorldModeDomain(mode)), a, p, f);
      case Coerce(w, d, a, p, f) => InitialFields(w, d, a, p, f);
      case SetWorld(w) => WorldFields(c, w);
      case SetOverrides(d, a, p, f) => OverrideFields(c, d, a, p, f);
    }
  }

  lemma {:induction false} WorldAbsent(world: string)
    ensures WorldFrom(world, "", Absent) ==> world == ""
  {
  }

  lemma {:induction false} WorldFields(c: Context, w: Arg)
    ensures var r := WithWorld(c, w);
            WorldFrom(r.worldId, "", w) && r.asOf == c.asOf && r.partition == c.partition && r.fingerprint == c.fingerprint
  {
    hide EvaluateSafeMode, Strip;
  }

  lemma {:induction false} OverrideFields(c: Context, d: Arg, a: Arg, p: Arg, f: Arg)
    ensures var r := WithOverrides(c, d, a, p, f);
            && r.worldId == c.worldId && FieldFrom(r.asOf, c.asOf, a) && FieldFrom(r.partition, c.partition, p)
            && FieldFrom(r.fingerprint, c.fingerprint, f)
  {
    hide EvaluateSafeMode, Strip, Resolve;
  }

  // ----- the domain -----

  /** When a domain is downgraded, and to what: if it is absent, blank or "default", or if it is
      "backtest" or "dryrun" without an as-of. Any other becomes its stripped lower-case text. */
  lemma {:induction false} DowngradeIff(domain: Option<string>, asOf: Option<string>)
    ensures var v, d := EvaluateSafeMode(domain, asOf), if domain.Some? then Lower(Strip(domain.value)) else "";
            && (v.downgraded <==> d in ["", "default"] || (d in ["backtest", "dryrun"] && (asOf.None? || asOf == Some(""))))
            && v.domain == (if v.downgraded then "backtest" else d)
            && (v.reason == Some(DecisionUnavailable) <==> d in ["", "default"])
            && (v.reason == Some(MissingAsOf) <==> v.downgraded && d !in ["", "default"])
            && (v.safeMode <==> v.downgraded) && (v.reason.Some? <==> v.downgraded)
  {
    if domain.Some? { LowerEmpty(Strip(domain.value)); }
    hide Strip, Lower;
  }

  lemma {:induction false} LowerEmpty(s: string)
    ensures Lower(s) == "" <==> s == ""
  {
    assert |Lower(s)| == |s|;
  }

  /** In this domain, unless it needs an as-of and there is none: then a downgraded backtest. */
  predicate InDomain(r: Context, d: string) {
    if NeedsAsOf(d) && Blank(r.asOf) then r.domain == "backtest" && r.downgraded else r.domain == d && !r.downgraded
  }

  lemma {:induction false} ConstructVerdict(c: Context, domain: Option<string>)
    requires var v := EvaluateSafeMode(domain, c.asOf);
             c.domain == v.domain && c.downgraded == v.downgraded && c.reason == v.reason && c.safeMode == v.safeMode
    ensures Construct(c) == c
  {
    VerdictStable(domain, c.asOf);
    hide Lower, Strip, EvaluateSafeMode;
    ConstructSafe(c);
  }

  /** Overriding with a text that names a domain puts a context into that domain. */
  lemma {:induction false} OverrideDomain(c: Context, text: string, d: string, a: Arg, p: Arg, f: Arg)
    requires Canonical(d) && Resolve(NormalizeValue(Textual(text))) == Some(d)
    ensures InDomain(WithOverrides(c, Textual(text), a, p, f), d)
  {
    CanonicalResolves(d);
    CanonicalShape(d);
    CanonicalVerdict(d, Override(c.asOf, a));
    hide Lower, Strip, Resolve, EvaluateSafeMode, Construct, Canonical, NeedsAsOf;
    var r := Decided(c, Some(d), Override(c.asOf, a), Override(c.partition, p), Override(c.fingerprint, f));
    ConstructVerdict(r, Some(d));
  }

  /** The name of each domain does. */
  lemma {:induction false} OverrideByName(c: Context, d: string, a: Arg, p: Arg, f: Arg)
    requires Canonical(d)
    ensures InDomain(WithOverrides(c, Textual(d), a, p, f), d)
  {
    CanonicalResolves(d);
    CanonicalShape(d);
    hide Lower, Strip, Resolve, WithOverrides, Canonical;
    OverrideDomain(c, d, d, a, p, f);
  }

  /** Without a domain argument a safe context stays in its domain, as far as its as-of allows. */
  lemma {:induction false} OverrideKeepsDomain(c: Context, a: Arg, p: Arg, f: Arg)
    requires Safe(c)
    ensures InDomain(WithOverrides(c, Absent, a, p, f), c.domain)
  {
    assert c.domain != "" && c.domain != DEFAULT_DOMAIN && Strip(c.domain) == c.domain && Lower(c.domain) == c.domain by {
      CanonicalTwice(c.domain);
    }
    CanonicalVerdict(c.domain, Override(c.asOf, a));
    hide Lower, Strip, EvaluateSafeMode, Construct, NeedsAsOf, Safe;
    var r := Decided(c, Some(c.domain), Override(c.asOf, a), Override(c.partition, p), Override(c.fingerprint, f));
    ConstructVerdict(r, Some(c.domain));
  }

  /** A factory given a text that names a domain makes a context in that domain. */
  lemma {:induction false} InitialDomain(w: Arg, text: string, d: string, a: Arg, p: Arg, f: Arg)
    requires Canonical(d) && Resolve(NormalizeValue(Textual(text))) == Some(d)
    ensures InDomain(Initial(w, Textual(text), a, p, f), d)
  {
    CanonicalResolves(d);
    CanonicalShape(d);
    CanonicalVerdict(d, NormalizeValue(a));
    InitialVerdict(w, Textual(text), a, p, f);
    hide Lower, Strip, Resolve, EvaluateSafeMode, Construct, Canonical, NeedsAsOf;
  }

  /** Giving a safe context another world changes nothing else. */
  lemma {:induction false} WorldOnly(c: Context, w: Arg)
    requires Safe(c)
    ensures WithWorld(c, w) == c.(worldId := WithWorld(c, w).worldId)
  {
    hide Lower, Strip, Construct, Safe;
    var r := c.(worldId := OrEmpty(NormalizeValue(w)));
    SafeWorld(c, OrEmpty(NormalizeValue(w)));
    ConstructSafe(r);
  }

  lemma {:induction false} SafeWorld(c: Context, world: string)
    requires Safe(c)
    ensures Safe(c.(worldId := world))
  {
  }
}

/** The fluent `CanonicalNodeSpec` builder: its setters as steps on a value, what every
    chain of them keeps, when a builder can be read back from its own payload, and the
    object whose fields the setters update. */
module NodeSpecBuilder {
  import opened Wrappers
  import opened Ordering
  import opened Text
  import opened PyValue
  import opened TagQuery
  import opened NodeSpec

  datatype Setter =
    | SetNodeType(value: Value)
    | SetInterval(value: Value, present: bool)
    | SetPeriod(value: Value, present: bool)
    | SetParams(value: Value, field: Option<string>, present: bool)
    | SetDependencies(value: Value)
    | SetSchemaCompatId(value: Value, fallback: Value)
    | SetCodeHash(value: Value)
    | SetExtra(key: string, value: Value)
    | MergeExtras(data: Payload)

  function NewSpec(): Spec {
    Spec("", 0, 0, None, None, Obj([]), "params", true, [], "", "", map[])
  }

  /** What a payload keeps of a value handed to a setter. */
  function Kept(value: Value, present: bool): Option<Value> {
    if present then Some(value) else None
  }

  function FieldFor(current: string, field: Option<string>): string {
    if field.None? then "params" else if field.value != "" then field.value else current
  }

  /** One setter call; `Err` when it raises. */
  function Apply(h: Host, s: Spec, op: Setter): Result<Spec> {
    match op
    case SetNodeType(v) => Ok(s.(nodeType := TextOrEmpty(h, v)))
    case SetInterval(v, present) => var i :- IntOrZero(h, v); Ok(s.(interval := i, intervalPayload := Kept(v, present)))
    case SetPeriod(v, present) => var i :- IntOrZero(h, v); Ok(s.(period := i, periodPayload := Kept(v, present)))
    case SetParams(v, field, present) =>
      Ok(s.(params := v, paramsField := FieldFor(s.paramsField, field), paramsPresent := present))
    case SetDependencies(v) => var deps :- NormDeps(h, v); Ok(s.(deps := deps))
    case SetSchemaCompatId(v, fallback) => var c :- Compat(h, v, fallback); Ok(s.(compat := c))
    case SetCodeHash(v) => Ok(s.(codeHash := TextOrEmpty(h, v)))
    case SetExtra(key, v) => if Reserved(key) then Err else Ok(s.(extras := s.extras[key := v]))
    case MergeExtras(data) => Ok(s.(extras := s.extras + Extras(data)))
  }

  /** A sequence of calls on one builder, going on after those that raise. */
  function Chain(h: Host, ops: seq<Setter>): Spec {
    if ops == [] then NewSpec()
    else
      var s := Chain(h, ops[..|ops| - 1]);
      var r := Apply(h, s, ops[|ops| - 1]);
      if r.Ok? then r.value else s
  }

  // ----- what every chain keeps -----

  ghost predicate DepsSettled(deps: seq<string>) {
    Sorted(deps, StrLeq) && forall d :: d in deps ==> d != ""
  }

  ghost predicate ExtrasFree(extras: Payload) {
    forall k :: k in extras ==> !Reserved(k)
  }

  /** The number a builder holds is the one its payload value stands for. */
  predicate Stands(h: Host, payload: Option<Value>, i: int) {
    payload.Some? ==> IntOrZero(h, payload.value) == Ok(i)
  }

  ghost predicate Built(h: Host, s: Spec) {
    && ExtrasFree(s.extras) && s.paramsField != "" && DepsSettled(s.deps) && Stripped(s.compat)
    && Stands(h, s.intervalPayload, s.interval) && Stands(h, s.periodPayload, s.period)
  }

  lemma {:induction false} NormDepsSettled(h: Host, v: Value)
    requires NormDeps(h, v).Ok?
    ensures DepsSettled(NormDeps(h, v).value)
  {
    hide StrLeq, Sort;
    if Truthy(v) {
      var names := DepNames(h, Items(v).value);
      StrTotal();
      DepNamesNonempty(h, Items(v).value);
      SortCorrect(names, StrLeq);
      SortMembers(names, StrLeq);
    }
  }

  lemma {:induction false} CompatStripped(h: Host, v: Value, fallback: Value)
    requires Compat(h, v, fallback).Ok?
    ensures Stripped(Compat(h, v, fallback).value)
  {
    hide Trimmed, Stripped;
    TrimmedStripped(h, v);
    TrimmedStripped(h, fallback);
  }

  lemma {:induction false} ApplyKeeps(h: Host, s: Spec, op: Setter)
    requires Built(h, s) && Apply(h, s, op).Ok?
    ensures Built(h, Apply(h, s, op).value)
  {
    hide Stripped, DepsSettled, NormDeps, Compat, Reserved, TextOrEmpty, IntOrZero;
    if op.SetDependencies? { NormDepsSettled(h, op.value); }
    if op.SetSchemaCompatId? { CompatStripped(h, op.value, op.fallback); }
  }

  lemma {:induction false} EveryChainBuilt(h: Host, ops: seq<Setter>)
    ensures Built(h, Chain(h, ops))
  {
    hide Built, Apply;
    if ops == [] {
      NewBuilt(h);
    } else {
      EveryChainBuilt(h, ops[..|ops| - 1]);
      var s := Chain(h, ops[..|ops| - 1]);
      if Apply(h, s, ops[|ops| - 1]).Ok? { ApplyKeeps(h, s, ops[|ops| - 1]); }
    }
  }

  lemma {:induction false} NewBuilt(h: Host)
    ensures Built(h, NewSpec())
  {
  }

  // ----- reading a payload is a chain -----

  /** The calls `from_payload` makes. */
  function Reading(n: Payload): seq<Setter> {
    var field := ParamsFieldOf(n);
    [SetNodeType(Field(n, "node_type")),
     SetInterval(Field(n, "interval"), "interval" in n),
     SetPeriod(Field(n, "period"), "period" in n),
     SetParams(Field(n, field), Some(field), field in n),
     SetDependencies(OrElse(Field(n, "dependencies"), Field(n, "inputs"))),
     SetSchemaCompatId(Field(n, "schema_compat_id"), Field(n, "schema_id")),
     SetCodeHash(Field(n, "code_hash")),
     MergeExtras(n)]
  }

  lemma {:induction false} ReadingSteps(n: Payload)
    ensures var ops, field := Reading(n), ParamsFieldOf(n);
            && |ops| == 8 && ops[0] == SetNodeType(Field(n, "node_type"))
            && ops[1] == SetInterval(Field(n, "interval"), "interval" in n)
            && ops[2] == SetPeriod(Field(n, "period"), "period" in n)
            && ops[3] == SetParams(Field(n, field), Some(field), field in n)
            && ops[4] == SetDependencies(OrElse(Field(n, "dependencies"), Field(n, "inputs")))
            && ops[5] == SetSchemaCompatId(Field(n, "schema_compat_id"), Field(n, "schema_id"))
            && ops[6] == SetCodeHash(Field(n, "code_hash")) && ops[7] == MergeExtras(n)
  {
  }

  /** Calls up to the first that raises. */
  function ApplyAll(h: Host, s: Spec, ops: seq<Setter>): Result<Spec>
    decreases |ops|
  {
    if ops == [] then Ok(s)
    else
      var t :- Apply(h, s, ops[0]);
      ApplyAll(h, t, ops[1..])
  }

  lemma {:induction false} ApplyNext(h: Host, s: Spec, ops: seq<Setter>, k: nat)
    requires k < |ops|
    ensures ApplyAll(h, s, ops[k..]) ==
            if Apply(h, s, ops[k]).Ok? then ApplyAll(h, Apply(h, s, ops[k]).value, ops[k + 1..]) else Err
  {
    hide Apply;
    assert ops[k..][1..] == ops[k + 1..];
  }

  /** Reading a payload is calling the setters one by one. */
  lemma {:induction false} FromPayloadIsChain(h: Host, n: Payload)
    ensures ApplyAll(h, NewSpec(), Reading(n)) == FromPayload(h, n)
  {
    hide NormDeps, Compat, IntOrZero, TextOrEmpty, Reserved, ParamsFieldOf, ApplyAll;
    var ops := Reading(n);
    ParamsFieldNamed(n);
    assert ops == ops[0..];
    ApplyNext(h, NewSpec(), ops, 0);
    var s := Apply(h, NewSpec(), ops[0]).value;
    ApplyNext(h, s, ops, 1);
    if Apply(h, s, ops[1]).Ok? { ChainPeriod(h, n, Apply(h, s, ops[1]).value); }
  }

  lemma {:induction false} ChainPeriod(h: Host, n: Payload, s: Spec)
    requires IntOrZero(h, Field(n, "interval")).Ok?
    requires s == NewSpec().(nodeType := TextOrEmpty(h, Field(n, "node_type")), interval := IntOrZero(h, Field(n, "interval")).value,
                             intervalPayload := Kept(Field(n, "interval"), "interval" in n))
    ensures ApplyAll(h, s, Reading(n)[2..]) == FromPayload(h, n)
  {
    hide NormDeps, Compat, IntOrZero, TextOrEmpty, Extras, ParamsFieldOf, ApplyAll, OrElse, Reading, Field, Present, Kept;
    var ops := Reading(n);
    ReadingSteps(n);
    ParamsFieldNamed(n);
    PresentKept(n, "interval");
    PresentKept(n, "period");
    assert map[] + Extras(n) == Extras(n);
    ApplyNext(h, s, ops, 2);
    if Apply(h, s, ops[2]).Ok? {
      var t := Apply(h, s, ops[2]).value;
      ApplyNext(h, t, ops, 3);
      var u := Apply(h, t, ops[3]).value;
      ApplyNext(h, u, ops, 4);
      if Apply(h, u, ops[4]).Ok? { ChainRest(h, ops, Apply(h, u, ops[4]).value); }
    }
  }

  lemma {:induction false} PresentKept(n: Payload, key: string)
    ensures Present(n, key) == Kept(Field(n, key), key in n)
  {
  }

  lemma {:induction false} ChainRest(h: Host, ops: seq<Setter>, s: Spec)
    requires |ops| == 8 && ops[5].SetSchemaCompatId? && ops[6].SetCodeHash? && ops[7].MergeExtras?
    ensures ApplyAll(h, s, ops[5..]) ==
            var c := Compat(h, ops[5].value, ops[5].fallback);
            if c.Err? then Err
            else Ok(s.(compat := c.value, codeHash := TextOrEmpty(h, ops[6].value), extras := s.extras + Extras(ops[7].data)))
  {
    hide Compat, TextOrEmpty, Extras;
    ApplyNext(h, s, ops, 5);
    if Apply(h, s, ops[5]).Ok? {
      var t := Apply(h, s, ops[5]).value;
      ApplyNext(h, t, ops, 6);
      ApplyNext(h, Apply(h, t, ops[6]).value, ops, 7);
    }
  }

  lemma {:induction false} FromPayloadBuilt(h: Host, n: Payload)
    requires FromPayload(h, n).Ok?
    ensures Built(h, FromPayload(h, n).value)
  {
    hide Stripped, DepsSettled, NormDeps, Compat, Reserved, TextOrEmpty, IntOrZero;
    NormDepsSettled(h, OrElse(Field(n, "dependencies"), Field(n, "inputs")));
    CompatStripped(h, Field(n, "schema_compat_id"), Field(n, "schema_id"));
  }

  // ----- reading a builder's own payload -----

  /** The builder read back from its own payload, with interval and period now explicit. */
  function Settled(s: Spec): Spec {
    s.(intervalPayload := Some(if s.intervalPayload.Some? then s.intervalPayload.value else Int(s.interval)),
       periodPayload := Some(if s.periodPayload.Some? then s.periodPayload.value else Int(s.period)))
  }

  /** A legacy schema id among the extras does not contradict or replace the compatibility id. */
  predicate LegacyAgrees(h: Host, s: Spec) {
    var legacy := Field(s.extras, "schema_id");
    legacy.Null? || Trimmed(h, legacy) == "" || Trimmed(h, legacy) == s.compat
  }

  /** The parameters are written where a reader looks for them, or there are none. */
  predicate ParamsReadable(s: Spec) {
    if s.paramsPresent then s.paramsField == "params" || s.paramsField == "config"
    else s.paramsField == "params" && s.params.Null?
  }

  predicate BaseKey(k: string) {
    k in {"node_type", "interval", "period", "dependencies", "schema_compat_id", "code_hash"}
  }

  ghost predicate FieldNamed(s: Spec) {
    ExtrasFree(s.extras) && (s.paramsField == "params" || s.paramsField == "config")
  }

  lemma {:induction false} PayloadKeys(s: Spec, k: string)
    requires FieldNamed(s)
    ensures BaseKey(k) ==> k in ToPayload(s) && ToPayload(s)[k] == BasePayload(s)[k]
    ensures k == "params" || k == "config" ==>
            (k in ToPayload(s) <==> s.paramsPresent && k == s.paramsField) && (k in ToPayload(s) ==> ToPayload(s)[k] == s.params)
    ensures !Reserved(k) ==> (k in ToPayload(s) <==> k in s.extras) && (k in s.extras ==> ToPayload(s)[k] == s.extras[k])
  {
    BaseKeys(s, k);
    hide BasePayload;
    assert Reserved(k) <==> BaseKey(k) || k == "params" || k == "config";
    assert BaseKey(k) ==> k != "params" && k != "config";
  }

  lemma {:induction false} BaseKeys(s: Spec, k: string)
    ensures k in BasePayload(s) <==> BaseKey(k)
  {
  }

  lemma {:induction false} BaseValues(s: Spec)
    ensures var b := BasePayload(s);
            && b["node_type"] == Str(s.nodeType) && b["code_hash"] == Str(s.codeHash)
            && b["dependencies"] == DepsValue(s.deps) && b["schema_compat_id"] == Str(s.compat)
            && Some(b["interval"]) == Settled(s).intervalPayload && Some(b["period"]) == Settled(s).periodPayload
  {
  }

  lemma {:induction false} PayloadFields(s: Spec)
    requires FieldNamed(s)
    ensures var p := ToPayload(s);
            && Present(p, "interval") == Settled(s).intervalPayload && Present(p, "period") == Settled(s).periodPayload
            && Field(p, "node_type") == Str(s.nodeType) && Field(p, "code_hash") == Str(s.codeHash)
            && Field(p, "dependencies") == DepsValue(s.deps) && Field(p, "schema_compat_id") == Str(s.compat)
            && Field(p, "schema_id") == Field(s.extras, "schema_id")
  {
    hide BasePayload, ToPayload, FieldNamed;
    BaseValues(s);
    PayloadKeys(s, "interval");
    PayloadKeys(s, "period");
    PayloadKeys(s, "node_type");
    PayloadKeys(s, "code_hash");
    PayloadKeys(s, "dependencies");
    PayloadKeys(s, "schema_compat_id");
    PayloadKeys(s, "schema_id");
  }

  lemma {:induction false} PayloadParams(s: Spec)
    requires FieldNamed(s)
    ensures var p := ToPayload(s);
            && ParamsFieldOf(p) == (if s.paramsPresent then s.paramsField else "params")
            && Field(p, ParamsFieldOf(p)) == (if s.paramsPresent then s.params else Null)
            && (ParamsFieldOf(p) in p <==> s.paramsPresent)
  {
    PayloadKeys(s, "params");
    PayloadKeys(s, "config");
    hide ToPayload;
  }

  lemma {:induction false} PayloadExtras(s: Spec)
    requires FieldNamed(s)
    ensures Extras(ToPayload(s)) == s.extras
  {
    hide ToPayload, Reserved;
    forall k ensures (k in Extras(ToPayload(s)) <==> k in s.extras) && (k in s.extras ==> Extras(ToPayload(s))[k] == s.extras[k]) {
      PayloadKeys(s, k);
    }
  }

  lemma {:induction false} SettledDeps(h: Host, deps: seq<string>)
    requires DepsSettled(deps)
    ensures NormDeps(h, DepsValue(deps)) == Ok(deps)
  {
    hide StrLeq, Sort, DepNames;
    DepNamesOfTexts(h, deps);
    StrTotal();
    SortFixed(deps, StrLeq);
  }

  lemma {:induction false} SettledCompat(h: Host, s: Spec)
    requires Stripped(s.compat)
    ensures Compat(h, Str(s.compat), Field(s.extras, "schema_id")) == Ok(s.compat) <==> LegacyAgrees(h, s)
  {
    hide Trimmed, Stripped;
    TrimmedTwice(h, s.compat);
  }

  lemma {:induction false} SettledNumbers(h: Host, s: Spec)
    requires Stands(h, s.intervalPayload, s.interval) && Stands(h, s.periodPayload, s.period)
    ensures IntOrZero(h, Settled(s).intervalPayload.value) == Ok(s.interval)
    ensures IntOrZero(h, Settled(s).periodPayload.value) == Ok(s.period)
  {
  }

  /** Whatever setters were called, a builder can be read back from its own payload exactly
      when its parameters are readable and no legacy id among its extras interferes. */
  lemma {:induction false} BuilderRoundTrip(h: Host, s: Spec)
    requires Built(h, s)
    ensures FromPayload(h, ToPayload(s)) == Ok(Settled(s)) <==> ParamsReadable(s) && LegacyAgrees(h, s)
  {
    hide ToPayload, NormDeps, Compat, Extras, IntOrZero, LegacyAgrees, Trimmed, Stripped, DepsSettled, ExtrasFree, Stands, ParamsFieldOf;
    SettledNumbers(h, s);
    if s.paramsField == "params" || s.paramsField == "config" {
      PayloadFields(s);
      PayloadParams(s);
      PayloadExtras(s);
      SettledDeps(h, s.deps);
      SettledCompat(h, s);
    } else {
      ReadField(h, ToPayload(s));
    }
  }

  lemma {:induction false} ChainRoundTrip(h: Host, ops: seq<Setter>)
    ensures var s := Chain(h, ops);
            FromPayload(h, ToPayload(s)) == Ok(Settled(s)) <==> ParamsReadable(s) && LegacyAgrees(h, s)
  {
    hide Built, FromPayload, ToPayload, Chain;
    EveryChainBuilt(h, ops);
    BuilderRoundTrip(h, Chain(h, ops));
  }

  lemma {:induction false} ReadField(h: Host, n: Payload)
    ensures FromPayload(h, n).Ok? ==> FromPayload(h, n).value.paramsField in ["params", "config"]
  {
    hide NormDeps, Compat, Extras, IntOrZero;
  }

  /** A builder made from a payload always can: the result is the same builder, except that
      interval and period have become explicit, so it serialises to the same bytes (or
      refuses in the same way). */
  lemma {:induction false} PayloadRoundTrip(h: Host, n: Payload)
    requires FromPayload(h, n).Ok?
    ensures var s := FromPayload(h, n).value;
            && FromPayload(h, ToPayload(s)) == Ok(Settled(s))
            && SpecParts(h, FromPayload(h, ToPayload(s)).value) == SpecParts(h, s)
  {
    hide Built, ToPayload;
    FromPayloadBuilt(h, n);
    BuilderRoundTrip(h, FromPayload(h, n).value);
    ReadableLegacy(h, n);
    SettledParts(h, FromPayload(h, n).value);
    hide FromPayload, SpecParts, ParamsReadable, LegacyAgrees, Settled;
  }

  /** Every field of a payload outside the builder's own eight passes through unchanged. */
  lemma {:induction false} OtherFieldsKept(h: Host, n: Payload, key: string)
    requires FromPayload(h, n).Ok?
    requires key !in ["node_type", "interval", "period", "params", "config", "dependencies", "schema_compat_id", "code_hash"]
    ensures var p := ToPayload(FromPayload(h, n).value);
            (key in p <==> key in n) && (key in n ==> p[key] == n[key])
  {
    hide NormDeps, Compat, IntOrZero, TextOrEmpty, ToPayload;
    FromPayloadBuilt(h, n);
    ReadField(h, n);
    assert !Reserved(key);
    PayloadKeys(FromPayload(h, n).value, key);
  }

  lemma {:induction false} ReadableLegacy(h: Host, n: Payload)
    requires FromPayload(h, n).Ok?
    ensures ParamsReadable(FromPayload(h, n).value) && LegacyAgrees(h, FromPayload(h, n).value)
  {
    hide NormDeps, Trimmed, IntOrZero;
    assert !Reserved("schema_id");
  }

  lemma {:induction false} SettledParts(h: Host, s: Spec)
    ensures SpecParts(h, Settled(s)) == SpecParts(h, s)
  {
    hide TagParams, AsValue;
  }

  // ----- the builder object -----

  class CanonicalNodeSpec {
    var nodeType: string
    var interval: int
    var period: int
    var intervalPayload: Value
    var intervalPayloadIsSet: bool
    var periodPayload: Value
    var periodPayloadIsSet: bool
    var paramsValue: Value
    var paramsField: string
    var paramsFieldPresent: bool
    var dependencies: seq<string>
    var schemaCompatId: string
    var codeHash: string
    var extras: Payload

    function State(): Spec
      reads this
    {
      Spec(nodeType, interval, period, Kept(intervalPayload, intervalPayloadIsSet), Kept(periodPayload, periodPayloadIsSet),
           paramsValue, paramsField, paramsFieldPresent, dependencies, schemaCompatId, codeHash, extras)
    }

    constructor ()
      ensures State() == NewSpec()
    {
      nodeType, interval, period := "", 0, 0;
      intervalPayload, intervalPayloadIsSet, periodPayload, periodPayloadIsSet := Null, false, Null, false;
      paramsValue, paramsField, paramsFieldPresent := Obj([]), "params", true;
      dependencies, schemaCompatId, codeHash, extras := [], "", "", map[];
    }

    method WithNodeType(h: Host, value: Value)
      modifies this
      ensures Ok(State()) == Apply(h, old(State()), SetNodeType(value))
    {
      nodeType := TextOrEmpty(h, value);
    }

    method WithInterval(h: Host, value: Value, present: bool := true) returns (ok: bool)
      modifies this
      ensures ok <==> Apply(h, old(State()), SetInterval(value, present)).Ok?
      ensures State() == if ok then Apply(h, old(State()), SetInterval(value, present)).value else old(State())
    {
      var i := IntOrZero(h, value);
      if i.Err? { return false; }
      interval, intervalPayload, intervalPayloadIsSet := i.value, value, present;
      return true;
    }

    method WithPeriod(h: Host, value: Value, present: bool := true) returns (ok: bool)
      modifies this
      ensures ok <==> Apply(h, old(State()), SetPeriod(value, present)).Ok?
      ensures State() == if ok then Apply(h, old(State()), SetPeriod(value, present)).value else old(State())
    {
      var i := IntOrZero(h, value);
      if i.Err? { return false; }
      period, periodPayload, periodPayloadIsSet := i.value, value, present;
      return true;
    }

    method WithParams(h: Host, value: Value, field: Option<string> := None, present: bool := true)
      modifies this
      ensures Ok(State()) == Apply(h, old(State()), SetParams(value, field, present))
    {
      if field.Some? && field.value != "" {
        paramsField := field.value;
      } else if field.None? {
        paramsField := "params";
      }
      paramsValue, paramsFieldPresent := value, present;
    }

    method WithDependencies(h: Host, deps: Value) returns (ok: bool)
      modifies this
      ensures ok <==> Apply(h, old(State()), SetDependencies(deps)).Ok?
      ensures State() == if ok then Apply(h, old(State()), SetDependencies(deps)).value else old(State())
    {
      var r := NormalizeDependencies(h, deps);
      if r.Err? { return false; }
      dependencies := r.value;
      return true;
    }

    method WithSchemaCompatId(h: Host, value: Value, fallback: Value := Null) returns (ok: bool)
      modifies this
      ensures ok <==> Apply(h, old(State()), SetSchemaCompatId(value, fallback)).Ok?
      ensures State() == if ok then Apply(h, old(State()), SetSchemaCompatId(value, fallback)).value else old(State())
    {
      var c := Compat(h, value, fallback);
      if c.Err? { return false; }
      schemaCompatId := c.value;
      return true;
    }

    method WithCodeHash(h: Host, value: Value)
      modifies this
      ensures Ok(State()) == Apply(h, old(State()), SetCodeHash(value))
    {
      codeHash := TextOrEmpty(h, value);
    }

    method WithExtra(h: Host, key: string, value: Value) returns (ok: bool)
      modifies this
      ensures ok <==> Apply(h, old(State()), SetExtra(key, value)).Ok?
      ensures State() == if ok then Apply(h, old(State()), SetExtra(key, value)).value else old(State())
    {
      if Reserved(key) { return false; }
      extras := extras[key := value];
      return true;
    }

    method UpdateExtras(h: Host, data: Payload)
      modifies this
      ensures Ok(State()) == Apply(h, old(State()), MergeExtras(data))
    {
      hide Reserved, Apply, Taken;
      var todo := data.Keys;
      TakenEnds(data);
      while todo != {}
        invariant todo <= data.Keys
        invariant State() == old(State()).(extras := extras)
        invariant extras == old(extras) + Taken(data, todo)
        decreases todo
      {
        var key :| key in todo;
        TakenNext(data, todo, key);
        if !Reserved(key) { extras := extras[key := data[key]]; }
        todo := todo - {key};
      }
      MergeResult(h, old(State()), data);
    }

    /** `from_payload`: the builder it makes, or a refusal where a setter raises. */
    static method Read(h: Host, n: Payload) returns (ok: bool, spec: CanonicalNodeSpec)
      ensures fresh(spec) && (ok <==> FromPayload(h, n).Ok?)
      ensures ok ==> spec.State() == FromPayload(h, n).value
    {
      hide Apply, FromPayload, ApplyAll, ParamsFieldOf, Field, OrElse, CanonicalNodeSpec.State, NewSpec, Reading;
      spec := new CanonicalNodeSpec();
      ghost var ops := Reading(n);
      ReadingSteps(n);
      FromPayloadIsChain(h, n);
      assert ops == ops[0..];
      var field := ParamsFieldOf(n);
      ApplyNext(h, spec.State(), ops, 0);
      spec.WithNodeType(h, Field(n, "node_type"));
      ApplyNext(h, spec.State(), ops, 1);
      ok := spec.WithInterval(h, Field(n, "interval"), "interval" in n);
      if !ok { return; }
      ApplyNext(h, spec.State(), ops, 2);
      ok := spec.WithPeriod(h, Field(n, "period"), "period" in n);
      if !ok { return; }
      ApplyNext(h, spec.State(), ops, 3);
      spec.WithParams(h, Field(n, field), Some(field), field in n);
      ApplyNext(h, spec.State(), ops, 4);
      ok := spec.WithDependencies(h, OrElse(Field(n, "dependencies"), Field(n, "inputs")));
      if !ok { return; }
      ApplyNext(h, spec.State(), ops, 5);
      ok := spec.WithSchemaCompatId(h, Field(n, "schema_compat_id"), Field(n, "schema_id"));
      if !ok { return; }
      ApplyNext(h, spec.State(), ops, 6);
      spec.WithCodeHash(h, Field(n, "code_hash"));
      ApplyNext(h, spec.State(), ops, 7);
      spec.UpdateExtras(h, n);
      assert ops[8..] == [];
      NoMore(h, spec.State());
    }

    /** `to_payload`, reading only. */
    method Write() returns (payload: Payload)
      ensures payload == ToPayload(State())
    {
      var field := if paramsField != "" then paramsField else "params";
      payload := map[
        "node_type" := Str(nodeType),
        "interval" := if intervalPayloadIsSet then intervalPayload else Int(interval),
        "period" := if periodPayloadIsSet then periodPayload else Int(period),
        "dependencies" := DepsValue(dependencies),
        "schema_compat_id" := Str(schemaCompatId),
        "code_hash" := Str(codeHash)];
      if paramsFieldPresent { payload := payload[field := paramsValue]; }
      payload := payload + extras;
    }
  }

  lemma {:induction false} ParamsFieldNamed(n: Payload)
    ensures ParamsFieldOf(n) != ""
  {
  }

  /** The extras copied so far. */
  function Taken(data: Payload, todo: set<string>): Payload {
    map k | k in data && k !in todo && !Reserved(k) :: data[k]
  }

  lemma {:induction false} TakenEnds(data: Payload)
    ensures Taken(data, data.Keys) == map[] && Taken(data, {}) == Extras(data)
  {
    hide Reserved;
  }

  lemma {:induction false} TakenNext(data: Payload, todo: set<string>, key: string)
    requires key in todo && key in data
    ensures Taken(data, todo - {key}) == if Reserved(key) then Taken(data, todo) else Taken(data, todo)[key := data[key]]
  {
    hide Reserved;
  }

  lemma {:induction false} MergeResult(h: Host, s: Spec, data: Payload)
    ensures Apply(h, s, MergeExtras(data)) == Ok(s.(extras := s.extras + Extras(data)))
  {
  }

  lemma {:induction false} NoMore(h: Host, s: Spec)
    ensures ApplyAll(h, s, []) == Ok(s)
  {
  }
}

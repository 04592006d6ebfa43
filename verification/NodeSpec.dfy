/** Canonical node serialisation: directly from a payload mapping, and through the
    `CanonicalNodeSpec` builder. */
module NodeSpec {
  import opened Wrappers
  import opened Ordering
  import opened Text
  import opened PyValue
  import opened NodeParams
  import opened TagQuery

  // ----- fields -----

  function DepNames(h: Host, items: seq<Value>): seq<string> {
    if items == [] then []
    else
      var last := items[|items| - 1];
      DepNames(h, items[..|items| - 1]) +
      if last.Null? || StrOf(h, last) == "" then [] else [StrOf(h, last)]
  }

  function NormDeps(h: Host, deps: Value): Result<seq<string>> {
    if !Truthy(deps) then Ok([])
    else
      var items :- Items(deps);
      Ok(Sort(DepNames(h, items), StrLeq))
  }

  method NormalizeDependencies(h: Host, deps: Value) returns (r: Result<seq<string>>)
    ensures r == NormDeps(h, deps)
  {
    hide Items, StrOf, Sort;
    if !Truthy(deps) { return Ok([]); }
    var items := Items(deps);
    if items.Err? { return Err; }
    var xs := items.value;
    var normalized: seq<string> := [];
    for k := 0 to |xs|
      invariant normalized == DepNames(h, xs[..k])
    {
      assert xs[..k + 1][..k] == xs[..k];
      if !xs[k].Null? {
        var value := StrOf(h, xs[k]);
        if value != "" { normalized := normalized + [value]; }
      }
    }
    assert xs[..|xs|] == xs;
    return Ok(Sort(normalized, StrLeq));
  }

  function Trimmed(h: Host, v: Value): string {
    Text.Strip(StrOf(h, Or(v, Str(""))))
  }

  /** The compatibility id, with the legacy id as fallback; a conflict is an error. */
  function Compat(h: Host, value: Value, fallback: Value): Result<string> {
    var compat := Trimmed(h, value);
    if fallback.Null? then Ok(compat)
    else
      var legacy := Trimmed(h, fallback);
      if compat != "" && legacy != "" && compat != legacy then Err
      else Ok(if compat == "" then legacy else compat)
  }

  // ----- the serialised parts -----

  datatype Parts = Parts(
    nodeType: string, interval: int, period: int, params: Value, deps: seq<string>, compat: string, codeHash: string)

  /** The bytes that are hashed into a node id. */
  function Render(h: Host, p: Parts): string {
    Join("|", [p.nodeType, Decimal(p.interval), Decimal(p.period), h.dumps(p.params), Join(",", p.deps), p.compat, p.codeHash])
  }

  /** `str(node.get(key, ""))` */
  function TextField(h: Host, n: Payload, key: string): string {
    if key in n then StrOf(h, n[key]) else ""
  }

  function ParamsSource(n: Payload): Value {
    OrElse(Field(n, "params"), Field(n, "config"))
  }

  function MappingParams(h: Host, n: Payload): Result<Value> {
    if TextField(h, n, "node_type") == TAG_QUERY then
      var t :- NodeTagParams(h, n);
      Ok(Canon(h, AsValue(t)))
    else Ok(Canon(h, ParamsSource(n)))
  }

  function MappingDeps(h: Host, n: Payload): Result<seq<string>> {
    NormDeps(h, Or(Field(n, "inputs"), Or(Field(n, "dependencies"), List([]))))
  }

  /** Serialising a mapping. */
  function MappingParts(h: Host, n: Payload): Result<Parts> {
    var interval :- IntOrZero(h, Field(n, "interval"));
    var period :- IntOrZero(h, Field(n, "period"));
    var deps :- MappingDeps(h, n);
    var compat :- Compat(h, Field(n, "schema_compat_id"), Field(n, "schema_id"));
    var params :- MappingParams(h, n);
    Ok(Parts(TextField(h, n, "node_type"), interval, period, params, deps, compat, TextField(h, n, "code_hash")))
  }

  // ----- the builder, as a value -----

  datatype Spec = Spec(
    nodeType: string, interval: int, period: int,
    intervalPayload: Option<Value>, periodPayload: Option<Value>,
    params: Value, paramsField: string, paramsPresent: bool,
    deps: seq<string>, compat: string, codeHash: string, extras: Payload)

  predicate Reserved(key: string) {
    key in {"node_type", "interval", "period", "params", "config", "dependencies", "schema_compat_id", "code_hash"}
  }

  /** `str(value or "")` */
  function TextOrEmpty(h: Host, v: Value): string {
    StrOf(h, Or(v, Str("")))
  }

  function Present(n: Payload, key: string): Option<Value> {
    if key in n then Some(n[key]) else None
  }

  function ParamsFieldOf(n: Payload): string {
    if "params" in n then "params" else if "config" in n then "config" else "params"
  }

  function SpecDeps(h: Host, n: Payload): Result<seq<string>> {
    NormDeps(h, OrElse(Field(n, "dependencies"), Field(n, "inputs")))
  }

  function Extras(n: Payload): Payload {
    map k | k in n && !Reserved(k) :: n[k]
  }

  function FromPayload(h: Host, n: Payload): Result<Spec> {
    var field := ParamsFieldOf(n);
    var interval :- IntOrZero(h, Field(n, "interval"));
    var period :- IntOrZero(h, Field(n, "period"));
    var deps :- SpecDeps(h, n);
    var compat :- Compat(h, Field(n, "schema_compat_id"), Field(n, "schema_id"));
    Ok(Spec(TextOrEmpty(h, Field(n, "node_type")), interval, period, Present(n, "interval"), Present(n, "period"),
            Field(n, field), field, field in n, deps, compat, TextOrEmpty(h, Field(n, "code_hash")), Extras(n)))
  }

  function DepsValue(deps: seq<string>): Value {
    List(seq(|deps|, i requires 0 <= i < |deps| => Str(deps[i])))
  }

  function BasePayload(s: Spec): Payload {
    map[
      "node_type" := Str(s.nodeType),
      "interval" := if s.intervalPayload.Some? then s.intervalPayload.value else Int(s.interval),
      "period" := if s.periodPayload.Some? then s.periodPayload.value else Int(s.period),
      "dependencies" := DepsValue(s.deps),
      "schema_compat_id" := Str(s.compat),
      "code_hash" := Str(s.codeHash)]
  }

  function ToPayload(s: Spec): Payload {
    var field := if s.paramsField == "" then "params" else s.paramsField;
    (if s.paramsPresent then BasePayload(s)[field := s.params] else BasePayload(s)) + s.extras
  }

  function SpecTags(s: Spec): Value {
    OrElse(OrElse(InnerTags(s.params), Field(s.extras, "tags")), s.params)
  }

  function SpecMode(s: Spec): Value {
    OrElse(Inner(s.params, "match_mode"), Field(s.extras, "match_mode"))
  }

  function SpecParams(h: Host, s: Spec): Result<Value> {
    if s.nodeType == TAG_QUERY then
      var t :- TagParams(h, SpecTags(s), Int(s.interval), SpecMode(s));
      Ok(Canon(h, AsValue(t)))
    else Ok(Canon(h, s.params))
  }

  /** Serialising a builder. */
  function SpecParts(h: Host, s: Spec): Result<Parts> {
    var params :- SpecParams(h, s);
    Ok(Parts(s.nodeType, s.interval, s.period, params, s.deps, s.compat, s.codeHash))
  }

  // ----- normalising twice -----

  lemma {:induction false} DepNamesMembers(h: Host, items: seq<Value>, s: string)
    ensures s in DepNames(h, items) <==> s != "" && exists i :: 0 <= i < |items| && !items[i].Null? && StrOf(h, items[i]) == s
  {
    hide StrOf;
    if items != [] {
      var n := |items| - 1;
      DepNamesMembers(h, items[..n], s);
      assert forall i :: 0 <= i < n ==> items[..n][i] == items[i];
    }
  }

  /** The normalised dependencies are the non-empty names of the items, sorted. */
  lemma {:induction false} NormDepsMembers(h: Host, deps: Value, s: string)
    requires Truthy(deps) && Items(deps).Ok?
    ensures NormDeps(h, deps).Ok? && Sorted(NormDeps(h, deps).value, StrLeq)
    ensures s in NormDeps(h, deps).value <==>
            s != "" && exists i :: 0 <= i < |Items(deps).value| && !Items(deps).value[i].Null? && StrOf(h, Items(deps).value[i]) == s
  {
    hide StrOf, Sort, DepNames, StrLeq, Items;
    var names := DepNames(h, Items(deps).value);
    StrTotal();
    SortCorrect(names, StrLeq);
    SortMembers(names, StrLeq);
    DepNamesMembers(h, Items(deps).value, s);
  }

  lemma {:induction false} DepNamesNonempty(h: Host, items: seq<Value>)
    ensures forall s :: s in DepNames(h, items) ==> s != ""
  {
    if items != [] { DepNamesNonempty(h, items[..|items| - 1]); }
  }

  lemma {:induction false} DepNamesSnoc(h: Host, items: seq<Value>, s: string)
    requires s != ""
    ensures DepNames(h, items + [Str(s)]) == DepNames(h, items) + [s]
  {
    assert (items + [Str(s)])[..|items|] == items;
  }

  lemma {:induction false} DepNamesOfTexts(h: Host, deps: seq<string>)
    requires forall s :: s in deps ==> s != ""
    ensures DepNames(h, DepsValue(deps).items) == deps
  {
    hide DepNames;
    if deps == [] {
      NoDepNames(h);
      assert DepsValue(deps).items == [];
    } else {
      var n := |deps| - 1;
      assert deps == deps[..n] + [deps[n]] && deps[n] in deps;
      assert forall s :: s in deps[..n] ==> s in deps;
      DepNamesOfTexts(h, deps[..n]);
      DepNamesSnoc(h, DepsValue(deps[..n]).items, deps[n]);
      assert DepsValue(deps).items == DepsValue(deps[..n]).items + [Str(deps[n])];
    }
  }

  lemma {:induction false} NoDepNames(h: Host)
    ensures DepNames(h, []) == []
  {
  }

  /** Normalised dependencies are left alone by a second normalisation. */
  lemma {:induction false} NormDepsTwice(h: Host, v: Value)
    requires NormDeps(h, v).Ok?
    ensures NormDeps(h, DepsValue(NormDeps(h, v).value)) == NormDeps(h, v)
  {
    hide StrLeq, Sort, StrOf, Items, DepNames;
    var deps := NormDeps(h, v).value;
    if Truthy(v) {
      var names := DepNames(h, Items(v).value);
      StrTotal();
      DepNamesNonempty(h, Items(v).value);
      SortCorrect(names, StrLeq);
      SortMembers(names, StrLeq);
      DepNamesOfTexts(h, deps);
      SortFixed(deps, StrLeq);
      DepsValueItems(deps);
    }
  }

  lemma {:induction false} DepsValueItems(deps: seq<string>)
    ensures Items(DepsValue(deps)) == Ok(DepsValue(deps).items)
  {
  }

  lemma {:induction false} TrimmedTwice(h: Host, s: string)
    requires Stripped(s)
    ensures Trimmed(h, Str(s)) == s
  {
    StripFixed(s);
  }

  lemma {:induction false} TrimmedStripped(h: Host, v: Value)
    ensures Stripped(Trimmed(h, v))
  {
    StripStripped(StrOf(h, Or(v, Str(""))));
  }

  /** The settled compatibility id passes the check against the same legacy id. */
  lemma {:induction false} CompatTwice(h: Host, v: Value, fallback: Value)
    requires Compat(h, v, fallback).Ok?
    ensures Compat(h, Str(Compat(h, v, fallback).value), fallback) == Compat(h, v, fallback)
  {
    hide Trimmed, Stripped;
    TrimmedStripped(h, v);
    TrimmedStripped(h, fallback);
    TrimmedTwice(h, Compat(h, v, fallback).value);
  }
}

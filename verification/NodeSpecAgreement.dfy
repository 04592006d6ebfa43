/** The two ways of serialising a node payload, directly and through the builder:
    exactly when they agree. */
module NodeSpecAgreement {
  import opened Wrappers
  import opened Ordering
  import opened Sequences
  import opened PyValue
  import opened NodeParams
  import opened TagQuery
  import opened NodeSpec

  /** Serialising through the builder. */
  function SpecPath(h: Host, n: Payload): Result<Parts> {
    var s :- FromPayload(h, n);
    SpecParts(h, s)
  }

  /** A field that is present but falsy still renders as nothing. */
  predicate SameText(h: Host, n: Payload, key: string) {
    key in n && !Truthy(n[key]) ==> StrOf(h, n[key]) == ""
  }

  /** The mapping path prefers `inputs`, the builder `dependencies`. */
  predicate SameDeps(h: Host, n: Payload) {
    Truthy(Field(n, "inputs")) && !Field(n, "dependencies").Null? ==>
      NormDeps(h, Field(n, "inputs")) == NormDeps(h, Field(n, "dependencies"))
  }

  /** No null `params` hides a `config`. */
  predicate ParamsVisible(n: Payload) {
    !("params" in n && n["params"].Null? && !Field(n, "config").Null?)
  }

  lemma {:induction false} DepsAgree(h: Host, n: Payload)
    ensures MappingDeps(h, n) == SpecDeps(h, n) <==> SameDeps(h, n)
  {
    hide Sort, DepNames;
  }

  lemma {:induction false} TextAgrees(h: Host, n: Payload, key: string)
    ensures TextField(h, n, key) == TextOrEmpty(h, Field(n, key)) <==> SameText(h, n, key)
  {
  }

  lemma {:induction false} CanonNull(h: Host, v: Value)
    ensures Canon(h, v) == Null <==> v == Null
  {
  }

  lemma {:induction false} ParamsAgree(h: Host, n: Payload)
    ensures Canon(h, ParamsSource(n)) == Canon(h, Field(n, ParamsFieldOf(n))) <==> ParamsVisible(n)
  {
    hide Canon;
    CanonNull(h, Field(n, "config"));
    CanonNull(h, Null);
  }

  /** For a node that is not a tag query the two serialisations agree exactly when
      these four conditions on the payload hold. */
  lemma {:induction false} PlainSerializersAgree(h: Host, n: Payload)
    requires MappingParts(h, n).Ok? && TextField(h, n, "node_type") != TAG_QUERY
    ensures SpecPath(h, n) == MappingParts(h, n) <==>
            SameText(h, n, "node_type") && SameText(h, n, "code_hash") && SameDeps(h, n) && ParamsVisible(n)
  {
    hide SameText, SameDeps, ParamsVisible, TextField, TextOrEmpty, MappingDeps, SpecDeps, Canon, ParamsSource, Compat, Extras;
    TextAgrees(h, n, "node_type");
    TextAgrees(h, n, "code_hash");
    DepsAgree(h, n);
    ParamsAgree(h, n);
  }

  // ----- tag queries -----

  lemma {:induction false} TagValueContents(h: Host, t: TagSpec)
    ensures var c := Canon(h, AsValue(t));
            && c.Obj? && Lookup(c.entries, "query_tags") == List(Map(s => Str(s), t.tags))
            && Lookup(c.entries, "match_mode") == Str(t.mode)
            && Lookup(c.entries, "interval") == (if t.interval.Some? then Int(t.interval.value) else Null)
  {
    var es := AsValue(t).entries;
    TagKeys();
    TagLookup(t);
    CanonContents(h, es, "query_tags");
    CanonContents(h, es, "match_mode");
    CanonContents(h, es, "interval");
    assert HasKey(es, "query_tags") by { assert es[0].key == "query_tags"; }
    assert HasKey(es, "match_mode") by { assert es[1].key == "match_mode"; }
    assert HasKey(es, "interval") by { assert es[2].key == "interval"; }
    hide Excluded, Lookup, HasKey;
    CanonTags(h, t.tags);
  }

  lemma {:induction false} CanonTags(h: Host, tags: seq<string>)
    ensures Canon(h, List(Map(s => Str(s), tags))) == List(Map(s => Str(s), tags))
  {
    var xs: seq<Value> := Map(s => Str(s), tags);
    assert CanonAll(h, xs) == xs;
  }

  lemma {:induction false} TagKeys()
    ensures !Excluded("query_tags") && !Excluded("match_mode") && !Excluded("interval")
  {
    KeyNotExcluded("query_tags");
    KeyNotExcluded("match_mode");
    KeyNotExcluded("interval");
  }

  lemma {:induction false} TagLookup(t: TagSpec)
    ensures var es := AsValue(t).entries;
            && Lookup(es, "query_tags") == List(Map(s => Str(s), t.tags))
            && Lookup(es, "match_mode") == Str(t.mode)
            && Lookup(es, "interval") == (if t.interval.Some? then Int(t.interval.value) else Null)
  {
    var es := AsValue(t).entries;
    assert es[..2] == [es[0], es[1]] && es[..2][..1] == [es[0]] && [es[0]][..0] == [];
    assert "query_tags"[0] == 'q' && "match_mode"[0] == 'm' && "interval"[0] == 'i';
    assert Lookup(es[..2], "match_mode") == es[1].value;
    assert Lookup([es[0]], "query_tags") == es[0].value;
    assert Lookup(es[..2], "query_tags") == Lookup(es[..2][..1], "query_tags");
  }

  lemma {:induction false} TagValueInjective(h: Host, t: TagSpec, u: TagSpec)
    ensures Canon(h, AsValue(t)) == Canon(h, AsValue(u)) <==> t == u
  {
    hide Canon, AsValue, Lookup;
    TagValueContents(h, t);
    TagValueContents(h, u);
    if Canon(h, AsValue(t)) == Canon(h, AsValue(u)) {
      var f := (s: string) => Str(s);
      assert |t.tags| == |u.tags|;
      forall i | 0 <= i < |t.tags| ensures t.tags[i] == u.tags[i] {
        assert Map(s => Str(s), t.tags)[i] == Map(s => Str(s), u.tags)[i];
      }
    }
  }

  /** The interval of the query, read from the node or its parameters, is the number the
      builder uses. */
  predicate SameTagInterval(h: Host, n: Payload) {
    IntOrZero(h, Field(n, "interval")).Ok? && TryInt(h, NodeInterval(n)) == Some(IntOrZero(h, Field(n, "interval")).value)
  }

  function TagSet(tags: seq<string>): set<string> {
    set t | t in tags
  }

  predicate SameTagSet(h: Host, v: Value, w: Value) {
    && SplitTags(h, v).Ok? && SplitTags(h, w).Ok?
    && TagSet(SplitTags(h, v).value) == TagSet(SplitTags(h, w).value)
  }

  /** The parameters a builder holds, from `params` or `config`. */
  function Held(n: Payload): Value {
    Field(n, ParamsFieldOf(n))
  }

  /** Tags among the parameters the builder holds are the ones the mapping path reads; if
      there are none anywhere the builder falls back to the parameters themselves. */
  predicate SameTags(h: Host, n: Payload) {
    if InnerTags(Held(n)).Null? then NodeTags(n).Null? ==> SplitTags(h, Held(n)) == Ok([])
    else SameTagSet(h, InnerTags(Held(n)), NodeTags(n))
  }

  /** A mode among the parameters the builder holds is the one the mapping path reads. */
  predicate SameMode(n: Payload) {
    var mode := Inner(Held(n), "match_mode");
    mode.Null? || MatchMode(mode) == MatchMode(NodeMode(n))
  }

  lemma {:induction false} SortedSetInjective(a: set<string>, b: set<string>)
    ensures SortedSet(a) == SortedSet(b) <==> a == b
  {
    if SortedSet(a) == SortedSet(b) {
      forall t ensures t in a <==> t in b {
        assert t in SortedSet(a) <==> t in a;
        assert t in SortedSet(b) <==> t in b;
      }
    }
  }

  /** Which parts of two tag specifications have to agree. */
  lemma {:induction false} TagParamsEqual(h: Host, v: Value, i: Value, m: Value, w: Value, j: Value, k: Value)
    requires TagParams(h, w, j, k).Ok?
    ensures TagParams(h, v, i, m) == TagParams(h, w, j, k) <==>
            SameTagSet(h, v, w) && MatchMode(m) == MatchMode(k) && TryInt(h, i) == TryInt(h, j)
  {
    hide SplitTags, MatchMode, TryInt;
    if SplitTags(h, v).Ok? && SplitTags(h, w).Ok? {
      SortedSetInjective(TagSet(SplitTags(h, v).value), TagSet(SplitTags(h, w).value));
    }
  }

  lemma {:induction false} BuilderTags(h: Host, n: Payload, s: Spec)
    requires FromPayload(h, n) == Ok(s) && SplitTags(h, NodeTags(n)).Ok?
    ensures SameTagSet(h, SpecTags(s), NodeTags(n)) <==> SameTags(h, n)
  {
    hide SplitTags, Lookup, NormDeps, Compat, IntOrZero;
    BuilderFields(h, n, s);
    NullTags(h);
    assert "params" !in n ==> InnerTags(Field(n, "params")).Null?;
    if SplitTags(h, s.params).Ok? { EmptyTagSet(SplitTags(h, s.params).value); }
    hide TagSet;
  }

  lemma {:induction false} EmptyTagSet(tags: seq<string>)
    ensures TagSet(tags) == TagSet([]) <==> tags == []
  {
    assert tags != [] ==> tags[0] in TagSet(tags);
  }

  lemma {:induction false} BuilderMode(h: Host, n: Payload, s: Spec)
    requires FromPayload(h, n) == Ok(s)
    ensures MatchMode(SpecMode(s)) == MatchMode(NodeMode(n)) <==> SameMode(n)
  {
    hide MatchMode, Lookup, NormDeps, Compat, IntOrZero;
    BuilderFields(h, n, s);
  }

  lemma {:induction false} BuilderFields(h: Host, n: Payload, s: Spec)
    requires FromPayload(h, n) == Ok(s)
    ensures s.params == Held(n) && Field(s.extras, "tags") == Field(n, "tags") && Field(s.extras, "match_mode") == Field(n, "match_mode")
    ensures IntOrZero(h, Field(n, "interval")) == Ok(s.interval)
  {
    hide NormDeps, Compat, IntOrZero;
    assert !Reserved("tags") && !Reserved("match_mode");
  }

  lemma {:induction false} NullTags(h: Host)
    ensures SplitTags(h, Null) == Ok([])
  {
  }

  lemma {:induction false} TagParamsAgree(h: Host, n: Payload, s: Spec)
    requires FromPayload(h, n) == Ok(s) && NodeTagParams(h, n).Ok?
    ensures TagParams(h, SpecTags(s), Int(s.interval), SpecMode(s)) == NodeTagParams(h, n) <==>
            SameTagInterval(h, n) && SameTags(h, n) && SameMode(n)
  {
    hide SplitTags, MatchMode, SpecTags, SpecMode, NodeTags, NodeMode, NodeInterval, FromPayload, SameTagSet, SameTags, SameMode,
         SortedSet, IntOrZero;
    BuilderFields(h, n, s);
    assert TryInt(h, Int(s.interval)) == Some(s.interval);
    TagParamsEqual(h, SpecTags(s), Int(s.interval), SpecMode(s), NodeTags(n), NodeInterval(n), NodeMode(n));
    BuilderTags(h, n, s);
    BuilderMode(h, n, s);
  }

  /** For a tag query the two serialisations agree exactly when these conditions on the
      payload hold. */
  lemma {:induction false} TagSerializersAgree(h: Host, n: Payload)
    requires MappingParts(h, n).Ok? && TextField(h, n, "node_type") == TAG_QUERY
    ensures SpecPath(h, n) == MappingParts(h, n) <==>
            && SameText(h, n, "node_type") && SameText(h, n, "code_hash") && SameDeps(h, n)
            && SameTagInterval(h, n) && SameTags(h, n) && SameMode(n)
  {
    hide SameText, SameDeps, SameTags, SameMode, SameTagInterval, TextField, TextOrEmpty, MappingDeps, SpecDeps, Canon, AsValue,
         Compat, Extras, NodeTagParams, TagParams, TAG_QUERY;
    TextAgrees(h, n, "node_type");
    TextAgrees(h, n, "code_hash");
    DepsAgree(h, n);
    if FromPayload(h, n).Ok? {
      var s := FromPayload(h, n).value;
      TagParamsAgree(h, n, s);
      var t, u := TagParams(h, SpecTags(s), Int(s.interval), SpecMode(s)), NodeTagParams(h, n);
      if t.Ok? && u.Ok? { TagValueInjective(h, t.value, u.value); }
    }
  }

  // ----- the documented case -----

  /** A payload as the SDK writes it: textual type and hash, one dependency field, no null
      `params` beside `config`. */
  predicate Documented(n: Payload) {
    && Field(n, "node_type").Str? && Field(n, "code_hash").Str?
    && ("inputs" !in n || "dependencies" !in n) && ParamsVisible(n)
  }

  /** ... and for a tag query: a usable top-level interval and tags among the parameters. */
  predicate DocumentedQuery(n: Payload) {
    && (Truthy(Field(n, "interval")) || Field(n, "interval") == Int(0))
    && Truthy(InnerTags(Field(n, "params")))
  }

  /** For such payloads both ways yield the same parts, or both refuse. */
  lemma {:induction false} SerializersAgree(h: Host, n: Payload)
    requires Documented(n) && (n["node_type"] == Str(TAG_QUERY) ==> DocumentedQuery(n))
    ensures SpecPath(h, n) == MappingParts(h, n)
  {
    hide SameText, SameDeps, ParamsVisible, TAG_QUERY, MappingDeps, SpecDeps, Canon, Compat, Extras, NodeTagParams, TagParams;
    DocumentedFields(h, n);
    if MappingParts(h, n).Ok? {
      if n["node_type"] == Str(TAG_QUERY) {
        QueryConditions(h, n);
        TagSerializersAgree(h, n);
      } else {
        PlainSerializersAgree(h, n);
      }
    } else {
      BothRefuse(h, n);
    }
  }

  lemma {:induction false} QueryConditions(h: Host, n: Payload)
    requires DocumentedQuery(n) && MappingParts(h, n).Ok? && TextField(h, n, "node_type") == TAG_QUERY
    ensures SameTagInterval(h, n) && SameTags(h, n) && SameMode(n)
  {
    hide SplitTags, Lookup, MatchMode, MappingDeps, Compat, Canon, TextField;
    assert "params" in n && Held(n) == Field(n, "params");
  }

  lemma {:induction false} DocumentedFields(h: Host, n: Payload)
    requires Documented(n)
    ensures SameText(h, n, "node_type") && SameText(h, n, "code_hash") && SameDeps(h, n)
    ensures TextField(h, n, "node_type") == TextOrEmpty(h, Field(n, "node_type")) == n["node_type"].s
  {
  }

  lemma {:induction false} BothRefuse(h: Host, n: Payload)
    requires Documented(n) && (n["node_type"] == Str(TAG_QUERY) ==> DocumentedQuery(n)) && MappingParts(h, n).Err?
    ensures SpecPath(h, n).Err?
  {
    hide Canon, Compat, Extras, TagParams;
    DocumentedFields(h, n);
    DepsAgree(h, n);
    if n["node_type"] == Str(TAG_QUERY) && FromPayload(h, n).Ok? {
      QueryRefused(h, n, FromPayload(h, n).value);
    }
  }

  lemma {:induction false} QueryRefused(h: Host, n: Payload, s: Spec)
    requires FromPayload(h, n) == Ok(s) && DocumentedQuery(n)
    ensures TagParams(h, SpecTags(s), Int(s.interval), SpecMode(s)) == NodeTagParams(h, n)
  {
    hide SplitTags, MatchMode, Lookup, SortedSet, NormDeps, Compat;
    assert !Reserved("tags") && !Reserved("match_mode");
  }

  // ----- which tag queries share their parts -----

  predicate AsksForAll(n: Payload) {
    NodeMode(n).Str? && SpellsAll(NodeMode(n).s)
  }

  /** Two tag queries have the same canonical parameters exactly when they ask for the same
      tags, both for all or both for any of them, with the same interval. */
  lemma {:induction false} QueryParamsIff(h: Host, n: Payload, m: Payload)
    requires TextField(h, n, "node_type") == TextField(h, m, "node_type") == "TagQueryNode"
    requires NodeTagParams(h, n).Ok? && NodeTagParams(h, m).Ok?
    ensures MappingParams(h, n) == MappingParams(h, m) <==>
            && SameTagSet(h, NodeTags(n), NodeTags(m)) && (AsksForAll(n) <==> AsksForAll(m))
            && TryInt(h, NodeInterval(n)) == TryInt(h, NodeInterval(m))
  {
    hide SplitTags, MatchMode, TryInt, NodeTags, NodeMode, NodeInterval, TextField, SpellsAll, AsValue, TagParams, SameTagSet;
    TagValueInjective(h, NodeTagParams(h, n).value, NodeTagParams(h, m).value);
    TagParamsEqual(h, NodeTags(n), NodeInterval(n), NodeMode(n), NodeTags(m), NodeInterval(m), NodeMode(m));
    ModeIff(NodeMode(n));
    ModeIff(NodeMode(m));
    ParamsModes(h, n);
    ParamsModes(h, m);
  }

  lemma {:induction false} ParamsModes(h: Host, n: Payload)
    requires NodeTagParams(h, n).Ok?
    ensures MatchMode(NodeMode(n)).Ok?
  {
    hide SplitTags, MatchMode, TryInt;
  }

  /** So a query for all tags never shares its parts with a query for any. */
  lemma {:induction false} ModesDiffer(h: Host, n: Payload, m: Payload)
    requires TextField(h, n, "node_type") == TextField(h, m, "node_type") == "TagQueryNode"
    requires MappingParts(h, n).Ok? && AsksForAll(n) != AsksForAll(m)
    ensures MappingParts(h, n) != MappingParts(h, m)
  {
    hide AsksForAll, NodeTagParams, TextField, MappingDeps, Compat, IntOrZero, AsValue;
    if NodeTagParams(h, n).Ok? && NodeTagParams(h, m).Ok? { QueryParamsIff(h, n, m); }
  }
}

/** World independence: a node's identity and the acceptance of a node list do not depend on
    the excluded entries among its parameters, nor on the order of its dependencies. */
module WorldIndependence {
  import opened Wrappers
  import opened Ordering
  import opened Sequences
  import opened PyValue
  import opened NodeParams
  import opened TagQuery
  import opened NodeSpec
  import NodeSpecAgreement
  import opened NodeId
  import opened NodeValidation
  import opened WorldValues

  // ----- the same node in another world -----

  /** Values of fields that hold parameters: equal once the excluded entries are gone. */
  predicate SameParams(n: Payload, m: Payload, key: string) {
    StripWorld(Field(n, key)) == StripWorld(Field(m, key))
  }

  /** Values of fields that hold dependencies: equal or a reordering. */
  predicate SameDepField(n: Payload, m: Payload, key: string) {
    var v, w := Field(n, key), Field(m, key);
    v == w || (v.List? && w.List? && multiset(v.items) == multiset(w.items))
  }

  predicate Varies(key: string) {
    key in ["params", "config", "inputs", "dependencies"]
  }

  /** The same node in another world. */
  ghost predicate SameUpToWorld(n: Payload, m: Payload) {
    && (forall k :: !Varies(k) ==> (k in n <==> k in m) && (k in n ==> n[k] == m[k]))
    && SameParams(n, m, "params") && SameParams(n, m, "config")
    && SameDepField(n, m, "inputs") && SameDepField(n, m, "dependencies")
  }

  predicate IsQuery(h: Host, n: Payload) {
    TextField(h, n, "node_type") == TAG_QUERY
  }

  /** There is no mapping inside the tags and the mode a tag query takes from its parameters. */
  predicate ReadsNoMapping(n: Payload) {
    var p := Field(n, "params");
    && MappingFree(Inner(p, "query_tags")) && (Truthy(Inner(p, "query_tags")) || MappingFree(Inner(p, "tags")))
    && MappingFree(Inner(p, "match_mode"))
  }

  // ----- dependencies and plain parameters -----

  lemma {:induction false} DepNamesConcat(h: Host, a: seq<Value>, b: seq<Value>)
    ensures DepNames(h, a + b) == DepNames(h, a) + DepNames(h, b)
  {
    hide StrOf;
    if b == [] {
      assert a + b == a;
    } else {
      var c := a + b;
      DepNamesConcat(h, a, b[..|b| - 1]);
      assert c[..|c| - 1] == a + b[..|b| - 1] && c[|c| - 1] == b[|b| - 1];
      var last := DepNames(h, [b[|b| - 1]]);
      Assoc(DepNames(h, a), DepNames(h, b[..|b| - 1]), last);
    }
  }

  lemma {:induction false} DepNamesPerm(h: Host, a: seq<Value>, b: seq<Value>)
    requires multiset(a) == multiset(b)
    ensures multiset(DepNames(h, a)) == multiset(DepNames(h, b))
  {
    assert |multiset(a)| == |multiset(b)|;
    if a != [] {
      hide DepNames;
      var j := FindHead(a, b);
      DepNamesPerm(h, a[1..], b[..j] + b[j + 1..]);
      DepNamesConcat(h, [a[0]], a[1..]);
      assert a == [a[0]] + a[1..] && b == b[..j] + [a[0]] + b[j + 1..];
      DepNamesMiddle(h, b[..j], a[0], b[j + 1..]);
    }
  }

  lemma {:induction false} DepNamesMiddle(h: Host, a: seq<Value>, x: Value, b: seq<Value>)
    ensures multiset(DepNames(h, a + [x] + b)) == multiset(DepNames(h, [x])) + multiset(DepNames(h, a + b))
  {
    hide DepNames;
    DepNamesConcat(h, a, b);
    DepNamesConcat(h, a + [x], b);
    DepNamesConcat(h, a, [x]);
  }

  lemma {:induction false} PermDeps(h: Host, a: seq<Value>, b: seq<Value>)
    requires multiset(a) == multiset(b)
    ensures NormDeps(h, List(a)) == NormDeps(h, List(b)) && (Truthy(List(a)) <==> Truthy(List(b)))
  {
    hide StrLeq, Sort, DepNames;
    assert |multiset(a)| == |multiset(b)|;
    DepNamesPerm(h, a, b);
    StrTotal();
    SortCanonical(DepNames(h, a), DepNames(h, b), StrLeq);
  }

  lemma {:induction false} FieldDeps(h: Host, n: Payload, m: Payload, key: string)
    requires SameDepField(n, m, key)
    ensures NormDeps(h, Field(n, key)) == NormDeps(h, Field(m, key)) && (Truthy(Field(n, key)) <==> Truthy(Field(m, key)))
  {
    hide NormDeps;
    var v, w := Field(n, key), Field(m, key);
    if v != w { PermDeps(h, v.items, w.items); }
  }

  lemma {:induction false} SameDepsInWorlds(h: Host, n: Payload, m: Payload)
    requires SameDepField(n, m, "inputs") && SameDepField(n, m, "dependencies")
    ensures MappingDeps(h, n) == MappingDeps(h, m)
  {
    hide NormDeps, Truthy, SameDepField;
    FieldDeps(h, n, m, "inputs");
    FieldDeps(h, n, m, "dependencies");
  }

  lemma {:induction false} SameCanon(h: Host, n: Payload, m: Payload)
    requires SameParams(n, m, "params") && SameParams(n, m, "config")
    ensures Canon(h, ParamsSource(n)) == Canon(h, ParamsSource(m))
  {
    hide Canon;
    CanonIgnoresExcluded(h, ParamsSource(n));
    CanonIgnoresExcluded(h, ParamsSource(m));
  }

  // ----- identity -----

  lemma {:induction false} SameField(h: Host, n: Payload, m: Payload, key: string)
    requires SameUpToWorld(n, m) && !Varies(key)
    ensures Field(n, key) == Field(m, key) && TextField(h, n, key) == TextField(h, m, key)
  {
    hide SameParams, SameDepField, Varies, StrOf;
  }

  /** The fields that stay as they are. */
  lemma {:induction false} SameFields(h: Host, n: Payload, m: Payload)
    requires SameUpToWorld(n, m)
    ensures TextField(h, n, "node_type") == TextField(h, m, "node_type") && TextField(h, n, "code_hash") == TextField(h, m, "code_hash")
    ensures Field(n, "node_type") == Field(m, "node_type") && Field(n, "node_id") == Field(m, "node_id")
    ensures Field(n, "interval") == Field(m, "interval") && Field(n, "period") == Field(m, "period")
    ensures Field(n, COMPAT) == Field(m, COMPAT) && Field(n, "schema_id") == Field(m, "schema_id")
    ensures Field(n, "tags") == Field(m, "tags") && Field(n, "match_mode") == Field(m, "match_mode")
  {
    hide SameUpToWorld, TextField, Field;
    SameField(h, n, m, "node_type");
    SameField(h, n, m, "code_hash");
    SameField(h, n, m, "node_id");
    SameField(h, n, m, "interval");
    SameField(h, n, m, "period");
    SameField(h, n, m, COMPAT);
    SameField(h, n, m, "schema_id");
    SameField(h, n, m, "tags");
    SameField(h, n, m, "match_mode");
  }

  lemma {:induction false} QueryKeys()
    ensures !Excluded("query_tags") && !Excluded("tags") && !Excluded("match_mode") && !Excluded("interval")
  {
    KeyNotExcluded("query_tags");
    KeyNotExcluded("tags");
    KeyNotExcluded("match_mode");
    KeyNotExcluded("interval");
  }

  lemma {:induction false} FixedInner(p: Value, q: Value, key: string)
    requires StripWorld(p) == StripWorld(q) && !Excluded(key) && MappingFree(Inner(p, key))
    ensures Inner(q, key) == Inner(p, key)
  {
    hide Excluded, StripWorld, MappingFree, Inner;
    SameInner(p, q, key);
    MappingFreeFixed(Inner(p, key), Inner(q, key));
  }

  /** A query that reads no mapping reads the same tags, mode and interval in every world. */
  lemma {:induction false} SameQuery(h: Host, n: Payload, m: Payload)
    requires SameUpToWorld(n, m) && ReadsNoMapping(n)
    ensures NodeTags(n) == NodeTags(m) && NodeMode(n) == NodeMode(m) && TryInt(h, NodeInterval(n)) == TryInt(h, NodeInterval(m))
  {
    hide Excluded, StripWorld, Inner, MappingFree, Varies, SameDepField, TextField, Truthy, TryInt;
    SameFields(h, n, m);
    QueryKeys();
    var p, q := Field(n, "params"), Field(m, "params");
    SameInner(p, q, "interval");
    NumberFixed(h, Inner(p, "interval"), Inner(q, "interval"));
    FixedInner(p, q, "query_tags");
    FixedInner(p, q, "match_mode");
    if !Truthy(Inner(p, "query_tags")) { FixedInner(p, q, "tags"); }
  }

  lemma {:induction false} SameTagParams(h: Host, n: Payload, m: Payload)
    requires NodeTags(n) == NodeTags(m) && NodeMode(n) == NodeMode(m) && TryInt(h, NodeInterval(n)) == TryInt(h, NodeInterval(m))
    ensures NodeTagParams(h, n) == NodeTagParams(h, m)
  {
    hide NodeTags, NodeMode, NodeInterval, SplitTags, MatchMode, TryInt, SortedSet;
  }

  /** Two worlds, one identity. */
  lemma {:induction false} IdentityIgnoresWorld(h: Host, n: Payload, m: Payload)
    requires SameUpToWorld(n, m) && (IsQuery(h, n) ==> ReadsNoMapping(n))
    ensures MappingParts(h, n) == MappingParts(h, m) && Identify(h, n) == Identify(h, m)
  {
    hide TextField, MappingDeps, Canon, ParamsSource, Compat, IntOrZero, NodeTagParams, AsValue, Field, NodeTags, NodeMode,
         NodeInterval, TAG_QUERY, Render, SameParams, SameDepField, ReadsNoMapping, TryInt;
    SameFields(h, n, m);
    if IsQuery(h, n) {
      SameQuery(h, n, m);
      SameTagParams(h, n, m);
    }
    SameDepsInWorlds(h, n, m);
    SameCanon(h, n, m);
  }

  // ----- a mapping that is read is seen -----

  /** The entries with another value for the entry that `key` refers to. */
  function Replace(es: seq<Entry>, key: string, v: Value): seq<Entry> {
    if es == [] then []
    else
      var last := |es| - 1;
      if es[last].key == key then es[..last] + [Entry(key, v)] else Replace(es[..last], key, v) + [es[last]]
  }

  lemma {:induction false} ReplaceLookup(es: seq<Entry>, key: string, v: Value, k: string)
    ensures Lookup(Replace(es, key, v), k) == if k == key && HasKey(es, key) then v else Lookup(es, k)
  {
    if es != [] {
      var last := |es| - 1;
      ReplaceLookup(es[..last], key, v, k);
      KeySnoc(es, key);
      hide HasKey;
      var r := Replace(es, key, v);
      if es[last].key == key {
        assert r[..|r| - 1] == es[..last] && r[|r| - 1] == Entry(key, v);
      } else {
        assert r[..|r| - 1] == Replace(es[..last], key, v) && r[|r| - 1] == es[last];
      }
    }
  }

  lemma {:induction false} KeySnoc(es: seq<Entry>, key: string)
    requires es != []
    ensures HasKey(es, key) <==> es[|es| - 1].key == key || HasKey(es[..|es| - 1], key)
  {
    var init := es[..|es| - 1];
    if i :| 0 <= i < |es| && es[i].key == key { assert i < |init| ==> init[i].key == key; }
    if i :| 0 <= i < |init| && init[i].key == key { assert es[i].key == key; }
  }

  lemma {:induction false} ReplaceUnseen(es: seq<Entry>, key: string, v: Value)
    requires StripWorld(v) == StripWorld(Lookup(es, key))
    ensures StripWorldEntries(Replace(es, key, v)) == StripWorldEntries(es)
  {
    hide Excluded, StripWorld;
    if es != [] {
      var last := |es| - 1;
      assert es == es[..last] + [es[last]];
      StripConcat(es[..last], [es[last]]);
      if es[last].key == key {
        StripConcat(es[..last], [Entry(key, v)]);
        OneStripped(es[last]);
        OneStripped(Entry(key, v));
      } else {
        ReplaceUnseen(es[..last], key, v);
        StripConcat(Replace(es[..last], key, v), [es[last]]);
      }
    }
  }

  lemma {:induction false} OneStripped(e: Entry)
    ensures StripWorldEntries([e]) == if Excluded(e.key) then [] else [Entry(e.key, StripWorld(e.value))]
  {
    hide Excluded;
    assert [e][1..] == [];
  }

  /** The node with an entry slipped into the value of one of its parameters. */
  function Slipped(n: Payload, name: string, key: string): Payload
    requires Field(n, "params").Obj?
  {
    var es := n["params"].entries;
    n["params" := Obj(Replace(es, name, Slip(Lookup(es, name), key)))]
  }

  lemma {:induction false} OtherParamsSame(n: Payload, v: Value)
    requires "params" in n && StripWorld(v) == StripWorld(n["params"])
    ensures SameUpToWorld(n, n["params" := v])
  {
    hide StripWorld;
    assert forall k :: k != "params" ==> Field(n["params" := v], k) == Field(n, k);
  }

  lemma {:induction false} StripObj(es: seq<Entry>)
    ensures StripWorld(Obj(es)) == Obj(StripWorldEntries(es))
  {
  }

  lemma {:induction false} SlippedSame(n: Payload, name: string, key: string)
    requires Field(n, "params").Obj? && Excluded(key)
    ensures SameUpToWorld(n, Slipped(n, name, key))
  {
    hide Excluded, Slip, Replace, StripWorld, StripWorldEntries, Lookup, SameUpToWorld;
    var es := n["params"].entries;
    var v := Slip(Lookup(es, name), key);
    SlipUnseen(Lookup(es, name), key);
    ReplaceUnseen(es, name, v);
    StripObj(es);
    StripObj(Replace(es, name, v));
    OtherParamsSame(n, Obj(Replace(es, name, v)));
  }

  lemma {:induction false} SlippedInner(h: Host, n: Payload, name: string, key: string)
    requires Field(n, "params").Obj? && !Inner(Field(n, "params"), name).Null?
    ensures var p, q := Field(n, "params"), Field(Slipped(n, name, key), "params");
            q.Obj? && Inner(q, name) == Slip(Inner(p, name), key) && forall k :: k != name ==> Inner(q, k) == Inner(p, k)
    ensures IsQuery(h, Slipped(n, name, key)) <==> IsQuery(h, n)
  {
    hide Slip, Replace, Lookup, HasKey;
    var es := n["params"].entries;
    LookupMissing(es, name);
    forall k { ReplaceLookup(es, name, Slip(Lookup(es, name), key), k); }
  }

  function Longest(tags: seq<string>): (n: nat)
    ensures forall t :: t in tags ==> |t| <= n
  {
    if tags == [] then 0
    else
      assert tags == [tags[0]] + tags[1..];
      var n := Longest(tags[1..]);
      if |tags[0]| > n then |tags[0]| else n
  }

  /** The canonical tags are the tags that were read. */
  lemma {:induction false} TagsRead(h: Host, n: Payload)
    requires NodeTagParams(h, n).Ok?
    ensures SplitTags(h, NodeTags(n)).Ok?
    ensures forall t :: t in NodeTagParams(h, n).value.tags <==> t in SplitTags(h, NodeTags(n)).value
  {
    hide NodeTags, NodeMode, NodeInterval, SplitTags, MatchMode, TryInt;
  }

  lemma {:induction false} PartsTagParams(h: Host, n: Payload, m: Payload)
    requires IsQuery(h, n) && IsQuery(h, m) && MappingParts(h, n).Ok? && MappingParts(h, m) == MappingParts(h, n)
    ensures NodeTagParams(h, n).Ok? && NodeTagParams(h, m) == NodeTagParams(h, n)
  {
    hide NodeTagParams, MappingDeps, Canon, AsValue, Compat, IntOrZero, TextField, TAG_QUERY;
    NodeSpecAgreement.TagValueInjective(h, NodeTagParams(h, n).value, NodeTagParams(h, m).value);
  }

  lemma {:induction false} TagDiffers(h: Host, n: Payload, m: Payload, t: string)
    requires IsQuery(h, n) && IsQuery(h, m) && MappingParts(h, n).Ok?
    requires SplitTags(h, NodeTags(n)).Ok? && t !in SplitTags(h, NodeTags(n)).value
    requires SplitTags(h, NodeTags(m)).Ok? && t in SplitTags(h, NodeTags(m)).value
    ensures MappingParts(h, m) != MappingParts(h, n)
  {
    hide IsQuery, MappingParts, SplitTags, NodeTags, NodeTagParams;
    if MappingParts(h, m) == MappingParts(h, n) {
      PartsTagParams(h, n, m);
      TagsRead(h, n);
      TagsRead(h, m);
    }
  }

  /** Names slipped into the tags that are chosen turn up among the tags. */
  lemma {:induction false} TagsSeen(h: Host, n: Payload, name: string) returns (m: Payload)
    requires ShowsParts(h) && IsQuery(h, n) && MappingParts(h, n).Ok? && Field(n, "params").Obj?
    requires !MappingFree(Inner(Field(n, "params"), name))
    requires name == "query_tags" || (name == "tags" && !Truthy(Inner(Field(n, "params"), "query_tags")))
    ensures SameUpToWorld(n, m) && MappingParts(h, m) != MappingParts(h, n)
  {
    hide Excluded, ShowsParts, SameUpToWorld, MappingParts, SplitTags, Inner, MappingFree, Slip, Slipped, IsQuery, Truthy, NodeTags,
         NodeTagParams, Longest, LongKey;
    PartsOk(h, n);
    TagsRead(h, n);
    var longest := Longest(SplitTags(h, NodeTags(n)).value);
    var key := LongKey(longest);
    LongKeyExcluded(longest);
    m := Slipped(n, name, key);
    SlippedSame(n, name, key);
    NullFree();
    SlippedInner(h, n, name, key);
    var t := SlippedTag(h, Inner(Field(n, "params"), name), key);
    ChosenTags(m, name);
    TagDiffers(h, n, m, t);
  }

  lemma {:induction false} NullFree()
    ensures MappingFree(Null)
  {
  }

  lemma {:induction false} PartsOk(h: Host, n: Payload)
    requires IsQuery(h, n) && MappingParts(h, n).Ok?
    ensures NodeTagParams(h, n).Ok?
  {
    hide NodeTagParams, MappingDeps, Canon, AsValue, Compat, IntOrZero, TextField, TAG_QUERY;
  }

  lemma {:induction false} ChosenTags(m: Payload, name: string)
    requires Field(m, "params").Obj? && Truthy(Inner(Field(m, "params"), name))
    requires name == "query_tags" || (name == "tags" && !Truthy(Inner(Field(m, "params"), "query_tags")))
    ensures NodeTags(m) == Inner(Field(m, "params"), name)
  {
    hide Inner;
  }

  /** A mapping as the mode is accepted only while it is empty. */
  lemma {:induction false} ModeSeen(h: Host, n: Payload) returns (m: Payload)
    requires IsQuery(h, n) && MappingParts(h, n).Ok? && Field(n, "params").Obj?
    requires !MappingFree(Inner(Field(n, "params"), "match_mode"))
    ensures SameUpToWorld(n, m) && MappingParts(h, m) != MappingParts(h, n)
  {
    hide Excluded, SameUpToWorld, MappingParts, Inner, Slipped, IsQuery;
    PartsOk(h, n);
    LongKeyExcluded(0);
    m := Slipped(n, "match_mode", LongKey(0));
    SlippedSame(n, "match_mode", LongKey(0));
    NullFree();
    SlippedInner(h, n, "match_mode", LongKey(0));
    ModeRefused(h, n, m, LongKey(0));
    if MappingParts(h, m) == MappingParts(h, n) { PartsTagParams(h, n, m); }
  }

  lemma {:induction false} ModeRefused(h: Host, n: Payload, m: Payload, key: string)
    requires NodeTagParams(h, n).Ok? && !MappingFree(Inner(Field(n, "params"), "match_mode"))
    requires Inner(Field(m, "params"), "match_mode") == Slip(Inner(Field(n, "params"), "match_mode"), key)
    ensures NodeTagParams(h, m).Err?
  {
    hide Inner, SplitTags, TryInt, NodeTags, NodeInterval;
    var mode := Inner(Field(n, "params"), "match_mode");
    assert MatchMode(mode).Ok?;
  }

  /** Exactly which tag queries have the same serialised parts in every world: those that
      take neither tags nor mode from a value with a mapping inside. */
  lemma {:induction false} QueryIgnoresWorldIff(h: Host, n: Payload)
    requires ShowsParts(h) && IsQuery(h, n) && MappingParts(h, n).Ok?
    ensures (forall m :: SameUpToWorld(n, m) ==> MappingParts(h, m) == MappingParts(h, n)) <==> ReadsNoMapping(n)
  {
    hide SameUpToWorld, MappingParts, ShowsParts, IsQuery, MappingFree, Truthy, Lookup;
    NullFree();
    if ReadsNoMapping(n) {
      forall m | SameUpToWorld(n, m) ensures MappingParts(h, m) == MappingParts(h, n) { IdentityIgnoresWorld(h, n, m); }
    } else {
      var p := Field(n, "params");
      if !MappingFree(Inner(p, "match_mode")) {
        var m := ModeSeen(h, n);
      } else {
        var m := TagsSeen(h, n, if MappingFree(Inner(p, "query_tags")) then "tags" else "query_tags");
      }
    }
  }

  // ----- acceptance -----

  /** Nothing the validation looks at depends on the world: a tag query reads no mapping, and
      parameters that are required themselves are settled. */
  predicate WorldProof(h: Host, required: seq<string>, n: Payload) {
    && (IsQuery(h, n) ==> ReadsNoMapping(n))
    && ("params" in required ==> TruthSettled(Field(n, "params")))
    && ("config" in required ==> TruthSettled(Field(n, "config")))
  }

  lemma {:induction false} SameTruth(h: Host, n: Payload, m: Payload, f: string)
    requires SameUpToWorld(n, m)
    requires f == "params" || f == "config" ==> TruthSettled(Field(n, f))
    ensures Absent(n)(f) == Absent(m)(f)
  {
    hide Truthy, TruthSettled, StripWorld;
    if f == "params" || f == "config" {
      SettledTruth(Field(n, f), Field(m, f));
    } else if Varies(f) {
      FieldDeps(h, n, m, f);
    } else {
      SameField(h, n, m, f);
    }
  }

  lemma {:induction false} SameAbsent(h: Host, required: seq<string>, n: Payload, m: Payload)
    requires SameUpToWorld(n, m) && WorldProof(h, required, n)
    ensures Filter(Absent(n), required) == Filter(Absent(m), required)
  {
    hide SameUpToWorld, TruthSettled, ReadsNoMapping, IsQuery, Absent;
    if required != [] {
      assert required == [required[0]] + required[1..];
      SameAbsent(h, required[1..], n, m);
      SameTruth(h, n, m, required[0]);
    }
  }

  lemma {:induction false} QueryText(h: Host, n: Payload)
    requires TextOrEmpty(h, Field(n, "node_type")) == TAG_QUERY
    ensures IsQuery(h, n)
  {
  }

  lemma {:induction false} SameQueryFields(h: Host, n: Payload, m: Payload)
    requires SameUpToWorld(n, m) && ReadsNoMapping(n)
    ensures MissingQueryFields(h, n) == MissingQueryFields(h, m)
  {
    hide SplitTags, TryInt, MatchMode, NodeTags, NodeMode, NodeInterval, SameUpToWorld, ReadsNoMapping;
    SameQuery(h, n, m);
  }

  lemma {:induction false} SameMissing(h: Host, required: seq<string>, n: Payload, m: Payload, compat: string)
    requires SameUpToWorld(n, m) && WorldProof(h, required, n)
    ensures MissingFields(h, required, n, compat) == MissingFields(h, required, m, compat)
  {
    hide SameUpToWorld, TextOrEmpty, TextField, Field, TAG_QUERY, COMPAT, MissingQueryFields, RemoveFirst, Filter, Absent,
         ReadsNoMapping, TruthSettled;
    SameAbsent(h, required, n, m);
    SameFields(h, n, m);
    if TextOrEmpty(h, Field(n, "node_type")) == TAG_QUERY {
      QueryText(h, n);
      SameQueryFields(h, n, m);
    }
  }

  lemma {:induction false} SameExamine(h: Host, required: seq<string>, f: Findings, index: nat, n: Payload, m: Payload)
    requires SameUpToWorld(n, m) && WorldProof(h, required, n)
    ensures Examine(h, required, f, index, Some(n)) == Examine(h, required, f, index, Some(m))
  {
    hide SameUpToWorld, Field, TextField, Identify, Compat, MappingParts, MissingFields, FirstOccurrences, TextOrEmpty, COMPAT,
         ReadsNoMapping, TruthSettled, IsQuery;
    SameFields(h, n, m);
    IdentityIgnoresWorld(h, n, m);
    assert NodeCompat(h, n) == NodeCompat(h, m);
    if NodeCompat(h, n).Ok? { SameMissing(h, required, n, m, NodeCompat(h, n).value); }
  }

  ghost predicate SameInWorld(a: Node, b: Node) {
    a == b || (a.Some? && b.Some? && SameUpToWorld(a.value, b.value))
  }

  /** Node by node the same list in another world. */
  ghost predicate SameListInWorld(ns: seq<Node>, ms: seq<Node>) {
    |ns| == |ms| && forall i :: 0 <= i < |ns| ==> SameInWorld(ns[i], ms[i])
  }

  predicate AllWorldProof(h: Host, required: seq<string>, ns: seq<Node>) {
    forall i :: 0 <= i < |ns| && ns[i].Some? ==> WorldProof(h, required, ns[i].value)
  }

  lemma {:induction false} SameScan(h: Host, required: seq<string>, ns: seq<Node>, ms: seq<Node>)
    requires SameListInWorld(ns, ms) && AllWorldProof(h, required, ns)
    ensures Scan(h, required, ns) == Scan(h, required, ms)
  {
    hide Examine, SameUpToWorld, WorldProof;
    if ns != [] {
      var k := |ns| - 1;
      SameScan(h, required, ns[..k], ms[..k]);
      assert SameInWorld(ns[k], ms[k]);
      var f := Scan(h, required, ns[..k]);
      if f.Ok? && ns[k] != ms[k] { SameExamine(h, required, f.value, k, ns[k].value, ms[k].value); }
    }
  }

  /** World independence: reordering dependencies and adding, removing or changing excluded
      entries at any depth of the parameters changes nothing about the outcome. */
  lemma {:induction false} AcceptanceIgnoresWorld(h: Host, ns: seq<Node>, ms: seq<Node>, provided: int, required: seq<string>)
    requires SameListInWorld(ns, ms) && AllWorldProof(h, required, ns)
    ensures Validate(h, ns, provided, required) == Validate(h, ms, provided, required)
    ensures Enforce(h, ns, provided, required) == Enforce(h, ms, provided, required)
  {
    hide Scan, SameListInWorld, AllWorldProof;
    SameScan(h, required, ns, ms);
  }

  /** With the standard requirements only tag queries that read a mapping are affected. */
  lemma {:induction false} StandardAcceptance(h: Host, ns: seq<Node>, ms: seq<Node>, provided: int)
    requires SameListInWorld(ns, ms)
    requires forall i :: 0 <= i < |ns| && ns[i].Some? && IsQuery(h, ns[i].value) ==> ReadsNoMapping(ns[i].value)
    ensures Enforce(h, ns, provided, REQUIRED) == Enforce(h, ms, provided, REQUIRED)
  {
    hide SameListInWorld, Enforce, ReadsNoMapping, IsQuery, TruthSettled;
    assert "params" !in REQUIRED && "config" !in REQUIRED;
    AcceptanceIgnoresWorld(h, ns, ms, provided, REQUIRED);
  }
}

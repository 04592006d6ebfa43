/** Flattening of a JSON schema into paths and type names, and the compatibility
    report computed from two flattened schemas. */
module SchemaFlatten {
  import opened Wrappers
  import opened Ordering
  import opened Text

  /** A parsed JSON document; the elements of a list and the value of a scalar do
      not matter, only the type name of the scalar does. */
  datatype Json = JObject(fields: seq<(string, Json)>) | JList | JScalar(typeName: string)

  type Flat = map<string, string>

  function PathOf(prefix: string, key: string): string {
    if prefix == "" then key else prefix + "." + key
  }

  function FlattenDict(fields: seq<(string, Json)>, prefix: string): Flat
    decreases fields
  {
    if fields == [] then map[]
    else
      FlattenDict(fields[..|fields| - 1], prefix) + FlattenField(fields[|fields| - 1], prefix)
  }

  function FlattenField(field: (string, Json), prefix: string): Flat
    decreases field
  {
    FlattenEntry(field.1, PathOf(prefix, field.0))
  }

  function FlattenEntry(inner: Json, path: string): Flat
    decreases inner
  {
    match inner
    case JObject(fs) => if fs != [] then FlattenDict(fs, path) else map[path := "object"]
    case JList => map[path := "list"]
    case JScalar(t) => map[path := t]
  }

  /** `None` stands for text that is not JSON. */
  function FlattenParsed(parsed: Option<Json>): Flat {
    match parsed
    case None => map["<raw>" := "text"]
    case Some(JObject(fs)) => FlattenDict(fs, "")
    case Some(JList) => map["<root>" := "list"]
    case Some(JScalar(t)) => map["<root>" := t]
  }

  // ----- what flattening means: the typed leaves of the document -----

  function LeafType(v: Json): Option<string> {
    match v
    case JObject(fs) => if fs == [] then Some("object") else None
    case JList => Some("list")
    case JScalar(t) => Some(t)
  }

  /** Following `keys` from the object with these fields ends at a leaf of type `t`. */
  ghost predicate LeafAt(fields: seq<(string, Json)>, keys: seq<string>, t: string)
    decreases |keys|
  {
    keys != [] && exists i :: 0 <= i < |fields| && LeafVia(fields[i], keys, t)
  }

  ghost predicate LeafVia(field: (string, Json), keys: seq<string>, t: string)
    requires keys != []
    decreases |keys|, 0
  {
    field.0 == keys[0] &&
    if |keys| == 1 then LeafType(field.1) == Some(t)
    else field.1.JObject? && LeafAt(field.1.fields, keys[1..], t)
  }

  /** A document that is no object flattens to one path, which tells text that is not JSON from
      JSON, and two such documents flatten alike exactly when their types agree. */
  lemma {:induction false} WholeDocument(p: Option<Json>, q: Option<Json>)
    requires (p.Some? ==> !p.value.JObject?) && (q.Some? ==> !q.value.JObject?)
    ensures FlattenParsed(p).Keys == {if p.None? then "<raw>" else "<root>"}
    ensures FlattenParsed(p) == FlattenParsed(q) <==>
            (p.None? <==> q.None?) && (p.Some? && q.Some? ==> LeafType(p.value) == LeafType(q.value))
  {
    var m, n := FlattenParsed(p), FlattenParsed(q);
    assert "<raw>"[1] != "<root>"[1] || "<raw>"[2] != "<root>"[2];
    assert m == n ==> m.Keys == n.Keys;
    assert p.Some? && q.Some? && m == n ==> m["<root>"] == n["<root>"];
  }

  /** Keys are non-empty, distinct and free of dots at every level. */
  predicate Tidy(fields: seq<(string, Json)>)
    decreases fields
  {
    && (forall i :: 0 <= i < |fields| ==> fields[i].0 != "" && '.' !in fields[i].0)
    && (forall i, j :: 0 <= i < j < |fields| ==> fields[i].0 != fields[j].0)
    && (forall i :: 0 <= i < |fields| ==> TidyField(fields[i]))
  }

  predicate TidyField(field: (string, Json))
    decreases field
  {
    TidyValue(field.1)
  }

  predicate TidyValue(v: Json)
    decreases v
  {
    v.JObject? ==> Tidy(v.fields)
  }

  /** The path of a leaf: the prefix extended by one key after the other. */
  function JoinPath(prefix: string, keys: seq<string>): string
    decreases |keys|
  {
    if keys == [] then prefix else JoinPath(PathOf(prefix, keys[0]), keys[1..])
  }

  ghost predicate LeafPath(fields: seq<(string, Json)>, prefix: string, path: string, t: string) {
    exists keys :: LeafAt(fields, keys, t) && path == JoinPath(prefix, keys)
  }

  ghost predicate Holds(m: Flat, path: string, t: string) {
    path in m && m[path] == t
  }

  ghost predicate EntryPath(field: (string, Json), prefix: string, path: string, t: string) {
    exists keys :: keys != [] && LeafVia(field, keys, t) && path == JoinPath(prefix, keys)
  }

  lemma {:induction false} LeafPathSnoc(fields: seq<(string, Json)>, prefix: string, path: string, t: string)
    requires fields != []
    ensures LeafPath(fields, prefix, path, t) <==>
            LeafPath(fields[..|fields| - 1], prefix, path, t) || EntryPath(fields[|fields| - 1], prefix, path, t)
  {
    var n := |fields| - 1;
    var init, last := fields[..n], fields[n];
    forall keys | keys != [] ensures LeafAt(fields, keys, t) <==> LeafAt(init, keys, t) || LeafVia(last, keys, t) {
      if i :| 0 <= i < |fields| && LeafVia(fields[i], keys, t) {
        if i < n { assert LeafVia(init[i], keys, t); }
      }
      if i :| 0 <= i < n && LeafVia(init[i], keys, t) {
        assert LeafVia(fields[i], keys, t);
      }
    }
    if LeafPath(fields, prefix, path, t) {
      var keys :| LeafAt(fields, keys, t) && path == JoinPath(prefix, keys);
    }
  }

  /** Every flattened path comes from a leaf with its type, and no leaf's path is missing. */
  lemma {:induction false} FlattenLeaves(fields: seq<(string, Json)>, prefix: string, path: string, t: string)
    ensures Holds(FlattenDict(fields, prefix), path, t) ==> LeafPath(fields, prefix, path, t)
    ensures LeafPath(fields, prefix, path, t) ==> path in FlattenDict(fields, prefix)
    decreases fields
  {
    hide LeafPath, EntryPath, FlattenField;
    if fields == [] {
      NoLeafPaths(prefix, path, t);
    } else {
      var n := |fields| - 1;
      FlattenLeaves(fields[..n], prefix, path, t);
      EntryLeaves(fields[n], prefix, path, t);
      LeafPathSnoc(fields, prefix, path, t);
    }
  }

  lemma {:induction false} EntryLeaves(field: (string, Json), prefix: string, path: string, t: string)
    ensures Holds(FlattenField(field, prefix), path, t) ==> EntryPath(field, prefix, path, t)
    ensures EntryPath(field, prefix, path, t) ==> path in FlattenField(field, prefix)
    decreases field
  {
    if field.1.JObject? && field.1.fields != [] {
      ObjectLeaves(field.1, PathOf(prefix, field.0), path, t);
      NestedPaths(field, prefix, path, t);
    } else {
      SingleKey(field, prefix, path, t);
      assert FlattenField(field, prefix) == map[PathOf(prefix, field.0) := LeafType(field.1).value];
      hide EntryPath;
    }
  }

  lemma {:induction false} ObjectLeaves(v: Json, here: string, path: string, t: string)
    requires v.JObject? && v.fields != []
    ensures Holds(FlattenEntry(v, here), path, t) ==> LeafPath(v.fields, here, path, t)
    ensures LeafPath(v.fields, here, path, t) ==> path in FlattenEntry(v, here)
    decreases v
  {
    FlattenLeaves(v.fields, here, path, t);
  }

  lemma {:induction false} NoLeafPaths(prefix: string, path: string, t: string)
    ensures !LeafPath([], prefix, path, t)
  {
  }

  lemma {:induction false} SingleKey(field: (string, Json), prefix: string, path: string, t: string)
    requires !(field.1.JObject? && field.1.fields != [])
    ensures EntryPath(field, prefix, path, t) <==> LeafType(field.1) == Some(t) && path == PathOf(prefix, field.0)
  {
    assert JoinPath(prefix, [field.0]) == JoinPath(PathOf(prefix, field.0), []);
    assert LeafVia(field, [field.0], t) <==> LeafType(field.1) == Some(t);
    forall keys | keys != [] ensures LeafVia(field, keys, t) ==> keys == [field.0] {
      NoLeaf(keys[1..], t);
    }
  }

  lemma {:induction false} NoLeaf(keys: seq<string>, t: string)
    ensures !LeafAt([], keys, t)
  {
  }

  lemma {:induction false} NestedVia(field: (string, Json), keys: seq<string>, t: string)
    requires keys != [] && field.1.JObject? && field.1.fields != []
    ensures LeafVia(field, keys, t) <==> keys[0] == field.0 && |keys| > 1 && LeafAt(field.1.fields, keys[1..], t)
  {
    hide LeafAt;
  }

  lemma {:induction false} JoinPathStep(prefix: string, keys: seq<string>)
    requires keys != []
    ensures JoinPath(prefix, keys) == JoinPath(PathOf(prefix, keys[0]), keys[1..])
  {
  }

  lemma {:induction false} NestedPaths(field: (string, Json), prefix: string, path: string, t: string)
    requires field.1.JObject? && field.1.fields != []
    ensures EntryPath(field, prefix, path, t) <==> LeafPath(field.1.fields, PathOf(prefix, field.0), path, t)
  {
    hide LeafVia, LeafAt, JoinPath, PathOf;
    var fs, here := field.1.fields, PathOf(prefix, field.0);
    if EntryPath(field, prefix, path, t) {
      var keys :| keys != [] && LeafVia(field, keys, t) && path == JoinPath(prefix, keys);
      NestedVia(field, keys, t);
      JoinPathStep(prefix, keys);
      assert LeafAt(fs, keys[1..], t);
    }
    if LeafPath(fs, here, path, t) {
      var rest :| LeafAt(fs, rest, t) && path == JoinPath(here, rest);
      LeafNonempty(fs, rest, t);
      var keys := [field.0] + rest;
      assert keys[1..] == rest;
      NestedVia(field, keys, t);
      JoinPathStep(prefix, keys);
      assert LeafVia(field, keys, t);
    }
  }

  lemma {:induction false} LeafNonempty(fields: seq<(string, Json)>, keys: seq<string>, t: string)
    requires LeafAt(fields, keys, t)
    ensures keys != []
  {
  }

  /** All leaves with this path have one type. */
  ghost predicate Unambiguous(fields: seq<(string, Json)>, prefix: string, path: string) {
    forall t, u :: LeafPath(fields, prefix, path, t) && LeafPath(fields, prefix, path, u) ==> t == u
  }

  /** A flattened path stands for exactly the leaves that have it precisely when these leaves
      are of one type; otherwise the last of them wins. */
  lemma {:induction false} FlattenIsLeaves(fields: seq<(string, Json)>, prefix: string, path: string)
    ensures (forall t :: Holds(FlattenDict(fields, prefix), path, t) <==> LeafPath(fields, prefix, path, t))
            <==> Unambiguous(fields, prefix, path)
  {
    hide LeafPath, FlattenDict;
    var m := FlattenDict(fields, prefix);
    forall t
      ensures (Holds(m, path, t) ==> LeafPath(fields, prefix, path, t)) && (LeafPath(fields, prefix, path, t) ==> path in m)
    {
      FlattenLeaves(fields, prefix, path, t);
    }
    if Unambiguous(fields, prefix, path) {
      forall t | LeafPath(fields, prefix, path, t) ensures Holds(m, path, t) {
        assert Holds(m, path, m[path]);
      }
    }
  }

  // ----- tidy keys -----

  ghost predicate TidyKeys(keys: seq<string>) {
    forall i :: 0 <= i < |keys| ==> keys[i] != "" && '.' !in keys[i]
  }

  lemma {:induction false} LeafKeysTidy(fields: seq<(string, Json)>, keys: seq<string>, t: string)
    requires Tidy(fields) && LeafAt(fields, keys, t)
    ensures TidyKeys(keys)
    decreases |keys|
  {
    var i :| 0 <= i < |fields| && LeafVia(fields[i], keys, t);
    assert fields[i].0 == keys[0];
    assert TidyField(fields[i]) && TidyValue(fields[i].1);
    if |keys| > 1 {
      LeafKeysTidy(fields[i].1.fields, keys[1..], t);
      assert forall k :: 0 < k < |keys| ==> keys[k] == keys[1..][k - 1];
    }
  }

  function AfterFirst(keys: seq<string>): string {
    if |keys| <= 1 then "" else "." + Join(".", keys[1..])
  }

  /** Joining non-empty keys one by one is joining them with dots. */
  lemma {:induction false} JoinPathIsJoin(prefix: string, keys: seq<string>)
    requires keys != [] && TidyKeys(keys)
    ensures JoinPath(prefix, keys) == if prefix == "" then Join(".", keys) else prefix + "." + Join(".", keys)
    decreases |keys|
  {
    if |keys| == 1 {
      assert JoinPath(PathOf(prefix, keys[0]), keys[1..]) == PathOf(prefix, keys[0]);
    } else {
      assert forall i :: 0 <= i < |keys| - 1 ==> keys[1..][i] == keys[i + 1];
      JoinPathIsJoin(PathOf(prefix, keys[0]), keys[1..]);
      var rest, k, d := Join(".", keys[1..]), keys[0], ".";
      assert prefix + d + (k + d + rest) == prefix + d + k + d + rest;
    }
  }

  /** A dotted path determines the keys it was made of. */
  lemma {:induction false} PathUnique(ks: seq<string>, ls: seq<string>)
    requires ks != [] && ls != [] && TidyKeys(ks) && TidyKeys(ls) && Join(".", ks) == Join(".", ls)
    ensures ks == ls
  {
    var s, t := AfterFirst(ks), AfterFirst(ls);
    assert Join(".", ks) == ks[0] + s && Join(".", ls) == ls[0] + t;
    CutUnique(c => c == '.', ks[0], s, ls[0], t);
    if |ks| > 1 {
      hide Join;
      assert s[1..] == Join(".", ks[1..]) && t[1..] == Join(".", ls[1..]);
      assert forall i :: 0 <= i < |ks| - 1 ==> ks[1..][i] == ks[i + 1];
      assert forall i :: 0 <= i < |ls| - 1 ==> ls[1..][i] == ls[i + 1];
      PathUnique(ks[1..], ls[1..]);
    }
    assert ks == [ks[0]] + ks[1..] && ls == [ls[0]] + ls[1..];
  }

  lemma {:induction false} LeafTypeUnique(fields: seq<(string, Json)>, keys: seq<string>, t: string, u: string)
    requires Tidy(fields) && LeafAt(fields, keys, t) && LeafAt(fields, keys, u)
    ensures t == u
    decreases |keys|
  {
    var i :| 0 <= i < |fields| && LeafVia(fields[i], keys, t);
    var j :| 0 <= j < |fields| && LeafVia(fields[j], keys, u);
    assert fields[i].0 == fields[j].0;
    assert i == j;
    assert TidyField(fields[i]) && TidyValue(fields[i].1);
    if |keys| > 1 { LeafTypeUnique(fields[i].1.fields, keys[1..], t, u); }
  }

  /** The keys of a leaf of a tidy object can be told from its path. */
  lemma {:induction false} TidyPathUnique(fs: seq<(string, Json)>, ks: seq<string>, t: string, gs: seq<(string, Json)>, ls: seq<string>, u: string)
    requires Tidy(fs) && Tidy(gs) && LeafAt(fs, ks, t) && LeafAt(gs, ls, u) && JoinPath("", ks) == JoinPath("", ls)
    ensures ks == ls
  {
    LeafKeysTidy(fs, ks, t);
    LeafKeysTidy(gs, ls, u);
    LeafNonempty(fs, ks, t);
    LeafNonempty(gs, ls, u);
    JoinPathIsJoin("", ks);
    JoinPathIsJoin("", ls);
    PathUnique(ks, ls);
  }

  /** Objects with non-empty, distinct and dot-free keys have no ambiguous paths. */
  lemma {:induction false} TidyUnambiguous(fields: seq<(string, Json)>, path: string)
    requires Tidy(fields)
    ensures Unambiguous(fields, "", path)
  {
    hide Tidy, LeafAt, JoinPath;
    forall t, u | LeafPath(fields, "", path, t) && LeafPath(fields, "", path, u) ensures t == u {
      var ks :| LeafAt(fields, ks, t) && path == JoinPath("", ks);
      var ls :| LeafAt(fields, ls, u) && path == JoinPath("", ls);
      TidyPathUnique(fields, ks, t, fields, ls, u);
      LeafTypeUnique(fields, ks, t, u);
    }
  }

  // ----- the compatibility report -----

  ghost predicate SubMap(a: Flat, b: Flat) {
    forall p :: p in a ==> p in b && b[p] == a[p]
  }

  function Missing(a: Flat, b: Flat): seq<string> {
    SortedSet(a.Keys - b.Keys)
  }

  function Changed(a: Flat, b: Flat): seq<string> {
    SortedSet(set p | p in a && p in b && a[p] != b[p])
  }

  function BreakingChanges(a: Flat, b: Flat): seq<string> {
    Missing(a, b) + Changed(a, b)
  }

  /** A new schema is compatible exactly when it keeps every path with its type. */
  lemma {:induction false} CompatibleIff(a: Flat, b: Flat)
    ensures BreakingChanges(a, b) == [] <==> SubMap(a, b)
    ensures forall p :: p in BreakingChanges(a, b) <==> p in a && (p !in b || b[p] != a[p])
  {
    var lost := a.Keys - b.Keys;
    var changed := set p | p in a && p in b && a[p] != b[p];
    forall p ensures p in BreakingChanges(a, b) <==> p in a && (p !in b || b[p] != a[p]) {
      assert p in Missing(a, b) <==> p in lost;
      assert p in Changed(a, b) <==> p in changed;
    }
    if BreakingChanges(a, b) != [] {
      assert BreakingChanges(a, b)[0] in BreakingChanges(a, b);
    }
  }

}

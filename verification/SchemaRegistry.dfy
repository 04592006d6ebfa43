/** The in-memory schema registry: registration in strict and canary mode. */
module SchemaRegistry {
  import opened Wrappers
  import opened Ordering
  import opened SchemaFlatten

  datatype Mode = Canary | Strict

  datatype Schema = Schema(subject: string, id: int, text: string, version: int)

  datatype Report = Report(
    subject: string, mode: Mode, compatible: bool, previousVersion: Option<int>,
    breaking: seq<string>, added: seq<string>, schemaId: Option<int>, registeredVersion: Option<int>)

  type Parser = string -> Option<Json>

  function Flatten(parse: Parser, text: string): Flat {
    FlattenParsed(parse(text))
  }

  // ----- the registry as a value -----

  datatype Registry = Registry(bySubject: map<string, seq<Schema>>, nextId: int, reports: map<string, Report>)

  const EMPTY := Registry(map[], 1, map[])

  function Versions(r: Registry, subject: string): seq<Schema> {
    if subject in r.bySubject then r.bySubject[subject] else []
  }

  function Latest(r: Registry, subject: string): Option<Schema> {
    var vs := Versions(r, subject);
    if vs == [] then None else Some(vs[|vs| - 1])
  }

  function Validate(parse: Parser, subject: string, text: string, previous: Option<Schema>, mode: Mode): Report {
    match previous
    case None => Report(subject, mode, true, None, [], [], None, None)
    case Some(p) =>
      var a, b := Flatten(parse, p.text), Flatten(parse, text);
      Report(subject, mode, BreakingChanges(a, b) == [], Some(p.version), BreakingChanges(a, b), Missing(b, a), None, None)
  }

  /** Refused only in strict mode, and only for an incompatible schema. */
  predicate Accepts(parse: Parser, r: Registry, subject: string, text: string, mode: Mode) {
    Validate(parse, subject, text, Latest(r, subject), mode).compatible || mode == Canary
  }

  function Register(parse: Parser, r: Registry, subject: string, text: string, mode: Mode): Registry {
    var report := Validate(parse, subject, text, Latest(r, subject), mode);
    if !Accepts(parse, r, subject, text, mode) then r.(reports := r.reports[subject := report])
    else
      var s := Schema(subject, r.nextId, text, |Versions(r, subject)| + 1);
      Registry(r.bySubject[subject := Versions(r, subject) + [s]], r.nextId + 1,
               r.reports[subject := report.(schemaId := Some(s.id), registeredVersion := Some(s.version))])
  }

  // ----- every history of registrations -----

  datatype Request = Request(subject: string, text: string, mode: Mode)

  function Run(parse: Parser, h: seq<Request>): Registry {
    if h == [] then EMPTY
    else
      var q := h[|h| - 1];
      Register(parse, Run(parse, h[..|h| - 1]), q.subject, q.text, q.mode)
  }

  /** The modes under which the stored versions of a subject were accepted, in order. */
  function Modes(parse: Parser, h: seq<Request>, subject: string): seq<Mode> {
    if h == [] then []
    else
      var g, q := h[..|h| - 1], h[|h| - 1];
      Modes(parse, g, subject) +
      if q.subject == subject && Accepts(parse, Run(parse, g), q.subject, q.text, q.mode) then [q.mode] else []
  }

  /** Versions count 1, 2, 3, ...; ids are below the counter and differ everywhere. */
  ghost predicate Numbered(r: Registry) {
    && r.nextId >= 1
    && (forall s, i :: Stored(r, s, i) ==>
          var v := r.bySubject[s][i]; v.subject == s && v.version == i + 1 && 1 <= v.id < r.nextId)
    && (forall s, t, i, j :: Stored(r, s, i) && Stored(r, t, j) && (s != t || i != j) ==>
          r.bySubject[s][i].id != r.bySubject[t][j].id)
  }

  ghost predicate Stored(r: Registry, s: string, i: int) {
    s in r.bySubject && 0 <= i < |r.bySubject[s]|
  }

  lemma {:induction false} RegisterNumbered(parse: Parser, r: Registry, subject: string, text: string, mode: Mode)
    requires Numbered(r)
    ensures Numbered(Register(parse, r, subject, text, mode))
  {
    hide Validate, Numbered;
    var r' := Register(parse, r, subject, text, mode);
    if Accepts(parse, r, subject, text, mode) {
      AppendNumbered(r, r', subject, Schema(subject, r.nextId, text, |Versions(r, subject)| + 1));
    } else {
      SameNumbered(r, r');
    }
  }

  lemma {:induction false} SameNumbered(r: Registry, r': Registry)
    requires Numbered(r) && r'.bySubject == r.bySubject && r'.nextId == r.nextId
    ensures Numbered(r')
  {
    forall s, i ensures Stored(r', s, i) <==> Stored(r, s, i) {
    }
  }

  lemma {:induction false} AppendNumbered(r: Registry, r': Registry, subject: string, v: Schema)
    requires Numbered(r) && r'.nextId == r.nextId + 1
    requires v.subject == subject && v.id == r.nextId && v.version == |Versions(r, subject)| + 1
    requires r'.bySubject == r.bySubject[subject := Versions(r, subject) + [v]]
    ensures Numbered(r')
  {
    var n := |Versions(r, subject)|;
    forall s, i | Stored(r', s, i) ensures
        if s == subject && i == n then r'.bySubject[s][i] == v
        else Stored(r, s, i) && r'.bySubject[s][i] == r.bySubject[s][i]
    {
    }
    forall s, i | Stored(r', s, i)
      ensures var w := r'.bySubject[s][i]; w.subject == s && w.version == i + 1 && 1 <= w.id < r'.nextId
    {
      if !(s == subject && i == n) { assert Stored(r, s, i); }
    }
    forall s, t, i, j | Stored(r', s, i) && Stored(r', t, j) && (s != t || i != j)
      ensures r'.bySubject[s][i].id != r'.bySubject[t][j].id
    {
      if !(s == subject && i == n) { assert Stored(r, s, i); }
      if !(t == subject && j == n) { assert Stored(r, t, j); }
    }
  }

  lemma {:induction false} AlwaysNumbered(parse: Parser, h: seq<Request>)
    ensures Numbered(Run(parse, h))
  {
    hide Register;
    if h != [] {
      AlwaysNumbered(parse, h[..|h| - 1]);
      var q := h[|h| - 1];
      RegisterNumbered(parse, Run(parse, h[..|h| - 1]), q.subject, q.text, q.mode);
    }
  }

  /** A refused registration stores nothing and uses up no id; an accepted one
      appends one version to its subject and leaves the others alone. */
  lemma {:induction false} RegisterEffect(parse: Parser, r: Registry, subject: string, text: string, mode: Mode)
    ensures var r' := Register(parse, r, subject, text, mode);
            if Accepts(parse, r, subject, text, mode) then
              && r'.nextId == r.nextId + 1
              && Versions(r', subject) == Versions(r, subject) + [Schema(subject, r.nextId, text, |Versions(r, subject)| + 1)]
              && forall s :: s != subject ==> Versions(r', s) == Versions(r, s)
            else
              r'.nextId == r.nextId && r'.bySubject == r.bySubject
    ensures Accepts(parse, r, subject, text, mode) <==>
            mode == Canary || Latest(r, subject).None? ||
            SubMap(Flatten(parse, Latest(r, subject).value.text), Flatten(parse, text))
  {
    hide Flatten, BreakingChanges, SubMap;
    if Latest(r, subject).Some? {
      CompatibleIff(Flatten(parse, Latest(r, subject).value.text), Flatten(parse, text));
    }
  }

  // ----- strict registrations only ever add fields -----

  /** The report kept for a subject names exactly the paths lost or retyped and exactly the
      new ones, and carries the new schema's numbers exactly when one was stored. */
  lemma {:induction false} ReportKept(parse: Parser, r: Registry, subject: string, text: string, mode: Mode)
    ensures var r' := Register(parse, r, subject, text, mode);
            && subject in r'.reports && (forall s :: s != subject ==> (s in r'.reports <==> s in r.reports))
            && (forall s :: s != subject && s in r.reports ==> r'.reports[s] == r.reports[s])
            && var p := r'.reports[subject];
            && p.mode == mode && (p.compatible <==> p.breaking == [])
            && (p.registeredVersion.Some? <==> Accepts(parse, r, subject, text, mode))
            && (p.registeredVersion.Some? ==>
                  Latest(r', subject) == Some(Schema(subject, r.nextId, text, p.registeredVersion.value)) && p.schemaId == Some(r.nextId))
            && (Latest(r, subject).Some? ==>
                  var a, b := Flatten(parse, Latest(r, subject).value.text), Flatten(parse, text);
                  && p.previousVersion == Some(Latest(r, subject).value.version)
                  && (forall k :: k in p.breaking <==> k in a && (k !in b || b[k] != a[k]))
                  && (forall k :: k in p.added <==> k in b && k !in a))
  {
    hide SortedSet, Flatten;
    if Latest(r, subject).Some? {
      CompatibleIff(Flatten(parse, Latest(r, subject).value.text), Flatten(parse, text));
    }
  }

  ghost predicate FlatGrows(parse: Parser, vs: seq<Schema>, ms: seq<Mode>) {
    && |ms| == |vs|
    && forall j :: 0 < j < |vs| && ms[j] == Strict ==>
         SubMap(Flatten(parse, vs[j - 1].text), Flatten(parse, vs[j].text))
  }

  lemma {:induction false} StrictStepGrows(parse: Parser, h: seq<Request>, subject: string)
    ensures FlatGrows(parse, Versions(Run(parse, h), subject), Modes(parse, h, subject))
  {
    hide Flatten, Register, Accepts;
    if h != [] {
      var g, q := h[..|h| - 1], h[|h| - 1];
      StrictStepGrows(parse, g, subject);
      var r := Run(parse, g);
      RegisterEffect(parse, r, q.subject, q.text, q.mode);
    }
  }

  /** Every version after `i` up to `j` was registered strictly. */
  ghost predicate StrictBetween(ms: seq<Mode>, i: nat, j: nat) {
    i <= j < |ms| && forall k :: i < k <= j ==> ms[k] == Strict
  }

  lemma {:induction false} GrowsThrough(parse: Parser, vs: seq<Schema>, ms: seq<Mode>, i: nat, j: nat)
    requires FlatGrows(parse, vs, ms) && StrictBetween(ms, i, j)
    ensures SubMap(Flatten(parse, vs[i].text), Flatten(parse, vs[j].text))
    decreases j
  {
    hide Flatten;
    if i < j {
      GrowsThrough(parse, vs, ms, i, j - 1);
    }
  }

  /** If all versions after `i` up to `j` were registered strictly, every path of
      version `i` is in version `j` with the same type. */
  lemma {:induction false} StrictVersionsKeepPaths(parse: Parser, h: seq<Request>, subject: string, i: nat, j: nat)
    ensures var vs, ms := Versions(Run(parse, h), subject), Modes(parse, h, subject);
            && |ms| == |vs|
            && (StrictBetween(ms, i, j) ==> SubMap(Flatten(parse, vs[i].text), Flatten(parse, vs[j].text)))
  {
    hide Flatten, Run, Modes, Versions, StrictBetween;
    var vs, ms := Versions(Run(parse, h), subject), Modes(parse, h, subject);
    StrictStepGrows(parse, h, subject);
    if StrictBetween(ms, i, j) { GrowsThrough(parse, vs, ms, i, j); }
  }

  predicate IsObject(parse: Parser, text: string) {
    parse(text).Some? && parse(text).value.JObject?
  }

  /** The document is an object with a leaf of type `t` under this path. */
  ghost predicate DocumentLeaf(parse: Parser, text: string, path: string, t: string) {
    IsObject(parse, text) && LeafPath(parse(text).value.fields, "", path, t)
  }

  /** No two leaves of different types share the path. */
  ghost predicate OneType(parse: Parser, text: string, path: string) {
    IsObject(parse, text) && Unambiguous(parse(text).value.fields, "", path)
  }

  lemma {:induction false} LeafKept(parse: Parser, earlier: string, later: string, path: string, t: string)
    requires SubMap(Flatten(parse, earlier), Flatten(parse, later)) && IsObject(parse, later)
    requires DocumentLeaf(parse, earlier, path, t) && OneType(parse, earlier, path)
    ensures DocumentLeaf(parse, later, path, t)
  {
    hide FlattenDict, LeafPath, Unambiguous;
    FlattenIsLeaves(parse(earlier).value.fields, "", path);
    FlattenLeaves(parse(later).value.fields, "", path, t);
  }

  /** In terms of the documents: strict evolution keeps every leaf whose path stands for one
      type, under its path and with its type. */
  lemma {:induction false} StrictVersionsKeepLeaves(parse: Parser, h: seq<Request>, subject: string, i: nat, j: nat,
                                                    path: string, t: string)
    ensures var vs, ms := Versions(Run(parse, h), subject), Modes(parse, h, subject);
            && |ms| == |vs|
            && ((&& StrictBetween(ms, i, j) && DocumentLeaf(parse, vs[i].text, path, t)
                 && OneType(parse, vs[i].text, path) && IsObject(parse, vs[j].text)) ==>
                  DocumentLeaf(parse, vs[j].text, path, t))
  {
    hide Flatten, Run, Modes, Versions, DocumentLeaf, OneType, IsObject;
    StrictVersionsKeepPaths(parse, h, subject, i, j);
    var vs, ms := Versions(Run(parse, h), subject), Modes(parse, h, subject);
    if StrictBetween(ms, i, j) && DocumentLeaf(parse, vs[i].text, path, t) && OneType(parse, vs[i].text, path) &&
       IsObject(parse, vs[j].text) {
      LeafKept(parse, vs[i].text, vs[j].text, path, t);
    }
  }

  predicate TidyDocument(parse: Parser, text: string) {
    IsObject(parse, text) && Tidy(parse(text).value.fields)
  }

  /** Following `keys` in the document ends at a leaf of type `t`. */
  ghost predicate KeyLeaf(parse: Parser, text: string, keys: seq<string>, t: string) {
    IsObject(parse, text) && LeafAt(parse(text).value.fields, keys, t)
  }

  /** Between tidy documents every leaf also keeps its keys. */
  lemma {:induction false} TidyLeafKept(parse: Parser, earlier: string, later: string, keys: seq<string>, t: string)
    requires SubMap(Flatten(parse, earlier), Flatten(parse, later)) && TidyDocument(parse, earlier) && TidyDocument(parse, later)
    requires KeyLeaf(parse, earlier, keys, t)
    ensures KeyLeaf(parse, later, keys, t)
  {
    hide Flatten, Tidy, LeafAt, JoinPath, Unambiguous;
    var fs, gs := parse(earlier).value.fields, parse(later).value.fields;
    var path := JoinPath("", keys);
    TidyUnambiguous(fs, path);
    LeafKept(parse, earlier, later, path, t);
    var found :| LeafAt(gs, found, t) && path == JoinPath("", found);
    TidyPathUnique(fs, keys, t, gs, found, t);
  }

  // ----- the object -----

  datatype Outcome = Registered(schema: Schema) | Rejected

  class SchemaRegistryClient {
    const parse: Parser
    var bySubject: map<string, seq<Schema>>
    var nextId: int
    var mode: Mode
    var lastReports: map<string, Report>

    ghost function St(): Registry
      reads this
    {
      Registry(bySubject, nextId, lastReports)
    }

    constructor (parse: Parser, mode: Mode)
      ensures this.parse == parse && this.mode == mode && St() == EMPTY
    {
      this.parse, this.mode := parse, mode;
      bySubject, nextId, lastReports := map[], 1, map[];
    }

    method LatestVersion(subject: string) returns (r: Option<Schema>)
      ensures r == Latest(St(), subject)
    {
      if subject in bySubject && bySubject[subject] != [] {
        return Some(bySubject[subject][|bySubject[subject]| - 1]);
      }
      return None;
    }

    /** `register`; without an explicit mode the client's own is used. */
    method RegisterSchema(subject: string, text: string, requested: Option<Mode>) returns (out: Outcome)
      modifies this
      ensures mode == old(mode)
      ensures var m := if requested.Some? then requested.value else mode;
              && St() == Register(parse, old(St()), subject, text, m)
              && (out.Registered? <==> Accepts(parse, old(St()), subject, text, m))
              && (out.Registered? ==> Latest(St(), subject) == Some(out.schema) && out.schema.id == old(nextId))
    {
      hide Validate;
      var m := if requested.Some? then requested.value else mode;
      var previous := LatestVersion(subject);
      var report := Validate(parse, subject, text, previous, m);
      if !report.compatible && m == Strict {
        lastReports := lastReports[subject := report];
        return Rejected;
      }
      var versions := if subject in bySubject then bySubject[subject] else [];
      var schema := Schema(subject, nextId, text, |versions| + 1);
      nextId := nextId + 1;
      bySubject := bySubject[subject := versions + [schema]];
      lastReports := lastReports[subject := report.(schemaId := Some(schema.id), registeredVersion := Some(schema.version))];
      return Registered(schema);
    }

    method Get(subject: string, version: int) returns (r: Option<Schema>)
      ensures r == if 1 <= version <= |Versions(St(), subject)| then Some(Versions(St(), subject)[version - 1]) else None
      ensures Numbered(St()) && r.Some? ==> r.value.version == version && r.value.subject == subject
    {
      if subject !in bySubject || bySubject[subject] == [] || version <= 0 || version > |bySubject[subject]| {
        return None;
      }
      return Some(bySubject[subject][version - 1]);
    }

    /** The loop over all subjects and versions finds the schema with the id, if there is one. */
    method GetById(id: int) returns (r: Option<Schema>)
      ensures r.Some? ==> r.value.id == id && exists s, i :: s in bySubject && 0 <= i < |bySubject[s]| && bySubject[s][i] == r.value
      ensures r.None? ==> forall s, i :: s in bySubject && 0 <= i < |bySubject[s]| ==> bySubject[s][i].id != id
    {
      var left := bySubject.Keys;
      while left != {}
        invariant left <= bySubject.Keys
        invariant forall s, i :: s in bySubject && s !in left && 0 <= i < |bySubject[s]| ==> bySubject[s][i].id != id
        decreases left
      {
        var s :| s in left;
        var versions := bySubject[s];
        for k := 0 to |versions|
          invariant forall i :: 0 <= i < k ==> versions[i].id != id
        {
          if versions[k].id == id { return Some(versions[k]); }
        }
        left := left - {s};
      }
      return None;
    }
  }
}

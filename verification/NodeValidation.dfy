/** Validating the identities of submitted nodes: the validating loop, when a list is
    accepted, and why acceptance does not depend on the world a node runs in. */
module NodeValidation {
  import opened Wrappers
  import opened Ordering
  import opened Sequences
  import opened PyValue
  import opened TagQuery
  import opened NodeSpec
  import opened NodeId

  const COMPAT := "schema_compat_id"
  const REQUIRED := ["node_type", "code_hash", "config_hash", "schema_hash", COMPAT]

  datatype Missing = Missing(index: nat, fields: seq<string>, nodeId: Option<string>)
  datatype Mismatch = Mismatch(index: nat, nodeId: string, expected: string)
  datatype Conflict = Conflict(index: nat, compat: string, legacy: string, nodeId: string)

  /** The lists the validating loop fills. */
  datatype Findings = Findings(ids: seq<string>, missing: seq<Missing>, mismatches: seq<Mismatch>, conflicts: seq<Conflict>)

  datatype Report = Report(provided: int, computed: int, findings: Findings) {
    predicate ChecksumValid() { provided == computed }
    predicate IsValid() {
      findings.missing == [] && findings.conflicts == [] && ChecksumValid() && findings.mismatches == []
    }
  }

  /** Items that are not mappings are `None`. */
  type Node = Option<Payload>

  // ----- one node -----

  function RemoveFirst(s: seq<string>, x: string): seq<string> {
    if s == [] then [] else if s[0] == x then s[1..] else [s[0]] + RemoveFirst(s[1..], x)
  }

  /** What a tag query lacks. The complaint about the interval names tags as well, because
      its text contains the word "TagQuery". */
  function MissingQueryFields(h: Host, n: Payload): Result<seq<string>> {
    var split :- SplitTags(h, NodeTags(n));
    if split == [] then Ok(["tags"])
    else if TryInt(h, NodeInterval(n)).None? then Ok(["tags", "interval"])
    else
      var mode :- MatchMode(NodeMode(n));
      Ok([])
  }

  function Absent(n: Payload): string -> bool {
    f => !Truthy(Field(n, f))
  }

  function RequiredMissing(required: seq<string>, n: Payload, compat: string): seq<string> {
    var absent := Filter(Absent(n), required);
    if COMPAT in absent && compat != "" then RemoveFirst(absent, COMPAT) else absent
  }

  function MissingFields(h: Host, required: seq<string>, n: Payload, compat: string): Result<seq<string>> {
    var base := RequiredMissing(required, n, compat);
    if TextOrEmpty(h, Field(n, "node_type")) == TAG_QUERY then
      var more :- MissingQueryFields(h, n);
      Ok(base + more)
    else Ok(base)
  }

  predicate HasId(n: Payload) {
    Field(n, "node_id").Str? && Field(n, "node_id").s != ""
  }

  function NodeCompat(h: Host, n: Payload): Result<string> {
    Compat(h, Field(n, COMPAT), Field(n, "schema_id"))
  }

  /** What the loop adds for the node at `index`; `Err` when it raises. */
  function Examine(h: Host, required: seq<string>, f: Findings, index: nat, node: Node): Result<Findings> {
    if node.None? then Ok(f)
    else
      var n := node.value;
      if !HasId(n) then
        Ok(f.(ids := f.ids + [TextOrEmpty(h, Field(n, "node_id"))], missing := f.missing + [Missing(index, ["node_id"], None)]))
      else
        var id := Field(n, "node_id").s;
        var g := f.(ids := f.ids + [id]);
        if NodeCompat(h, n).Err? then
          Ok(g.(conflicts := g.conflicts + [Conflict(index, TextOrEmpty(h, Field(n, COMPAT)), TextOrEmpty(h, Field(n, "schema_id")), id)]))
        else
          var missing :- MissingFields(h, required, n, NodeCompat(h, n).value);
          if missing != [] then Ok(g.(missing := g.missing + [Missing(index, FirstOccurrences(missing), Some(id))]))
          else
            var expected :- Identify(h, n);
            Ok(if id != expected then g.(mismatches := g.mismatches + [Mismatch(index, id, expected)]) else g)
  }

  function Scan(h: Host, required: seq<string>, nodes: seq<Node>): Result<Findings> {
    if nodes == [] then Ok(Findings([], [], [], []))
    else
      var f :- Scan(h, required, nodes[..|nodes| - 1]);
      Examine(h, required, f, |nodes| - 1, nodes[|nodes| - 1])
  }

  function Validate(h: Host, nodes: seq<Node>, provided: int, required: seq<string>): Result<Report> {
    var f :- Scan(h, required, nodes);
    Ok(Report(provided, h.crc(f.ids), f))
  }

  lemma {:induction false} ScanRaises(h: Host, required: seq<string>, nodes: seq<Node>, k: nat)
    requires k <= |nodes| && Scan(h, required, nodes[..k]).Err?
    ensures Scan(h, required, nodes).Err?
    decreases |nodes| - k
  {
    if k < |nodes| {
      assert nodes[..k + 1][..k] == nodes[..k];
      ScanRaises(h, required, nodes, k + 1);
    } else {
      assert nodes[..k] == nodes;
    }
  }

  /** `validate_node_identity`: one loop appending to four lists. */
  method ValidateNodeIdentity(h: Host, nodes: seq<Node>, provided: int, required: seq<string>) returns (r: Result<Report>)
    ensures r == Validate(h, nodes, provided, required)
  {
    var ids: seq<string> := [];
    var missing: seq<Missing> := [];
    var mismatches: seq<Mismatch> := [];
    var conflicts: seq<Conflict> := [];
    for index := 0 to |nodes|
      invariant Scan(h, required, nodes[..index]) == Ok(Findings(ids, missing, mismatches, conflicts))
    {
      hide TextOrEmpty, NodeCompat, Identify, MissingFields;
      assert nodes[..index + 1][..index] == nodes[..index];
      if nodes[index].None? { continue; }
      var n := nodes[index].value;
      if !HasId(n) {
        ids := ids + [TextOrEmpty(h, Field(n, "node_id"))];
        missing := missing + [Missing(index, ["node_id"], None)];
        continue;
      }
      var id := Field(n, "node_id").s;
      ids := ids + [id];
      var compat := NodeCompat(h, n);
      if compat.Err? {
        conflicts := conflicts + [Conflict(index, TextOrEmpty(h, Field(n, COMPAT)), TextOrEmpty(h, Field(n, "schema_id")), id)];
        continue;
      }
      var missingList := MissingFields(h, required, n, compat.value);
      if missingList.Err? { ScanRaises(h, required, nodes, index + 1); return Err; }
      if missingList.value != [] {
        missing := missing + [Missing(index, FirstOccurrences(missingList.value), Some(id))];
        continue;
      }
      var expected := Identify(h, n);
      if expected.Err? { ScanRaises(h, required, nodes, index + 1); return Err; }
      if id != expected.value { mismatches := mismatches + [Mismatch(index, id, expected.value)]; }
    }
    assert nodes[..|nodes|] == nodes;
    return Ok(Report(provided, h.crc(ids), Findings(ids, missing, mismatches, conflicts)));
  }

  // ----- enforcing -----

  datatype Outcome = Accepted(report: Report) | Rejected(code: string) | Raised

  function RaiseForIssues(r: Report): Outcome {
    if r.findings.missing != [] then Rejected("E_NODE_ID_FIELDS")
    else if r.findings.conflicts != [] then Rejected("E_SCHEMA_COMPAT_MISMATCH")
    else if !r.ChecksumValid() then Rejected("E_CHECKSUM_MISMATCH")
    else if r.findings.mismatches != [] then Rejected("E_NODE_ID_MISMATCH")
    else Accepted(r)
  }

  function Enforce(h: Host, nodes: seq<Node>, provided: int, required: seq<string>): Outcome {
    match Validate(h, nodes, provided, required)
    case Err => Raised
    case Ok(r) => RaiseForIssues(r)
  }

  // ----- when a list is accepted -----

  /** Every required field is there; the compatibility id, demanded once, may come from the
      legacy field instead. */
  ghost predicate FieldsPresent(h: Host, required: seq<string>, n: Payload) {
    && (forall f :: f in required && f != COMPAT ==> Truthy(Field(n, f)))
    && (COMPAT in required && !Truthy(Field(n, COMPAT)) ==>
          multiset(required)[COMPAT] == 1 && !Field(n, "schema_id").Null? && Trimmed(h, Field(n, "schema_id")) != "")
  }

  /** A tag query names at least one tag and a number as its interval. */
  predicate QueryComplete(h: Host, n: Payload) {
    var t := NodeTagParams(h, n);
    t.Ok? && t.value.tags != [] && t.value.interval.Some?
  }

  /** The node carries its own canonical identifier and everything that went into it. */
  ghost predicate Canonical(h: Host, required: seq<string>, n: Payload) {
    && HasId(n) && Identify(h, n) == Ok(Field(n, "node_id").s) && FieldsPresent(h, required, n)
    && (TextOrEmpty(h, Field(n, "node_type")) == TAG_QUERY ==> QueryComplete(h, n))
  }

  /** The identifiers the nodes carry, in order. */
  function CarriedIds(nodes: seq<Node>): seq<string> {
    if nodes == [] then []
    else
      var last := nodes[|nodes| - 1];
      CarriedIds(nodes[..|nodes| - 1]) + if last.Some? && HasId(last.value) then [Field(last.value, "node_id").s] else []
  }

  ghost predicate AllCanonical(h: Host, required: seq<string>, nodes: seq<Node>) {
    forall i :: 0 <= i < |nodes| && nodes[i].Some? ==> Canonical(h, required, nodes[i].value)
  }

  lemma {:induction false} FilterCount(p: string -> bool, s: seq<string>, x: string)
    requires p(x)
    ensures multiset(Filter(p, s))[x] == multiset(s)[x]
  {
    if s != [] {
      FilterCount(p, s[1..], x);
      assert s == [s[0]] + s[1..];
    }
  }

  lemma {:induction false} OnlyOnce(s: seq<string>, x: string)
    ensures s == [x] <==> (forall y :: y in s ==> y == x) && multiset(s)[x] == 1
  {
    if forall y :: y in s ==> y == x { AllSame(s, x); }
    assert |s| == 1 ==> s == [s[0]] && s[0] in s;
  }

  lemma {:induction false} AllSame(s: seq<string>, x: string)
    requires forall y :: y in s ==> y == x
    ensures multiset(s)[x] == |s|
  {
    if s != [] {
      assert s == [s[0]] + s[1..] && s[0] in s;
      assert forall y :: y in s[1..] ==> y in s;
      AllSame(s[1..], x);
    }
  }

  lemma {:induction false} RemovedAll(s: seq<string>, x: string)
    requires x in s
    ensures RemoveFirst(s, x) == [] <==> s == [x]
  {
    assert s == [s[0]] + s[1..];
  }

  lemma {:induction false} EmptyFilter(p: string -> bool, s: seq<string>)
    ensures Filter(p, s) == [] <==> forall f :: f in s ==> !p(f)
  {
    forall f ensures f in Filter(p, s) <==> f in s && p(f) { FilterMembers(p, s, f); }
    assert Filter(p, s) != [] ==> Filter(p, s)[0] in Filter(p, s);
  }

  /** The compatibility id a node without its own one ends up with. */
  lemma {:induction false} LegacyCompat(h: Host, n: Payload)
    requires NodeCompat(h, n).Ok? && !Truthy(Field(n, COMPAT))
    ensures NodeCompat(h, n).value != "" <==> !Field(n, "schema_id").Null? && Trimmed(h, Field(n, "schema_id")) != ""
  {
    assert Trimmed(h, Field(n, COMPAT)) == "";
  }

  lemma {:induction false} NoneMissing(h: Host, required: seq<string>, n: Payload)
    requires NodeCompat(h, n).Ok?
    ensures RequiredMissing(required, n, NodeCompat(h, n).value) == [] <==> FieldsPresent(h, required, n)
  {
    hide NodeCompat, Trimmed, Truthy, Filter, RemoveFirst, COMPAT;
    var absent := Filter(Absent(n), required);
    EmptyFilter(Absent(n), required);
    FilterMembers(Absent(n), required, COMPAT);
    if COMPAT in absent {
      LegacyCompat(h, n);
      RemovedAll(absent, COMPAT);
      OnlyOnce(absent, COMPAT);
      FilterCount(Absent(n), required, COMPAT);
      forall f ensures f in absent <==> f in required && Absent(n)(f) { FilterMembers(Absent(n), required, f); }
    }
  }

  lemma {:induction false} QueryNothingMissing(h: Host, n: Payload)
    ensures MissingQueryFields(h, n) == Ok([]) <==> QueryComplete(h, n)
  {
    hide SplitTags, MatchMode, NodeTags, NodeMode, NodeInterval, TryInt;
    var split := SplitTags(h, NodeTags(n));
    if split.Ok? { SomeTags(split.value); }
  }

  lemma {:induction false} SomeTags(split: seq<string>)
    ensures SortedSet(set t | t in split) == [] <==> split == []
  {
    var tags := set t | t in split;
    assert split != [] ==> split[0] in tags;
    assert tags != {} ==> SortedSet(tags) != [] by {
      if tags != {} { var t :| t in tags; assert t in SortedSet(tags); }
    }
  }

  /** A tag query with tags but without a number as its interval is said to lack tags too. */
  lemma {:induction false} IntervalBlamesTags(h: Host, n: Payload)
    ensures MissingQueryFields(h, n) == Ok(["tags", "interval"]) <==>
            SplitTags(h, NodeTags(n)).Ok? && SplitTags(h, NodeTags(n)).value != [] && TryInt(h, NodeInterval(n)).None?
  {
    hide SplitTags, NodeTags, NodeInterval, TryInt, MatchMode;
    assert |["tags", "interval"]| == 2 && |["tags"]| == 1;
  }

  lemma {:induction false} NothingMissing(h: Host, required: seq<string>, n: Payload)
    requires NodeCompat(h, n).Ok?
    ensures MissingFields(h, required, n, NodeCompat(h, n).value) == Ok([]) <==>
            && FieldsPresent(h, required, n) && (TextOrEmpty(h, Field(n, "node_type")) == TAG_QUERY ==> QueryComplete(h, n))
  {
    hide RequiredMissing, FieldsPresent, MissingQueryFields, QueryComplete, TextOrEmpty, NodeCompat;
    NoneMissing(h, required, n);
    QueryNothingMissing(h, n);
    var base, more := RequiredMissing(required, n, NodeCompat(h, n).value), MissingQueryFields(h, n);
    assert more.Ok? ==> |base + more.value| == |base| + |more.value|;
  }

  predicate Faultless(f: Findings) {
    f.missing == [] && f.mismatches == [] && f.conflicts == []
  }

  lemma {:induction false} IdentifyNeedsCompat(h: Host, n: Payload)
    requires Identify(h, n).Ok?
    ensures NodeCompat(h, n).Ok?
  {
    hide Compat, MappingDeps, MappingParams, IntOrZero, Render;
  }

  lemma {:induction false} ExamineFaultless(h: Host, required: seq<string>, f: Findings, index: nat, node: Node)
    ensures var g := Examine(h, required, f, index, node);
            && (g.Ok? && Faultless(g.value) <==> Faultless(f) && (node.Some? ==> Canonical(h, required, node.value)))
            && (g.Ok? && Faultless(g.value) ==> g.value.ids == f.ids + if node.Some? && HasId(node.value) then [Field(node.value, "node_id").s] else [])
  {
    hide MissingFields, FieldsPresent, QueryComplete, Identify, NodeCompat, TextOrEmpty, FirstOccurrences, TAG_QUERY, COMPAT;
    if node.Some? {
      var n := node.value;
      if NodeCompat(h, n).Ok? { NothingMissing(h, required, n); }
      if Identify(h, n).Ok? { IdentifyNeedsCompat(h, n); }
    }
  }

  lemma {:induction false} ScanFaultless(h: Host, required: seq<string>, nodes: seq<Node>)
    ensures var g := Scan(h, required, nodes);
            && (g.Ok? && Faultless(g.value) <==> AllCanonical(h, required, nodes))
            && (g.Ok? && Faultless(g.value) ==> g.value.ids == CarriedIds(nodes))
  {
    hide Canonical, Examine, HasId, Faultless;
    if nodes == [] {
      assert Faultless(Findings([], [], [], [])) by { EmptyFaultless(); }
    } else {
      var m := |nodes| - 1;
      ScanFaultless(h, required, nodes[..m]);
      assert nodes == nodes[..m] + [nodes[m]];
      assert AllCanonical(h, required, nodes) <==>
             AllCanonical(h, required, nodes[..m]) && (nodes[m].Some? ==> Canonical(h, required, nodes[m].value));
      if Scan(h, required, nodes[..m]).Ok? {
        ExamineFaultless(h, required, Scan(h, required, nodes[..m]).value, m, nodes[m]);
      }
    }
  }

  lemma {:induction false} EmptyFaultless()
    ensures Faultless(Findings([], [], [], []))
  {
  }

  /** A list is accepted exactly when every mapping in it is canonical and the checksum is
      that of the identifiers they carry, which the report then lists. */
  lemma {:induction false} AcceptedIff(h: Host, nodes: seq<Node>, provided: int, required: seq<string>)
    ensures Enforce(h, nodes, provided, required).Accepted? <==>
            AllCanonical(h, required, nodes) && provided == h.crc(CarriedIds(nodes))
    ensures Enforce(h, nodes, provided, required).Accepted? ==>
            var r := Enforce(h, nodes, provided, required).report;
            r.IsValid() && r.findings.ids == CarriedIds(nodes) && r.computed == provided
  {
    hide AllCanonical, Scan, CarriedIds;
    ScanFaultless(h, required, nodes);
  }

  // ----- what each list of a report holds -----

  /** The node lacks its identifier or something that goes into it. */
  ghost predicate Incomplete(h: Host, required: seq<string>, n: Payload) {
    || !HasId(n)
    || (&& NodeCompat(h, n).Ok?
        && !(&& FieldsPresent(h, required, n)
             && (TextOrEmpty(h, Field(n, "node_type")) == TAG_QUERY ==> QueryComplete(h, n))))
  }

  /** Its two schema ids contradict each other. */
  predicate Contradictory(h: Host, n: Payload) {
    HasId(n) && NodeCompat(h, n).Err?
  }

  /** It is complete but carries another identifier than the canonical one. */
  ghost predicate Misidentified(h: Host, required: seq<string>, n: Payload) {
    HasId(n) && NodeCompat(h, n).Ok? && !Incomplete(h, required, n) && Identify(h, n) != Ok(Field(n, "node_id").s)
  }

  function MissingAt(ms: seq<Missing>): set<nat> { set m | m in ms :: m.index }
  function ConflictAt(cs: seq<Conflict>): set<nat> { set c | c in cs :: c.index }
  function MismatchAt(ms: seq<Mismatch>): set<nat> { set m | m in ms :: m.index }

  lemma {:induction false} AddMissing(ms: seq<Missing>, m: Missing)
    ensures MissingAt(ms + [m]) == MissingAt(ms) + {m.index}
  {
  }

  lemma {:induction false} AddConflict(cs: seq<Conflict>, c: Conflict)
    ensures ConflictAt(cs + [c]) == ConflictAt(cs) + {c.index}
  {
  }

  lemma {:induction false} AddMismatch(ms: seq<Mismatch>, m: Mismatch)
    ensures MismatchAt(ms + [m]) == MismatchAt(ms) + {m.index}
  {
  }

  lemma {:induction false} ExamineReports(h: Host, required: seq<string>, f: Findings, index: nat, n: Payload)
    requires Examine(h, required, f, index, Some(n)).Ok?
    ensures var g := Examine(h, required, f, index, Some(n)).value;
            && MissingAt(g.missing) == MissingAt(f.missing) + (if Incomplete(h, required, n) then {index} else {})
            && ConflictAt(g.conflicts) == ConflictAt(f.conflicts) + (if Contradictory(h, n) then {index} else {})
            && MismatchAt(g.mismatches) == MismatchAt(f.mismatches) + (if Misidentified(h, required, n) then {index} else {})
  {
    hide MissingFields, FieldsPresent, QueryComplete, Identify, NodeCompat, TextOrEmpty, FirstOccurrences, MissingAt, ConflictAt,
         MismatchAt, TAG_QUERY, COMPAT;
    assert MissingAt(f.missing) + {} == MissingAt(f.missing) && ConflictAt(f.conflicts) + {} == ConflictAt(f.conflicts)
           && MismatchAt(f.mismatches) + {} == MismatchAt(f.mismatches);
    if !HasId(n) {
      AddMissing(f.missing, Missing(index, ["node_id"], None));
      return;
    }
    var id, compat := Field(n, "node_id").s, NodeCompat(h, n);
    if compat.Err? {
      AddConflict(f.conflicts, Conflict(index, TextOrEmpty(h, Field(n, COMPAT)), TextOrEmpty(h, Field(n, "schema_id")), id));
      return;
    }
    NothingMissing(h, required, n);
    var missing := MissingFields(h, required, n, compat.value);
    AddMissing(f.missing, Missing(index, FirstOccurrences(missing.value), Some(id)));
    if missing.value == [] { AddMismatch(f.mismatches, Mismatch(index, id, Identify(h, n).value)); }
  }

  ghost predicate Reported(h: Host, required: seq<string>, nodes: seq<Node>, f: Findings) {
    forall i: nat ::
      && (i in MissingAt(f.missing) <==> i < |nodes| && nodes[i].Some? && Incomplete(h, required, nodes[i].value))
      && (i in ConflictAt(f.conflicts) <==> i < |nodes| && nodes[i].Some? && Contradictory(h, nodes[i].value))
      && (i in MismatchAt(f.mismatches) <==> i < |nodes| && nodes[i].Some? && Misidentified(h, required, nodes[i].value))
  }

  /** Each list of a report names exactly the nodes with that fault: the incomplete ones,
      those with contradictory schema ids, and the complete ones with a wrong identifier. */
  lemma {:induction false} ReportExact(h: Host, required: seq<string>, nodes: seq<Node>)
    requires Scan(h, required, nodes).Ok?
    ensures Reported(h, required, nodes, Scan(h, required, nodes).value)
  {
    hide Examine, Incomplete, Contradictory, Misidentified, Reported;
    if nodes == [] {
      NothingReported(h, required);
    } else {
      var k := |nodes| - 1;
      ReportExact(h, required, nodes[..k]);
      var f := Scan(h, required, nodes[..k]).value;
      if nodes[k].Some? { ExamineReports(h, required, f, k, nodes[k].value); } else { SkipNode(h, required, f, k); }
      ReportNext(h, required, nodes, f, Scan(h, required, nodes).value);
    }
  }

  lemma {:induction false} NothingReported(h: Host, required: seq<string>)
    ensures Reported(h, required, [], Findings([], [], [], []))
  {
  }

  lemma {:induction false} ReportNext(h: Host, required: seq<string>, nodes: seq<Node>, f: Findings, g: Findings)
    requires nodes != [] && Reported(h, required, nodes[..|nodes| - 1], f)
    requires var k, node := |nodes| - 1, nodes[|nodes| - 1];
             && MissingAt(g.missing) == MissingAt(f.missing) + (if node.Some? && Incomplete(h, required, node.value) then {k} else {})
             && ConflictAt(g.conflicts) == ConflictAt(f.conflicts) + (if node.Some? && Contradictory(h, node.value) then {k} else {})
             && MismatchAt(g.mismatches) == MismatchAt(f.mismatches) + (if node.Some? && Misidentified(h, required, node.value) then {k} else {})
    ensures Reported(h, required, nodes, g)
  {
    hide Incomplete, Contradictory, Misidentified, MissingAt, ConflictAt, MismatchAt;
    var k := |nodes| - 1;
    assert forall i: nat :: i < k ==> nodes[..k][i] == nodes[i];
  }

  lemma {:induction false} SkipNode(h: Host, required: seq<string>, f: Findings, index: nat)
    ensures Examine(h, required, f, index, None) == Ok(f)
  {
  }

  // ----- what the records say -----

  ghost predicate MissingRecord(h: Host, required: seq<string>, nodes: seq<Node>, m: Missing) {
    && m.index < |nodes| && nodes[m.index].Some?
    && var n := nodes[m.index].value;
       if !HasId(n) then m.fields == ["node_id"] && m.nodeId == None
       else
         && m.nodeId == Some(Field(n, "node_id").s) && NodeCompat(h, n).Ok? && Distinct(m.fields)
         && MissingFields(h, required, n, NodeCompat(h, n).value).Ok?
         && forall f :: f in m.fields <==> f in MissingFields(h, required, n, NodeCompat(h, n).value).value
  }

  ghost predicate MismatchRecord(h: Host, nodes: seq<Node>, m: Mismatch) {
    && m.index < |nodes| && nodes[m.index].Some?
    && var n := nodes[m.index].value;
       HasId(n) && m.nodeId == Field(n, "node_id").s && Identify(h, n) == Ok(m.expected) && m.nodeId != m.expected
  }

  ghost predicate ConflictRecord(h: Host, nodes: seq<Node>, c: Conflict) {
    && c.index < |nodes| && nodes[c.index].Some?
    && var n := nodes[c.index].value;
       && HasId(n) && c.nodeId == Field(n, "node_id").s && c.compat == TextOrEmpty(h, Field(n, COMPAT))
       && c.legacy == TextOrEmpty(h, Field(n, "schema_id"))
  }

  ghost predicate Truthful(h: Host, required: seq<string>, nodes: seq<Node>, f: Findings) {
    && (forall m :: m in f.missing ==> MissingRecord(h, required, nodes, m))
    && (forall m :: m in f.mismatches ==> MismatchRecord(h, nodes, m))
    && (forall c :: c in f.conflicts ==> ConflictRecord(h, nodes, c))
  }

  lemma {:induction false} TruthfulLonger(h: Host, required: seq<string>, nodes: seq<Node>, node: Node, f: Findings)
    requires Truthful(h, required, nodes, f)
    ensures Truthful(h, required, nodes + [node], f)
  {
    hide HasId, Identify, NodeCompat, MissingFields, TextOrEmpty, COMPAT;
  }

  lemma {:induction false} ExamineTruthful(h: Host, required: seq<string>, nodes: seq<Node>, f: Findings)
    requires nodes != [] && Truthful(h, required, nodes, f) && Examine(h, required, f, |nodes| - 1, nodes[|nodes| - 1]).Ok?
    ensures Truthful(h, required, nodes, Examine(h, required, f, |nodes| - 1, nodes[|nodes| - 1]).value)
  {
    hide HasId, Identify, NodeCompat, MissingFields, TextOrEmpty, COMPAT;
  }

  /** Schema ids contradict each other exactly when both are there, stripped, and differ. */
  lemma {:induction false} ContradictoryIff(h: Host, n: Payload)
    ensures var compat, legacy := Trimmed(h, Field(n, "schema_compat_id")), Trimmed(h, Field(n, "schema_id"));
            Contradictory(h, n) <==>
            Field(n, "node_id").Str? && Field(n, "node_id").s != "" && compat != "" && legacy != "" && compat != legacy
  {
    TrimmedNull(h);
    hide Trimmed;
  }

  lemma {:induction false} TrimmedNull(h: Host)
    ensures Trimmed(h, Null) == ""
  {
  }

  /** Every record of a report tells the truth about the node it names: which fields it lacks,
      which identifier it carries and which it should, which schema ids contradict each other. */
  lemma {:induction false} RecordsTruthful(h: Host, required: seq<string>, nodes: seq<Node>)
    requires Scan(h, required, nodes).Ok?
    ensures Truthful(h, required, nodes, Scan(h, required, nodes).value)
  {
    hide Examine, Truthful;
    if nodes == [] {
      NoRecords(h, required);
    } else {
      var k := |nodes| - 1;
      RecordsTruthful(h, required, nodes[..k]);
      assert nodes == nodes[..k] + [nodes[k]];
      TruthfulLonger(h, required, nodes[..k], nodes[k], Scan(h, required, nodes[..k]).value);
      ExamineTruthful(h, required, nodes, Scan(h, required, nodes[..k]).value);
    }
  }

  lemma {:induction false} NoRecords(h: Host, required: seq<string>)
    ensures Truthful(h, required, [], Findings([], [], [], []))
  {
  }

  /** The error names the first kind of fault there is: incomplete nodes, contradictory schema
      ids, a wrong checksum, wrong identifiers. */
  lemma {:induction false} CodesTell(h: Host, nodes: seq<Node>, provided: int, required: seq<string>)
    requires Validate(h, nodes, provided, required).Ok?
    ensures var f := Validate(h, nodes, provided, required).value.findings;
            var out := Enforce(h, nodes, provided, required);
            && Reported(h, required, nodes, f)
            && (out == Rejected("E_NODE_ID_FIELDS") <==> f.missing != [])
            && (out == Rejected("E_SCHEMA_COMPAT_MISMATCH") <==> f.missing == [] && f.conflicts != [])
            && (out == Rejected("E_CHECKSUM_MISMATCH") <==> f.missing == [] && f.conflicts == [] && provided != h.crc(f.ids))
            && (out == Rejected("E_NODE_ID_MISMATCH") <==>
                  f.missing == [] && f.conflicts == [] && provided == h.crc(f.ids) && f.mismatches != [])
  {
    hide Scan, Reported;
    ReportExact(h, required, nodes);
    CodesDiffer();
  }

  lemma {:induction false} CodesDiffer()
    ensures Distinct(["E_NODE_ID_FIELDS", "E_SCHEMA_COMPAT_MISMATCH", "E_CHECKSUM_MISMATCH", "E_NODE_ID_MISMATCH"])
  {
    assert |"E_NODE_ID_FIELDS"| == 16 && |"E_SCHEMA_COMPAT_MISMATCH"| == 24;
    assert |"E_CHECKSUM_MISMATCH"| == 19 && |"E_NODE_ID_MISMATCH"| == 18;
  }

  /** With the standard requirements an accepted node has its type and its three hashes, and a
      compatibility id of its own or a legacy one. */
  lemma {:induction false} StandardRequirements(h: Host, n: Payload)
    ensures FieldsPresent(h, REQUIRED, n) <==>
            && Truthy(Field(n, "node_type")) && Truthy(Field(n, "code_hash"))
            && Truthy(Field(n, "config_hash")) && Truthy(Field(n, "schema_hash"))
            && (Truthy(Field(n, "schema_compat_id")) || (!Field(n, "schema_id").Null? && Trimmed(h, Field(n, "schema_id")) != ""))
  {
    StandardNames();
    hide Truthy, Trimmed, REQUIRED, COMPAT;
  }

  lemma {:induction false} StandardNames()
    ensures forall f :: f in REQUIRED <==> f == "node_type" || f == "code_hash" || f == "config_hash" || f == "schema_hash" || f == COMPAT
    ensures COMPAT == "schema_compat_id" && COMPAT !in ["node_type", "code_hash", "config_hash", "schema_hash"]
    ensures multiset(REQUIRED)[COMPAT] == 1
  {
    assert |"node_type"| == 9 && |"code_hash"| == 9 && |"config_hash"| == 11 && |"schema_hash"| == 11 && |COMPAT| == 16;
  }
}

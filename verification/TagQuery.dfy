/** Canonical tag-query parameters. */
module TagQuery {
  import opened Wrappers
  import opened Ordering
  import opened Sequences
  import opened Text
  import opened PyValue

  const TAG_QUERY := "TagQueryNode"

  /** `s.split(",")` */
  function SplitCommas(s: string): (r: seq<string>)
    ensures r != []
  {
    if s == [] then [[]]
    else
      var rest := SplitCommas(s[1..]);
      if s[0] == ',' then [[]] + rest else [[s[0]] + rest[0]] + rest[1..]
  }

  /** The stripped parts that are not blank. */
  function NonBlank(parts: seq<string>): seq<string> {
    if parts == [] then []
    else NonBlank(parts[..|parts| - 1]) + (var t := Strip(parts[|parts| - 1]); if t == "" then [] else [t])
  }

  function TextsOf(h: Host, items: seq<Value>): (r: seq<string>)
    ensures |r| == |items| && forall i :: 0 <= i < |items| ==> r[i] == StrOf(h, items[i])
  {
    seq(|items|, i requires 0 <= i < |items| => StrOf(h, items[i]))
  }

  function SplitTags(h: Host, tags: Value): Result<seq<string>> {
    match tags
    case Null => Ok([])
    case Str(s) => Ok(NonBlank(SplitCommas(s)))
    case _ =>
      var items :- Items(tags);
      Ok(NonBlank(TextsOf(h, items)))
  }

  /** `split_tags`, with its appending loop. */
  method SplitTagList(h: Host, tags: Value) returns (r: Result<seq<string>>)
    ensures r == SplitTags(h, tags)
    ensures r.Ok? ==> forall t :: t in r.value ==> t != "" && Stripped(t)
  {
    hide Strip, Stripped, SplitCommas, StrOf;
    if tags.Null? { return Ok([]); }
    var parts: seq<string>;
    if tags.Str? {
      parts := SplitCommas(tags.s);
    } else {
      var items := Items(tags);
      if items.Err? { return Err; }
      parts := TextsOf(h, items.value);
    }
    var out: seq<string> := [];
    for k := 0 to |parts|
      invariant out == NonBlank(parts[..k])
      invariant forall t :: t in out ==> t != "" && Stripped(t)
    {
      assert parts[..k + 1][..k] == parts[..k];
      var text := Strip(parts[k]);
      StripStripped(parts[k]);
      if text != "" { out := out + [text]; }
    }
    assert parts[..|parts|] == parts;
    return Ok(out);
  }

  /** Unknown modes, and bytes, count as "any"; other values have no `lower`. */
  function MatchMode(mode: Value): Result<string> {
    var m := Or(mode, Str("any"));
    if m.Bytes? then Ok("any") else if !m.Str? then Err else if Lower(m.s) == "all" then Ok("all") else Ok("any")
  }

  datatype TagSpec = TagSpec(tags: seq<string>, mode: string, interval: Option<int>)

  function TryInt(h: Host, v: Value): Option<int> {
    match IntOf(h, v) case Ok(i) => Some(i) case Err => None
  }

  function TagParams(h: Host, tags: Value, interval: Value, mode: Value): Result<TagSpec> {
    var split :- SplitTags(h, tags);
    var m :- MatchMode(mode);
    Ok(TagSpec(SortedSet(set t | t in split), m, TryInt(h, interval)))
  }

  function AsValue(t: TagSpec): Value {
    Obj([Entry("query_tags", List(Map(s => Str(s), t.tags))), Entry("match_mode", Str(t.mode)),
         Entry("interval", if t.interval.Some? then Int(t.interval.value) else Null)])
  }

  /** The text is "all" in some case. */
  predicate SpellsAll(s: string) {
    |s| == 3 && s[0] in ['a', 'A'] && s[1] in ['l', 'L'] && s[2] in ['l', 'L']
  }

  /** Exactly a text spelling "all" asks for all tags; only values that are neither false nor
      text are refused, and everything else asks for any. */
  lemma {:induction false} ModeIff(mode: Value)
    ensures MatchMode(mode) == Ok("all") <==> mode.Str? && SpellsAll(mode.s)
    ensures MatchMode(mode).Err? <==> Truthy(mode) && !mode.Str? && !mode.Bytes?
    ensures MatchMode(mode).Ok? ==> MatchMode(mode).value in ["all", "any"]
  {
    var m := Or(mode, Str("any"));
    if m.Str? { LowerAll(m.s); }
    assert Lower("any")[0] == 'a' && Lower("any")[1] == 'n';
    hide Lower;
  }

  lemma {:induction false} LowerAll(s: string)
    ensures Lower(s) == "all" <==> SpellsAll(s)
  {
    var r := Lower(s);
    assert r == "all" <==> |r| == 3 && r[0] == 'a' && r[1] == 'l' && r[2] == 'l';
  }

  /** The canonical parameters, field by field. */
  lemma {:induction false} TagParamsFields(h: Host, tags: Value, interval: Value, mode: Value)
    requires TagParams(h, tags, interval, mode).Ok?
    ensures var t := TagParams(h, tags, interval, mode).value;
            && SplitTags(h, tags).Ok? && (forall x :: x in t.tags <==> x in SplitTags(h, tags).value)
            && Sorted(t.tags, StrLeq) && Distinct(t.tags)
            && t.mode == (if mode.Str? && SpellsAll(mode.s) then "all" else "any")
            && t.interval == TryInt(h, interval)
  {
    hide SplitTags, MatchMode, TryInt;
    ModeIff(mode);
  }

  // ----- where the parameters are taken from -----

  function Inner(p: Value, key: string): Value {
    if p.Obj? then Lookup(p.entries, key) else Null
  }

  function InnerTags(p: Value): Value {
    if p.Obj? then Or(Inner(p, "query_tags"), Inner(p, "tags")) else Null
  }

  function OrElse(v: Value, fallback: Value): Value {
    if v.Null? then fallback else v
  }

  /** From a node mapping: the parameters first, then the node itself. */
  function NodeTags(n: Payload): Value {
    OrElse(InnerTags(Field(n, "params")), Field(n, "tags"))
  }

  function NodeMode(n: Payload): Value {
    OrElse(Inner(Field(n, "params"), "match_mode"), Field(n, "match_mode"))
  }

  function NodeInterval(n: Payload): Value {
    OrElse(Field(n, "interval"), Inner(Field(n, "params"), "interval"))
  }

  function NodeTagParams(h: Host, n: Payload): Result<TagSpec> {
    TagParams(h, NodeTags(n), NodeInterval(n), NodeMode(n))
  }

  // ----- what splitting and collecting tags yields -----

  /** Splitting at commas is undone by joining, and leaves no comma behind. */
  lemma {:induction false} SplitJoin(s: string)
    ensures Join(",", SplitCommas(s)) == s && forall i :: 0 <= i < |SplitCommas(s)| ==> ',' !in SplitCommas(s)[i]
  {
    if s != [] {
      SplitJoin(s[1..]);
      var parts, rest := SplitCommas(s), SplitCommas(s[1..]);
      assert s == [s[0]] + s[1..];
      if s[0] == ',' {
        assert parts[1..] == rest && Join(",", parts) == "" + "," + Join(",", rest);
      } else {
        JoinLonger(s[0], rest);
      }
    }
  }

  lemma {:induction false} JoinLonger(c: char, rest: seq<string>)
    requires rest != []
    ensures Join(",", [[c] + rest[0]] + rest[1..]) == [c] + Join(",", rest)
  {
    var parts := [[c] + rest[0]] + rest[1..];
    assert parts[1..] == rest[1..];
    if |rest| > 1 {
      var tail := Join(",", rest[1..]);
      assert [c] + rest[0] + "," + tail == [c] + (rest[0] + "," + tail);
    }
  }

  ghost predicate Occurs(parts: seq<string>, t: string) {
    exists i :: 0 <= i < |parts| && Strip(parts[i]) == t
  }

  lemma {:induction false} NonBlankMembers(parts: seq<string>, t: string)
    ensures t in NonBlank(parts) <==> t != "" && Occurs(parts, t)
  {
    hide Strip, Occurs;
    OccursLast(parts, t);
    if parts != [] {
      NonBlankMembers(parts[..|parts| - 1], t);
    }
  }

  lemma {:induction false} OccursLast(parts: seq<string>, t: string)
    ensures if parts == [] then !Occurs(parts, t)
            else Occurs(parts, t) <==> Occurs(parts[..|parts| - 1], t) || Strip(parts[|parts| - 1]) == t
  {
    hide Strip;
    if parts != [] {
      var init := parts[..|parts| - 1];
      assert forall i :: 0 <= i < |init| ==> init[i] == parts[i];
      if i :| 0 <= i < |parts| && Strip(parts[i]) == t {
        assert i < |init| ==> init[i] == parts[i];
      }
    }
  }

  ghost predicate SameTexts(h: Host, a: seq<Value>, b: seq<Value>) {
    (forall i :: 0 <= i < |a| ==> exists j :: 0 <= j < |b| && Strip(StrOf(h, a[i])) == Strip(StrOf(h, b[j])))
  }

  lemma {:induction false} TextsCarryOver(h: Host, a: seq<Value>, b: seq<Value>, t: string)
    requires SameTexts(h, a, b) && t in NonBlank(TextsOf(h, a))
    ensures t in NonBlank(TextsOf(h, b))
  {
    hide Strip, StrOf, NonBlank;
    NonBlankMembers(TextsOf(h, a), t);
    NonBlankMembers(TextsOf(h, b), t);
    var i :| 0 <= i < |a| && Strip(StrOf(h, a[i])) == t;
    var j :| 0 <= j < |b| && Strip(StrOf(h, a[i])) == Strip(StrOf(h, b[j]));
    assert TextsOf(h, b)[j] == StrOf(h, b[j]);
  }

  /** Order, repetition and surrounding blanks of listed tags never matter. */
  lemma {:induction false} TagOrderIrrelevant(h: Host, a: seq<Value>, b: seq<Value>, interval: Value, mode: Value)
    requires SameTexts(h, a, b) && SameTexts(h, b, a)
    ensures TagParams(h, List(a), interval, mode) == TagParams(h, List(b), interval, mode)
  {
    hide SameTexts, NonBlank, SortedSet, MatchMode, TryInt;
    var s, t := NonBlank(TextsOf(h, a)), NonBlank(TextsOf(h, b));
    forall x ensures x in s <==> x in t {
      if x in s { TextsCarryOver(h, a, b, x); }
      if x in t { TextsCarryOver(h, b, a, x); }
    }
    assert (set x | x in s) == (set x | x in t);
  }
}

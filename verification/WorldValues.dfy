/** What removing excluded entries leaves visible of a value: the parts of it that are the
    same in every world, and how an excluded entry can be slipped into it. */
module WorldValues {
  import opened Sequences
  import opened Text
  import opened PyValue
  import opened NodeParams
  import opened TagQuery

  // ----- values without mappings -----

  predicate MappingFree(v: Value)
    decreases v
  {
    match v
    case Obj(_) => false
    case List(xs) => forall x :: x in xs ==> MappingFree(x)
    case SetOf(xs) => forall x :: x in xs ==> MappingFree(x)
    case _ => true
  }

  /** A value without mappings is the same in every world. */
  lemma {:induction false} MappingFreeFixed(v: Value, w: Value)
    requires MappingFree(v) && StripWorld(w) == StripWorld(v)
    ensures w == v
    decreases v
  {
    match v
    case List(xs) => AllFixed(xs, w.items);
    case SetOf(xs) => AllFixed(xs, w.members);
    case _ =>
  }

  lemma {:induction false} AllFixed(xs: seq<Value>, ys: seq<Value>)
    requires (forall x :: x in xs ==> MappingFree(x)) && StripWorldAll(ys) == StripWorldAll(xs)
    ensures ys == xs
    decreases xs
  {
    forall i | 0 <= i < |xs| ensures ys[i] == xs[i] {
      assert StripWorldAll(ys)[i] == StripWorldAll(xs)[i];
      MappingFreeFixed(xs[i], ys[i]);
    }
  }

  /** Only a scalar is a number, so the number is the same in every world. */
  lemma {:induction false} NumberFixed(h: Host, v: Value, w: Value)
    requires StripWorld(v) == StripWorld(w)
    ensures TryInt(h, v) == TryInt(h, w) && (v.Null? <==> w.Null?) && (v.Obj? <==> w.Obj?)
  {
  }

  /** Some entry counts in every world, or the value is no mapping. */
  predicate TruthSettled(v: Value) {
    v.Obj? ==> StripWorldEntries(v.entries) != []
  }

  lemma {:induction false} StrippedTruth(v: Value)
    ensures !v.Obj? ==> (Truthy(StripWorld(v)) <==> Truthy(v))
    ensures Truthy(StripWorld(v)) ==> Truthy(v)
  {
    if v.Obj? { assert v.entries == [] ==> StripWorldEntries(v.entries) == []; }
  }

  /** Whether a value counts as true is the same in every world exactly when it is settled. */
  lemma {:induction false} TruthSettledIff(v: Value)
    ensures (forall w :: StripWorld(w) == StripWorld(v) ==> (Truthy(w) <==> Truthy(v))) <==> TruthSettled(v)
  {
    if TruthSettled(v) {
      forall w | StripWorld(w) == StripWorld(v) ensures Truthy(w) <==> Truthy(v) { SettledTruth(v, w); }
    } else {
      LongKeyExcluded(0);
      var e := Entry(LongKey(0), Null);
      assert [e][1..] == [] && StripWorldEntries([e]) == [];
      assert StripWorld(Obj([e])) == StripWorld(v) && StripWorld(Obj([])) == StripWorld(v);
      assert Truthy(Obj([e])) && !Truthy(Obj([]));
    }
  }

  lemma {:induction false} SettledTruth(v: Value, w: Value)
    requires TruthSettled(v) && StripWorld(w) == StripWorld(v)
    ensures Truthy(w) <==> Truthy(v)
  {
    StrippedTruth(v);
    StrippedTruth(w);
  }

  // ----- what mappings hold outside the excluded entries -----

  lemma {:induction false} StripLookup(es: seq<Entry>, key: string)
    requires !Excluded(key)
    ensures Lookup(StripWorldEntries(es), key) == StripWorld(Lookup(es, key))
    ensures HasKey(StripWorldEntries(es), key) <==> HasKey(es, key)
  {
    hide Excluded, StripWorld, Lookup, HasKey;
    NullStripped();
    EmptyLookup(key);
    if es != [] {
      StripLookup(es[1..], key);
      assert es == [es[0]] + es[1..];
      LookupCons(es[0], es[1..], key);
      var rest := StripWorldEntries(es[1..]);
      if !Excluded(es[0].key) {
        assert StripWorldEntries(es) == [StripWorldEntry(es[0])] + rest;
        LookupCons(StripWorldEntry(es[0]), rest, key);
      } else {
        assert StripWorldEntries(es) == rest;
        LookupMissing(es[1..], key);
      }
    }
  }

  lemma {:induction false} EmptyLookup(key: string)
    ensures Lookup([], key) == Null && !HasKey([], key)
  {
  }

  lemma {:induction false} NullStripped()
    ensures StripWorld(Null) == Null
  {
  }

  /** Two worlds' parameters agree on a key up to excluded entries inside its value. */
  lemma {:induction false} SameInner(p: Value, q: Value, key: string)
    requires StripWorld(p) == StripWorld(q) && !Excluded(key)
    ensures StripWorld(Inner(p, key)) == StripWorld(Inner(q, key)) && (p.Obj? <==> q.Obj?)
  {
    hide Excluded, Lookup;
    if p.Obj? { StripLookup(p.entries, key); }
    if q.Obj? { StripLookup(q.entries, key); }
  }

  // ----- slipping an excluded entry in -----

  /** The excluded key `env_xx...x`. */
  function LongKey(n: nat): (k: string)
    ensures |k| == n + 4
  {
    ENV_PREFIX + seq(n, i requires 0 <= i < n => 'x')
  }

  lemma {:induction false} LongKeyExcluded(n: nat)
    ensures Excluded(LongKey(n)) && PlainName(LongKey(n))
  {
    var k := LongKey(n);
    assert forall i :: 0 <= i < 4 ==> k[i] == ENV_PREFIX[i];
    assert forall i :: 4 <= i < |k| ==> k[i] == 'x';
    assert Lower(k)[..4] == ENV_PREFIX;
  }

  /** The value with one more entry in the first mapping found inside it. */
  function Slip(v: Value, key: string): Value
    decreases v
  {
    match v
    case Obj(es) => Obj(es + [Entry(key, Null)])
    case List(xs) => List(SlipAll(xs, key))
    case SetOf(xs) => SetOf(SlipAll(xs, key))
    case _ => v
  }

  function SlipAll(xs: seq<Value>, key: string): seq<Value>
    decreases xs
  {
    if xs == [] then []
    else if MappingFree(xs[0]) then [xs[0]] + SlipAll(xs[1..], key)
    else [Slip(xs[0], key)] + xs[1..]
  }

  lemma {:induction false} StripConcat(a: seq<Entry>, b: seq<Entry>)
    ensures StripWorldEntries(a + b) == StripWorldEntries(a) + StripWorldEntries(b)
  {
    hide Excluded, StripWorldEntry;
    if a == [] {
      assert a + b == b;
    } else {
      StripConcat(a[1..], b);
      assert (a + b)[1..] == a[1..] + b;
      var first := if Excluded(a[0].key) then [] else [StripWorldEntry(a[0])];
      Assoc(first, StripWorldEntries(a[1..]), StripWorldEntries(b));
    }
  }

  /** The slipped entry leaves no trace in another world. */
  lemma {:induction false} SlipUnseen(v: Value, key: string)
    requires Excluded(key)
    ensures StripWorld(Slip(v, key)) == StripWorld(v)
    decreases v
  {
    hide Excluded;
    match v
    case Obj(es) =>
      StripConcat(es, [Entry(key, Null)]);
      assert [Entry(key, Null)][1..] == [] && StripWorldEntries([Entry(key, Null)]) == [];
    case List(xs) => SlipAllUnseen(xs, key);
    case SetOf(xs) => SlipAllUnseen(xs, key);
    case _ =>
  }

  lemma {:induction false} SlipAllUnseen(xs: seq<Value>, key: string)
    requires Excluded(key)
    ensures StripWorldAll(SlipAll(xs, key)) == StripWorldAll(xs)
    decreases xs
  {
    hide Excluded, StripWorld;
    if xs != [] {
      if MappingFree(xs[0]) {
        SlipAllUnseen(xs[1..], key);
        assert SlipAll(xs, key)[1..] == SlipAll(xs[1..], key);
      } else {
        SlipUnseen(xs[0], key);
        assert SlipAll(xs, key)[1..] == xs[1..];
      }
    }
  }

  /** Some mapping inside the value has an entry of this name. */
  ghost predicate Names(v: Value, key: string)
    decreases v
  {
    match v
    case Obj(es) => (exists e :: e in es && e.key == key) || exists e :: e in es && NamesIn(e, key)
    case List(xs) => exists x :: x in xs && Names(x, key)
    case SetOf(xs) => exists x :: x in xs && Names(x, key)
    case _ => false
  }

  ghost predicate NamesIn(e: Entry, key: string)
    decreases e
  {
    Names(e.value, key)
  }

  lemma {:induction false} SlipNames(v: Value, key: string)
    requires !MappingFree(v)
    ensures Names(Slip(v, key), key)
    decreases v
  {
    match v
    case Obj(es) => assert Slip(v, key).entries[|es|].key == key;
    case List(xs) => var x := SlipAllNames(xs, key);
    case SetOf(xs) => var x := SlipAllNames(xs, key);
  }

  lemma {:induction false} SlipAllNames(xs: seq<Value>, key: string) returns (x: Value)
    requires exists y :: y in xs && !MappingFree(y)
    ensures x in SlipAll(xs, key) && Names(x, key) && (x.Obj? || x.List? || x.SetOf?)
    decreases xs
  {
    assert xs == [xs[0]] + xs[1..];
    if MappingFree(xs[0]) {
      x := SlipAllNames(xs[1..], key);
    } else {
      SlipNames(xs[0], key);
      x := Slip(xs[0], key);
      assert SlipAll(xs, key)[0] == x;
    }
  }

  // ----- names show in text -----

  ghost predicate Shows(s: string, key: string) {
    exists i: nat :: ShowsAt(s, key, i)
  }

  predicate ShowsAt(s: string, key: string, i: nat) {
    i + |key| <= |s| && s[i..i + |key|] == key
  }

  /** Lower-case letters and underscores, which no quoting or escaping changes. */
  predicate PlainName(key: string) {
    key != "" && forall c :: c in key ==> c == '_' || 'a' <= c <= 'z'
  }

  predicate Container(v: Value) {
    v.List? || v.SetOf? || v.Obj?
  }

  /** The text of a container shows its plain keys and the text of each container in it. */
  ghost predicate ShowsParts(h: Host) {
    && (forall es: seq<Entry>, e :: e in es && PlainName(e.key) ==> Shows(h.repr(Obj(es)), e.key))
    && (forall es: seq<Entry>, e :: e in es && Container(e.value) ==> Shows(h.repr(Obj(es)), h.repr(e.value)))
    && (forall xs: seq<Value>, x :: x in xs && Container(x) ==> Shows(h.repr(List(xs)), h.repr(x)))
    && (forall xs: seq<Value>, x :: x in xs && Container(x) ==> Shows(h.repr(SetOf(xs)), h.repr(x)))
  }

  lemma {:induction false} ShowsThrough(s: string, t: string, key: string)
    requires Shows(s, t) && Shows(t, key)
    ensures Shows(s, key)
  {
    var i: nat :| ShowsAt(s, t, i);
    var j: nat :| ShowsAt(t, key, j);
    forall k | 0 <= k < |key| ensures s[i + j + k] == key[k] {
      assert s[i..i + |t|][j + k] == t[j + k] == t[j..j + |key|][k];
    }
    assert ShowsAt(s, key, i + j);
  }

  /** So it shows the plain names at any depth. */
  lemma {:induction false} NamesShown(h: Host, v: Value, key: string)
    requires ShowsParts(h) && Names(v, key) && PlainName(key)
    ensures Container(v) && Shows(h.repr(v), key)
    decreases v
  {
    hide Shows, PlainName;
    match v
    case Obj(es) =>
      if e :| e in es && e.key == key {
      } else {
        var e :| e in es && NamesIn(e, key);
        NamesShown(h, e.value, key);
        ShowsThrough(h.repr(v), h.repr(e.value), key);
      }
    case List(xs) =>
      var x :| x in xs && Names(x, key);
      NamesShown(h, x, key);
      ShowsThrough(h.repr(v), h.repr(x), key);
    case SetOf(xs) =>
      var x :| x in xs && Names(x, key);
      NamesShown(h, x, key);
      ShowsThrough(h.repr(v), h.repr(x), key);
  }

  lemma {:induction false} ShownEnds(s: string, key: string, i: nat)
    requires PlainName(key) && ShowsAt(s, key, i)
    ensures !IsSpace(s[i]) && !IsSpace(s[i + |key| - 1])
  {
    assert s[i] == key[0] && s[i + |key| - 1] == key[|key| - 1];
    assert key[0] in key && key[|key| - 1] in key;
  }

  lemma {:induction false} ShowsAfterLeft(s: string, key: string)
    requires PlainName(key) && Shows(s, key)
    ensures Shows(StripLeft(s), key)
  {
    if s != [] && IsSpace(s[0]) {
      var i: nat :| ShowsAt(s, key, i);
      ShownEnds(s, key, i);
      var t := s[1..];
      assert ShowsAt(t, key, i - 1);
      ShowsAfterLeft(t, key);
    }
  }

  lemma {:induction false} ShowsAfterRight(s: string, key: string)
    requires PlainName(key) && Shows(s, key)
    ensures Shows(StripRight(s), key)
  {
    var n := |s| - 1;
    if s != [] && IsSpace(s[n]) {
      var i: nat :| ShowsAt(s, key, i);
      ShownEnds(s, key, i);
      var t := s[..n];
      assert ShowsAt(t, key, i);
      ShowsAfterRight(t, key);
    }
  }

  lemma {:induction false} ShowsStripped(s: string, key: string)
    requires PlainName(key) && Shows(s, key)
    ensures Shows(Strip(s), key) && Strip(s) != "" && |Strip(s)| >= |key|
  {
    ShowsAfterLeft(s, key);
    ShowsAfterRight(StripLeft(s), key);
  }

  // ----- tags read from such a value -----

  lemma {:induction false} KeyMember(es: seq<Entry>, i: nat)
    requires i < |es|
    ensures Str(es[i].key) in KeysOf(es)
  {
    if i > 0 { KeyMember(es[1..], i - 1); }
    assert KeysOf(es) == [Str(es[0].key)] + KeysOf(es[1..]);
  }

  lemma {:induction false} ShownTag(h: Host, items: seq<Value>, x: Value, key: string)
    requires x in items && PlainName(key) && Shows(StrOf(h, x), key)
    ensures Strip(StrOf(h, x)) in NonBlank(TextsOf(h, items)) && |Strip(StrOf(h, x))| >= |key|
  {
    hide StrOf, Strip, NonBlank;
    var i :| 0 <= i < |items| && items[i] == x;
    var t := Strip(StrOf(h, x));
    ShowsStripped(StrOf(h, x), key);
    assert Strip(TextsOf(h, items)[i]) == t;
    NonBlankMembers(TextsOf(h, items), t);
  }

  /** Tags read from a value with a mapping inside show the slipped name. */
  lemma {:induction false} SlippedTag(h: Host, v: Value, key: string) returns (t: string)
    requires !MappingFree(v) && PlainName(key) && ShowsParts(h)
    ensures SplitTags(h, Slip(v, key)).Ok? && t in SplitTags(h, Slip(v, key)).value && |t| >= |key|
    ensures Truthy(Slip(v, key))
  {
    hide ShowsParts, Shows, Strip, NonBlank, PlainName;
    match v
    case Obj(es) =>
      var fs := es + [Entry(key, Null)];
      assert fs[|es|].key == key;
      KeyMember(fs, |es|);
      WholeShown(key);
      ShownTag(h, KeysOf(fs), Str(key), key);
      t := Strip(key);
    case List(xs) =>
      t := SlippedItem(h, xs, key);
    case SetOf(xs) =>
      t := SlippedItem(h, xs, key);
  }

  lemma {:induction false} SlippedItem(h: Host, xs: seq<Value>, key: string) returns (t: string)
    requires (exists y :: y in xs && !MappingFree(y)) && PlainName(key) && ShowsParts(h)
    ensures t in NonBlank(TextsOf(h, SlipAll(xs, key))) && |t| >= |key| && SlipAll(xs, key) != []
  {
    hide Strip, NonBlank;
    var x := SlipAllNames(xs, key);
    assert StrOf(h, x) == h.repr(x);
    NamesShown(h, x, key);
    ShownTag(h, SlipAll(xs, key), x, key);
    t := Strip(StrOf(h, x));
  }

  lemma {:induction false} WholeShown(key: string)
    ensures Shows(key, key)
  {
    assert ShowsAt(key, key, 0);
  }
}

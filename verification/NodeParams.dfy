/** Canonical parameters: excluded keys disappear at every depth, mappings are
    ordered by key, sets become ordered lists. */
module NodeParams {
  import opened Ordering
  import opened Sequences
  import opened Text
  import opened PyValue

  const ENV_PREFIX := "env_"

  predicate Excluded(key: string) {
    var k := Lower(key);
    || k in {"world", "world_id", "world_ids", "execution_world", "execution_domain", "domain", "domains", "as_of",
             "partition", "dataset_fingerprint", "timestamp", "seed", "random_state", "env"}
    || ENV_PREFIX <= k
  }

  predicate EntryLeq(a: Entry, b: Entry) {
    StrLeq(a.key, b.key)
  }

  function DumpsLeq(h: Host): (Value, Value) -> bool {
    (a, b) => StrLeq(h.dumps(a), h.dumps(b))
  }

  /** A dictionary filled from sorted items: a later item replaces one of the same name. */
  function Collapse(es: seq<Entry>): seq<Entry> {
    if |es| <= 1 then es
    else if es[0].key == es[1].key then Collapse(es[1..])
    else [es[0]] + Collapse(es[1..])
  }

  function Canon(h: Host, v: Value): Value
    decreases v
  {
    match v
    case Obj(es) => Obj(Collapse(Sort(CanonEntries(h, es), EntryLeq)))
    case SetOf(xs) => List(Sort(CanonAll(h, xs), DumpsLeq(h)))
    case List(xs) => List(CanonAll(h, xs))
    case Bytes(s) => Str(s)
    case _ => v
  }

  function CanonAll(h: Host, xs: seq<Value>): (r: seq<Value>)
    ensures |r| == |xs| && forall i :: 0 <= i < |xs| ==> r[i] == Canon(h, xs[i])
    decreases xs
  {
    if xs == [] then [] else [Canon(h, xs[0])] + CanonAll(h, xs[1..])
  }

  function CanonEntries(h: Host, es: seq<Entry>): seq<Entry>
    decreases es
  {
    if es == [] then []
    else (if Excluded(es[0].key) then [] else [CanonEntry(h, es[0])]) + CanonEntries(h, es[1..])
  }

  function CanonEntry(h: Host, e: Entry): Entry
    decreases e
  {
    Entry(e.key, Canon(h, e.value))
  }

  // ----- non-interference -----

  /** The value without its excluded entries, at any depth. */
  function StripWorld(v: Value): Value
    decreases v
  {
    match v
    case Obj(es) => Obj(StripWorldEntries(es))
    case SetOf(xs) => SetOf(StripWorldAll(xs))
    case List(xs) => List(StripWorldAll(xs))
    case _ => v
  }

  function StripWorldAll(xs: seq<Value>): (r: seq<Value>)
    ensures |r| == |xs| && forall i :: 0 <= i < |xs| ==> r[i] == StripWorld(xs[i])
    decreases xs
  {
    if xs == [] then [] else [StripWorld(xs[0])] + StripWorldAll(xs[1..])
  }

  function StripWorldEntries(es: seq<Entry>): seq<Entry>
    decreases es
  {
    if es == [] then []
    else (if Excluded(es[0].key) then [] else [StripWorldEntry(es[0])]) + StripWorldEntries(es[1..])
  }

  function StripWorldEntry(e: Entry): Entry
    decreases e
  {
    Entry(e.key, StripWorld(e.value))
  }

  /** Excluded entries have no influence on the canonical form. */
  lemma {:induction false} CanonIgnoresExcluded(h: Host, v: Value)
    ensures Canon(h, StripWorld(v)) == Canon(h, v)
    decreases v
  {
    match v
    case Obj(es) => EntriesIgnoreExcluded(h, es);
    case SetOf(xs) => AllIgnoreExcluded(h, xs);
    case List(xs) => AllIgnoreExcluded(h, xs);
    case _ =>
  }

  lemma {:induction false} AllIgnoreExcluded(h: Host, xs: seq<Value>)
    ensures CanonAll(h, StripWorldAll(xs)) == CanonAll(h, xs)
    decreases xs
  {
    if xs != [] {
      CanonIgnoresExcluded(h, xs[0]);
      AllIgnoreExcluded(h, xs[1..]);
    }
  }

  lemma {:induction false} EntriesIgnoreExcluded(h: Host, es: seq<Entry>)
    ensures CanonEntries(h, StripWorldEntries(es)) == CanonEntries(h, es)
    decreases es
  {
    hide Excluded;
    if es != [] {
      EntriesIgnoreExcluded(h, es[1..]);
      if !Excluded(es[0].key) {
        EntryIgnoresExcluded(h, es[0]);
        assert StripWorldEntries(es) == [StripWorldEntry(es[0])] + StripWorldEntries(es[1..]);
        assert StripWorldEntries(es)[1..] == StripWorldEntries(es[1..]);
      } else {
        assert StripWorldEntries(es) == StripWorldEntries(es[1..]);
      }
    }
  }

  lemma {:induction false} EntryIgnoresExcluded(h: Host, e: Entry)
    ensures CanonEntry(h, StripWorldEntry(e)) == CanonEntry(h, e)
    decreases e
  {
    CanonIgnoresExcluded(h, e.value);
  }

  // ----- what the canonical form contains -----

  lemma {:induction false} EntryPreorder()
    ensures TotalPreorder(EntryLeq)
  {
    hide StrLeq;
    StrTotal();
  }

  ghost predicate Ascending(es: seq<Entry>) {
    Sorted(es, EntryLeq) && forall i, j :: 0 <= i < j < |es| ==> es[i].key != es[j].key
  }

  lemma {:induction false} CollapseAscends(es: seq<Entry>)
    requires Sorted(es, EntryLeq)
    ensures Ascending(Collapse(es)) && (es != [] ==> Collapse(es) != [] && Collapse(es)[0].key == es[0].key)
    ensures forall e :: e in Collapse(es) ==> e in es
  {
    hide StrLeq;
    if |es| > 1 {
      CollapseAscends(es[1..]);
      var r := Collapse(es[1..]);
      if es[0].key != es[1].key {
        forall j | 0 <= j < |r| ensures EntryLeq(es[0], r[j]) && es[0].key != r[j].key {
          assert r[j] in es[1..];
          HeadSmaller(es, r, j);
        }
      }
    }
  }

  lemma {:induction false} HeadSmaller(es: seq<Entry>, r: seq<Entry>, j: nat)
    requires |es| > 1 && Sorted(es, EntryLeq) && es[0].key != es[1].key && j < |r| && r[j] in es[1..]
    ensures EntryLeq(es[0], r[j]) && es[0].key != r[j].key
  {
    var i :| 1 <= i < |es| && es[i] == r[j];
    if i > 1 {
      assert EntryLeq(es[0], es[1]) && EntryLeq(es[1], es[i]);
      StrLinear(es[0].key, es[1].key);
    }
  }

  /** Keys of a canonical mapping are strictly ascending. */
  lemma {:induction false} CanonAscending(h: Host, es: seq<Entry>)
    ensures Canon(h, Obj(es)).Obj? && Ascending(Canon(h, Obj(es)).entries)
  {
    hide Ascending, Collapse, CanonEntries, EntryLeq, Sort;
    EntryPreorder();
    SortCorrect(CanonEntries(h, es), EntryLeq);
    CollapseAscends(Sort(CanonEntries(h, es), EntryLeq));
  }

  lemma {:induction false} InsertLookup(x: Entry, es: seq<Entry>, key: string)
    requires Sorted(es, EntryLeq)
    ensures Lookup(Insert(x, es, EntryLeq), key) == Lookup([x] + es, key)
    ensures HasKey(Insert(x, es, EntryLeq), key) <==> HasKey([x] + es, key)
  {
    hide StrLeq;
    if es == [] || EntryLeq(x, es[0]) {
    } else {
      InsertLookup(x, es[1..], key);
      var r := Insert(x, es[1..], EntryLeq);
      LookupCons(es[0], r, key);
      LookupCons(es[0], [x] + es[1..], key);
      LookupCons(x, es, key);
      LookupCons(x, es[1..], key);
      LookupCons(es[0], es[1..], key);
      assert es == [es[0]] + es[1..];
      StrLinear(x.key, es[0].key);
      assert x.key != es[0].key;
    }
  }

  lemma {:induction false} LookupCons(e: Entry, es: seq<Entry>, key: string)
    ensures HasKey([e] + es, key) <==> e.key == key || HasKey(es, key)
    ensures Lookup([e] + es, key) == if HasKey(es, key) then Lookup(es, key) else if e.key == key then e.value else Null
  {
    var all := [e] + es;
    if HasKey(es, key) {
      var i :| 0 <= i < |es| && es[i].key == key;
      assert all[i + 1].key == key;
    }
    if e.key == key { assert all[0].key == key; }
    if i :| 0 <= i < |all| && all[i].key == key {
      if i > 0 { assert es[i - 1].key == key; }
    }
    LookupSnocs(e, es, key);
  }

  lemma {:induction false} LookupSnocs(e: Entry, es: seq<Entry>, key: string)
    ensures Lookup([e] + es, key) == if HasKey(es, key) then Lookup(es, key) else if e.key == key then e.value else Null
  {
    var all := [e] + es;
    if es == [] {
      assert all[..0] == [];
    } else {
      var n := |es| - 1;
      assert all[..|all| - 1] == [e] + es[..n] && all[|all| - 1] == es[n];
      LookupSnocs(e, es[..n], key);
    }
  }

  lemma {:induction false} SortLookup(es: seq<Entry>, key: string)
    ensures Lookup(Sort(es, EntryLeq), key) == Lookup(es, key) && (HasKey(Sort(es, EntryLeq), key) <==> HasKey(es, key))
  {
    hide EntryLeq;
    if es != [] {
      SortLookup(es[1..], key);
      EntryPreorder();
      SortCorrect(es[1..], EntryLeq);
      InsertLookup(es[0], Sort(es[1..], EntryLeq), key);
      LookupCons(es[0], Sort(es[1..], EntryLeq), key);
      LookupCons(es[0], es[1..], key);
      assert es == [es[0]] + es[1..];
    }
  }

  lemma {:induction false} CollapseLookup(es: seq<Entry>, key: string)
    ensures Lookup(Collapse(es), key) == Lookup(es, key) && (HasKey(Collapse(es), key) <==> HasKey(es, key))
  {
    hide Lookup, HasKey;
    if |es| > 1 {
      CollapseLookup(es[1..], key);
      assert es == [es[0]] + es[1..];
      LookupCons(es[0], es[1..], key);
      LookupCons(es[0], Collapse(es[1..]), key);
      HeadHasKey(es[1..]);
      LookupMissing(es[1..], key);
      if es[0].key == es[1].key {
        assert Collapse(es) == Collapse(es[1..]);
      } else {
        assert Collapse(es) == [es[0]] + Collapse(es[1..]);
      }
    }
  }

  lemma {:induction false} LookupMissing(es: seq<Entry>, key: string)
    ensures !HasKey(es, key) ==> Lookup(es, key) == Null
  {
    if es != [] {
      LookupMissing(es[..|es| - 1], key);
    }
  }

  lemma {:induction false} HeadHasKey(es: seq<Entry>)
    requires es != []
    ensures HasKey(es, es[0].key)
  {
  }

  lemma {:induction false} EntriesLookup(h: Host, es: seq<Entry>, key: string)
    ensures HasKey(CanonEntries(h, es), key) <==> HasKey(es, key) && !Excluded(key)
    ensures !Excluded(key) && HasKey(es, key) ==> Lookup(CanonEntries(h, es), key) == Canon(h, Lookup(es, key))
    decreases es
  {
    hide Excluded, Canon;
    if es != [] {
      EntriesLookup(h, es[1..], key);
      assert es == [es[0]] + es[1..];
      LookupCons(es[0], es[1..], key);
      var rest := CanonEntries(h, es[1..]);
      if !Excluded(es[0].key) {
        assert CanonEntries(h, es) == [CanonEntry(h, es[0])] + rest;
        LookupCons(CanonEntry(h, es[0]), rest, key);
      } else {
        assert CanonEntries(h, es) == rest;
      }
    }
  }

  /** The canonical mapping holds exactly the keys that are not excluded, each with
      the canonical form of its value. */
  lemma {:induction false} CanonContents(h: Host, es: seq<Entry>, key: string)
    ensures var c := Canon(h, Obj(es)).entries;
            && (HasKey(c, key) <==> HasKey(es, key) && !Excluded(key))
            && (HasKey(c, key) ==> Lookup(c, key) == Canon(h, Lookup(es, key)))
  {
    hide Excluded, EntryLeq;
    EntriesLookup(h, es, key);
    SortLookup(CanonEntries(h, es), key);
    CollapseLookup(Sort(CanonEntries(h, es), EntryLeq), key);
  }

  lemma {:induction false} AscendingUnique(a: seq<Entry>, b: seq<Entry>)
    requires Ascending(a) && Ascending(b)
    requires forall k :: HasKey(a, k) <==> HasKey(b, k)
    requires forall k :: HasKey(a, k) ==> Lookup(a, k) == Lookup(b, k)
    ensures a == b
  {
    hide HasKey, Lookup, Ascending;
    if a == [] || b == [] {
      if a != [] { HeadHasKey(a); }
      if b != [] { HeadHasKey(b); }
      NoKeys();
    } else {
      HeadHasKey(a);
      HeadHasKey(b);
      SameHead(a, b);
      HeadLookup(a);
      HeadLookup(b);
      forall k ensures (HasKey(a[1..], k) <==> HasKey(b[1..], k)) && (HasKey(a[1..], k) ==> Lookup(a[1..], k) == Lookup(b[1..], k)) {
        TailLookup(a, k);
        TailLookup(b, k);
      }
      AscendingTail(a);
      AscendingTail(b);
      AscendingUnique(a[1..], b[1..]);
      assert a == [a[0]] + a[1..] && b == [b[0]] + b[1..];
    }
  }

  lemma {:induction false} NoKeys()
    ensures forall k :: !HasKey([], k)
  {
  }

  lemma {:induction false} AscendingTail(a: seq<Entry>)
    requires Ascending(a) && a != []
    ensures Ascending(a[1..])
  {
    hide EntryLeq;
  }

  lemma {:induction false} SameHead(a: seq<Entry>, b: seq<Entry>)
    requires Ascending(a) && Ascending(b) && a != [] && b != [] && HasKey(b, a[0].key) && HasKey(a, b[0].key)
    ensures a[0].key == b[0].key
  {
    hide StrLeq;
    var j :| 0 <= j < |b| && b[j].key == a[0].key;
    var i :| 0 <= i < |a| && a[i].key == b[0].key;
    StrLinear(a[0].key, b[0].key);
  }

  lemma {:induction false} HeadLookup(a: seq<Entry>)
    requires Ascending(a) && a != []
    ensures !HasKey(a[1..], a[0].key) && Lookup(a, a[0].key) == a[0].value
  {
    assert a == [a[0]] + a[1..];
    LookupCons(a[0], a[1..], a[0].key);
  }

  lemma {:induction false} TailLookup(a: seq<Entry>, k: string)
    requires Ascending(a) && a != []
    ensures HasKey(a[1..], k) <==> HasKey(a, k) && k != a[0].key
    ensures HasKey(a[1..], k) ==> Lookup(a[1..], k) == Lookup(a, k)
  {
    assert a == [a[0]] + a[1..];
    HeadLookup(a);
    LookupCons(a[0], a[1..], k);
  }

  /** Two mappings have the same canonical form exactly when they agree, canonically,
      on every key that is not excluded: entry order and excluded entries never matter,
      everything else does. */
  lemma {:induction false} CanonEqualIff(h: Host, es: seq<Entry>, fs: seq<Entry>)
    ensures Canon(h, Obj(es)) == Canon(h, Obj(fs)) <==>
            forall k :: !Excluded(k) ==>
              (HasKey(es, k) <==> HasKey(fs, k)) && (HasKey(es, k) ==> Canon(h, Lookup(es, k)) == Canon(h, Lookup(fs, k)))
  {
    hide Excluded, Canon, Ascending;
    CanonAscending(h, es);
    CanonAscending(h, fs);
    var c, d := Canon(h, Obj(es)).entries, Canon(h, Obj(fs)).entries;
    forall k
      ensures (HasKey(c, k) <==> HasKey(es, k) && !Excluded(k)) && (HasKey(c, k) ==> Lookup(c, k) == Canon(h, Lookup(es, k)))
      ensures (HasKey(d, k) <==> HasKey(fs, k) && !Excluded(k)) && (HasKey(d, k) ==> Lookup(d, k) == Canon(h, Lookup(fs, k)))
    {
      CanonContents(h, es, k);
      CanonContents(h, fs, k);
    }
    if forall k :: !Excluded(k) ==>
         (HasKey(es, k) <==> HasKey(fs, k)) && (HasKey(es, k) ==> Canon(h, Lookup(es, k)) == Canon(h, Lookup(fs, k))) {
      AscendingUnique(c, d);
    }
  }

  // ----- sets -----

  function DumpsKey(h: Host): Value -> string {
    v => h.dumps(v)
  }

  lemma {:induction false} DumpsPreorder(h: Host)
    ensures TotalPreorder(DumpsLeq(h)) && forall x, y :: DumpsLeq(h)(x, y) == StrLeq(DumpsKey(h)(x), DumpsKey(h)(y))
  {
    hide StrLeq;
    StrTotal();
  }

  lemma {:induction false} CanonAllIsMap(h: Host, xs: seq<Value>)
    ensures CanonAll(h, xs) == Map(v => Canon(h, v), xs)
  {
    hide Canon;
  }

  lemma {:induction false} SetCanon(h: Host, xs: seq<Value>)
    ensures Canon(h, SetOf(xs)) == List(Sort(CanonAll(h, xs), DumpsLeq(h)))
  {
  }

  /** The canonical form of a set does not depend on the order its members are iterated
      in, provided their JSON text tells the canonical members apart. */
  lemma {:induction false} SetOrderIrrelevant(h: Host, xs: seq<Value>, ys: seq<Value>)
    requires multiset(xs) == multiset(ys)
    requires forall a, b :: a in xs && b in xs && h.dumps(Canon(h, a)) == h.dumps(Canon(h, b)) ==> Canon(h, a) == Canon(h, b)
    ensures Canon(h, SetOf(xs)) == Canon(h, SetOf(ys))
  {
    hide StrLeq, Sort, DumpsLeq, Canon, CanonAll;
    SetCanon(h, xs);
    SetCanon(h, ys);
    var cs, ds := CanonAll(h, xs), CanonAll(h, ys);
    CanonAllIsMap(h, xs);
    CanonAllIsMap(h, ys);
    MapPerm(v => Canon(h, v), xs, ys);
    DumpsPreorder(h);
    forall c, d | c in cs && d in cs && DumpsKey(h)(c) == DumpsKey(h)(d) ensures c == d {
      var i, j :| 0 <= i < |cs| && 0 <= j < |cs| && cs[i] == c && cs[j] == d;
      assert xs[i] in xs && xs[j] in xs;
    }
    SortByKey(DumpsKey(h), DumpsLeq(h), cs, ds);
  }

  // ----- which keys are excluded, and what stays as it is -----

  ghost predicate StartsEnv(s: string) {
    exists rest :: s == "env_" + rest
  }

  /** The names of worlds, domains, times, chance and environment are excluded in any case, and
      so is every key starting with `env_`; nothing else is. */
  lemma {:induction false} ExcludedIff(key: string)
    ensures Excluded(key) <==>
            || Lower(key) in ["world", "world_id", "world_ids", "execution_world", "execution_domain", "domain", "domains"]
            || Lower(key) in ["as_of", "partition", "dataset_fingerprint", "timestamp", "seed", "random_state", "env"]
            || StartsEnv(Lower(key))
  {
    if ENV_PREFIX <= Lower(key) { assert Lower(key) == "env_" + Lower(key)[4..]; }
  }

  /** Scalars are their own canonical form, bytes become text, lists keep their order. */
  lemma {:induction false} CanonPlain(h: Host, v: Value)
    ensures v.Null? || v.Bool? || v.Int? || v.Real? || v.Str? ==> Canon(h, v) == v
    ensures v.Bytes? ==> Canon(h, v) == Str(v.decoded)
    ensures v.List? ==>
      var c := Canon(h, v);
      c.List? && |c.items| == |v.items| && forall i :: 0 <= i < |v.items| ==> c.items[i] == Canon(h, v.items[i])
  {
  }

  // ----- keys a tag query reads -----

  lemma {:induction false} KeyNotExcluded(k: string)
    requires k == "query_tags" || k == "match_mode" || k == "interval" || k == "tags"
    ensures !Excluded(k)
  {
    assert k[0] in ['q', 'm', 'i', 't'] && (k[0] == 't' ==> |k| == 4);
    assert Lower(k)[0] == k[0] && |Lower(k)| == |k|;
    if Excluded(k) { ExcludedHead(k); }
  }

  lemma {:induction false} ExcludedHead(k: string)
    requires Excluded(k)
    ensures |k| > 0 && Lower(k)[0] !in ['q', 'm', 'i'] && (Lower(k)[0] == 't' ==> |k| == 9)
  {
    assert ENV_PREFIX <= Lower(k) ==> Lower(k)[0] == ENV_PREFIX[0];
  }
}

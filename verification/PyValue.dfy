/** Loosely typed values as node payloads hold them, with the conversions the
    identity code applies to them. What comes from outside (JSON rendering, the
    text of containers, numeric parsing, hashing, checksums) is a parameter. */
module PyValue {
  import opened Wrappers
  import opened Text

  datatype Value =
    | Null | Bool(b: bool) | Int(i: int) | Real(r: real) | Str(s: string) | Bytes(decoded: string)
    | List(items: seq<Value>) | SetOf(members: seq<Value>) | Obj(entries: seq<Entry>)

  datatype Entry = Entry(key: string, value: Value)

  datatype Host = Host(
    dumps: Value -> string, repr: Value -> string, parseInt: string -> Option<int>,
    digest: string -> string, crc: seq<string> -> int)

  type Payload = map<string, Value>

  /** `payload.get(key)` */
  function Field(n: Payload, key: string): Value {
    if key in n then n[key] else Null
  }

  predicate Truthy(v: Value) {
    match v
    case Null => false
    case Bool(b) => b
    case Int(i) => i != 0
    case Real(r) => r != 0.0
    case Str(s) => s != ""
    case Bytes(s) => s != ""
    case List(xs) => xs != []
    case SetOf(xs) => xs != []
    case Obj(es) => es != []
  }

  /** `a or b` */
  function Or(a: Value, b: Value): Value {
    if Truthy(a) then a else b
  }

  /** `str(v)` */
  function StrOf(h: Host, v: Value): string {
    match v
    case Null => "None"
    case Bool(b) => if b then "True" else "False"
    case Int(i) => Decimal(i)
    case Str(s) => s
    case _ => h.repr(v)
  }

  function Truncate(r: real): int {
    if r >= 0.0 then r.Floor else -((-r).Floor)
  }

  /** `int(v)`; `Err` when it raises. */
  function IntOf(h: Host, v: Value): Result<int> {
    match v
    case Bool(b) => Ok(if b then 1 else 0)
    case Int(i) => Ok(i)
    case Real(r) => Ok(Truncate(r))
    case Str(s) => if h.parseInt(s).Some? then Ok(h.parseInt(s).value) else Err
    case Bytes(s) => if h.parseInt(s).Some? then Ok(h.parseInt(s).value) else Err
    case _ => Err
  }

  /** `int(v or 0)` */
  function IntOrZero(h: Host, v: Value): Result<int> {
    IntOf(h, Or(v, Int(0)))
  }

  function Chars(s: string): (r: seq<Value>)
    ensures |r| == |s| && forall i :: 0 <= i < |s| ==> r[i] == Str([s[i]])
  {
    if s == [] then [] else [Str([s[0]])] + Chars(s[1..])
  }

  function Codes(s: string): (r: seq<Value>)
    ensures |r| == |s| && forall i :: 0 <= i < |s| ==> r[i] == Int(s[i] as int)
  {
    if s == [] then [] else [Int(s[0] as int)] + Codes(s[1..])
  }

  function KeysOf(es: seq<Entry>): (r: seq<Value>)
    ensures |r| == |es| && forall i :: 0 <= i < |es| ==> r[i] == Str(es[i].key)
  {
    if es == [] then [] else [Str(es[0].key)] + KeysOf(es[1..])
  }

  /** What iterating over a value yields; `Err` when it is not iterable. */
  function Items(v: Value): Result<seq<Value>> {
    match v
    case Str(s) => Ok(Chars(s))
    case Bytes(s) => Ok(Codes(s))
    case List(xs) => Ok(xs)
    case SetOf(xs) => Ok(xs)
    case Obj(es) => Ok(KeysOf(es))
    case _ => Err
  }

  /** `mapping.get(key)`: of several entries with one name the last counts. */
  function Lookup(es: seq<Entry>, key: string): Value {
    if es == [] then Null
    else if es[|es| - 1].key == key then es[|es| - 1].value
    else Lookup(es[..|es| - 1], key)
  }

  predicate HasKey(es: seq<Entry>, key: string) {
    exists i :: 0 <= i < |es| && es[i].key == key
  }

  // ----- what these conversions amount to -----

  /** The false values. */
  lemma {:induction false} FalseValues(v: Value)
    ensures Truthy(v) <==> v !in [Null, Bool(false), Int(0), Real(0.0), Str(""), Bytes(""), List([]), SetOf([]), Obj([])]
  {
  }

  /** Real numbers become integers by dropping the fraction, on either side of zero. */
  lemma {:induction false} TruncateTowardsZero(r: real)
    ensures r >= 0.0 ==> Truncate(r) as real <= r < Truncate(r) as real + 1.0
    ensures r <= 0.0 ==> r <= Truncate(r) as real < r + 1.0
  {
  }

  /** Which values are numbers to `int`, and which. */
  lemma {:induction false} Numbers(h: Host, v: Value, i: int)
    ensures IntOf(h, v) == Ok(i) <==>
            || v == Int(i) || (v == Bool(true) && i == 1) || (v == Bool(false) && i == 0)
            || (v.Real? && Truncate(v.r) == i)
            || (v.Str? && h.parseInt(v.s) == Some(i)) || (v.Bytes? && h.parseInt(v.decoded) == Some(i))
  {
  }

  lemma {:induction false} ScalarTexts(h: Host, i: int, s: string)
    ensures StrOf(h, Null) == "None" && StrOf(h, Bool(true)) == "True" && StrOf(h, Bool(false)) == "False"
    ensures StrOf(h, Int(i)) == Decimal(i) && StrOf(h, Str(s)) == s
  {
  }

  /** What iterating over a value yields: characters of a text, codes of bytes, keys of a
      mapping; numbers, booleans and null cannot be iterated over. */
  lemma {:induction false} Iterated(v: Value, i: nat)
    ensures Items(v).Err? <==> v.Null? || v.Bool? || v.Int? || v.Real?
    ensures v.Str? && i < |v.s| ==> |Items(v).value| == |v.s| && Items(v).value[i] == Str([v.s[i]])
    ensures v.Bytes? && i < |v.decoded| ==> |Items(v).value| == |v.decoded| && Items(v).value[i] == Int(v.decoded[i] as int)
    ensures v.Obj? && i < |v.entries| ==> |Items(v).value| == |v.entries| && Items(v).value[i] == Str(v.entries[i].key)
    ensures v.List? ==> Items(v).value == v.items
    ensures v.SetOf? ==> Items(v).value == v.members
  {
  }
}

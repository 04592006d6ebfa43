/** The string operations the model relies on: decimal numerals, `str.strip`,
    `str.lower` (for ASCII letters), `str.split` and `str.join`. */
module Text {

  // ----- decimal numerals -----

  predicate IsDigit(c: char) {
    '0' <= c <= '9'
  }

  function Digit(d: nat): (c: char)
    requires d < 10
    ensures IsDigit(c) && DigitValue(c) == d
  {
    ('0' as int + d) as char
  }

  function DigitValue(c: char): nat {
    if IsDigit(c) then c as int - '0' as int else 0
  }

  function Digits(n: nat): string {
    if n < 10 then [Digit(n)] else Digits(n / 10) + [Digit(n % 10)]
  }

  function Value(s: string): nat {
    if s == [] then 0 else 10 * Value(s[..|s| - 1]) + DigitValue(s[|s| - 1])
  }

  lemma {:induction false} DigitsValue(n: nat)
    ensures Digits(n) != [] && Value(Digits(n)) == n
    ensures forall i :: 0 <= i < |Digits(n)| ==> IsDigit(Digits(n)[i])
  {
    if n >= 10 {
      DigitsValue(n / 10);
      var s := Digits(n);
      assert s[..|s| - 1] == Digits(n / 10);
    }
  }

  /** Python's `str(i)`. */
  function Decimal(i: int): string {
    if i < 0 then "-" + Digits(-i) else Digits(i)
  }

  lemma {:induction false} DecimalInjective(i: int, j: int)
    requires Decimal(i) == Decimal(j)
    ensures i == j
  {
    DigitsValue(if i < 0 then -i else i);
    DigitsValue(if j < 0 then -j else j);
    var s := Decimal(i);
    assert i < 0 <==> s[0] == '-';
    assert j < 0 <==> s[0] == '-';
    if i < 0 {
      assert s[1..] == Digits(-i) && s[1..] == Digits(-j);
    }
  }

  lemma {:induction false} DecimalShape(i: int)
    ensures Decimal(i) != [] && forall k :: 0 <= k < |Decimal(i)| ==> IsDigit(Decimal(i)[k]) || Decimal(i)[k] == '-'
  {
    DigitsValue(if i < 0 then -i else i);
  }

  // ----- whitespace and case -----

  /** The characters `str.isspace` accepts. */
  predicate IsSpace(c: char) {
    var n := c as int;
    || 0x09 <= n <= 0x0d || 0x1c <= n <= 0x20 || n == 0x85 || n == 0xa0 || n == 0x1680
    || 0x2000 <= n <= 0x200a || n == 0x2028 || n == 0x2029 || n == 0x202f || n == 0x205f || n == 0x3000
  }

  function StripLeft(s: string): string {
    if s != [] && IsSpace(s[0]) then StripLeft(s[1..]) else s
  }

  function StripRight(s: string): string {
    if s != [] && IsSpace(s[|s| - 1]) then StripRight(s[..|s| - 1]) else s
  }

  function Strip(s: string): string {
    StripRight(StripLeft(s))
  }

  predicate Stripped(s: string) {
    s != [] ==> !IsSpace(s[0]) && !IsSpace(s[|s| - 1])
  }

  lemma {:induction false} StripLeftStops(s: string)
    ensures StripLeft(s) != [] ==> !IsSpace(StripLeft(s)[0])
  {
    if s != [] && IsSpace(s[0]) { StripLeftStops(s[1..]); }
  }

  lemma {:induction false} StripRightStops(s: string)
    ensures StripRight(s) != [] ==> !IsSpace(StripRight(s)[|StripRight(s)| - 1])
    ensures StripRight(s) != [] ==> s != [] && StripRight(s)[0] == s[0]
  {
    if s != [] && IsSpace(s[|s| - 1]) { StripRightStops(s[..|s| - 1]); }
  }

  lemma {:induction false} StripStripped(s: string)
    ensures Stripped(Strip(s))
  {
    StripLeftStops(s);
    StripRightStops(StripLeft(s));
  }

  lemma {:induction false} StripFixed(s: string)
    requires Stripped(s)
    ensures Strip(s) == s
  {
  }

  predicate OnlySpace(s: string) {
    forall c :: c in s ==> IsSpace(c)
  }

  lemma {:induction false} LeftBlank(s: string) returns (pre: string)
    ensures s == pre + StripLeft(s) && OnlySpace(pre)
  {
    if s != [] && IsSpace(s[0]) {
      var rest := LeftBlank(s[1..]);
      pre := [s[0]] + rest;
      assert s == [s[0]] + s[1..];
    } else {
      pre := "";
    }
  }

  lemma {:induction false} RightBlank(s: string) returns (post: string)
    ensures s == StripRight(s) + post && OnlySpace(post)
  {
    if s != [] && IsSpace(s[|s| - 1]) {
      var rest := RightBlank(s[..|s| - 1]);
      post := rest + [s[|s| - 1]];
      assert s == s[..|s| - 1] + [s[|s| - 1]];
    } else {
      post := "";
    }
  }

  /** Stripping takes off whitespace at both ends and nothing else. */
  lemma {:induction false} StripTakesBlanks(s: string) returns (pre: string, post: string)
    ensures s == pre + Strip(s) + post && OnlySpace(pre) && OnlySpace(post) && Stripped(Strip(s))
  {
    pre := LeftBlank(s);
    post := RightBlank(StripLeft(s));
    StripStripped(s);
    assert s == pre + (Strip(s) + post);
  }

  /** Blanks, tabs and line ends are whitespace, printable ASCII is not. */
  lemma {:induction false} SpaceSamples()
    ensures IsSpace(' ') && IsSpace('\t') && IsSpace('\n') && IsSpace('\r')
    ensures forall c: char :: 0x21 <= c as int <= 0x7e ==> !IsSpace(c)
  {
  }

  function LowerChar(c: char): char {
    if 'A' <= c <= 'Z' then (c as int + 32) as char else c
  }

  function Lower(s: string): (r: string)
    ensures |r| == |s| && forall i :: 0 <= i < |s| ==> r[i] == LowerChar(s[i])
  {
    seq(|s|, i requires 0 <= i < |s| => LowerChar(s[i]))
  }

  lemma {:induction false} LowerFixed(s: string)
    ensures Lower(Lower(s)) == Lower(s)
    ensures Stripped(s) ==> Stripped(Lower(s))
  {
  }

  // ----- joining -----

  /** `sep.join(parts)` */
  function Join(sep: string, parts: seq<string>): string {
    if parts == [] then "" else if |parts| == 1 then parts[0] else parts[0] + sep + Join(sep, parts[1..])
  }

  /** Cutting two strings at their first delimiter: if neither `x` nor `y` contains
      one, and each remainder starts with one or is empty, the cut is unique. */
  lemma {:induction false} CutUnique(stop: char -> bool, x: string, s: string, y: string, t: string)
    requires forall c :: c in x ==> !stop(c)
    requires forall c :: c in y ==> !stop(c)
    requires s != [] ==> stop(s[0])
    requires t != [] ==> stop(t[0])
    requires x + s == y + t
    ensures x == y && s == t
  {
    assert x != [] ==> (x + s)[0] == x[0] && x[0] in x;
    assert y != [] ==> (y + t)[0] == y[0] && y[0] in y;
    if x != [] && y != [] {
      assert (x + s)[1..] == x[1..] + s && (y + t)[1..] == y[1..] + t;
      CutUnique(stop, x[1..], s, y[1..], t);
      assert x == [x[0]] + x[1..] && y == [y[0]] + y[1..];
    } else {
      assert x == [] ==> x + s == s;
      assert y == [] ==> y + t == t;
    }
  }

  lemma {:induction false} LowerSamples()
    ensures Lower("AZaz_09") == "azaz_09"
  {
    var r := Lower("AZaz_09");
    assert r[0] == 'a' && r[1] == 'z' && r[2] == 'a' && r[3] == 'z' && r[4] == '_' && r[5] == '0' && r[6] == '9';
  }

  lemma {:induction false} DecimalSamples()
    ensures Decimal(0) == "0" && Decimal(120) == "120" && Decimal(-7) == "-7"
  {
    assert Digits(12) == Digits(1) + [Digit(2)] && Digits(120) == Digits(12) + [Digit(0)];
    assert Digit(1) == '1' && Digit(2) == '2' && Digit(0) == '0' && Digit(7) == '7';
  }
}

/** Optional values and results, for `null`/`undefined` and thrown errors. */
module Wrappers {

  datatype Option<T> = None | Some(value: T)

  datatype Result<T, E> = Ok(value: T) | Err(error: E)
}

/** The data types and constants the client and the server share. */
module Puzzle {
  import opened Wrappers

  const MaxConnectionsMistakes: nat := 4
  const ConnectionsGroupSize: nat := 4
  const ConnectionsNumGroups: nat := 4
  const CrosswordSize: nat := 5
  const GameStartHour: nat := 8
  const GameEndHour: nat := 15
  const LeaderboardHour: nat := 17
  /** Monday, with Sunday as day 0. */
  const GameDay: nat := 1

  /** The four group colours, easiest first. */
  const ConnectionColors: seq<string> := ["#F9E300", "#009B3A", "#00A1DE", "#522398"]

  datatype PuzzleType = Connections | Crossword

  /** A Connections group; the source field `label` is called `title` here (`label` is a Dafny keyword). */
  datatype Group = Group(title: string, words: seq<string>, difficulty: int, color: string)

  datatype Direction = Across | Down

  /** A crossword clue; `answer` is optional in stored puzzles. */
  datatype Clue = Clue(number: int, clue: string, row: int, col: int, direction: Direction, answer: Option<string>)

  /** A grid of cells, `None` standing for a black cell (`null`). */
  type Grid = seq<seq<Option<string>>>

  datatype CrosswordData = CrosswordData(size: int, grid: Grid, across: seq<Clue>, down: seq<Clue>)

  /** What `getPuzzleData` hands to the game engine. */
  datatype PuzzleData = PuzzleData(groups: seq<Group>, crossword: CrosswordData)

  /** The single `current_puzzle` row; either half may be unset. */
  datatype CurrentPuzzle = CurrentPuzzle(connections: Option<seq<Group>>, crossword: Option<CrosswordData>)

  datatype Coord = Coord(row: int, col: int)

  /** Every group's words, group after group. */
  function AllWords(groups: seq<Group>): (r: seq<string>)
    ensures forall w :: w in r <==> exists g :: g in groups && w in g.words
  {
    if groups == [] then [] else
      var rest := AllWords(groups[1..]);
      assert forall g :: g in groups <==> g == groups[0] || g in groups[1..];
      groups[0].words + rest
  }

  /** A grid that is `n` rows of `n` cells. */
  predicate IsSquare(g: Grid, n: int) {
    |g| == n && forall r :: 0 <= r < |g| ==> |g[r]| == n
  }
}

/** JSON values as a request body delivers them, and the JavaScript coercions
    `String(v || '')`, `Number(v)` and `typeof` that the validators apply to them. */
module Json {
  import opened Wrappers
  import opened Text

  /** A JSON value. Numbers are split into integers and the others, a non-integer
      keeping the text JavaScript's `String` gives it. */
  datatype Json =
    | JNull
    | JBool(b: bool)
    | JInt(i: int)
    | JFrac(text: string)
    | JStr(s: string)
    | JArr(items: seq<Json>)
    | JObj(fields: map<string, Json>)

  /** `value.key`; `None` is `undefined`. */
  function Get(v: Json, key: string): (r: Option<Json>)
    ensures r.Some? <==> v.JObj? && key in v.fields
  {
    if v.JObj? && key in v.fields then Some(v.fields[key]) else None
  }

  /** `!!value && typeof value === 'object' && !Array.isArray(value)`. */
  predicate IsObject(v: Option<Json>) {
    v.Some? && v.value.JObj?
  }

  /** JavaScript truthiness; `undefined` is falsy. */
  predicate Truthy(v: Option<Json>) {
    match v
    case None => false
    case Some(j) =>
      match j
      case JNull => false
      case JBool(b) => b
      case JInt(i) => i != 0
      case JFrac(_) => true
      case JStr(s) => s != []
      case JArr(_) => true
      case JObj(_) => true
  }

  /** `String(v)` for a defined value. */
  function ToString(v: Json): string
    decreases v
  {
    match v
    case JNull => "null"
    case JBool(b) => if b then "true" else "false"
    case JInt(i) => IntToString(i)
    case JFrac(t) => t
    case JStr(s) => s
    case JArr(items) => JoinItems(items)
    case JObj(_) => "[object Object]"
  }

  /** `Array.prototype.toString`: elements joined by commas, `null` shown as nothing. */
  function JoinItems(items: seq<Json>): string
    decreases items
  {
    if items == [] then []
    else
      var first := if items[0].JNull? then "" else ToString(items[0]);
      if |items| == 1 then first else first + "," + JoinItems(items[1..])
  }

  /** `String(v || '')`: every falsy value becomes the empty string. */
  function StringOr(v: Option<Json>): (r: string)
    ensures !Truthy(v) ==> r == ""
    ensures v.Some? && v.value.JStr? ==> r == v.value.s
  {
    if Truthy(v) then ToString(v.value) else ""
  }

  /** What `Number(v)` yields, as far as the validators look at it. */
  datatype Num = Integer(value: int) | NotInteger

  /** A number as `Number` reads it from text: a finite value, kept exactly as
      `mantissa * 10^exponent`, an infinity, or `NaN`. */
  datatype JsNumber = Finite(mantissa: int, exponent: int) | Infinity(negative: bool) | NaN

  function Pow(b: nat, n: nat): (r: nat)
    ensures b >= 1 ==> r >= 1
  {
    if n == 0 then 1 else b * Pow(b, n - 1)
  }

  /** The value of a digit in bases up to 36: `0`-`9`, then `a`-`z` in either case; 36 for anything else. */
  function DigitValue(c: char): (d: nat)
    ensures d <= 36
    ensures IsDigit(c) <==> d < 10
    ensures IsDigit(c) ==> d == c as int - '0' as int
  {
    if IsDigit(c) then c as int - '0' as int
    else if 'a' <= c <= 'z' then c as int - 'a' as int + 10
    else if 'A' <= c <= 'Z' then c as int - 'A' as int + 10
    else 36
  }

  predicate DigitsIn(s: string, base: nat) {
    forall i :: 0 <= i < |s| ==> DigitValue(s[i]) < base
  }

  /** The value of the digits `s` in `base`, most significant first. */
  function ValueIn(s: string, base: nat): nat
    requires DigitsIn(s, base)
  {
    if s == [] then 0 else ValueIn(s[..|s| - 1], base) * base + DigitValue(s[|s| - 1])
  }

  /** The length of the run of decimal digits that `s` starts with. */
  function LeadingDigits(s: string): (n: nat)
    ensures n <= |s| && DigitsIn(s[..n], 10) && (n < |s| ==> !IsDigit(s[n]))
  {
    if s == [] || !IsDigit(s[0]) then 0
    else
      var n := 1 + LeadingDigits(s[1..]);
      assert forall i :: 1 <= i < n ==> s[..n][i] == s[1..][..n - 1][i - 1];
      n
  }

  /** An exponent after `e` or `E`: an optional sign and at least one digit. */
  function Exponent(s: string): Option<int> {
    if s != [] && (s[0] == '+' || s[0] == '-') && |s| > 1 && DigitsIn(s[1..], 10) then
      Some(if s[0] == '-' then 0 - ValueIn(s[1..], 10) else ValueIn(s[1..], 10))
    else if s != [] && DigitsIn(s, 10) then Some(ValueIn(s, 10))
    else None
  }

  /** An unsigned decimal literal: `Infinity`, or digits with an optional
      fraction after `.` and an optional exponent, with a digit before or after
      the point. Anything else is `NaN`. */
  function UnsignedValue(t: string): JsNumber {
    if t == "Infinity" then Infinity(false)
    else
      var a := LeadingDigits(t);
      var afterWhole := t[a..];
      var hasPoint := afterWhole != [] && afterWhole[0] == '.';
      var afterPoint := if hasPoint then afterWhole[1..] else afterWhole;
      var f := if hasPoint then LeadingDigits(afterPoint) else 0;
      var tail := afterPoint[f..];
      var digits := t[..a] + afterPoint[..f];
      assert DigitsIn(digits, 10) by {
        assert forall i :: a <= i < |digits| ==> digits[i] == afterPoint[..f][i - a];
      }
      if a + f == 0 then NaN
      else if tail == [] then Finite(ValueIn(digits, 10), 0 - f)
      else if (tail[0] == 'e' || tail[0] == 'E') && Exponent(tail[1..]).Some? then
        Finite(ValueIn(digits, 10), Exponent(tail[1..]).value - f)
      else NaN
  }

  /** The base that a prefix letter after `0` selects: `x`, `o` or `b` in either case. */
  function Radix(c: char): nat {
    if c == 'x' || c == 'X' then 16 else if c == 'o' || c == 'O' then 8 else if c == 'b' || c == 'B' then 2 else 0
  }

  /** `Number(s)` for a string: surrounding white space is ignored, blank is 0,
      `0x`/`0o`/`0b` introduce unsigned hexadecimal, octal and binary integers,
      and otherwise an optionally signed decimal literal is read. */
  function NumberValue(s: string): JsNumber {
    var t := Trim(s);
    if t == [] then Finite(0, 0)
    else if |t| > 2 && t[0] == '0' && Radix(t[1]) > 0 && DigitsIn(t[2..], Radix(t[1])) then
      Finite(ValueIn(t[2..], Radix(t[1])), 0)
    else if t[0] == '+' || t[0] == '-' then
      match UnsignedValue(t[1..])
      case Finite(m, e) => Finite(if t[0] == '-' then 0 - m else m, e)
      case Infinity(_) => Infinity(t[0] == '-')
      case NaN => NaN
    else UnsignedValue(t)
  }

  /** `Number.isInteger` on a number. */
  predicate IsIntegral(n: JsNumber) {
    n.Finite? && (n.exponent >= 0 || n.mantissa % Pow(10, 0 - n.exponent) == 0)
  }

  function IntegralValue(n: JsNumber): int
    requires n.Finite?
  {
    if n.exponent >= 0 then n.mantissa * Pow(10, n.exponent) else n.mantissa / Pow(10, 0 - n.exponent)
  }

  /** `n > k` for an integer `k`. */
  predicate Above(n: JsNumber, k: int) {
    match n
    case Finite(m, e) => if e >= 0 then m * Pow(10, e) > k else m > k * Pow(10, 0 - e)
    case Infinity(negative) => !negative
    case NaN => false
  }

  /** `v > k` for an integer `k`: the value is converted to a number, an array
      through its string form, and an object becomes `NaN`. */
  predicate Greater(v: Json, k: int) {
    match v
    case JNull => 0 > k
    case JBool(b) => (if b then 1 else 0) > k
    case JInt(i) => i > k
    case JFrac(t) => Above(NumberValue(t), k)
    case JStr(s) => Above(NumberValue(s), k)
    case JArr(_) => Above(NumberValue(ToString(v)), k)
    case JObj(_) => false
  }

  function StringToNumber(s: string): (r: Num)
    ensures r.Integer? <==> IsIntegral(NumberValue(s))
    ensures r.Integer? ==> r.value == IntegralValue(NumberValue(s))
  {
    var n := NumberValue(s);
    if IsIntegral(n) then Integer(IntegralValue(n)) else NotInteger
  }

  /** `Number(v)`; arrays and objects go through their string form, as in JavaScript. */
  function ToNumber(v: Option<Json>): (r: Num)
    ensures v.Some? && v.value.JInt? ==> r == Integer(v.value.i)
    ensures v.None? ==> r == NotInteger
  {
    match v
    case None => NotInteger
    case Some(j) =>
      match j
      case JNull => Integer(0)
      case JBool(b) => Integer(if b then 1 else 0)
      case JInt(i) => Integer(i)
      case JFrac(_) => NotInteger
      case JStr(s) => StringToNumber(s)
      case JArr(_) => StringToNumber(ToString(j))
      case JObj(_) => StringToNumber(ToString(j))
  }

  /** On decimal digits, `ValueIn` with base 10 is the decimal value. */
  lemma {:induction false} ValueInDecimal(s: string)
    requires forall i :: 0 <= i < |s| ==> IsDigit(s[i])
    ensures DigitsIn(s, 10) && ValueIn(s, 10) == DigitsValue(s)
  {
    if s != [] {
      ValueInDecimal(s[..|s| - 1]);
    }
  }

  /** A plain run of decimal digits reads as its value. */
  lemma {:induction false} UnsignedDigitsValue(t: string)
    requires |t| > 0 && forall i :: 0 <= i < |t| ==> IsDigit(t[i])
    ensures UnsignedValue(t) == Finite(DigitsValue(t), 0)
  {
    ValueInDecimal(t);
    assert t != "Infinity" by { assert IsDigit(t[0]); }
    var a := LeadingDigits(t);
    assert a == |t|;
    assert t[..a] + t[a..][..0] == t;
  }

  lemma {:induction false} DecimalStringToNumber(n: nat)
    ensures StringToNumber(NatToString(n)) == Integer(n)
  {
    var s := NatToString(n);
    assert s == [] || !IsSpace(s[0]);
    TrimNoOp(s);
    assert |s| > 2 ==> Radix(s[1]) == 0 by { if |s| > 2 { assert IsDigit(s[1]); } }
    UnsignedDigitsValue(s);
    NatToStringRoundTrip(n);
  }

  lemma {:induction false} NegativeStringToNumber(n: nat)
    ensures StringToNumber("-" + NatToString(n)) == Integer(0 - n)
  {
    var d := NatToString(n);
    var s := "-" + d;
    assert s[1..] == d;
    assert s[|s| - 1] == d[|d| - 1];
    assert !IsSpace(s[0]) && !IsSpace(s[|s| - 1]);
    TrimNoOp(s);
    UnsignedDigitsValue(d);
    NatToStringRoundTrip(n);
  }

  /** `Number` reads integers written with a zero fraction, and
      `Number.isInteger` accepts them. */
  lemma ZeroFractionIsInteger()
    ensures StringToNumber("5.0") == Integer(5)
  {
    TrimNoOp("5.0");
    assert LeadingDigits("5.0") == 1 && LeadingDigits("0") == 1;
    assert "5.0"[1..] == ".0" && ".0"[1..] == "0" && "5.0"[..1] + "0" == "50";
    assert ValueIn("50", 10) == 50 by { assert "50"[..1] == "5"; assert ValueIn("5", 10) == 5 by { assert "5"[..0] == ""; } }
    assert NumberValue("5.0") == Finite(50, -1);
  }

  /** An exponent that cancels the fraction gives an integer. */
  lemma ExponentIsInteger()
    ensures StringToNumber("50e-1") == Integer(5)
  {
    TrimNoOp("50e-1");
    assert LeadingDigits("50e-1") == 2 by { assert "50e-1"[1..] == "0e-1" && "0e-1"[1..] == "e-1"; }
    assert "50e-1"[2..] == "e-1" && "e-1"[1..] == "-1" && "50e-1"[..2] + [] == "50";
    assert ValueIn("50", 10) == 50 by { assert "50"[..1] == "5"; assert ValueIn("5", 10) == 5 by { assert "5"[..0] == ""; } }
    assert Exponent("-1") == Some(-1) by { assert "-1"[1..] == "1" && "1"[..0] == ""; }
    assert NumberValue("50e-1") == Finite(50, -1);
  }

  /** `0x` introduces a hexadecimal integer. */
  lemma HexIsInteger()
    ensures StringToNumber("0x5") == Integer(5)
  {
    TrimNoOp("0x5");
    assert "0x5"[2..] == "5" && "5"[..0] == "" && Radix("0x5"[1]) == 16;
    assert DigitsIn("5", 16) && ValueIn("5", 16) == 5;
    assert NumberValue("0x5") == Finite(5, 0);
  }

  /** `0b` introduces a binary integer. */
  lemma BinaryIsInteger()
    ensures StringToNumber("0b101") == Integer(5)
  {
    TrimNoOp("0b101");
    assert "0b101"[2..] == "101" && "101"[..2] == "10" && "10"[..1] == "1" && "1"[..0] == "";
    assert NumberValue("0b101") == Finite(5, 0);
  }

  /** A fraction is not an integer. */
  lemma FractionNotInteger()
    ensures StringToNumber("5.5") == NotInteger
  {
    TrimNoOp("5.5");
    assert LeadingDigits("5.5") == 1 && LeadingDigits("5") == 1;
    assert "5.5"[1..] == ".5" && ".5"[1..] == "5" && "5.5"[..1] + "5" == "55";
    assert ValueIn("55", 10) == 55 by { assert "55"[..1] == "5"; assert ValueIn("5", 10) == 5 by { assert "5"[..0] == ""; } }
    assert NumberValue("5.5") == Finite(55, -1);
  }

  /** A radix literal takes no sign, and a bare prefix has no digits: both are `NaN`. */
  lemma SignedRadixNotInteger()
    ensures StringToNumber("-0x5") == NotInteger
  {
    TrimNoOp("-0x5");
    assert "-0x5"[1..] == "0x5" && LeadingDigits("0x5") == 1 by { assert "0x5"[1..] == "x5"; }
    assert "0x5"[1..] == "x5";
    assert NumberValue("-0x5") == NaN;
  }

  lemma BarePrefixNotInteger()
    ensures StringToNumber("0x") == NotInteger
  {
    TrimNoOp("0x");
    assert LeadingDigits("0x") == 1 by { assert "0x"[1..] == "x"; }
    assert "0x"[1..] == "x";
    assert NumberValue("0x") == NaN;
  }

  /** An integer written out by JavaScript's `String` reads back as the same integer. */
  lemma IntegerRoundTrip(i: int)
    ensures ToNumber(Some(JStr(ToString(JInt(i))))) == Integer(i)
  {
    var s := ToString(JInt(i));
    assert s == IntToString(i);
    assert ToNumber(Some(JStr(s))) == StringToNumber(s);
    if i >= 0 {
      DecimalStringToNumber(i);
    } else {
      NegativeStringToNumber(-i);
    }
  }
}

/** String operations of the JavaScript runtime that the game relies on:
    `trim`, `toUpperCase`, `padStart`, `join`, `slice(0, 1)` and the decimal
    rendering of integers by `String(n)`. */
module Text {

  /** JavaScript's white space and line terminators, the characters `trim` removes. */
  predicate IsSpace(c: char) {
    var n := c as int;
    n == 0x09 || n == 0x0A || n == 0x0B || n == 0x0C || n == 0x0D || n == 0x20 ||
    n == 0xA0 || n == 0x1680 || (0x2000 <= n <= 0x200A) || n == 0x2028 || n == 0x2029 ||
    n == 0x202F || n == 0x205F || n == 0x3000 || n == 0xFEFF
  }

  function TrimStart(s: string): string
  {
    if |s| > 0 && IsSpace(s[0]) then TrimStart(s[1..]) else s
  }

  function TrimEnd(s: string): string
  {
    if |s| > 0 && IsSpace(s[|s| - 1]) then TrimEnd(s[..|s| - 1]) else s
  }

  /** `trimStart` removes a prefix of white space and stops at the first other character. */
  lemma {:induction false} TrimStartFacts(s: string)
    ensures var r := TrimStart(s);
      |r| <= |s| && r == s[|s| - |r|..] && (r == [] || !IsSpace(r[0])) &&
      forall i :: 0 <= i < |s| - |r| ==> IsSpace(s[i])
  {
    if |s| > 0 && IsSpace(s[0]) {
      TrimStartFacts(s[1..]);
      assert forall i :: 1 <= i < |s| ==> s[i] == s[1..][i - 1];
    }
  }

  /** `trimEnd` removes a suffix of white space and stops at the last other character. */
  lemma {:induction false} TrimEndFacts(s: string)
    ensures var r := TrimEnd(s);
      |r| <= |s| && r == s[..|r|] && (r == [] || !IsSpace(r[|r| - 1])) &&
      forall i :: |r| <= i < |s| ==> IsSpace(s[i])
  {
    if |s| > 0 && IsSpace(s[|s| - 1]) {
      TrimEndFacts(s[..|s| - 1]);
    }
  }

  /** `s.trim()`: the longest infix of `s` that neither starts nor ends with white space. */
  function Trim(s: string): (r: string)
  {
    TrimEnd(TrimStart(s))
  }

  lemma TrimShape(s: string)
    ensures exists i, j :: (0 <= i <= j <= |s| && Trim(s) == s[i..j] &&
      (forall k :: 0 <= k < i ==> IsSpace(s[k])) && (forall k :: j <= k < |s| ==> IsSpace(s[k])))
    ensures Trim(s) == [] || (!IsSpace(Trim(s)[0]) && !IsSpace(Trim(s)[|Trim(s)| - 1]))
  {
    var t := TrimStart(s);
    TrimStartFacts(s);
    TrimEndFacts(t);
    var i := |s| - |t|;
    var j := i + |TrimEnd(t)|;
    assert Trim(s) == s[i..j];
    assert forall k :: j <= k < |s| ==> s[k] == t[k - i];
  }

  lemma TrimIdempotent(s: string)
    ensures Trim(Trim(s)) == Trim(s)
  {
    var t := Trim(s);
    TrimShape(s);
    assert t == [] || !IsSpace(t[0]);
    TrimNoOp(t);
  }

  /** A string that neither starts nor ends with white space is its own trim. */
  lemma TrimNoOp(t: string)
    requires t == [] || (!IsSpace(t[0]) && !IsSpace(t[|t| - 1]))
    ensures Trim(t) == t
  {
    assert TrimStart(t) == t;
  }

  /** `toUpperCase` on one character; only the ASCII letters are mapped. */
  function UpperChar(c: char): (u: char)
    ensures IsSpace(u) <==> IsSpace(c)
    ensures 'a' <= c <= 'z' ==> 'A' <= u <= 'Z' && u as int == c as int - 32
    ensures !('a' <= c <= 'z') ==> u == c
  {
    if 'a' <= c <= 'z' then (c as int - 32) as char else c
  }

  function Upper(s: string): (r: string)
    ensures |r| == |s|
    ensures forall i :: 0 <= i < |s| ==> r[i] == UpperChar(s[i])
  {
    seq(|s|, i requires 0 <= i < |s| => UpperChar(s[i]))
  }

  lemma UpperIdempotent(s: string)
    ensures Upper(Upper(s)) == Upper(s)
  {
  }

  /** A string without lower-case letters is its own upper case. */
  lemma UpperNoLower(s: string)
    requires forall i :: 0 <= i < |s| ==> !('a' <= s[i] <= 'z')
    ensures Upper(s) == s
  {
  }

  /** Upper-casing neither adds nor removes white space, so it commutes with `trim`. */
  lemma UpperTrimCommute(s: string)
    ensures Upper(Trim(s)) == Trim(Upper(s))
  {
    UpperTrimStart(s);
    UpperTrimEnd(TrimStart(s));
  }

  lemma {:induction false} UpperTrimStart(s: string)
    ensures Upper(TrimStart(s)) == TrimStart(Upper(s))
  {
    if |s| > 0 && IsSpace(s[0]) {
      assert Upper(s)[1..] == Upper(s[1..]);
      UpperTrimStart(s[1..]);
    }
  }

  lemma {:induction false} UpperTrimEnd(s: string)
    ensures Upper(TrimEnd(s)) == TrimEnd(Upper(s))
  {
    if |s| > 0 && IsSpace(s[|s| - 1]) {
      assert Upper(s)[..|s| - 1] == Upper(s[..|s| - 1]);
      UpperTrimEnd(s[..|s| - 1]);
    }
  }

  // ---- Lengths ----

  /** How many UTF-16 code units encode `c`: two above U+FFFF, one otherwise. */
  function CodeUnits(c: char): nat {
    if c as int >= 0x10000 then 2 else 1
  }

  /** `s.length`, which counts UTF-16 code units rather than characters. */
  function JsLength(s: string): (n: nat)
    ensures |s| <= n <= 2 * |s|
  {
    if s == [] then 0 else CodeUnits(s[0]) + JsLength(s[1..])
  }

  /** Without a character above U+FFFF, `length` is the number of characters. */
  lemma {:induction false} JsLengthBasic(s: string)
    requires forall i :: 0 <= i < |s| ==> s[i] as int < 0x10000
    ensures JsLength(s) == |s|
  {
    if s != [] {
      JsLengthBasic(s[1..]);
    }
  }

  /** Upper-casing keeps `length`. */
  lemma {:induction false} JsLengthUpper(s: string)
    ensures JsLength(Upper(s)) == JsLength(s)
  {
    if s != [] {
      assert Upper(s)[1..] == Upper(s[1..]);
      JsLengthUpper(s[1..]);
    }
  }

  /** One emoji is one character but two code units. */
  lemma AstralCountsTwice()
    ensures |"\U{1F600}"| == 1 && JsLength("\U{1F600}") == 2
  {
    assert "\U{1F600}"[1..] == [];
  }

  /** The uppercase ASCII letters, the alphabet of the crossword. */
  predicate IsCapital(c: char) {
    'A' <= c <= 'Z'
  }

  /** `/^[A-Z]+$/`. */
  predicate AllCapitals(s: string) {
    |s| > 0 && forall i :: 0 <= i < |s| ==> IsCapital(s[i])
  }

  /** `s.slice(0, 1)`. */
  function FirstChar(s: string): (r: string)
    ensures |r| == if s == [] then 0 else 1
    ensures r <= s
  {
    if s == [] then [] else s[..1]
  }

  /** `parts.join(sep)`. */
  function Join(parts: seq<string>, sep: string): (r: string)
    ensures parts == [] ==> r == []
    ensures |parts| == 1 ==> r == parts[0]
  {
    if parts == [] then []
    else if |parts| == 1 then parts[0]
    else parts[0] + sep + Join(parts[1..], sep)
  }

  // ---- Decimal numerals ----

  predicate IsDigit(c: char) {
    '0' <= c <= '9'
  }

  function DigitChar(d: nat): (c: char)
    requires d < 10
    ensures IsDigit(c) && c as int - '0' as int == d
  {
    ('0' as int + d) as char
  }

  /** `String(n)` for a natural number: its decimal numeral without leading zeros. */
  function NatToString(n: nat): (r: string)
    ensures |r| >= 1
    ensures forall i :: 0 <= i < |r| ==> IsDigit(r[i])
    ensures |r| > 1 ==> r[0] != '0'
    ensures n < 10 <==> |r| == 1
  {
    if n < 10 then [DigitChar(n)] else NatToString(n / 10) + [DigitChar(n % 10)]
  }

  /** `String(i)` for any integer. */
  function IntToString(i: int): (r: string)
    ensures i >= 0 ==> r == NatToString(i)
    ensures i < 0 ==> r == "-" + NatToString(-i)
  {
    if i < 0 then "-" + NatToString(-i) else NatToString(i)
  }

  /** The value of a string of decimal digits, read most significant digit first. */
  function DigitsValue(s: string): nat
    requires forall i :: 0 <= i < |s| ==> IsDigit(s[i])
  {
    if s == [] then 0
    else
      var d := s[|s| - 1] as int - '0' as int;
      assert IsDigit(s[|s| - 1]);
      DigitsValue(s[..|s| - 1]) * 10 + d
  }

  lemma {:induction false} NatToStringRoundTrip(n: nat)
    ensures DigitsValue(NatToString(n)) == n
  {
    if n >= 10 {
      var r := NatToString(n);
      assert r[..|r| - 1] == NatToString(n / 10);
      NatToStringRoundTrip(n / 10);
    }
  }

  lemma NatToStringInjective(m: nat, n: nat)
    requires NatToString(m) == NatToString(n)
    ensures m == n
  {
    NatToStringRoundTrip(m);
    NatToStringRoundTrip(n);
  }

  /** `s.padStart(n, c)`. */
  function PadStart(s: string, n: nat, c: char): (r: string)
    ensures |r| == if |s| >= n then |s| else n
    ensures r[|r| - |s|..] == s
    ensures forall i :: 0 <= i < |r| - |s| ==> r[i] == c
  {
    if |s| >= n then s else seq(n - |s|, _ => c) + s
  }

  /** `String(n).padStart(2, '0')`, written once for every two-digit field of the clocks. */
  function Pad2(n: nat): (r: string)
    ensures |r| >= 2
    ensures forall i :: 0 <= i < |r| ==> IsDigit(r[i])
    ensures n < 100 ==> |r| == 2
  {
    PadStart(NatToString(n), 2, '0')
  }

  /** A zero-padded numeral still reads back as the number it renders. */
  lemma {:induction false} Pad2Value(n: nat)
    ensures DigitsValue(Pad2(n)) == n
  {
    NatToStringRoundTrip(n);
    var s := NatToString(n);
    if |s| < 2 {
      assert Pad2(n) == ['0'] + s;
      LeadingZero(s);
    }
  }

  lemma LeadingZero(s: string)
    requires |s| == 1 && IsDigit(s[0])
    ensures DigitsValue(['0'] + s) == DigitsValue(s)
  {
    var t := ['0'] + s;
    assert t[..|t| - 1] == ['0'];
    assert ['0'][..0] == [];
  }
}

/** A lexicographic order on strings by character, and a sort that realises
    it. JavaScript's default `Array.prototype.sort` compares UTF-16 code
    units instead, which orders characters above U+FFFF differently from
    some characters between U+E000 and U+FFFF; only the equality of two
    sorted lists is used, and that does not depend on the order chosen. */
module StringOrder {

  /** `a <= b` lexicographically. */
  predicate Leq(a: string, b: string) {
    a == [] || (b != [] && (a[0] < b[0] || (a[0] == b[0] && Leq(a[1..], b[1..]))))
  }

  lemma {:induction false} LeqTotal(a: string, b: string)
    ensures Leq(a, b) || Leq(b, a)
  {
    if a != [] && b != [] && a[0] == b[0] {
      LeqTotal(a[1..], b[1..]);
    }
  }

  lemma {:induction false} LeqAntisymmetric(a: string, b: string)
    requires Leq(a, b) && Leq(b, a)
    ensures a == b
  {
    if a != [] && b != [] {
      LeqAntisymmetric(a[1..], b[1..]);
      assert a == [a[0]] + a[1..];
      assert b == [b[0]] + b[1..];
    }
  }

  lemma {:induction false} LeqTransitive(a: string, b: string, c: string)
    requires Leq(a, b) && Leq(b, c)
    ensures Leq(a, c)
  {
    if a != [] && a[0] == b[0] && b[0] == c[0] {
      LeqTransitive(a[1..], b[1..], c[1..]);
    }
  }

  predicate Sorted(s: seq<string>) {
    forall i, j :: 0 <= i < j < |s| ==> Leq(s[i], s[j])
  }

  function Insert(x: string, s: seq<string>): (r: seq<string>)
    requires Sorted(s)
    ensures Sorted(r)
    ensures multiset(r) == multiset(s) + multiset{x}
  {
    if s == [] then [x]
    else if Leq(x, s[0]) then
      InsertFront(x, s);
      [x] + s
    else
      LeqTotal(x, s[0]);
      var rest := Insert(x, s[1..]);
      assert s == [s[0]] + s[1..];
      InsertBehind(s[0], rest, x, s[1..]);
      [s[0]] + rest
  }

  lemma InsertFront(x: string, s: seq<string>)
    requires Sorted(s) && s != [] && Leq(x, s[0])
    ensures Sorted([x] + s)
  {
    var r := [x] + s;
    forall i, j | 0 <= i < j < |r| ensures Leq(r[i], r[j]) {
      if i == 0 && j > 1 { LeqTransitive(x, s[0], s[j - 1]); }
    }
  }

  lemma InsertBehind(h: string, rest: seq<string>, x: string, tail: seq<string>)
    requires Sorted(rest) && Sorted([h] + tail) && Leq(h, x)
    requires multiset(rest) == multiset(tail) + multiset{x}
    ensures Sorted([h] + rest)
  {
    var t := [h] + tail;
    forall j | 0 <= j < |rest| ensures Leq(h, rest[j]) {
      assert rest[j] in multiset(rest);
      if rest[j] != x {
        assert rest[j] in multiset(tail);
        var k :| 0 <= k < |tail| && tail[k] == rest[j];
        assert t[k + 1] == rest[j];
        assert Leq(t[0], t[k + 1]);
      }
    }
    var r := [h] + rest;
    forall i, j | 0 <= i < j < |r| ensures Leq(r[i], r[j]) {
      if i > 0 { assert Leq(rest[i - 1], rest[j - 1]); }
    }
  }

  /** `[...s].sort()` on strings. */
  function Sort(s: seq<string>): (r: seq<string>)
    ensures Sorted(r)
    ensures multiset(r) == multiset(s)
  {
    if s == [] then []
    else
      assert s == [s[0]] + s[1..];
      Insert(s[0], Sort(s[1..]))
  }

  /** The head of a sorted sequence is below every element of it. */
  lemma HeadIsLeast(x: seq<string>, e: string)
    requires Sorted(x) && e in multiset(x)
    ensures Leq(x[0], e)
  {
    var i :| 0 <= i < |x| && x[i] == e;
    if i == 0 { LeqReflexive(e); }
  }

  /** Two sorted sequences with the same elements are equal. */
  lemma {:induction false} SortedUnique(x: seq<string>, y: seq<string>)
    requires Sorted(x) && Sorted(y) && multiset(x) == multiset(y)
    ensures x == y
  {
    if x != [] {
      assert x[0] in multiset(x);
      assert |y| == |x|;
      assert y[0] in multiset(y);
      HeadIsLeast(x, y[0]);
      HeadIsLeast(y, x[0]);
      LeqAntisymmetric(x[0], y[0]);
      TailMultiset(x);
      TailMultiset(y);
      SortedUnique(x[1..], y[1..]);
    }
  }

  lemma TailMultiset(x: seq<string>)
    requires x != []
    ensures Sorted(x) ==> Sorted(x[1..])
    ensures multiset(x[1..]) == multiset(x) - multiset{x[0]}
  {
    assert x == [x[0]] + x[1..];
  }

  lemma {:induction false} LeqReflexive(a: string)
    ensures Leq(a, a)
  {
    if a != [] { LeqReflexive(a[1..]); }
  }

  /** Sorting forgets order and nothing else: two lists sort to the same
      list exactly when they hold the same strings equally often. */
  lemma SortEqualIff(a: seq<string>, b: seq<string>)
    ensures Sort(a) == Sort(b) <==> multiset(a) == multiset(b)
  {
    if multiset(a) == multiset(b) {
      SortedUnique(Sort(a), Sort(b));
    }
  }
}

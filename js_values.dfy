/** The small part of JavaScript's value semantics that the data layer relies on:
    numbers with their non-finite values, the cells a parsed CSV row holds,
    `Number(...)`, `parseInt(..., 10)`, `toLowerCase` and `includes`. */
module JsValues {

  datatype Option<T> = None | Some(value: T)

  datatype Result<T, E> = Ok(value: T) | Err(error: E)

  /** A JavaScript number. Finite values are restricted to integers:
      every count, cost and index the program handles is whole. */
  datatype Num = Finite(v: int) | NaN | PosInf | NegInf

  /** What a parsed CSV cell can hold: a number (possibly NaN or infinite),
      a string, a boolean, `null` (an empty cell) or `undefined` (no such column). */
  datatype Cell = Number(n: Num) | Text(s: string) | Bool(b: bool) | Null | Missing

  /** `a <= b` on numbers: false whenever a side is NaN; the infinities
      compare below and above every other number. */
  predicate NumLessEq(a: Num, b: Num) {
    match (a, b)
    case (NaN, _) => false
    case (_, NaN) => false
    case (NegInf, _) => true
    case (_, PosInf) => true
    case (PosInf, _) => false
    case (_, NegInf) => false
    case (Finite(x), Finite(y)) => x <= y
  }

  // ---------- characters and strings ----------

  predicate IsWhitespace(c: char) {
    c == ' ' || c == '\t' || c == '\n' || c == '\r' || c == '\U{000B}' || c == '\U{000C}'
  }

  predicate IsDigit(c: char) {
    '0' <= c <= '9'
  }

  predicate AllDigits(s: string) {
    forall i :: 0 <= i < |s| ==> IsDigit(s[i])
  }

  /** `toLowerCase` on the ASCII letters. */
  function LowerChar(c: char): char {
    if 'A' <= c <= 'Z' then (c as int + 32) as char else c
  }

  function ToLower(s: string): (r: string)
    ensures |r| == |s|
    ensures forall i :: 0 <= i < |s| ==> r[i] == LowerChar(s[i])
  {
    seq(|s|, i requires 0 <= i < |s| => LowerChar(s[i]))
  }

  lemma ToLowerIdempotent(s: string)
    ensures ToLower(ToLower(s)) == ToLower(s)
  {
  }

  /** Two characters that differ at most in the case of an ASCII letter. */
  predicate SameLetterIgnoringCase(a: char, b: char) {
    || a == b
    || ('A' <= a <= 'Z' && b as int == a as int + 32)
    || ('A' <= b <= 'Z' && a as int == b as int + 32)
  }

  lemma LowerCharAgreement(a: char, b: char)
    ensures LowerChar(a) == LowerChar(b) <==> SameLetterIgnoringCase(a, b)
  {
  }

  /** Two strings lower-case to the same string exactly when they have the same
      length and differ at most in the case of ASCII letters. */
  lemma ToLowerAgreement(s: string, t: string)
    ensures ToLower(s) == ToLower(t) <==>
              |s| == |t| && forall i :: 0 <= i < |s| ==> SameLetterIgnoringCase(s[i], t[i])
  {
    if ToLower(s) == ToLower(t) {
      forall i | 0 <= i < |s|
        ensures SameLetterIgnoringCase(s[i], t[i])
      {
        assert ToLower(s)[i] == ToLower(t)[i];
        LowerCharAgreement(s[i], t[i]);
      }
    }
    if |s| == |t| && forall i :: 0 <= i < |s| ==> SameLetterIgnoringCase(s[i], t[i]) {
      forall i | 0 <= i < |s|
        ensures ToLower(s)[i] == ToLower(t)[i]
      {
        LowerCharAgreement(s[i], t[i]);
      }
    }
  }

  /** `/^prefix/.test(s)` for a prefix without regular-expression metacharacters. */
  predicate StartsWith(s: string, prefix: string) {
    |prefix| <= |s| && s[..|prefix|] == prefix
  }

  /** `s.includes(t)`. */
  predicate Contains(s: string, t: string)
    decreases |s|
  {
    StartsWith(s, t) || (s != [] && Contains(s[1..], t))
  }

  /** `t` occurs in `s` starting at position `i`. */
  predicate OccursAt(s: string, t: string, i: int) {
    0 <= i <= |s| - |t| && s[i..i + |t|] == t
  }

  /** `includes` is substring search: some position of `s` starts a copy of `t`. */
  lemma {:induction false} ContainsAt(s: string, t: string)
    ensures Contains(s, t) <==> exists i :: OccursAt(s, t, i)
    decreases |s|
  {
    if StartsWith(s, t) {
      assert OccursAt(s, t, 0);
    } else if s != [] {
      ContainsAt(s[1..], t);
      if Contains(s[1..], t) {
        var i :| OccursAt(s[1..], t, i);
        assert OccursAt(s, t, i + 1);
      }
      if i :| OccursAt(s, t, i) {
        assert i != 0;
        assert OccursAt(s[1..], t, i - 1);
      }
    }
  }

  function TrimStart(s: string): (r: string)
    ensures |r| <= |s| && r == s[|s| - |r|..]
    ensures r != [] ==> !IsWhitespace(r[0])
    ensures forall i :: 0 <= i < |s| - |r| ==> IsWhitespace(s[i])
  {
    if s != [] && IsWhitespace(s[0]) then
      var r := TrimStart(s[1..]);
      TrimmedTail(s, r);
      r
    else s
  }

  /** Trimming the tail of a string whose first character is blank trims the string. */
  lemma TrimmedTail(s: string, r: string)
    requires s != [] && IsWhitespace(s[0])
    requires |r| <= |s| - 1 && r == s[1..][|s| - 1 - |r|..]
    requires forall i :: 0 <= i < |s| - 1 - |r| ==> IsWhitespace(s[1..][i])
    ensures r == s[|s| - |r|..]
    ensures forall i :: 0 <= i < |s| - |r| ==> IsWhitespace(s[i])
  {
    forall i | 0 <= i < |s| - |r| ensures IsWhitespace(s[i]) {
      if i > 0 {
        assert s[i] == s[1..][i - 1];
      }
    }
  }

  function TrimEnd(s: string): (r: string)
    ensures |r| <= |s| && r == s[..|r|]
    ensures r != [] ==> !IsWhitespace(r[|r| - 1])
    ensures forall i :: |r| <= i < |s| ==> IsWhitespace(s[i])
  {
    if s != [] && IsWhitespace(s[|s| - 1]) then TrimEnd(s[..|s| - 1]) else s
  }

  function Trim(s: string): string {
    TrimEnd(TrimStart(s))
  }

  // ---------- decimal digits ----------

  function DigitValue(c: char): nat
    requires IsDigit(c)
  {
    c as int - '0' as int
  }

  function DigitsValue(s: string): nat
    requires AllDigits(s)
  {
    if s == [] then 0 else DigitsValue(s[..|s| - 1]) * 10 + DigitValue(s[|s| - 1])
  }

  /** The longest prefix of `s` made of decimal digits. */
  function DigitPrefix(s: string): (r: string)
    ensures |r| <= |s| && AllDigits(r) && r == s[..|r|]
    ensures |r| < |s| ==> !IsDigit(s[|r|])
  {
    if s != [] && IsDigit(s[0]) then [s[0]] + DigitPrefix(s[1..]) else []
  }

  /** `String(n)` for an integer: its shortest decimal spelling. */
  function DecimalString(n: int): (r: string)
    ensures r != []
  {
    if n < 0 then "-" + NaturalString(-n) else NaturalString(n)
  }

  function NaturalString(n: nat): (r: string)
    ensures r != [] && AllDigits(r)
    ensures r[0] != '-' && r[0] != '+' && !IsWhitespace(r[0]) && !IsWhitespace(r[|r| - 1])
  {
    var last := ['0' + (n % 10) as char];
    if n < 10 then last else NaturalString(n / 10) + last
  }

  lemma {:induction false} NaturalStringValue(n: nat)
    ensures DigitsValue(NaturalString(n)) == n
  {
    var s := NaturalString(n);
    if n >= 10 {
      NaturalStringValue(n / 10);
      assert s[..|s| - 1] == NaturalString(n / 10);
    }
  }

  // ---------- Number(...) and parseInt(..., 10) ----------

  /** `Number(s)` for a string: surrounding whitespace is ignored, the empty
      string is 0, an optionally signed run of decimal digits or `Infinity`
      is that number, and anything else is NaN. */
  function ParseNumber(s: string): Num {
    var t := Trim(s);
    if t == "" then Finite(0)
    else if t[0] == '-' && |t| > 1 && AllDigits(t[1..]) then Finite(-(DigitsValue(t[1..]) as int))
    else if t[0] == '+' && |t| > 1 && AllDigits(t[1..]) then Finite(DigitsValue(t[1..]))
    else if AllDigits(t) then Finite(DigitsValue(t))
    else if t == "Infinity" || t == "+Infinity" then PosInf
    else if t == "-Infinity" then NegInf
    else NaN
  }

  /** `Number(value)` for every kind of cell. */
  function ToNumber(c: Cell): (r: Num)
    ensures c.Number? ==> r == c.n
    ensures c.Null? ==> r == Finite(0)
    ensures c.Missing? ==> r == NaN
  {
    match c
    case Number(n) => n
    case Text(s) => ParseNumber(s)
    case Bool(b) => Finite(if b then 1 else 0)
    case Null => Finite(0)
    case Missing => NaN
  }

  /** `parseInt(s, 10)`: leading whitespace and one sign are skipped, then the
      longest run of digits is read; without a digit the result is NaN (None). */
  function ParseIntDecimal(s: string): (r: Option<int>) {
    var t := TrimStart(s);
    var negative := t != [] && t[0] == '-';
    var body := if t != [] && (t[0] == '-' || t[0] == '+') then t[1..] else t;
    var digits := DigitPrefix(body);
    if digits == [] then None
    else if negative then Some(-(DigitsValue(digits) as int))
    else Some(DigitsValue(digits))
  }

  /** Number(String(n)) == n: the spelling of a number reads back as that number. */
  lemma NumberReadsDecimalString(n: int)
    ensures ParseNumber(DecimalString(n)) == Finite(n)
  {
    if n < 0 {
      NumberReadsNegative(n);
    } else {
      NumberReadsNatural(n);
    }
  }

  lemma NumberReadsNatural(n: int)
    requires n >= 0
    ensures ParseNumber(DecimalString(n)) == Finite(n)
  {
    var s := NaturalString(n);
    assert DecimalString(n) == s;
    NaturalStringValue(n);
    assert TrimStart(s) == s;
    assert TrimEnd(s) == s;
  }

  lemma NumberReadsNegative(n: int)
    requires n < 0
    ensures ParseNumber(DecimalString(n)) == Finite(n)
  {
    var d := NaturalString(-n);
    var s := "-" + d;
    assert DecimalString(n) == s;
    NaturalStringValue(-n);
    assert s[1..] == d;
    assert TrimStart(s) == s;
    assert TrimEnd(s) == s;
  }

  /** parseInt(String(n), 10) == n. */
  lemma ParseIntReadsDecimalString(n: int)
    ensures ParseIntDecimal(DecimalString(n)) == Some(n)
  {
    if n < 0 {
      ParseIntReadsNegative(n);
    } else {
      ParseIntReadsNatural(n);
    }
  }

  lemma ParseIntReadsNatural(n: int)
    requires n >= 0
    ensures ParseIntDecimal(DecimalString(n)) == Some(n)
  {
    var s := NaturalString(n);
    assert DecimalString(n) == s;
    assert TrimStart(s) == s;
    DigitPrefixOfDigits(s);
    NaturalStringValue(n);
  }

  lemma ParseIntReadsNegative(n: int)
    requires n < 0
    ensures ParseIntDecimal(DecimalString(n)) == Some(n)
  {
    var s := DecimalString(n);
    NegativeSpelling(n);
    NaturalStringValue(-n);
    assert DigitsValue(s[1..]) == -n;
    ParseIntMinusDigits(s);
  }

  /** A negative number is spelled as a minus sign and the digits of its magnitude. */
  lemma NegativeSpelling(n: int)
    requires n < 0
    ensures var s := DecimalString(n);
            |s| > 1 && s[0] == '-' && s[1..] == NaturalString(-n)
  {
    var s := DecimalString(n);
    assert s == "-" + NaturalString(-n);
    assert s[1..] == NaturalString(-n);
  }

  /** A minus sign followed by digits reads as the negated digits. */
  lemma ParseIntMinusDigits(s: string)
    requires |s| > 1 && s[0] == '-' && AllDigits(s[1..])
    ensures ParseIntDecimal(s) == Some(-(DigitsValue(s[1..]) as int))
  {
    var t := TrimStart(s);
    assert t == s;
    DigitPrefixOfDigits(s[1..]);
    assert t[0] == '-' && DigitPrefix(t[1..]) == s[1..] != [];
  }

  lemma {:induction false} DigitPrefixOfDigits(s: string)
    requires AllDigits(s)
    ensures DigitPrefix(s) == s
  {
    if s != [] {
      DigitPrefixOfDigits(s[1..]);
    }
  }

  /** A target with no digit after the optional blanks and sign is NaN. */
  lemma ParseIntWithoutDigit(s: string)
    requires var t := TrimStart(s);
             t == [] || (!IsDigit(t[0]) && ((t[0] != '-' && t[0] != '+') || |t| == 1 || !IsDigit(t[1])))
    ensures ParseIntDecimal(s) == None
  {
  }
}

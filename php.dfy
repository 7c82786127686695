/**
 * The few PHP value rules the controllers depend on: truthiness of strings
 * and request values, `isset`, the `(int)` cast of a string, and the
 * decimal text of an integer (what string interpolation and
 * `http_build_query` write for an int). Integers are PHP's 64-bit ints.
 */
module Php {

  import opened OrderedMaps

  const IntMax: int := 0x7fff_ffff_ffff_ffff
  const IntMin: int := -0x8000_0000_0000_0000

  /** A request, session or attribute value. */
  datatype Value =
    | Null
    | Bool(b: bool)
    | Int(i: int)
    | Str(s: string)
    | Arr(entries: OMap<string, Value>)

  /** `if ($s)` on a string: only "" and "0" are false. */
  predicate StrTruthy(s: string) {
    s != "" && s != "0"
  }

  /** `if ($v)` on a value. */
  predicate Truthy(v: Value) {
    match v
    case Null => false
    case Bool(b) => b
    case Int(i) => i != 0
    case Str(s) => StrTruthy(s)
    case Arr(e) => e != []
  }

  /** `isset($m[$k])`: the key is present and its value is not null. */
  predicate IsSet(m: map<string, Value>, k: string) {
    k in m && m[k] != Null
  }

  /**
   * `$session->get($k, $default)` and `$request->get($k, $default)`: the
   * value when it is set, else the default. Both test with `isset`, so a
   * key stored with null reads as a missing one.
   */
  function GetOrDefault(m: map<string, Value>, k: string, default: Value): (v: Value)
    ensures k !in m ==> v == default
    ensures k in m && m[k] == Null ==> v == default
    ensures k in m && m[k] != Null ==> v == m[k]
  {
    if IsSet(m, k) then m[k] else default
  }

  /**
   * A get after a set: the value stored, unless it is null, in which case
   * the default; a set under another key changes nothing the get sees.
   */
  lemma GetAfterSet(m: map<string, Value>, k: string, x: Value, j: string, default: Value)
    ensures GetOrDefault(m[k := x], k, default) == if x == Null then default else x
    ensures j != k ==> GetOrDefault(m[k := x], j, default) == GetOrDefault(m, j, default)
  {
  }

  predicate IsSpace(c: char) {
    c == ' ' || c == '\t' || c == '\n' || c == '\r' || c == 11 as char || c == 12 as char
  }

  predicate IsDigit(c: char) {
    '0' <= c <= '9'
  }

  function DigitValue(c: char): (d: nat)
    requires IsDigit(c)
    ensures d < 10
  {
    (c as int) - ('0' as int)
  }

  function DigitChar(d: nat): (c: char)
    requires d < 10
    ensures IsDigit(c) && DigitValue(c) == d
  {
    (('0' as int) + d) as char
  }

  function SkipSpace(s: string): (t: string)
    ensures |t| <= |s| && t == s[|s| - |t|..]
    ensures t != [] ==> !IsSpace(t[0])
  {
    if s != [] && IsSpace(s[0]) then SkipSpace(s[1..]) else s
  }

  /** The longest prefix of `s` made of decimal digits. */
  function DigitPrefix(s: string): (ds: string)
    ensures |ds| <= |s| && ds == s[..|ds|]
    ensures forall i :: 0 <= i < |ds| ==> IsDigit(ds[i])
    ensures |ds| < |s| ==> !IsDigit(s[|ds|])
  {
    if s != [] && IsDigit(s[0]) then [s[0]] + DigitPrefix(s[1..]) else []
  }

  /** The number a string of decimal digits denotes. */
  function DigitsValue(ds: string): nat
    requires forall i :: 0 <= i < |ds| ==> IsDigit(ds[i])
  {
    if ds == [] then 0 else DigitsValue(ds[..|ds| - 1]) * 10 + DigitValue(ds[|ds| - 1])
  }

  function Clamp(n: int): (r: int)
    ensures IntMin <= r <= IntMax
    ensures IntMin <= n <= IntMax ==> r == n
  {
    if n > IntMax then IntMax else if n < IntMin then IntMin else n
  }

  /** The text after an optional leading sign. */
  function AfterSign(t: string): string {
    if t != [] && (t[0] == '-' || t[0] == '+') then t[1..] else t
  }

  /** The sign and digits that `(int)` reads after leading white space. */
  function NumberPart(s: string): (r: (int, string))
    ensures r.0 == 1 || r.0 == -1
    ensures forall i :: 0 <= i < |r.1| ==> IsDigit(r.1[i])
  {
    var t := SkipSpace(s);
    (if t != [] && t[0] == '-' then -1 else 1, DigitPrefix(AfterSign(t)))
  }

  /**
   * A string that weak-mode coercion accepts for an `int` parameter: after
   * white space and a sign, at least one digit. Any other string raises a
   * TypeError.
   */
  predicate LeadingNumeric(s: string) {
    NumberPart(s).1 != []
  }

  /**
   * `(int) $s`: leading white space, an optional sign and the longest run of
   * digits, saturated at the 64-bit bounds; a string without digits gives 0.
   */
  function IntCast(s: string): (n: int)
    ensures IntMin <= n <= IntMax
    ensures !LeadingNumeric(s) ==> n == 0
  {
    var (sign, ds) := NumberPart(s);
    Clamp(sign * DigitsValue(ds))
  }

  /** The decimal digits of a natural number, without leading zeros. */
  function NatText(n: nat): (t: string)
    ensures t != [] && forall i :: 0 <= i < |t| ==> IsDigit(t[i])
    decreases n
  {
    if n < 10 then [DigitChar(n)] else NatText(n / 10) + [DigitChar(n % 10)]
  }

  /** The text PHP writes for an int. */
  function IntText(n: int): string {
    if n < 0 then "-" + NatText(-n) else NatText(n)
  }

  lemma {:induction false} NatTextValue(n: nat)
    ensures DigitsValue(NatText(n)) == n
    decreases n
  {
    var t := NatText(n);
    if n >= 10 {
      NatTextValue(n / 10);
      assert t[..|t| - 1] == NatText(n / 10);
    }
  }

  lemma {:induction false} DigitPrefixAll(ds: string)
    requires forall i :: 0 <= i < |ds| ==> IsDigit(ds[i])
    ensures DigitPrefix(ds) == ds
  {
    if ds != [] {
      DigitPrefixAll(ds[1..]);
      assert [ds[0]] + ds[1..] == ds;
    }
  }

  /** `(int)` reads back every int that PHP writes as text. */
  lemma IntCastText(n: int)
    requires IntMin <= n <= IntMax
    ensures LeadingNumeric(IntText(n)) && IntArgument(IntText(n))
    ensures IntCast(IntText(n)) == n
  {
    if n < 0 {
      NegativeText(-n);
    } else {
      IntCastNat(n);
    }
  }

  lemma IntCastNat(n: nat)
    requires n <= IntMax
    ensures NumberPart(NatText(n)) == (1, NatText(n))
    ensures IntCast(NatText(n)) == n
    ensures IntegerString(NatText(n)) && NumberValue(NatText(n)) == n
  {
    var d := NatText(n);
    SameNumberPart(d, []);
    assert d + [] == d;
    NatTextValue(n);
    DigitsClean(d);
  }

  lemma NegativeText(n: nat)
    requires 0 < n <= -IntMin
    ensures NumberPart("-" + NatText(n)) == (-1, NatText(n))
    ensures IntCast("-" + NatText(n)) == -(n as int)
    ensures IntegerString("-" + NatText(n)) && NumberValue("-" + NatText(n)) == -(n as int)
  {
    var d := NatText(n);
    var t := "-" + d;
    assert SkipSpace(t) == t;
    assert t[1..] == d;
    assert AfterSign(t) == d;
    DigitPrefixAll(d);
    NatTextValue(n);
  }

  /** Trailing text after the digits is ignored by the cast. */
  lemma IntCastIgnoresSuffix(n: nat, rest: string)
    requires n <= IntMax
    requires rest == [] || !IsDigit(rest[0])
    ensures IntCast(NatText(n) + rest) == n
  {
    var d := NatText(n);
    IntCastNat(n);
    SameNumberPart(d, rest);
    assert IntCast(d + rest) == IntCast(d);
  }

  /** `(int)` reads a run of digits as the number it denotes, when that fits. */
  lemma DigitsCast(d: string)
    requires d != [] && forall i :: 0 <= i < |d| ==> IsDigit(d[i])
    requires DigitsValue(d) <= IntMax
    ensures IntCast(d) == DigitsValue(d)
  {
    SameNumberPart(d, []);
    assert d + [] == d;
  }

  /** A run of digits has no white space or sign to skip. */
  lemma DigitsClean(d: string)
    requires d != [] && forall i :: 0 <= i < |d| ==> IsDigit(d[i])
    ensures SkipSpace(d) == d && AfterSign(d) == d
  {
    assert IsDigit(d[0]);
    assert !IsSpace(d[0]) && d[0] != '-' && d[0] != '+';
  }

  /** Text after a run of digits does not change the sign and digits read. */
  lemma SameNumberPart(d: string, rest: string)
    requires d != [] && forall i :: 0 <= i < |d| ==> IsDigit(d[i])
    requires rest == [] || !IsDigit(rest[0])
    ensures NumberPart(d + rest) == (1, d)
  {
    var t := d + rest;
    assert t[0] == d[0];
    assert SkipSpace(t) == t;
    DigitPrefixStops(d, rest);
  }

  lemma {:induction false} DigitPrefixStops(ds: string, rest: string)
    requires forall i :: 0 <= i < |ds| ==> IsDigit(ds[i])
    requires rest == [] || !IsDigit(rest[0])
    ensures DigitPrefix(ds + rest) == ds
  {
    if ds != [] {
      DigitPrefixStops(ds[1..], rest);
      assert (ds + rest)[1..] == ds[1..] + rest;
      assert [ds[0]] + ds[1..] == ds;
    } else {
      assert ds + rest == rest;
    }
  }

  /**
   * A string PHP 7 treats as an integer numeric string: white space, an
   * optional sign and digits up to the end.
   */
  predicate IntegerString(s: string) {
    var u := AfterSign(SkipSpace(s));
    u != [] && forall i :: 0 <= i < |u| ==> IsDigit(u[i])
  }

  /** The value of the sign and digits `(int)` reads, before saturation. */
  function NumberValue(s: string): int {
    var (sign, ds) := NumberPart(s);
    sign * DigitsValue(ds)
  }

  /**
   * A string that a weak-mode `int` parameter takes cleanly in PHP 7: an
   * integer numeric string whose value fits in 64 bits. A string that only
   * starts with a number ("1abc", "1 ") is taken with the notice "A non well
   * formed numeric value encountered", and a longer number becomes a float
   * the parameter refuses with a TypeError; a string without digits is a
   * TypeError too. Yii's error handler turns the notice into an exception,
   * so each of these ends the request at the call.
   */
  predicate IntArgument(s: string) {
    IntegerString(s) && IntMin <= NumberValue(s) <= IntMax
  }

  /** A clean `int` argument has digits, and the cast reads its exact value. */
  lemma IntArgumentCast(s: string)
    requires IntArgument(s)
    ensures LeadingNumeric(s) && IntCast(s) == NumberValue(s)
  {
    DigitPrefixAll(AfterSign(SkipSpace(s)));
  }

  /**
   * Digits followed by other text ("1abc", "1 ") are read by `(int)` but
   * are not a clean `int` argument.
   */
  lemma TrailingTextNotIntArgument(n: nat, rest: string)
    requires n <= IntMax && rest != [] && !IsDigit(rest[0])
    ensures LeadingNumeric(NatText(n) + rest) && IntCast(NatText(n) + rest) == n
    ensures !IntArgument(NatText(n) + rest)
  {
    var d := NatText(n);
    IntCastIgnoresSuffix(n, rest);
    SameNumberPart(d, rest);
    DigitsThenOther(d, rest);
  }

  lemma DigitsThenOther(d: string, rest: string)
    requires d != [] && forall i :: 0 <= i < |d| ==> IsDigit(d[i])
    requires rest != [] && !IsDigit(rest[0])
    ensures !IntegerString(d + rest)
  {
    var t := d + rest;
    assert t[0] == d[0];
    assert !IsSpace(t[0]) && t[0] != '-' && t[0] != '+';
    assert AfterSign(SkipSpace(t)) == t;
    assert t[|d|] == rest[0];
  }

  /** A number beyond 64 bits is read by `(int)`, saturated, but is not a clean `int` argument. */
  lemma TooLargeNotIntArgument(n: nat)
    requires n > IntMax
    ensures LeadingNumeric(NatText(n)) && IntCast(NatText(n)) == IntMax
    ensures !IntArgument(NatText(n))
  {
    var d := NatText(n);
    assert !IsSpace(d[0]) && d[0] != '-' && d[0] != '+';
    assert SkipSpace(d) == d;
    assert AfterSign(d) == d;
    DigitPrefixAll(d);
    NatTextValue(n);
    assert NumberPart(d) == (1, d);
    assert NumberValue(d) == n;
  }

  /** `$v == null` (and `$v == false`) in PHP 7. */
  predicate LooseNull(v: Value) {
    match v
    case Null => true
    case Bool(b) => !b
    case Int(i) => i == 0
    case Str(s) => s == ""
    case Arr(e) => e == []
  }

  /**
   * `$a == $b` in PHP 7: against a boolean both sides compare as booleans,
   * against null as in LooseNull, an int against a string by the string's
   * numeric prefix, two strings numerically when both are integer numeric
   * strings and byte by byte otherwise.
   */
  predicate LooseEquals(a: Value, b: Value) {
    if a.Bool? || b.Bool? then Truthy(a) == Truthy(b)
    else if a.Null? then LooseNull(b)
    else if b.Null? then LooseNull(a)
    else match (a, b)
      case (Int(i), Int(j)) => i == j
      case (Int(i), Str(t)) => i == IntCast(t)
      case (Str(s), Int(j)) => IntCast(s) == j
      case (Str(s), Str(t)) => if IntegerString(s) && IntegerString(t) then IntCast(s) == IntCast(t) else s == t
      case (Arr(x), Arr(y)) => x == y
      case _ => false
  }

  /** Loose equality is reflexive and symmetric. */
  lemma LooseEqualsEquivalence(a: Value, b: Value)
    ensures LooseEquals(a, a)
    ensures LooseEquals(a, b) <==> LooseEquals(b, a)
  {
  }

  /** An integer numeric string loosely equals the decimal text of its value, "007" == "7". */
  lemma LooseEqualsNumeric(s: string, n: nat)
    requires IntegerString(s) && n <= IntMax && IntCast(s) == n
    ensures LooseEquals(Str(s), Str(NatText(n)))
  {
    IntCastNat(n);
    assert IntegerString(NatText(n)) by {
      assert SkipSpace(NatText(n)) == NatText(n);
    }
  }
}

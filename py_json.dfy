/**
 * The Python values the server receives in a decoded JSON document, and the
 * three built-ins it applies to them: truth testing, abs() and str().
 */
module PyJson {
  import opened Wrappers

  /**
   * A decoded JSON scalar as Python holds it. JSON integers become ints and
   * numbers with a fraction or an exponent become floats; a float carries its
   * value together with the text Python's repr() gives for it.
   */
  datatype Json =
    | JNull
    | JBool(b: bool)
    | JInt(i: int)
    | JFloat(f: real, repr: string)
    | JStr(s: string)

  /** A decoded JSON object: a Python dict with string keys. */
  type Object = map<string, Json>

  /** `bool(v)`: None, False, 0, 0.0 and the empty string are false. */
  predicate Truthy(v: Json) {
    match v
    case JNull => false
    case JBool(b) => b
    case JInt(i) => i != 0
    case JFloat(f, _) => f != 0.0
    case JStr(s) => s != ""
  }

  /** `d.get(k, default)`. */
  function GetOr(d: Object, k: string, default: Json): Json {
    if k in d then d[k] else default
  }

  /** `d.get(k)`: None when the key is absent. */
  function Get(d: Object, k: string): Json {
    GetOr(d, k, JNull)
  }

  /** `abs(v)`, or None where Python raises a TypeError (None and strings). */
  function Abs(v: Json): (r: Option<real>)
    ensures r.Some? <==> v.JBool? || v.JInt? || v.JFloat?
    ensures r.Some? ==> 0.0 <= r.value
    ensures r.Some? ==> (r.value == 0.0 <==> !Truthy(v))
    ensures v.JBool? ==> r.value == (if v.b then 1.0 else 0.0)
    ensures v.JInt? ==> r.value == v.i as real || r.value == -(v.i as real)
    ensures v.JFloat? ==> r.value == v.f || r.value == -v.f
  {
    match v
    case JBool(b) => Some(if b then 1.0 else 0.0)
    case JInt(i) => Some(if i < 0 then (-i) as real else i as real)
    case JFloat(f, _) => Some(if f < 0.0 then -f else f)
    case _ => None
  }

  predicate IsDigit(c: char) {
    '0' <= c <= '9'
  }

  predicate IsDigits(s: string) {
    forall k :: 0 <= k < |s| ==> IsDigit(s[k])
  }

  function DigitChar(d: nat): (c: char)
    requires d < 10
    ensures IsDigit(c) && c as int - '0' as int == d
  {
    ('0' as int + d) as char
  }

  /** The decimal digits of `n`, without leading zeros. */
  function NatText(n: nat): (t: string)
    ensures Canonical(t)
    decreases n
  {
    if n < 10 then [DigitChar(n)] else NatText(n / 10) + [DigitChar(n % 10)]
  }

  /** The number a string of decimal digits denotes. */
  function NatValue(s: string): nat
    requires IsDigits(s)
    decreases |s|
  {
    if s == [] then 0 else NatValue(s[..|s| - 1]) * 10 + (s[|s| - 1] as int - '0' as int)
  }

  lemma {:induction false} NatTextRoundTrip(n: nat)
    ensures NatValue(NatText(n)) == n
    decreases n
  {
    if n >= 10 {
      NatTextRoundTrip(n / 10);
      var t := NatText(n);
      assert t[..|t| - 1] == NatText(n / 10);
    }
  }

  /** Digits that do not start with a zero, unless they are the single digit 0. */
  predicate Canonical(t: string) {
    |t| > 0 && IsDigits(t) && (|t| > 1 ==> t[0] != '0')
  }

  lemma {:induction false} CanonicalAtLeastTen(t: string)
    requires Canonical(t) && |t| > 1
    ensures NatValue(t) >= 10
    decreases |t|
  {
    var p := t[..|t| - 1];
    if |p| > 1 {
      CanonicalAtLeastTen(p);
    } else {
      assert p[0] == t[0];
    }
  }

  /** The decimal text of a number is the only canonical text that denotes it. */
  lemma {:induction false} CanonicalUnique(t: string)
    requires Canonical(t)
    ensures NatText(NatValue(t)) == t
    decreases |t|
  {
    var n := NatValue(t);
    if |t| == 1 {
      assert t[..0] == [];
    } else {
      var p := t[..|t| - 1];
      assert p[0] == t[0];
      CanonicalUnique(p);
      CanonicalAtLeastTen(t);
      assert n / 10 == NatValue(p) && n % 10 == t[|t| - 1] as int - '0' as int;
      assert t == p + [t[|t| - 1]];
    }
  }

  /** Canonical digits, with a minus sign in front of any but "0". */
  predicate CanonicalInt(t: string) {
    Canonical(t) || (|t| > 1 && t[0] == '-' && Canonical(t[1..]) && t[1] != '0')
  }

  /** `str(i)` for an int: an optional minus sign and the decimal digits. */
  function IntText(i: int): string {
    if i < 0 then "-" + NatText(-i) else NatText(i)
  }

  /** `int(t)` restricted to an optional minus sign followed by digits. */
  function ParseInt(t: string): Option<int> {
    if |t| > 1 && t[0] == '-' && IsDigits(t[1..]) then Some(-(NatValue(t[1..]) as int))
    else if |t| > 0 && IsDigits(t) then Some(NatValue(t))
    else None
  }

  lemma IntTextRoundTrip(i: int)
    ensures ParseInt(IntText(i)) == Some(i)
    ensures |IntText(i)| > 0 && ' ' !in IntText(i)
  {
    var t := IntText(i);
    var n: nat := if i < 0 then -i else i;
    var d := NatText(n);
    NatTextRoundTrip(n);
    if i < 0 {
      assert t == "-" + d && t[1..] == d;
    } else {
      assert t == d;
    }
  }

  /** No other canonical text reads as the same int: `str()` of an int is exactly determined. */
  lemma IntTextUnique(i: int, t: string)
    requires CanonicalInt(t) && ParseInt(t) == Some(i)
    ensures t == Str(JInt(i))
  {
    if Canonical(t) {
      CanonicalUnique(t);
    } else {
      var u := t[1..];
      CanonicalUnique(u);
      if |u| > 1 {
        CanonicalAtLeastTen(u);
      } else {
        assert u[..0] == [];
      }
      assert t == "-" + u;
    }
  }

  /**
   * `str(v)` as an f-string interpolates it. An int is written in decimal
   * and reads back as itself; a float is written as its carried repr text.
   */
  function Str(v: Json): (t: string)
    ensures v.JInt? ==> ParseInt(t) == Some(v.i) && ' ' !in t
    ensures v.JInt? ==> CanonicalInt(t)
    ensures v.JNull? ==> t == "None"
    ensures v.JBool? ==> t == (if v.b then "True" else "False")
    ensures v.JFloat? ==> t == v.repr
    ensures v.JStr? ==> t == v.s
  {
    match v
    case JNull => "None"
    case JBool(b) => if b then "True" else "False"
    case JInt(i) => IntTextRoundTrip(i); IntText(i)
    case JFloat(_, r) => r
    case JStr(s) => s
  }
}

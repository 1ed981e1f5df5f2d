/** The JavaScript values that cross the backend's boundaries (request
    bodies, JSON columns, SSE payloads), with the truthiness and string
    conversion the code relies on in `!x`, `x || y` and template strings.
    Numbers are integers here: no fractional or NaN value reaches the
    modelled code paths except where a handler parses an id, and those
    places model NaN explicitly. Arrays are not represented. */
module Js {
  import opened Wrappers
  import opened Text

  datatype JsValue =
    | JUndefined
    | JNull
    | JBool(b: bool)
    | JNum(n: int)
    | JStr(s: string)
    | JObject(fields: map<string, JsValue>)

  /** What `!!v` yields: false exactly for undefined, null, false, 0 and "". */
  predicate Truthy(v: JsValue) {
    match v
    case JUndefined => false
    case JNull => false
    case JBool(b) => b
    case JNum(n) => n != 0
    case JStr(s) => s != ""
    case JObject(_) => true
  }

  /** `a || b`: the left operand when it is truthy, otherwise the right. */
  function Or(a: JsValue, b: JsValue): (r: JsValue)
    ensures Truthy(a) ==> r == a
    ensures !Truthy(a) ==> r == b
  {
    if Truthy(a) then a else b
  }

  /** Property access `v.k`: undefined when `v` is not an object or lacks
      the key. */
  function Get(v: JsValue, k: string): (r: JsValue)
    ensures v.JObject? && k in v.fields ==> r == v.fields[k]
    ensures !(v.JObject? && k in v.fields) ==> r == JUndefined
  {
    if v.JObject? && k in v.fields then v.fields[k] else JUndefined
  }

  /** String(v), as a template literal `${v}` renders it. */
  function Show(v: JsValue): string {
    match v
    case JUndefined => "undefined"
    case JNull => "null"
    case JBool(b) => if b then "true" else "false"
    case JNum(n) => IntToString(n)
    case JStr(s) => s
    case JObject(_) => "[object Object]"
  }

  /** A rendering of a non-string value never contains a line break. */
  lemma ShowNoNewline(v: JsValue)
    requires !v.JStr?
    ensures '\n' !in Show(v)
  {
    if v.JNum? {
      var r := IntToString(v.n);
      assert forall k :: 0 <= k < |r| ==> r[k] != '\n';
    }
  }

  predicate IsDigit(c: char) {
    '0' <= c <= '9'
  }

  predicate IsHexDigit(c: char) {
    IsDigit(c) || ('a' <= c <= 'f') || ('A' <= c <= 'F')
  }

  function HexDigitValue(c: char): (d: nat)
    requires IsHexDigit(c)
    ensures d < 16
  {
    if IsDigit(c) then c as int - '0' as int
    else if 'a' <= c <= 'f' then c as int - 'a' as int + 10
    else c as int - 'A' as int + 10
  }

  /** The value of a string of digits in the given base, read left to
      right. */
  function DigitsValue(s: string, base: nat): (n: nat)
    requires base == 10 || base == 16
    requires forall k :: 0 <= k < |s| ==> (if base == 10 then IsDigit(s[k]) else IsHexDigit(s[k]))
  {
    if s == [] then 0
    else DigitsValue(s[..|s| - 1], base) * base + HexDigitValue(s[|s| - 1])
  }

  /** The length of the longest prefix of `s` made of digits of `base`. */
  function DigitRun(s: string, base: nat): (n: nat)
    requires base == 10 || base == 16
    ensures n <= |s|
    ensures forall k :: 0 <= k < n ==> (if base == 10 then IsDigit(s[k]) else IsHexDigit(s[k]))
    ensures n < |s| ==> !(if base == 10 then IsDigit(s[n]) else IsHexDigit(s[n]))
  {
    DigitsFrom(s, 0, base)
  }

  /** The end of the run of digits of `base` that starts at `i`. */
  function DigitsFrom(s: string, i: nat, base: nat): (j: nat)
    requires base == 10 || base == 16
    requires i <= |s|
    ensures i <= j <= |s|
    ensures forall k :: i <= k < j ==> (if base == 10 then IsDigit(s[k]) else IsHexDigit(s[k]))
    ensures j < |s| ==> !(if base == 10 then IsDigit(s[j]) else IsHexDigit(s[j]))
    decreases |s| - i
  {
    if i < |s| && (if base == 10 then IsDigit(s[i]) else IsHexDigit(s[i])) then DigitsFrom(s, i + 1, base)
    else i
  }

  /** The digits after the sign: a "0x"/"0X" prefix selects base 16,
      then the longest run of digits is read; None when there is none. */
  function ParseUnsigned(u: string): (r: Option<nat>)
  {
    var base := if |u| >= 2 && u[0] == '0' && (u[1] == 'x' || u[1] == 'X') then 16 else 10;
    var body := if base == 16 then u[2..] else u;
    var n := DigitRun(body, base);
    if n == 0 then None else Some(DigitsValue(body[..n], base))
  }

  /** parseInt(s) with no radix: leading white space skipped, an optional
      sign, then ParseUnsigned; None stands for NaN. */
  function ParseInt(s: string): (r: Option<int>)
  {
    ParseSigned(TrimStart(s))
  }

  /** An optional sign, then ParseUnsigned. */
  function ParseSigned(t: string): (r: Option<int>)
  {
    var signed := t != [] && (t[0] == '-' || t[0] == '+');
    var v := ParseUnsigned(if signed then t[1..] else t);
    if v.None? then None
    else
      var x: int := v.value;
      if signed && t[0] == '-' then Some(-x) else Some(x)
  }

  lemma {:induction false} DecimalOfNatToString(n: nat)
    ensures forall k :: 0 <= k < |NatToString(n)| ==> IsDigit(NatToString(n)[k])
    ensures DigitsValue(NatToString(n), 10) == n
  {
    var s := NatToString(n);
    DigitCharValue(n % 10);
    if n >= 10 {
      DecimalOfNatToString(n / 10);
      DecimalStep(s, NatToString(n / 10), n % 10);
    } else {
      assert s[..|s| - 1] == [];
    }
  }

  /** The value of a digit character. */
  lemma DigitCharValue(d: nat)
    requires d < 10
    ensures HexDigitValue(DigitChar(d)) == d
  {
  }

  /** Appending digit `d` multiplies by ten and adds `d`. */
  lemma DecimalStep(s: string, p: string, d: nat)
    requires d < 10 && s == p + [DigitChar(d)]
    requires forall k :: 0 <= k < |p| ==> IsDigit(p[k])
    requires HexDigitValue(DigitChar(d)) == d
    ensures DigitsValue(s, 10) == DigitsValue(p, 10) * 10 + d
  {
    assert s[..|s| - 1] == p;
  }

  lemma ParseUnsignedOfNatToString(m: nat)
    ensures ParseUnsigned(NatToString(m)) == Some(m)
  {
    var d := NatToString(m);
    DecimalOfNatToString(m);
    if |d| >= 2 && d[0] == '0' {
      FirstDigitNonZero(m);
    }
    DigitRunAll(d);
    assert d[..|d|] == d;
  }

  lemma TrimStartKeeps(s: string)
    requires s != [] && !IsSpace(s[0])
    ensures TrimStart(s) == s
  {
  }

  /** parseInt of a minus sign followed by an unsigned number negates it;
      without the sign it is the number itself. */
  lemma ParseIntSign(d: string, m: nat)
    requires d != [] && IsDigit(d[0])
    requires ParseUnsigned(d) == Some(m)
    ensures ParseInt(d) == Some(m)
    ensures ParseInt("-" + d) == Some(-(m as int))
  {
    TrimStartKeeps(d);
    assert !(d[0] == '-' || d[0] == '+');
    var s := "-" + d;
    assert s[1..] == d;
    ParseIntMinus(s, m);
  }

  /** A leading minus sign negates the unsigned number after it. */
  lemma ParseIntMinus(s: string, m: nat)
    requires s != [] && s[0] == '-' && ParseUnsigned(s[1..]) == Some(m)
    ensures ParseInt(s) == Some(-(m as int))
  {
    TrimStartKeeps(s);
    ParseSignedMinus(s, m);
  }

  lemma ParseSignedMinus(s: string, m: nat)
    requires s != [] && s[0] == '-' && ParseUnsigned(s[1..]) == Some(m)
    ensures ParseSigned(s) == Some(-(m as int))
  {
  }

  /** parseInt reads back what String(n) writes. */
  lemma ParseIntOfIntToString(n: int)
    ensures ParseInt(IntToString(n)) == Some(n)
  {
    var m: nat := if n < 0 then -n else n;
    var d := NatToString(m);
    ParseUnsignedOfNatToString(m);
    DigitsFirst(m, d);
    ParseIntSign(d, m);
    IntToStringShape(n, m, d);
  }

  lemma DigitsFirst(m: nat, d: string)
    requires d == NatToString(m)
    ensures d != [] && IsDigit(d[0])
  {
  }

  /** String(n) is the digits of |n|, after a minus sign when n < 0. */
  lemma IntToStringShape(n: int, m: nat, d: string)
    requires m == (if n < 0 then -n else n) && d == NatToString(m)
    ensures n < 0 ==> IntToString(n) == "-" + d
    ensures n >= 0 ==> IntToString(n) == d
  {
  }

  lemma {:induction false} FirstDigitNonZero(n: nat)
    requires n >= 10
    ensures NatToString(n)[0] != '0'
  {
    if n / 10 >= 10 {
      FirstDigitNonZero(n / 10);
    } else {
      assert NatToString(n / 10) == [DigitChar(n / 10)];
    }
  }

  lemma DigitRunAll(s: string)
    requires forall k :: 0 <= k < |s| ==> IsDigit(s[k])
    ensures DigitRun(s, 10) == |s|
  {
  }
}

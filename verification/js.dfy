/** The slice of JavaScript value semantics the reaction app relies on:
    JSON values, truthiness, `parseInt` and the decimal rendering of a
    non-negative integer by `Number.prototype.toString`. */
module Js {
  import opened Wrappers

  /** A value produced by `JSON.parse`, plus `undefined` for absent properties. */
  datatype JsValue =
    | JsUndefined
    | JsNull
    | JsBool(b: bool)
    | JsNumber(n: real)
    | JsString(s: string)
    | JsArray(items: seq<JsValue>)
    | JsObject(fields: map<string, JsValue>)

  /** JavaScript truthiness: `!v` is false exactly for these values.
      (`NaN` cannot come out of `JSON.parse`, so `JsNumber` has none.) */
  function Truthy(v: JsValue): (truthy: bool)
    ensures !truthy <==> v in {JsUndefined, JsNull, JsBool(false), JsNumber(0.0), JsString("")}
  {
    match v
    case JsUndefined => false
    case JsNull => false
    case JsBool(b) => b
    case JsNumber(n) => n != 0.0
    case JsString(s) => |s| > 0
    case JsArray(_) => true
    case JsObject(_) => true
  }

  /** Reading property `key` of `v`, as destructuring does: `None` stands for
      the `TypeError` thrown when `v` is `null` or `undefined`; a missing
      own property reads as `undefined` (built-in and inherited properties such as
      `length` or `toString` are not modelled). */
  function Member(v: JsValue, key: string): (r: Option<JsValue>)
    ensures r.None? <==> v.JsNull? || v.JsUndefined?
    ensures r.Some? ==> r.value == if v.JsObject? && key in v.fields then v.fields[key] else JsUndefined
  {
    match v
    case JsNull => None
    case JsUndefined => None
    case JsObject(fields) => Some(if key in fields then fields[key] else JsUndefined)
    case _ => Some(JsUndefined)
  }

  /** A number as `parseInt` can return it: `NaN`, or an integer. */
  datatype Num = NaN | Finite(v: int)

  /** JavaScript `a > b` for an integer `a`; every comparison with `NaN` is false. */
  predicate Greater(a: int, b: Num) {
    match b
    case NaN => false
    case Finite(v) => a > v
  }

  // ---------------------------------------------------------------------
  // Digits

  predicate IsDecimalDigit(c: char) {
    '0' <= c <= '9'
  }

  predicate AllDecimal(s: string) {
    forall i :: 0 <= i < |s| ==> IsDecimalDigit(s[i])
  }

  /** The value of `c` as a digit in radices up to 36; 36 for a non-digit. */
  function DigitOf(c: char): (d: nat)
    ensures d <= 36
    ensures IsDecimalDigit(c) <==> d < 10
  {
    if '0' <= c <= '9' then c as int - '0' as int
    else if 'a' <= c <= 'z' then c as int - 'a' as int + 10
    else if 'A' <= c <= 'Z' then c as int - 'A' as int + 10
    else 36
  }

  function DigitChar(d: nat): (c: char)
    requires d < 10
    ensures IsDecimalDigit(c) && DigitOf(c) == d
  {
    ('0' as int + d) as char
  }

  /** The value of the digit string `z` in the given radix, most significant first. */
  function Value(z: string, radix: nat): nat
    decreases |z|
  {
    if |z| == 0 then 0
    else radix * Value(z[..|z| - 1], radix) + DigitOf(z[|z| - 1])
  }

  /** The longest prefix of `s` made of digits of the radix. */
  function DigitRun(s: string, radix: nat): (z: string)
    ensures |z| <= |s| && z == s[..|z|]
    ensures forall i :: 0 <= i < |z| ==> DigitOf(z[i]) < radix
    ensures |z| < |s| ==> DigitOf(s[|z|]) >= radix
    decreases |s|
  {
    if |s| > 0 && DigitOf(s[0]) < radix then [s[0]] + DigitRun(s[1..], radix) else []
  }

  // ---------------------------------------------------------------------
  // parseInt

  /** The StrWhiteSpaceChar set of ECMAScript: white space and line terminators. */
  predicate IsStrWhiteSpace(c: char) {
    var n := c as int;
    n == 0x09 || n == 0x0A || n == 0x0B || n == 0x0C || n == 0x0D || n == 0x20 ||
    n == 0xA0 || n == 0x1680 || (0x2000 <= n <= 0x200A) || n == 0x2028 ||
    n == 0x2029 || n == 0x202F || n == 0x205F || n == 0x3000 || n == 0xFEFF
  }

  predicate AllStrWhiteSpace(w: string) {
    forall i :: 0 <= i < |w| ==> IsStrWhiteSpace(w[i])
  }

  /** `s` without its leading white space. */
  function TrimStart(s: string): (t: string)
    ensures |t| <= |s| && t == s[|s| - |t|..]
    ensures AllStrWhiteSpace(s[..|s| - |t|])
    ensures |t| > 0 ==> !IsStrWhiteSpace(t[0])
    decreases |s|
  {
    if |s| > 0 && IsStrWhiteSpace(s[0]) then TrimStart(s[1..]) else s
  }

  /** What `parseInt` answers for a string `t` that has no leading white
      space, case by case as the ECMAScript steps read it: an optional sign,
      radix 16 after a `0x`/`0X` prefix, the longest run of digits, and
      `NaN` when that run is empty. */
  predicate ParsesAs(t: string, r: Num) {
    && (|t| == 0 ==> r == NaN)
    && (|t| > 0 && t[0] != '-' && t[0] != '+' && !IsDecimalDigit(t[0]) ==> r == NaN)
    && (|t| > 0 && IsDecimalDigit(t[0]) && !(|t| >= 2 && t[0] == '0' && (t[1] == 'x' || t[1] == 'X')) ==>
          r == Finite(Value(DigitRun(t, 10), 10)))
    && (|t| > 0 && t[0] == '-' && r.Finite? ==> r.v <= 0)
    && (|t| >= 2 && (t[0] == '-' || t[0] == '+') && IsDecimalDigit(t[1]) &&
        !(|t| >= 3 && t[1] == '0' && (t[2] == 'x' || t[2] == 'X')) ==>
          var v := Value(DigitRun(t[1..], 10), 10);
          r == if t[0] == '-' then Finite(0 - v) else Finite(v))
    && (|t| > 0 && (t[0] == '-' || t[0] == '+') && (|t| == 1 || !IsDecimalDigit(t[1])) ==> r == NaN)
    && (|t| >= 2 && t[0] == '0' && (t[1] == 'x' || t[1] == 'X') ==>
          var z := DigitRun(t[2..], 16);
          r == if |z| == 0 then NaN else Finite(Value(z, 16)))
    && (|t| >= 3 && (t[0] == '-' || t[0] == '+') && t[1] == '0' && (t[2] == 'x' || t[2] == 'X') ==>
          var z := DigitRun(t[3..], 16);
          var v := Value(z, 16);
          r == if |z| == 0 then NaN else if t[0] == '-' then Finite(0 - v) else Finite(v))
  }

  /** `parseInt(s)` with no radix argument: skip the leading white space,
      then read the rest as `ParsesAs` describes. */
  function ParseInt(s: string): (r: Num)
    ensures ParsesAs(TrimStart(s), r)
  {
    ParseTrimmed(TrimStart(s))
  }

  function ParseTrimmed(t: string): (r: Num)
    ensures ParsesAs(t, r)
  {
    if |t| > 0 && (t[0] == '-' || t[0] == '+') then Signed(t) else Magnitude(t)
  }

  /** `parseInt` of a string that starts with a sign: the magnitude of the
      rest, negated after a `-`. */
  function Signed(t: string): (r: Num)
    requires |t| > 0 && (t[0] == '-' || t[0] == '+')
    ensures t[0] == '-' && r.Finite? ==> r.v <= 0
    ensures |t| == 1 || !IsDecimalDigit(t[1]) ==> r == NaN
    ensures |t| >= 2 && IsDecimalDigit(t[1]) && !(|t| >= 3 && t[1] == '0' && (t[2] == 'x' || t[2] == 'X')) ==>
              var v := Value(DigitRun(t[1..], 10), 10);
              r == if t[0] == '-' then Finite(0 - v) else Finite(v)
    ensures |t| >= 3 && t[1] == '0' && (t[2] == 'x' || t[2] == 'X') ==>
              var z := DigitRun(t[3..], 16);
              var v := Value(z, 16);
              r == if |z| == 0 then NaN else if t[0] == '-' then Finite(0 - v) else Finite(v)
  {
    var u := t[1..];
    assert |u| >= 2 ==> u[0] == t[1] && u[1] == t[2] && u[2..] == t[3..];
    var m := Magnitude(u);
    if t[0] == '-' && m.Finite? then Finite(0 - m.v) else m
  }

  /** The unsigned part of `parseInt`: radix 16 after a `0x`/`0X` prefix,
      radix 10 otherwise, and `NaN` when no digit follows. */
  function Magnitude(u: string): (r: Num)
    ensures r.Finite? ==> r.v >= 0
    ensures |u| == 0 || !IsDecimalDigit(u[0]) ==> r == NaN
    ensures |u| > 0 && IsDecimalDigit(u[0]) && !(|u| >= 2 && u[0] == '0' && (u[1] == 'x' || u[1] == 'X')) ==>
              r == Finite(Value(DigitRun(u, 10), 10))
    ensures |u| >= 2 && u[0] == '0' && (u[1] == 'x' || u[1] == 'X') ==>
              var z := DigitRun(u[2..], 16);
              r == if |z| == 0 then NaN else Finite(Value(z, 16))
  {
    var hex := |u| >= 2 && u[0] == '0' && (u[1] == 'x' || u[1] == 'X');
    var radix := if hex then 16 else 10;
    var z := DigitRun(if hex then u[2..] else u, radix);
    if |z| == 0 then NaN else Finite(Value(z, radix))
  }

  // ---------------------------------------------------------------------
  // Number to decimal string

  /** `n.toString()` for a non-negative integer below 10^21. */
  function Decimal(n: nat): (s: string)
    ensures |s| > 0 && AllDecimal(s)
    ensures Value(s, 10) == n
    ensures s[0] == '0' ==> n == 0 && s == "0"
    decreases n
  {
    if n < 10 then [DigitChar(n)]
    else
      var s := Decimal(n / 10) + [DigitChar(n % 10)];
      assert s[..|s| - 1] == Decimal(n / 10);
      s
  }

  // ---------------------------------------------------------------------
  // Properties of parseInt

  lemma {:induction false} DigitRunStopsAtJunk(z: string, rest: string)
    requires AllDecimal(z)
    requires |rest| == 0 || !IsDecimalDigit(rest[0])
    ensures DigitRun(z + rest, 10) == z
    decreases |z|
  {
    if |z| == 0 {
      assert z + rest == rest;
    } else {
      assert (z + rest)[0] == z[0];
      assert (z + rest)[1..] == z[1..] + rest;
      DigitRunStopsAtJunk(z[1..], rest);
      assert z == [z[0]] + z[1..];
    }
  }

  /** A string that starts with a decimal digit and not with `0x` is read in radix 10. */
  lemma UnsignedDecimal(s: string)
    requires |s| > 0 && IsDecimalDigit(s[0])
    requires !(|s| >= 2 && s[0] == '0' && (s[1] == 'x' || s[1] == 'X'))
    ensures ParseInt(s) == if |DigitRun(s, 10)| == 0 then NaN else Finite(Value(DigitRun(s, 10), 10))
  {
    assert !IsStrWhiteSpace(s[0]);
    var t := TrimStart(s);
    assert t == s;
    assert !(t[0] == '-' || t[0] == '+');
  }

  /** Leading decimal digits followed by anything that is not a digit parse to
      the value of those digits: `parseInt("12abc") == 12`. */
  lemma DigitsThenJunk(z: string, rest: string)
    requires |z| > 0 && AllDecimal(z)
    requires |rest| == 0 || !IsDecimalDigit(rest[0])
    requires !(z == "0" && |rest| > 0 && (rest[0] == 'x' || rest[0] == 'X'))
    ensures ParseInt(z + rest) == Finite(Value(z, 10))
  {
    NoHexPrefix(z, rest);
    UnsignedDecimal(z + rest);
    DigitRunStopsAtJunk(z, rest);
  }

  lemma NoHexPrefix(z: string, rest: string)
    requires |z| > 0 && AllDecimal(z)
    requires !(z == "0" && |rest| > 0 && (rest[0] == 'x' || rest[0] == 'X'))
    ensures var s := z + rest;
            IsDecimalDigit(s[0]) && !(|s| >= 2 && s[0] == '0' && (s[1] == 'x' || s[1] == 'X'))
  {
    var s := z + rest;
    assert s[0] == z[0];
    if |s| >= 2 {
      if |z| >= 2 {
        assert s[1] == z[1] && IsDecimalDigit(s[1]);
      } else {
        assert s[1] == rest[0];
        assert z == [z[0]];
      }
    }
  }

  /** Round trip: `parseInt(String(n)) == n` for every non-negative integer. */
  lemma ParseDecimal(n: nat)
    ensures ParseInt(Decimal(n)) == Finite(n)
  {
    DigitsThenJunk(Decimal(n), []);
    assert Decimal(n) + [] == Decimal(n);
  }

  /** A string that starts with neither white space, a sign nor a decimal
      digit parses to `NaN`: `parseInt("abc")` is `NaN`, not 0. */
  lemma NoLeadingDigitIsNaN(s: string)
    requires |s| > 0 && !IsStrWhiteSpace(s[0]) && !IsDecimalDigit(s[0])
    requires s[0] != '-' && s[0] != '+'
    ensures ParseInt(s) == NaN
  {
    assert TrimStart(s) == s;
    assert DigitOf(s[0]) >= 10;
  }

  /** The empty string parses to `NaN`. */
  lemma EmptyIsNaN()
    ensures ParseInt("") == NaN
  {
  }
}

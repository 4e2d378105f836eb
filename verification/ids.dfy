/** Reaction identifiers. Both the client (app/page.tsx:23) and the server
    (app/api/reactions/route.ts:47) build an id as the decimal clock reading
    followed by the string form of a `Math.random()` draw; the client later
    reads a time back out of it by parsing what precedes the first `.`
    (app/page.tsx:77). */
module Ids {
  import opened Js

  /** The string form of a draw in [0, 1) under `Number.prototype.toString`:
      exactly zero is `"0"`; a draw of at least 1e-6 is `"0."` followed by
      its fraction digits; a smaller one is in exponential notation, a
      leading non-zero digit, optional further digits after a `.`, then
      `e-` and the exponent. */
  datatype Draw =
    | DrawZero
    | DrawFixed(fraction: string)
    | DrawExp(lead: char, fraction: string, exponent: nat)

  /** The forms `toString` actually produces for a value in [0, 1). */
  predicate ValidDraw(d: Draw) {
    match d
    case DrawZero => true
    case DrawFixed(f) => |f| > 0 && AllDecimal(f)
    case DrawExp(l, f, e) => '1' <= l <= '9' && AllDecimal(f) && e >= 7
  }

  function Render(d: Draw): (r: string)
    ensures ValidDraw(d) ==> |r| > 0 && IsDecimalDigit(r[0]) && (|r| == 1 || r[1] == '.' || r[1] == 'e')
  {
    match d
    case DrawZero => "0"
    case DrawFixed(f) => "0." + f
    case DrawExp(l, f, e) => [l] + (if |f| == 0 then "" else "." + f) + "e-" + Decimal(e)
  }

  /** The first character of the rendered draw. */
  function LeadChar(d: Draw): char {
    match d
    case DrawExp(l, _, _) => l
    case _ => '0'
  }

  /** The first digit of the rendered draw, as a number. */
  function LeadDigit(d: Draw): nat {
    DigitOf(LeadChar(d))
  }

  /** `Date.now().toString() + Math.random()`. */
  function MakeId(clock: nat, d: Draw): (id: string)
    ensures |id| > |Decimal(clock)| && id[..|Decimal(clock)|] == Decimal(clock)
    ensures ValidDraw(d) ==> AllDecimal(id[..|Decimal(clock)| + 1])
  {
    var a := Decimal(clock);
    var id := a + Render(d);
    assert id[..|a|] == a;
    assert ValidDraw(d) ==> AllDecimal(id[..|a| + 1]) by {
      if ValidDraw(d) {
        var z := id[..|a| + 1];
        forall i | 0 <= i < |z| ensures IsDecimalDigit(z[i]) {
          if i < |a| { assert z[i] == a[i]; } else { assert z[i] == Render(d)[0]; }
        }
      }
    }
    id
  }

  /** `s.split('.')[0]`: everything before the first `.`, or all of `s`. */
  function BeforeDot(s: string): (r: string)
    ensures |r| <= |s| && r == s[..|r|]
    ensures '.' !in r
    ensures |r| < |s| ==> s[|r|] == '.'
    decreases |s|
  {
    if |s| == 0 || s[0] == '.' then [] else [s[0]] + BeforeDot(s[1..])
  }

  /** The time the display filter reads from an id: `parseInt(id.split('.')[0])`. */
  function IdTime(id: string): Num {
    ParseInt(BeforeDot(id))
  }

  lemma {:induction false} BeforeDotAppend(a: string, b: string)
    requires '.' !in a
    ensures BeforeDot(a + b) == a + BeforeDot(b)
    decreases |a|
  {
    if |a| == 0 {
      assert a + b == b;
    } else {
      assert (a + b)[0] == a[0];
      assert (a + b)[1..] == a[1..] + b;
      assert a[0] in a;
      assert forall c :: c in a[1..] ==> c in a;
      BeforeDotAppend(a[1..], b);
      assert a == [a[0]] + a[1..];
    }
  }

  lemma NoDotInDecimal(n: nat)
    ensures '.' !in Decimal(n)
  {
    var s := Decimal(n);
    forall i | 0 <= i < |s| ensures s[i] != '.' {
      assert IsDecimalDigit(s[i]);
    }
  }

  /** Splitting stops at a `.` that directly follows a dot-free part. */
  lemma BeforeDotThenDot(a: string, b: string)
    requires '.' !in a && |b| > 0 && b[0] == '.'
    ensures BeforeDot(a + b) == a
  {
    BeforeDotAppend(a, b);
  }

  /** The part of a rendered draw before its first `.`: the lead digit,
      then nothing or an exponent suffix that starts with `e`. */
  lemma DrawBeforeDot(d: Draw) returns (tail: string)
    requires ValidDraw(d)
    ensures BeforeDot(Render(d)) == [LeadChar(d)] + tail
    ensures IsDecimalDigit(LeadChar(d))
    ensures |tail| == 0 || tail[0] == 'e'
  {
    match d
    case DrawZero =>
      tail := [];
      ZeroBeforeDot();
    case DrawFixed(f) =>
      tail := [];
      FixedBeforeDot(f);
    case DrawExp(l, f, e) =>
      if |f| == 0 {
        tail := "e-" + Decimal(e);
        ShortExpBeforeDot(l, e);
      } else {
        tail := [];
        LongExpBeforeDot(l, f, e);
      }
  }

  lemma ZeroBeforeDot()
    ensures BeforeDot(Render(DrawZero)) == ['0']
  {
    assert Render(DrawZero) == ['0'] + [];
    BeforeDotAppend(['0'], []);
  }

  lemma FixedBeforeDot(f: string)
    ensures BeforeDot(Render(DrawFixed(f))) == ['0']
  {
    assert Render(DrawFixed(f)) == ['0'] + ("." + f);
    BeforeDotThenDot(['0'], "." + f);
  }

  lemma ShortExpBeforeDot(l: char, e: nat)
    requires l != '.'
    ensures BeforeDot(Render(DrawExp(l, [], e))) == [l] + ("e-" + Decimal(e))
  {
    ExpTailHasNoDot(l, e);
    assert Render(DrawExp(l, [], e)) == [l] + ("e-" + Decimal(e)) + [];
    BeforeDotAppend([l] + ("e-" + Decimal(e)), []);
  }

  lemma LongExpBeforeDot(l: char, f: string, e: nat)
    requires l != '.' && |f| > 0
    ensures BeforeDot(Render(DrawExp(l, f, e))) == [l]
  {
    assert Render(DrawExp(l, f, e)) == [l] + ("." + f + "e-" + Decimal(e));
    BeforeDotThenDot([l], "." + f + "e-" + Decimal(e));
  }

  lemma ExpTailHasNoDot(l: char, e: nat)
    requires l != '.'
    ensures '.' !in [l] + ("e-" + Decimal(e))
  {
    NoDotInDecimal(e);
  }

  /** What the display filter actually reads from an id built at clock `t`:
      the clock's digits run straight into the draw's first digit, so the
      value is `10 * t + d` for a digit `d`, not `t`. */
  lemma IdTimeOfMadeId(t: nat, d: Draw)
    requires ValidDraw(d)
    ensures IdTime(MakeId(t, d)) == Finite(10 * t + LeadDigit(d))
    ensures LeadDigit(d) < 10
  {
    var z, tail := MadeIdPrefix(t, d);
    IdTimeOfPrefix(MakeId(t, d), z, tail);
    DigitThenDigit(Decimal(t), LeadChar(d));
    assert Value(z, 10) == 10 * t + LeadDigit(d);
  }

  /** An id whose text before the first `.` is digits, then nothing or an
      exponent, reads back as the value of those digits. */
  lemma IdTimeOfPrefix(id: string, z: string, tail: string)
    requires BeforeDot(id) == z + tail
    requires |z| > 1 && AllDecimal(z)
    requires |tail| == 0 || tail[0] == 'e'
    ensures IdTime(id) == Finite(Value(z, 10))
  {
    DigitsThenJunk(z, tail);
  }

  /** Before its first `.`, a made id is the clock's digits, the draw's lead
      digit, and possibly an exponent suffix starting with `e`. */
  lemma MadeIdPrefix(t: nat, d: Draw) returns (z: string, tail: string)
    requires ValidDraw(d)
    ensures BeforeDot(MakeId(t, d)) == z + tail
    ensures z == Decimal(t) + [LeadChar(d)]
    ensures IsDecimalDigit(LeadChar(d))
    ensures |tail| == 0 || tail[0] == 'e'
  {
    var a := Decimal(t);
    NoDotInDecimal(t);
    BeforeDotAppend(a, Render(d));
    tail := DrawBeforeDot(d);
    z := a + [LeadChar(d)];
    assert a + ([LeadChar(d)] + tail) == z + tail;
  }

  /** Appending a decimal digit to a digit string multiplies its value by ten and adds the digit. */
  lemma DigitThenDigit(a: string, c: char)
    requires |a| > 0 && AllDecimal(a) && IsDecimalDigit(c)
    ensures AllDecimal(a + [c])
    ensures Value(a + [c], 10) == 10 * Value(a, 10) + DigitOf(c)
  {
    var z := a + [c];
    assert z[..|z| - 1] == a;
    forall i | 0 <= i < |z| ensures IsDecimalDigit(z[i]) {
      if i < |a| { assert z[i] == a[i]; }
    }
  }
}

/**
 * The bounded integer stepper of the newsletter form
 * (components/newsletter/NumberInput.tsx): a minus button, a text field and
 * a plus button around a value that the parent owns. Each handler either
 * proposes a new value to the parent (`onChange`) or does nothing; here a
 * handler returns `Some(v)` for the call `onChange(v)` and `None` when it
 * stays silent.
 */
module NumberInput {
  import opened Wrappers
  import opened JsText

  /** The stepper's bounds and step. */
  datatype Props = Props(min: int, max: int, step: int)

  /** The bounds and step the component falls back to when the parent gives none. */
  const DefaultProps := Props(1, 100, 1)

  /** The bounds the newsletter screen gives for the number of lines. */
  const MaxLinesProps := PropsOf(Some(1), Some(50), None)

  /** Destructuring with defaults: an omitted bound or step takes its default. */
  function PropsOf(min: Option<int>, max: Option<int>, step: Option<int>): (p: Props)
    ensures min.Some? ==> p.min == min.value
    ensures max.Some? ==> p.max == max.value
    ensures step.Some? ==> p.step == step.value
    ensures min.None? ==> p.min == 1
    ensures max.None? ==> p.max == 100
    ensures step.None? ==> p.step == 1
  {
    Props(
      if min.Some? then min.value else DefaultProps.min,
      if max.Some? then max.value else DefaultProps.max,
      if step.Some? then step.value else DefaultProps.step)
  }

  /** The plus button: one step up, unless that passes the maximum. */
  function Increment(p: Props, value: int): (r: Option<int>)
    ensures r.Some? <==> value + p.step <= p.max
    ensures r.Some? ==> r.value == value + p.step
  {
    if value + p.step <= p.max then Some(value + p.step) else None
  }

  /** The minus button: one step down, unless that passes the minimum. */
  function Decrement(p: Props, value: int): (r: Option<int>)
    ensures r.Some? <==> value - p.step >= p.min
    ensures r.Some? ==> r.value == value - p.step
  {
    if value - p.step >= p.min then Some(value - p.step) else None
  }

  /** The minus button is greyed out and inert at or below the minimum. */
  predicate MinusDisabled(p: Props, value: int) {
    value <= p.min
  }

  /** The plus button is greyed out and inert at or above the maximum. */
  predicate PlusDisabled(p: Props, value: int) {
    value >= p.max
  }

  // ---------------------------------------------------------------------------
  // parseInt with no radix (ECMA-262 section 19.2.5)
  // ---------------------------------------------------------------------------

  predicate IsDecimalDigit(c: char) {
    '0' <= c <= '9'
  }

  predicate IsHexDigit(c: char) {
    IsDecimalDigit(c) || 'a' <= c <= 'f' || 'A' <= c <= 'F'
  }

  predicate IsRadixDigit(c: char, hex: bool) {
    if hex then IsHexDigit(c) else IsDecimalDigit(c)
  }

  function DigitValue(c: char): (d: nat)
    requires IsHexDigit(c)
    ensures d < 16
    ensures IsDecimalDigit(c) ==> d < 10
  {
    if IsDecimalDigit(c) then c as int - '0' as int
    else if 'a' <= c <= 'f' then c as int - 'a' as int + 10
    else c as int - 'A' as int + 10
  }

  /** The length of the longest prefix of s made of digits of the radix. */
  function DigitRun(s: string, hex: bool): (r: nat)
    ensures r <= |s|
    ensures forall j :: 0 <= j < r ==> IsRadixDigit(s[j], hex)
    ensures r < |s| ==> !IsRadixDigit(s[r], hex)
  {
    if s == [] || !IsRadixDigit(s[0], hex) then 0 else 1 + DigitRun(s[1..], hex)
  }

  /** The number that a run of digits denotes, most significant first. */
  function DigitsValue(ds: string, hex: bool): nat
    requires forall j :: 0 <= j < |ds| ==> IsRadixDigit(ds[j], hex)
  {
    if ds == [] then 0
    else
      assert IsRadixDigit(ds[|ds| - 1], hex);
      DigitsValue(ds[..|ds| - 1], hex) * (if hex then 16 else 10) + DigitValue(ds[|ds| - 1])
  }

  /** What parseInt reads after the white space and the sign: a hexadecimal run after `0x`, a decimal run otherwise. */
  function Magnitude(body: string): (r: Option<int>)
    ensures r.Some? ==> r.value >= 0
  {
    if |body| >= 2 && body[0] == '0' && (body[1] == 'x' || body[1] == 'X') then
      var n := DigitRun(body[2..], true);
      if n == 0 then None else Some(DigitsValue(body[2..][..n], true))
    else
      var n := DigitRun(body, false);
      if n == 0 then None else Some(DigitsValue(body[..n], false))
  }

  /**
   * `parseInt(text)`: leading white space is skipped, one sign is read, then
   * the longest run of digits; None stands for NaN, when there is no digit.
   */
  function ParseInt(text: string): Option<int> {
    var s := text[SkipWhitespace(text, 0)..];
    if |s| >= 1 && s[0] == '-' then
      (match Magnitude(s[1..]) case None => None case Some(m) => Some(-m))
    else if |s| >= 1 && s[0] == '+' then
      Magnitude(s[1..])
    else
      Magnitude(s)
  }

  /** The text field: a parsed number within the bounds is proposed as it is; anything else is ignored, never clamped. */
  function HandleTextChange(p: Props, text: string): (r: Option<int>)
    ensures r.Some? <==> ParseInt(text).Some? && p.min <= ParseInt(text).value <= p.max
    ensures r.Some? ==> r == ParseInt(text)
  {
    match ParseInt(text)
    case None => None
    case Some(n) => if p.min <= n && n <= p.max then Some(n) else None
  }

  // ---------------------------------------------------------------------------
  // What the stepper promises
  // ---------------------------------------------------------------------------

  /** Starting inside the bounds with a positive step, whatever a handler proposes stays inside the bounds. */
  lemma EmittedValuesStayInRange(p: Props, value: int, text: string)
    requires p.min <= value <= p.max && p.step > 0
    ensures Increment(p, value).Some? ==> p.min <= Increment(p, value).value <= p.max
    ensures Decrement(p, value).Some? ==> p.min <= Decrement(p, value).value <= p.max
    ensures HandleTextChange(p, text).Some? ==> p.min <= HandleTextChange(p, text).value <= p.max
  {
  }

  /**
   * A greyed-out button is inert; with the unit step the component defaults to,
   * a button that is not greyed out always acts.
   */
  lemma ButtonsMatchHandlers(p: Props, value: int)
    requires p.step > 0
    ensures PlusDisabled(p, value) ==> Increment(p, value).None?
    ensures MinusDisabled(p, value) ==> Decrement(p, value).None?
    ensures p.step == 1 ==> (PlusDisabled(p, value) <==> Increment(p, value).None?)
    ensures p.step == 1 ==> (MinusDisabled(p, value) <==> Decrement(p, value).None?)
  {
  }

  /** One press of plus followed by one of minus returns to the starting value. */
  lemma IncrementThenDecrement(p: Props, value: int)
    requires p.min <= value && Increment(p, value).Some?
    ensures Decrement(p, Increment(p, value).value) == Some(value)
  {
  }

  lemma DigitCharValue(d: int)
    requires 0 <= d < 10
    ensures IsDecimalDigit(DigitChar(d)) && DigitValue(DigitChar(d)) == d
  {
    assert DigitChar(d) == "0123456789"[d];
  }

  /** The decimal text of a natural number reads back as that number. */
  lemma {:induction false} NatToStringValue(n: nat)
    ensures forall j :: 0 <= j < |NatToString(n)| ==> IsRadixDigit(NatToString(n)[j], false)
    ensures DigitsValue(NatToString(n), false) == n
  {
    var s := NatToString(n);
    if n < 10 {
      DigitCharValue(n);
      assert s[..0] == [];
    } else {
      NatToStringValue(n / 10);
      DigitCharValue(n % 10);
      assert s[..|s| - 1] == NatToString(n / 10);
    }
  }

  /** A decimal numeral followed by anything that does not continue it. */
  predicate EndsNumeral(n: int, rest: string) {
    rest == [] || (!IsDecimalDigit(rest[0]) && (n == 0 ==> rest[0] != 'x' && rest[0] != 'X'))
  }

  /** Reading the magnitude of a decimal numeral stops where the numeral does. */
  lemma MagnitudeOfNumeral(n: nat, rest: string)
    requires EndsNumeral(n, rest)
    ensures Magnitude(NatToString(n) + rest) == Some(n)
  {
    var digits := NatToString(n);
    var body := digits + rest;
    NatToStringValue(n);
    assert body[..|digits|] == digits;
    assert DigitRun(body, false) == |digits| by {
      DigitRunOfPrefix(digits, rest);
    }
  }

  /** A run of digits followed by a non-digit is read to its end. */
  lemma {:induction false} DigitRunOfPrefix(digits: string, rest: string)
    requires forall j :: 0 <= j < |digits| ==> IsDecimalDigit(digits[j])
    requires rest == [] || !IsDecimalDigit(rest[0])
    ensures DigitRun(digits + rest, false) == |digits|
  {
    if digits != [] {
      assert (digits + rest)[1..] == digits[1..] + rest;
      DigitRunOfPrefix(digits[1..], rest);
    }
  }

  /**
   * parseInt reads the leading integer: the decimal text of n followed by
   * anything that does not continue the numeral gives n back. After a lone
   * zero, an `x` would start a hexadecimal numeral instead.
   */
  lemma ParseIntReadsLeadingInteger(n: int, rest: string)
    requires EndsNumeral(n, rest)
    ensures ParseInt(IntToString(n) + rest) == Some(n)
  {
    if n < 0 {
      NegativeNumeral(-n, rest);
    } else {
      NonNegativeNumeral(n, rest);
    }
  }

  lemma NonNegativeNumeral(n: nat, rest: string)
    requires EndsNumeral(n, rest)
    ensures ParseInt(NatToString(n) + rest) == Some(n)
  {
    var text := NatToString(n) + rest;
    assert text[0] == NatToString(n)[0];
    MagnitudeOfNumeral(n, rest);
    ParseIntOfDigits(text);
  }

  lemma NegativeNumeral(m: nat, rest: string)
    requires m > 0 && EndsNumeral(m, rest)
    ensures ParseInt(IntToString(-(m as int)) + rest) == Some(-(m as int))
  {
    MagnitudeOfNumeral(m, rest);
    ParseIntAfterSign(NatToString(m) + rest, m);
    MinusSignFirst(m, rest);
  }

  lemma MinusSignFirst(m: nat, rest: string)
    requires m > 0
    ensures IntToString(-(m as int)) + rest == "-" + (NatToString(m) + rest)
  {
  }

  /** Text that starts with a digit is read from its first character. */
  lemma ParseIntOfDigits(text: string)
    requires text != [] && IsDecimalDigit(text[0])
    ensures ParseInt(text) == Magnitude(text)
  {
    assert text[SkipWhitespace(text, 0)..] == text;
  }

  /** Text that starts with a minus sign is read as the negated magnitude after it. */
  lemma ParseIntAfterSign(tail: string, m: int)
    requires Magnitude(tail) == Some(m)
    ensures ParseInt("-" + tail) == Some(-m)
  {
    var text := "-" + tail;
    assert text[SkipWhitespace(text, 0)..] == text;
    assert text[1..] == tail;
  }

  /** The value shown in the field, typed back, is accepted exactly when it is within the bounds. */
  lemma ShownValueTypedBack(p: Props, value: int)
    ensures HandleTextChange(p, IntToString(value)) == if p.min <= value <= p.max then Some(value) else None
  {
    ParseIntReadsLeadingInteger(value, []);
    assert IntToString(value) + [] == IntToString(value);
  }

  /** Text that starts with neither white space, a sign nor a digit is not a number. */
  lemma NoLeadingDigitIsNaN(text: string)
    requires text != [] && !IsJsWhitespace(text[0]) && !IsDecimalDigit(text[0]) && text[0] != '-' && text[0] != '+'
    ensures ParseInt(text) == None
  {
    assert text[SkipWhitespace(text, 0)..] == text;
  }

  /** Leading white space does not change what parseInt reads. */
  lemma LeadingWhitespaceIgnored(ws: string, text: string)
    requires AllWhitespace(ws)
    ensures ParseInt(ws + text) == ParseInt(text)
  {
    var s := ws + text;
    var i := SkipWhitespace(s, 0);
    var k := SkipWhitespace(text, 0);
    assert i == |ws| + k by {
      WhitespaceRun(ws, text);
    }
    assert s[i..] == text[k..];
  }

  lemma WhitespaceRun(ws: string, text: string)
    requires AllWhitespace(ws)
    ensures SkipWhitespace(ws + text, 0) == |ws| + SkipWhitespace(text, 0)
  {
    var s := ws + text;
    var i := SkipWhitespace(s, 0);
    var k := SkipWhitespace(text, 0);
    forall j | 0 <= j < |ws| + k ensures IsJsWhitespace(s[j]) {
      if j >= |ws| {
        assert s[j] == text[j - |ws|];
      }
    }
    assert |ws| + k < |s| ==> s[|ws| + k] == text[k];
  }

  /** `parseInt("12abc")` is 12. */
  lemma TrailingLettersIgnored()
    ensures ParseInt("12abc") == Some(12)
  {
    assert NatToString(12) == "12";
    ParseIntReadsLeadingInteger(12, "abc");
    assert IntToString(12) + "abc" == "12abc";
  }

  /** `parseInt("abc")` is NaN. */
  lemma LettersAreNaN()
    ensures ParseInt("abc") == None
  {
    NoLeadingDigitIsNaN("abc");
  }

  /** With no bounds or step given, the stepper runs from 1 to 100 by one. */
  lemma DefaultsApply()
    ensures PropsOf(None, None, None) == Props(1, 100, 1)
    ensures Increment(PropsOf(None, None, None), 100) == None
    ensures Decrement(PropsOf(None, None, None), 1) == None
  {
  }

  /** The number-of-lines field of the newsletter form accepts 1 and 50 and ignores 0 and 51. */
  lemma MaxLinesBounds()
    ensures MaxLinesProps == Props(1, 50, 1)
    ensures HandleTextChange(MaxLinesProps, IntToString(0)) == None
    ensures HandleTextChange(MaxLinesProps, IntToString(51)) == None
    ensures HandleTextChange(MaxLinesProps, IntToString(1)) == Some(1)
    ensures HandleTextChange(MaxLinesProps, IntToString(50)) == Some(50)
    ensures Increment(MaxLinesProps, 50) == None && Decrement(MaxLinesProps, 1) == None
  {
    ShownValueTypedBack(MaxLinesProps, 0);
    ShownValueTypedBack(MaxLinesProps, 51);
    ShownValueTypedBack(MaxLinesProps, 1);
    ShownValueTypedBack(MaxLinesProps, 50);
  }
}

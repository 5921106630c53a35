/**
 * The text conversions the client relies on from Rust's standard library:
 * the `Display` rendering of integers (used for the `limit` query value, the
 * event id in a path and the port of the base URL), `str::trim`, and
 * `i64::from_str` (used on the event-count body).
 */
module Numerals {
  import opened Wrappers

  // ---------------------------------------------------------------------------
  // Digits

  predicate IsDigit(c: char) { '0' <= c <= '9' }

  function DigitValue(c: char): nat
    requires IsDigit(c)
  {
    c as int - '0' as int
  }

  function DigitChar(d: nat): (c: char)
    requires d < 10
    ensures IsDigit(c) && DigitValue(c) == d
  {
    ('0' as int + d) as char
  }

  predicate AllDigits(s: string) {
    forall i :: 0 <= i < |s| ==> IsDigit(s[i])
  }

  /** The positional base-10 value of a digit string: the reference reading of a numeral. */
  function DigitsValue(ds: string): nat
    requires AllDigits(ds)
    decreases |ds|
  {
    if ds == [] then 0 else DigitsValue(ds[..|ds| - 1]) * 10 + DigitValue(ds[|ds| - 1])
  }

  lemma {:induction false} DigitsValueMonotone(p: string, q: string)
    requires AllDigits(p) && AllDigits(q)
    ensures AllDigits(p + q) && DigitsValue(p) <= DigitsValue(p + q)
    decreases |q|
  {
    if q == [] {
      assert p + q == p;
    } else {
      var q' := q[..|q| - 1];
      assert (p + q)[..|p + q| - 1] == p + q';
      DigitsValueMonotone(p, q');
    }
  }

  // ---------------------------------------------------------------------------
  // Display of integers

  /** `Display` of an unsigned integer: base-10 digits, no sign, no leading zero. */
  function NatText(n: nat): (s: string)
    ensures |s| > 0 && AllDigits(s)
    ensures |s| > 1 ==> s[0] != '0'
    decreases n
  {
    if n < 10 then [DigitChar(n)] else NatText(n / 10) + [DigitChar(n % 10)]
  }

  /** Reading back the digits of `NatText(n)` gives `n`. */
  lemma {:induction false} NatTextValue(n: nat)
    ensures DigitsValue(NatText(n)) == n
    decreases n
  {
    if n >= 10 {
      NatTextValue(n / 10);
      var s := NatText(n);
      assert s[..|s| - 1] == NatText(n / 10);
    }
  }

  /** `Display` of a signed integer: a '-' before the magnitude when negative, never a '+'. */
  function IntText(v: int): (s: string)
    ensures |s| > 0 && (s[0] == '-' <==> v < 0)
    ensures forall i :: 0 < i < |s| ==> IsDigit(s[i])
    ensures v >= 0 ==> IsDigit(s[0])
    ensures v < 0 ==> |s| > 1
    ensures var d := if v < 0 then s[1..] else s; |d| > 1 ==> d[0] != '0'
  {
    if v < 0 then "-" + NatText(-v) else NatText(v)
  }

  // ---------------------------------------------------------------------------
  // str::trim

  /** `char::is_whitespace`: the Unicode White_Space property. */
  predicate IsWhitespace(c: char) {
    || ('\t' <= c <= '\r')
    || c == ' '
    || c == '\U{85}'
    || c == '\U{A0}'
    || c == '\U{1680}'
    || ('\U{2000}' <= c <= '\U{200A}')
    || c == '\U{2028}'
    || c == '\U{2029}'
    || c == '\U{202F}'
    || c == '\U{205F}'
    || c == '\U{3000}'
  }

  predicate AllWhitespace(s: string) {
    forall i :: 0 <= i < |s| ==> IsWhitespace(s[i])
  }

  /** Drops the leading whitespace: what is removed is all whitespace, what is kept starts with none. */
  function TrimStart(s: string): (r: string)
    ensures |r| <= |s| && r == s[|s| - |r|..]
    ensures AllWhitespace(s[..|s| - |r|])
    ensures r != [] ==> !IsWhitespace(r[0])
    decreases |s|
  {
    if s != [] && IsWhitespace(s[0]) then
      var r := TrimStart(s[1..]);
      assert s[..|s| - |r|] == [s[0]] + s[1..][..|s| - 1 - |r|];
      r
    else s
  }

  /** Drops the trailing whitespace: what is removed is all whitespace, what is kept ends with none. */
  function TrimEnd(s: string): (r: string)
    ensures |r| <= |s| && r == s[..|r|]
    ensures AllWhitespace(s[|r|..])
    ensures r != [] ==> !IsWhitespace(r[|r| - 1])
    decreases |s|
  {
    if s != [] && IsWhitespace(s[|s| - 1]) then
      var r := TrimEnd(s[..|s| - 1]);
      assert s[|r|..] == s[..|s| - 1][|r|..] + [s[|s| - 1]];
      r
    else s
  }

  /**
   * `str::trim`. This contract alone does not fix the result; the contracts of
   * `TrimStart` and `TrimEnd`, and `TrimPadded`, say exactly what is removed.
   */
  function Trim(s: string): (r: string)
    ensures |r| <= |s|
    ensures r != [] ==> !IsWhitespace(r[0]) && !IsWhitespace(r[|r| - 1])
  {
    TrimEnd(TrimStart(s))
  }

  lemma {:induction false} TrimStartPadded(pre: string, rest: string)
    requires AllWhitespace(pre)
    requires rest != [] ==> !IsWhitespace(rest[0])
    ensures TrimStart(pre + rest) == rest
    decreases |pre|
  {
    if pre == [] {
      assert pre + rest == rest;
    } else {
      assert (pre + rest)[1..] == pre[1..] + rest;
      TrimStartPadded(pre[1..], rest);
    }
  }

  lemma {:induction false} TrimEndPadded(core: string, post: string)
    requires AllWhitespace(post)
    requires core != [] ==> !IsWhitespace(core[|core| - 1])
    ensures TrimEnd(core + post) == core
    decreases |post|
  {
    if post == [] {
      assert core + post == core;
    } else {
      var s := core + post;
      assert s[..|s| - 1] == core + post[..|post| - 1];
      TrimEndPadded(core, post[..|post| - 1]);
    }
  }

  /** Trimming removes exactly the surrounding whitespace and nothing of a core that has none at its ends. */
  lemma {:induction false} TrimPadded(pre: string, core: string, post: string)
    requires AllWhitespace(pre) && AllWhitespace(post)
    requires core != [] ==> !IsWhitespace(core[0]) && !IsWhitespace(core[|core| - 1])
    ensures Trim(pre + core + post) == core
  {
    assert pre + core + post == pre + (core + post);
    if core == [] {
      var w := pre + post;
      assert pre + core + post == w + [];
      assert AllWhitespace(w) by {
        forall i | 0 <= i < |w| ensures IsWhitespace(w[i]) {
          if i >= |pre| { assert w[i] == post[i - |pre|]; }
        }
      }
      TrimStartPadded(w, []);
    } else {
      TrimStartPadded(pre, core + post);
      TrimEndPadded(core, post);
    }
  }

  // ---------------------------------------------------------------------------
  // i64::from_str

  /** Why `i64::from_str` refused its input (Rust's `IntErrorKind`). */
  datatype IntErrorKind = Empty | InvalidDigit | PosOverflow | NegOverflow

  /**
   * The digit loop for a non-negative number: left to right, a non-digit is
   * `InvalidDigit`, a step past `i64::MAX` is `PosOverflow`, whichever comes first.
   */
  function AccumulatePos(acc: int, ds: string): (r: Result<i64, IntErrorKind>)
    requires 0 <= acc <= MAX_I64
    ensures r.Ok? ==> AllDigits(ds)
    ensures r.Err? ==> r.error == InvalidDigit || r.error == PosOverflow
    decreases |ds|
  {
    if ds == [] then Ok(acc)
    else if !IsDigit(ds[0]) then Err(InvalidDigit)
    else
      var n := acc * 10 + DigitValue(ds[0]);
      if n > MAX_I64 then Err(PosOverflow) else AccumulatePos(n, ds[1..])
  }

  /** The digit loop after a '-': each digit is subtracted, a step below `i64::MIN` is `NegOverflow`. */
  function AccumulateNeg(acc: int, ds: string): (r: Result<i64, IntErrorKind>)
    requires MIN_I64 <= acc <= 0
    ensures r.Ok? ==> AllDigits(ds)
    ensures r.Err? ==> r.error == InvalidDigit || r.error == NegOverflow
    decreases |ds|
  {
    if ds == [] then Ok(acc)
    else if !IsDigit(ds[0]) then Err(InvalidDigit)
    else
      var n := acc * 10 - DigitValue(ds[0]);
      if n < MIN_I64 then Err(NegOverflow) else AccumulateNeg(n, ds[1..])
  }

  /** `i64::from_str`: an optional '+' or '-', then the digit loop. */
  function ParseI64(s: string): (r: Result<i64, IntErrorKind>)
    ensures r == Err(Empty) <==> s == []
    ensures r.Ok? ==> IsNumeral(s)
  {
    if s == [] then Err(Empty)
    else if (s[0] == '+' || s[0] == '-') && |s| == 1 then Err(InvalidDigit)
    else if s[0] == '+' then AccumulatePos(0, s[1..])
    else if s[0] == '-' then AccumulateNeg(0, s[1..])
    else AccumulatePos(0, s)
  }

  /** A decimal numeral: an optional sign followed by one or more digits. */
  predicate IsNumeral(s: string) {
    if |s| > 0 && (s[0] == '+' || s[0] == '-') then |s| > 1 && AllDigits(s[1..])
    else |s| > 0 && AllDigits(s)
  }

  function NumeralValue(s: string): int
    requires IsNumeral(s)
  {
    if s[0] == '-' then -(DigitsValue(s[1..]) as int)
    else if s[0] == '+' then DigitsValue(s[1..])
    else DigitsValue(s)
  }

  lemma {:induction false} AccumulatePosValue(p: string, ds: string)
    requires AllDigits(p) && AllDigits(ds) && DigitsValue(p) <= MAX_I64
    ensures AllDigits(p + ds)
    ensures AccumulatePos(DigitsValue(p), ds)
            == if DigitsValue(p + ds) <= MAX_I64 then Ok(DigitsValue(p + ds)) else Err(PosOverflow)
    decreases |ds|
  {
    if ds == [] {
      assert p + ds == p;
    } else {
      var p' := p + [ds[0]];
      assert p'[..|p'| - 1] == p;
      assert p' + ds[1..] == p + ds;
      DigitsValueMonotone(p', ds[1..]);
      if DigitsValue(p') <= MAX_I64 {
        AccumulatePosValue(p', ds[1..]);
      }
    }
  }

  lemma {:induction false} AccumulateNegValue(p: string, ds: string)
    requires AllDigits(p) && AllDigits(ds) && MIN_I64 <= -(DigitsValue(p) as int)
    ensures AllDigits(p + ds)
    ensures AccumulateNeg(-(DigitsValue(p) as int), ds)
            == if MIN_I64 <= -(DigitsValue(p + ds) as int) then Ok(-(DigitsValue(p + ds) as int)) else Err(NegOverflow)
    decreases |ds|
  {
    if ds == [] {
      assert p + ds == p;
    } else {
      var p' := p + [ds[0]];
      assert p'[..|p'| - 1] == p;
      assert p' + ds[1..] == p + ds;
      DigitsValueMonotone(p', ds[1..]);
      if MIN_I64 <= -(DigitsValue(p') as int) {
        AccumulateNegValue(p', ds[1..]);
      }
    }
  }

  /**
   * `i64::from_str` succeeds exactly on the numerals whose value fits in `i64`,
   * and then returns that value.
   */
  lemma ParseI64Spec(s: string)
    ensures ParseI64(s).Ok? <==> IsNumeral(s) && MIN_I64 <= NumeralValue(s) <= MAX_I64
    ensures ParseI64(s).Ok? ==> ParseI64(s).value == NumeralValue(s)
  {
    if |s| > 1 && s[0] == '+' {
      ParseI64SpecPlus(s);
    } else if |s| > 1 && s[0] == '-' {
      ParseI64SpecMinus(s);
    } else {
      ParseI64SpecUnsigned(s);
    }
  }

  /** `ParseI64Spec` for a text with a leading '+'. */
  lemma ParseI64SpecPlus(s: string)
    requires |s| > 1 && s[0] == '+'
    ensures ParseI64(s).Ok? <==> IsNumeral(s) && NumeralValue(s) <= MAX_I64
    ensures ParseI64(s).Ok? ==> ParseI64(s).value == NumeralValue(s)
  {
    var ds := s[1..];
    assert ParseI64(s) == AccumulatePos(0, ds);
    if AllDigits(ds) {
      assert [] + ds == ds;
      AccumulatePosValue([], ds);
    }
  }

  /** `ParseI64Spec` for a text with a leading '-'. */
  lemma ParseI64SpecMinus(s: string)
    requires |s| > 1 && s[0] == '-'
    ensures ParseI64(s).Ok? <==> IsNumeral(s) && MIN_I64 <= NumeralValue(s)
    ensures ParseI64(s).Ok? ==> ParseI64(s).value == NumeralValue(s)
  {
    var ds := s[1..];
    assert ParseI64(s) == AccumulateNeg(0, ds);
    if AllDigits(ds) {
      assert [] + ds == ds;
      AccumulateNegValue([], ds);
    }
  }

  /** `ParseI64Spec` for a text that is not a sign followed by more. */
  lemma ParseI64SpecUnsigned(s: string)
    requires !(|s| > 1 && (s[0] == '+' || s[0] == '-'))
    ensures ParseI64(s).Ok? <==> IsNumeral(s) && MIN_I64 <= NumeralValue(s) <= MAX_I64
    ensures ParseI64(s).Ok? ==> ParseI64(s).value == NumeralValue(s)
  {
    if s != [] && s[0] != '+' && s[0] != '-' {
      assert ParseI64(s) == AccumulatePos(0, s);
      if AllDigits(s) {
        assert [] + s == s;
        AccumulatePosValue([], s);
      }
    }
  }

  /** What `i64`'s `Display` writes, `i64::from_str` reads back, negatives included. */
  lemma IntTextRoundTrip(v: i64)
    ensures ParseI64(IntText(v)) == Ok(v)
  {
    var s := IntText(v);
    ParseI64Spec(s);
    if v < 0 {
      NatTextValue(-(v as int));
      assert s[1..] == NatText(-(v as int));
    } else {
      NatTextValue(v);
    }
  }

  /** Numerals past the `i64` range are refused with the overflow of their sign. */
  lemma ParseI64OutOfRange(n: nat)
    ensures n > MAX_I64 ==> ParseI64(NatText(n)) == Err(PosOverflow)
    ensures n > -MIN_I64 ==> ParseI64("-" + NatText(n)) == Err(NegOverflow)
  {
    var ds := NatText(n);
    NatTextValue(n);
    assert [] + ds == ds;
    AccumulatePosValue([], ds);
    AccumulateNegValue([], ds);
    assert ("-" + ds)[1..] == ds;
  }

  /** Trimming a body such as the server writes it. */
  lemma TrimExample()
    ensures Trim(" 42\n") == "42"
  {
    assert " 42\n" == " " + "42" + "\n";
    TrimPadded(" ", "42", "\n");
  }

  /** Accepted: digits with an optional sign. */
  lemma ParseI64AcceptExamples()
    ensures ParseI64("42") == Ok(42)
    ensures ParseI64("+42") == Ok(42)
    ensures ParseI64("-7") == Ok(-7)
  {
  }

  /** Refused: words, the empty text, a lone sign, a space inside the digits. */
  lemma ParseI64RejectExamples()
    ensures ParseI64("abc") == Err(InvalidDigit)
    ensures ParseI64("") == Err(Empty)
    ensures ParseI64("-") == Err(InvalidDigit)
    ensures ParseI64("4 2") == Err(InvalidDigit)
    ensures ParseI64("count") == Err(InvalidDigit)
  {
  }
}

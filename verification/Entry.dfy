/** What a user types: a verification code of six digits or a scratch code of eight, possibly with
    the system password in front. */
module Entry {
  import opened CText
  import opened Scratch

  const CODE_MODULUS := 1_000_000

  /** Modes 0 and 2 look for a verification code, modes 1 and 3 for a scratch code. */
  function ExpectedLength(mode: nat): nat { if mode % 2 == 1 then 8 else 6 }

  /** The code at the end of what was typed, and the password in front of it; `alone` if there
      must not be any. */
  function Parse(pw: string, mode: nat, alone: bool): Option<(int, string)>
  {
    var n := ExpectedLength(mode);
    if |pw| < n then None
    else
      var tail := pw[|pw| - n..];
      var ch := tail[0];
      var r := Strtol(tail);
      if ch > '9' || ch < (if n == 8 then '1' else '0') || r.erange || r.value < 0 || r.end < n then None
      else if alone && |pw| > n then None
      else Some((ToInt32(r.value), pw[..|pw| - n]))
  }

  function Power(n: nat): nat { if n == 0 then 1 else 10 * Power(n - 1) }

  lemma {:induction false} DecValueBelow(s: string)
    requires All(Digit, s)
    ensures DecValue(s) < Power(|s|)
  {
    if s != "" {
      assert IsDigit(s[|s| - 1]);
      DecValueBelow(s[..|s| - 1]);
    }
  }

  lemma {:induction false} DecValueAbove(s: string)
    requires s != "" && All(Digit, s) && s[0] != '0'
    ensures DecValue(s) >= Power(|s| - 1)
  {
    if |s| > 1 {
      assert IsDigit(s[|s| - 1]);
      DecValueAbove(s[..|s| - 1]);
    } else {
      assert s[..0] == "";
      assert IsDigit(s[0]);
    }
  }

  lemma Powers()
    ensures Power(6) == CODE_MODULUS && Power(8) == CODE_LIMIT && Power(7) == SMALLEST_CODE
  {
    assert Power(2) == 100;
    assert Power(4) == 10_000;
    assert Power(6) == 1_000_000;
  }

  /** A typed text ends in a code exactly when its last six characters are digits, or its last
      eight with no zero in front; the code is their value. */
  predicate EndsInCode(pw: string, mode: nat, alone: bool)
  {
    var n := ExpectedLength(mode);
    && |pw| >= n && All(Digit, pw[|pw| - n..])
    && (n == 8 ==> pw[|pw| - n] != '0')
    && (alone ==> |pw| == n)
  }

  lemma ParseIff(pw: string, mode: nat, alone: bool)
    ensures Parse(pw, mode, alone).Some? <==> EndsInCode(pw, mode, alone)
    ensures EndsInCode(pw, mode, alone) ==>
              var tail := pw[|pw| - ExpectedLength(mode)..];
              Parse(pw, mode, alone).value == (DecValue(tail), pw[..|pw| - |tail|])
  {
    hide Strtol, DecValue, ToInt32, All;
    var n := ExpectedLength(mode);
    if |pw| >= n {
      var tail := pw[|pw| - n..];
      assert tail[0] == pw[|pw| - n];
      if '0' <= tail[0] <= '9' {
        NumberFills(tail);
      } else {
        FirstNoDigit(tail);
      }
    }
  }

  lemma FirstNoDigit(s: string)
    requires s != "" && !('0' <= s[0] <= '9')
    ensures !All(Digit, s)
  {
  }

  /** A text of at most eight characters that starts with a digit is read whole exactly when it
      consists of digits. */
  lemma NumberFills(s: string)
    requires 0 < |s| <= 8 && IsDigit(s[0])
    ensures var r := Strtol(s);
            && r.end <= |s| && (r.end == |s| <==> All(Digit, s))
            && (r.end == |s| ==> !r.erange && r.value == DecValue(s) && ToInt32(r.value) == r.value >= 0)
  {
    hide DecValue, Span, Magnitude, Power;
    SpanIs(Space, s, 0);
    assert s[0..] == s;
    if All(Digit, s) { SpanIs(Digit, s, |s|); }
    var d := Span(Digit, s);
    assert d > 0 && (d == |s| <==> All(Digit, s));
    MagnitudeIs(s, 0, 0, d);
    assert Magnitude(s) == (false, DecValue(s[0..][..d]), d);
    if d == |s| {
      assert s[0..][..d] == s;
      DecValueBelow(s);
      PowerMonotone(|s|, 8);
      Powers();
    }
  }

  lemma {:induction false} PowerMonotone(m: nat, n: nat)
    requires m <= n
    ensures Power(m) <= Power(n)
  {
    if m < n { PowerMonotone(m, n - 1); }
  }

  /** The two kinds of code never overlap. */
  lemma CodeRanges(pw: string, mode: nat, alone: bool)
    requires Parse(pw, mode, alone).Some?
    ensures var code := Parse(pw, mode, alone).value.0;
            if mode % 2 == 1 then SMALLEST_CODE <= code < CODE_LIMIT else 0 <= code < CODE_MODULUS
  {
    hide DecValue, Power;
    ParseIff(pw, mode, alone);
    var tail := pw[|pw| - ExpectedLength(mode)..];
    assert tail[0] == pw[|pw| - ExpectedLength(mode)];
    DecValueBelow(tail);
    Powers();
    if mode % 2 == 1 { DecValueAbove(tail); }
  }

  lemma {:induction false} ScannedCodes(r: string)
    ensures forall i :: 0 <= i < |ScanCodes(r)| ==> SMALLEST_CODE <= ScanCodes(r)[i] < CODE_LIMIT
    decreases |r|
  {
    hide Span, Strtoul, ToInt32;
    var s := r[Span(Eol, r)..];
    if !Stops(s) { ScannedCodes(s[NextLine(s)..]); }
  }

  /** What the file lists as scratch codes has eight digits, whatever the file is. */
  lemma ListedCodes(t: string)
    ensures forall x :: x in Codes(t) ==> SMALLEST_CODE <= x < CODE_LIMIT
  {
    ScannedCodes(AfterSecret(t));
  }

  // ---- codes as they are shown ------------------------------------------------------------------

  /** The last `k` digits of a number, zeros in front included. */
  function LastDigits(n: nat, k: nat): (s: string)
    ensures |s| == k && All(Digit, s)
  {
    if k == 0 then "" else LastDigits(n / 10, k - 1) + [DigitChar(n % 10)]
  }

  lemma {:induction false} LastDigitsValue(n: nat, k: nat)
    requires n < Power(k)
    ensures DecValue(LastDigits(n, k)) == n
  {
    if k > 0 {
      var s := LastDigits(n, k);
      LastDigitsValue(n / 10, k - 1);
      assert s[..k - 1] == LastDigits(n / 10, k - 1) && s[k - 1] == DigitChar(n % 10);
    }
  }

  /** A code typed as it is shown, with all its six digits, is read as that code. */
  lemma ShownIsTyped(code: nat, mode: nat, alone: bool)
    requires code < CODE_MODULUS && mode % 2 == 0
    ensures Parse(LastDigits(code, 6), mode, alone) == Some((code, ""))
  {
    hide DecValue, LastDigits, Power, All;
    var pw := LastDigits(code, 6);
    Powers();
    LastDigitsValue(code, 6);
    ParseIff(pw, mode, alone);
    assert pw[|pw| - 6..] == pw && pw[..|pw| - 6] == "";
  }
}

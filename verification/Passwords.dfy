/** A password and a code in one text: where a password may stand before the code, what is handed on, and
    which of the texts that are typed take part at all. */
module Passwords {
  import opened CText
  import opened StateText
  import opened Scratch
  import opened StateInvariant
  import opened Options
  import opened Entry
  import opened Checks
  import opened Login
  import opened Effects
  import opened FirstLogin
  import RateLimit
  import Otp
  import Outcomes
  import LastLogins

  // ---- six digits behind a password ---------------------------------------------------------------

  lemma ParseBehind(pw: string, code: nat, mode: nat, alone: bool)
    requires code < CODE_MODULUS && mode % 2 == 0 && (alone ==> pw == "")
    ensures Parse(pw + LastDigits(code, 6), mode, alone) == Some((code, pw))
  {
    hide DecValue, LastDigits, Power, All, Parse;
    var tail := LastDigits(code, 6);
    Powers();
    LastDigitsValue(code, 6);
    EndsIn(pw, tail);
    ParseIff(pw + tail, mode, alone);
  }

  /** May a password stand before the code? Behind a password of an earlier module always; at the prompt
      only if it is to be handed on. */
  predicate MayShare(p: Params, pw: string) { p.passMode == Prompt && !p.forwardPass ==> pw == "" }

  lemma CodeFirst(p: Params, i: Input, otp: Coder, file: string, t: string, gen: int -> int, pw: string, code: nat)
    requires code < CODE_MODULUS && FirstTyped(p, i) == Some(pw + LastDigits(code, 6)) && MayShare(p, pw)
    requires !Check(NewAttempt(p, i, otp, file), gen, t, code, false).verdict.NotThis?
    ensures var a := NewAttempt(p, i, otp, file); var r := TryAll(a, gen, t, 0, false);
            r.mode < 4 && r.checked == Check(a, gen, t, code, false) && Entered(a, r.mode) == Some((code, pw))
  {
    hide Parse, Check, TryAll, Otp.SharedSecret, HotpCounter, LastDigits;
    var a := NewAttempt(p, i, otp, file);
    ParseBehind(pw, code, 0, false);
    if p.passMode == Prompt { ParseBehind(pw, code, 2, !p.forwardPass); }
    TryAllStep(a, gen, t, 0, false);
    TryAllStep(a, gen, t, 1, false);
    TryAllStep(a, gen, t, 2, false);
  }

  /** The code that ends the text typed first is checked, if it is decisive nothing else is, and what stands
      before it is the password that is handed on. */
  lemma CodeBehindPassword(p: Params, i: Input, otp: Coder, file: string, secret: seq<bv8>, pw: string, code: nat)
    requires code < CODE_MODULUS && FirstTyped(p, i) == Some(pw + LastDigits(code, 6)) && MayShare(p, pw)
    requires var (decision, t) := RateLimit.Check(file, ToUInt32(i.now));
             && (decision.Admitted? || decision.Unlimited?) && !InGracePeriod(p, i, t)
             && Otp.SharedSecret(t) == Some(secret)
             && !CheckCode(t, otp(secret), code, HotpCounter(t), i.now, p.noSkewAdj, false).verdict.NotThis?
    ensures var t := RateLimit.Check(file, ToUInt32(i.now)).1;
            var o := Authenticate(p, i, otp, file);
            var verdict := CheckCode(t, otp(secret), code, HotpCounter(t), i.now, p.noSkewAdj, false).verdict;
            && o.verdict == verdict && (o.success <==> verdict.Accepted? && (p.forwardPass ==> i.itemSet))
            && Modes(NewAttempt(p, i, otp, t), 0, Start(t)).pw == Some(pw)
  {
    hide RateLimit.Check, InGracePeriod, Modes, TryAll, Otp.SharedSecret, HotpCounter, FinalText, Entered, Prompts,
         ToUInt32, CheckCode, LastDigits, MayShare;
    var t := RateLimit.Check(file, ToUInt32(i.now)).1;
    var a := NewAttempt(p, i, otp, t);
    CodeFirst(p, i, otp, t, t, otp(secret), pw, code);
    StartUnchanged(a, t);
    LoopIsTryAll(a, otp(secret), t, 0, Start(t));
    Outcomes.SuccessIff(p, i, otp, file);
  }

  /** At the prompt with forward_pass: the right code of an unused step behind any password lets the user in,
      and that password is handed on. */
  lemma ForwardedPassword(p: Params, i: Input, otp: Coder, file: string, secret: seq<bv8>, pw: string, code: nat)
    requires p.passMode == Prompt && p.forwardPass && i.itemSet
    requires code < CODE_MODULUS && i.reply == Some(pw + LastDigits(code, 6))
    requires var (decision, t) := RateLimit.Check(file, ToUInt32(i.now));
             && (decision.Admitted? || decision.Unlimited?) && !InGracePeriod(p, i, t)
             && Otp.SharedSecret(t) == Some(secret) && Tidy(t) && NoOverflow(t, HotpCounter(t), i.now)
             && RightStep(t, otp(secret), code, i.now) && forall s: int :: Outcomes.Unused(t, s)
    ensures var t := RateLimit.Check(file, ToUInt32(i.now)).1;
            var o := Authenticate(p, i, otp, file);
            && o.success && o.verdict.Accepted? && o.verdict.via.ByStep?
            && Modes(NewAttempt(p, i, otp, t), 0, Start(t)).pw == Some(pw)
  {
    hide *;
    var t := RateLimit.Check(file, ToUInt32(i.now)).1;
    AtPrompt(p, i, pw);
    StepAccepted(t, otp(secret), code, i.now, p.noSkewAdj, false);
    CodeBehindPassword(p, i, otp, file, secret, pw, code);
  }

  lemma AtPrompt(p: Params, i: Input, pw: string)
    requires p.passMode == Prompt
    ensures FirstTyped(p, i) == i.reply && (p.forwardPass ==> MayShare(p, pw))
  {
  }

  // ---- nothing but a code ---------------------------------------------------------------------------

  /** Six or eight digits and no more. */
  predicate OnlyCode(text: string) { (|text| == 6 || |text| == 8) && All(Digit, text) }

  /** The texts that may be typed at the prompt. */
  function Answer(i: Input): Option<string> { if i.reply.Some? then i.reply else i.again }

  /** At the prompt without forward_pass only a text that is nothing but a code lets anyone in. */
  lemma AcceptedAlone(p: Params, i: Input, otp: Coder, file: string)
    requires p.passMode == Prompt && !p.forwardPass
    requires Authenticate(p, i, otp, file).verdict.Accepted?
    ensures Answer(i).Some? && OnlyCode(Answer(i).value)
  {
    hide RateLimit.Check, InGracePeriod, Modes, TryAll, Otp.SharedSecret, HotpCounter, FinalText, Prompts, ToUInt32,
         Check, Parse, OnlyCode, Unchanged;
    var t := RateLimit.Check(file, ToUInt32(i.now)).1;
    var a := NewAttempt(p, i, otp, t);
    StartUnchanged(a, t);
    if a.gen.None? {
      GuardFires(a, t, 0, Start(t));
    } else {
      LoopIsTryAll(a, a.gen.value, t, 0, Start(t));
      var r := TryAll(a, a.gen.value, t, 0, false);
      AloneIsCode(Typed(a, r.mode).value, r.mode);
    }
  }

  lemma AloneIsCode(text: string, mode: nat)
    requires Parse(text, mode, true).Some?
    ensures OnlyCode(text)
  {
    hide DecValue, All;
    ParseIff(text, mode, true);
    assert text[0..] == text;
  }

  // ---- eight digits behind a password ---------------------------------------------------------------

  lemma ParseEight(pw: string, code: nat, mode: nat, alone: bool)
    requires SMALLEST_CODE <= code < CODE_LIMIT && mode % 2 == 1 && (alone ==> pw == "")
    ensures Parse(pw + LastDigits(code, 8), mode, alone) == Some((code, pw))
  {
    hide DecValue, Power, All, LastDigits, Parse;
    var tail := LastDigits(code, 8);
    Powers();
    LastDigitsValue(code, 8);
    FirstOfEight(code);
    EndsIn(pw, tail);
    ParseIff(pw + tail, mode, alone);
  }

  lemma EndsIn(pw: string, tail: string)
    requires tail != ""
    ensures var text := pw + tail; var n := |text| - |tail|;
            text[n..] == tail && text[..n] == pw && text[n] == tail[0] && (pw == "" ==> |text| == |tail|)
  {
  }

  lemma FirstOfEight(code: nat)
    requires SMALLEST_CODE <= code < CODE_LIMIT
    ensures LastDigits(code, 8)[0] != '0'
  {
    hide DecValue, Power;
    var s := LastDigits(code, 8);
    Powers();
    LastDigitsValue(code, 8);
    if s[0] == '0' { LeadingZero(s); }
  }

  lemma LeadingZero(s: string)
    requires |s| == 8 && All(Digit, s) && s[0] == '0'
    ensures DecValue(s) < SMALLEST_CODE
  {
    hide Power;
    assert DecValue([s[0]]) == 0 by { assert [s[0]][..0] == ""; }
    assert s == [s[0]] + s[1..];
    DecValueZero(s[1..]);
    DecValueBelow(s[1..]);
    Powers();
  }

  lemma {:induction false} DecValueZero(s: string)
    requires All(Digit, s)
    ensures All(Digit, "0" + s) && DecValue("0" + s) == DecValue(s)
  {
    var z := "0" + s;
    if s == "" {
      assert z == "0" && z[..0] == "";
    } else {
      DecValueZero(s[..|s| - 1]);
      assert z[..|z| - 1] == "0" + s[..|s| - 1] && z[|z| - 1] == s[|s| - 1];
    }
  }

  lemma ModTen(n: nat, p: nat)
    requires p > 0
    ensures n / 10 % p * 10 + n % 10 == n % (10 * p)
  {
    var q, r := n / 10 / p, n / 10 % p;
    assert n / 10 == p * q + r;
    assert 10 * (p * q) == (10 * p) * q;
    RemainderIs(n, 10 * p, q, r * 10 + n % 10);
  }

  lemma RemainderIs(n: nat, d: nat, q: nat, r: nat)
    requires r < d && n == d * q + r
    ensures n % d == r
  {
    var p, m := n / d, n % d;
    assert n == d * p + m;
    assert d * (p + 1) == d * p + d && d * (q + 1) == d * q + d;
    if p < q { TimesMonotone(d, p + 1, q); } else if q < p { TimesMonotone(d, q + 1, p); }
  }

  lemma {:induction false} LastDigitsMod(n: nat, k: nat)
    ensures Power(k) > 0 && DecValue(LastDigits(n, k)) == n % Power(k)
  {
    if k > 0 {
      var s := LastDigits(n, k);
      LastDigitsMod(n / 10, k - 1);
      assert s[..k - 1] == LastDigits(n / 10, k - 1) && s[k - 1] == DigitChar(n % 10);
      ModTen(n, Power(k - 1));
    }
  }

  lemma {:induction false} LastOfMore(n: nat, k: nat, j: nat)
    ensures LastDigits(n, k + j)[j..] == LastDigits(n, k)
  {
    if k > 0 {
      LastOfMore(n / 10, k - 1, j);
      assert LastDigits(n, k + j)[j..] == LastDigits(n / 10, k + j - 1)[j..] + [DigitChar(n % 10)];
    } else {
      assert LastDigits(n, j)[j..] == "";
    }
  }

  /** Eight digits end in six, which are the number's remainder. */
  lemma SixOfEight(pw: string, code: nat)
    requires code < CODE_LIMIT
    ensures var six := code % CODE_MODULUS;
            pw + LastDigits(code, 8) == pw + LastDigits(code, 8)[..2] + LastDigits(six, 6)
  {
    hide LastDigits, Power, DecValue;
    LastOfMore(code, 6, 2);
    SameSix(code);
    TwoAndMore(pw, LastDigits(code, 8), LastDigits(code % CODE_MODULUS, 6));
  }

  lemma TwoAndMore(pw: string, s: string, rest: string)
    requires |s| >= 2 && s[2..] == rest
    ensures pw + s == pw + s[..2] + rest
  {
    assert s == s[..2] + rest;
    assert pw + (s[..2] + rest) == pw + s[..2] + rest;
  }

  lemma SameSix(code: nat)
    ensures LastDigits(code, 6) == LastDigits(code % CODE_MODULUS, 6)
  {
    hide LastDigits;
    assert Power(6) == CODE_MODULUS by { Powers(); }
    DropHigh(code, 6);
  }

  lemma {:induction false} DropHigh(n: nat, k: nat)
    ensures Power(k) > 0 && LastDigits(n, k) == LastDigits(n % Power(k), k)
  {
    if k > 0 {
      DropHigh(n / 10, k - 1);
      ModTen(n, Power(k - 1));
      var m := n % Power(k);
      assert m == n / 10 % Power(k - 1) * 10 + n % 10;
      assert m / 10 == n / 10 % Power(k - 1) && m % 10 == n % 10;
    }
  }

  /** A listed emergency code that is typed first, behind a password or not. Where a password may stand
      before a code its last six digits are tried first, and only if those are not decisive does it let the
      user in; at the prompt without forward_pass it always does. */
  lemma ScratchBehindPassword(p: Params, i: Input, otp: Coder, file: string, secret: seq<bv8>, pw: string, code: nat)
    requires SMALLEST_CODE <= code < CODE_LIMIT && FirstTyped(p, i) == Some(pw + LastDigits(code, 8)) && MayShare(p, pw)
    requires var (decision, t) := RateLimit.Check(file, ToUInt32(i.now));
             && (decision.Admitted? || decision.Unlimited?) && !InGracePeriod(p, i, t)
             && Otp.SharedSecret(t) == Some(secret) && code in Codes(t)
    ensures var t := RateLimit.Check(file, ToUInt32(i.now)).1;
            var o := Authenticate(p, i, otp, file);
            var six :=
              CheckCode(t, otp(secret), code % CODE_MODULUS, HotpCounter(t), i.now, p.noSkewAdj, false).verdict;
            var l := Modes(NewAttempt(p, i, otp, t), 0, Start(t));
            if (p.passMode == Prompt && !p.forwardPass) || six.NotThis? then
              && o.verdict == Accepted(ByScratch(code)) && l.pw == Some(pw)
              && (o.success <==> p.forwardPass ==> i.itemSet)
            else o.verdict == six
  {
    hide RateLimit.Check, InGracePeriod, Modes, TryAll, Otp.SharedSecret, HotpCounter, FinalText, Entered, Prompts,
         ToUInt32, CheckCode, LastDigits, MayShare, Codes;
    var t := RateLimit.Check(file, ToUInt32(i.now)).1;
    var a := NewAttempt(p, i, otp, t);
    ScratchTried(p, i, otp, t, t, otp(secret), pw, code);
    StartUnchanged(a, t);
    LoopIsTryAll(a, otp(secret), t, 0, Start(t));
    Outcomes.SuccessIff(p, i, otp, file);
  }

  lemma ScratchTried(p: Params, i: Input, otp: Coder, file: string, t: string, gen: int -> int, pw: string, code: nat)
    requires SMALLEST_CODE <= code < CODE_LIMIT && FirstTyped(p, i) == Some(pw + LastDigits(code, 8)) && MayShare(p, pw)
    requires code in Codes(t)
    ensures var a := NewAttempt(p, i, otp, file); var r := TryAll(a, gen, t, 0, false);
            var six := Check(a, gen, t, code % CODE_MODULUS, false).verdict;
            r.mode < 4
            && if (p.passMode == Prompt && !p.forwardPass) || six.NotThis? then
                 r.checked.verdict == Accepted(ByScratch(code)) && Entered(a, r.mode) == Some((code, pw))
               else r.checked.verdict == six
  {
    hide Parse, CheckCode, TryAll, Otp.SharedSecret, HotpCounter, LastDigits, Codes;
    var a := NewAttempt(p, i, otp, file);
    var six := code % CODE_MODULUS;
    var text := pw + LastDigits(code, 8);
    var alone := p.passMode == Prompt && !p.forwardPass;
    SixOfEight(pw, code);
    var head := pw + LastDigits(code, 8)[..2];
    ParseEight(pw, code, 1, false);
    ParseEight(pw, code, 3, alone);
    ParseBehind(head, six, 0, false);
    if alone { TooLong(text, 2); } else { ParseBehind(head, six, 2, false); }
    TryAllStep(a, gen, t, 0, false);
    var must0 := p.passMode != Prompt && Check(a, gen, t, six, false).must;
    TryAllStep(a, gen, t, 1, must0);
    TryAllStep(a, gen, t, 2, false);
    var must2 := p.passMode == Prompt && !alone && Check(a, gen, t, six, false).must;
    TryAllStep(a, gen, t, 3, must2);
    forall must ensures Check(a, gen, t, code, must).verdict == Accepted(ByScratch(code)) {
      LongCodeIsScratch(t, gen, code, a.counter, a.input.now, p.noSkewAdj, must);
    }
  }

  lemma TooLong(text: string, mode: nat)
    requires |text| > 6 && mode % 2 == 0
    ensures Parse(text, mode, true).None?
  {
    ParseIff(text, mode, true);
  }

  // ---- which texts take part --------------------------------------------------------------------------

  /** The answers are what they are only where they can be asked for. */
  predicate SameTexts(p: Params, i: Input, j: Input)
  {
    && j == i.(firstPass := j.firstPass, reply := j.reply, again := j.again)
    && (p.passMode != Prompt ==> j.firstPass == i.firstPass)
    && (p.passMode != UseFirstPass ==> j.reply == i.reply && (i.reply.None? ==> j.again == i.again))
  }

  /** What an earlier module left plays no part at the prompt, what could be typed at the prompt none with
      use_first_pass, and a second answer none if there was a first one. */
  lemma OnlyTheseTexts(p: Params, i: Input, j: Input, otp: Coder, file: string)
    requires SameTexts(p, i, j)
    ensures Authenticate(p, j, otp, file) == Authenticate(p, i, otp, file)
  {
    hide RateLimit.Check, Modes, Otp.SharedSecret, HotpCounter, ToUInt32, Unchanged, InGracePeriod, AfterLoop;
    var (decision, t) := RateLimit.Check(file, ToUInt32(i.now));
    var a, b := NewAttempt(p, i, otp, t), NewAttempt(p, j, otp, t);
    StartUnchanged(a, t);
    StartUnchanged(b, t);
    SameLoop(a, b, t, 0, Start(t));
    SameEnd(a, b, Modes(a, 0, Start(t)), decision.Admitted?);
    SameGrace(p, i, j, t);
  }

  lemma SameEnd(a: Attempt, b: Attempt, l: Loop, early: bool)
    requires SameTexts(a.params, a.input, b.input) && b == a.(input := b.input)
    ensures AfterLoop(b, l, early) == AfterLoop(a, l, early)
  {
    hide SetCfgValue, LastLogins.UpdateLoginDetails;
  }

  lemma SameGrace(p: Params, i: Input, j: Input, t: string)
    requires SameTexts(p, i, j)
    ensures InGracePeriod(p, j, t) == InGracePeriod(p, i, t)
  {
    hide LastLogins.WithinGracePeriod;
  }

  lemma {:induction false} SameLoop(a: Attempt, b: Attempt, t: string, mode: nat, l: Loop)
    requires SameTexts(a.params, a.input, b.input) && b == a.(input := b.input)
    requires mode <= 4 && Unchanged(a, t, mode, l) && Unchanged(b, t, mode, l)
    ensures Modes(b, mode, l) == Modes(a, mode, l)
    decreases 4 - mode
  {
    hide Obtain, Check, Modes, Parse, Alone, Prompts, Typed, After, Unchanged;
    if mode == 4 {
      ModesEnd(a, l);
      ModesEnd(b, l);
    } else {
      SameObtain(a, b, t, mode, l);
      UnchangedIs(a, t, mode, l);
      ModesStep(a, mode, l);
      ModesStep(b, mode, l);
      ObtainTyped(a, t, mode, l);
      ObtainTyped(b, t, mode, l);
      SameCheck(a, b);
      var o := Obtain(a, mode, l);
      if o.pw.None? {
        assert o == o.(pw := None);
        SameLoop(a, b, t, mode + 1, o);
      } else {
        match Parse(o.pw.value, mode, Alone(a, mode))
        case None => SameLoop(a, b, t, mode + 1, o.(pw := None));
        case Some(entry) =>
          match a.gen
          case None =>
            UnchangedIs(a, t, mode + 1, o.(pw := None));
            GuardStops(a, mode + 1, o.(pw := Some(entry.1)));
            GuardStops(b, mode + 1, o.(pw := Some(entry.1)));
          case Some(gen) =>
            var c := Check(a, gen, o.text, entry.0, o.must);
            if c.verdict.NotThis? {
              CheckLeaves(a, gen, o.text, entry.0, o.must);
              UnchangedIs(a, t, mode + 1, o.(pw := None));
              AfterNothing(a, t, mode + 1, o, c);
              AfterNothing(b, t, mode + 1, o, c);
              SameLoop(a, b, t, mode + 1, After(o, c).(pw := None));
            }
      }
    }
  }

  lemma SameObtain(a: Attempt, b: Attempt, t: string, mode: nat, l: Loop)
    requires SameTexts(a.params, a.input, b.input) && b == a.(input := b.input)
    requires mode < 4 && Unchanged(a, t, mode, l) && Unchanged(b, t, mode, l)
    ensures Obtain(b, mode, l) == Obtain(a, mode, l) && Alone(b, mode) == Alone(a, mode)
  {
    assert b.params == a.params;
    assert mode == 2 && a.params.passMode != UseFirstPass ==> l.saved.None? && l.prompts == 0;
    assert mode == 3 && a.params.passMode != UseFirstPass ==> l.prompts == 1 && l.saved == a.input.reply;
  }

  lemma SameCheck(a: Attempt, b: Attempt)
    requires b == a.(input := b.input) && b.input.now == a.input.now
    ensures forall gen, t, code, must :: Check(b, gen, t, code, must) == Check(a, gen, t, code, must)
  {
    hide CheckCode;
  }
}

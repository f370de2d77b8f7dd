/** Where DISALLOW_REUSE does not hold: a code that sets a new time skew lets its user in, but its
    time step is not put on the list, so the same code is good for another login. */
module ReuseGap {
  import opened CText
  import opened StateText
  import opened Scratch
  import opened StateInvariant
  import opened Options
  import opened Entry
  import opened Checks
  import opened Login
  import opened Effects
  import opened Runs
  import Reuse
  import TimeSkewReset
  import RateLimit
  import Otp

  /** A login by a new time skew leaves the list of used steps as it was. */
  lemma ResyncNotListed(otp: Coder, file: string, x: Try)
    requires Tidy(file) && Sane(x.input, file)
    requires Result(otp, file, x).verdict.Accepted? && Result(otp, file, x).verdict.via.ByResync?
    ensures Reuse.Used(Next(otp, file, x)) == Reuse.Used(file)
  {
    hide Tidy, HotpCounter, ViewOf, Authenticate, RateLimit.Check, CodesMove, CounterMoves, WindowSize, Sane,
         Reuse.Used;
    LoginMoves(x.params, x.input, otp, file);
    SettingsOf(file, Next(otp, file, x));
  }

  /** The line that makes a file one for time-based codes is found wherever it stands. */
  lemma TotpListed(t: string)
    requires GetCfgValue(t, "TOTP_AUTH").Some?
    ensures IsTotp(t)
  {
    hide FindLine, ValueOf;
    FindLineFinds(t, "TOTP_AUTH");
    var i := FindLine(t, "TOTP_AUTH");
    assert StartsWith(t[i..], "\" TOTP_AUTH") by { assert "\" " + "TOTP_AUTH" == "\" TOTP_AUTH"; }
  }

  /** It is this step's code, and no step before it that a window so wide can reach as well has it. */
  predicate FirstNear(gen: int -> int, step: int, code: int, window: int)
  {
    gen(step) == code && forall v :: step - 1 - (window - 1) / 2 <= v < step ==> gen(v) != code
  }

  lemma FirstIs(gen: int -> int, code: int, low: int, high: int, step: int)
    requires gen(step) == code && low <= step < high && forall v :: low <= v < step ==> gen(v) != code
    ensures FirstMatch(gen, code, low, high) == Some(step)
  {
    var r := FirstMatch(gen, code, low, high);
    assert r.Some? ==> gen(r.value) == code;
  }

  /** The file after a reset, and where the step that was just used stands in it. */
  lemma AfterReset(t: string, gen: int -> int, code: int, counter: int, now: nat, must: bool, step: int)
    requires Tidy(t) && NoOverflow(t, counter, now)
    requires CheckCode(t, gen, code, counter, now, false, must).verdict == Accepted(ByResync(step))
    ensures counter <= 0 && code !in Codes(t) && SixDigits(code)
          && 0 < TimeStep(t, now) < TWO31 - TimeSkewReset.SKEW_LIMIT
    ensures WindowSize(t) > 0
    ensures var u := CheckCode(t, gen, code, counter, now, false, must).text;
            && SameBut(t, u, {TimeSkewReset.KEY, TimeSkewReset.SKEW_KEY})
            && -1 <= TimeSkew(u) - (step - TimeStep(t, now)) <= 1
            && -TimeSkewReset.SKEW_LIMIT < step - TimeStep(t, now) < TimeSkewReset.SKEW_LIMIT
  {
    hide Tidy, SameBut, Codes, WindowSize, TimeStep, TimeSkew, CheckScratchCodes, IsTotp, FirstMatch, FindSkew,
         NoOverflow, TimeSkewReset.Check, Reuse.Invalidate, GetCfgValue, SetCfgValue, DecInt;
    ScratchCodeUsedOnce(t, code);
    ServerStep(t, counter, now);
    var server := TimeStep(t, now);
    TimeSkewReset.CheckKeeps(t, FindSkew(gen, code, server, 0).value, server);
  }

  /** With a list that lacks the step (and after a login by resetting it always lacks it still),
      a window of three steps or more, and no step before it in reach with the same code, the very
      same code is accepted again at once. */
  lemma AcceptedAgain(t: string, gen: int -> int, code: int, counter: int, now: nat, must: bool, step: int)
    requires Tidy(t) && NoOverflow(t, counter, now)
    requires CheckCode(t, gen, code, counter, now, false, must).verdict == Accepted(ByResync(step))
    requires Reuse.Used(t).Some? && step !in Reuse.Used(t).value
    requires WindowSize(t) >= 3 && GetCfgValue(t, "TOTP_AUTH").Some?
          && FirstNear(gen, step, code, WindowSize(t))
    ensures var u := CheckCode(t, gen, code, counter, now, false, must).text;
            CheckCode(u, gen, code, counter, now, false, must).verdict == Accepted(ByStep(step))
  {
    hide Tidy, SameBut, Codes, WindowSize, TimeStep, TimeSkew, CheckCode, IsTotp, ViewOf, Reuse.Used, GetCfgValue,
         NoOverflow, CheckScratchCodes, FirstMatch, FirstNear, StepMatch, Reuse.Invalidate, Reuse.Near, SixDigits;
    AfterReset(t, gen, code, counter, now, must, step);
    var u := CheckCode(t, gen, code, counter, now, false, must).text;
    var keys := {TimeSkewReset.KEY, TimeSkewReset.SKEW_KEY};
    AfterEdit(t, u, keys);
    SettingsOf(t, u);
    TimeStepOf(t, u, now);
    SameCodes(t, u, keys);
    TotpEntry(t, u);
    TotpListed(u);
    ScratchCodeUsedOnce(u, code);
    var server, skew, window := TimeStep(u, now), TimeSkew(u), WindowSize(u);
    StepFound(gen, code, server, skew, window, step);
    TidyBoth(t, u, keys);
    UsedKey(u);
    assert Reuse.Invalidate(u, step).0 by { Reuse.InvalidateLists(u, step); }
    AcceptedStep(u, gen, code, counter, now, must, step);
  }

  lemma StepFound(gen: int -> int, code: int, server: int, skew: int, window: int, step: int)
    requires FirstNear(gen, step, code, window) && 3 <= window <= 100 && -1 <= skew - (step - server) <= 1
    ensures StepMatch(gen, code, server + skew, window) == Some(step)
  {
    hide FirstMatch;
    FirstIs(gen, code, server + skew - (window - 1) / 2, server + skew + window / 2 + 1, step);
  }

  lemma SameCodes(t: string, u: string, keys: set<string>)
    requires SameBut(t, u, keys)
    ensures Codes(u) == Codes(t)
  {
    hide Tidy, SecretLine, Codes, SameOptions;
  }

  lemma TotpEntry(t: string, u: string)
    requires ViewOf(u).totp == ViewOf(t).totp && GetCfgValue(t, "TOTP_AUTH").Some?
    ensures GetCfgValue(u, "TOTP_AUTH").Some?
  {
    hide GetCfgValue, SecretLine, Codes;
  }

  lemma UsedKey(t: string)
    ensures Reuse.Used(t).Some? ==> GetCfgValue(t, Reuse.KEY).Some?
  {
    hide GetCfgValue, Reuse.Entries;
  }

  lemma AcceptedStep(u: string, gen: int -> int, code: int, counter: int, now: nat, must: bool, step: int)
    requires counter <= 0 && CheckScratchCodes(u, code).None? && IsTotp(u) && SixDigits(code)
    requires TimeStep(u, now) != 0 && WindowSize(u) > 0
    requires StepMatch(gen, code, TimeStep(u, now) + TimeSkew(u), WindowSize(u)) == Some(step)
    requires Reuse.Invalidate(u, step).0
    ensures CheckCode(u, gen, code, counter, now, false, must).verdict == Accepted(ByStep(step))
  {
    hide CheckScratchCodes, IsTotp, TimeStep, WindowSize, TimeSkew, StepMatch, Reuse.Invalidate, GetCfgValue;
  }

  // ---- the same login twice -------------------------------------------------------------------

  /** A login that types these six digits first, from no known remote host, on a file without a rate
      limit. */
  predicate PlainLogin(file: string, x: Try, code: int)
  {
    && !x.params.noSkewAdj && x.input.host.None? && GetCfgValue(file, RateLimit.KEY).None?
    && 0 <= code < CODE_MODULUS && FirstTyped(x.params, x.input) == Some(LastDigits(code, 6))
  }

  lemma NoRateLimit(file: string, now: nat)
    requires GetCfgValue(file, RateLimit.KEY).None?
    ensures RateLimit.Check(file, now) == (RateLimit.Unlimited, file)
  {
    hide GetCfgValue;
  }

  /** Six digits are looked for first, in whatever way they were entered. */
  lemma FirstMode(p: Params, i: Input, otp: Coder, file: string, t: string, gen: int -> int, code: nat)
    requires code < CODE_MODULUS && FirstTyped(p, i) == Some(LastDigits(code, 6))
    requires var a := NewAttempt(p, i, otp, file); !Check(a, gen, t, code, false).verdict.NotThis?
    ensures var a := NewAttempt(p, i, otp, file); TryAll(a, gen, t, 0, false).checked == Check(a, gen, t, code, false)
  {
    hide Parse, Check, TryAll, Otp.SharedSecret, HotpCounter, LastDigits;
    var a := NewAttempt(p, i, otp, file);
    ShownIsTyped(code, 0, Alone(a, 0));
    ShownIsTyped(code, 2, Alone(a, 2));
    TryAllStep(a, gen, t, 0, false);
    TryAllStep(a, gen, t, 1, false);
    TryAllStep(a, gen, t, 2, false);
  }

  /** What such a login comes to: the check of the code that was typed. */
  lemma PlainResult(otp: Coder, file: string, x: Try, secret: seq<bv8>, code: int)
    requires PlainLogin(file, x, code) && Otp.SharedSecret(file) == Some(secret)
    requires var c := CheckCode(file, otp(secret), code, HotpCounter(file), x.input.now, false, false);
             !c.verdict.NotThis? && !c.must
    ensures var c := CheckCode(file, otp(secret), code, HotpCounter(file), x.input.now, false, false);
            Result(otp, file, x).verdict == c.verdict && Next(otp, file, x) == c.text
  {
    hide GetCfgValue, Modes, Parse, LastDigits, CheckCode, TryAll, Otp.SharedSecret, HotpCounter, AfterLoop, NewFile,
         RateLimit.Check, Prompts;
    var gen := otp(secret);
    var a := NewAttempt(x.params, x.input, otp, file);
    NoRateLimit(file, ToUInt32(x.input.now));
    LoopIsTryAll(a, gen, file, 0, Start(file));
    FirstMode(x.params, x.input, otp, file, file, gen, code);
    NothingChanged(file, gen, code, HotpCounter(file), x.input.now, false, false);
    var l := Modes(a, 0, Start(file));
    AfterLoopFacts(a, l, false);
    NotWritten(a, l, false, file, file);
  }

  lemma SameSecret(t: string, u: string)
    requires SecretLine(u) == SecretLine(t)
    ensures Otp.SharedSecret(u) == Otp.SharedSecret(t)
  {
    hide Span;
    assert |SecretLine(t)| == Span(NotLf, t) && |SecretLine(u)| == Span(NotLf, u);
  }

  lemma SameRateKey(t: string, u: string)
    requires ViewOf(u).rate == ViewOf(t).rate
    ensures GetCfgValue(u, RateLimit.KEY) == GetCfgValue(t, RateLimit.KEY)
  {
    hide GetCfgValue, SecretLine, Codes;
  }

  /** With DISALLOW_REUSE in the file: after a login that was let in by a new time skew, the very
      same login, with the same code at the same moment, is let in again. */
  lemma SameLoginAgain(otp: Coder, file: string, x: Try, secret: seq<bv8>, code: int, step: int)
    requires Tidy(file) && Sane(x.input, file) && PlainLogin(file, x, code) && Otp.SharedSecret(file) == Some(secret)
    requires CheckCode(file, otp(secret), code, HotpCounter(file), x.input.now, false, false).verdict
          == Accepted(ByResync(step))
    requires Reuse.Used(file).Some? && step !in Reuse.Used(file).value
    requires WindowSize(file) >= 3 && GetCfgValue(file, "TOTP_AUTH").Some?
          && FirstNear(otp(secret), step, code, WindowSize(file))
    ensures Result(otp, file, x).verdict == Accepted(ByResync(step))
    ensures Result(otp, Next(otp, file, x), x).verdict == Accepted(ByStep(step))
  {
    hide Tidy, SameBut, Codes, WindowSize, TimeStep, TimeSkew, CheckCode, IsTotp, ViewOf, Reuse.Used, GetCfgValue,
         NoOverflow, CheckScratchCodes, FirstNear, HotpCounter, Otp.SharedSecret, Authenticate, NewFile, SecretLine,
         Next, Result, Parse, LastDigits;
    var gen, counter, now := otp(secret), HotpCounter(file), x.input.now;
    var c := CheckCode(file, gen, code, counter, now, false, false);
    NoMust(file, gen, code, counter, now);
    AfterReset(file, gen, code, counter, now, false, step);
    PlainResult(otp, file, x, secret, code);
    AcceptedAgain(file, gen, code, counter, now, false, step);
    var u := c.text;
    AfterEdit(file, u, {TimeSkewReset.KEY, TimeSkewReset.SKEW_KEY});
    SettingsOf(file, u);
    SameSecretLine(file, u);
    SameSecret(file, u);
    SameRateKey(file, u);
    NoMust(u, gen, code, counter, now);
    PlainResult(otp, u, x, secret, code);
  }

  lemma SameSecretLine(t: string, u: string)
    requires ViewOf(u).secret == ViewOf(t).secret
    ensures SecretLine(u) == SecretLine(t)
  {
    hide GetCfgValue, SecretLine, Codes;
  }

  /** With time-based codes no counter has to advance. */
  lemma NoMust(t: string, gen: int -> int, code: int, counter: int, now: nat)
    ensures counter <= 0 ==> !CheckCode(t, gen, code, counter, now, false, false).must
  {
    hide CheckScratchCodes, CheckTime;
    TimeKeepsMust(t, gen, code, now, false, false);
  }
}

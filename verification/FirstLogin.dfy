/** From the setup program to the first login: the code the user is shown lets the user in. */
module FirstLogin {
  import opened CText
  import opened StateText
  import opened Scratch
  import opened StateInvariant
  import opened Options
  import opened Entry
  import opened Checks
  import opened Login
  import opened Effects
  import opened ReuseGap
  import opened Outcomes
  import RateLimit
  import Reuse
  import LastLogins
  import Grace
  import Otp
  import Setup
  import SetupReads

  // ---- the right code is accepted -----------------------------------------------------------------

  /** A file in time-based mode, and the code of the step its own clock stands at. */
  predicate RightStep(t: string, gen: int -> int, code: int, now: nat)
  {
    && HotpCounter(t) <= 0 && IsTotp(t) && TimeStep(t, now) != 0 && WindowSize(t) > 0 && SixDigits(code)
    && gen(TimeStep(t, now) + TimeSkew(t)) == code
  }

  /** Such a code is accepted, by the first step of the window that has it, unless that is used. */
  lemma StepAccepted(t: string, gen: int -> int, code: int, now: nat, noSkewAdj: bool, must: bool)
    requires Tidy(t) && NoOverflow(t, HotpCounter(t), now) && RightStep(t, gen, code, now)
    requires forall s: int :: Unused(t, s)
    ensures var verdict := CheckCode(t, gen, code, HotpCounter(t), now, noSkewAdj, must).verdict;
            verdict.Accepted? && verdict.via.ByStep?
  {
    hide Tidy, HotpCounter, IsTotp, TimeStep, TimeSkew, WindowSize, CheckTime, CheckCounter, StepMatch, Unused,
         NoOverflow;
    ShortCodeIsNotScratch(t, gen, code, HotpCounter(t), now, noSkewAdj, must);
    var at := TimeStep(t, now) + TimeSkew(t);
    var step := StepMatch(gen, code, at, WindowSize(t));
    StepMatchIs(gen, code, at, WindowSize(t));
    assert at - (WindowSize(t) - 1) / 2 <= at <= at + WindowSize(t) / 2;
    StepIff(t, gen, code, HotpCounter(t), now, noSkewAdj, must, step.value);
  }

  /** In counter mode the code of the counter is accepted, by the counter itself. */
  lemma CounterAccepted(t: string, gen: int -> int, code: int, now: nat, noSkewAdj: bool, must: bool)
    requires HotpCounter(t) > 0 && WindowSize(t) > 0 && SixDigits(code) && gen(HotpCounter(t)) == code
    ensures CheckCode(t, gen, code, HotpCounter(t), now, noSkewAdj, must).verdict == Accepted(ByCounter(HotpCounter(t)))
  {
    hide HotpCounter, WindowSize, CheckTime, SetCfgValue, DecInt;
    ShortCodeIsNotScratch(t, gen, code, HotpCounter(t), now, noSkewAdj, must);
  }

  /** A login whose first code is accepted succeeds, if the rate limit lets it pass. */
  lemma AcceptedSucceeds(p: Params, i: Input, otp: Coder, file: string, secret: seq<bv8>, code: nat)
    requires code < CODE_MODULUS && FirstTyped(p, i) == Some(LastDigits(code, 6)) && (p.forwardPass ==> i.itemSet)
    requires var (decision, t) := RateLimit.Check(file, ToUInt32(i.now));
             && (decision.Admitted? || decision.Unlimited?) && !InGracePeriod(p, i, t)
             && Otp.SharedSecret(t) == Some(secret)
             && CheckCode(t, otp(secret), code, HotpCounter(t), i.now, p.noSkewAdj, false).verdict.Accepted?
    ensures var t := RateLimit.Check(file, ToUInt32(i.now)).1;
            var o := Authenticate(p, i, otp, file);
            && o.success && !o.grace
            && o.verdict == CheckCode(t, otp(secret), code, HotpCounter(t), i.now, p.noSkewAdj, false).verdict
  {
    hide RateLimit.Check, InGracePeriod, Modes, TryAll, Otp.SharedSecret, HotpCounter, FinalText, Entered, Prompts,
         ToUInt32, CheckCode, LastDigits;
    var t := RateLimit.Check(file, ToUInt32(i.now)).1;
    var a := NewAttempt(p, i, otp, t);
    FirstMode(p, i, otp, t, t, otp(secret), code);
    SuccessIff(p, i, otp, file);
    LoopIsTryAll(a, otp(secret), t, 0, Start(t));
  }

  // ---- a file of the setup program ------------------------------------------------------------------

  function Step(c: Setup.Choices): nat { if c.totp && c.stepSize != 0 then c.stepSize else 30 }

  /** The number whose code is right at the first login. */
  function FirstNumber(c: Setup.Choices, now: nat): int
  {
    if c.totp then (if Step(c) == 0 then 0 else now / Step(c)) else 1
  }

  /** Late enough for a first step and for the rate limit's window. */
  predicate Started(c: Setup.Choices, now: nat)
  {
    && (c.totp ==> FirstNumber(c, now) > 0)
    && (Setup.Rate(c).Some? ==> now >= Setup.Rate(c).value.1)
  }

  function SetupFile(key: seq<bv8>, c: Setup.Choices): string { Setup.File(Setup.Letters(key), c) }

  lemma NoHostYet(key: seq<bv8>, c: Setup.Choices)
    requires |key| == Setup.KEY_BYTES && Setup.Accepted(c)
    ensures forall i :: 0 <= i < 10 ==> GetCfgValue(SetupFile(key, c), LastLogins.Name(i)) == None
    ensures forall host :: LastLogins.LastTime(SetupFile(key, c), host, 0) == 0
  {
    hide GetCfgValue, LastLogins.Name, Setup.File, Setup.Letters, DecInt, LastLogins.LastTime, Setup.Rate,
         Setup.Window, LastLogins.ReadWord;
    var t := SetupFile(key, c);
    LastLogins.NameFacts();
    Grace.NameLength();
    SetupReads.SetupKeysApart();
    forall i | 0 <= i < 10 ensures GetCfgValue(t, LastLogins.Name(i)) == None {
      SetupReads.ReadKey(key, c, LastLogins.Name(i));
    }
    forall host ensures LastLogins.LastTime(t, host, 0) == 0 {
      LastLogins.NoLastTime(t, host, 0);
    }
  }

  /** The rate limit, if there is one, lets the first login pass. */
  lemma FirstCallPasses(key: seq<bv8>, c: Setup.Choices, now: nat)
    requires |key| == Setup.KEY_BYTES && Setup.Accepted(c) && Started(c, now) && now < TWO32
    ensures var d := RateLimit.Check(SetupFile(key, c), now).0; d.Admitted? || d.Unlimited?
  {
    hide Setup.File, Setup.Letters, Tidy, RateLimit.Tracks, GetCfgValue, Reuse.Used, Codes, Otp.SharedSecret,
         FirstNumber, RateLimit.Allowed, RateLimit.Sorted, SameBut;
    var t := SetupFile(key, c);
    SetupReads.SetupReadsBack(key, c);
    SetupReads.SetupListsReadBack(key, c);
    match Setup.Rate(c)
    case None => NoRateLimit(t, now);
    case Some((n, m)) =>
      OneCall(now, n, m);
      assert [] + [now] == [now];
      RateLimit.CheckTracks(t, n, m, [], now);
  }

  lemma OneCall(now: nat, attempts: nat, interval: nat)
    requires attempts >= 1 && interval <= now
    ensures RateLimit.Allowed([now], attempts, interval) && RateLimit.Sorted([now])
  {
    hide RateLimit.Window;
    assert [now] + [] == [now];
    RateLimit.WindowStep(now, [], now - interval, now);
    RateLimit.WindowNone([], now - interval, now);
  }

  /** The file that rate_limit leaves is still a fresh one. */
  lemma StillFresh(key: seq<bv8>, c: Setup.Choices, i: Input)
    requires |key| == Setup.KEY_BYTES && Setup.Accepted(c) && Sane(i, SetupFile(key, c))
    ensures var t := RateLimit.Check(SetupFile(key, c), ToUInt32(i.now)).1;
            && Tidy(t) && Sane(i, t) && Otp.SharedSecret(t) == Some(key)
            && HotpCounter(t) == (if c.totp then 0 else 1) && TimeSkew(t) == 0 && WindowSize(t) > 0
            && StepSize(t) == Step(c) && (c.totp ==> IsTotp(t))
            && (forall s: int :: Unused(t, s))
    ensures forall p :: !InGracePeriod(p, i, RateLimit.Check(SetupFile(key, c), ToUInt32(i.now)).1)
  {
    hide *;
    var file := SetupFile(key, c);
    var t := RateLimit.Check(file, ToUInt32(i.now)).1;
    SetupIs(key, c);
    SetupReads.SetupReadsBack(key, c);
    SetupReads.SetupSettingsReadBack(key, c);
    SetupReads.SetupListsReadBack(key, c);
    NowFits(i, file);
    RateKeeps(file, ToUInt32(i.now));
    SaneFrom(i, file, t);
    SettingsOf(file, t);
    SameSecretLine(file, t);
    SameSecret(file, t);
    FreshSteps(file, t);
    FreshMode(file, t, c);
    NoHostYet(key, c);
    Grace.RateHosts(file, ToUInt32(i.now));
    NeverInGrace(file, t, i);
    WindowIs(c);
    StepIs(c);
  }

  lemma SetupIs(key: seq<bv8>, c: Setup.Choices)
    ensures SetupFile(key, c) == Setup.File(Setup.Letters(key), c)
  {
    hide Setup.File, Setup.Letters;
  }

  lemma WindowIs(c: Setup.Choices)
    requires Setup.Accepted(c)
    ensures Setup.Window(c).Some? ==> Setup.Window(c).value > 0
  {
  }

  lemma StepIs(c: Setup.Choices)
    ensures Step(c) == if c.totp && c.stepSize != 0 then c.stepSize else 30
  {
  }

  lemma FreshSteps(t: string, u: string)
    requires ViewOf(u).used == ViewOf(t).used
    requires Reuse.Used(t) == Some([]) || GetCfgValue(t, Reuse.KEY).None?
    ensures forall s: int :: Unused(u, s)
  {
    hide GetCfgValue, Reuse.Entries, SecretLine, Codes;
    UsedEntry(t);
    UsedEntry(u);
  }

  lemma FreshMode(t: string, u: string, c: Setup.Choices)
    requires ViewOf(u).totp == ViewOf(t).totp && (c.totp ==> GetCfgValue(t, "TOTP_AUTH").Some?)
    ensures c.totp ==> IsTotp(u)
  {
    hide IsTotp, ViewOf, GetCfgValue;
    if c.totp {
      TotpEntry(t, u);
      TotpListed(u);
    }
  }

  lemma NeverInGrace(t: string, u: string, i: Input)
    requires Grace.SameHosts(t, u) && forall host :: LastLogins.LastTime(t, host, 0) == 0
    ensures forall p :: !InGracePeriod(p, i, u)
  {
    hide Grace.SameHosts, LastLogins.LastTime;
    if i.host.Some? { Grace.LastTimeStays(t, u, i.host.value, 0); }
  }

  /** The first login: the code of the server's own step, or of counter 1, typed as it is shown, lets
      the user in, whatever the code function and whatever was chosen at the setup. */
  lemma FirstLoginSucceeds(key: seq<bv8>, c: Setup.Choices, otp: Coder, p: Params, i: Input)
    requires |key| == Setup.KEY_BYTES && Setup.Accepted(c) && Sane(i, SetupFile(key, c)) && Started(c, i.now)
    requires var code := otp(key)(FirstNumber(c, i.now));
             0 <= code < CODE_MODULUS && FirstTyped(p, i) == Some(LastDigits(code, 6))
    requires p.forwardPass ==> i.itemSet
    ensures var o := Authenticate(p, i, otp, SetupFile(key, c));
            && o.success && !o.grace && o.verdict.Accepted?
            && if c.totp then o.verdict.via.ByStep? else o.verdict.via == ByCounter(1)
  {
    hide *;
    var file := SetupFile(key, c);
    var t := RateLimit.Check(file, ToUInt32(i.now)).1;
    var code := otp(key)(FirstNumber(c, i.now));
    NowFits(i, file);
    FirstCallPasses(key, c, i.now);
    StillFresh(key, c, i);
    CodeIsSix(code);
    SaneIs(i, t);
    if c.totp {
      RightNumber(t, c, i.now);
      RightStepIs(t, otp(key), code, i.now);
      StepAccepted(t, otp(key), code, i.now, p.noSkewAdj, false);
    } else {
      NumberIsOne(c, i.now);
      CounterAccepted(t, otp(key), code, i.now, p.noSkewAdj, false);
    }
    AcceptedSucceeds(p, i, otp, file, key, code);
  }

  lemma CodeIsSix(code: int)
    ensures SixDigits(code) <==> 0 <= code < CODE_MODULUS
  {
  }

  lemma NumberIsOne(c: Setup.Choices, now: nat)
    requires !c.totp
    ensures FirstNumber(c, now) == 1
  {
  }

  lemma RightNumber(t: string, c: Setup.Choices, now: nat)
    requires c.totp && StepSize(t) == Step(c) && TimeSkew(t) == 0 && NoOverflow(t, HotpCounter(t), now)
          && Started(c, now)
    ensures TimeStep(t, now) + TimeSkew(t) == FirstNumber(c, now) && TimeStep(t, now) != 0
  {
    hide StepSize, TimeSkew, HotpCounter, Setup.Rate;
  }

  lemma RightStepIs(t: string, gen: int -> int, code: int, now: nat)
    requires HotpCounter(t) <= 0 && IsTotp(t) && TimeStep(t, now) != 0 && WindowSize(t) > 0 && SixDigits(code)
    requires gen(TimeStep(t, now) + TimeSkew(t)) == code
    ensures RightStep(t, gen, code, now)
  {
  }

  // ---- with the real codes --------------------------------------------------------------------------

  /** compute_code, of a number as an unsigned long. */
  function RealCoder(): Coder { secret => (v: int) => Otp.Code(secret, v % TWO64) }

  /** The code that the setup program itself computes for a step, or for counter 1, is good for the
      first login at that step. */
  lemma ShownCodeLetsIn(key: seq<bv8>, c: Setup.Choices, p: Params, i: Input)
    requires |key| == Setup.KEY_BYTES && Setup.Accepted(c) && Sane(i, SetupFile(key, c)) && Started(c, i.now)
    requires var shown := Otp.Generated(Otp.ToBytes(Setup.Letters(key)), FirstNumber(c, i.now));
             shown >= 0 && FirstTyped(p, i) == Some(LastDigits(shown, 6))
    requires p.forwardPass ==> i.itemSet
    ensures Otp.Generated(Otp.ToBytes(Setup.Letters(key)), FirstNumber(c, i.now)) < CODE_MODULUS
    ensures var o := Authenticate(p, i, RealCoder(), SetupFile(key, c)); o.success && !o.grace && o.verdict.Accepted?
  {
    hide *;
    NowFits(i, SetupFile(key, c));
    ShownIsCode(key, c, i.now);
    FirstLoginSucceeds(key, c, RealCoder(), p, i);
  }

  lemma ShownIsCode(key: seq<bv8>, c: Setup.Choices, now: nat)
    requires |key| == Setup.KEY_BYTES && Setup.Accepted(c) && now < TWO32
    ensures FirstNumber(c, now) >= 0
    ensures var code := RealCoder()(key)(FirstNumber(c, now));
            0 <= code < CODE_MODULUS && Otp.Generated(Otp.ToBytes(Setup.Letters(key)), FirstNumber(c, now)) == code
  {
    hide Otp.Generated, Otp.ToBytes, Setup.Letters, Otp.Code, Otp.SharedSecret, All, Tidy, Codes, Setup.Entries,
         Setup.LinesOf, Setup.CodeLines;
    Setup.LettersPlain(key);
    Setup.LettersOfKey(key);
    SetupReads.SetupReadsBack(key, c);
    var rest := FileRest(key, c);
    SmallNumber(c, now);
    Otp.GeneratedIsCode(Setup.Letters(key), rest, FirstNumber(c, now));
  }

  lemma SmallNumber(c: Setup.Choices, now: nat)
    requires now < TWO32
    ensures 0 <= FirstNumber(c, now) < TWO64 && FirstNumber(c, now) % TWO64 == FirstNumber(c, now)
  {
    if c.totp && Step(c) != 0 { DivAtMost(now, Step(c)); }
  }

  /** What follows the letters and their line end. */
  lemma FileRest(key: seq<bv8>, c: Setup.Choices) returns (rest: string)
    ensures SetupFile(key, c) == Setup.Letters(key) + "\n" + rest
  {
    hide Setup.Letters, Setup.LinesOf, Setup.Entries, Setup.CodeLines;
    var ls := Setup.LinesOf(Setup.Entries(c)) + Setup.CodeLines(c.codes);
    rest := Setup.Join(ls);
    Setup.JoinStep(Setup.Letters(key), ls);
  }
}

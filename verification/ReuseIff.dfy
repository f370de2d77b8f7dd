/** When DISALLOW_REUSE keeps its promise: exactly when the module runs with `noskewadj`. */
module ReuseIff {
  import opened CText
  import opened StateText
  import opened Scratch
  import opened StateInvariant
  import opened Options
  import opened Entry
  import opened Checks
  import opened Login
  import opened Effects
  import opened Runs
  import opened ReuseGap
  import opened FirstLogin
  import Reuse
  import TimeSkewReset
  import RateLimit
  import Otp
  import Setup
  import SetupReads
  import KnownAnswers

  /** In any run of the module with these arguments, on any file with DISALLOW_REUSE, no time step
      lets anyone in twice. */
  ghost predicate EachStepOnce(p: Params, otp: Coder)
  {
    forall file: string, run: seq<Try>, step: int ::
      Tidy(file) && SaneRun(otp, file, run) && InOrder(run) && GetCfgValue(file, Reuse.KEY).Some? && AllWith(run, p)
      ==> Uses(otp, file, run, ByStep(step)) + Uses(otp, file, run, ByResync(step)) <= 1
  }

  // ---- with noskewadj ---------------------------------------------------------------------------

  lemma WithoutAdjustment(p: Params, otp: Coder)
    requires p.noSkewAdj
    ensures EachStepOnce(p, otp)
  {
    hide Tidy, SaneRun, InOrder, GetCfgValue, Uses, NoResync;
    forall file: string, run: seq<Try>, step: int |
      Tidy(file) && SaneRun(otp, file, run) && InOrder(run) && GetCfgValue(file, Reuse.KEY).Some? && AllWith(run, p)
      ensures Uses(otp, file, run, ByStep(step)) + Uses(otp, file, run, ByResync(step)) <= 1
    {
      NoSkewAdjNoResync(otp, file, run);
      NoResyncUses(otp, file, run, step);
      StepUsedOnce(otp, file, run, step);
    }
  }

  // ---- without it: a user whose clock is off ------------------------------------------------------

  /** A key, the server's step at a first login, and how far the user's clock is off. */
  datatype Clock = Clock(key: seq<bv8>, server: nat, ahead: int)

  function CodeAt(otp: Coder, c: Clock, k: nat): int { otp(c.key)(c.server + c.ahead + k) }

  /** The code of the k-th step on the user's clock has six digits, and is found there by the search. */
  ghost predicate FoundAt(otp: Coder, c: Clock, k: nat)
  {
    SixDigits(CodeAt(otp, c, k)) && FindSkew(otp(c.key), CodeAt(otp, c, k), c.server + k, 0) == Some(c.ahead)
  }

  /** A clock that is off by two steps or more, and three steps in a row whose codes show it; the third
      code is the first with its value in a window of three steps. */
  ghost predicate Off(otp: Coder, c: Clock)
  {
    && |c.key| == Setup.KEY_BYTES && 0 < c.server < 100_000_000
    && 2 <= Apart(c.ahead, 0) < TimeSkewReset.SKEW_LIMIT
    && FoundAt(otp, c, 0) && FoundAt(otp, c, 1) && FoundAt(otp, c, 2)
    && FirstNear(otp(c.key), c.server + c.ahead + 2, CodeAt(otp, c, 2), 3)
  }

  /** With a clock that is ahead the last condition follows: the search has been there. */
  lemma AheadIsFirst(otp: Coder, c: Clock)
    requires c.ahead >= 2 && FoundAt(otp, c, 2)
    ensures FirstNear(otp(c.key), c.server + c.ahead + 2, CodeAt(otp, c, 2), 3)
  {
    hide FindSkew;
    var gen, server, code := otp(c.key), c.server + 2, CodeAt(otp, c, 2);
    forall v | server + c.ahead - 2 <= v < server + c.ahead ensures gen(v) != code {
      assert Apart(v, server) < Apart(c.ahead, 0);
    }
  }

  lemma OffAt(otp: Coder, c: Clock, k: nat)
    requires Off(otp, c) && k < 3
    ensures FoundAt(otp, c, k)
    ensures FirstNear(otp(c.key), c.server + c.ahead + 2, CodeAt(otp, c, 2), 3)
  {
    hide FoundAt, FirstNear;
  }

  /** The login at the k-th step, with the code the user's clock shows. */
  function Visit(p: Params, otp: Coder, c: Clock, k: nat): Try
  {
    var code := CodeAt(otp, c, k);
    var pw := LastDigits(if code < 0 then 0 else code, 6);
    Try(p, Input(Some(pw), Some(pw), None, None, 30 * (c.server + k), true))
  }

  function AttemptAt(c: Clock, k: nat): TimeSkewReset.Attempt { TimeSkewReset.Attempt(c.server + k, c.ahead) }

  function Attempts(c: Clock, k: nat): seq<TimeSkewReset.Attempt>
  {
    if k == 0 then [] else Attempts(c, k - 1) + [AttemptAt(c, k - 1)]
  }

  /** A file for time-based codes with DISALLOW_REUSE and nothing else that matters. */
  predicate Ready(t: string, secret: seq<bv8>)
  {
    && Tidy(t) && Codes(t) == [] && Otp.SharedSecret(t) == Some(secret)
    && HotpCounter(t) == 0 && TimeSkew(t) == 0 && StepSize(t) == 30 && WindowSize(t) == 3
    && GetCfgValue(t, "TOTP_AUTH").Some? && GetCfgValue(t, RateLimit.KEY).None? && Reuse.Used(t) == Some([])
  }

  /** A code that the search finds two steps off or more is not in the window. */
  lemma NotInWindow(gen: int -> int, code: int, server: int, ahead: int)
    requires FindSkew(gen, code, server, 0) == Some(ahead) && Apart(ahead, 0) >= 2
    ensures StepMatch(gen, code, server, 3) == None
  {
    hide FindSkew, FirstMatch;
    forall v | server - 1 <= v < server + 2 ensures gen(v) != code {
      assert Apart(v, server) < Apart(ahead, 0);
    }
  }

  lemma VisitTime(t: string, c: Clock, k: nat)
    requires StepSize(t) == 30 && k < 3 && Usual(c)
    ensures TimeStep(t, 30 * (c.server + k)) == c.server + k
  {
    hide StepSize;
    assert 30 * (c.server + k) / 30 == c.server + k;
  }

  lemma AttemptsAre(c: Clock)
    ensures Attempts(c, 0) == [] && Attempts(c, 1) == [AttemptAt(c, 0)]
    ensures Attempts(c, 2) == [AttemptAt(c, 0), AttemptAt(c, 1)]
  {
    assert Attempts(c, 1) == Attempts(c, 0) + [AttemptAt(c, 0)];
    assert Attempts(c, 2) == Attempts(c, 1) + [AttemptAt(c, 1)];
  }

  lemma TooFew(es: seq<TimeSkewReset.Attempt>, a: TimeSkewReset.Attempt)
    requires |es| < 2 && !TimeSkewReset.Repeats(es, a)
    ensures TimeSkewReset.Judge(es, a) == TimeSkewReset.KeepTrying
  {
    hide TimeSkewReset.Repeats, TimeSkewReset.Steady;
  }

  predicate Usual(c: Clock) { c.server < 100_000_000 && Apart(c.ahead, 0) < TimeSkewReset.SKEW_LIMIT }

  lemma NoRepeat(c: Clock, k: nat)
    requires k < 3 && Usual(c)
    ensures k > 0 ==> !TimeSkewReset.Repeats([AttemptAt(c, k - 1)], AttemptAt(c, k))
    ensures !TimeSkewReset.Repeats([], AttemptAt(c, k)) && TimeSkewReset.Ordinary(AttemptAt(c, k))
  {
  }

  lemma Third(c: Clock)
    requires Usual(c)
    ensures TimeSkewReset.Judge([AttemptAt(c, 0), AttemptAt(c, 1)], AttemptAt(c, 2)) == TimeSkewReset.Reset
  {
    hide TimeSkewReset.Judge;
    NoRepeat(c, 0);
    NoRepeat(c, 1);
    NoRepeat(c, 2);
    TimeSkewReset.ResetIff([AttemptAt(c, 0), AttemptAt(c, 1)], AttemptAt(c, 2));
  }

  lemma AllKept(es: seq<TimeSkewReset.Attempt>)
    requires |es| <= 3
    ensures TimeSkewReset.LastThree(es) == es
  {
  }

  /** What the three attempts come to. */
  lemma Judged(c: Clock, k: nat)
    requires k < 3 && Usual(c)
    ensures |Attempts(c, k)| == k && forall i :: 0 <= i < k ==> TimeSkewReset.Ordinary(Attempts(c, k)[i])
    ensures Attempts(c, k + 1) == Attempts(c, k) + [AttemptAt(c, k)]
    ensures TimeSkewReset.Judge(TimeSkewReset.LastThree(Attempts(c, k)), AttemptAt(c, k))
         == if k == 2 then TimeSkewReset.Reset else TimeSkewReset.KeepTrying
  {
    AttemptsAre(c);
    assert Attempts(c, k + 1) == Attempts(c, k) + [AttemptAt(c, k)];
    hide TimeSkewReset.Judge, TimeSkewReset.LastThree, TimeSkewReset.Repeats, TimeSkewReset.Ordinary, AttemptAt,
         Attempts;
    AllKept(Attempts(c, k));
    NoRepeat(c, 0);
    NoRepeat(c, 1);
    if k == 0 {
      TooFew([], AttemptAt(c, 0));
    } else if k == 1 {
      TooFew([AttemptAt(c, 0)], AttemptAt(c, 1));
    } else {
      Third(c);
    }
  }

  lemma OffIsUsual(otp: Coder, c: Clock)
    requires Off(otp, c)
    ensures Usual(c) && |c.key| == Setup.KEY_BYTES && Apart(c.ahead, 0) >= 2 && c.server > 0
  {
    hide FoundAt;
  }

  lemma FoundIs(otp: Coder, c: Clock, k: nat)
    requires FoundAt(otp, c, k)
    ensures 0 <= CodeAt(otp, c, k) < CODE_MODULUS
    ensures FindSkew(otp(c.key), CodeAt(otp, c, k), c.server + k, 0) == Some(c.ahead)
  {
    hide CodeAt, FindSkew;
  }

  /** What the check of such a code comes to. */
  lemma VisitChecked(t: string, otp: Coder, c: Clock, k: nat)
    requires k < 3 && Off(otp, c) && Ready(t, c.key) && TimeSkewReset.Follows(t, Attempts(c, k))
    ensures var d := CheckCode(t, otp(c.key), CodeAt(otp, c, k), 0, 30 * (c.server + k), false, false);
            && d.verdict == (if k == 2 then Accepted(ByResync(c.server + c.ahead + k)) else Failed)
            && d.text == TimeSkewReset.Check(t, c.ahead, c.server + k).1
            && !d.must
  {
    hide Tidy, Codes, CheckScratchCodes, WindowSize, StepSize, TimeStep, TimeSkew, HotpCounter, IsTotp, GetCfgValue,
         CodeAt, Otp.SharedSecret, Reuse.Used, StepMatch, FindSkew, TimeSkewReset.Check, TimeSkewReset.Judge,
         Attempts, Off, FoundAt, TimeSkewReset.Follows, TimeSkewReset.LastThree, TimeSkewReset.Average, SameBut,
         TimeSkewReset.Record, FirstNear;
    var code := CodeAt(otp, c, k);
    OffIsUsual(otp, c);
    OffAt(otp, c, k);
    FoundIs(otp, c, k);
    ScratchCodeUsedOnce(t, code);
    TotpListed(t);
    VisitTime(t, c, k);
    NotInWindow(otp(c.key), code, c.server + k, c.ahead);
    Judged(c, k);
    TimeSkewReset.CheckFollows(t, Attempts(c, k), c.ahead, c.server + k);
  }

  /** The file after an attempt that did not succeed. */
  lemma StillReady(t: string, c: Clock, k: nat)
    requires k < 2 && Usual(c) && Ready(t, c.key) && TimeSkewReset.Follows(t, Attempts(c, k))
    ensures var u := TimeSkewReset.Check(t, c.ahead, c.server + k).1;
            Ready(u, c.key) && TimeSkewReset.Follows(u, Attempts(c, k + 1))
  {
    hide Tidy, Codes, WindowSize, StepSize, TimeSkew, HotpCounter, GetCfgValue, Otp.SharedSecret, Reuse.Used,
         SecretLine, TimeSkewReset.Check, TimeSkewReset.Judge, Attempts, TimeSkewReset.Follows,
         TimeSkewReset.LastThree, TimeSkewReset.Average, ViewOf, SameOptions, SameBut;
    Judged(c, k);
    TimeSkewReset.CheckFollows(t, Attempts(c, k), c.ahead, c.server + k);
    var u := TimeSkewReset.Check(t, c.ahead, c.server + k).1;
    AfterEdit(t, u, {TimeSkewReset.KEY});
    SettingsOf(t, u);
    SameCodes(t, u, {TimeSkewReset.KEY});
    TotpEntry(t, u);
    SameSecretLine(t, u);
    SameSecret(t, u);
    SameRateKey(t, u);
  }

  lemma VisitIs(p: Params, otp: Coder, c: Clock, k: nat)
    ensures var x := Visit(p, otp, c, k);
            x.input.now == 30 * (c.server + k) && x.params == p && x.input.host.None?
    ensures 0 <= CodeAt(otp, c, k) ==>
              FirstTyped(p, Visit(p, otp, c, k).input) == Some(LastDigits(CodeAt(otp, c, k), 6))
  {
    hide LastDigits;
  }

  lemma VisitPlain(p: Params, t: string, otp: Coder, c: Clock, k: nat)
    requires !p.noSkewAdj && k < 3 && Off(otp, c) && Ready(t, c.key)
    ensures PlainLogin(t, Visit(p, otp, c, k), CodeAt(otp, c, k)) && 0 <= CodeAt(otp, c, k) < CODE_MODULUS
    ensures Sane(Visit(p, otp, c, k).input, t)
  {
    hide Tidy, Codes, WindowSize, StepSize, TimeSkew, HotpCounter, GetCfgValue, Otp.SharedSecret, Reuse.Used, Visit,
         Off, FoundAt, CodeAt, FindSkew;
    OffIsUsual(otp, c);
    OffAt(otp, c, k);
    FoundIs(otp, c, k);
    VisitIs(p, otp, c, k);
    assert 30 * (c.server + k) / 30 == c.server + k;
  }

  lemma ReadyIs(t: string, secret: seq<bv8>)
    requires Ready(t, secret)
    ensures Otp.SharedSecret(t) == Some(secret) && HotpCounter(t) == 0 && Tidy(t)
    ensures Reuse.Used(t) == Some([]) && WindowSize(t) == 3 && GetCfgValue(t, "TOTP_AUTH").Some? && StepSize(t) == 30
  {
    hide Tidy, Codes, WindowSize, StepSize, TimeSkew, HotpCounter, GetCfgValue, Otp.SharedSecret, Reuse.Used;
  }

  /** The first two logins fail, and leave the file ready for the next one. */
  lemma VisitFails(p: Params, t: string, otp: Coder, c: Clock, k: nat)
    requires !p.noSkewAdj && k < 2 && Off(otp, c) && Ready(t, c.key) && TimeSkewReset.Follows(t, Attempts(c, k))
    ensures var x := Visit(p, otp, c, k); var u := Next(otp, t, x);
            Ready(u, c.key) && TimeSkewReset.Follows(u, Attempts(c, k + 1)) && Sane(x.input, t)
  {
    hide *;
    OffIsUsual(otp, c);
    VisitPlain(p, t, otp, c, k);
    VisitChecked(t, otp, c, k);
    StillReady(t, c, k);
    ReadyIs(t, c.key);
    VisitIs(p, otp, c, k);
    PlainResult(otp, t, Visit(p, otp, c, k), c.key, CodeAt(otp, c, k));
  }

  /** The third login is let in by the new skew, and its repetition by the window. */
  lemma VisitSucceedsTwice(p: Params, t: string, otp: Coder, c: Clock)
    requires !p.noSkewAdj && Off(otp, c) && Ready(t, c.key) && TimeSkewReset.Follows(t, Attempts(c, 2))
    ensures var x := Visit(p, otp, c, 2); var u := Next(otp, t, x); var step := c.server + c.ahead + 2;
            && Result(otp, t, x).verdict == Accepted(ByResync(step))
            && Result(otp, u, x).verdict == Accepted(ByStep(step))
            && Sane(x.input, t) && Sane(x.input, u)
  {
    hide *;
    VisitPlain(p, t, otp, c, 2);
    VisitChecked(t, otp, c, 2);
    ReadyIs(t, c.key);
    VisitIs(p, otp, c, 2);
    OffAt(otp, c, 2);
    FoundIs(otp, c, 2);
    SameLoginAgain(otp, t, Visit(p, otp, c, 2), c.key, CodeAt(otp, c, 2), c.server + c.ahead + 2);
    PlainResult(otp, t, Visit(p, otp, c, 2), c.key, CodeAt(otp, c, 2));
    SaneAfterReset(t, otp, c, Visit(p, otp, c, 2).input);
  }

  /** The clock is still far from any overflow. */
  lemma SaneAfterReset(t: string, otp: Coder, c: Clock, i: Input)
    requires Off(otp, c) && Ready(t, c.key) && TimeSkewReset.Follows(t, Attempts(c, 2)) && Sane(i, t)
    requires i.now == 30 * (c.server + 2) && i.host.None?
    ensures Sane(i, CheckCode(t, otp(c.key), CodeAt(otp, c, 2), 0, i.now, false, false).text)
  {
    hide *;
    OffIsUsual(otp, c);
    ReadyIs(t, c.key);
    VisitChecked(t, otp, c, 2);
    VisitTime(t, c, 2);
    SaneIs(i, t);
    var u := CheckCode(t, otp(c.key), CodeAt(otp, c, 2), 0, i.now, false, false).text;
    AfterReset(t, otp(c.key), CodeAt(otp, c, 2), 0, i.now, false, c.server + c.ahead + 2);
    AfterEdit(t, u, {TimeSkewReset.KEY, TimeSkewReset.SKEW_KEY});
    SettingsOf(t, u);
    SmallSkew(i, u, c);
  }

  lemma SmallSkew(i: Input, u: string, c: Clock)
    requires i.host.None? && i.now == 30 * (c.server + 2) && Usual(c)
    requires HotpCounter(u) == 0 && StepSize(u) == 30 && -1 <= TimeSkew(u) - c.ahead <= 1
    ensures Sane(i, u)
  {
    hide HotpCounter, StepSize, TimeSkew;
    assert i.now / 30 == c.server + 2;
  }

  // ---- the run ------------------------------------------------------------------------------------

  const CHOICES := Setup.Choices(true, true, 0, 3, false, -1, -1, false, [])

  function FirstFile(key: seq<bv8>): string { Setup.File(Setup.Letters(key), CHOICES) }

  /** A file as the setup program writes it will do. */
  lemma FirstFileReady(c: Clock)
    requires |c.key| == Setup.KEY_BYTES
    ensures Ready(FirstFile(c.key), c.key) && TimeSkewReset.Follows(FirstFile(c.key), Attempts(c, 0))
    ensures GetCfgValue(FirstFile(c.key), Reuse.KEY).Some?
  {
    hide Tidy, Codes, WindowSize, StepSize, TimeSkew, HotpCounter, GetCfgValue, Otp.SharedSecret, Reuse.Used,
         Setup.File, Setup.Letters, RateLimit.Tracks, TimeSkewReset.ReadAttempts;
    ChoicesAccepted();
    SetupReads.SetupReadsBack(c.key, CHOICES);
    SetupReads.SetupSettingsReadBack(c.key, CHOICES);
    SetupReads.SetupListsReadBack(c.key, CHOICES);
    NoAttemptsYet(FirstFile(c.key), c);
    ResettingKey();
    SetupReads.ReadKey(c.key, CHOICES, TimeSkewReset.KEY);
  }

  lemma ChoicesAccepted()
    ensures Setup.Accepted(CHOICES) && Setup.Rate(CHOICES) == None && Setup.Window(CHOICES) == Some(3)
  {
  }

  lemma ResettingKey()
    ensures ValidKey(TimeSkewReset.KEY) && |TimeSkewReset.KEY| == 19
    ensures |"RATE_LIMIT"| == 10 && |"WINDOW_SIZE"| == 11 && |"STEP_SIZE"| == 9 && |"DISALLOW_REUSE"| == 14
         && |"TOTP_AUTH"| == 9 && |"HOTP_COUNTER"| == 12
  {
  }

  lemma NoAttemptsYet(t: string, c: Clock)
    ensures GetCfgValue(t, TimeSkewReset.KEY).None? ==> TimeSkewReset.Follows(t, Attempts(c, 0))
  {
    hide GetCfgValue, TimeSkewReset.ReadAttempts;
  }

  /** Three logins with the user's clock off, and the third one once more. */
  function Visits(p: Params, otp: Coder, c: Clock, n: nat): seq<Try>
  {
    if n == 0 then [] else Visits(p, otp, c, n - 1) + [Visit(p, otp, c, if n < 3 then n - 1 else 2)]
  }

  lemma VisitsStep(p: Params, otp: Coder, c: Clock, n: nat)
    requires n > 0
    ensures Visits(p, otp, c, n) != [] && Front(Visits(p, otp, c, n)) == Visits(p, otp, c, n - 1)
    ensures Last(Visits(p, otp, c, n)) == Visit(p, otp, c, if n < 3 then n - 1 else 2)
  {
    hide Visit;
  }

  lemma VisitsInOrder(p: Params, otp: Coder, c: Clock)
    ensures InOrder(Visits(p, otp, c, 4)) && AllWith(Visits(p, otp, c, 4), p)
  {
    hide Visit;
    forall k | k < 3 ensures Visit(p, otp, c, k).input.now == 30 * (c.server + k) && Visit(p, otp, c, k).params == p {
      VisitIs(p, otp, c, k);
    }
    var a, b, d := Visit(p, otp, c, 0), Visit(p, otp, c, 1), Visit(p, otp, c, 2);
    assert Visits(p, otp, c, 1) == [a];
    assert Visits(p, otp, c, 2) == [a, b];
    assert Visits(p, otp, c, 3) == [a, b, d];
    assert Visits(p, otp, c, 4) == [a, b, d, d];
  }

  lemma NoVisits(p: Params, otp: Coder, c: Clock)
    ensures Visits(p, otp, c, 0) == []
  {
  }

  /** Whatever the code function: if there is such a clock at all, the run is one of those the promise
      is about, and a step is used twice in it. */
  lemma WithAdjustment(p: Params, otp: Coder, c: Clock)
    requires !p.noSkewAdj && Off(otp, c)
    ensures !EachStepOnce(p, otp)
  {
    hide *;
    OffIsUsual(otp, c);
    var f, step := FirstFile(c.key), c.server + c.ahead + 2;
    FirstFileReady(c);
    NoVisits(p, otp, c);
    ReadyIs(f, c.key);
    VisitsStep(p, otp, c, 1);
    FileStep(otp, f, Visits(p, otp, c, 1));
    VisitFails(p, f, otp, c, 0);
    VisitsStep(p, otp, c, 2);
    FileStep(otp, f, Visits(p, otp, c, 2));
    VisitFails(p, FileAfter(otp, f, Visits(p, otp, c, 1)), otp, c, 1);
    VisitsStep(p, otp, c, 3);
    FileStep(otp, f, Visits(p, otp, c, 3));
    VisitSucceedsTwice(p, FileAfter(otp, f, Visits(p, otp, c, 2)), otp, c);
    UsesStep(otp, f, Visits(p, otp, c, 3), ByResync(step));
    VisitsStep(p, otp, c, 4);
    FileStep(otp, f, Visits(p, otp, c, 4));
    UsesStep(otp, f, Visits(p, otp, c, 4), ByResync(step));
    UsesStep(otp, f, Visits(p, otp, c, 4), ByStep(step));
    VisitsInOrder(p, otp, c);
    if EachStepOnce(p, otp) { OnceIs(p, otp, f, Visits(p, otp, c, 4), step); }
  }

  lemma OnceIs(p: Params, otp: Coder, file: string, run: seq<Try>, step: int)
    requires EachStepOnce(p, otp)
    requires Tidy(file) && SaneRun(otp, file, run) && InOrder(run) && GetCfgValue(file, Reuse.KEY).Some?
          && AllWith(run, p)
    ensures Uses(otp, file, run, ByStep(step)) + Uses(otp, file, run, ByResync(step)) <= 1
  {
    hide Tidy, SaneRun, InOrder, GetCfgValue, Uses, AllWith;
  }

  /** For a code function with such a clock, DISALLOW_REUSE keeps its promise exactly when the module
      is told not to adjust the skew; with `noskewadj` it does for every code function. */
  lemma EachStepOnceIff(p: Params, otp: Coder, c: Clock)
    requires Off(otp, c)
    ensures EachStepOnce(p, otp) <==> p.noSkewAdj
  {
    hide EachStepOnce;
    if p.noSkewAdj { WithoutAdjustment(p, otp); } else { WithAdjustment(p, otp, c); }
  }

  // ---- a clock that is two steps ahead --------------------------------------------------------------

  /** The code of this step is none of those of the four steps before it. */
  ghost predicate Fresh(gen: int -> int, step: int) { forall v :: step - 4 <= v < step ==> gen(v) != gen(step) }

  lemma TwoAheadFound(otp: Coder, c: Clock, k: nat)
    requires c.ahead == 2 && Fresh(otp(c.key), c.server + k + 2) && SixDigits(CodeAt(otp, c, k))
    ensures FoundAt(otp, c, k)
  {
    hide FindSkew;
    var gen, server, code := otp(c.key), c.server + k, CodeAt(otp, c, k);
    assert c.server + c.ahead + k == c.server + k + 2 == server + 2;
    var r := FindSkew(gen, code, server, 0);
    assert gen(server + 2) == code && Apart(server + 2, server) == 2;
    if r.Some? {
      assert gen(server + r.value) == code;
      assert Apart(r.value, 0) <= 2;
    }
  }

  /** compute_code itself: if three codes in a row are none of the four before them, the promise holds
      exactly with `noskewadj`. */
  lemma RealEachStepOnceIff(p: Params, key: seq<bv8>, server: nat)
    requires |key| == Setup.KEY_BYTES && 0 < server < 100_000_000
    requires forall step :: server + 2 <= step <= server + 4 ==> Fresh(RealCoder()(key), step)
    ensures EachStepOnce(p, RealCoder()) <==> p.noSkewAdj
  {
    hide *;
    var c := Clock(key, server, 2);
    forall k | 0 <= k < 3 ensures FoundAt(RealCoder(), c, k) {
      RealSix(c, k);
      TwoAheadFound(RealCoder(), c, k);
    }
    AheadIsFirst(RealCoder(), c);
    OffByTwo(RealCoder(), c);
    EachStepOnceIff(p, RealCoder(), c);
  }

  lemma OffByTwo(otp: Coder, c: Clock)
    requires c.ahead == 2 && |c.key| == Setup.KEY_BYTES && 0 < c.server < 100_000_000
    requires forall k :: 0 <= k < 3 ==> FoundAt(otp, c, k)
    requires FirstNear(otp(c.key), c.server + c.ahead + 2, CodeAt(otp, c, 2), 3)
    ensures Off(otp, c)
  {
    hide FoundAt, FirstNear;
  }

  /** And they are, for the secret of appendix D of RFC 4226: so for the module's own codes DISALLOW_REUSE
      keeps its promise exactly with `noskewadj`. */
  lemma RealPromiseIff(p: Params)
    ensures EachStepOnce(p, RealCoder()) <==> p.noSkewAdj
  {
    hide *;
    var gen := RealCoder()(KnownAnswers.SECRET);
    SevenCodes();
    forall step | 5 <= step <= 7 ensures Fresh(gen, step) { FreshInSeven(gen, step); }
    SecretSize();
    RealEachStepOnceIff(p, KnownAnswers.SECRET, 3);
  }

  lemma SecretSize()
    ensures |KnownAnswers.SECRET| == Setup.KEY_BYTES
  {
  }

  predicate Seven(gen: int -> int)
  {
    && gen(1) == 287082 && gen(2) == 359152 && gen(3) == 969429 && gen(4) == 338314 && gen(5) == 254676
    && gen(6) == 287922 && gen(7) == 162583
  }

  lemma SevenCodes()
    ensures Seven(RealCoder()(KnownAnswers.SECRET))
  {
    hide Otp.Code, KnownAnswers.SECRET;
    KnownAnswers.AppendixD();
  }

  lemma FreshInSeven(gen: int -> int, step: int)
    requires Seven(gen) && 5 <= step <= 7
    ensures Fresh(gen, step)
  {
    forall v | step - 4 <= v < step ensures gen(v) != gen(step) {
      assert v == 1 || v == 2 || v == 3 || v == 4 || v == 5 || v == 6;
    }
  }

  lemma RealSix(c: Clock, k: nat)
    ensures SixDigits(CodeAt(RealCoder(), c, k))
  {
    hide Otp.Code;
    CodeIsSix(CodeAt(RealCoder(), c, k));
  }

  // ---- there are such clocks ------------------------------------------------------------------------

  /** Codes that are different for different steps near by. */
  function PlainCoder(): Coder { secret => (v: int) => v % CODE_MODULUS }

  lemma PlainFound(c: Clock, k: nat)
    requires c.server == 500_000 && c.ahead == 100 && k < 3
    ensures FoundAt(PlainCoder(), c, k)
  {
    hide FindSkew;
    var gen, server, code := PlainCoder()(c.key), c.server + k, c.server + c.ahead + k;
    var f := FindSkew(gen, code, server, 0);
    assert gen(server + c.ahead) == code;
    assert Apart(server + c.ahead, server) == c.ahead;
    if f.Some? { assert gen(server + f.value) == code; }
  }

  lemma PlainIsOff(key: seq<bv8>)
    requires |key| == Setup.KEY_BYTES
    ensures Off(PlainCoder(), Clock(key, 500_000, 100))
  {
    hide FoundAt;
    var c := Clock(key, 500_000, 100);
    PlainFound(c, 0);
    PlainFound(c, 1);
    PlainFound(c, 2);
    AheadIsFirst(PlainCoder(), c);
  }
}

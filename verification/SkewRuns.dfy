/** The attempts to set a new time skew over runs of logins: the option holds the last three since the
    last reset, and it is those that decide. */
module SkewRuns {
  import opened CText
  import opened StateText
  import opened Scratch
  import opened StateInvariant
  import opened Options
  import opened Checks
  import opened Login
  import opened Effects
  import opened Runs
  import RateLimit
  import Reuse
  import Otp
  import T = TimeSkewReset

  // ---- one check --------------------------------------------------------------------------------

  /** The attempt that a check hands to check_time_skew, if it gets that far. */
  function SkewTry(t: string, gen: int -> int, code: int, counter: int, now: nat, noSkewAdj: bool): Option<T.Attempt>
  {
    var server := TimeStep(t, now);
    if CheckScratchCodes(t, code).Some? || counter > 0 || !IsTotp(t) || !SixDigits(code) then None
    else if server == 0 || WindowSize(t) == 0 || noSkewAdj then None
    else if StepMatch(gen, code, server + TimeSkew(t), WindowSize(t)).Some? then None
    else
      match FindSkew(gen, code, server, 0)
      case None => None
      case Some(skew) => Some(T.Attempt(ToUInt32(server), skew))
  }

  /** What the check makes of the option. */
  lemma CheckTries(t: string, gen: int -> int, code: int, counter: int, now: nat, noSkewAdj: bool, must: bool)
    requires Tidy(t) && NoOverflow(t, counter, now)
    ensures var c := CheckCode(t, gen, code, counter, now, noSkewAdj, must);
            match SkewTry(t, gen, code, counter, now, noSkewAdj)
            case None => ViewOf(c.text).resetting == ViewOf(t).resetting
                         && !(c.verdict.Accepted? && c.verdict.via.ByResync?)
            case Some(a) =>
              && a.step == TimeStep(t, now) < TWO31 && -T.SKEW_LIMIT < a.skew < T.SKEW_LIMIT
              && c.text == T.Check(t, a.skew, a.step).1
              && (c.verdict.Accepted? && c.verdict.via.ByResync? <==> T.Check(t, a.skew, a.step).0 == T.Reset)
  {
    hide CheckScratchCodes, CheckCounter, CheckTime, Tidy, NoOverflow, ViewOf, IsTotp, TimeStep, WindowSize, TimeSkew,
         StepMatch, FindSkew, SixDigits, T.Check, CheckDone, Effects.Entries;
    CheckDoes(t, gen, code, counter, now, noSkewAdj, must);
    var c := CheckCode(t, gen, code, counter, now, noSkewAdj, must);
    CheckEntries(t, c, counter, now);
    EntriesKeep(t, c.text, c.verdict, now);
    if CheckScratchCodes(t, code).None? {
      if counter > 0 { CounterVerdicts(t, gen, code, counter, must); }
      else { TimeTries(t, gen, code, counter, now, noSkewAdj, must); }
    }
  }

  /** Verdicts but a failure and a resync leave the option alone. */
  lemma EntriesKeep(t: string, u: string, verdict: Verdict, now: nat)
    requires Effects.Entries(t, u, verdict, now)
    ensures verdict == NotThis || (verdict.Accepted? && !verdict.via.ByResync?) ==>
              ViewOf(u).resetting == ViewOf(t).resetting
  {
    hide ViewOf, RemoveFirst, StepUsed;
  }

  lemma CounterVerdicts(t: string, gen: int -> int, code: int, counter: int, must: bool)
    requires counter > 0
    ensures var c := CheckCounter(t, gen, code, counter, must);
            && (c.verdict == Failed ==> c.text == t)
            && (c.verdict.Accepted? ==> c.verdict.via.ByCounter?)
  {
    hide WindowSize, SetCfgValue, DecInt, FirstMatch;
  }

  lemma TimeTries(t: string, gen: int -> int, code: int, counter: int, now: nat, noSkewAdj: bool, must: bool)
    requires Tidy(t) && NoOverflow(t, counter, now) && counter <= 0 && CheckScratchCodes(t, code).None?
    ensures var c := CheckTime(t, gen, code, now, noSkewAdj, must);
            match SkewTry(t, gen, code, counter, now, noSkewAdj)
            case None => (c.verdict == Failed ==> c.text == t) && !(c.verdict.Accepted? && c.verdict.via.ByResync?)
            case Some(a) =>
              && a.step == TimeStep(t, now) < TWO31 && -T.SKEW_LIMIT < a.skew < T.SKEW_LIMIT
              && c.text == T.Check(t, a.skew, a.step).1
              && (c.verdict.Accepted? && c.verdict.via.ByResync? <==> T.Check(t, a.skew, a.step).0 == T.Reset)
  {
    hide CheckScratchCodes, Tidy, NoOverflow, IsTotp, TimeStep, WindowSize, TimeSkew, StepMatch, FindSkew, SixDigits,
         T.Check, UseStep;
    if TimeStep(t, now) != 0 { ServerStep(t, counter, now); }
    StepVerdicts(t, must);
  }

  lemma StepVerdicts(t: string, must: bool)
    ensures forall s :: var c := UseStep(t, s, must);
              (c.verdict == Failed ==> c.text == t) && (c.verdict.Accepted? ==> c.verdict.via.ByStep?)
  {
    hide GetCfgValue, SetCfgValue, WindowSize, Reuse.Edit;
  }

  // ---- one login --------------------------------------------------------------------------------

  /** The attempt of the decisive code. */
  function TryOf(a: Attempt, gen: int -> int, t: string): Option<T.Attempt>
  {
    var r := TryAll(a, gen, t, 0, false);
    if r.mode == 4 || Entered(a, r.mode).None? then None
    else SkewTry(t, gen, Entered(a, r.mode).value.0, a.counter, a.input.now, a.params.noSkewAdj)
  }

  /** The attempt of a login: that of its decisive code, if it gets to the codes at all. */
  function LoginTry(otp: Coder, file: string, x: Try): Option<T.Attempt>
  {
    var (decision, t) := RateLimit.Check(file, ToUInt32(x.input.now));
    var a := NewAttempt(x.params, x.input, otp, t);
    if !InGracePeriod(x.params, x.input, t) && (decision.Admitted? || decision.Unlimited?) && a.gen.Some? then
      TryOf(a, a.gen.value, t)
    else None
  }

  /** What a login makes of the option, in a file whose attempts are on record. */
  lemma LoginFollows(otp: Coder, file: string, x: Try, record: seq<T.Attempt>)
    requires Tidy(file) && Sane(x.input, file) && T.Follows(file, record)
    ensures match LoginTry(otp, file, x)
            case None => T.Follows(Next(otp, file, x), record) && !ByNewSkew(Result(otp, file, x).verdict)
            case Some(a) =>
              var verdict := T.Judge(T.LastThree(record), a);
              && T.Follows(Next(otp, file, x), T.Record(record, a, verdict))
              && (ByNewSkew(Result(otp, file, x).verdict) <==> verdict == T.Reset)
  {
    hide *;
    var p, i := x.params, x.input;
    var (decision, t) := RateLimit.Check(file, ToUInt32(i.now));
    NowFits(i, file);
    RateKeeps(file, ToUInt32(i.now));
    SaneFrom(i, file, t);
    SameFollows(file, t, record);
    LeftAlone(otp, file, x);
    var a := NewAttempt(p, i, otp, t);
    if !InGracePeriod(p, i, t) && (decision.Admitted? || decision.Unlimited?) && a.gen.Some? {
      AttemptIs(p, i, otp, t);
      DecisiveTries(a, a.gen.value, t, record);
      LoopLeaves(otp, file, x);
      SameFollows(TryAll(a, a.gen.value, t, 0, false).checked.text, Next(otp, file, x),
                  AfterTry(record, TryOf(a, a.gen.value, t)));
      TriedIs(otp, file, x);
    } else {
      TriedIs(otp, file, x);
      SameFollows(file, Next(otp, file, x), record);
    }
    AfterTryIs(record, LoginTry(otp, file, x));
  }

  predicate ByNewSkew(verdict: Verdict) { verdict.Accepted? && verdict.via.ByResync? }

  function AfterTry(record: seq<T.Attempt>, tried: Option<T.Attempt>): seq<T.Attempt>
  {
    match tried
    case None => record
    case Some(a) => T.Record(record, a, T.Judge(T.LastThree(record), a))
  }

  lemma AfterTryIs(record: seq<T.Attempt>, tried: Option<T.Attempt>)
    ensures AfterTry(record, tried) ==
            match tried case None => record case Some(a) => T.Record(record, a, T.Judge(T.LastThree(record), a))
  {
    hide T.Judge, T.LastThree, T.Record;
  }

  lemma SameFollows(t: string, u: string, record: seq<T.Attempt>)
    requires ViewOf(t).resetting == ViewOf(u).resetting && T.Follows(t, record)
    ensures T.Follows(u, record)
  {
    hide GetCfgValue, T.ReadAttempts, T.LastThree, T.Ordinary, SecretLine, Codes;
  }

  lemma TriedIs(otp: Coder, file: string, x: Try)
    ensures var (decision, t) := RateLimit.Check(file, ToUInt32(x.input.now));
            var a := NewAttempt(x.params, x.input, otp, t);
            LoginTry(otp, file, x) ==
            if !InGracePeriod(x.params, x.input, t) && (decision.Admitted? || decision.Unlimited?) && a.gen.Some? then
              TryOf(a, a.gen.value, t)
            else None
  {
    hide RateLimit.Check, InGracePeriod, Otp.SharedSecret, HotpCounter, TryOf, ToUInt32;
  }

  /** What the decisive check makes of the option. */
  lemma DecisiveTries(a: Attempt, gen: int -> int, t: string, record: seq<T.Attempt>)
    requires Tidy(t) && Sane(a.input, t) && a.counter == HotpCounter(t) && T.Follows(t, record)
    ensures var c := TryAll(a, gen, t, 0, false).checked;
            && T.Follows(c.text, AfterTry(record, TryOf(a, gen, t)))
            && (ByNewSkew(c.verdict) <==>
                  TryOf(a, gen, t).Some? && T.Judge(T.LastThree(record), TryOf(a, gen, t).value) == T.Reset)
  {
    hide TryAll, Tidy, NoOverflow, HotpCounter, ViewOf, Entered, SkewTry, T.Check, T.Follows, T.Judge, T.LastThree,
         T.Record, CheckCode, SameBut, T.Average;
    var r := TryAll(a, gen, t, 0, false);
    var must := TryAllIs(a, gen, t, 0, false);
    if r.mode < 4 {
      var code := Entered(a, r.mode).value.0;
      CheckTries(t, gen, code, a.counter, a.input.now, a.params.noSkewAdj, must);
      match SkewTry(t, gen, code, a.counter, a.input.now, a.params.noSkewAdj)
      case None => SameFollows(t, r.checked.text, record);
      case Some(b) => T.CheckFollows(t, record, b.skew, b.step);
    }
  }

  /** A login that does not get to the codes leaves the option alone. */
  lemma LeftAlone(otp: Coder, file: string, x: Try)
    requires Tidy(file) && Sane(x.input, file)
    ensures var (decision, t) := RateLimit.Check(file, ToUInt32(x.input.now));
            var a := NewAttempt(x.params, x.input, otp, t);
            InGracePeriod(x.params, x.input, t) || decision.Invalid? || decision.Exceeded? || a.gen.None? ==>
              && ViewOf(Next(otp, file, x)).resetting == ViewOf(file).resetting
              && !ByNewSkew(Result(otp, file, x).verdict)
  {
    hide Tidy, NoOverflow, HotpCounter, ViewOf, Modes, InGracePeriod, RateLimit.Check, Otp.SharedSecret, All,
         ToUInt32, Unchanged;
    var t := RateLimit.Check(file, ToUInt32(x.input.now)).1;
    NowFits(x.input, file);
    RateKeeps(file, ToUInt32(x.input.now));
    var a := NewAttempt(x.params, x.input, otp, t);
    if a.gen.None? {
      StartUnchanged(a, t);
      GuardFires(a, t, 0, Start(t));
    }
  }

  /** What follows the check leaves it alone, too. */
  lemma LoopLeaves(otp: Coder, file: string, x: Try)
    requires Tidy(file) && Sane(x.input, file)
    requires var (decision, t) := RateLimit.Check(file, ToUInt32(x.input.now));
             !InGracePeriod(x.params, x.input, t) && (decision.Admitted? || decision.Unlimited?)
             && NewAttempt(x.params, x.input, otp, t).gen.Some?
    ensures var t := RateLimit.Check(file, ToUInt32(x.input.now)).1;
            var a := NewAttempt(x.params, x.input, otp, t);
            var c := TryAll(a, a.gen.value, t, 0, false).checked;
            && ViewOf(Next(otp, file, x)).resetting == ViewOf(c.text).resetting
            && Result(otp, file, x).verdict == c.verdict
  {
    hide *;
    var (decision, t) := RateLimit.Check(file, ToUInt32(x.input.now));
    var a := NewAttempt(x.params, x.input, otp, t);
    var l := Modes(a, 0, Start(t));
    NowFits(x.input, file);
    RateKeeps(file, ToUInt32(x.input.now));
    SaneFrom(x.input, file, t);
    AttemptIs(x.params, x.input, otp, t);
    StartUnchanged(a, t);
    LoopIsTryAll(a, a.gen.value, t, 0, Start(t));
    BehindCheck(a, a.gen.value, t);
    PassedIs(otp, file, x);
    NotWritten(a, l, decision.Admitted?, file, t);
  }

  lemma PassedIs(otp: Coder, file: string, x: Try)
    requires var (decision, t) := RateLimit.Check(file, ToUInt32(x.input.now));
             !InGracePeriod(x.params, x.input, t) && (decision.Admitted? || decision.Unlimited?)
    ensures var (decision, t) := RateLimit.Check(file, ToUInt32(x.input.now));
            var a := NewAttempt(x.params, x.input, otp, t);
            var o := AfterLoop(a, Modes(a, 0, Start(t)), decision.Admitted?);
            && Result(otp, file, x) == o && Next(otp, file, x) == NewFile(o, file)
            && o.verdict == Modes(a, 0, Start(t)).verdict
  {
    hide RateLimit.Check, InGracePeriod, Modes, Otp.SharedSecret, HotpCounter, FinalText, ToUInt32;
  }

  lemma BehindCheck(a: Attempt, gen: int -> int, t: string)
    requires Tidy(t) && Sane(a.input, t) && a.gen == Some(gen) && a.counter == HotpCounter(t)
    requires Agree(a, Modes(a, 0, Start(t)), TryAll(a, gen, t, 0, false))
    ensures var l := Modes(a, 0, Start(t)); var c := TryAll(a, gen, t, 0, false).checked;
            && ViewOf(FinalText(a, l)).resetting == ViewOf(c.text).resetting && l.verdict == c.verdict
            && (!l.updated ==> l.text == t)
  {
    hide Modes, TryAll, Tidy, NoOverflow, HotpCounter, ViewOf, CheckDone, Effects.Entries, FinalText, Entered, All,
         Check, Prompts;
    var r := TryAll(a, gen, t, 0, false);
    var must := TryAllIs(a, gen, t, 0, false);
    var now := a.input.now;
    if r.mode < 4 {
      var code := Entered(a, r.mode).value.0;
      CheckOfMode(a, gen, t, code, must);
    } else {
      NotThisDone(t, r.checked, a.counter, now);
    }
    CheckEntries(t, r.checked, a.counter, now);
    CounterInRange(t, a.counter, now);
    FinishKeeps(a, Modes(a, 0, Start(t)));
  }

  lemma CheckOfMode(a: Attempt, gen: int -> int, t: string, code: int, must: bool)
    requires Tidy(t) && NoOverflow(t, a.counter, a.input.now)
    ensures var c := Check(a, gen, t, code, must);
            CheckDone(t, c, a.counter, a.input.now) && (!c.updated ==> c.text == t)
                  && (c.must ==> must || a.counter >= 1)
  {
    hide CheckCode, CheckDone, Tidy, NoOverflow;
    CheckDoes(t, gen, code, a.counter, a.input.now, a.params.noSkewAdj, must);
    NothingChanged(t, gen, code, a.counter, a.input.now, a.params.noSkewAdj, must);
    MustNeedsCounter(a, gen, t, code, must);
  }

  // ---- runs -------------------------------------------------------------------------------------

  /** The attempts of a run since the last reset, repetitions left out, after those on record. */
  function RecordOf(otp: Coder, file: string, run: seq<Try>, before: seq<T.Attempt>): seq<T.Attempt>
  {
    if run == [] then before
    else
      var record := RecordOf(otp, file, Front(run), before);
      match LoginTry(otp, FileAfter(otp, file, Front(run)), Last(run))
      case None => record
      case Some(a) => T.Record(record, a, T.Judge(T.LastThree(record), a))
  }

  /** After any run of logins the option holds the last three attempts since the last reset. */
  lemma {:induction false} RunFollows(otp: Coder, file: string, run: seq<Try>, before: seq<T.Attempt>)
    requires Tidy(file) && SaneRun(otp, file, run) && T.Follows(file, before)
    ensures T.Follows(FileAfter(otp, file, run), RecordOf(otp, file, run, before))
    ensures T.Remembered(FileAfter(otp, file, run)) == T.LastThree(RecordOf(otp, file, run, before))
  {
    hide Tidy, Sane, Authenticate, NewFile, LoginTry, T.Follows, T.Record, T.Judge, T.LastThree, Next, Result,
         T.Remembered;
    if run != [] {
      RunFollows(otp, file, Front(run), before);
      StaysTidy(otp, file, Front(run));
      LoginFollows(otp, FileAfter(otp, file, Front(run)), Last(run), RecordOf(otp, file, Front(run), before));
    }
    FollowsIs(FileAfter(otp, file, run), RecordOf(otp, file, run, before));
  }

  lemma FollowsIs(t: string, record: seq<T.Attempt>)
    requires T.Follows(t, record)
    ensures T.Remembered(t) == T.LastThree(record)
  {
    hide T.Remembered, T.LastThree, T.Ordinary;
  }

  /** And a login is let in by a new skew exactly when its attempt, with those of the run before it,
      warrants the reset. */
  lemma NewSkewIff(otp: Coder, file: string, run: seq<Try>, before: seq<T.Attempt>)
    requires run != [] && Tidy(file) && SaneRun(otp, file, run) && T.Follows(file, before)
    ensures var tried := LoginTry(otp, FileAfter(otp, file, Front(run)), Last(run));
            ByNewSkew(LastResult(otp, file, run).verdict) <==>
              tried.Some? && T.Judge(T.LastThree(RecordOf(otp, file, Front(run), before)), tried.value) == T.Reset
  {
    hide Tidy, Sane, Authenticate, NewFile, LoginTry, T.Follows, T.Judge, T.LastThree, ByNewSkew, RecordOf, T.Record,
         FileAfter;
    RunFollows(otp, file, Front(run), before);
    StaysTidy(otp, file, Front(run));
    LoginFollows(otp, FileAfter(otp, file, Front(run)), Last(run), RecordOf(otp, file, Front(run), before));
  }

  // ---- no code counts twice in a row ------------------------------------------------------------

  /** The step an attempt's code is for. */
  function Meant(a: T.Attempt): int { a.step + a.skew }

  /** No attempt is for the step of the one before it. */
  predicate AllDiffer(record: seq<T.Attempt>)
  {
    forall k :: 0 < k < |record| ==> Meant(record[k - 1]) != Meant(record[k])
  }

  lemma RecordDiffers(record: seq<T.Attempt>, a: T.Attempt)
    requires AllDiffer(record) && T.Ordinary(a) && forall k :: 0 <= k < |record| ==> T.Ordinary(record[k])
    ensures AllDiffer(T.Record(record, a, T.Judge(T.LastThree(record), a)))
  {
    hide T.Judge, T.Ordinary, T.LastThree, AllDiffer;
    LastThreeOf(record);
    OrdinaryLast(record);
    T.AgainIff(T.LastThree(record), a);
    if T.Judge(T.LastThree(record), a) != T.Again { DifferAppend(record, a); }
    NoneDiffers();
  }

  lemma DifferAppend(record: seq<T.Attempt>, a: T.Attempt)
    requires AllDiffer(record) && (record != [] ==> Meant(record[|record| - 1]) != Meant(a))
    ensures AllDiffer(record + [a])
  {
    var more := record + [a];
    forall k | 0 < k < |more| ensures Meant(more[k - 1]) != Meant(more[k]) {
      if k < |record| { assert more[k - 1] == record[k - 1] && more[k] == record[k]; }
    }
  }

  lemma NoneDiffers()
    ensures AllDiffer([])
  {
  }

  lemma OrdinaryRecord(t: string, record: seq<T.Attempt>)
    requires T.Follows(t, record)
    ensures forall k :: 0 <= k < |record| ==> T.Ordinary(record[k])
  {
    hide T.Remembered, T.LastThree, T.Ordinary;
  }

  /** After any run the recorded attempts are for different steps, each compared with the one before. */
  lemma {:induction false} RunDiffers(otp: Coder, file: string, run: seq<Try>, before: seq<T.Attempt>)
    requires Tidy(file) && SaneRun(otp, file, run) && T.Follows(file, before) && AllDiffer(before)
    ensures AllDiffer(RecordOf(otp, file, run, before))
  {
    hide Tidy, Sane, Authenticate, NewFile, LoginTry, T.Follows, T.Record, T.Judge, T.LastThree, AllDiffer, Next,
         Result, FileAfter, T.Ordinary;
    if run != [] {
      var t, record := FileAfter(otp, file, Front(run)), RecordOf(otp, file, Front(run), before);
      RunDiffers(otp, file, Front(run), before);
      RunFollows(otp, file, Front(run), before);
      OrdinaryRecord(t, record);
      StaysTidy(otp, file, Front(run));
      TryIsOrdinary(otp, t, Last(run));
      match LoginTry(otp, t, Last(run))
      case None =>
      case Some(a) => RecordDiffers(record, a);
    }
  }

  lemma TryIsOrdinary(otp: Coder, file: string, x: Try)
    requires Tidy(file) && Sane(x.input, file)
    ensures LoginTry(otp, file, x).Some? ==> T.Ordinary(LoginTry(otp, file, x).value)
  {
    hide Tidy, NoOverflow, HotpCounter, ViewOf, TryAll, InGracePeriod, RateLimit.Check, Otp.SharedSecret, ToUInt32,
         Entered, SkewTry;
    var t := RateLimit.Check(file, ToUInt32(x.input.now)).1;
    NowFits(x.input, file);
    RateKeeps(file, ToUInt32(x.input.now));
    SaneFrom(x.input, file, t);
    var a := NewAttempt(x.params, x.input, otp, t);
    if a.gen.Some? { TryOrdinary(a, a.gen.value, t); }
  }

  lemma TryOrdinary(a: Attempt, gen: int -> int, t: string)
    requires Tidy(t) && Sane(a.input, t) && a.counter == HotpCounter(t)
    ensures TryOf(a, gen, t).Some? ==> T.Ordinary(TryOf(a, gen, t).value)
  {
    hide TryAll, Tidy, HotpCounter, Entered, SkewTry, CheckCode, T.Check, ViewOf, NoOverflow, All;
    var r := TryAll(a, gen, t, 0, false);
    if r.mode < 4 && Entered(a, r.mode).Some? {
      CheckTries(t, gen, Entered(a, r.mode).value.0, a.counter, a.input.now, a.params.noSkewAdj, false);
    }
  }

  /** The third of three attempts in a row at steps that go up by one or two, with skews within one of each
      other, whose codes differ, each from the one before. */
  predicate ThirdCode(record: seq<T.Attempt>, a: T.Attempt)
  {
    && |record| >= 2
    && var p, q := record[|record| - 2], record[|record| - 1];
       && Meant(p) != Meant(q) && Meant(q) != Meant(a)
       && p.step < q.step <= p.step + 2 && q.step < a.step <= q.step + 2
       && -1 <= p.skew - a.skew <= 1 && -1 <= q.skew - a.skew <= 1
  }

  lemma ResetNeeds(record: seq<T.Attempt>, a: T.Attempt)
    requires AllDiffer(record) && T.Ordinary(a) && forall k :: 0 <= k < |record| ==> T.Ordinary(record[k])
    ensures T.Judge(T.LastThree(record), a) == T.Reset ==> ThirdCode(record, a)
  {
    hide T.Judge, T.Ordinary, T.LastThree;
    LastThreeOf(record);
    OrdinaryLast(record);
    T.ResetIff(T.LastThree(record), a);
  }

  /** So a login by a new skew takes three different codes in a row. */
  lemma ThreeCodes(otp: Coder, file: string, run: seq<Try>, before: seq<T.Attempt>)
    requires run != [] && Tidy(file) && SaneRun(otp, file, run) && T.Follows(file, before) && AllDiffer(before)
    ensures ByNewSkew(LastResult(otp, file, run).verdict) ==>
              var tried := LoginTry(otp, FileAfter(otp, file, Front(run)), Last(run));
              tried.Some? && ThirdCode(RecordOf(otp, file, Front(run), before), tried.value)
  {
    hide *;
    var t, record := FileAfter(otp, file, Front(run)), RecordOf(otp, file, Front(run), before);
    FrontIsSane(otp, file, run);
    NewSkewIff(otp, file, run, before);
    RunDiffers(otp, file, Front(run), before);
    RunFollows(otp, file, Front(run), before);
    OrdinaryRecord(t, record);
    StaysTidy(otp, file, Front(run));
    TryIsOrdinary(otp, t, Last(run));
    if LoginTry(otp, t, Last(run)).Some? { ResetNeeds(record, LoginTry(otp, t, Last(run)).value); }
  }

  lemma OrdinaryLast(record: seq<T.Attempt>)
    requires forall k :: 0 <= k < |record| ==> T.Ordinary(record[k])
    ensures forall k :: 0 <= k < |T.LastThree(record)| ==> T.Ordinary(T.LastThree(record)[k])
  {
    hide T.Ordinary;
    var last := T.LastThree(record);
    assert forall k :: 0 <= k < |last| ==> last[k] == record[|record| - |last| + k];
  }

  lemma FrontIsSane(otp: Coder, file: string, run: seq<Try>)
    requires run != [] && SaneRun(otp, file, run)
    ensures SaneRun(otp, file, Front(run)) && Sane(Last(run).input, FileAfter(otp, file, Front(run)))
  {
    hide Sane, FileAfter;
  }

  lemma LastThreeOf(record: seq<T.Attempt>)
    ensures var last := T.LastThree(record);
            && |last| <= 3 && (|last| >= 2 <==> |record| >= 2) && (last == [] <==> record == [])
            && (forall k :: 0 <= k < |last| ==> last[k] == record[|record| - |last| + k])
  {
  }
}

/** Whole runs: every login reads the file the one before it left. */
module Runs {
  import opened CText
  import opened StateText
  import opened Scratch
  import opened StateInvariant
  import opened Options
  import opened Checks
  import opened Login
  import opened Effects
  import RateLimit
  import Reuse

  datatype Try = Try(params: Params, input: Input)

  function Result(otp: Coder, file: string, x: Try): Outcome { Authenticate(x.params, x.input, otp, file) }

  function Next(otp: Coder, file: string, x: Try): string { NewFile(Result(otp, file, x), file) }

  function Front(run: seq<Try>): seq<Try>
    requires run != []
  {
    run[..|run| - 1]
  }

  function Last(run: seq<Try>): Try
    requires run != []
  {
    run[|run| - 1]
  }

  /** The file after a run. */
  function FileAfter(otp: Coder, file: string, run: seq<Try>): string
  {
    if run == [] then file else Next(otp, FileAfter(otp, file, Front(run)), Last(run))
  }

  /** The outcome of a run's last login. */
  function LastResult(otp: Coder, file: string, run: seq<Try>): Outcome
    requires run != []
  {
    Result(otp, FileAfter(otp, file, Front(run)), Last(run))
  }

  predicate SaneRun(otp: Coder, file: string, run: seq<Try>)
  {
    run != [] ==> SaneRun(otp, file, Front(run)) && Sane(Last(run).input, FileAfter(otp, file, Front(run)))
  }

  /** How many logins of a run were let in by the same thing. */
  function Uses(otp: Coder, file: string, run: seq<Try>, via: Via): nat
  {
    if run == [] then 0
    else Uses(otp, file, Front(run), via) + if LastResult(otp, file, run).verdict == Accepted(via) then 1 else 0
  }

  lemma ResultIs(otp: Coder, file: string, x: Try)
    ensures Result(otp, file, x) == Authenticate(x.params, x.input, otp, file)
    ensures Next(otp, file, x) == NewFile(Authenticate(x.params, x.input, otp, file), file)
  {
    hide Authenticate, NewFile;
  }

  lemma FileStep(otp: Coder, file: string, run: seq<Try>)
    requires run != []
    ensures FileAfter(otp, file, run) == Next(otp, FileAfter(otp, file, Front(run)), Last(run))
    ensures LastResult(otp, file, run) == Result(otp, FileAfter(otp, file, Front(run)), Last(run))
    ensures SaneRun(otp, file, run) <==>
              SaneRun(otp, file, Front(run)) && Sane(Last(run).input, FileAfter(otp, file, Front(run)))
    ensures SaneRun(otp, file, []) && FileAfter(otp, file, []) == file
  {
    hide Next, Result, Sane;
  }

  lemma {:induction false} StaysTidy(otp: Coder, file: string, run: seq<Try>)
    requires Tidy(file) && SaneRun(otp, file, run)
    ensures Tidy(FileAfter(otp, file, run))
  {
    hide Tidy, Sane, LoginDone, Authenticate, NewFile;
    if run != [] {
      StaysTidy(otp, file, Front(run));
      LoginMoves(Last(run).params, Last(run).input, otp, FileAfter(otp, file, Front(run)));
    }
  }

  /** What a run's last login did. */
  lemma LastMoves(otp: Coder, file: string, run: seq<Try>)
    requires Tidy(file) && run != [] && SaneRun(otp, file, run)
    ensures Tidy(FileAfter(otp, file, Front(run))) && SaneRun(otp, file, Front(run))
    ensures LoginDone(FileAfter(otp, file, Front(run)), FileAfter(otp, file, run), LastResult(otp, file, run),
                      Last(run).input.now)
    ensures forall via :: Uses(otp, file, run, via) == Uses(otp, file, Front(run), via)
                          + if LastResult(otp, file, run).verdict == Accepted(via) then 1 else 0
  {
    hide Tidy, Sane, LoginDone, Authenticate, NewFile, Uses;
    StaysTidy(otp, file, Front(run));
    LoginMoves(Last(run).params, Last(run).input, otp, FileAfter(otp, file, Front(run)));
    forall via ensures Uses(otp, file, run, via) == Uses(otp, file, Front(run), via)
                          + if LastResult(otp, file, run).verdict == Accepted(via) then 1 else 0
    {
      UsesStep(otp, file, run, via);
    }
  }

  lemma UsesStep(otp: Coder, file: string, run: seq<Try>, via: Via)
    requires run != []
    ensures Uses(otp, file, run, via) == Uses(otp, file, Front(run), via)
                          + if LastResult(otp, file, run).verdict == Accepted(via) then 1 else 0
  {
    hide LastResult;
  }

  // ---- scratch codes --------------------------------------------------------------------------

  lemma {:induction false} RemoveFirstCounts(codes: seq<int>, code: int)
    requires code in codes
    ensures multiset(RemoveFirst(codes, code)) == multiset(codes) - multiset{code}
  {
    assert codes == [codes[0]] + codes[1..];
    if codes[0] != code { RemoveFirstCounts(codes[1..], code); }
  }

  /** Uses and copies that are left make up the copies there were. */
  lemma {:induction false} ScratchUses(otp: Coder, file: string, run: seq<Try>, code: int)
    requires Tidy(file) && SaneRun(otp, file, run)
    ensures Uses(otp, file, run, ByScratch(code)) + multiset(Codes(FileAfter(otp, file, run)))[code]
          == multiset(Codes(file))[code]
  {
    hide Tidy, SaneRun, Codes, FileAfter, LastResult, Uses, ViewOf, RateLimit.Check, RemoveFirst, CounterMoves,
         UsedMoves;
    if run == [] {
      RunStarts(otp, file, ByScratch(code));
    } else {
      LastMoves(otp, file, run);
      ScratchUses(otp, file, Front(run), code);
      var t, u := FileAfter(otp, file, Front(run)), FileAfter(otp, file, run);
      CodesIn(t);
      CodesIn(u);
      var verdict := LastResult(otp, file, run).verdict;
      if verdict.Accepted? && verdict.via.ByScratch? { RemoveFirstCounts(Codes(t), verdict.via.code); }
    }
  }

  lemma RunStarts(otp: Coder, file: string, via: Via)
    ensures FileAfter(otp, file, []) == file && Uses(otp, file, [], via) == 0
  {
  }

  // ---- counters -------------------------------------------------------------------------------

  /** The counter never goes back; whatever was accepted lies below it; and nothing was accepted
      twice. */
  lemma {:induction false} CounterUses(otp: Coder, file: string, run: seq<Try>, n: int)
    requires Tidy(file) && SaneRun(otp, file, run)
    ensures HotpCounter(file) <= HotpCounter(FileAfter(otp, file, run))
    ensures Uses(otp, file, run, ByCounter(n)) > 0 ==> HotpCounter(file) <= n < HotpCounter(FileAfter(otp, file, run))
    ensures Uses(otp, file, run, ByCounter(n)) <= 1
  {
    hide Tidy, SaneRun, HotpCounter, FileAfter, LastResult, Uses, ViewOf, RateLimit.Check, CodesMove, UsedMoves,
         WindowSize;
    if run == [] {
      RunStarts(otp, file, ByCounter(n));
    } else {
      LastMoves(otp, file, run);
      CounterUses(otp, file, Front(run), n);
    }
  }

  /** A login moves the counter by at most one, however many codes were tried, unless one of them
      was right. */
  lemma FailedLoginsAdvance(otp: Coder, file: string, x: Try)
    requires Tidy(file) && Sane(x.input, file)
    requires !Result(otp, file, x).verdict.Accepted? || !Result(otp, file, x).verdict.via.ByCounter?
    ensures HotpCounter(file) <= HotpCounter(Next(otp, file, x)) <= HotpCounter(file) + 1
  {
    hide Tidy, HotpCounter, ViewOf, Authenticate, RateLimit.Check, CodesMove, UsedMoves, WindowSize, Sane;
    LoginMoves(x.params, x.input, otp, file);
  }

  // ---- time steps -----------------------------------------------------------------------------

  /** The time steps accepted in the window, in order. */
  function StepsUsed(otp: Coder, file: string, run: seq<Try>): seq<int>
  {
    if run == [] then []
    else
      var verdict := LastResult(otp, file, run).verdict;
      StepsUsed(otp, file, Front(run))
      + if verdict.Accepted? && verdict.via.ByStep? then [verdict.via.step] else []
  }

  /** No login of the run was let in by a new time skew. */
  predicate NoResync(otp: Coder, file: string, run: seq<Try>)
  {
    run != [] ==>
      && NoResync(otp, file, Front(run))
      && !(LastResult(otp, file, run).verdict.Accepted? && LastResult(otp, file, run).verdict.via.ByResync?)
  }

  /** The clock does not run backwards. */
  predicate InOrder(run: seq<Try>)
  {
    forall j, k :: 0 <= j < k < |run| ==> run[j].input.now <= run[k].input.now
  }

  /** The options that are fixed, and what the list of used steps stands for. */
  predicate StepsTracked(otp: Coder, file: string, run: seq<Try>)
  {
    var t := FileAfter(otp, file, run);
    var hist := StepsUsed(otp, file, run);
    && WindowSize(t) == WindowSize(file) && StepSize(t) == StepSize(file) && TimeSkew(t) == TimeSkew(file)
    && ViewOf(t).used.Some?
    && if Reuse.Used(t).None? || WindowSize(file) == 0 then hist == []
       else if run == [] then hist == []
       else Reuse.Covers(Reuse.Used(t).value, hist, TimeStep(file, Last(run).input.now), TimeSkew(file),
                         WindowSize(file))
  }

  predicate AllDistinct(s: seq<int>) { forall i, j :: 0 <= i < j < |s| ==> s[i] != s[j] }

  /** The last login's clock stands at or behind the ones before it. */
  lemma OrderedFront(run: seq<Try>)
    requires run != [] && InOrder(run)
    ensures InOrder(Front(run))
    ensures Front(run) != [] ==> Last(Front(run)).input.now <= Last(run).input.now
  {
  }

  lemma StepsMonotone(t: string, counter: int, early: nat, late: nat)
    requires early <= late && NoOverflow(t, counter, late)
    ensures TimeStep(t, early) <= TimeStep(t, late)
  {
    hide StepSize, TimeSkew;
    if StepSize(t) != 0 { DivMonotone(early, late, StepSize(t)); }
  }

  lemma DivMonotone(a: nat, b: nat, d: nat)
    requires a <= b && d > 0
    ensures 0 <= a / d <= b / d
  {
    var q, r := a / d, b / d;
    assert a == d * q + a % d && b == d * r + b % d;
    assert d * (r + 1) == d * r + d;
    if r < q { TimesMonotone(d, r + 1, q); }
  }

  /** The server's step that the last login of a run worked with is not before `before`. */
  lemma CoversLater(used: seq<int>, hist: seq<int>, before: int, server: int, skew: int, window: int)
    requires window > 0 && before <= server && Reuse.Covers(used, hist, before, skew, window)
    ensures Reuse.Covers(used, hist, server, skew, window)
  {
  }

  lemma NothingCovered(used: seq<int>, server: int, skew: int, window: int)
    requires window > 0
    ensures Reuse.Covers(used, [], server, skew, window)
  {
  }

  /** What the last login of a run makes of the list of used steps. */
  lemma StepsStep(otp: Coder, file: string, run: seq<Try>)
    requires run != [] && Tidy(file) && SaneRun(otp, file, run) && NoResync(otp, file, run) && InOrder(run)
    requires StepsTracked(otp, file, Front(run)) && AllDistinct(StepsUsed(otp, file, Front(run)))
    ensures StepsTracked(otp, file, run) && AllDistinct(StepsUsed(otp, file, run))
  {
    hide Tidy, HotpCounter, FileAfter, LastResult, StepsUsed, ViewOf, RateLimit.Check, CodesMove, CounterMoves,
         WindowSize, StepSize, TimeSkew, Reuse.Used, Reuse.Covers, AllDistinct, InOrder, TimeStep, Reuse.Near,
         Reuse.InWindow, NoOverflow;
    LastMoves(otp, file, run);
    OrderedFront(run);
    StepsUsedStep(otp, file, run);
    var t, u := FileAfter(otp, file, Front(run)), FileAfter(otp, file, run);
    var now := Last(run).input.now;
    SettingsOf(t, u);
    TimeStepOf(t, file, now);
    var hist := StepsUsed(otp, file, Front(run));
    if Reuse.Used(t).Some? && WindowSize(file) != 0 {
      var used := Reuse.Used(t).value;
      var server := TimeStep(file, now);
      if Front(run) == [] {
        NothingCovered(used, server, TimeSkew(file), WindowSize(file));
      } else {
        var before := Last(Front(run)).input.now;
        StepsMonotone(t, HotpCounter(t), before, now);
        TimeStepOf(t, file, before);
        CoversLater(used, hist, TimeStep(file, before), server, TimeSkew(file), WindowSize(file));
      }
      var verdict := LastResult(otp, file, run).verdict;
      if verdict.Accepted? && verdict.via.ByStep? {
        Reuse.PrunedListSuffices(used, hist, server, server, TimeSkew(file), WindowSize(file), verdict.via.step);
        DistinctNew(hist, verdict.via.step);
        UsedEntry(u);
      }
    } else {
      UsedEntry(t);
    }
  }

  lemma DistinctNew(hist: seq<int>, step: int)
    requires AllDistinct(hist) && step !in hist
    ensures AllDistinct(hist + [step])
  {
  }

  lemma StepsUsedStep(otp: Coder, file: string, run: seq<Try>)
    requires run != []
    ensures var verdict := LastResult(otp, file, run).verdict;
            StepsUsed(otp, file, run) ==
            if verdict.Accepted? && verdict.via.ByStep? then StepsUsed(otp, file, Front(run)) + [verdict.via.step]
            else StepsUsed(otp, file, Front(run))
  {
    hide LastResult;
    assert StepsUsed(otp, file, Front(run)) + [] == StepsUsed(otp, file, Front(run));
  }

  /** With DISALLOW_REUSE in the file, no time step lets anyone in twice, in a run in which the
      clock does not go backwards and no login sets a new time skew. */
  lemma {:induction false} NoStepTwice(otp: Coder, file: string, run: seq<Try>)
    requires Tidy(file) && SaneRun(otp, file, run) && NoResync(otp, file, run) && InOrder(run)
    requires GetCfgValue(file, Reuse.KEY).Some?
    ensures AllDistinct(StepsUsed(otp, file, run))
    ensures StepsTracked(otp, file, run)
  {
    hide Tidy, StepsTracked, Sane, LastResult, FileAfter, GetCfgValue, InOrder, AllDistinct, StepsUsed;
    if run == [] {
      NoStepsYet(otp, file);
    } else {
      OrderedFront(run);
      NoStepTwice(otp, file, Front(run));
      StepsStep(otp, file, run);
    }
  }

  lemma NoStepsYet(otp: Coder, file: string)
    requires GetCfgValue(file, Reuse.KEY).Some?
    ensures AllDistinct(StepsUsed(otp, file, [])) && StepsTracked(otp, file, [])
  {
    hide WindowSize, StepSize, TimeSkew, Reuse.Used, GetCfgValue, SecretLine, Codes;
  }

  /** The number of uses is the number of times a step is in the list of accepted steps. */
  lemma {:induction false} StepUses(otp: Coder, file: string, run: seq<Try>, step: int)
    ensures Uses(otp, file, run, ByStep(step)) == multiset(StepsUsed(otp, file, run))[step]
  {
    hide LastResult, Uses, StepsUsed;
    if run == [] {
      RunStarts(otp, file, ByStep(step));
      assert StepsUsed(otp, file, []) == [] by { StepsStart(otp, file); }
    } else {
      StepUses(otp, file, Front(run), step);
      UsesStep(otp, file, run, ByStep(step));
      StepsUsedStep(otp, file, run);
    }
  }

  lemma StepsStart(otp: Coder, file: string)
    ensures StepsUsed(otp, file, []) == []
  {
  }

  lemma {:induction false} DistinctOnce(s: seq<int>, x: int)
    requires AllDistinct(s)
    ensures multiset(s)[x] <= 1
  {
    if s != [] {
      var front, last := s[..|s| - 1], s[|s| - 1];
      assert s == front + [last];
      DistinctOnce(front, x);
      assert last !in front;
      assert last !in multiset(front);
    }
  }

  /** The same, as a count. */
  lemma StepUsedOnce(otp: Coder, file: string, run: seq<Try>, step: int)
    requires Tidy(file) && SaneRun(otp, file, run) && NoResync(otp, file, run) && InOrder(run)
    requires GetCfgValue(file, Reuse.KEY).Some?
    ensures Uses(otp, file, run, ByStep(step)) <= 1
  {
    hide Tidy, SaneRun, NoResync, InOrder, GetCfgValue, Uses, StepsUsed, AllDistinct, StepsTracked;
    NoStepTwice(otp, file, run);
    StepUses(otp, file, run, step);
    DistinctOnce(StepsUsed(otp, file, run), step);
  }

  /** A run of a module with `noskewadj` never sets a new time skew. */
  lemma {:induction false} NoSkewAdjNoResync(otp: Coder, file: string, run: seq<Try>)
    requires Tidy(file) && SaneRun(otp, file, run)
    requires forall k :: 0 <= k < |run| ==> run[k].params.noSkewAdj
    ensures NoResync(otp, file, run)
  {
    hide Tidy, Sane, FileAfter, Authenticate;
    if run != [] {
      assert forall k :: 0 <= k < |run| - 1 ==> Front(run)[k] == run[k];
      NoSkewAdjNoResync(otp, file, Front(run));
      NoResyncWithout(otp, FileAfter(otp, file, Front(run)), Last(run));
    }
  }

  lemma NoResyncWithout(otp: Coder, file: string, x: Try)
    requires x.params.noSkewAdj
    ensures var verdict := Result(otp, file, x).verdict; !(verdict.Accepted? && verdict.via.ByResync?)
  {
    hide RateLimit.Check, InGracePeriod, Modes, Entered, Prompts, CheckCode, TryAll;
    var (decision, t) := RateLimit.Check(file, ToUInt32(x.input.now));
    var a := NewAttempt(x.params, x.input, otp, t);
    if a.gen.None? {
      GuardFires(a, t, 0, Start(t));
    } else {
      LoopIsTryAll(a, a.gen.value, t, 0, Start(t));
      var must := TryAllIs(a, a.gen.value, t, 0, false);
      var r := TryAll(a, a.gen.value, t, 0, false);
      if r.mode < 4 { CheckWithout(t, a.gen.value, Entered(a, r.mode).value.0, a.counter, x.input.now, must); }
    }
  }

  lemma CheckWithout(t: string, gen: int -> int, code: int, counter: int, now: nat, must: bool)
    ensures var verdict := CheckCode(t, gen, code, counter, now, true, must).verdict;
            !(verdict.Accepted? && verdict.via.ByResync?)
  {
    hide CheckScratchCodes, IsTotp, TimeStep, WindowSize, TimeSkew, FirstMatch, GetCfgValue, SetCfgValue, DecInt,
         Reuse.Invalidate;
  }

  lemma {:induction false} NoResyncUses(otp: Coder, file: string, run: seq<Try>, step: int)
    requires NoResync(otp, file, run)
    ensures Uses(otp, file, run, ByResync(step)) == 0
  {
    hide LastResult, FileAfter;
    if run != [] { NoResyncUses(otp, file, Front(run), step); }
  }

  /** The module runs with the same arguments throughout. */
  predicate AllWith(run: seq<Try>, p: Params) { forall k :: 0 <= k < |run| ==> run[k].params == p }

  // ---- the rate limit -------------------------------------------------------------------------

  /** The logins of a run that got as far as the rate limit, and what it said. */
  function Calls(otp: Coder, file: string, run: seq<Try>): seq<RateLimit.Call>
  {
    if run == [] then []
    else
      var t, now := FileAfter(otp, file, Front(run)), Last(run).input.now;
      Calls(otp, file, Front(run))
      + if LastResult(otp, file, run).grace then []
        else [RateLimit.Call(now, RateLimit.Check(t, ToUInt32(now)).0.Admitted?)]
  }

  /** How many logins at times in [x, y] were let in by a code. */
  function SuccessesIn(otp: Coder, file: string, run: seq<Try>, x: nat, y: nat): nat
  {
    if run == [] then 0
    else
      var o := LastResult(otp, file, run);
      SuccessesIn(otp, file, Front(run), x, y)
      + if o.success && !o.grace && x <= Last(run).input.now <= y then 1 else 0
  }

  /** The file keeps the limits and a list that stands for all the calls, and each call was decided
      by all the calls before it. */
  predicate RateTracked(otp: Coder, file: string, run: seq<Try>, prior: seq<nat>, attempts: nat, interval: nat)
  {
    var calls := Calls(otp, file, run);
    && RateLimit.Tracks(FileAfter(otp, file, run), attempts, interval, prior + RateLimit.Times(calls))
    && RateLimit.Decided(prior, calls, attempts, interval)
    && forall k :: 0 <= k < |calls| ==> exists j :: 0 <= j < |run| && run[j].input.now == calls[k].time
  }

  lemma CallsStep(otp: Coder, file: string, run: seq<Try>)
    requires run != []
    ensures var t, now := FileAfter(otp, file, Front(run)), Last(run).input.now;
            Calls(otp, file, run) ==
            if LastResult(otp, file, run).grace then Calls(otp, file, Front(run))
            else Calls(otp, file, Front(run)) + [RateLimit.Call(now, RateLimit.Check(t, ToUInt32(now)).0.Admitted?)]
  {
    hide LastResult, RateLimit.Check, FileAfter;
    assert Calls(otp, file, Front(run)) + [] == Calls(otp, file, Front(run));
  }

  lemma TimesAppend(calls: seq<RateLimit.Call>, c: RateLimit.Call)
    ensures RateLimit.Times(calls + [c]) == RateLimit.Times(calls) + [c.time]
  {
    assert (calls + [c])[..|calls|] == calls;
  }

  /** A call decided by the whole history joins the calls that were. */
  lemma DecidedAppend(prior: seq<nat>, calls: seq<RateLimit.Call>, c: RateLimit.Call, attempts: nat, interval: nat)
    requires RateLimit.Decided(prior, calls, attempts, interval)
    requires c.time >= interval && NotAfter(prior, calls, c.time)
    requires c.admitted <==> RateLimit.Allowed(prior + RateLimit.Times(calls) + [c.time], attempts, interval)
    ensures RateLimit.Decided(prior, calls + [c], attempts, interval)
    ensures RateLimit.Sorted(prior + RateLimit.Times(calls) + [c.time])
  {
    hide RateLimit.Allowed, RateLimit.Times, RateLimit.Sorted;
    TimesAppend(calls, c);
    SortedCalls(prior, calls, c.time, attempts, interval);
    assert (calls + [c])[..|calls|] == calls;
    assert prior + (RateLimit.Times(calls) + [c.time]) == prior + RateLimit.Times(calls) + [c.time];
  }

  /** The calls of a run made at times up to now, in order. */
  lemma CallsBefore(otp: Coder, file: string, run: seq<Try>, prior: seq<nat>, attempts: nat, interval: nat)
    requires run != [] && InOrder(run) && RateTracked(otp, file, Front(run), prior, attempts, interval)
    requires forall j :: 0 <= j < |prior| ==> prior[j] <= Last(run).input.now
    ensures var calls := Calls(otp, file, Front(run));
            && RateLimit.Tracks(FileAfter(otp, file, Front(run)), attempts, interval, prior + RateLimit.Times(calls))
            && RateLimit.Decided(prior, calls, attempts, interval)
            && NotAfter(prior, calls, Last(run).input.now)
  {
    hide Calls, FileAfter, RateLimit.Tracks, RateLimit.Decided;
    var calls := Calls(otp, file, Front(run));
    forall k | 0 <= k < |calls| ensures calls[k].time <= Last(run).input.now
    {
      var j :| 0 <= j < |Front(run)| && Front(run)[j].input.now == calls[k].time;
      assert run[j] == Front(run)[j];
    }
  }

  lemma CallsFromRun(otp: Coder, file: string, run: seq<Try>, prior: seq<nat>, attempts: nat, interval: nat)
    requires run != [] && RateTracked(otp, file, Front(run), prior, attempts, interval)
    ensures var calls := Calls(otp, file, run);
            forall k :: 0 <= k < |calls| ==> exists j :: 0 <= j < |run| && run[j].input.now == calls[k].time
  {
    hide FileAfter, RateLimit.Tracks, RateLimit.Decided, Calls, LastResult, RateLimit.Check;
    CallsStep(otp, file, run);
    var calls, front := Calls(otp, file, run), Calls(otp, file, Front(run));
    forall k | 0 <= k < |calls| ensures exists j :: 0 <= j < |run| && run[j].input.now == calls[k].time
    {
      if k < |front| {
        assert calls[k] == front[k];
        var j :| 0 <= j < |Front(run)| && Front(run)[j].input.now == front[k].time;
        assert run[j] == Front(run)[j];
      } else {
        assert run[|run| - 1].input.now == calls[k].time;
      }
    }
  }

  lemma SameRate(t: string, u: string, attempts: nat, interval: nat, hist: seq<nat>)
    requires ViewOf(t).rate == ViewOf(u).rate && RateLimit.Tracks(t, attempts, interval, hist)
    ensures RateLimit.Tracks(u, attempts, interval, hist)
  {
    hide GetCfgValue, RateLimit.ParseLimits, RateLimit.Keeps, SecretLine, Codes;
  }

  lemma RateIsThat(t: string, u: string, o: Outcome, now: nat)
    requires LoginDone(t, u, o, now) && !o.grace && now < TWO32
    ensures ViewOf(u).rate == ViewOf(RateLimit.Check(t, now).1).rate
  {
    hide ViewOf, Moves, RateLimit.Check, Spent;
  }

  /** One login more, past the grace period, is one call more. */
  lemma RateCall(
      t: string, u: string, o: Outcome, prior: seq<nat>, calls: seq<RateLimit.Call>, attempts: nat, interval: nat,
      now: nat)
    requires Tidy(t) && LoginDone(t, u, o, now) && !o.grace && interval <= now < TWO32
    requires RateLimit.Tracks(t, attempts, interval, prior + RateLimit.Times(calls))
    requires RateLimit.Decided(prior, calls, attempts, interval) && NotAfter(prior, calls, now)
    ensures var d := RateLimit.Check(t, now).0; var more := calls + [RateLimit.Call(now, d.Admitted?)];
            && RateLimit.Tracks(u, attempts, interval, prior + RateLimit.Times(more))
            && RateLimit.Decided(prior, more, attempts, interval) && !d.Unlimited?
  {
    hide *;
    var hist := prior + RateLimit.Times(calls);
    var (d, t') := RateLimit.Check(t, now);
    var c := RateLimit.Call(now, d.Admitted?);
    SortedCalls(prior, calls, now, attempts, interval);
    RateLimit.CheckTracks(t, attempts, interval, hist, now);
    DecidedAppend(prior, calls, c, attempts, interval);
    TimesAppend(calls, c);
    assert prior + (RateLimit.Times(calls) + [now]) == hist + [now];
    RateIsThat(t, u, o, now);
    SameRate(t', u, attempts, interval, hist + [now]);
  }

  /** The last login of a run and the rate limit. */
  lemma RateStep(otp: Coder, file: string, run: seq<Try>, prior: seq<nat>, attempts: nat, interval: nat)
    requires run != [] && Tidy(file) && SaneRun(otp, file, run) && InOrder(run) && Last(run).input.now >= interval
    requires RateTracked(otp, file, Front(run), prior, attempts, interval)
    requires forall j :: 0 <= j < |prior| ==> prior[j] <= Last(run).input.now
    ensures RateTracked(otp, file, run, prior, attempts, interval)
    ensures !LastResult(otp, file, run).grace ==>
              !RateLimit.Check(FileAfter(otp, file, Front(run)), Last(run).input.now).0.Unlimited?
  {
    hide Tidy, FileAfter, LastResult, Calls, RateLimit.Check, LoginDone, RateLimit.Tracks, RateLimit.Decided, NotAfter,
         InOrder, RateLimit.Times, NoOverflow, Uses;
    LastMoves(otp, file, run);
    CallsBefore(otp, file, run, prior, attempts, interval);
    CallsFromRun(otp, file, run, prior, attempts, interval);
    CallsStep(otp, file, run);
    var t, u := FileAfter(otp, file, Front(run)), FileAfter(otp, file, run);
    var now := Last(run).input.now;
    if LastResult(otp, file, run).grace {
      GraceSame(t, u, LastResult(otp, file, run), now);
    } else {
      RateCall(t, u, LastResult(otp, file, run), prior, Calls(otp, file, Front(run)), attempts, interval, now);
    }
  }

  lemma GraceSame(t: string, u: string, o: Outcome, now: nat)
    requires LoginDone(t, u, o, now) && o.grace
    ensures u == t
  {
    hide Moves, ViewOf, RateLimit.Check, Spent;
  }

  /** No time of a history is after this one. */
  predicate NotAfter(prior: seq<nat>, calls: seq<RateLimit.Call>, now: nat)
  {
    && (forall j :: 0 <= j < |prior| ==> prior[j] <= now)
    && (forall k :: 0 <= k < |calls| ==> calls[k].time <= now)
  }

  lemma SortedCalls(prior: seq<nat>, calls: seq<RateLimit.Call>, now: nat, attempts: nat, interval: nat)
    requires RateLimit.Decided(prior, calls, attempts, interval) && NotAfter(prior, calls, now)
    ensures RateLimit.Sorted(prior + RateLimit.Times(calls) + [now])
  {
    hide RateLimit.Allowed, RateLimit.Times, RateLimit.Sorted;
    var h := prior + RateLimit.Times(calls);
    forall i | 0 <= i < |h| ensures h[i] <= now {
      if i >= |prior| { assert h[i] == calls[i - |prior|].time; }
    }
    SortedAppend(h, now);
  }

  lemma SortedAppend(h: seq<nat>, now: nat)
    requires RateLimit.Sorted(h) && forall i :: 0 <= i < |h| ==> h[i] <= now
    ensures RateLimit.Sorted(h + [now])
  {
  }

  /** The times a file had before a run are in order, and none is after its beginning; and the clock
      has run for as long as the interval. */
  predicate Prior(prior: seq<nat>, interval: nat, begin: nat)
  {
    RateLimit.Sorted(prior) && interval <= begin && forall j :: 0 <= j < |prior| ==> prior[j] <= begin
  }

  /** Every login by a code was a call the rate limit admitted. */
  lemma {:induction false} RateRun(
      otp: Coder, file: string, run: seq<Try>, prior: seq<nat>, attempts: nat, interval: nat, begin: nat, x: nat,
      y: nat)
    requires Tidy(file) && SaneRun(otp, file, run) && InOrder(run)
    requires RateLimit.Tracks(file, attempts, interval, prior) && Prior(prior, interval, begin)
    requires forall k :: 0 <= k < |run| ==> run[k].input.now >= begin
    ensures RateTracked(otp, file, run, prior, attempts, interval)
    ensures SuccessesIn(otp, file, run, x, y) <= RateLimit.AdmittedIn(Calls(otp, file, run), x, y)
  {
    hide Tidy, FileAfter, LastResult, Calls, RateLimit.Check, Moves, ViewOf, RateLimit.Tracks, InOrder, RateTracked,
         Spent, RateLimit.AdmittedIn, SuccessesIn, NoOverflow;
    if run == [] {
      RateStarts(otp, file, prior, attempts, interval, x, y);
    } else {
      OrderedFront(run);
      assert forall k :: 0 <= k < |run| - 1 ==> Front(run)[k] == run[k];
      RateRun(otp, file, Front(run), prior, attempts, interval, begin, x, y);
      RateStep(otp, file, run, prior, attempts, interval);
      LastMoves(otp, file, run);
      CallsStep(otp, file, run);
      SuccessesStep(otp, file, run, x, y);
      var now := Last(run).input.now;
      var c := RateLimit.Call(now, RateLimit.Check(FileAfter(otp, file, Front(run)), now).0.Admitted?);
      AdmittedStep(Calls(otp, file, Front(run)), c, x, y);
    }
  }

  lemma RateStarts(otp: Coder, file: string, prior: seq<nat>, attempts: nat, interval: nat, x: nat, y: nat)
    requires RateLimit.Tracks(file, attempts, interval, prior) && RateLimit.Sorted(prior)
    ensures RateTracked(otp, file, [], prior, attempts, interval) && SuccessesIn(otp, file, [], x, y) == 0
  {
    hide RateLimit.Tracks, RateLimit.Sorted;
    assert prior + [] == prior;
  }

  lemma SuccessesStep(otp: Coder, file: string, run: seq<Try>, x: nat, y: nat)
    requires run != []
    ensures var o := LastResult(otp, file, run);
            SuccessesIn(otp, file, run, x, y) == SuccessesIn(otp, file, Front(run), x, y)
              + if o.success && !o.grace && x <= Last(run).input.now <= y then 1 else 0
  {
    hide LastResult;
  }

  lemma AdmittedStep(calls: seq<RateLimit.Call>, c: RateLimit.Call, x: nat, y: nat)
    ensures RateLimit.AdmittedIn(calls + [c], x, y)
         == RateLimit.AdmittedIn(calls, x, y) + if c.admitted && x <= c.time <= y then 1 else 0
  {
    assert (calls + [c])[..|calls|] == calls;
  }

  /** From a file with a rate limit, whatever times it holds in order: in no window as long as the
      interval do codes let in more logins of the run than the limit, in whatever way they went. */
  lemma RateLimitHolds(
      otp: Coder, file: string, run: seq<Try>, prior: seq<nat>, attempts: nat, interval: nat, begin: nat, x: nat)
    requires Tidy(file) && SaneRun(otp, file, run) && InOrder(run)
    requires RateLimit.Tracks(file, attempts, interval, prior) && Prior(prior, interval, begin)
    requires forall k :: 0 <= k < |run| ==> run[k].input.now >= begin
    ensures SuccessesIn(otp, file, run, x, x + interval) <= attempts
  {
    hide Tidy, SaneRun, InOrder, RateLimit.Tracks, Calls, SuccessesIn, RateLimit.AdmittedIn, RateLimit.Decided,
         FileAfter, Prior;
    RateRun(otp, file, run, prior, attempts, interval, begin, x, x + interval);
    RateLimit.NeverMoreThanTheLimit(prior, Calls(otp, file, run), attempts, interval, x);
  }

  /** Any valid option stands for the times it lists. */
  lemma ListIsPrior(t: string)
    requires GetCfgValue(t, RateLimit.KEY).Some? && RateLimit.ParseLimits(GetCfgValue(t, RateLimit.KEY).value).Some?
    ensures var l := RateLimit.ParseLimits(GetCfgValue(t, RateLimit.KEY).value).value;
            RateLimit.Tracks(t, l.attempts, l.interval, l.stamps)
  {
    hide GetCfgValue, RateLimit.ParseLimits;
  }
}

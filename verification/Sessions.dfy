/** Any number of logins at once. A session reads the file, decides on what it read, and replaces
    the file only if that is still the version it has read; otherwise it is refused. */
module Sessions {
  import opened CText
  import opened StateText
  import opened Scratch
  import opened StateInvariant
  import opened Options
  import opened Checks
  import opened Login
  import opened Effects
  import opened Runs
  import RateLimit
  import Reuse

  /** Where a session stands. The stamp is what fstat said of the version it has read. */
  datatype Session =
    | Idle
    | Opened(stamp: nat, read: string)
    | Decided(stamp: nat, read: string, what: Try, result: Outcome)
    | Done(success: bool)

  /** A login that succeeded, and when. */
  datatype Win = Win(time: nat, result: Outcome)

  /** The file and its version; the clock; the sessions; the logins whose files were written, and
      those that succeeded. */
  datatype System = System(
    file: string, stamp: nat, clock: nat, sessions: seq<Session>, log: seq<Try>, wins: seq<Win>)

  /** Time passes; a session opens the file, decides, and finishes; writing may fail for reasons of
      its own. */
  datatype Event = Tick | Open(i: nat) | Decide(i: nat, params: Params, input: Input) | Finish(i: nat) | Fail(i: nat)

  function NewSystem(file: string, clock: nat, n: nat): System
  {
    System(file, 0, clock, seq(n, i => Idle), [], [])
  }

  function Put(s: System, i: nat, x: Session): System
    requires i < |s.sessions|
  {
    s.(sessions := s.sessions[i := x])
  }

  function Credited(s: System, d: Session): seq<Win>
    requires d.Decided?
  {
    if d.result.success then s.wins + [Win(d.what.input.now, d.result)] else s.wins
  }

  /** write_file_contents, with the check of the version and the rename as one step, and the end of
      google_authenticator without allow_readonly. */
  function Write(s: System, i: nat): System
    requires i < |s.sessions| && s.sessions[i].Decided?
  {
    var d := s.sessions[i];
    if d.result.write.None? then Put(s, i, Done(d.result.success)).(wins := Credited(s, d))
    else if d.stamp != s.stamp then Put(s, i, Done(false))
    else
      Put(s, i, Done(d.result.success)).(
        file := d.result.write.value, stamp := s.stamp + 1, log := s.log + [d.what], wins := Credited(s, d))
  }

  /** One event; those that are not possible change nothing. */
  function Apply(otp: Coder, s: System, e: Event): System
  {
    match e
    case Tick => s.(clock := s.clock + 1)
    case Open(i) => if i < |s.sessions| && s.sessions[i].Idle? then Put(s, i, Opened(s.stamp, s.file)) else s
    case Decide(i, params, input) =>
      if i < |s.sessions| && s.sessions[i].Opened? && input.now == s.clock && Sane(input, s.sessions[i].read) then
        var o := s.sessions[i];
        var what := Try(params, input);
        Put(s, i, Decided(o.stamp, o.read, what, Result(otp, o.read, what)))
      else s
    case Finish(i) => if i < |s.sessions| && s.sessions[i].Decided? then Write(s, i) else s
    case Fail(i) => if i < |s.sessions| && s.sessions[i].Decided? then Put(s, i, Done(false)) else s
  }

  function Execute(otp: Coder, s: System, events: seq<Event>): System
  {
    if events == [] then s else Apply(otp, Execute(otp, s, events[..|events| - 1]), events[|events| - 1])
  }

  // ---- the serial chain -----------------------------------------------------------------------

  /** How many successes are due to the same thing. */
  function Won(wins: seq<Win>, via: Via): nat
  {
    if wins == [] then 0
    else Won(wins[..|wins| - 1], via) + if wins[|wins| - 1].result.verdict == Accepted(via) then 1 else 0
  }

  /** How many successes by a code fall in [x, y]. */
  function WonIn(wins: seq<Win>, x: nat, y: nat): nat
  {
    if wins == [] then 0
    else
      var w := wins[|wins| - 1];
      WonIn(wins[..|wins| - 1], x, y) + if !w.result.grace && x <= w.time <= y then 1 else 0
  }

  /** What a session has read is the file after some of the logged logins; what it has decided is
      the login on that file, at a time after all of those. */
  predicate SessionFits(otp: Coder, file: string, s: System, x: Session)
  {
    match x
    case Opened(stamp, read) => stamp <= |s.log| && read == FileAfter(otp, file, s.log[..stamp])
    case Decided(stamp, read, what, result) =>
      && stamp <= |s.log| && read == FileAfter(otp, file, s.log[..stamp])
      && Sane(what.input, read) && result == Result(otp, read, what)
      && what.input.now <= s.clock
      && forall k :: 0 <= k < stamp ==> s.log[k].input.now <= what.input.now
    case _ => true
  }

  /** The log is a run from the first file, and its last file is the one on disk. */
  predicate Chain(otp: Coder, file: string, s: System)
  {
    && s.stamp == |s.log|
    && s.file == FileAfter(otp, file, s.log)
    && SaneRun(otp, file, s.log) && InOrder(s.log)
    && (forall k :: 0 <= k < |s.log| ==> s.log[k].input.now <= s.clock)
    && (forall i :: 0 <= i < |s.sessions| ==> SessionFits(otp, file, s, s.sessions[i]))
  }

  lemma ChainStarts(otp: Coder, file: string, clock: nat, n: nat)
    ensures Chain(otp, file, NewSystem(file, clock, n))
  {
  }

  /** A session that is not touched fits the system as it is after an event. */
  lemma StillFits(otp: Coder, file: string, s: System, s': System, x: Session)
    requires SessionFits(otp, file, s, x) && s.clock <= s'.clock
    requires s'.log == s.log || (|s'.log| == |s.log| + 1 && s'.log[..|s.log|] == s.log)
    ensures SessionFits(otp, file, s', x)
  {
    hide FileAfter, Result, Sane;
    if x.Opened? || x.Decided? {
      assert x.stamp <= |s.log| ==> s'.log[..x.stamp] == s.log[..x.stamp];
    }
  }

  lemma OthersFit(otp: Coder, file: string, s: System, s': System, i: nat, x: Session)
    requires i < |s.sessions| && Chain(otp, file, s) && s.clock <= s'.clock
    requires s'.log == s.log || (|s'.log| == |s.log| + 1 && s'.log[..|s.log|] == s.log)
    requires s'.sessions == s.sessions[i := x] && SessionFits(otp, file, s', x)
    ensures forall j :: 0 <= j < |s'.sessions| ==> SessionFits(otp, file, s', s'.sessions[j])
  {
    hide SessionFits, FileAfter, SaneRun, InOrder;
    forall j | 0 <= j < |s'.sessions| ensures SessionFits(otp, file, s', s'.sessions[j])
    {
      if j != i { StillFits(otp, file, s, s', s.sessions[j]); }
    }
  }

  /** A login that is written joins the chain: it was decided on the very file it replaces. */
  lemma Appended(otp: Coder, file: string, s: System, i: nat)
    requires Chain(otp, file, s) && i < |s.sessions| && s.sessions[i].Decided?
    requires s.sessions[i].stamp == s.stamp
    ensures var log := s.log + [s.sessions[i].what];
            && SaneRun(otp, file, log) && InOrder(log) && Front(log) == s.log && Last(log) == s.sessions[i].what
            && FileAfter(otp, file, log) == NewFile(s.sessions[i].result, s.file)
            && LastResult(otp, file, log) == s.sessions[i].result
            && forall k :: 0 <= k < |log| ==> log[k].input.now <= s.clock
  {
    hide Authenticate, NewFile, Sane;
    var d := s.sessions[i];
    assert SessionFits(otp, file, s, d);
    assert s.log[..s.stamp] == s.log;
    var log := s.log + [d.what];
    assert Front(log) == s.log;
  }

  lemma ChainFinish(otp: Coder, file: string, s: System, i: nat)
    requires Chain(otp, file, s) && i < |s.sessions| && s.sessions[i].Decided?
    ensures Chain(otp, file, Write(s, i))
  {
    hide FileAfter, SaneRun, InOrder, LastResult, SessionFits, Result, Sane;
    var d := s.sessions[i];
    var s' := Write(s, i);
    if d.result.write.Some? && d.stamp == s.stamp {
      Appended(otp, file, s, i);
      assert s'.log[..|s.log|] == s.log;
      FinishFits(otp, file, s, s', i, d.result.success);
    } else {
      FinishFits(otp, file, s, s', i, d.result.write.None? && d.result.success);
    }
  }

  lemma FinishFits(otp: Coder, file: string, s: System, s': System, i: nat, success: bool)
    requires i < |s.sessions| && Chain(otp, file, s) && s.clock <= s'.clock
    requires s'.log == s.log || (|s'.log| == |s.log| + 1 && s'.log[..|s.log|] == s.log)
    requires s'.sessions == s.sessions[i := Done(success)]
    ensures forall j :: 0 <= j < |s'.sessions| ==> SessionFits(otp, file, s', s'.sessions[j])
  {
    hide *;
    DoneFits(otp, file, s', success);
    OthersFit(otp, file, s, s', i, Done(success));
  }

  lemma ChainStep(otp: Coder, file: string, s: System, e: Event)
    requires Chain(otp, file, s)
    ensures Chain(otp, file, Apply(otp, s, e)) && s.clock <= Apply(otp, s, e).clock
  {
    hide FileAfter, SaneRun, InOrder, Sane, Result, Write, SessionFits;
    var s' := Apply(otp, s, e);
    match e
    case Tick =>
      forall j | 0 <= j < |s'.sessions| ensures SessionFits(otp, file, s', s'.sessions[j]) {
        StillFits(otp, file, s, s', s.sessions[j]);
      }
    case Open(i) =>
      if i < |s.sessions| && s.sessions[i].Idle? {
        OpenFits(otp, file, s, s');
        OthersFit(otp, file, s, s', i, Opened(s.stamp, s.file));
      }
    case Decide(i, params, input) =>
      if i < |s.sessions| && s.sessions[i].Opened? && input.now == s.clock && Sane(input, s.sessions[i].read) {
        DecideFits(otp, file, s, s', i, Try(params, input));
        OthersFit(otp, file, s, s', i, s'.sessions[i]);
      }
    case Finish(i) =>
      if i < |s.sessions| && s.sessions[i].Decided? { ChainFinish(otp, file, s, i); WriteClock(s, i); }
    case Fail(i) =>
      if i < |s.sessions| && s.sessions[i].Decided? {
        DoneFits(otp, file, s', false);
        OthersFit(otp, file, s, s', i, Done(false));
      }
  }

  lemma WriteClock(s: System, i: nat)
    requires i < |s.sessions| && s.sessions[i].Decided?
    ensures Write(s, i).clock == s.clock
  {
  }

  lemma DoneFits(otp: Coder, file: string, s: System, success: bool)
    ensures SessionFits(otp, file, s, Done(success))
  {
  }

  lemma OpenFits(otp: Coder, file: string, s: System, s': System)
    requires Chain(otp, file, s) && s'.log == s.log
    ensures SessionFits(otp, file, s', Opened(s.stamp, s.file))
  {
    hide FileAfter, SaneRun, InOrder, Sane, Result;
    assert s.log[..|s.log|] == s.log;
  }

  lemma DecideFits(otp: Coder, file: string, s: System, s': System, i: nat, what: Try)
    requires Chain(otp, file, s) && i < |s.sessions| && s.sessions[i].Opened? && what.input.now == s.clock == s'.clock
    requires s'.log == s.log && Sane(what.input, s.sessions[i].read)
    ensures var o := s.sessions[i];
            SessionFits(otp, file, s', Decided(o.stamp, o.read, what, Result(otp, o.read, what)))
  {
    hide FileAfter, SaneRun, InOrder, Sane, Result;
    assert SessionFits(otp, file, s, s.sessions[i]);
  }

  /** However the sessions interleave, the files that are written form a serial chain: each is one
      login's result on the file just before it. */
  lemma {:induction false} SerialChain(otp: Coder, file: string, clock: nat, n: nat, events: seq<Event>)
    ensures Chain(otp, file, Execute(otp, NewSystem(file, clock, n), events))
  {
    hide Chain, Apply;
    if events == [] {
      ChainStarts(otp, file, clock, n);
    } else {
      SerialChain(otp, file, clock, n, events[..|events| - 1]);
      ChainStep(otp, file, Execute(otp, NewSystem(file, clock, n), events[..|events| - 1]), events[|events| - 1]);
    }
  }

  // ---- what a code can do across all sessions -------------------------------------------------

  lemma {:induction false} SanePrefix(otp: Coder, file: string, run: seq<Try>, k: nat)
    requires SaneRun(otp, file, run) && k <= |run|
    ensures SaneRun(otp, file, run[..k])
    ensures InOrder(run) ==> InOrder(run[..k])
  {
    hide FileAfter, Sane;
    if k == |run| {
      assert run[..k] == run;
    } else {
      SanePrefix(otp, file, Front(run), k);
      assert Front(run)[..k] == run[..k];
    }
  }

  /** A file keeps its list of used steps, or has none. */
  lemma {:induction false} UsedStays(otp: Coder, file: string, run: seq<Try>)
    requires Tidy(file) && SaneRun(otp, file, run)
    ensures ViewOf(FileAfter(otp, file, run)).used.Some? == ViewOf(file).used.Some?
  {
    hide Tidy, SaneRun, FileAfter, LastResult, ViewOf, RateLimit.Check, CodesMove, CounterMoves, WindowSize,
         Reuse.Used, Reuse.Near, Reuse.InWindow;
    if run == [] {
      RunStarts(otp, file, ByCounter(0));
    } else {
      LastMoves(otp, file, run);
      UsedStays(otp, file, Front(run));
      UsedEntry(FileAfter(otp, file, run));
      UsedEntry(FileAfter(otp, file, Front(run)));
    }
  }

  /** Everything but time steps in a file that does not list them. */
  predicate Claimed(file: string, via: Via) { via.ByStep? ==> ViewOf(file).used.Some? }

  /** A session's login on the file it has read. */
  lemma SessionDone(otp: Coder, file: string, s: System, i: nat)
    requires Tidy(file) && Chain(otp, file, s) && i < |s.sessions| && s.sessions[i].Decided?
    ensures var d := s.sessions[i];
            && d.stamp <= |s.log| && d.read == FileAfter(otp, file, s.log[..d.stamp])
            && SaneRun(otp, file, s.log[..d.stamp]) && InOrder(s.log[..d.stamp]) && Tidy(d.read)
            && Sane(d.what.input, d.read) && d.result == Result(otp, d.read, d.what)
            && LoginDone(d.read, NewFile(d.result, d.read), d.result, d.what.input.now)
            && (ViewOf(d.read).used.Some? <==> ViewOf(file).used.Some?)
  {
    hide Tidy, FileAfter, SaneRun, InOrder, Authenticate, LoginDone, NewFile, ViewOf, Sane;
    var d := s.sessions[i];
    assert SessionFits(otp, file, s, d);
    SanePrefix(otp, file, s.log, d.stamp);
    StaysTidy(otp, file, s.log[..d.stamp]);
    UsedStays(otp, file, s.log[..d.stamp]);
    LoginMoves(d.what.params, d.what.input, otp, d.read);
  }

  lemma WonAppend(wins: seq<Win>, w: Win, via: Via)
    ensures Won(wins + [w], via) == Won(wins, via) + if w.result.verdict == Accepted(via) then 1 else 0
  {
    assert (wins + [w])[..|wins|] == wins;
  }

  /** A success by a code that is used up is the success of a login in the log. */
  lemma CountedFinish(otp: Coder, file: string, s: System, i: nat, via: Via)
    requires Tidy(file) && Chain(otp, file, s) && i < |s.sessions| && s.sessions[i].Decided? && Claimed(file, via)
    requires Won(s.wins, via) <= Uses(otp, file, s.log, via)
    ensures Won(Write(s, i).wins, via) <= Uses(otp, file, Write(s, i).log, via)
  {
    hide Tidy, FileAfter, SaneRun, InOrder, LastResult, ViewOf, RateLimit.Check, Moves, Won, Uses, Authenticate, Sane,
         Chain, NewFile;
    var d := s.sessions[i];
    SessionDone(otp, file, s, i);
    WonAppend(s.wins, Win(d.what.input.now, d.result), via);
    if d.result.write.Some? && d.stamp == s.stamp {
      Appended(otp, file, s, i);
      UsesStep(otp, file, s.log + [d.what], via);
    }
  }

  lemma {:induction false} WinsAreUses(otp: Coder, file: string, clock: nat, n: nat, events: seq<Event>, via: Via)
    requires Tidy(file) && Claimed(file, via)
    ensures var s := Execute(otp, NewSystem(file, clock, n), events);
            Won(s.wins, via) <= Uses(otp, file, s.log, via)
  {
    hide Tidy, Claimed, Chain, Won, Uses, Write, Sane, Result;
    if events == [] {
      NothingWon(otp, file, via);
    } else {
      var e := events[|events| - 1];
      WinsAreUses(otp, file, clock, n, events[..|events| - 1], via);
      SerialChain(otp, file, clock, n, events[..|events| - 1]);
      var s := Execute(otp, NewSystem(file, clock, n), events[..|events| - 1]);
      if e.Finish? && e.i < |s.sessions| && s.sessions[e.i].Decided? { CountedFinish(otp, file, s, e.i, via); }
    }
  }

  lemma NothingWon(otp: Coder, file: string, via: Via)
    ensures Won([], via) == 0 == Uses(otp, file, [], via)
  {
  }

  /** A scratch code lets in no more sessions than there are copies of it in the file. */
  lemma ScratchAcrossSessions(otp: Coder, file: string, clock: nat, n: nat, events: seq<Event>, code: int)
    requires Tidy(file)
    ensures var s := Execute(otp, NewSystem(file, clock, n), events);
            Won(s.wins, ByScratch(code)) + multiset(Codes(s.file))[code] <= multiset(Codes(file))[code]
  {
    hide Tidy, Won, Uses, Execute, Codes, FileAfter, SaneRun, InOrder;
    SerialChain(otp, file, clock, n, events);
    WinsAreUses(otp, file, clock, n, events, ByScratch(code));
    ScratchUses(otp, file, Execute(otp, NewSystem(file, clock, n), events).log, code);
  }

  /** A counter value lets in one session at most. */
  lemma CounterAcrossSessions(otp: Coder, file: string, clock: nat, n: nat, events: seq<Event>, counter: int)
    requires Tidy(file)
    ensures var s := Execute(otp, NewSystem(file, clock, n), events);
            && Won(s.wins, ByCounter(counter)) <= 1
            && (Won(s.wins, ByCounter(counter)) > 0 ==> HotpCounter(file) <= counter < HotpCounter(s.file))
  {
    hide Tidy, Won, Uses, Execute, HotpCounter, FileAfter, SaneRun, InOrder;
    SerialChain(otp, file, clock, n, events);
    WinsAreUses(otp, file, clock, n, events, ByCounter(counter));
    CounterUses(otp, file, Execute(otp, NewSystem(file, clock, n), events).log, counter);
  }

  /** With DISALLOW_REUSE a time step lets in one session at most, as long as no login sets a new
      time skew. */
  lemma StepAcrossSessions(otp: Coder, file: string, clock: nat, n: nat, events: seq<Event>, step: int)
    requires Tidy(file) && GetCfgValue(file, Reuse.KEY).Some?
    requires NoResync(otp, file, Execute(otp, NewSystem(file, clock, n), events).log)
    ensures Won(Execute(otp, NewSystem(file, clock, n), events).wins, ByStep(step)) <= 1
  {
    hide Tidy, Won, Uses, Execute, FileAfter, SaneRun, InOrder, GetCfgValue, NoResync;
    SerialChain(otp, file, clock, n, events);
    UsedEntry(file);
    WinsAreUses(otp, file, clock, n, events, ByStep(step));
    StepUsedOnce(otp, file, Execute(otp, NewSystem(file, clock, n), events).log, step);
  }

  // ---- the rate limit across sessions ---------------------------------------------------------

  /** A login that passed the rate limit and got in by a code is written down. */
  lemma AdmittedWrites(otp: Coder, file: string, x: Try)
    requires RateLimit.Check(file, ToUInt32(x.input.now)).0.Admitted?
    ensures var o := Result(otp, file, x); o.grace || o.write.Some?
  {
    hide RateLimit.Check, InGracePeriod, Modes, NewAttempt, FinalText;
  }

  /** Where the rate limit is in force it is in force in every file of the chain. */
  lemma LimitInForce(
      otp: Coder, file: string, run: seq<Try>, prior: seq<nat>, attempts: nat, interval: nat, begin: nat, now: nat)
    requires Tidy(file) && SaneRun(otp, file, run) && InOrder(run)
    requires RateLimit.Tracks(file, attempts, interval, prior) && Prior(prior, interval, begin)
    requires forall k :: 0 <= k < |run| ==> run[k].input.now >= begin
    ensures !RateLimit.Check(FileAfter(otp, file, run), now).0.Unlimited?
  {
    hide Tidy, SaneRun, InOrder, FileAfter, Calls, SuccessesIn, RateLimit.AdmittedIn, RateLimit.Decided,
         RateLimit.Times, SetCfgValue, GetCfgValue, RateLimit.ParseLimits, RateLimit.Keeps, RateLimit.Recent;
    RateRun(otp, file, run, prior, attempts, interval, begin, 0, 0);
  }

  lemma WonInAppend(wins: seq<Win>, w: Win, x: nat, y: nat)
    ensures WonIn(wins + [w], x, y) == WonIn(wins, x, y) + if !w.result.grace && x <= w.time <= y then 1 else 0
  {
    assert (wins + [w])[..|wins|] == wins;
  }

  /** No time is before the beginning. */
  predicate LateEnough(s: System, begin: nat)
  {
    && s.clock >= begin
    && (forall k :: 0 <= k < |s.log| ==> s.log[k].input.now >= begin)
    && forall i :: 0 <= i < |s.sessions| && s.sessions[i].Decided? ==> s.sessions[i].what.input.now >= begin
  }

  lemma LateFinish(s: System, i: nat, begin: nat)
    requires LateEnough(s, begin) && i < |s.sessions| && s.sessions[i].Decided?
    ensures LateEnough(Write(s, i), begin)
  {
  }

  lemma LateStep(otp: Coder, s: System, e: Event, begin: nat)
    requires LateEnough(s, begin)
    ensures LateEnough(Apply(otp, s, e), begin)
  {
    hide Write, Sane, Result;
    if e.Finish? && e.i < |s.sessions| && s.sessions[e.i].Decided? { LateFinish(s, e.i, begin); }
  }

  /** A session that gets in by a code while the rate limit is in force is in the log. */
  lemma LimitedFinish(
      otp: Coder, file: string, s: System, i: nat, prior: seq<nat>, attempts: nat, interval: nat, begin: nat, x: nat,
      y: nat)
    requires Tidy(file) && Chain(otp, file, s) && i < |s.sessions| && s.sessions[i].Decided?
    requires RateLimit.Tracks(file, attempts, interval, prior) && Prior(prior, interval, begin) && LateEnough(s, begin)
    requires WonIn(s.wins, x, y) <= SuccessesIn(otp, file, s.log, x, y)
    ensures WonIn(Write(s, i).wins, x, y) <= SuccessesIn(otp, file, Write(s, i).log, x, y)
  {
    hide Tidy, FileAfter, SaneRun, InOrder, LastResult, ViewOf, RateLimit.Check, Moves, WonIn, SuccessesIn,
         Authenticate, Sane, Chain, NewFile, RateLimit.Tracks, Spent;
    var d := s.sessions[i];
    SessionDone(otp, file, s, i);
    assert forall k :: 0 <= k < d.stamp ==> s.log[..d.stamp][k] == s.log[k];
    LimitInForce(otp, file, s.log[..d.stamp], prior, attempts, interval, begin, ToUInt32(d.what.input.now));
    if RateLimit.Check(d.read, ToUInt32(d.what.input.now)).0.Admitted? { AdmittedWrites(otp, d.read, d.what); }
    WonInAppend(s.wins, Win(d.what.input.now, d.result), x, y);
    if d.result.write.Some? && d.stamp == s.stamp {
      Appended(otp, file, s, i);
      SuccessesStep(otp, file, s.log + [d.what], x, y);
    }
  }

  lemma {:induction false} WinsAreSuccesses(
      otp: Coder, file: string, clock: nat, n: nat, events: seq<Event>, prior: seq<nat>, attempts: nat, interval: nat,
      x: nat, y: nat)
    requires Tidy(file) && RateLimit.Tracks(file, attempts, interval, prior) && Prior(prior, interval, clock)
    ensures var s := Execute(otp, NewSystem(file, clock, n), events);
            LateEnough(s, clock) && WonIn(s.wins, x, y) <= SuccessesIn(otp, file, s.log, x, y)
  {
    hide Tidy, Chain, WonIn, SuccessesIn, Write, Sane, Result, LateEnough, RateLimit.Tracks;
    if events == [] {
      NoneWonYet(otp, file, clock, n, x, y);
    } else {
      var e := events[|events| - 1];
      WinsAreSuccesses(otp, file, clock, n, events[..|events| - 1], prior, attempts, interval, x, y);
      SerialChain(otp, file, clock, n, events[..|events| - 1]);
      var s := Execute(otp, NewSystem(file, clock, n), events[..|events| - 1]);
      LateStep(otp, s, e, clock);
      if e.Finish? && e.i < |s.sessions| && s.sessions[e.i].Decided? {
        LimitedFinish(otp, file, s, e.i, prior, attempts, interval, clock, x, y);
      }
    }
  }

  lemma NoneWonYet(otp: Coder, file: string, clock: nat, n: nat, x: nat, y: nat)
    ensures LateEnough(NewSystem(file, clock, n), clock) && WonIn([], x, y) == 0 == SuccessesIn(otp, file, [], x, y)
  {
  }

  /** With a rate limit, no window as long as the interval holds more sessions let in by a code than
      the limit, however many are open at once. */
  lemma RateLimitAcrossSessions(
      otp: Coder, file: string, clock: nat, n: nat, events: seq<Event>, prior: seq<nat>, attempts: nat,
      interval: nat, x: nat)
    requires Tidy(file) && RateLimit.Tracks(file, attempts, interval, prior) && Prior(prior, interval, clock)
    ensures WonIn(Execute(otp, NewSystem(file, clock, n), events).wins, x, x + interval) <= attempts
  {
    hide Tidy, WonIn, SuccessesIn, Execute, FileAfter, SaneRun, InOrder, RateLimit.Tracks, Prior;
    var s := Execute(otp, NewSystem(file, clock, n), events);
    SerialChain(otp, file, clock, n, events);
    WinsAreSuccesses(otp, file, clock, n, events, prior, attempts, interval, x, x + interval);
    RateLimitHolds(otp, file, s.log, prior, attempts, interval, clock, x);
  }
}

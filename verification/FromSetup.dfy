/** From the setup program to any number of sessions: what the theorems come to for a file that the
    setup program has written. */
module FromSetup {
  import opened StateText
  import opened Scratch
  import opened StateInvariant
  import opened Checks
  import opened Login
  import opened Effects
  import opened Runs
  import opened Sessions
  import Setup
  import SetupReads
  import RateLimit
  import Reuse
  import Otp
  import opened LimitIff
  import FirstLogin

  /** However many sessions there are and however they interleave: an emergency code lets in no more
      of them than it was written down times, a counter value at most one. */
  lemma CodesOnce(
      key: seq<bv8>, c: Setup.Choices, otp: Coder, clock: nat, n: nat, events: seq<Event>, code: int, counter: int)
    requires |key| == Setup.KEY_BYTES && Setup.Accepted(c)
    ensures var s := Execute(otp, NewSystem(Setup.File(Setup.Letters(key), c), clock, n), events);
            && Won(s.wins, ByScratch(code)) <= multiset(c.codes)[code]
            && Won(s.wins, ByCounter(counter)) <= 1
  {
    hide *;
    var file := Setup.File(Setup.Letters(key), c);
    SetupReads.SetupReadsBack(key, c);
    SetupReads.SetupSettingsReadBack(key, c);
    ScratchAcrossSessions(otp, file, clock, n, events, code);
    CounterAcrossSessions(otp, file, clock, n, events, counter);
  }

  /** With the rate limit that was chosen, no window as long as its time holds more sessions let in by
      codes than its number. */
  lemma LimitHolds(key: seq<bv8>, c: Setup.Choices, otp: Coder, clock: nat, n: nat, events: seq<Event>, x: nat)
    requires |key| == Setup.KEY_BYTES && Setup.Accepted(c)
    requires Setup.Rate(c).Some? && clock >= 600
    ensures var (attempts, interval) := Setup.Rate(c).value;
            && attempts >= 1 && 1 <= interval <= 600
            && var s := Execute(otp, NewSystem(Setup.File(Setup.Letters(key), c), clock, n), events);
               WonIn(s.wins, x, x + interval) <= attempts
  {
    hide Setup.File, Setup.Letters, Tidy, RateLimit.Tracks, Execute, WonIn, GetCfgValue, Reuse.Used, Codes,
         Otp.SharedSecret;
    var file := Setup.File(Setup.Letters(key), c);
    SetupReads.SetupReadsBack(key, c);
    SetupReads.SetupListsReadBack(key, c);
    var (attempts, interval) := Setup.Rate(c).value;
    RateLimitAcrossSessions(otp, file, clock, n, events, [], attempts, interval, x);
  }

  /** With -d and `noskewadj` every time step lets in at most one session. */
  lemma StepsOnce(key: seq<bv8>, c: Setup.Choices, otp: Coder, clock: nat, n: nat, events: seq<Event>, step: int)
    requires |key| == Setup.KEY_BYTES && Setup.Accepted(c) && c.totp && c.disallow
    requires var s := Execute(otp, NewSystem(Setup.File(Setup.Letters(key), c), clock, n), events);
             forall k :: 0 <= k < |s.log| ==> s.log[k].params.noSkewAdj
    ensures var s := Execute(otp, NewSystem(Setup.File(Setup.Letters(key), c), clock, n), events);
            Won(s.wins, ByStep(step)) + Won(s.wins, ByResync(step)) <= 1
  {
    hide Setup.File, Setup.Letters, Tidy, RateLimit.Tracks, Execute, Won, GetCfgValue, Reuse.Used, Codes,
         Otp.SharedSecret, Uses, FileAfter, SaneRun, InOrder, NoResync;
    var file := Setup.File(Setup.Letters(key), c);
    SetupReads.SetupReadsBack(key, c);
    SetupReads.SetupListsReadBack(key, c);
    var s := Execute(otp, NewSystem(file, clock, n), events);
    SerialChain(otp, file, clock, n, events);
    NoSkewAdjNoResync(otp, file, s.log);
    StepAcrossSessions(otp, file, clock, n, events, step);
    WinsAreUses(otp, file, clock, n, events, ByResync(step));
    NoResyncUses(otp, file, s.log, step);
  }

  // ---- without a grace period, all successes --------------------------------------------------------

  /** How many successes of whatever kind fall in [x, y]. */
  function WonAtAllIn(wins: seq<Win>, x: nat, y: nat): nat
  {
    if wins == [] then 0
    else WonAtAllIn(wins[..|wins| - 1], x, y) + if x <= wins[|wins| - 1].time <= y then 1 else 0
  }

  predicate NoGraceEvents(events: seq<Event>)
  {
    forall k :: 0 <= k < |events| && events[k].Decide? ==> events[k].params.gracePeriod == 0
  }

  /** No session has a grace period, and none was let in by one. */
  predicate NoGraceIn(s: System)
  {
    && (forall k :: 0 <= k < |s.log| ==> s.log[k].params.gracePeriod == 0)
    && (forall i :: 0 <= i < |s.sessions| && s.sessions[i].Decided? ==> s.sessions[i].what.params.gracePeriod == 0)
    && (forall k :: 0 <= k < |s.wins| ==> !s.wins[k].result.grace)
  }

  lemma NoGraceFinish(s: System, i: nat)
    requires NoGraceIn(s) && i < |s.sessions| && s.sessions[i].Decided? && !s.sessions[i].result.grace
    ensures NoGraceIn(Write(s, i))
  {
  }

  lemma NoGraceStep(otp: Coder, file: string, s: System, e: Event)
    requires Tidy(file) && NoHosts(file) && Chain(otp, file, s) && NoGraceIn(s)
    requires e.Decide? ==> e.params.gracePeriod == 0
    ensures NoGraceIn(Apply(otp, s, e))
  {
    hide Tidy, NoHosts, FileAfter, SaneRun, InOrder, Authenticate, Sane, Chain, Write, NewFile, LoginDone, ViewOf,
         SessionFits;
    if e.Finish? && e.i < |s.sessions| && s.sessions[e.i].Decided? {
      var d := s.sessions[e.i];
      SessionDone(otp, file, s, e.i);
      var before := s.log[..d.stamp];
      assert forall k :: 0 <= k < |before| ==> before[k] == s.log[k];
      NoGraceRun(otp, file, before, 0, 0);
      NoGraceLogin(otp, d.read, d.what);
      NoGraceFinish(s, e.i);
    }
  }

  lemma {:induction false} NoGraceThroughout(otp: Coder, file: string, clock: nat, n: nat, events: seq<Event>)
    requires Tidy(file) && NoHosts(file) && NoGraceEvents(events)
    ensures NoGraceIn(Execute(otp, NewSystem(file, clock, n), events))
  {
    hide Tidy, NoHosts, Chain, NoGraceIn, Apply;
    if events == [] {
      NoGraceYet(file, clock, n);
    } else {
      var front := events[..|events| - 1];
      assert forall k :: 0 <= k < |front| ==> front[k] == events[k];
      NoGraceThroughout(otp, file, clock, n, front);
      SerialChain(otp, file, clock, n, front);
      NoGraceStep(otp, file, Execute(otp, NewSystem(file, clock, n), front), events[|events| - 1]);
    }
  }

  lemma NoGraceYet(file: string, clock: nat, n: nat)
    ensures NoGraceIn(NewSystem(file, clock, n))
  {
  }

  lemma {:induction false} AllByCodes(wins: seq<Win>, x: nat, y: nat)
    requires forall k :: 0 <= k < |wins| ==> !wins[k].result.grace
    ensures WonAtAllIn(wins, x, y) == WonIn(wins, x, y)
  {
    if wins != [] { AllByCodes(wins[..|wins| - 1], x, y); }
  }

  /** With the rate limit that was chosen, and no grace period, no window as long as its time holds more
      sessions that succeed, in whatever way, than its number. */
  lemma LimitHoldsForAll(
      key: seq<bv8>, c: Setup.Choices, otp: Coder, clock: nat, n: nat, events: seq<Event>, x: nat)
    requires |key| == Setup.KEY_BYTES && Setup.Accepted(c)
    requires Setup.Rate(c).Some? && clock >= 600 && NoGraceEvents(events)
    ensures var (attempts, interval) := Setup.Rate(c).value;
            && attempts >= 1 && 1 <= interval <= 600
            && var s := Execute(otp, NewSystem(Setup.File(Setup.Letters(key), c), clock, n), events);
               WonAtAllIn(s.wins, x, x + interval) <= attempts
  {
    hide *;
    var file := Setup.File(Setup.Letters(key), c);
    LimitHolds(key, c, otp, clock, n, events, x);
    SetupReads.SetupReadsBack(key, c);
    FirstLogin.NoHostYet(key, c);
    FirstLogin.SetupIs(key, c);
    NoHostsIs(file);
    NoGraceThroughout(otp, file, clock, n, events);
    var s := Execute(otp, NewSystem(file, clock, n), events);
    NoGraceIs(s);
    AllByCodes(s.wins, x, x + Setup.Rate(c).value.1);
  }

  lemma NoGraceIs(s: System)
    requires NoGraceIn(s)
    ensures forall k :: 0 <= k < |s.wins| ==> !s.wins[k].result.grace
  {
  }
}

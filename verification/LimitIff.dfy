/** When RATE_LIMIT keeps its promise: exactly when there is no grace period. */
module LimitIff {
  import opened CText
  import opened StateText
  import opened StateInvariant
  import opened Options
  import opened Entry
  import opened Checks
  import opened Login
  import opened Effects
  import opened Runs
  import opened FirstLogin
  import opened Grace
  import LastLogins
  import RateLimit
  import Setup
  import SetupReads
  import Reuse
  import Otp

  /** How many logins at times in [x, y] succeeded, in whatever way. */
  function AllSuccessesIn(otp: Coder, file: string, run: seq<Try>, x: nat, y: nat): nat
  {
    if run == [] then 0
    else
      AllSuccessesIn(otp, file, Front(run), x, y)
      + if LastResult(otp, file, run).success && x <= Last(run).input.now <= y then 1 else 0
  }

  /** The same for the window that starts at `x`. */
  function WindowSuccesses(otp: Coder, file: string, run: seq<Try>, x: nat, interval: nat): nat
  {
    AllSuccessesIn(otp, file, run, x, x + interval)
  }

  /** In every run of the module with these arguments from this file, no window as long as the interval
      holds more successes than the limit. */
  ghost predicate LimitKept(p: Params, otp: Coder, file: string, attempts: nat, interval: nat)
  {
    forall run: seq<Try>, x: nat ::
      SaneRun(otp, file, run) && InOrder(run) && AllWith(run, p) && NoneBefore(run, interval)
      ==> WindowSuccesses(otp, file, run, x, interval) <= attempts
  }

  predicate NoneBefore(run: seq<Try>, begin: nat) { forall k :: 0 <= k < |run| ==> run[k].input.now >= begin }

  // ---- without a grace period ---------------------------------------------------------------------

  /** A file that has no host on record. */
  ghost predicate NoHosts(t: string) { forall host :: LastLogins.LastTime(t, host, 0) == 0 }

  lemma NoHostsStay(t: string, u: string)
    requires NoHosts(t) && SameHosts(t, u)
    ensures NoHosts(u)
  {
    hide LastLogins.LastTime, SameHosts;
    forall host ensures LastLogins.LastTime(u, host, 0) == 0 { LastTimeStays(t, u, host, 0); }
  }

  /** Without a grace period none is recorded and none is found. */
  lemma NoGraceLogin(otp: Coder, file: string, x: Try)
    requires Tidy(file) && Sane(x.input, file) && NoHosts(file) && x.params.gracePeriod == 0
    ensures NoHosts(Next(otp, file, x)) && !Result(otp, file, x).grace
  {
    hide *;
    NoRecord(x.params, x.input, Result(otp, file, x));
    ResultIs(otp, file, x);
    SlotsLeft(x.params, x.input, otp, file);
    NoHostsStay(file, Next(otp, file, x));
    NowFits(x.input, file);
    if x.input.host.Some? {
      NoHostIs(file, x.input.host.value);
      GraceNext(x.params, x.input, otp, file, x.input.host.value);
    } else {
      GraceIs(x.params, x.input, otp, file);
    }
  }

  lemma NoRecord(p: Params, i: Input, o: Outcome)
    requires p.gracePeriod == 0
    ensures !Records(p, i, o)
  {
  }

  lemma NoHostIs(t: string, host: string)
    requires NoHosts(t)
    ensures LastLogins.LastTime(t, host, 0) == 0
  {
    hide LastLogins.LastTime;
  }

  lemma {:induction false} NoGraceRun(otp: Coder, file: string, run: seq<Try>, x: nat, y: nat)
    requires Tidy(file) && SaneRun(otp, file, run) && NoHosts(file)
    requires forall k :: 0 <= k < |run| ==> run[k].params.gracePeriod == 0
    ensures NoHosts(FileAfter(otp, file, run))
    ensures AllSuccessesIn(otp, file, run, x, y) == SuccessesIn(otp, file, run, x, y)
    ensures run != [] ==> !LastResult(otp, file, run).grace
  {
    hide Tidy, Sane, NoHosts, Next, Result;
    if run != [] {
      assert forall k :: 0 <= k < |run| - 1 ==> Front(run)[k] == run[k];
      NoGraceRun(otp, file, Front(run), x, y);
      StaysTidy(otp, file, Front(run));
      NoGraceLogin(otp, FileAfter(otp, file, Front(run)), Last(run));
    }
  }

  lemma KeptWithoutGrace(p: Params, otp: Coder, file: string, prior: seq<nat>, attempts: nat, interval: nat)
    requires p.gracePeriod == 0 && Tidy(file) && NoHosts(file)
    requires RateLimit.Tracks(file, attempts, interval, prior) && Prior(prior, interval, interval)
    ensures LimitKept(p, otp, file, attempts, interval)
  {
    hide *;
    forall run: seq<Try>, x: nat |
      SaneRun(otp, file, run) && InOrder(run) && AllWith(run, p) && NoneBefore(run, interval)
      ensures WindowSuccesses(otp, file, run, x, interval) <= attempts
    {
      KeptInRun(p, otp, file, run, prior, attempts, interval, x);
    }
    KeptFrom(p, otp, file, attempts, interval);
  }

  lemma KeptInRun(
      p: Params, otp: Coder, file: string, run: seq<Try>, prior: seq<nat>, attempts: nat, interval: nat, x: nat)
    requires p.gracePeriod == 0 && Tidy(file) && NoHosts(file)
    requires RateLimit.Tracks(file, attempts, interval, prior) && Prior(prior, interval, interval)
    requires SaneRun(otp, file, run) && InOrder(run) && AllWith(run, p) && NoneBefore(run, interval)
    ensures WindowSuccesses(otp, file, run, x, interval) <= attempts
  {
    hide Tidy, SaneRun, InOrder, NoHosts, RateLimit.Tracks, AllSuccessesIn, SuccessesIn, FileAfter, Prior, LastResult;
    NoGraceRun(otp, file, run, x, x + interval);
    RateLimitHolds(otp, file, run, prior, attempts, interval, interval, x);
  }

  lemma KeptFrom(p: Params, otp: Coder, file: string, attempts: nat, interval: nat)
    requires forall run: seq<Try>, x: nat ::
               SaneRun(otp, file, run) && InOrder(run) && AllWith(run, p) && NoneBefore(run, interval)
               ==> WindowSuccesses(otp, file, run, x, interval) <= attempts
    ensures LimitKept(p, otp, file, attempts, interval)
  {
    hide SaneRun, InOrder, AllWith, NoneBefore, WindowSuccesses;
  }

  // ---- with one -----------------------------------------------------------------------------------

  const HOST := "h"
  const NOON: nat := 1_000_000

  /** A login with the right code, from a known host. */
  function Guest(p: Params, code: nat): Try
  {
    Try(p, Input(Some(LastDigits(code, 6)), Some(LastDigits(code, 6)), None, Some(HOST), NOON, true))
  }

  lemma GuestIs(p: Params, code: nat)
    ensures var x := Guest(p, code);
            && x.params == p && x.input.host == Some(HOST) && x.input.now == NOON && x.input.itemSet
            && FirstTyped(p, x.input) == Some(LastDigits(code, 6))
  {
    hide LastDigits;
  }

  lemma HostIsPlain()
    ensures LastLogins.PlainHost(HOST) && All(NotEol, HOST)
    ensures LastLogins.Stored(HOST, NOON) == NOON && LastLogins.Roomy(HOST)
    ensures 0 < NOON < TWO31 - 2000
  {
    LastLogins.HostFits(HOST, NOON);
    LastLogins.StoredIs(HOST, NOON);
  }

  /** The setup program's choices and noon make a first login possible. */
  lemma NoonIsLate(key: seq<bv8>, c: Setup.Choices, p: Params, code: nat)
    requires |key| == Setup.KEY_BYTES && Setup.Accepted(c)
    ensures Started(c, NOON) && Sane(Guest(p, code).input, SetupFile(key, c))
  {
    hide Tidy, StepSize, TimeSkew, HotpCounter, WindowSize, GetCfgValue, Guest, All, Setup.File, Setup.Letters;
    HostIsPlain();
    GuestIs(p, code);
    SetupReads.SetupSettingsReadBack(key, c);
    var d := Step(c);
    assert 1 <= d <= 60;
    NoonSteps(d);
  }

  lemma NoonSteps(d: nat)
    requires 1 <= d <= 60
    ensures 1 <= NOON / d <= NOON
  {
    DivAtMost(NOON, d);
    DivAtLeast(NOON, d);
  }

  lemma DivAtLeast(n: nat, d: nat)
    requires 0 < d <= n
    ensures n / d >= 1
  {
  }

  /** The file after that login: nothing is close to overflow, and the host is on record. */
  lemma AfterGuest(key: seq<bv8>, c: Setup.Choices, p: Params, otp: Coder, code: nat)
    requires |key| == Setup.KEY_BYTES && Setup.Accepted(c) && p.gracePeriod > 0 && code < CODE_MODULUS
    requires otp(key)(FirstNumber(c, NOON)) == code
    ensures var file, x := SetupFile(key, c), Guest(p, code);
            var u := Next(otp, file, x);
            && Result(otp, file, x).success && !Result(otp, file, x).grace && Sane(x.input, file)
            && Tidy(u) && Sane(x.input, u) && LastLogins.LastTime(u, HOST, 0) == NOON
  {
    hide *;
    var file, x := SetupFile(key, c), Guest(p, code);
    SetupIs(key, c);
    SetupReads.SetupReadsBack(key, c);
    SetupReads.SetupSettingsReadBack(key, c);
    NoonIsLate(key, c, p, code);
    GuestIs(p, code);
    HostIsPlain();
    ModulusIs();
    FirstLoginSucceeds(key, c, otp, p, x.input);
    ResultIs(otp, file, x);
    NoHostYet(key, c);
    FreshSlots(file);
    RecordsIs(p, x.input, Result(otp, file, x));
    LoginRecorded(p, x.input, otp, file, HOST);
    LastLogins.RemembersIff(file, HOST, NOON);
    LoginMoves(p, x.input, otp, file);
    DoneIs(file, Next(otp, file, x), Result(otp, file, x), NOON);
    SaneAfter(file, Next(otp, file, x), Result(otp, file, x), x.input, c);
  }

  lemma ModulusIs()
    ensures CODE_MODULUS == 1_000_000
  {
  }

  lemma RecordsIs(p: Params, i: Input, o: Outcome)
    requires o.success && !o.grace && p.gracePeriod > 0 && i.host.Some?
    ensures Records(p, i, o)
  {
  }

  lemma FreshSlots(t: string)
    requires forall i :: 0 <= i < 10 ==> GetCfgValue(t, LastLogins.Name(i)) == None
    ensures forall i :: 0 <= i < 10 ==> LastLogins.SlotsOf(t)[i] == LastLogins.Empty
    ensures LastLogins.Candidate(LastLogins.SlotsOf(t)[0], NOON)
  {
    hide GetCfgValue, LastLogins.Name;
  }

  lemma DoneIs(t: string, u: string, o: Outcome, now: nat)
    requires LoginDone(t, u, o, now)
    ensures ViewOf(u).step == ViewOf(t).step && CounterMoves(t, u, o.verdict)
    ensures !(o.verdict.Accepted? && o.verdict.via.ByResync?) ==> ViewOf(u).skew == ViewOf(t).skew
  {
    hide ViewOf, CounterMoves, UsedMoves, CodesMove, RateLimit.Check, Spent;
  }

  lemma SaneAfter(t: string, u: string, o: Outcome, i: Input, c: Setup.Choices)
    requires Sane(i, t) && TimeSkew(t) == 0 && HotpCounter(t) <= 1
    requires ViewOf(u).step == ViewOf(t).step && CounterMoves(t, u, o.verdict)
    requires o.verdict.Accepted? && if c.totp then o.verdict.via.ByStep? else o.verdict.via == ByCounter(1)
    requires !(o.verdict.Accepted? && o.verdict.via.ByResync?) ==> ViewOf(u).skew == ViewOf(t).skew
    ensures Sane(i, u)
  {
    hide ViewOf, HotpCounter, StepSize, TimeSkew, All, WindowSize;
    SettingsOf(t, u);
  }

  /** In the same second it gets in again, without a code, and changes nothing. */
  lemma GuestAgain(p: Params, otp: Coder, u: string, code: nat)
    requires p.gracePeriod > 0 && Tidy(u) && LastLogins.LastTime(u, HOST, 0) == NOON
    ensures var x := Guest(p, code); Result(otp, u, x).success && Next(otp, u, x) == u
  {
    hide Tidy, LastLogins.LastTime, Guest, Authenticate, NewFile;
    var x := Guest(p, code);
    HostIsPlain();
    GuestIs(p, code);
    ResultIs(otp, u, x);
    GraceNext(p, x.input, otp, u, HOST);
    GraceWrites(p, x.input, otp, u);
  }

  lemma GraceWrites(p: Params, i: Input, otp: Coder, file: string)
    requires Authenticate(p, i, otp, file).grace
    ensures Authenticate(p, i, otp, file).success && NewFile(Authenticate(p, i, otp, file), file) == file
  {
    hide RateLimit.Check, InGracePeriod, Modes, NewAttempt, FinalText, ToUInt32;
  }

  function Again(x: Try, n: nat): seq<Try> { if n == 0 then [] else Again(x, n - 1) + [x] }

  lemma {:induction false} AgainIs(x: Try, n: nat)
    ensures |Again(x, n)| == n && forall k :: 0 <= k < n ==> Again(x, n)[k] == x
    ensures n > 0 ==> Front(Again(x, n)) == Again(x, n - 1) && Last(Again(x, n)) == x
  {
    if n > 0 { AgainIs(x, n - 1); }
  }

  /** As many successes as logins. */
  lemma {:induction false} AllGetIn(otp: Coder, file: string, x: Try, u: string, n: nat)
    requires Result(otp, file, x).success && Next(otp, file, x) == u && Sane(x.input, file)
    requires Result(otp, u, x).success && Next(otp, u, x) == u && Sane(x.input, u)
    ensures var run := Again(x, n);
            && FileAfter(otp, file, run) == (if n == 0 then file else u)
            && SaneRun(otp, file, run) && AllSuccessesIn(otp, file, run, x.input.now, x.input.now) == n
  {
    hide Result, Next, Sane;
    AgainIs(x, n);
    if n > 0 { AllGetIn(otp, file, x, u, n - 1); }
  }

  lemma {:induction false} MoreTime(otp: Coder, file: string, run: seq<Try>, x: nat, y: nat)
    requires x <= y
    ensures AllSuccessesIn(otp, file, run, x, x) <= AllSuccessesIn(otp, file, run, x, y)
  {
    hide LastResult;
    if run != [] { MoreTime(otp, file, Front(run), x, y); }
  }

  /** A run with one login more than the limit, all in the same second. */
  lemma BrokenByGrace(key: seq<bv8>, c: Setup.Choices, p: Params, otp: Coder, code: nat)
    requires |key| == Setup.KEY_BYTES && Setup.Accepted(c) && Setup.Rate(c).Some? && p.gracePeriod > 0
    requires code < CODE_MODULUS && otp(key)(FirstNumber(c, NOON)) == code
    ensures var (attempts, interval) := Setup.Rate(c).value;
            attempts >= 0 && interval >= 0 && !LimitKept(p, otp, SetupFile(key, c), attempts, interval)
  {
    hide *;
    RateIs(c);
    var (attempts, interval) := Setup.Rate(c).value;
    var file, x := SetupFile(key, c), Guest(p, code);
    var u := Next(otp, file, x);
    AfterGuest(key, c, p, otp, code);
    GuestAgain(p, otp, u, code);
    AllGetIn(otp, file, x, u, attempts + 1);
    GuestIs(p, code);
    AgainIs(x, attempts + 1);
    NoonConst();
    MoreTime(otp, file, Again(x, attempts + 1), NOON, NOON + interval);
    SameTimes(x, attempts + 1, p, interval);
    if LimitKept(p, otp, file, attempts, interval) {
      KeptIs(p, otp, file, attempts, interval, Again(x, attempts + 1), NOON);
    }
  }

  lemma RateIs(c: Setup.Choices)
    requires Setup.Accepted(c)
    ensures Setup.Rate(c).Some? ==> 1 <= Setup.Rate(c).value.0 <= 10 && 1 <= Setup.Rate(c).value.1 <= 600
  {
  }

  lemma NoonConst()
    ensures NOON == 1_000_000
  {
  }

  lemma SameTimes(x: Try, n: nat, p: Params, begin: nat)
    requires x.params == p && x.input.now >= begin
    ensures InOrder(Again(x, n)) && AllWith(Again(x, n), p) && NoneBefore(Again(x, n), begin)
  {
    hide Again;
    AgainIs(x, n);
  }

  lemma KeptIs(p: Params, otp: Coder, file: string, attempts: nat, interval: nat, run: seq<Try>, x: nat)
    requires LimitKept(p, otp, file, attempts, interval)
    requires SaneRun(otp, file, run) && InOrder(run) && AllWith(run, p) && NoneBefore(run, interval)
    ensures AllSuccessesIn(otp, file, run, x, x + interval) <= attempts
  {
    hide SaneRun, InOrder, AllWith, NoneBefore, AllSuccessesIn;
    assert WindowSuccesses(otp, file, run, x, interval) <= attempts;
  }

  /** For every key, every choice with a rate limit, and every code function whose codes have six digits
      (as compute_code's have): successes of whatever kind keep to the limit in all runs if and only if
      there is no grace period. */
  lemma LimitKeptIff(key: seq<bv8>, c: Setup.Choices, p: Params, otp: Coder)
    requires |key| == Setup.KEY_BYTES && Setup.Accepted(c) && Setup.Rate(c).Some?
    requires forall v: int :: 0 <= otp(key)(v) < CODE_MODULUS
    ensures var (attempts, interval) := Setup.Rate(c).value;
            && attempts >= 0 && interval >= 0
            && (LimitKept(p, otp, SetupFile(key, c), attempts, interval) <==> p.gracePeriod == 0)
  {
    hide *;
    RateIs(c);
    var (attempts, interval) := Setup.Rate(c).value;
    if p.gracePeriod == 0 {
      SetupIs(key, c);
      SetupReads.SetupReadsBack(key, c);
      SetupTracks(key, c);
      NoHostYet(key, c);
      NoHostsIs(SetupFile(key, c));
      NothingPrior(interval);
      KeptWithoutGrace(p, otp, SetupFile(key, c), [], attempts, interval);
    } else {
      var code := otp(key)(FirstNumber(c, NOON));
      assert 0 <= code < CODE_MODULUS;
      BrokenByGrace(key, c, p, otp, code);
    }
  }

  lemma SetupTracks(key: seq<bv8>, c: Setup.Choices)
    requires |key| == Setup.KEY_BYTES && Setup.Accepted(c) && Setup.Rate(c).Some?
    ensures var (n, m) := Setup.Rate(c).value; n >= 0 && m >= 0 && RateLimit.Tracks(SetupFile(key, c), n, m, [])
  {
    hide Setup.File, Setup.Letters, RateLimit.Tracks, GetCfgValue, Reuse.Used, Setup.Rate;
    SetupReads.SetupListsReadBack(key, c);
  }

  lemma NoHostsIs(t: string)
    requires forall host :: LastLogins.LastTime(t, host, 0) == 0
    ensures NoHosts(t)
  {
    hide LastLogins.LastTime;
  }

  lemma NothingPrior(interval: nat)
    ensures Prior([], interval, interval)
  {
  }

  /** The codes of the module itself. */
  lemma RealLimitKeptIff(key: seq<bv8>, c: Setup.Choices, p: Params)
    requires |key| == Setup.KEY_BYTES && Setup.Accepted(c) && Setup.Rate(c).Some?
    ensures var (attempts, interval) := Setup.Rate(c).value;
            && attempts >= 0 && interval >= 0
            && (LimitKept(p, RealCoder(), SetupFile(key, c), attempts, interval) <==> p.gracePeriod == 0)
  {
    hide *;
    RealCodes(key);
    LimitKeptIff(key, c, p, RealCoder());
  }

  lemma RealCodes(key: seq<bv8>)
    ensures forall v: int :: 0 <= RealCoder()(key)(v) < CODE_MODULUS
  {
    hide Otp.Code;
  }

  // ---- refused by the limit, and in ---------------------------------------------------------------

  /** On any file with a limit of one: after a login that has put its host on record, the same login in
      the same second is refused by the rate limit, and succeeds. */
  lemma RefusedYetIn(p: Params, i: Input, otp: Coder, file: string, host: string, interval: nat, hist: seq<nat>)
    requires Tidy(file) && Sane(i, file) && RateLimit.Tracks(file, 1, interval, hist)
    requires RateLimit.Sorted(hist + [i.now]) && 0 < interval <= i.now
    requires i.host == Some(host) && LastLogins.Fits(host, i.now) && LastLogins.Remembers(file, host, i.now)
    requires Records(p, i, Authenticate(p, i, otp, file))
    ensures var u := NewFile(Authenticate(p, i, otp, file), file);
            RateLimit.Check(u, i.now).0 == RateLimit.Exceeded && Authenticate(p, i, otp, u).success
  {
    hide *;
    var o := Authenticate(p, i, otp, file);
    var u := NewFile(o, file);
    NowFits(i, file);
    RecordsHasGrace(p, i, o);
    LastLogins.StoredIs(host, i.now);
    LoginRecorded(p, i, otp, file, host);
    GraceNext(p, i, otp, u, host);
    GraceWrites(p, i, otp, u);
    LoginMoves(p, i, otp, file);
    RateLimit.CheckTracks(file, 1, interval, hist, i.now);
    var t := RateLimit.Check(file, i.now).1;
    RateIsThat(file, u, o, i.now);
    SameRate(t, u, 1, interval, hist + [i.now]);
    SortedTwice(hist, i.now);
    RateLimit.CheckTracks(u, 1, interval, hist + [i.now], i.now);
    TwoCalls(hist, i.now, interval);
  }

  lemma RecordsHasGrace(p: Params, i: Input, o: Outcome)
    requires Records(p, i, o)
    ensures p.gracePeriod > 0 && !o.grace && o.success
  {
  }

  lemma SortedTwice(hist: seq<nat>, now: nat)
    requires RateLimit.Sorted(hist + [now])
    ensures RateLimit.Sorted(hist + [now] + [now])
  {
    var h := hist + [now];
    forall i | 0 <= i < |h| ensures h[i] <= now {
      if i < |hist| { assert h[i] <= h[|hist|]; }
    }
    SortedAppend(h, now);
  }

  lemma TwoCalls(hist: seq<nat>, now: nat, interval: nat)
    requires interval <= now
    ensures !RateLimit.Allowed(hist + [now] + [now], 1, interval)
  {
    hide RateLimit.Window;
    var h := hist + [now] + [now];
    var lower := now - interval;
    assert h[|h| - 1] == now && h == hist + ([now] + [now]);
    RateLimit.WindowConcat(hist, [now] + [now], lower, now);
    RateLimit.WindowStep(now, [now], lower, now);
    assert [now] + [] == [now];
    RateLimit.WindowStep(now, [], lower, now);
  }
}

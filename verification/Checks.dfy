/** The three ways a code can be right: check_scratch_codes, check_counterbased_code and
    check_timebased_code. The code for a number is an arbitrary function of that number, so
    different numbers may well have the same code. */
module Checks {
  import opened CText
  import opened StateText
  import opened Scratch
  import opened StateInvariant
  import opened Options
  import opened Entry
  import Reuse
  import TimeSkewReset

  const COUNTER_KEY := "HOTP_COUNTER"

  /** What made a code right. */
  datatype Via = ByScratch(code: int) | ByCounter(counter: int) | ByStep(step: int) | ByResync(step: int)

  /** The results 0, 1 and -1. */
  datatype Verdict = Accepted(via: Via) | NotThis | Failed

  /** A verdict, the file, and the two flags `updated` and `must_advance_counter`. */
  datatype Checked = Checked(verdict: Verdict, text: string, updated: bool, must: bool)

  predicate SixDigits(code: int) { 0 <= code < CODE_MODULUS }

  // ---- counters -----------------------------------------------------------------------------

  /** The least number in [low, high) with this code. */
  function FirstMatch(gen: int -> int, code: int, low: int, high: int): (r: Option<int>)
    ensures r.None? ==> forall v :: low <= v < high ==> gen(v) != code
    ensures r.Some? ==> low <= r.value < high && gen(r.value) == code
    ensures r.Some? ==> forall v :: low <= v < r.value ==> gen(v) != code
    decreases high - low
  {
    if low >= high then None
    else if gen(low) == code then Some(low)
    else FirstMatch(gen, code, low + 1, high)
  }

  /** check_counterbased_code */
  function CheckCounter(t: string, gen: int -> int, code: int, counter: int, must: bool): Checked
  {
    if counter < 1 || !SixDigits(code) then Checked(NotThis, t, false, must)
    else if WindowSize(t) == 0 then Checked(Failed, t, false, must)
    else
      match FirstMatch(gen, code, counter, counter + WindowSize(t))
      case Some(v) => Checked(Accepted(ByCounter(v)), SetCfgValue(t, COUNTER_KEY, DecInt(v + 1)), true, false)
      case None => Checked(NotThis, t, false, true)
  }

  // ---- time steps ---------------------------------------------------------------------------

  function Apart(v: int, w: int): nat { if v < w then w - v else v - w }

  /** How far off a code is, the nearest way first, earlier before later. */
  function FindSkew(gen: int -> int, code: int, server: int, i: nat): (r: Option<int>)
    requires i <= TimeSkewReset.SKEW_LIMIT
    ensures r.Some? ==> -TimeSkewReset.SKEW_LIMIT < r.value < TimeSkewReset.SKEW_LIMIT && gen(server + r.value) == code
    ensures r.Some? ==> forall v :: i <= Apart(v, server) < Apart(r.value, 0) ==> gen(v) != code
    ensures r.None? ==> forall v :: i <= Apart(v, server) < TimeSkewReset.SKEW_LIMIT ==> gen(v) != code
    decreases TimeSkewReset.SKEW_LIMIT - i
  {
    if i == TimeSkewReset.SKEW_LIMIT then None
    else if gen(server - i) == code then Some(0 - i)
    else if gen(server + i) == code then Some(i)
    else FindSkew(gen, code, server, i + 1)
  }

  /** The window around a step: `(window-1)/2` steps before it and `window/2` after it. */
  function StepMatch(gen: int -> int, code: int, at: int, window: int): Option<int>
    requires window > 0
  {
    FirstMatch(gen, code, at - (window - 1) / 2, at + window / 2 + 1)
  }

  /** check_timebased_code */
  function CheckTime(t: string, gen: int -> int, code: int, now: nat, noSkewAdj: bool, must: bool): Checked
  {
    if !IsTotp(t) || !SixDigits(code) then Checked(NotThis, t, false, must)
    else if TimeStep(t, now) == 0 || WindowSize(t) == 0 then Checked(Failed, t, false, must)
    else
      match StepMatch(gen, code, TimeStep(t, now) + TimeSkew(t), WindowSize(t))
      case Some(step) => UseStep(t, step, must)
      case None => if noSkewAdj then Checked(NotThis, t, false, must) else Resync(t, gen, code, TimeStep(t, now), must)
  }

  function UseStep(t: string, step: int, must: bool): Checked
  {
    var (ok, u) := Reuse.Invalidate(t, step);
    Checked(if ok then Accepted(ByStep(step)) else Failed, u, ok && GetCfgValue(t, Reuse.KEY).Some?, must)
  }

  function Resync(t: string, gen: int -> int, code: int, server: int, must: bool): Checked
  {
    match FindSkew(gen, code, server, 0)
    case None => Checked(NotThis, t, false, must)
    case Some(skew) =>
      var (verdict, u) := TimeSkewReset.Check(t, skew, server);
      Checked(if verdict == TimeSkewReset.Reset then Accepted(ByResync(server + skew)) else Failed,
              u, verdict != TimeSkewReset.Again, must)
  }

  // ---- one code, all checks -----------------------------------------------------------------

  /** The switch in google_authenticator. */
  function CheckCode(
      t: string, gen: int -> int, code: int, counter: int, now: nat, noSkewAdj: bool, must: bool): Checked
  {
    match CheckScratchCodes(t, code)
    case Some(u) => Checked(Accepted(ByScratch(code)), u, true, must)
    case None =>
      if counter > 0 then CheckCounter(t, gen, code, counter, must)
      else CheckTime(t, gen, code, now, noSkewAdj, must)
  }

  /** A check that passes a code on has changed nothing, and without `updated` the file is as it
      was. */
  lemma NothingChanged(t: string, gen: int -> int, code: int, counter: int, now: nat, noSkewAdj: bool, must: bool)
    ensures var c := CheckCode(t, gen, code, counter, now, noSkewAdj, must);
            && (c.verdict.NotThis? ==> c.text == t && !c.updated)
            && (!c.updated ==> c.text == t)
  {
    hide CheckScratchCodes, SetCfgValue, GetCfgValue, WindowSize, TimeStep, TimeSkew, IsTotp, TimeSkewReset.Judge,
         TimeSkewReset.Remembered, TimeSkewReset.PrintAttempts, Reuse.Edit;
  }

  /** The flag must_advance_counter goes in and comes out; it has no part in the verdict. */
  lemma MustApart(t: string, gen: int -> int, code: int, counter: int, now: nat, noSkewAdj: bool, must: bool)
    ensures var c := CheckCode(t, gen, code, counter, now, noSkewAdj, must);
            var d := CheckCode(t, gen, code, counter, now, noSkewAdj, false);
            && c == d.(must := c.must)
            && c.must == ((must || d.must) && !(c.verdict.Accepted? && c.verdict.via.ByCounter?))
  {
    hide CheckScratchCodes, SetCfgValue, GetCfgValue, WindowSize, TimeStep, TimeSkew, IsTotp, FirstMatch, FindSkew,
         Reuse.Invalidate, TimeSkewReset.Check;
  }

  /** A code of eight digits is never compared with a computed code. */
  lemma LongCodeIsScratch(t: string, gen: int -> int, code: int, counter: int, now: nat, noSkewAdj: bool, must: bool)
    requires code >= CODE_MODULUS
    ensures var c := CheckCode(t, gen, code, counter, now, noSkewAdj, must);
            c.must == must && if code in Codes(t) then c.verdict == Accepted(ByScratch(code)) else c.verdict == NotThis
  {
    hide CheckScratchCodes, Codes, SetCfgValue, IsTotp;
    ScratchCodeUsedOnce(t, code);
  }

  /** A code of six digits never matches a scratch code. */
  lemma ShortCodeIsNotScratch(
      t: string, gen: int -> int, code: int, counter: int, now: nat, noSkewAdj: bool, must: bool)
    requires code < SMALLEST_CODE
    ensures CheckCode(t, gen, code, counter, now, noSkewAdj, must)
         == if counter > 0 then CheckCounter(t, gen, code, counter, must)
            else CheckTime(t, gen, code, now, noSkewAdj, must)
  {
    hide CheckScratchCodes, Codes, CheckCounter, CheckTime;
    ListedCodes(t);
    ScratchCodeUsedOnce(t, code);
  }

  /** Why a code is right: it is the listed one; or the least number of the window at the counter
      has it; or the first step of the window has it; or no step of the window, but one of those
      within SKEW_LIMIT of the server's. */
  ghost predicate Explains(via: Via, gen: int -> int, code: int, t: string, counter: int, now: nat)
  {
    var at := TimeStep(t, now) + TimeSkew(t);
    var low, high := at - (WindowSize(t) - 1) / 2, at + WindowSize(t) / 2;
    match via
    case ByScratch(x) => x == code && code in Codes(t)
    case ByCounter(n) =>
      1 <= counter <= n < counter + WindowSize(t) && gen(n) == code && forall v :: counter <= v < n ==> gen(v) != code
    case ByStep(step) =>
      counter <= 0 && low <= step <= high && gen(step) == code && forall v :: low <= v < step ==> gen(v) != code
    case ByResync(step) =>
      counter <= 0 && gen(step) == code && (forall v :: low <= v <= high ==> gen(v) != code)
      && Apart(step, TimeStep(t, now)) < TimeSkewReset.SKEW_LIMIT
      && forall v :: Apart(v, TimeStep(t, now)) < Apart(step, TimeStep(t, now)) ==> gen(v) != code
  }

  /** Nothing is accepted without a match. */
  lemma AcceptedIsExplained(t: string, gen: int -> int, code: int, counter: int, now: nat, noSkewAdj: bool, must: bool)
    ensures var verdict := CheckCode(t, gen, code, counter, now, noSkewAdj, must).verdict;
            verdict.Accepted? ==> Explains(verdict.via, gen, code, t, counter, now)
  {
    hide CheckScratchCodes, Codes, CheckCounter, CheckTime, Explains;
    if CheckScratchCodes(t, code).Some? {
      ScratchExplained(t, gen, code, counter, now);
    } else if counter > 0 {
      CounterExplained(t, gen, code, counter, now, must);
    } else {
      TimeExplained(t, gen, code, counter, now, noSkewAdj, must);
    }
  }

  lemma ScratchExplained(t: string, gen: int -> int, code: int, counter: int, now: nat)
    requires CheckScratchCodes(t, code).Some?
    ensures Explains(ByScratch(code), gen, code, t, counter, now)
  {
    hide CheckScratchCodes, Codes, WindowSize, TimeStep, TimeSkew;
    ScratchCodeUsedOnce(t, code);
  }

  lemma CounterExplained(t: string, gen: int -> int, code: int, counter: int, now: nat, must: bool)
    requires counter > 0
    ensures var verdict := CheckCounter(t, gen, code, counter, must).verdict;
            verdict.Accepted? ==> Explains(verdict.via, gen, code, t, counter, now)
  {
    hide SetCfgValue, WindowSize, TimeStep, TimeSkew, DecInt, FirstMatch;
  }

  lemma TimeExplained(t: string, gen: int -> int, code: int, counter: int, now: nat, noSkewAdj: bool, must: bool)
    requires counter <= 0
    ensures var verdict := CheckTime(t, gen, code, now, noSkewAdj, must).verdict;
            verdict.Accepted? ==> Explains(verdict.via, gen, code, t, counter, now)
  {
    hide GetCfgValue, WindowSize, TimeStep, TimeSkew, IsTotp, TimeSkewReset.Check, Reuse.Invalidate, FirstMatch,
         FindSkew, StepMatch, Explains, SixDigits;
    if WindowSize(t) != 0 {
      var server := TimeStep(t, now);
      var step := StepMatch(gen, code, server + TimeSkew(t), WindowSize(t));
      if step.Some? {
        StepExplained(gen, code, t, counter, now);
      } else if FindSkew(gen, code, server, 0).Some? {
        ResyncExplained(gen, code, t, counter, now);
      }
    }
  }

  lemma StepExplained(gen: int -> int, code: int, t: string, counter: int, now: nat)
    requires counter <= 0 && WindowSize(t) > 0
    requires StepMatch(gen, code, TimeStep(t, now) + TimeSkew(t), WindowSize(t)).Some?
    ensures var step := StepMatch(gen, code, TimeStep(t, now) + TimeSkew(t), WindowSize(t)).value;
            Explains(ByStep(step), gen, code, t, counter, now)
  {
    hide WindowSize, TimeStep, TimeSkew, StepMatch;
    StepMatchIs(gen, code, TimeStep(t, now) + TimeSkew(t), WindowSize(t));
  }

  lemma ResyncExplained(gen: int -> int, code: int, t: string, counter: int, now: nat)
    requires counter <= 0 && WindowSize(t) > 0
    requires StepMatch(gen, code, TimeStep(t, now) + TimeSkew(t), WindowSize(t)).None?
    requires FindSkew(gen, code, TimeStep(t, now), 0).Some?
    ensures var skew := FindSkew(gen, code, TimeStep(t, now), 0).value;
            Explains(ByResync(TimeStep(t, now) + skew), gen, code, t, counter, now)
  {
    hide WindowSize, TimeStep, TimeSkew, StepMatch, FindSkew;
    StepMatchIs(gen, code, TimeStep(t, now) + TimeSkew(t), WindowSize(t));
  }

  lemma StepMatchIs(gen: int -> int, code: int, at: int, window: int)
    requires window > 0
    ensures var low, high := at - (window - 1) / 2, at + window / 2;
            match StepMatch(gen, code, at, window)
            case None => forall v :: low <= v <= high ==> gen(v) != code
            case Some(step) =>
              low <= step <= high && gen(step) == code && forall v :: low <= v < step ==> gen(v) != code
  {
    hide FirstMatch;
  }

  // ---- what an accepted code changes, in a well-formed file -----------------------------------

  /** No step or counter that is computed leaves the range of its C type. */
  predicate NoOverflow(t: string, counter: int, now: nat)
  {
    && counter < TWO63 - 200
    && (StepSize(t) > 0 ==>
          && now / StepSize(t) < TWO31 - TimeSkewReset.SKEW_LIMIT
          && -TWO31 + 100 <= now / StepSize(t) + TimeSkew(t) < TWO31 - 100)
  }

  /** What the verdict means for the file. */
  ghost predicate CheckDone(t: string, c: Checked, counter: int, now: nat)
  {
    match c.verdict
    case NotThis => c.text == t
    case Failed => SameBut(t, c.text, {TimeSkewReset.KEY})
    case Accepted(via) =>
      match via
      case ByScratch(code) => ScratchUsed(t, c.text, code)
      case ByCounter(v) => CounterUsed(t, c.text, counter, v) && !c.must
      case ByStep(step) => StepUsed(t, c.text, now, step)
      case ByResync(step) => SameBut(t, c.text, {TimeSkewReset.KEY, TimeSkewReset.SKEW_KEY})
  }

  ghost predicate ScratchUsed(t: string, u: string, code: int)
  {
    && code in Codes(t) && Codes(u) == RemoveFirst(Codes(t), code)
    && Tidy(u) && SecretLine(u) == SecretLine(t) && SameOptions(t, u, {})
  }

  ghost predicate CounterUsed(t: string, u: string, counter: int, v: int)
  {
    && 1 <= counter <= v < counter + WindowSize(t)
    && HotpCounter(u) == v + 1 && SameBut(t, u, {COUNTER_KEY})
  }

  ghost predicate StepUsed(t: string, u: string, now: nat, step: int)
  {
    && WindowSize(t) > 0 && Reuse.InWindow(step, TimeStep(t, now), TimeSkew(t), WindowSize(t))
    && SameBut(t, u, {Reuse.KEY})
    && match Reuse.Used(t)
       case None => GetCfgValue(t, Reuse.KEY).None? && u == t
       case Some(used) =>
         && step !in used
         && Reuse.Used(u) == Some(Reuse.Near(used, step, WindowSize(t)) + [step])
  }

  lemma CheckDoes(t: string, gen: int -> int, code: int, counter: int, now: nat, noSkewAdj: bool, must: bool)
    requires Tidy(t) && NoOverflow(t, counter, now)
    ensures CheckDone(t, CheckCode(t, gen, code, counter, now, noSkewAdj, must), counter, now)
  {
    hide CheckScratchCodes, CheckCounter, CheckTime, Tidy, NoOverflow, Codes, SecretLine, SameOptions, SameBut,
         RemoveFirst;
    if CheckScratchCodes(t, code).Some? {
      ScratchKeeps(t, code);
      ScratchCodeUsedOnce(t, code);
    } else if counter > 0 {
      CounterDoes(t, gen, code, counter, now, must);
    } else {
      TimeDoes(t, gen, code, counter, now, noSkewAdj, must);
    }
  }

  lemma CounterKeyValid()
    ensures ValidKey(COUNTER_KEY)
  {
  }

  /** What is stored as a counter reads back as it. */
  lemma CounterStored(t: string, counter: int)
    requires Tidy(t) && 0 <= counter < TWO63
    ensures var u := SetCfgValue(t, COUNTER_KEY, DecInt(counter));
            SameBut(t, u, {COUNTER_KEY}) && HotpCounter(u) == counter
  {
    hide SetCfgValue, GetCfgValue, Tidy, SameBut, Strip, Strtol, DecInt, ValidKey;
    CounterKeyValid();
    Reuse.DecIntChars(counter);
    DigitsNotStripped(counter);
    ReadLong(counter);
    SetKeeps(t, COUNTER_KEY, DecInt(counter));
  }

  lemma DigitsNotStripped(n: int)
    ensures Strip(DecInt(n)) == DecInt(n)
  {
    hide Dec, Span;
    SpanIs(Blank, DecInt(n), 0);
    assert DecInt(n)[0..] == DecInt(n);
  }

  lemma CounterDoes(t: string, gen: int -> int, code: int, counter: int, now: nat, must: bool)
    requires Tidy(t) && counter > 0 && NoOverflow(t, counter, now)
    ensures CheckDone(t, CheckCounter(t, gen, code, counter, must), counter, now)
  {
    hide SetCfgValue, Tidy, SameBut, DecInt, WindowSize, HotpCounter, FirstMatch, StepSize, TimeSkew;
    NothingDone(t);
    if SixDigits(code) && WindowSize(t) > 0 {
      var r := FirstMatch(gen, code, counter, counter + WindowSize(t));
      if r.Some? { CounterStored(t, r.value + 1); }
    }
  }

  lemma NothingDone(t: string)
    requires Tidy(t)
    ensures forall keys :: SameBut(t, t, keys)
  {
    hide Tidy, Codes, SecretLine, GetCfgValue, ValidKey;
  }

  lemma TimeDoes(t: string, gen: int -> int, code: int, counter: int, now: nat, noSkewAdj: bool, must: bool)
    requires Tidy(t) && NoOverflow(t, counter, now)
    ensures CheckDone(t, CheckTime(t, gen, code, now, noSkewAdj, must), counter, now)
  {
    hide Tidy, SameBut, IsTotp, WindowSize, TimeStep, TimeSkew, StepMatch, Resync, UseStep, CheckDone, NoOverflow;
    NothingDone(t);
    Refused(t, counter, now, must);
    if IsTotp(t) && SixDigits(code) && TimeStep(t, now) != 0 && WindowSize(t) != 0 {
      ServerStep(t, counter, now);
      match StepMatch(gen, code, TimeStep(t, now) + TimeSkew(t), WindowSize(t))
      case Some(step) =>
        StepInWindow(gen, code, TimeStep(t, now), TimeSkew(t), WindowSize(t));
        StepDoes(t, step, counter, now, must);
      case None =>
        if !noSkewAdj { ResyncDoes(t, gen, code, counter, now, must); }
    }
  }

  lemma Refused(t: string, counter: int, now: nat, must: bool)
    requires Tidy(t)
    ensures CheckDone(t, Checked(NotThis, t, false, must), counter, now)
    ensures CheckDone(t, Checked(Failed, t, false, must), counter, now)
  {
    hide Tidy, SameBut;
    NothingDone(t);
  }

  lemma StepInWindow(gen: int -> int, code: int, server: int, skew: int, window: int)
    requires window > 0 && StepMatch(gen, code, server + skew, window).Some?
    ensures Reuse.InWindow(StepMatch(gen, code, server + skew, window).value, server, skew, window)
  {
    hide FirstMatch;
  }

  lemma ServerStep(t: string, counter: int, now: nat)
    requires NoOverflow(t, counter, now) && TimeStep(t, now) != 0
    ensures 0 < TimeStep(t, now) == now / StepSize(t) < TWO31 - TimeSkewReset.SKEW_LIMIT
    ensures -TWO31 + 100 <= TimeStep(t, now) + TimeSkew(t) < TWO31 - 100
  {
    hide StepSize, TimeSkew;
  }

  lemma StepDoes(t: string, step: int, counter: int, now: nat, must: bool)
    requires Tidy(t) && WindowSize(t) > 0 && TimeStep(t, now) != 0
    requires Reuse.InWindow(step, TimeStep(t, now), TimeSkew(t), WindowSize(t))
    requires -TWO31 + 100 <= TimeStep(t, now) + TimeSkew(t) < TWO31 - 100
    ensures CheckDone(t, UseStep(t, step, must), counter, now)
  {
    hide Tidy, SameBut, WindowSize, TimeStep, TimeSkew, GetCfgValue, Reuse.Entries, Reuse.Edit, Reuse.Near,
         SetCfgValue;
    NothingDone(t);
    if GetCfgValue(t, Reuse.KEY).Some? {
      Reuse.InvalidateLists(t, step);
    }
  }

  lemma ResyncDoes(t: string, gen: int -> int, code: int, counter: int, now: nat, must: bool)
    requires Tidy(t) && 0 <= TimeStep(t, now) < TWO31 - TimeSkewReset.SKEW_LIMIT
    ensures CheckDone(t, Resync(t, gen, code, TimeStep(t, now), must), counter, now)
  {
    hide Tidy, SameBut, TimeStep, FindSkew, TimeSkewReset.Check;
    NothingDone(t);
    var server := TimeStep(t, now);
    match FindSkew(gen, code, server, 0)
    case None =>
    case Some(skew) => TimeSkewReset.CheckKeeps(t, skew, server);
  }
}

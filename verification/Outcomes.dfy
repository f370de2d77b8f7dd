/** Exactly when a login succeeds, and exactly what it adds to the file. */
module Outcomes {
  import opened CText
  import opened StateText
  import opened Scratch
  import opened StateInvariant
  import opened Options
  import opened Entry
  import opened Checks
  import opened Login
  import opened Effects
  import RateLimit
  import Reuse
  import TimeSkewReset
  import Otp

  // ---- when a code is accepted ------------------------------------------------------------------

  /** A listed scratch code is always accepted, before anything else is looked at. */
  lemma ScratchIff(t: string, gen: int -> int, code: int, counter: int, now: nat, noSkewAdj: bool, must: bool)
    ensures CheckCode(t, gen, code, counter, now, noSkewAdj, must).verdict == Accepted(ByScratch(code))
          <==> code in Codes(t)
  {
    hide CheckScratchCodes, Codes, CheckCounter, CheckTime;
    ScratchCodeUsedOnce(t, code);
    if CheckScratchCodes(t, code).None? {
      if counter > 0 { CounterIff(t, gen, code, counter, must); }
      else { NotByScratch(t, gen, code, now, noSkewAdj, must); }
    }
  }

  lemma NotByScratch(t: string, gen: int -> int, code: int, now: nat, noSkewAdj: bool, must: bool)
    ensures var verdict := CheckTime(t, gen, code, now, noSkewAdj, must).verdict;
            verdict.Accepted? ==> verdict.via.ByStep? || verdict.via.ByResync?
  {
    hide IsTotp, TimeStep, WindowSize, TimeSkew, FirstMatch, FindSkew, Reuse.Invalidate, TimeSkewReset.Check,
         GetCfgValue;
  }

  /** In counter mode a code of six digits is accepted exactly when a number of the window has it. */
  lemma CounterIff(t: string, gen: int -> int, code: int, counter: int, must: bool)
    requires counter > 0
    ensures var c := CheckCounter(t, gen, code, counter, must);
            && (c.verdict.Accepted? <==>
                  SixDigits(code) && exists v :: counter <= v < counter + WindowSize(t) && gen(v) == code)
            && (c.verdict.Accepted? ==> c.verdict.via.ByCounter?)
            && (c.verdict == NotThis && SixDigits(code) ==> c.must)
  {
    hide WindowSize, SetCfgValue, DecInt, FirstMatch;
    if SixDigits(code) && WindowSize(t) > 0 {
      var r := FirstMatch(gen, code, counter, counter + WindowSize(t));
      if r.Some? { assert gen(r.value) == code; }
    }
  }

  /** A time step is good if the file does not list used ones, or has a readable list without it. */
  predicate Unused(t: string, step: int)
  {
    GetCfgValue(t, Reuse.KEY).None? || (Reuse.Used(t).Some? && step !in Reuse.Used(t).value)
  }

  /** In time-based mode a code is accepted by the window exactly when the first step of the window
      that has it is unused. */
  lemma StepIff(t: string, gen: int -> int, code: int, counter: int, now: nat, noSkewAdj: bool, must: bool, step: int)
    requires Tidy(t) && NoOverflow(t, counter, now)
    ensures CheckTime(t, gen, code, now, noSkewAdj, must).verdict == Accepted(ByStep(step)) <==>
              && IsTotp(t) && SixDigits(code) && TimeStep(t, now) != 0 && WindowSize(t) > 0
              && StepMatch(gen, code, TimeStep(t, now) + TimeSkew(t), WindowSize(t)) == Some(step)
              && Unused(t, step)
  {
    hide Tidy, IsTotp, TimeStep, WindowSize, TimeSkew, StepMatch, Resync, UseStep, Unused, NoOverflow, SixDigits;
    if IsTotp(t) && SixDigits(code) && TimeStep(t, now) != 0 && WindowSize(t) != 0 {
      ServerStep(t, counter, now);
      match StepMatch(gen, code, TimeStep(t, now) + TimeSkew(t), WindowSize(t))
      case Some(first) =>
        StepInWindow(gen, code, TimeStep(t, now), TimeSkew(t), WindowSize(t));
        UseStepIff(t, first, must, TimeStep(t, now), TimeSkew(t));
      case None => ResyncNotByStep(t, gen, code, TimeStep(t, now), must);
    }
  }

  lemma UseStepIff(t: string, step: int, must: bool, server: int, skew: int)
    requires Tidy(t) && WindowSize(t) > 0 && Reuse.InWindow(step, server, skew, WindowSize(t))
    requires -TWO31 + 100 <= server + skew < TWO31 - 100
    ensures UseStep(t, step, must).verdict == if Unused(t, step) then Accepted(ByStep(step)) else Failed
  {
    hide Tidy, WindowSize, GetCfgValue, Reuse.Used, Reuse.Edit, SetCfgValue, SameBut, Reuse.Near;
    if GetCfgValue(t, Reuse.KEY).Some? { Reuse.InvalidateLists(t, step); }
  }

  lemma ResyncNotByStep(t: string, gen: int -> int, code: int, server: int, must: bool)
    ensures var verdict := Resync(t, gen, code, server, must).verdict; verdict.Accepted? ==> verdict.via.ByResync?
  {
    hide FindSkew, TimeSkewReset.Check;
  }

  /** A code outside the window sets a new skew exactly when it is found within the search and the
      attempts on file, with this one, warrant it. */
  lemma ResyncJudged(t: string, gen: int -> int, code: int, now: nat, noSkewAdj: bool, must: bool, step: int)
    ensures CheckTime(t, gen, code, now, noSkewAdj, must).verdict == Accepted(ByResync(step)) <==>
              && IsTotp(t) && SixDigits(code) && TimeStep(t, now) != 0 && WindowSize(t) > 0 && !noSkewAdj
              && StepMatch(gen, code, TimeStep(t, now) + TimeSkew(t), WindowSize(t)).None?
              && var server := TimeStep(t, now); var skew := step - server;
                 && FindSkew(gen, code, server, 0) == Some(skew)
                 && TimeSkewReset.Judge(TimeSkewReset.Remembered(t), TimeSkewReset.Attempt(ToUInt32(server), skew))
                    == TimeSkewReset.Reset
  {
    hide IsTotp, TimeStep, WindowSize, TimeSkew, StepMatch, FindSkew, UseStep, SixDigits, TimeSkewReset.Judge,
         SetCfgValue, TimeSkewReset.Remembered, TimeSkewReset.PrintAttempts, TimeSkewReset.Average, DecInt, ToUInt32,
         TimeSkewReset.LastThree;
    UsedNotResync(t, TimeStep(t, now) + TimeSkew(t), gen, code, must);
  }

  /** The third of three attempts in quick succession with a steady skew, and no repetition. */
  predicate ThirdInARow(record: seq<TimeSkewReset.Attempt>, a: TimeSkewReset.Attempt)
  {
    && |record| >= 2
    && var p, q := record[|record| - 2], record[|record| - 1];
       && q.step + q.skew != a.step + a.skew
       && p.step < q.step <= p.step + 2 && q.step < a.step <= q.step + 2
       && -1 <= p.skew - a.skew <= 1 && -1 <= q.skew - a.skew <= 1
  }

  lemma JudgedByRecord(t: string, record: seq<TimeSkewReset.Attempt>, a: TimeSkewReset.Attempt)
    requires TimeSkewReset.Follows(t, record) && TimeSkewReset.Ordinary(a)
    ensures TimeSkewReset.Judge(TimeSkewReset.Remembered(t), a) == TimeSkewReset.Reset <==> ThirdInARow(record, a)
  {
    hide *;
    var last := TimeSkewReset.LastThree(record);
    FollowsRecord(t, record);
    ThirdInLast(record, a);
    ThirdIs(last, a);
    TimeSkewReset.ResetIff(last, a);
  }

  lemma FollowsRecord(t: string, record: seq<TimeSkewReset.Attempt>)
    requires TimeSkewReset.Follows(t, record)
    ensures var last := TimeSkewReset.LastThree(record);
            && TimeSkewReset.Remembered(t) == last && |last| <= 3
            && forall i :: 0 <= i < |last| ==> TimeSkewReset.Ordinary(last[i])
  {
    hide TimeSkewReset.Remembered, TimeSkewReset.Ordinary;
    var last := TimeSkewReset.LastThree(record);
    assert forall i :: 0 <= i < |last| ==> last[i] == record[|record| - |last| + i];
  }

  /** Only the last two attempts matter. */
  lemma ThirdInLast(record: seq<TimeSkewReset.Attempt>, a: TimeSkewReset.Attempt)
    ensures ThirdInARow(TimeSkewReset.LastThree(record), a) <==> ThirdInARow(record, a)
  {
    var last := TimeSkewReset.LastThree(record);
    assert |record| >= 2 ==> last[|last| - 2] == record[|record| - 2] && last[|last| - 1] == record[|record| - 1];
  }

  lemma ThirdIs(es: seq<TimeSkewReset.Attempt>, a: TimeSkewReset.Attempt)
    ensures ThirdInARow(es, a) <==>
              && |es| >= 2
              && var p, q := es[|es| - 2], es[|es| - 1];
                 && q.step + q.skew != a.step + a.skew
                 && p.step < q.step <= p.step + 2 && q.step < a.step <= q.step + 2
                 && -1 <= p.skew - a.skew <= 1 && -1 <= q.skew - a.skew <= 1
  {
  }

  /** In terms of the attempts since the last reset: a code outside the window lets its user in exactly
      when the search finds it and it is the third in a row. */
  lemma ResyncIff(
      t: string, gen: int -> int, code: int, counter: int, now: nat, noSkewAdj: bool, must: bool, step: int,
      record: seq<TimeSkewReset.Attempt>)
    requires NoOverflow(t, counter, now) && TimeSkewReset.Follows(t, record)
    ensures CheckTime(t, gen, code, now, noSkewAdj, must).verdict == Accepted(ByResync(step)) <==>
              && IsTotp(t) && SixDigits(code) && TimeStep(t, now) != 0 && WindowSize(t) > 0 && !noSkewAdj
              && StepMatch(gen, code, TimeStep(t, now) + TimeSkew(t), WindowSize(t)).None?
              && var server := TimeStep(t, now); var skew := step - server;
                 && FindSkew(gen, code, server, 0) == Some(skew)
                 && server >= 0 && ThirdInARow(record, TimeSkewReset.Attempt(server, skew))
  {
    hide IsTotp, TimeStep, WindowSize, TimeSkew, StepMatch, FindSkew, SixDigits, TimeSkewReset.Judge, CheckTime,
         NoOverflow, TimeSkewReset.Remembered, TimeSkewReset.Follows, ThirdInARow;
    ResyncJudged(t, gen, code, now, noSkewAdj, must, step);
    var server, skew := TimeStep(t, now), step - TimeStep(t, now);
    if server != 0 && FindSkew(gen, code, server, 0) == Some(skew) {
      ServerStep(t, counter, now);
      TimeSkewReset.OrdinaryIs(server, skew);
      JudgedByRecord(t, record, TimeSkewReset.Attempt(server, skew));
    }
  }

  lemma UsedNotResync(t: string, at: int, gen: int -> int, code: int, must: bool)
    ensures forall s :: var verdict := UseStep(t, s, must).verdict; verdict.Accepted? ==> verdict.via.ByStep?
  {
    hide Reuse.Invalidate, GetCfgValue;
  }

  // ---- when a login succeeds ----------------------------------------------------------------------

  /** A login succeeds exactly within the grace period (and then nothing is written, and the rate
      limit has no say), or when the rate limit lets it pass, there is a secret, the first decisive
      code is accepted, and the password could be handed on if it was to be. */
  lemma SuccessIff(p: Params, i: Input, otp: Coder, file: string)
    ensures var (decision, t) := RateLimit.Check(file, ToUInt32(i.now));
            var a := NewAttempt(p, i, otp, t);
            var o := Authenticate(p, i, otp, file);
            && (InGracePeriod(p, i, t) ==> o.success && o.grace && o.write == None && o.prompts == 0)
            && (!InGracePeriod(p, i, t) ==> !o.grace)
            && (!InGracePeriod(p, i, t) && (decision.Invalid? || decision.Exceeded?) ==>
                  !o.success && o.prompts == 0 && o.write == if decision.Exceeded? then Some(t) else None)
            && (!InGracePeriod(p, i, t) && (decision.Admitted? || decision.Unlimited?) ==>
                  (o.success <==>
                     && a.gen.Some? && TryAll(a, a.gen.value, t, 0, false).checked.verdict.Accepted?
                     && (p.forwardPass ==> i.itemSet)))
  {
    hide RateLimit.Check, InGracePeriod, Modes, TryAll, Otp.SharedSecret, HotpCounter, FinalText, Entered, Prompts,
         ToUInt32;
    var (decision, t) := RateLimit.Check(file, ToUInt32(i.now));
    var a := NewAttempt(p, i, otp, t);
    if a.gen.None? {
      GuardFires(a, t, 0, Start(t));
    } else {
      LoopIsTryAll(a, a.gen.value, t, 0, Start(t));
    }
  }

  // ---- how often the user is asked ----------------------------------------------------------------

  /** What the answers make of the number of questions. */
  predicate Asked(a: Attempt, prompts: nat)
  {
    && (a.params.passMode == UseFirstPass ==> prompts == 0)
    && (a.params.passMode == Prompt ==> prompts >= 1)
    && (prompts == 0 || prompts == if a.input.reply.None? then 2 else 1)
  }

  /** Where the loop stands decides how often it has asked. */
  lemma AskedSoFar(a: Attempt, t: string, mode: nat, l: Loop)
    requires mode < 4 && Unchanged(a, t, mode, l)
    ensures var o := Obtain(a, mode, l);
            o.pw.Some? ==> mode >= 2 || a.params.passMode != Prompt
    ensures var o := Obtain(a, mode, l); o.pw.Some? ==> Asked(a, o.prompts)
  {
  }

  lemma AskedAtEnd(a: Attempt, t: string, l: Loop)
    requires Unchanged(a, t, 4, l)
    ensures Asked(a, l.prompts)
  {
  }

  lemma {:induction false} LoopAsks(a: Attempt, t: string, mode: nat, l: Loop)
    requires mode <= 4 && Unchanged(a, t, mode, l)
    ensures Asked(a, Modes(a, mode, l).prompts)
    decreases 4 - mode
  {
    hide Obtain, Check, Unchanged, Modes, Parse, Alone, Prompts, Typed, After, Asked;
    if mode == 4 {
      AskedAtEnd(a, t, l);
      ModesEnd(a, l);
    } else {
      AskedSoFar(a, t, mode, l);
      ObtainTyped(a, t, mode, l);
      UnchangedIs(a, t, mode, l);
      ModesStep(a, mode, l);
      ObtainKeeps(a, mode, l);
      var o := Obtain(a, mode, l);
      if Entered(a, mode).None? {
        assert o.pw.None? ==> o == o.(pw := None);
        LoopAsks(a, t, mode + 1, o.(pw := None));
      } else {
        var entry := Entered(a, mode).value;
        if a.gen.None? {
          GuardStops(a, mode + 1, o.(pw := Some(entry.1)));
        } else {
          var c := Check(a, a.gen.value, o.text, entry.0, o.must);
          CheckLeaves(a, a.gen.value, o.text, entry.0, o.must);
          UnchangedIs(a, t, mode + 1, o.(pw := None));
          AfterAsks(o, c);
          if c.verdict.NotThis? {
            AfterNothing(a, t, mode + 1, o, c);
            LoopAsks(a, t, mode + 1, After(o, c).(pw := None));
          }
        }
      }
    }
  }

  lemma AfterAsks(l: Loop, c: Checked)
    ensures After(l, c).prompts == l.prompts
  {
  }

  /** In terms of what the user does: who is asked at all is asked twice exactly if the first question
      gets no answer, with or without a secret. */
  lemma AskedTwiceIff(p: Params, i: Input, otp: Coder, file: string)
    ensures var (decision, t) := RateLimit.Check(file, ToUInt32(i.now));
            var o := Authenticate(p, i, otp, file);
            && o.prompts <= 2 && (o.prompts == 2 <==> o.prompts >= 1 && i.reply.None?)
            && (p.passMode == UseFirstPass ==> o.prompts == 0)
            && (p.passMode == Prompt && !o.grace && (decision.Admitted? || decision.Unlimited?) ==> o.prompts >= 1)
  {
    hide RateLimit.Check, InGracePeriod, Modes, Otp.SharedSecret, HotpCounter, FinalText, ToUInt32, Unchanged;
    var t := RateLimit.Check(file, ToUInt32(i.now)).1;
    var a := NewAttempt(p, i, otp, t);
    StartUnchanged(a, t);
    LoopAsks(a, t, 0, Start(t));
  }

  /** With a secret, who is asked at all: with try_first_pass exactly those whose first password holds no
      decisive code, in either of the two ways it is read. */
  lemma AskedIff(p: Params, i: Input, otp: Coder, file: string)
    requires var (decision, t) := RateLimit.Check(file, ToUInt32(i.now));
             !InGracePeriod(p, i, t) && (decision.Admitted? || decision.Unlimited?)
             && NewAttempt(p, i, otp, t).gen.Some?
    ensures var t := RateLimit.Check(file, ToUInt32(i.now)).1;
            var a := NewAttempt(p, i, otp, t);
            Authenticate(p, i, otp, file).prompts >= 1 <==>
              && p.passMode != UseFirstPass
              && forall mode :: 0 <= mode < 2 && Entered(a, mode).Some? ==>
                   Check(a, a.gen.value, t, Entered(a, mode).value.0, false).verdict.NotThis?
  {
    hide RateLimit.Check, InGracePeriod, Modes, TryAll, Otp.SharedSecret, HotpCounter, FinalText, Entered, Check,
         ToUInt32, Unchanged;
    var t := RateLimit.Check(file, ToUInt32(i.now)).1;
    var a := NewAttempt(p, i, otp, t);
    StartUnchanged(a, t);
    LoopIsTryAll(a, a.gen.value, t, 0, Start(t));
    FirstTwo(a, a.gen.value, t);
  }

  lemma FirstTwo(a: Attempt, gen: int -> int, t: string)
    ensures TryAll(a, gen, t, 0, false).mode >= 2 <==>
              forall mode :: 0 <= mode < 2 && Entered(a, mode).Some? ==>
                Check(a, gen, t, Entered(a, mode).value.0, false).verdict.NotThis?
  {
    hide TryAll, Entered, Check;
    TryAllStep(a, gen, t, 0, false);
    var must := Entered(a, 0).Some? && Check(a, gen, t, Entered(a, 0).value.0, false).must;
    TryAllStep(a, gen, t, 1, must);
    if Entered(a, 1).Some? { MustApartOf(a, gen, t, Entered(a, 1).value.0, must); }
  }

  // ---- when the counter goes up -------------------------------------------------------------------

  /** A code of six digits was compared with those of the counter window, in vain. */
  predicate InVain(a: Attempt, gen: int -> int, t: string, mode: nat)
  {
    Entered(a, mode).Some? && var c := Check(a, gen, t, Entered(a, mode).value.0, false); c.verdict.NotThis? && c.must
  }

  lemma MustApartOf(a: Attempt, gen: int -> int, t: string, code: int, must: bool)
    ensures var c := Check(a, gen, t, code, must); var d := Check(a, gen, t, code, false);
            && c.verdict == d.verdict
            && c.must == ((must || d.must) && !(c.verdict.Accepted? && c.verdict.via.ByCounter?))
            && (!d.verdict.NotThis? ==> !d.must)
  {
    hide CheckCode;
    MustApart(t, gen, code, a.counter, a.input.now, a.params.noSkewAdj, must);
    OnlyInVain(t, gen, code, a.counter, a.input.now, a.params.noSkewAdj);
  }

  lemma OnlyInVain(t: string, gen: int -> int, code: int, counter: int, now: nat, noSkewAdj: bool)
    ensures var d := CheckCode(t, gen, code, counter, now, noSkewAdj, false); !d.verdict.NotThis? ==> !d.must
  {
    hide CheckScratchCodes, CheckTime, WindowSize, SetCfgValue, DecInt, FirstMatch;
    if counter <= 0 { TimeKeepsMust(t, gen, code, now, noSkewAdj, false); }
  }

  /** The counter is to advance exactly when some code was tried in vain and none was right by the
      counter. */
  lemma {:induction false} MustIff(a: Attempt, gen: int -> int, t: string, mode: nat, must: bool)
    requires mode <= 4
    ensures var r := TryAll(a, gen, t, mode, must);
            r.checked.must <==>
              && (must || exists m :: mode <= m < r.mode && InVain(a, gen, t, m))
              && !(r.checked.verdict.Accepted? && r.checked.verdict.via.ByCounter?)
    decreases 4 - mode
  {
    hide Entered, Check, TryAll, InVain;
    if mode == 4 {
      TryAllEnd(a, gen, t, must);
    } else {
      TryAllStep(a, gen, t, mode, must);
      InVainIs(a, gen, t, mode);
      match Entered(a, mode)
      case None => MustIff(a, gen, t, mode + 1, must);
      case Some(entry) =>
        var c := Check(a, gen, t, entry.0, must);
        MustApartOf(a, gen, t, entry.0, must);
        if c.verdict.NotThis? { MustIff(a, gen, t, mode + 1, c.must); }
    }
  }

  lemma InVainIs(a: Attempt, gen: int -> int, t: string, mode: nat)
    ensures InVain(a, gen, t, mode) <==>
              Entered(a, mode).Some? && Check(a, gen, t, Entered(a, mode).value.0, false).verdict.NotThis?
              && Check(a, gen, t, Entered(a, mode).value.0, false).must
  {
    hide Entered, Check;
  }

  /** The counter after a login that was not let in by it: one more if a code was tried in vain
      (unless no_increment_hotp is set), however many were, else the same. */
  lemma CounterExactly(a: Attempt, gen: int -> int, t: string)
    requires Tidy(t) && Sane(a.input, t) && a.gen == Some(gen) && a.counter == HotpCounter(t)
    ensures var l := Modes(a, 0, Start(t));
            var r := TryAll(a, gen, t, 0, false);
            !(l.verdict.Accepted? && l.verdict.via.ByCounter?) ==>
              HotpCounter(FinalText(a, l)) == HotpCounter(t)
                + if !a.params.noIncrementHotp && exists m :: 0 <= m < r.mode && InVain(a, gen, t, m) then 1 else 0
  {
    hide *;
    StartUnchanged(a, t);
    LoopIsTryAll(a, gen, t, 0, Start(t));
    MustIff(a, gen, t, 0, false);
    var r := TryAll(a, gen, t, 0, false);
    var l := Modes(a, 0, Start(t));
    AgreeIs(a, l, r);
    SaneIs(a.input, t);
    CounterBehindCheck(a, gen, t);
    CounterInRange(t, a.counter, a.input.now);
    AdvancesIs(a, l.must);
    FinishKeeps(a, l);
  }

  lemma AgreeIs(a: Attempt, l: Loop, r: Tried)
    requires Agree(a, l, r)
    ensures l.verdict == r.checked.verdict && l.text == r.checked.text && l.must == r.checked.must
  {
  }

  lemma AdvancesIs(a: Attempt, must: bool)
    ensures Advances(a, must) == (must && !a.params.noIncrementHotp)
    ensures TWO63 == 0x8000_0000_0000_0000
  {
  }

  /** The check leaves the counter alone if it was not right by it, and only a positive one has to
      advance. */
  lemma CounterBehindCheck(a: Attempt, gen: int -> int, t: string)
    requires Tidy(t) && NoOverflow(t, a.counter, a.input.now)
    ensures var c := TryAll(a, gen, t, 0, false).checked;
            && Tidy(c.text) && (c.must ==> a.counter >= 1)
            && (!(c.verdict.Accepted? && c.verdict.via.ByCounter?) ==> HotpCounter(c.text) == HotpCounter(t))
  {
    hide TryAll, Tidy, NoOverflow, HotpCounter, ViewOf, CheckDone, Effects.Entries, Entered, Check;
    var r := TryAll(a, gen, t, 0, false);
    var must := TryAllIs(a, gen, t, 0, false);
    if r.mode < 4 {
      var code := Entered(a, r.mode).value.0;
      CheckIs(a, gen, t, code, must);
      CheckDoes(t, gen, code, a.counter, a.input.now, a.params.noSkewAdj, must);
      MustNeedsCounter(a, gen, t, code, must);
    } else {
      NotThisDone(t, r.checked, a.counter, a.input.now);
    }
    CheckEntries(t, r.checked, a.counter, a.input.now);
    if !(r.checked.verdict.Accepted? && r.checked.verdict.via.ByCounter?) {
      CounterStays(t, r.checked, a.counter, a.input.now);
    }
  }

  lemma CheckIs(a: Attempt, gen: int -> int, t: string, code: int, must: bool)
    ensures Check(a, gen, t, code, must) == CheckCode(t, gen, code, a.counter, a.input.now, a.params.noSkewAdj, must)
  {
    hide CheckCode;
  }

  lemma CounterStays(t: string, c: Checked, counter: int, now: nat)
    requires Effects.Entries(t, c.text, c.verdict, now) && !(c.verdict.Accepted? && c.verdict.via.ByCounter?)
    ensures HotpCounter(c.text) == HotpCounter(t)
  {
    hide *;
    CounterEntry(t, c.text, c.verdict, now);
    SettingsOf(t, c.text);
  }

  lemma CounterEntry(t: string, u: string, verdict: Verdict, now: nat)
    requires Effects.Entries(t, u, verdict, now) && !(verdict.Accepted? && verdict.via.ByCounter?)
    ensures ViewOf(u).counter == ViewOf(t).counter
  {
    hide ViewOf, RemoveFirst, StepUsed;
    match verdict
    case NotThis =>
    case Failed =>
    case Accepted(via) =>
      match via case ByScratch(x) => case ByCounter(n) => case ByStep(step) => case ByResync(step) =>
  }
}

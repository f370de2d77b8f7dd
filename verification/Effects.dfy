/** What one login does to a well-formed state file, entry by entry. */
module Effects {
  import opened CText
  import opened StateText
  import opened Scratch
  import opened StateInvariant
  import opened Options
  import opened Checks
  import opened Login
  import RateLimit
  import Reuse
  import TimeSkewReset
  import LastLogins
  import Otp

  /** The entries of a file that decide about logins. */
  datatype View = View(
    secret: string, codes: seq<int>, totp: Option<string>, window: Option<string>, step: Option<string>,
    counter: Option<string>, used: Option<string>, skew: Option<string>, resetting: Option<string>,
    rate: Option<string>)

  function ViewOf(t: string): View
  {
    View(SecretLine(t), Codes(t), GetCfgValue(t, "TOTP_AUTH"), GetCfgValue(t, "WINDOW_SIZE"),
         GetCfgValue(t, "STEP_SIZE"),
         GetCfgValue(t, COUNTER_KEY), GetCfgValue(t, Reuse.KEY), GetCfgValue(t, TimeSkewReset.SKEW_KEY),
         GetCfgValue(t, TimeSkewReset.KEY), GetCfgValue(t, RateLimit.KEY))
  }

  lemma KeysValid()
    ensures ValidKey("TOTP_AUTH") && ValidKey("WINDOW_SIZE") && ValidKey("STEP_SIZE") && ValidKey(COUNTER_KEY)
         && ValidKey(Reuse.KEY) && ValidKey(TimeSkewReset.SKEW_KEY) && ValidKey(TimeSkewReset.KEY)
               && ValidKey(RateLimit.KEY)
  {
  }

  /** No two of the keys are the same. */
  lemma KeysApart()
    ensures |COUNTER_KEY| == 12 && |Reuse.KEY| == 14 && |TimeSkewReset.KEY| == 19 && |RateLimit.KEY| == 10
    ensures |"TOTP_AUTH"| == 9 && |"WINDOW_SIZE"| == 11 && |"STEP_SIZE"| == 9 && |TimeSkewReset.SKEW_KEY| == 9
    ensures TimeSkewReset.SKEW_KEY != "TOTP_AUTH" && TimeSkewReset.SKEW_KEY != "STEP_SIZE"
  {
    assert TimeSkewReset.SKEW_KEY[1] == 'I' && "TOTP_AUTH"[1] == 'O' && "STEP_SIZE"[1] == 'T';
  }

  /** An edit of one key, or of none that the view has. */
  lemma ViewAfter(t: string, u: string, keys: set<string>)
    requires SameBut(t, u, keys)
    ensures keys == {RateLimit.KEY} ==> ViewOf(u) == ViewOf(t).(rate := ViewOf(u).rate)
    ensures keys == {COUNTER_KEY} ==> ViewOf(u) == ViewOf(t).(counter := ViewOf(u).counter)
    ensures keys == {Reuse.KEY} ==> ViewOf(u) == ViewOf(t).(used := ViewOf(u).used)
    ensures keys == {TimeSkewReset.KEY} ==> ViewOf(u) == ViewOf(t).(resetting := ViewOf(u).resetting)
    ensures keys == {TimeSkewReset.KEY, TimeSkewReset.SKEW_KEY} ==>
              ViewOf(u) == ViewOf(t).(resetting := ViewOf(u).resetting, skew := ViewOf(u).skew)
    ensures (forall k :: k in keys ==> |k| == 5) ==> ViewOf(u) == ViewOf(t)
  {
    hide GetCfgValue, ValidKey, Tidy, SecretLine, Codes;
    KeysValid();
    KeysApart();
  }

  lemma ViewAfterScratch(t: string, u: string)
    requires SecretLine(u) == SecretLine(t) && SameOptions(t, u, {})
    ensures ViewOf(u) == ViewOf(t).(codes := Codes(u))
  {
    hide GetCfgValue, ValidKey, SecretLine, Codes;
    KeysValid();
  }

  /** Equal entries make equal settings. */
  lemma SettingsOf(t: string, u: string)
    ensures ViewOf(t).window == ViewOf(u).window ==> WindowSize(t) == WindowSize(u)
    ensures ViewOf(t).step == ViewOf(u).step ==> StepSize(t) == StepSize(u)
    ensures ViewOf(t).counter == ViewOf(u).counter ==> HotpCounter(t) == HotpCounter(u)
    ensures ViewOf(t).skew == ViewOf(u).skew ==> TimeSkew(t) == TimeSkew(u)
    ensures ViewOf(t).used == ViewOf(u).used ==> Reuse.Used(t) == Reuse.Used(u)
  {
    hide GetCfgValue, InRange, Strtol, Reuse.Entries, ToInt32, Codes, SecretLine;
    if ViewOf(t).window == ViewOf(u).window { WindowOf(t, u); }
    if ViewOf(t).step == ViewOf(u).step { StepOf(t, u); }
    hide WindowSize, StepSize;
  }

  lemma WindowOf(t: string, u: string)
    requires GetCfgValue(t, "WINDOW_SIZE") == GetCfgValue(u, "WINDOW_SIZE")
    ensures WindowSize(t) == WindowSize(u)
  {
    hide GetCfgValue, InRange;
  }

  lemma StepOf(t: string, u: string)
    requires GetCfgValue(t, "STEP_SIZE") == GetCfgValue(u, "STEP_SIZE")
    ensures StepSize(t) == StepSize(u)
  {
    hide GetCfgValue, InRange;
  }

  /** ... and equal steps. */
  lemma TimeStepOf(t: string, u: string, now: nat)
    requires StepSize(t) == StepSize(u)
    ensures TimeStep(t, now) == TimeStep(u, now)
  {
    hide StepSize, ToInt32;
  }

  // ---- the stages of a login ------------------------------------------------------------------

  /** A host name without line ends, a time that fits an unsigned int, and no overflow in the
      module's own arithmetic. */
  predicate Sane(i: Input, t: string)
  {
    && (i.host.Some? ==> All(NotEol, i.host.value))
    && i.now < TWO32 && NoOverflow(t, HotpCounter(t), i.now)
  }

  lemma SaneIs(i: Input, t: string)
    requires Sane(i, t)
    ensures (i.host.Some? ==> All(NotEol, i.host.value)) && i.now < TWO32 && NoOverflow(t, HotpCounter(t), i.now)
  {
    hide NoOverflow, HotpCounter, All;
  }

  lemma RateKeeps(t: string, now: nat)
    requires Tidy(t) && now < TWO32
    ensures var (d, u) := RateLimit.Check(t, now);
            && Tidy(u) && ViewOf(u) == ViewOf(t).(rate := ViewOf(u).rate)
            && (d.Unlimited? || d.Invalid? ==> u == t)
  {
    hide GetCfgValue, SetCfgValue, Tidy, SameBut, RateLimit.ParseLimits, RateLimit.PrintLimits, RateLimit.Recent,
         RateLimit.Newest, ViewOf, ValidValue, Strip, RateLimit.ValidLimits;
    var v := GetCfgValue(t, RateLimit.KEY);
    if v.Some? && RateLimit.ParseLimits(v.value).Some? {
      var l := RateLimit.ParseLimits(v.value).value;
      var kept := l.(stamps := RateLimit.Newest(l.attempts, RateLimit.Recent(l, now)));
      RateLimit.KeyValid();
      RateLimit.RecentValid(l, now);
      RateLimit.LimitsReadBack(kept);
      SetKeeps(t, RateLimit.KEY, RateLimit.PrintLimits(kept));
      var u := SetCfgValue(t, RateLimit.KEY, RateLimit.PrintLimits(kept));
      ViewAfter(t, u, {RateLimit.KEY});
      TidyBoth(t, u, {RateLimit.KEY});
    } else {
      SameView(t);
    }
  }

  lemma TidyBoth(t: string, u: string, keys: set<string>)
    requires SameBut(t, u, keys)
    ensures Tidy(t) && Tidy(u)
  {
    hide Tidy;
  }

  lemma SameView(t: string)
    ensures ViewOf(t) == ViewOf(t).(rate := ViewOf(t).rate)
  {
  }

  /** What a verdict says about the entries before and after the check. */
  ghost predicate Entries(t: string, u: string, verdict: Verdict, now: nat)
  {
    var v, w := ViewOf(t), ViewOf(u);
    match verdict
    case NotThis => w == v
    case Failed => w == v.(resetting := w.resetting)
    case Accepted(via) =>
      match via
      case ByScratch(code) => code in v.codes && w == v.(codes := RemoveFirst(v.codes, code))
      case ByCounter(n) => w == v.(counter := w.counter)
      case ByStep(step) => w == v.(used := w.used) && StepUsed(t, u, now, step)
      case ByResync(step) => w == v.(resetting := w.resetting, skew := w.skew)
  }

  lemma CheckEntries(t: string, c: Checked, counter: int, now: nat)
    requires Tidy(t) && CheckDone(t, c, counter, now)
    ensures Tidy(c.text) && Entries(t, c.text, c.verdict, now)
  {
    hide ViewOf, Tidy, SameBut, SecretLine, SameOptions, WindowSize, HotpCounter, TimeStep, TimeSkew, Reuse.Used,
         GetCfgValue, RemoveFirst;
    match c.verdict
    case NotThis =>
    case Failed => AfterEdit(t, c.text, {TimeSkewReset.KEY});
    case Accepted(via) =>
      match via
      case ByScratch(code) => ViewAfterScratch(t, c.text); CodesIn(t);
      case ByCounter(n) => AfterEdit(t, c.text, {COUNTER_KEY});
      case ByStep(step) => AfterEdit(t, c.text, {Reuse.KEY});
      case ByResync(step) => AfterEdit(t, c.text, {TimeSkewReset.KEY, TimeSkewReset.SKEW_KEY});
  }

  lemma CodesIn(t: string)
    ensures ViewOf(t).codes == Codes(t) && ViewOf(t).secret == SecretLine(t)
  {
  }

  lemma AfterEdit(t: string, u: string, keys: set<string>)
    requires SameBut(t, u, keys)
    ensures Tidy(u)
    ensures keys == {COUNTER_KEY} ==> ViewOf(u) == ViewOf(t).(counter := ViewOf(u).counter)
    ensures keys == {Reuse.KEY} ==> ViewOf(u) == ViewOf(t).(used := ViewOf(u).used)
    ensures keys == {TimeSkewReset.KEY} ==> ViewOf(u) == ViewOf(t).(resetting := ViewOf(u).resetting)
    ensures keys == {TimeSkewReset.KEY, TimeSkewReset.SKEW_KEY} ==>
              ViewOf(u) == ViewOf(t).(resetting := ViewOf(u).resetting, skew := ViewOf(u).skew)
  {
    hide ViewOf, Tidy, SecretLine, SameOptions, Codes;
    ViewAfter(t, u, keys);
  }

  /** Behind the loop only the counter may go up by one; the record of hosts is not in the view. */
  lemma FinishKeeps(a: Attempt, l: Loop)
    requires Tidy(l.text) && (Advances(a, l.must) ==> 0 <= a.counter + 1 < TWO63)
    requires a.input.host.Some? ==> All(NotEol, a.input.host.value)
    ensures var u := FinalText(a, l);
            && Tidy(u) && ViewOf(u) == ViewOf(l.text).(counter := ViewOf(u).counter)
            && HotpCounter(u) == if Advances(a, l.must) then a.counter + 1 else HotpCounter(l.text)
  {
    hide Tidy, ViewOf, SetCfgValue, HotpCounter, LastLogins.UpdateLoginDetails, SameBut, DecInt, All;
    var s := Advance(a, l.text, l.must);
    if Advances(a, l.must) {
      CounterStored(l.text, a.counter + 1);
      AfterEdit(l.text, s, {COUNTER_KEY});
    }
    DetailsKeep(a, s, Succeeds(a, l));
  }

  lemma DetailsKeep(a: Attempt, t: string, success: bool)
    requires Tidy(t) && (a.input.host.Some? ==> All(NotEol, a.input.host.value))
    ensures var u := Details(a, t, success); Tidy(u) && ViewOf(u) == ViewOf(t) && HotpCounter(u) == HotpCounter(t)
  {
    hide Tidy, ViewOf, SetCfgValue, HotpCounter, SameBut, All, LastLogins.FindSlot, LastLogins.SlotValue, ValidKey,
         GetCfgValue;
    if Recorded(a, success) && a.input.host.Some? {
      var host := a.input.host.value;
      var r := LastLogins.FindSlot(t, host, 0, a.input.now, -1);
      LastLogins.NameFacts();
      SlotValueValid(host, a.input.now);
      SetKeeps(t, LastLogins.Name(r), LastLogins.SlotValue(host, a.input.now));
      var u := Details(a, t, success);
      ViewAfter(t, u, {LastLogins.Name(r)});
      TidyBoth(t, u, {LastLogins.Name(r)});
      SettingsOf(t, u);
    }
  }

  lemma SlotValueValid(host: string, now: nat)
    requires All(NotEol, host)
    ensures ValidValue(LastLogins.SlotValue(host, now))
  {
    hide In, Dec;
    Reuse.DecIntChars(now);
    OneBlank();
    AllConcat(NotEol, host, " ");
    AllConcat(NotEol, host + " ", Dec(now));
    var s := host + " " + Dec(now);
    var n := if |s| <= LastLogins.VALUE_SIZE - 1 then |s| else LastLogins.VALUE_SIZE - 1;
    AllSplit(NotEol, s, n);
    assert |s| <= LastLogins.VALUE_SIZE - 1 ==> s[..n] == s;
  }

  // ---- the whole login ------------------------------------------------------------------------

  lemma AttemptIs(p: Params, i: Input, otp: Coder, t: string)
    ensures var a := NewAttempt(p, i, otp, t); a.input == i && a.params == p && a.counter == HotpCounter(t)
  {
    hide HotpCounter, Otp.SharedSecret;
  }

  /** The decisive code, and every code before it, were checked against the same file. */
  lemma {:induction false} TryAllIs(a: Attempt, gen: int -> int, t: string, mode: nat, must: bool) returns (must': bool)
    requires mode <= 4
    ensures var r := TryAll(a, gen, t, mode, must);
            && (r.mode == 4 ==> r.checked == Checked(NotThis, t, false, must'))
            && (r.mode < 4 ==> Entered(a, r.mode).Some? && !r.checked.verdict.NotThis?
                               && r.checked == Check(a, gen, t, Entered(a, r.mode).value.0, must'))
            && (must' ==> must || a.counter >= 1)
    decreases 4 - mode
  {
    hide Entered, Check, TryAll;
    must' := must;
    if mode == 4 {
      TryAllEnd(a, gen, t, must);
    } else {
      TryAllStep(a, gen, t, mode, must);
      match Entered(a, mode)
      case None => must' := TryAllIs(a, gen, t, mode + 1, must);
      case Some(entry) =>
        var c := Check(a, gen, t, entry.0, must);
        MustNeedsCounter(a, gen, t, entry.0, must);
        if c.verdict.NotThis? { must' := TryAllIs(a, gen, t, mode + 1, c.must); }
    }
  }

  lemma TryAllEnd(a: Attempt, gen: int -> int, t: string, must: bool)
    ensures TryAll(a, gen, t, 4, must) == Tried(Checked(NotThis, t, false, must), 4)
  {
  }

  lemma MustNeedsCounter(a: Attempt, gen: int -> int, t: string, code: int, must: bool)
    ensures Check(a, gen, t, code, must).must ==> must || a.counter >= 1
  {
    hide CheckScratchCodes, CheckTime, WindowSize, FirstMatch, SetCfgValue, DecInt;
    if CheckScratchCodes(t, code).None? && a.counter <= 0 {
      TimeKeepsMust(t, gen, code, a.input.now, a.params.noSkewAdj, must);
    }
  }

  lemma TimeKeepsMust(t: string, gen: int -> int, code: int, now: nat, noSkewAdj: bool, must: bool)
    ensures CheckTime(t, gen, code, now, noSkewAdj, must).must == must
  {
    hide IsTotp, TimeStep, WindowSize, TimeSkew, FirstMatch, FindSkew, Reuse.Invalidate, TimeSkewReset.Check,
         GetCfgValue;
  }

  function NewFile(o: Outcome, file: string): string { if o.write.Some? then o.write.value else file }

  /** The counter after a login. */
  predicate CounterMoves(t: string, u: string, verdict: Verdict)
  {
    var c, c' := HotpCounter(t), HotpCounter(u);
    if verdict.Accepted? && verdict.via.ByCounter? then
      1 <= c <= verdict.via.counter < c + WindowSize(t) && c' == verdict.via.counter + 1
    else c' == c || (c >= 1 && c' == c + 1)
  }

  /** The used time steps after a login. */
  predicate UsedMoves(t: string, u: string, verdict: Verdict, now: nat)
  {
    if verdict.Accepted? && verdict.via.ByStep? then StepTaken(t, u, now, verdict.via.step)
    else ViewOf(u).used == ViewOf(t).used
  }

  predicate StepTaken(t: string, u: string, now: nat, step: int)
  {
    && WindowSize(t) > 0 && Reuse.InWindow(step, TimeStep(t, now), TimeSkew(t), WindowSize(t))
    && match Reuse.Used(t)
       case None => ViewOf(t).used.None? && ViewOf(u).used.None?
       case Some(used) =>
         && step !in used
         && Reuse.Used(u) == Some(Reuse.Near(used, step, WindowSize(t)) + [step])
  }

  predicate CodesMove(v: View, w: View, verdict: Verdict)
  {
    if verdict.Accepted? && verdict.via.ByScratch? then
      verdict.via.code in v.codes && w.codes == RemoveFirst(v.codes, verdict.via.code)
    else w.codes == v.codes
  }

  /** What a login does to each entry of the file. */
  predicate Moves(t: string, u: string, verdict: Verdict, now: nat)
  {
    var v, w := ViewOf(t), ViewOf(u);
    && w.secret == v.secret && w.totp == v.totp && w.window == v.window && w.step == v.step
    && CodesMove(v, w, verdict) && CounterMoves(t, u, verdict) && UsedMoves(t, u, verdict, now)
    && (!(verdict.Accepted? && verdict.via.ByResync?) ==> w.skew == v.skew)
  }

  lemma Stays(t: string, now: nat)
    ensures Moves(t, t, NotThis, now)
  {
    hide ViewOf, HotpCounter, WindowSize;
  }

  /** The check, and what follows it, on the file that rate_limit left. */
  lemma LoopMoves(a: Attempt, t: string, l: Loop, gen: int -> int)
    requires Tidy(t) && Sane(a.input, t) && a.gen == Some(gen) && a.counter == HotpCounter(t)
    requires l == Modes(a, 0, Start(t))
    ensures var u := FinalText(a, l);
            && Tidy(u) && Moves(t, u, l.verdict, a.input.now) && ViewOf(u).rate == ViewOf(t).rate
            && !l.guarded && (!l.updated ==> l.text == t)
  {
    hide Modes, TryAll, Tidy, NoOverflow, HotpCounter, ViewOf, CheckDone, Entries, FinalText, Moves, Prompts, Entered,
         All;
    LoopIsTryAll(a, gen, t, 0, Start(t));
    var r := TryAll(a, gen, t, 0, false);
    var must := TryAllIs(a, gen, t, 0, false);
    var now := a.input.now;
    if r.mode < 4 {
      var code := Entered(a, r.mode).value.0;
      CheckDoes(t, gen, code, a.counter, now, a.params.noSkewAdj, must);
      NothingChanged(t, gen, code, a.counter, now, a.params.noSkewAdj, must);
      MustNeedsCounter(a, gen, t, code, must);
    } else {
      NotThisDone(t, r.checked, a.counter, now);
    }
    CheckEntries(t, r.checked, a.counter, now);
    CounterInRange(t, a.counter, now);
    FinishKeeps(a, l);
    CounterAfter(a, t, r.checked, FinalText(a, l), now);
    Compose(t, l.text, FinalText(a, l), l.verdict, now);
  }

  lemma CounterAfter(a: Attempt, t: string, c: Checked, u: string, now: nat)
    requires CheckDone(t, c, a.counter, now) && Entries(t, c.text, c.verdict, now) && a.counter == HotpCounter(t)
    requires c.must ==> a.counter >= 1
    requires HotpCounter(u) == if Advances(a, c.must) then a.counter + 1 else HotpCounter(c.text)
    ensures CounterMoves(t, u, c.verdict)
  {
    hide ViewOf, HotpCounter, WindowSize, SameBut, ScratchUsed, StepUsed, RemoveFirst, Tidy;
    SettingsOf(t, c.text);
  }

  /** The check changes its entries, and what follows the loop only the counter. */
  lemma Compose(t: string, mid: string, u: string, verdict: Verdict, now: nat)
    requires Entries(t, mid, verdict, now) && CounterMoves(t, u, verdict)
    requires ViewOf(u) == ViewOf(mid).(counter := ViewOf(u).counter)
    ensures Moves(t, u, verdict, now) && ViewOf(u).rate == ViewOf(t).rate
  {
    hide ViewOf, HotpCounter, WindowSize, SameBut, RemoveFirst, CounterMoves, Reuse.InWindow, TimeStep, TimeSkew,
         Reuse.Used, Reuse.Near;
    SettingsOf(mid, u);
    if verdict.Accepted? && verdict.via.ByStep? { UsedEntry(t); UsedEntry(u); UsedEntry(mid); }
  }

  lemma UsedEntry(t: string)
    ensures ViewOf(t).used == GetCfgValue(t, Reuse.KEY)
    ensures ViewOf(t).used.None? ==> Reuse.Used(t).None?
  {
    hide GetCfgValue, SecretLine, Codes;
  }

  lemma NotThisDone(t: string, c: Checked, counter: int, now: nat)
    requires c.verdict == NotThis && c.text == t
    ensures CheckDone(t, c, counter, now)
  {
  }

  lemma CounterInRange(t: string, counter: int, now: nat)
    requires NoOverflow(t, counter, now) && counter == HotpCounter(t)
    ensures -TWO63 <= counter < TWO63 - 200
  {
    hide StepSize, TimeSkew, GetCfgValue;
    if GetCfgValue(t, COUNTER_KEY).Some? { StrtolBounded(GetCfgValue(t, COUNTER_KEY).value); }
  }

  lemma StrtolBounded(s: string)
    ensures -TWO63 <= Strtol(s).value < TWO63
  {
    hide Magnitude;
  }

  /** Starting from a file that differs in the rate limit only. */
  lemma MovesFrom(file: string, t: string, u: string, verdict: Verdict, now: nat)
    requires ViewOf(t) == ViewOf(file).(rate := ViewOf(t).rate) && Moves(t, u, verdict, now)
    ensures Moves(file, u, verdict, now)
  {
    hide ViewOf, HotpCounter, WindowSize, TimeStep, TimeSkew, StepSize, Reuse.Used, Reuse.Near, Reuse.InWindow,
         RemoveFirst;
    SettingsOf(file, t);
    TimeStepOf(file, t, now);
  }

  lemma SaneFrom(i: Input, file: string, t: string)
    requires ViewOf(t) == ViewOf(file).(rate := ViewOf(t).rate) && Sane(i, file)
    ensures Sane(i, t) && HotpCounter(t) == HotpCounter(file)
  {
    hide ViewOf, HotpCounter, TimeSkew, StepSize, All;
    SettingsOf(file, t);
  }

  lemma NotWritten(a: Attempt, l: Loop, early: bool, file: string, t: string)
    requires (!early ==> t == file) && (!l.updated ==> l.text == t)
    ensures NewFile(AfterLoop(a, l, early), file) == FinalText(a, l)
  {
    hide LastLogins.UpdateLoginDetails, SetCfgValue;
  }

  /** An accepted code other than a time step in a file that does not list used ones. */
  predicate Spent(v: View, verdict: Verdict)
  {
    verdict.Accepted? && (verdict.via.ByStep? ==> v.used.Some?)
  }

  /** What a login did. */
  predicate LoginDone(file: string, u: string, o: Outcome, now: nat)
  {
    var (decision, t) := RateLimit.Check(file, ToUInt32(now));
    && Moves(file, u, o.verdict, now)
    && ViewOf(u).rate == (if o.grace then ViewOf(file).rate else ViewOf(t).rate)
    && (o.success ==> o.grace || o.verdict.Accepted?)
    && (o.grace ==> o.success && u == file && o.write.None? && o.verdict == NotThis)
    && (o.verdict.Accepted? ==> decision.Admitted? || decision.Unlimited?)
    && (Spent(ViewOf(file), o.verdict) ==> o.write.Some?)
  }

  /** One login, from the file that was read to the file it leaves: no entry changes but those its
      verdict changes, and nothing is accepted that is not also written down. */
  lemma LoginMoves(p: Params, i: Input, otp: Coder, file: string)
    requires Tidy(file) && Sane(i, file)
    ensures var o := Authenticate(p, i, otp, file);
            Tidy(NewFile(o, file)) && LoginDone(file, NewFile(o, file), o, i.now)
    ensures Authenticate(p, i, otp, file).guarded ==> Otp.SharedSecret(RateLimit.Check(file, ToUInt32(i.now)).1).None?
  {
    hide Tidy, NoOverflow, HotpCounter, ViewOf, Modes, InGracePeriod, RateLimit.Check, Otp.SharedSecret, Moves,
         FinalText, All, Spent, AfterLoop, NewFile, Sane;
    var o := Authenticate(p, i, otp, file);
    var (decision, t) := RateLimit.Check(file, ToUInt32(i.now));
    var early := decision.Admitted? || decision.Exceeded?;
    NowFits(i, file);
    RateKeeps(file, ToUInt32(i.now));
    SaneFrom(i, file, t);
    Stays(t, i.now);
    MovesFrom(file, t, t, NotThis, i.now);
    Stays(file, i.now);
    if InGracePeriod(p, i, t) || decision.Invalid? || decision.Exceeded? {
      Stopped(o, file, t);
    } else {
      var a := NewAttempt(p, i, otp, t);
      var l := Modes(a, 0, Start(t));
      if a.gen.None? {
        StartUnchanged(a, t);
        GuardFires(a, t, 0, Start(t));
        FinalNothing(a, l);
      } else {
        LoopMoves(a, t, l, a.gen.value);
        MovesFrom(file, t, FinalText(a, l), l.verdict, i.now);
        LoopSpent(a, t, l, a.gen.value, early);
      }
      SameUsed(file, t, l.verdict);
      NotWritten(a, l, early, file, t);
      AfterLoopFacts(a, l, early);
    }
  }

  lemma NowFits(i: Input, t: string)
    requires Sane(i, t)
    ensures ToUInt32(i.now) == i.now < TWO32
  {
  }

  lemma Stopped(o: Outcome, file: string, t: string)
    requires o.write == None || o.write == Some(t)
    requires o.verdict == NotThis
    ensures NewFile(o, file) == (if o.write.None? then file else t) && !Spent(ViewOf(file), o.verdict)
  {
    hide ViewOf;
  }

  lemma StartUnchanged(a: Attempt, t: string)
    ensures Unchanged(a, t, 0, Start(t)) && !Start(t).must
  {
  }

  lemma FinalNothing(a: Attempt, l: Loop)
    requires !l.must && l.verdict == NotThis
    ensures FinalText(a, l) == l.text && !Spent(ViewOf(l.text), l.verdict)
  {
    hide ViewOf;
  }

  lemma AfterLoopFacts(a: Attempt, l: Loop, early: bool)
    ensures var o := AfterLoop(a, l, early);
            && o.verdict == l.verdict && !o.grace && o.guarded == l.guarded && (o.success ==> l.verdict.Accepted?)
            && (l.updated ==> o.write.Some?)
  {
    hide FinalText;
  }

  lemma SameUsed(file: string, t: string, verdict: Verdict)
    requires ViewOf(t) == ViewOf(file).(rate := ViewOf(t).rate)
    ensures Spent(ViewOf(t), verdict) == Spent(ViewOf(file), verdict)
  {
    hide ViewOf;
  }

  /** Whatever is spent sets `updated`. */
  lemma LoopSpent(a: Attempt, t: string, l: Loop, gen: int -> int, early: bool)
    requires a.gen == Some(gen) && l == Modes(a, 0, Start(t))
    ensures Spent(ViewOf(t), l.verdict) ==> l.updated
  {
    hide Modes, TryAll, ViewOf, Entered, Prompts, Check;
    LoopIsTryAll(a, gen, t, 0, Start(t));
    var r := TryAll(a, gen, t, 0, false);
    var must := TryAllIs(a, gen, t, 0, false);
    if r.mode < 4 { CheckSpends(a, gen, t, Entered(a, r.mode).value.0, must); }
  }

  lemma CheckSpends(a: Attempt, gen: int -> int, t: string, code: int, must: bool)
    ensures var c := Check(a, gen, t, code, must); Spent(ViewOf(t), c.verdict) ==> c.updated
  {
    hide ViewOf, CheckScratchCodes, CheckCounter, CheckTime;
    if CheckScratchCodes(t, code).None? {
      if a.counter > 0 { CounterSpends(t, gen, code, a.counter, must); }
      else { TimeSpends(t, gen, code, a.input.now, a.params.noSkewAdj, must); }
    }
  }

  lemma CounterSpends(t: string, gen: int -> int, code: int, counter: int, must: bool)
    ensures var c := CheckCounter(t, gen, code, counter, must); c.verdict.Accepted? ==> c.updated
  {
    hide WindowSize, SetCfgValue, DecInt, FirstMatch, SixDigits;
  }

  lemma TimeSpends(t: string, gen: int -> int, code: int, now: nat, noSkewAdj: bool, must: bool)
    ensures var c := CheckTime(t, gen, code, now, noSkewAdj, must); Spent(ViewOf(t), c.verdict) ==> c.updated
  {
    hide ViewOf, IsTotp, TimeStep, WindowSize, TimeSkew, StepMatch, UseStep, Resync, SixDigits;
    if TimeStep(t, now) != 0 && WindowSize(t) != 0 {
      match StepMatch(gen, code, TimeStep(t, now) + TimeSkew(t), WindowSize(t))
      case Some(step) => StepSpends(t, step, must);
      case None => ResyncSpends(t, gen, code, TimeStep(t, now), must);
    }
  }

  lemma StepSpends(t: string, step: int, must: bool)
    ensures var c := UseStep(t, step, must); Spent(ViewOf(t), c.verdict) ==> c.updated
  {
    hide ViewOf, Reuse.Invalidate, GetCfgValue;
    UsedEntry(t);
  }

  lemma ResyncSpends(t: string, gen: int -> int, code: int, server: int, must: bool)
    ensures var c := Resync(t, gen, code, server, must); c.verdict.Accepted? ==> c.updated
  {
    hide FindSkew, TimeSkewReset.Check;
  }

  /** No login is let in by a code that was not entered, nor by one that does not match: some mode's
      code is the listed scratch code, or that of the least number in the window. */
  lemma AcceptedIsEntered(p: Params, i: Input, otp: Coder, file: string) returns (mode: nat)
    requires Authenticate(p, i, otp, file).verdict.Accepted?
    ensures var (decision, t) := RateLimit.Check(file, ToUInt32(i.now));
            var a := NewAttempt(p, i, otp, t);
            && (decision.Admitted? || decision.Unlimited?)
            && Otp.SharedSecret(t).Some? && mode < 4 && Entered(a, mode).Some?
            && Explains(Authenticate(p, i, otp, file).verdict.via, otp(Otp.SharedSecret(t).value),
                        Entered(a, mode).value.0, t, HotpCounter(t), i.now)
  {
    hide RateLimit.Check, InGracePeriod, Modes, Entered, Prompts, CheckCode, TryAll, Otp.SharedSecret, HotpCounter,
         Explains, FinalText;
    var (decision, t) := RateLimit.Check(file, ToUInt32(i.now));
    var a := NewAttempt(p, i, otp, t);
    mode := 0;
    if a.gen.None? {
      GuardFires(a, t, 0, Start(t));
    } else {
      LoopIsTryAll(a, a.gen.value, t, 0, Start(t));
      var must := TryAllIs(a, a.gen.value, t, 0, false);
      mode := TryAll(a, a.gen.value, t, 0, false).mode;
      if mode < 4 {
        AcceptedIsExplained(t, a.gen.value, Entered(a, mode).value.0, a.counter, i.now, p.noSkewAdj, must);
      }
    }
  }
}

/** google_authenticator: from the state file and what the user types to a verdict and the file to
    be written. */
module Login {
  import opened CText
  import opened StateText
  import opened Options
  import opened Entry
  import opened Checks
  import RateLimit
  import LastLogins
  import Otp

  datatype PassMode = Prompt | TryFirstPass | UseFirstPass

  /** The module's arguments. */
  datatype Params = Params(
    passMode: PassMode, forwardPass: bool, noSkewAdj: bool, noIncrementHotp: bool, gracePeriod: nat)

  /** What comes from outside: the password an earlier module left, the answers to a first and a
      second prompt, the remote host, the time, and whether PAM_AUTHTOK could be set. */
  datatype Input = Input(
    firstPass: Option<string>, reply: Option<string>, again: Option<string>, host: Option<string>, now: nat,
    itemSet: bool)

  /** What the mode loop works with. The generator stands for compute_code with the decoded
      secret; there is none if the file has no valid secret. */
  datatype Attempt = Attempt(params: Params, input: Input, gen: Option<int -> int>, counter: int)

  /** The local variables of the mode loop, and whether its guard has fired. */
  datatype Loop = Loop(
    text: string, updated: bool, must: bool, pw: Option<string>, saved: Option<string>,
    prompts: nat, verdict: Verdict, guarded: bool)

  function Start(t: string): Loop { Loop(t, false, false, None, None, 0, NotThis, false) }

  // ---- the mode loop ------------------------------------------------------------------------

  /** The switch that gets hold of a password. */
  function Obtain(a: Attempt, mode: nat, l: Loop): Loop
  {
    if mode < 2 then (if a.params.passMode == Prompt then l else l.(pw := a.input.firstPass))
    else if a.params.passMode == UseFirstPass then l
    else if l.saved.Some? then l.(pw := l.saved)
    else
      var answer := if l.prompts == 0 then a.input.reply else a.input.again;
      l.(saved := answer, pw := answer, prompts := l.prompts + 1)
  }

  predicate Alone(a: Attempt, mode: nat) { mode >= 2 && !a.params.forwardPass }

  function Check(a: Attempt, gen: int -> int, t: string, code: int, must: bool): Checked
  {
    CheckCode(t, gen, code, a.counter, a.input.now, a.params.noSkewAdj, must)
  }

  function After(l: Loop, c: Checked): Loop
  {
    l.(text := c.text, updated := l.updated || c.updated, must := c.must, verdict := c.verdict)
  }

  /** The loop from mode `mode` on. */
  function Modes(a: Attempt, mode: nat, l: Loop): Loop
    requires mode <= 4
    decreases 4 - mode
  {
    if mode == 4 then l
    else if l.updated || l.pw.Some? then l.(pw := None, guarded := true)
    else
      var o := Obtain(a, mode, l);
      if o.pw.None? then Modes(a, mode + 1, o)
      else
        match Parse(o.pw.value, mode, Alone(a, mode))
        case None => Modes(a, mode + 1, o.(pw := None))
        case Some((code, password)) =>
          match a.gen
          case None => Modes(a, mode + 1, o.(pw := Some(password)))
          case Some(gen) =>
            var c := Check(a, gen, o.text, code, o.must);
            if c.verdict.NotThis? then Modes(a, mode + 1, After(o, c).(pw := None))
            else After(o, c).(pw := Some(password))
  }

  // ---- the same, plainly --------------------------------------------------------------------

  /** What is typed for a mode: the second answer counts only if there was no first one. */
  function Typed(a: Attempt, mode: nat): Option<string>
  {
    if mode < 2 then (if a.params.passMode == Prompt then None else a.input.firstPass)
    else if a.params.passMode == UseFirstPass then None
    else if mode == 2 || a.input.reply.Some? then a.input.reply
    else a.input.again
  }

  function Entered(a: Attempt, mode: nat): Option<(int, string)>
  {
    match Typed(a, mode) case None => None case Some(pw) => Parse(pw, mode, Alone(a, mode))
  }

  /** What is typed first: the password of an earlier module if that may be used, else the answer. */
  function FirstTyped(p: Params, i: Input): Option<string>
  {
    if p.passMode == Prompt then i.reply else i.firstPass
  }

  datatype Tried = Tried(checked: Checked, mode: nat)

  /** Every code that was entered is checked against the same file until one is decisive. */
  function TryAll(a: Attempt, gen: int -> int, t: string, mode: nat, must: bool): (r: Tried)
    requires mode <= 4
    ensures mode <= r.mode <= 4
    decreases 4 - mode
  {
    if mode == 4 then Tried(Checked(NotThis, t, false, must), 4)
    else
      match Entered(a, mode)
      case None => TryAll(a, gen, t, mode + 1, must)
      case Some((code, password)) =>
        var c := Check(a, gen, t, code, must);
        if c.verdict.NotThis? then TryAll(a, gen, t, mode + 1, c.must) else Tried(c, mode)
  }

  /** How often the user is asked when mode `mode` is decisive: never if that is one of the first
      two or the module may not ask, else once, and once more if there was no answer at all. */
  function Prompts(a: Attempt, mode: nat): nat
  {
    if mode < 2 || a.params.passMode == UseFirstPass then 0 else if a.input.reply.Some? then 1 else 2
  }

  /** What holds whenever a mode begins: nothing has changed. */
  predicate Unchanged(a: Attempt, t: string, mode: nat, l: Loop)
  {
    && l.text == t && !l.updated && l.pw.None? && l.verdict == NotThis && !l.guarded
    && (if mode <= 2 || a.params.passMode == UseFirstPass then l.saved.None? && l.prompts == 0
        else l.saved == (if a.input.reply.Some? || mode == 3 then a.input.reply else a.input.again)
             && l.prompts == if mode == 3 || a.input.reply.Some? then 1 else 2)
  }

  lemma ObtainTyped(a: Attempt, t: string, mode: nat, l: Loop)
    requires mode < 4 && Unchanged(a, t, mode, l)
    ensures var o := Obtain(a, mode, l);
            o.pw == Typed(a, mode) && Unchanged(a, t, mode + 1, o.(pw := None)) && o.must == l.must
    ensures Typed(a, mode).Some? ==> Obtain(a, mode, l).prompts == Prompts(a, mode)
  {
  }

  lemma ModesStep(a: Attempt, mode: nat, l: Loop)
    requires mode < 4 && !l.updated && l.pw.None?
    ensures var o := Obtain(a, mode, l);
            && (o.pw.None? ==> Modes(a, mode, l) == Modes(a, mode + 1, o))
            && (o.pw.Some? ==>
                  match Parse(o.pw.value, mode, Alone(a, mode))
                  case None => Modes(a, mode, l) == Modes(a, mode + 1, o.(pw := None))
                  case Some(entry) =>
                    match a.gen
                    case None => Modes(a, mode, l) == Modes(a, mode + 1, o.(pw := Some(entry.1)))
                    case Some(gen) =>
                      var c := Check(a, gen, o.text, entry.0, o.must);
                      Modes(a, mode, l) == if c.verdict.NotThis? then Modes(a, mode + 1, After(o, c).(pw := None))
                                           else After(o, c).(pw := Some(entry.1)))
  {
    hide Obtain, Parse, Check, After, Alone;
  }

  lemma TryAllStep(a: Attempt, gen: int -> int, t: string, mode: nat, must: bool)
    requires mode < 4
    ensures match Entered(a, mode)
            case None => TryAll(a, gen, t, mode, must) == TryAll(a, gen, t, mode + 1, must)
            case Some(entry) =>
              var c := Check(a, gen, t, entry.0, must);
              TryAll(a, gen, t, mode, must)
              == if c.verdict.NotThis? then TryAll(a, gen, t, mode + 1, c.must) else Tried(c, mode)
  {
    hide Entered, Check;
  }

  /** The loop's result is that of the plain form. */
  predicate Agree(a: Attempt, l: Loop, r: Tried)
  {
    && !l.guarded
    && Checked(l.verdict, l.text, l.updated, l.must) == r.checked
    && l.prompts == Prompts(a, r.mode)
    && (r.mode < 4 ==> Entered(a, r.mode).Some? && l.pw == Some(Entered(a, r.mode).value.1))
    && (r.mode == 4 <==> r.checked.verdict.NotThis?)
  }

  /** With a secret, the guard in the loop never fires; what is tried in one mode leaves no trace
      for the next; and the user is asked a second time only if the first question got no answer. */
  lemma {:induction false} LoopIsTryAll(a: Attempt, gen: int -> int, t: string, mode: nat, l: Loop)
    requires mode <= 4 && a.gen == Some(gen) && Unchanged(a, t, mode, l)
    ensures Agree(a, Modes(a, mode, l), TryAll(a, gen, t, mode, l.must))
    decreases 4 - mode
  {
    hide Obtain, Check, Unchanged, Agree, TryAll, Modes, Parse, Alone, Prompts, Typed, After;
    if mode == 4 {
      LoopEnds(a, gen, t, l);
    } else {
      ObtainTyped(a, t, mode, l);
      UnchangedIs(a, t, mode, l);
      ModesStep(a, mode, l);
      TryAllStep(a, gen, t, mode, l.must);
      var o := Obtain(a, mode, l);
      if Entered(a, mode).None? {
        assert o.pw.None? ==> o == o.(pw := None);
        LoopIsTryAll(a, gen, t, mode + 1, o.(pw := None));
      } else {
        var code := Entered(a, mode).value.0;
        ObtainKeeps(a, mode, l);
        var c := Check(a, gen, t, code, o.must);
        CheckLeaves(a, gen, t, code, o.must);
        if c.verdict.NotThis? {
          AfterNothing(a, t, mode + 1, o, c);
          LoopIsTryAll(a, gen, t, mode + 1, After(o, c).(pw := None));
        } else {
          Decisive(a, mode, o, c);
        }
      }
    }
  }

  lemma UnchangedIs(a: Attempt, t: string, mode: nat, l: Loop)
    requires Unchanged(a, t, mode, l)
    ensures l.text == t && !l.updated && l.pw.None? && l.verdict == NotThis && !l.guarded
  {
  }

  lemma ObtainKeeps(a: Attempt, mode: nat, l: Loop)
    ensures var o := Obtain(a, mode, l);
            o.text == l.text && o.updated == l.updated && o.must == l.must && o.guarded == l.guarded
  {
  }

  lemma LoopEnds(a: Attempt, gen: int -> int, t: string, l: Loop)
    requires Unchanged(a, t, 4, l)
    ensures Agree(a, Modes(a, 4, l), TryAll(a, gen, t, 4, l.must))
  {
  }

  lemma AfterNothing(a: Attempt, t: string, mode: nat, o: Loop, c: Checked)
    requires Unchanged(a, t, mode, o.(pw := None)) && c.verdict == NotThis && c.text == t && !c.updated
    ensures Unchanged(a, t, mode, After(o, c).(pw := None)) && After(o, c).must == c.must
  {
  }

  lemma CheckLeaves(a: Attempt, gen: int -> int, t: string, code: int, must: bool)
    ensures var c := Check(a, gen, t, code, must); c.verdict.NotThis? ==> c.text == t && !c.updated
  {
    hide CheckCode;
    NothingChanged(t, gen, code, a.counter, a.input.now, a.params.noSkewAdj, must);
  }

  lemma Decisive(a: Attempt, mode: nat, o: Loop, c: Checked)
    requires mode < 4 && !o.updated && !o.guarded && o.prompts == Prompts(a, mode)
    requires Entered(a, mode).Some? && !c.verdict.NotThis?
    ensures Agree(a, After(o, c).(pw := Some(Entered(a, mode).value.1)), Tried(c, mode))
  {
    hide Entered, Prompts;
  }

  /** Without a secret the guard fires exactly when a code was entered in one of the first three
      modes; nothing is accepted and nothing changes in any case. */
  lemma {:induction false} GuardFires(a: Attempt, t: string, mode: nat, l: Loop)
    requires mode <= 4 && a.gen.None? && Unchanged(a, t, mode, l)
    ensures var r := Modes(a, mode, l);
            && (r.guarded <==> exists m :: mode <= m < 3 && Entered(a, m).Some?)
            && r.text == t && !r.updated && r.must == l.must && r.verdict == NotThis
    decreases 4 - mode
  {
    hide Obtain, Unchanged, Modes, Parse, Alone, Prompts, Typed;
    UnchangedIs(a, t, mode, l);
    if mode < 4 {
      ObtainTyped(a, t, mode, l);
      ModesStep(a, mode, l);
      ObtainKeeps(a, mode, l);
      var o := Obtain(a, mode, l);
      UnchangedIs(a, t, mode + 1, o.(pw := None));
      if Entered(a, mode).None? {
        assert o.pw.None? ==> o == o.(pw := None);
        GuardFires(a, t, mode + 1, o.(pw := None));
      } else {
        GuardStops(a, mode + 1, o.(pw := Some(Entered(a, mode).value.1)));
      }
    } else {
      ModesEnd(a, l);
    }
  }

  lemma ModesEnd(a: Attempt, l: Loop)
    ensures Modes(a, 4, l) == l
  {
  }

  lemma GuardStops(a: Attempt, mode: nat, l: Loop)
    requires 0 < mode <= 4 && l.pw.Some?
    ensures Modes(a, mode, l) == if mode == 4 then l else l.(pw := None, guarded := true)
  {
  }

  // ---- the whole login ----------------------------------------------------------------------

  /** The result of a login; a file to be written, if any; and how it came about. */
  datatype Outcome = Outcome(
    success: bool, grace: bool, verdict: Verdict, write: Option<string>, prompts: nat, guarded: bool)

  predicate Advances(a: Attempt, must: bool) { must && !a.params.noIncrementHotp }

  /** The counter goes up by one after a code that was not the right one. */
  function Advance(a: Attempt, t: string, must: bool): string
  {
    if Advances(a, must) then SetCfgValue(t, COUNTER_KEY, DecInt(a.counter + 1)) else t
  }

  predicate Recorded(a: Attempt, success: bool) { success && a.params.gracePeriod != 0 }

  function Details(a: Attempt, t: string, success: bool): string
  {
    if Recorded(a, success) && a.input.host.Some? then LastLogins.UpdateLoginDetails(t, a.input.host.value, a.input.now)
    else t
  }

  /** Accepted, and the password could be handed on if it was to be. */
  predicate Succeeds(a: Attempt, l: Loop)
  {
    l.verdict.Accepted? && (a.params.forwardPass ==> l.pw.Some? && a.input.itemSet)
  }

  /** The file when the loop is over. */
  function FinalText(a: Attempt, l: Loop): string
  {
    Details(a, Advance(a, l.text, l.must), Succeeds(a, l))
  }

  function AfterLoop(a: Attempt, l: Loop, early: bool): Outcome
  {
    var success := Succeeds(a, l);
    Outcome(success, false, l.verdict,
            if early || l.updated || Advances(a, l.must) || Recorded(a, success) then Some(FinalText(a, l)) else None,
            l.prompts, l.guarded)
  }

  predicate InGracePeriod(p: Params, i: Input, t: string)
  {
    i.host.Some? && LastLogins.WithinGracePeriod(t, i.host.value, i.now, p.gracePeriod)
  }

  /** compute_code for every secret. */
  type Coder = seq<bv8> -> int -> int

  function NewAttempt(p: Params, i: Input, otp: Coder, t: string): Attempt
  {
    Attempt(p, i, match Otp.SharedSecret(t) case None => None case Some(secret) => Some(otp(secret)), HotpCounter(t))
  }

  /** google_authenticator, from the file that was read on. A login within the grace period
      succeeds whatever the rate limit says, and then nothing is written. */
  function Authenticate(p: Params, i: Input, otp: Coder, file: string): Outcome
  {
    var (decision, t) := RateLimit.Check(file, ToUInt32(i.now));
    var early := decision.Admitted? || decision.Exceeded?;
    if InGracePeriod(p, i, t) then Outcome(true, true, NotThis, None, 0, false)
    else if decision.Invalid? || decision.Exceeded? then
      Outcome(false, false, NotThis, if early then Some(t) else None, 0, false)
    else
      var a := NewAttempt(p, i, otp, t);
      AfterLoop(a, Modes(a, 0, Start(t)), early)
  }
}

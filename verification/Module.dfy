/** The mode loop and google_authenticator as they work on the file in memory. */
module Module {
  import opened CText
  import opened StateFile
  import opened Options
  import opened Checks
  import opened Login
  import opened Procedures
  import opened Entry
  import LastLogins
  import RateLimit
  import Otp
  import Reuse

  // ---- the hosts of the last logins -------------------------------------------------------------

  lemma NamesNulFree()
    ensures forall i :: -1 <= i < 10 ==> NulFree(LastLogins.Name(i))
  {
  }

  lemma FindSlotStep(t: string, host: string, i: nat, oldest: nat, index: int)
    requires i < 10 && -1 <= index < 10
    ensures LastLogins.FindSlot(t, host, i, oldest, index) ==
            match StateText.GetCfgValue(t, LastLogins.Name(i))
            case None => LastLogins.FindSlot(t, host, i + 1, 0, if oldest != 0 then i else index)
            case Some(line) =>
              match LastLogins.ReadSlot(line)
              case None => LastLogins.FindSlot(t, host, i + 1, oldest, index)
              case Some(login) =>
                if login.host == host then i
                else if login.when < oldest then LastLogins.FindSlot(t, host, i + 1, login.when, i)
                else LastLogins.FindSlot(t, host, i + 1, oldest, index)
  {
    hide StateText.GetCfgValue, LastLogins.ReadSlot, LastLogins.Name;
  }

  /** The search for the host's slot, or the one to be given up. */
  method SearchSlot(b: Buffer, host: string, now: nat) returns (r: int)
    requires b.Valid()
    ensures r == LastLogins.FindSlot(b.text, host, 0, now, -1)
  {
    hide Holds, NulFree, StateText.GetCfgValue, LastLogins.ReadSlot, LastLogins.Name, LastLogins.FindSlot;
    var oldest, index := now, -1;
    NamesNulFree();
    for i := 0 to 10
      invariant -1 <= index < 10
      invariant LastLogins.FindSlot(b.text, host, 0, now, -1) == LastLogins.FindSlot(b.text, host, i, oldest, index)
    {
      FindSlotStep(b.text, host, i, oldest, index);
      var line := b.GetCfgValue(LastLogins.Name(i));
      if line.None? {
        if oldest != 0 { index, oldest := i, 0; }
        continue;
      }
      var login := LastLogins.ReadSlot(line.value);
      if login.None? { continue; }
      if login.value.host == host { return i; }
      if login.value.when < oldest { index, oldest := i, login.value.when; }
    }
    FindSlotEnd(b.text, host, oldest, index);
    return index;
  }

  lemma FindSlotEnd(t: string, host: string, oldest: nat, index: int)
    requires -1 <= index < 10
    ensures LastLogins.FindSlot(t, host, 10, oldest, index) == index
  {
  }

  /** update_logindetails, for a known host. */
  method UpdateLogindetails(b: Buffer, host: string, now: nat)
    requires b.Valid() && NulFree(host)
    modifies b, b.buf
    ensures b.Valid() && (b.buf == old(b.buf) || fresh(b.buf))
    ensures b.text == LastLogins.UpdateLoginDetails(old(b.text), host, now)
  {
    hide Holds, StateText.SetCfgValue, LastLogins.FindSlot, LastLogins.Name, LastLogins.SlotValue, NulFree;
    var r := SearchSlot(b, host, now);
    NamesNulFree();
    SlotValueNulFree(host, now);
    b.SetCfgValue(LastLogins.Name(r), LastLogins.SlotValue(host, now));
  }

  lemma SlotValueNulFree(host: string, now: nat)
    requires NulFree(host)
    ensures NulFree(LastLogins.SlotValue(host, now))
  {
    hide Dec;
  }

  lemma LastTimeStep(t: string, host: string, i: nat)
    requires i < 10
    ensures LastLogins.LastTime(t, host, i) ==
            match StateText.GetCfgValue(t, LastLogins.Name(i))
            case None => LastLogins.LastTime(t, host, i + 1)
            case Some(line) =>
              match LastLogins.ReadWord(line)
              case None => LastLogins.LastTime(t, host, i + 1)
              case Some(login) => if login.host == host then login.when else LastLogins.LastTime(t, host, i + 1)
  {
    hide StateText.GetCfgValue, LastLogins.ReadWord, LastLogins.Name;
  }

  /** within_grace_period, for a known host. */
  method WithinGracePeriodOf(b: Buffer, host: string, now: nat, grace: nat) returns (within: bool)
    requires b.Valid()
    ensures within <==> LastLogins.WithinGracePeriod(b.text, host, now, grace)
  {
    hide Holds, NulFree, StateText.GetCfgValue, LastLogins.ReadWord, LastLogins.Name, LastLogins.LastTime;
    var when := 0;
    NamesNulFree();
    for i := 0 to 10
      invariant when == 0 && LastLogins.LastTime(b.text, host, 0) == LastLogins.LastTime(b.text, host, i)
    {
      LastTimeStep(b.text, host, i);
      var line := b.GetCfgValue(LastLogins.Name(i));
      if line.None? { continue; }
      var login := LastLogins.ReadWord(line.value);
      if login.Some? && login.value.host == host {
        when := login.value.when;
        break;
      }
    }
    assert when == LastLogins.LastTime(b.text, host, 0) by { LastTimeEnd(b.text, host); }
    within := when != 0 && when + grace > now;
  }

  lemma LastTimeEnd(t: string, host: string)
    ensures LastLogins.LastTime(t, host, 10) == 0
  {
  }

  // ---- the mode loop ----------------------------------------------------------------------------

  /** The switch that gets hold of a password. */
  method GetPassword(a: Attempt, mode: nat, ghost l: Loop, saved: Option<string>, prompts: nat)
    returns (pw: Option<string>, saved': Option<string>, prompts': nat)
    requires l.saved == saved && l.prompts == prompts && l.pw.None?
    ensures Obtain(a, mode, l) == l.(pw := pw, saved := saved', prompts := prompts')
  {
    pw, saved', prompts' := None, saved, prompts;
    if mode < 2 {
      if a.params.passMode != Prompt { pw := a.input.firstPass; }
    } else if a.params.passMode != UseFirstPass {
      if saved'.None? {
        saved' := if prompts == 0 then a.input.reply else a.input.again;
        prompts' := prompts + 1;
      }
      pw := saved';
    }
  }

  /** A code was entered: what the loop makes of the check. */
  lemma CodeEntered(a: Attempt, mode: nat, l: Loop, gen: int -> int)
    requires mode < 4 && !l.updated && l.pw.None? && a.gen == Some(gen)
    requires var o := Obtain(a, mode, l); o.pw.Some? && Parse(o.pw.value, mode, Alone(a, mode)).Some?
    ensures var o := Obtain(a, mode, l);
            var entry := Parse(o.pw.value, mode, Alone(a, mode)).value;
            var c := CheckCode(o.text, gen, entry.0, a.counter, a.input.now, a.params.noSkewAdj, o.must);
            var after := o.(text := c.text, updated := c.updated, must := c.must, verdict := c.verdict);
            Modes(a, mode, l) == if c.verdict.NotThis? then Modes(a, mode + 1, after.(pw := None))
                                 else after.(pw := Some(entry.1))
  {
    hide Obtain, Parse, CheckCode, Alone;
    ObtainKeeps(a, mode, l);
  }

  lemma NoCodeEntered(a: Attempt, mode: nat, l: Loop)
    requires mode < 4
    ensures l.updated || l.pw.Some? ==> Modes(a, mode, l) == l.(pw := None, guarded := true)
    ensures !l.updated && l.pw.None? ==>
              var o := Obtain(a, mode, l);
              && (o.pw.None? ==> Modes(a, mode, l) == Modes(a, mode + 1, o))
              && (o.pw.Some? ==>
                    var entry := Parse(o.pw.value, mode, Alone(a, mode));
                    && (entry.None? ==> Modes(a, mode, l) == Modes(a, mode + 1, o.(pw := None)))
                    && (entry.Some? && a.gen.None? ==>
                          Modes(a, mode, l) == Modes(a, mode + 1, o.(pw := Some(entry.value.1)))))
  {
    hide Obtain, Parse, Check, After, Alone;
  }

  /** One pass: either it ends the loop, or the next one takes over. */
  method Pass(b: Buffer, a: Attempt, mode: nat, l: Loop) returns (stop: bool, l': Loop)
    requires b.Valid() && mode < 4
    modifies b, b.buf
    ensures b.Valid() && (b.buf == old(b.buf) || fresh(b.buf))
    ensures Modes(a, mode, l.(text := old(b.text)))
         == if stop then l'.(text := b.text) else Modes(a, mode + 1, l'.(text := b.text))
  {
    hide *;
    l' := l;
    ghost var now := l.(text := b.text);
    NoCodeEntered(a, mode, now);
    if l.updated || l.pw.Some? {
      return true, l.(pw := None, guarded := true);
    }
    var pw, saved, prompts := GetPassword(a, mode, now, l.saved, l.prompts);
    l' := l.(pw := pw, saved := saved, prompts := prompts);
    if pw.None? { return false, l'; }
    var entry := Parse(pw.value, mode, Alone(a, mode));
    if entry.None? { return false, l'.(pw := None); }
    var (code, password) := entry.value;
    if a.gen.None? { return false, l'.(pw := Some(password)); }
    CodeEntered(a, mode, now, a.gen.value);
    var verdict, updated, must :=
      CheckEntered(b, a.gen.value, code, a.counter, a.input.now, a.params.noSkewAdj, l'.must);
    l' := l'.(updated := updated, must := must, verdict := verdict);
    if verdict.NotThis? { return false, l'.(pw := None); }
    return true, l'.(pw := Some(password));
  }

  /** The four passes. */
  method ModeLoop(b: Buffer, a: Attempt) returns (l: Loop)
    requires b.Valid()
    modifies b, b.buf
    ensures b.Valid() && (b.buf == old(b.buf) || fresh(b.buf))
    ensures l.(text := b.text) == Modes(a, 0, Start(old(b.text)))
  {
    hide *;
    l := Start("");
    assert Start(b.text) == l.(text := b.text) by { StartIs(b.text); StartIs(""); }
    for mode := 0 to 4
      invariant b.Valid() && (b.buf == old(b.buf) || fresh(b.buf))
      invariant Modes(a, 0, Start(old(b.text))) == Modes(a, mode, l.(text := b.text))
    {
      var stop;
      stop, l := Pass(b, a, mode, l);
      if stop { return; }
    }
    ModesAtEnd(a, l.(text := b.text));
  }

  lemma StartIs(t: string)
    ensures Start(t) == Loop(t, false, false, None, None, 0, NotThis, false)
  {
  }

  lemma ModesAtEnd(a: Attempt, l: Loop)
    ensures Modes(a, 4, l) == l
  {
  }

  // ---- google_authenticator ---------------------------------------------------------------------

  method CounterOf(b: Buffer) returns (counter: int)
    requires b.Valid()
    ensures counter == HotpCounter(b.text)
  {
    hide Holds, NulFree, Strtol, StateText.GetCfgValue;
    KeysNulFree();
    var value := b.GetCfgValue(COUNTER_KEY);
    counter := if value.None? then 0 else Strtol(value.value).value;
  }

  /** What follows the loop: the counter, the host, and the text to be written. */
  method AfterModes(b: Buffer, a: Attempt, l: Loop, early: bool) returns (o: Outcome)
    requires b.Valid() && (a.input.host.Some? ==> NulFree(a.input.host.value))
    modifies b, b.buf
    ensures b.Valid() && (b.buf == old(b.buf) || fresh(b.buf))
    ensures o == AfterLoop(a, l.(text := old(b.text)), early)
    ensures o.write == None || o.write == Some(b.text)
  {
    hide Holds, NulFree, StateText.SetCfgValue, DecInt, LastLogins.UpdateLoginDetails;
    var success := l.verdict.Accepted?;
    var updated := l.updated;
    if success && a.params.forwardPass && (l.pw.None? || !a.input.itemSet) { success := false; }
    if !a.params.noIncrementHotp && l.must {
      KeysNulFree();
      Reuse.DecIntChars(a.counter + 1);
      b.SetCfgValue(COUNTER_KEY, DecInt(a.counter + 1));
      updated := true;
    }
    if success && a.params.gracePeriod != 0 {
      updated := true;
      if a.input.host.Some? { UpdateLogindetails(b, a.input.host.value, a.input.now); }
    }
    var text := b.Contents();
    o := Outcome(success, false, l.verdict, if early || updated then Some(text) else None, l.prompts, l.guarded);
  }

  lemma AuthenticateIs(p: Params, i: Input, otp: Coder, file: string)
    ensures var (decision, t) := RateLimit.Check(file, ToUInt32(i.now));
            var early := decision.Admitted? || decision.Exceeded?;
            var gen := match Otp.SharedSecret(t) case None => None case Some(secret) => Some(otp(secret));
            var a := Attempt(p, i, gen, HotpCounter(t));
            Authenticate(p, i, otp, file) ==
            if i.host.Some? && LastLogins.WithinGracePeriod(t, i.host.value, i.now, p.gracePeriod) then
              Outcome(true, true, NotThis, None, 0, false)
            else if decision.Invalid? || decision.Exceeded? then
              Outcome(false, false, NotThis, if early then Some(t) else None, 0, false)
            else AfterLoop(a, Modes(a, 0, Start(t)), early)
  {
    hide RateLimit.Check, Otp.SharedSecret, HotpCounter, LastLogins.WithinGracePeriod, Modes, AfterLoop, ToUInt32,
         Start;
  }

  /** google_authenticator, from the file that was read to the text that is written. */
  method GoogleAuthenticator(b: Buffer, p: Params, i: Input, otp: Coder) returns (o: Outcome)
    requires b.Valid() && (i.host.Some? ==> NulFree(i.host.value))
    modifies b, b.buf
    ensures b.Valid()
    ensures o == Authenticate(p, i, otp, old(b.text))
    ensures o.write == None || o.write == Some(b.text)
  {
    hide Holds, NulFree, RateLimit.Check, Otp.SharedSecret, HotpCounter, LastLogins.WithinGracePeriod, Modes,
         AfterLoop, ToUInt32, Authenticate, Start, NewAttempt, InGracePeriod;
    AuthenticateIs(p, i, otp, b.text);
    var decision := RateLimit.RateLimit(b, ToUInt32(i.now));
    var early := decision.Admitted? || decision.Exceeded?;
    var stopped := decision.Invalid? || decision.Exceeded?;
    var secret := None;
    if !stopped { secret := Otp.GetSharedSecret(b); }
    var counter := CounterOf(b);
    if i.host.Some? {
      var within := WithinGracePeriodOf(b, i.host.value, i.now, p.gracePeriod);
      if within { return Outcome(true, true, NotThis, None, 0, false); }
    }
    if stopped {
      var text := b.Contents();
      return Outcome(false, false, NotThis, if early then Some(text) else None, 0, false);
    }
    var a := Attempt(p, i, match secret case None => None case Some(bytes) => Some(otp(bytes)), counter);
    var l := ModeLoop(b, a);
    o := AfterModes(b, a, l, early);
  }
}

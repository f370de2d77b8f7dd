/** The grace period over two logins: who has just got in by a code needs none for a while. */
module Grace {
  import opened CText
  import opened StateText
  import opened Scratch
  import opened StateInvariant
  import opened Options
  import opened Checks
  import opened Login
  import opened Effects
  import opened LastLogins
  import RateLimit
  import Reuse
  import TimeSkewReset
  import Otp

  /** The options for the hosts read alike. */
  predicate SameHosts(t: string, u: string)
  {
    forall i :: 0 <= i < 10 ==> GetCfgValue(u, Name(i)) == GetCfgValue(t, Name(i))
  }

  /** No key of another option is the name of a slot. */
  lemma HostsStay(t: string, u: string, keys: set<string>)
    requires SameOptions(t, u, keys) && forall k :: k in keys ==> |k| != 5
    ensures SameHosts(t, u)
  {
    hide GetCfgValue, ValidKey, Name;
    NameFacts();
    NameLength();
  }

  lemma NameLength()
    ensures forall i :: -1 <= i < 10 ==> |Name(i)| == 5
  {
  }

  /** Options that read alike make the same slots, the same search and the same last login. */
  lemma HostsRead(t: string, u: string, host: string, now: nat)
    requires SameHosts(t, u)
    ensures SlotsOf(u) == SlotsOf(t) && FindSlot(u, host, 0, now, -1) == FindSlot(t, host, 0, now, -1)
    ensures forall i :: 0 <= i < 10 ==>
              IsHost(u, host, i) == IsHost(t, host, i) && TimeAt(u, host, i) == TimeAt(t, host, i)
    ensures Remembers(u, host, now) == Remembers(t, host, now) && LastTime(u, host, 0) == LastTime(t, host, 0)
    ensures forall r :: -1 <= r < 10 ==> LastTimeBut(u, host, 0, r) == LastTimeBut(t, host, 0, r)
  {
    hide GetCfgValue, Name, IsHost, TimeAt, SlotAt, FindSlot, LastTime, LastTimeBut, WordHost, Roomy;
    forall i | 0 <= i < 10
      ensures IsHost(u, host, i) == IsHost(t, host, i) && TimeAt(u, host, i) == TimeAt(t, host, i)
      ensures SlotAt(u, i) == SlotAt(t, i)
    {
      SameReads(t, u, host, i);
    }
    assert SlotsOf(u) == SlotsOf(t);
    FindStays(t, u, host, 0, now, -1);
    LastTimeStays(t, u, host, 0);
    forall r | -1 <= r < 10 ensures LastTimeBut(u, host, 0, r) == LastTimeBut(t, host, 0, r) {
      ButStays(t, u, host, 0, r);
    }
  }

  lemma {:induction false} ButStays(t: string, u: string, host: string, i: nat, r: int)
    requires SameHosts(t, u) && i <= 10
    ensures LastTimeBut(u, host, i, r) == LastTimeBut(t, host, i, r)
    decreases 10 - i
  {
    hide GetCfgValue, Name, IsHost, TimeAt;
    if i < 10 {
      SameReads(t, u, host, i);
      ButStays(t, u, host, i + 1, r);
    }
  }

  lemma {:induction false} FindStays(t: string, u: string, host: string, i: nat, oldest: nat, index: int)
    requires i <= 10 && -1 <= index < 10 && SlotsOf(u) == SlotsOf(t)
    ensures FindSlot(u, host, i, oldest, index) == FindSlot(t, host, i, oldest, index)
    decreases 10 - i
  {
    hide SlotAt;
    if i < 10 {
      assert SlotsOf(u)[i] == SlotsOf(t)[i];
      match SlotAt(t, i)
      case Empty => FindStays(t, u, host, i + 1, 0, if oldest != 0 then i else index);
      case Malformed => FindStays(t, u, host, i + 1, oldest, index);
      case Taken(login) =>
        if login.host != host {
          if login.when < oldest { FindStays(t, u, host, i + 1, login.when, i); }
          else { FindStays(t, u, host, i + 1, oldest, index); }
        }
    }
  }

  lemma {:induction false} LastTimeStays(t: string, u: string, host: string, i: nat)
    requires SameHosts(t, u) && i <= 10
    ensures LastTime(u, host, i) == LastTime(t, host, i)
    decreases 10 - i
  {
    hide GetCfgValue, Name, IsHost, TimeAt;
    if i < 10 {
      SameReads(t, u, host, i);
      LastTimeStays(t, u, host, i + 1);
    }
  }

  lemma HostsTwice(t: string, u: string, v: string)
    requires SameHosts(t, u) && SameHosts(u, v)
    ensures SameHosts(t, v)
  {
    hide GetCfgValue, Name;
  }

  lemma NothingTouched(t: string)
    ensures SameHosts(t, t)
  {
    hide GetCfgValue, Name;
  }

  /** rate_limit does not touch them. */
  lemma RateHosts(t: string, now: nat)
    requires Tidy(t) && now < TWO32
    ensures Tidy(RateLimit.Check(t, now).1) && SameHosts(t, RateLimit.Check(t, now).1)
  {
    hide GetCfgValue, SetCfgValue, Tidy, RateLimit.ParseLimits, RateLimit.PrintLimits, RateLimit.Recent, SameHosts,
         RateLimit.Newest, ValidValue, Strip, RateLimit.ValidLimits, SecretLine, Codes, SameOptions;
    var v := GetCfgValue(t, RateLimit.KEY);
    NothingTouched(t);
    if v.Some? && RateLimit.ParseLimits(v.value).Some? {
      var l := RateLimit.ParseLimits(v.value).value;
      var kept := l.(stamps := RateLimit.Newest(l.attempts, RateLimit.Recent(l, now)));
      RateLimit.KeyValid();
      RateLimit.RecentValid(l, now);
      RateLimit.LimitsReadBack(kept);
      SetKeeps(t, RateLimit.KEY, RateLimit.PrintLimits(kept));
      KeysApart();
      HostsStay(t, SetCfgValue(t, RateLimit.KEY, RateLimit.PrintLimits(kept)), {RateLimit.KEY});
    }
  }

  /** Nor does any of the checks. */
  lemma CheckHosts(t: string, c: Checked, counter: int, now: nat)
    requires Tidy(t) && CheckDone(t, c, counter, now)
    ensures Tidy(c.text) && SameHosts(t, c.text)
  {
    hide GetCfgValue, Tidy, SecretLine, Codes, SameOptions, WindowSize, HotpCounter, TimeStep, TimeSkew, Reuse.Used,
         RemoveFirst, SameHosts, Reuse.InWindow;
    KeysApart();
    NothingTouched(t);
    match c.verdict
    case NotThis =>
    case Failed => HostsStay(t, c.text, {TimeSkewReset.KEY});
    case Accepted(via) =>
      match via
      case ByScratch(code) => HostsStay(t, c.text, {});
      case ByCounter(n) => HostsStay(t, c.text, {COUNTER_KEY});
      case ByStep(step) => HostsStay(t, c.text, {Reuse.KEY});
      case ByResync(step) => HostsStay(t, c.text, {TimeSkewReset.KEY, TimeSkewReset.SKEW_KEY});
  }

  /** Nor the counter that advances. */
  lemma AdvanceHosts(a: Attempt, t: string, must: bool)
    requires Tidy(t) && (Advances(a, must) ==> 0 <= a.counter + 1 < TWO63)
    ensures Tidy(Advance(a, t, must)) && SameHosts(t, Advance(a, t, must))
  {
    hide GetCfgValue, SetCfgValue, Tidy, SecretLine, Codes, SameOptions, HotpCounter, SameHosts, DecInt;
    NothingTouched(t);
    if Advances(a, must) {
      CounterStored(t, a.counter + 1);
      KeysApart();
      HostsStay(t, Advance(a, t, must), {COUNTER_KEY});
    }
  }

  /** What the loop and the counter leave of the hosts' options: all. */
  lemma LoopHosts(a: Attempt, t: string, gen: int -> int)
    requires Tidy(t) && Sane(a.input, t) && a.gen == Some(gen) && a.counter == HotpCounter(t)
    ensures var l := Modes(a, 0, Start(t)); var u := Advance(a, l.text, l.must);
            Tidy(u) && SameHosts(t, u)
  {
    hide Modes, TryAll, Tidy, NoOverflow, HotpCounter, CheckDone, Prompts, Entered, All, SameHosts, Check, Advance;
    LoopIsTryAll(a, gen, t, 0, Start(t));
    var r := TryAll(a, gen, t, 0, false);
    var must := TryAllIs(a, gen, t, 0, false);
    var l := Modes(a, 0, Start(t));
    if r.mode < 4 {
      var code := Entered(a, r.mode).value.0;
      CheckOf(a, gen, t, code, must);
      MustNeedsCounter(a, gen, t, code, must);
    } else {
      NotThisDone(t, r.checked, a.counter, a.input.now);
    }
    CheckHosts(t, r.checked, a.counter, a.input.now);
    CounterInRange(t, a.counter, a.input.now);
    AdvanceHosts(a, l.text, l.must);
    HostsTwice(t, l.text, Advance(a, l.text, l.must));
  }

  lemma CheckOf(a: Attempt, gen: int -> int, t: string, code: int, must: bool)
    requires Tidy(t) && NoOverflow(t, a.counter, a.input.now)
    ensures CheckDone(t, Check(a, gen, t, code, must), a.counter, a.input.now)
  {
    hide CheckCode, CheckDone, Tidy, NoOverflow;
    CheckDoes(t, gen, code, a.counter, a.input.now, a.params.noSkewAdj, must);
  }

  // ---- what a login does to the slots ---------------------------------------------------------

  /** Does a login put its host on record? */
  predicate Records(p: Params, i: Input, o: Outcome)
  {
    o.success && !o.grace && p.gracePeriod != 0 && i.host.Some?
  }

  /** A login that does not leaves all slots as they were. */
  lemma SlotsLeft(p: Params, i: Input, otp: Coder, file: string)
    requires Tidy(file) && Sane(i, file)
    requires !Records(p, i, Authenticate(p, i, otp, file))
    ensures SameHosts(file, NewFile(Authenticate(p, i, otp, file), file))
  {
    hide *;
    var o := Authenticate(p, i, otp, file);
    var (decision, t) := RateLimit.Check(file, ToUInt32(i.now));
    NowFits(i, file);
    RateHosts(file, ToUInt32(i.now));
    RateKeeps(file, ToUInt32(i.now));
    SaneFrom(i, file, t);
    NothingTouched(file);
    WhatIsWritten(p, i, otp, file);
    var a := NewAttempt(p, i, otp, t);
    if a.gen.Some? {
      AttemptIs(p, i, otp, t);
      LoopHosts(a, t, a.gen.value);
      var l := Modes(a, 0, Start(t));
      HostsTwice(file, t, Advance(a, l.text, l.must));
    }
  }

  /** The file a login leaves: the one read, the one rate_limit left, or that behind the loop, with
      the host put on record or not. */
  lemma WhatIsWritten(p: Params, i: Input, otp: Coder, file: string)
    ensures var o := Authenticate(p, i, otp, file);
            var (decision, t) := RateLimit.Check(file, ToUInt32(i.now));
            var a := NewAttempt(p, i, otp, t);
            var l := Modes(a, 0, Start(t));
            var s := Advance(a, l.text, l.must);
            var u := NewFile(o, file);
            && (a.gen.None? ==> u == file || u == t)
            && (a.gen.Some? && !Records(p, i, o) ==> u == file || u == t || u == s)
            && (Records(p, i, o) ==> a.gen.Some? && u == UpdateLoginDetails(s, i.host.value, i.now))
  {
    hide RateLimit.Check, InGracePeriod, Modes, HotpCounter, Advance, Advances, AfterLoop, UpdateLoginDetails, ToUInt32,
         Otp.SharedSecret, Unchanged;
    var (decision, t) := RateLimit.Check(file, ToUInt32(i.now));
    var a := NewAttempt(p, i, otp, t);
    var l := Modes(a, 0, Start(t));
    StartUnchanged(a, t);
    if a.gen.None? {
      GuardFires(a, t, 0, Start(t));
      NothingToAdvance(a, t);
    } else {
      NotUpdated(a, a.gen.value, t);
    }
    WrittenAfterLoop(a, l, decision.Admitted?, t, file);
  }

  lemma WrittenAfterLoop(a: Attempt, l: Loop, early: bool, t: string, file: string)
    requires !l.updated ==> l.text == t
    requires !Advances(a, l.must) ==> Advance(a, l.text, l.must) == l.text
    requires a.gen.None? ==> !l.verdict.Accepted? && Advance(a, l.text, l.must) == t
    ensures var o := AfterLoop(a, l, early); var s := Advance(a, l.text, l.must); var u := NewFile(o, file);
            && (a.gen.None? ==> u == file || u == t)
            && (Records(a.params, a.input, o) ==>
                  a.gen.Some? && u == UpdateLoginDetails(s, a.input.host.value, a.input.now))
            && (!Records(a.params, a.input, o) ==> u == file || u == t || u == s)
  {
    hide Advance, Advances, UpdateLoginDetails;
  }

  lemma NothingToAdvance(a: Attempt, t: string)
    ensures Advance(a, t, false) == t
  {
    hide SetCfgValue;
  }

  lemma NotUpdated(a: Attempt, gen: int -> int, t: string)
    requires a.gen == Some(gen)
    ensures var l := Modes(a, 0, Start(t));
            && (!l.updated ==> l.text == t)
            && (!Advances(a, l.must) ==> Advance(a, l.text, l.must) == l.text)
  {
    hide Modes, TryAll, Prompts, Entered, Check, SetCfgValue, DecInt;
    LoopIsTryAll(a, gen, t, 0, Start(t));
    var r := TryAll(a, gen, t, 0, false);
    var must := TryAllIs(a, gen, t, 0, false);
    if r.mode < 4 { CheckUpdates(a, gen, t, Entered(a, r.mode).value.0, must); }
  }

  lemma CheckUpdates(a: Attempt, gen: int -> int, t: string, code: int, must: bool)
    ensures var c := Check(a, gen, t, code, must); !c.updated ==> c.text == t
  {
    hide CheckCode;
    NothingChanged(t, gen, code, a.counter, a.input.now, a.params.noSkewAdj, must);
  }

  /** A login that does: its host's last login is now, if it is recorded at all, and no other slot
      changes. */
  lemma LoginRecorded(p: Params, i: Input, otp: Coder, file: string, host: string)
    requires Tidy(file) && Sane(i, file) && i.host == Some(host)
    requires Records(p, i, Authenticate(p, i, otp, file))
    ensures var u := NewFile(Authenticate(p, i, otp, file), file);
            var r := FindSlot(file, host, 0, i.now, -1);
            && Tidy(u) && Chosen(SlotsOf(file), host, i.now, r) && SameSlotsBut(file, u, r)
            && LastTime(u, host, 0)
               == (if Remembers(file, host, i.now) then Stored(host, i.now) else LastTimeBut(file, host, 0, r))
            && (r >= 0 ==>
                  && SlotsOf(u) == SlotsOf(file)[r := ReadBack(host, i.now)]
                  && (IsHost(u, host, r) <==> WordHost(host) && Roomy(host))
                  && (IsHost(u, host, r) ==> TimeAt(u, host, r) == Stored(host, i.now)))
  {
    hide *;
    NowFits(i, file);
    var (decision, t) := RateLimit.Check(file, ToUInt32(i.now));
    RateHosts(file, ToUInt32(i.now));
    RateKeeps(file, ToUInt32(i.now));
    SaneFrom(i, file, t);
    SaneHost(i, file, host);
    WhatIsWritten(p, i, otp, file);
    var a := NewAttempt(p, i, otp, t);
    AttemptIs(p, i, otp, t);
    LoopHosts(a, t, a.gen.value);
    var l := Modes(a, 0, Start(t));
    var s := Advance(a, l.text, l.must);
    RecordsHost(p, i, Authenticate(p, i, otp, file));
    HostsTwice(file, t, s);
    HostsRead(file, s, host, i.now);
    UpdateRecords(s, host, i.now);
    ButTwice(file, s, NewFile(Authenticate(p, i, otp, file), file), FindSlot(s, host, 0, i.now, -1));
    LoginMoves(p, i, otp, file);
  }

  lemma SaneHost(i: Input, t: string, host: string)
    requires Sane(i, t) && i.host == Some(host)
    ensures All(NotEol, host) && i.now < TWO64
  {
    hide NoOverflow, All;
  }

  lemma RecordsHost(p: Params, i: Input, o: Outcome)
    requires Records(p, i, o)
    ensures i.host.Some?
  {
  }

  lemma ButTwice(t: string, s: string, u: string, r: int)
    requires SameHosts(t, s) && SameSlotsBut(s, u, r)
    ensures SameSlotsBut(t, u, r)
  {
    hide GetCfgValue, Name;
  }

  /** What the next login from the same host finds: it needs no code exactly while the grace period
      of the last recorded login lasts, whatever else is entered and whatever the rate limit says. */
  lemma NoCodeNeeded(p: Params, i: Input, otp: Coder, file: string, host: string, next: Input)
    requires Tidy(file) && Sane(i, file) && i.host == Some(host) == next.host && next.now < TWO32
    requires Records(p, i, Authenticate(p, i, otp, file))
    ensures var when := if Remembers(file, host, i.now) then Stored(host, i.now)
                        else LastTimeBut(file, host, 0, FindSlot(file, host, 0, i.now, -1));
            Authenticate(p, next, otp, NewFile(Authenticate(p, i, otp, file), file)).grace <==>
              when != 0 && when + p.gracePeriod > next.now
  {
    hide *;
    LoginRecorded(p, i, otp, file, host);
    GraceNext(p, next, otp, NewFile(Authenticate(p, i, otp, file), file), host);
  }

  /** A login is within the grace period exactly if its host's last login in the file says so. */
  lemma GraceNext(p: Params, i: Input, otp: Coder, file: string, host: string)
    requires Tidy(file) && i.host == Some(host) && i.now < TWO32
    ensures Authenticate(p, i, otp, file).grace <==>
              LastTime(file, host, 0) != 0 && LastTime(file, host, 0) + p.gracePeriod > i.now
  {
    hide LastTime, RateLimit.Check, Tidy, SameHosts, Authenticate;
    RateHosts(file, ToUInt32(i.now));
    LastTimeStays(file, RateLimit.Check(file, ToUInt32(i.now)).1, host, 0);
    GraceIs(p, i, otp, file);
  }

  lemma GraceIs(p: Params, i: Input, otp: Coder, file: string)
    ensures Authenticate(p, i, otp, file).grace <==>
              var t := RateLimit.Check(file, ToUInt32(i.now)).1;
              i.host.Some? && WithinGracePeriod(t, i.host.value, i.now, p.gracePeriod)
  {
    hide RateLimit.Check, WithinGracePeriod, Modes, NewAttempt, FinalText, ToUInt32;
  }
}

/** Which codes a file is for: HOTP_COUNTER decides by its number, not by being there. */
module CounterMode {
  import opened CText
  import opened StateText
  import opened Scratch
  import opened StateInvariant
  import opened Options
  import opened Checks
  import opened Effects
  import opened Outcomes
  import opened ReuseGap
  import opened FirstLogin
  import Setup
  import SetupReads

  /** The counter is not positive exactly if the option is missing or its number is not positive. */
  lemma NoCounterIff(t: string)
    ensures HotpCounter(t) <= 0 <==>
              GetCfgValue(t, COUNTER_KEY).None? || Strtol(GetCfgValue(t, COUNTER_KEY).value).value <= 0
  {
    hide GetCfgValue, Strtol;
  }

  /** The code of the server's own step is accepted as that of a time step exactly then, in a file
      with TOTP_AUTH and no step used; with a positive counter no code ever is. */
  lemma TimeCodesIff(t: string, gen: int -> int, code: int, now: nat, noSkewAdj: bool, must: bool)
    requires Tidy(t) && NoOverflow(t, HotpCounter(t), now) && forall s: int :: Unused(t, s)
    requires IsTotp(t) && TimeStep(t, now) != 0 && WindowSize(t) > 0 && SixDigits(code)
    requires gen(TimeStep(t, now) + TimeSkew(t)) == code
    ensures var verdict := CheckCode(t, gen, code, HotpCounter(t), now, noSkewAdj, must).verdict;
            (verdict.Accepted? && verdict.via.ByStep?) <==>
              GetCfgValue(t, COUNTER_KEY).None? || Strtol(GetCfgValue(t, COUNTER_KEY).value).value <= 0
  {
    hide *;
    NoCounterIff(t);
    if HotpCounter(t) <= 0 {
      RightStepIs(t, gen, code, now);
      StepAccepted(t, gen, code, now, noSkewAdj, must);
    } else {
      NeverByStep(t, gen, code, HotpCounter(t), now, noSkewAdj, must);
    }
  }

  lemma NeverByStep(t: string, gen: int -> int, code: int, counter: int, now: nat, noSkewAdj: bool, must: bool)
    requires counter > 0
    ensures var verdict := CheckCode(t, gen, code, counter, now, noSkewAdj, must).verdict;
            verdict.Accepted? ==> verdict.via.ByScratch? || verdict.via.ByCounter?
  {
    hide CheckScratchCodes, WindowSize, SetCfgValue, DecInt, FirstMatch;
  }

  /** A file of the setup program for time-based codes, with HOTP_COUNTER 0 added. */
  function CounterZero(key: seq<bv8>, c: Setup.Choices): string { SetCfgValue(SetupFile(key, c), COUNTER_KEY, "0") }

  lemma ZeroReads()
    ensures ValidValue("0") && Strip("0") == "0" && Strtol("0").value == 0
  {
    hide Strtol;
    assert DecInt(0) == "0";
    ReadLong(0);
    assert Span(Blank, "0") == 0;
  }

  /** The option is there, and still codes of time steps are accepted. */
  lemma CounterZeroIsTimeBased(key: seq<bv8>, c: Setup.Choices, gen: int -> int, now: nat, noSkewAdj: bool, must: bool)
    requires |key| == Setup.KEY_BYTES && Setup.Accepted(c) && c.totp
    requires 0 < FirstNumber(c, now) < TWO31 - 2000 && SixDigits(gen(FirstNumber(c, now)))
    ensures var t := CounterZero(key, c);
            && GetCfgValue(t, COUNTER_KEY) == Some("0") && GetCfgValue(t, "TOTP_AUTH").Some?
            && var verdict := CheckCode(t, gen, gen(FirstNumber(c, now)), HotpCounter(t), now, noSkewAdj, must).verdict;
               verdict.Accepted? && verdict.via.ByStep?
  {
    hide *;
    var file, t := SetupFile(key, c), CounterZero(key, c);
    SetupIs(key, c);
    SetupReads.SetupReadsBack(key, c);
    SetupReads.SetupSettingsReadBack(key, c);
    SetupReads.SetupListsReadBack(key, c);
    ZeroReads();
    CounterKeyValid();
    CounterZeroIs(key, c);
    SetKeeps(file, COUNTER_KEY, "0");
    AfterEdit(file, t, {COUNTER_KEY});
    SettingsOf(file, t);
    FreshSteps(file, t);
    FreshMode(file, t, c);
    TotpEntry(file, t);
    NoCounterIff(t);
    WindowIs(c);
    StepIs(c);
    SmallStep(t, c, now);
    TimeCodesIff(t, gen, gen(FirstNumber(c, now)), now, noSkewAdj, must);
  }

  lemma CounterZeroIs(key: seq<bv8>, c: Setup.Choices)
    ensures CounterZero(key, c) == SetCfgValue(SetupFile(key, c), COUNTER_KEY, "0")
  {
    hide SetCfgValue, SetupFile;
  }

  lemma SmallStep(t: string, c: Setup.Choices, now: nat)
    requires c.totp && StepSize(t) == Step(c) && TimeSkew(t) == 0 && HotpCounter(t) <= 0
    requires 0 < FirstNumber(c, now) < TWO31 - 2000
    ensures TimeStep(t, now) + TimeSkew(t) == FirstNumber(c, now) && TimeStep(t, now) != 0
    ensures NoOverflow(t, HotpCounter(t), now)
  {
    hide StepSize, TimeSkew, HotpCounter;
  }
}

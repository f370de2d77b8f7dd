/** check_time_skew: three codes in a row with the same skew reset TIME_SKEW. */
module TimeSkewReset {
  import opened CText
  import opened StateText
  import opened StateInvariant
  import opened StateFile
  import opened Options
  import opened Scratch
  import Reuse

  const KEY := "RESETTING_TIME_SKEW"
  const SKEW_KEY := "TIME_SKEW"

  /** One recorded attempt: the server's step (an unsigned int) and how far off the code was. */
  datatype Attempt = Attempt(step: nat, skew: int)

  // ---- the RESETTING_TIME_SKEW option -------------------------------------------------------

  /** The pair at the start of a text and what follows it, if there is one: a number, a sign and
      a number, up to a blank, a line end or the end. */
  function PairAt(s: string): Option<(Attempt, string)>
  {
    var n := Strtoul(s);
    var p := s[n.end..];
    if n.erange || n.end == 0 || p == "" || (p[0] != '+' && p[0] != '-') then None
    else
      var m := Strtoul(p[1..]);
      var rest := p[1..][m.end..];
      if m.erange || (rest != "" && !In(rest[0], White)) then None
      else
        var j := ToInt32(m.value);
        Some((Attempt(ToUInt32(n.value), if p[0] == '-' then ToInt32(-j) else j), rest))
  }

  lemma PairShrinks(s: string)
    ensures PairAt(s).Some? ==> |PairAt(s).value.1| < |s|
  {
    hide Strtoul, In;
  }

  function ReadAttempts(s: string): seq<Attempt>
    decreases |s|
  {
    if s == "" || IsEol(s[0]) then []
    else
      match PairAt(s)
      case None => []
      case Some((a, rest)) => PairShrinks(s); [a] + ReadAttempts(rest)
  }

  function PrintAttempt(a: Attempt): string { DecInt(ToInt32(a.step)) + DecSigned(a.skew) }

  function PrintMore(es: seq<Attempt>): string
  {
    if es == [] then "" else " " + PrintAttempt(es[0]) + PrintMore(es[1..])
  }

  /** The attempts, with a blank before each one but the first. */
  function PrintAttempts(es: seq<Attempt>): string
  {
    if es == [] then "" else PrintAttempt(es[0]) + PrintMore(es[1..])
  }

  /** The arrays hold three attempts; a fourth pushes out the oldest. */
  function LastThree(es: seq<Attempt>): seq<Attempt>
  {
    if |es| > 3 then es[|es| - 3..] else es
  }

  /** The attempts a file remembers. */
  function Remembered(t: string): seq<Attempt>
  {
    match GetCfgValue(t, KEY) case None => [] case Some(v) => LastThree(ReadAttempts(v))
  }

  // ---- the check ----------------------------------------------------------------------------

  /** The same code again: the step the user's clock was at has not moved. */
  predicate Repeats(es: seq<Attempt>, a: Attempt)
  {
    es != [] && ToUInt32(a.step + a.skew) == ToUInt32(es[|es| - 1].step + es[|es| - 1].skew)
  }

  /** Three attempts in quick succession with a steady skew (unsigned step arithmetic). */
  predicate Steady(es: seq<Attempt>)
    requires |es| == 3
  {
    var skew := es[2].skew;
    && es[0].step < es[1].step <= ToUInt32(es[0].step + 2)
    && -1 <= es[0].skew - skew <= 1
    && es[1].step < es[2].step <= ToUInt32(es[1].step + 2)
    && -1 <= es[1].skew - skew <= 1
  }

  function Average(es: seq<Attempt>): int
    requires |es| == 3
  {
    TruncDiv(es[0].skew + es[1].skew + es[2].skew, 3)
  }

  datatype Verdict = Again | KeepTrying | Reset

  function Judge(es: seq<Attempt>, a: Attempt): Verdict
  {
    var all := LastThree(es + [a]);
    if Repeats(es, a) then Again
    else if |all| == 3 && Steady(all) then Reset
    else KeepTrying
  }

  /** check_time_skew: only Reset lets the user in. */
  function Check(t: string, skew: int, server: int): (Verdict, string)
  {
    var a := Attempt(ToUInt32(server), skew);
    var es := Remembered(t);
    var all := LastThree(es + [a]);
    var verdict := Judge(es, a);
    (verdict,
     match verdict
     case Again => t
     case KeepTrying => SetCfgValue(t, KEY, PrintAttempts(all))
     case Reset => SetCfgValue(SetCfgValue(t, SKEW_KEY, DecInt(Average(all))), KEY, ""))
  }

  // ---- what is written reads back -----------------------------------------------------------

  /** The search for a skew goes 25 hours' worth of default steps either way. */
  const SKEW_LIMIT := 25 * 60

  predicate Ordinary(a: Attempt) { a.step < TWO31 && -SKEW_LIMIT < a.skew < SKEW_LIMIT }

  lemma PairRead(pre: string, a: Attempt, rest: string)
    requires Ordinary(a) && (pre == "" || pre == " ")
    requires rest != "" ==> rest[0] == ' '
    ensures PairAt(pre + PrintAttempt(a) + rest) == Some((a, rest))
  {
    hide Strtoul, Dec, DecSigned, In, IsSpace, IsBlank, IsDigit, ToUInt32, ToInt32;
    OneBlank();
    BlankWhite();
    var tail := DecSigned(a.skew) + rest;
    SignedRead(a.skew, rest);
    ReadUnsigned(pre, a.step, tail);
    assert (pre + Dec(a.step) + tail)[|pre + Dec(a.step)|..] == tail;
    PrintedAttempt(pre, a, rest);
  }

  lemma PrintedAttempt(pre: string, a: Attempt, rest: string)
    requires Ordinary(a)
    ensures pre + PrintAttempt(a) + rest == pre + Dec(a.step) + (DecSigned(a.skew) + rest)
  {
    hide Dec, DecSigned;
  }

  lemma SignedRead(skew: int, rest: string)
    requires rest != "" ==> rest[0] == ' '
    requires -SKEW_LIMIT < skew < SKEW_LIMIT
    ensures var p := DecSigned(skew) + rest; var n := Strtoul(p[1..]);
            && p != "" && !n.erange && p[1..][n.end..] == rest
            && (p[0] == '-' <==> skew < 0) && (p[0] == '+' <==> skew >= 0)
            && n.value == if skew < 0 then -skew else skew
  {
    hide Strtoul, Dec, In, IsSpace, IsBlank, IsDigit;
    OneBlank();
    var m: nat := if skew < 0 then -skew else skew;
    var p := DecSigned(skew) + rest;
    assert p[1..] == Dec(m) + rest == "" + Dec(m) + rest;
    ReadUnsigned("", m, rest);
    assert (Dec(m) + rest)[|Dec(m)|..] == rest;
  }

  lemma BlankWhite()
    ensures In(' ', White)
  {
  }

  lemma {:induction false} MoreRead(es: seq<Attempt>)
    requires forall i :: 0 <= i < |es| ==> Ordinary(es[i])
    ensures ReadAttempts(PrintMore(es)) == es
    ensures PrintMore(es) != "" ==> PrintMore(es)[0] == ' '
  {
    hide PairAt, PrintAttempt, Ordinary;
    if es != [] {
      var rest := PrintMore(es[1..]);
      MoreRead(es[1..]);
      PairRead(" ", es[0], rest);
      assert PrintMore(es) == " " + PrintAttempt(es[0]) + rest;
      assert (" " + PrintAttempt(es[0]) + rest)[0] == ' ';
    }
  }

  lemma PrintAttemptFirst(a: Attempt)
    requires Ordinary(a)
    ensures PrintAttempt(a) != "" && IsDigit(PrintAttempt(a)[0])
  {
    hide Dec;
  }

  lemma AttemptsReadBack(es: seq<Attempt>)
    requires forall i :: 0 <= i < |es| ==> Ordinary(es[i])
    ensures ReadAttempts(PrintAttempts(es)) == es
    ensures Strip(PrintAttempts(es)) == PrintAttempts(es)
  {
    hide PairAt, PrintAttempt, Ordinary;
    if es != [] {
      var rest := PrintMore(es[1..]);
      MoreRead(es[1..]);
      PairRead("", es[0], rest);
      PrintAttemptFirst(es[0]);
      var s := PrintAttempts(es);
      assert "" + PrintAttempt(es[0]) + rest == s;
      assert s[0] == PrintAttempt(es[0])[0];
      SpanIs(Blank, s, 0);
      assert s[0..] == s;
    }
  }

  lemma PrintChars(a: Attempt)
    ensures All(NotEol, PrintAttempt(a)) && NulFree(PrintAttempt(a))
  {
    hide Dec;
  }

  lemma {:induction false} MoreChars(es: seq<Attempt>)
    ensures All(NotEol, PrintMore(es)) && NulFree(PrintMore(es))
  {
    hide PrintAttempt;
    if es != [] {
      MoreChars(es[1..]);
      PrintChars(es[0]);
    }
  }

  lemma AttemptsChars(es: seq<Attempt>)
    ensures All(NotEol, PrintAttempts(es)) && NulFree(PrintAttempts(es))
  {
    hide PrintAttempt;
    if es != [] {
      MoreChars(es[1..]);
      PrintChars(es[0]);
    }
  }

  // ---- what a verdict means -----------------------------------------------------------------

  /** A reset takes exactly three attempts, this one included, at steps that go up by one or two
      each time, with the two older skews within one of the present one; and the present code
      is not the last one again. */
  lemma ResetIff(es: seq<Attempt>, a: Attempt)
    requires |es| <= 3 && Ordinary(a) && forall i :: 0 <= i < |es| ==> Ordinary(es[i])
    ensures Judge(es, a) == Reset <==>
              && |es| >= 2
              && var p, q := es[|es| - 2], es[|es| - 1];
                 && q.step + q.skew != a.step + a.skew
                 && p.step < q.step <= p.step + 2 && q.step < a.step <= q.step + 2
                 && -1 <= p.skew - a.skew <= 1 && -1 <= q.skew - a.skew <= 1
  {
    if es != [] { NoWrap(a, es[|es| - 1]); }
    var all := LastThree(es + [a]);
    assert |es| >= 2 ==> all == [es[|es| - 2], es[|es| - 1], a];
  }

  /** An attempt is passed over exactly if it is for the step, by its own clock, that the last one was for. */
  lemma AgainIff(es: seq<Attempt>, a: Attempt)
    requires Ordinary(a) && forall i :: 0 <= i < |es| ==> Ordinary(es[i])
    ensures Judge(es, a) == Again <==>
              |es| >= 1 && es[|es| - 1].step + es[|es| - 1].skew == a.step + a.skew
  {
    hide ToUInt32;
    if es != [] { NoWrap(a, es[|es| - 1]); }
  }

  /** Sums of ordinary steps and skews are compared without wrapping. */
  lemma NoWrap(a: Attempt, b: Attempt)
    requires Ordinary(a) && Ordinary(b)
    ensures ToUInt32(a.step + a.skew) == ToUInt32(b.step + b.skew) <==> a.step + a.skew == b.step + b.skew
  {
  }

  /** The skew that is stored: a third of the sum of the three, cut off towards zero. */
  lemma AverageIs(es: seq<Attempt>)
    requires |es| == 3
    ensures var sum, average := es[0].skew + es[1].skew + es[2].skew, Average(es);
            if sum >= 0 then 0 <= 3 * average <= sum < 3 * average + 3
            else 3 * average - 3 < sum <= 3 * average <= 0
  {
  }

  /** The skew that is stored is within one of the skew of the code just entered. */
  lemma AverageIsClose(es: seq<Attempt>)
    requires |es| == 3 && Steady(es)
    ensures es[2].skew - 1 <= Average(es) <= es[2].skew + 1
  {
  }

  /** The code just entered lies in the window around the new skew: always for windows of three
      steps or more, else only if the average came out (for a window of two, next to) right. */
  lemma NewWindowReaches(es: seq<Attempt>, server: int, window: int)
    requires |es| == 3 && Steady(es) && window > 0
    ensures Reuse.InWindow(server + es[2].skew, server, Average(es), window)
       <==> window >= 3 || Average(es) == es[2].skew || (window == 2 && Average(es) == es[2].skew - 1)
  {
    AverageIsClose(es);
  }

  // ---- the file follows the attempts --------------------------------------------------------

  /** What has been recorded since the last reset, after one more attempt: a repeated code adds
      nothing and a reset starts over. */
  function Record(record: seq<Attempt>, a: Attempt, verdict: Verdict): seq<Attempt>
  {
    match verdict case Again => record case KeepTrying => record + [a] case Reset => []
  }

  /** The file remembers the last three attempts of the record. */
  predicate Follows(t: string, record: seq<Attempt>)
  {
    && Remembered(t) == LastThree(record)
    && forall i :: 0 <= i < |record| ==> Ordinary(record[i])
  }

  lemma KeysValid()
    ensures ValidKey(KEY) && ValidKey(SKEW_KEY) && KEY != SKEW_KEY
  {
  }

  lemma LastThreeAgain(record: seq<Attempt>, a: Attempt)
    ensures LastThree(LastThree(record) + [a]) == LastThree(record + [a])
  {
  }

  lemma LastThreeOrdinary(record: seq<Attempt>, a: Attempt)
    requires Ordinary(a) && forall i :: 0 <= i < |record| ==> Ordinary(record[i])
    ensures forall i :: 0 <= i < |LastThree(record + [a])| ==> Ordinary(LastThree(record + [a])[i])
    ensures forall i :: 0 <= i < |record + [a]| ==> Ordinary((record + [a])[i])
  {
    hide Ordinary;
  }

  lemma NoAttempts()
    ensures ReadAttempts("") == [] && LastThree([]) == [] && Strip("") == "" && ValidValue("")
  {
  }

  lemma KeepTryingFollows(t: string, all: seq<Attempt>)
    requires Tidy(t) && |all| <= 3 && forall i :: 0 <= i < |all| ==> Ordinary(all[i])
    ensures var u := SetCfgValue(t, KEY, PrintAttempts(all));
            SameBut(t, u, {KEY}) && Remembered(u) == all
  {
    hide SetCfgValue, GetCfgValue, PrintAttempts, ReadAttempts, Tidy, SameBut, Ordinary, Strip, All;
    KeysValid();
    AttemptsChars(all);
    AttemptsReadBack(all);
    SetKeeps(t, KEY, PrintAttempts(all));
  }

  lemma DecIntValue(n: int)
    requires -TWO31 <= n < TWO31
    ensures ValidValue(DecInt(n)) && Strip(DecInt(n)) == DecInt(n) && ToInt32(Strtol(DecInt(n)).value) == n
  {
    hide Dec, Strtol;
    ReadLong(n);
    assert DecInt(n)[0..] == DecInt(n);
    SpanIs(Blank, DecInt(n), 0);
  }

  lemma ResetFollows(t: string, average: int)
    requires Tidy(t) && -TWO31 <= average < TWO31
    ensures var u := SetCfgValue(SetCfgValue(t, SKEW_KEY, DecInt(average)), KEY, "");
            SameBut(t, u, {KEY, SKEW_KEY}) && Remembered(u) == [] && TimeSkew(u) == average
  {
    hide SetCfgValue, GetCfgValue, Tidy, SecretLine, Codes, Strip, All, DecInt, ReadAttempts, ValidKey, ValidValue;
    KeysValid();
    NoAttempts();
    DecIntValue(average);
    var s := SetCfgValue(t, SKEW_KEY, DecInt(average));
    SetKeeps(t, SKEW_KEY, DecInt(average));
    SetKeeps(s, KEY, "");
  }

  /** One check on the file itself: its verdict is the one for the last three attempts of the
      whole record, and the file goes on following the record. */
  lemma CheckFollows(t: string, record: seq<Attempt>, skew: int, server: nat)
    requires Tidy(t) && Follows(t, record)
    requires server < TWO31 && -SKEW_LIMIT < skew < SKEW_LIMIT
    ensures var a := Attempt(server, skew);
            var (verdict, u) := Check(t, skew, server);
            && verdict == Judge(LastThree(record), a)
            && Follows(u, Record(record, a, verdict))
            && SameBut(t, u, if verdict == Reset then {KEY, SKEW_KEY} else {KEY})
            && (verdict == Reset ==> TimeSkew(u) == Average(LastThree(record + [a])))
  {
    hide SetCfgValue, PrintAttempts, SameBut, Tidy, Ordinary, Remembered, Steady, Repeats, Average, LastThree;
    var a := Attempt(server, skew);
    assert Ordinary(a) by { OrdinaryIs(server, skew); }
    LastThreeAgain(record, a);
    LastThreeOrdinary(record, a);
    var all := LastThree(record + [a]);
    AtMostThree(record + [a]);
    NoAttempts();
    match Judge(LastThree(record), a)
    case Again => SameAsBefore(t);
    case KeepTrying => KeepTryingFollows(t, all);
    case Reset =>
      SteadyAverage(all);
      ResetFollows(t, Average(all));
  }

  /** Whatever attempts a file holds, a check changes the two options only, and a reset stores a
      skew within one of the present one. */
  lemma CheckKeeps(t: string, skew: int, server: int)
    requires Tidy(t) && -SKEW_LIMIT < skew < SKEW_LIMIT
    ensures var (verdict, u) := Check(t, skew, server);
            && SameBut(t, u, if verdict == Reset then {KEY, SKEW_KEY} else {KEY})
            && (verdict == Again ==> u == t)
            && (verdict == Reset ==> skew - 1 <= TimeSkew(u) <= skew + 1)
  {
    hide SetCfgValue, PrintAttempts, SameBut, Tidy, Remembered, Steady, Repeats, Average, LastThree;
    var a := Attempt(ToUInt32(server), skew);
    var es := Remembered(t);
    var all := LastThree(es + [a]);
    match Judge(es, a)
    case Again => SameAsBefore(t);
    case KeepTrying =>
      KeysValid();
      AttemptsChars(all);
      SetKeeps(t, KEY, PrintAttempts(all));
    case Reset =>
      LastIsNew(es, a);
      AverageIsClose(all);
      ResetFollows(t, Average(all));
  }

  lemma LastIsNew(es: seq<Attempt>, a: Attempt)
    ensures var all := LastThree(es + [a]); |all| > 0 && all[|all| - 1] == a
  {
  }

  lemma OrdinaryIs(server: nat, skew: int)
    requires server < TWO31 && -SKEW_LIMIT < skew < SKEW_LIMIT
    ensures Ordinary(Attempt(server, skew))
  {
  }

  lemma AtMostThree(es: seq<Attempt>)
    ensures |LastThree(es)| <= 3
  {
  }

  lemma SameAsBefore(t: string)
    requires Tidy(t)
    ensures SameBut(t, t, {KEY})
  {
    hide Tidy, Codes, SecretLine, GetCfgValue;
  }

  lemma SteadyAverage(es: seq<Attempt>)
    requires |es| == 3 && Steady(es) && Ordinary(es[2])
    ensures -TWO31 <= Average(es) < TWO31
  {
    AverageIsClose(es);
  }
}

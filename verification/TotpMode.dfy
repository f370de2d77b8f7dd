/** When a file is one for time-based codes: is_totp looks for a text anywhere in the file, not for the
    option. */
module TotpMode {
  import opened CText
  import opened StateText
  import opened Scratch
  import opened StateInvariant
  import opened Options
  import opened Checks
  import opened Login
  import opened Effects
  import opened Runs
  import opened Grace
  import LastLogins
  import RateLimit
  import Reuse
  import TimeSkewReset
  import Setup
  import SetupReads

  const OPTION := "TOTP_AUTH"
  const MARK := "\" TOTP_AUTH"

  predicate At(s: string, i: nat) { i + |MARK| <= |s| && s[i..i + |MARK|] == MARK }

  lemma MarkIs()
    ensures |MARK| == 11 && MARK == "\" " + OPTION && ValidKey(OPTION)
    ensures forall j :: 0 <= j < 11 ==> !IsEol(MARK[j]) && (MARK[j] == '"' <==> j == 0)
  {
  }

  lemma ContainsAt(s: string)
    ensures Contains(s, MARK) <==> exists i: nat :: At(s, i)
  {
    if Contains(s, MARK) {
      var i :| 0 <= i <= |s| - |MARK| && StartsWith(s[i..], MARK);
      assert At(s, i);
    }
    if exists i: nat :: At(s, i) {
      var i: nat :| At(s, i);
      assert s[i..][..|MARK|] == s[i..i + |MARK|];
      assert StartsWith(s[i..], MARK);
    }
  }

  /** The text starts with a quote, and has no other and no line end. */
  lemma AtChars(s: string, i: nat)
    requires At(s, i)
    ensures s[i] == '"' && forall j :: i <= j < i + 11 ==> !IsEol(s[j]) && (s[j] == '"' ==> j == i)
  {
    hide IsEol;
    MarkIs();
    forall j | i <= j < i + 11 ensures s[j] == MARK[j - i] { assert s[i..i + 11][j - i] == s[j]; }
  }

  lemma NoQuoteNoMark(s: string)
    requires '"' !in s
    ensures !Contains(s, MARK)
  {
    ContainsAt(s);
    if i: nat :| At(s, i) { AtChars(s, i); }
  }

  // ---- line by line -----------------------------------------------------------------------------

  /** Behind its first line a text goes on, or not. */
  lemma FirstLineMarks(t: string, n: nat, k: nat)
    requires n <= k <= |t| && (forall i :: n <= i < k ==> IsEol(t[i])) && (n < |t| ==> IsEol(t[n]))
    ensures Contains(t, MARK) <==> Contains(t[..n], MARK) || Contains(t[k..], MARK)
  {
    hide Contains, At;
    ContainsAt(t);
    ContainsAt(t[..n]);
    ContainsAt(t[k..]);
    if i: nat :| At(t, i) { InOnePart(t, n, k, i); }
    if i: nat :| At(t[..n], i) { AtFirst(t, n, i); }
    if i: nat :| At(t[k..], i) { AtRest(t, k, i); }
  }

  lemma InOnePart(t: string, n: nat, k: nat, i: nat)
    requires n <= k <= |t| && (forall i :: n <= i < k ==> IsEol(t[i])) && (n < |t| ==> IsEol(t[n])) && At(t, i)
    ensures if i < n then At(t[..n], i) else i >= k && At(t[k..], i - k)
  {
    hide At;
    MarkIs();
    AtChars(t, i);
    AtSize(t, i);
    if i < n { AtFirst(t, n, i); } else { AtRest(t, k, i - k); }
  }

  lemma AtSize(t: string, i: nat)
    requires At(t, i)
    ensures i + 11 <= |t|
  {
    MarkIs();
  }

  lemma AtFirst(t: string, n: nat, i: nat)
    requires n <= |t|
    ensures At(t[..n], i) <==> i + 11 <= n && At(t, i)
  {
    MarkIs();
    if i + 11 <= n { assert t[..n][i..i + 11] == t[i..i + 11]; }
  }

  lemma AtRest(t: string, k: nat, i: nat)
    requires k <= |t|
    ensures At(t[k..], i) <==> At(t, k + i)
  {
    MarkIs();
    if k + i + 11 <= |t| { assert t[k..][i..i + 11] == t[k + i..k + i + 11]; }
  }

  /** The lines that hold the text. */
  function Marks(ls: seq<string>): seq<string>
  {
    if ls == [] then [] else (if Contains(ls[0], MARK) then [ls[0]] else []) + Marks(ls[1..])
  }

  lemma MarksCons(line: string, rest: seq<string>)
    ensures Marks([line] + rest) == (if Contains(line, MARK) then [line] else []) + Marks(rest)
  {
    hide Contains;
    assert ([line] + rest)[1..] == rest;
  }

  lemma {:induction false} MarksConcat(a: seq<string>, b: seq<string>)
    ensures Marks(a + b) == Marks(a) + Marks(b)
  {
    hide *;
    if a == [] {
      assert a + b == b;
      NothingMarked();
    } else {
      var rest := a[1..];
      MarksConcat(rest, b);
      MarksCons(a[0], rest);
      MarksCons(a[0], rest + b);
      assert a == [a[0]] + rest && a + b == [a[0]] + (rest + b);
      var first := if Contains(a[0], MARK) then [a[0]] else [];
      assert (first + Marks(rest)) + Marks(b) == first + (Marks(rest) + Marks(b));
    }
  }

  lemma MarksOne(line: string)
    ensures Marks([line]) == if Contains(line, MARK) then [line] else []
  {
    hide Contains;
    assert [line][1..] == [];
  }

  lemma {:induction false} InMarks(ls: seq<string>, line: string)
    ensures line in Marks(ls) <==> line in ls && Contains(line, MARK)
  {
    hide Contains;
    if ls != [] {
      InMarks(ls[1..], line);
      assert ls == [ls[0]] + ls[1..];
    }
  }

  /** The text is found exactly if a line holds it. */
  lemma {:induction false} ModeByLine(t: string)
    ensures IsTotp(t) <==> Marks(Lines(t)) != []
    decreases |t|
  {
    hide Contains, Lines, Span, Marks;
    if t == "" {
      LinesEmpty();
      NothingMarked();
    } else {
      var n, k := Span(NotEol, t), LineLength(t);
      LinesStep(t);
      ModeByLine(t[k..]);
      MarksConcat(FirstLine(t), Lines(t[k..]));
      LineEnds(t);
      FirstLineMarks(t, n, k);
      MarksOne(t[..n]);
      NothingMarked();
      assert n == 0 ==> t[..n] == "";
    }
  }

  lemma NothingMarked()
    ensures Marks([]) == [] && !Contains("", MARK)
  {
  }

  lemma LineEnds(t: string)
    requires t != ""
    ensures var n, k := Span(NotEol, t), LineLength(t);
            n <= k <= |t| && (forall i :: n <= i < k ==> IsEol(t[i])) && (n < |t| ==> IsEol(t[n]))
  {
    hide Span;
    var n, k := Span(NotEol, t), LineLength(t);
    assert forall i :: n <= i < k ==> t[i] == t[n..][i - n];
  }

  // ---- the text and the option --------------------------------------------------------------------

  /** The text stands in a line at another place than the start, or starts a longer name. */
  ghost predicate Stray(line: string)
  {
    exists i: nat :: At(line, i) && (i > 0 || (|MARK| < |line| && !IsBlank(line[|MARK|])))
  }

  ghost predicate HasStray(t: string) { exists j :: 0 <= j < |Lines(t)| && Stray(Lines(t)[j]) }

  lemma LineMarked(line: string)
    requires All(NotEol, line)
    ensures Contains(line, MARK) <==> IsKeyLine(line, OPTION) || Stray(line)
  {
    ContainsAt(line);
    MarkIs();
    if i: nat :| At(line, i) {
      if i == 0 { assert line[..11] == line[0..11]; }
    }
    if IsKeyLine(line, OPTION) {
      assert line[0..11] == line[..11];
      assert At(line, 0);
    }
  }

  /** is_totp finds its text exactly if the option is there, or the text stands where it is not the option. */
  lemma IsTotpIff(t: string)
    ensures IsTotp(t) <==> GetCfgValue(t, OPTION).Some? || HasStray(t)
  {
    hide Contains, Stray, IsTotp, GetCfgValue, Lines, IsKeyLine, ValueOf, Marks, ValidKey;
    MarkIs();
    ModeByLine(t);
    GetIsLookup(t, OPTION);
    var ls := Lines(t);
    if Marks(ls) != [] {
      var line := Marks(ls)[0];
      InMarks(ls, line);
      var j :| 0 <= j < |ls| && ls[j] == line;
      LineMarked(line);
    }
    if Lookup(ls, OPTION).Some? {
      var j := FirstKey(ls, OPTION);
      LineMarked(ls[j]);
      InMarks(ls, ls[j]);
    }
    if j :| 0 <= j < |ls| && Stray(ls[j]) {
      LineMarked(ls[j]);
      InMarks(ls, ls[j]);
    }
  }

  /** So it agrees with the option exactly if the option is there or the text stands nowhere else. */
  lemma ModeAgreesIff(t: string)
    ensures (IsTotp(t) <==> GetCfgValue(t, OPTION).Some?) <==> GetCfgValue(t, OPTION).Some? || !HasStray(t)
  {
    hide IsTotp, HasStray, GetCfgValue;
    IsTotpIff(t);
  }

  /** A file in which it does not. */
  lemma StrayFile()
    ensures var t := "A\n\" TOTP_AUTHX\n"; IsTotp(t) && GetCfgValue(t, OPTION).None?
  {
    hide *;
    StrayText();
    StrayLines();
    NoOptionThere();
    LookupNeither("A", "\" TOTP_AUTHX", OPTION);
    MarkIs();
    GetIsLookup("A\n\" TOTP_AUTHX\n", OPTION);
  }

  lemma StrayText()
    ensures IsTotp("A\n\" TOTP_AUTHX\n")
  {
    var t := "A\n\" TOTP_AUTHX\n";
    assert t[2..][..11] == MARK;
    assert StartsWith(t[2..], MARK);
  }

  lemma StrayLines()
    ensures Lines("A\n\" TOTP_AUTHX\n") == ["A", "\" TOTP_AUTHX"]
  {
    hide Lines;
    var line := "\" TOTP_AUTHX";
    LinesOfLine("A", line + "\n" + "");
    LinesOfLine(line, "");
    LinesEmpty();
    assert "A" + "\n" + (line + "\n" + "") == "A\n\" TOTP_AUTHX\n";
    assert ["A"] + ([line] + []) == ["A", line];
  }

  lemma NoOptionThere()
    ensures !IsKeyLine("A", OPTION) && !IsKeyLine("\" TOTP_AUTHX", OPTION)
  {
    assert "\" TOTP_AUTHX"[11] == 'X';
  }

  lemma LookupNeither(a: string, b: string, key: string)
    requires !IsKeyLine(a, key) && !IsKeyLine(b, key)
    ensures Lookup([a, b], key) == None
  {
    hide IsKeyLine, ValueOf;
  }

  // ---- what the module writes -----------------------------------------------------------------------

  /** An option that the module writes. */
  ghost predicate Writes(key: string)
  {
    key == RateLimit.KEY || key == Reuse.KEY || key == TimeSkewReset.KEY || key == TimeSkewReset.SKEW_KEY
    || key == COUNTER_KEY || exists i :: -1 <= i < 10 && key == LastLogins.Name(i)
  }

  /** No line of such an option holds the text. */
  ghost predicate Clean(t: string)
  {
    forall line, key :: line in Marks(Lines(t)) && Writes(key) ==> !IsKeyLine(line, key)
  }

  /** The same lines hold it. */
  predicate SameMarks(t: string, u: string) { Marks(Lines(u)) == Marks(Lines(t)) }

  ghost predicate Untouched(t: string, u: string) { Tidy(u) && Clean(u) && SameMarks(t, u) }

  lemma KeptTwice(t: string, u: string, v: string)
    requires Untouched(t, u) && Untouched(u, v)
    ensures Untouched(t, v)
  {
    hide Tidy, Clean, Lines, Marks;
  }

  lemma KeptSelf(t: string)
    requires Tidy(t) && Clean(t)
    ensures Untouched(t, t)
  {
    hide Tidy, Clean, Lines, Marks;
  }

  lemma CleanLike(t: string, u: string)
    requires Clean(t) && SameMarks(t, u)
    ensures Clean(u)
  {
    hide Writes, IsKeyLine, Lines, Marks;
  }

  lemma KeptMode(t: string, u: string)
    requires Untouched(t, u)
    ensures IsTotp(u) == IsTotp(t)
  {
    hide Tidy, Clean, Lines, Marks, IsTotp;
    ModeByLine(t);
    ModeByLine(u);
  }

  predicate Quiet(key: string) { '"' !in key && |key| >= 2 && !(key[0] == 'T' && key[1] == 'O') }

  lemma OwnIs(key: string)
    requires Writes(key)
    ensures ValidKey(key) && Quiet(key)
  {
    LastLogins.NameFacts();
    if i :| -1 <= i < 10 && key == LastLogins.Name(i) { OwnName(i); }
  }

  lemma OwnName(i: int)
    requires -1 <= i < 10
    ensures '"' !in LastLogins.Name(i) && |LastLogins.Name(i)| >= 2 && LastLogins.Name(i)[0] == 'L'
  {
  }

  /** A line of such an option does not hold the text if its value has no quote. */
  lemma QuietLine(key: string, val: string)
    requires Quiet(key) && '"' !in val
    ensures !Contains(OptionLine(key, val), MARK)
  {
    MarkIs();
    var line := OptionLine(key, val);
    ContainsAt(line);
    OneQuote(key, val);
    assert line[2] == key[0] && line[3] == key[1];
    assert MARK[2] == 'T' && MARK[3] == 'O';
    assert |line| >= 11 ==> line[0..11][2] == line[2] && line[0..11][3] == line[3];
    if i: nat :| At(line, i) { AtChars(line, i); }
  }

  lemma OneQuote(key: string, val: string)
    requires '"' !in key && '"' !in val
    ensures forall i :: 0 <= i < |OptionLine(key, val)| && OptionLine(key, val)[i] == '"' ==> i == 0
  {
    var line := OptionLine(key, val);
    forall i | 0 < i < |line| ensures line[i] != '"' {
      assert line[i] == if i < 2 then ' ' else if i < 2 + |key| then key[i - 2] else if i == 2 + |key| then ' '
                        else val[i - 3 - |key|];
    }
  }

  lemma {:induction false} MarksWithout(ls: seq<string>, key: string)
    requires forall line :: line in Marks(ls) ==> !IsKeyLine(line, key)
    ensures Marks(Without(ls, key)) == Marks(ls)
  {
    hide Contains, IsKeyLine, Marks;
    if ls != [] {
      var rest := ls[1..];
      MarksCons(ls[0], rest);
      assert ls == [ls[0]] + rest;
      MarksWithout(rest, key);
      InMarks(ls, ls[0]);
      MarksCons(ls[0], Without(rest, key));
    }
  }

  lemma NoMarks(ls: seq<string>, key: string)
    requires forall j :: 0 <= j < |ls| ==> IsKeyLine(ls[j], key)
    requires forall line :: line in Marks(ls) ==> !IsKeyLine(line, key)
    ensures Marks(ls) == []
  {
    hide Contains, IsKeyLine, Marks;
    if Marks(ls) != [] {
      var line := Marks(ls)[0];
      InMarks(ls, line);
    }
  }

  /** The keyed update leaves the marked lines alone. */
  lemma UpdateMarks(ls: seq<string>, key: string, val: string)
    requires Writes(key) && '"' !in val && forall line :: line in Marks(ls) ==> !IsKeyLine(line, key)
    ensures Marks(Update(ls, key, val)) == Marks(ls)
  {
    hide *;
    var line := OptionLine(key, val);
    OwnIs(key);
    QuietLine(key, val);
    MarksOne(line);
    var a, b, c := UpdateShape(ls, key, val);
    MarksConcat(a + b, c);
    MarksConcat(a, b);
    MarksConcat(a + [line], Without(c, key));
    MarksConcat(a, [line]);
    NoMarks(b, key);
    MarksWithout(c, key);
  }

  lemma SetKept(t: string, key: string, val: string)
    requires Tidy(t) && Clean(t) && Writes(key) && ValidValue(val) && '"' !in val
    ensures Untouched(t, SetCfgValue(t, key, val))
  {
    hide *;
    OwnIs(key);
    SetKeeps(t, key, val);
    SetTidy(t, key, val);
    CleanFor(t, key);
    UpdateMarks(Lines(t), key, val);
    SameMarksIs(t, SetCfgValue(t, key, val));
    CleanLike(t, SetCfgValue(t, key, val));
    UntouchedIs(t, SetCfgValue(t, key, val));
  }

  lemma SetTidy(t: string, key: string, val: string)
    requires Tidy(t) && ValidKey(key) && ValidValue(val)
    ensures Tidy(SetCfgValue(t, key, val)) && Lines(SetCfgValue(t, key, val)) == Update(Lines(t), key, val)
  {
    hide Tidy, SetCfgValue, Lines, Update, ValidKey, ValidValue, GetCfgValue, SecretLine, Codes, Strip;
    SetKeeps(t, key, val);
    TidyFacts(t, key);
    SetIsUpdate(t, key, val);
  }

  lemma CleanFor(t: string, key: string)
    requires Clean(t) && Writes(key)
    ensures forall line :: line in Marks(Lines(t)) ==> !IsKeyLine(line, key)
  {
    hide Writes, IsKeyLine, Lines, Marks;
  }

  lemma SameMarksIs(t: string, u: string)
    ensures SameMarks(t, u) <==> Marks(Lines(u)) == Marks(Lines(t))
  {
    hide Lines, Marks;
  }

  lemma UntouchedIs(t: string, u: string)
    ensures Untouched(t, u) <==> Tidy(u) && Clean(u) && SameMarks(t, u)
  {
    hide Tidy, Clean, SameMarks;
  }

  // ---- values without quotes ------------------------------------------------------------------------

  lemma DecNoQuote(n: nat)
    ensures '"' !in Dec(n)
  {
    hide Dec;
    assert All(Digit, Dec(n));
  }

  lemma DecIntNoQuote(n: int)
    ensures '"' !in DecInt(n)
  {
    hide DecInt;
  }

  lemma SignedNoQuote(n: int)
    ensures '"' !in DecSigned(n)
  {
    hide Dec;
    if n < 0 { DecNoQuote(-n); } else { DecNoQuote(n); }
  }

  lemma {:induction false} StampsNoQuote(stamps: seq<nat>)
    ensures '"' !in RateLimit.PrintStamps(stamps)
  {
    hide Dec;
    if stamps != [] {
      DecNoQuote(stamps[0]);
      StampsNoQuote(stamps[1..]);
    }
  }

  lemma LimitsNoQuote(l: RateLimit.Limits)
    ensures '"' !in RateLimit.PrintLimits(l)
  {
    hide DecInt, RateLimit.PrintStamps;
    DecIntNoQuote(l.attempts);
    DecIntNoQuote(l.interval);
    StampsNoQuote(l.stamps);
  }

  lemma AttemptNoQuote(a: TimeSkewReset.Attempt)
    ensures '"' !in TimeSkewReset.PrintAttempt(a)
  {
    hide DecInt, DecSigned, ToInt32;
    DecIntNoQuote(ToInt32(a.step));
    SignedNoQuote(a.skew);
  }

  lemma {:induction false} MoreNoQuote(es: seq<TimeSkewReset.Attempt>)
    ensures '"' !in TimeSkewReset.PrintMore(es)
  {
    hide TimeSkewReset.PrintAttempt;
    if es != [] {
      AttemptNoQuote(es[0]);
      MoreNoQuote(es[1..]);
    }
  }

  lemma AttemptsNoQuote(es: seq<TimeSkewReset.Attempt>)
    ensures '"' !in TimeSkewReset.PrintAttempts(es)
  {
    hide TimeSkewReset.PrintAttempt, TimeSkewReset.PrintMore;
    if es != [] {
      AttemptNoQuote(es[0]);
      MoreNoQuote(es[1..]);
    }
  }

  /** White space and a number have none. */
  lemma NumberNoQuote(p: string)
    ensures '"' !in p[..Strtoul(p).end]
  {
    hide Span;
    var a := Span(Space, p);
    var b := DigitsFrom(p, a);
    var d := Span(Digit, p[b..]);
    assert forall i :: b <= i < b + d ==> p[i] == p[b..][i - b];
    forall i | 0 <= i < Strtoul(p).end ensures p[i] != '"' { assert i < a || i == a || b <= i < b + d; }
  }

  lemma SpaceNoQuote(s: string)
    ensures '"' !in s[..Span(White, s)]
  {
    hide Span;
  }

  /** What is kept of a list of steps has none, whatever the list was. */
  lemma {:induction false} EditNoQuote(s: string, step: int, window: int)
    ensures var e := Reuse.Edit(s, step, window); e.Kept? ==> '"' !in e.text
    decreases |s|
  {
    hide Strtoul, Reuse.IsEntry, Span, Reuse.Edit, Reuse.Far, Reuse.EntryAt;
    Reuse.EditStep(s, step, window);
    var w := Span(White, s);
    var p := Reuse.AfterWhite(s);
    SpaceNoQuote(s);
    if p == "" {
      assert s[..w] == s;
    } else if Reuse.IsEntry(p) && Reuse.EntryAt(p) != step {
      Reuse.EntryEnds(p);
      var rest := p[Strtoul(p).end..];
      NumberNoQuote(p);
      EditNoQuote(rest[Span(Blank, rest)..], step, window);
      EditNoQuote(rest, step, window);
    }
  }

  lemma AppendNoQuote(list: string, step: int)
    requires '"' !in list
    ensures '"' !in Reuse.Append(list, step)
  {
    hide DecInt;
    DecIntNoQuote(step);
  }

  // ---- what each procedure leaves -------------------------------------------------------------------

  lemma OwnKeys()
    ensures Writes(RateLimit.KEY) && Writes(Reuse.KEY) && Writes(TimeSkewReset.KEY) && Writes(TimeSkewReset.SKEW_KEY)
         && Writes(COUNTER_KEY)
  {
  }

  lemma RateKept(t: string, now: nat)
    requires Tidy(t) && Clean(t) && now < TWO32
    ensures Untouched(t, RateLimit.Check(t, now).1)
  {
    hide GetCfgValue, SetCfgValue, Tidy, Clean, RateLimit.ParseLimits, RateLimit.PrintLimits, RateLimit.Recent,
         Untouched,
         RateLimit.Newest, ValidValue, Strip, RateLimit.ValidLimits, Writes;
    var v := GetCfgValue(t, RateLimit.KEY);
    KeptSelf(t);
    if v.Some? && RateLimit.ParseLimits(v.value).Some? {
      var l := RateLimit.ParseLimits(v.value).value;
      var kept := l.(stamps := RateLimit.Newest(l.attempts, RateLimit.Recent(l, now)));
      RateLimit.RecentValid(l, now);
      RateLimit.LimitsReadBack(kept);
      LimitsNoQuote(kept);
      OwnKeys();
      SetKept(t, RateLimit.KEY, RateLimit.PrintLimits(kept));
    }
  }

  lemma StepKept(t: string, step: int, must: bool)
    requires Tidy(t) && Clean(t)
    ensures Untouched(t, UseStep(t, step, must).text)
  {
    hide Reuse.Edit, GetCfgValue, WindowSize, SetCfgValue, Tidy, Clean, Untouched, Strip, Reuse.Append, All, Writes,
         Reuse.Entries, Reuse.Near;
    KeptSelf(t);
    var v := GetCfgValue(t, Reuse.KEY);
    if v.Some? && WindowSize(t) > 0 && Reuse.Edit(v.value, step, WindowSize(t)).Kept? {
      var kept := Reuse.Edit(v.value, step, WindowSize(t)).text;
      Reuse.EditIsFilter(v.value, step, WindowSize(t));
      ValueNotEol(t, Reuse.KEY);
      Reuse.AppendNotEol(kept, step);
      EditNoQuote(v.value, step, WindowSize(t));
      AppendNoQuote(kept, step);
      OwnKeys();
      SetKept(t, Reuse.KEY, Reuse.Append(kept, step));
    }
  }

  lemma SkewKept(t: string, skew: int, server: int)
    requires Tidy(t) && Clean(t)
    ensures Untouched(t, TimeSkewReset.Check(t, skew, server).1)
  {
    hide SetCfgValue, Tidy, Clean, Untouched, TimeSkewReset.PrintAttempts, TimeSkewReset.Remembered,
         TimeSkewReset.Judge,
         TimeSkewReset.Average, TimeSkewReset.LastThree, All, Writes, DecInt, ToUInt32;
    KeptSelf(t);
    OwnKeys();
    var a := TimeSkewReset.Attempt(ToUInt32(server), skew);
    var es := TimeSkewReset.Remembered(t);
    var all := TimeSkewReset.LastThree(es + [a]);
    match TimeSkewReset.Judge(es, a)
    case Again =>
    case KeepTrying =>
      TimeSkewReset.AttemptsChars(all);
      AttemptsNoQuote(all);
      SetKept(t, TimeSkewReset.KEY, TimeSkewReset.PrintAttempts(all));
    case Reset =>
      ResetIsThree(es, a);
      ResetKept(t, TimeSkewReset.Average(all));
  }

  lemma ResetIsThree(es: seq<TimeSkewReset.Attempt>, a: TimeSkewReset.Attempt)
    ensures TimeSkewReset.Judge(es, a) == TimeSkewReset.Reset ==> |TimeSkewReset.LastThree(es + [a])| == 3
  {
    hide TimeSkewReset.LastThree, TimeSkewReset.Repeats, TimeSkewReset.Steady;
  }

  lemma ResetKept(t: string, skew: int)
    requires Tidy(t) && Clean(t)
    ensures Untouched(t, SetCfgValue(SetCfgValue(t, TimeSkewReset.SKEW_KEY, DecInt(skew)), TimeSkewReset.KEY, ""))
  {
    hide *;
    var u := SetCfgValue(t, TimeSkewReset.SKEW_KEY, DecInt(skew));
    OwnKeys();
    Reuse.DecIntChars(skew);
    DecIntNoQuote(skew);
    ValueIs(DecInt(skew));
    ValueIs("");
    NothingInIt();
    SetKept(t, TimeSkewReset.SKEW_KEY, DecInt(skew));
    UntouchedIs(t, u);
    SetKept(u, TimeSkewReset.KEY, "");
    KeptTwice(t, u, SetCfgValue(u, TimeSkewReset.KEY, ""));
  }

  lemma ValueIs(val: string)
    ensures ValidValue(val) <==> All(NotEol, val)
  {
  }

  lemma NothingInIt()
    ensures All(NotEol, "") && '"' !in ""
  {
  }

  lemma CounterKept(t: string, n: int)
    requires Tidy(t) && Clean(t)
    ensures Untouched(t, SetCfgValue(t, COUNTER_KEY, DecInt(n)))
  {
    hide *;
    OwnKeys();
    Reuse.DecIntChars(n);
    DecIntNoQuote(n);
    ValueIs(DecInt(n));
    SetKept(t, COUNTER_KEY, DecInt(n));
  }

  /** The line of a code holds nothing but the code. */
  lemma ScratchKept(t: string, code: int)
    requires Tidy(t) && Clean(t) && CheckScratchCodes(t, code).Some?
    ensures Untouched(t, CheckScratchCodes(t, code).value)
  {
    hide *;
    var u := CheckScratchCodes(t, code).value;
    ScratchKeeps(t, code);
    var p := CodeLine(t, code);
    CutLine(t, p);
    var s := t[p..];
    var line := s[..Span(NotEol, s)];
    var a, b := Lines(t[..p]), Lines(s[LineLength(s)..]);
    CodeLineDigits(t, code, p);
    MarksConcat(a + [line], b);
    MarksConcat(a, [line]);
    MarksConcat(a, b);
    MarksOne(line);
    SameMarksIs(t, u);
    CleanLike(t, u);
    UntouchedIs(t, u);
  }

  lemma CodeLineDigits(t: string, code: int, p: nat)
    requires Tidy(t) && CheckScratchCodes(t, code).Some? && p < |t|
    requires Strtoul(t[p..]).end == Span(NotEol, t[p..])
    ensures !Contains(t[p..][..Span(NotEol, t[p..])], MARK)
  {
    hide Tidy, CheckScratchCodes, Strtoul, Span, Contains;
    NumberNoQuote(t[p..]);
    NoQuoteNoMark(t[p..][..Span(NotEol, t[p..])]);
  }

  lemma CheckKept(t: string, gen: int -> int, code: int, counter: int, now: nat, noSkewAdj: bool, must: bool)
    requires Tidy(t) && Clean(t)
    ensures Untouched(t, CheckCode(t, gen, code, counter, now, noSkewAdj, must).text)
  {
    hide CheckScratchCodes, CheckCounter, CheckTime, Tidy, Clean, Untouched;
    if CheckScratchCodes(t, code).Some? {
      ScratchKept(t, code);
    } else if counter > 0 {
      CheckCounterKept(t, gen, code, counter, must);
    } else {
      CheckTimeKept(t, gen, code, now, noSkewAdj, must);
    }
  }

  lemma CheckCounterKept(t: string, gen: int -> int, code: int, counter: int, must: bool)
    requires Tidy(t) && Clean(t)
    ensures Untouched(t, CheckCounter(t, gen, code, counter, must).text)
  {
    hide Tidy, Clean, Untouched, SetCfgValue, WindowSize, FirstMatch, DecInt;
    KeptSelf(t);
    match FirstMatch(gen, code, counter, counter + WindowSize(t))
    case Some(v) => CounterKept(t, v + 1);
    case None =>
  }

  lemma CheckTimeKept(t: string, gen: int -> int, code: int, now: nat, noSkewAdj: bool, must: bool)
    requires Tidy(t) && Clean(t)
    ensures Untouched(t, CheckTime(t, gen, code, now, noSkewAdj, must).text)
  {
    hide Tidy, Clean, Untouched, IsTotp, TimeStep, WindowSize, TimeSkew, StepMatch, FindSkew, UseStep,
         TimeSkewReset.Check;
    KeptSelf(t);
    forall step: int ensures Untouched(t, UseStep(t, step, must).text) { StepKept(t, step, must); }
    forall skew: int ensures Untouched(t, TimeSkewReset.Check(t, skew, TimeStep(t, now)).1) {
      SkewKept(t, skew, TimeStep(t, now));
    }
  }

  // ---- a login ----------------------------------------------------------------------------------------

  lemma LoopKept(a: Attempt, t: string)
    requires Tidy(t) && Clean(t)
    ensures var l := Modes(a, 0, Start(t)); Untouched(t, l.text) && Untouched(t, Advance(a, l.text, l.must))
  {
    hide Modes, TryAll, Tidy, Clean, Untouched, Prompts, Entered, Check, Advance, Unchanged;
    StartUnchanged(a, t);
    KeptSelf(t);
    if a.gen.None? {
      GuardFires(a, t, 0, Start(t));
    } else {
      LoopIsTryAll(a, a.gen.value, t, 0, Start(t));
      TriedKept(a, a.gen.value, t);
    }
    AdvanceKept(a, t, Modes(a, 0, Start(t)).text, Modes(a, 0, Start(t)).must);
  }

  lemma TriedKept(a: Attempt, gen: int -> int, t: string)
    requires Tidy(t) && Clean(t)
    ensures Untouched(t, TryAll(a, gen, t, 0, false).checked.text)
  {
    hide TryAll, Tidy, Clean, Untouched, Entered, CheckCode;
    KeptSelf(t);
    var must := TryAllIs(a, gen, t, 0, false);
    var r := TryAll(a, gen, t, 0, false);
    if r.mode < 4 {
      CheckKept(t, gen, Entered(a, r.mode).value.0, a.counter, a.input.now, a.params.noSkewAdj, must);
    }
  }

  lemma AdvanceKept(a: Attempt, t: string, u: string, must: bool)
    requires Untouched(t, u)
    ensures Untouched(t, Advance(a, u, must))
  {
    hide Tidy, Clean, SameMarks, SetCfgValue, DecInt;
    if Advances(a, must) {
      CounterKept(u, a.counter + 1);
      KeptTwice(t, u, Advance(a, u, must));
    }
  }

  lemma DetailsKept(t: string, host: string, now: nat)
    requires Tidy(t) && Clean(t) && All(NotEol, host) && '"' !in host
    ensures Untouched(t, LastLogins.UpdateLoginDetails(t, host, now))
  {
    hide *;
    var r := LastLogins.FindSlot(t, host, 0, now, -1);
    OwnSlot(r);
    LastLogins.WrittenNoEol(host, now);
    SlotNoQuote(host, now);
    UpdateIs(t, host, now);
    SetKept(t, LastLogins.Name(r), LastLogins.SlotValue(host, now));
  }

  lemma OwnSlot(r: int)
    requires -1 <= r < 10
    ensures Writes(LastLogins.Name(r))
  {
    hide LastLogins.Name;
  }

  lemma UpdateIs(t: string, host: string, now: nat)
    ensures LastLogins.UpdateLoginDetails(t, host, now)
         == SetCfgValue(t, LastLogins.Name(LastLogins.FindSlot(t, host, 0, now, -1)), LastLogins.SlotValue(host, now))
  {
    hide SetCfgValue, LastLogins.Name, LastLogins.FindSlot, LastLogins.SlotValue;
  }

  lemma SlotNoQuote(host: string, now: nat)
    requires '"' !in host
    ensures '"' !in LastLogins.SlotValue(host, now)
  {
    hide Dec;
    DecNoQuote(now);
  }

  lemma LoginKept(p: Params, i: Input, otp: Coder, file: string)
    requires Tidy(file) && Clean(file) && Sane(i, file) && (i.host.Some? ==> '"' !in i.host.value)
    ensures Untouched(file, NewFile(Authenticate(p, i, otp, file), file))
  {
    hide *;
    var o := Authenticate(p, i, otp, file);
    var (decision, t) := RateLimit.Check(file, ToUInt32(i.now));
    var a := NewAttempt(p, i, otp, t);
    var l := Modes(a, 0, Start(t));
    var s := Advance(a, l.text, l.must);
    NowFits(i, file);
    RateKept(file, ToUInt32(i.now));
    UntouchedIs(file, t);
    KeptSelf(file);
    LoopKept(a, t);
    KeptTwice(file, t, s);
    UntouchedIs(file, s);
    WhatIsWritten(p, i, otp, file);
    if Records(p, i, o) {
      RecordsHost(p, i, o);
      SaneHost(i, file, i.host.value);
      DetailsKept(s, i.host.value, i.now);
      KeptTwice(file, s, NewFile(o, file));
    }
  }

  // ---- runs -------------------------------------------------------------------------------------------

  predicate NoQuoteHosts(run: seq<Try>)
  {
    forall k :: 0 <= k < |run| && run[k].input.host.Some? ==> '"' !in run[k].input.host.value
  }

  /** Over any run of logins from hosts without a quote in their names, a file stays one for time-based
      codes, or stays none. */
  lemma {:induction false} ModeStays(otp: Coder, file: string, run: seq<Try>)
    requires Tidy(file) && Clean(file) && SaneRun(otp, file, run) && NoQuoteHosts(run)
    ensures Untouched(file, FileAfter(otp, file, run))
    ensures IsTotp(FileAfter(otp, file, run)) == IsTotp(file)
  {
    hide Tidy, Clean, Untouched, FileAfter, Sane, IsTotp;
    if run == [] {
      KeptSelf(file);
      NoRun(otp, file);
    } else {
      assert forall k :: 0 <= k < |Front(run)| ==> Front(run)[k] == run[k];
      ModeStays(otp, file, Front(run));
      var t := FileAfter(otp, file, Front(run));
      UntouchedIs(file, t);
      FileStep(otp, file, run);
      NextIs(otp, t, Last(run));
      LoginKept(Last(run).params, Last(run).input, otp, t);
      KeptTwice(file, t, FileAfter(otp, file, run));
    }
    KeptMode(file, FileAfter(otp, file, run));
  }

  lemma NoRun(otp: Coder, file: string)
    ensures FileAfter(otp, file, []) == file
  {
  }

  lemma NextIs(otp: Coder, t: string, x: Try)
    ensures Next(otp, t, x) == NewFile(Authenticate(x.params, x.input, otp, t), t)
  {
    hide Authenticate, NewFile;
  }

  /** A recorded login of a host whose name holds the text makes the file one for time-based codes. */
  lemma HostTurnsOn(p: Params, i: Input, otp: Coder, file: string)
    requires Records(p, i, Authenticate(p, i, otp, file)) && i.host.Some?
    requires Contains(LastLogins.SlotValue(i.host.value, i.now), MARK)
    ensures IsTotp(NewFile(Authenticate(p, i, otp, file), file))
  {
    hide *;
    var t := RateLimit.Check(file, ToUInt32(i.now)).1;
    var a := NewAttempt(p, i, otp, t);
    var l := Modes(a, 0, Start(t));
    var s := Advance(a, l.text, l.must);
    var host := i.host.value;
    WhatIsWritten(p, i, otp, file);
    UpdateIs(s, host, i.now);
    SetHolds(s, LastLogins.Name(LastLogins.FindSlot(s, host, 0, i.now, -1)), LastLogins.SlotValue(host, i.now));
    TotpIs(NewFile(Authenticate(p, i, otp, file), file));
  }

  lemma TotpIs(t: string)
    ensures IsTotp(t) <==> Contains(t, MARK)
  {
    hide Contains;
  }

  lemma SetHolds(t: string, key: string, val: string)
    requires Contains(val, MARK)
    ensures Contains(SetCfgValue(t, key, val), MARK)
  {
    hide Slot, DeleteLines, Contains;
    var (start, stop) := Slot(t, key);
    var before := t[..start] + "\" " + key + " ";
    var after := "\n" + DeleteLines(t[stop..], key);
    assert SetCfgValue(t, key, val) == before + val + after;
    Within(before, val, after);
  }

  lemma Within(before: string, s: string, after: string)
    requires Contains(s, MARK)
    ensures Contains(before + s + after, MARK)
  {
    ContainsAt(s);
    ContainsAt(before + s + after);
    var i: nat :| At(s, i);
    assert (before + s + after)[|before| + i..|before| + i + |MARK|] == s[i..i + |MARK|];
    assert At(before + s + after, |before| + i);
  }


  // ---- files of the setup program -----------------------------------------------------------------------

  lemma FileLinesAre(key: seq<bv8>, c: Setup.Choices)
    requires |key| == Setup.KEY_BYTES && Setup.Accepted(c)
    ensures Lines(Setup.File(Setup.Letters(key), c))
         == [Setup.Letters(key)] + (Setup.LinesOf(Setup.Entries(c)) + Setup.CodeLines(c.codes))
  {
    hide *;
    SetupReads.EntriesArePlain(c);
    SetupReads.LettersAreLine(key);
    Setup.AcceptedCodes(c);
    SetupReads.CodesPositive(c.codes);
    SetupReads.FileIs(Setup.Letters(key), c);
    SetupReads.FileLines(Setup.Letters(key), Setup.Entries(c), c.codes);
    SetupReads.LinesOfJoin([Setup.Letters(key)] + (Setup.LinesOf(Setup.Entries(c)) + Setup.CodeLines(c.codes)));
  }

  lemma LettersNoQuote(key: seq<bv8>)
    requires |key| == Setup.KEY_BYTES
    ensures '"' !in Setup.Letters(key)
  {
    hide Setup.Letters;
    Setup.LettersOfKey(key);
  }

  predicate Unmarked(e: Setup.Entry) { e == Setup.Entry(OPTION, "") || (Quiet(e.key) && '"' !in e.val) }

  predicate AllUnmarked(es: seq<Setup.Entry>) { forall i :: 0 <= i < |es| ==> Unmarked(es[i]) }

  lemma UnmarkedConcat(a: seq<Setup.Entry>, b: seq<Setup.Entry>)
    requires AllUnmarked(a) && AllUnmarked(b)
    ensures AllUnmarked(a + b)
  {
    hide Unmarked;
  }

  lemma EntriesUnmarked(c: Setup.Choices)
    ensures AllUnmarked(Setup.Entries(c))
  {
    hide AllUnmarked, Setup.RateEntries, Setup.WindowEntries, Setup.StepEntries, Setup.DisallowEntries, Setup.AuthEntry;
    ListsUnmarked(c);
    SwitchesUnmarked(c);
    UnmarkedConcat(Setup.DisallowEntries(c), [Setup.AuthEntry(c)]);
    UnmarkedConcat(Setup.StepEntries(c), Setup.DisallowEntries(c) + [Setup.AuthEntry(c)]);
    UnmarkedConcat(Setup.WindowEntries(c),
                   Setup.StepEntries(c) + (Setup.DisallowEntries(c) + [Setup.AuthEntry(c)]));
    UnmarkedConcat(Setup.RateEntries(c), Setup.WindowEntries(c)
                   + (Setup.StepEntries(c) + (Setup.DisallowEntries(c) + [Setup.AuthEntry(c)])));
  }

  lemma ListsUnmarked(c: Setup.Choices)
    ensures AllUnmarked(Setup.RateEntries(c)) && AllUnmarked(Setup.WindowEntries(c))
    ensures AllUnmarked(Setup.StepEntries(c))
  {
    hide DecInt, Setup.Rate, Setup.Window;
    DecIntNoQuote(c.stepSize);
    if Setup.Window(c).Some? { DecIntNoQuote(Setup.Window(c).value); }
    if Setup.Rate(c).Some? {
      DecIntNoQuote(Setup.Rate(c).value.0);
      DecIntNoQuote(Setup.Rate(c).value.1);
    }
  }

  lemma SwitchesUnmarked(c: Setup.Choices)
    ensures AllUnmarked(Setup.DisallowEntries(c)) && AllUnmarked([Setup.AuthEntry(c)])
  {
  }

  lemma EntryMarked(e: Setup.Entry)
    requires Unmarked(e)
    ensures Contains(Setup.LineOf(e), MARK) ==> Setup.LineOf(e) == MARK
  {
    hide Contains, Quiet;
    MarkIs();
    if Quiet(e.key) && '"' !in e.val {
      QuietLine(e.key, e.val);
      if e.val == "" {
        assert "" + Setup.LineOf(e) + " " == OptionLine(e.key, "");
        if Contains(Setup.LineOf(e), MARK) { Within("", Setup.LineOf(e), " "); }
      }
    }
  }

  /** The only line of such a file that holds the text is the option. */
  lemma OnlyOption(key: seq<bv8>, c: Setup.Choices, line: string)
    requires |key| == Setup.KEY_BYTES && Setup.Accepted(c)
    requires line in Lines(Setup.File(Setup.Letters(key), c)) && Contains(line, MARK)
    ensures line == MARK
  {
    hide Contains, Lines, Setup.File, Setup.Letters, DecInt, Setup.Entries, Setup.LineOf, Quiet;
    FileLinesAre(key, c);
    if line == Setup.Letters(key) {
      LettersNoQuote(key);
      NoQuoteNoMark(line);
    } else if i :| 0 <= i < |Setup.Entries(c)| && line == Setup.LinesOf(Setup.Entries(c))[i] {
      EntriesUnmarked(c);
      EntryMarked(Setup.Entries(c)[i]);
    } else {
      var i :| 0 <= i < |c.codes| && line == Setup.CodeLines(c.codes)[i];
      DecIntNoQuote(c.codes[i]);
      NoQuoteNoMark(line);
    }
  }

  lemma MarkNotOwn()
    ensures !Stray(MARK) && forall key :: Writes(key) ==> !IsKeyLine(MARK, key)
  {
    hide Writes;
    MarkIs();
    if i: nat :| At(MARK, i) { assert i == 0; }
    forall key | Writes(key) ensures !IsKeyLine(MARK, key) {
      OwnIs(key);
      var head := "\" " + key;
      assert head[2] == key[0] && head[3] == key[1];
      assert |head| <= 11 ==> MARK[..|head|][2] == 'T' && MARK[..|head|][3] == 'O';
    }
  }

  /** They are for time-based codes exactly if that was chosen; and the runs from them stay so. */
  lemma SetupModeIs(key: seq<bv8>, c: Setup.Choices)
    requires |key| == Setup.KEY_BYTES && Setup.Accepted(c)
    ensures var t := Setup.File(Setup.Letters(key), c); (IsTotp(t) <==> c.totp) && Tidy(t) && Clean(t)
  {
    hide IsTotp, Tidy, Lines, Setup.File, Setup.Letters, GetCfgValue, Contains, Writes, IsKeyLine, Marks, Stray, Codes,
         WindowSize, StepSize, HotpCounter, TimeSkew, Setup.Rate, Setup.Window, Setup.Accepted;
    var t := Setup.File(Setup.Letters(key), c);
    SetupReads.SetupReadsBack(key, c);
    SetupReads.SetupSettingsReadBack(key, c);
    IsTotpIff(t);
    MarkNotOwn();
    forall line | line in Lines(t) && Contains(line, MARK) ensures line == MARK { OnlyOption(key, c, line); }
    forall line ensures line in Marks(Lines(t)) ==> line == MARK { InMarks(Lines(t), line); }
    if j :| 0 <= j < |Lines(t)| && Stray(Lines(t)[j]) { StrayHolds(Lines(t)[j]); }
  }

  lemma StrayHolds(line: string)
    requires Stray(line)
    ensures Contains(line, MARK)
  {
    hide Contains;
    ContainsAt(line);
  }

  /** So from such a file no run of logins from hosts without a quote in their names changes which kind
      of codes it is for. */
  lemma SetupModeStays(key: seq<bv8>, c: Setup.Choices, otp: Coder, run: seq<Try>)
    requires |key| == Setup.KEY_BYTES && Setup.Accepted(c)
    requires SaneRun(otp, Setup.File(Setup.Letters(key), c), run) && NoQuoteHosts(run)
    ensures IsTotp(FileAfter(otp, Setup.File(Setup.Letters(key), c), run)) <==> c.totp
  {
    hide *;
    SetupModeIs(key, c);
    ModeStays(otp, Setup.File(Setup.Letters(key), c), run);
  }
}

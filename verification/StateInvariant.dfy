/** What every edit of the state file keeps: a file the setup program or the module wrote stays
    well formed, and an edit of one entry leaves all the others as they were. */
module StateInvariant {
  import opened CText
  import opened StateText
  import opened Scratch

  /** Well-formed files: a secret line that is no option, ended by a line end; plain `\n` line
      ends; no line below it that starts with white space. */
  predicate Tidy(t: string)
  {
    && t != "" && t[0] != '"' && !IsEol(t[0])
    && Span(NotEol, t) < |t|
    && All(NotCr, t)
    && forall i :: 1 <= i < |Lines(t)| ==> !IsSpace(Lines(t)[i][0])
  }

  /** What get_shared_secret reads. */
  function SecretLine(t: string): string { t[..Span(NotLf, t)] }

  /** The codes among lines, read the way the scan reads them. */
  function LineCodes(ls: seq<string>): seq<int>
  {
    if ls == [] then []
    else if IsOption(ls[0]) then LineCodes(ls[1..])
    else if IsCode(ls[0], Strtoul(ls[0])) then [ValueAt(ls[0])] + LineCodes(ls[1..])
    else []
  }

  lemma SpanLf(s: string)
    requires All(NotCr, s)
    ensures Span(NotLf, s) == Span(NotEol, s)
  {
    hide Span;
    SpanIs(NotLf, s, Span(NotEol, s));
  }

  /** Blank lines at the front make no difference to the lines. */
  lemma LinesSkip(r: string)
    ensures Lines(r) == Lines(r[Span(Eol, r)..])
  {
    hide Span, Lines;
    var e := Span(Eol, r);
    if e == 0 {
      assert r[0..] == r;
    } else {
      LinesStep(r);
      SpanIs(NotEol, r, 0);
      assert r[0..] == r;
    }
  }

  /** A number that starts a line is read from that line alone. */
  lemma NumberInLine(s: string)
    requires s != "" && !IsSpace(s[0])
    ensures var line := s[..Span(NotEol, s)];
            Strtoul(s) == Strtoul(line)
  {
    hide Span, Magnitude;
    MagnitudeInLine(s, Span(NotEol, s));
  }

  predicate NoSpaceStart(ls: seq<string>)
  {
    forall i :: 0 <= i < |ls| ==> ls[i] != "" && !IsSpace(ls[i][0])
  }

  /** On well-formed text the scan over the buffer is a scan over the lines. */
  lemma {:induction false} ScanIsLineCodes(r: string)
    requires All(NotCr, r) && NoSpaceStart(Lines(r))
    ensures ScanCodes(r) == LineCodes(Lines(r))
    decreases |r|
  {
    hide Span, Lines, ScanCodes, FindCode, NextLine, Strtoul, IsOption, IsCode, ValueAt, LineCodes, Stops, IsSpace,
         All, IsLine;
    FindCodeStep(r, 0);
    LinesSkip(r);
    var s := r[Span(Eol, r)..];
    EmptyStops();
    LinesEmpty();
    AllSplit(NotCr, r, Span(Eol, r));
    if s != "" {
      assert s[0] == r[Span(Eol, r)];
      var n := Span(NotEol, s);
      var more := Lines(s[LineLength(s)..]);
      SplitFirst(r, s);
      LineStep(s);
      LineCodesStep(s[..n], more);
      if !Stops(s) {
        var rest := s[n..];
        LinesSkip(rest);
        assert rest[Span(Eol, rest)..] == s[LineLength(s)..];
        AllSplit(NotCr, s, n);
        ScanIsLineCodes(rest);
      }
    }
  }

  lemma SplitFirst(r: string, s: string)
    requires s != "" && AtLine(s) && Lines(r) == Lines(s) && NoSpaceStart(Lines(r))
    ensures var more := Lines(s[LineLength(s)..]);
            && Lines(r) == [s[..Span(NotEol, s)]] + more
            && NoSpaceStart(more) && !IsSpace(s[0])
  {
    hide Span, Lines, LineLength, IsSpace, All;
    LinesStep(s);
    FirstLineAt(s);
    var n := Span(NotEol, s);
    var more := Lines(s[LineLength(s)..]);
    assert Lines(r)[0] == s[..n];
    assert s[..n][0] == s[0];
    assert forall i :: 0 <= i < |more| ==> more[i] == Lines(r)[i + 1];
  }

  lemma EmptyStops()
    ensures Stops("") && LineCodes([]) == []
  {
  }

  lemma LineCodesStep(line: string, more: seq<string>)
    ensures LineCodes([line] + more)
         == if Stops(line) then [] else (if IsOption(line) then [] else [ValueAt(line)]) + LineCodes(more)
  {
    hide Strtoul;
    assert ([line] + more)[1..] == more;
  }

  /** The step of the scan at a line is decided by the line. */
  lemma LineStep(s: string)
    requires s != "" && AtLine(s) && !IsSpace(s[0]) && All(NotCr, s)
    ensures var n := Span(NotEol, s); var line := s[..n];
            && Stops(s) == Stops(line) && IsOption(s) == IsOption(line)
            && ValueAt(s) == ValueAt(line)
            && (!Stops(s) ==> NextLine(s) == n)
  {
    hide Span, Strtoul;
    var n := Span(NotEol, s);
    var line := s[..n];
    assert line[0] == s[0];
    NumberInLine(s);
    SpanLf(s);
    var k := Strtoul(s);
    if !IsOption(s) {
      assert k.end <= n;
      assert k.end < n ==> s[k.end] == line[k.end];
    }
  }

  // ---- edits of the file --------------------------------------------------------------------

  lemma TidyLines(t: string)
    requires Tidy(t)
    ensures Lines(t) != [] && Lines(t)[0] == SecretLine(t)
    ensures NoSpaceStart(Lines(t)[1..]) && Codes(t) == LineCodes(Lines(t)[1..])
  {
    hide Span, Lines, ScanCodes, LineCodes, All, IsSpace;
    var n := Span(NotEol, t);
    var rest := AfterSecret(t);
    SpanLf(t);
    LinesStep(t);
    FirstLineAt(t);
    LinesSkip(rest);
    assert rest[Span(Eol, rest)..] == t[LineLength(t)..];
    assert Lines(t)[1..] == Lines(rest);
    AllSplit(NotCr, t, n);
    ScanIsLineCodes(rest);
  }

  /** Text that starts a line and has a line below it ends its first line. */
  lemma TwoLines(t: string)
    requires AtLine(t) && |Lines(t)| >= 2
    ensures t != "" && t[0] == Lines(t)[0][0] && Span(NotEol, t) < |t|
    ensures t[..Span(NotEol, t)] == Lines(t)[0]
  {
    hide Span, Lines;
    LinesEmpty();
    LinesStep(t);
    FirstLineAt(t);
  }

  /** Enough for a text to be well formed. */
  lemma TidyFromLines(t: string)
    requires AtLine(t) && |Lines(t)| >= 2 && All(NotCr, t)
    requires Lines(t)[0][0] != '"' && NoSpaceStart(Lines(t)[1..])
    ensures Tidy(t)
  {
    hide Span, Lines, All, IsSpace;
    TwoLines(t);
    assert forall i :: 1 <= i < |Lines(t)| ==> Lines(t)[i] == Lines(t)[1..][i - 1];
  }

  lemma {:induction false} DeleteLinesClass(k: Class, t: string, key: string)
    requires All(k, t)
    ensures All(k, DeleteLines(t, key))
    decreases |t|
  {
    hide Span, LineLength, All, IsKeyLine;
    if t != "" {
      var n := LineLength(t);
      AllSplit(k, t, n);
      DeleteLinesClass(k, t[n..], key);
      AllConcat(k, t[..n], DeleteLines(t[n..], key));
    }
  }

  lemma NoEolNoCr(s: string)
    requires All(NotEol, s)
    ensures All(NotCr, s)
  {
  }

  lemma SetNoCr(t: string, key: string, val: string)
    requires All(NotCr, t) && ValidKey(key) && ValidValue(val)
    ensures All(NotCr, SetCfgValue(t, key, val))
  {
    hide Span, All, DeleteLines, Slot, OptionLine;
    var (start, stop) := Slot(t, key);
    var line := OptionLine(key, val);
    AllSplit(NotCr, t, start);
    AllSplit(NotCr, t, stop);
    DeleteLinesClass(NotCr, t[stop..], key);
    OptionLineEol(key, val);
    NoEolNoCr(line);
    assert All(NotCr, "\n") by { NewlineNoCr(); }
    AllConcat(NotCr, t[..start], line);
    AllConcat(NotCr, t[..start] + line, "\n");
    AllConcat(NotCr, t[..start] + line + "\n", DeleteLines(t[stop..], key));
  }

  lemma NewlineNoCr()
    ensures All(NotCr, "\n")
  {
  }

  lemma {:induction false} LineCodesWithout(ls: seq<string>, key: string)
    ensures LineCodes(Without(ls, key)) == LineCodes(ls)
    ensures NoSpaceStart(ls) ==> NoSpaceStart(Without(ls, key))
  {
    hide Strtoul, ValueAt, IsKeyLine, IsSpace;
    if ls != [] {
      assert NoSpaceStart(ls) ==> NoSpaceStart(ls[1..]) by {
        assert forall i :: 0 <= i < |ls[1..]| ==> ls[1..][i] == ls[i + 1];
      }
      if IsKeyLine(ls[0], key) { KeyLineQuote(ls[0], key); }
      LineCodesWithout(ls[1..], key);
    }
  }

  lemma {:induction false} LineCodesSkip(a: seq<string>, b: seq<string>, c: seq<string>)
    requires forall i :: 0 <= i < |b| ==> IsOption(b[i])
    ensures LineCodes(a + b + c) == LineCodes(a + c)
  {
    hide Strtoul, ValueAt, IsCode, IsOption;
    if a != [] {
      LineCodesSkip(a[1..], b, c);
      assert (a + b + c)[1..] == a[1..] + b + c && (a + c)[1..] == a[1..] + c;
    } else if b != [] {
      LineCodesSkip(a, b[1..], c);
      assert (a + b + c)[1..] == a + b[1..] + c;
    } else {
      assert a + b + c == a + c;
    }
  }

  /** A keyed update keeps the lines that hold codes. */
  lemma UpdateKeepsCodes(ls: seq<string>, key: string, val: string)
    requires ls != [] && !IsKeyLine(ls[0], key) && NoSpaceStart(ls[1..])
    ensures var us := Update(ls, key, val);
            && |us| >= 2 && us[0] == ls[0] && NoSpaceStart(us[1..])
            && LineCodes(us[1..]) == LineCodes(ls[1..])
  {
    hide IsKeyLine, LineCodes, Update, IsSpace, Without, OptionLine;
    var line := OptionLine(key, val);
    var a, b, c := UpdateShape(ls, key, val);
    var d := Without(c, key);
    OptionLineQuote(key, val);
    forall i | 0 <= i < |b| ensures IsOption(b[i]) { KeyLineQuote(b[i], key); }
    var us := Update(ls, key, val);
    var a' := a[1..];
    assert us[1..] == a' + [line] + d && ls[1..] == a' + b + c;
    assert NoSpaceStart(a') && NoSpaceStart(c) by {
      var rest := ls[1..];
      assert forall i :: 0 <= i < |a'| ==> a'[i] == rest[i];
      assert forall i :: 0 <= i < |c| ==> c[i] == rest[|a'| + |b| + i];
    }
    LineCodesSkip(a', [line], d);
    LineCodesSkip(a', b, c);
    assert HasNoKey(a', key) by { assert forall i :: 0 <= i < |a'| ==> a'[i] == a[i + 1]; }
    WithoutNothing(a', key);
    WithoutConcat(a', c, key);
    LineCodesWithout(a' + c, key);
    LineCodesWithout(c, key);
    QuoteNoSpace();
  }

  lemma QuoteNoSpace()
    ensures !IsSpace('"')
  {
  }

  // ---- what the options and codes of a file read as, after an edit ----------------------------

  /** The two files agree on the secret, the scratch codes, and every option but `key`. */
  ghost predicate SameBut(t: string, u: string, keys: set<string>)
  {
    && Tidy(t) && Tidy(u)
    && SecretLine(u) == SecretLine(t)
    && Codes(u) == Codes(t)
    && SameOptions(t, u, keys)
  }

  ghost predicate SameOptions(t: string, u: string, keys: set<string>)
  {
    forall k :: ValidKey(k) && k !in keys ==> GetCfgValue(u, k) == GetCfgValue(t, k)
  }

  /** set_cfg_value changes what its key reads as, and nothing else that the module reads. */
  lemma SetKeeps(t: string, key: string, val: string)
    requires Tidy(t) && ValidKey(key) && ValidValue(val)
    ensures GetCfgValue(SetCfgValue(t, key, val), key) == Some(Strip(val))
    ensures SameBut(t, SetCfgValue(t, key, val), {key})
  {
    hide Span, Lines, Tidy, All, Update, SetCfgValue, GetCfgValue, ValidKey, ValidValue, Codes, SecretLine, Strip,
         Lookup, ScanCodes, LineCodes, IsKeyLine, NoSpaceStart;
    var u := SetCfgValue(t, key, val);
    var ls, us := Lines(t), Lines(u);
    TidyFacts(t, key);
    TidyLines(t);
    SetIsUpdate(t, key, val);
    UpdateKeepsCodes(ls, key, val);
    SetNoCr(t, key, val);
    TidyFromLines(u);
    TidyLines(u);
    forall k | ValidKey(k)
      ensures GetCfgValue(u, k) == if k == key then Some(Strip(val)) else GetCfgValue(t, k)
    {
      GetIsLookup(u, k);
      GetIsLookup(t, k);
      LookupUpdate(ls, key, val, k);
    }
  }

  lemma TidyFacts(t: string, key: string)
    requires Tidy(t)
    ensures t != "" && AtLine(t) && Span(NotEol, t) < |t| && All(NotCr, t)
    ensures Lines(t) != [] && Lines(t)[0][0] != '"' && !IsKeyLine(Lines(t)[0], key)
  {
    hide Span, Lines, IsKeyLine;
    TidyLines(t);
    SpanLf(t);
    LinesStep(t);
    FirstLineAt(t);
    KeyLineQuote(Lines(t)[0], key);
  }

  /** Taking out a line: the lines are the others, in order. */
  lemma CutLine(t: string, p: nat)
    requires 0 < p < |t| && IsEol(t[p - 1]) && !IsEol(t[p])
    ensures var n := LineLength(t[p..]);
            var u := t[..p] + t[p..][n..];
            && Lines(t) == Lines(t[..p]) + [t[p..][..Span(NotEol, t[p..])]] + Lines(t[p..][n..])
            && Lines(u) == Lines(t[..p]) + Lines(t[p..][n..])
  {
    hide Span, Lines, LineLength;
    var s := t[p..];
    var n := LineLength(s);
    FirstLineCut(s);
    assert t == t[..p] + s;
    SeamCut(t, p, n);
    LinesConcat(t[..p], s);
    LinesConcat(t[..p], s[n..]);
  }

  lemma SeamCut(t: string, p: nat, n: nat)
    requires 0 < p < |t| && n <= |t| - p && IsEol(t[p - 1]) && !IsEol(t[p])
    requires n < |t| - p ==> !IsEol(t[p..][n])
    ensures Seam(t[..p], t[p..]) && Seam(t[..p], t[p..][n..])
  {
    hide IsEol;
  }

  lemma LookupCut(a: seq<string>, line: string, b: seq<string>, key: string)
    requires !IsKeyLine(line, key)
    ensures Lookup(a + [line] + b, key) == Lookup(a + b, key)
  {
    hide IsKeyLine, ValueOf;
    LookupConcat(a + [line], b, key);
    LookupConcat(a, [line], key);
    LookupConcat(a, b, key);
  }

  lemma CutIsLine(r: string, i: nat)
    requires i <= |r| && Strtoul(r[i..]).end == Span(NotEol, r[i..])
    ensures Cut(r, i) == r[..i] + r[i..][LineLength(r[i..])..]
  {
    hide Span, Strtoul;
    var s := r[i..];
    var n := Span(NotEol, s);
    assert s[n..][Span(Eol, s[n..])..] == s[LineLength(s)..];
  }

  /** A line that holds a code, in a well-formed file, ends where its number ends. */
  lemma CodeFillsLine(t: string, p: nat)
    requires Tidy(t) && Span(NotLf, t) < p < |t| && IsEol(t[p - 1]) && !IsEol(t[p])
    requires var s := t[p..]; !Stops(s) && !IsOption(s)
    ensures Strtoul(t[p..]).end == Span(NotEol, t[p..])
  {
    hide Span, Lines, IsSpace, Stops, Strtoul;
    var s := t[p..];
    CutLine(t, p);
    var a := Lines(t[..p]);
    var line := s[..Span(NotEol, s)];
    BeforeHasSecret(t, p);
    assert Lines(t)[|a|] == line;
    assert line[0] == s[0] by { FirstChar(s); }
    AllSplit(NotCr, t, p);
    LineStep(s);
  }

  lemma FirstChar(s: string)
    requires s != "" && AtLine(s)
    ensures Span(NotEol, s) > 0 && s[..Span(NotEol, s)][0] == s[0]
  {
    hide Span;
  }

  /** Where an accepted scratch code stands in a well-formed file. */
  lemma CodeLine(t: string, code: int) returns (p: nat)
    requires Tidy(t) && CheckScratchCodes(t, code).Some?
    ensures Span(NotLf, t) < p < |t| && IsEol(t[p - 1]) && !IsEol(t[p]) && t[p] != '"'
    ensures CheckScratchCodes(t, code).value == t[..p] + t[p..][LineLength(t[p..])..]
    ensures Strtoul(t[p..]).end == Span(NotEol, t[p..])
  {
    hide Span, FindCode, ScanCodes, Stops, Strtoul, Cut, Tidy, Hit, LineLength;
    var f := Span(NotLf, t);
    var r := AfterSecret(t);
    var i := FindCode(r, code);
    p := f + i;
    FindCodeFinds(r, code);
    assert r[0] == t[f];
    FindCodeAfterEol(r, code);
    FindCodeAtLine(r, code);
    assert r[i..] == t[p..] && r[i - 1] == t[p - 1] && r[i] == t[p];
    HitFacts(t[p..], code);
    CodeFillsLine(t, p);
    CutIsLine(t, p);
  }

  lemma HitFacts(s: string, code: int)
    requires Hit(s, code)
    ensures !Stops(s) && !IsOption(s) && (s != "" ==> s[0] != '"')
  {
    hide Strtoul;
  }

  lemma FindCodeAtLine(r: string, code: int)
    ensures var i := FindCode(r, code); i < |r| ==> !IsEol(r[i])
    decreases |r|
  {
    hide Span, ScanCodes, FindCode, Stops, Hit, ValueAt, IsOption, NextLine;
    FindCodeStep(r, code);
    var e := Span(Eol, r);
    var s := r[e..];
    if !Stops(s) && !Hit(s, code) {
      StepFacts(s, code);
      FindCodeAtLine(s[NextLine(s)..], code);
    }
  }

  lemma BeforeHasSecret(t: string, p: nat)
    requires Tidy(t) && Span(NotLf, t) < p <= |t|
    ensures Lines(t[..p]) != [] && Lines(t[..p])[0] == SecretLine(t)
  {
    hide Span, Lines, All, IsSpace;
    SpanLf(t);
    var n := Span(NotEol, t);
    var a := t[..p];
    SpanIs(NotEol, a, n);
    LinesStep(a);
    FirstLineAt(a);
    assert a[..n] == t[..n];
  }

  /** An accepted scratch code is taken out of the list, once, and nothing else that the module
      reads changes. */
  lemma ScratchKeeps(t: string, code: int)
    requires Tidy(t) && CheckScratchCodes(t, code).Some?
    ensures var u := CheckScratchCodes(t, code).value;
            && Tidy(u) && SecretLine(u) == SecretLine(t) && SameOptions(t, u, {})
            && Codes(u) == RemoveFirst(Codes(t), code)
  {
    hide Span, Lines, Codes, CheckScratchCodes, All, IsSpace, LineLength, GetCfgValue, ValidKey, IsKeyLine, Lookup;
    ScratchCodeUsedOnce(t, code);
    var u := CheckScratchCodes(t, code).value;
    var p := CodeLine(t, code);
    CutLine(t, p);
    var s := t[p..];
    var n := LineLength(s);
    var a, line, b := Lines(t[..p]), s[..Span(NotEol, s)], Lines(s[n..]);
    AllSplit(NotCr, t, p);
    AllSplit(NotCr, s, n);
    AllConcat(NotCr, t[..p], s[n..]);
    SpanLf(t);
    SpanIs(NotEol, u, Span(NotEol, t));
    assert forall i :: 1 <= i < |a + b| ==> (a + b)[i] == Lines(t)[if i < |a| then i else i + 1];
    BeforeHasSecret(t, p);
    forall k | ValidKey(k) ensures GetCfgValue(u, k) == GetCfgValue(t, k)
    {
      GetIsLookup(t, k);
      GetIsLookup(u, k);
      KeyLineQuote(line, k);
      LookupCut(a, line, b, k);
    }
  }

  lemma ValueNotEol(t: string, key: string)
    ensures GetCfgValue(t, key).Some? ==> All(NotEol, GetCfgValue(t, key).value)
  {
    hide Span, FindLine, IsKeyLine;
  }
}

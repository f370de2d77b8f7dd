/** What the module reads from a file the setup program has composed. */
module SetupReads {
  import opened CText
  import opened StateText
  import opened StateInvariant
  import opened Scratch
  import opened Options
  import opened Setup
  import B = Base32
  import S = Sha1
  import Otp
  import Reuse
  import RateLimit

  // ---- lines ------------------------------------------------------------------------------------

  predicate AllLines(ls: seq<string>) { forall i :: 0 <= i < |ls| ==> IsLine(ls[i]) }

  lemma {:induction false} LinesOfJoin(ls: seq<string>)
    requires AllLines(ls)
    ensures Lines(Join(ls)) == ls && AtLine(Join(ls))
  {
    hide Lines, IsLine;
    if ls == [] {
      LinesEmpty();
    } else {
      assert forall i :: 0 <= i < |ls| - 1 ==> ls[1..][i] == ls[i + 1];
      LinesOfJoin(ls[1..]);
      LinesOfLine(ls[0], Join(ls[1..]));
      LineStarts(ls[0], "\n" + Join(ls[1..]));
      assert ls[0] + "\n" + Join(ls[1..]) == ls[0] + ("\n" + Join(ls[1..]));
    }
  }

  lemma LineStarts(line: string, rest: string)
    requires IsLine(line)
    ensures AtLine(line + rest)
  {
    assert (line + rest)[0] == line[0];
  }

  // ---- options ----------------------------------------------------------------------------------

  predicate Plain(e: Entry) { ValidKey(e.key) && ValidValue(e.val) && Strip(e.val) == e.val }

  /** The first entry for a key. */
  function Find(es: seq<Entry>, key: string): Option<string>
  {
    if es == [] then None else if es[0].key == key then Some(es[0].val) else Find(es[1..], key)
  }

  /** An option without a value is a line for its key too. */
  lemma LineIsKey(e: Entry, key: string)
    requires Plain(e) && ValidKey(key)
    ensures IsKeyLine(LineOf(e), key) <==> e.key == key
    ensures IsKeyLine(LineOf(e), e.key) && ValueOf(LineOf(e), e.key) == e.val
    ensures IsLine(LineOf(e)) && LineOf(e)[0] == '"'
  {
    hide *;
    PlainIs(e);
    if e.val == "" {
      BareLine(e.key, key);
    } else {
      FullLine(e.key, e.val, key);
    }
  }

  lemma PlainIs(e: Entry)
    requires Plain(e)
    ensures ValidKey(e.key) && ValidValue(e.val) && Strip(e.val) == e.val
    ensures LineOf(e) == if e.val == "" then "\" " + e.key else OptionLine(e.key, e.val)
  {
  }

  lemma FullLine(key: string, val: string, other: string)
    requires ValidKey(key) && ValidKey(other) && ValidValue(val)
    ensures var line := OptionLine(key, val);
            && (IsKeyLine(line, other) <==> key == other)
            && IsKeyLine(line, key) && ValueOf(line, key) == Strip(val) && IsLine(line) && line[0] == '"'
  {
    hide IsKeyLine, ValueOf, Strip, ValidKey, OptionLine, All;
    OptionLineFor(key, val, other);
    OptionLineFor(key, val, key);
    OptionLineQuote(key, val);
    OptionLineEol(key, val);
  }

  lemma BareLine(key: string, other: string)
    requires ValidKey(key) && ValidKey(other)
    ensures var line := "\" " + key;
            && (IsKeyLine(line, other) <==> key == other)
            && IsKeyLine(line, key) && ValueOf(line, key) == "" && IsLine(line) && line[0] == '"'
  {
    var line := "\" " + key;
    assert line[..2 + |key|] == line;
    assert line[2 + |key|..] == "";
    if IsKeyLine(line, other) { OneKey(line, key, other); }
    forall i | 0 <= i < |line| ensures In(line[i], NotEol) {
      if i >= 2 { assert line[i] == key[i - 2]; }
    }
  }

  lemma {:induction false} LookupEntries(es: seq<Entry>, key: string)
    requires ValidKey(key) && forall i :: 0 <= i < |es| ==> Plain(es[i])
    ensures Lookup(LinesOf(es), key) == Find(es, key)
  {
    hide Plain, IsKeyLine, ValueOf, LineOf, ValidKey;
    if es != [] {
      assert forall i :: 0 <= i < |es| - 1 ==> es[1..][i] == es[i + 1];
      LookupEntries(es[1..], key);
      LineIsKey(es[0], key);
      LookupConcat([LineOf(es[0])], LinesOf(es[1..]), key);
      LookupOne(LineOf(es[0]), key);
    }
  }

  lemma LookupOne(line: string, key: string)
    ensures Lookup([line], key) == if IsKeyLine(line, key) then Some(ValueOf(line, key)) else None
  {
    hide IsKeyLine, ValueOf;
    assert [line][1..] == [];
  }

  lemma {:induction false} LookupNothing(ls: seq<string>, key: string)
    requires forall i :: 0 <= i < |ls| ==> ls[i] != "" && ls[i][0] != '"'
    ensures Lookup(ls, key) == None
  {
    hide IsKeyLine, ValueOf;
    if ls != [] {
      KeyLineQuote(ls[0], key);
      LookupNothing(ls[1..], key);
    }
  }

  /** An option of the file is the entry for its key. */
  lemma ReadsEntry(letters: string, es: seq<Entry>, codes: seq<int>, key: string)
    requires ValidKey(key) && forall i :: 0 <= i < |es| ==> Plain(es[i])
    requires IsLine(letters) && letters[0] != '"' && forall i :: 0 <= i < |codes| ==> codes[i] >= 0
    ensures GetCfgValue(Join([letters] + (LinesOf(es) + CodeLines(codes))), key) == Find(es, key)
  {
    hide *;
    FileLookup(letters, es, codes, key);
    LookupEntries(es, key);
    CodesLookup(codes, key);
    LookupParts(letters, LinesOf(es), CodeLines(codes), key);
  }

  lemma FileLookup(letters: string, es: seq<Entry>, codes: seq<int>, key: string)
    requires ValidKey(key) && forall i :: 0 <= i < |es| ==> Plain(es[i])
    requires IsLine(letters) && forall i :: 0 <= i < |codes| ==> codes[i] >= 0
    ensures var ls := [letters] + (LinesOf(es) + CodeLines(codes));
            GetCfgValue(Join(ls), key) == Lookup(ls, key)
  {
    hide *;
    var ls := [letters] + (LinesOf(es) + CodeLines(codes));
    FileLines(letters, es, codes);
    LinesOfJoin(ls);
    GetIsLookup(Join(ls), key);
  }

  lemma CodesLookup(codes: seq<int>, key: string)
    requires forall i :: 0 <= i < |codes| ==> codes[i] >= 0
    ensures Lookup(CodeLines(codes), key) == None
  {
    hide Lookup, DecInt, IsLine;
    CodeLinesPlain(codes);
    forall i | 0 <= i < |codes| ensures CodeLines(codes)[i] != "" { LineNotEmpty(CodeLines(codes)[i]); }
    LookupNothing(CodeLines(codes), key);
  }

  lemma LookupParts(first: string, a: seq<string>, b: seq<string>, key: string)
    requires IsLine(first) && first[0] != '"' && Lookup(b, key) == None
    ensures Lookup([first] + (a + b), key) == Lookup(a, key)
  {
    hide Lookup, IsKeyLine, ValueOf;
    LookupNothing([first], key);
    LookupConcat([first], a + b, key);
    LookupConcat(a, b, key);
  }

  lemma LineNotEmpty(line: string)
    requires IsLine(line)
    ensures line != ""
  {
  }

  lemma CodeLinesPlain(codes: seq<int>)
    requires forall i :: 0 <= i < |codes| ==> codes[i] >= 0
    ensures forall i :: 0 <= i < |codes| ==>
              IsLine(CodeLines(codes)[i]) && CodeLines(codes)[i][0] != '"' && !IsSpace(CodeLines(codes)[i][0])
  {
    hide DecInt;
    forall i | 0 <= i < |codes|
      ensures IsLine(CodeLines(codes)[i]) && CodeLines(codes)[i][0] != '"' && !IsSpace(CodeLines(codes)[i][0])
    {
      Reuse.DecIntChars(codes[i]);
      assert CodeLines(codes)[i] == DecInt(codes[i]);
      assert IsDigit(DecInt(codes[i])[0]) || DecInt(codes[i])[0] == '-';
    }
  }

  lemma FileLines(letters: string, es: seq<Entry>, codes: seq<int>)
    requires forall i :: 0 <= i < |es| ==> Plain(es[i])
    requires IsLine(letters) && forall i :: 0 <= i < |codes| ==> codes[i] >= 0
    ensures AllLines([letters] + (LinesOf(es) + CodeLines(codes)))
  {
    hide Plain, LineOf, DecInt, IsLine;
    CodeLinesPlain(codes);
    forall i | 0 <= i < |es| ensures IsLine(LinesOf(es)[i]) { EntryIsLine(es[i]); }
  }

  lemma EntryIsLine(e: Entry)
    requires Plain(e)
    ensures IsLine(LineOf(e)) && LineOf(e)[0] == '"'
  {
    hide LineOf;
    LineIsKey(e, e.key);
  }

  // ---- the scratch codes --------------------------------------------------------------------------

  lemma CodeReads(code: int)
    requires SMALLEST_CODE <= code < CODE_LIMIT
    ensures var line := DecInt(code); !IsOption(line) && IsCode(line, Strtoul(line)) && ValueAt(line) == code
  {
    hide DecInt, Strtoul;
    ReadInt("", code, "");
    assert "" + DecInt(code) + "" == DecInt(code) && "" + DecInt(code) == DecInt(code);
    assert DecInt(code)[0] != '"';
  }

  lemma {:induction false} CodesRead(codes: seq<int>)
    requires forall i :: 0 <= i < |codes| ==> SMALLEST_CODE <= codes[i] < CODE_LIMIT
    ensures LineCodes(CodeLines(codes)) == codes
  {
    hide LineCodes, CodeLines, DecInt, Strtoul, IsCode, ValueAt, IsOption;
    if codes == [] {
      NoCodesRead();
    } else {
      var rest := codes[1..];
      assert forall i :: 0 <= i < |rest| ==> rest[i] == codes[i + 1];
      CodesRead(rest);
      CodeReads(codes[0]);
      assert codes == [codes[0]] + rest;
      CodeLineFirst(codes[0], rest);
      CodeFirst(DecInt(codes[0]), CodeLines(rest));
    }
  }

  lemma NoCodesRead()
    ensures LineCodes(CodeLines([])) == []
  {
  }

  lemma CodeLineFirst(code: int, rest: seq<int>)
    ensures CodeLines([code] + rest) == [DecInt(code)] + CodeLines(rest)
  {
    hide DecInt;
    assert ([code] + rest)[1..] == rest;
  }

  lemma CodeFirst(line: string, more: seq<string>)
    requires !IsOption(line) && IsCode(line, Strtoul(line))
    ensures LineCodes([line] + more) == [ValueAt(line)] + LineCodes(more)
  {
    hide Strtoul, IsCode, ValueAt, IsOption;
    assert ([line] + more)[1..] == more;
  }

  lemma {:induction false} JoinNoCr(ls: seq<string>)
    requires AllLines(ls)
    ensures All(NotCr, Join(ls))
  {
    hide All;
    if ls == [] {
      NothingAll(NotCr);
    } else {
      assert forall i :: 0 <= i < |ls| - 1 ==> ls[1..][i] == ls[i + 1];
      JoinNoCr(ls[1..]);
      NoEolNoCr(ls[0]);
      NewlineNoCr();
      AllConcat(NotCr, ls[0], "\n");
      AllConcat(NotCr, ls[0] + "\n", Join(ls[1..]));
    }
  }

  lemma NothingAll(k: Class)
    ensures All(k, "")
  {
  }

  /** The file is well formed, its first line is the letters, and its codes are the ones given. */
  lemma FileIsTidy(letters: string, es: seq<Entry>, codes: seq<int>)
    requires es != [] && forall i :: 0 <= i < |es| ==> Plain(es[i])
    requires IsLine(letters) && letters[0] != '"'
    requires forall i :: 0 <= i < |codes| ==> SMALLEST_CODE <= codes[i] < CODE_LIMIT
    ensures var t := Join([letters] + (LinesOf(es) + CodeLines(codes)));
            Tidy(t) && SecretLine(t) == letters && Codes(t) == codes
  {
    hide *;
    var opts, more := LinesOf(es), CodeLines(codes);
    CodesPositive(codes);
    FileLines(letters, es, codes);
    OptionsPlain(es);
    CodeLinesPlain(codes);
    CodesRead(codes);
    assert opts != [] by { assert |opts| == |es|; }
    TidyParts(letters, opts, more);
  }

  lemma CodesPositive(codes: seq<int>)
    requires forall i :: 0 <= i < |codes| ==> SMALLEST_CODE <= codes[i] < CODE_LIMIT
    ensures forall i :: 0 <= i < |codes| ==> codes[i] >= 0
  {
  }

  lemma OptionsPlain(es: seq<Entry>)
    requires forall i :: 0 <= i < |es| ==> Plain(es[i])
    ensures forall i :: 0 <= i < |es| ==> IsOption(LinesOf(es)[i])
  {
    hide Plain, LineOf, IsLine;
    forall i | 0 <= i < |es| ensures IsOption(LinesOf(es)[i]) {
      EntryIsLine(es[i]);
      LineNotEmpty(LineOf(es[i]));
    }
  }

  /** A file of a first line, options, and lines that start with no white space. */
  lemma TidyParts(letters: string, opts: seq<string>, more: seq<string>)
    requires opts != [] && forall i :: 0 <= i < |opts| ==> IsOption(opts[i])
    requires IsLine(letters) && letters[0] != '"'
    requires AllLines([letters] + (opts + more))
    requires forall i :: 0 <= i < |more| ==> IsLine(more[i]) && !IsSpace(more[i][0])
    ensures var t := Join([letters] + (opts + more));
            Tidy(t) && SecretLine(t) == letters && Codes(t) == LineCodes(more)
  {
    hide *;
    var ls := [letters] + (opts + more);
    var t := Join(ls);
    LinesOfJoin(ls);
    JoinNoCr(ls);
    assert ls[0] == letters && ls[1..] == opts + more && |ls| >= 2;
    NoSpaceLines(opts, more);
    TidyFromLines(t);
    TidyLines(t);
    SkipOptions(opts, more);
  }

  lemma SkipOptions(opts: seq<string>, more: seq<string>)
    requires forall i :: 0 <= i < |opts| ==> IsOption(opts[i])
    ensures LineCodes(opts + more) == LineCodes(more)
  {
    hide *;
    LineCodesSkip([], opts, more);
    assert [] + opts + more == opts + more && [] + more == more;
  }

  lemma NoSpaceLines(opts: seq<string>, more: seq<string>)
    requires forall i :: 0 <= i < |opts| ==> IsOption(opts[i])
    requires forall i :: 0 <= i < |more| ==> IsLine(more[i]) && !IsSpace(more[i][0])
    ensures NoSpaceStart(opts + more)
  {
    QuoteNoSpace();
    hide IsSpace;
  }

  // ---- the whole file -------------------------------------------------------------------------------

  lemma LettersAreLine(key: seq<B.Byte>)
    requires |key| == KEY_BYTES
    ensures IsLine(Letters(key)) && Letters(key)[0] != '"'
  {
    hide Letters;
    LettersPlain(key);
    LettersOfKey(key);
  }

  lemma NumberPlain(n: int)
    ensures ValidValue(DecInt(n)) && Strip(DecInt(n)) == DecInt(n)
  {
    hide DecInt, Span;
    Reuse.DecIntChars(n);
    SpanIs(Blank, DecInt(n), 0);
    assert DecInt(n)[0..] == DecInt(n);
  }

  lemma PairPlain(n: int, m: int)
    ensures var v := DecInt(n) + " " + DecInt(m); ValidValue(v) && Strip(v) == v
  {
    hide DecInt, Span, All, In;
    var v := DecInt(n) + " " + DecInt(m);
    Reuse.DecIntChars(n);
    Reuse.DecIntChars(m);
    OneBlank();
    AllConcat(NotEol, DecInt(n), " ");
    AllConcat(NotEol, DecInt(n) + " ", DecInt(m));
    assert v[0] == DecInt(n)[0];
    RateLimit.DecIntNotEol(n);
    RateLimit.AtBlank(v);
    assert v[0..] == v;
  }

  lemma KeysOfSetup()
    ensures ValidKey("TOTP_AUTH") && ValidKey("HOTP_COUNTER") && ValidKey("DISALLOW_REUSE") && ValidKey("STEP_SIZE")
         && ValidKey("WINDOW_SIZE") && ValidKey("RATE_LIMIT")
  {
  }

  lemma ShortValues()
    ensures ValidValue("1") && Strip("1") == "1" && ValidValue("") && Strip("") == ""
  {
    assert Span(Blank, "1") == 0;
  }

  lemma EntriesArePlain(c: Choices)
    ensures forall i :: 0 <= i < |Entries(c)| ==> Plain(Entries(c)[i])
    ensures Entries(c) != []
  {
    hide DecInt, Strip, ValidKey, ValidValue;
    KeysOfSetup();
    ShortValues();
    NumberPlain(c.stepSize);
    if Window(c).Some? { NumberPlain(Window(c).value); }
    if Rate(c).Some? { PairPlain(Rate(c).value.0, Rate(c).value.1); }
  }

  lemma FindConcat(a: seq<Entry>, b: seq<Entry>, key: string)
    ensures Find(a + b, key) == if Find(a, key).Some? then Find(a, key) else Find(b, key)
  {
    if a == [] {
      assert a + b == b;
    } else {
      FindConcat(a[1..], b, key);
      assert (a + b)[1..] == a[1..] + b;
    }
  }

  lemma FindOne(e: Entry, key: string)
    ensures Find([e], key) == if e.key == key then Some(e.val) else None
  {
    assert [e][1..] == [];
  }

  /** The keys are all different. */
  lemma SetupKeysApart()
    ensures |"TOTP_AUTH"| == 9 && |"HOTP_COUNTER"| == 12 && |"DISALLOW_REUSE"| == 14 && |"STEP_SIZE"| == 9
    ensures |"WINDOW_SIZE"| == 11 && |"RATE_LIMIT"| == 10 && "STEP_SIZE" != "TOTP_AUTH"
  {
    assert "STEP_SIZE"[0] != "TOTP_AUTH"[0];
  }

  /** What each key finds. */
  lemma Found(c: Choices, key: string)
    ensures Find(Entries(c), key) ==
            if key == "RATE_LIMIT" && Rate(c).Some? then Some(DecInt(Rate(c).value.0) + " " + DecInt(Rate(c).value.1))
            else if key == "WINDOW_SIZE" && Window(c).Some? then Some(DecInt(Window(c).value))
            else if key == "STEP_SIZE" && c.totp && c.stepSize != 0 then Some(DecInt(c.stepSize))
            else if key == "DISALLOW_REUSE" && c.totp && c.disallow then Some("")
            else if key == "TOTP_AUTH" && c.totp then Some("")
            else if key == "HOTP_COUNTER" && !c.totp then Some("1") else None
  {
    hide DecInt, Rate, Window, Find;
    SetupKeysApart();
    FindNothing(key);
    var r, w, s, d, a := RateEntries(c), WindowEntries(c), StepEntries(c), DisallowEntries(c), [AuthEntry(c)];
    FindConcat(r, w + (s + (d + a)), key);
    FindConcat(w, s + (d + a), key);
    FindConcat(s, d + a, key);
    FindConcat(d, a, key);
    if r != [] { FindOne(r[0], key); }
    if w != [] { FindOne(w[0], key); }
    if s != [] { FindOne(s[0], key); }
    if d != [] { FindOne(d[0], key); }
    FindOne(AuthEntry(c), key);
  }

  lemma FindNothing(key: string)
    ensures Find([], key) == None
  {
  }

  /** An option that holds a number in its range reads as that number. */
  lemma NumberInRange(n: int, low: int, high: int)
    requires 1 <= low <= n <= high < TWO31
    ensures InRange(DecInt(n), low, high) == n
  {
    hide DecInt, Strtoul;
    ReadInt("", n, "");
    assert "" + DecInt(n) + "" == DecInt(n) && "" + DecInt(n) == DecInt(n);
  }

  lemma RateReads(n: nat, m: nat)
    requires 1 <= n <= 100 && 1 <= m <= 3600
    ensures RateLimit.ParseLimits(DecInt(n) + " " + DecInt(m)) == Some(RateLimit.Limits(n, m, []))
  {
    hide RateLimit.ParseLimits, RateLimit.PrintLimits, DecInt, Strip, ValidValue;
    RateLimit.LimitsReadBack(RateLimit.Limits(n, m, []));
    NoStamps(n, m);
  }

  lemma NoStamps(n: nat, m: nat)
    ensures RateLimit.PrintLimits(RateLimit.Limits(n, m, [])) == DecInt(n) + " " + DecInt(m)
  {
    hide DecInt;
    assert DecInt(n) + " " + DecInt(m) + "" == DecInt(n) + " " + DecInt(m);
  }

  lemma OneReads()
    ensures Strtol("1").value == 1
  {
    hide Strtol;
    ReadLong(1);
    assert DecInt(1) == "1";
  }

  // ---- the key ------------------------------------------------------------------------------------

  lemma CharByteBack(b: B.Byte)
    ensures Otp.CharByte((b as int) as char) == b
  {
    hide S.Octet;
    OctetBack(b);
  }

  lemma OctetBack(b: B.Byte)
    ensures (b as nat) < 0x100 && S.Octet(b as nat) == b
  {
    hide S.Octet;
    SmallByte(b);
    SmallOctet(b as nat);
    SameByte(b);
  }

  /** A small number is its own remainder ... */
  lemma SmallOctet(n: nat)
    requires n < 0x100
    ensures S.Octet(n) == n as B.Byte
  {
    assert n % 0x100 == n;
  }

  /** ... and a byte is a small number, and comes back from it. */
  lemma SmallByte(b: B.Byte)
    ensures (b as nat) < 0x100
  {
  }

  lemma SameByte(b: B.Byte)
    ensures (b as nat) as B.Byte == b
  {
  }

  lemma BytesOfChars(bytes: seq<B.Byte>)
    ensures Otp.ToBytes(Chars(bytes)) == bytes
  {
    hide Otp.CharByte;
    forall i | 0 <= i < |bytes| ensures Otp.ToBytes(Chars(bytes))[i] == bytes[i] {
      CharByteBack(bytes[i]);
    }
  }

  lemma SecretReads(key: seq<B.Byte>, t: string)
    requires |key| == KEY_BYTES && SecretLine(t) == Letters(key)
    ensures Otp.SharedSecret(t) == Some(key)
  {
    hide B.Encode, B.Decode, Otp.ToBytes, Chars;
    LettersOfKey(key);
    assert Span(NotLf, t) == 32;
    BytesOfChars(B.Encode(key));
    B.DecodeEncode(key, 32);
  }

  lemma FileOptions(key: seq<B.Byte>, c: Choices, k: string)
    requires |key| == KEY_BYTES && Accepted(c) && ValidKey(k)
    ensures GetCfgValue(File(Letters(key), c), k) == Find(Entries(c), k)
  {
    hide *;
    EntriesArePlain(c);
    LettersAreLine(key);
    AcceptedCodes(c);
    CodesPositive(c.codes);
    FileIs(Letters(key), c);
    ReadsEntry(Letters(key), Entries(c), c.codes, k);
  }

  lemma FileIs(letters: string, c: Choices)
    ensures File(letters, c) == Join([letters] + (LinesOf(Entries(c)) + CodeLines(c.codes)))
  {
    hide Join, Entries, LinesOf, CodeLines;
  }

  /** The composed file is well formed and reads back: to the key, the emergency codes, ... */
  lemma SetupReadsBack(key: seq<B.Byte>, c: Choices)
    requires |key| == KEY_BYTES && Accepted(c)
    ensures var t := File(Letters(key), c);
            Tidy(t) && Otp.SharedSecret(t) == Some(key) && Codes(t) == c.codes
  {
    hide *;
    EntriesArePlain(c);
    LettersAreLine(key);
    AcceptedCodes(c);
    FileIs(Letters(key), c);
    FileIsTidy(Letters(key), Entries(c), c.codes);
    SecretReads(key, File(Letters(key), c));
  }

  /** ... the mode, the window, the step, ... */
  lemma SetupSettingsReadBack(key: seq<B.Byte>, c: Choices)
    requires |key| == KEY_BYTES && Accepted(c)
    ensures var t := File(Letters(key), c);
            && HotpCounter(t) == (if c.totp then 0 else 1)
            && GetCfgValue(t, "TOTP_AUTH") == (if c.totp then Some("") else None)
            && WindowSize(t) == (match Window(c) case None => 3 case Some(n) => n)
            && StepSize(t) == (if c.totp && c.stepSize != 0 then c.stepSize else 30)
            && TimeSkew(t) == 0
  {
    hide File, Letters, GetCfgValue, Entries, Find, InRange, DecInt, Strtol, Rate;
    SetupKeysApart();
    KeysOfSetup();
    OneReads();
    SkewKey();
    ReadKey(key, c, "HOTP_COUNTER");
    ReadKey(key, c, "TOTP_AUTH");
    ReadKey(key, c, "WINDOW_SIZE");
    ReadKey(key, c, "STEP_SIZE");
    ReadKey(key, c, "TIME_SKEW");
    if Window(c).Some? { NumberInRange(Window(c).value, 1, 100); }
    if c.stepSize != 0 { NumberInRange(c.stepSize, 1, 60); }
  }

  lemma SkewKey()
    ensures ValidKey("TIME_SKEW") && |"TIME_SKEW"| == 9 && "TIME_SKEW" != "TOTP_AUTH" && "TIME_SKEW" != "STEP_SIZE"
  {
    assert "TIME_SKEW"[1] == 'I' && "TOTP_AUTH"[1] == 'O' && "STEP_SIZE"[1] == 'T';
  }

  lemma ReadKey(key: seq<B.Byte>, c: Choices, k: string)
    requires |key| == KEY_BYTES && Accepted(c) && ValidKey(k)
    ensures GetCfgValue(File(Letters(key), c), k) ==
            if k == "RATE_LIMIT" && Rate(c).Some? then Some(DecInt(Rate(c).value.0) + " " + DecInt(Rate(c).value.1))
            else if k == "WINDOW_SIZE" && Window(c).Some? then Some(DecInt(Window(c).value))
            else if k == "STEP_SIZE" && c.totp && c.stepSize != 0 then Some(DecInt(c.stepSize))
            else if k == "DISALLOW_REUSE" && c.totp && c.disallow then Some("")
            else if k == "TOTP_AUTH" && c.totp then Some("")
            else if k == "HOTP_COUNTER" && !c.totp then Some("1") else None
  {
    hide *;
    FileOptions(key, c, k);
    Found(c, k);
  }

  /** ... an empty list of used steps, and the rate limit with no attempts yet: what the theorems on
      runs start from. */
  lemma SetupListsReadBack(key: seq<B.Byte>, c: Choices)
    requires |key| == KEY_BYTES && Accepted(c)
    ensures var t := File(Letters(key), c);
            && Reuse.Used(t) == (if c.totp && c.disallow then Some([]) else None)
            && (GetCfgValue(t, Reuse.KEY).Some? <==> c.totp && c.disallow)
            && match Rate(c)
               case None => GetCfgValue(t, RateLimit.KEY) == None
               case Some((n, m)) => n >= 0 && m >= 0 && RateLimit.Tracks(t, n, m, [])
  {
    hide File, Letters, GetCfgValue, DecInt, Window, Reuse.Entries, RateLimit.ParseLimits;
    SetupKeysApart();
    KeysOfSetup();
    Reuse.NoEntries();
    ReadKey(key, c, Reuse.KEY);
    ReadKey(key, c, RateLimit.KEY);
    if Rate(c).Some? { RateReads(Rate(c).value.0, Rate(c).value.1); }
  }

  // ---- in terms of the answers --------------------------------------------------------------------

  lemma ThreeInThirty()
    ensures DecInt(3) + " " + DecInt(30) == "3 30" && DecInt(17) == "17" && DecInt(1) == "1" && DecInt(3) == "3"
  {
    assert Dec(3) == "3";
  }

  /** The limit of 3 logins in 30 seconds that the question offers, the limits given by options, or none. */
  lemma RateAnswers(key: seq<B.Byte>, c: Choices)
    requires |key| == KEY_BYTES && Accepted(c)
    ensures var t := File(Letters(key), c);
            && (c.rLimit == 0 && c.limitRate ==>
                  GetCfgValue(t, "RATE_LIMIT") == Some("3 30") && RateLimit.Tracks(t, 3, 30, []))
            && (c.rLimit == 0 && !c.limitRate ==> GetCfgValue(t, "RATE_LIMIT").None?)
            && (c.rLimit == -1 ==> GetCfgValue(t, "RATE_LIMIT").None?)
            && (c.rLimit > 0 ==>
                  GetCfgValue(t, "RATE_LIMIT") == Some(DecInt(c.rLimit) + " " + DecInt(c.rTime))
                  && c.rTime >= 0 && RateLimit.Tracks(t, c.rLimit, c.rTime, []))
  {
    hide File, Letters, GetCfgValue, DecInt, RateLimit.Tracks, Reuse.Used;
    ThreeInThirty();
    KeysOfSetup();
    ReadKey(key, c, "RATE_LIMIT");
    SetupListsReadBack(key, c);
  }

  /** A window of 17 that the question offers, the one given by an option, the least one (three steps, or one
      count), or none, which is three. */
  lemma WindowAnswers(key: seq<B.Byte>, c: Choices)
    requires |key| == KEY_BYTES && Accepted(c)
    ensures var t := File(Letters(key), c);
            && (c.windowSize == 0 && c.widen ==> GetCfgValue(t, "WINDOW_SIZE") == Some("17") && WindowSize(t) == 17)
            && (c.windowSize == 0 && !c.widen ==> GetCfgValue(t, "WINDOW_SIZE").None? && WindowSize(t) == 3)
            && (c.windowSize == -1 && c.totp ==> GetCfgValue(t, "WINDOW_SIZE") == Some("3") && WindowSize(t) == 3)
            && (c.windowSize == -1 && !c.totp ==> GetCfgValue(t, "WINDOW_SIZE") == Some("1") && WindowSize(t) == 1)
            && (c.windowSize > 0 ==>
                  GetCfgValue(t, "WINDOW_SIZE") == Some(DecInt(c.windowSize)) && WindowSize(t) == c.windowSize)
  {
    hide File, Letters, GetCfgValue, DecInt, StepSize, WindowSize, TimeSkew, HotpCounter;
    ThreeInThirty();
    KeysOfSetup();
    SetupKeysApart();
    ReadKey(key, c, "WINDOW_SIZE");
    SetupSettingsReadBack(key, c);
  }

  /** The rest of the choices: each option stands in the file exactly if it was chosen. */
  lemma OtherAnswers(key: seq<B.Byte>, c: Choices)
    requires |key| == KEY_BYTES && Accepted(c)
    ensures var t := File(Letters(key), c);
            && GetCfgValue(t, "TOTP_AUTH") == (if c.totp then Some("") else None)
            && GetCfgValue(t, "HOTP_COUNTER") == (if c.totp then None else Some("1"))
            && GetCfgValue(t, "DISALLOW_REUSE") == (if c.totp && c.disallow then Some("") else None)
            && GetCfgValue(t, "STEP_SIZE") == (if c.totp && c.stepSize != 0 then Some(DecInt(c.stepSize)) else None)
  {
    hide File, Letters, GetCfgValue, DecInt, Rate, Window;
    KeysOfSetup();
    SetupKeysApart();
    ReadKey(key, c, "TOTP_AUTH");
    ReadKey(key, c, "HOTP_COUNTER");
    ReadKey(key, c, "DISALLOW_REUSE");
    ReadKey(key, c, "STEP_SIZE");
  }
}

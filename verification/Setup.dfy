/** The setup program: the secret file it composes, and what the module reads from it. */
module Setup {
  import opened CText
  import opened StateText
  import opened StateFile
  import opened Scratch
  import B = Base32
  import Reuse
  import LastLogins

  /** The declared size of the array `secret`, and the bytes of a key. */
  const BUFFER_SIZE := 216
  const KEY_BYTES := 20

  /** The choices by option letters and answers: window size 0 is none given (and `widen` the
      answer), -1 the minimal one; rate limits 0 are none given (and `limitRate` the answer), -1
      none wanted. */
  datatype Choices = Choices(
    totp: bool, disallow: bool, stepSize: nat, windowSize: int, widen: bool,
    rLimit: int, rTime: int, limitRate: bool, codes: seq<int>)

  predicate Accepted(c: Choices)
  {
    && c.stepSize <= 60 && -1 <= c.windowSize <= 21
    && ((c.rLimit == 0 && c.rTime == 0) || (c.rLimit == -1 && c.rTime == -1)
        || (1 <= c.rLimit <= 10 && 15 <= c.rTime <= 600))
    && |c.codes| <= 10 && forall i :: 0 <= i < |c.codes| ==> SMALLEST_CODE <= c.codes[i] < CODE_LIMIT
  }

  function Window(c: Choices): Option<int>
  {
    if c.windowSize == 0 then (if c.widen then Some(17) else None)
    else Some(if c.windowSize > 0 then c.windowSize else if c.totp then 3 else 1)
  }

  function Rate(c: Choices): Option<(int, int)>
  {
    if c.rLimit == 0 && c.rTime == 0 then (if c.limitRate then Some((3, 30)) else None)
    else if c.rLimit > 0 && c.rTime > 0 then Some((c.rLimit, c.rTime)) else None
  }

  // ---- the file as a list of lines --------------------------------------------------------------

  datatype Entry = Entry(key: string, val: string)

  function LineOf(e: Entry): string { if e.val == "" then "\" " + e.key else OptionLine(e.key, e.val) }

  function LinesOf(es: seq<Entry>): (r: seq<string>)
    ensures |r| == |es| && forall i :: 0 <= i < |r| ==> r[i] == LineOf(es[i])
  {
    if es == [] then [] else [LineOf(es[0])] + LinesOf(es[1..])
  }

  function CodeLines(codes: seq<int>): (r: seq<string>)
    ensures |r| == |codes| && forall i :: 0 <= i < |r| ==> r[i] == DecInt(codes[i])
  {
    if codes == [] then []
    else
      var rest := CodeLines(codes[1..]);
      assert forall i :: 0 <= i < |rest| ==> rest[i] == DecInt(codes[1..][i]) == DecInt(codes[i + 1]);
      [DecInt(codes[0])] + rest
  }

  /** Lines, each with its line end. */
  function Join(ls: seq<string>): string
  {
    if ls == [] then "" else ls[0] + "\n" + Join(ls[1..])
  }

  function If(cond: bool, e: Entry): seq<Entry> { if cond then [e] else [] }

  function AuthEntry(c: Choices): Entry
  {
    if c.totp then Entry("TOTP_AUTH", "") else Entry("HOTP_COUNTER", "1")
  }

  function DisallowEntries(c: Choices): seq<Entry> { If(c.totp && c.disallow, Entry("DISALLOW_REUSE", "")) }

  function StepEntries(c: Choices): seq<Entry> { If(c.totp && c.stepSize != 0, Entry("STEP_SIZE", DecInt(c.stepSize))) }

  function WindowEntries(c: Choices): seq<Entry>
  {
    match Window(c) case None => [] case Some(n) => [Entry("WINDOW_SIZE", DecInt(n))]
  }

  function RateEntries(c: Choices): seq<Entry>
  {
    match Rate(c) case None => [] case Some((n, m)) => [Entry("RATE_LIMIT", DecInt(n) + " " + DecInt(m))]
  }

  /** The options in the order of the file: each one added went to the front. */
  function Entries(c: Choices): seq<Entry>
  {
    RateEntries(c) + (WindowEntries(c) + (StepEntries(c) + (DisallowEntries(c) + [AuthEntry(c)])))
  }

  function File(letters: string, c: Choices): string
  {
    Join([letters] + (LinesOf(Entries(c)) + CodeLines(c.codes)))
  }

  // ---- the composition --------------------------------------------------------------------------

  /** addOption: the option goes behind the first line end. */
  function WithOption(t: string, option: string): string
  {
    var p := Span(NotLf, t);
    if p < |t| then Inserted(t, p + 1, option) else t
  }

  function Inserted(t: string, p: nat, option: string): string
    requires p <= |t|
  {
    t[..p] + option + t[p..]
  }

  lemma {:induction false} JoinConcat(a: seq<string>, b: seq<string>)
    ensures Join(a + b) == Join(a) + Join(b)
  {
    hide Join;
    if a == [] {
      assert a + b == b;
      JoinNone();
    } else {
      var rest := a[1..];
      JoinConcat(rest, b);
      assert a == [a[0]] + rest && a + b == [a[0]] + (rest + b);
      JoinStep(a[0], rest);
      JoinStep(a[0], rest + b);
      assert (a[0] + "\n") + (Join(rest) + Join(b)) == (a[0] + "\n") + Join(rest) + Join(b);
    }
  }

  lemma JoinNone()
    ensures Join([]) == ""
  {
  }

  lemma JoinStep(line: string, ls: seq<string>)
    ensures Join([line] + ls) == line + "\n" + Join(ls)
  {
    assert ([line] + ls)[1..] == ls;
  }

  lemma JoinOne(line: string)
    ensures Join([line]) == line + "\n"
  {
    assert [line][1..] == [];
    assert line + "\n" + "" == line + "\n";
  }

  /** An option added becomes the second line. */
  lemma OptionIsSecond(first: string, line: string, ls: seq<string>)
    requires All(NotLf, first)
    ensures WithOption(Join([first] + ls), line + "\n") == Join([first] + ([line] + ls))
  {
    hide Span;
    var t := Join([first] + ls);
    JoinConcat([first], ls);
    JoinOne(first);
    assert t == first + "\n" + Join(ls);
    SpanIs(NotLf, t, |first|);
    assert t[..|first| + 1] == first + "\n" && t[|first| + 1..] == Join(ls);
    JoinConcat([first], [line] + ls);
    JoinConcat([line], ls);
    JoinOne(line);
    assert (first + "\n") + ((line + "\n") + Join(ls)) == (first + "\n") + (line + "\n") + Join(ls);
  }

  /** strcat, and snprintf at the end of the string. */
  method Append(secret: array<char>, ghost t: string, s: string)
    requires Holds(secret[..], t) && NulFree(s) && |t| + |s| < secret.Length
    modifies secret
    ensures Holds(secret[..], t + s)
  {
    hide Holds, NulFree, Splice;
    var n := StrLen(secret, t, 0);
    AppendHolds(secret[..], t, s);
    MemCopy(secret, n, s + ['\0']);
  }

  lemma AppendHolds(b: seq<char>, t: string, s: string)
    requires Holds(b, t) && NulFree(s) && |t| + |s| < |b|
    ensures Holds(Splice(b, |t|, s + ['\0']), t + s)
  {
    hide Splice;
    var d := Splice(b, |t|, s + ['\0']);
    assert d[..|t|] == t;
    SpliceIndex(b, |t|, s + ['\0']);
    assert d[..|t + s|] == t + s;
  }

  /** strchr */
  method FirstLineEnd(secret: array<char>, ghost t: string) returns (p: nat)
    requires Holds(secret[..], t) && Span(NotLf, t) < |t|
    ensures p == Span(NotLf, t)
  {
    hide Holds, Span;
    p := 0;
    HeldAt(secret[..], t, 0);
    while secret[p] != '\n'
      invariant 0 <= p <= Span(NotLf, t) && p < secret.Length && secret[p] == t[p]
      decreases |t| - p
    {
      p := p + 1;
      HeldAt(secret[..], t, p);
    }
  }

  /** addOption, in place; the assertions at its head always hold. */
  method AddOption(secret: array<char>, ghost t: string, option: string)
    requires Holds(secret[..], t) && NulFree(option) && |t| + |option| < secret.Length
    requires Span(NotLf, t) < |t|
    modifies secret
    ensures Holds(secret[..], WithOption(t, option))
  {
    hide *;
    var n := StrLen(secret, t, 0);
    var p := FirstLineEnd(secret, t);
    p := p + 1;
    Opened(secret[..], t, p, option);
    OptionGoes(t, option, p);
    MemMove(secret, p + |option|, p, n - p + 1);
    MemCopy(secret, p, option);
  }

  lemma OptionGoes(t: string, option: string, p: nat)
    requires Span(NotLf, t) < |t| && p == Span(NotLf, t) + 1
    ensures p <= |t| && WithOption(t, option) == Inserted(t, p, option)
  {
    hide Span, Inserted;
  }

  lemma Opened(b: seq<char>, t: string, p: nat, option: string)
    requires Holds(b, t) && NulFree(option) && |t| + |option| < |b| && p <= |t|
    ensures |t| < |b|
    ensures Holds(Splice(Splice(b, p + |option|, b[p..p + (|t| - p + 1)]), p, option), Inserted(t, p, option))
  {
    hide Splice, Holds, NulFree, Gap;
    HeldSlice(b, t, p);
    HeldNulFree(b, t);
    GapMoved(b, t, p, p, |option|);
    GapFilled(Splice(b, p + |option|, b[p..|t| + 1]), t, p, p, option);
  }

  // ---- sizes ------------------------------------------------------------------------------------

  function Size(ls: seq<string>): nat { if ls == [] then 0 else |ls[0]| + 1 + Size(ls[1..]) }

  lemma {:induction false} JoinSize(ls: seq<string>)
    ensures |Join(ls)| == Size(ls)
  {
    if ls != [] { JoinSize(ls[1..]); }
  }

  lemma DigitsFit(n: nat, k: nat)
    requires k > 0 && n < LastLogins.Pow10(k)
    ensures |DecInt(n)| <= k
  {
    LastLogins.DecLength(n, k);
  }

  lemma Tens()
    ensures LastLogins.Pow10(1) == 10 && LastLogins.Pow10(2) == 100 && LastLogins.Pow10(3) == 1000
    ensures LastLogins.Pow10(8) == CODE_LIMIT
  {
    assert LastLogins.Pow10(4) == 10_000;
    assert LastLogins.Pow10(6) == 1_000_000;
  }

  lemma {:induction false} CodesFit(codes: seq<int>)
    requires forall i :: 0 <= i < |codes| ==> SMALLEST_CODE <= codes[i] < CODE_LIMIT
    ensures Size(CodeLines(codes)) <= 9 * |codes|
  {
    hide DecInt;
    if codes != [] {
      Tens();
      DigitsFit(codes[0], 8);
      CodesFit(codes[1..]);
      assert CodeLines(codes)[1..] == CodeLines(codes[1..]);
    }
  }

  /** No option takes more room than this. */
  lemma OptionsFit(c: Choices)
    requires Accepted(c)
    ensures |LineOf(AuthEntry(c))| <= 16
    ensures forall e :: e in DisallowEntries(c) ==> |LineOf(e)| <= 16
    ensures forall e :: e in StepEntries(c) ==> |LineOf(e)| <= 14
    ensures forall e :: e in WindowEntries(c) ==> |LineOf(e)| <= 16
    ensures forall e :: e in RateEntries(c) ==> |LineOf(e)| <= 19
  {
    hide DecInt, LineOf, Rate, Window;
    NumbersFit(c);
    AuthFits(c);
    DisallowFits();
    if c.stepSize != 0 { LineFits("STEP_SIZE", DecInt(c.stepSize)); }
    if Window(c).Some? { LineFits("WINDOW_SIZE", DecInt(Window(c).value)); }
    if Rate(c).Some? {
      LineFits("RATE_LIMIT", DecInt(Rate(c).value.0) + " " + DecInt(Rate(c).value.1));
    }
  }

  lemma LineFits(key: string, val: string)
    ensures |LineOf(Entry(key, val))| <= |key| + |val| + 3
  {
  }

  lemma AuthFits(c: Choices)
    ensures |LineOf(AuthEntry(c))| <= 16
  {
    LineFits(AuthEntry(c).key, AuthEntry(c).val);
  }

  lemma DisallowFits()
    ensures |LineOf(Entry("DISALLOW_REUSE", ""))| <= 16
  {
    assert LineOf(Entry("DISALLOW_REUSE", "")) == "\" " + "DISALLOW_REUSE";
  }

  lemma NumbersFit(c: Choices)
    requires Accepted(c)
    ensures |DecInt(c.stepSize)| <= 2
    ensures Window(c).Some? ==> |DecInt(Window(c).value)| <= 2
    ensures Rate(c).Some? ==> |DecInt(Rate(c).value.0)| <= 2 && |DecInt(Rate(c).value.1)| <= 3
  {
    hide DecInt;
    Tens();
    DigitsFit(c.stepSize, 2);
    if Window(c).Some? { DigitsFit(Window(c).value, 2); }
    if Rate(c).Some? {
      DigitsFit(Rate(c).value.0, 2);
      DigitsFit(Rate(c).value.1, 3);
    }
  }

  lemma {:induction false} SizeConcat(a: seq<string>, b: seq<string>)
    ensures Size(a + b) == Size(a) + Size(b)
  {
    if a == [] {
      assert a + b == b;
    } else {
      SizeConcat(a[1..], b);
      assert (a + b)[1..] == a[1..] + b;
    }
  }

  // ---- the program ------------------------------------------------------------------------------

  /** The letters of an encoded key as characters. */
  function Chars(bytes: seq<B.Byte>): (r: string)
    ensures |r| == |bytes|
  {
    seq(|bytes|, i requires 0 <= i < |bytes| => (bytes[i] as int) as char)
  }

  function Letters(key: seq<B.Byte>): string { Chars(B.Encode(key)) }

  /** What the alphabet looks like as characters. */
  predicate IsLetter(c: char) { 'A' <= c <= 'Z' || '2' <= c <= '7' }

  lemma LetterChar(d: B.Byte)
    requires d < 32
    ensures IsLetter((B.Letter(d) as int) as char)
  {
    var l := B.Letter(d);
    assert (0x41 <= l && l <= 0x5A) || (0x32 <= l && l <= 0x37);
  }

  lemma LettersOfKey(key: seq<B.Byte>)
    requires |key| == KEY_BYTES
    ensures |Letters(key)| == 32 && forall i :: 0 <= i < 32 ==> IsLetter(Letters(key)[i])
  {
    hide B.Letter, B.Bits, B.Digits, IsLetter, B.Encode;
    B.EncodeIs(key);
    var ds := B.Digits(B.Bits(key));
    forall i | 0 <= i < 32 ensures IsLetter(Letters(key)[i]) {
      LetterChar(ds[i]);
    }
  }

  lemma LettersPlain(key: seq<B.Byte>)
    requires |key| == KEY_BYTES
    ensures NulFree(Letters(key)) && All(NotLf, Letters(key)) && All(NotEol, Letters(key)) && Letters(key)[0] != '"'
  {
    hide Letters;
    LettersOfKey(key);
  }

  /** A line at the end. */
  method AppendLine(secret: array<char>, ghost ls: seq<string>, line: string)
    requires Holds(secret[..], Join(ls)) && NulFree(line) && Size(ls) + |line| + 1 < secret.Length
    modifies secret
    ensures Holds(secret[..], Join(ls + [line]))
  {
    hide Holds, Join;
    JoinSize(ls);
    Append(secret, Join(ls), line + "\n");
    JoinConcat(ls, [line]);
    JoinOne(line);
  }

  /** The option, if there is one, behind the first line. */
  method AddEntries(secret: array<char>, ghost first: string, ghost ls: seq<string>, es: seq<Entry>)
    requires Holds(secret[..], Join([first] + ls)) && All(NotLf, first) && |es| <= 1
    requires es != [] ==> NulFree(LineOf(es[0])) && Size([first] + ls) + |LineOf(es[0])| + 1 < secret.Length
    modifies secret
    ensures Holds(secret[..], Join([first] + (LinesOf(es) + ls)))
  {
    hide Holds, Join, LineOf, WithOption, Span, All;
    if es == [] {
      assert LinesOf(es) + ls == ls;
    } else {
      JoinSize([first] + ls);
      HasLineEnd(first, ls);
      AddOption(secret, Join([first] + ls), LineOf(es[0]) + "\n");
      OptionIsSecond(first, LineOf(es[0]), ls);
      assert LinesOf(es) == [LineOf(es[0])];
    }
  }

  lemma HasLineEnd(first: string, ls: seq<string>)
    requires All(NotLf, first)
    ensures Span(NotLf, Join([first] + ls)) < |Join([first] + ls)|
  {
    hide Span;
    JoinConcat([first], ls);
    JoinOne(first);
    var t := Join([first] + ls);
    assert t == first + "\n" + Join(ls);
    SpanIs(NotLf, t, |first|);
  }

  lemma PlainLine(e: Entry)
    requires NulFree(e.key) && NulFree(e.val)
    ensures NulFree(LineOf(e))
  {
  }

  lemma PlainKeys()
    ensures NulFree("TOTP_AUTH") && NulFree("HOTP_COUNTER") && NulFree("DISALLOW_REUSE") && NulFree("STEP_SIZE")
    ensures NulFree("WINDOW_SIZE") && NulFree("RATE_LIMIT") && NulFree("1") && NulFree("")
  {
  }

  lemma PlainPair(a: string, b: string)
    requires NulFree(a) && NulFree(b)
    ensures NulFree(a + " " + b)
  {
  }

  lemma EntriesPlain(c: Choices)
    requires Accepted(c)
    ensures NulFree(LineOf(AuthEntry(c)))
    ensures forall e :: e in DisallowEntries(c) + StepEntries(c) + WindowEntries(c) + RateEntries(c) ==>
              NulFree(LineOf(e))
    ensures |DisallowEntries(c)| <= 1 && |StepEntries(c)| <= 1 && |WindowEntries(c)| <= 1 && |RateEntries(c)| <= 1
  {
    hide DecInt, NulFree, LineOf;
    PlainKeys();
    PlainLine(AuthEntry(c));
    Reuse.DecIntChars(c.stepSize);
    if Window(c).Some? { Reuse.DecIntChars(Window(c).value); }
    if Rate(c).Some? {
      Reuse.DecIntChars(Rate(c).value.0);
      Reuse.DecIntChars(Rate(c).value.1);
      PlainPair(DecInt(Rate(c).value.0), DecInt(Rate(c).value.1));
    }
    forall e | e in DisallowEntries(c) + StepEntries(c) + WindowEntries(c) + RateEntries(c) ensures NulFree(LineOf(e)) {
      PlainLine(e);
    }
  }

  /** The key's letters, the mode and the emergency codes. */
  method ComposeCodes(key: seq<B.Byte>, c: Choices) returns (secret: array<char>)
    requires |key| == KEY_BYTES && Accepted(c)
    ensures fresh(secret) && secret.Length == BUFFER_SIZE
    ensures Holds(secret[..], Join([Letters(key)] + ([LineOf(AuthEntry(c))] + CodeLines(c.codes))))
  {
    hide Holds, Join, LineOf, NulFree, DecInt, AuthEntry, Size, B.Encode, Accepted, CodeLines;
    secret := WriteLetters(key);
    ghost var ls := [Letters(key)];
    SizeOne(Letters(key));
    SizeOne(LineOf(AuthEntry(c)));
    EntriesPlain(c);
    OptionsFit(c);
    LettersOfKey(key);
    AppendLine(secret, ls, LineOf(AuthEntry(c)));
    SizeConcat(ls, [LineOf(AuthEntry(c))]);
    ghost var head := ls + [LineOf(AuthEntry(c))];
    var i := 0;
    NoCodeLines();
    assert head + [] == head;
    AcceptedCodes(c);
    while i < |c.codes|
      invariant 0 <= i <= |c.codes|
      invariant Holds(secret[..], Join(head + CodeLines(c.codes[..i])))
    {
      CodeFits(c.codes, i);
      SizeConcat(head, CodeLines(c.codes[..i]));
      AppendLine(secret, head + CodeLines(c.codes[..i]), DecInt(c.codes[i]));
      assert head + CodeLines(c.codes[..i]) + [DecInt(c.codes[i])]
            == head + (CodeLines(c.codes[..i]) + [DecInt(c.codes[i])]);
      i := i + 1;
    }
    assert c.codes[..i] == c.codes;
    assert head + CodeLines(c.codes) == ls + ([LineOf(AuthEntry(c))] + CodeLines(c.codes));
  }

  lemma AcceptedCodes(c: Choices)
    requires Accepted(c)
    ensures |c.codes| <= 10 && forall i :: 0 <= i < |c.codes| ==> SMALLEST_CODE <= c.codes[i] < CODE_LIMIT
  {
  }

  lemma NoCodeLines()
    ensures CodeLines([]) == []
  {
  }

  lemma SizeOne(line: string)
    ensures Size([line]) == |line| + 1
  {
    assert [line][1..] == [];
  }

  lemma CodeFits(codes: seq<int>, i: nat)
    requires i < |codes| <= 10 && forall j :: 0 <= j < |codes| ==> SMALLEST_CODE <= codes[j] < CODE_LIMIT
    ensures Size(CodeLines(codes[..i])) <= 81 && |DecInt(codes[i])| <= 8 && NulFree(DecInt(codes[i]))
    ensures CodeLines(codes[..i + 1]) == CodeLines(codes[..i]) + [DecInt(codes[i])]
  {
    hide Size, DecInt, CodeLines, NulFree;
    var done := codes[..i];
    assert forall j :: 0 <= j < |done| ==> done[j] == codes[j];
    CodesFit(done);
    Tens();
    DigitsFit(codes[i], 8);
    Reuse.DecIntChars(codes[i]);
  }

  /** base32_encode into the array, and the line end. */
  method WriteLetters(key: seq<B.Byte>) returns (secret: array<char>)
    requires |key| == KEY_BYTES
    ensures fresh(secret) && secret.Length == BUFFER_SIZE
    ensures Holds(secret[..], Join([Letters(key)]))
  {
    hide B.Encode, Join, NulFree, Holds;
    var bytes := new B.Byte[BUFFER_SIZE];
    LettersOfKey(key);
    LettersPlain(key);
    var n := B.Base32Encode(key, bytes, BUFFER_SIZE);
    ghost var letters := Letters(key);
    assert n == 32;
    secret := new char[BUFFER_SIZE];
    assert bytes[..n] == B.Encode(key);
    assert forall j :: 0 <= j < n ==> letters[j] == (bytes[..n][j] as int) as char;
    for i := 0 to n
      invariant bytes[..n] == B.Encode(key)
      invariant forall j :: 0 <= j < i ==> secret[j] == letters[j]
    {
      assert bytes[i] == bytes[..n][i];
      secret[i] := (bytes[i] as int) as char;
    }
    secret[n] := '\0';
    assert secret[..n] == letters;
    HoldsIs(secret[..], letters);
    Plain();
    Append(secret, letters, "\n");
    JoinOne(letters);
  }

  lemma HoldsIs(b: seq<char>, t: string)
    requires |t| < |b| && b[..|t|] == t && b[|t|] == '\0' && NulFree(t)
    ensures Holds(b, t)
  {
  }

  lemma Plain()
    ensures NulFree("\n")
  {
  }

  /** The whole file: every piece fits the array, whatever was chosen. */
  method Compose(key: seq<B.Byte>, c: Choices) returns (secret: array<char>)
    requires |key| == KEY_BYTES && Accepted(c)
    ensures secret.Length == BUFFER_SIZE && Holds(secret[..], File(Letters(key), c))
  {
    hide Holds, Join, LineOf, NulFree, AuthEntry, Size, Accepted, CodeLines, Letters, LinesOf, All, DisallowEntries,
         StepEntries, WindowEntries, RateEntries;
    secret := ComposeCodes(key, c);
    ghost var first := Letters(key);
    ghost var ls := [LineOf(AuthEntry(c))] + CodeLines(c.codes);
    EntriesPlain(c);
    OptionsFit(c);
    LettersPlain(key);
    FirstSize(key, c);
    var es := DisallowEntries(c);
    AddEntries(secret, first, ls, es);
    EntrySize(first, es, ls, 17);
    ls := LinesOf(es) + ls;
    es := StepEntries(c);
    AddEntries(secret, first, ls, es);
    EntrySize(first, es, ls, 15);
    ls := LinesOf(es) + ls;
    es := WindowEntries(c);
    AddEntries(secret, first, ls, es);
    EntrySize(first, es, ls, 17);
    ls := LinesOf(es) + ls;
    es := RateEntries(c);
    AddEntries(secret, first, ls, es);
    EntriesInOrder(c);
  }

  /** The options are at most 16, 14, 16 and 19 characters long, with their line ends one more. */
  lemma EntrySize(first: string, es: seq<Entry>, ls: seq<string>, most: nat)
    requires |es| <= 1 && forall e :: e in es ==> |LineOf(e)| < most
    ensures Size([first] + (LinesOf(es) + ls)) <= Size([first] + ls) + most
  {
    hide LineOf;
    SizeConcat([first], LinesOf(es) + ls);
    SizeConcat([first], ls);
    SizeConcat(LinesOf(es), ls);
    if es != [] {
      assert LinesOf(es) == [LineOf(es[0])];
      SizeOne(LineOf(es[0]));
    }
  }

  lemma FirstSize(key: seq<B.Byte>, c: Choices)
    requires |key| == KEY_BYTES && Accepted(c)
    ensures Size([Letters(key)] + ([LineOf(AuthEntry(c))] + CodeLines(c.codes))) <= 33 + 17 + 90
  {
    hide Letters, LineOf, AuthEntry, CodeLines;
    LettersOfKey(key);
    OptionsFit(c);
    CodesFit(c.codes);
    var a, b := [Letters(key)], [LineOf(AuthEntry(c))];
    SizeConcat(a, b + CodeLines(c.codes));
    SizeConcat(b, CodeLines(c.codes));
    SizeOne(Letters(key));
    SizeOne(LineOf(AuthEntry(c)));
  }

  lemma LinesOfConcat(a: seq<Entry>, b: seq<Entry>)
    ensures LinesOf(a + b) == LinesOf(a) + LinesOf(b)
  {
    hide LineOf;
  }

  lemma EntriesInOrder(c: Choices)
    ensures LinesOf(Entries(c)) + CodeLines(c.codes)
         == LinesOf(RateEntries(c)) + (LinesOf(WindowEntries(c)) + (LinesOf(StepEntries(c))
            + (LinesOf(DisallowEntries(c))
            + ([LineOf(AuthEntry(c))] + CodeLines(c.codes)))))
  {
    hide LineOf, CodeLines, LinesOf, RateEntries, WindowEntries, StepEntries, DisallowEntries, AuthEntry;
    var r, w, s, d, a := RateEntries(c), WindowEntries(c), StepEntries(c), DisallowEntries(c), [AuthEntry(c)];
    LinesOfConcat(d, a);
    LinesOfConcat(s, d + a);
    LinesOfConcat(w, s + (d + a));
    LinesOfConcat(r, w + (s + (d + a)));
    assert LinesOf(a) == [LineOf(AuthEntry(c))];
  }
}

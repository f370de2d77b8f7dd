/** update_logindetails and within_grace_period: the options LAST0 to LAST9 hold the hosts of the
    last logins and their times. */
module LastLogins {
  import opened CText
  import opened StateText
  import opened StateInvariant
  import opened Scratch

  const HOST_LIMIT := 255
  const VALUE_SIZE := 279

  /** The option name for a slot; -1, for "no slot found", becomes the character before '0'. */
  function Name(i: int): string
    requires -1 <= i < 10
  {
    "LAST" + [('0' as int + i) as char]
  }

  // ---- reading a slot -----------------------------------------------------------------------

  datatype Login = Login(host: string, when: nat)

  /** How update_logindetails reads a slot: a host of at most 255 of the characters it knows, and a
      number; both, or nothing. */
  function ReadSlot(line: string): Option<Login>
  {
    var s := line[Span(Space, line)..];
    var n := Span(HostName, s);
    var h := if n > HOST_LIMIT then HOST_LIMIT else n;
    ReadTime(s, h)
  }

  /** How within_grace_period reads it: the host is a word of any characters. */
  function ReadWord(line: string): Option<Login>
  {
    var s := line[Span(Space, line)..];
    ReadTime(s, Span(NotSpace, s))
  }

  /** A host of `h` characters and the number after it. */
  function ReadTime(s: string, h: nat): Option<Login>
    requires h <= |s|
  {
    var r := Strtoul(s[h..]);
    if h == 0 || r.end == 0 || r.value < 0 then None else Some(Login(s[..h], r.value))
  }

  // ---- the two procedures -------------------------------------------------------------------

  datatype Slot = Empty | Malformed | Taken(login: Login)

  function SlotAt(t: string, i: nat): Slot
    requires i < 10
  {
    match GetCfgValue(t, Name(i))
    case None => Empty
    case Some(line) => match ReadSlot(line) case None => Malformed case Some(login) => Taken(login)
  }

  /** The search for a slot, from slot `i` on: the host's own slot, else the first empty one, else
      the oldest one; -1 if there is none. */
  function FindSlot(t: string, host: string, i: nat, oldest: nat, index: int): (r: int)
    requires i <= 10 && -1 <= index < 10
    ensures -1 <= r < 10
    decreases 10 - i
  {
    if i == 10 then index
    else
      match SlotAt(t, i)
      case Empty => FindSlot(t, host, i + 1, 0, if oldest != 0 then i else index)
      case Malformed => FindSlot(t, host, i + 1, oldest, index)
      case Taken(login) =>
        if login.host == host then i
        else if login.when < oldest then FindSlot(t, host, i + 1, login.when, i)
        else FindSlot(t, host, i + 1, oldest, index)
  }

  function Take(s: string, n: nat): string { if |s| <= n then s else s[..n] }

  function SlotValue(host: string, now: nat): string { Take(host + " " + Dec(now), VALUE_SIZE - 1) }

  /** What the search makes of the option that is written. */
  function ReadBack(host: string, now: nat): Slot
  {
    match ReadSlot(Strip(SlotValue(host, now))) case None => Malformed case Some(login) => Taken(login)
  }

  /** update_logindetails, for a known host. */
  function UpdateLoginDetails(t: string, host: string, now: nat): string
  {
    SetCfgValue(t, Name(FindSlot(t, host, 0, now, -1)), SlotValue(host, now))
  }

  /** The time in slot `i` if it is this host's, else 0. */
  function TimeAt(t: string, host: string, i: nat): nat
    requires i < 10
  {
    match GetCfgValue(t, Name(i))
    case None => 0
    case Some(line) =>
      match ReadWord(line)
      case None => 0
      case Some(login) => if login.host == host then login.when else 0
  }

  /** Is slot `i` this host's? */
  predicate IsHost(t: string, host: string, i: nat)
    requires i < 10
  {
    match GetCfgValue(t, Name(i))
    case None => false
    case Some(line) => ReadWord(line).Some? && ReadWord(line).value.host == host
  }

  /** The time recorded for a host, from slot `i` on; 0 if there is none. */
  function LastTime(t: string, host: string, i: nat): nat
    requires i <= 10
    decreases 10 - i
  {
    if i == 10 then 0
    else if IsHost(t, host, i) then TimeAt(t, host, i)
    else LastTime(t, host, i + 1)
  }

  /** The same without slot `r`. */
  function LastTimeBut(t: string, host: string, i: nat, r: int): nat
    requires i <= 10
    decreases 10 - i
  {
    if i == 10 then 0
    else if i != r && IsHost(t, host, i) then TimeAt(t, host, i)
    else LastTimeBut(t, host, i + 1, r)
  }

  /** within_grace_period, for a known host. */
  predicate WithinGracePeriod(t: string, host: string, now: nat, grace: nat)
  {
    var when := LastTime(t, host, 0);
    when != 0 && when + grace > now
  }

  // ---- ten slots ----------------------------------------------------------------------------

  type Slots = s: seq<Slot> | |s| == 10 witness [Empty, Empty, Empty, Empty, Empty, Empty, Empty, Empty, Empty, Empty]

  /** What the search makes of the ten options of a file, whatever they hold. */
  function SlotsOf(t: string): (r: Slots)
    ensures forall i :: 0 <= i < 10 ==> r[i] == SlotAt(t, i)
  {
    seq(10, i requires 0 <= i < 10 => SlotAt(t, i))
  }

  predicate Own(s: Slot, host: string) { s.Taken? && s.login.host == host }

  /** The time by which the search compares slots; a malformed one it passes over. */
  function Age(s: Slot): Option<nat>
  {
    match s case Empty => Some(0) case Malformed => None case Taken(login) => Some(login.when)
  }

  /** A slot that may be given to another host. */
  predicate Candidate(s: Slot, now: nat) { Age(s).Some? && Age(s).value < now }

  /** No host has two slots. */
  predicate Distinct(slots: Slots)
  {
    forall i, j :: 0 <= i < j < 10 && slots[i].Taken? && slots[j].Taken? ==> slots[i].login.host != slots[j].login.host
  }

  /** A host the search can find again: one that fits its pattern. */
  predicate PlainHost(host: string) { 1 <= |host| <= HOST_LIMIT && All(HostName, host) }

  /** A host within_grace_period can find: a word. */
  predicate WordHost(host: string) { host != "" && All(NotSpace, host) }

  /** Host and time fit the buffer. */
  predicate Fits(host: string, now: nat) { |host| + 1 + |Dec(now)| <= VALUE_SIZE - 1 }

  /** The host leaves room for a digit of the time. */
  predicate Roomy(host: string) { |host| + 2 <= VALUE_SIZE - 1 }

  function Pow10(k: nat): (p: nat)
    ensures p > 0
  {
    if k == 0 then 1 else 10 * Pow10(k - 1)
  }

  /** The time that is written: of one that does not fit, the first digits. */
  function Stored(host: string, now: nat): nat
  {
    var room := VALUE_SIZE - 2 - |host|;
    if room <= 0 then 0
    else if |Dec(now)| <= room then now
    else Leading(now, |Dec(now)| - room)
  }

  /** A number without its last `j` digits. */
  function Leading(n: nat, j: nat): (r: nat)
    ensures r <= n
  {
    if j == 0 then n else Leading(n / 10, j - 1)
  }

  function Written(l: Login): string { l.host + " " + Dec(l.when) }

  lemma HostChars(s: string)
    requires All(HostName, s)
    ensures All(NotSpace, s)
  {
  }

  lemma WordChars(s: string)
    requires All(NotSpace, s)
    ensures All(NotEol, s)
  {
  }

  lemma WrittenChars(l: Login)
    requires WordHost(l.host)
    ensures All(NotEol, Written(l)) && Span(Space, Written(l)) == 0 && Span(Blank, Written(l)) == 0
    ensures |Written(l)| > 0 && Written(l)[0] == l.host[0]
  {
    hide Dec;
    WordChars(l.host);
    assert In(l.host[0], NotSpace);
  }

  lemma BlankInClasses()
    ensures !In(' ', HostName) && !In(' ', NotSpace)
  {
  }

  /** What is written for a word reads back in within_grace_period ... */
  lemma WordReadsBack(l: Login)
    requires WordHost(l.host) && l.when < TWO64
    ensures ReadWord(Written(l)) == Some(l)
    ensures ValidValue(Written(l)) && Strip(Written(l)) == Written(l)
  {
    hide Strtoul, Dec, Span, In, IsSpace;
    var s := Written(l);
    var tail := " " + Dec(l.when);
    WrittenChars(l);
    assert s == l.host + tail && s[0..] == s;
    BlankInClasses();
    SpanOf(NotSpace, l.host, tail);
    TimeReadsBack(l.when);
    assert s[|l.host|..] == tail && s[..|l.host|] == l.host;
  }

  lemma TimeReadsBack(when: nat)
    requires when < TWO64
    ensures var r := Strtoul(" " + Dec(when)); r.end > 0 && r.value == when
  {
    hide Strtoul, Dec, In;
    OneBlank();
    ReadUnsigned(" ", when, "");
    assert " " + Dec(when) + "" == " " + Dec(when);
  }

  /** ... and in the search exactly if the host fits the pattern: what is written for any other host
      is a malformed line, or another host's. */
  lemma SearchReadsBackIff(l: Login)
    requires l.host != "" && All(NotSpace, l.host) && l.when < TWO64
    ensures ReadSlot(Written(l)) == Some(l) <==> PlainHost(l.host)
    ensures ReadSlot(Written(l)).Some? && ReadSlot(Written(l)).value.host == l.host <==> PlainHost(l.host)
  {
    hide Strtoul, Dec, Span, In, IsSpace;
    var s := Written(l);
    var tail := " " + Dec(l.when);
    WrittenChars(l);
    assert s == l.host + tail && s[0..] == s;
    if PlainHost(l.host) {
      BlankInClasses();
      SpanOf(HostName, l.host, tail);
      TimeReadsBack(l.when);
      assert s[|l.host|..] == tail && s[..|l.host|] == l.host;
    } else {
      SlotHost(s);
    }
  }

  /** The search reads no host but one that fits its pattern. */
  lemma SlotHost(line: string)
    ensures ReadSlot(line).Some? ==> PlainHost(ReadSlot(line).value.host)
  {
    hide Strtoul, Span, In;
    var s := line[Span(Space, line)..];
    var n := Span(HostName, s);
    var h := if n > HOST_LIMIT then HOST_LIMIT else n;
    assert forall i :: 0 <= i < h ==> s[..h][i] == s[i];
  }

  /** within_grace_period reads no host but a word. */
  lemma WordIsWord(line: string)
    ensures ReadWord(line).Some? ==> WordHost(ReadWord(line).value.host)
  {
    hide Strtoul, Span, In;
    var s := line[Span(Space, line)..];
    var n := Span(NotSpace, s);
    assert forall i :: 0 <= i < n ==> s[..n][i] == s[i];
  }

  /** A host that fits the pattern and is found by within_grace_period is found by the search. */
  lemma WordIsSlot(line: string)
    requires ReadWord(line).Some? && PlainHost(ReadWord(line).value.host)
    ensures ReadSlot(line) == ReadWord(line)
  {
    hide Strtoul, Span, In;
    var s := line[Span(Space, line)..];
    var m := Span(NotSpace, s);
    assert All(HostName, s[..m]);
    assert forall i :: 0 <= i < m ==> s[..m][i] == s[i];
    HostNotSpace();
    SpanIs(HostName, s, m);
  }

  lemma HostNotSpace()
    ensures forall c :: In(c, HostName) ==> In(c, NotSpace)
  {
  }

  lemma NameFacts()
    ensures forall i :: -1 <= i < 10 ==> ValidKey(Name(i))
    ensures forall i, j :: -1 <= i < 10 && -1 <= j < 10 && Name(i) == Name(j) ==> i == j
  {
    forall i, j | -1 <= i < 10 && -1 <= j < 10 && Name(i) == Name(j) ensures i == j
    {
      assert Name(i)[4] == Name(j)[4];
    }
  }

  // ---- the search ---------------------------------------------------------------------------

  /** The slot an update goes to: the host's own, if it has one; else the first of those with the
      least time (a free one counts as 0) if that is less than now; else none. */
  predicate Chosen(slots: Slots, host: string, now: nat, r: int)
  {
    if exists i :: 0 <= i < 10 && Own(slots[i], host) then
      0 <= r < 10 && Own(slots[r], host) && forall j :: 0 <= j < r ==> !Own(slots[j], host)
    else if exists i :: 0 <= i < 10 && Candidate(slots[i], now) then
      && 0 <= r < 10 && Candidate(slots[r], now)
      && forall j :: 0 <= j < 10 && Candidate(slots[j], now) ==> Older(slots, r, j)
    else r == -1
  }

  predicate Older(slots: Slots, i: nat, j: nat)
    requires i < 10 && j < 10 && Age(slots[i]).Some? && Age(slots[j]).Some?
  {
    Age(slots[i]).value <= Age(slots[j]).value && (j < i ==> Age(slots[i]).value < Age(slots[j]).value)
  }

  /** What the search knows about the first `i` slots. */
  predicate Searched(slots: Slots, host: string, now: nat, i: nat, oldest: nat, index: int)
    requires i <= 10
  {
    && (forall j :: 0 <= j < i ==> !Own(slots[j], host))
    && if index == -1 then oldest == now && forall j :: 0 <= j < i ==> !Candidate(slots[j], now)
       else
         && 0 <= index < i && Candidate(slots[index], now) && Age(slots[index]).value == oldest
         && forall j :: 0 <= j < i && Candidate(slots[j], now) ==> Older(slots, index, j)
  }

  lemma {:induction false} FindIsChosen(t: string, host: string, now: nat, i: nat, oldest: nat, index: int)
    requires i <= 10 && -1 <= index < 10 && Searched(SlotsOf(t), host, now, i, oldest, index)
    ensures Chosen(SlotsOf(t), host, now, FindSlot(t, host, i, oldest, index))
    decreases 10 - i
  {
    hide SlotAt, Searched, Chosen, SlotsOf;
    var slots := SlotsOf(t);
    if i == 10 {
      SearchEnds(slots, host, now, oldest, index);
    } else {
      SearchGoesOn(slots, host, now, i, oldest, index);
      match SlotAt(t, i)
      case Empty => FindIsChosen(t, host, now, i + 1, 0, if oldest != 0 then i else index);
      case Malformed => FindIsChosen(t, host, now, i + 1, oldest, index);
      case Taken(login) =>
        if login.host == host { HostChosen(slots, host, now, i, oldest, index); }
        else if login.when < oldest { FindIsChosen(t, host, now, i + 1, login.when, i); }
        else { FindIsChosen(t, host, now, i + 1, oldest, index); }
    }
  }

  lemma SearchGoesOn(slots: Slots, host: string, now: nat, i: nat, oldest: nat, index: int)
    requires i < 10 && -1 <= index < 10 && Searched(slots, host, now, i, oldest, index)
    ensures match slots[i]
            case Empty => Searched(slots, host, now, i + 1, 0, if oldest != 0 then i else index)
            case Malformed => Searched(slots, host, now, i + 1, oldest, index)
            case Taken(login) =>
              login.host != host ==>
                if login.when < oldest then Searched(slots, host, now, i + 1, login.when, i)
                else Searched(slots, host, now, i + 1, oldest, index)
  {
  }

  lemma HostChosen(slots: Slots, host: string, now: nat, i: nat, oldest: nat, index: int)
    requires i < 10 && Own(slots[i], host) && Searched(slots, host, now, i, oldest, index)
    ensures Chosen(slots, host, now, i)
  {
  }

  lemma SearchEnds(slots: Slots, host: string, now: nat, oldest: nat, index: int)
    requires -1 <= index < 10 && Searched(slots, host, now, 10, oldest, index)
    ensures Chosen(slots, host, now, index)
  {
  }

  lemma SearchStarts(slots: Slots, host: string, now: nat)
    ensures Searched(slots, host, now, 0, now, -1)
  {
  }

  /** The search of update_logindetails, in any file. */
  lemma SearchChooses(t: string, host: string, now: nat)
    ensures Chosen(SlotsOf(t), host, now, FindSlot(t, host, 0, now, -1))
  {
    hide *;
    SearchStarts(SlotsOf(t), host, now);
    FindIsChosen(t, host, now, 0, now, -1);
  }

  // ---- an update and the question after it --------------------------------------------------

  lemma {:induction false} DecLength(n: nat, k: nat)
    requires k > 0 && n < Pow10(k)
    ensures |Dec(n)| <= k
  {
    if n >= 10 { DecLength(n / 10, k - 1); }
  }

  /** A host of the length a domain name can have always fits. */
  lemma HostFits(host: string, now: nat)
    requires |host| <= HOST_LIMIT && now < TWO64
    ensures Fits(host, now)
  {
    assert Pow10(10) == 10_000_000_000;
    assert Pow10(20) == 100_000_000_000_000_000_000;
    DecLength(now, 20);
  }

  /** The first digits of a number are those of the number without its last ones. */
  lemma {:induction false} FirstDigits(n: nat, k: nat)
    requires 0 < k <= |Dec(n)|
    ensures Dec(n)[..k] == Dec(Leading(n, |Dec(n)| - k))
  {
    hide Dec;
    if k == |Dec(n)| {
      assert Dec(n)[..k] == Dec(n);
    } else {
      DecStep(n);
      FirstDigits(n / 10, k);
    }
  }

  lemma DecStep(n: nat)
    requires |Dec(n)| > 1
    ensures |Dec(n)| == |Dec(n / 10)| + 1
    ensures forall k :: 0 <= k < |Dec(n)| ==> Dec(n)[..k] == Dec(n / 10)[..k]
  {
    assert Dec(n) == Dec(n / 10) + [DigitChar(n % 10)];
  }

  lemma WrittenIs(host: string, now: nat)
    requires Roomy(host)
    ensures SlotValue(host, now) == Written(Login(host, Stored(host, now)))
  {
    hide Dec;
    var room := VALUE_SIZE - 2 - |host|;
    if |Dec(now)| > room {
      FirstDigits(now, room);
      assert (host + " " + Dec(now))[..VALUE_SIZE - 1] == host + " " + Dec(now)[..room];
    }
  }

  lemma StoredIs(host: string, now: nat)
    ensures Fits(host, now) ==> Roomy(host) && Stored(host, now) == now
    ensures Stored(host, now) <= now
  {
    hide Dec;
  }

  /** A host that leaves no room is not read back at all. */
  lemma NoRoom(host: string, now: nat)
    requires !Roomy(host)
    ensures var line := Strip(SlotValue(host, now)); ReadWord(line).Some? ==> ReadWord(line).value.host != host
  {
    hide Dec, Strtoul, Span, In;
    var line := Strip(SlotValue(host, now));
    var s := line[Span(Space, line)..];
    var h := Span(NotSpace, s);
    if ReadWord(line).Some? { NumberIsLong(s[h..]); }
  }

  lemma NumberIsLong(s: string)
    requires Strtoul(s).end > 0 && !In(s[0], NotSpace)
    ensures |s| >= 2
  {
    if |s| == 1 { assert IsSpace(s[0]); }
  }

  /** What within_grace_period makes of an option that was set. */
  lemma OptionRead(u: string, i: nat, host: string, now: nat)
    requires i < 10 && now < TWO64 && GetCfgValue(u, Name(i)) == Some(Strip(SlotValue(host, now)))
    ensures IsHost(u, host, i) <==> WordHost(host) && Roomy(host)
    ensures IsHost(u, host, i) ==> TimeAt(u, host, i) == Stored(host, now)
  {
    hide GetCfgValue, ReadWord, Written, Strip, Name, WordHost, Roomy, Stored, SlotValue;
    var line := Strip(SlotValue(host, now));
    WordIsWord(line);
    if !Roomy(host) {
      NoRoom(host, now);
    } else {
      WrittenIs(host, now);
      StoredIs(host, now);
      if WordHost(host) { WordReadsBack(Login(host, Stored(host, now))); }
    }
  }

  /** What the search makes of a host that fits its pattern. */
  lemma PlainReadsBack(host: string, now: nat)
    requires PlainHost(host) && now < TWO64
    ensures ReadBack(host, now) == Taken(Login(host, now))
  {
    hide ReadSlot, Written, Strip, WordHost, PlainHost, Stored, SlotValue, Fits, Roomy;
    PlainFits(host, now);
    StoredIs(host, now);
    WrittenIs(host, now);
    PlainIsWord(host);
    WordReadsBack(Login(host, now));
    PlainReads(Login(host, now));
  }

  lemma PlainReads(l: Login)
    requires PlainHost(l.host) && l.when < TWO64
    ensures ReadSlot(Written(l)) == Some(l)
  {
    hide ReadSlot, Written, All;
    PlainIsWord(l.host);
    SearchReadsBackIff(l);
  }

  /** Whether a number starts the text. */
  predicate StartsNumber(s: string)
  {
    s != "" && (IsDigit(s[0]) || (s[0] in "+-" && |s| > 1 && IsDigit(s[1])))
  }

  /** How much of a host the search's pattern takes. */
  function Pattern(host: string): (h: nat)
    ensures h <= |host|
  {
    if Span(HostName, host) > HOST_LIMIT then HOST_LIMIT else Span(HostName, host)
  }

  /** What is written for a word is a malformed line exactly if the pattern takes nothing of it, or
      leaves something that does not start with a number. */
  lemma MalformedIff(host: string, now: nat)
    requires WordHost(host) && Fits(host, now) && now < TWO64
    ensures ReadBack(host, now).Malformed? <==>
              Pattern(host) == 0 || (Pattern(host) < |host| && !StartsNumber(host[Pattern(host)..]))
  {
    hide ReadSlot, ReadTime, Written, Strip, Stored, SlotValue, Fits, Roomy, Pattern, StartsNumber, All;
    var l := Login(host, now);
    StoredIs(host, now);
    WrittenIs(host, now);
    WordReadsBack(l);
    SlotOfWritten(l);
    TimeOfRest(host, now);
  }

  lemma SlotOfWritten(l: Login)
    requires WordHost(l.host)
    ensures ReadSlot(Written(l)) == ReadTime(Written(l), Pattern(l.host))
  {
    hide Span, ReadTime, All, Dec;
    var s := Written(l);
    WrittenChars(l);
    assert s[0..] == s;
    PatternOf(l.host, " " + Dec(l.when));
    assert s == l.host + (" " + Dec(l.when));
  }

  lemma PatternOf(host: string, tail: string)
    requires tail != "" && !In(tail[0], HostName)
    ensures Span(HostName, host + tail) == Span(HostName, host)
  {
    hide Span, In;
    var n := Span(HostName, host);
    var s := host + tail;
    assert forall i :: 0 <= i < |host| ==> s[i] == host[i];
    assert n == |host| ==> s[n] == tail[0];
    SpanIs(HostName, s, n);
  }

  /** The time after the part that the pattern takes. */
  lemma TimeOfRest(host: string, now: nat)
    requires WordHost(host) && now < TWO64
    ensures var h := Pattern(host);
            ReadTime(Written(Login(host, now)), h).Some? <==>
              h > 0 && (h == |host| || StartsNumber(host[h..]))
  {
    hide Pattern, Dec, Strtoul, StartsNumber, Span, WordHost;
    var h := Pattern(host);
    var s := Written(Login(host, now));
    var tail := " " + Dec(now);
    assert s == host + tail;
    if h == |host| {
      assert s[h..] == tail;
      TimeReadsBack(now);
    } else {
      assert s[h..] == host[h..] + tail;
      WordRest(host, h);
      NumberIff(host[h..], tail);
    }
    NotNegative(s[h..]);
  }

  lemma WordRest(host: string, h: nat)
    requires WordHost(host) && h < |host|
    ensures forall i :: h <= i < |host| ==> !IsSpace(host[i])
  {
  }

  lemma NotNegative(s: string)
    ensures Strtoul(s).value >= 0
  {
    hide Magnitude;
  }

  /** A text that is not blank starts with a number exactly if its first characters say so. */
  lemma NumberIff(s: string, tail: string)
    requires s != "" && tail != "" && tail[0] == ' ' && forall i :: 0 <= i < |s| ==> !IsSpace(s[i])
    ensures Strtoul(s + tail).end > 0 <==> StartsNumber(s)
  {
    NumberStarts(s + tail);
    assert (s + tail)[0] == s[0];
    assert |s + tail| > 1 && (s + tail)[1] == if |s| > 1 then s[1] else ' ';
  }

  lemma NumberStarts(s: string)
    requires s != "" && !IsSpace(s[0])
    ensures Strtoul(s).end > 0 <==> StartsNumber(s)
  {
  }

  lemma PlainIsWord(host: string)
    ensures PlainHost(host) ==> WordHost(host)
  {
    if PlainHost(host) { HostChars(host); }
  }

  /** The options of all slots but one are as before. */
  predicate SameSlotsBut(t: string, u: string, r: int)
  {
    forall i :: 0 <= i < 10 && i != r ==> GetCfgValue(u, Name(i)) == GetCfgValue(t, Name(i))
  }

  lemma SameReads(t: string, u: string, host: string, i: nat)
    requires i < 10 && GetCfgValue(u, Name(i)) == GetCfgValue(t, Name(i))
    ensures IsHost(u, host, i) == IsHost(t, host, i) && TimeAt(u, host, i) == TimeAt(t, host, i)
          && SlotAt(u, i) == SlotAt(t, i)
  {
    hide GetCfgValue, ReadWord, ReadSlot, Name;
  }

  /** The first slot that is the host's holds its last login. */
  lemma {:induction false} LastTimeAt(t: string, host: string, i: nat, r: nat)
    requires i <= r < 10 && IsHost(t, host, r) && forall j :: i <= j < r ==> !IsHost(t, host, j)
    ensures LastTime(t, host, i) == TimeAt(t, host, r)
    decreases 10 - i
  {
    hide IsHost, TimeAt;
    if i < r { LastTimeAt(t, host, i + 1, r); }
  }

  lemma {:induction false} NoLastTime(t: string, host: string, i: nat)
    requires i <= 10 && forall j :: i <= j < 10 ==> !IsHost(t, host, j)
    ensures LastTime(t, host, i) == 0
    decreases 10 - i
  {
    hide IsHost, TimeAt;
    if i < 10 { NoLastTime(t, host, i + 1); }
  }

  /** If slot `r` is not the host's after an update, or an earlier one is, the update does not count. */
  lemma {:induction false} ButIs(t: string, u: string, host: string, i: nat, r: int)
    requires i <= 10 && -1 <= r < 10 && SameSlotsBut(t, u, r)
    requires i <= r ==> !IsHost(u, host, r) || exists j :: i <= j < r && IsHost(t, host, j)
    ensures LastTime(u, host, i) == LastTimeBut(t, host, i, r)
    decreases 10 - i
  {
    hide IsHost, TimeAt, GetCfgValue, Name, SameSlotsBut;
    if i < 10 {
      if i != r { SlotSame(t, u, host, i, r); }
      if i == r || !IsHost(t, host, i) { ButIs(t, u, host, i + 1, r); }
    }
  }

  lemma SlotSame(t: string, u: string, host: string, i: nat, r: int)
    requires i < 10 && i != r && SameSlotsBut(t, u, r)
    ensures IsHost(u, host, i) == IsHost(t, host, i) && TimeAt(u, host, i) == TimeAt(t, host, i)
          && SlotAt(u, i) == SlotAt(t, i)
  {
    hide GetCfgValue, Name, IsHost, TimeAt, SlotAt;
    SameReads(t, u, host, i);
  }

  /** A slot that is not the host's does not count anyway. */
  lemma {:induction false} ButOther(t: string, host: string, i: nat, r: int)
    requires i <= 10 && (i <= r < 10 ==> !IsHost(t, host, r) || exists j :: i <= j < r && IsHost(t, host, j))
    ensures LastTimeBut(t, host, i, r) == LastTime(t, host, i)
    decreases 10 - i
  {
    hide IsHost, TimeAt;
    if i < 10 && (i == r || !IsHost(t, host, i)) { ButOther(t, host, i + 1, r); }
  }

  /** Does the login just made become the host's last login? There must be a slot for it, the host
      must be a word that leaves room for a time, and no earlier slot may hold it in a form the search
      does not read. */
  predicate Remembers(t: string, host: string, now: nat)
  {
    var r := FindSlot(t, host, 0, now, -1);
    r >= 0 && WordHost(host) && Roomy(host) && forall i :: 0 <= i < r ==> !IsHost(t, host, i)
  }

  /** An update goes to the slot it should and changes that slot only; from then on the host's last
      login is the one just made if it is recorded, and else what the other slots say. */
  lemma UpdateRecords(t: string, host: string, now: nat)
    requires Tidy(t) && All(NotEol, host) && now < TWO64
    ensures var r := FindSlot(t, host, 0, now, -1);
            var u := UpdateLoginDetails(t, host, now);
            && Chosen(SlotsOf(t), host, now, r)
            && SameBut(t, u, {Name(r)}) && SameSlotsBut(t, u, r)
            && LastTime(u, host, 0)
               == (if Remembers(t, host, now) then Stored(host, now) else LastTimeBut(t, host, 0, r))
            && (r >= 0 ==>
                  && SlotsOf(u) == SlotsOf(t)[r := ReadBack(host, now)]
                  && (IsHost(u, host, r) <==> WordHost(host) && Roomy(host))
                  && (IsHost(u, host, r) ==> TimeAt(u, host, r) == Stored(host, now)))
  {
    hide *;
    var r := FindSlot(t, host, 0, now, -1);
    SearchChooses(t, host, now);
    var u := UpdateLoginDetails(t, host, now);
    UpdateSets(t, host, now);
    if r >= 0 {
      OptionRead(u, r, host, now);
      OnlySlot(t, u, host, now, r);
    }
    TimeAfter(t, u, host, now);
  }

  lemma PlainFits(host: string, now: nat)
    requires now < TWO64
    ensures PlainHost(host) ==> Fits(host, now) && Roomy(host)
  {
    hide All, Fits;
    if PlainHost(host) { HostFits(host, now); }
  }

  /** The edit itself. */
  lemma UpdateSets(t: string, host: string, now: nat)
    requires Tidy(t) && All(NotEol, host)
    ensures var r := FindSlot(t, host, 0, now, -1);
            var u := UpdateLoginDetails(t, host, now);
            && SameBut(t, u, {Name(r)}) && SameSlotsBut(t, u, r)
            && GetCfgValue(u, Name(r)) == Some(Strip(SlotValue(host, now)))
  {
    hide GetCfgValue, SetCfgValue, FindSlot, Name, Tidy, ValidKey, SecretLine, Codes, Strip, SlotValue, All;
    var r := FindSlot(t, host, 0, now, -1);
    NameFacts();
    WrittenNoEol(host, now);
    SetKeeps(t, Name(r), SlotValue(host, now));
  }

  lemma WrittenNoEol(host: string, now: nat)
    requires All(NotEol, host)
    ensures ValidValue(SlotValue(host, now))
  {
    hide Dec;
  }

  lemma OnlySlot(t: string, u: string, host: string, now: nat, r: nat)
    requires r < 10 && SameSlotsBut(t, u, r) && GetCfgValue(u, Name(r)) == Some(Strip(SlotValue(host, now)))
    ensures SlotsOf(u) == SlotsOf(t)[r := ReadBack(host, now)]
  {
    hide GetCfgValue, Name, ReadSlot, Strip, SlotValue;
    forall i | 0 <= i < 10 && i != r ensures SlotAt(u, i) == SlotAt(t, i) { SameReads(t, u, host, i); }
  }

  lemma TimeAfter(t: string, u: string, host: string, now: nat)
    requires var r := FindSlot(t, host, 0, now, -1);
             && SameSlotsBut(t, u, r) && (r >= 0 ==>
                && (IsHost(u, host, r) <==> WordHost(host) && Roomy(host))
                && (IsHost(u, host, r) ==> TimeAt(u, host, r) == Stored(host, now)))
    ensures LastTime(u, host, 0)
         == if Remembers(t, host, now) then Stored(host, now)
            else LastTimeBut(t, host, 0, FindSlot(t, host, 0, now, -1))
  {
    hide GetCfgValue, Name, IsHost, TimeAt, FindSlot, WordHost, LastTime, LastTimeBut, Stored, Roomy, SameSlotsBut,
         SlotAt;
    var r := FindSlot(t, host, 0, now, -1);
    if Remembers(t, host, now) {
      forall i | 0 <= i < r ensures !IsHost(u, host, i) { SlotSame(t, u, host, i, r); }
      LastTimeAt(u, host, 0, r);
    } else {
      ButIs(t, u, host, 0, r);
    }
  }

  /** For a word that leaves room for a time, that is what it was before. */
  lemma NotRemembered(t: string, host: string, now: nat)
    requires WordHost(host) && Roomy(host) && !Remembers(t, host, now)
    ensures LastTimeBut(t, host, 0, FindSlot(t, host, 0, now, -1)) == LastTime(t, host, 0)
  {
    hide IsHost, FindSlot, WordHost, LastTime, LastTimeBut, Roomy;
    ButOther(t, host, 0, FindSlot(t, host, 0, now, -1));
  }

  lemma HostIsOwn(t: string, host: string, i: nat)
    requires PlainHost(host) && i < 10 && IsHost(t, host, i)
    ensures SlotAt(t, i) == Taken(Login(host, TimeAt(t, host, i)))
  {
    hide GetCfgValue, ReadWord, ReadSlot, Name, PlainHost;
    WordIsSlot(GetCfgValue(t, Name(i)).value);
  }

  /** A host that fits the pattern is recorded exactly when it has a slot, or some slot is free or
      older than now. */
  lemma RemembersIff(t: string, host: string, now: nat)
    requires PlainHost(host)
    ensures Remembers(t, host, now) <==>
              exists i :: 0 <= i < 10 && (Own(SlotsOf(t)[i], host) || Candidate(SlotsOf(t)[i], now))
    ensures FindSlot(t, host, 0, now, -1) == -1 ==> LastTime(t, host, 0) == 0
  {
    hide FindSlot, IsHost, LastTime, SlotAt, TimeAt, WordHost, All;
    SearchChooses(t, host, now);
    PlainIsWord(host);
    forall i | 0 <= i < 10 && IsHost(t, host, i) ensures Own(SlotAt(t, i), host) { HostIsOwn(t, host, i); }
    if FindSlot(t, host, 0, now, -1) == -1 { NoLastTime(t, host, 0); }
  }

  // ---- ten hosts at once ----------------------------------------------------------------------

  function Neighbour(i: nat): string
    requires i < 10
  {
    [('a' as int + i) as char]
  }

  /** A file with the last logins of `n` hosts, all at the same time. */
  function FullHouse(n: nat, now: nat): string
    requires n <= 10
  {
    if n == 0 then "A\n" else SetCfgValue(FullHouse(n - 1, now), Name(n - 1), SlotValue(Neighbour(n - 1), now))
  }

  lemma NeighbourIs(i: nat)
    requires i < 10
    ensures PlainHost(Neighbour(i)) && All(NotEol, Neighbour(i))
  {
  }

  lemma {:induction false} FullHouseIs(n: nat, now: nat)
    requires n <= 10 && now < TWO64
    ensures Tidy(FullHouse(n, now))
    ensures forall i :: 0 <= i < n ==> SlotAt(FullHouse(n, now), i) == Taken(Login(Neighbour(i), now))
  {
    hide SetCfgValue, GetCfgValue, Tidy, Name, SlotValue, ReadSlot, Neighbour, PlainHost, SlotAt, SecretLine, Codes,
         Strip;
    if n == 0 {
      EmptyHouse(now);
    } else {
      var t, host := FullHouse(n - 1, now), Neighbour(n - 1);
      FullHouseIs(n - 1, now);
      NeighbourIs(n - 1);
      NameFacts();
      WrittenNoEol(host, now);
      SetKeeps(t, Name(n - 1), SlotValue(host, now));
      SlotSet(t, n - 1, host, now);
    }
  }

  lemma EmptyHouse(now: nat)
    ensures Tidy(FullHouse(0, now))
  {
  }

  lemma SlotSet(t: string, k: nat, host: string, now: nat)
    requires k < 10 && PlainHost(host) && now < TWO64
    requires var u := SetCfgValue(t, Name(k), SlotValue(host, now));
             forall key :: ValidKey(key) ==>
               GetCfgValue(u, key) == if key == Name(k) then Some(Strip(SlotValue(host, now))) else GetCfgValue(t, key)
    ensures var u := SetCfgValue(t, Name(k), SlotValue(host, now));
            && SlotAt(u, k) == Taken(Login(host, now))
            && forall i :: 0 <= i < k ==> SlotAt(u, i) == SlotAt(t, i)
  {
    hide SetCfgValue, GetCfgValue, Name, SlotValue, ReadSlot, PlainHost, Strip, ValidKey;
    NameFacts();
    PlainReadsBack(host, now);
  }

  /** In the same second a login from an eleventh host finds no slot. It is written under a name that is
      no slot's, and is not remembered. */
  lemma EleventhHost(host: string, now: nat)
    requires PlainHost(host) && All(NotEol, host) && now < TWO64 && forall i :: 0 <= i < 10 ==> Neighbour(i) != host
    ensures var t := FullHouse(10, now); var u := UpdateLoginDetails(t, host, now);
            && FindSlot(t, host, 0, now, -1) == -1
            && SlotsOf(u) == SlotsOf(t) && LastTime(u, host, 0) == 0
            && GetCfgValue(u, "LAST/") == Some(Strip(SlotValue(host, now)))
  {
    hide *;
    var t := FullHouse(10, now);
    FullHouseIs(10, now);
    SearchChooses(t, host, now);
    NoneForAnother(SlotsOf(t), host, now, FindSlot(t, host, 0, now, -1));
    UpdateRecords(t, host, now);
    UpdateSets(t, host, now);
    RemembersIff(t, host, now);
    NoSlotName();
    SlotsLike(t, UpdateLoginDetails(t, host, now));
    ButOther(t, host, 0, -1);
    NotRememberedWithout(t, host, now);
  }

  lemma NoneForAnother(slots: Slots, host: string, now: nat, r: int)
    requires forall i :: 0 <= i < 10 ==> slots[i] == Taken(Login(Neighbour(i), now))
    requires forall i :: 0 <= i < 10 ==> Neighbour(i) != host
    requires Chosen(slots, host, now, r)
    ensures r == -1
  {
    hide Neighbour;
  }

  lemma NoSlotName()
    ensures Name(-1) == "LAST/"
  {
  }

  lemma SlotsLike(t: string, u: string)
    requires SameSlotsBut(t, u, -1)
    ensures SlotsOf(u) == SlotsOf(t)
  {
    hide GetCfgValue, Name, SlotAt;
    forall i | 0 <= i < 10 ensures SlotAt(u, i) == SlotAt(t, i) { SameReads(t, u, "", i); }
  }

  lemma NotRememberedWithout(t: string, host: string, now: nat)
    requires FindSlot(t, host, 0, now, -1) == -1
    ensures !Remembers(t, host, now)
  {
    hide FindSlot, WordHost;
  }

  /** The search never finds the slot of a host that does not fit its pattern: each login of such a
      host takes another slot, and what it leaves there is its own line no longer. */
  lemma OddHostHasNoSlot(t: string, host: string)
    requires !PlainHost(host)
    ensures forall i :: 0 <= i < 10 ==> !Own(SlotsOf(t)[i], host)
  {
    hide GetCfgValue, ReadSlot, Name, PlainHost;
    forall i | 0 <= i < 10 ensures !Own(SlotAt(t, i), host) {
      match GetCfgValue(t, Name(i)) case None => case Some(line) => SlotHost(line);
    }
  }

  /** Hosts stay distinct. */
  lemma StaysDistinct(slots: Slots, host: string, now: nat, r: nat)
    requires Distinct(slots) && r < 10 && Chosen(slots, host, now, r)
    ensures Distinct(slots[r := Taken(Login(host, now))])
  {
  }
}

/** The ten slots as a least-recently-used record, over runs of logins: which slots are lost for good,
    and how long a host stays on record. */
module GraceRuns {
  import opened CText
  import opened StateText
  import opened StateInvariant
  import opened Login
  import opened Effects
  import opened Runs
  import opened LastLogins
  import opened Grace
  import Checks

  // ---- counting hosts -------------------------------------------------------------------------

  /** The slots that can be used: malformed ones are passed over for good. */
  function Usable(slots: seq<Slot>): nat
  {
    if slots == [] then 0 else Usable(slots[1..]) + if slots[0].Malformed? then 0 else 1
  }

  function HostsIn(slots: seq<Slot>): set<string>
  {
    if slots == [] then {} else HostsIn(slots[1..]) + if slots[0].Taken? then {slots[0].login.host} else {}
  }

  lemma {:induction false} InHosts(slots: seq<Slot>, host: string)
    ensures host in HostsIn(slots) <==> exists i :: 0 <= i < |slots| && Own(slots[i], host)
  {
    if slots != [] {
      InHosts(slots[1..], host);
      if exists i :: 0 <= i < |slots| && Own(slots[i], host) {
        var i :| 0 <= i < |slots| && Own(slots[i], host);
        if i > 0 { assert Own(slots[1..][i - 1], host); }
      }
      if exists i :: 0 <= i < |slots[1..]| && Own(slots[1..][i], host) {
        var i :| 0 <= i < |slots[1..]| && Own(slots[1..][i], host);
        assert Own(slots[i + 1], host);
      }
    }
  }

  /** With no slot free and no host twice, there are as many hosts as usable slots. */
  lemma {:induction false} ManyHosts(slots: seq<Slot>)
    requires forall i :: 0 <= i < |slots| ==> !slots[i].Empty?
    requires forall i, j :: 0 <= i < j < |slots| && slots[i].Taken? && slots[j].Taken? ==>
               slots[i].login.host != slots[j].login.host
    ensures |HostsIn(slots)| == Usable(slots)
  {
    if slots != [] {
      var rest := slots[1..];
      assert forall i :: 0 <= i < |rest| ==> rest[i] == slots[i + 1];
      ManyHosts(rest);
      if slots[0].Taken? {
        var host := slots[0].login.host;
        InHosts(rest, host);
        assert host !in HostsIn(rest);
      }
    }
  }

  /** A slot that was usable and is rewritten. */
  lemma {:induction false} UsableAfter(slots: seq<Slot>, r: nat, s: Slot)
    requires r < |slots| && !slots[r].Malformed?
    ensures Usable(slots[r := s]) == Usable(slots) - if s.Malformed? then 1 else 0
  {
    var u := slots[r := s];
    if r == 0 {
      assert u[1..] == slots[1..];
    } else {
      assert u[1..] == slots[1..][r - 1 := s];
      UsableAfter(slots[1..], r - 1, s);
    }
  }

  lemma {:induction false} UsableAtMost(slots: seq<Slot>)
    ensures Usable(slots) <= |slots|
  {
    if slots != [] { UsableAtMost(slots[1..]); }
  }

  lemma {:induction false} NoneUsable(slots: seq<Slot>)
    ensures Usable(slots) == 0 <==> forall i :: 0 <= i < |slots| ==> slots[i].Malformed?
  {
    if slots != [] {
      NoneUsable(slots[1..]);
      assert forall i :: 0 <= i < |slots| - 1 ==> slots[1..][i] == slots[i + 1];
    }
  }

  /** The search never takes a malformed slot. */
  lemma ChosenIsUsable(slots: Slots, host: string, now: nat, r: int)
    requires Chosen(slots, host, now, r) && 0 <= r < 10
    ensures !slots[r].Malformed?
  {
  }

  // ---- slots that are lost --------------------------------------------------------------------

  /** The slot a login puts its host into, if it puts it on record at all. */
  function Taking(t: string, x: Try, o: Outcome): Option<nat>
  {
    if !Records(x.params, x.input, o) || x.input.host.None? then None
    else
      var r := FindSlot(t, x.input.host.value, 0, x.input.now, -1);
      if r < 0 then None else Some(r)
  }

  /** What it writes there. */
  function NewSlot(x: Try): Slot
  {
    match x.input.host case None => Empty case Some(host) => ReadBack(host, x.input.now)
  }

  /** Whether the slot can never be taken again. */
  predicate Loses(t: string, x: Try, o: Outcome) { Taking(t, x, o).Some? && NewSlot(x).Malformed? }

  /** How many logins of a run lose a slot. */
  function Lost(otp: Coder, file: string, run: seq<Try>): nat
  {
    if run == [] then 0
    else
      Lost(otp, file, Front(run))
      + if Loses(FileAfter(otp, file, Front(run)), Last(run), LastResult(otp, file, run)) then 1 else 0
  }

  /** One login and the slots: it rewrites the slot it takes, a usable one, and no other. */
  lemma LoginTakes(otp: Coder, t: string, x: Try)
    requires Tidy(t) && Sane(x.input, t)
    ensures var u, r := Next(otp, t, x), Taking(t, x, Result(otp, t, x));
            match r
            case None => SlotsOf(u) == SlotsOf(t) && SameSlotsBut(t, u, -1)
            case Some(r) =>
              && r < 10 && Chosen(SlotsOf(t), x.input.host.value, x.input.now, r) && !SlotsOf(t)[r].Malformed?
              && SlotsOf(u) == SlotsOf(t)[r := NewSlot(x)] && SameSlotsBut(t, u, r)
  {
    hide *;
    ResultIs(otp, t, x);
    TakingIs(t, x, Result(otp, t, x));
    if Records(x.params, x.input, Result(otp, t, x)) {
      RecordsHost(x.params, x.input, Result(otp, t, x));
      var host := x.input.host.value;
      LoginRecorded(x.params, x.input, otp, t, host);
      var r := FindSlot(t, host, 0, x.input.now, -1);
      if r >= 0 {
        ChosenIsUsable(SlotsOf(t), host, x.input.now, r);
      } else {
        SlotsLike(t, Next(otp, t, x));
      }
    } else {
      SlotsLeft(x.params, x.input, otp, t);
      SameHostsBut(t, Next(otp, t, x));
      SlotsLike(t, Next(otp, t, x));
    }
  }

  lemma TakingIs(t: string, x: Try, o: Outcome)
    ensures !Records(x.params, x.input, o) ==> Taking(t, x, o).None?
    ensures Records(x.params, x.input, o) && x.input.host.Some? ==>
              var r := FindSlot(t, x.input.host.value, 0, x.input.now, -1);
              && Taking(t, x, o) == (if r < 0 then None else Some(r))
              && NewSlot(x) == ReadBack(x.input.host.value, x.input.now)
  {
    hide Records, FindSlot, ReadBack;
  }

  lemma SameHostsBut(t: string, u: string)
    requires SameHosts(t, u)
    ensures SameSlotsBut(t, u, -1)
  {
    hide GetCfgValue, Name;
  }

  /** Conservation: whoever logs in, the usable slots and the lost ones are as many as there were. */
  lemma {:induction false} UsableAndLost(otp: Coder, file: string, run: seq<Try>)
    requires Tidy(file) && SaneRun(otp, file, run)
    ensures Usable(SlotsOf(FileAfter(otp, file, run))) + Lost(otp, file, run) == Usable(SlotsOf(file))
  {
    hide Tidy, FileAfter, SlotsOf, LastResult, Sane, Usable, Taking, NewSlot, Chosen, SameSlotsBut, Next, Result;
    if run == [] {
      NothingYet(otp, file);
    } else {
      UsableAndLost(otp, file, Front(run));
      StaysTidy(otp, file, Front(run));
      FileStep(otp, file, run);
      LoginTakes(otp, FileAfter(otp, file, Front(run)), Last(run));
      var t := FileAfter(otp, file, Front(run));
      var r := Taking(t, Last(run), LastResult(otp, file, run));
      if r.Some? { UsableAfter(SlotsOf(t), r.value, NewSlot(Last(run))); }
    }
  }

  lemma NothingYet(otp: Coder, file: string)
    ensures FileAfter(otp, file, []) == file
  {
  }

  /** So at most ten logins of a run ever lose a slot. */
  lemma AtMostTenLost(otp: Coder, file: string, run: seq<Try>)
    requires Tidy(file) && SaneRun(otp, file, run)
    ensures Lost(otp, file, run) <= 10
  {
    hide *;
    UsableAndLost(otp, file, run);
    UsableAtMost(SlotsOf(file));
  }

  /** And a slot that is lost keeps what it holds for good. */
  lemma {:induction false} LostForGood(otp: Coder, file: string, run: seq<Try>, i: nat)
    requires Tidy(file) && SaneRun(otp, file, run) && i < 10 && SlotsOf(file)[i].Malformed?
    ensures var u := FileAfter(otp, file, run);
            SlotsOf(u)[i].Malformed? && GetCfgValue(u, Name(i)) == GetCfgValue(file, Name(i))
  {
    hide Tidy, FileAfter, SlotsOf, LastResult, Sane, Taking, NewSlot, Chosen, SameSlotsBut, GetCfgValue, Next, Result,
         Name;
    if run == [] {
      NothingYet(otp, file);
    } else {
      LostForGood(otp, file, Front(run), i);
      StaysTidy(otp, file, Front(run));
      FileStep(otp, file, run);
      var t := FileAfter(otp, file, Front(run));
      LoginTakes(otp, t, Last(run));
      var r := Taking(t, Last(run), LastResult(otp, file, run));
      SlotKept(t, FileAfter(otp, file, run), if r.Some? then r.value else -1, i);
    }
  }

  lemma SlotKept(t: string, u: string, chosen: int, r: nat)
    requires SameSlotsBut(t, u, chosen) && r < 10 && r != chosen
    ensures GetCfgValue(u, Name(r)) == GetCfgValue(t, Name(r))
  {
    hide GetCfgValue, Name;
  }

  /** When ten are lost nobody is put on record any more: every host's last login stays what it is,
      whoever logs in. */
  lemma NobodyRecorded(otp: Coder, file: string, run: seq<Try>, host: string)
    requires Tidy(file) && SaneRun(otp, file, run) && Usable(SlotsOf(file)) == 0
    ensures SameHosts(file, FileAfter(otp, file, run))
    ensures LastTime(FileAfter(otp, file, run), host, 0) == LastTime(file, host, 0)
  {
    hide Tidy, FileAfter, SlotsOf, Usable, GetCfgValue, Name, SaneRun, LastTime;
    NoneUsable(SlotsOf(file));
    forall i | 0 <= i < 10
      ensures GetCfgValue(FileAfter(otp, file, run), Name(i)) == GetCfgValue(file, Name(i))
    {
      LostForGood(otp, file, run, i);
    }
    LastTimeStays(file, FileAfter(otp, file, run), host, 0);
  }

  /** A host that starts with a character the pattern does not know loses a slot at each login that is
      recorded. */
  lemma OddHostLoses(otp: Coder, t: string, x: Try, host: string)
    requires x.input.host == Some(host) && WordHost(host) && !In(host[0], HostName)
    requires Fits(host, x.input.now) && x.input.now < TWO64
    ensures Loses(t, x, Result(otp, t, x)) <==> Taking(t, x, Result(otp, t, x)).Some?
  {
    hide Records, FindSlot, ReadBack, All, Fits, Result, In;
    MalformedIff(host, x.input.now);
    NoPattern(host);
  }

  lemma NoPattern(host: string)
    requires host != "" && !In(host[0], HostName)
    ensures Pattern(host) == 0
  {
    hide In;
  }

  // ---- on record ------------------------------------------------------------------------------

  /** Slot `r` holds this host's last login, and every other slot is older or belongs to one of the
      `others`. */
  predicate Lasts(slots: Slots, r: nat, host: string, when: nat, others: set<string>)
    requires r < 10
  {
    && slots[r] == Taken(Login(host, when)) && host !in others
    && forall j :: 0 <= j < 10 && j != r && slots[j].Taken? ==>
         slots[j].login.host != host && (slots[j].login.when < when || slots[j].login.host in others)
  }

  /** If every usable slot were at least as new as this host's, and another host came, the other
      hosts would be as many as the usable slots. */
  lemma TooManyHosts(slots: Slots, r: nat, host: string, when: nat, others: set<string>, guest: string)
    requires r < 10 && Distinct(slots) && when > 0 && Lasts(slots, r, host, when, others)
    requires forall j :: 0 <= j < 10 && Age(slots[j]).Some? ==> Age(slots[j]).value >= when
    requires guest != host && forall j :: 0 <= j < 10 ==> !Own(slots[j], guest)
    ensures |others + {guest}| >= Usable(slots)
  {
    forall j | 0 <= j < 10 ensures !slots[j].Empty? { assert slots[j].Empty? ==> Age(slots[j]) == Some(0); }
    ManyHosts(slots);
    var hosts := HostsIn(slots);
    InHosts(slots, guest);
    forall h | h in hosts ensures h == host || h in others {
      InHosts(slots, h);
      var j :| 0 <= j < 10 && Own(slots[j], h);
      if j != r { assert Age(slots[j]) == Some(slots[j].login.when); }
    }
    assert hosts + {guest} <= others + {guest} + {host};
    Subset(hosts + {guest}, others + {guest} + {host});
    assert |hosts + {guest}| == |hosts| + 1;
  }

  lemma {:induction false} Subset(a: set<string>, b: set<string>)
    requires a <= b
    ensures |a| <= |b|
    decreases |a|
  {
    if a != {} {
      var x :| x in a;
      Subset(a - {x}, b - {x});
    }
  }

  /** Another host's login, at whatever time, leaves the slot alone. */
  lemma NotEvicted(
      slots: Slots, r: nat, host: string, when: nat, others: set<string>, guest: string, now: nat, chosen: int)
    requires r < 10 && Distinct(slots) && when > 0 && Lasts(slots, r, host, when, others)
    requires guest != host && |others + {guest}| < Usable(slots)
    requires Chosen(slots, guest, now, chosen)
    ensures chosen != r
  {
    if (forall j :: 0 <= j < 10 ==> !Own(slots[j], guest)) && chosen == r {
      assert Candidate(slots[r], now);
      forall j | 0 <= j < 10 && Age(slots[j]).Some? ensures Age(slots[j]).value >= when {
        if Candidate(slots[j], now) { assert Older(slots, r, j); }
      }
      TooManyHosts(slots, r, host, when, others, guest);
      assert false;
    }
  }

  lemma StillLasts(
      slots: Slots, r: nat, host: string, when: nat, others: set<string>, guest: string, now: nat, chosen: nat)
    requires r < 10 && Lasts(slots, r, host, when, others) && guest != host && chosen < 10 && chosen != r
    ensures Lasts(slots[chosen := Malformed], r, host, when, others)
    ensures Lasts(slots[chosen := Taken(Login(guest, now))], r, host, when, others + {guest})
  {
  }

  /** The file holds this host's last login, and the search and within_grace_period both read it. */
  ghost predicate OnRecord(t: string, host: string, when: nat, others: set<string>)
  {
    && Distinct(SlotsOf(t)) && when > 0
    && exists r :: 0 <= r < 10 && Lasts(SlotsOf(t), r, host, when, others) && IsHost(t, host, r)
          && TimeAt(t, host, r) == when
  }

  lemma RecordIsLast(t: string, host: string, when: nat, others: set<string>)
    requires PlainHost(host) && OnRecord(t, host, when, others)
    ensures LastTime(t, host, 0) == when
  {
    hide IsHost, TimeAt, SlotAt, PlainHost, LastTime, Distinct;
    var r :| 0 <= r < 10 && Lasts(SlotsOf(t), r, host, when, others) && IsHost(t, host, r)
          && TimeAt(t, host, r) == when;
    forall j | 0 <= j < r ensures !IsHost(t, host, j) {
      assert SlotsOf(t)[j].Taken? ==> SlotsOf(t)[j].login.host != host;
      if IsHost(t, host, j) { HostIsOwn(t, host, j); }
    }
    LastTimeAt(t, host, 0, r);
  }

  // ---- one login ------------------------------------------------------------------------------

  /** A login that leaves the slots alone leaves the record. */
  lemma RecordLeft(t: string, u: string, host: string, when: nat, others: set<string>)
    requires OnRecord(t, host, when, others) && SlotsOf(u) == SlotsOf(t) && SameSlotsBut(t, u, -1)
    ensures OnRecord(u, host, when, others)
  {
    hide IsHost, TimeAt, SlotAt, Distinct, SlotsOf, SameSlotsBut;
    var r :| 0 <= r < 10 && Lasts(SlotsOf(t), r, host, when, others) && IsHost(t, host, r)
          && TimeAt(t, host, r) == when;
    SlotSame(t, u, host, r, -1);
    assert Lasts(SlotsOf(u), r, host, when, others);
  }

  /** A login that puts another host on record, or loses a slot, leaves it, too. */
  lemma RecordStays(
      t: string, u: string, host: string, when: nat, others: set<string>, guest: string, now: nat, chosen: nat,
      s: Slot)
    requires OnRecord(t, host, when, others) && guest != host && |others + {guest}| < Usable(SlotsOf(t))
    requires chosen < 10 && Chosen(SlotsOf(t), guest, now, chosen) && SameSlotsBut(t, u, chosen)
    requires SlotsOf(u) == SlotsOf(t)[chosen := s] && (s == Malformed || s == Taken(Login(guest, now)))
    ensures OnRecord(u, host, when, if s == Malformed then others else others + {guest})
  {
    hide IsHost, TimeAt, SlotAt, Distinct, SameSlotsBut, SlotsOf, Chosen, Lasts, GetCfgValue, Usable;
    var r :| 0 <= r < 10 && Lasts(SlotsOf(t), r, host, when, others) && IsHost(t, host, r)
          && TimeAt(t, host, r) == when;
    NotEvicted(SlotsOf(t), r, host, when, others, guest, now, chosen);
    StillLasts(SlotsOf(t), r, host, when, others, guest, now, chosen);
    if s == Malformed { LostDistinct(SlotsOf(t), chosen); } else { StaysDistinct(SlotsOf(t), guest, now, chosen); }
    SlotSame(t, u, host, r, chosen);
    assert Lasts(SlotsOf(u), r, host, when, if s == Malformed then others else others + {guest});
  }

  lemma LostDistinct(slots: Slots, r: nat)
    requires Distinct(slots) && r < 10
    ensures Distinct(slots[r := Malformed])
  {
  }

  /** The hosts with a slot that is not older than `now`, this one left out. */
  function NotOlder(slots: seq<Slot>, host: string, now: nat): set<string>
  {
    if slots == [] then {}
    else
      NotOlder(slots[1..], host, now)
      + if slots[0].Taken? && slots[0].login.when >= now && slots[0].login.host != host then {slots[0].login.host}
        else {}
  }

  lemma {:induction false} InNotOlder(slots: seq<Slot>, host: string, now: nat, j: nat)
    requires j < |slots| && slots[j].Taken? && slots[j].login.when >= now && slots[j].login.host != host
    ensures slots[j].login.host in NotOlder(slots, host, now)
  {
    if j > 0 { InNotOlder(slots[1..], host, now, j - 1); }
  }

  lemma {:induction false} NotInNotOlder(slots: seq<Slot>, host: string, now: nat)
    ensures host !in NotOlder(slots, host, now)
  {
    if slots != [] { NotInNotOlder(slots[1..], host, now); }
  }

  /** A host is on record from its own login on. */
  lemma RecordStarts(t: string, u: string, host: string, now: nat, chosen: nat)
    requires Distinct(SlotsOf(t)) && now > 0 && chosen < 10 && Chosen(SlotsOf(t), host, now, chosen)
    requires SlotsOf(u) == SlotsOf(t)[chosen := Taken(Login(host, now))]
    requires IsHost(u, host, chosen) && TimeAt(u, host, chosen) == now
    ensures OnRecord(u, host, now, NotOlder(SlotsOf(t), host, now))
  {
    hide IsHost, TimeAt, SlotAt, SlotsOf;
    StaysDistinct(SlotsOf(t), host, now, chosen);
    var slots, others := SlotsOf(t), NotOlder(SlotsOf(t), host, now);
    NotInNotOlder(slots, host, now);
    forall j | 0 <= j < 10 && j != chosen && slots[j].Taken?
      ensures slots[j].login.host != host && (slots[j].login.when < now || slots[j].login.host in others)
    {
      assert SlotsOf(u)[j] == slots[j];
      if slots[j].login.when >= now { InNotOlder(slots, host, now, j); }
    }
    assert Lasts(SlotsOf(u), chosen, host, now, others);
  }

  // ---- runs -----------------------------------------------------------------------------------

  /** The other hosts that a run puts on record. */
  function Visitors(otp: Coder, file: string, run: seq<Try>): set<string>
  {
    if run == [] then {}
    else
      Visitors(otp, file, Front(run))
      + Visitor(FileAfter(otp, file, Front(run)), Last(run), LastResult(otp, file, run))
  }

  function Visitor(t: string, x: Try, o: Outcome): set<string>
  {
    if Taking(t, x, o).Some? && !NewSlot(x).Malformed? && x.input.host.Some? then {x.input.host.value} else {}
  }

  /** What is put on record is read back as itself, or is malformed. */
  predicate Honest(t: string, x: Try, o: Outcome)
  {
    Taking(t, x, o).Some? && x.input.host.Some? ==>
      NewSlot(x) == Malformed || NewSlot(x) == Taken(Login(x.input.host.value, x.input.now))
  }

  /** No login of the run puts this host on record again, and all that is put there is honest. */
  predicate Others(otp: Coder, file: string, run: seq<Try>, host: string)
  {
    run != [] ==>
      && Others(otp, file, Front(run), host)
      && var t, x, o := FileAfter(otp, file, Front(run)), Last(run), LastResult(otp, file, run);
         Honest(t, x, o) && !(Taking(t, x, o).Some? && x.input.host == Some(host))
  }

  /** One login more. */
  lemma RecordStep(otp: Coder, file: string, run: seq<Try>, host: string, when: nat, before: set<string>)
    requires run != [] && Tidy(file) && SaneRun(otp, file, run) && Others(otp, file, run, host)
    requires OnRecord(FileAfter(otp, file, Front(run)), host, when, before + Visitors(otp, file, Front(run)))
    requires |before + Visitors(otp, file, run)| + Lost(otp, file, run) < Usable(SlotsOf(file))
    ensures OnRecord(FileAfter(otp, file, run), host, when, before + Visitors(otp, file, run))
  {
    hide Tidy, FileAfter, OnRecord, SlotsOf, LastResult, Sane, Usable, Chosen, Taking, NewSlot, SameSlotsBut, Next,
         Result, Loses;
    var t, u := FileAfter(otp, file, Front(run)), FileAfter(otp, file, run);
    var x, o := Last(run), LastResult(otp, file, run);
    var others := before + Visitors(otp, file, Front(run));
    StaysTidy(otp, file, Front(run));
    FileStep(otp, file, run);
    LoginTakes(otp, t, x);
    UsableAndLost(otp, file, Front(run));
    match Taking(t, x, o)
    case None =>
      assert before + Visitors(otp, file, run) == others;
      RecordLeft(t, u, host, when, others);
    case Some(r) =>
      TakingHost(t, x, o);
      var guest := x.input.host.value;
      LosesIs(t, x, o);
      OneMore(others, guest);
      assert before + Visitors(otp, file, run) == if NewSlot(x).Malformed? then others else others + {guest};
      RecordStays(t, u, host, when, others, guest, x.input.now, r, NewSlot(x));
  }

  lemma TakingHost(t: string, x: Try, o: Outcome)
    requires Taking(t, x, o).Some?
    ensures x.input.host.Some?
  {
    hide FindSlot, Records;
  }

  lemma LosesIs(t: string, x: Try, o: Outcome)
    ensures Loses(t, x, o) <==> Taking(t, x, o).Some? && NewSlot(x).Malformed?
  {
    hide Taking, NewSlot;
  }

  lemma OneMore(others: set<string>, guest: string)
    ensures |others| <= |others + {guest}| <= |others| + 1
  {
    if guest in others { assert others + {guest} == others; }
  }

  /** A host on record stays there, with its time, through any run in which the other hosts put on
      record and the slots that are lost are together fewer than the usable slots (ten in a new file).
      The clock may do what it likes. */
  lemma {:induction false} HostStays(
      otp: Coder, file: string, run: seq<Try>, host: string, when: nat, before: set<string>)
    requires Tidy(file) && SaneRun(otp, file, run) && PlainHost(host) && OnRecord(file, host, when, before)
    requires Others(otp, file, run, host)
    requires |before + Visitors(otp, file, run)| + Lost(otp, file, run) < Usable(SlotsOf(file))
    ensures OnRecord(FileAfter(otp, file, run), host, when, before + Visitors(otp, file, run))
    ensures LastTime(FileAfter(otp, file, run), host, 0) == when
  {
    hide Tidy, FileAfter, OnRecord, SlotsOf, LastResult, Sane, PlainHost, Usable, LastTime, Visitor, Loses, Honest,
         Taking;
    if run == [] {
      NothingYet(otp, file);
      assert before + Visitors(otp, file, run) == before;
    } else {
      Subset(before + Visitors(otp, file, Front(run)), before + Visitors(otp, file, run));
      HostStays(otp, file, Front(run), host, when, before);
      RecordStep(otp, file, run, host, when, before);
    }
    RecordIsLast(FileAfter(otp, file, run), host, when, before + Visitors(otp, file, run));
  }

  /** So the next login from it is within the grace period exactly while that lasts, counted from
      its last login by a code. */
  lemma GraceLasts(
      otp: Coder, file: string, run: seq<Try>, host: string, when: nat, before: set<string>, p: Params, next: Input)
    requires Tidy(file) && SaneRun(otp, file, run) && PlainHost(host) && OnRecord(file, host, when, before)
    requires Others(otp, file, run, host)
    requires |before + Visitors(otp, file, run)| + Lost(otp, file, run) < Usable(SlotsOf(file))
    requires next.host == Some(host) && next.now < TWO32
    ensures Authenticate(p, next, otp, FileAfter(otp, file, run)).grace <==> when + p.gracePeriod > next.now
  {
    hide *;
    HostStays(otp, file, run, host, when, before);
    StaysTidy(otp, file, run);
    WhenPositive(file, host, when, before);
    GraceNext(p, next, otp, FileAfter(otp, file, run), host);
  }

  lemma WhenPositive(t: string, host: string, when: nat, others: set<string>)
    requires OnRecord(t, host, when, others)
    ensures when > 0
  {
    hide SlotsOf, Distinct, IsHost, TimeAt;
  }

  /** Where it starts: a login that puts its host into a slot. The other hosts to count with are those
      whose slots are not older. */
  lemma LoginStartsRecord(p: Params, i: Input, otp: Coder, file: string, host: string)
    requires Tidy(file) && Sane(i, file) && i.host == Some(host) && PlainHost(host) && i.now > 0
    requires Records(p, i, Authenticate(p, i, otp, file)) && FindSlot(file, host, 0, i.now, -1) >= 0
    requires Distinct(SlotsOf(file))
    ensures OnRecord(NewFile(Authenticate(p, i, otp, file), file), host, i.now,
                     NotOlder(SlotsOf(file), host, i.now))
  {
    hide *;
    PlainIsStored(host, i.now, i, file);
    LoginRecorded(p, i, otp, file, host);
    PlainIsWord(host);
    RecordStarts(file, NewFile(Authenticate(p, i, otp, file), file), host, i.now,
                 FindSlot(file, host, 0, i.now, -1));
  }

  lemma PlainIsStored(host: string, now: nat, i: Input, t: string)
    requires PlainHost(host) && Sane(i, t) && now == i.now
    ensures Roomy(host) && Stored(host, now) == now && ReadBack(host, now) == Taken(Login(host, now))
  {
    hide Checks.NoOverflow, Fits, Stored, Roomy, PlainHost, ReadBack;
    LastLogins.PlainFits(host, now);
    StoredIs(host, now);
    PlainReadsBack(host, now);
  }

  /** Hosts that fit the pattern are honest. */
  lemma PlainIsHonest(otp: Coder, t: string, x: Try)
    requires Sane(x.input, t) && (x.input.host.Some? ==> PlainHost(x.input.host.value))
    ensures Honest(t, x, Result(otp, t, x))
    ensures !Loses(t, x, Result(otp, t, x))
  {
    hide Records, FindSlot, ReadBack, PlainHost, Checks.NoOverflow, Result, All;
    if x.input.host.Some? { PlainIsStored(x.input.host.value, x.input.now, x.input, t); }
  }
}

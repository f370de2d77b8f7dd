/** rate_limit: the RATE_LIMIT option holds the limits and the times of recent attempts. */
module RateLimit {
  import opened CText
  import opened StateText
  import opened StateInvariant
  import opened StateFile

  const KEY := "RATE_LIMIT"

  datatype Limits = Limits(attempts: nat, interval: nat, stamps: seq<nat>)

  predicate Blanked(s: string) { s != "" && IsBlank(s[0]) }

  // ---- reading and writing the option -------------------------------------------------------

  function ParseStamps(s: string): (r: Option<seq<nat>>)
    ensures r.Some? ==> forall i :: 0 <= i < |r.value| ==> r.value[i] < TWO32
    decreases |s|
  {
    if s == "" || IsEol(s[0]) then Some([])
    else
      var n := Strtoul(s);
      if !Blanked(s) || n.erange || n.end == 0 then None
      else
        match ParseStamps(s[n.end..])
        case None => None
        case Some(rest) => Some([ToUInt32(n.value)] + rest)
  }

  function ParseLimits(v: string): (r: Option<Limits>)
    ensures r.Some? ==> ValidLimits(r.value)
  {
    var n := Strtoul(v);
    var attempts := ToInt32(n.value);
    var rest := v[n.end..];
    if attempts < 1 || n.end == 0 || attempts > 100 || n.erange || !Blanked(rest) then None
    else
      var m := Strtoul(rest);
      var interval := ToInt32(m.value);
      if interval < 1 || m.end == 0 || interval > 3600 || m.erange then None
      else
        match ParseStamps(rest[m.end..])
        case None => None
        case Some(stamps) => Some(Limits(attempts, interval, stamps))
  }

  function PrintStamps(stamps: seq<nat>): string
  {
    if stamps == [] then "" else " " + Dec(stamps[0]) + PrintStamps(stamps[1..])
  }

  function PrintLimits(l: Limits): string
  {
    DecInt(l.attempts) + " " + DecInt(l.interval) + PrintStamps(l.stamps)
  }

  predicate ValidLimits(l: Limits)
  {
    && 1 <= l.attempts <= 100 && 1 <= l.interval <= 3600
    && forall i :: 0 <= i < |l.stamps| ==> l.stamps[i] < TWO32
  }

  lemma {:induction false} StampsReadBack(stamps: seq<nat>)
    requires forall i :: 0 <= i < |stamps| ==> stamps[i] < TWO32
    ensures ParseStamps(PrintStamps(stamps)) == Some(stamps)
    ensures PrintStamps(stamps) != "" ==> PrintStamps(stamps)[0] == ' '
    ensures All(NotEol, PrintStamps(stamps))
  {
    hide Strtoul, Dec, In, IsBlank, IsDigit;
    OneBlank();
    if stamps != [] {
      var rest := PrintStamps(stamps[1..]);
      var head := " " + Dec(stamps[0]);
      StampsReadBack(stamps[1..]);
      DecNotEol(stamps[0]);
      ReadUnsigned(" ", stamps[0], rest);
      assert PrintStamps(stamps) == head + rest;
      assert PrintStamps(stamps)[|head|..] == rest;
      AllConcat(NotEol, head, rest);
      assert (head + rest)[0] == ' ';
      assert [stamps[0]] + stamps[1..] == stamps;
      assert ParseStamps(head + rest) == Some([stamps[0]] + stamps[1..]);
    }
  }

  lemma DecNotEol(n: nat)
    ensures All(NotEol, " " + Dec(n)) && All(NotEol, Dec(n))
  {
    hide Dec;
    assert All(Digit, Dec(n));
  }

  lemma DecIntNotEol(n: int)
    ensures All(NotEol, DecInt(n)) && !IsBlank(DecInt(n)[0])
  {
    hide Dec;
  }

  /** What is written reads back. */
  lemma LimitsReadBack(l: Limits)
    requires ValidLimits(l)
    ensures ParseLimits(PrintLimits(l)) == Some(l)
    ensures ValidValue(PrintLimits(l)) && Strip(PrintLimits(l)) == PrintLimits(l)
  {
    hide Strtoul, Dec, In, ParseStamps, PrintStamps, Span, DecInt, IsBlank, IsDigit, IsEol;
    var tail := PrintStamps(l.stamps);
    StampsReadBack(l.stamps);
    OneBlank();
    var a, i := DecInt(l.attempts), DecInt(l.interval);
    var rest := " " + i + tail;
    DecIntNotEol(l.attempts);
    DecIntNotEol(l.interval);
    assert PrintLimits(l) == a + rest;
    assert Span(Blank, a + rest) == 0 by { AtBlank(a + rest); }
    AllConcat(NotEol, a, " ");
    AllConcat(NotEol, a + " ", i);
    AllConcat(NotEol, a + " " + i, tail);
    ReadInt("", l.attempts, rest);
    assert "" + a + rest == a + rest;
    ReadInt(" ", l.interval, tail);
    assert (a + rest)[|a|..] == rest;
    assert rest[|" " + i|..] == tail;
  }

  lemma AtBlank(s: string)
    requires s != "" && !IsBlank(s[0])
    ensures Span(Blank, s) == 0
  {
  }

  // ---- sorting and pruning ------------------------------------------------------------------

  predicate Sorted(s: seq<nat>) { forall i, j :: 0 <= i < j < |s| ==> s[i] <= s[j] }

  /** The module's comparator: the difference of two unsigned ints, as an int. */
  function Compare(a: nat, b: nat): int { ToInt32(a - b) }

  /** It orders two times exactly if they are less than 2^31 apart (or that far, with the earlier one
      first). */
  lemma CompareIff(a: nat, b: nat)
    requires a < TWO32 && b < TWO32
    ensures ((Compare(a, b) < 0 <==> a < b) && (Compare(a, b) == 0 <==> a == b)) <==> -TWO31 <= a - b < TWO31
  {
  }

  /** qsort with this comparator, for times it orders. */
  function Sort(s: seq<nat>): seq<nat>
  {
    if s == [] then [] else Insert(s[0], Sort(s[1..]))
  }

  function Insert(x: nat, s: seq<nat>): seq<nat>
  {
    if s == [] || x < s[0] then [x] + s else [s[0]] + Insert(x, s[1..])
  }

  /** The times within [lower, now]. */
  function Window(s: seq<nat>, lower: nat, now: nat): seq<nat>
  {
    if s == [] then []
    else (if lower <= s[0] <= now then [s[0]] else []) + Window(s[1..], lower, now)
  }

  function Newest(k: nat, s: seq<nat>): seq<nat>
  {
    if |s| > k then s[|s| - k..] else s
  }

  datatype Decision = Unlimited | Invalid | Admitted | Exceeded

  /** The times in the window that ends now, this attempt included. */
  function Recent(l: Limits, now: nat): seq<nat>
  {
    Window(Sort([now] + l.stamps), ToUInt32(now - l.interval), now)
  }

  /** rate_limit: the decision and the file it leaves. */
  function Check(t: string, now: nat): (Decision, string)
  {
    match GetCfgValue(t, KEY)
    case None => (Unlimited, t)
    case Some(v) =>
      match ParseLimits(v)
      case None => (Invalid, t)
      case Some(l) =>
        var recent := Recent(l, now);
        var kept := l.(stamps := Newest(l.attempts, recent));
        (if |recent| > l.attempts then Exceeded else Admitted, SetCfgValue(t, KEY, PrintLimits(kept)))
  }

  // ---- the pruned list stands for the whole history -----------------------------------------

  lemma {:induction false} InsertLast(x: nat, s: seq<nat>)
    requires forall i :: 0 <= i < |s| ==> s[i] <= x
    ensures Insert(x, s) == s + [x]
  {
    if s != [] { InsertLast(x, s[1..]); }
  }

  lemma {:induction false} SortSorted(s: seq<nat>)
    requires Sorted(s)
    ensures Sort(s) == s
  {
    if s != [] {
      SortSorted(s[1..]);
      InsertFirst(s[0], s[1..]);
    }
  }

  lemma {:induction false} InsertFirst(x: nat, s: seq<nat>)
    requires Sorted(s) && (s != [] ==> x <= s[0])
    ensures Insert(x, s) == [x] + s
  {
    if s != [] && x == s[0] { InsertFirst(x, s[1..]); }
  }

  /** How many times of a sorted list lie before `lower`. */
  function Before(h: seq<nat>, lower: nat): (p: nat)
    ensures p <= |h|
    ensures Sorted(h) ==> forall i :: 0 <= i < |h| ==> (h[i] < lower <==> i < p)
  {
    if h == [] || h[0] >= lower then 0 else 1 + Before(h[1..], lower)
  }

  lemma {:induction false} WindowIsSuffix(h: seq<nat>, lower: nat, now: nat)
    requires Sorted(h) && forall i :: 0 <= i < |h| ==> h[i] <= now
    ensures Window(h, lower, now) == h[Before(h, lower)..]
  {
    if h != [] {
      WindowIsSuffix(h[1..], lower, now);
      assert h[0] >= lower ==> Before(h[1..], lower) == 0;
    }
  }

  /** The list is the end of the history, and what it lacks cannot matter: either the list is
      full, or all that is missing is older than the interval. */
  predicate Keeps(stamps: seq<nat>, hist: seq<nat>, attempts: nat, interval: nat)
  {
    && |stamps| <= |hist|
    && stamps == hist[|hist| - |stamps|..]
    && (|stamps| >= attempts ||
        forall j :: 0 <= j < |hist| - |stamps| ==> hist[j] + interval < hist[|hist| - 1])
  }

  /** The attempts within the interval that ends now. */
  function InInterval(hist: seq<nat>, interval: nat, now: nat): seq<nat>
    requires interval <= now
  {
    Window(hist, now - interval, now)
  }

  /** Both windows are ends of the history with this call added. */
  lemma RecentIsSuffix(l: Limits, hist: seq<nat>, now: nat)
    requires ValidLimits(l) && |l.stamps| <= |hist| && l.stamps == hist[|hist| - |l.stamps|..]
    requires Sorted(hist + [now]) && l.interval <= now < TWO32
    ensures var all := hist + [now]; var p := Before(all, now - l.interval); var k := |hist| - |l.stamps|;
            && InInterval(all, l.interval, now) == all[p..]
            && Recent(l, now) == all[if p > k then p else k..]
  {
    hide Sorted, Window, Sort, Before;
    var all := hist + [now];
    var lower := now - l.interval;
    var k := |hist| - |l.stamps|;
    var s := all[k..];
    assert s == l.stamps + [now];
    SortedTail(hist, k, now);
    SortNow(l.stamps, now);
    WindowIsSuffix(s, lower, now);
    WindowIsSuffix(all, lower, now);
    BeforeSuffix(all, k, lower);
  }

  /** One call: with the list that stands for the history, rate_limit decides as if it had the
      whole history, and the list it writes stands for the history with this call added. */
  lemma PrunedDecides(l: Limits, hist: seq<nat>, now: nat)
    requires ValidLimits(l) && Keeps(l.stamps, hist, l.attempts, l.interval)
    requires Sorted(hist + [now]) && l.interval <= now < TWO32
    ensures |Recent(l, now)| > l.attempts <==> |InInterval(hist + [now], l.interval, now)| > l.attempts
    ensures Keeps(Newest(l.attempts, Recent(l, now)), hist + [now], l.attempts, l.interval)
  {
    hide Sorted, Recent, InInterval, Before, Newest, Keeps, ValidLimits;
    var all := hist + [now];
    var k := |hist| - |l.stamps|;
    var p := Before(all, now - l.interval);
    KeepsIs(l, hist);
    RecentIsSuffix(l, hist, now);
    BeforeIs(all, now - l.interval);
    assert all[|hist|] == now;
    if p < k {
      ListIsFull(l, hist, now, p);
      NewestKeeps(all, k, l.attempts, l.interval);
    } else {
      NewestKeeps(all, p, l.attempts, l.interval);
    }
  }

  lemma KeepsIs(l: Limits, hist: seq<nat>)
    requires Keeps(l.stamps, hist, l.attempts, l.interval)
    ensures |l.stamps| <= |hist| && l.stamps == hist[|hist| - |l.stamps|..]
  {
  }

  /** A time in the window that the list lacks means that the list is full. */
  lemma ListIsFull(l: Limits, hist: seq<nat>, now: nat, p: nat)
    requires Keeps(l.stamps, hist, l.attempts, l.interval) && Sorted(hist + [now])
    requires p < |hist| - |l.stamps| && l.interval <= now && (hist + [now])[p] >= now - l.interval
    ensures |l.stamps| >= l.attempts
  {
    hide Sorted;
    SortedAt(hist + [now], |hist| - 1, |hist|);
    assert hist[p] == (hist + [now])[p] && hist[|hist| - 1] == (hist + [now])[|hist| - 1];
  }

  lemma NewestKeeps(all: seq<nat>, m: nat, attempts: nat, interval: nat)
    requires m < |all|
    requires |all| - m > attempts || forall j :: 0 <= j < m ==> all[j] + interval < all[|all| - 1]
    ensures Keeps(Newest(attempts, all[m..]), all, attempts, interval)
  {
  }

  lemma BeforeIs(h: seq<nat>, lower: nat)
    requires Sorted(h)
    ensures forall i :: 0 <= i < |h| ==> (h[i] < lower <==> i < Before(h, lower))
  {
  }

  lemma SortedAt(h: seq<nat>, i: nat, j: nat)
    requires Sorted(h) && i < j < |h|
    ensures h[i] <= h[j]
  {
  }

  lemma SortNow(s: seq<nat>, now: nat)
    requires Sorted(s + [now])
    ensures Sort([now] + s) == s + [now]
  {
    hide Sort, Insert;
    SortedFront(s, now);
    SortSorted(s);
    InsertLast(now, s);
    SortFirst(now, s);
  }

  lemma SortFirst(x: nat, s: seq<nat>)
    ensures Sort([x] + s) == Insert(x, Sort(s))
  {
    hide Insert;
    assert ([x] + s)[1..] == s;
  }

  lemma SortedFront(s: seq<nat>, now: nat)
    requires Sorted(s + [now])
    ensures Sorted(s) && forall i :: 0 <= i < |s| ==> s[i] <= now
  {
    var t := s + [now];
    assert t[|s|] == now && forall i :: 0 <= i < |s| ==> t[i] == s[i];
  }

  lemma SortedTail(hist: seq<nat>, k: nat, now: nat)
    requires k <= |hist| && Sorted(hist + [now])
    ensures Sorted((hist + [now])[k..])
    ensures forall i :: 0 <= i < |hist + [now]| ==> (hist + [now])[i] <= now
    ensures forall i :: 0 <= i < |(hist + [now])[k..]| ==> (hist + [now])[k..][i] <= now
  {
    var all := hist + [now];
    assert all[|hist|] == now;
  }

  lemma BeforeSuffix(h: seq<nat>, k: nat, lower: nat)
    requires k <= |h| && Sorted(h) && Sorted(h[k..])
    ensures Before(h[k..], lower) == if Before(h, lower) > k then Before(h, lower) - k else 0
    ensures forall i :: 0 <= i < |h| ==> (h[i] < lower <==> i < Before(h, lower))
  {
    var s := h[k..];
    var p, q := Before(h, lower), Before(s, lower);
    var r := if p > k then p - k else 0;
    assert q < |s| ==> s[q] == h[k + q];
    assert r < |s| ==> s[r] == h[k + r];
  }

  // ---- whole runs ---------------------------------------------------------------------------

  /** The limits of a file whose list of times stands for a history of calls. */
  predicate Tracks(t: string, attempts: nat, interval: nat, hist: seq<nat>)
  {
    match GetCfgValue(t, KEY)
    case None => false
    case Some(v) =>
      var l := ParseLimits(v);
      && l.Some? && l.value.attempts == attempts && l.value.interval == interval
      && Keeps(l.value.stamps, hist, attempts, interval)
  }

  /** The verdict on the last call of a history, by the whole history: at most N calls, this one
      and the rejected ones included, within the last M seconds. */
  predicate Allowed(hist: seq<nat>, attempts: nat, interval: nat)
  {
    hist != [] && interval <= hist[|hist| - 1]
    && |InInterval(hist, interval, hist[|hist| - 1])| <= attempts
  }

  lemma KeyValid()
    ensures ValidKey(KEY)
  {
  }

  /** One call on the file itself. */
  lemma CheckTracks(t: string, attempts: nat, interval: nat, hist: seq<nat>, now: nat)
    requires Tidy(t) && Tracks(t, attempts, interval, hist)
    requires Sorted(hist + [now]) && interval <= now < TWO32
    ensures var (d, u) := Check(t, now);
            && d == (if Allowed(hist + [now], attempts, interval) then Admitted else Exceeded)
            && SameBut(t, u, {KEY}) && Tracks(u, attempts, interval, hist + [now])
  {
    hide GetCfgValue, Keeps, Newest, InInterval, Recent, Sorted, SetCfgValue, PrintLimits, ParseLimits, SameBut, Tidy,
         Strip;
    var v := GetCfgValue(t, KEY).value;
    var l := ParseLimits(v).value;
    var recent := Recent(l, now);
    PrunedDecides(l, hist, now);
    KeyValid();
    var kept := l.(stamps := Newest(l.attempts, recent));
    RecentValid(l, now);
    LimitsReadBack(kept);
    SetKeeps(t, KEY, PrintLimits(kept));
    assert (hist + [now])[|hist|] == now;
  }

  lemma RecentValid(l: Limits, now: nat)
    requires ValidLimits(l) && now < TWO32
    ensures ValidLimits(l.(stamps := Newest(l.attempts, Recent(l, now))))
  {
    hide Window, Sort, ToUInt32;
    var r := Recent(l, now);
    WindowBounded(Sort([now] + l.stamps), ToUInt32(now - l.interval), now);
    NewestIn(l.attempts, r);
  }

  lemma NewestIn(k: nat, s: seq<nat>)
    ensures forall i :: 0 <= i < |Newest(k, s)| ==> Newest(k, s)[i] in s
  {
  }

  lemma {:induction false} WindowBounded(s: seq<nat>, lower: nat, now: nat)
    ensures forall x :: x in Window(s, lower, now) ==> lower <= x <= now
  {
    if s != [] { WindowBounded(s[1..], lower, now); }
  }

  datatype Call = Call(time: nat, admitted: bool)

  function Times(run: seq<Call>): (h: seq<nat>)
    ensures |h| == |run| && forall i :: 0 <= i < |run| ==> h[i] == run[i].time
  {
    if run == [] then [] else Times(run[..|run| - 1]) + [run[|run| - 1].time]
  }

  /** How many admitted calls of a run fall in [x, y]. */
  function AdmittedIn(run: seq<Call>, x: nat, y: nat): nat
  {
    if run == [] then 0
    else
      var c := run[|run| - 1];
      AdmittedIn(run[..|run| - 1], x, y) + if c.admitted && x <= c.time <= y then 1 else 0
  }

  /** A run in which every call was decided by the whole history up to it; some of that may have
      been there before the run. */
  predicate Decided(prior: seq<nat>, run: seq<Call>, attempts: nat, interval: nat)
  {
    && Sorted(prior + Times(run))
    && (run != [] ==>
          var c := run[|run| - 1];
          && Decided(prior, run[..|run| - 1], attempts, interval)
          && c.time >= interval && (c.admitted <==> Allowed(prior + Times(run), attempts, interval)))
  }

  lemma {:induction false} WindowConcat(a: seq<nat>, b: seq<nat>, lower: nat, now: nat)
    ensures Window(a + b, lower, now) == Window(a, lower, now) + Window(b, lower, now)
  {
    hide Window;
    if a == [] {
      assert a + b == b;
      assert Window([], lower, now) == [] by { WindowNone([], lower, now); }
    } else {
      var rest := a[1..];
      WindowStep(a[0], rest, lower, now);
      WindowStep(a[0], rest + b, lower, now);
      WindowConcat(rest, b, lower, now);
      assert a == [a[0]] + rest && a + b == [a[0]] + (rest + b);
    }
  }

  lemma WindowStep(x: nat, s: seq<nat>, lower: nat, now: nat)
    ensures Window([x] + s, lower, now) == (if lower <= x <= now then [x] else []) + Window(s, lower, now)
  {
    assert ([x] + s)[1..] == s;
  }

  lemma {:induction false} AdmittedAtMost(run: seq<Call>, x: nat, y: nat, lower: nat, now: nat)
    requires lower <= x && forall i :: 0 <= i < |run| ==> run[i].time <= now
    ensures AdmittedIn(run, x, y) <= |Window(Times(run), lower, now)|
  {
    if run != [] {
      var last := run[|run| - 1];
      AdmittedAtMost(run[..|run| - 1], x, y, lower, now);
      WindowConcat(Times(run[..|run| - 1]), [last.time], lower, now);
      assert [last.time][1..] == [];
    }
  }

  /** Rate limiting keeps its promise: no window as long as the interval, wherever it starts,
      holds more admitted calls than the limit. */
  lemma {:induction false} NeverMoreThanTheLimit(prior: seq<nat>, run: seq<Call>, attempts: nat, interval: nat, x: nat)
    requires Decided(prior, run, attempts, interval)
    ensures AdmittedIn(run, x, x + interval) <= attempts
  {
    hide Sorted, Window;
    if run != [] {
      var n := |run| - 1;
      var c := run[n];
      var all := prior + Times(run);
      if c.admitted && x <= c.time <= x + interval {
        SortedLast(all);
        assert all[|all| - 1] == c.time;
        forall i | 0 <= i < |run| ensures run[i].time <= c.time { assert all[|prior| + i] == run[i].time; }
        AdmittedAtMost(run, x, x + interval, c.time - interval, c.time);
        WindowConcat(prior, Times(run), c.time - interval, c.time);
      } else {
        NeverMoreThanTheLimit(prior, run[..n], attempts, interval, x);
      }
    }
  }

  lemma SortedLast(h: seq<nat>)
    requires Sorted(h)
    ensures forall i :: 0 <= i < |h| ==> h[i] <= h[|h| - 1]
  {
  }

  // ---- the procedure ------------------------------------------------------------------------

  lemma WindowIs(s: seq<nat>, lower: nat, now: nat, a: nat, b: nat)
    requires a <= b <= |s|
    requires forall i :: 0 <= i < |s| ==> (lower <= s[i] <= now <==> a <= i < b)
    ensures Window(s, lower, now) == s[a..b]
  {
    hide Window;
    var x, y, z := s[..a], s[a..b], s[b..];
    assert s == x + y + z;
    forall i | 0 <= i < |y| ensures lower <= y[i] <= now { assert y[i] == s[a + i]; }
    forall i | 0 <= i < |z| ensures !(lower <= z[i] <= now) { assert z[i] == s[b + i]; }
    WindowConcat(x + y, z, lower, now);
    WindowConcat(x, y, lower, now);
    WindowNone(x, lower, now);
    WindowAll(y, lower, now);
    WindowNone(z, lower, now);
  }

  lemma {:induction false} WindowNone(s: seq<nat>, lower: nat, now: nat)
    requires forall i :: 0 <= i < |s| ==> !(lower <= s[i] <= now)
    ensures Window(s, lower, now) == []
  {
    if s != [] { WindowNone(s[1..], lower, now); }
  }

  lemma {:induction false} WindowAll(s: seq<nat>, lower: nat, now: nat)
    requires forall i :: 0 <= i < |s| ==> lower <= s[i] <= now
    ensures Window(s, lower, now) == s
  {
    if s != [] { WindowAll(s[1..], lower, now); }
  }

  /** The loop over the sorted times, and the cut to the newest ones. */
  method Prune(stamps: seq<nat>, lower: nat, now: nat, attempts: nat)
    returns (start: int, stop: int, exceeded: bool)
    requires Sorted(stamps) && attempts > 0
    ensures 0 <= start <= stop + 1 <= |stamps|
    ensures exceeded <==> |Window(stamps, lower, now)| > attempts
    ensures stamps[start..stop + 1] == Newest(attempts, Window(stamps, lower, now))
  {
    start, stop := 0, -1;
    var i := 0;
    while i < |stamps|
      invariant 0 <= start <= i <= |stamps| && stop == i - 1
      invariant forall j :: 0 <= j < start ==> stamps[j] < lower
      invariant forall j :: start <= j < i ==> lower <= stamps[j] <= now
    {
      if stamps[i] < lower {
        start := i + 1;
      } else if stamps[i] > now {
        break;
      }
      stop := i;
      i := i + 1;
    }
    WindowIs(stamps, lower, now, start, stop + 1);
    exceeded := stop - start + 1 > attempts;
    if exceeded {
      start := stop - attempts + 1;
    }
  }

  lemma {:induction false} StampsNulFree(stamps: seq<nat>)
    ensures NulFree(PrintStamps(stamps))
  {
    hide Dec;
    if stamps != [] { StampsNulFree(stamps[1..]); }
  }

  lemma LimitsNulFree(l: Limits)
    ensures NulFree(KEY) && NulFree(PrintLimits(l))
  {
    hide Dec, DecInt;
    StampsNulFree(l.stamps);
  }

  /** The list of times as the parsing loop builds it, the time of this attempt first. */
  method ReadStamps(text: string, now: nat) returns (stamps: Option<seq<nat>>)
    ensures stamps == match ParseStamps(text) case None => None case Some(l) => Some([now] + l)
  {
    hide Strtoul, ToUInt32;
    var s := text;
    var list := [now];
    while s != "" && !IsEol(s[0])
      invariant match ParseStamps(text)
                case None => ParseStamps(s).None?
                case Some(l) => ParseStamps(s).Some? && [now] + l == list + ParseStamps(s).value
      decreases |s|
    {
      var n := Strtoul(s);
      if !Blanked(s) || n.erange || n.end == 0 { return None; }
      list := list + [ToUInt32(n.value)];
      s := s[n.end..];
    }
    assert list + [] == list;
    stamps := Some(list);
  }

  /** The option's new text: the limits, then every time that is kept. */
  method WriteLimits(l: Limits) returns (list: string)
    ensures list == PrintLimits(l)
  {
    hide DecInt, Dec;
    list := DecInt(l.attempts) + " " + DecInt(l.interval);
    var i := 0;
    assert l.stamps[0..] == l.stamps;
    while i < |l.stamps|
      invariant 0 <= i <= |l.stamps|
      invariant list + PrintStamps(l.stamps[i..]) == PrintLimits(l)
    {
      assert l.stamps[i..][1..] == l.stamps[i + 1..];
      list := list + (" " + Dec(l.stamps[i]));
      i := i + 1;
    }
  }

  /** rate_limit. */
  method RateLimit(b: Buffer, now: nat) returns (decision: Decision)
    requires b.Valid() && now < TWO32
    modifies b, b.buf
    ensures b.Valid() && (b.buf == old(b.buf) || fresh(b.buf))
    ensures (decision, b.text) == Check(old(b.text), now)
  {
    hide Strtoul, ParseStamps, StateText.GetCfgValue, StateText.SetCfgValue, Sort, Window, Sorted, PrintLimits,
         NulFree, ToInt32;
    LimitsNulFree(Limits(0, 0, []));
    var value := b.GetCfgValue(KEY);
    if value.None? { return Unlimited; }
    var n := Strtoul(value.value);
    var attempts := ToInt32(n.value);
    var rest := value.value[n.end..];
    if attempts < 1 || n.end == 0 || attempts > 100 || n.erange || !Blanked(rest) { return Invalid; }
    var m := Strtoul(rest);
    var interval := ToInt32(m.value);
    if interval < 1 || m.end == 0 || interval > 3600 || m.erange { return Invalid; }
    var timestamps := ReadStamps(rest[m.end..], now);
    if timestamps.None? { return Invalid; }
    ghost var l := ParseLimits(value.value).value;
    assert timestamps.value == [now] + l.stamps;
    var sorted := Sort(timestamps.value);
    SortSorts(timestamps.value);
    var start, stop, exceeded := Prune(sorted, ToUInt32(now - interval), now, attempts);
    var kept := Limits(attempts, interval, sorted[start..stop + 1]);
    var list := WriteLimits(kept);
    LimitsNulFree(kept);
    b.SetCfgValue(KEY, list);
    decision := if exceeded then Exceeded else Admitted;
  }

  lemma {:induction false} SortSorts(s: seq<nat>)
    ensures Sorted(Sort(s)) && multiset(Sort(s)) == multiset(s)
  {
    if s != [] {
      hide Sorted, Insert;
      SortSorts(s[1..]);
      InsertAdds(s[0], Sort(s[1..]));
      InsertSorted(s[0], Sort(s[1..]));
      assert s == [s[0]] + s[1..];
    }
  }

  lemma {:induction false} InsertAdds(x: nat, s: seq<nat>)
    ensures multiset(Insert(x, s)) == multiset(s) + multiset{x}
  {
    if s != [] {
      InsertAdds(x, s[1..]);
      assert s == [s[0]] + s[1..];
    }
  }

  lemma {:induction false} InsertSorted(x: nat, s: seq<nat>)
    requires Sorted(s)
    ensures Sorted(Insert(x, s))
  {
    if s != [] && x >= s[0] {
      var rest := s[1..];
      InsertSorted(x, rest);
      InsertAdds(x, rest);
      var r := Insert(x, rest);
      forall i | 0 <= i < |r| ensures s[0] <= r[i]
      {
        assert r[i] in multiset(r);
        assert r[i] == x || r[i] in multiset(rest);
      }
      SortedCons(s[0], r);
    }
  }

  lemma SortedCons(x: nat, s: seq<nat>)
    requires Sorted(s) && forall i :: 0 <= i < |s| ==> x <= s[i]
    ensures Sorted([x] + s)
  {
  }
}

/** The procedures of a login as they work on the file in memory: each leaves the buffer, and
    answers, as the corresponding function on the text says. */
module Procedures {
  import opened CText
  import opened StateFile
  import opened Options
  import opened Checks
  import Reuse
  import TimeSkewReset

  // ---- options --------------------------------------------------------------------------------

  /** The part window_size and step_size share: their option's number, or the default. */
  method NumberOption(b: Buffer, key: string, low: int, high: int, byDefault: int) returns (n: int)
    requires b.Valid() && NulFree(key)
    ensures n == match StateText.GetCfgValue(b.text, key) case None => byDefault case Some(v) => InRange(v, low, high)
  {
    hide StateText.GetCfgValue, Holds, Strtoul;
    var value := b.GetCfgValue(key);
    if value.None? { return byDefault; }
    var v := value.value;
    var r := Strtoul(v);
    n := ToInt32(r.value);
    if r.erange || r.end == 0 || (r.end < |v| && !In(v[r.end], White)) || n < low || n > high { n := 0; }
  }

  /** strstr */
  method Occurs(b: Buffer, part: string) returns (found: bool)
    requires b.Valid() && NulFree(part)
    ensures found <==> Contains(b.text, part)
  {
    hide Holds, NulFree;
    var n := b.LengthAt(0);
    var i := 0;
    while i + |part| <= n
      invariant forall j :: 0 <= j < i && j + |part| <= |b.text| ==> !StartsWith(b.text[j..], part)
    {
      var here := OccursAt(b, i, part);
      if here { return true; }
      i := i + 1;
    }
    return false;
  }

  method OccursAt(b: Buffer, at: nat, part: string) returns (here: bool)
    requires b.Valid() && at + |part| <= |b.text|
    ensures here <==> StartsWith(b.text[at..], part)
  {
    hide Holds, NulFree;
    var k := 0;
    while k < |part|
      invariant k <= |part| && forall j :: 0 <= j < k ==> b.text[at + j] == part[j]
    {
      var c := b.CharAt(at + k);
      if c != part[k] {
        assert b.text[at..][k] != part[k];
        return false;
      }
      k := k + 1;
    }
    assert forall j :: 0 <= j < |part| ==> b.text[at..][j] == part[j];
    return true;
  }

  // ---- invalidate_timebased_code --------------------------------------------------------------

  lemma PrependTwice(a: string, c: string, e: Reuse.Edited)
    ensures Reuse.Prepend(a, Reuse.Prepend(c, e)) == Reuse.Prepend(a + c, e)
  {
    if e.Kept? { assert a + (c + e.text) == a + c + e.text; }
  }

  /** The text before the offset is done with. */
  predicate Editing(list: string, t: string, ptr: nat, tm: int, window: int)
    requires ptr <= |t|
  {
    Reuse.Edit(list, tm, window) == Reuse.Prepend(t[..ptr], Reuse.Edit(t[ptr..], tm, window))
  }

  lemma EditingStarts(list: string, tm: int, window: int)
    ensures Editing(list, list, 0, tm, window)
  {
    hide Reuse.Edit;
    assert list[0..] == list;
    var e := Reuse.Edit(list, tm, window);
    if e.Kept? { assert "" + e.text == e.text; }
  }

  /** The loop stops at an entry, or at the end. */
  lemma EditingStops(list: string, t: string, ptr: nat, tm: int, window: int)
    requires ptr <= |t| && Editing(list, t, ptr, tm, window)
    ensures var s := t[ptr + Span(White, t[ptr..])..]; var e := Reuse.Edit(list, tm, window);
            && (s == "" ==> e == Reuse.Kept(t))
            && (s != "" && !Reuse.IsEntry(s) ==> e == Reuse.Malformed)
            && (s != "" && Reuse.IsEntry(s) && Reuse.EntryAt(s) == tm ==> e == Reuse.Blocked)
  {
    hide Reuse.Edit, Reuse.IsEntry, Reuse.EntryAt, Reuse.Far, Span, Strtoul, Reuse.Prepend;
    var r := t[ptr..];
    Reuse.EditStep(r, tm, window);
    assert r[Span(White, r)..] == t[ptr + Span(White, r)..];
    assert t[..ptr] + r == t;
    PrependEnds(t[..ptr], r, t);
  }

  /** The edit from an entry on, by the pieces of the text: white space, the number, blanks, and what
      follows them. */
  lemma EditTail(white: string, number: string, blanks: string, cut: string, tm: int, window: int)
    requires var rest := blanks + cut; var s := number + rest; var r := white + s;
             && |white| == Span(White, r) && |number| == Strtoul(s).end && |blanks| == Span(Blank, rest)
             && s != "" && Reuse.IsEntry(s) && Reuse.EntryAt(s) != tm
    ensures var rest := blanks + cut; var s := number + rest;
            Reuse.Edit(white + s, tm, window) ==
            if Reuse.Far(Reuse.EntryAt(s), tm, window) then Reuse.Prepend(white, Reuse.Edit(cut, tm, window))
            else Reuse.Prepend(white + number, Reuse.Edit(rest, tm, window))
  {
    hide Reuse.Edit, Reuse.IsEntry, Reuse.EntryAt, Reuse.Far, Span, Strtoul, Reuse.Prepend;
    var rest := blanks + cut;
    var s := number + rest;
    var r := white + s;
    StringsApart(white, s);
    StringsApart(number, rest);
    StringsApart(blanks, cut);
    Reuse.EditStep(r, tm, window);
  }

  lemma StringsApart(a: string, b: string)
    ensures (a + b)[..|a|] == a && (a + b)[|a|..] == b
  {
  }

  lemma EditingIs(list: string, t: string, ptr: nat, tm: int, window: int)
    requires ptr <= |t| && Editing(list, t, ptr, tm, window)
    ensures Reuse.Edit(list, tm, window) == Reuse.Prepend(t[..ptr], Reuse.Edit(t[ptr..], tm, window))
  {
    hide Reuse.Edit, Reuse.Prepend;
  }

  /** The same at an offset. */
  lemma EditTailAt(t: string, ptr: nat, p: nat, end: nat, q: nat, tm: int, window: int)
    requires ptr <= p <= end <= q <= |t|
    requires p - ptr == Span(White, t[ptr..]) && end - p == Strtoul(t[p..]).end && q - end == Span(Blank, t[end..])
    requires t[p..] != "" && Reuse.IsEntry(t[p..]) && Reuse.EntryAt(t[p..]) != tm
    ensures Reuse.Edit(t[ptr..], tm, window) ==
            if Reuse.Far(Reuse.EntryAt(t[p..]), tm, window)
            then Reuse.Prepend(t[ptr..p], Reuse.Edit(t[q..], tm, window))
            else Reuse.Prepend(t[ptr..p] + t[p..end], Reuse.Edit(t[end..], tm, window))
  {
    hide *;
    Tail(t, ptr, p);
    Tail(t, p, end);
    Tail(t, end, q);
    EditTail(t[ptr..p], t[p..end], t[end..q], t[q..], tm, window);
  }

  lemma Tail(t: string, i: nat, j: nat)
    requires i <= j <= |t|
    ensures t[i..j] + t[j..] == t[i..] && |t[i..j]| == j - i
  {
  }

  /** An entry the loop goes on behind: out of the window, it is deleted with the blanks after it;
      inside, it stays. */
  lemma EditingGoesOn(list: string, t: string, ptr: nat, p: nat, end: nat, q: nat, far: bool, tm: int, window: int)
    requires ptr <= p <= end <= q <= |t| && Editing(list, t, ptr, tm, window)
    requires Reuse.Edit(t[ptr..], tm, window) ==
             if far then Reuse.Prepend(t[ptr..p], Reuse.Edit(t[q..], tm, window))
             else Reuse.Prepend(t[ptr..p] + t[p..end], Reuse.Edit(t[end..], tm, window))
    ensures if far then Editing(list, t[..p] + t[q..], p, tm, window) else Editing(list, t, end, tm, window)
  {
    hide *;
    EditingIs(list, t, ptr, tm, window);
    Slices(t, ptr, p, end);
    var x, y := Reuse.Edit(list, tm, window), Reuse.Edit(t[ptr..], tm, window);
    if far {
      Joined(x, t[..ptr], y, t[ptr..p], Reuse.Edit(t[q..], tm, window), t[..p]);
      EditingCut(list, t, p, q, tm, window);
    } else {
      Joined(x, t[..ptr], y, t[ptr..p] + t[p..end], Reuse.Edit(t[end..], tm, window), t[..end]);
      EditingThere(list, t, end, tm, window);
    }
  }

  lemma EditingThere(list: string, t: string, ptr: nat, tm: int, window: int)
    requires ptr <= |t| && Reuse.Edit(list, tm, window) == Reuse.Prepend(t[..ptr], Reuse.Edit(t[ptr..], tm, window))
    ensures Editing(list, t, ptr, tm, window)
  {
    hide Reuse.Edit, Reuse.Prepend;
  }

  lemma Slices(t: string, i: nat, p: nat, end: nat)
    requires i <= p <= end <= |t|
    ensures t[..i] + t[i..p] == t[..p] && t[..i] + (t[i..p] + t[p..end]) == t[..end]
  {
    assert t[i..p] + t[p..end] == t[i..end];
    assert t[..i] + t[i..end] == t[..end];
  }

  lemma Joined(x: Reuse.Edited, head: string, y: Reuse.Edited, a: string, e: Reuse.Edited, c: string)
    requires x == Reuse.Prepend(head, y) && y == Reuse.Prepend(a, e) && head + a == c
    ensures x == Reuse.Prepend(c, e)
  {
    PrependTwice(head, a, e);
  }

  lemma EditingCut(list: string, t: string, p: nat, q: nat, tm: int, window: int)
    requires p <= q <= |t|
    requires Reuse.Edit(list, tm, window) == Reuse.Prepend(t[..p], Reuse.Edit(t[q..], tm, window))
    ensures Editing(list, t[..p] + t[q..], p, tm, window)
  {
    hide Reuse.Edit, Reuse.Prepend;
    var u := t[..p] + t[q..];
    assert u[..p] == t[..p] && u[p..] == t[q..];
  }

  lemma PrependEnds(a: string, r: string, t: string)
    ensures a + r == t ==> Reuse.Prepend(a, Reuse.Kept(r)) == Reuse.Kept(t)
    ensures Reuse.Prepend(a, Reuse.Malformed) == Reuse.Malformed && Reuse.Prepend(a, Reuse.Blocked) == Reuse.Blocked
  {
  }

  /** The number at the offset and where it ends, if it is an entry of the list. */
  method ReadEntry(list: Buffer, ptr: nat) returns (entry: Option<(int, nat)>)
    requires list.Valid() && ptr <= |list.text|
    ensures var s := list.text[ptr..];
            && (entry.None? <==> !Reuse.IsEntry(s))
            && (entry.Some? ==> entry.value == (Reuse.EntryAt(s), ptr + Strtoul(s).end) && entry.value.1 <= |list.text|)
  {
    hide Holds, NulFree, Strtoul, ToInt32;
    var n := list.StrtoulAt(ptr);
    var c := list.CharAt(ptr + n.end);
    assert n.end < |list.text[ptr..]| ==> list.text[ptr..][n.end] == list.text[ptr + n.end];
    if n.erange || n.end == 0 || (c != '\0' && !In(c, White)) { return None; }
    return Some((ToInt32(n.value), ptr + n.end));
  }

  lemma EditMoves(
      all: string, t: string, start: nat, ptr: nat, blocked: int, end: nat, q: nat, tm: int, window: int)
    requires start <= ptr < |t| && ptr <= end <= q <= |t| && Editing(all, t, start, tm, window)
    requires ptr - start == Span(White, t[start..]) && end - ptr == Strtoul(t[ptr..]).end
    requires q - end == Span(Blank, t[end..])
    requires Reuse.IsEntry(t[ptr..]) && blocked == Reuse.EntryAt(t[ptr..]) != tm
    ensures ptr < end
    ensures if blocked - tm >= window || tm - blocked >= window
            then Editing(all, t[..ptr] + t[q..], ptr, tm, window) else Editing(all, t, end, tm, window)
  {
    hide *;
    EntryLength(t[ptr..]);
    EditTailAt(t, start, ptr, end, q, tm, window);
    FarIs(blocked, tm, window);
    EditingGoesOn(all, t, start, ptr, end, q, Reuse.Far(blocked, tm, window), tm, window);
  }

  /** One turn of the loop: it ends here, or goes on at another offset. */
  method EditTurn(list: Buffer, ghost all: string, start: nat, tm: int, window: int)
    returns (stop: bool, ok: bool, ptr: nat)
    requires list.Valid() && start <= |list.text| && Editing(all, list.text, start, tm, window)
    modifies list`text, list.buf
    ensures list.Valid() && ptr <= |list.text|
    ensures stop ==> (ok <==> Reuse.Edit(all, tm, window).Kept?)
    ensures stop && ok ==> Reuse.Edit(all, tm, window) == Reuse.Kept(list.text)
    ensures !stop ==> Editing(all, list.text, ptr, tm, window) && |list.text| - ptr < old(|list.text|) - start
  {
    hide *;
    ghost var t := list.text;
    EditingStops(all, t, start, tm, window);
    var w := list.SpanAt(White, start);
    ptr := start + w;
    var c := list.CharAt(ptr);
    if c == '\0' { return true, true, ptr; }
    var entry := ReadEntry(list, ptr);
    if entry.None? { return true, false, ptr; }
    var (blocked, end) := entry.value;
    if tm == blocked { return true, false, ptr; }
    var skip := list.SpanAt(Blank, end);
    EditMoves(all, t, start, ptr, blocked, end, end + skip, tm, window);
    if blocked - tm >= window || tm - blocked >= window {
      list.Remove(ptr, end + skip, 0);
    } else {
      ptr := end;
    }
    stop, ok := false, false;
  }

  /** The loop over the list, which it edits in place. */
  method EditList(list: Buffer, tm: int, window: int) returns (ok: bool)
    requires list.Valid()
    modifies list`text, list.buf
    ensures list.Valid()
    ensures ok <==> Reuse.Edit(old(list.text), tm, window).Kept?
    ensures ok ==> Reuse.Edit(old(list.text), tm, window) == Reuse.Kept(list.text)
  {
    hide *;
    ghost var all := list.text;
    var ptr: nat := 0;
    var stop := false;
    ok := false;
    EditingStarts(all, tm, window);
    while !stop
      invariant list.Valid() && ptr <= |list.text|
      invariant stop ==> (ok <==> Reuse.Edit(all, tm, window).Kept?)
      invariant stop && ok ==> Reuse.Edit(all, tm, window) == Reuse.Kept(list.text)
      invariant !stop ==> Editing(all, list.text, ptr, tm, window)
      decreases if stop then 0 else 1 + |list.text| - ptr
    {
      stop, ok, ptr := EditTurn(list, all, ptr, tm, window);
    }
  }

  lemma FarIs(entry: int, tm: int, window: int)
    ensures Reuse.Far(entry, tm, window) <==> entry - tm >= window || tm - entry >= window
  {
  }

  lemma EntryLength(s: string)
    ensures Reuse.IsEntry(s) ==> Strtoul(s).end > 0
  {
    hide Strtoul;
  }

  lemma KeysNulFree()
    ensures NulFree(Reuse.KEY) && NulFree(TimeSkewReset.KEY) && NulFree(TimeSkewReset.SKEW_KEY) && NulFree(COUNTER_KEY)
    ensures NulFree("STEP_SIZE") && NulFree("WINDOW_SIZE") && NulFree("TIME_SKEW") && NulFree("\" TOTP_AUTH")
  {
  }

  method WindowSizeOf(b: Buffer) returns (window: int)
    requires b.Valid()
    ensures window == WindowSize(b.text)
  {
    hide InRange, StateText.GetCfgValue, Holds, NulFree;
    KeysNulFree();
    window := NumberOption(b, "WINDOW_SIZE", 1, 100, 3);
  }

  method TimestampOf(b: Buffer, now: nat) returns (tm: int)
    requires b.Valid()
    ensures tm == TimeStep(b.text, now)
  {
    hide InRange, StateText.GetCfgValue, Holds, NulFree, ToInt32;
    KeysNulFree();
    var step := NumberOption(b, "STEP_SIZE", 1, 60, 30);
    tm := if step == 0 then 0 else ToInt32(now / step);
  }

  /** What the snprintf with the optional blank makes of the list. */
  lemma PrintedAppend(list: string, tm: int)
    requires NulFree(list)
    ensures NulFree(Reuse.Append(list, tm))
    ensures list + (if list == "" then "" else " ") + DecInt(tm) == Reuse.Append(list, tm)
  {
    hide DecInt;
    Reuse.DecIntChars(tm);
  }

  /** invalidate_timebased_code */
  method InvalidateTimebasedCode(b: Buffer, tm: int) returns (ok: bool, updated: bool)
    requires b.Valid()
    modifies b, b.buf
    ensures b.Valid() && (b.buf == old(b.buf) || fresh(b.buf))
    ensures (ok, b.text) == Reuse.Invalidate(old(b.text), tm)
    ensures updated <==> ok && StateText.GetCfgValue(old(b.text), Reuse.KEY).Some?
  {
    hide Holds, NulFree, StateText.GetCfgValue, StateText.SetCfgValue, Reuse.Edit, WindowSize, DecInt, Reuse.Append;
    KeysNulFree();
    var disallow := b.GetCfgValue(Reuse.KEY);
    if disallow.None? { return true, false; }
    var window := WindowSizeOf(b);
    if window == 0 { return false, false; }
    var list := new Buffer(disallow.value);
    var kept := EditList(list, tm, window);
    if !kept { return false, false; }
    var text := list.Contents();
    PrintedAppend(text, tm);
    b.SetCfgValue(Reuse.KEY, text + (if text == "" then "" else " ") + DecInt(tm));
    return true, true;
  }

  // ---- check_time_skew ------------------------------------------------------------------------

  type Attempts = seq<TimeSkewReset.Attempt>

  /** The first `n` entries of the two arrays. */
  function Zip(tms: seq<nat>, skews: seq<int>, n: nat): (r: Attempts)
    requires n <= |tms| && n <= |skews|
    ensures |r| == n
  {
    seq(n, i requires 0 <= i < n => TimeSkewReset.Attempt(tms[i], skews[i]))
  }

  /** One entry more; with three there already, they move up and the oldest is gone. */
  method Push(tms: array<nat>, skews: array<int>, n: nat, tm: nat, skew: int) returns (n': nat)
    requires tms.Length == 3 == skews.Length && n <= 3
    modifies tms, skews
    ensures n' <= 3
    ensures Zip(tms[..], skews[..], n')
         == TimeSkewReset.LastThree(Zip(old(tms[..]), old(skews[..]), n) + [TimeSkewReset.Attempt(tm, skew)])
  {
    if n == 3 {
      tms[0], tms[1] := tms[1], tms[2];
      skews[0], skews[1] := skews[1], skews[2];
      n' := n;
    } else {
      n' := n + 1;
    }
    tms[n' - 1] := tm;
    skews[n' - 1] := skew;
  }

  /** The loop that reads the pairs of the option. */
  method ReadPairs(resetting: string, tms: array<nat>, skews: array<int>) returns (n: nat)
    requires tms.Length == 3 == skews.Length
    modifies tms, skews
    ensures n <= 3
    ensures Zip(tms[..], skews[..], n) == TimeSkewReset.LastThree(TimeSkewReset.ReadAttempts(resetting))
  {
    hide TimeSkewReset.PairAt, Zip, TimeSkewReset.LastThree, TimeSkewReset.ReadAttempts, IsEol;
    n := 0;
    var ptr := resetting;
    ghost var all := TimeSkewReset.ReadAttempts(resetting);
    ghost var done: Attempts := [];
    NoPairs(tms[..], skews[..]);
    assert done + all == all;
    while ptr != "" && !IsEol(ptr[0])
      invariant n <= 3 && Zip(tms[..], skews[..], n) == TimeSkewReset.LastThree(done)
      invariant all == done + TimeSkewReset.ReadAttempts(ptr)
      decreases |ptr|
    {
      var pair := TimeSkewReset.PairAt(ptr);
      PairStep(ptr);
      if pair.None? {
        assert done + [] == done;
        return;
      }
      var (a, rest) := pair.value;
      ghost var more := TimeSkewReset.ReadAttempts(rest);
      assert done + ([a] + more) == done + [a] + more;
      TimeSkewReset.LastThreeAgain(done, a);
      n := Push(tms, skews, n, a.step, a.skew);
      done := done + [a];
      ptr := rest;
    }
    PairsEnd(ptr);
    assert done + [] == done;
  }

  lemma NoPairs(tms: seq<nat>, skews: seq<int>)
    ensures Zip(tms, skews, 0) == TimeSkewReset.LastThree([])
  {
  }

  lemma PairStep(s: string)
    requires s != "" && !IsEol(s[0])
    ensures match TimeSkewReset.PairAt(s)
            case None => TimeSkewReset.ReadAttempts(s) == []
            case Some((a, rest)) =>
              |rest| < |s| && TimeSkewReset.ReadAttempts(s) == [a] + TimeSkewReset.ReadAttempts(rest)
  {
    hide TimeSkewReset.PairAt, IsEol;
    TimeSkewReset.PairShrinks(s);
  }

  lemma PairsEnd(s: string)
    requires s == "" || IsEol(s[0])
    ensures TimeSkewReset.ReadAttempts(s) == []
  {
  }

  /** The loop that compares the three attempts, and adds up their skews. */
  method Compare(tms: array<nat>, skews: array<int>) returns (steady: bool, sum: int)
    requires tms.Length == 3 == skews.Length
    ensures steady <==> TimeSkewReset.Steady(Zip(tms[..], skews[..], 3))
    ensures steady ==> sum == skews[0] + skews[1] + skews[2]
  {
    hide ToUInt32;
    var skew := skews[2];
    var lastTm, lastSkew := tms[0], skews[0];
    sum := lastSkew;
    ghost var es := Zip(tms[..], skews[..], 3);
    assert es[0].step == tms[0] && es[1].step == tms[1] && es[2].step == tms[2];
    for i := 1 to 3
      invariant lastTm == tms[i - 1] && lastSkew == skews[i - 1]
      invariant sum == if i == 1 then skews[0]
                       else if i == 2 then skews[0] + skews[1]
                       else skews[0] + skews[1] + skews[2]
      invariant i >= 2 ==> tms[0] < tms[1] <= ToUInt32(tms[0] + 2) && -1 <= skews[0] - skew <= 1
      invariant i >= 3 ==> tms[1] < tms[2] <= ToUInt32(tms[1] + 2) && -1 <= skews[1] - skew <= 1
    {
      if tms[i] <= lastTm || tms[i] > ToUInt32(lastTm + 2) || lastSkew - skew < -1 || lastSkew - skew > 1 {
        return false, 0;
      }
      lastTm, lastSkew := tms[i], skews[i];
      sum := sum + lastSkew;
    }
    return true, sum;
  }

  /** The loop that writes the pairs, each with a blank in front but the first. */
  method WritePairs(tms: array<nat>, skews: array<int>, n: nat) returns (reset: string)
    requires tms.Length == 3 == skews.Length && n <= 3
    ensures reset == TimeSkewReset.PrintAttempts(Zip(tms[..], skews[..], n))
  {
    hide TimeSkewReset.PrintAttempt;
    ghost var es := Zip(tms[..], skews[..], n);
    reset := "";
    var i := 0;
    while i < n
      invariant 0 <= i <= n
      invariant (reset == "" <==> i == 0)
      invariant i > 0 ==> reset + TimeSkewReset.PrintMore(es[i..]) == TimeSkewReset.PrintAttempts(es)
    {
      var pair := TimeSkewReset.PrintAttempt(TimeSkewReset.Attempt(tms[i], skews[i]));
      assert es[i] == TimeSkewReset.Attempt(tms[i], skews[i]);
      PrintedSome(es[i]);
      assert es[i..][1..] == es[i + 1..];
      ghost var more := TimeSkewReset.PrintMore(es[i + 1..]);
      assert i > 0 ==> reset + (" " + pair + more) == reset + " " + pair + more;
      reset := reset + (if reset == "" then "" else " ") + pair;
      i := i + 1;
    }
  }

  lemma PrintedSome(a: TimeSkewReset.Attempt)
    ensures TimeSkewReset.PrintAttempt(a) != ""
  {
    hide Dec;
  }

  lemma RememberedIs(t: string)
    ensures TimeSkewReset.Remembered(t)
         == TimeSkewReset.LastThree(
              match StateText.GetCfgValue(t, TimeSkewReset.KEY)
              case None => []
              case Some(v) => TimeSkewReset.ReadAttempts(v))
  {
    hide StateText.GetCfgValue, TimeSkewReset.ReadAttempts;
  }

  lemma ThreeAttempts(es: Attempts, a: TimeSkewReset.Attempt)
    requires |es| <= 3
    ensures var all := TimeSkewReset.LastThree(es + [a]); 0 < |all| <= 3 && (|all| == 3 ==> all[2] == a)
  {
  }

  /** check_time_skew */
  method CheckTimeSkew(b: Buffer, skew: int, tm: int) returns (verdict: TimeSkewReset.Verdict)
    requires b.Valid()
    modifies b, b.buf
    ensures b.Valid() && (b.buf == old(b.buf) || fresh(b.buf))
    ensures (verdict, b.text) == TimeSkewReset.Check(old(b.text), skew, tm)
  {
    hide Holds, NulFree, StateText.GetCfgValue, StateText.SetCfgValue, TimeSkewReset.ReadAttempts,
         TimeSkewReset.Steady, TimeSkewReset.PrintAttempts, ToUInt32, DecInt, TimeSkewReset.LastThree,
         TimeSkewReset.Remembered;
    KeysNulFree();
    var tms, skews := new nat[3], new int[3];
    var n := 0;
    var resetting := b.GetCfgValue(TimeSkewReset.KEY);
    RememberedIs(b.text);
    NoPairs(tms[..], skews[..]);
    ghost var a := TimeSkewReset.Attempt(ToUInt32(tm), skew);
    if resetting.Some? {
      n := ReadPairs(resetting.value, tms, skews);
    }
    ghost var es := Zip(tms[..], skews[..], n);
    assert es == TimeSkewReset.Remembered(b.text);
    if n > 0 && ToUInt32(ToUInt32(tm) + skew) == ToUInt32(tms[n - 1] + skews[n - 1]) {
      assert es[|es| - 1] == TimeSkewReset.Attempt(tms[n - 1], skews[n - 1]);
      return TimeSkewReset.Again;
    }
    assert n > 0 ==> es[|es| - 1] == TimeSkewReset.Attempt(tms[n - 1], skews[n - 1]);
    assert !TimeSkewReset.Repeats(es, a);
    n := Push(tms, skews, n, ToUInt32(tm), skew);
    ghost var all := Zip(tms[..], skews[..], n);
    ThreeAttempts(es, a);
    if n == 3 {
      var steady, sum := Compare(tms, skews);
      if steady {
        AverageIs(tms[..], skews[..]);
        Reuse.DecIntChars(TruncDiv(sum, 3));
        b.SetCfgValue(TimeSkewReset.SKEW_KEY, DecInt(TruncDiv(sum, 3)));
        Empty();
        b.SetCfgValue(TimeSkewReset.KEY, "");
        return TimeSkewReset.Reset;
      }
    }
    var reset := WritePairs(tms, skews, n);
    TimeSkewReset.AttemptsChars(all);
    b.SetCfgValue(TimeSkewReset.KEY, reset);
    return TimeSkewReset.KeepTrying;
  }

  lemma Empty()
    ensures NulFree("")
  {
  }

  lemma AverageIs(tms: seq<nat>, skews: seq<int>)
    requires |tms| == 3 == |skews|
    ensures TimeSkewReset.Average(Zip(tms, skews, 3)) == TruncDiv(skews[0] + skews[1] + skews[2], 3)
  {
    hide TruncDiv;
  }

  // ---- the checks -----------------------------------------------------------------------------

  /** check_counterbased_code */
  method CheckCounterbasedCode(b: Buffer, gen: int -> int, code: int, counter: int, must: bool)
    returns (verdict: Verdict, updated: bool, must': bool)
    requires b.Valid()
    modifies b, b.buf
    ensures b.Valid() && (b.buf == old(b.buf) || fresh(b.buf))
    ensures Checked(verdict, b.text, updated, must') == CheckCounter(old(b.text), gen, code, counter, must)
  {
    hide Holds, NulFree, StateText.SetCfgValue, WindowSize, DecInt;
    if counter < 1 || !SixDigits(code) { return NotThis, false, must; }
    var window := WindowSizeOf(b);
    if window == 0 { return Failed, false, must; }
    var i := 0;
    while i < window
      invariant 0 <= i <= window
      invariant b.Valid() && b.text == old(b.text) && b.buf == old(b.buf)
      invariant FirstMatch(gen, code, counter, counter + window) == FirstMatch(gen, code, counter + i, counter + window)
    {
      if gen(counter + i) == code {
        KeysNulFree();
        Reuse.DecIntChars(counter + i + 1);
        b.SetCfgValue(COUNTER_KEY, DecInt(counter + i + 1));
        return Accepted(ByCounter(counter + i)), true, false;
      }
      i := i + 1;
    }
    return NotThis, false, true;
  }

  /** The search for a skew, which goes on to the end although it keeps the first hit. */
  method SearchSkew(gen: int -> int, code: int, tm: int) returns (skew: int)
    ensures match FindSkew(gen, code, tm, 0) case None => skew == 1_000_000 case Some(d) => skew == d
  {
    hide FindSkew;
    skew := 1_000_000;
    for i := 0 to TimeSkewReset.SKEW_LIMIT
      invariant if skew == 1_000_000 then FindSkew(gen, code, tm, 0) == FindSkew(gen, code, tm, i)
                else FindSkew(gen, code, tm, 0) == Some(skew)
    {
      FindSkewStep(gen, code, tm, i);
      if gen(tm - i) == code && skew == 1_000_000 { skew := 0 - i; }
      if gen(tm + i) == code && skew == 1_000_000 { skew := i; }
    }
    FindSkewEnd(gen, code, tm);
  }

  lemma FindSkewStep(gen: int -> int, code: int, tm: int, i: nat)
    requires i < TimeSkewReset.SKEW_LIMIT
    ensures FindSkew(gen, code, tm, i) ==
            if gen(tm - i) == code then Some(0 - i)
            else if gen(tm + i) == code then Some(i) else FindSkew(gen, code, tm, i + 1)
  {
  }

  lemma FindSkewEnd(gen: int -> int, code: int, tm: int)
    ensures FindSkew(gen, code, tm, TimeSkewReset.SKEW_LIMIT) == None
  {
  }

  /** The loop over the window. */
  method SearchWindow(gen: int -> int, code: int, at: int, window: int) returns (step: Option<int>)
    requires window > 0
    ensures step == StepMatch(gen, code, at, window)
  {
    ghost var end := at + window / 2 + 1;
    var i := -((window - 1) / 2);
    while i <= window / 2
      invariant i <= window / 2 + 1
      invariant StepMatch(gen, code, at, window) == FirstMatch(gen, code, at + i, end)
      decreases window / 2 - i
    {
      if gen(at + i) == code { return Some(at + i); }
      i := i + 1;
    }
    return None;
  }

  method SkewOf(b: Buffer) returns (skew: int)
    requires b.Valid()
    ensures skew == TimeSkew(b.text)
  {
    hide Holds, NulFree, Strtol, ToInt32, StateText.GetCfgValue;
    KeysNulFree();
    var value := b.GetCfgValue("TIME_SKEW");
    skew := if value.None? then 0 else ToInt32(Strtol(value.value).value);
  }

  /** check_timebased_code */
  method CheckTimebasedCode(b: Buffer, gen: int -> int, code: int, now: nat, noSkewAdj: bool)
    returns (verdict: Verdict, updated: bool)
    requires b.Valid()
    modifies b, b.buf
    ensures b.Valid() && (b.buf == old(b.buf) || fresh(b.buf))
    ensures forall must ::
              Checked(verdict, b.text, updated, must) == CheckTime(old(b.text), gen, code, now, noSkewAdj, must)
  {
    hide Holds, NulFree, Contains, WindowSize, TimeStep, TimeSkew, StepMatch, FindSkew, StateText.GetCfgValue,
         Reuse.Invalidate, TimeSkewReset.Check;
    KeysNulFree();
    var totp := Occurs(b, "\" TOTP_AUTH");
    if !totp || !SixDigits(code) { return NotThis, false; }
    var tm := TimestampOf(b, now);
    if tm == 0 { return Failed, false; }
    var skew := SkewOf(b);
    var window := WindowSizeOf(b);
    if window == 0 { return Failed, false; }
    var step := SearchWindow(gen, code, tm + skew, window);
    if step.Some? {
      var ok, changed := InvalidateTimebasedCode(b, step.value);
      return (if ok then Accepted(ByStep(step.value)) else Failed), changed;
    }
    if !noSkewAdj {
      skew := SearchSkew(gen, code, tm);
      if skew != 1_000_000 {
        var result := CheckTimeSkew(b, skew, tm);
        return (if result == TimeSkewReset.Reset then Accepted(ByResync(tm + skew)) else Failed),
               result != TimeSkewReset.Again;
      }
    }
    return NotThis, false;
  }

  /** The checks in turn. */
  method CheckEntered(b: Buffer, gen: int -> int, code: int, counter: int, now: nat, noSkewAdj: bool, must: bool)
    returns (verdict: Verdict, updated: bool, must': bool)
    requires b.Valid()
    modifies b, b.buf
    ensures b.Valid() && (b.buf == old(b.buf) || fresh(b.buf))
    ensures Checked(verdict, b.text, updated, must') == CheckCode(old(b.text), gen, code, counter, now, noSkewAdj, must)
  {
    hide Holds, NulFree, Scratch.CheckScratchCodes, CheckCounter, CheckTime;
    must' := must;
    var used := b.CheckScratchCodes(code);
    if used { return Accepted(ByScratch(code)), true, must; }
    if counter > 0 {
      verdict, updated, must' := CheckCounterbasedCode(b, gen, code, counter, must);
    } else {
      verdict, updated := CheckTimebasedCode(b, gen, code, now, noSkewAdj);
    }
  }
}

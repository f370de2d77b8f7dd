/** invalidate_timebased_code: the DISALLOW_REUSE option lists the time steps that were used. */
module Reuse {
  import opened CText
  import opened StateText
  import opened StateInvariant
  import opened StateFile
  import opened Options

  const KEY := "DISALLOW_REUSE"

  /** The number at the start of a text is an entry of the list. */
  predicate IsEntry(p: string)
  {
    var n := Strtoul(p);
    !n.erange && n.end > 0 && (n.end < |p| ==> In(p[n.end], White))
  }

  function EntryAt(p: string): int { ToInt32(Strtoul(p).value) }

  function AfterWhite(s: string): string { s[Span(White, s)..] }

  /** The entries of the list, if it is one. */
  function Entries(s: string): Option<seq<int>>
    decreases |s|
  {
    var p := AfterWhite(s);
    if p == "" then Some([])
    else if !IsEntry(p) then None
    else
      match Entries(p[Strtoul(p).end..])
      case None => None
      case Some(rest) => Some([EntryAt(p)] + rest)
  }

  /** Outside the window around `step`: forgotten. */
  predicate Far(entry: int, step: int, window: int) { entry - step >= window || step - entry >= window }

  datatype Edited = Malformed | Blocked | Kept(text: string)

  function Prepend(head: string, e: Edited): Edited
  {
    if e.Kept? then Kept(head + e.text) else e
  }

  /** The loop that edits the list in place: it stops at an entry for this very step, and
      deletes entries outside the window together with the blanks after them. */
  function Edit(s: string, step: int, window: int): Edited
    decreases |s|
  {
    var w := Span(White, s);
    var p := s[w..];
    if p == "" then Kept(s)
    else if !IsEntry(p) then Malformed
    else if EntryAt(p) == step then Blocked
    else
      var rest := p[Strtoul(p).end..];
      if Far(EntryAt(p), step, window) then Prepend(s[..w], Edit(rest[Span(Blank, rest)..], step, window))
      else Prepend(s[..w] + p[..Strtoul(p).end], Edit(rest, step, window))
  }

  function Append(list: string, step: int): string
  {
    if list == "" then DecInt(step) else list + " " + DecInt(step)
  }

  /** invalidate_timebased_code: may the login go on, and with which file? */
  function Invalidate(t: string, step: int): (bool, string)
  {
    match GetCfgValue(t, KEY)
    case None => (true, t)
    case Some(list) =>
      var window := WindowSize(t);
      if window == 0 then (false, t)
      else
        match Edit(list, step, window)
        case Kept(kept) => (true, SetCfgValue(t, KEY, Append(kept, step)))
        case _ => (false, t)
  }

  // ---- the text edit is a filter on the entries ---------------------------------------------

  function Near(entries: seq<int>, step: int, window: int): (r: seq<int>)
    ensures forall x :: x in r <==> x in entries && !Far(x, step, window)
  {
    if entries == [] then []
    else (if Far(entries[0], step, window) then [] else [entries[0]]) + Near(entries[1..], step, window)
  }

  /** Leading white space makes no difference. */
  lemma EntriesSkip(w: string, s: string)
    requires All(White, w)
    ensures Entries(w + s) == Entries(s)
  {
    hide Strtoul, IsEntry, Span, In;
    SpanSkip(White, w, s);
  }

  lemma EntriesStep(s: string)
    ensures var p := AfterWhite(s);
            Entries(s) == if p == "" then Some([]) else if !IsEntry(p) then None
                          else var e := Entries(p[Strtoul(p).end..]);
                               if e.None? then None else Some([EntryAt(p)] + e.value)
  {
    hide Strtoul, IsEntry, Span;
  }

  /** An entry stays the same entry when what follows it changes but still starts with the same
      white space, or nothing follows. */
  lemma EntrySame(p: string, x: string)
    requires IsEntry(p)
    requires var rest := p[Strtoul(p).end..];
             if rest == "" then x == "" else x != "" && x[0] == rest[0]
    ensures var n := Strtoul(p).end; var q := p[..n] + x;
            IsEntry(q) && Strtoul(q) == Strtoul(p) && q[n..] == x
  {
    hide Strtoul;
    var n := Strtoul(p).end;
    var q := p[..n] + x;
    if x == "" {
      assert q == p;
    } else {
      assert p[n..][0] == p[n];
      assert q[..n + 1] == p[..n + 1];
      StrtoulPrefix(p, q);
      assert q[n] == p[n];
    }
  }

  lemma EditStep(s: string, step: int, window: int)
    ensures var w := Span(White, s); var p := AfterWhite(s); var rest := p[Strtoul(p).end..];
            && (p == "" ==> Edit(s, step, window) == Kept(s))
            && (p != "" && !IsEntry(p) ==> Edit(s, step, window) == Malformed)
            && (p != "" && IsEntry(p) ==>
                  Edit(s, step, window) ==
                  if EntryAt(p) == step then Blocked
                  else if Far(EntryAt(p), step, window)
                  then Prepend(s[..w], Edit(rest[Span(Blank, rest)..], step, window))
                  else Prepend(s[..w] + p[..Strtoul(p).end], Edit(rest, step, window)))
  {
    hide Strtoul, IsEntry, Span;
  }

  /** What the edit makes of a list: it goes through exactly on a well-formed list without this
      step, and then the new list is the old one without the entries outside the window. */
  predicate Filters(s: string, e: Edited, step: int, window: int)
  {
    && (e.Kept? <==> Entries(s).Some? && step !in Entries(s).value)
    && (e.Kept? ==> Entries(e.text) == Some(Near(Entries(s).value, step, window)))
    && (e.Kept? ==> if s == "" then e.text == ""
                    else In(s[0], White) ==> e.text != "" && e.text[0] == s[0])
    && (e.Kept? && All(NotEol, s) ==> All(NotEol, e.text))
  }

  lemma {:induction false} EditIsFilter(s: string, step: int, window: int)
    ensures Filters(s, Edit(s, step, window), step, window)
    decreases |s|
  {
    hide Strtoul, IsEntry, Span, In, Edit, Entries, Far, EntryAt, Filters;
    EditStep(s, step, window);
    var p := AfterWhite(s);
    if p != "" && IsEntry(p) && EntryAt(p) != step {
      EntryEnds(p);
      var rest := p[Strtoul(p).end..];
      if Far(EntryAt(p), step, window) {
        var next := rest[Span(Blank, rest)..];
        EditIsFilter(next, step, window);
        FilterFar(s, step, window, Edit(next, step, window));
      } else {
        EditIsFilter(rest, step, window);
        FilterNear(s, step, window, Edit(rest, step, window));
      }
    } else {
      FilterStop(s, step, window);
    }
  }

  lemma FilterStop(s: string, step: int, window: int)
    requires var p := AfterWhite(s); p == "" || !IsEntry(p) || EntryAt(p) == step
    ensures Filters(s, Edit(s, step, window), step, window)
  {
    hide Strtoul, IsEntry, Span, In, Edit, Entries, Far, EntryAt;
    EditStep(s, step, window);
    EntriesStep(s);
    var p := AfterWhite(s);
    var e := Edit(s, step, window);
    if p == "" {
      assert Entries(s) == Some([]);
      assert Near([], step, window) == [];
    } else if !IsEntry(p) {
      assert Entries(s).None?;
      assert e == Malformed;
    } else {
      assert e == Blocked;
      assert Entries(s).Some? ==> Entries(s).value[0] == step;
    }
  }

  lemma FilterFar(s: string, step: int, window: int, e: Edited)
    requires var p := AfterWhite(s);
             && p != "" && IsEntry(p) && EntryAt(p) != step && Far(EntryAt(p), step, window)
             && var rest := p[Strtoul(p).end..]; Filters(rest[Span(Blank, rest)..], e, step, window)
    ensures Filters(s, Prepend(s[..Span(White, s)], e), step, window)
  {
    hide *;
    var w := s[..Span(White, s)];
    var p := AfterWhite(s);
    var rest := p[Strtoul(p).end..];
    var next := rest[Span(Blank, rest)..];
    BehindFar(s, next);
    FarKept(s, w, EntryAt(p), next, e, step, window);
  }

  /** The entries behind the first one, and the blanks after it. */
  lemma BehindFar(s: string, next: string)
    requires var p := AfterWhite(s);
             p != "" && IsEntry(p) && var rest := p[Strtoul(p).end..]; next == rest[Span(Blank, rest)..]
    ensures var w := s[..Span(White, s)];
            && s != "" && All(White, w) && (All(NotEol, s) ==> All(NotEol, w) && All(NotEol, next))
            && (if w == "" then !In(s[0], White) else w[0] == s[0])
            && Entries(s) == if Entries(next).None? then None
                             else Some([EntryAt(AfterWhite(s))] + Entries(next).value)
  {
    hide *;
    EntriesStep(s);
    var p := AfterWhite(s);
    var n := Strtoul(p).end;
    WhiteFirst(s);
    AllSplit(NotEol, p, n);
    BlanksSkipped(p[n..]);
  }

  lemma WhiteFirst(s: string)
    ensures var w, p := s[..Span(White, s)], AfterWhite(s);
            && All(White, w) && (All(NotEol, s) ==> All(NotEol, w) && All(NotEol, p))
            && (p != "" ==> s != "" && !In(p[0], White))
            && s == w + p
            && (s != "" ==> if w == "" then !In(s[0], White) else w[0] == s[0])
  {
    hide Span, In;
    AllSplit(NotEol, s, Span(White, s));
  }

  lemma BlanksSkipped(s: string)
    ensures var next := s[Span(Blank, s)..];
            Entries(next) == Entries(s) && (All(NotEol, s) ==> All(NotEol, next))
  {
    hide Span, In, Entries;
    var b := Span(Blank, s);
    AllSplit(NotEol, s, b);
    AllBlank(s, b);
    BlankIsWhite(s[..b]);
    EntriesSkip(s[..b], s[b..]);
    assert s == s[..b] + s[b..];
  }

  lemma AllBlank(s: string, b: nat)
    requires b <= |s| && forall i :: 0 <= i < b ==> In(s[i], Blank)
    ensures All(Blank, s[..b])
  {
    hide In;
  }

  lemma FarKept(s: string, w: string, x: int, next: string, e: Edited, step: int, window: int)
    requires s != "" && All(White, w) && (All(NotEol, s) ==> All(NotEol, w) && All(NotEol, next))
    requires if w == "" then !In(s[0], White) else w[0] == s[0]
    requires Entries(s) == if Entries(next).None? then None else Some([x] + Entries(next).value)
    requires x != step && Far(x, step, window) && Filters(next, e, step, window)
    ensures Filters(s, Prepend(w, e), step, window)
  {
    hide In, Entries, Far, Near;
    if e.Kept? {
      EntriesSkip(w, e.text);
      AllConcat(NotEol, w, e.text);
    }
    NearStep(x, if Entries(next).Some? then Entries(next).value else [], step, window);
  }

  lemma FilterNear(s: string, step: int, window: int, e: Edited)
    requires var p := AfterWhite(s);
             && p != "" && IsEntry(p) && EntryAt(p) != step && !Far(EntryAt(p), step, window)
             && Filters(p[Strtoul(p).end..], e, step, window)
    ensures var p := AfterWhite(s);
            Filters(s, Prepend(s[..Span(White, s)] + p[..Strtoul(p).end], e), step, window)
  {
    hide Strtoul, IsEntry, Span, In, Edit, Entries, Far, EntryAt, Near;
    EntriesStep(s);
    var w := Span(White, s);
    var p := AfterWhite(s);
    EntryEnds(p);
    var n := Strtoul(p).end;
    var rest := p[n..];
    AllSplit(NotEol, s, w);
    AllSplit(NotEol, p, n);
    assert w == 0 ==> s[0] == p[0] && !In(s[0], White);
    if e.Kept? {
      KeepEntry(s[..w], p, e.text);
      AllConcat(NotEol, s[..w] + p[..n], e.text);
      AllConcat(NotEol, s[..w], p[..n]);
    }
    NearStep(EntryAt(p), if Entries(rest).Some? then Entries(rest).value else [], step, window);
  }

  lemma BlankIsWhite(s: string)
    requires All(Blank, s)
    ensures All(White, s)
  {
  }

  /** A kept entry stands in front of the entries of the text that is left after it. */
  lemma KeepEntry(w: string, p: string, x: string)
    requires All(White, w) && p != "" && !In(p[0], White) && IsEntry(p)
    requires var rest := p[Strtoul(p).end..];
             if rest == "" then x == "" else x != "" && x[0] == rest[0]
    ensures Entries(w + p[..Strtoul(p).end] + x)
         == if Entries(x).None? then None else Some([EntryAt(p)] + Entries(x).value)
  {
    hide Strtoul, IsEntry, Span, In, Entries;
    var n := Strtoul(p).end;
    EntryEnds(p);
    var q := p[..n] + x;
    EntrySame(p, x);
    assert w + p[..n] + x == w + q;
    EntriesSkip(w, q);
    EntriesStep(q);
    assert q[0] == p[0];
    SpanIs(White, q, 0);
    assert q[0..] == q;
  }

  lemma NearStep(x: int, rest: seq<int>, step: int, window: int)
    ensures Near([x] + rest, step, window)
         == if Far(x, step, window) then Near(rest, step, window) else [x] + Near(rest, step, window)
  {
    hide Far;
    assert ([x] + rest)[1..] == rest;
  }

  lemma EntryEnds(p: string)
    requires IsEntry(p)
    ensures var n := Strtoul(p).end; 0 < n <= |p| && (n < |p| ==> In(p[n..][0], White))
  {
    hide Strtoul;
  }

  // ---- one login ----------------------------------------------------------------------------

  /** The steps a file lists as used. */
  function Used(t: string): Option<seq<int>>
  {
    match GetCfgValue(t, KEY) case None => None case Some(list) => Entries(list)
  }

  /** White space and more entries after a list. */
  lemma {:induction false} EntriesExtend(list: string, x: string)
    requires Entries(list).Some? && Entries(x).Some? && x != "" && In(x[0], White)
    ensures Entries(list + x) == Some(Entries(list).value + Entries(x).value)
    decreases |list|
  {
    hide Strtoul, IsEntry, Span, In, Entries, EntryAt;
    EntriesStep(list);
    var w := Span(White, list);
    var p := AfterWhite(list);
    if p == "" {
      assert list[..w] == list;
      EntriesSkip(list, x);
      assert [] + Entries(x).value == Entries(x).value;
    } else {
      var n := Strtoul(p).end;
      EntryEnds(p);
      EntriesExtend(p[n..], x);
      EntryThen(list, x);
    }
  }

  lemma EntryThen(list: string, x: string)
    requires var p := AfterWhite(list); p != "" && IsEntry(p) && var rest := p[Strtoul(p).end..];
             && Entries(rest).Some? && Entries(x).Some? && x != "" && In(x[0], White)
             && Entries(rest + x) == Some(Entries(rest).value + Entries(x).value)
    ensures Entries(list).Some? && Entries(list + x) == Some(Entries(list).value + Entries(x).value)
  {
    hide *;
    WhiteFirst(list);
    EntriesStep(list);
    EntryBehind(list[..Span(White, list)], AfterWhite(list), x);
    var p := AfterWhite(list);
    var rest := p[Strtoul(p).end..];
    Regroup(EntryAt(p), Entries(rest).value, Entries(x).value);
  }

  lemma Regroup(first: int, a: seq<int>, b: seq<int>)
    ensures [first] + (a + b) == ([first] + a) + b
  {
  }

  lemma EntryBehind(w: string, p: string, x: string)
    requires All(White, w) && p != "" && !In(p[0], White) && IsEntry(p) && x != "" && In(x[0], White)
    ensures var tail := Entries(p[Strtoul(p).end..] + x);
            Entries(w + p + x) == if tail.None? then None else Some([EntryAt(p)] + tail.value)
  {
    hide *;
    assert w + p + x == w + (p + x);
    EntriesSkip(w, p + x);
    EntryExtended(p, x);
  }

  lemma EntryExtended(p: string, x: string)
    requires p != "" && !In(p[0], White) && IsEntry(p) && x != "" && In(x[0], White)
    ensures var tail := Entries(p[Strtoul(p).end..] + x);
            Entries(p + x) == if tail.None? then None else Some([EntryAt(p)] + tail.value)
  {
    hide Strtoul, IsEntry, Span, In, Entries, EntryAt;
    EntryEnds(p);
    EntryExtend(p, x);
    EntriesStep(p + x);
  }

  lemma EntryExtend(p: string, x: string)
    requires p != "" && !In(p[0], White) && IsEntry(p) && x != "" && In(x[0], White)
    ensures var n := Strtoul(p).end;
            && n <= |p| && p + x != "" && IsEntry(p + x) && EntryAt(p + x) == EntryAt(p) && Strtoul(p + x).end == n
            && (p + x)[n..] == p[n..] + x && AfterWhite(p + x) == p + x
  {
    hide Strtoul, Span;
    StrtoulExtend(p, x);
    var n := Strtoul(p).end;
    assert n < |p| ==> (p + x)[n] == p[n];
    assert n == |p| ==> (p + x)[n] == x[0];
    assert (p + x)[0] == p[0];
    SpanIs(White, p + x, 0);
    assert (p + x)[0..] == p + x;
  }

  lemma DigitsAreEntry(step: int)
    requires -TWO31 <= step < TWO31
    ensures Entries(DecInt(step)) == Some([step]) && Entries(" " + DecInt(step)) == Some([step])
    ensures In(' ', White)
  {
    hide Strtoul, Entries, Dec;
    var d := DecInt(step);
    ReadInt("", step, "");
    assert "" + d + "" == d;
    SpanIs(White, d, 0);
    assert d[0..] == d && d[|d|..] == "";
    EntriesStep(d);
    EntriesStep("");
    assert [step] + [] == [step];
    EntriesSkip(" ", d);
  }

  lemma AppendEntry(list: string, step: int)
    requires Entries(list).Some? && -TWO31 <= step < TWO31
    ensures Entries(Append(list, step)) == Some(Entries(list).value + [step])
  {
    hide Entries, DecInt, In, Span, AfterWhite;
    DigitsAreEntry(step);
    if list == "" {
      NoEntries();
      assert [] + [step] == [step];
    } else {
      AppendIs(list, step);
      EntriesExtend(list, " " + DecInt(step));
    }
  }

  lemma NoEntries()
    ensures Entries("") == Some([])
  {
  }

  lemma AppendIs(list: string, step: int)
    requires list != ""
    ensures Append(list, step) == list + (" " + DecInt(step)) && (" " + DecInt(step))[0] == ' '
  {
    hide DecInt;
    assert list + " " + DecInt(step) == list + (" " + DecInt(step));
  }

  lemma KeyValid()
    ensures ValidKey(KEY)
  {
  }

  lemma StripKeepsEntries(list: string)
    ensures Entries(Strip(list)) == Entries(list)
  {
    hide Entries, Span;
    var b := Span(Blank, list);
    BlankIsWhite(list[..b]);
    EntriesSkip(list[..b], list[b..]);
    assert list == list[..b] + list[b..];
  }

  lemma AppendNotEol(list: string, step: int)
    requires All(NotEol, list)
    ensures All(NotEol, Append(list, step))
  {
    hide In, DecInt, IsDigit;
    DecIntChars(step);
    OneBlank();
    AllConcat(NotEol, list, " ");
    AllConcat(NotEol, list + " ", DecInt(step));
  }

  lemma DecIntChars(n: int)
    ensures All(NotEol, DecInt(n)) && NulFree(DecInt(n))
  {
    hide Dec;
  }

  /** A step is accepted exactly when it is not listed, and then it is listed, after the old
      entries that the window still reaches. Nothing else in the file changes. */
  lemma InvalidateLists(t: string, step: int)
    requires Tidy(t) && -TWO31 <= step < TWO31 && GetCfgValue(t, KEY).Some?
    ensures var (ok, u) := Invalidate(t, step);
            && (ok <==> WindowSize(t) > 0 && Used(t).Some? && step !in Used(t).value)
            && (!ok ==> u == t)
            && (ok ==> SameBut(t, u, {KEY})
                       && Used(u) == Some(Near(Used(t).value, step, WindowSize(t)) + [step]))
  {
    hide Entries, Edit, GetCfgValue, WindowSize, SetCfgValue, SameBut, Tidy, Strip, Append, Near, ValidKey, All;
    var list := GetCfgValue(t, KEY).value;
    var window := WindowSize(t);
    EditIsFilter(list, step, window);
    if window > 0 && Edit(list, step, window).Kept? {
      var kept := Edit(list, step, window).text;
      ValueNotEol(t, KEY);
      AppendNotEol(kept, step);
      KeyValid();
      SetKeeps(t, KEY, Append(kept, step));
      AppendEntry(kept, step);
      StripKeepsEntries(Append(kept, step));
    }
  }

  // ---- forgetting is safe -------------------------------------------------------------------

  /** The steps the window accepts around the server's step, given the skew. */
  predicate InWindow(step: int, server: int, skew: int, window: int)
    requires window > 0
  {
    server + skew - (window - 1) / 2 <= step <= server + skew + window / 2
  }

  /** Every accepted step is still listed, or lies before any step that can be accepted from the
      server's step `server` on. */
  predicate Covers(used: seq<int>, hist: seq<int>, server: int, skew: int, window: int)
    requires window > 0
  {
    forall i :: 0 <= i < |hist| ==>
      && hist[i] <= server + skew + window / 2
      && (hist[i] in used || hist[i] < server + skew - (window - 1) / 2)
  }

  /** As the server's clock does not run backwards, a step that is accepted is new, and what the
      pruned list forgets is out of reach for good. */
  lemma PrunedListSuffices(used: seq<int>, hist: seq<int>, before: int, server: int, skew: int, window: int, step: int)
    requires window > 0 && before <= server && Covers(used, hist, before, skew, window)
    requires InWindow(step, server, skew, window) && step !in used
    ensures step !in hist
    ensures Covers(Near(used, step, window) + [step], hist + [step], server, skew, window)
  {
    var kept := Near(used, step, window) + [step];
    forall i | 0 <= i < |hist| + 1
      ensures var a := (hist + [step])[i];
              && a <= server + skew + window / 2
              && (a in kept || a < server + skew - (window - 1) / 2)
    {
      if i < |hist| {
        var a := hist[i];
        assert (hist + [step])[i] == a;
        if a in used && !Far(a, step, window) {
          assert a in Near(used, step, window);
        }
      }
    }
  }
}

/** The state file as text: how get_cfg_value and set_cfg_value see it, and the keyed list of
    lines they maintain. */
module StateText {
  import opened CText

  // ---- the walk over lines ------------------------------------------------------------------

  /** One step of the walk: a line with the line ends that follow it. */
  function LineLength(t: string): (n: nat)
    ensures n <= |t|
    ensures t != "" ==> n > 0
  {
    var n := Span(NotEol, t);
    n + Span(Eol, t[n..])
  }

  predicate IsKeyLine(t: string, key: string)
  {
    var n := 2 + |key|;
    && StartsWith(t, "\" " + key)
    && (|t| == n || IsBlank(t[n]) || IsEol(t[n]))
  }

  /** Offset of the first line for `key`, or the length of the text. */
  function FindLine(t: string, key: string): (i: nat)
    ensures i <= |t|
    decreases |t|
  {
    if t == "" || IsKeyLine(t, key) then 0
    else LineLength(t) + FindLine(t[LineLength(t)..], key)
  }

  lemma FindLineStep(t: string, key: string)
    ensures FindLine(t, key)
         == if t == "" || IsKeyLine(t, key) then 0 else LineLength(t) + FindLine(t[LineLength(t)..], key)
  {
  }

  lemma {:induction false} FindLineFinds(t: string, key: string)
    ensures var i := FindLine(t, key); i < |t| ==> IsKeyLine(t[i..], key)
    decreases |t|
  {
    hide Span, LineLength, IsKeyLine;
    if t != "" {
      if IsKeyLine(t, key) {
        assert t[0..] == t;
      } else {
        var n := LineLength(t);
        FindLineFinds(t[n..], key);
        var i := FindLine(t[n..], key);
        assert t[n + i..] == t[n..][i..];
      }
    }
  }

  function ValueOf(line: string, key: string): string
    requires IsKeyLine(line, key)
  {
    var p := line[2 + |key|..];
    var v := p[Span(Blank, p)..];
    v[..Span(NotEol, v)]
  }

  function GetCfgValue(t: string, key: string): Option<string>
  {
    var i := FindLine(t, key);
    FindLineFinds(t, key);
    if i < |t| then Some(ValueOf(t[i..], key)) else None
  }

  function OptionLine(key: string, val: string): string
  {
    "\" " + key + " " + val
  }

  /** The text without the lines for `key`. */
  function DeleteLines(t: string, key: string): (r: string)
    ensures |r| <= |t|
    decreases |t|
  {
    if t == "" then ""
    else
      var n := LineLength(t);
      if IsKeyLine(t, key) then DeleteLines(t[n..], key)
      else t[..n] + DeleteLines(t[n..], key)
  }

  /** Where set_cfg_value puts the new line: over the first line for the key, or (an empty
      range) after the first line of the file. */
  function Slot(t: string, key: string): (r: (nat, nat))
    ensures r.0 <= r.1 <= |t|
  {
    var i := FindLine(t, key);
    if i < |t| then (i, i + LineLength(t[i..]))
    else (LineLength(t), LineLength(t))
  }

  function SetCfgValue(t: string, key: string, val: string): string
  {
    var (start, stop) := Slot(t, key);
    t[..start] + OptionLine(key, val) + "\n" + DeleteLines(t[stop..], key)
  }

  // ---- the lines ----------------------------------------------------------------------------

  function FirstLine(t: string): seq<string>
  {
    var n := Span(NotEol, t);
    if n == 0 then [] else [t[..n]]
  }

  predicate IsLine(l: string) { l != "" && All(NotEol, l) }

  /** The lines that are not blank. */
  function Lines(t: string): (ls: seq<string>)
    ensures forall i :: 0 <= i < |ls| ==> IsLine(ls[i])
    decreases |t|
  {
    if t == "" then []
    else
      var n := Span(NotEol, t);
      var rest := Lines(t[LineLength(t)..]);
      if n == 0 then rest else [t[..n]] + rest
  }

  predicate ValidKey(key: string)
  {
    key != "" && forall i :: 0 <= i < |key| ==> !IsSpace(key[i])
  }

  predicate ValidValue(val: string) { All(NotEol, val) }

  function FirstKey(ls: seq<string>, key: string): (i: nat)
    ensures i <= |ls|
    ensures i < |ls| ==> IsKeyLine(ls[i], key)
    ensures forall j :: 0 <= j < i ==> !IsKeyLine(ls[j], key)
  {
    if ls == [] || IsKeyLine(ls[0], key) then 0 else 1 + FirstKey(ls[1..], key)
  }

  function Lookup(ls: seq<string>, key: string): Option<string>
  {
    var i := FirstKey(ls, key);
    if i < |ls| then Some(ValueOf(ls[i], key)) else None
  }

  function Without(ls: seq<string>, key: string): (r: seq<string>)
    ensures forall j :: 0 <= j < |r| ==> !IsKeyLine(r[j], key)
  {
    if ls == [] then []
    else if IsKeyLine(ls[0], key) then Without(ls[1..], key)
    else [ls[0]] + Without(ls[1..], key)
  }

  /** The keyed update: replace the first line for the key and drop the others, or insert after
      the first line. */
  function Update(ls: seq<string>, key: string, val: string): seq<string>
  {
    var i := FirstKey(ls, key);
    if i < |ls| then ls[..i] + [OptionLine(key, val)] + Without(ls[i + 1..], key)
    else if ls == [] then [OptionLine(key, val)]
    else ls[..1] + [OptionLine(key, val)] + ls[1..]
  }

  // ---- lines of text pieces -----------------------------------------------------------------

  /** A piece that ends with its line ends, followed by something that starts a line. */
  predicate Seam(a: string, b: string)
  {
    && (a != "" ==> IsEol(a[|a| - 1]))
    && (b != "" ==> !IsEol(b[0]))
  }

  lemma LineLengthSplit(a: string, b: string)
    requires Seam(a, b) && a != ""
    ensures Span(NotEol, a + b) == Span(NotEol, a)
    ensures LineLength(a + b) == LineLength(a)
    ensures FirstLine(a + b) == FirstLine(a)
  {
    hide Span;
    var n := Span(NotEol, a);
    SpanAppend(NotEol, a, b);
    SpanAppend(Eol, a[n..], b);
    assert (a + b)[n..] == a[n..] + b;
    assert (a + b)[..n] == a[..n];
  }

  lemma LinesStep(t: string)
    requires t != ""
    ensures Lines(t) == FirstLine(t) + Lines(t[LineLength(t)..])
  {
    hide Span, LineLength;
  }

  lemma {:induction false} LinesConcat(a: string, b: string)
    requires Seam(a, b)
    ensures Lines(a + b) == Lines(a) + Lines(b)
    decreases |a|
  {
    hide Span, LineLength, Lines, In, IsEol;
    if a == "" {
      assert a + b == b;
      LinesEmpty();
    } else {
      LineLengthSplit(a, b);
      var k := LineLength(a);
      var c := a[k..];
      assert (a + b)[k..] == c + b;
      LinesConcat(c, b);
      LinesStep(a);
      LinesStep(a + b);
      assert FirstLine(a) + (Lines(c) + Lines(b)) == FirstLine(a) + Lines(c) + Lines(b);
    }
  }

  lemma LinesEmpty()
    ensures Lines("") == []
  {
  }

  /** The first line with its line ends, and what follows it. */
  lemma FirstLineSplit(t: string)
    requires t != ""
    ensures var k := LineLength(t);
            && (k < |t| ==> Seam(t[..k], t[k..]))
            && Lines(t[..k]) == FirstLine(t)
  {
    hide Span, Lines;
    var k := LineLength(t);
    var n := Span(NotEol, t);
    var head := t[..k];
    SpanIs(NotEol, head, n);
    assert head[..n] == t[..n];
    SpanIs(Eol, head[n..], k - n) by {
      assert forall i :: 0 <= i < k - n ==> head[n..][i] == t[n..][i];
    }
    assert head[k..] == "";
    LinesStep(head);
    LinesEmpty();
  }

  predicate HasNoKey(ls: seq<string>, key: string)
  {
    forall j :: 0 <= j < |ls| ==> !IsKeyLine(ls[j], key)
  }

  /** Whether a line is for a key, and for which value, shows on the line alone. */
  lemma KeyLineLocal(t: string, key: string)
    requires ValidKey(key)
    ensures IsKeyLine(t, key) <==> IsKeyLine(t[..Span(NotEol, t)], key)
    ensures IsKeyLine(t, key) ==> ValueOf(t, key) == ValueOf(t[..Span(NotEol, t)], key)
  {
    hide Span;
    var n := Span(NotEol, t);
    var line := t[..n];
    var m := 2 + |key|;
    var head := "\" " + key;
    assert forall i :: 0 <= i < m ==> NotEolChar(head[i]);
    if IsKeyLine(t, key) {
      assert forall i :: 0 <= i < m ==> t[i] == t[..m][i];
      assert m <= n;
      assert line[..m] == t[..m];
    }
    if IsKeyLine(line, key) {
      assert line[..m] == t[..m];
      assert m <= n;
      ValueLocal(t, line, m);
    }
  }

  predicate NotEolChar(c: char) { !IsEol(c) }

  lemma ValueLocal(t: string, line: string, m: nat)
    requires m <= |line| <= |t| && line == t[..|line|] && All(NotEol, line)
    requires |line| < |t| ==> IsEol(t[|line|])
    ensures var p := t[m..]; var q := line[m..];
            var v := p[Span(Blank, p)..]; var w := q[Span(Blank, q)..];
            v[..Span(NotEol, v)] == w[..Span(NotEol, w)]
  {
    hide Span;
    var p, q := t[m..], line[m..];
    assert p[..|q|] == q;
    assert forall i :: 0 <= i < |q| ==> In(q[i], NotEol) by { AllSplit(NotEol, line, m); }
    var b := Span(Blank, q);
    SpanBefore(p, q);
    var v, w := p[b..], q[b..];
    assert forall i :: 0 <= i < |w| ==> w[i] == q[b + i] && v[i] == p[b + i] && p[b + i] == q[b + i];
    assert |w| < |v| ==> v[|w|] == t[|line|];
    SpanIs(NotEol, w, |w|);
    SpanIs(NotEol, v, |w|);
    assert v[..|w|] == w;
  }

  lemma SpanBefore(p: string, q: string)
    requires |q| <= |p| && p[..|q|] == q && (|q| < |p| ==> IsEol(p[|q|]))
    ensures Span(Blank, p) == Span(Blank, q)
  {
    hide Span;
    var b := Span(Blank, q);
    assert forall i :: 0 <= i < |q| ==> p[i] == q[i];
    SpanIs(Blank, p, b);
  }

  lemma {:induction false} FindLineSplit(t: string, key: string)
    requires ValidKey(key)
    ensures var i := FindLine(t, key);
            && (i < |t| ==> Seam(t[..i], t[i..]))
            && HasNoKey(Lines(t[..i]), key)
    decreases |t|
  {
    hide Span, LineLength, Lines, In, IsKeyLine;
    LinesEmpty();
    var i := FindLine(t, key);
    if t != "" && !IsKeyLine(t, key) {
      var k := LineLength(t);
      var rest := t[k..];
      var j := FindLine(rest, key);
      FindLineSplit(rest, key);
      FirstLineSplit(t);
      KeyLineLocal(t, key);
      assert t[..i] == t[..k] + rest[..j];
      assert t[i..] == rest[j..];
      assert Seam(t[..k], rest[..j]) || rest[..j] == "";
      if rest[..j] == "" {
        assert t[..i] == t[..k];
      } else {
        LinesConcat(t[..k], rest[..j]);
      }
    } else {
      assert t[..0] == "";
      assert t[0..] == t;
      KeyLineQuote(t, key);
    }
  }

  lemma KeyLineQuote(t: string, key: string)
    ensures IsKeyLine(t, key) ==> t != "" && t[0] == '"'
  {
    if IsKeyLine(t, key) {
      assert t[0] == t[..2 + |key|][0];
    }
  }

  predicate AtLine(t: string) { t != "" ==> !IsEol(t[0]) }

  lemma {:induction false} LinesOfDelete(t: string, key: string)
    requires ValidKey(key) && AtLine(t)
    ensures AtLine(DeleteLines(t, key))
    ensures Lines(DeleteLines(t, key)) == Without(Lines(t), key)
    decreases |t|
  {
    hide Span, LineLength, Lines, In, IsKeyLine;
    LinesEmpty();
    if t != "" {
      var k := LineLength(t);
      var rest := t[k..];
      FirstLineSplit(t);
      KeyLineLocal(t, key);
      LinesStep(t);
      FirstLineAt(t);
      LinesOfDelete(rest, key);
      assert (FirstLine(t) + Lines(rest))[1..] == Lines(rest);
      var kept := DeleteLines(rest, key);
      if !IsKeyLine(t, key) {
        if kept == "" {
          assert t[..k] + kept == t[..k];
        } else {
          LinesConcat(t[..k], kept);
        }
      }
    }
  }

  lemma FirstLineAt(t: string)
    requires t != "" && AtLine(t)
    ensures FirstLine(t) == [t[..Span(NotEol, t)]]
  {
  }

  lemma FirstKeyIs(ls: seq<string>, key: string, n: nat)
    requires n <= |ls| && HasNoKey(ls[..n], key)
    requires n < |ls| ==> IsKeyLine(ls[n], key)
    ensures FirstKey(ls, key) == n
  {
    hide IsKeyLine, FirstKey;
    assert forall j :: 0 <= j < n ==> ls[j] == ls[..n][j];
  }

  /** A text, taken apart behind its first line. */
  lemma FirstLineCut(s: string)
    requires s != "" && AtLine(s)
    ensures var n := LineLength(s);
            && Lines(s) == [s[..Span(NotEol, s)]] + Lines(s[n..]) && (n < |s| ==> !IsEol(s[n]))
  {
    hide Span, Lines, LineLength;
    FirstLineSplit(s);
    LinesStep(s);
    FirstLineAt(s);
  }

  /** A text whose first line for `key` was found, taken apart around that line. */
  lemma FoundSplit(t: string, key: string)
    requires ValidKey(key)
    requires FindLine(t, key) < |t|
    ensures var (i, stop) := Slot(t, key);
            var before := Lines(t[..i]);
            && i < stop
            && Seam(t[..i], t[i..]) && AtLine(t[stop..])
            && Lines(t) == before + [t[i..][..Span(NotEol, t[i..])]] + Lines(t[stop..])
            && FirstKey(Lines(t), key) == |before|
  {
    hide *;
    var (i, stop) := Slot(t, key);
    var tail := t[i..];
    var n := LineLength(tail);
    var line := tail[..Span(NotEol, tail)];
    FoundPlace(t, key);
    FirstLineCut(tail);
    DropDrop(t, i, n);
    assert t == t[..i] + tail;
    LinesConcat(t[..i], tail);
    KeyLineLocal(tail, key);
    FirstKeyAt(Lines(t[..i]), line, Lines(tail[n..]), key);
    StartsAt(tail, n);
  }

  /** Where the line is. */
  lemma FoundPlace(t: string, key: string)
    requires ValidKey(key) && FindLine(t, key) < |t|
    ensures var (i, stop) := Slot(t, key);
            && i == FindLine(t, key) && i < stop == i + LineLength(t[i..])
            && Seam(t[..i], t[i..]) && AtLine(t[i..]) && IsKeyLine(t[i..], key) && HasNoKey(Lines(t[..i]), key)
  {
    hide Lines, LineLength, IsKeyLine, FindLine, HasNoKey, ValidKey;
    FindLineFinds(t, key);
    FindLineSplit(t, key);
  }

  lemma StartsAt(s: string, n: nat)
    requires n <= |s| && (n < |s| ==> !IsEol(s[n]))
    ensures AtLine(s[n..])
  {
  }

  lemma FirstKeyAt(a: seq<string>, line: string, b: seq<string>, key: string)
    requires HasNoKey(a, key) && IsKeyLine(line, key)
    ensures FirstKey(a + ([line] + b), key) == |a| && a + ([line] + b) == a + [line] + b
  {
    hide IsKeyLine, FirstKey;
    var ls := a + ([line] + b);
    assert ls[..|a|] == a && ls[|a|] == line;
    FirstKeyIs(ls, key, |a|);
  }

  /** get_cfg_value is the lookup in the list of lines. */
  lemma GetIsLookup(t: string, key: string)
    requires ValidKey(key)
    ensures GetCfgValue(t, key) == Lookup(Lines(t), key)
  {
    hide Span, Lines, In, IsKeyLine, FindLine, ValueOf;
    var i := FindLine(t, key);
    FindLineSplit(t, key);
    if i < |t| {
      FoundSplit(t, key);
      FindLineFinds(t, key);
      KeyLineLocal(t[i..], key);
    } else {
      assert t[..i] == t;
      FirstKeyIs(Lines(t), key, |Lines(t)|);
    }
  }

  /** A line, its line end, and what starts the next line. */
  lemma LinesOfLine(line: string, rest: string)
    requires IsLine(line) && AtLine(rest)
    ensures Lines(line + "\n" + rest) == [line] + Lines(rest)
  {
    hide Span, Lines;
    var t := line + "\n" + rest;
    SpanIs(NotEol, t, |line|);
    assert t[..|line|] == line;
    assert t[|line|..] == "\n" + rest;
    SpanIs(Eol, "\n" + rest, 1);
    assert t[|line| + 1..] == rest;
    LinesStep(t);
  }

  lemma SetSplices(t: string, key: string, val: string)
    requires ValidKey(key) && ValidValue(val)
    requires var (start, stop) := Slot(t, key);
             AtLine(t[stop..]) && (start > 0 ==> IsEol(t[start - 1]))
    ensures var (start, stop) := Slot(t, key);
            && Lines(SetCfgValue(t, key, val))
               == Lines(t[..start]) + [OptionLine(key, val)] + Without(Lines(t[stop..]), key)
            && (AtLine(t) ==> AtLine(SetCfgValue(t, key, val)))
  {
    hide Span, LineLength, Lines, In, IsKeyLine, FindLine, DeleteLines, Slot, OptionLine, Without;
    var (start, stop) := Slot(t, key);
    var head, tail := t[..start], DeleteLines(t[stop..], key);
    var line := OptionLine(key, val);
    LinesOfDelete(t[stop..], key);
    OptionLineEol(key, val);
    OptionLineQuote(key, val);
    LinesOfLine(line, tail);
    var right := line + "\n" + tail;
    assert right[0] == '"';
    LinesConcat(head, right);
    assert SetCfgValue(t, key, val) == head + right;
  }

  lemma OptionLineQuote(key: string, val: string)
    ensures OptionLine(key, val) != "" && OptionLine(key, val)[0] == '"'
  {
  }

  lemma {:induction false} WithoutNothing(ls: seq<string>, key: string)
    requires HasNoKey(ls, key)
    ensures Without(ls, key) == ls
  {
    hide IsKeyLine;
    if ls != [] {
      assert forall j :: 0 <= j < |ls| - 1 ==> ls[1..][j] == ls[j + 1];
      WithoutNothing(ls[1..], key);
    }
  }

  /** set_cfg_value is the keyed update of the list of lines: exactly one line for the key is
      left, and every other line stays, in order. Without any line end in the text a missing key
      cannot be added; see NoLineEndGlues. */
  lemma SetIsUpdate(t: string, key: string, val: string)
    requires ValidKey(key) && ValidValue(val)
    requires t != "" && AtLine(t)
    requires GetCfgValue(t, key).None? ==> Span(NotEol, t) < |t|
    ensures Lines(SetCfgValue(t, key, val)) == Update(Lines(t), key, val)
    ensures AtLine(SetCfgValue(t, key, val))
  {
    hide *;
    MissingOrAt(t, key);
    if FindLine(t, key) < |t| { SetFound(t, key, val); } else { SetMissing(t, key, val); }
  }

  lemma MissingOrAt(t: string, key: string)
    ensures GetCfgValue(t, key).None? <==> FindLine(t, key) == |t|
  {
    hide FindLine, ValueOf;
  }

  lemma SetFound(t: string, key: string, val: string)
    requires ValidKey(key) && ValidValue(val) && AtLine(t) && FindLine(t, key) < |t|
    ensures Lines(SetCfgValue(t, key, val)) == Update(Lines(t), key, val) && AtLine(SetCfgValue(t, key, val))
  {
    hide *;
    var (start, stop) := Slot(t, key);
    FoundSplit(t, key);
    SeamEnd(t, start);
    SetSplices(t, key, val);
    UpdateFound(Lines(t[..start]), t[start..][..Span(NotEol, t[start..])], Lines(t[stop..]), key, val);
  }

  lemma SeamEnd(t: string, i: nat)
    requires i <= |t| && Seam(t[..i], t[i..])
    ensures i > 0 ==> IsEol(t[i - 1])
  {
  }

  lemma UpdateFound(before: seq<string>, line: string, after: seq<string>, key: string, val: string)
    requires FirstKey(before + [line] + after, key) == |before|
    ensures Update(before + [line] + after, key, val) == before + [OptionLine(key, val)] + Without(after, key)
  {
    hide FirstKey, Without, OptionLine, IsKeyLine;
    var ls := before + [line] + after;
    assert ls[..|before|] == before && ls[|before| + 1..] == after;
  }

  lemma SetMissing(t: string, key: string, val: string)
    requires ValidKey(key) && ValidValue(val) && AtLine(t) && t != ""
    requires GetCfgValue(t, key).None? && Span(NotEol, t) < |t|
    ensures Lines(SetCfgValue(t, key, val)) == Update(Lines(t), key, val) && AtLine(SetCfgValue(t, key, val))
  {
    hide *;
    var (start, stop) := Slot(t, key);
    MissingAt(t, key);
    MissingSplit(t, key);
    MissingHasNoKey(t, key);
    FirstLineCut(t);
    SetSplices(t, key, val);
    FirstLineAlone(t);
    UpdateMissing(t[..Span(NotEol, t)], Lines(t[stop..]), key, val);
  }

  lemma FirstLineAlone(t: string)
    requires t != "" && AtLine(t)
    ensures Lines(t[..LineLength(t)]) == [t[..Span(NotEol, t)]]
  {
    hide Span, Lines, LineLength;
    FirstLineSplit(t);
    FirstLineAt(t);
  }

  lemma UpdateMissing(first: string, rest: seq<string>, key: string, val: string)
    requires HasNoKey([first] + rest, key)
    ensures Update([first] + rest, key, val) == [first] + [OptionLine(key, val)] + Without(rest, key)
  {
    hide FirstKey, Without, OptionLine, IsKeyLine;
    var ls := [first] + rest;
    assert ls[..|ls|] == ls && ls[..1] == [first] && ls[1..] == rest;
    FirstKeyIs(ls, key, |ls|);
    assert forall k :: 0 <= k < |rest| ==> rest[k] == ls[k + 1];
    WithoutNothing(rest, key);
  }

  lemma LineEnd(t: string)
    requires Span(NotEol, t) < |t|
    ensures LineLength(t) > 0 && IsEol(t[LineLength(t) - 1])
    ensures AtLine(t[LineLength(t)..])
  {
    hide Span;
    var n := Span(NotEol, t);
    var e := Span(Eol, t[n..]);
    assert t[n..][0] == t[n];
    assert e > 0;
    assert t[n..][e - 1] == t[n + e - 1];
  }

  // ---- the keyed map ------------------------------------------------------------------------

  /** A value loses its leading blanks when it is read back. */
  function Strip(val: string): string { val[Span(Blank, val)..] }

  lemma OptionLineFor(key: string, val: string, other: string)
    requires ValidKey(key) && ValidKey(other) && ValidValue(val)
    ensures IsKeyLine(OptionLine(key, val), other) <==> key == other
    ensures ValueOf(OptionLine(key, val), key) == Strip(val)
  {
    hide Span;
    var line := OptionLine(key, val);
    var m := 2 + |key|;
    assert line[..m] == "\" " + key;
    assert line[m..] == " " + val;
    var b := Span(Blank, val);
    SpanIs(Blank, " " + val, 1 + b);
    assert line[m..][1 + b..] == val[b..];
    SpanIs(NotEol, val[b..], |val| - b);
    assert val[b..][..|val| - b] == val[b..];
    if IsKeyLine(line, other) { OneKey(line, key, other); }
  }

  lemma {:induction false} LookupWithout(ls: seq<string>, key: string, other: string)
    requires forall i :: 0 <= i < |ls| && IsKeyLine(ls[i], key) ==> !IsKeyLine(ls[i], other)
    ensures Lookup(Without(ls, key), other) == Lookup(ls, other)
  {
    hide IsKeyLine, ValueOf, Lookup;
    if ls != [] {
      LookupWithout(ls[1..], key, other);
      LookupStep(ls, other);
      if !IsKeyLine(ls[0], key) { LookupStep([ls[0]] + Without(ls[1..], key), other); }
    }
  }

  lemma LookupStep(ls: seq<string>, key: string)
    requires ls != []
    ensures Lookup(ls, key) == if IsKeyLine(ls[0], key) then Some(ValueOf(ls[0], key)) else Lookup(ls[1..], key)
  {
    hide IsKeyLine, ValueOf;
  }

  lemma {:induction false} LookupConcat(a: seq<string>, b: seq<string>, key: string)
    ensures Lookup(a + b, key) == if Lookup(a, key).Some? then Lookup(a, key) else Lookup(b, key)
  {
    hide IsKeyLine, ValueOf;
    if a == [] {
      assert a + b == b;
    } else {
      LookupConcat(a[1..], b, key);
      assert (a + b)[1..] == a[1..] + b;
    }
  }

  /** No line is for two keys. */
  lemma OneKey(line: string, key: string, other: string)
    requires ValidKey(key) && ValidKey(other)
    requires IsKeyLine(line, key) && IsKeyLine(line, other)
    ensures key == other
  {
    var m, n := 2 + |key|, 2 + |other|;
    assert forall i :: 2 <= i < n ==> line[..n][i] == other[i - 2] && !IsSpace(line[i]);
    assert forall i :: 2 <= i < m ==> line[..m][i] == key[i - 2] && !IsSpace(line[i]);
    assert m == n;
    assert key == line[..m][2..];
  }

  /** The update in one piece: an old line (if there was one) gives way to the new one. */
  lemma UpdateShape(ls: seq<string>, key: string, val: string)
    returns (a: seq<string>, b: seq<string>, c: seq<string>)
    ensures ls == a + b + c
    ensures Update(ls, key, val) == a + [OptionLine(key, val)] + Without(c, key)
    ensures HasNoKey(a, key) && Without(b, key) == []
    ensures forall j :: 0 <= j < |b| ==> IsKeyLine(b[j], key)
    ensures ls != [] && !IsKeyLine(ls[0], key) ==> a != [] && a[0] == ls[0]
  {
    hide IsKeyLine, OptionLine;
    var i := FirstKey(ls, key);
    if i < |ls| {
      a, b, c := ls[..i], [ls[i]], ls[i + 1..];
    } else {
      var n := if ls == [] then 0 else 1;
      a, b, c := ls[..n], [], ls[n..];
      WithoutNothing(c, key);
    }
  }

  /** The update is a map update: the key reads as the new value, any other key as before. */
  lemma LookupUpdate(ls: seq<string>, key: string, val: string, other: string)
    requires ValidKey(key) && ValidKey(other) && ValidValue(val)
    ensures Lookup(Update(ls, key, val), other)
         == if other == key then Some(Strip(val)) else Lookup(ls, other)
  {
    hide IsKeyLine, ValueOf, OptionLine, Without, Update, ValidKey, ValidValue;
    var line := OptionLine(key, val);
    OptionLineFor(key, val, other);
    OptionLineFor(key, val, key);
    var a, b, c := UpdateShape(ls, key, val);
    LookupConcat(a + [line], Without(c, key), other);
    LookupConcat(a, [line], other);
    LookupConcat(a + b, c, other);
    LookupConcat(a, b, other);
    if other == key {
      FirstKeyIs(a, key, |a|);
    } else {
      forall l: string | IsKeyLine(l, key) ensures !IsKeyLine(l, other)
      {
        if IsKeyLine(l, other) { OneKey(l, key, other); }
      }
      LookupWithout(c, key, other);
    }
  }

  lemma {:induction false} WithoutConcat(a: seq<string>, b: seq<string>, key: string)
    ensures Without(a + b, key) == Without(a, key) + Without(b, key)
  {
    hide Without, IsKeyLine;
    if a == [] {
      assert a + b == b;
      assert Without([], key) == [] by { WithoutNothing([], key); }
    } else {
      WithoutStep(a[0], a[1..], key);
      WithoutStep(a[0], a[1..] + b, key);
      WithoutConcat(a[1..], b, key);
      assert a == [a[0]] + a[1..];
      assert a + b == [a[0]] + (a[1..] + b);
    }
  }

  lemma WithoutStep(line: string, ls: seq<string>, key: string)
    ensures Without([line] + ls, key) == (if IsKeyLine(line, key) then [] else [line]) + Without(ls, key)
  {
    hide IsKeyLine;
    assert ([line] + ls)[1..] == ls;
  }

  /** The update leaves every line that is not for the key where it was, and exactly one line
      for the key. */
  lemma UpdateKeepsOthers(ls: seq<string>, key: string, val: string)
    requires ValidKey(key) && ValidValue(val)
    ensures Without(Update(ls, key, val), key) == Without(ls, key)
    ensures |Update(ls, key, val)| == |Without(ls, key)| + 1
  {
    hide IsKeyLine, OptionLine, Without, Update, ValidKey, ValidValue;
    var line := OptionLine(key, val);
    OptionLineFor(key, val, key);
    WithoutOne(line, key);
    var a, b, c := UpdateShape(ls, key, val);
    var d := Without(c, key);
    WithoutConcat(a + b, c, key);
    WithoutConcat(a, b, key);
    WithoutConcat(a + [line], d, key);
    WithoutConcat(a, [line], key);
    WithoutNothing(a, key);
    WithoutNothing(d, key);
  }

  lemma WithoutOne(line: string, key: string)
    ensures Without([line], key) == if IsKeyLine(line, key) then [] else [line]
  {
    hide IsKeyLine;
  }

  /** What stands behind lines without the key is found. */
  lemma InsertedReads(t: string, key: string, val: string)
    requires ValidKey(key) && ValidValue(val)
    requires var (start, stop) := Slot(t, key);
             AtLine(t[stop..]) && (start > 0 ==> IsEol(t[start - 1])) && HasNoKey(Lines(t[..start]), key)
    ensures GetCfgValue(SetCfgValue(t, key, val), key) == Some(Strip(val))
  {
    hide *;
    var (start, stop) := Slot(t, key);
    SetSplices(t, key, val);
    var a, line, d := Lines(t[..start]), OptionLine(key, val), Without(Lines(t[stop..]), key);
    GetIsLookup(SetCfgValue(t, key, val), key);
    OptionLineFor(key, val, key);
    LookupBehind(a, line, d, key);
  }

  lemma LookupBehind(a: seq<string>, line: string, d: seq<string>, key: string)
    requires HasNoKey(a, key) && IsKeyLine(line, key)
    ensures Lookup(a + [line] + d, key) == Some(ValueOf(line, key))
  {
    hide IsKeyLine, ValueOf;
    var ls := a + [line] + d;
    assert ls[..|a|] == a && ls[|a|] == line;
    FirstKeyIs(ls, key, |a|);
  }

  /** A file that is a single line without a line end takes no new option: the option is glued
      to that line. So what is set reads back exactly when the text is empty, or has a line end,
      or had a line for the key already. (No key has a quote in it.) */
  lemma SetReadsBackIff(t: string, key: string, val: string)
    requires ValidKey(key) && ValidValue(val) && '"' !in key
    ensures GetCfgValue(SetCfgValue(t, key, val), key) == Some(Strip(val))
       <==> t == "" || GetCfgValue(t, key).Some? || Span(NotEol, t) < |t|
  {
    hide Span, Lines, Update, LineLength, IsKeyLine, OptionLine, FindLine, Lookup, Strip, ValidKey, ValidValue,
         ValueOf, DeleteLines, HasNoKey, SetCfgValue;
    if GetCfgValue(t, key).Some? {
      FoundSplit(t, key);
      FindLineSplit(t, key);
      InsertedReads(t, key, val);
    } else if Span(NotEol, t) < |t| {
      MissingSplit(t, key);
      InsertedReads(t, key, val);
    } else if t == "" {
      EmptySlot(key);
      InsertedReads(t, key, val);
    } else {
      NoLineEndGlues(t, key, val);
      GetIsLookup(SetCfgValue(t, key, val), key);
    }
  }

  lemma EmptySlot(key: string)
    ensures Slot("", key) == (0, 0) && HasNoKey(Lines(""[..0]), key)
  {
  }

  /** The place behind the first line, when the key is missing. */
  lemma MissingSplit(t: string, key: string)
    requires ValidKey(key) && GetCfgValue(t, key).None? && Span(NotEol, t) < |t|
    ensures var (start, stop) := Slot(t, key);
            && start == stop == LineLength(t) && AtLine(t[stop..]) && start > 0 && IsEol(t[start - 1])
            && HasNoKey(Lines(t[..start]), key)
  {
    hide *;
    LineEnd(t);
    MissingAt(t, key);
    MissingHasNoKey(t, key);
    var k := LineLength(t);
    EndOf(t, k);
    assert t == t[..k] + t[k..];
    LinesConcat(t[..k], t[k..]);
    NoKeyBefore(Lines(t[..k]), Lines(t[k..]), key);
  }

  lemma MissingAt(t: string, key: string)
    requires GetCfgValue(t, key).None?
    ensures Slot(t, key) == (LineLength(t), LineLength(t)) && FindLine(t, key) == |t|
  {
    hide FindLine, LineLength, IsKeyLine, ValueOf;
  }

  lemma MissingHasNoKey(t: string, key: string)
    requires ValidKey(key) && FindLine(t, key) == |t|
    ensures HasNoKey(Lines(t), key)
  {
    hide FindLine, Lines, HasNoKey, ValidKey;
    FindLineSplit(t, key);
    assert t[..|t|] == t;
  }

  lemma NoKeyBefore(a: seq<string>, b: seq<string>, key: string)
    requires HasNoKey(a + b, key)
    ensures HasNoKey(a, key)
  {
    hide IsKeyLine;
    assert forall j :: 0 <= j < |a| ==> (a + b)[j] == a[j];
  }

  lemma EndOf(t: string, k: nat)
    requires 0 < k <= |t| && IsEol(t[k - 1]) && AtLine(t[k..])
    ensures Seam(t[..k], t[k..])
  {
  }

  /** The glued line is no line for the key. */
  lemma GluedNoKey(t: string, line: string, key: string)
    requires t != "" && !IsKeyLine(t, key) && '"' !in key && line != "" && line[0] == '"'
    ensures !IsKeyLine(t + line, key)
  {
    var u, head := t + line, "\" " + key;
    var n := |head|;
    if n <= |t| {
      assert u[..n] == t[..n];
      assert n < |t| ==> u[n] == t[n];
    } else {
      assert |t| >= 2 ==> head[|t|] == key[|t| - 2];
      assert u[|t|] == '"' != head[|t|];
      assert |u| >= n ==> u[..n][|t|] == u[|t|];
    }
  }

  lemma NoLineEndGlues(t: string, key: string, val: string)
    requires ValidKey(key) && ValidValue(val) && '"' !in key
    requires t != "" && GetCfgValue(t, key).None? && Span(NotEol, t) == |t|
    ensures Lines(SetCfgValue(t, key, val)) == [t + OptionLine(key, val)]
    ensures Lookup(Lines(SetCfgValue(t, key, val)), key).None?
  {
    hide Span, Lines, IsKeyLine, FindLine, ValueOf, OptionLine, ValidKey;
    var line := t + OptionLine(key, val);
    var u := line + "\n";
    FindLineFinds(t, key);
    FindLineStep(t, key);
    assert t[|t|..] == "" && t[..|t|] == t;
    SpanIs(Eol, "", 0);
    assert LineLength(t) == |t|;
    assert DeleteLines("", key) == "";
    assert SetCfgValue(t, key, val) == u;
    OptionLineEol(key, val);
    OptionLineQuote(key, val);
    SpanIs(NotEol, u, |line|);
    assert u[|line|..] == "\n" && u[..|line|] == line;
    SpanIs(Eol, "\n", 1);
    LinesStep(u);
    LinesEmpty();
    assert u[|line| + 1..] == "";
    GluedNoKey(t, OptionLine(key, val), key);
    FirstKeyIs([line], key, 1);
  }

  lemma OptionLineEol(key: string, val: string)
    requires ValidKey(key) && ValidValue(val)
    ensures All(NotEol, OptionLine(key, val))
  {
    assert All(NotEol, key);
    AllConcat(NotEol, "\" ", key);
    AllConcat(NotEol, "\" " + key, " ");
    AllConcat(NotEol, "\" " + key + " ", val);
  }
}

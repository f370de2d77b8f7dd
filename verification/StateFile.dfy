/** The state file in memory: a NUL-terminated string in a buffer that is edited in place while
    it does not have to grow. */
module StateFile {
  import opened CText
  import opened StateText
  import opened Scratch

  predicate NulFree(t: string) { forall i :: 0 <= i < |t| ==> t[i] != '\0' }

  /** The bytes hold the string and its terminator; what lies beyond does not matter. */
  predicate Holds(b: seq<char>, t: string)
  {
    && |t| < |b| && b[|t|] == '\0'
    && b[..|t|] == t
    && NulFree(t)
  }

  // ---- memmove, memset, memcpy --------------------------------------------------------------

  function Splice(b: seq<char>, at: nat, s: seq<char>): (r: seq<char>)
    requires at + |s| <= |b|
    ensures |r| == |b| && r[..at] == b[..at] && r[at..at + |s|] == s && r[at + |s|..] == b[at + |s|..]
  {
    b[..at] + s + b[at + |s|..]
  }

  function Fill(c: char, n: nat): seq<char> { seq(n, i => c) }

  lemma SpliceIndex(b: seq<char>, at: nat, s: seq<char>)
    requires at + |s| <= |b|
    ensures forall i :: 0 <= i < |b| ==>
              Splice(b, at, s)[i] == if at <= i < at + |s| then s[i - at] else b[i]
  {
  }

  method MemMove(a: array<char>, dst: nat, src: nat, n: nat)
    requires dst + n <= a.Length && src + n <= a.Length
    modifies a
    ensures a[..] == Splice(old(a[..]), dst, old(a[..])[src..src + n])
  {
    ghost var b := a[..];
    forall i | dst <= i < dst + n {
      a[i] := a[i - dst + src];
    }
    SpliceIndex(b, dst, b[src..src + n]);
    assert a[..] == Splice(b, dst, b[src..src + n]);
  }

  method MemSet(a: array<char>, at: nat, c: char, n: nat)
    requires at + n <= a.Length
    modifies a
    ensures a[..] == Splice(old(a[..]), at, Fill(c, n))
  {
    ghost var b := a[..];
    forall i | at <= i < at + n {
      a[i] := c;
    }
    SpliceIndex(b, at, Fill(c, n));
    assert a[..] == Splice(b, at, Fill(c, n));
  }

  /** memcpy into a buffer from other memory. */
  method MemCopy(a: array<char>, at: nat, s: seq<char>)
    requires at + |s| <= a.Length
    modifies a
    ensures a[..] == Splice(old(a[..]), at, s)
  {
    ghost var b := a[..];
    forall i | at <= i < at + |s| {
      a[i] := s[i - at];
    }
    SpliceIndex(b, at, s);
    assert a[..] == Splice(b, at, s);
  }

  lemma SpliceSplice(b: seq<char>, at: nat, s: seq<char>, u: seq<char>)
    requires at + |s| + |u| <= |b|
    ensures Splice(Splice(b, at, s), at + |s|, u) == Splice(b, at, s + u)
  {
  }

  lemma LinePieces(b: seq<char>, at: nat, key: string, val: string)
    requires at + |key| + |val| + 4 <= |b|
    ensures var b2 := Splice(Splice(b, at, "\" "), at + 2, key);
            var b4 := Splice(Splice(b2, at + 2 + |key|, " "), at + 3 + |key|, val);
            Splice(b4, at + 3 + |key| + |val|, "\n") == Splice(b, at, OptionLine(key, val) + "\n")
  {
    hide Splice;
    SpliceSplice(b, at, "\" ", key);
    SpliceSplice(b, at, "\" " + key, " ");
    SpliceSplice(b, at, "\" " + key + " ", val);
    SpliceSplice(b, at, OptionLine(key, val), "\n");
  }

  /** What the terminated string contributes to a copy. */
  lemma HeldSlice(b: seq<char>, t: string, i: nat)
    requires Holds(b, t) && i <= |t|
    ensures b[..i] == t[..i] && b[i..|t| + 1] == t[i..] + ['\0'] && |t| < |b|
  {
    assert b[..|t|][..i] == b[..i] && b[..|t|][i..] == b[i..|t|];
  }

  lemma HeldAt(b: seq<char>, t: string, i: nat)
    requires Holds(b, t) && i <= |t|
    ensures i < |b| && b[i] == if i < |t| then t[i] else '\0'
    ensures b[i] == '\0' <==> i == |t|
  {
    assert t == b[..|t|];
  }

  lemma HeldPart(b: seq<char>, t: string, i: nat, n: nat)
    requires Holds(b, t) && i + n <= |t|
    ensures b[i..i + n] == t[i..][..n]
  {
    PartOfPrefix(b, |t|, i, n);
    PartOfRest(t, i, n);
  }

  lemma PartOfPrefix(b: seq<char>, m: nat, i: nat, n: nat)
    requires i + n <= m <= |b|
    ensures b[..m][i..i + n] == b[i..i + n]
  {
    var x, y := b[..m][i..i + n], b[i..i + n];
    forall k | 0 <= k < n ensures x[k] == y[k] { assert x[k] == b[..m][i + k]; }
  }

  lemma PartOfRest(t: seq<char>, i: nat, n: nat)
    requires i + n <= |t|
    ensures t[i..][..n] == t[i..i + n]
  {
    var x, y := t[i..][..n], t[i..i + n];
    forall k | 0 <= k < n ensures x[k] == y[k] { assert x[k] == t[i..][k]; }
  }

  /** strlen from an offset. */
  method StrLen(a: array<char>, ghost t: string, at: nat) returns (n: nat)
    requires Holds(a[..], t) && at <= |t|
    ensures n == |t| - at
  {
    hide Holds;
    n := 0;
    HeldAt(a[..], t, at);
    while a[at + n] != '\0'
      invariant at + n <= |t| && at + n < a.Length
      invariant a[at + n] == '\0' <==> at + n == |t|
      decreases |t| - n
    {
      n := n + 1;
      HeldAt(a[..], t, at + n);
    }
  }

  /** Moving the tail (terminator included) down and clearing `k` bytes from the new terminator
      on: what both deletions do. */
  lemma RemoveHolds(b: seq<char>, t: string, start: nat, stop: nat, k: nat)
    requires Holds(b, t) && start <= stop <= |t| && k <= stop - start + 1
    ensures var tail := |t| - stop;
            && stop + tail < |b|
            && Holds(Splice(Splice(b, start, b[stop..stop + tail + 1]), start + tail, Fill('\0', k)),
                     t[..start] + t[stop..])
  {
    hide Splice;
    var tail := |t| - stop;
    HeldSlice(b, t, start);
    HeldSlice(b, t, stop);
    var c := Splice(b, start, b[stop..stop + tail + 1]);
    var d := Splice(c, start + tail, Fill('\0', k));
    var u := t[..start] + t[stop..];
    assert c[..start + tail + 1] == u + ['\0'] by {
      assert c[..start + tail + 1] == c[..start] + c[start..start + tail + 1];
    }
    assert c[..start + tail] == u && c[start + tail] == '\0';
    assert d[start + tail] == if k > 0 then Fill('\0', k)[0] else c[start + tail..][0];
  }

  lemma SpliceKeeps(b: seq<char>, at: nat, s: seq<char>, i: nat, j: nat)
    requires at + |s| <= |b| && i <= j <= |b|
    requires j <= at || at + |s| <= i
    ensures Splice(b, at, s)[i..j] == b[i..j]
  {
  }

  lemma SpliceWrites(b: seq<char>, at: nat, s: seq<char>, n: nat)
    requires at + |s| <= |b| && n <= |s|
    ensures Splice(b, at, s)[at..at + n] == s[..n]
  {
  }

  /** Bytes with `total` of them to be written from `start` on, between what stood before
      [start..stop) and, terminator included, what stood after. */
  predicate Gap(b: seq<char>, t: string, start: nat, stop: nat, total: nat)
    requires start <= stop <= |t|
  {
    var n := start + total;
    var end := n + |t| - stop;
    && end < |b| && b[end] == '\0'
    && b[0..start] == t[..start]
    && b[n..end] == t[stop..]
  }

  /** The tail moves, down in place or up into room that is there ... */
  lemma GapMoved(b: seq<char>, t: string, start: nat, stop: nat, total: nat)
    requires Holds(b, t) && start <= stop <= |t| && start + total + |t| - stop < |b|
    ensures |t| < |b| && Gap(Splice(b, start + total, b[stop..|t| + 1]), t, start, stop, total)
  {
    hide Splice, Holds;
    HeldSlice(b, t, start);
    HeldSlice(b, t, stop);
    var n, tail := start + total, |t| - stop;
    var moved := b[stop..|t| + 1];
    SpliceKeeps(b, n, moved, 0, start);
    SpliceWrites(b, n, moved, tail);
    SpliceWrites(b, n, moved, tail + 1);
    assert moved[..tail] == t[stop..] && moved[tail] == '\0';
    assert Splice(b, n, moved)[n..n + tail + 1][tail] == '\0';
  }

  /** ... and clearing from its terminator on leaves it as it is. */
  lemma GapCleared(c: seq<char>, t: string, start: nat, stop: nat, total: nat, k: nat)
    requires start <= stop <= |t| && Gap(c, t, start, stop, total)
    requires start + total + |t| - stop + k <= |c|
    ensures Gap(Splice(c, start + total + |t| - stop, Fill('\0', k)), t, start, stop, total)
  {
    hide Splice;
    var end := start + total + |t| - stop;
    SpliceKeeps(c, end, Fill('\0', k), 0, start);
    SpliceKeeps(c, end, Fill('\0', k), start + total, end);
    SpliceIndex(c, end, Fill('\0', k));
  }

  lemma GapResized(r: seq<char>, b: seq<char>, t: string, start: nat, stop: nat, total: nat)
    requires Holds(b, t) && start <= stop <= |t|
    requires |r| == start + |t| - stop + total + 1
    ensures |t| < |b|
    ensures Gap(Splice(Splice(r, 0, b[..start]), start + total, b[stop..|t| + 1]), t, start, stop, total)
  {
    hide Splice, Holds;
    HeldSlice(b, t, start);
    HeldSlice(b, t, stop);
    var n, tail := start + total, |t| - stop;
    var moved := b[stop..|t| + 1];
    var c := Splice(r, 0, b[..start]);
    SpliceWrites(r, 0, b[..start], start);
    SpliceKeeps(c, n, moved, 0, start);
    SpliceWrites(c, n, moved, tail);
    SpliceWrites(c, n, moved, tail + 1);
    assert moved[..tail] == t[stop..] && moved[tail] == '\0';
    assert Splice(c, n, moved)[n..n + tail + 1][tail] == '\0';
  }

  lemma GapFilled(b: seq<char>, t: string, start: nat, stop: nat, line: string)
    requires start <= stop <= |t| && Gap(b, t, start, stop, |line|) && NulFree(t) && NulFree(line)
    ensures Holds(Splice(b, start, line), t[..start] + line + t[stop..])
  {
    hide Splice;
    var d := Splice(b, start, line);
    var n := start + |line|;
    var end := n + |t| - stop;
    SpliceKeeps(b, start, line, 0, start);
    SpliceWrites(b, start, line, |line|);
    SpliceKeeps(b, start, line, n, end);
    SpliceIndex(b, start, line);
    assert line[..|line|] == line;
    assert d[..end] == d[0..start] + d[start..n] + d[n..end];
  }

  lemma HeldNulFree(b: seq<char>, t: string)
    requires Holds(b, t)
    ensures NulFree(t)
  {
  }

  lemma PartNulFree(t: string, i: nat, n: nat)
    requires NulFree(t) && i + n <= |t|
    ensures NulFree(t[i..][..n])
  {
  }

  lemma LineNulFree(key: string, val: string)
    requires NulFree(key) && NulFree(val)
    ensures NulFree(OptionLine(key, val) + "\n") && |OptionLine(key, val)| == |key| + |val| + 3
  {
  }

  lemma LineSize(key: string, val: string)
    ensures |OptionLine(key, val)| == |key| + |val| + 3
  {
  }

  lemma GapFits(b: seq<char>, t: string, start: nat, stop: nat, total: nat)
    requires start <= stop <= |t| && Gap(b, t, start, stop, total)
    ensures start + total + |t| - stop < |b|
  {
  }

  class Buffer {
    var buf: array<char>
    ghost var text: string

    ghost predicate Valid()
      reads this, buf
    {
      Holds(buf[..], text)
    }

    /** The file as read_file_contents leaves it. */
    constructor (contents: string)
      requires NulFree(contents)
      ensures Valid() && fresh(buf) && text == contents
    {
      buf := new char[|contents| + 1];
      text := contents;
      new;
      MemCopy(buf, 0, contents);
      buf[|contents|] := '\0';
    }

    /** The character at an offset; NUL at the end of the string and nowhere else. */
    method CharAt(at: nat) returns (c: char)
      requires Valid() && at <= |text|
      ensures c == if at < |text| then text[at] else '\0'
      ensures c == '\0' <==> at == |text|
    {
      HeldAt(buf[..], text, at);
      c := buf[at];
    }

    /** The whole string. */
    method Contents() returns (s: string)
      requires Valid()
      ensures s == text && NulFree(s)
    {
      hide NulFree;
      var n := LengthAt(0);
      HeldNulFree(buf[..], text);
      HeldSlice(buf[..], text, n);
      s := buf[..n];
    }

    /** strspn/strcspn from an offset. */
    method SpanAt(k: Class, at: nat) returns (n: nat)
      requires Valid() && at <= |text|
      ensures n == Span(k, text[at..])
    {
      hide Span, In, Holds, NulFree;
      n := 0;
      var c := CharAt(at);
      ghost var s := text[at..];
      while c != '\0' && In(c, k)
        invariant at + n <= |text|
        invariant c == if n < |s| then s[n] else '\0'
        invariant c == '\0' <==> n == |s|
        invariant forall i :: 0 <= i < n ==> In(s[i], k)
        decreases |text| - n
      {
        n := n + 1;
        c := CharAt(at + n);
      }
      SpanIs(k, s, n);
    }

    /** strlen from an offset. */
    method LengthAt(at: nat) returns (n: nat)
      requires Valid() && at <= |text|
      ensures n == |text| - at
    {
      n := StrLen(buf, text, at);
    }

    method LineLengthAt(at: nat) returns (n: nat)
      requires Valid() && at <= |text|
      ensures n == LineLength(text[at..])
    {
      n := SpanAt(NotEol, at);
      assert text[at..][n..] == text[at + n..];
      var e := SpanAt(Eol, at + n);
      n := n + e;
    }

    /** The test both functions make at the start of a line (strncmp stops at a NUL). */
    method KeyLineAt(at: nat, key: string) returns (found: bool)
      requires Valid() && at <= |text| && NulFree(key)
      ensures found == IsKeyLine(text[at..], key)
    {
      hide Holds, IsKeyLine;
      ghost var t := text[at..];
      var c := CharAt(at);
      if c != '"' {
        NotKeyLine(t, key, 0);
        return false;
      }
      c := CharAt(at + 1);
      if c != ' ' {
        NotKeyLine(t, key, 1);
        return false;
      }
      var i := 0;
      while i < |key|
        invariant 0 <= i <= |key| && 2 + i <= |t|
        invariant forall j :: 0 <= j < i ==> text[at + 2 + j] == key[j]
      {
        c := CharAt(at + 2 + i);
        if c != key[i] {
          NotKeyLine(t, key, 2 + i);
          return false;
        }
        i := i + 1;
      }
      c := CharAt(at + 2 + |key|);
      KeyLineStarts(t, key);
      found := c == '\0' || IsBlank(c) || IsEol(c);
    }

    /** The walk that looks for the first line for a key; the offset of the terminator if there
        is none. */
    method Find(key: string) returns (line: nat)
      requires Valid() && NulFree(key)
      ensures line == FindLine(text, key)
    {
      hide LineLength, IsKeyLine, Holds, NulFree, FindLine;
      line := 0;
      assert text[0..] == text;
      var c := CharAt(line);
      while c != '\0'
        invariant line <= |text| && (c == '\0' <==> line == |text|)
        invariant FindLine(text, key) == line + FindLine(text[line..], key)
        decreases |text| - line
      {
        FindLineStep(text[line..], key);
        var found := KeyLineAt(line, key);
        if found { return; }
        var n := LineLengthAt(line);
        DropDrop(text, line, n);
        line := line + n;
        c := CharAt(line);
      }
    }

    method GetCfgValue(key: string) returns (val: Option<string>)
      requires Valid() && NulFree(key)
      ensures val == StateText.GetCfgValue(text, key)
      ensures val.Some? ==> NulFree(val.value)
    {
      hide Span, IsKeyLine, FindLine, LineLength;
      var line := Find(key);
      FindLineFinds(text, key);
      var c := CharAt(line);
      if c == '\0' { return None; }
      var t := text[line..];
      var p := line + 2 + |key|;
      KeyLineLength(t, key);
      assert t[2 + |key|..] == text[p..];
      var b := SpanAt(Blank, p);
      assert text[p..][b..] == text[p + b..];
      var n := SpanAt(NotEol, p + b);
      HeldPart(buf[..], text, p + b, n);
      HeldNulFree(buf[..], text);
      PartNulFree(text, p + b, n);
      val := Some(buf[p + b..p + b + n]);
    }
  
    /** Takes [start..stop) out of the string, in place, and clears `k` bytes from the new
        terminator on. */
    method Remove(start: nat, stop: nat, k: nat)
      requires Valid() && start <= stop <= |text| && k <= stop - start + 1
      modifies this`text, buf
      ensures Valid()
      ensures text == old(text[..start] + text[stop..])
    {
      hide Holds, Splice;
      var tail := LengthAt(stop);
      RemoveHolds(buf[..], text, start, stop, k);
      MemMove(buf, start, stop, tail + 1);
      MemSet(buf, start + tail, '\0', k);
      text := text[..start] + text[stop..];
    }

    /** Makes room for `total` characters in the place of [start..stop): in place when they fit,
        else in a new buffer of just the size needed. */
    method MakeRoom(start: nat, stop: nat, total: nat)
      requires Valid() && start <= stop <= |text|
      modifies this`buf, buf
      ensures Gap(buf[..], text, start, stop, total)
      ensures if total <= stop - start then buf == old(buf)
              else fresh(buf) && buf.Length == |text| - (stop - start) + total + 1
    {
      hide Holds, Splice, Gap, NulFree;
      var tail := LengthAt(stop);
      assert stop + tail == |text|;
      if total <= stop - start {
        Shrink(start, stop, total, tail);
      } else {
        var resized := Resized(start, stop, total, tail);
        MemSet(buf, 0, '\0', stop + tail);
        buf := resized;
      }
    }

    /** The tail moves down in place, and what it leaves is cleared. */
    method Shrink(start: nat, stop: nat, total: nat, tail: nat)
      requires Valid() && start <= stop <= |text| && tail == |text| - stop && total <= stop - start
      modifies buf
      ensures Gap(buf[..], text, start, stop, total)
    {
      hide Holds, Splice, Gap, NulFree;
      HeldSlice(buf[..], text, 0);
      GapMoved(buf[..], text, start, stop, total);
      MemMove(buf, start + total, stop, tail + 1);
      GapCleared(buf[..], text, start, stop, total, stop - start - total + 1);
      MemSet(buf, start + total + tail, '\0', stop - start - total + 1);
    }

    /** A larger copy with room for `total` characters in the place of [start..stop). */
    method Resized(start: nat, stop: nat, total: nat, tail: nat) returns (resized: array<char>)
      requires Valid() && start <= stop <= |text| && tail == |text| - stop
      ensures fresh(resized) && resized.Length == start + tail + total + 1
      ensures stop + tail < buf.Length && Gap(resized[..], text, start, stop, total)
    {
      hide Holds, Splice, Gap, NulFree;
      resized := new char[start + tail + total + 1];
      GapResized(resized[..], buf[..], text, start, stop, total);
      MemCopy(resized, 0, buf[..start]);
      MemCopy(resized, start + total, buf[stop..stop + tail + 1]);
    }

    /** Writes the line for a key into the room made for it. */
    method FillLine(start: nat, key: string, val: string)
      requires start + |key| + |val| + 4 <= buf.Length
      modifies buf
      ensures buf[..] == Splice(old(buf[..]), start, OptionLine(key, val) + "\n")
    {
      hide Splice;
      LinePieces(buf[..], start, key, val);
      MemCopy(buf, start, "\" ");
      MemCopy(buf, start + 2, key);
      MemCopy(buf, start + 2 + |key|, " ");
      MemCopy(buf, start + 3 + |key|, val);
      MemCopy(buf, start + 3 + |key| + |val|, "\n");
    }

    /** Deletes every line for a key from an offset on. */
    method DeleteFrom(at: nat, key: string)
      requires Valid() && at <= |text| && NulFree(key)
      modifies this`text, buf
      ensures Valid()
      ensures text == old(text[..at]) + DeleteLines(old(text[at..]), key)
    {
      hide LineLength, IsKeyLine, Holds, NulFree, Span, DeleteLines;
      ghost var done := text[..at];
      ghost var kept := DeleteLines(text[at..], key);
      var line := at;
      var c := CharAt(line);
      while c != '\0'
        invariant Valid() && 0 <= line <= |text| && (c == '\0' <==> line == |text|)
        invariant done + kept == text[..line] + DeleteLines(text[line..], key)
        decreases |text| - line
      {
        ghost var t := text;
        var found := KeyLineAt(line, key);
        var n := LineLengthAt(line);
        DeleteStep(t, line, key);
        if found {
          Remove(line, line + n, n);
        } else {
          line := line + n;
        }
        c := CharAt(line);
      }
      assert text[..line] == text && text[line..] == "";
      assert DeleteLines("", key) == "" by { DeleteStep("", 0, key); }
    }

    /** Puts the line for a key in the place of [start..stop). */
    method PutLine(start: nat, stop: nat, key: string, val: string)
      requires Valid() && start <= stop <= |text| && NulFree(key) && NulFree(val)
      modifies this, buf
      ensures Valid()
      ensures text == old(text[..start]) + (OptionLine(key, val) + "\n") + old(text[stop..])
      ensures if |key| + |val| + 4 <= stop - start then buf == old(buf)
              else fresh(buf) && buf.Length == |text| + 1
    {
      hide Holds, Gap, Splice, NulFree, OptionLine;
      ghost var line := OptionLine(key, val) + "\n";
      HeldNulFree(buf[..], text);
      LineNulFree(key, val);
      MakeRoom(start, stop, |key| + |val| + 4);
      GapFits(buf[..], text, start, stop, |line|);
      GapFilled(buf[..], text, start, stop, line);
      FillLine(start, key, val);
      text := text[..start] + line + text[stop..];
    }

    /** Where the new line goes: over the old one, or behind the first line. */
    method SlotOf(key: string) returns (start: nat, stop: nat)
      requires Valid() && NulFree(key)
      ensures start <= stop <= |text| && (start, stop) == Slot(text, key)
    {
      hide LineLength, IsKeyLine, FindLine, Holds, NulFree;
      start := Find(key);
      var c := CharAt(start);
      if c == '\0' {
        start := LineLengthAt(0);
        assert text[0..] == text;
        stop := start;
      } else {
        var n := LineLengthAt(start);
        stop := start + n;
      }
    }

    /** set_cfg_value. */
    method SetCfgValue(key: string, val: string)
      requires Valid() && NulFree(key) && NulFree(val)
      modifies this, buf
      ensures Valid()
      ensures text == StateText.SetCfgValue(old(text), key, val)
      ensures buf == old(buf) || fresh(buf)
    {
      hide LineLength, IsKeyLine, FindLine, DeleteLines, Holds, NulFree, OptionLine, Slot;
      ghost var t := text;
      var start, stop := SlotOf(key);
      PutLine(start, stop, key, val);
      LineSize(key, val);
      ghost var line := OptionLine(key, val) + "\n";
      assert text[..start + |line|] == t[..start] + line && text[start + |line|..] == t[stop..];
      DeleteFrom(start + 4 + |key| + |val|, key);
    }

    method StrtoulAt(at: nat) returns (n: Number)
      requires Valid() && at <= |text|
      ensures n == Strtoul(text[at..])
    {
      hide Holds, Strtoul, NulFree;
      var len := LengthAt(at);
      HeldSlice(buf[..], text, at);
      HeldPart(buf[..], text, at, len);
      assert text[at..][..len] == text[at..];
      n := Strtoul(buf[at..at + len]);
    }

    /** The scan of check_scratch_codes: is the code listed, and on which line? */
    method ScanFor(code: int) returns (found: bool, ptr: nat)
      requires Valid()
      ensures var r := AfterSecret(text);
              && (found <==> FindCode(r, code) < |r|)
              && (found ==> ptr == Span(NotLf, text) + FindCode(r, code))
    {
      hide Holds, Span, FindCode, ScanCodes, NulFree, Stops, Hit, ValueAt, NextLine, IsOption;
      ptr := SpanAt(NotLf, 0);
      assert text[0..] == text;
      while true
        invariant ptr <= |text|
        invariant Span(NotLf, text) + FindCode(AfterSecret(text), code) == ptr + FindCode(text[ptr..], code)
        decreases |text| - ptr
      {
        ghost var r := text[ptr..];
        FindCodeStep(r, code);
        var e := SpanAt(Eol, ptr);
        ghost var s := r[e..];
        assert s == text[ptr + e..];
        ptr := ptr + e;
        var next := ScanLine(ptr);
        match next
        case None =>
          return false, ptr;
        case Some((isCode, value, k)) =>
          StepFacts(s, code);
          if isCode && value == code { return true, ptr; }
          assert s[k..] == text[ptr + k..];
          ptr := ptr + k;
      }
    }

    /** One line of the scan: nothing if it stops here, else whether this is a code and which,
        and how far to go on. */
    method ScanLine(ptr: nat) returns (next: Option<(bool, int, nat)>)
      requires Valid() && ptr <= |text|
      ensures var s := text[ptr..];
              && (next.None? <==> Stops(s))
              && (next.Some? ==> next.value == (!IsOption(s), if IsOption(s) then 0 else ValueAt(s), NextLine(s)))
    {
      hide Holds, Span, Strtoul, ToInt32, NulFree;
      ghost var s := text[ptr..];
      assert forall i :: 0 <= i < |s| ==> s[i] == text[ptr + i];
      var c := CharAt(ptr);
      if c == '"' {
        var k := SpanAt(NotLf, ptr);
        return Some((false, 0, k));
      }
      var n := StrtoulAt(ptr);
      var after := CharAt(ptr + n.end);
      if n.erange || n.end == 0 || !(after == '\0' || IsEol(after))
         || ToInt32(n.value) < SMALLEST_CODE || ToInt32(n.value) >= CODE_LIMIT {
        return None;
      }
      return Some((true, ToInt32(n.value), n.end));
    }

    /** check_scratch_codes: true when the code was listed; its line is gone then. */
    method CheckScratchCodes(code: int) returns (used: bool)
      requires Valid()
      modifies this`text, buf
      ensures Valid()
      ensures var spec := Scratch.CheckScratchCodes(old(text), code);
              used == spec.Some? && text == if used then spec.value else old(text)
      ensures !used ==> buf[..] == old(buf[..])
    {
      hide Holds, Span, Strtoul, FindCode, NulFree, Cut;
      var ptr;
      used, ptr := ScanFor(code);
      if used {
        var n := StrtoulAt(ptr);
        var eols := SpanAt(Eol, ptr + n.end);
        CutIs(text, ptr, n.end, eols);
        Remove(ptr, ptr + n.end + eols, n.end + eols + 1);
      }
    }
  }

  /** One step of the deleting walk, with the text before it. */
  lemma DeleteStep(t: string, line: nat, key: string)
    requires line <= |t|
    ensures line == |t| ==> DeleteLines(t[line..], key) == ""
    ensures line < |t| ==>
              var n := LineLength(t[line..]);
              var rest := t[line + n..];
              if IsKeyLine(t[line..], key) then
                var u := t[..line] + rest;
                u[..line] == t[..line] && u[line..] == rest
                && DeleteLines(t[line..], key) == DeleteLines(rest, key)
              else
                t[..line] + DeleteLines(t[line..], key) == t[..line + n] + DeleteLines(rest, key)
  {
    hide LineLength, IsKeyLine;
    if line < |t| {
      var n := LineLength(t[line..]);
      assert t[line..][n..] == t[line + n..];
      assert t[..line] + t[line..][..n] == t[..line + n];
    }
  }

  /** The first mismatch decides. */
  lemma NotKeyLine(t: string, key: string, i: nat)
    requires i < 2 + |key| && i <= |t|
    requires i < |t| ==> t[i] != ("\" " + key)[i]
    ensures !IsKeyLine(t, key)
  {
    var head := "\" " + key;
    assert forall j :: 0 <= j < |head| && |head| <= |t| ==> t[..|head|][j] == t[j];
  }

  lemma KeyLineStarts(t: string, key: string)
    requires |t| >= 2 + |key| && t[0] == '"' && t[1] == ' '
    requires forall j :: 0 <= j < |key| ==> t[2 + j] == key[j]
    ensures IsKeyLine(t, key) <==> |t| == 2 + |key| || IsBlank(t[2 + |key|]) || IsEol(t[2 + |key|])
  {
    assert t[..2 + |key|] == "\" " + key;
  }

  lemma KeyLineLength(t: string, key: string)
    requires IsKeyLine(t, key)
    ensures 2 + |key| <= |t|
  {
  }
}

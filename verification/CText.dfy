/** The parts of the C library the module leans on, over NUL-free text.
    A `char *` that points into a string is modelled by the text from there to the end. */
module CText {
  datatype Option<+T> = None | Some(value: T)

  const TWO31: int := 0x8000_0000
  const TWO32: int := 0x1_0000_0000
  const TWO63: int := 0x8000_0000_0000_0000
  const TWO64: int := 0x1_0000_0000_0000_0000

  /** Conversion to `int` and to `unsigned int`. */
  function ToInt32(n: int): (r: int)
    ensures -TWO31 <= r < TWO31
    ensures -TWO31 <= n < TWO31 ==> r == n
  {
    (n + TWO31) % TWO32 - TWO31
  }

  function ToUInt32(n: int): (r: nat)
    ensures r < TWO32
    ensures 0 <= n < TWO32 ==> r == n
  {
    n % TWO32
  }

  /** C division truncates toward zero. */
  function TruncDiv(a: int, b: int): int
    requires b > 0
  {
    if a >= 0 then a / b else -((-a) / b)
  }

  predicate IsEol(c: char) { c == '\r' || c == '\n' }
  predicate IsBlank(c: char) { c == ' ' || c == '\t' }
  /** isspace() in the C locale: blanks, line ends, vertical tab and form feed. */
  predicate IsSpace(c: char) { IsBlank(c) || IsEol(c) || c == '\U{0B}' || c == '\U{0C}' }
  predicate IsDigit(c: char) { '0' <= c <= '9' }

  /** The character sets the module hands to strspn, and (complemented) to strcspn. */
  datatype Class = Eol | NotEol | NotLf | NotCr | Blank | White | Space | NotSpace | Digit | HostName

  predicate In(c: char, k: Class)
  {
    match k
    case Eol => IsEol(c)
    case NotEol => !IsEol(c)
    case NotLf => c != '\n'
    case NotCr => c != '\r'
    case Blank => IsBlank(c)
    case White => IsBlank(c) || IsEol(c)
    case Space => IsSpace(c)
    case NotSpace => !IsSpace(c)
    case Digit => IsDigit(c)
    case HostName => IsDigit(c) || 'a' <= c <= 'z' || 'A' <= c <= 'Z' || c in ":%.-"
  }

  predicate All(k: Class, s: string) { forall i :: 0 <= i < |s| ==> In(s[i], k) }

  lemma AllSplit(k: Class, s: string, i: nat)
    requires i <= |s|
    ensures All(k, s) <==> All(k, s[..i]) && All(k, s[i..])
  {
    AllConcat(k, s[..i], s[i..]);
    assert s == s[..i] + s[i..];
  }

  lemma AllConcat(k: Class, a: string, b: string)
    ensures All(k, a + b) <==> All(k, a) && All(k, b)
  {
    hide In;
    var s := a + b;
    assert forall i :: 0 <= i < |a| ==> s[i] == a[i];
    assert forall i :: 0 <= i < |b| ==> s[|a| + i] == b[i];
  }

  lemma DropDrop(s: string, i: nat, j: nat)
    requires i + j <= |s|
    ensures s[i..][j..] == s[i + j..]
  {
  }

  /** strspn (strcspn for a complemented class). */
  function Span(k: Class, s: string): (n: nat)
    ensures n <= |s|
    ensures forall i :: 0 <= i < n ==> In(s[i], k)
    ensures n < |s| ==> !In(s[n], k)
  {
    if s == "" || !In(s[0], k) then 0 else 1 + Span(k, s[1..])
  }

  lemma SpanIs(k: Class, s: string, n: nat)
    requires n <= |s|
    requires forall i :: 0 <= i < n ==> In(s[i], k)
    requires n < |s| ==> !In(s[n], k)
    ensures Span(k, s) == n
  {
    hide Span;
  }

  /** The span of a run that something outside the class (or nothing) follows is that run. */
  lemma SpanOf(k: Class, run: string, rest: string)
    requires All(k, run)
    requires rest != "" ==> !In(rest[0], k)
    ensures Span(k, run + rest) == |run|
  {
    hide Span, In;
    SpanIs(k, run + rest, |run|);
  }

  /** A span that ends inside a text, or before something outside the class, ignores what
      is appended. */
  lemma SpanAppend(k: Class, a: string, b: string)
    requires Span(k, a) < |a| || b == "" || !In(b[0], k)
    ensures Span(k, a + b) == Span(k, a)
  {
    hide Span, In;
    var n := Span(k, a);
    var s := a + b;
    assert forall i :: 0 <= i < |a| ==> s[i] == a[i];
    assert b != "" ==> s[|a|] == b[0];
    SpanIs(k, s, n);
  }

  /** A run of the class in front only makes the span longer. */
  lemma SpanSkip(k: Class, w: string, s: string)
    requires All(k, w)
    ensures Span(k, w + s) == |w| + Span(k, s)
    ensures (w + s)[Span(k, w + s)..] == s[Span(k, s)..]
  {
    hide Span, In;
    var n := Span(k, s);
    var t := w + s;
    assert forall i :: 0 <= i < |w| ==> t[i] == w[i];
    assert t[|w|..] == s;
    assert forall i :: |w| <= i < |t| ==> t[i] == s[i - |w|];
    SpanIs(k, t, |w| + n);
    DropDrop(t, |w|, n);
  }

  // ---- decimal numbers -------------------------------------------------------------------

  function DigitValue(c: char): (d: nat)
    requires IsDigit(c)
    ensures d < 10
  {
    c as int - '0' as int
  }

  function DigitChar(d: nat): (c: char)
    requires d < 10
    ensures IsDigit(c) && DigitValue(c) == d
  {
    ('0' as int + d) as char
  }

  function DecValue(s: string): nat
    requires All(Digit, s)
  {
    if s == "" then 0
    else
      assert IsDigit(s[|s| - 1]);
      assert All(Digit, s[..|s| - 1]);
      10 * DecValue(s[..|s| - 1]) + DigitValue(s[|s| - 1])
  }

  lemma TimesMonotone(d: nat, a: nat, b: nat)
    requires a <= b
    ensures d * a <= d * b
  {
  }

  lemma DivAtMost(n: nat, d: nat)
    requires d > 0
    ensures n / d <= n
  {
    var q, r := n / d, n % d;
    assert n == d * q + r;
    TimesMonotone(q, 1, d);
    assert q * d == d * q;
  }

  /** %u, %lu */
  function Dec(n: nat): (s: string)
    ensures s != "" && All(Digit, s) && DecValue(s) == n
  {
    if n < 10 then
      var s := [DigitChar(n)];
      assert s[..0] == "";
      s
    else
      var s := Dec(n / 10) + [DigitChar(n % 10)];
      assert s[..|s| - 1] == Dec(n / 10);
      s
  }

  /** %d, %ld */
  function DecInt(n: int): (s: string)
    ensures s != ""
    ensures forall i :: 0 <= i < |s| ==> IsDigit(s[i]) || s[i] == '-'
  {
    if n < 0 then "-" + Dec(-n) else Dec(n)
  }

  /** %+d */
  function DecSigned(n: int): (s: string)
    ensures s != "" && (s[0] == '+' || s[0] == '-')
    ensures All(Digit, s[1..])
  {
    if n < 0 then "-" + Dec(-n) else "+" + Dec(n)
  }

  lemma OneBlank()
    ensures All(Space, " ") && All(Space, "") && All(NotEol, " ") && All(NotEol, "")
    ensures IsBlank(' ') && !IsDigit(' ') && !IsDigit('+') && !IsDigit('-')
  {
  }

  /** What strtoul/strtol leave behind: the value, how much text was read (0 when there was no
      number at all) and whether errno was set. */
  datatype Number = Number(value: int, end: nat, erange: bool)

  function Magnitude(s: string): (r: (bool, nat, nat))
    ensures r.2 <= |s|
    ensures r.2 > 0 ==> IsDigit(s[r.2 - 1])
    ensures r.2 < |s| && r.2 > 0 ==> !IsDigit(s[r.2])
  {
    var a := Span(Space, s);
    var b := DigitsFrom(s, a);
    var d := Span(Digit, s[b..]);
    if d == 0 then (false, 0, 0)
    else
      var digits := s[b..][..d];
      assert digits[d - 1] == s[b + d - 1];
      (s[a] == '-', DecValue(digits), b + d)
  }

  function Strtoul(s: string): (r: Number)
    ensures r.end <= |s|
    ensures r.end > 0 ==> IsDigit(s[r.end - 1])
    ensures r.end < |s| && r.end > 0 ==> !IsDigit(s[r.end])
  {
    var (neg, m, end) := Magnitude(s);
    if m >= TWO64 then Number(TWO64 - 1, end, true)
    else Number(if neg then (TWO64 - m) % TWO64 else m, end, false)
  }

  function Strtol(s: string): Number
  {
    var (neg, m, end) := Magnitude(s);
    if neg then (if m > TWO63 then Number(0 - TWO63, end, true) else Number(0 - m, end, false))
    else (if m >= TWO63 then Number(TWO63 - 1, end, true) else Number(m, end, false))
  }

  /** Where the digits of the number start, when `a` white-space characters come first. */
  function DigitsFrom(s: string, a: nat): (b: nat)
    requires a <= |s|
    ensures a <= b <= |s|
  {
    if a < |s| && (s[a] == '-' || s[a] == '+') then a + 1 else a
  }

  lemma MagnitudeIs(s: string, a: nat, b: nat, d: nat)
    requires Span(Space, s) == a && b == DigitsFrom(s, a) && Span(Digit, s[b..]) == d
    ensures d == 0 ==> Magnitude(s) == (false, 0, 0)
    ensures d > 0 ==> Magnitude(s) == (s[a] == '-', DecValue(s[b..][..d]), b + d)
  {
    hide Span, DecValue;
  }

  lemma MagnitudeAt(s: string, a: nat, b: nat, e: nat)
    requires a <= b < e <= |s|
    requires forall i :: 0 <= i < a ==> IsSpace(s[i])
    requires !IsSpace(s[a])
    requires b == if s[a] == '-' || s[a] == '+' then a + 1 else a
    requires forall i :: b <= i < e ==> IsDigit(s[i])
    requires e < |s| ==> !IsDigit(s[e])
    ensures All(Digit, s[b..e]) && Magnitude(s) == (s[a] == '-', DecValue(s[b..e]), e)
  {
    hide Span, DecValue, Magnitude;
    SpanIs(Space, s, a);
    var u := s[b..];
    assert forall i :: 0 <= i < e - b ==> u[i] == s[b + i];
    SpanIs(Digit, u, e - b);
    assert u[..e - b] == s[b..e];
    MagnitudeIs(s, a, b, e - b);
  }

  lemma MagnitudeOf(pre: string, sign: string, n: nat, rest: string)
    requires All(Space, pre)
    requires sign == "" || sign == "-" || sign == "+"
    requires rest != "" ==> !IsDigit(rest[0])
    ensures Magnitude(pre + sign + Dec(n) + rest) == (sign == "-", n, |pre + sign + Dec(n)|)
  {
    hide Dec, DecValue, Magnitude, Span;
    var digits := Dec(n);
    var s := pre + sign + digits + rest;
    var b, e := |pre| + |sign|, |pre| + |sign| + |digits|;
    assert forall i :: 0 <= i < |pre| ==> s[i] == pre[i];
    assert forall i :: b <= i < e ==> s[i] == digits[i - b];
    assert s[|pre|] == if sign == "" then digits[0] else sign[0];
    assert s[b..e] == digits;
    MagnitudeAt(s, |pre|, b, e);
  }

  /** A number that starts a line is read from that line alone. */
  lemma MagnitudeInLine(s: string, n: nat)
    requires 0 < n <= |s| && !IsSpace(s[0])
    requires n < |s| ==> IsEol(s[n])
    ensures Magnitude(s[..n]) == Magnitude(s)
  {
    hide DecValue, Magnitude, Span;
    var line := s[..n];
    assert Span(Space, s) == 0 && Span(Space, line) == 0 by {
      assert line[0] == s[0];
      SpanIs(Space, s, 0);
      SpanIs(Space, line, 0);
    }
    var b := DigitsFrom(s, 0);
    var u := s[b..];
    assert line[b..] == u[..n - b];
    SpanInLine(u, n - b);
    var d := Span(Digit, u);
    MagnitudeIs(s, 0, b, d);
    MagnitudeIs(line, 0, b, d);
  }

  lemma SpanInLine(u: string, n: nat)
    requires n <= |u| && (n < |u| ==> IsEol(u[n]))
    ensures var v := u[..n]; var d := Span(Digit, v); Span(Digit, u) == d && u[..d] == v[..d]
  {
    hide Span;
    SpanIs(Digit, u, Span(Digit, u[..n]));
  }

  /** The number is a matter of the text up to and including the character that ends it. */
  lemma MagnitudePrefix(s: string, t: string)
    requires var k := Magnitude(s).2; 0 < k < |s| && k < |t| && s[..k + 1] == t[..k + 1]
    ensures Magnitude(t) == Magnitude(s)
  {
    hide Span, DecValue, Magnitude;
    var k := Magnitude(s).2;
    var a := Span(Space, s);
    var b := DigitsFrom(s, a);
    var d := Span(Digit, s[b..]);
    MagnitudeIs(s, a, b, d);
    assert forall i :: 0 <= i <= k ==> s[i] == s[..k + 1][i] == t[i];
    SpanIs(Space, t, a);
    assert s[b..][..d + 1] == s[..k + 1][b..] == t[b..][..d + 1];
    DigitsPrefix(s[b..], t[b..], d);
    MagnitudeIs(t, a, b, d);
  }

  lemma DigitsPrefix(u: string, v: string, d: nat)
    requires d < |u| && d < |v| && Span(Digit, u) == d && u[..d + 1] == v[..d + 1]
    ensures Span(Digit, v) == d && u[..d] == v[..d]
  {
    hide Span;
    assert forall i :: 0 <= i <= d ==> u[i] == u[..d + 1][i] == v[i];
    SpanIs(Digit, v, d);
  }

  lemma StrtoulPrefix(s: string, t: string)
    requires var k := Strtoul(s).end; 0 < k < |s| && k < |t| && s[..k + 1] == t[..k + 1]
    ensures Strtoul(t) == Strtoul(s)
  {
    hide Magnitude;
    MagnitudePrefix(s, t);
  }

  /** A number is not changed by appending something that is no digit. */
  lemma StrtoulExtend(p: string, x: string)
    requires Strtoul(p).end > 0 && x != "" && !IsDigit(x[0])
    ensures Strtoul(p + x) == Strtoul(p)
  {
    hide Span, DecValue, Magnitude;
    var a := Span(Space, p);
    var b := DigitsFrom(p, a);
    var d := Span(Digit, p[b..]);
    MagnitudeIs(p, a, b, d);
    SpanAppend(Space, p, x);
    assert (p + x)[a] == p[a];
    assert (p + x)[b..] == p[b..] + x;
    SpanAppend(Digit, p[b..], x);
    assert (p[b..] + x)[..d] == p[b..][..d];
    MagnitudeIs(p + x, a, b, d);
  }

  /** A printed int reads back through `(int)strtoul`, whatever blanks stand before it. */
  lemma ReadInt(pre: string, n: int, rest: string)
    requires All(Space, pre)
    requires -TWO31 <= n < TWO31
    requires rest != "" ==> !IsDigit(rest[0])
    ensures var r := Strtoul(pre + DecInt(n) + rest);
            ToInt32(r.value) == n && r.end == |pre + DecInt(n)| && !r.erange
  {
    hide *;
    var sign := if n < 0 then "-" else "";
    var m: nat := if n < 0 then 0 - n else n;
    MagnitudeOf(pre, sign, m, rest);
    DecIntIs(n);
    assert pre + (sign + Dec(m)) == pre + sign + Dec(m);
    WrapsBack(n, m);
    StrtoulOf(pre + DecInt(n) + rest, n < 0, m, |pre + DecInt(n)|);
  }

  lemma DecIntIs(n: int)
    ensures DecInt(n) == if n < 0 then "-" + Dec(0 - n) else "" + Dec(n)
  {
    hide Dec;
    assert n >= 0 ==> "" + Dec(n) == Dec(n);
  }

  lemma StrtoulOf(s: string, neg: bool, m: nat, end: nat)
    requires Magnitude(s) == (neg, m, end) && m < TWO64
    ensures Strtoul(s) == Number(if neg then (TWO64 - m) % TWO64 else m, end, false)
  {
    hide Magnitude;
  }

  /** A negative number is read modulo 2^64, and the cast makes it what it was. */
  lemma WrapsBack(n: int, m: nat)
    requires -TWO31 <= n < TWO31 && m == if n < 0 then 0 - n else n
    ensures m < TWO64 && ToInt32(if n < 0 then (TWO64 - m) % TWO64 else m) == n
  {
  }

  lemma ReadUnsigned(pre: string, n: nat, rest: string)
    requires All(Space, pre)
    requires n < TWO64
    requires rest != "" ==> !IsDigit(rest[0])
    ensures Strtoul(pre + Dec(n) + rest) == Number(n, |pre + Dec(n)|, false)
  {
    hide Dec, Magnitude;
    MagnitudeOf(pre, "", n, rest);
    assert pre + "" + Dec(n) + rest == pre + Dec(n) + rest;
  }

  lemma ReadLong(n: int)
    requires -TWO63 <= n < TWO63
    ensures Strtol(DecInt(n)).value == n
  {
    hide Dec, Magnitude;
    var sign := if n < 0 then "-" else "";
    var m: nat := if n < 0 then -n else n;
    MagnitudeOf("", sign, m, "");
    assert "" + sign + Dec(m) + "" == DecInt(n);
  }

  // ---- substrings (strstr) ----------------------------------------------------------------

  predicate StartsWith(s: string, part: string)
  {
    |part| <= |s| && s[..|part|] == part
  }

  predicate Contains(s: string, part: string)
  {
    exists i :: 0 <= i <= |s| - |part| && StartsWith(s[i..], part)
  }
}

/** Scratch codes: the scan of check_scratch_codes and what it removes. */
module Scratch {
  import opened CText

  const SMALLEST_CODE := 10_000_000
  const CODE_LIMIT := 100_000_000

  /** The line is a scratch code: one eight-digit number and nothing else. */
  predicate IsCode(s: string, n: Number)
  {
    && !n.erange && n.end > 0
    && (n.end < |s| ==> IsEol(s[n.end]))
    && SMALLEST_CODE <= ToInt32(n.value) < CODE_LIMIT
  }

  predicate IsOption(s: string) { s != "" && s[0] == '"' }

  /** The scan stops here. */
  predicate Stops(s: string) { !IsOption(s) && !IsCode(s, Strtoul(s)) }

  function ValueAt(s: string): int { ToInt32(Strtoul(s).value) }

  /** The scan found its code at this line. */
  predicate Hit(s: string, code: int) { !IsOption(s) && IsCode(s, Strtoul(s)) && ValueAt(s) == code }

  /** Where the scan goes from `s`, which starts a line it does not stop at. */
  function NextLine(s: string): (n: nat)
    requires !Stops(s)
    ensures 0 < n <= |s|
    ensures n < |s| ==> IsEol(s[n])
  {
    if IsOption(s) then Span(NotLf, s) else Strtoul(s).end
  }

  /** The codes the scan would accept, in file order; it stops at the first line that is neither
      blank, an option nor a code. */
  function ScanCodes(r: string): seq<int>
    decreases |r|
  {
    var s := r[Span(Eol, r)..];
    if IsOption(s) then ScanCodes(s[NextLine(s)..])
    else if IsCode(s, Strtoul(s)) then [ToInt32(Strtoul(s).value)] + ScanCodes(s[NextLine(s)..])
    else []
  }

  /** Offset of the first line with this code, or the length of the text. */
  function FindCode(r: string, code: int): (i: nat)
    ensures i <= |r|
    decreases |r|
  {
    var e := Span(Eol, r);
    var s := r[e..];
    if IsOption(s) then e + NextLine(s) + FindCode(s[NextLine(s)..], code)
    else if !IsCode(s, Strtoul(s)) then |r|
    else if ToInt32(Strtoul(s).value) == code then e
    else e + NextLine(s) + FindCode(s[NextLine(s)..], code)
  }

  /** The part of the file the scan looks at. */
  function AfterSecret(t: string): string { t[Span(NotLf, t)..] }

  function Codes(t: string): seq<int> { ScanCodes(AfterSecret(t)) }

  // ---- what the scan finds ------------------------------------------------------------------

  function RemoveFirst(codes: seq<int>, code: int): seq<int>
  {
    if codes == [] then []
    else if codes[0] == code then codes[1..]
    else [codes[0]] + RemoveFirst(codes[1..], code)
  }

  lemma RemoveFirstLater(first: seq<int>, codes: seq<int>, code: int)
    requires first == [] || (|first| == 1 && first[0] != code)
    ensures RemoveFirst(first + codes, code) == first + RemoveFirst(codes, code)
  {
    if first == [] {
      assert first + codes == codes;
    } else {
      assert (first + codes)[1..] == codes;
    }
  }

  lemma FindCodeStep(r: string, code: int)
    ensures var e := Span(Eol, r); var s := r[e..];
            && (Stops(s) ==> FindCode(r, code) == |r| && ScanCodes(r) == [])
            && (!Stops(s) ==>
                  var rest := s[NextLine(s)..];
                  && ScanCodes(r) == (if IsOption(s) then [] else [ValueAt(s)]) + ScanCodes(rest)
                  && FindCode(r, code) == if Hit(s, code) then e else e + NextLine(s) + FindCode(rest, code))
  {
    hide Span, Strtoul, IsCode, NextLine, ToInt32, IsOption;
  }

  lemma {:induction false} FindCodeFinds(r: string, code: int)
    ensures FindCode(r, code) < |r| <==> code in ScanCodes(r)
    ensures var i := FindCode(r, code); i < |r| ==> Hit(r[i..], code)
    decreases |r|
  {
    hide Span, ScanCodes, FindCode, Stops, Hit, ValueAt, IsOption, NextLine;
    FindCodeStep(r, code);
    var e := Span(Eol, r);
    var s := r[e..];
    if Stops(s) {
    } else {
      StepFacts(s, code);
      var k := NextLine(s);
      var rest := s[k..];
      FindCodeFinds(rest, code);
      var i := FindCode(rest, code);
      assert r[e + k + i..] == rest[i..];
    }
  }

  lemma StepFacts(s: string, code: int)
    requires !Stops(s)
    ensures 0 < NextLine(s) <= |s|
    ensures Hit(s, code) <==> !IsOption(s) && ValueAt(s) == code
  {
    hide Span, Strtoul, ToInt32;
  }

  /** The code's line starts right after a line end. */
  lemma {:induction false} FindCodeAfterEol(r: string, code: int)
    requires r != "" ==> IsEol(r[0])
    ensures var i := FindCode(r, code); i < |r| ==> i > 0 && IsEol(r[i - 1])
    decreases |r|
  {
    hide Span, ScanCodes, FindCode, Hit, ValueAt, IsOption;
    FindCodeStep(r, code);
    var e := Span(Eol, r);
    var s := r[e..];
    if !Stops(s) && !Hit(s, code) {
      StepFacts(s, code);
      var k := NextLine(s);
      var rest := s[k..];
      assert k < |s| ==> rest[0] == s[k];
      FindCodeAfterEol(rest, code);
      var i := FindCode(rest, code);
      assert i > 0 && i < |rest| ==> r[e + k + i - 1] == rest[i - 1];
    }
  }

  lemma SameStep(s: string, t: string, code: int)
    requires !Stops(s)
    requires var k := NextLine(s); k < |s| && k < |t| && s[..k + 1] == t[..k + 1]
    ensures !Stops(t) && NextLine(t) == NextLine(s)
    ensures IsOption(t) == IsOption(s)
    ensures !IsOption(s) ==> ValueAt(t) == ValueAt(s)
  {
    hide Span, Strtoul;
    var k := NextLine(s);
    assert forall i :: 0 <= i <= k ==> s[i] == s[..k + 1][i] == t[i];
    if IsOption(s) {
      SpanIs(NotLf, t, k);
    } else {
      StrtoulPrefix(s, t);
    }
  }

  /** The text without the number at offset `i` and the line ends after it. */
  function Cut(r: string, i: nat): string
    requires i <= |r|
  {
    var p := r[i..][Strtoul(r[i..]).end..];
    r[..i] + p[Span(Eol, p)..]
  }

  /** How many line ends stand at offset `k`. */
  function EolsAt(r: string, k: nat): (e: nat)
    requires k <= |r|
    ensures k + e <= |r|
  {
    Span(Eol, r[k..])
  }

  lemma CutIs(r: string, i: nat, n: nat, e: nat)
    requires i + n <= |r| && n == Strtoul(r[i..]).end && e == EolsAt(r, i + n)
    ensures Cut(r, i) == r[..i] + r[i + n + e..]
  {
    hide *;
    DropDrop(r, i, n);
    CutAt(r, i, n, r[i + n..]);
    DropDrop(r, i + n, e);
  }

  lemma CutAt(r: string, i: nat, n: nat, p: string)
    requires i + n <= |r| && n == Strtoul(r[i..]).end && p == r[i..][n..] == r[i + n..]
    ensures Cut(r, i) == r[..i] + p[EolsAt(r, i + n)..]
  {
    hide Span, Strtoul;
  }

  lemma CutShift(a: string, r: string, i: nat)
    requires i <= |r|
    ensures Cut(a + r, |a| + i) == a + Cut(r, i)
  {
    hide Span, Strtoul;
    assert (a + r)[|a| + i..] == r[i..];
    assert (a + r)[..|a| + i] == a + r[..i];
  }

  function WithoutCode(r: string, code: int): string { Cut(r, FindCode(r, code)) }

  /** Taking the found line out takes the first occurrence of its code out of the list. */
  lemma {:induction false} WithoutCodeScan(r: string, code: int)
    requires FindCode(r, code) < |r| && IsEol(r[0])
    ensures ScanCodes(WithoutCode(r, code)) == RemoveFirst(ScanCodes(r), code)
    ensures WithoutCode(r, code) != "" && WithoutCode(r, code)[0] == r[0]
    decreases |r|
  {
    hide Span, ScanCodes, FindCode, Hit, ValueAt, IsOption, Strtoul, NextLine, Stops, WithoutCode;
    FindCodeStep(r, code);
    FindCodeFinds(r, code);
    var e := Span(Eol, r);
    var s := r[e..];
    assert !Stops(s);
    StepFacts(s, code);
    if Hit(s, code) {
      TakeOutHere(r, code);
    } else {
      var k := NextLine(s);
      var rest := s[k..];
      assert rest[0] == s[k];
      WithoutCodeScan(rest, code);
      var w := WithoutCode(rest, code);
      TakeOutLater(r, code);
      var t := s[..k] + w;
      assert s[..k + 1] == t[..k + 1];
      SameStep(s, t, code);
      var r' := r[..e] + t;
      assert r'[e..] == t && t[k..] == w;
      assert t[0] == s[0];
      SpanIs(Eol, r', e);
      FindCodeStep(r', code);
      var first := if IsOption(s) then [] else [ValueAt(s)];
      RemoveFirstLater(first, ScanCodes(rest), code);
    }
  }

  lemma TakeOutHere(r: string, code: int)
    requires FindCode(r, code) < |r| && IsEol(r[0])
    requires var s := r[Span(Eol, r)..]; !Stops(s) && Hit(s, code)
    ensures var s := r[Span(Eol, r)..];
            ScanCodes(WithoutCode(r, code)) == ScanCodes(s[NextLine(s)..])
    ensures WithoutCode(r, code) != "" && WithoutCode(r, code)[0] == r[0]
  {
    hide *;
    FindCodeStep(r, code);
    var e := Span(Eol, r);
    var s := r[e..];
    var p := s[NextLine(s)..];
    HitIs(r, s, e, code);
    BehindEols(r, p, e);
    SameScan(r[..e] + p[Span(Eol, p)..], p, code);
  }

  lemma HitIs(r: string, s: string, e: nat, code: int)
    requires e <= |r| && s == r[e..] && !Stops(s) && Hit(s, code) && FindCode(r, code) == e
    ensures var p := s[NextLine(s)..]; WithoutCode(r, code) == r[..e] + p[Span(Eol, p)..]
  {
    hide Span, FindCode, Strtoul, Stops;
  }

  /** Line ends before what comes behind line ends. */
  lemma BehindEols(r: string, p: string, e: nat)
    requires e == Span(Eol, r) && r != "" && IsEol(r[0])
    ensures var q := p[Span(Eol, p)..]; var u := r[..e] + q;
            u[Span(Eol, u)..] == q && u != "" && u[0] == r[0]
  {
    hide Span;
    var q := p[Span(Eol, p)..];
    var u := r[..e] + q;
    assert forall i :: 0 <= i < e ==> u[i] == r[i];
    assert q != "" ==> u[e] == q[0] == p[Span(Eol, p)];
    SpanIs(Eol, u, e);
    assert u[e..] == q;
  }

  lemma SameScan(r: string, u: string, code: int)
    requires r[Span(Eol, r)..] == u[Span(Eol, u)..]
    ensures ScanCodes(r) == ScanCodes(u)
  {
    hide Span, ScanCodes, FindCode, Stops, NextLine, ValueAt, IsOption, Hit;
    FindCodeStep(r, code);
    FindCodeStep(u, code);
  }

  lemma TakeOutLater(r: string, code: int)
    requires FindCode(r, code) < |r|
    requires var s := r[Span(Eol, r)..]; !Stops(s) && !Hit(s, code)
    ensures var e := Span(Eol, r); var s := r[e..]; var rest := s[NextLine(s)..];
            && FindCode(rest, code) < |rest|
            && WithoutCode(r, code) == r[..e] + (s[..NextLine(s)] + WithoutCode(rest, code))
  {
    hide Span, ScanCodes, FindCode, ValueAt, Stops, Hit, IsOption, NextLine, Cut;
    FindCodeStep(r, code);
    StepFacts(r[Span(Eol, r)..], code);
    var e := Span(Eol, r);
    var s := r[e..];
    var k := NextLine(s);
    var rest := s[k..];
    var a := r[..e] + s[..k];
    assert r == a + rest;
    CutShift(a, rest, FindCode(rest, code));
    assert a + Cut(rest, FindCode(rest, code)) == r[..e] + (s[..k] + Cut(rest, FindCode(rest, code)));
  }

  /** check_scratch_codes: the file without the code, or nothing when the code is not listed. */
  function CheckScratchCodes(t: string, code: int): Option<string>
  {
    var r := AfterSecret(t);
    if FindCode(r, code) == |r| then None
    else Some(Cut(t, Span(NotLf, t) + FindCode(r, code)))
  }

  /** A code is accepted exactly when it is listed, and then its first occurrence is gone and
      everything else of the list, and the first line, is as before. */
  lemma ScratchCodeUsedOnce(t: string, code: int)
    ensures CheckScratchCodes(t, code).Some? <==> code in Codes(t)
    ensures CheckScratchCodes(t, code).Some? ==>
              var u := CheckScratchCodes(t, code).value;
              && Codes(u) == RemoveFirst(Codes(t), code)
              && t[..Span(NotLf, t)] == u[..Span(NotLf, u)]
  {
    hide *;
    var n := Span(NotLf, t);
    var r := AfterSecret(t);
    FindCodeFinds(r, code);
    CheckIs(t, code);
    if FindCode(r, code) < |r| {
      SecretApart(t);
      WithoutCodeScan(r, code);
      CutShift(t[..n], r, FindCode(r, code));
      SecretKept(t[..n], WithoutCode(r, code), n);
    }
  }

  lemma CheckIs(t: string, code: int)
    ensures var n := Span(NotLf, t); var r := AfterSecret(t);
            && t == t[..n] + r && Codes(t) == ScanCodes(r)
            && (CheckScratchCodes(t, code).Some? <==> FindCode(r, code) < |r|)
            && (FindCode(r, code) < |r| ==>
                  && CheckScratchCodes(t, code) == Some(Cut(t[..n] + r, |t[..n]| + FindCode(r, code)))
                  && WithoutCode(r, code) == Cut(r, FindCode(r, code)))
  {
    hide Span, ScanCodes, FindCode, Cut;
    assert t == t[..Span(NotLf, t)] + AfterSecret(t);
  }

  lemma SecretApart(t: string)
    ensures var n := Span(NotLf, t); All(NotLf, t[..n]) && |t[..n]| == n
    ensures AfterSecret(t) != "" ==> IsEol(AfterSecret(t)[0]) && !In(AfterSecret(t)[0], NotLf)
  {
    hide Span;
    var n := Span(NotLf, t);
    assert forall i :: 0 <= i < n ==> t[..n][i] == t[i];
    assert n < |t| ==> t[n..][0] == t[n];
  }

  /** What follows the first line has no part in it. */
  lemma SecretKept(secret: string, rest: string, n: nat)
    requires All(NotLf, secret) && |secret| == n && rest != "" && !In(rest[0], NotLf)
    ensures var u := secret + rest; Span(NotLf, u) == n && u[..n] == secret && Codes(u) == ScanCodes(rest)
  {
    hide Span, ScanCodes, In;
    var u := secret + rest;
    SpanOf(NotLf, secret, rest);
    assert u[..n] == secret && u[n..] == rest;
  }
}

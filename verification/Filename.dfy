/** get_secret_filename: the expansion of `~`, `${HOME}` and `${USER}` in the place of the secret file. */
module Filename {
  import opened CText
  import opened StateFile

  const LONGEST := 1_000_000
  const HOME := "${HOME}"
  const USER := "${USER}"

  // ---- the specification as a list of tokens ----------------------------------------------------

  datatype Token = Literal(c: char) | Tilde | Home | User

  /** What a token is written as. */
  function Source(k: Token): string
  {
    match k case Literal(c) => [c] case Tilde => "~" case Home => HOME case User => USER
  }

  /** The token at the start of a text. */
  function FirstToken(s: string, tilde: bool): (k: Token)
    requires s != ""
    ensures StartsWith(s, Source(k)) && Source(k) != ""
  {
    if tilde && s[0] == '~' then Tilde
    else if StartsWith(s, HOME) then Home
    else if StartsWith(s, USER) then User
    else Literal(s[0])
  }

  /** `~` counts at the start, and behind a literal slash. */
  function Tokens(s: string, tilde: bool): seq<Token>
    decreases |s|
  {
    if s == "" then []
    else
      var k := FirstToken(s, tilde);
      [k] + Tokens(s[|Source(k)|..], k == Literal('/'))
  }

  /** What a token stands for; nothing when there is no home directory to be had or the text is
      unreasonably long. */
  function Value(k: Token, home: Option<string>, user: string): Option<string>
  {
    match k
    case Literal(c) => Some([c])
    case User => if |user| > LONGEST then None else Some(user)
    case _ => if home.None? || |home.value| > LONGEST then None else home
  }

  function Render(ks: seq<Token>, home: Option<string>, user: string): Option<string>
  {
    if ks == [] then Some("")
    else if Value(ks[0], home, user).None? || Render(ks[1..], home, user).None? then None
    else Some(Value(ks[0], home, user).value + Render(ks[1..], home, user).value)
  }

  /** The expansion: the specification is cut into tokens, none of which comes from a substituted
      text, and each is replaced by what it stands for. */
  function Expand(spec: string, home: Option<string>, user: string): Option<string>
  {
    Render(Tokens(spec, true), home, user)
  }

  function Sources(ks: seq<Token>): string
  {
    if ks == [] then "" else Source(ks[0]) + Sources(ks[1..])
  }

  /** The tokens are the whole specification, in order. */
  lemma {:induction false} TokensCover(s: string, tilde: bool)
    ensures Sources(Tokens(s, tilde)) == s
    decreases |s|
  {
    hide FirstToken, Source;
    if s != "" {
      var k := FirstToken(s, tilde);
      TokensCover(s[|Source(k)|..], k == Literal('/'));
      assert s == Source(k) + s[|Source(k)|..] by { Prefix(s, Source(k)); }
    }
  }

  lemma Prefix(s: string, part: string)
    requires StartsWith(s, part)
    ensures |part| <= |s| && s == part + s[|part|..]
  {
  }

  /** A tilde stands for the home directory only at the very start or right behind a literal
      slash. */
  lemma {:induction false} TildePlaces(s: string, tilde: bool, i: nat)
    requires i < |Tokens(s, tilde)| && Tokens(s, tilde)[i] == Tilde
    ensures if i == 0 then tilde else Tokens(s, tilde)[i - 1] == Literal('/')
    decreases |s|
  {
    hide Source;
    var k := FirstToken(s, tilde);
    if i > 0 {
      TildePlaces(s[|Source(k)|..], k == Literal('/'), i - 1);
    }
  }

  /** The expansion fails exactly when a token that is there has no value. */
  lemma {:induction false} RenderIff(ks: seq<Token>, home: Option<string>, user: string)
    ensures Render(ks, home, user).Some? <==> forall i :: 0 <= i < |ks| ==> Value(ks[i], home, user).Some?
  {
    hide Value;
    if ks != [] {
      RenderIff(ks[1..], home, user);
      if Render(ks, home, user).Some? {
        forall i | 0 <= i < |ks| ensures Value(ks[i], home, user).Some? {
          if i > 0 { assert ks[i] == ks[1..][i - 1]; }
        }
      } else if Value(ks[0], home, user).Some? {
        var i :| 0 <= i < |ks[1..]| && Value(ks[1..][i], home, user).None?;
        assert ks[i + 1] == ks[1..][i];
      }
    }
  }

  // ---- the loop over the array ------------------------------------------------------------------

  /** realloc: the same string in a larger array. */
  method Larger(a: array<char>, ghost t: string, more: nat) returns (r: array<char>)
    requires Holds(a[..], t)
    ensures fresh(r) && r.Length == |t| + more + 1 && Holds(r[..], t)
  {
    hide Holds, Splice, NulFree;
    var n := StrLen(a, t, 0);
    HeldSlice(a[..], t, n);
    HeldNulFree(a[..], t);
    r := new char[n + more + 1];
    ghost var was := r[..];
    MemCopy(r, 0, a[..n + 1]);
    Copied(was, a[..], t);
  }

  lemma Copied(r: seq<char>, a: seq<char>, t: string)
    requires Holds(a, t) && |t| < |r|
    ensures |t| < |a| && Holds(Splice(r, 0, a[..|t| + 1]), t)
  {
    hide Splice;
    var s := a[..|t| + 1];
    var d := Splice(r, 0, s);
    assert d[0..0 + |s|] == s;
    assert d[..|t|] == s[..|t|] == t;
    assert d[|t|] == s[|t|];
  }

  /** realloc and the two memmoves: a text in the place of a variable. */
  method Substitute(a: array<char>, ghost t: string, at: nat, length: nat, subst: string) returns (r: array<char>)
    requires Holds(a[..], t) && at + length <= |t| && NulFree(subst)
    ensures fresh(r) && Holds(r[..], t[..at] + subst + t[at + length..])
  {
    hide Holds, Splice, NulFree, Gap;
    r := Larger(a, t, |subst|);
    var tail := StrLen(r, t, at + length);
    HeldNulFree(r[..], t);
    GapMoved(r[..], t, at, at + length, |subst|);
    MemMove(r, at + |subst|, at + length, tail + 1);
    GapRoom(r[..], t, at, at + length, |subst|);
    GapFilled(r[..], t, at, at + length, subst);
    MemCopy(r, at, subst);
  }

  lemma GapRoom(b: seq<char>, t: string, start: nat, stop: nat, total: nat)
    requires start <= stop <= |t| && Gap(b, t, start, stop, total)
    ensures start + total < |b|
  {
  }

  /** memcmp with a name. */
  method Reads(a: array<char>, ghost t: string, at: nat, name: string) returns (yes: bool)
    requires Holds(a[..], t) && at <= |t| && NulFree(name)
    ensures yes <==> StartsWith(t[at..], name)
  {
    hide Holds;
    var k := 0;
    while k < |name|
      invariant k <= |name| && at + k <= |t| && forall j :: 0 <= j < k ==> t[at..][j] == name[j]
    {
      HeldAt(a[..], t, at + k);
      if a[at + k] != name[k] {
        if at + k < |t| { assert t[at..][k] != name[k]; }
        return false;
      }
      k := k + 1;
    }
    return true;
  }

  /** What is before the offset is final; what is behind it is still to be expanded. */
  predicate Expanding(
      spec: string, t: string, offset: nat, tilde: bool, home: Option<string>, user: string)
    requires offset <= |t|
  {
    var rest := Render(Tokens(t[offset..], tilde), home, user);
    Expand(spec, home, user) == if rest.None? then None else Some(t[..offset] + rest.value)
  }

  /** One token: its value takes its place, or there is none. */
  lemma ExpandStep(spec: string, t: string, offset: nat, tilde: bool, home: Option<string>, user: string)
    requires offset < |t| && Expanding(spec, t, offset, tilde, home, user)
    ensures var k := FirstToken(t[offset..], tilde);
            var v := Value(k, home, user);
            var n := |Source(k)|;
            && offset + n <= |t|
            && (v.None? ==> Expand(spec, home, user).None?)
            && (v.Some? ==>
                  var u := t[..offset] + v.value + t[offset + n..];
                  Expanding(spec, u, offset + |v.value|, k == Literal('/'), home, user))
  {
    hide Expand, FirstToken, Value, Source;
    var s := t[offset..];
    var k := FirstToken(s, tilde);
    var n := |Source(k)|;
    Prefix(s, Source(k));
    assert s[n..] == t[offset + n..];
    TokensStep(s, tilde);
    var more := Tokens(s[n..], k == Literal('/'));
    RenderStep(k, more, home, user);
    var v := Value(k, home, user);
    if v.Some? {
      var u := t[..offset] + v.value + t[offset + n..];
      assert u[offset + |v.value|..] == s[n..] && u[..offset + |v.value|] == t[..offset] + v.value;
      var rest := Render(more, home, user);
      if rest.Some? { assert t[..offset] + (v.value + rest.value) == t[..offset] + v.value + rest.value; }
    }
  }

  lemma TokensStep(s: string, tilde: bool)
    requires s != ""
    ensures var k := FirstToken(s, tilde);
            |Source(k)| <= |s| && Tokens(s, tilde) == [k] + Tokens(s[|Source(k)|..], k == Literal('/'))
  {
    hide FirstToken, Source;
  }

  lemma RenderStep(k: Token, ks: seq<Token>, home: Option<string>, user: string)
    ensures Render([k] + ks, home, user) ==
            if Value(k, home, user).None? || Render(ks, home, user).None? then None
            else Some(Value(k, home, user).value + Render(ks, home, user).value)
  {
    hide Value;
    assert ([k] + ks)[1..] == ks;
  }

  lemma NamesPlain()
    ensures NulFree(HOME) && NulFree(USER) && |HOME| == 7 == |USER| && HOME[0] == '$' == USER[0]
  {
  }

  /** The tests the loop makes, in its order. */
  method TokenAt(a: array<char>, ghost t: string, at: nat, tilde: bool) returns (k: Token)
    requires Holds(a[..], t) && at < |t|
    ensures k == FirstToken(t[at..], tilde)
  {
    hide Holds;
    NamesPlain();
    HeldAt(a[..], t, at);
    assert t[at..][0] == t[at];
    if tilde && a[at] == '~' { return Tilde; }
    if a[at] == '$' {
      var home := Reads(a, t, at, HOME);
      if home { return Home; }
      var user := Reads(a, t, at, USER);
      if user { return User; }
    } else {
      NotNamed(t[at..]);
    }
    return Literal(a[at]);
  }

  lemma NotNamed(s: string)
    requires s != "" && s[0] != '$'
    ensures !StartsWith(s, HOME) && !StartsWith(s, USER)
  {
  }

  /** The expansion as the module does it; no home directory is known when `user=` was given. */
  method SecretFilename(spec: string, home: Option<string>, user: string) returns (name: Option<array<char>>)
    requires NulFree(spec) && NulFree(user) && (home.Some? ==> NulFree(home.value))
    ensures name.None? <==> Expand(spec, home, user).None?
    ensures name.Some? ==> Holds(name.value[..], Expand(spec, home, user).value)
  {
    hide *;
    var a := new char[|spec| + 1];
    ghost var was := a[..];
    MemCopy(a, 0, spec + ['\0']);
    Duplicated(was, spec);
    ghost var t := spec;
    var offset: nat := 0;
    var tilde := true;
    ExpandStarts(spec, home, user);
    HeldAt(a[..], t, 0);
    while a[offset] != '\0'
      invariant Holds(a[..], t) && offset <= |t| && offset < a.Length && fresh(a)
      invariant a[offset] == '\0' <==> offset == |t|
      invariant Expanding(spec, t, offset, tilde, home, user)
      decreases |t| - offset
    {
      var k := TokenAt(a, t, offset, tilde);
      if k.Literal? {
        ExpandLiteral(spec, t, offset, tilde, home, user);
        tilde := k.c == '/';
        offset := offset + 1;
      } else {
        ExpandStep(spec, t, offset, tilde, home, user);
        var subst := Value(k, home, user);
        if subst.None? { return None; }
        ValuePlain(k, home, user);
        a := Substitute(a, t, offset, |Source(k)|, subst.value);
        t := t[..offset] + subst.value + t[offset + |Source(k)|..];
        offset := offset + |subst.value|;
        tilde := false;
      }
      HeldAt(a[..], t, offset);
    }
    ExpandEnds(spec, t, offset, tilde, home, user);
    return Some(a);
  }

  lemma ExpandLiteral(spec: string, t: string, offset: nat, tilde: bool, home: Option<string>, user: string)
    requires offset < |t| && Expanding(spec, t, offset, tilde, home, user)
    requires FirstToken(t[offset..], tilde).Literal?
    ensures Expanding(spec, t, offset + 1, FirstToken(t[offset..], tilde).c == '/', home, user)
  {
    hide Expanding, FirstToken, StartsWith;
    var c := FirstToken(t[offset..], tilde).c;
    FirstStands(t[offset..], tilde);
    LiteralStays(t, offset, c);
    ExpandStep(spec, t, offset, tilde, home, user);
  }

  lemma FirstStands(s: string, tilde: bool)
    requires s != ""
    ensures StartsWith(s, Source(FirstToken(s, tilde)))
  {
  }

  lemma LiteralStays(t: string, at: nat, c: char)
    requires at < |t| && StartsWith(t[at..], [c])
    ensures t[at] == c && t[..at] + [c] + t[at + 1..] == t
  {
    assert t[at..][..1] == [c];
    assert t[at] == t[at..][0];
  }

  lemma Duplicated(was: seq<char>, spec: string)
    requires |was| == |spec| + 1 && NulFree(spec)
    ensures Holds(Splice(was, 0, spec + ['\0']), spec)
  {
    hide Splice;
    var d := Splice(was, 0, spec + ['\0']);
    assert d[0..0 + |spec + ['\0']|] == spec + ['\0'];
    assert d == spec + ['\0'];
  }

  lemma ValuePlain(k: Token, home: Option<string>, user: string)
    requires !k.Literal? && NulFree(user) && (home.Some? ==> NulFree(home.value)) && Value(k, home, user).Some?
    ensures NulFree(Value(k, home, user).value)
  {
    hide NulFree;
  }

  lemma ExpandStarts(spec: string, home: Option<string>, user: string)
    ensures Expanding(spec, spec, 0, true, home, user)
  {
    hide Tokens, Render;
    assert spec[0..] == spec;
    var r := Expand(spec, home, user);
    if r.Some? { assert "" + r.value == r.value; }
  }

  lemma ExpandEnds(spec: string, t: string, offset: nat, tilde: bool, home: Option<string>, user: string)
    requires offset == |t| && Expanding(spec, t, offset, tilde, home, user)
    ensures Expand(spec, home, user) == Some(t)
  {
    hide Expand;
    assert t[offset..] == "" && t[..offset] + "" == t;
  }

  // ---- in the text itself --------------------------------------------------------------------------

  /** Text in which nothing stands for anything else. */
  predicate Inert(s: string) { '$' !in s && '~' !in s }

  /** Whether a tilde would count behind it. */
  function Behind(a: string, tilde: bool): bool { if a == "" then tilde else a[|a| - 1] == '/' }

  lemma InertFirst(s: string, tilde: bool)
    requires s != "" && s[0] != '$' && s[0] != '~'
    ensures FirstToken(s, tilde) == Literal(s[0])
  {
    NotNamed(s);
  }

  /** Such a text is copied. */
  lemma {:induction false} InertCopied(a: string, r: string, tilde: bool, home: Option<string>, user: string)
    requires Inert(a)
    ensures Render(Tokens(a + r, tilde), home, user) ==
            match Render(Tokens(r, Behind(a, tilde)), home, user) case None => None case Some(x) => Some(a + x)
  {
    hide FirstToken, Source, Value, Tokens, Render;
    if a == "" {
      assert a + r == r;
      NothingBefore(Render(Tokens(r, tilde), home, user));
    } else {
      var s := a + r;
      var c, rest := a[0], a[1..];
      InertFirst(s, tilde);
      TokensStep(s, tilde);
      LiteralIs(c, home, user);
      assert s[1..] == rest + r;
      InertCopied(rest, r, c == '/', home, user);
      RenderStep(Literal(c), Tokens(rest + r, c == '/'), home, user);
      assert a == [c] + rest;
      assert forall x: string :: [c] + (rest + x) == a + x;
    }
  }

  lemma NothingBefore(x: Option<string>)
    ensures x == match x case None => None case Some(y) => Some("" + y)
  {
    if x.Some? { assert "" + x.value == x.value; }
  }

  lemma LiteralIs(c: char, home: Option<string>, user: string)
    ensures Source(Literal(c)) == [c] && Value(Literal(c), home, user) == Some([c])
  {
  }

  lemma NothingLeft(home: Option<string>, user: string, tilde: bool)
    ensures Render(Tokens("", tilde), home, user) == Some("")
  {
  }

  /** A token in front of such a text. */
  lemma TokenThenInert(k: Token, b: string, s: string, tilde: bool, home: Option<string>, user: string)
    requires Inert(b) && s == Source(k) + b && s != "" && FirstToken(s, tilde) == k
    ensures Render(Tokens(s, tilde), home, user) ==
            match Value(k, home, user) case None => None case Some(v) => Some(v + b)
  {
    hide FirstToken, Source, Value, Tokens, Render;
    TokensStep(s, tilde);
    assert s[|Source(k)|..] == b;
    assert b + "" == b;
    InertCopied(b, "", k == Literal('/'), home, user);
    NothingLeft(home, user, Behind(b, k == Literal('/')));
    RenderStep(k, Tokens(b, k == Literal('/')), home, user);
  }

  lemma NamesFirst(b: string, tilde: bool)
    ensures FirstToken("${USER}" + b, tilde) == User && FirstToken("${HOME}" + b, tilde) == Home
    ensures FirstToken("~" + b, true) == Tilde
  {
    var u, h := "${USER}" + b, "${HOME}" + b;
    assert u[..7] == "${USER}" && h[..7] == "${HOME}";
    assert u[..7][2] == 'U' && h[..7][2] == 'H';
  }

  /** A token between two such texts. */
  lemma TokenExpanded(k: Token, a: string, b: string, r: string, home: Option<string>, user: string)
    requires Inert(a) && Inert(b) && r == Source(k) + b && r != "" && FirstToken(r, Behind(a, true)) == k
    ensures Expand(a + r, home, user) == match Value(k, home, user) case None => None case Some(v) => Some(a + v + b)
  {
    hide FirstToken, Tokens, Render, Source, Value, Inert;
    InertCopied(a, r, true, home, user);
    TokenThenInert(k, b, r, Behind(a, true), home, user);
    match Value(k, home, user) case None => case Some(v) => JoinThree(a, v, b);
  }

  lemma JoinThree(a: string, b: string, c: string)
    ensures a + (b + c) == a + b + c
  {
  }

  /** `${USER}` becomes the user's name, ... */
  lemma UserExpanded(a: string, b: string, home: Option<string>, user: string)
    requires Inert(a) && Inert(b) && |user| <= 1_000_000
    ensures Expand(a + "${USER}" + b, home, user) == Some(a + user + b)
  {
    hide Expand, FirstToken, Inert;
    NamesFirst(b, Behind(a, true));
    TokenExpanded(User, a, b, "${USER}" + b, home, user);
    JoinThree(a, "${USER}", b);
  }

  /** ... `${HOME}` the home directory, ... */
  lemma HomeExpanded(a: string, b: string, home: string, user: string)
    requires Inert(a) && Inert(b) && |home| <= 1_000_000
    ensures Expand(a + "${HOME}" + b, Some(home), user) == Some(a + home + b)
    ensures Expand(a + "${HOME}" + b, None, user) == None
  {
    hide Expand, FirstToken, Inert;
    NamesFirst(b, Behind(a, true));
    TokenExpanded(Home, a, b, "${HOME}" + b, Some(home), user);
    TokenExpanded(Home, a, b, "${HOME}" + b, None, user);
    JoinThree(a, "${HOME}", b);
  }

  /** ... and so does a tilde at the start; ... */
  lemma TildeExpanded(b: string, home: string, user: string)
    requires Inert(b) && |home| <= 1_000_000
    ensures Expand("~" + b, Some(home), user) == Some(home + b)
    ensures Expand("~" + b, None, user) == None
  {
    hide FirstToken, Tokens, Render;
    NamesFirst(b, true);
    TokenThenInert(Tilde, b, "~" + b, true, Some(home), user);
    TokenThenInert(Tilde, b, "~" + b, true, None, user);
  }

  /** ... nothing else is touched. */
  lemma InertStays(a: string, home: Option<string>, user: string)
    requires Inert(a)
    ensures Expand(a, home, user) == Some(a)
  {
    hide Tokens, Render;
    InertCopied(a, "", true, home, user);
    NothingLeft(home, user, Behind(a, true));
    assert a + "" == a;
  }
}

/** In figures: which numbers the options take, how far the searches reach, and how many calls the rate limit
    admits. */
module Ranges {
  import opened CText
  import opened StateText
  import opened StateInvariant
  import opened Options
  import opened Checks
  import RateLimit
  import TimeSkewReset
  import SetupReads
  import Setup
  import Reuse
  import LastLogins
  import Base32
  import Otp

  // ---- options ------------------------------------------------------------------------------------

  /** A printed number is taken exactly if it lies in the range. */
  lemma NumberTaken(n: int, low: int, high: int)
    requires -TWO31 <= n < TWO31 && 1 <= low
    ensures InRange(DecInt(n), low, high) == if low <= n <= high then n else 0
  {
    hide DecInt, Strtoul;
    ReadInt("", n, "");
    assert "" + DecInt(n) + "" == DecInt(n) && "" + DecInt(n) == DecInt(n);
  }

  /** STEP_SIZE: 1 to 60 seconds, 30 without the option. */
  lemma StepSizeIs(t: string, n: int)
    requires -TWO31 <= n < TWO31
    ensures GetCfgValue(t, "STEP_SIZE").None? ==> StepSize(t) == 30
    ensures GetCfgValue(t, "STEP_SIZE") == Some(DecInt(n)) ==> StepSize(t) == if 1 <= n <= 60 then n else 0
  {
    hide GetCfgValue, InRange, DecInt;
    NumberTaken(n, 1, 60);
  }

  /** WINDOW_SIZE: 1 to 100 steps or counts, 3 without the option. */
  lemma WindowSizeIs(t: string, n: int)
    requires -TWO31 <= n < TWO31
    ensures GetCfgValue(t, "WINDOW_SIZE").None? ==> WindowSize(t) == 3
    ensures GetCfgValue(t, "WINDOW_SIZE") == Some(DecInt(n)) ==> WindowSize(t) == if 1 <= n <= 100 then n else 0
  {
    hide GetCfgValue, InRange, DecInt;
    NumberTaken(n, 1, 100);
  }

  /** RATE_LIMIT: 1 to 100 attempts in 1 to 3600 seconds. */
  lemma LimitsIff(n: int, m: int)
    requires -TWO31 <= n < TWO31 && -TWO31 <= m < TWO31
    ensures RateLimit.ParseLimits(DecInt(n) + " " + DecInt(m)).Some? <==> 1 <= n <= 100 && 1 <= m <= 3600
    ensures 1 <= n <= 100 && 1 <= m <= 3600 ==>
              RateLimit.ParseLimits(DecInt(n) + " " + DecInt(m)) == Some(RateLimit.Limits(n, m, []))
  {
    hide DecInt, Strtoul, RateLimit.ParseStamps;
    if 1 <= n <= 100 && 1 <= m <= 3600 {
      SetupReads.RateReads(n, m);
    } else {
      var v, rest := DecInt(n) + " " + DecInt(m), " " + DecInt(m);
      OneBlank();
      ReadInt("", n, rest);
      assert "" + DecInt(n) + rest == v && "" + DecInt(n) == DecInt(n);
      assert v[|DecInt(n)|..] == rest;
      ReadInt(" ", m, "");
      assert " " + DecInt(m) + "" == rest;
    }
  }

  // ---- lists and limits ------------------------------------------------------------------------------

  /** A used step stays on the list exactly as long as it is less than the window away from the one just
      used. */
  lemma KeptIff(t: string, step: int, x: int)
    requires Tidy(t) && -TWO31 <= step < TWO31 && GetCfgValue(t, "DISALLOW_REUSE").Some? && Reuse.Invalidate(t, step).0
    ensures var u := Reuse.Invalidate(t, step).1;
            && Reuse.Used(t).Some? && Reuse.Used(u).Some?
            && (x in Reuse.Used(u).value <==>
                  x == step || (x in Reuse.Used(t).value && -WindowSize(t) < x - step < WindowSize(t)))
  {
    hide Tidy, GetCfgValue, Reuse.Invalidate, Reuse.Used, WindowSize, SameBut, Reuse.Near;
    Reuse.InvalidateLists(t, step);
  }

  /** The hosts that the search can find again: 1 to 255 letters, digits, colons, percent signs, dots and
      dashes. */
  lemma PlainHostIff(host: string)
    ensures LastLogins.PlainHost(host) <==>
              && 1 <= |host| <= 255
              && forall i :: 0 <= i < |host| ==>
                   '0' <= host[i] <= '9' || 'a' <= host[i] <= 'z' || 'A' <= host[i] <= 'Z'
                   || host[i] == ':' || host[i] == '%' || host[i] == '.' || host[i] == '-'
  {
  }

  /** A slot holds host and time as far as they fit 278 characters. */
  lemma SlotValueIs(host: string, now: nat)
    ensures var text := host + " " + Dec(now);
            LastLogins.SlotValue(host, now) == if |text| <= 278 then text else text[..278]
  {
    hide Dec;
  }

  /** The characters of the sets that the module's scans go by. */
  lemma Characters(c: char)
    ensures In(c, Blank) <==> c in " \t"
    ensures In(c, Eol) <==> c in "\r\n"
    ensures In(c, White) <==> c in " \t\r\n"
    ensures In(c, Space) <==> c in " \t\n\U{0B}\U{0C}\r"
    ensures In(c, NotEol) != In(c, Eol) && In(c, NotSpace) != In(c, Space)
    ensures (In(c, NotLf) <==> c != '\n') && (In(c, NotCr) <==> c != '\r') && (In(c, Digit) <==> c in "0123456789")
  {
  }

  /** The options by their names in the file. */
  lemma OptionNames()
    ensures RateLimit.KEY == "RATE_LIMIT" && Reuse.KEY == "DISALLOW_REUSE" && COUNTER_KEY == "HOTP_COUNTER"
    ensures TimeSkewReset.SKEW_KEY == "TIME_SKEW" && TimeSkewReset.KEY == "RESETTING_TIME_SKEW"
    ensures LastLogins.Name(0) == "LAST0" && LastLogins.Name(9) == "LAST9"
  {
  }

  /** The array of the setup program: the letters, every option at its longest or as it is offered, and the
      emergency codes, each with its line end or its NUL. */
  lemma BufferSizeIs()
    ensures Setup.BUFFER_SIZE
         == (8 * Setup.KEY_BYTES + 4) / 5 + 1 + |"\" HOTP_COUNTER 1\n"| + 1 + |"\" DISALLOW_REUSE\n"| + 1
            + |"\" STEP_SIZE 30\n"| + 1 + |"\" WINDOW_SIZE 17\n"| + 1 + |"\" RATE_LIMIT 3 30\n"| + 1 + 5
            + 8 * (10 + 1) + 1
  {
  }

  /** The first line is a secret if it has at most 100000 characters and decodes to one byte at least. */
  lemma SecretIs(line: string, rest: string, secret: seq<bv8>)
    requires All(NotLf, line)
    ensures |line| > 100_000 ==> Otp.SharedSecret(line + "\n" + rest).None?
    ensures |line| <= 100_000 && secret != [] && Base32.Decode(Otp.ToBytes(line), |line|) == Some(secret) ==>
              Otp.SharedSecret(line + "\n" + rest) == Some(secret)
  {
    hide Base32.Decode, Otp.ToBytes, In;
    var t := line + "\n" + rest;
    LineFeed();
    assert t == line + ("\n" + rest);
    SpanOf(NotLf, line, "\n" + rest);
    assert t[..|line|] == line;
  }

  lemma LineFeed()
    ensures !In('\n', NotLf)
  {
  }

  /** The setup program takes a step of up to 60 seconds, a window of up to 21, limits of 1 to 10 logins in 15
      to 600 seconds, and up to ten emergency codes of eight digits. */
  lemma AcceptedIff(c: Setup.Choices)
    ensures Setup.Accepted(c) <==>
              && c.stepSize < 61 && -2 < c.windowSize < 22
              && ((c.rLimit == c.rTime == 0) || (c.rLimit == c.rTime == -1)
                  || (0 < c.rLimit < 11 && 14 < c.rTime < 601))
              && |c.codes| < 11 && forall i :: 0 <= i < |c.codes| ==> 9_999_999 < c.codes[i] < 100_000_000
  {
  }

  // ---- how far the searches reach -------------------------------------------------------------------

  /** The window: half of it before the step and half behind it, the odd one behind. */
  lemma WindowReaches(gen: int -> int, code: int, at: int, window: int)
    requires window > 0
    ensures StepMatch(gen, code, at, window).Some? <==>
              exists v :: at - (window - 1) / 2 <= v <= at + window / 2 && gen(v) == code
  {
    hide FirstMatch;
  }

  /** The search for a new skew: less than 25 times 60 steps either way, the nearest one. */
  lemma SearchReaches(gen: int -> int, code: int, server: int)
    ensures FindSkew(gen, code, server, 0).Some? <==>
              exists v :: server - 1500 < v < server + 1500 && gen(v) == code
    ensures var skew := FindSkew(gen, code, server, 0);
            skew.Some? ==>
              && gen(server + skew.value) == code
              && (forall v :: Apart(v, server) < Apart(skew.value, 0) ==> gen(v) != code)
              && (skew.value > 0 ==> gen(server - skew.value) != code)
  {
    hide FindSkew;
    EarlierFirst(gen, code, server, 0);
    var r := FindSkew(gen, code, server, 0);
    if r.Some? { assert gen(server + r.value) == code; }
    if v :| server - 1500 < v < server + 1500 && gen(v) == code { assert 0 <= Apart(v, server) < 1500; }
  }

  lemma {:induction false} EarlierFirst(gen: int -> int, code: int, server: int, i: nat)
    requires i <= 1500
    ensures var skew := FindSkew(gen, code, server, i);
            skew.Some? && skew.value > 0 ==> gen(server - skew.value) != code
    decreases 1500 - i
  {
    hide FindSkew;
    SkewStep(gen, code, server, i);
    if i < 1500 { EarlierFirst(gen, code, server, i + 1); }
  }

  lemma SkewStep(gen: int -> int, code: int, server: int, i: nat)
    requires i <= 1500
    ensures FindSkew(gen, code, server, i) ==
            if i == 1500 then None
            else if gen(server - i) == code then Some(0 - i)
            else if gen(server + i) == code then Some(i)
            else FindSkew(gen, code, server, i + 1)
  {
  }

  // ---- the rate limit in numbers ----------------------------------------------------------------------

  /** The calls of a history from `lower` on. */
  function Recent(hist: seq<nat>, lower: nat): set<nat> { set i: nat | i < |hist| && hist[i] >= lower }

  lemma {:induction false} WindowCounts(hist: seq<nat>, lower: nat, now: nat)
    requires forall i :: 0 <= i < |hist| ==> hist[i] <= now
    ensures |RateLimit.Window(hist, lower, now)| == |Recent(hist, lower)|
  {
    hide RateLimit.Window;
    if hist == [] {
      RateLimit.WindowNone([], lower, now);
      assert Recent(hist, lower) == {};
    } else {
      var front, x := hist[..|hist| - 1], hist[|hist| - 1];
      assert forall i :: 0 <= i < |front| ==> front[i] == hist[i];
      WindowCounts(front, lower, now);
      assert hist == front + [x];
      RateLimit.WindowConcat(front, [x], lower, now);
      RateLimit.WindowStep(x, [], lower, now);
      RateLimit.WindowNone([], lower, now);
      assert [x] + [] == [x];
      RecentStep(hist, lower);
    }
  }

  lemma RecentStep(hist: seq<nat>, lower: nat)
    requires hist != []
    ensures |Recent(hist, lower)|
         == |Recent(hist[..|hist| - 1], lower)| + if hist[|hist| - 1] >= lower then 1 else 0
  {
    var n := |hist| - 1;
    var front := hist[..n];
    assert forall i :: 0 <= i < n ==> front[i] == hist[i];
    assert Recent(hist, lower) == Recent(front, lower) + if hist[n] >= lower then {n} else {};
  }

  /** A call is admitted exactly if fewer calls than the limit were made since `interval` seconds before it,
      refused ones included; else it is refused. */
  lemma AdmittedIff(t: string, attempts: nat, interval: nat, hist: seq<nat>, now: nat)
    requires Tidy(t) && RateLimit.Tracks(t, attempts, interval, hist)
    requires RateLimit.Sorted(hist + [now]) && interval <= now < TWO32
    ensures RateLimit.Check(t, now).0
         == if |Recent(hist, now - interval)| < attempts then RateLimit.Admitted else RateLimit.Exceeded
  {
    hide Tidy, RateLimit.Tracks, RateLimit.Check, RateLimit.Window, SameBut;
    var all := hist + [now];
    RateLimit.CheckTracks(t, attempts, interval, hist, now);
    forall i | 0 <= i < |all| ensures all[i] <= now {
      if i < |hist| { assert all[i] <= all[|hist|]; }
    }
    WindowCounts(all, now - interval, now);
    RecentStep(all, now - interval);
    assert all[..|hist|] == hist;
  }
}

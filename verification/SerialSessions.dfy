/** What sessions achieve: a session is written and lets its user in unless another one has written since it
    opened, and every run of logins is what some sessions come to, one after the other. */
module SerialSessions {
  import opened Login
  import opened Effects
  import opened Runs
  import opened Sessions

  lemma {:induction false} ExecuteConcat(otp: Coder, s: System, a: seq<Event>, b: seq<Event>)
    ensures Execute(otp, s, a + b) == Execute(otp, Execute(otp, s, a), b)
  {
    hide Apply;
    if b == [] {
      assert a + b == a;
    } else {
      var front := b[..|b| - 1];
      ExecuteConcat(otp, s, a, front);
      assert (a + b)[..|a + b| - 1] == a + front;
    }
  }

  lemma ExecuteOne(otp: Coder, s: System, e: Event)
    ensures Execute(otp, s, [e]) == Apply(otp, s, e)
  {
    hide Apply;
    assert [e][..0] == [];
    assert Execute(otp, s, []) == s;
  }

  // ---- one session among others -------------------------------------------------------------------

  /** The logins written so far stay in the log. */
  predicate Extends(a: seq<Try>, b: seq<Try>) { |a| <= |b| && b[..|a|] == a }

  /** Session `i` stands on the version it has opened, or is over. */
  predicate StandsOn(s: System, i: nat, stamp: nat, read: string)
  {
    && i < |s.sessions|
    && match s.sessions[i]
       case Idle => false
       case Opened(stamp', read') => stamp' == stamp && read' == read
       case Decided(stamp', read', what, result) => stamp' == stamp && read' == read
       case Done(success) => true
  }

  lemma StandsStep(otp: Coder, s: System, e: Event, i: nat, stamp: nat, read: string)
    requires StandsOn(s, i, stamp, read)
    ensures StandsOn(Apply(otp, s, e), i, stamp, read) && Extends(s.log, Apply(otp, s, e).log)
  {
    hide Result, Sane;
  }

  lemma {:induction false} StandsThroughout(
      otp: Coder, s: System, events: seq<Event>, i: nat, stamp: nat, read: string)
    requires StandsOn(s, i, stamp, read)
    ensures StandsOn(Execute(otp, s, events), i, stamp, read) && Extends(s.log, Execute(otp, s, events).log)
  {
    hide Apply, StandsOn;
    if events != [] {
      var front := events[..|events| - 1];
      StandsThroughout(otp, s, front, i, stamp, read);
      StandsStep(otp, Execute(otp, s, front), events[|events| - 1], i, stamp, read);
    }
  }

  lemma Opening(otp: Coder, s: System, i: nat)
    requires i < |s.sessions| && s.sessions[i].Idle?
    ensures var u := Apply(otp, s, Open(i)); StandsOn(u, i, s.stamp, s.file) && u.log == s.log
  {
  }

  lemma StampIsLength(otp: Coder, file: string, s: System)
    requires Chain(otp, file, s)
    ensures s.stamp == |s.log|
  {
    hide FileAfter, SaneRun, InOrder, SessionFits;
  }

  /** The end of a session, with its version still on disk or not. */
  lemma Finishing(otp: Coder, s: System, i: nat)
    requires i < |s.sessions| && s.sessions[i].Decided?
    ensures var d, u := s.sessions[i], Apply(otp, s, Finish(i));
            if d.result.write.Some? && d.stamp != s.stamp then
              u.sessions[i] == Done(false) && u.file == s.file && u.log == s.log && u.wins == s.wins
            else
              && u.sessions[i] == Done(d.result.success)
              && u.wins == (if d.result.success then s.wins + [Win(d.what.input.now, d.result)] else s.wins)
              && if d.result.write.Some? then u.file == d.result.write.value && u.log == s.log + [d.what]
                 else u.file == s.file && u.log == s.log
  {
  }

  /** Whatever happens between its opening and its end, a session that has something to write is
      written, and ends as its login does, if and only if no other session has been written since it
      opened; else it is refused, and nothing changes. One that has nothing to write ends as its login
      does anyway. */
  lemma FinishIff(
      otp: Coder, file: string, clock: nat, n: nat, before: seq<Event>, between: seq<Event>, i: nat)
    requires var s0 := Execute(otp, NewSystem(file, clock, n), before); i < |s0.sessions| && s0.sessions[i].Idle?
    requires var s := Execute(otp, NewSystem(file, clock, n), before + [Open(i)] + between);
             i < |s.sessions| && s.sessions[i].Decided?
    ensures var s0 := Execute(otp, NewSystem(file, clock, n), before);
            var s := Execute(otp, NewSystem(file, clock, n), before + [Open(i)] + between);
            var u := Execute(otp, NewSystem(file, clock, n), before + [Open(i)] + between + [Finish(i)]);
            var d := s.sessions[i];
            && d.read == s0.file && Extends(s0.log, s.log) && i < |u.sessions|
            && if d.result.write.Some? && s.log != s0.log then
                 u.sessions[i] == Done(false) && u.file == s.file && u.log == s.log && u.wins == s.wins
               else
                 && u.sessions[i] == Done(d.result.success)
                 && u.wins == (if d.result.success then s.wins + [Win(d.what.input.now, d.result)] else s.wins)
                 && if d.result.write.Some? then u.file == d.result.write.value && u.log == s.log + [d.what]
                    else u.file == s.file && u.log == s.log
  {
    hide Apply, Chain, StandsOn, NewSystem;
    var start := NewSystem(file, clock, n);
    var s0 := Execute(otp, start, before);
    ExecuteConcat(otp, start, before, [Open(i)]);
    ExecuteOne(otp, s0, Open(i));
    Opening(otp, s0, i);
    ExecuteConcat(otp, start, before + [Open(i)], between);
    StandsThroughout(otp, Apply(otp, s0, Open(i)), between, i, s0.stamp, s0.file);
    var s := Execute(otp, start, before + [Open(i)] + between);
    StandsDecided(s, i, s0.stamp, s0.file);
    SerialChain(otp, file, clock, n, before);
    SerialChain(otp, file, clock, n, before + [Open(i)] + between);
    StampIsLength(otp, file, s0);
    StampIsLength(otp, file, s);
    ExecuteConcat(otp, start, before + [Open(i)] + between, [Finish(i)]);
    ExecuteOne(otp, s, Finish(i));
    Finishing(otp, s, i);
    SameSessions(otp, s, Finish(i));
  }

  lemma StandsDecided(s: System, i: nat, stamp: nat, read: string)
    requires StandsOn(s, i, stamp, read) && s.sessions[i].Decided?
    ensures s.sessions[i].stamp == stamp && s.sessions[i].read == read
  {
  }

  lemma SameSessions(otp: Coder, s: System, e: Event)
    ensures |Apply(otp, s, e).sessions| == |s.sessions|
  {
    hide Result, Sane;
  }

  // ---- one session after the other ------------------------------------------------------------------

  function Ticks(n: nat): seq<Event> { if n == 0 then [] else Ticks(n - 1) + [Tick] }

  lemma {:induction false} TicksPass(otp: Coder, s: System, n: nat)
    ensures Execute(otp, s, Ticks(n)) == s.(clock := s.clock + n)
  {
    hide Apply;
    if n > 0 {
      TicksPass(otp, s, n - 1);
      assert Ticks(n)[..|Ticks(n)| - 1] == Ticks(n - 1);
      TickPasses(otp, s.(clock := s.clock + n - 1));
    }
  }

  lemma TickPasses(otp: Coder, s: System)
    ensures Apply(otp, s, Tick) == s.(clock := s.clock + 1)
  {
  }

  /** A session from its opening to its end, with nobody else about. */
  function WholeSession(i: nat, x: Try): seq<Event> { [Open(i), Decide(i, x.params, x.input), Finish(i)] }

  function Welcomed(s: System, x: Try, o: Outcome): seq<Win>
  {
    if o.success then s.wins + [Win(x.input.now, o)] else s.wins
  }

  /** It leaves the file its login leaves, and lets its user in if its login does. */
  lemma LoneSession(otp: Coder, s: System, i: nat, x: Try)
    requires i < |s.sessions| && s.sessions[i].Idle? && x.input.now == s.clock && Sane(x.input, s.file)
    ensures var u, o := Execute(otp, s, WholeSession(i, x)), Result(otp, s.file, x);
            && u.file == Next(otp, s.file, x) && u.clock == s.clock
            && u.sessions == s.sessions[i := Done(o.success)] && u.wins == Welcomed(s, x, o)
  {
    hide Apply, Result, Sane, Next, Execute;
    var o := Result(otp, s.file, x);
    var s1 := Apply(otp, s, Open(i));
    var s2 := Apply(otp, s1, Decide(i, x.params, x.input));
    ExecuteThree(otp, s, Open(i), Decide(i, x.params, x.input), Finish(i));
    AloneOpens(otp, s, i);
    AloneDecides(otp, s1, i, x);
    AloneFinishes(otp, s2, i);
    NextIs(otp, s.file, x);
    assert s.sessions[i := s1.sessions[i]][i := s2.sessions[i]][i := Done(o.success)]
        == s.sessions[i := Done(o.success)];
  }

  lemma ExecuteThree(otp: Coder, s: System, a: Event, b: Event, c: Event)
    ensures Execute(otp, s, [a, b, c]) == Apply(otp, Apply(otp, Apply(otp, s, a), b), c)
  {
    hide Apply;
    assert [a, b, c][..2] == [a, b] && [a, b][..1] == [a];
    ExecuteOne(otp, s, a);
  }

  lemma AloneOpens(otp: Coder, s: System, i: nat)
    requires i < |s.sessions| && s.sessions[i].Idle?
    ensures Apply(otp, s, Open(i)) == s.(sessions := s.sessions[i := Opened(s.stamp, s.file)])
  {
  }

  lemma AloneDecides(otp: Coder, s: System, i: nat, x: Try)
    requires i < |s.sessions| && s.sessions[i] == Opened(s.stamp, s.file)
    requires x.input.now == s.clock && Sane(x.input, s.file)
    ensures Apply(otp, s, Decide(i, x.params, x.input))
         == s.(sessions := s.sessions[i := Decided(s.stamp, s.file, x, Result(otp, s.file, x))])
  {
    hide Result, Sane;
    assert Try(x.params, x.input) == x;
  }

  lemma AloneFinishes(otp: Coder, s: System, i: nat)
    requires i < |s.sessions| && s.sessions[i].Decided? && s.sessions[i].stamp == s.stamp
    ensures var d, u := s.sessions[i], Apply(otp, s, Finish(i));
            && u.sessions == s.sessions[i := Done(d.result.success)] && u.clock == s.clock
            && u.wins == Welcomed(s, d.what, d.result) && u.file == NewFile(d.result, s.file)
  {
  }

  lemma NextIs(otp: Coder, file: string, x: Try)
    ensures Next(otp, file, x) == NewFile(Result(otp, file, x), file)
  {
    hide Result, NewFile;
  }

  /** Sessions 0, 1, 2, ... come one after the other, each at its time. */
  function Queue(run: seq<Try>, clock: nat): seq<Event>
  {
    if run == [] then []
    else
      var at := if Front(run) == [] then clock else Last(Front(run)).input.now;
      Queue(Front(run), clock)
      + (Ticks(if Last(run).input.now >= at then Last(run).input.now - at else 0) + WholeSession(|run| - 1, Last(run)))
  }

  /** The logins of a run that succeeded, in order. */
  function Successes(otp: Coder, file: string, run: seq<Try>): seq<Win>
  {
    if run == [] then []
    else
      var o := LastResult(otp, file, run);
      Successes(otp, file, Front(run)) + if o.success then [Win(Last(run).input.now, o)] else []
  }

  /** How each login of a run ends. */
  function Ends(otp: Coder, file: string, run: seq<Try>): (r: seq<Session>)
    ensures |r| == |run|
  {
    if run == [] then [] else Ends(otp, file, Front(run)) + [Done(LastResult(otp, file, run).success)]
  }

  /** So every run of logins is what sessions one after the other come to: they leave its last file, and
      let in whom its logins let in. */
  lemma {:induction false} QueueIsRun(otp: Coder, file: string, run: seq<Try>, clock: nat, n: nat)
    requires SaneRun(otp, file, run) && InOrder(run) && |run| <= n
    requires forall k :: 0 <= k < |run| ==> run[k].input.now >= clock
    ensures var s := Execute(otp, NewSystem(file, clock, n), Queue(run, clock));
            && s.file == FileAfter(otp, file, run) && s.wins == Successes(otp, file, run)
            && s.clock == (if run == [] then clock else Last(run).input.now)
            && s.sessions == Ends(otp, file, run) + seq(n - |run|, i => Idle)
  {
    hide Apply, WholeSession, Ticks, Sane, Next, Result, Execute, Queue, NewSystem;
    var start := NewSystem(file, clock, n);
    if run == [] {
      QueueEmpty(otp, file, clock, n);
    } else {
      var front, x := Front(run), Last(run);
      assert forall k :: 0 <= k < |front| ==> front[k] == run[k];
      QueueIsRun(otp, file, front, clock, n);
      var s := Execute(otp, start, Queue(front, clock));
      var wait := x.input.now - s.clock;
      LaterThan(run, clock);
      QueueStep(run, clock, wait);
      ExecuteConcat(otp, start, Queue(front, clock), Ticks(wait) + WholeSession(|run| - 1, x));
      ExecuteConcat(otp, s, Ticks(wait), WholeSession(|run| - 1, x));
      TicksPass(otp, s, wait);
      LoneSession(otp, s.(clock := x.input.now), |run| - 1, x);
      OneMoreDone(Ends(otp, file, front), n, Done(LastResult(otp, file, run).success));
      StillIdle(Ends(otp, file, front), n);
    }
  }

  lemma QueueEmpty(otp: Coder, file: string, clock: nat, n: nat)
    ensures var s := Execute(otp, NewSystem(file, clock, n), Queue([], clock));
            s.file == file && s.wins == [] && s.clock == clock && s.sessions == [] + seq(n, i => Idle)
  {
  }

  lemma OneMoreDone(ends: seq<Session>, n: nat, done: Session)
    requires |ends| < n
    ensures (ends + seq(n - |ends|, i => Idle))[|ends| := done] == ends + [done] + seq(n - |ends| - 1, i => Idle)
  {
  }

  lemma StillIdle(ends: seq<Session>, n: nat)
    requires |ends| < n
    ensures (ends + seq(n - |ends|, i => Idle))[|ends|] == Idle
  {
  }

  lemma LaterThan(run: seq<Try>, clock: nat)
    requires run != [] && InOrder(run) && forall k :: 0 <= k < |run| ==> run[k].input.now >= clock
    ensures Last(run).input.now >= if Front(run) == [] then clock else Last(Front(run)).input.now
  {
    if Front(run) != [] { assert run[|run| - 2].input.now <= run[|run| - 1].input.now; }
  }

  lemma QueueStep(run: seq<Try>, clock: nat, wait: nat)
    requires run != []
    requires wait == Last(run).input.now - (if Front(run) == [] then clock else Last(Front(run)).input.now)
    ensures Queue(run, clock) == Queue(Front(run), clock) + (Ticks(wait) + WholeSession(|run| - 1, Last(run)))
  {
    hide Ticks, WholeSession;
  }
}

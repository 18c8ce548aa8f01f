/** Whole runs of a circuit breaker with calls in flight: timing of the open window, and probes. */
module CircuitRuns {
  import opened Ids
  import opened Circuit

  /** An admitted call: running, or finished neutrally and about to release the probe, or ended.
      `episode` is the half-open episode in which it was admitted as a probe. */
  datatype Pc = Running | Releasing | Ended

  datatype Call = Call(probe: bool, episode: nat, pc: Pc)

  datatype Sys = Sys(b: Breaker, calls: seq<Call>, episode: nat, now: Time)

  datatype Event =
    | Ask(at: Time)
    | Check(i: nat, at: Time)
    | Succeed(i: nat, at: Time)
    | Fail(i: nat, at: Time)
    | Pass(i: nat, at: Time)
    | Release(i: nat, at: Time)
    | Look(at: Time)

  predicate Stands(s: Sys, i: nat, pc: Pc)
  {
    i < |s.calls| && s.calls[i].pc == pc
  }

  /** The clock never goes back, and only calls in flight act. */
  predicate Enabled(s: Sys, e: Event)
  {
    && e.at >= s.now
    && match e
       case Ask(_) => true
       case Look(_) => true
       case Release(i, _) => Stands(s, i, Releasing)
       case _ => Stands(s, e.i, Running)
  }

  /** Time passes and an elapsed window opens a new half-open episode. */
  function Watch(s: Sys, at: Time): Sys
  {
    var a := Advance(s.b, at);
    Sys(a, s.calls, if a.status != s.b.status then s.episode + 1 else s.episode, at)
  }

  function Finish(s: Sys, i: nat, pc: Pc, b: Breaker, at: Time): Sys
    requires i < |s.calls|
  {
    Sys(b, s.calls[i := s.calls[i].(pc := pc)], s.episode, at)
  }

  function Step(c: Config, s: Sys, e: Event): Sys
    requires Enabled(s, e)
  {
    match e
    case Ask(at) =>
      var w := Watch(s, at);
      var asked := w.(b := AfterAdmit(s.b, at));
      if AdmitVerdict(s.b, at).Admitted?
      then asked.(calls := w.calls + [Call(AdmitVerdict(s.b, at).probe, w.episode, Running)])
      else asked
    case Check(i, at) => s.(b := s.b.(lastCheckAt := Some(at)), now := at)
    case Succeed(i, at) => Finish(s, i, Ended, AfterSuccess(s.b, at), at)
    case Fail(i, at) => Finish(s, i, Ended, AfterFailure(c, s.b, at), at)
    case Pass(i, at) => Finish(s, i, Releasing, s.b, at)
    case Release(i, at) => Finish(s, i, Ended, AfterRelease(s.b), at)
    case Look(at) => Watch(s, at)
  }

  ghost predicate IsRun(c: Config, run: seq<Sys>, events: seq<Event>)
  {
    && |run| == |events| + 1
    && run[0].b == NEW_BREAKER && run[0].calls == []
    && forall k :: 0 <= k < |events| ==> Enabled(run[k], events[k]) && run[k + 1] == Step(c, run[k], events[k])
  }

  // ----- timing -----

  /** Closed below the failure limit; otherwise open until the last counted failure plus the delay. */
  ghost predicate Timed(c: Config, s: Sys)
  {
    && (s.b.status == Closed <==> s.b.failures < FailureMax(c))
    && (s.b.status == Closed ==> s.b.backoff == 0 && s.b.openedUntil == None && !s.b.probing)
    && (s.b.lastFailure.Some? ==> s.b.lastFailure.value <= s.now)
    && (s.b.status != Closed ==>
          && s.b.failures >= FailureMax(c) && s.b.lastFailure.Some?
          && s.b.openedUntil == Some(s.b.lastFailure.value + Backoff(c, s.b.failures - FailureMax(c)))
          && s.b.backoff == NextBackoff(c, Backoff(c, s.b.failures - FailureMax(c)))
          && (s.b.status == HalfOpen ==> s.now >= s.b.openedUntil.value))
  }

  lemma TimedStep(c: Config, s: Sys, e: Event)
    requires Timed(c, s) && Enabled(s, e)
    ensures Timed(c, Step(c, s, e))
  {
    hide NextBackoff;
    if e.Fail? && s.b.status != Closed {
      var k := s.b.failures - FailureMax(c);
      assert Backoff(c, k + 1) == Stored(c, s.b.backoff);
    }
  }

  lemma {:induction false} TimedRun(c: Config, run: seq<Sys>, events: seq<Event>, k: nat)
    requires IsRun(c, run, events) && k < |run|
    ensures Timed(c, run[k])
  {
    if k > 0 {
      TimedRun(c, run, events, k - 1);
      TimedStep(c, run[k - 1], events[k - 1]);
    }
  }

  /** The timing that the breaker is for. */
  ghost predicate Lawful(c: Config, b: Breaker)
  {
    && (b.status == Closed <==> b.failures < FailureMax(c))
    && (b.status != Closed ==>
          && b.failures >= FailureMax(c) && b.lastFailure.Some?
          && b.openedUntil == Some(b.lastFailure.value + Delay(c, b.failures - FailureMax(c))))
  }

  /** Every state of every run is lawful. */
  ghost predicate AlwaysLawful(c: Config)
  {
    forall run: seq<Sys>, events: seq<Event>, k: nat :: IsRun(c, run, events) && k < |run| ==> Lawful(c, run[k].b)
  }

  ghost predicate AllRunning(calls: seq<Call>, from: nat)
  {
    from <= |calls| && forall i :: from <= i < |calls| ==> calls[i] == Call(false, 0, Running)
  }

  /** A run that admits `n` calls. */
  lemma {:induction false} AskRun(c: Config, n: nat) returns (run: seq<Sys>, events: seq<Event>)
    ensures IsRun(c, run, events)
    ensures var s := run[|run| - 1];
      s.b == NEW_BREAKER && s.episode == 0 && s.now == 0 && |s.calls| == n && AllRunning(s.calls, 0)
  {
    if n == 0 {
      run, events := [Sys(NEW_BREAKER, [], 0, 0)], [];
    } else {
      run, events := AskRun(c, n - 1);
      var last := run[|run| - 1];
      var next := Step(c, last, Ask(0));
      assert next.calls == last.calls + [Call(false, 0, Running)];
      RunMore(c, run, events, Ask(0));
      run, events := run + [next], events + [Ask(0)];
    }
  }

  lemma RunMore(c: Config, run: seq<Sys>, events: seq<Event>, e: Event)
    requires IsRun(c, run, events) && Enabled(run[|run| - 1], e)
    ensures IsRun(c, run + [Step(c, run[|run| - 1], e)], events + [e])
  {
    hide Step, Enabled;
    var r, es := run + [Step(c, run[|run| - 1], e)], events + [e];
    forall k | 0 <= k < |es|
      ensures Enabled(r[k], es[k]) && r[k + 1] == Step(c, r[k], es[k])
    {
      if k < |events| {
        assert r[k] == run[k] && r[k + 1] == run[k + 1] && es[k] == events[k];
      } else {
        assert r[k] == run[|run| - 1] && es[k] == e;
      }
    }
  }

  /** The same run, after which the first `m` calls fail one after the other. */
  lemma {:induction false} FailRun(c: Config, n: nat, m: nat) returns (run: seq<Sys>, events: seq<Event>)
    requires m <= n
    ensures IsRun(c, run, events)
    ensures var s := run[|run| - 1];
      && s.now == 0 && |s.calls| == n && AllRunning(s.calls, m) && s.b.failures == m
      && s.b.status != HalfOpen && (m > 0 ==> s.b.lastFailure == Some(0))
  {
    if m == 0 {
      run, events := AskRun(c, n);
    } else {
      run, events := FailRun(c, n, m - 1);
      var last := run[|run| - 1];
      TimedRun(c, run, events, |run| - 1);
      assert last.calls[m - 1] == Call(false, 0, Running);
      var e := Fail(m - 1, 0);
      RunMore(c, run, events, e);
      run, events := run + [Step(c, last, e)], events + [e];
    }
  }

  /** The law holds over all runs exactly for the durations whose doubling does not overflow. */
  lemma LawExactly(c: Config)
    requires ValidConfig(c)
    ensures AlwaysLawful(c) <==> NoOverflow(c)
  {
    hide Timed, Lawful, NoOverflow, IsRun, ValidConfig;
    if NoOverflow(c) {
      forall run: seq<Sys>, events: seq<Event>, k: nat | IsRun(c, run, events) && k < |run|
        ensures Lawful(c, run[k].b)
      {
        TimedRun(c, run, events, k);
        TimedIsLawful(c, run[k]);
      }
    } else {
      var run, events := UnlawfulRun(c);
    }
  }

  lemma TimedIsLawful(c: Config, s: Sys)
    requires ValidConfig(c) && NoOverflow(c) && Timed(c, s)
    ensures Lawful(c, s.b)
  {
    hide Backoff, NextBackoff, NoOverflow;
    if s.b.status != Closed {
      BackoffIsDelay(c, s.b.failures - FailureMax(c));
    }
  }

  lemma UnlawfulRun(c: Config) returns (run: seq<Sys>, events: seq<Event>)
    requires ValidConfig(c) && !NoOverflow(c)
    ensures IsRun(c, run, events) && run != [] && !Lawful(c, run[|run| - 1].b)
  {
    var k := OverflowBreaks(c);
    hide Backoff, NextBackoff, NoOverflow;
    var m := FailureMax(c) + k;
    run, events := FailRun(c, m, m);
    TimedRun(c, run, events, |run| - 1);
  }

  // ----- no early admission -----

  /** Not closed, and not to be tried before `t`. */
  ghost predicate HeldUntil(s: Sys, t: Time)
  {
    s.b.status != Closed && s.b.openedUntil.Some? && s.b.openedUntil.value >= t
  }

  lemma HeldStep(c: Config, s: Sys, e: Event, t: Time)
    requires ValidConfig(c) && NeverShrinks(c) && Timed(c, s) && Enabled(s, e) && HeldUntil(s, t) && !e.Succeed?
    ensures HeldUntil(Step(c, s, e), t)
  {
    hide Backoff, NextBackoff, NeverShrinks, ValidConfig;
    if e.Fail? {
      TimedStep(c, s, e);
      BackoffGrows(c, s.b.failures - FailureMax(c));
    }
  }

  lemma {:induction false} HeldRun(c: Config, run: seq<Sys>, events: seq<Event>, i: nat, j: nat, t: Time)
    requires ValidConfig(c) && NeverShrinks(c) && IsRun(c, run, events) && i <= j < |run|
    requires HeldUntil(run[i], t) && forall k :: i <= k < j ==> !events[k].Succeed?
    ensures HeldUntil(run[j], t)
    decreases j
  {
    if i < j {
      HeldRun(c, run, events, i, j - 1, t);
      TimedRun(c, run, events, j - 1);
      HeldStep(c, run[j - 1], events[j - 1], t);
      hide Timed, HeldUntil, NeverShrinks, Step, Enabled;
    }
  }

  /** The window was open at step `i` until `t`, no success was recorded since, and the call of step
      `j` is admitted before `t`. */
  ghost predicate AdmittedEarly(run: seq<Sys>, events: seq<Event>, i: nat, j: nat, t: Time)
  {
    && |run| == |events| + 1 && i <= j < |events|
    && run[i].b.status != Closed && run[i].b.openedUntil == Some(t)
    && (forall k :: i <= k < j ==> !events[k].Succeed?)
    && events[j].Ask? && AdmitVerdict(run[j].b, events[j].at).Admitted?
    && events[j].at < t
  }

  ghost predicate NeverAdmitsEarly(c: Config)
  {
    forall run: seq<Sys>, events: seq<Event>, i: nat, j: nat, t: Time ::
      IsRun(c, run, events) ==> !AdmittedEarly(run, events, i, j, t)
  }

  lemma NotEarly(c: Config, run: seq<Sys>, events: seq<Event>, i: nat, j: nat, t: Time)
    requires ValidConfig(c) && NeverShrinks(c) && IsRun(c, run, events)
    ensures !AdmittedEarly(run, events, i, j, t)
  {
    if AdmittedEarly(run, events, i, j, t) {
      HeldRun(c, run, events, i, j, t);
      TimedRun(c, run, events, j);
    }
  }

  lemma Extend(c: Config, run0: seq<Sys>, events0: seq<Event>, e: Event) returns (run: seq<Sys>, events: seq<Event>)
    requires IsRun(c, run0, events0) && Enabled(run0[|run0| - 1], e)
    ensures IsRun(c, run, events) && run != [] && run[|run| - 1] == Step(c, run0[|run0| - 1], e)
    ensures |run| == |run0| + 1 && run0 <= run && events == events0 + [e]
  {
    RunMore(c, run0, events0, e);
    run, events := run0 + [Step(c, run0[|run0| - 1], e)], events0 + [e];
  }

  lemma RunSize(c: Config, run: seq<Sys>, events: seq<Event>)
    requires IsRun(c, run, events)
    ensures run != [] && |run| == |events| + 1
  {
  }

  /** When the window ends after `k` failures beyond the limit, all at time 0. */
  lemma WindowEnd(c: Config, s: Sys, k: nat)
    requires Timed(c, s) && s.b.failures == FailureMax(c) + k && s.b.lastFailure == Some(0)
    ensures s.b.status != Closed && s.b.openedUntil == Some(Backoff(c, k))
  {
    hide Backoff, NextBackoff;
  }

  lemma FailAgain(c: Config, s: Sys, m: nat)
    requires s.now == 0 && |s.calls| == m + 1 && AllRunning(s.calls, m) && s.b.failures == m >= FailureMax(c)
    requires s.b.status == Open
    ensures Enabled(s, Fail(m, 0))
    ensures var b := Step(c, s, Fail(m, 0)).b; b.failures == m + 1 && b.lastFailure == Some(0) && b.status == Open
    ensures Step(c, s, Fail(m, 0)).now == 0
  {
    hide Backoff, NextBackoff;
    assert s.calls[m] == Call(false, 0, Running);
  }

  lemma AskAtEnd(s: Sys, at: Time)
    requires s.now == 0 <= at && s.b.status == Open && s.b.openedUntil == Some(at)
    ensures Enabled(s, Ask(at)) && AdmitVerdict(s.b, at).Admitted?
  {
  }

  /** A run in which one more failure shortens the open window, and a call is admitted in what was
      left of it. */
  lemma EarlyRun(c: Config) returns (run: seq<Sys>, events: seq<Event>, i: nat, j: nat, t: Time)
    requires ValidConfig(c) && !NeverShrinks(c)
    ensures IsRun(c, run, events) && AdmittedEarly(run, events, i, j, t)
  {
    var k := BackoffShrinks(c);
    var m := FailureMax(c) + k;
    run, events := FailRun(c, m + 1, m);
    RunSize(c, run, events);
    hide Backoff, NextBackoff, Step, Timed, Enabled, IsRun, AdmitVerdict, FailureMax;
    i, j, t := |run| - 1, |run|, Backoff(c, k);
    TimedRun(c, run, events, i);
    WindowEnd(c, run[i], k);
    FailAgain(c, run[i], m);
    run, events := Extend(c, run, events, Fail(m, 0));
    TimedRun(c, run, events, j);
    WindowEnd(c, run[j], k + 1);
    var at := Backoff(c, k + 1);
    AskAtEnd(run[j], at);
    run, events := Extend(c, run, events, Ask(at));
    assert events[i] == Fail(m, 0) && events[j] == Ask(at);
  }

  /** Over all runs, no call is admitted before the end of an open window unless a success was
      recorded after it opened: exactly for durations whose delays never shrink. */
  lemma NoEarlyAdmission(c: Config)
    requires ValidConfig(c)
    ensures NeverAdmitsEarly(c) <==> Ceiling(c) < TWO62 || BaseBackoff(c) >= TWO61
  {
    if NeverShrinks(c) {
      forall run: seq<Sys>, events: seq<Event>, i: nat, j: nat, t: Time | IsRun(c, run, events)
        ensures !AdmittedEarly(run, events, i, j, t)
      {
        NotEarly(c, run, events, i, j, t);
      }
    } else {
      var run, events, i, j, t := EarlyRun(c);
    }
  }

  // ----- probes -----

  predicate Outstanding(call: Call)
  {
    call.probe && call.pc != Ended
  }

  /** Probing means half-open, with a probe of this episode outstanding. */
  ghost predicate ProbeHeld(s: Sys)
  {
    s.b.probing ==> s.b.status == HalfOpen && exists i :: IsProbeOf(s, i, s.episode)
  }

  ghost predicate IsProbeOf(s: Sys, i: int, episode: nat)
  {
    0 <= i < |s.calls| && Outstanding(s.calls[i]) && s.calls[i].episode == episode
  }

  lemma ProbeHeldStep(c: Config, s: Sys, e: Event)
    requires ProbeHeld(s) && Enabled(s, e) && Timed(c, s)
    ensures ProbeHeld(Step(c, s, e))
  {
    hide AfterFailure, NextBackoff, Backoff, Timed;
    var t := Step(c, s, e);
    if e.Ask? && AdmitVerdict(s.b, e.at) == Admitted(true) {
      assert IsProbeOf(t, |s.calls|, t.episode);
    } else if t.b.probing {
      StaysQuiet(c, s, e);
      var i :| IsProbeOf(s, i, s.episode);
      ProbeStays(c, s, e, i);
    }
  }

  lemma FailStopsProbing(c: Config, b: Breaker, now: Time)
    ensures b.status == HalfOpen ==> !AfterFailure(c, b, now).probing
    ensures !b.probing ==> !AfterFailure(c, b, now).probing
  {
  }

  lemma StaysQuiet(c: Config, s: Sys, e: Event)
    requires Enabled(s, e) && ProbeHeld(s) && !(e.Ask? && AdmitVerdict(s.b, e.at) == Admitted(true))
    ensures Step(c, s, e).b.probing ==> s.b.probing
  {
    FailStopsProbing(c, s.b, e.at);
  }

  lemma ProbeStays(c: Config, s: Sys, e: Event, i: nat)
    requires ProbeHeld(s) && s.b.probing && Enabled(s, e) && Step(c, s, e).b.probing && IsProbeOf(s, i, s.episode)
    ensures var t := Step(c, s, e); t.b.status == HalfOpen && IsProbeOf(t, i, t.episode)
  {
    FailStopsProbing(c, s.b, e.at);
  }

  /** At every moment of every run, the probe slot is held by a call still in flight. */
  lemma {:induction false} ProbeHeldRun(c: Config, run: seq<Sys>, events: seq<Event>, k: nat)
    requires IsRun(c, run, events) && k < |run|
    ensures ProbeHeld(run[k])
  {
    if k > 0 {
      ProbeHeldRun(c, run, events, k - 1);
      TimedRun(c, run, events, k - 1);
      ProbeHeldStep(c, run[k - 1], events[k - 1]);
    }
  }

  /** No finished probe leaves the breaker stuck: with no probe of the episode in flight, the next
      call after the window is admitted. */
  lemma NotStuck(c: Config, run: seq<Sys>, events: seq<Event>, k: nat, at: Time)
    requires IsRun(c, run, events) && k < |run| && at >= run[k].now
    requires forall i :: !IsProbeOf(run[k], i, run[k].episode)
    requires run[k].b.openedUntil.Some? ==> at >= run[k].b.openedUntil.value
    ensures AdmitVerdict(run[k].b, at).Admitted?
  {
    ProbeHeldRun(c, run, events, k);
    TimedRun(c, run, events, k);
  }

  // ----- one probe at a time -----

  /** A neutral outcome is released while half-open and a probe of the episode that is not the one
      released is in flight. */
  ghost predicate ForeignRelease(s: Sys, e: Event)
  {
    e.Release? && s.b.status == HalfOpen && exists i :: i != e.i && IsProbeOf(s, i, s.episode)
  }

  ghost predicate NoForeignRelease(run: seq<Sys>, events: seq<Event>, k: nat)
  {
    |run| == |events| + 1 && k <= |events| && forall j :: 0 <= j < k ==> !ForeignRelease(run[j], events[j])
  }

  /** No two probes of one episode are in flight, none belongs to a later episode, and a half-open
      breaker that is not probing has none. */
  ghost predicate OneProbe(s: Sys)
  {
    && (forall i, j, episode: nat :: IsProbeOf(s, i, episode) && IsProbeOf(s, j, episode) ==> i == j)
    && (forall i, episode: nat :: IsProbeOf(s, i, episode) ==> episode <= s.episode)
    && (s.b.status == HalfOpen && !s.b.probing ==> forall i :: !IsProbeOf(s, i, s.episode))
  }

  lemma OneProbeAsk(c: Config, s: Sys, at: Time)
    requires OneProbe(s) && ProbeHeld(s) && at >= s.now
    ensures OneProbe(Step(c, s, Ask(at)))
  {
    var t := Step(c, s, Ask(at));
    forall i, episode: nat | IsProbeOf(t, i, episode)
      ensures IsProbeOf(s, i, episode)
        || (i == |s.calls| && episode == t.episode && t.b.probing && AdmitVerdict(s.b, at) == Admitted(true))
    {
    }
    hide IsProbeOf;
    assert forall i, episode: nat :: IsProbeOf(s, i, episode) ==> episode <= s.episode;
    assert AdmitVerdict(s.b, at) == Admitted(true) ==>
      (t.episode == s.episode + 1 || (s.b.status == HalfOpen && !s.b.probing));
  }

  lemma OneProbeOther(c: Config, s: Sys, e: Event)
    requires OneProbe(s) && ProbeHeld(s) && Enabled(s, e) && !ForeignRelease(s, e) && !e.Ask?
    ensures OneProbe(Step(c, s, e))
  {
    var t := Step(c, s, e);
    FailStopsProbing(c, s.b, e.at);
    hide AfterFailure;
    forall i, episode: nat | IsProbeOf(t, i, episode)
      ensures IsProbeOf(s, i, episode)
    {
    }
    assert e.Release? ==> forall episode: nat :: !IsProbeOf(t, e.i, episode);
    LeavesHalfOpen(c, s, e);
    hide IsProbeOf, Step;
  }

  /** Only an elapsed window makes a breaker half-open, in a new episode. */
  lemma LeavesHalfOpen(c: Config, s: Sys, e: Event)
    requires Enabled(s, e)
    ensures var t := Step(c, s, e);
      && s.episode <= t.episode
      && (t.b.status == HalfOpen ==> s.b.status == HalfOpen || t.episode == s.episode + 1)
      && (s.b.status == HalfOpen ==> t.episode == s.episode)
      && (t.b.status == HalfOpen && s.b.status == HalfOpen && s.b.probing && !t.b.probing ==> e.Release?)
  {
  }

  /** After a foreign release the breaker is half-open and not probing, over a probe in flight. */
  lemma ForeignReleaseBreaks(c: Config, s: Sys, e: Event)
    requires Enabled(s, e) && ForeignRelease(s, e)
    ensures !OneProbe(Step(c, s, e))
  {
    var i :| i != e.i && IsProbeOf(s, i, s.episode);
    var t := Step(c, s, e);
    assert t.b.status == HalfOpen && !t.b.probing && IsProbeOf(t, i, t.episode);
  }

  lemma {:induction false} OneProbeUpTo(c: Config, run: seq<Sys>, events: seq<Event>, k: nat)
    requires IsRun(c, run, events) && k < |run| && NoForeignRelease(run, events, k)
    ensures OneProbe(run[k])
  {
    if k > 0 {
      var s, e := run[k - 1], events[k - 1];
      OneProbeUpTo(c, run, events, k - 1);
      ProbeHeldRun(c, run, events, k - 1);
      assert !ForeignRelease(s, e);
      if e.Ask? {
        OneProbeAsk(c, s, e.at);
      } else {
        OneProbeOther(c, s, e);
      }
    }
  }

  /** In a run every state has at most one probe of an episode in flight, and none under a free probe
      slot, exactly when no step releases a neutral outcome under another call's probe. */
  lemma OneProbeExactly(c: Config, run: seq<Sys>, events: seq<Event>)
    requires IsRun(c, run, events)
    ensures (forall k :: 0 <= k < |run| ==> OneProbe(run[k])) <==> NoForeignRelease(run, events, |events|)
  {
    hide OneProbe, ForeignRelease, Step;
    if !NoForeignRelease(run, events, |events|) {
      var j :| 0 <= j < |events| && ForeignRelease(run[j], events[j]);
      ForeignReleaseBreaks(c, run[j], events[j]);
      assert run[j + 1] == Step(c, run[j], events[j]);
    } else {
      forall k | 0 <= k < |run|
        ensures OneProbe(run[k])
      {
        OneProbeUpTo(c, run, events, k);
      }
    }
  }

  /** What a foreign release makes possible: the next call is admitted as a second probe. */
  lemma ForeignReleaseAdmits(c: Config, s: Sys, e: Event) returns (i: nat)
    requires Enabled(s, e) && ForeignRelease(s, e)
    ensures Enabled(Step(c, s, e), Ask(e.at))
    ensures var t := Step(c, Step(c, s, e), Ask(e.at));
      i < |s.calls| && IsProbeOf(t, i, s.episode) && IsProbeOf(t, |s.calls|, s.episode) && t.episode == s.episode
  {
    i :| i != e.i && IsProbeOf(s, i, s.episode);
  }

  /** Whatever run led to a probe in flight: another call that ends neutrally while half-open frees
      the probe slot, and a second probe of the same episode is admitted. */
  lemma SecondProbe(c: Config, run0: seq<Sys>, events0: seq<Event>, i: nat, j: nat)
    returns (run: seq<Sys>, events: seq<Event>)
    requires IsRun(c, run0, events0)
    requires var s := run0[|run0| - 1];
      s.b.status == HalfOpen && s.b.probing && IsProbeOf(s, i, s.episode) && Stands(s, j, Running) && j != i
    ensures IsRun(c, run, events) && run != []
    ensures var s := run0[|run0| - 1];
      IsProbeOf(run[|run| - 1], i, s.episode) && IsProbeOf(run[|run| - 1], |s.calls|, s.episode)
      && run[|run| - 1].episode == s.episode && i != |s.calls|
  {
    var s := run0[|run0| - 1];
    var at := s.now;
    run, events := Extend(c, run0, events0, Pass(j, at));
    run, events := Extend(c, run, events, Release(j, at));
    run, events := Extend(c, run, events, Ask(at));
  }

  /** A run with one call admitted while closed, and a probe. */
  lemma ProbeRun(c: Config) returns (run: seq<Sys>, events: seq<Event>)
    requires c == Config(1, 10, 20)
    ensures IsRun(c, run, events) && run != []
    ensures var s := run[|run| - 1];
      s.b.status == HalfOpen && s.b.probing && IsProbeOf(s, 2, s.episode) && Stands(s, 1, Running)
  {
    run, events := FailRun(c, 2, 1);
    var s := run[|run| - 1];
    TimedRun(c, run, events, |run| - 1);
    assert s.b.status == Open && s.b.openedUntil == Some(10) && s.calls[1].pc == Running;
    run, events := Extend(c, run, events, Ask(10));
  }

  /** A run in which it happens: a call admitted while closed and canceled while half-open frees
      the probe slot under the probe, and a second probe is admitted. */
  lemma TwoProbes() returns (run: seq<Sys>, events: seq<Event>)
    ensures IsRun(Config(1, 10, 20), run, events) && run != []
    ensures !OneProbe(run[|run| - 1])
  {
    run, events := ProbeRun(Config(1, 10, 20));
    run, events := SecondProbe(Config(1, 10, 20), run, events, 2, 1);
  }
}

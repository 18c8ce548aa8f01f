/** What callers of the circuit breaker are told, what counts against it, and what it reports. */
module CircuitVerdicts {
  import opened Ids
  import opened Circuit
  import opened CircuitRuns

  // ----- the retry time -----

  /** No outcome was counted and no success recorded between two states of a run. */
  ghost predicate NothingRecorded(events: seq<Event>, i: nat, m: nat)
    requires i <= m <= |events|
  {
    forall k :: i <= k < m ==> !events[k].Succeed? && !events[k].Fail?
  }

  lemma NowStep(c: Config, s: Sys, e: Event)
    requires Enabled(s, e)
    ensures s.now <= Step(c, s, e).now == e.at
  {
    hide AfterFailure, NextBackoff;
  }

  lemma WindowStep(c: Config, s: Sys, e: Event, t: Time)
    requires Enabled(s, e) && !e.Succeed? && !e.Fail? && e.at < t
    requires s.b.status == Open && s.b.openedUntil == Some(t)
    ensures var b := Step(c, s, e).b; b.status == Open && b.openedUntil == Some(t)
  {
  }

  /** While nothing is recorded an open window stays open until it ends. */
  lemma {:induction false} WindowStays(c: Config, run: seq<Sys>, events: seq<Event>, i: nat, m: nat, t: Time)
    requires IsRun(c, run, events) && i <= m < |run| && NothingRecorded(events, i, m)
    requires run[i].b.status == Open && run[i].b.openedUntil == Some(t) && run[m].now < t
    ensures run[m].b.status == Open && run[m].b.openedUntil == Some(t)
  {
    if i < m {
      NowStep(c, run[m - 1], events[m - 1]);
      WindowStays(c, run, events, i, m - 1, t);
      hide Step;
      WindowStep(c, run[m - 1], events[m - 1], t);
    }
  }

  /** A call that is rejected while the window is open is told when to come back: later than now, not
      a moment too early, and then it is let in as the probe, unless something is recorded before. */
  lemma RetryTime(c: Config, run: seq<Sys>, events: seq<Event>, i: nat, at: Time, m: nat, later: Time)
    requires IsRun(c, run, events) && i <= m < |run| && NothingRecorded(events, i, m)
    requires run[i].b.status == Open && run[i].now <= at && AdmitVerdict(run[i].b, at).Rejected?
    requires at <= later && run[m].now <= later
    ensures AdmitVerdict(run[i].b, at).retryAt.Some?
    ensures
      var retryAt := AdmitVerdict(run[i].b, at).retryAt.value;
      && at < retryAt
      && (run[m].now < retryAt ==>
            AdmitVerdict(run[m].b, later) == if later < retryAt then Rejected(Some(retryAt)) else Admitted(true))
  {
    TimedRun(c, run, events, i);
    var t := run[i].b.openedUntil.value;
    hide Timed, Step;
    if run[m].now < t {
      WindowStays(c, run, events, i, m, t);
    }
  }

  /** A call that is rejected after the window waits for the probe in flight; the time it is told is
      the end of that window. */
  lemma ProbeRetryTime(c: Config, run: seq<Sys>, events: seq<Event>, i: nat, at: Time)
    requires IsRun(c, run, events) && i < |run| && run[i].now <= at
    requires run[i].b.status != Open && AdmitVerdict(run[i].b, at).Rejected?
    ensures exists j :: IsProbeOf(run[i], j, run[i].episode)
    ensures AdmitVerdict(run[i].b, at) == Rejected(run[i].b.openedUntil) && run[i].b.openedUntil.Some?
    ensures run[i].b.openedUntil.value <= run[i].now
  {
    TimedRun(c, run, events, i);
    ProbeHeldRun(c, run, events, i);
  }

  /** With the default settings: three failures at once, and the next call waits ten seconds. */
  lemma DefaultsReject() returns (run: seq<Sys>, events: seq<Event>)
    ensures IsRun(Config(0, 0, 0), run, events) && run != []
    ensures var b := run[|run| - 1].b;
      && AdmitVerdict(b, 1_000_000_000) == Rejected(Some(10_000_000_000))
      && AdmitVerdict(b, 9_999_999_999) == Rejected(Some(10_000_000_000))
      && AdmitVerdict(b, 10_000_000_000) == Admitted(true)
  {
    run, events := FailRun(Config(0, 0, 0), 3, 3);
    TimedRun(Config(0, 0, 0), run, events, |run| - 1);
    assert Backoff(Config(0, 0, 0), 0) == 10_000_000_000;
  }

  /** And two failures are not enough. */
  lemma DefaultsAdmit(run: seq<Sys>, events: seq<Event>, k: nat, at: Time)
    requires IsRun(Config(0, 0, 0), run, events) && k < |run| && run[k].b.failures <= 2
    ensures AdmitVerdict(run[k].b, at) == Admitted(false)
  {
    TimedRun(Config(0, 0, 0), run, events, k);
  }

  /** The default delays: 10, 20, 40, 80 seconds, then two minutes. */
  lemma DefaultDelays(k: nat)
    ensures Backoff(Config(0, 0, 0), k) / 1_000_000_000 ==
      match k case 0 => 10 case 1 => 20 case 2 => 40 case 3 => 80 case _ => 120
    ensures Backoff(Config(0, 0, 0), k) % 1_000_000_000 == 0
  {
    var c := Config(0, 0, 0);
    assert Backoff(c, 0) == 10_000_000_000;
    if k > 0 {
      DefaultDelays(k - 1);
    }
  }

  // ----- what counts -----

  /** The event of a finished call. */
  function Outcome(i: nat, callerDone: bool, error: Option<CallError>, at: Time): Event
  {
    if error.None? then Succeed(i, at)
    else if IsCircuitFailure(callerDone, error) then Fail(i, at)
    else Pass(i, at)
  }

  /** Recording an outcome moves the breaker as its event does. */
  lemma OutcomeSteps(c: Config, s: Sys, i: nat, callerDone: bool, error: Option<CallError>, at: Time)
    requires Enabled(s, Outcome(i, callerDone, error, at))
    ensures Step(c, s, Outcome(i, callerDone, error, at)).b ==
      match Outcome(i, callerDone, error, at)
      case Succeed(_, _) => AfterSuccess(s.b, at)
      case Fail(_, _) => AfterFailure(c, s.b, at)
      case _ => s.b
  {
    hide AfterFailure, AfterSuccess;
  }

  /** A call that the backend is not to blame for: its caller has gone, or it never got there. */
  predicate NotTheBackend(callerDone: bool, error: Option<CallError>)
  {
    error.Some? && (callerDone || error.value in {OversizedInput, InvalidRequest, CircuitOpenError, CallerCanceled})
  }

  ghost predicate FinishedBy(events: seq<Event>, k: nat, callerDone: bool, error: Option<CallError>)
    requires k < |events|
  {
    (events[k].Succeed? || events[k].Fail? || events[k].Pass?)
    && events[k] == Outcome(events[k].i, callerDone, error, events[k].at)
  }

  /** Every finished call succeeded, or failed for a reason that the backend is not to blame for. */
  ghost predicate BackendBlameless(events: seq<Event>)
  {
    forall k :: 0 <= k < |events| && (events[k].Succeed? || events[k].Fail? || events[k].Pass?) ==>
      exists callerDone: bool, error: Option<CallError> ::
        (error.None? || NotTheBackend(callerDone, error)) && FinishedBy(events, k, callerDone, error)
  }

  lemma BlamelessNeverFails(events: seq<Event>)
    requires BackendBlameless(events)
    ensures forall k :: 0 <= k < |events| ==> !events[k].Fail?
  {
    forall k | 0 <= k < |events|
      ensures !events[k].Fail?
    {
      if events[k].Fail? {
        var callerDone: bool, error: Option<CallError> :| (error.None? || NotTheBackend(callerDone, error))
          && FinishedBy(events, k, callerDone, error);
        assert false;
      }
    }
  }

  /** Such calls never open the breaker, in whatever order they come. */
  lemma {:induction false} BlamelessStaysClosed(c: Config, run: seq<Sys>, events: seq<Event>, k: nat)
    requires IsRun(c, run, events) && BackendBlameless(events) && k < |run|
    ensures run[k].b.status == Closed && run[k].b.failures == 0
  {
    BlamelessNeverFails(events);
    if k > 0 {
      BlamelessStaysClosed(c, run, events, k - 1);
      hide BackendBlameless;
    }
  }

  /** A backend error with the caller still waiting counts: one failure more, at that time. */
  lemma BackendErrorCounts(c: Config, s: Sys, i: nat, at: Time)
    requires Stands(s, i, Running) && at >= s.now
    ensures Enabled(s, Outcome(i, false, Some(BackendError), at))
    ensures var b := Step(c, s, Outcome(i, false, Some(BackendError), at)).b;
      b.failures == s.b.failures + 1 && b.lastFailure == Some(at)
  {
    hide NextBackoff;
  }

  // ----- what is reported -----

  /** The time of the latest event of a kind. */
  function LatestTime(events: seq<Event>, kind: Event -> bool): Option<Time>
  {
    if events == [] then None
    else
      var last := events[|events| - 1];
      if kind(last) then Some(last.at) else LatestTime(events[..|events| - 1], kind)
  }

  lemma LatestTimeMore(events: seq<Event>, k: nat, kind: Event -> bool)
    requires k < |events|
    ensures LatestTime(events[..k + 1], kind) ==
      if kind(events[k]) then Some(events[k].at) else LatestTime(events[..k], kind)
  {
    assert events[..k + 1][..k] == events[..k];
  }

  /** The reported times are those of the latest success, counted failure and check. */
  ghost predicate Stamped(b: Breaker, events: seq<Event>)
  {
    && b.lastSuccess == LatestTime(events, (e: Event) => e.Succeed?)
    && b.lastFailure == LatestTime(events, (e: Event) => e.Fail?)
    && b.lastCheckAt == LatestTime(events, (e: Event) => e.Succeed? || e.Fail? || e.Check?)
  }

  lemma StampsKept(c: Config, s: Sys, e: Event)
    requires Enabled(s, e)
    ensures var b := Step(c, s, e).b;
      && b.lastSuccess == (if e.Succeed? then Some(e.at) else s.b.lastSuccess)
      && b.lastFailure == (if e.Fail? then Some(e.at) else s.b.lastFailure)
      && b.lastCheckAt == (if e.Succeed? || e.Fail? || e.Check? then Some(e.at) else s.b.lastCheckAt)
  {
    hide NextBackoff;
  }

  lemma {:induction false} StampedRun(c: Config, run: seq<Sys>, events: seq<Event>, k: nat)
    requires IsRun(c, run, events) && k < |run|
    ensures Stamped(run[k].b, events[..k])
  {
    if k > 0 {
      StampedRun(c, run, events, k - 1);
      StampsKept(c, run[k - 1], events[k - 1]);
      hide Step;
      LatestTimeMore(events, k - 1, (e: Event) => e.Succeed?);
      LatestTimeMore(events, k - 1, (e: Event) => e.Fail?);
      LatestTimeMore(events, k - 1, (e: Event) => e.Succeed? || e.Fail? || e.Check?);
    }
  }

  /** The failures counted since the latest success. */
  function FailuresSince(events: seq<Event>): nat
  {
    if events == [] then 0
    else
      match events[|events| - 1]
      case Succeed(_, _) => 0
      case Fail(_, _) => FailuresSince(events[..|events| - 1]) + 1
      case _ => FailuresSince(events[..|events| - 1])
  }

  /** The breaker opens on as many counted failures without a success between them as are allowed. */
  lemma {:induction false} OpensOnFailures(c: Config, run: seq<Sys>, events: seq<Event>, k: nat)
    requires IsRun(c, run, events) && k < |run|
    ensures run[k].b.failures == FailuresSince(events[..k])
    ensures run[k].b.status == Closed <==>
      FailuresSince(events[..k]) < if c.failureMax > 0 then c.failureMax else 3
  {
    TimedRun(c, run, events, k);
    if k > 0 {
      OpensOnFailures(c, run, events, k - 1);
      CountStep(c, run[k - 1], events[k - 1]);
      assert events[..k][..k - 1] == events[..k - 1];
      hide Step, Enabled, NextBackoff;
    }
  }

  lemma CountStep(c: Config, s: Sys, e: Event)
    requires Enabled(s, e)
    ensures Step(c, s, e).b.failures ==
      match e case Succeed(_, _) => 0 case Fail(_, _) => s.b.failures + 1 case _ => s.b.failures
  {
    hide NextBackoff;
  }
}

/** One lane's circuit breaker: its transitions, and the arithmetic of its backoff. */
module Circuit {
  import opened Ids

  // ----- 64-bit durations -----

  const TWO62 := 0x4000_0000_0000_0000
  const TWO63 := 0x8000_0000_0000_0000
  const TWO64 := 0x1_0000_0000_0000_0000

  predicate IsInt64(x: int)
  {
    -TWO63 <= x < TWO63
  }

  /** A signed 64-bit product keeps its low bits. */
  function Wrap64(x: int): (r: int)
    ensures IsInt64(r)
    ensures IsInt64(x) ==> r == x
    ensures TWO63 <= x < TWO64 ==> r == x - TWO64
  {
    (x + TWO63) % TWO64 - TWO63
  }

  // ----- configuration -----

  const SECOND := 1_000_000_000
  const DEFAULT_FAILURE_MAX := 3
  const DEFAULT_BASE_BACKOFF := 10 * SECOND
  const DEFAULT_MAX_BACKOFF := 120 * SECOND

  datatype Config = Config(failureMax: int, baseBackoff: int, maxBackoff: int)

  predicate ValidConfig(c: Config)
  {
    IsInt64(c.baseBackoff) && IsInt64(c.maxBackoff)
  }

  function FailureMax(c: Config): (n: nat)
    ensures n >= 1
  {
    if c.failureMax > 0 then c.failureMax else DEFAULT_FAILURE_MAX
  }

  function BaseBackoff(c: Config): (d: int)
    ensures d >= 1
  {
    if c.baseBackoff > 0 then c.baseBackoff else DEFAULT_BASE_BACKOFF
  }

  /** The ceiling of the backoff: never below the base. */
  function Ceiling(c: Config): (d: int)
    ensures d >= BaseBackoff(c)
  {
    var max := if c.maxBackoff <= 0 then DEFAULT_MAX_BACKOFF else c.maxBackoff;
    if max < BaseBackoff(c) then BaseBackoff(c) else max
  }

  function NextBackoff(c: Config, backoff: int): int
  {
    var doubled := Wrap64(backoff * 2);
    var next := if doubled <= BaseBackoff(c) then Wrap64(BaseBackoff(c) * 2) else doubled;
    if next > Ceiling(c) then Ceiling(c) else next
  }

  // ----- the backoff law -----

  /** `base` times two to the power `k`. */
  function Doubled(base: int, k: nat): int
  {
    if k == 0 then base else 2 * Doubled(base, k - 1)
  }

  /** The intended delay after `k` reopenings. */
  function Delay(c: Config, k: nat): int
  {
    var d := Doubled(BaseBackoff(c), k);
    if d > Ceiling(c) then Ceiling(c) else d
  }

  /** The delay that a stored backoff stands for: the base when it is not positive. */
  function Stored(c: Config, backoff: int): int
  {
    if backoff <= 0 then BaseBackoff(c) else backoff
  }

  /** The delay that the code uses after `k` reopenings. */
  function Backoff(c: Config, k: nat): int
  {
    if k == 0 then BaseBackoff(c) else Stored(c, NextBackoff(c, Backoff(c, k - 1)))
  }

  /** The durations for which doubling in 64 bits does no harm. */
  predicate NoOverflow(c: Config)
  {
    || Ceiling(c) < TWO62
    || (BaseBackoff(c) < TWO62 && Ceiling(c) <= 2 * BaseBackoff(c))
    || Ceiling(c) == BaseBackoff(c)
  }

  lemma {:induction false} DoubledGrows(base: int, j: nat, k: nat)
    requires base >= 1 && j <= k
    ensures base <= Doubled(base, j) <= Doubled(base, k)
  {
    if j < k {
      DoubledGrows(base, j, k - 1);
    } else if k > 0 {
      DoubledGrows(base, j - 1, k - 1);
    }
  }

  lemma DelayGrows(c: Config, j: nat, k: nat)
    requires j <= k
    ensures BaseBackoff(c) <= Delay(c, j) <= Delay(c, k) <= Ceiling(c)
  {
    DoubledGrows(BaseBackoff(c), j, k);
  }

  lemma CeilingFits(c: Config)
    requires ValidConfig(c)
    ensures Ceiling(c) < TWO63
  {
  }

  /** One doubling follows the law while it does not overflow. */
  lemma NextIsDelay(c: Config, k: nat)
    requires ValidConfig(c) && (NoOverflow(c) || Delay(c, k) < TWO62)
    ensures Stored(c, NextBackoff(c, Delay(c, k))) == Delay(c, k + 1)
  {
    CeilingFits(c);
    DelayGrows(c, k, k);
    DoubledGrows(BaseBackoff(c), k, k + 1);
  }

  lemma {:induction false} BackoffIsDelay(c: Config, k: nat)
    requires ValidConfig(c) && (NoOverflow(c) || (k > 0 ==> Delay(c, k - 1) < TWO62))
    ensures Backoff(c, k) == Delay(c, k)
  {
    if k > 0 {
      if !NoOverflow(c) && k > 1 {
        DelayGrows(c, k - 2, k - 1);
      }
      BackoffIsDelay(c, k - 1);
      NextIsDelay(c, k - 1);
    } else {
      assert Doubled(BaseBackoff(c), 0) == BaseBackoff(c);
    }
  }

  /** The first reopening whose delay reaches two to the power 62. */
  lemma {:induction false} FirstLarge(c: Config, k: nat) returns (first: nat)
    requires Delay(c, k) >= TWO62
    ensures first <= k && Delay(c, first) >= TWO62 && (first > 0 ==> Delay(c, first - 1) < TWO62)
  {
    if k > 0 && Delay(c, k - 1) >= TWO62 {
      first := FirstLarge(c, k - 1);
    } else {
      first := k;
    }
  }

  lemma {:induction false} DoubledReaches(base: int, k: nat)
    requires base >= 1
    ensures Doubled(base, k) > k
  {
    if k > 0 {
      DoubledReaches(base, k - 1);
    }
  }

  /** Otherwise some delay is wrong: the doubling overflows, and falls back to at most twice the base. */
  lemma OverflowBreaks(c: Config) returns (k: nat)
    requires ValidConfig(c) && !NoOverflow(c)
    ensures Backoff(c, k) != Delay(c, k)
  {
    DoubledReaches(BaseBackoff(c), TWO62);
    var first := FirstLarge(c, TWO62);
    k := first + 1;
    BackoffIsDelay(c, first);
    CeilingFits(c);
    DelayGrows(c, first, k);
    var b := Delay(c, first);
    assert Wrap64(b * 2) == b * 2 - TWO64;
    assert Delay(c, k) == Ceiling(c);
    assert BaseBackoff(c) >= TWO62 ==> Wrap64(BaseBackoff(c) * 2) < 0;
  }

  /** The backoff doubles up to its ceiling after every reopening, exactly for these durations. */
  lemma BackoffLaw(c: Config)
    requires ValidConfig(c)
    ensures (forall k: nat :: Backoff(c, k) == Delay(c, k)) <==> NoOverflow(c)
  {
    if NoOverflow(c) {
      forall k: nat
        ensures Backoff(c, k) == Delay(c, k)
      {
        BackoffIsDelay(c, k);
      }
    } else {
      var k := OverflowBreaks(c);
    }
  }

  // ----- when the delays never shrink -----

  const TWO61 := 0x2000_0000_0000_0000

  /** The durations for which no later delay is shorter: the doubling stays below two to the power
      62, or the base alone is at least half of that. */
  predicate NeverShrinks(c: Config)
  {
    Ceiling(c) < TWO62 || BaseBackoff(c) >= TWO61
  }

  /** From a large base the delay doubles once at most. */
  lemma {:induction false} LargeBase(c: Config, k: nat)
    requires ValidConfig(c) && BaseBackoff(c) >= TWO61 && k > 0
    ensures Backoff(c, k) == if BaseBackoff(c) >= TWO62 then BaseBackoff(c)
                             else if 2 * BaseBackoff(c) > Ceiling(c) then Ceiling(c) else 2 * BaseBackoff(c)
  {
    CeilingFits(c);
    var base, b := BaseBackoff(c), Backoff(c, k - 1);
    if k > 1 {
      LargeBase(c, k - 1);
    }
    assert base >= TWO62 ==> Wrap64(base * 2) < 0;
    assert b >= TWO62 ==> Wrap64(b * 2) < 0;
  }

  lemma BackoffGrows(c: Config, k: nat)
    requires ValidConfig(c) && NeverShrinks(c)
    ensures Backoff(c, k) <= Backoff(c, k + 1)
  {
    if Ceiling(c) < TWO62 {
      BackoffIsDelay(c, k);
      BackoffIsDelay(c, k + 1);
      DelayGrows(c, k, k + 1);
    } else {
      LargeBase(c, k + 1);
      if k > 0 {
        LargeBase(c, k);
      }
    }
  }

  /** Otherwise some delay is followed by a shorter one, twice the base. */
  lemma BackoffShrinks(c: Config) returns (k: nat)
    requires ValidConfig(c) && !NeverShrinks(c)
    ensures 0 < Backoff(c, k + 1) < Backoff(c, k)
  {
    DoubledReaches(BaseBackoff(c), TWO62);
    k := FirstLarge(c, TWO62);
    BackoffIsDelay(c, k);
    CeilingFits(c);
    DelayGrows(c, k, k);
    assert Wrap64(Backoff(c, k) * 2) == Backoff(c, k) * 2 - TWO64;
  }

  // ----- transitions -----

  type Time = int

  datatype Status = Closed | Open | HalfOpen

  datatype Breaker = Breaker(
    status: Status,
    failures: nat,
    backoff: int,
    openedUntil: Option<Time>,
    probing: bool,
    lastCheckAt: Option<Time>,
    lastSuccess: Option<Time>,
    lastFailure: Option<Time>)

  const NEW_BREAKER := Breaker(Closed, 0, 0, None, false, None, None, None)

  /** An elapsed open window becomes half-open. */
  function Advance(b: Breaker, now: Time): Breaker
  {
    if b.status == Open && b.openedUntil.Some? && now >= b.openedUntil.value
    then b.(status := HalfOpen, probing := false)
    else b
  }

  datatype Verdict = Rejected(retryAt: Option<Time>) | Admitted(probe: bool)

  function AdmitVerdict(b: Breaker, now: Time): Verdict
  {
    var a := Advance(b, now);
    match a.status
    case Open => Rejected(a.openedUntil)
    case HalfOpen => if a.probing then Rejected(a.openedUntil) else Admitted(true)
    case Closed => Admitted(false)
  }

  function AfterAdmit(b: Breaker, now: Time): Breaker
  {
    var a := Advance(b, now);
    if a.status == HalfOpen then a.(probing := true) else a
  }

  function AfterSuccess(b: Breaker, now: Time): Breaker
  {
    Breaker(Closed, 0, 0, None, false, Some(now), Some(now), b.lastFailure)
  }

  function AfterFailure(c: Config, b: Breaker, now: Time): Breaker
  {
    var counted := b.(lastCheckAt := Some(now), lastFailure := Some(now), failures := b.failures + 1);
    if b.status == HalfOpen || counted.failures >= FailureMax(c) then
      var delay := Stored(c, b.backoff);
      counted.(status := Open, probing := false, openedUntil := Some(now + delay), backoff := NextBackoff(c, delay))
    else counted
  }

  function AfterRelease(b: Breaker): Breaker
  {
    if b.status == HalfOpen then b.(probing := false) else b
  }

  /** Outcomes of an admitted call. */
  datatype CallError = OversizedInput | InvalidRequest | CircuitOpenError | CallerCanceled | BackendError

  /** Only failures attributable to the backend count. */
  predicate IsCircuitFailure(callerDone: bool, error: Option<CallError>)
  {
    error == Some(BackendError) && !callerDone
  }

  /** The breaker object; each method is one critical section. */
  class CircuitBreaker {
    const config: Config
    var status: Status
    var failures: nat
    var backoff: int
    var openedUntil: Option<Time>
    var probing: bool
    var lastCheckAt: Option<Time>
    var lastSuccess: Option<Time>
    var lastFailure: Option<Time>

    ghost function View(): Breaker
      reads this
    {
      Breaker(status, failures, backoff, openedUntil, probing, lastCheckAt, lastSuccess, lastFailure)
    }

    constructor (c: Config)
      ensures config == c && View() == NEW_BREAKER
    {
      config := c;
      status, failures, backoff, openedUntil, probing := Closed, 0, 0, None, false;
      lastCheckAt, lastSuccess, lastFailure := None, None, None;
    }

    method AdvanceLocked(now: Time)
      modifies this
      ensures View() == Advance(old(View()), now)
    {
      if status == Open && openedUntil.Some? && now >= openedUntil.value {
        status, probing := HalfOpen, false;
      }
    }

    method Admit(now: Time) returns (v: Verdict)
      modifies this
      ensures v == AdmitVerdict(old(View()), now) && View() == AfterAdmit(old(View()), now)
    {
      AdvanceLocked(now);
      match status
      case Open => v := Rejected(openedUntil);
      case HalfOpen =>
        if probing {
          return Rejected(openedUntil);
        }
        probing := true;
        v := Admitted(true);
      case Closed => v := Admitted(false);
    }

    method MarkCheck(now: Time)
      modifies this
      ensures View() == old(View()).(lastCheckAt := Some(now))
    {
      lastCheckAt := Some(now);
    }

    /** Classify an outcome; a neutral one leaves the breaker to `ReleaseProbe`. */
    method Record(callerDone: bool, error: Option<CallError>, now: Time) returns (neutral: bool)
      modifies this
      ensures neutral <==> error.Some? && !IsCircuitFailure(callerDone, error)
      ensures View() == if error.None? then AfterSuccess(old(View()), now)
                        else if neutral then old(View()) else AfterFailure(config, old(View()), now)
    {
      if error.None? {
        lastCheckAt, lastSuccess := Some(now), Some(now);
        failures, backoff, status, probing, openedUntil := 0, 0, Closed, false, None;
        return false;
      }
      if !IsCircuitFailure(callerDone, error) {
        return true;
      }
      lastCheckAt, lastFailure := Some(now), Some(now);
      failures := failures + 1;
      if status == HalfOpen || failures >= FailureMax(config) {
        status, probing := Open, false;
        if backoff <= 0 {
          backoff := BaseBackoff(config);
        }
        openedUntil := Some(now + backoff);
        backoff := NextBackoff(config, backoff);
      }
      return false;
    }

    method ReleaseProbe()
      modifies this
      ensures View() == AfterRelease(old(View()))
    {
      if status == HalfOpen {
        probing := false;
      }
    }

    method State(now: Time) returns (s: Status)
      modifies this
      ensures View() == Advance(old(View()), now) && s == View().status
    {
      AdvanceLocked(now);
      s := status;
    }
  }
}

/** The two-lane slot scheduler: every interleaving of acquire, cancel and release steps. */
module Scheduler {

  datatype Lane = Interactive | Worker

  // ----- the shared state: buffered channels as token counters, and two counted maps -----

  datatype Permits = Permits(total: nat, reserved: nat, slots: nat, workerSlots: nat,
                             inUse: map<Lane, nat>, waiters: map<Lane, nat>)

  function At(m: map<Lane, nat>, lane: Lane): nat
  {
    if lane in m then m[lane] else 0
  }

  function WorkerMax(p: Permits): int
  {
    p.total - p.reserved
  }

  /** Misconfigured limits are clamped into a usable range. */
  function NewPermits(total: int, reserved: int): (p: Permits)
    ensures p.reserved < p.total && p.slots == p.workerSlots == 0
    ensures p.total == if total < 1 then 1 else total
    ensures 0 <= reserved < p.total ==> p.reserved == reserved
    ensures reserved < 0 ==> p.reserved == 0
    ensures reserved >= p.total ==> p.reserved == p.total - 1
  {
    var t := if total < 1 then 1 else total;
    var r := if reserved < 0 then 0 else reserved;
    Permits(t, if r >= t then t - 1 else r, 0, 0, map[], map[])
  }

  function BeginWait(p: Permits, lane: Lane): Permits
  {
    p.(waiters := p.waiters[lane := At(p.waiters, lane) + 1])
  }

  function EndWait(p: Permits, lane: Lane, canceled: bool): Permits
  {
    var left := if At(p.waiters, lane) > 0 then p.(waiters := p.waiters[lane := At(p.waiters, lane) - 1]) else p;
    if canceled then left else left.(inUse := left.inUse[lane := At(left.inUse, lane) + 1])
  }

  function EndUse(p: Permits, lane: Lane): Permits
  {
    if At(p.inUse, lane) > 0 then p.(inUse := p.inUse[lane := At(p.inUse, lane) - 1]) else p
  }

  /** The scheduler object: each method is one atomic step on the shared state. */
  class SlotScheduler {
    const total: nat
    const reserved: nat
    var slots: nat
    var workerSlots: nat
    var inUse: map<Lane, nat>
    var waiters: map<Lane, nat>

    ghost function View(): Permits
      reads this
    {
      Permits(total, reserved, slots, workerSlots, inUse, waiters)
    }

    constructor (total0: int, reserved0: int)
      ensures View() == NewPermits(total0, reserved0)
    {
      var t := if total0 < 1 then 1 else total0;
      var r := if reserved0 < 0 then 0 else reserved0;
      if r >= t {
        r := t - 1;
      }
      total, reserved := t, r;
      slots, workerSlots, inUse, waiters := 0, 0, map[], map[];
    }

    method Begin(lane: Lane)
      modifies this
      ensures View() == BeginWait(old(View()), lane)
    {
      waiters := waiters[lane := At(waiters, lane) + 1];
    }

    method End(lane: Lane, canceled: bool)
      modifies this
      ensures View() == EndWait(old(View()), lane, canceled)
    {
      if At(waiters, lane) > 0 {
        waiters := waiters[lane := At(waiters, lane) - 1];
      }
      if !canceled {
        inUse := inUse[lane := At(inUse, lane) + 1];
      }
    }

    /** Send on the global channel; a full channel blocks. */
    method TakeSlot() returns (ok: bool)
      modifies this
      ensures ok <==> old(slots) < total
      ensures View() == if ok then old(View()).(slots := old(slots) + 1) else old(View())
    {
      ok := slots < total;
      if ok {
        slots := slots + 1;
      }
    }

    method TakeWorkerSlot() returns (ok: bool)
      modifies this
      ensures ok <==> old(workerSlots) < total - reserved
      ensures View() == if ok then old(View()).(workerSlots := old(workerSlots) + 1) else old(View())
    {
      ok := workerSlots < total - reserved;
      if ok {
        workerSlots := workerSlots + 1;
      }
    }

    /** Receive from the global channel; the caller holds a slot, so the channel is not empty. */
    method ReturnSlot()
      requires slots > 0
      modifies this
      ensures View() == old(View()).(slots := old(slots) - 1)
    {
      slots := slots - 1;
    }

    method ReturnWorkerSlot()
      requires workerSlots > 0
      modifies this
      ensures View() == old(View()).(workerSlots := old(workerSlots) - 1)
    {
      workerSlots := workerSlots - 1;
    }

    method EndUsing(lane: Lane)
      modifies this
      ensures View() == EndUse(old(View()), lane)
    {
      if At(inUse, lane) > 0 {
        inUse := inUse[lane := At(inUse, lane) - 1];
      }
    }
  }

  // ----- callers -----

  /** Where a caller stands between two atomic steps of `Acquire` and of its release. */
  datatype Pc =
    | WantWorker      // waits to send on the worker channel
    | WantSlot        // waits to send on the global channel
    | Granted         // has its slot; its wait is not yet ended
    | Canceling       // a canceled worker that returns its worker token
    | Leaving         // canceled; its wait is not yet ended
    | Holding         // holds its slot
    | Returning       // a worker that has returned its slot but not its worker token
    | Settling        // holds no token; its use is not yet ended
    | Finished

  datatype Caller = Caller(lane: Lane, pc: Pc)

  datatype State = State(permits: Permits, callers: seq<Caller>)

  datatype Action =
    | Arrive(lane: Lane)
    | SendWorker(i: nat)
    | SendSlot(i: nat)
    | Cancel(i: nat)
    | FinishWait(i: nat)
    | ReceiveSlot(i: nat)
    | ReceiveWorker(i: nat)
    | FinishUse(i: nat)

  predicate Stands(s: State, i: nat, pc: Pc)
  {
    i < |s.callers| && s.callers[i].pc == pc
  }

  /** What must hold for the step to be taken: a send needs room, a receive needs a token. */
  predicate Enabled(s: State, a: Action)
  {
    match a
    case Arrive(_) => true
    case SendWorker(i) => Stands(s, i, WantWorker) && s.permits.workerSlots < WorkerMax(s.permits)
    case SendSlot(i) => Stands(s, i, WantSlot) && s.permits.slots < s.permits.total
    case Cancel(i) => Stands(s, i, WantWorker) || Stands(s, i, WantSlot)
    case FinishWait(i) => Stands(s, i, Granted) || Stands(s, i, Leaving)
    case ReceiveSlot(i) => Stands(s, i, Holding) && s.permits.slots > 0
    case ReceiveWorker(i) => (Stands(s, i, Returning) || Stands(s, i, Canceling)) && s.permits.workerSlots > 0
    case FinishUse(i) => Stands(s, i, Settling)
  }

  function Move(s: State, i: nat, pc: Pc, permits: Permits): State
    requires i < |s.callers|
  {
    State(permits, s.callers[i := s.callers[i].(pc := pc)])
  }

  function Step(s: State, a: Action): State
    requires Enabled(s, a)
  {
    var p := s.permits;
    match a
    case Arrive(lane) =>
      State(BeginWait(p, lane), s.callers + [Caller(lane, if lane == Worker then WantWorker else WantSlot)])
    case SendWorker(i) => Move(s, i, WantSlot, p.(workerSlots := p.workerSlots + 1))
    case SendSlot(i) => Move(s, i, Granted, p.(slots := p.slots + 1))
    case Cancel(i) => Move(s, i, if s.callers[i] == Caller(Worker, WantSlot) then Canceling else Leaving, p)
    case FinishWait(i) =>
      var canceled := s.callers[i].pc == Leaving;
      Move(s, i, if canceled then Finished else Holding, EndWait(p, s.callers[i].lane, canceled))
    case ReceiveSlot(i) =>
      Move(s, i, if s.callers[i].lane == Worker then Returning else Settling, p.(slots := p.slots - 1))
    case ReceiveWorker(i) =>
      Move(s, i, if s.callers[i].pc == Canceling then Leaving else Settling, p.(workerSlots := p.workerSlots - 1))
    case FinishUse(i) => Move(s, i, Finished, EndUse(p, s.callers[i].lane))
  }

  /** `run` is a run from a new scheduler: every step was enabled, and led to the next state. */
  ghost predicate IsRun(total: int, reserved: int, run: seq<State>, actions: seq<Action>)
  {
    && |run| == |actions| + 1
    && run[0] == State(NewPermits(total, reserved), [])
    && forall k :: 0 <= k < |actions| ==> Enabled(run[k], actions[k]) && run[k + 1] == Step(run[k], actions[k])
  }

  // ----- counting callers -----

  function Count(callers: seq<Caller>, p: Caller -> bool): nat
  {
    if callers == [] then 0 else Count(callers[..|callers| - 1], p) + if p(callers[|callers| - 1]) then 1 else 0
  }

  lemma {:induction false} CountUpdate(callers: seq<Caller>, p: Caller -> bool, i: nat, c: Caller)
    requires i < |callers|
    ensures Count(callers[i := c], p) == Count(callers, p) - (if p(callers[i]) then 1 else 0) + (if p(c) then 1 else 0)
  {
    var n := |callers| - 1;
    if i == n {
      assert callers[i := c][..n] == callers[..n];
    } else {
      assert callers[i := c][..n] == callers[..n][i := c];
      CountUpdate(callers[..n], p, i, c);
    }
  }

  lemma CountAppend(callers: seq<Caller>, p: Caller -> bool, c: Caller)
    ensures Count(callers + [c], p) == Count(callers, p) + if p(c) then 1 else 0
  {
    assert (callers + [c])[..|callers|] == callers;
  }

  lemma {:induction false} CountMember(callers: seq<Caller>, p: Caller -> bool, i: nat)
    requires i < |callers| && p(callers[i])
    ensures Count(callers, p) > 0
  {
    if i < |callers| - 1 {
      CountMember(callers[..|callers| - 1], p, i);
    }
  }

  lemma {:induction false} CountWitness(callers: seq<Caller>, p: Caller -> bool) returns (i: nat)
    requires Count(callers, p) > 0
    ensures i < |callers| && p(callers[i])
  {
    if p(callers[|callers| - 1]) {
      i := |callers| - 1;
    } else {
      i := CountWitness(callers[..|callers| - 1], p);
    }
  }

  lemma {:induction false} CountSplit(callers: seq<Caller>, p: Caller -> bool, q: Caller -> bool, r: Caller -> bool)
    requires forall c :: p(c) ==> q(c) || r(c)
    ensures Count(callers, p) <= Count(callers, q) + Count(callers, r)
  {
    if callers != [] {
      CountSplit(callers[..|callers| - 1], p, q, r);
    }
  }

  lemma {:induction false} CountNone(callers: seq<Caller>, p: Caller -> bool)
    requires forall i :: 0 <= i < |callers| ==> !p(callers[i])
    ensures Count(callers, p) == 0
  {
    if callers != [] {
      CountNone(callers[..|callers| - 1], p);
    }
  }

  // ----- what each caller has -----

  predicate HasSlot(c: Caller) { c.pc == Granted || c.pc == Holding }

  predicate HasWorkerToken(c: Caller)
  {
    c.lane == Worker && (c.pc == WantSlot || c.pc == Granted || c.pc == Holding || c.pc == Returning
      || c.pc == Canceling)
  }

  predicate Waits(c: Caller)
  {
    c.pc == WantWorker || c.pc == WantSlot || c.pc == Granted || c.pc == Canceling || c.pc == Leaving
  }

  predicate Uses(c: Caller) { c.pc == Holding || c.pc == Returning || c.pc == Settling }

  predicate InteractiveHolds(c: Caller) { c.lane == Interactive && HasSlot(c) }

  function WaitsIn(lane: Lane): Caller -> bool { (c: Caller) => c.lane == lane && Waits(c) }

  function UsesIn(lane: Lane): Caller -> bool { (c: Caller) => c.lane == lane && Uses(c) }

  /** The counters are the numbers of callers that have what they count. */
  ghost predicate Accounts(s: State)
  {
    var p := s.permits;
    && p.slots == Count(s.callers, HasSlot)
    && p.workerSlots == Count(s.callers, HasWorkerToken)
    && (forall lane {:trigger At(p.waiters, lane)} :: At(p.waiters, lane) == Count(s.callers, WaitsIn(lane)))
    && (forall lane {:trigger At(p.inUse, lane)} :: At(p.inUse, lane) == Count(s.callers, UsesIn(lane)))
  }

  /** The limits hold, and only workers stand where worker tokens are handled. */
  ghost predicate Limits(s: State)
  {
    var p := s.permits;
    && p.slots <= p.total && p.workerSlots <= p.total - p.reserved && p.reserved < p.total
    && forall i :: 0 <= i < |s.callers| ==> WellPlaced(s.callers[i])
  }

  ghost predicate Inv(s: State)
  {
    Accounts(s) && Limits(s)
  }

  lemma InitInv(total: int, reserved: int)
    ensures Inv(State(NewPermits(total, reserved), []))
  {
  }

  lemma CountsUpdate(s: State, i: nat, c: Caller)
    requires i < |s.callers|
    ensures var n := s.callers[i := c];
      && Count(n, HasSlot) == Count(s.callers, HasSlot) - (if HasSlot(s.callers[i]) then 1 else 0) +
           (if HasSlot(c) then 1 else 0)
      && Count(n, HasWorkerToken) == Count(s.callers, HasWorkerToken)
           - (if HasWorkerToken(s.callers[i]) then 1 else 0) + (if HasWorkerToken(c) then 1 else 0)
      && (forall lane {:trigger WaitsIn(lane)} :: Count(n, WaitsIn(lane)) == Count(s.callers, WaitsIn(lane))
           - (if WaitsIn(lane)(s.callers[i]) then 1 else 0) + (if WaitsIn(lane)(c) then 1 else 0))
      && (forall lane {:trigger UsesIn(lane)} :: Count(n, UsesIn(lane)) == Count(s.callers, UsesIn(lane))
           - (if UsesIn(lane)(s.callers[i]) then 1 else 0) + (if UsesIn(lane)(c) then 1 else 0))
  {
    CountUpdate(s.callers, HasSlot, i, c);
    CountUpdate(s.callers, HasWorkerToken, i, c);
    forall lane
      ensures Count(s.callers[i := c], WaitsIn(lane)) == Count(s.callers, WaitsIn(lane))
           - (if WaitsIn(lane)(s.callers[i]) then 1 else 0) + (if WaitsIn(lane)(c) then 1 else 0)
      ensures Count(s.callers[i := c], UsesIn(lane)) == Count(s.callers, UsesIn(lane))
           - (if UsesIn(lane)(s.callers[i]) then 1 else 0) + (if UsesIn(lane)(c) then 1 else 0)
    {
      CountUpdate(s.callers, WaitsIn(lane), i, c);
      CountUpdate(s.callers, UsesIn(lane), i, c);
    }
  }

  /** A caller that is counted is counted at least once. */
  lemma Counted(s: State, i: nat)
    requires Accounts(s) && i < |s.callers|
    ensures HasSlot(s.callers[i]) ==> s.permits.slots > 0
    ensures HasWorkerToken(s.callers[i]) ==> s.permits.workerSlots > 0
    ensures Waits(s.callers[i]) ==> At(s.permits.waiters, s.callers[i].lane) > 0
    ensures Uses(s.callers[i]) ==> At(s.permits.inUse, s.callers[i].lane) > 0
  {
    var c := s.callers[i];
    if HasSlot(c) { CountMember(s.callers, HasSlot, i); }
    if HasWorkerToken(c) { CountMember(s.callers, HasWorkerToken, i); }
    if Waits(c) { CountMember(s.callers, WaitsIn(c.lane), i); }
    if Uses(c) { CountMember(s.callers, UsesIn(c.lane), i); }
  }

  /** `n` is `m` with a caller's old share taken out and its new share put in. */
  ghost predicate Shifts(m: nat, n: nat, before: bool, after: bool)
  {
    n == m - (if before then 1 else 0) + (if after then 1 else 0)
  }

  /** A step moves the counters by what its caller gives up and takes. */
  ghost predicate Balanced(p: Permits, q: Permits, c: Caller, d: Caller)
  {
    && q.total == p.total && q.reserved == p.reserved
    && Shifts(p.slots, q.slots, HasSlot(c), HasSlot(d))
    && Shifts(p.workerSlots, q.workerSlots, HasWorkerToken(c), HasWorkerToken(d))
    && (forall lane {:trigger At(q.waiters, lane)} ::
          Shifts(At(p.waiters, lane), At(q.waiters, lane), WaitsIn(lane)(c), WaitsIn(lane)(d)))
    && (forall lane {:trigger At(q.inUse, lane)} ::
          Shifts(At(p.inUse, lane), At(q.inUse, lane), UsesIn(lane)(c), UsesIn(lane)(d)))
  }

  ghost predicate WellPlaced(c: Caller)
  {
    c.pc == WantWorker || c.pc == Returning || c.pc == Canceling ==> c.lane == Worker
  }

  /** A caller that has just arrived waits, and has nothing. */
  lemma ArriveCounts(callers: seq<Caller>, c: Caller)
    requires !HasSlot(c) && !HasWorkerToken(c) && Waits(c) && !Uses(c)
    ensures Count(callers + [c], HasSlot) == Count(callers, HasSlot)
    ensures Count(callers + [c], HasWorkerToken) == Count(callers, HasWorkerToken)
    ensures forall lane {:trigger WaitsIn(lane)} ::
      Count(callers + [c], WaitsIn(lane)) == Count(callers, WaitsIn(lane)) + if lane == c.lane then 1 else 0
    ensures forall lane {:trigger UsesIn(lane)} :: Count(callers + [c], UsesIn(lane)) == Count(callers, UsesIn(lane))
  {
    hide Count;
    CountAppend(callers, HasSlot, c);
    CountAppend(callers, HasWorkerToken, c);
    forall lane
      ensures Count(callers + [c], WaitsIn(lane)) == Count(callers, WaitsIn(lane)) + if lane == c.lane then 1 else 0
      ensures Count(callers + [c], UsesIn(lane)) == Count(callers, UsesIn(lane))
    {
      CountAppend(callers, WaitsIn(lane), c);
      CountAppend(callers, UsesIn(lane), c);
    }
  }

  lemma ArriveKeeps(s: State, lane: Lane)
    requires Inv(s)
    ensures Inv(Step(s, Arrive(lane)))
  {
    var t := Step(s, Arrive(lane));
    var c := Caller(lane, if lane == Worker then WantWorker else WantSlot);
    ArriveCounts(s.callers, c);
    hide Count, HasSlot, HasWorkerToken, WaitsIn, UsesIn;
    forall l
      ensures At(t.permits.waiters, l) == Count(t.callers, WaitsIn(l))
      ensures At(t.permits.inUse, l) == Count(t.callers, UsesIn(l))
    {
      assert At(s.permits.waiters, l) == Count(s.callers, WaitsIn(l));
      assert At(s.permits.inUse, l) == Count(s.callers, UsesIn(l));
    }
    assert Accounts(t);
    assert t.callers == s.callers + [c] && WellPlaced(c);
  }

  /** A step moves one caller, and the counters with it. */
  ghost predicate Moves(s: State, t: State, i: nat)
  {
    && i < |s.callers| && |t.callers| == |s.callers|
    && t.callers == s.callers[i := t.callers[i]]
    && WellPlaced(t.callers[i])
    && Balanced(s.permits, t.permits, s.callers[i], t.callers[i])
    && t.permits.slots <= t.permits.total && t.permits.workerSlots <= t.permits.total - t.permits.reserved
  }

  /** A step that leaves both maps, and what they count of its caller. */
  lemma MapsUnmoved(p: Permits, q: Permits, c: Caller, d: Caller)
    requires q.waiters == p.waiters && q.inUse == p.inUse
    requires d.lane == c.lane && (Waits(c) <==> Waits(d)) && (Uses(c) <==> Uses(d))
    ensures forall lane {:trigger At(q.waiters, lane)} ::
      Shifts(At(p.waiters, lane), At(q.waiters, lane), WaitsIn(lane)(c), WaitsIn(lane)(d))
    ensures forall lane {:trigger At(q.inUse, lane)} ::
      Shifts(At(p.inUse, lane), At(q.inUse, lane), UsesIn(lane)(c), UsesIn(lane)(d))
  {
    hide At;
  }

  lemma TokenMoves(s: State, a: Action)
    requires Limits(s) && Enabled(s, a)
      && (a.SendWorker? || a.SendSlot? || a.Cancel? || a.ReceiveSlot? || a.ReceiveWorker?)
    ensures Moves(s, Step(s, a), a.i)
  {
    assert WellPlaced(s.callers[a.i]);
    var t := Step(s, a);
    assert t.permits.waiters == s.permits.waiters && t.permits.inUse == s.permits.inUse;
    MapsUnmoved(s.permits, t.permits, s.callers[a.i], t.callers[a.i]);
    hide At, WaitsIn, UsesIn, Waits, Uses;
  }

  lemma FinishWaitMoves(s: State, i: nat)
    requires Limits(s) && Enabled(s, FinishWait(i)) && At(s.permits.waiters, s.callers[i].lane) > 0
    ensures Moves(s, Step(s, FinishWait(i)), i)
  {
    assert WellPlaced(s.callers[i]);
  }

  lemma FinishUseMoves(s: State, i: nat)
    requires Limits(s) && Enabled(s, FinishUse(i)) && At(s.permits.inUse, s.callers[i].lane) > 0
    ensures Moves(s, Step(s, FinishUse(i)), i)
  {
    assert WellPlaced(s.callers[i]);
  }

  lemma MoveBalances(s: State, a: Action)
    requires Inv(s) && Enabled(s, a) && !a.Arrive?
    ensures Moves(s, Step(s, a), a.i)
  {
    Counted(s, a.i);
    hide Accounts, Limits, Moves, Step, At;
    if a.FinishWait? {
      FinishWaitMoves(s, a.i);
    } else if a.FinishUse? {
      FinishUseMoves(s, a.i);
    } else {
      TokenMoves(s, a);
    }
  }

  lemma MoveKeeps(s: State, a: Action)
    requires Inv(s) && Enabled(s, a) && !a.Arrive?
    ensures Inv(Step(s, a))
  {
    var t := Step(s, a);
    MoveBalances(s, a);
    hide Step;
    CountsUpdate(s, a.i, t.callers[a.i]);
    hide Count, HasSlot, HasWorkerToken, WaitsIn, UsesIn;
    forall l
      ensures At(t.permits.waiters, l) == Count(t.callers, WaitsIn(l))
      ensures At(t.permits.inUse, l) == Count(t.callers, UsesIn(l))
    {
      assert At(s.permits.waiters, l) == Count(s.callers, WaitsIn(l));
      assert At(s.permits.inUse, l) == Count(s.callers, UsesIn(l));
    }
    assert Accounts(t);
    hide Accounts;
  }

  /** Every step of every caller keeps the invariant. */
  lemma StepKeeps(s: State, a: Action)
    requires Inv(s) && Enabled(s, a)
    ensures Inv(Step(s, a))
  {
    hide Inv, Step;
    if a.Arrive? {
      ArriveKeeps(s, a.lane);
    } else {
      MoveKeeps(s, a);
    }
  }

  /** The invariant holds throughout every run. */
  lemma {:induction false} RunKeeps(total: int, reserved: int, run: seq<State>, actions: seq<Action>, k: nat)
    requires IsRun(total, reserved, run, actions) && k < |run|
    ensures Inv(run[k]) && run[k].permits.total == NewPermits(total, reserved).total
    ensures run[k].permits.reserved == NewPermits(total, reserved).reserved
  {
    if k == 0 {
      InitInv(total, reserved);
    } else {
      RunKeeps(total, reserved, run, actions, k - 1);
      StepKeeps(run[k - 1], actions[k - 1]);
    }
  }

  // ----- what every run guarantees -----

  predicate WorkerHolds(c: Caller) { c.lane == Worker && HasSlot(c) }

  /** At no moment are more slots held than there are, nor more by workers than are not reserved. */
  lemma HoldersBounded(total: int, reserved: int, run: seq<State>, actions: seq<Action>, k: nat)
    requires IsRun(total, reserved, run, actions) && k < |run|
    ensures var p := NewPermits(total, reserved);
      && Count(run[k].callers, HasSlot) <= p.total
      && Count(run[k].callers, HasWorkerToken) <= p.total - p.reserved
      && Count(run[k].callers, WorkerHolds) <= p.total - p.reserved
  {
    RunKeeps(total, reserved, run, actions, k);
    CountSplit(run[k].callers, WorkerHolds, HasWorkerToken, (c: Caller) => false);
    CountNone(run[k].callers, (c: Caller) => false);
  }

  /** While fewer interactive calls than reserved slots hold a slot, an interactive call can take one. */
  lemma InteractiveAdmitted(total: int, reserved: int, run: seq<State>, actions: seq<Action>, k: nat, i: nat)
    requires IsRun(total, reserved, run, actions) && k < |run|
    requires Count(run[k].callers, InteractiveHolds) < NewPermits(total, reserved).reserved
    requires Stands(run[k], i, WantSlot)
    ensures Enabled(run[k], SendSlot(i))
  {
    HoldersBounded(total, reserved, run, actions, k);
    RunKeeps(total, reserved, run, actions, k);
    CountSplit(run[k].callers, HasSlot, InteractiveHolds, WorkerHolds);
  }

  /** No receive of a release or a cancellation ever blocks, and no counter is ever clamped at zero. */
  lemma ReleaseNeverBlocks(total: int, reserved: int, run: seq<State>, actions: seq<Action>, k: nat, i: nat)
    requires IsRun(total, reserved, run, actions) && k < |run| && i < |run[k].callers|
    ensures Stands(run[k], i, Holding) ==> Enabled(run[k], ReceiveSlot(i))
    ensures Stands(run[k], i, Returning) || Stands(run[k], i, Canceling) ==> Enabled(run[k], ReceiveWorker(i))
    ensures Enabled(run[k], FinishWait(i)) ==> At(run[k].permits.waiters, run[k].callers[i].lane) > 0
    ensures Enabled(run[k], FinishUse(i)) ==> At(run[k].permits.inUse, run[k].callers[i].lane) > 0
  {
    RunKeeps(total, reserved, run, actions, k);
    Counted(run[k], i);
  }

  /** When every caller has finished, every token is back and every counter is zero. */
  lemma NothingLeaks(total: int, reserved: int, run: seq<State>, actions: seq<Action>, k: nat)
    requires IsRun(total, reserved, run, actions) && k < |run|
    requires forall i :: 0 <= i < |run[k].callers| ==> run[k].callers[i].pc == Finished
    ensures var p := run[k].permits;
      p.slots == 0 && p.workerSlots == 0 && forall lane :: At(p.waiters, lane) == 0 && At(p.inUse, lane) == 0
  {
    RunKeeps(total, reserved, run, actions, k);
    var s := run[k];
    CountNone(s.callers, HasSlot);
    CountNone(s.callers, HasWorkerToken);
    forall lane
      ensures At(s.permits.waiters, lane) == 0 && At(s.permits.inUse, lane) == 0
    {
      CountNone(s.callers, WaitsIn(lane));
      CountNone(s.callers, UsesIn(lane));
    }
  }

  /** A step that is neither an arrival nor a cancellation. */
  ghost predicate Proceeds(s: State, a: Action)
  {
    !a.Arrive? && !a.Cancel? && Enabled(s, a)
  }

  lemma HolderProceeds(s: State)
    requires Inv(s) && s.permits.slots > 0
    ensures exists a :: Proceeds(s, a)
  {
    var i := CountWitness(s.callers, HasSlot);
    Counted(s, i);
    assert Proceeds(s, if s.callers[i].pc == Granted then FinishWait(i) else ReceiveSlot(i));
  }

  lemma SlotWaiterProceeds(s: State, i: nat)
    requires Inv(s) && Stands(s, i, WantSlot)
    ensures exists a :: Proceeds(s, a)
  {
    if s.permits.slots < s.permits.total {
      assert Proceeds(s, SendSlot(i));
    } else {
      HolderProceeds(s);
    }
  }

  /** What a caller does next when nothing blocks it. */
  function NextMove(i: nat, pc: Pc): Action
  {
    match pc
    case WantWorker => SendWorker(i)
    case WantSlot => SendSlot(i)
    case Granted => FinishWait(i)
    case Leaving => FinishWait(i)
    case Holding => ReceiveSlot(i)
    case Settling => FinishUse(i)
    case Returning => ReceiveWorker(i)
    case Canceling => ReceiveWorker(i)
    case Finished => FinishUse(i)
  }

  lemma TokenHolderProceeds(s: State, i: nat)
    requires Inv(s) && i < |s.callers| && HasWorkerToken(s.callers[i])
    ensures exists a :: Proceeds(s, a)
  {
    Counted(s, i);
    if s.callers[i].pc == WantSlot {
      SlotWaiterProceeds(s, i);
    } else {
      assert Proceeds(s, NextMove(i, s.callers[i].pc));
    }
  }

  /** No deadlock: while a caller is unfinished, some caller can proceed without a cancellation. */
  lemma NoDeadlock(s: State, i: nat)
    requires Inv(s) && i < |s.callers| && s.callers[i].pc != Finished
    ensures exists a :: Proceeds(s, a)
  {
    Counted(s, i);
    assert WellPlaced(s.callers[i]);
    var pc := s.callers[i].pc;
    if pc == WantWorker && s.permits.workerSlots >= WorkerMax(s.permits) {
      var j := CountWitness(s.callers, HasWorkerToken);
      TokenHolderProceeds(s, j);
    } else if pc == WantSlot {
      SlotWaiterProceeds(s, i);
    } else {
      assert Proceeds(s, NextMove(i, pc));
    }
  }

  function Remaining(pc: Pc): nat
  {
    match pc
    case WantWorker => 6
    case WantSlot => 5
    case Granted => 4
    case Canceling => 4
    case Holding => 3
    case Leaving => 3
    case Returning => 2
    case Settling => 1
    case Finished => 0
  }

  function Work(callers: seq<Caller>): nat
  {
    if callers == [] then 0 else Work(callers[..|callers| - 1]) + Remaining(callers[|callers| - 1].pc)
  }

  lemma {:induction false} WorkUpdate(callers: seq<Caller>, i: nat, c: Caller)
    requires i < |callers|
    ensures Work(callers[i := c]) == Work(callers) - Remaining(callers[i].pc) + Remaining(c.pc)
  {
    var n := |callers| - 1;
    if i == n {
      assert callers[i := c][..n] == callers[..n];
    } else {
      assert callers[i := c][..n] == callers[..n][i := c];
      WorkUpdate(callers[..n], i, c);
    }
  }

  /** Every step but an arrival leaves less to do, so calls that stop arriving all finish. */
  lemma StepsRunOut(s: State, a: Action)
    requires Inv(s) && Enabled(s, a) && !a.Arrive?
    ensures Work(Step(s, a).callers) < Work(s.callers)
  {
    assert WellPlaced(s.callers[a.i]);
    hide Accounts, Work;
    WorkUpdate(s.callers, a.i, Step(s, a).callers[a.i]);
    MoveShortens(s, a);
    hide Step, Enabled;
  }

  lemma MoveShortens(s: State, a: Action)
    requires Enabled(s, a) && !a.Arrive? && WellPlaced(s.callers[a.i])
    ensures var t := Step(s, a);
      && t.callers == s.callers[a.i := t.callers[a.i]]
      && Remaining(t.callers[a.i].pc) < Remaining(s.callers[a.i].pc)
  {
    hide At;
  }
}

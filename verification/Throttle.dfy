/**
 * The per-account bucket: a pause deadline kept in one atomic word, and a token bucket.
 *
 * The machine interleaves atomic steps of any number of `pause_for` calls, any number of
 * `acquire` calls, one refill task and a monotone millisecond clock. Calls are numbered; a number
 * is used for one call only.
 */
module Throttle {
  import opened Collections

  type CallId = nat

  /** `burst = 2 * max(rate, 1)`. */
  function Burst(rateRps: nat): nat
  {
    2 * if rateRps < 1 then 1 else rateRps
  }

  /** Where a `pause_for` call stands. `target` is its deadline in milliseconds. */
  datatype Pauser =
    | Loading(target: nat)
    | Swapping(target: nat, current: nat)
    | Returned(target: nat)

  /** Where an `acquire` call stands. */
  datatype Acquirer =
    | Reading
    | Timing(until: nat)
    | Clearing(until: nat)
    | Sleeping(wake: nat)
    | Waiting
    | Granted

  datatype State = State(
    burst: nat,
    now: nat,
    pauseUntil: nat,
    pausers: map<CallId, Pauser>,
    acquirers: map<CallId, Acquirer>,
    permits: nat,
    refilling: bool,
    ticks: nat,
    refills: nat,
    grants: nat)

  function Start(rateRps: nat): State
  {
    State(Burst(rateRps), 0, 0, map[], map[], Burst(rateRps), false, 0, 0, 0)
  }

  /** One atomic step. A step that is not enabled leaves the state alone. */
  datatype Action =
    | Advance(ms: nat)
    | CallPause(id: CallId, target: nat)
    | LoadPause(id: CallId)
    | SwapPause(id: CallId)
    | CallAcquire(id: CallId)
    | LoadUntil(id: CallId)
    | ReadClock(id: CallId)
    | ClearPause(id: CallId)
    | Wake(id: CallId)
    | TakePermit(id: CallId)
    | Tick
    | AddPermit

  predicate Fresh(s: State, id: CallId)
  {
    id !in s.pausers && id !in s.acquirers
  }

  function PauserOf(s: State, id: CallId): Option<Pauser>
  {
    Lookup(s.pausers, id)
  }

  function AcquirerOf(s: State, id: CallId): Option<Acquirer>
  {
    Lookup(s.acquirers, id)
  }

  function WithPauser(s: State, id: CallId, p: Pauser): State
  {
    s.(pausers := s.pausers[id := p])
  }

  function WithAcquirer(s: State, id: CallId, a: Acquirer): State
  {
    s.(acquirers := s.acquirers[id := a])
  }

  function Next(s: State, act: Action): State
  {
    match act
    case Advance(ms) => s.(now := s.now + ms)
    case CallPause(id, target) =>
      if Fresh(s, id) then WithPauser(s, id, Loading(target)) else s
    case LoadPause(id) =>
      (match PauserOf(s, id)
       case Some(Loading(target)) =>
         if target <= s.pauseUntil then WithPauser(s, id, Returned(target))
         else WithPauser(s, id, Swapping(target, s.pauseUntil))
       case _ => s)
    case SwapPause(id) =>
      (match PauserOf(s, id)
       case Some(Swapping(target, current)) =>
         if s.pauseUntil == current then WithPauser(s, id, Returned(target)).(pauseUntil := target)
         else WithPauser(s, id, Loading(target))
       case _ => s)
    case CallAcquire(id) =>
      if Fresh(s, id) then WithAcquirer(s, id, Reading) else s
    case LoadUntil(id) =>
      if AcquirerOf(s, id) != Some(Reading) then s
      else if s.pauseUntil == 0 then WithAcquirer(s, id, Waiting)
      else WithAcquirer(s, id, Timing(s.pauseUntil))
    case ReadClock(id) =>
      (match AcquirerOf(s, id)
       case Some(Timing(until)) =>
         if s.now >= until then WithAcquirer(s, id, Clearing(until))
         else WithAcquirer(s, id, Sleeping(s.now + (until - s.now)))
       case _ => s)
    case ClearPause(id) =>
      (match AcquirerOf(s, id)
       case Some(Clearing(until)) =>
         WithAcquirer(s, id, Reading).(pauseUntil := if s.pauseUntil == until then 0 else s.pauseUntil)
       case _ => s)
    case Wake(id) =>
      (match AcquirerOf(s, id)
       case Some(Sleeping(wake)) => if s.now >= wake then WithAcquirer(s, id, Reading) else s
       case _ => s)
    case TakePermit(id) =>
      if AcquirerOf(s, id) == Some(Waiting) && s.permits > 0 then
        WithAcquirer(s, id, Granted).(permits := s.permits - 1, grants := s.grants + 1)
      else s
    case Tick =>
      if s.refilling then s else s.(ticks := s.ticks + 1, refilling := s.permits < s.burst)
    case AddPermit =>
      if s.refilling then s.(permits := s.permits + 1, refills := s.refills + 1, refilling := false) else s
  }

  function Run(s: State, acts: seq<Action>): State
  {
    if acts == [] then s else Next(Run(s, acts[..|acts| - 1]), acts[|acts| - 1])
  }

  lemma {:induction false} RunSplit(s: State, acts: seq<Action>, i: nat)
    requires i <= |acts|
    ensures Run(s, acts) == Run(Run(s, acts[..i]), acts[i..])
  {
    hide Next;
    if i == |acts| {
      assert acts[..i] == acts;
    } else {
      var front := acts[..|acts| - 1];
      RunSplit(s, front, i);
      assert front[..i] == acts[..i];
      assert acts[i..][..|acts| - i - 1] == front[i..];
    }
  }

  // ------------------------------------------------------------ the pause protocol

  /** A call that is about to clear a deadline has seen the clock reach it. */
  ghost predicate ClearsExpired(s: State)
  {
    forall id :: id in s.acquirers && s.acquirers[id].Clearing? ==> s.acquirers[id].until <= s.now
  }

  /** Loaded deadlines of a pending compare-and-swap are below its target. */
  ghost predicate SwapsRaise(s: State)
  {
    forall id :: id in s.pausers && s.pausers[id].Swapping? ==> s.pausers[id].current < s.pausers[id].target
  }

  ghost predicate Sound(s: State)
  {
    ClearsExpired(s) && SwapsRaise(s)
  }

  /** Deadline `target` is in force or over. */
  predicate Covered(s: State, target: nat)
  {
    target <= s.pauseUntil || target <= s.now
  }

  lemma StepKeepsSound(s: State, act: Action)
    requires Sound(s)
    ensures Sound(Next(s, act))
    ensures s.now <= Next(s, act).now
  {
  }

  lemma {:induction false} RunKeepsSound(s: State, acts: seq<Action>)
    requires Sound(s)
    ensures Sound(Run(s, acts)) && s.now <= Run(s, acts).now
  {
    if acts != [] {
      RunKeepsSound(s, acts[..|acts| - 1]);
      StepKeepsSound(Run(s, acts[..|acts| - 1]), acts[|acts| - 1]);
    }
  }

  /** The deadline drops only by being cleared to 0, by an `acquire`, once it has expired. */
  lemma DeadlineDropsOnlyWhenExpired(s: State, act: Action)
    requires Sound(s) && Next(s, act).pauseUntil < s.pauseUntil
    ensures act.ClearPause? && Next(s, act).pauseUntil == 0 && s.pauseUntil <= s.now
  {
  }

  lemma StepKeepsCovered(s: State, act: Action, target: nat)
    requires Sound(s) && Covered(s, target)
    ensures Covered(Next(s, act), target)
  {
  }

  lemma {:induction false} RunKeepsCovered(s: State, acts: seq<Action>, target: nat)
    requires Sound(s) && Covered(s, target)
    ensures Covered(Run(s, acts), target)
  {
    if acts != [] {
      RunKeepsSound(s, acts[..|acts| - 1]);
      RunKeepsCovered(s, acts[..|acts| - 1], target);
      StepKeepsCovered(Run(s, acts[..|acts| - 1]), acts[|acts| - 1], target);
    }
  }

  /** The step by which call `id` returns from `pause_for`. */
  predicate ReturnsFromPause(s: State, act: Action, id: CallId)
  {
    && (act == LoadPause(id) || act == SwapPause(id))
    && PauserOf(s, id).Some? && !s.pausers[id].Returned?
    && Next(s, act).pausers[id].Returned?
  }

  /** The step by which call `id` leaves the pause loop of `acquire`. */
  predicate LeavesPauseLoop(s: State, act: Action, id: CallId)
  {
    act == LoadUntil(id) && AcquirerOf(s, id) == Some(Reading)
    && Next(s, act).acquirers[id] == Waiting
  }

  /**
   * In every interleaving: once a `pause_for` with deadline `target` has returned, no `acquire`
   * leaves the pause loop before the clock shows `target`.
   */
  lemma PauseIsRespected(rateRps: nat, acts: seq<Action>, i: nat, k: nat, pauser: CallId, acquirer: CallId)
    requires i < k < |acts|
    requires ReturnsFromPause(Run(Start(rateRps), acts[..i]), acts[i], pauser)
    requires LeavesPauseLoop(Run(Start(rateRps), acts[..k]), acts[k], acquirer)
    ensures Run(Start(rateRps), acts[..i]).pausers[pauser].target <= Run(Start(rateRps), acts[..k]).now
  {
    var s := Run(Start(rateRps), acts[..i]);
    var target := s.pausers[pauser].target;
    RunKeepsSound(Start(rateRps), acts[..i]);
    var s' := Next(s, acts[i]);
    StepKeepsSound(s, acts[i]);
    assert acts[..i + 1][..i] == acts[..i];
    assert s' == Run(Start(rateRps), acts[..i + 1]);
    RunSplit(Start(rateRps), acts[..k], i + 1);
    assert acts[..k][..i + 1] == acts[..i + 1];
    RunKeepsCovered(s', acts[..k][i + 1..], target);
  }

  /** A permit is granted only to a call that left the pause loop. */
  lemma GrantFollowsPauseLoop(s: State, act: Action, id: CallId)
    requires AcquirerOf(s, id) != Some(Waiting) && AcquirerOf(s, id) != Some(Granted)
    requires AcquirerOf(Next(s, act), id) == Some(Waiting) || AcquirerOf(Next(s, act), id) == Some(Granted)
    ensures LeavesPauseLoop(s, act, id)
  {
  }

  // ------------------------------------------------------------ refinement to an atomic maximum

  /** The specification machine: one word, raised by whole `pause_for` calls, cleared once expired. */
  datatype Spec = Raise(target: nat) | Expire | Idle

  function SpecNext(deadline: nat, op: Spec): nat
  {
    match op
    case Raise(target) => if deadline < target then target else deadline
    case Expire => 0
    case Idle => deadline
  }

  /** What a step of the implementation means to the specification. */
  function Meaning(s: State, act: Action): Spec
  {
    match act
    case LoadPause(id) => if ReturnsFromPause(s, act, id) then Raise(s.pausers[id].target) else Idle
    case SwapPause(id) => if ReturnsFromPause(s, act, id) then Raise(s.pausers[id].target) else Idle
    case ClearPause(id) =>
      (match AcquirerOf(s, id)
       case Some(Clearing(until)) => if s.pauseUntil == until then Expire else Idle
       case _ => Idle)
    case _ => Idle
  }

  function Meanings(s: State, acts: seq<Action>): seq<Spec>
  {
    if acts == [] then []
    else Meanings(s, acts[..|acts| - 1]) + [Meaning(Run(s, acts[..|acts| - 1]), acts[|acts| - 1])]
  }

  function SpecRun(deadline: nat, ops: seq<Spec>): nat
  {
    if ops == [] then deadline else SpecNext(SpecRun(deadline, ops[..|ops| - 1]), ops[|ops| - 1])
  }

  lemma StepRefines(s: State, act: Action)
    requires SwapsRaise(s)
    ensures SwapsRaise(Next(s, act))
    ensures Next(s, act).pauseUntil == SpecNext(s.pauseUntil, Meaning(s, act))
  {
  }

  /** Every run of the CAS loops behaves as if each `pause_for` were one atomic maximum. */
  lemma {:induction false} PauseRefinesAtomicMax(rateRps: nat, acts: seq<Action>)
    ensures Run(Start(rateRps), acts).pauseUntil == SpecRun(0, Meanings(Start(rateRps), acts))
    ensures SwapsRaise(Run(Start(rateRps), acts))
  {
    if acts != [] {
      var front := acts[..|acts| - 1];
      PauseRefinesAtomicMax(rateRps, front);
      StepRefines(Run(Start(rateRps), front), acts[|acts| - 1]);
      assert Meanings(Start(rateRps), acts)[..|Meanings(Start(rateRps), acts)| - 1] == Meanings(Start(rateRps), front);
    }
  }

  // ------------------------------------------------------------ the token bucket

  /** Permits are conserved, and a refill under way still fits below the burst. */
  predicate Balanced(s: State)
  {
    && s.permits + s.grants == s.burst + s.refills
    && s.permits + (if s.refilling then 1 else 0) <= s.burst
    && s.refills + (if s.refilling then 1 else 0) <= s.ticks
  }

  lemma StepKeepsBalance(s: State, act: Action)
    requires Balanced(s)
    ensures Balanced(Next(s, act)) && Next(s, act).burst == s.burst
    ensures Next(s, act).grants - s.grants <= 1
    // Permits handed out in the step come from the stock or from a tick.
    ensures
      var before := s.permits + (if s.refilling then 1 else 0);
      var after := Next(s, act).permits + (if Next(s, act).refilling then 1 else 0);
      (Next(s, act).grants - s.grants) + after <= before + (Next(s, act).ticks - s.ticks)
  {
  }

  lemma {:induction false} RunKeepsBalance(s: State, acts: seq<Action>)
    requires Balanced(s)
    ensures Balanced(Run(s, acts)) && Run(s, acts).burst == s.burst
    ensures
      var s' := Run(s, acts);
      (s'.grants - s.grants) + s'.permits + (if s'.refilling then 1 else 0)
      <= s.permits + (if s.refilling then 1 else 0) + (s'.ticks - s.ticks)
  {
    if acts != [] {
      RunKeepsBalance(s, acts[..|acts| - 1]);
      StepKeepsBalance(Run(s, acts[..|acts| - 1]), acts[|acts| - 1]);
    }
  }

  /** Over every run: permits stay within the burst, and none is lost or made up. */
  lemma {:induction false} PermitsAreConserved(rateRps: nat, acts: seq<Action>)
    ensures
      var s := Run(Start(rateRps), acts);
      && s.permits <= Burst(rateRps) && s.permits + s.grants == Burst(rateRps) + s.refills
      && Burst(rateRps) == if rateRps == 0 then 2 else 2 * rateRps
  {
    RunKeepsBalance(Start(rateRps), acts);
  }

  /** In every interval of every run, grants are at most the burst plus the ticks of the interval. */
  lemma GrantsInIntervalAreBounded(rateRps: nat, acts: seq<Action>, i: nat, j: nat)
    requires i <= j <= |acts|
    ensures
      var s, s' := Run(Start(rateRps), acts[..i]), Run(Start(rateRps), acts[..j]);
      s'.grants - s.grants <= Burst(rateRps) + (s'.ticks - s.ticks)
  {
    RunKeepsBalance(Start(rateRps), acts[..i]);
    RunSplit(Start(rateRps), acts[..j], i);
    assert acts[..j][..i] == acts[..i];
    RunKeepsBalance(Run(Start(rateRps), acts[..i]), acts[..j][i..]);
  }

  // ------------------------------------------------------------ progress

  /** Every deadline that an `acquire` call holds is in force or over. */
  ghost predicate HoldsCovered(s: State)
  {
    forall id :: id in s.acquirers ==>
      match s.acquirers[id]
      case Timing(until) => Covered(s, until)
      case Clearing(until) => Covered(s, until)
      case Sleeping(wake) => Covered(s, wake)
      case _ => true
  }

  lemma StepKeepsHoldsCovered(s: State, act: Action)
    requires Sound(s) && HoldsCovered(s)
    ensures HoldsCovered(Next(s, act))
  {
    forall target | Covered(s, target) ensures Covered(Next(s, act), target) {
      StepKeepsCovered(s, act, target);
    }
  }

  lemma {:induction false} RunKeepsHoldsCovered(s: State, acts: seq<Action>)
    requires Sound(s) && HoldsCovered(s)
    ensures HoldsCovered(Run(s, acts))
  {
    hide Next, Sound, HoldsCovered;
    if acts != [] {
      RunKeepsSound(s, acts[..|acts| - 1]);
      RunKeepsHoldsCovered(s, acts[..|acts| - 1]);
      StepKeepsHoldsCovered(Run(s, acts[..|acts| - 1]), acts[|acts| - 1]);
    }
  }

  predicate InPauseLoop(s: State, id: CallId)
  {
    AcquirerOf(s, id).Some? && !s.acquirers[id].Waiting? && !s.acquirers[id].Granted?
  }

  /** The turns of the pause loop that an `acquire` call makes by itself. */
  function PauseLoop(id: CallId): seq<Action>
  {
    [Wake(id), ReadClock(id), ClearPause(id), LoadUntil(id), ReadClock(id), ClearPause(id), LoadUntil(id)]
  }

  lemma {:induction false} RunOne(s: State, acts: seq<Action>, act: Action)
    ensures Run(s, acts + [act]) == Next(Run(s, acts), act)
  {
    hide Next;
    assert (acts + [act])[..|acts|] == acts;
  }

  lemma {:induction false} RunPauseLoop(s: State, id: CallId)
    ensures
      var a := Next(Next(Next(s, Wake(id)), ReadClock(id)), ClearPause(id));
      Run(s, PauseLoop(id)) == Next(Next(Next(Next(a, LoadUntil(id)), ReadClock(id)), ClearPause(id)), LoadUntil(id))
  {
    hide Next;
    var p := PauseLoop(id);
    forall k: nat | k < 7 ensures Run(s, p[..k + 1]) == Next(Run(s, p[..k]), p[k]) {
      RunOne(s, p[..k], p[k]);
      assert p[..k + 1] == p[..k] + [p[k]];
    }
    assert p[..0] == [] && p[..7] == p;
    assert p[0] == Wake(id) && p[1] == ReadClock(id) && p[2] == ClearPause(id) && p[3] == LoadUntil(id)
        && p[4] == ReadClock(id) && p[5] == ClearPause(id) && p[6] == LoadUntil(id);
  }

  /** What the call has in hand is worked off. */
  lemma BackToReading(s: State, id: CallId)
    requires InPauseLoop(s, id) && HoldsCovered(s) && s.now >= s.pauseUntil
    ensures
      var a := Next(Next(Next(s, Wake(id)), ReadClock(id)), ClearPause(id));
      AcquirerOf(a, id) == Some(Reading) && a.now == s.now && a.now >= a.pauseUntil
  {
  }

  lemma FromReading(s: State, id: CallId)
    requires AcquirerOf(s, id) == Some(Reading) && s.now >= s.pauseUntil
    ensures AcquirerOf(Next(Next(Next(Next(s, LoadUntil(id)), ReadClock(id)), ClearPause(id)), LoadUntil(id)), id)
            == Some(Waiting)
  {
  }

  /**
   * From every reachable state in which the clock has reached the deadline, a call in the pause
   * loop, run by itself, leaves it.
   */
  lemma {:induction false} PauseEnds(rateRps: nat, acts: seq<Action>, id: CallId)
    requires InPauseLoop(Run(Start(rateRps), acts), id)
    requires Run(Start(rateRps), acts).now >= Run(Start(rateRps), acts).pauseUntil
    ensures AcquirerOf(Run(Run(Start(rateRps), acts), PauseLoop(id)), id) == Some(Waiting)
  {
    hide Next, Run, HoldsCovered;
    var s := Run(Start(rateRps), acts);
    assert HoldsCovered(Start(rateRps)) by { StartHoldsCovered(rateRps); }
    RunKeepsHoldsCovered(Start(rateRps), acts);
    RunPauseLoop(s, id);
    BackToReading(s, id);
    FromReading(Next(Next(Next(s, Wake(id)), ReadClock(id)), ClearPause(id)), id);
  }

  lemma StartHoldsCovered(rateRps: nat)
    ensures HoldsCovered(Start(rateRps)) && Sound(Start(rateRps))
  {
  }

  /** From every state, a new `pause_for` call, run by itself, returns, and then its deadline is in force. */
  lemma PauseReturns(s: State, id: CallId, target: nat)
    requires Fresh(s, id)
    ensures
      var after := Next(Next(Next(s, CallPause(id, target)), LoadPause(id)), SwapPause(id));
      && PauserOf(after, id) == Some(Returned(target))
      && after.pauseUntil == if s.pauseUntil < target then target else s.pauseUntil
  {
  }

  /** A `pause_for` call on its way, run by itself, returns as well. */
  lemma PauseFinishes(s: State, id: CallId)
    requires PauserOf(s, id).Some? && !s.pausers[id].Returned?
    ensures
      var after := Next(Next(Next(s, SwapPause(id)), LoadPause(id)), SwapPause(id));
      && PauserOf(after, id) == Some(Returned(s.pausers[id].target))
      && (SwapsRaise(s) ==> s.pausers[id].target <= after.pauseUntil)
  {
  }

  lemma SleepStep(s: State, act: Action, id: CallId, until: nat)
    requires AcquirerOf(s, id) == Some(Sleeping(until))
    ensures Next(s, act).now < until ==> AcquirerOf(Next(s, act), id) == Some(Sleeping(until))
  {
  }

  /** A call that reads the clock before the deadline sleeps until the deadline, whatever else happens. */
  lemma {:induction false} SleepsUntilDeadline(s: State, id: CallId, until: nat, acts: seq<Action>)
    requires AcquirerOf(s, id) == Some(Timing(until)) && s.now < until
    requires Run(Next(s, ReadClock(id)), acts).now < until
    requires Sound(Next(s, ReadClock(id)))
    ensures AcquirerOf(Run(Next(s, ReadClock(id)), acts), id) == Some(Sleeping(until))
  {
    if acts != [] {
      var front := acts[..|acts| - 1];
      RunKeepsSound(Next(s, ReadClock(id)), front);
      StepKeepsSound(Run(Next(s, ReadClock(id)), front), acts[|acts| - 1]);
      SleepsUntilDeadline(s, id, until, front);
      SleepStep(Run(Next(s, ReadClock(id)), front), acts[|acts| - 1], id, until);
    }
  }

  /** From every reachable state without a refill under way, one tick serves a waiting call. */
  lemma {:induction false} RefillServes(rateRps: nat, acts: seq<Action>, id: CallId)
    requires !Run(Start(rateRps), acts).refilling && AcquirerOf(Run(Start(rateRps), acts), id) == Some(Waiting)
    ensures
      var after := Run(Run(Start(rateRps), acts), [Tick, AddPermit, TakePermit(id)]);
      AcquirerOf(after, id) == Some(Granted) && after.grants == Run(Start(rateRps), acts).grants + 1
  {
    hide Next, Run;
    var s := Run(Start(rateRps), acts);
    RunKeepsBalance(Start(rateRps), acts);
    RunOne(s, [], Tick);
    RunOne(s, [Tick], AddPermit);
    RunOne(s, [Tick, AddPermit], TakePermit(id));
    assert [] + [Tick] == [Tick] && [Tick] + [AddPermit] == [Tick, AddPermit];
    assert [Tick, AddPermit] + [TakePermit(id)] == [Tick, AddPermit, TakePermit(id)];
    assert Run(s, []) == s by { RunNothing(s); }
    TickServes(s, id);
  }

  /** From every reachable state in which the clock has reached the deadline, a new call gets past the pause loop. */
  lemma {:induction false} NewCallPasses(rateRps: nat, acts: seq<Action>, id: CallId)
    requires Fresh(Run(Start(rateRps), acts), id)
    requires Run(Start(rateRps), acts).now >= Run(Start(rateRps), acts).pauseUntil
    ensures AcquirerOf(Run(Run(Start(rateRps), acts + [CallAcquire(id)]), PauseLoop(id)), id) == Some(Waiting)
  {
    hide Next, Run;
    RunOne(Start(rateRps), acts, CallAcquire(id));
    CallBegins(Run(Start(rateRps), acts), id);
    PauseEnds(rateRps, acts + [CallAcquire(id)], id);
  }

  lemma CallBegins(s: State, id: CallId)
    requires Fresh(s, id)
    ensures
      var after := Next(s, CallAcquire(id));
      AcquirerOf(after, id) == Some(Reading) && after.now == s.now && after.pauseUntil == s.pauseUntil
  {
  }

  lemma {:induction false} RunNothing(s: State)
    ensures Run(s, []) == s
  {
  }

  lemma TickServes(s: State, id: CallId)
    requires Balanced(s) && s.burst > 0 && !s.refilling && AcquirerOf(s, id) == Some(Waiting)
    ensures
      var after := Next(Next(Next(s, Tick), AddPermit), TakePermit(id));
      AcquirerOf(after, id) == Some(Granted) && after.grants == s.grants + 1
  {
  }

  /** The ticks that have met fewer permits than the burst. */
  function ShortTicks(s: State, acts: seq<Action>): nat
  {
    if acts == [] then 0
    else
      var front := acts[..|acts| - 1];
      var before := Run(s, front);
      ShortTicks(s, front)
      + if acts[|acts| - 1] == Tick && !before.refilling && before.permits < before.burst then 1 else 0
  }

  lemma StepRefills(s: State, act: Action)
    ensures
      var due, due' := s.refills + (if s.refilling then 1 else 0),
                       Next(s, act).refills + (if Next(s, act).refilling then 1 else 0);
      due' - due == if act == Tick && !s.refilling && s.permits < s.burst then 1 else 0
  {
  }

  /** Every such tick adds a permit, and no other does. */
  lemma {:induction false} EveryShortTickRefills(rateRps: nat, acts: seq<Action>)
    ensures
      var s := Run(Start(rateRps), acts);
      s.refills + (if s.refilling then 1 else 0) == ShortTicks(Start(rateRps), acts)
  {
    hide Next;
    if acts != [] {
      EveryShortTickRefills(rateRps, acts[..|acts| - 1]);
      StepRefills(Run(Start(rateRps), acts[..|acts| - 1]), acts[|acts| - 1]);
    }
  }
}

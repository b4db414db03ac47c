/** The adaptive in-flight limiter as a monitor: every step is one hold of the condition's lock. */
module InFlight {
  import opened Text

  datatype Config = Config(maxInFlight: nat, minInFlight: nat, adaptive: bool)

  /** What the constructor insists on. */
  predicate Proper(c: Config) {
    1 <= c.minInFlight <= c.maxInFlight
  }

  datatype State = State(inFlight: nat, limit: nat, errorStreak: nat)

  predicate Full(s: State) {
    s.inFlight >= s.limit
  }

  function Fresh(c: Config): State {
    State(0, c.maxInFlight, 0)
  }

  function Taken(s: State): State {
    s.(inFlight := s.inFlight + 1)
  }

  /** One slot given back, and the limit moved one step up or down. */
  function Returned(c: Config, s: State, success: bool): State
    requires s.inFlight > 0
  {
    if success then
      State(s.inFlight - 1, if c.adaptive && s.limit < c.maxInFlight then s.limit + 1 else s.limit, 0)
    else
      State(s.inFlight - 1, if c.adaptive && s.limit > c.minInFlight then s.limit - 1 else s.limit, s.errorStreak + 1)
  }

  datatype ReleaseError = NothingInFlight

  class AdaptiveConcurrencyLimiter {
    const config: Config
    var inFlight: nat
    var effectiveLimit: nat
    var errorStreak: nat

    function Current(): State
      reads this
    {
      State(inFlight, effectiveLimit, errorStreak)
    }

    constructor (config: Config)
      requires Proper(config)
      ensures this.config == config && Current() == Fresh(config)
      ensures inFlight == 0 && effectiveLimit == config.maxInFlight && errorStreak == 0
    {
      this.config := config;
      inFlight, effectiveLimit, errorStreak := 0, config.maxInFlight, 0;
    }

    /** The test of `acquire` under the lock: take a slot, or find the limit reached. */
    method TakeOrNot() returns (taken: bool)
      modifies this
      ensures taken == !old(Full(Current()))
      ensures Current() == if taken then Taken(old(Current())) else old(Current())
    {
      if inFlight >= effectiveLimit {
        return false;
      }
      inFlight := inFlight + 1;
      return true;
    }

    method Release(success: bool) returns (r: Result<(), ReleaseError>)
      modifies this
      ensures old(inFlight) == 0 ==> r == Err(NothingInFlight) && Current() == old(Current())
      ensures old(inFlight) > 0 ==> r == Ok(()) && Current() == Returned(config, old(Current()), success)
    {
      if inFlight <= 0 {
        return Err(NothingInFlight);
      }
      inFlight := inFlight - 1;
      if success {
        errorStreak := 0;
        if config.adaptive && effectiveLimit < config.maxInFlight {
          effectiveLimit := effectiveLimit + 1;
        }
      } else {
        errorStreak := errorStreak + 1;
        if config.adaptive && effectiveLimit > config.minInFlight {
          effectiveLimit := effectiveLimit - 1;
        }
      }
      return Ok(());
    }
  }

  // ----- Threads -----

  type Thread = nat

  /** A waiter sleeps in `wait`, or has been notified and wants the lock back. */
  datatype Waiter = Parked | Notified

  datatype Monitor = Monitor(state: State, waiting: map<Thread, Waiter>, acquired: nat, released: nat)

  datatype Step =
    | Arrive(thread: Thread, mayWait: bool)
    | Recheck(thread: Thread, expired: bool)
    | TimeOut(thread: Thread)
    | Release(success: bool)

  /** `notify_all`. */
  function NotifyAll(waiting: map<Thread, Waiter>): map<Thread, Waiter> {
    map t | t in waiting :: Notified
  }

  function Acquires(m: Monitor, t: Thread): Monitor {
    Monitor(Taken(m.state), m.waiting - {t}, m.acquired + 1, m.released)
  }

  predicate Enabled(m: Monitor, step: Step) {
    match step
    case Arrive(t, _) => t !in m.waiting
    case Recheck(t, _) => t in m.waiting && m.waiting[t].Notified?
    case TimeOut(t) => t in m.waiting && m.waiting[t].Parked?
    case Release(_) => true
  }

  /** A release with nothing in flight raises and changes nothing. */
  function Next(c: Config, m: Monitor, step: Step): Monitor {
    match step
    case Arrive(t, mayWait) =>
      if !Full(m.state) then Acquires(m, t)
      else if mayWait then m.(waiting := m.waiting[t := Parked])
      else m
    case Recheck(t, expired) =>
      if !Full(m.state) then Acquires(m, t)
      else if expired then m.(waiting := m.waiting - {t})
      else m.(waiting := m.waiting[t := Parked])
    case TimeOut(t) => m.(waiting := m.waiting - {t})
    case Release(success) =>
      if m.state.inFlight == 0 then m
      else Monitor(Returned(c, m.state, success), NotifyAll(m.waiting), m.acquired, m.released + 1)
  }

  ghost predicate Legal(c: Config, m: Monitor, run: seq<Step>)
    decreases |run|
  {
    run != [] ==> Enabled(m, run[0]) && Legal(c, Next(c, m, run[0]), run[1..])
  }

  function After(c: Config, m: Monitor, run: seq<Step>): Monitor
    decreases |run|
  {
    if run == [] then m else After(c, Next(c, m, run[0]), run[1..])
  }

  function Start(c: Config): Monitor {
    Monitor(Fresh(c), map[], 0, 0)
  }

  ghost predicate Consistent(c: Config, m: Monitor) {
    && m.state.inFlight + m.released == m.acquired
    && m.state.inFlight <= m.state.limit
    && c.minInFlight <= m.state.limit <= c.maxInFlight
    && forall t :: t in m.waiting && m.waiting[t].Parked? ==> Full(m.state)
  }

  lemma StepStaysConsistent(c: Config, m: Monitor, step: Step)
    ensures Proper(c) && Consistent(c, m) && Enabled(m, step) ==> Consistent(c, Next(c, m, step))
  {}

  lemma {:induction false} RunStaysConsistent(c: Config, m: Monitor, run: seq<Step>)
    requires Proper(c) && Consistent(c, m) && Legal(c, m, run)
    ensures Consistent(c, After(c, m, run))
    decreases |run|
  {
    hide Consistent, Next;
    if run != [] {
      StepStaysConsistent(c, m, run[0]);
      RunStaysConsistent(c, Next(c, m, run[0]), run[1..]);
    }
  }

  /** In every interleaving slots are conserved and bounded, and no wakeup is lost: whoever still
      sleeps without having been notified does so because the limit is reached. */
  lemma LimiterIsSafe(c: Config, run: seq<Step>)
    requires Proper(c) && Legal(c, Start(c), run)
    ensures var m := After(c, Start(c), run);
      && m.acquired == m.state.inFlight + m.released
      && m.state.inFlight <= m.state.limit
      && c.minInFlight <= m.state.limit <= c.maxInFlight
      && (forall t :: t in m.waiting && m.waiting[t].Parked? ==> Full(m.state))
  {
    RunStaysConsistent(c, Start(c), run);
  }

  /** A sleeper never waits in vain: somebody holds a slot and will notify it. */
  lemma SleepersAreOwedARelease(c: Config, run: seq<Step>, t: Thread, success: bool)
    requires Proper(c) && Legal(c, Start(c), run)
    requires var m := After(c, Start(c), run); t in m.waiting && m.waiting[t].Parked?
    ensures var m := After(c, Start(c), run);
      && m.acquired > m.released
      && Next(c, m, Release(success)).waiting[t] == Notified
  {
    LimiterIsSafe(c, run);
  }

  /** After a release the limit is still reached only if the failure took the freed slot away. */
  lemma ReleaseMakesRoomUnlessItShrinks(c: Config, m: Monitor, success: bool)
    requires Proper(c) && Consistent(c, m) && m.state.inFlight > 0
    ensures Full(Next(c, m, Release(success)).state)
      <==> Full(m.state) && !success && c.adaptive && m.state.limit > c.minInFlight
  {}

  // ----- How the limit moves -----

  /** The state after `n` releases with the same verdict. */
  function Repeated(c: Config, s: State, success: bool, n: nat): State
    requires s.inFlight >= n
    decreases n
  {
    if n == 0 then s else Repeated(c, Returned(c, s, success), success, n - 1)
  }

  /** Successes in a row bring the limit back to its maximum one at a time. */
  lemma {:induction false} SuccessesRestoreLimit(c: Config, s: State, n: nat)
    requires Proper(c) && c.adaptive && c.minInFlight <= s.limit <= c.maxInFlight && s.inFlight >= n
    ensures var after := Repeated(c, s, true, n);
      && after.limit == (if s.limit + n <= c.maxInFlight then s.limit + n else c.maxInFlight)
      && after.inFlight == s.inFlight - n && (n > 0 ==> after.errorStreak == 0)
    decreases n
  {
    if n > 0 {
      SuccessesRestoreLimit(c, Returned(c, s, true), n - 1);
    }
  }

  /** Failures in a row bring it down to its minimum one at a time, and are counted. */
  lemma {:induction false} FailuresShrinkLimit(c: Config, s: State, n: nat)
    requires Proper(c) && c.adaptive && c.minInFlight <= s.limit <= c.maxInFlight && s.inFlight >= n
    ensures var after := Repeated(c, s, false, n);
      && after.limit == (if s.limit >= c.minInFlight + n then s.limit - n else c.minInFlight)
      && after.inFlight == s.inFlight - n && after.errorStreak == s.errorStreak + n
    decreases n
  {
    if n > 0 {
      FailuresShrinkLimit(c, Returned(c, s, false), n - 1);
    }
  }

  /** Without adaption the limit never moves. */
  lemma {:induction false} FixedLimitStays(c: Config, s: State, success: bool, n: nat)
    requires !c.adaptive && s.inFlight >= n
    ensures Repeated(c, s, success, n).limit == s.limit
    decreases n
  {
    if n > 0 {
      FixedLimitStays(c, Returned(c, s, success), success, n - 1);
    }
  }

  // ----- Waiters get their turn -----

  /** The step is not this thread's. */
  predicate ByOthers(step: Step, t: Thread) {
    match step
    case Arrive(u, _) => u != t
    case Recheck(u, _) => u != t
    case TimeOut(u) => u != t
    case Release(_) => true
  }

  lemma StaysNotifiedOnce(c: Config, m: Monitor, step: Step, t: Thread)
    requires t in m.waiting && m.waiting[t].Notified? && ByOthers(step, t)
    ensures var after := Next(c, m, step); t in after.waiting && after.waiting[t].Notified?
  {}

  /** A thread that was notified stays so until it has looked for itself. */
  lemma {:induction false} StaysNotified(c: Config, m: Monitor, run: seq<Step>, t: Thread)
    requires t in m.waiting && m.waiting[t].Notified? && forall step :: step in run ==> ByOthers(step, t)
    ensures var after := After(c, m, run); t in after.waiting && after.waiting[t].Notified?
    decreases |run|
  {
    hide Next;
    if run != [] {
      assert run[0] in run && forall step :: step in run[1..] ==> step in run;
      StaysNotifiedOnce(c, m, run[0], t);
      StaysNotified(c, Next(c, m, run[0]), run[1..], t);
    }
  }

  /** Who looks takes a slot exactly when one is free; otherwise it waits on, or gives up when its time is over. */
  lemma LookingIsExact(c: Config, m: Monitor, t: Thread, mayWait: bool, expired: bool)
    ensures t !in m.waiting ==>
      var after := Next(c, m, Arrive(t, mayWait));
      && (after.acquired == m.acquired + 1 <==> m.state.inFlight < m.state.limit)
      && (m.state.inFlight < m.state.limit ==> after.state.inFlight == m.state.inFlight + 1 && t !in after.waiting)
      && (t in after.waiting <==> m.state.inFlight >= m.state.limit && mayWait)
    ensures t in m.waiting ==>
      var after := Next(c, m, Recheck(t, expired));
      && (after.acquired == m.acquired + 1 <==> m.state.inFlight < m.state.limit)
      && (m.state.inFlight < m.state.limit ==> after.state.inFlight == m.state.inFlight + 1 && t !in after.waiting)
      && (t in after.waiting <==> m.state.inFlight >= m.state.limit && !expired)
  {}

  /**
    A waiting thread gets the slot that a release frees, if it is the first to look: whatever the others do
    after the release, once it looks while a slot is free it has one.
  */
  lemma WaiterGetsTheSlot(c: Config, m: Monitor, success: bool, t: Thread, run: seq<Step>, expired: bool)
    requires t in m.waiting && m.state.inFlight > 0
    requires forall step :: step in run ==> ByOthers(step, t)
    ensures var after := After(c, Next(c, m, Release(success)), run);
      && Enabled(after, Recheck(t, expired))
      && (after.state.inFlight < after.state.limit ==>
            var done := Next(c, after, Recheck(t, expired));
            t !in done.waiting && done.acquired == after.acquired + 1)
  {
    hide After;
    StaysNotified(c, Next(c, m, Release(success)), run, t);
    LookingIsExact(c, After(c, Next(c, m, Release(success)), run), t, true, expired);
  }
}

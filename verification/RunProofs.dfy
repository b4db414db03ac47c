/** Properties of whole runs: lifecycle, termination, provenance of actions. */
module RunProofs {
  import opened DecisionEngine
  import opened EventLog
  import opened Lifecycle
  import opened RunSpec
  import opened Text

  // ----- Lifecycle -----

  /** Replays the log against the transition table; `None` when a row contradicts the machine. */
  function Replay(events: seq<Event>, s: RunState): Option<RunState> {
    if events == [] then Some(s)
    else
      match events[0].payload
      case Transition(from, to) =>
        if from == s && to in Allowed(s) && events[0].state == to then Replay(events[1..], to) else None
      case _ =>
        if events[0].state == s then Replay(events[1..], s) else None
  }

  lemma {:induction false} ReplayConcat(a: seq<Event>, b: seq<Event>, s: RunState)
    ensures Replay(a + b, s) == if Replay(a, s).Some? then Replay(b, Replay(a, s).value) else None
  {
    if a == [] {
      assert a + b == b;
    } else {
      assert (a + b)[1..] == a[1..] + b;
      match a[0].payload
      case Transition(from, to) => ReplayConcat(a[1..], b, to);
      case _ => ReplayConcat(a[1..], b, s);
    }
  }

  lemma {:induction false} ReplayObservations(observations: seq<Observation>)
    ensures Replay(ObserveEvents(observations), Observing) == Some(Observing)
  {
    if observations != [] {
      assert ObserveEvents(observations)[1..] == ObserveEvents(observations[1..]);
      ReplayObservations(observations[1..]);
    }
  }

  lemma ReplayOpening(state: RunState, observations: seq<Observation>, d: Decision)
    requires state in {Created, Acting}
    ensures Replay(Opening(state, observations, d), state) == Some(Deciding)
  {
    var a, b := [Event(Observing, Transition(state, Observing))], ObserveEvents(observations);
    var c := [Event(Deciding, Transition(Observing, Deciding)), Event(Deciding, Decided(d))];
    ReplayObservations(observations);
    ReplayConcat(a, b, state);
    ReplayConcat(a + b, c, state);
    assert a[1..] == [];
    assert c[1..] == [Event(Deciding, Decided(d))];
    ReplayQuiet(c[1..], Deciding);
  }

  lemma ReplayEnding(from: RunState, to: RunState, payload: Payload)
    requires to in Allowed(from) && !payload.Transition?
    ensures Replay(Ending(from, to, payload), from) == Some(to)
  {
    assert Ending(from, to, payload)[1..] == [Event(to, payload)];
    ReplayQuiet([Event(to, payload)], to);
  }

  lemma ReplayPerform(
      cfg: Config, world: World, goal: string, observations: seq<Observation>, scope: Scope, step: nat, d: Decision)
    ensures var done := Perform(cfg, world, goal, observations, scope, step, d);
      Replay(done.events, Deciding) == Some(if done.Next? then Acting else done.verdict.state)
      && (done.Over? ==> done.verdict.state == Failed)
  {
    var effect := EffectOf(cfg, world, goal, observations, scope, step, d);
    var moved := [Event(Acting, Transition(Deciding, Acting))];
    assert Replay(effect.events, Acting) == Some(Acting) by {
      assert forall e :: e in effect.events ==> e.state == Acting && !e.payload.Transition?;
      ReplayQuiet(effect.events, Acting);
    }
    ReplayConcat(moved, effect.events, Deciding);
    match effect.outcome
    case Err(e) =>
      ReplayEnding(Acting, Failed, RunFailed(e, cfg.maxSteps));
      ReplayConcat(moved + effect.events, Ending(Acting, Failed, RunFailed(e, cfg.maxSteps)), Deciding);
    case Ok((observation, scope')) =>
      var snapshot := Snapshot(goal, step + 1, Acting, observations + [observation], scope'.activeBot);
      ReplayConcat(moved + effect.events, [Event(Acting, Checkpoint(snapshot))], Deciding);
  }

  lemma {:induction false} ReplayQuiet(events: seq<Event>, s: RunState)
    requires forall e :: e in events ==> e.state == s && !e.payload.Transition?
    ensures Replay(events, s) == Some(s)
  {
    if events != [] {
      ReplayQuiet(events[1..], s);
    }
  }

  lemma ReplayStep(
      cfg: Config, world: World, goal: string, observations: seq<Observation>, scope: Scope, state: RunState, step: nat)
    requires state in {Created, Acting}
    ensures var done := Step(cfg, world, goal, observations, scope, state, step);
      && Replay(done.events, state) == Some(if done.Next? then Acting else done.verdict.state)
      && (done.Over? ==> IsTerminal(done.verdict.state))
  {
    if world.cancelled(step, false) {
      ReplayEnding(state, Cancelled, RunCancelled(CancellationRequested, step));
    } else {
      var d := DecisionAt(cfg, world, observations, scope, step);
      ReplayOpening(state, observations, d);
      if d.action in {Finish, Cancel, Fail} {
        var done := Conclude(d, step);
        ReplayEnding(Deciding, done.verdict.state, done.events[1].payload);
        ReplayConcat(Opening(state, observations, d), done.events, state);
      } else {
        ReplayPerform(cfg, world, goal, observations, scope, step, d);
        ReplayConcat(
          Opening(state, observations, d), Perform(cfg, world, goal, observations, scope, step, d).events, state);
      }
    }
  }

  /**
    For every behaviour of provider, tools, cancellation file and decision engine: the rows that
    a loop writes are a legal walk of the lifecycle automaton - each move starts in the state the
    previous one reached, each row carries the state the machine was in - and the walk ends in
    the terminal state that the run reports.
  */
  lemma {:induction false} LoopFollowsLifecycle(
      cfg: Config, world: World, goal: string, observations: seq<Observation>, scope: Scope, state: RunState, step: nat)
    requires state in {Created, Acting}
    ensures var t := Loop(cfg, world, goal, observations, scope, state, step);
      Replay(t.events, state) == Some(t.verdict.state) && IsTerminal(t.verdict.state)
    decreases cfg.maxSteps - step
  {
    if step >= cfg.maxSteps {
      ReplayEnding(state, Failed, RunFailed(StepBudgetExhausted, cfg.maxSteps));
    } else {
      ReplayStep(cfg, world, goal, observations, scope, state, step);
      var done := Step(cfg, world, goal, observations, scope, state, step);
      if done.Next? {
        var observations' := observations + [done.observation];
        LoopFollowsLifecycle(cfg, world, goal, observations', done.scope, Acting, step + 1);
        ReplayConcat(
          done.events, Loop(cfg, world, goal, observations', done.scope, Acting, step + 1).events, state);
      }
    }
  }

  lemma RunFollowsLifecycle(cfg: Config, world: World, goal: string, scope: Scope)
    ensures var t := Run(cfg, world, goal, scope);
      Replay(t.events, Created) == Some(t.verdict.state) && IsTerminal(t.verdict.state)
  {
    var first := [Event(Created, RunCreated(goal, cfg.providerName))];
    var user := [UserObservation(world, goal)];
    LoopFollowsLifecycle(cfg, world, goal, user, scope, Created, 0);
    ReplayConcat(first, Loop(cfg, world, goal, user, scope, Created, 0).events, Created);
    assert first[1..] == [];
  }

  // ----- Terminal events -----

  /** The only terminal event is the last one, and it records `verdict`. */
  ghost predicate EndsOnce(events: seq<Event>, verdict: Verdict) {
    && events != []
    && TerminalVerdict(events[|events| - 1].payload) == Some(verdict)
    && Unfinished(events[..|events| - 1])
  }

  ghost predicate Unfinished(events: seq<Event>) {
    forall e :: e in events ==> TerminalVerdict(e.payload) == None
  }

  lemma EndsOnceAfter(a: seq<Event>, b: seq<Event>, verdict: Verdict)
    requires Unfinished(a) && EndsOnce(b, verdict)
    ensures EndsOnce(a + b, verdict)
  {
    assert (a + b)[..|a + b| - 1] == a + b[..|b| - 1];
  }

  lemma EndingEndsOnce(from: RunState, to: RunState, payload: Payload, verdict: Verdict)
    requires TerminalVerdict(payload) == Some(verdict)
    ensures EndsOnce(Ending(from, to, payload), verdict)
  {
    assert Ending(from, to, payload)[..1] == [Event(to, Transition(from, to))];
  }

  lemma PerformEndsOnce(
      cfg: Config, world: World, goal: string, observations: seq<Observation>, scope: Scope, step: nat, d: Decision)
    ensures var done := Perform(cfg, world, goal, observations, scope, step, d);
      if done.Next? then Unfinished(done.events) else EndsOnce(done.events, done.verdict)
  {
    var effect := EffectOf(cfg, world, goal, observations, scope, step, d);
    if effect.outcome.Err? {
      var failed := RunFailed(effect.outcome.error, cfg.maxSteps);
      var verdict := Verdict(Failed, effect.outcome.error, cfg.maxSteps);
      EndingEndsOnce(Acting, Failed, failed, verdict);
      EndsOnceAfter(
        [Event(Acting, Transition(Deciding, Acting))] + effect.events, Ending(Acting, Failed, failed), verdict);
    }
  }

  lemma StepEndsOnce(
      cfg: Config, world: World, goal: string, observations: seq<Observation>, scope: Scope, state: RunState, step: nat)
    ensures var done := Step(cfg, world, goal, observations, scope, state, step);
      if done.Next? then Unfinished(done.events) else EndsOnce(done.events, done.verdict)
  {
    hide Perform, DecisionAt;
    if world.cancelled(step, false) {
      EndingEndsOnce(
        state, Cancelled, RunCancelled(CancellationRequested, step), Verdict(Cancelled, CancellationRequested, step));
    } else {
      var d := DecisionAt(cfg, world, observations, scope, step);
      var opening := Opening(state, observations, d);
      var done: StepResult;
      if d.action in {Finish, Cancel, Fail} {
        done := Conclude(d, step);
        EndingEndsOnce(Deciding, done.verdict.state, done.events[1].payload, done.verdict);
      } else {
        PerformEndsOnce(cfg, world, goal, observations, scope, step, d);
        done := Perform(cfg, world, goal, observations, scope, step, d);
      }
      if done.Over? {
        EndsOnceAfter(opening, done.events, done.verdict);
      }
    }
  }

  /** Every loop logs exactly one terminal event, as its last row, and that row records its verdict. */
  lemma {:induction false} LoopEndsOnce(
      cfg: Config, world: World, goal: string, observations: seq<Observation>, scope: Scope, state: RunState, step: nat)
    ensures var t := Loop(cfg, world, goal, observations, scope, state, step);
      EndsOnce(t.events, t.verdict)
    decreases cfg.maxSteps - step
  {
    if step >= cfg.maxSteps {
      EndingEndsOnce(
        state, Failed, RunFailed(StepBudgetExhausted, cfg.maxSteps),
        Verdict(Failed, StepBudgetExhausted, cfg.maxSteps));
    } else {
      StepEndsOnce(cfg, world, goal, observations, scope, state, step);
      var done := Step(cfg, world, goal, observations, scope, state, step);
      if done.Next? {
        var observations' := observations + [done.observation];
        LoopEndsOnce(cfg, world, goal, observations', done.scope, Acting, step + 1);
        var rest := Loop(cfg, world, goal, observations', done.scope, Acting, step + 1);
        EndsOnceAfter(done.events, rest.events, rest.verdict);
      }
    }
  }

  /**
    A completed run has one terminal event, its last; `recorded_outcome` gives back the state,
    the answer and the step count that the run returned; and resuming it reports that outcome
    and starts nothing.
  */
  lemma FinishedRunIsRecorded(cfg: Config, world: World, goal: string, scope: Scope, later: World, base: Scope)
    ensures var t := Run(cfg, world, goal, scope);
      && EndsOnce(t.events, t.verdict)
      && RecordedOutcome(t.events) == Some(t.verdict)
      && Resume(cfg, later, base, t.events) == Recorded(t.verdict)
  {
    var user := [UserObservation(world, goal)];
    var rest := Loop(cfg, world, goal, user, scope, Created, 0);
    LoopEndsOnce(cfg, world, goal, user, scope, Created, 0);
    EndsOnceAfter([Event(Created, RunCreated(goal, cfg.providerName))], rest.events, rest.verdict);
  }

  /** Row `i` is the last one that ends a run. */
  predicate EndsLast(events: seq<Event>, i: nat, verdict: Verdict) {
    && i < |events| && TerminalVerdict(events[i].payload) == Some(verdict)
    && forall j :: i < j < |events| ==> TerminalVerdict(events[j].payload).None?
  }

  /** Row `i` is the last checkpoint. */
  predicate SavedLast(events: seq<Event>, i: nat, snapshot: Snapshot) {
    && i < |events| && events[i].payload == Checkpoint(snapshot)
    && forall j :: i < j < |events| ==> !events[j].payload.Checkpoint?
  }

  lemma {:induction false} OutcomeIsLatest(events: seq<Event>)
    ensures forall v :: RecordedOutcome(events) == Some(v) <==> exists i: nat :: EndsLast(events, i, v)
  {
    if events != [] {
      var n, front := |events| - 1, events[..|events| - 1];
      OutcomeIsLatest(front);
      forall v ensures RecordedOutcome(events) == Some(v) <==> exists i: nat :: EndsLast(events, i, v) {
        if TerminalVerdict(events[n].payload) == Some(v) {
          assert EndsLast(events, n, v);
        }
        forall i: nat ensures EndsLast(events, i, v) <==>
          if i == n then TerminalVerdict(events[n].payload) == Some(v)
          else TerminalVerdict(events[n].payload).None? && EndsLast(front, i, v)
        {
          assert forall j :: 0 <= j < n ==> front[j] == events[j];
        }
      }
    }
  }

  lemma {:induction false} CheckpointIsLatest(events: seq<Event>)
    ensures forall s :: LatestCheckpoint(events) == Some(s) <==> exists i: nat :: SavedLast(events, i, s)
  {
    if events != [] {
      var n, front := |events| - 1, events[..|events| - 1];
      CheckpointIsLatest(front);
      forall s ensures LatestCheckpoint(events) == Some(s) <==> exists i: nat :: SavedLast(events, i, s) {
        if events[n].payload == Checkpoint(s) {
          assert SavedLast(events, n, s);
        }
        forall i: nat ensures SavedLast(events, i, s) <==>
          if i == n then events[n].payload == Checkpoint(s)
          else !events[n].payload.Checkpoint? && SavedLast(front, i, s)
        {
          assert forall j :: 0 <= j < n ==> front[j] == events[j];
        }
      }
    }
  }

  /** A goal is refused when it is blank, or longer than permitted. */
  lemma GoalIsAcceptedIff(cfg: Config, goal: string)
    ensures ValidateGoal(cfg, goal).None? <==> !AllSpace(goal) && |goal| <= cfg.maxPromptChars
    ensures ValidateGoal(cfg, goal) == Some(GoalEmpty) <==> AllSpace(goal)
    ensures ValidateGoal(cfg, goal) == Some(GoalTooLong) <==> !AllSpace(goal) && |goal| > cfg.maxPromptChars
  {
    hide Strip;
    BlankIsSpace(goal);
  }

  /** A checkpoint that a runner can go on from. */
  predicate Usable(cfg: Config, s: Snapshot) {
    && !AllSpace(s.goal) && |s.goal| <= cfg.maxPromptChars && s.observations != []
    && (s.activeBot.Some? ==> s.activeBot.value in cfg.bots)
  }

  /** Why a checkpoint cannot be gone on from, the first reason there is. */
  ghost predicate Spoils(cfg: Config, s: Snapshot, reason: Message) {
    match reason
    case CheckpointWithoutGoal => AllSpace(s.goal)
    case CheckpointWithoutObservations => !AllSpace(s.goal) && s.observations == []
    case GoalTooLong => !AllSpace(s.goal) && s.observations != [] && |s.goal| > cfg.maxPromptChars
    case CheckpointBotNotRegistered(bot) =>
      && !AllSpace(s.goal) && s.observations != [] && |s.goal| <= cfg.maxPromptChars
      && s.activeBot == Some(bot) && bot !in cfg.bots
    case _ => false
  }

  /**
    What resuming does, told by the log: the latest outcome is reported if there is one; else the loop goes on
    from the latest checkpoint, with its step and with the tools of its bot; and it is refused exactly
    when there is no checkpoint or none to go on from.
  */
  lemma ResumeIsExact(cfg: Config, world: World, current: Scope, events: seq<Event>)
    ensures var r := Resume(cfg, world, current, events);
      && (forall v :: r == Recorded(v) <==> exists i: nat :: EndsLast(events, i, v))
      && (forall s: Snapshot, i: nat :: SavedLast(events, i, s) && !r.Recorded? ==>
            && (r.Continued? <==> Usable(cfg, s))
            && (r.Refused? ==> Spoils(cfg, s, r.error))
            && (r.Continued? ==>
                  r.trace == Loop(
                    cfg, world, s.goal, s.observations,
                    match s.activeBot
                    case None => current
                    case Some(bot) => Scope(Some(cfg.bots[bot].botId), cfg.bots[bot].allowedTools),
                    Created, if s.step < 0 then 0 else s.step)))
      && (!r.Recorded? && (forall i: nat :: i < |events| ==> !events[i].payload.Checkpoint?) ==>
            r == Refused(NoCheckpoint))
  {
    hide Loop, Strip, RecordedOutcome, LatestCheckpoint;
    OutcomeIsLatest(events);
    CheckpointIsLatest(events);
    if LatestCheckpoint(events).Some? {
      var s := LatestCheckpoint(events).value;
      GoalIsAcceptedIff(cfg, s.goal);
      BlankIsSpace(s.goal);
    }
    forall s: Snapshot, i: nat | SavedLast(events, i, s) ensures LatestCheckpoint(events) == Some(s) {}
  }

  /** Resuming is idempotent: whatever log a resumption leaves behind, a second one adds nothing to it. */
  lemma ResumeIsIdempotent(cfg: Config, first: World, second: World, base: Scope, events: seq<Event>)
    requires Resume(cfg, first, base, events).Continued?
    ensures var t := Resume(cfg, first, base, events).trace;
      Resume(cfg, second, base, events + t.events) == Recorded(t.verdict)
  {
    hide Loop, ValidateGoal, LatestCheckpoint, RestoredScope, Strip;
    var snapshot := LatestCheckpoint(events).value;
    var restored := RestoredScope(cfg, base, snapshot.activeBot).value;
    LoopEndsOnce(cfg, first, snapshot.goal, snapshot.observations, restored, Created, StartStep(snapshot.step));
    var t := Resume(cfg, first, base, events).trace;
    assert (events + t.events)[|events + t.events| - 1] == t.events[|t.events| - 1];
  }
}

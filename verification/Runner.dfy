/** The runner itself: an object whose methods append to the log and move the state machine. */
module Runner {
  import opened DecisionEngine
  import opened EventLog
  import opened Lifecycle
  import opened RunSpec
  import opened Text

  datatype RunResult = RunResult(verdict: Verdict, alreadyFinished: bool)

  /** Reads the outcome from the durable log: the last terminal event wins. */
  method ReadOutcome(log: SQLiteEventLog, runId: string) returns (r: Option<Verdict>)
    ensures r == RecordedOutcome(EventsOf(log.rows, runId))
  {
    var found := log.ListEvents(runId);
    ghost var events := EventsOf(log.rows, runId);
    r := None;
    for k := 0 to |found|
      invariant r == RecordedOutcome(events[..k])
    {
      assert events[..k + 1][..k] == events[..k];
      var verdict := TerminalVerdict(found[k].event.payload);
      if verdict.Some? {
        r := verdict;
      }
    }
    assert events[..|found|] == events;
  }

  method LoadLatestCheckpoint(log: SQLiteEventLog, runId: string) returns (r: Option<Snapshot>)
    ensures r == LatestCheckpoint(EventsOf(log.rows, runId))
  {
    var found := log.ListEvents(runId);
    ghost var events := EventsOf(log.rows, runId);
    r := None;
    for k := 0 to |found|
      invariant r == LatestCheckpoint(events[..k])
    {
      assert events[..k + 1][..k] == events[..k];
      if found[k].event.payload.Checkpoint? {
        r := Some(found[k].event.payload.snapshot);
      }
    }
    assert events[..|found|] == events;
  }

  lemma OpeningInFourParts(rows: seq<Row>, runId: string, state: RunState, observations: seq<Observation>, d: Decision)
    ensures var moved := Appended(rows, runId, [Event(Observing, Transition(state, Observing))]);
      var observed := Appended(moved, runId, ObserveEvents(observations));
      var deciding := Appended(observed, runId, [Event(Deciding, Transition(Observing, Deciding))]);
      Appended(deciding, runId, [Event(Deciding, Decided(d))]) == Appended(rows, runId, Opening(state, observations, d))
  {
    hide Appended, ObserveEvents;
    var a, b := [Event(Observing, Transition(state, Observing))], ObserveEvents(observations);
    var c, e := [Event(Deciding, Transition(Observing, Deciding))], [Event(Deciding, Decided(d))];
    AppendedInTwoParts(rows, runId, a, b);
    AppendedInTwoParts(rows, runId, a + b, c);
    AppendedInTwoParts(rows, runId, a + b + c, e);
    assert a + b + c + e == Opening(state, observations, d);
  }

  /** Where the loop stands: what it was asked to do, what it has logged and what is left. */
  datatype Progress = Progress(rows: seq<Row>, whole: Trace, written: seq<Event>, rest: Trace)

  ghost predicate OnTrack(p: Progress, runId: string, now: seq<Row>) {
    && now == Appended(p.rows, runId, p.written)
    && p.whole.events == p.written + p.rest.events
    && p.whole.verdict == p.rest.verdict
  }

  lemma Advance(p: Progress, runId: string, now: seq<Row>, head: seq<Event>, rest: Trace)
    requires OnTrack(p, runId, now)
    requires p.rest.events == head + rest.events && p.rest.verdict == rest.verdict
    ensures OnTrack(Progress(p.rows, p.whole, p.written + head, rest), runId, Appended(now, runId, head))
  {
    hide Appended;
    AppendedInTwoParts(p.rows, runId, p.written, head);
    assert p.written + (head + rest.events) == p.written + head + rest.events;
  }

  lemma SetOut(rows: seq<Row>, runId: string, whole: Trace)
    ensures OnTrack(Progress(rows, whole, [], whole), runId, rows)
  {}

  /** Once what is left has been logged too, the log holds the whole. */
  lemma Arrive(p: Progress, runId: string, now: seq<Row>)
    requires OnTrack(p, runId, now)
    ensures Appended(now, runId, p.rest.events) == Appended(p.rows, runId, p.whole.events)
    ensures p.whole.verdict == p.rest.verdict
  {
    hide Appended;
    AppendedInTwoParts(p.rows, runId, p.written, p.rest.events);
  }

  class AgentRunner {
    const cfg: Config
    const log: SQLiteEventLog
    var activeBot: Option<string>
    var allowedTools: set<string>

    /** A bot that is initially active must be registered. */
    constructor (cfg: Config, log: SQLiteEventLog)
      requires InitialScope(cfg).Ok?
      ensures this.cfg == cfg && this.log == log && CurrentScope() == InitialScope(cfg).value
    {
      this.cfg, this.log := cfg, log;
      var scope := InitialScope(cfg).value;
      activeBot, allowedTools := scope.activeBot, scope.allowedTools;
    }

    /** Constructing a runner, with the refusal of an active bot that is not registered. */
    static method Create(cfg: Config, log: SQLiteEventLog) returns (runner: Result<AgentRunner, Message>)
      ensures InitialScope(cfg).Err? ==> runner == Err(InitialScope(cfg).error)
      ensures InitialScope(cfg).Ok? ==>
        && runner.Ok? && fresh(runner.value) && runner.value.cfg == cfg && runner.value.log == log
        && runner.value.CurrentScope() == InitialScope(cfg).value
    {
      if InitialScope(cfg).Err? {
        return Err(InitialScope(cfg).error);
      }
      var created := new AgentRunner(cfg, log);
      return Ok(created);
    }

    function CurrentScope(): Scope
      reads this
    {
      Scope(activeBot, allowedTools)
    }

    method Append(runId: string, state: RunState, payload: Payload)
      modifies log
      ensures log.rows == Appended(old(log.rows), runId, [Event(state, payload)])
    {
      var _ := log.Append(runId, state, payload);
    }

    /** Moves the machine and records the move; a refused move records nothing. */
    method Move(runId: string, machine: RunStateMachine, next: RunState) returns (moved: bool)
      modifies machine, log
      ensures moved <==> next in Allowed(old(machine.state))
      ensures moved ==> machine.state == next
      ensures moved ==>
        log.rows == Appended(old(log.rows), runId, [Event(next, Transition(old(machine.state), next))])
      ensures !moved ==> machine.state == old(machine.state) && log.rows == old(log.rows)
    {
      var r := machine.TransitionTo(next);
      if r.Err? {
        return false;
      }
      Append(runId, r.value.1, Transition(r.value.0, r.value.1));
      return true;
    }

    /** `_succeed`, `_cancel` and `_fail` on a live run: one move, one terminal event. */
    method End(runId: string, machine: RunStateMachine, to: RunState, payload: Payload)
      requires to in Allowed(machine.state)
      modifies machine, log
      ensures machine.state == to
      ensures log.rows == Appended(old(log.rows), runId, Ending(old(machine.state), to, payload))
    {
      ghost var from := machine.state;
      var moved := Move(runId, machine, to);
      Append(runId, machine.state, payload);
      AppendedInTwoParts(old(log.rows), runId, [Event(to, Transition(from, to))], [Event(to, payload)]);
      assert [Event(to, Transition(from, to))] + [Event(to, payload)] == Ending(from, to, payload);
    }

    method PerformHandoff(runId: string, world: World, step: nat, d: Decision)
      returns (r: Result<Observation, Message>)
      modifies this, log
      ensures var effect := HandOver(cfg, world, old(CurrentScope()), step, d);
        && log.rows == Appended(old(log.rows), runId, effect.events)
        && (effect.outcome.Ok? ==> r == Ok(effect.outcome.value.0) && CurrentScope() == effect.outcome.value.1)
        && (effect.outcome.Err? ==> r == Err(effect.outcome.error) && CurrentScope() == old(CurrentScope()))
    {
      if d.target.None? {
        return Err(HandoffWithoutTarget);
      }
      if d.target.value !in cfg.bots {
        return Err(HandoffNotRegistered(d.target.value));
      }
      var bot := cfg.bots[d.target.value];
      var previous := activeBot;
      activeBot := Some(bot.botId);
      allowedTools := bot.allowedTools;
      Append(runId, Acting, HandoffResult(previous, bot.botId, d.argument, bot.allowedTools));
      return Ok(Observation(HandoffFact(previous, bot.botId, TextOf(d.argument)), world.freshId(step + 1)));
    }

    method PerformAct(
        runId: string, world: World, goal: string, observations: seq<Observation>, step: nat, d: Decision)
      returns (r: Result<Observation, Message>)
      modifies log
      ensures var effect := Act(cfg, world, goal, observations, CurrentScope(), step, d);
        && log.rows == Appended(old(log.rows), runId, effect.events)
        && (effect.outcome.Ok? ==> r == Ok(effect.outcome.value.0) && CurrentScope() == effect.outcome.value.1)
        && (effect.outcome.Err? ==> r == Err(effect.outcome.error))
    {
      hide Appended, Visible;
      Append(runId, Acting, Requested(d));
      match d.action
      case CallLlm =>
        var reply := world.complete(step, goal, observations, Visible(cfg, cfg.toolSpecs, allowedTools));
        if reply.Broke? {
          return Err(Said(reply.message));
        }
        ghost var result := Event(Acting, LlmResult(reply.text, reply.raw));
        AppendedInTwoParts(old(log.rows), runId, [Event(Acting, Requested(d))], [result]);
        assert [Event(Acting, Requested(d))] + [result] == [Event(Acting, Requested(d)), result];
        Append(runId, Acting, LlmResult(reply.text, reply.raw));
        return Ok(Observation(Fact(LLM + reply.provider, reply.text, reply.raw), world.freshId(step + 1)));
      case CallTool =>
        if d.target.None? {
          return Err(ToolWithoutTarget);
        }
        if d.target.value !in allowedTools {
          return Err(ToolNotAllowed(d.target.value));
        }
        if d.target.value !in cfg.tools {
          return Err(ToolNotRegistered(d.target.value));
        }
        var result := world.execute(step, d.target.value, TextOf(d.argument));
        if result.Threw? {
          return Err(Said(result.message));
        }
        ghost var event := Event(Acting, ToolResult(result.tool, result.ok, result.content, result.metadata));
        AppendedInTwoParts(old(log.rows), runId, [Event(Acting, Requested(d))], [event]);
        assert [Event(Acting, Requested(d))] + [event] == [Event(Acting, Requested(d)), event];
        Append(runId, Acting, ToolResult(result.tool, result.ok, result.content, result.metadata));
        return Ok(Observation(Fact(TOOL + result.tool, result.content, result.metadata), world.freshId(step + 1)));
      case _ =>
        return Err(UnsupportedAction);
    }

    method LogObservations(runId: string, observations: seq<Observation>, machine: RunStateMachine)
      requires machine.state == Observing
      modifies log
      ensures log.rows == Appended(old(log.rows), runId, ObserveEvents(observations))
    {
      hide Appended;
      for k := 0 to |observations|
        invariant log.rows == Appended(old(log.rows), runId, ObserveEvents(observations[..k]))
      {
        ghost var done, event := ObserveEvents(observations[..k]), Event(Observing, Observed(observations[k]));
        AppendedInTwoParts(old(log.rows), runId, done, [event]);
        assert ObserveEvents(observations[..k + 1]) == done + [event];
        Append(runId, machine.state, Observed(observations[k]));
      }
      assert observations[..|observations|] == observations;
    }

    /** The rows of one iteration up to its decision. */
    method ObserveAndDecide(
        runId: string, world: World, observations: seq<Observation>, machine: RunStateMachine, step: nat)
      returns (d: Decision)
      requires Observing in Allowed(machine.state)
      modifies machine, log
      ensures d == DecisionAt(cfg, world, observations, CurrentScope(), step)
      ensures machine.state == Deciding
      ensures log.rows == Appended(old(log.rows), runId, Opening(old(machine.state), observations, d))
    {
      ghost var rows, state := log.rows, machine.state;
      var moved := Move(runId, machine, Observing);
      LogObservations(runId, observations, machine);
      moved := Move(runId, machine, Deciding);
      d := DecisionAt(cfg, world, observations, CurrentScope(), step);
      Append(runId, machine.state, Decided(d));
      OpeningInFourParts(rows, runId, state, observations, d);
    }

    /** A decision that ends the run. */
    method FinishRun(runId: string, machine: RunStateMachine, step: nat, d: Decision) returns (verdict: Verdict)
      requires machine.state == Deciding && d.action in {Finish, Cancel, Fail}
      modifies machine, log
      ensures verdict == Conclude(d, step).verdict
      ensures log.rows == Appended(old(log.rows), runId, Conclude(d, step).events)
    {
      match d.action
      case Finish =>
        End(runId, machine, Succeeded, RunCompleted(d.argument, step + 1));
        return Verdict(Succeeded, d.argument, step + 1);
      case Cancel =>
        End(runId, machine, Cancelled, RunCancelled(d.argument, step + 1));
        return Verdict(Cancelled, d.argument, step + 1);
      case Fail =>
        End(runId, machine, Failed, RunFailed(d.argument, step + 1));
        return Verdict(Failed, d.argument, step + 1);
    }

    /** The rest of an iteration whose decision does not end the run: the new observation, or the failure. */
    method ActOnDecision(
        runId: string, world: World, goal: string, observations: seq<Observation>, machine: RunStateMachine,
        step: nat, d: Decision)
      returns (r: Result<Observation, Verdict>)
      requires machine.state == Deciding
      modifies this, machine, log
      ensures var done := Perform(cfg, world, goal, observations, old(CurrentScope()), step, d);
        && log.rows == Appended(old(log.rows), runId, done.events)
        && (done.Next? ==> r == Ok(done.observation) && machine.state == Acting && CurrentScope() == done.scope)
        && (done.Over? ==> r == Err(done.verdict))
    {
      hide Appended, Act, HandOver;
      ghost var rows := log.rows;
      ghost var effect := EffectOf(cfg, world, goal, observations, CurrentScope(), step, d);
      ghost var moves := [Event(Acting, Transition(Deciding, Acting))];
      var moved := Move(runId, machine, Acting);
      var outcome: Result<Observation, Message>;
      if d.action == Action.Handoff {
        outcome := PerformHandoff(runId, world, step, d);
      } else {
        outcome := PerformAct(runId, world, goal, observations, step, d);
      }
      AppendedInTwoParts(rows, runId, moves, effect.events);
      if outcome.Err? {
        var reason := outcome.error;
        End(runId, machine, Failed, RunFailed(reason, cfg.maxSteps));
        AppendedInTwoParts(
          rows, runId, moves + effect.events, Ending(Acting, Failed, RunFailed(reason, cfg.maxSteps)));
        return Err(Verdict(Failed, reason, cfg.maxSteps));
      }
      var snapshot := Snapshot(goal, step + 1, machine.state, observations + [outcome.value], activeBot);
      Append(runId, machine.state, Checkpoint(snapshot));
      AppendedInTwoParts(rows, runId, moves + effect.events, [Event(Acting, Checkpoint(snapshot))]);
      return Ok(outcome.value);
    }

    /** One pass of the loop body. */
    method Iterate(
        runId: string, world: World, goal: string, observations: seq<Observation>, machine: RunStateMachine, step: nat)
      returns (r: Result<Observation, Verdict>)
      requires machine.state in {Created, Acting}
      modifies this, machine, log
      ensures var done := Step(cfg, world, goal, observations, old(CurrentScope()), old(machine.state), step);
        && log.rows == Appended(old(log.rows), runId, done.events)
        && (done.Next? ==> r == Ok(done.observation) && machine.state == Acting && CurrentScope() == done.scope)
        && (done.Over? ==> r == Err(done.verdict))
    {
      hide Appended, Opening, Perform, Decide;
      ghost var rows, scope, state := log.rows, CurrentScope(), machine.state;
      if world.cancelled(step, false) {
        End(runId, machine, Cancelled, RunCancelled(CancellationRequested, step));
        return Err(Verdict(Cancelled, CancellationRequested, step));
      }
      var d := ObserveAndDecide(runId, world, observations, machine, step);
      ghost var opening := Opening(state, observations, d);
      if d.action in {Finish, Cancel, Fail} {
        AppendedInTwoParts(rows, runId, opening, Conclude(d, step).events);
        var verdict := FinishRun(runId, machine, step, d);
        return Err(verdict);
      }
      AppendedInTwoParts(rows, runId, opening, Perform(cfg, world, goal, observations, scope, step, d).events);
      r := ActOnDecision(runId, world, goal, observations, machine, step, d);
    }

    /** One pass of the loop body, seen from the whole run. */
    method IterateOnTrack(
        runId: string, world: World, goal: string, observations: seq<Observation>, machine: RunStateMachine, step: nat,
        ghost p: Progress)
      returns (r: Result<Observation, Verdict>, ghost next: Progress)
      requires machine.state in {Created, Acting} && step < cfg.maxSteps
      requires OnTrack(p, runId, log.rows)
      requires p.rest == Loop(cfg, world, goal, observations, CurrentScope(), machine.state, step)
      modifies this, machine, log
      ensures r.Err? ==> r.error == p.whole.verdict && log.rows == Appended(p.rows, runId, p.whole.events)
      ensures r.Ok? ==> machine.state == Acting
      ensures r.Ok? ==> OnTrack(next, runId, log.rows) && next.rows == p.rows && next.whole == p.whole
      ensures r.Ok? ==>
        next.rest == Loop(cfg, world, goal, observations + [r.value], CurrentScope(), Acting, step + 1)
    {
      hide Appended, Step;
      ghost var done := Step(cfg, world, goal, observations, CurrentScope(), machine.state, step);
      ghost var rest := if done.Over? then Trace([], done.verdict, false) else
        Loop(cfg, world, goal, observations + [done.observation], done.scope, Acting, step + 1);
      assert p.rest.events == done.events + rest.events;
      Advance(p, runId, log.rows, done.events, rest);
      next := Progress(p.rows, p.whole, p.written + done.events, rest);
      r := Iterate(runId, world, goal, observations, machine, step);
    }

    /** `_run_loop`. */
    method RunLoop(
        runId: string, world: World, goal: string, initial: seq<Observation>, machine: RunStateMachine, startStep: nat)
      returns (verdict: Verdict)
      requires machine.state == Created
      modifies this, machine, log
      ensures var trace := Loop(cfg, world, goal, initial, old(CurrentScope()), Created, startStep);
        verdict == trace.verdict && log.rows == Appended(old(log.rows), runId, trace.events)
    {
      hide Step, Appended, OnTrack;
      ghost var whole := Loop(cfg, world, goal, initial, CurrentScope(), Created, startStep);
      ghost var p := Progress(log.rows, whole, [], whole);
      var observations, step := initial, startStep;
      SetOut(log.rows, runId, whole);
      while step < cfg.maxSteps
        invariant machine.state in {Created, Acting}
        invariant p.rows == old(log.rows) && p.whole == whole
        invariant p.rest == Loop(cfg, world, goal, observations, CurrentScope(), machine.state, step)
        invariant OnTrack(p, runId, log.rows)
        decreases cfg.maxSteps - step
      {
        var outcome;
        outcome, p := IterateOnTrack(runId, world, goal, observations, machine, step, p);
        if outcome.Err? {
          return outcome.error;
        }
        observations := observations + [outcome.value];
        step := step + 1;
      }
      Arrive(p, runId, log.rows);
      End(runId, machine, Failed, RunFailed(StepBudgetExhausted, cfg.maxSteps));
      return Verdict(Failed, StepBudgetExhausted, cfg.maxSteps);
    }

    /** `run`: a bad goal is refused before anything is logged. */
    method Run(goal: string, runId: string, world: World) returns (r: Result<RunResult, Message>)
      modifies this, log
      ensures ValidateGoal(cfg, goal).Some? ==>
        r == Err(ValidateGoal(cfg, goal).value) && log.rows == old(log.rows)
      ensures ValidateGoal(cfg, goal).None? ==>
        var trace := RunSpec.Run(cfg, world, goal, old(CurrentScope()));
        r == Ok(RunResult(trace.verdict, false)) && log.rows == Appended(old(log.rows), runId, trace.events)
    {
      var refused := ValidateGoal(cfg, goal);
      if refused.Some? {
        return Err(refused.value);
      }
      var machine := new RunStateMachine();
      ghost var rows, scope := log.rows, CurrentScope();
      Append(runId, machine.state, RunCreated(goal, cfg.providerName));
      var initial := [UserObservation(world, goal)];
      var verdict := RunLoop(runId, world, goal, initial, machine, 0);
      AppendedInTwoParts(
        rows, runId, [Event(Created, RunCreated(goal, cfg.providerName))],
        Loop(cfg, world, goal, initial, scope, Created, 0).events);
      return Ok(RunResult(verdict, false));
    }

    /** `resume`: finished runs are reported, unfinished ones continue from their latest checkpoint. */
    method Resume(runId: string, world: World) returns (r: Result<RunResult, Message>)
      modifies this, log
      ensures match RunSpec.Resume(cfg, world, old(CurrentScope()), EventsOf(old(log.rows), runId))
        case Recorded(verdict) => r == Ok(RunResult(verdict, true)) && log.rows == old(log.rows)
        case Refused(error) => r == Err(error) && log.rows == old(log.rows)
        case Continued(trace) =>
          r == Ok(RunResult(trace.verdict, false)) && log.rows == Appended(old(log.rows), runId, trace.events)
    {
      hide Strip, ValidateGoal, RecordedOutcome, LatestCheckpoint, Loop, Appended, EventsOf;
      var recorded := ReadOutcome(log, runId);
      if recorded.Some? {
        return Ok(RunResult(recorded.value, true));
      }
      var loaded := LoadLatestCheckpoint(log, runId);
      if loaded.None? {
        return Err(NoCheckpoint);
      }
      var snapshot := loaded.value;
      if Strip(snapshot.goal) == "" {
        return Err(CheckpointWithoutGoal);
      }
      if snapshot.observations == [] {
        return Err(CheckpointWithoutObservations);
      }
      var refused := ValidateGoal(cfg, snapshot.goal);
      if refused.Some? {
        return Err(refused.value);
      }
      if snapshot.activeBot.Some? {
        if snapshot.activeBot.value !in cfg.bots {
          return Err(CheckpointBotNotRegistered(snapshot.activeBot.value));
        }
        var bot := cfg.bots[snapshot.activeBot.value];
        activeBot, allowedTools := Some(bot.botId), bot.allowedTools;
      }
      var machine := new RunStateMachine();
      var verdict := RunLoop(runId, world, snapshot.goal, snapshot.observations, machine, StartStep(snapshot.step));
      return Ok(RunResult(verdict, false));
    }
  }
}

/** What one invocation of the runner does, as functions of its configuration and its surroundings. */
module RunSpec {
  import opened DecisionEngine
  import opened EventLog
  import opened Lifecycle
  import opened Selection
  import opened Text

  datatype Reply = Reply(provider: string, text: string, raw: Metadata) | Broke(message: string)

  datatype ToolReply = Done(tool: string, ok: bool, content: string, metadata: Metadata) | Threw(message: string)

  /**
    The surroundings of one invocation. Every function may depend on the loop step in any way,
    so one `World` is one arbitrary, possibly erratic, behaviour of the provider, the tools, the
    cancellation file (`true` for the second look of a step) and the id generator.
  */
  datatype World = World(
    complete: (nat, string, seq<Observation>, seq<string>) -> Reply,
    execute: (nat, string, string) -> ToolReply,
    cancelled: (nat, bool) -> bool,
    freshId: nat -> string)

  datatype Config = Config(
    maxSteps: int,
    maxPromptChars: int,
    allowedTools: set<string>,
    bots: map<string, BotSpec>,
    activeBot: Option<string>,
    providerName: string,
    decide: (Policy, seq<Observation>, int, bool) -> Decision,
    tools: set<string>,
    toolSpecs: seq<string>)

  /** The part of a runner that handoffs overwrite. */
  datatype Scope = Scope(activeBot: Option<string>, allowedTools: set<string>)

  datatype Verdict = Verdict(state: RunState, answer: Message, steps: int)

  /** The engine plugged into the runner is the deterministic one, built from the runner's own bots. */
  ghost predicate Standard(cfg: Config) {
    forall policy, observations, step, cancelled :: observations != [] ==>
      cfg.decide(policy, observations, step, cancelled)
        == Decide(Engine(cfg.providerName, cfg.bots), policy, observations, step, cancelled)
  }

  /** The constructor: an initially active bot must be registered and narrows the allowlist. */
  function InitialScope(cfg: Config): Result<Scope, Message> {
    match cfg.activeBot
    case None => Ok(Scope(None, cfg.allowedTools))
    case Some(bot) =>
      if bot in cfg.bots then Ok(Scope(Some(bot), cfg.bots[bot].allowedTools)) else Err(ActiveBotNotRegistered(bot))
  }

  function ValidateGoal(cfg: Config, goal: string): Option<Message> {
    if Strip(goal) == "" then Some(GoalEmpty)
    else if |goal| > cfg.maxPromptChars then Some(GoalTooLong)
    else None
  }

  function InScope(cfg: Config, allowed: set<string>): string -> bool {
    tool => tool in allowed && tool in cfg.tools
  }

  /** Advertised tools that are registered and allowed right now. */
  function Visible(cfg: Config, specs: seq<string>, allowed: set<string>): seq<string> {
    Kept(specs, InScope(cfg, allowed))
  }

  datatype Effect = Effect(events: seq<Event>, outcome: Result<(Observation, Scope), Message>)

  function TextOf(m: Message): string {
    if m.Said? then m.text else ""
  }

  function HandoffFact(previous: Option<string>, bot: string, summary: string): Fact {
    Fact(HANDOFF + bot, "HANDED_OFF:" + bot + ":" + summary, map[
      "from_bot" := if previous.Some? then Str(previous.value) else Null,
      "to_bot" := Str(bot),
      "summary" := Str(summary)])
  }

  /** `_handoff`. */
  function HandOver(cfg: Config, world: World, scope: Scope, step: nat, d: Decision): Effect {
    match d.target
    case None => Effect([], Err(HandoffWithoutTarget))
    case Some(target) =>
      if target !in cfg.bots then Effect([], Err(HandoffNotRegistered(target))) else
        var bot := cfg.bots[target];
        Effect(
          [Event(Acting, HandoffResult(scope.activeBot, bot.botId, d.argument, bot.allowedTools))],
          Ok((Observation(HandoffFact(scope.activeBot, bot.botId, TextOf(d.argument)), world.freshId(step + 1)),
              Scope(Some(bot.botId), bot.allowedTools))))
  }

  /** `_act`. */
  function Act(
      cfg: Config, world: World, goal: string, observations: seq<Observation>, scope: Scope, step: nat, d: Decision)
      : Effect
  {
    var asked := Event(Acting, Requested(d));
    match d.action
    case CallLlm =>
      (match world.complete(step, goal, observations, Visible(cfg, cfg.toolSpecs, scope.allowedTools))
       case Broke(message) => Effect([asked], Err(Said(message)))
       case Reply(provider, text, raw) =>
         Effect([asked, Event(Acting, LlmResult(text, raw))],
                Ok((Observation(Fact(LLM + provider, text, raw), world.freshId(step + 1)), scope))))
    case CallTool =>
      if d.target.None? then Effect([asked], Err(ToolWithoutTarget))
      else if d.target.value !in scope.allowedTools then Effect([asked], Err(ToolNotAllowed(d.target.value)))
      else if d.target.value !in cfg.tools then Effect([asked], Err(ToolNotRegistered(d.target.value)))
      else
        (match world.execute(step, d.target.value, TextOf(d.argument))
         case Threw(message) => Effect([asked], Err(Said(message)))
         case Done(tool, ok, content, metadata) =>
           Effect([asked, Event(Acting, ToolResult(tool, ok, content, metadata))],
                  Ok((Observation(Fact(TOOL + tool, content, metadata), world.freshId(step + 1)), scope))))
    case _ => Effect([asked], Err(UnsupportedAction))
  }

  /** A move followed by the event that ends the run. */
  function Ending(from: RunState, to: RunState, payload: Payload): seq<Event> {
    [Event(to, Transition(from, to)), Event(to, payload)]
  }

  function ObserveEvents(observations: seq<Observation>): seq<Event> {
    seq(|observations|, i requires 0 <= i < |observations| => Event(Observing, Observed(observations[i])))
  }

  /** The rows of one iteration up to and including its decision. */
  function Opening(state: RunState, observations: seq<Observation>, d: Decision): seq<Event> {
    [Event(Observing, Transition(state, Observing))]
    + ObserveEvents(observations)
    + [Event(Deciding, Transition(Observing, Deciding)), Event(Deciding, Decided(d))]
  }

  function DecisionAt(cfg: Config, world: World, observations: seq<Observation>, scope: Scope, step: nat): Decision
  {
    cfg.decide(Policy(cfg.maxSteps, scope.allowedTools), observations, step, world.cancelled(step, true))
  }

  datatype StepResult =
    | Next(events: seq<Event>, observation: Observation, scope: Scope)
    | Over(events: seq<Event>, verdict: Verdict)

  /** The rows and the verdict of a decision that ends the run. */
  function Conclude(d: Decision, step: nat): StepResult
    requires d.action in {Finish, Cancel, Fail}
  {
    match d.action
    case Finish =>
      Over(Ending(Deciding, Succeeded, RunCompleted(d.argument, step + 1)), Verdict(Succeeded, d.argument, step + 1))
    case Cancel =>
      Over(Ending(Deciding, Cancelled, RunCancelled(d.argument, step + 1)), Verdict(Cancelled, d.argument, step + 1))
    case Fail =>
      Over(Ending(Deciding, Failed, RunFailed(d.argument, step + 1)), Verdict(Failed, d.argument, step + 1))
  }

  function EffectOf(
      cfg: Config, world: World, goal: string, observations: seq<Observation>, scope: Scope, step: nat, d: Decision)
      : Effect
  {
    if d.action == Action.Handoff then HandOver(cfg, world, scope, step, d)
    else Act(cfg, world, goal, observations, scope, step, d)
  }

  /** The rows of an iteration after its decision, up to and including the checkpoint. */
  function Perform(
      cfg: Config, world: World, goal: string, observations: seq<Observation>, scope: Scope, step: nat, d: Decision)
      : StepResult
  {
    var effect := EffectOf(cfg, world, goal, observations, scope, step, d);
    var moved := [Event(Acting, Transition(Deciding, Acting))] + effect.events;
    match effect.outcome
    case Err(e) =>
      Over(moved + Ending(Acting, Failed, RunFailed(e, cfg.maxSteps)), Verdict(Failed, e, cfg.maxSteps))
    case Ok((observation, scope')) =>
      var snapshot := Snapshot(goal, step + 1, Acting, observations + [observation], scope'.activeBot);
      Next(moved + [Event(Acting, Checkpoint(snapshot))], observation, scope')
  }

  function After(events: seq<Event>, r: StepResult): StepResult {
    match r
    case Next(more, observation, scope) => Next(events + more, observation, scope)
    case Over(more, verdict) => Over(events + more, verdict)
  }

  /** One Observe -> Decide -> Act iteration. */
  function Step(
      cfg: Config, world: World, goal: string, observations: seq<Observation>, scope: Scope, state: RunState, step: nat)
      : StepResult
  {
    if world.cancelled(step, false) then
      Over(Ending(state, Cancelled, RunCancelled(CancellationRequested, step)),
           Verdict(Cancelled, CancellationRequested, step))
    else
      var d := DecisionAt(cfg, world, observations, scope, step);
      After(
        Opening(state, observations, d),
        if d.action in {Finish, Cancel, Fail} then Conclude(d, step)
        else Perform(cfg, world, goal, observations, scope, step, d))
  }

  datatype Trace = Trace(events: seq<Event>, verdict: Verdict, outOfSteps: bool)

  /** The loop from `step` on. */
  function Loop(
      cfg: Config, world: World, goal: string, observations: seq<Observation>, scope: Scope, state: RunState, step: nat)
      : Trace
    decreases cfg.maxSteps - step
  {
    if step >= cfg.maxSteps then
      Trace(Ending(state, Failed, RunFailed(StepBudgetExhausted, cfg.maxSteps)),
            Verdict(Failed, StepBudgetExhausted, cfg.maxSteps), true)
    else
      match Step(cfg, world, goal, observations, scope, state, step)
      case Over(events, verdict) => Trace(events, verdict, false)
      case Next(events, observation, scope') =>
        var rest := Loop(cfg, world, goal, observations + [observation], scope', Acting, step + 1);
        Trace(events + rest.events, rest.verdict, rest.outOfSteps)
  }

  function UserObservation(world: World, goal: string): Observation {
    Observation(Fact("user", goal, map[]), world.freshId(0))
  }

  /** A fresh run. */
  function Run(cfg: Config, world: World, goal: string, scope: Scope): Trace {
    var rest := Loop(cfg, world, goal, [UserObservation(world, goal)], scope, Created, 0);
    Trace([Event(Created, RunCreated(goal, cfg.providerName))] + rest.events, rest.verdict, rest.outOfSteps)
  }

  /** The state and the fields that a terminal event records. */
  function TerminalVerdict(payload: Payload): Option<Verdict> {
    match payload
    case RunCompleted(answer, steps) => Some(Verdict(Succeeded, answer, steps))
    case RunFailed(reason, steps) => Some(Verdict(Failed, reason, steps))
    case RunCancelled(reason, steps) => Some(Verdict(Cancelled, reason, steps))
    case _ => None
  }

  /** `recorded_outcome`: the latest terminal event of the run. */
  function RecordedOutcome(events: seq<Event>): Option<Verdict> {
    if events == [] then None
    else
      var last := TerminalVerdict(events[|events| - 1].payload);
      if last.Some? then last else RecordedOutcome(events[..|events| - 1])
  }

  /** `load_latest_checkpoint`. */
  function LatestCheckpoint(events: seq<Event>): Option<Snapshot> {
    if events == [] then None
    else
      var last := events[|events| - 1].payload;
      if last.Checkpoint? then Some(last.snapshot) else LatestCheckpoint(events[..|events| - 1])
  }

  /** The scope that a checkpoint restores; without an active bot the constructor's scope stays. */
  function RestoredScope(cfg: Config, current: Scope, activeBot: Option<string>): Result<Scope, Message> {
    match activeBot
    case None => Ok(current)
    case Some(bot) =>
      if bot in cfg.bots then Ok(Scope(Some(cfg.bots[bot].botId), cfg.bots[bot].allowedTools))
      else Err(CheckpointBotNotRegistered(bot))
  }

  datatype Resumption =
    | Recorded(verdict: Verdict)
    | Refused(error: Message)
    | Continued(trace: Trace)

  function StartStep(step: int): nat {
    if step < 0 then 0 else step
  }

  /** `resume` on a freshly constructed runner with scope `scope`. */
  function Resume(cfg: Config, world: World, scope: Scope, events: seq<Event>): Resumption {
    match RecordedOutcome(events)
    case Some(verdict) => Recorded(verdict)
    case None =>
      match LatestCheckpoint(events)
      case None => Refused(NoCheckpoint)
      case Some(snapshot) =>
        if Strip(snapshot.goal) == "" then Refused(CheckpointWithoutGoal)
        else if snapshot.observations == [] then Refused(CheckpointWithoutObservations)
        else
          match ValidateGoal(cfg, snapshot.goal)
          case Some(error) => Refused(error)
          case None =>
            match RestoredScope(cfg, scope, snapshot.activeBot)
            case Err(error) => Refused(error)
            case Ok(restored) =>
              var startStep := StartStep(snapshot.step);
              Continued(Loop(cfg, world, snapshot.goal, snapshot.observations, restored, Created, startStep))
  }
}

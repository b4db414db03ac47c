/** What every log of a run shows about the observations it gathered and the actions it took. */
module RunHistory {
  import opened DecisionEngine
  import opened EventLog
  import opened Lifecycle
  import opened RunSpec
  import opened Text

  // ----- The states that the loop passes through -----

  /** The loop state at the end of an iteration, which is what its checkpoint has to capture. */
  datatype Cursor = Cursor(observations: seq<Observation>, scope: Scope, step: nat)

  function Cursors(
      cfg: Config, world: World, goal: string, observations: seq<Observation>, scope: Scope, state: RunState, step: nat)
      : seq<Cursor>
    decreases cfg.maxSteps - step
  {
    if step >= cfg.maxSteps then [] else
      var done := Step(cfg, world, goal, observations, scope, state, step);
      if done.Over? then [] else
        [Cursor(observations + [done.observation], done.scope, step + 1)]
          + Cursors(cfg, world, goal, observations + [done.observation], done.scope, Acting, step + 1)
  }

  function Snapshots(events: seq<Event>): seq<Snapshot> {
    if events == [] then [] else
      (if events[0].payload.Checkpoint? then [events[0].payload.snapshot] else []) + Snapshots(events[1..])
  }

  lemma {:induction false} SnapshotsConcat(a: seq<Event>, b: seq<Event>)
    ensures Snapshots(a + b) == Snapshots(a) + Snapshots(b)
  {
    hide Snapshots;
    if a == [] {
      assert a + b == b;
      assert Snapshots([]) == [] by { NoSnapshots([]); }
    } else {
      assert a == [a[0]] + a[1..] && a + b == [a[0]] + (a[1..] + b);
      FirstSnapshot(a[0], a[1..]);
      FirstSnapshot(a[0], a[1..] + b);
      SnapshotsConcat(a[1..], b);
    }
  }

  lemma {:induction false} FirstSnapshot(e: Event, rest: seq<Event>)
    ensures Snapshots([e] + rest) == (if e.payload.Checkpoint? then [e.payload.snapshot] else []) + Snapshots(rest)
  {
    assert ([e] + rest)[1..] == rest;
  }

  lemma {:induction false} NoSnapshots(events: seq<Event>)
    requires forall e :: e in events ==> !e.payload.Checkpoint?
    ensures Snapshots(events) == []
  {
    if events != [] {
      NoSnapshots(events[1..]);
    }
  }

  lemma {:induction false} LatestIsLastSnapshot(events: seq<Event>)
    ensures var all := Snapshots(events);
      LatestCheckpoint(events) == if all == [] then None else Some(all[|all| - 1])
  {
    if events != [] {
      var init, last := events[..|events| - 1], events[|events| - 1];
      assert events == init + [last];
      SnapshotsConcat(init, [last]);
      LatestIsLastSnapshot(init);
    }
  }

  function SnapshotOf(goal: string, c: Cursor): Snapshot {
    Snapshot(goal, c.step, Acting, c.observations, c.scope.activeBot)
  }

  function SnapshotsOf(goal: string, cursors: seq<Cursor>): seq<Snapshot> {
    seq(|cursors|, i requires 0 <= i < |cursors| => SnapshotOf(goal, cursors[i]))
  }

  lemma PerformCheckpoints(
      cfg: Config, world: World, goal: string, observations: seq<Observation>, scope: Scope, step: nat, d: Decision)
    ensures var done := Perform(cfg, world, goal, observations, scope, step, d);
      Snapshots(done.events) == if done.Over? then [] else
        [SnapshotOf(goal, Cursor(observations + [done.observation], done.scope, step + 1))]
  {
    hide Snapshots, HandOver, Act;
    var done := Perform(cfg, world, goal, observations, scope, step, d);
    EffectHasNoCheckpoint(cfg, world, goal, observations, scope, step, d);
    if done.Over? {
      NoSnapshots(done.events);
    } else {
      var snapshot := SnapshotOf(goal, Cursor(observations + [done.observation], done.scope, step + 1));
      var init := done.events[..|done.events| - 1];
      assert done.events == init + [Event(Acting, Checkpoint(snapshot))];
      NoSnapshots(init);
      SnapshotsConcat(init, [Event(Acting, Checkpoint(snapshot))]);
      FirstSnapshot(Event(Acting, Checkpoint(snapshot)), []);
      assert [Event(Acting, Checkpoint(snapshot))] + [] == [Event(Acting, Checkpoint(snapshot))];
      NoSnapshots([]);
    }
  }

  lemma EffectHasNoCheckpoint(
      cfg: Config, world: World, goal: string, observations: seq<Observation>, scope: Scope, step: nat, d: Decision)
    ensures forall e :: e in EffectOf(cfg, world, goal, observations, scope, step, d).events ==> !e.payload.Checkpoint?
  {}

  lemma StepCheckpoints(
      cfg: Config, world: World, goal: string, observations: seq<Observation>, scope: Scope, state: RunState, step: nat)
    ensures var done := Step(cfg, world, goal, observations, scope, state, step);
      Snapshots(done.events) == if done.Over? then [] else
        [SnapshotOf(goal, Cursor(observations + [done.observation], done.scope, step + 1))]
  {
    if world.cancelled(step, false) {
      NoSnapshots(Ending(state, Cancelled, RunCancelled(CancellationRequested, step)));
    } else {
      var d := DecisionAt(cfg, world, observations, scope, step);
      NoSnapshots(Opening(state, observations, d));
      if d.action in {Finish, Cancel, Fail} {
        NoSnapshots(Conclude(d, step).events);
        SnapshotsConcat(Opening(state, observations, d), Conclude(d, step).events);
      } else {
        PerformCheckpoints(cfg, world, goal, observations, scope, step, d);
        SnapshotsConcat(
          Opening(state, observations, d), Perform(cfg, world, goal, observations, scope, step, d).events);
      }
    }
  }

  lemma SnapshotsOfCons(goal: string, c: Cursor, more: seq<Cursor>)
    ensures SnapshotsOf(goal, [c] + more) == [SnapshotOf(goal, c)] + SnapshotsOf(goal, more)
  {}

  /** The checkpoints in the log are exactly the states the loop passed through, in order, none missing. */
  lemma {:induction false} CheckpointsAreCursors(
      cfg: Config, world: World, goal: string, observations: seq<Observation>, scope: Scope, state: RunState, step: nat)
    ensures Snapshots(Loop(cfg, world, goal, observations, scope, state, step).events)
         == SnapshotsOf(goal, Cursors(cfg, world, goal, observations, scope, state, step))
    decreases cfg.maxSteps - step
  {
    if step >= cfg.maxSteps {
      NoSnapshots(Ending(state, Failed, RunFailed(StepBudgetExhausted, cfg.maxSteps)));
    } else {
      var done := Step(cfg, world, goal, observations, scope, state, step);
      StepCheckpoints(cfg, world, goal, observations, scope, state, step);
      if done.Next? {
        var observations' := observations + [done.observation];
        var rest := Loop(cfg, world, goal, observations', done.scope, Acting, step + 1);
        var more := Cursors(cfg, world, goal, observations', done.scope, Acting, step + 1);
        CheckpointsAreCursors(cfg, world, goal, observations', done.scope, Acting, step + 1);
        SnapshotsConcat(done.events, rest.events);
        SnapshotsOfCons(goal, Cursor(observations', done.scope, step + 1), more);
      }
    }
  }

  // ----- The grammar of observations -----

  /** The scope that the handoffs among the observations lead to, starting from `base`. */
  function ScopeAfter(cfg: Config, base: Scope, observations: seq<Observation>): Scope {
    if |observations| <= 1 then base else
      var init, last := observations[..|observations| - 1], observations[|observations| - 1];
      if HANDOFF <= last.fact.source then
        match ParseDirective(init[|init| - 1].fact.content)
        case Some((key, _)) =>
          if key in cfg.bots then Scope(Some(cfg.bots[key].botId), cfg.bots[key].allowedTools) else base
        case None => base
      else ScopeAfter(cfg, base, init)
  }

  /** `next` may follow `before` in a run. */
  ghost predicate Legitimate(cfg: Config, base: Scope, before: seq<Observation>, next: Fact) {
    || LLM <= next.source
    || (TOOL <= next.source && exists tool, text ::
          AskedFor(before, "TOOL:", tool, text)
          && tool in ScopeAfter(cfg, base, before).allowedTools && tool in cfg.tools)
    || (exists key, summary ::
          AskedFor(before, "HANDOFF:", key, summary) && key in cfg.bots
          && next == HandoffFact(ScopeAfter(cfg, base, before).activeBot, cfg.bots[key].botId, TextOf(summary)))
  }

  /**
    The goal first, then only model outputs, tool results and handoffs; each tool result or
    handoff comes right after the model output whose directive asks for it, and the tool is in
    the allowlist of the bot that was handed to last.
  */
  ghost predicate Grown(cfg: Config, base: Scope, observations: seq<Observation>) {
    && observations != []
    && if |observations| == 1 then observations[0].fact.source == "user"
       else
         var init := observations[..|observations| - 1];
         Grown(cfg, base, init) && Legitimate(cfg, base, init, observations[|observations| - 1].fact)
  }

  lemma {:induction false} GrownIsFromRun(cfg: Config, base: Scope, observations: seq<Observation>)
    requires Grown(cfg, base, observations)
    ensures FromRun(observations)
  {
    if |observations| > 1 {
      var init := observations[..|observations| - 1];
      GrownIsFromRun(cfg, base, init);
      forall i | 1 <= i < |observations|
        ensures var source := observations[i].fact.source;
          LLM <= source || TOOL <= source || HANDOFF <= source
      {
        if i < |observations| - 1 {
          assert observations[i] == init[i];
        }
      }
    }
  }

  /** Of any two neighbouring observations one is model output: a tool result or a handoff never follows another. */
  lemma {:induction false} ModelSpeaksInBetween(cfg: Config, base: Scope, observations: seq<Observation>, i: nat)
    requires Grown(cfg, base, observations) && 0 < i < |observations|
    ensures LLM <= observations[i].fact.source || LLM <= observations[i - 1].fact.source
  {
    hide Legitimate;
    var init := observations[..|observations| - 1];
    FollowsModel(cfg, base, init, observations[|observations| - 1].fact);
    if i < |init| {
      ModelSpeaksInBetween(cfg, base, init, i);
      assert init[i] == observations[i] && init[i - 1] == observations[i - 1];
    }
  }

  lemma {:induction false} FollowsModel(cfg: Config, base: Scope, before: seq<Observation>, next: Fact)
    requires Legitimate(cfg, base, before, next)
    ensures LLM <= next.source || (before != [] && LLM <= before[|before| - 1].fact.source)
  {
    hide ScopeAfter, HandoffFact, ParseDirective;
  }

  /** Errors that the engine's checks rule out before an action starts. */
  predicate Preventable(m: Message) {
    || m.ToolNotAllowed? || m.ToolWithoutTarget? || m.UnsupportedAction?
    || m.HandoffWithoutTarget? || m.HandoffNotRegistered?
  }

  lemma ToolOutputIsTool(tool: string, bot: string, provider: string)
    ensures TOOL <= TOOL + tool && HANDOFF <= HANDOFF + bot && LLM <= LLM + provider
    ensures !(HANDOFF <= TOOL + tool) && !(HANDOFF <= LLM + provider)
  {
    assert HANDOFF[0] == 'h' && (TOOL + tool)[0] == 't' && (LLM + provider)[0] == 'l';
  }

  lemma ModelOutputGrows(cfg: Config, base: Scope, observations: seq<Observation>, o: Observation, provider: string)
    requires Grown(cfg, base, observations) && o.fact.source == LLM + provider
    ensures Grown(cfg, base, observations + [o])
    ensures ScopeAfter(cfg, base, observations + [o]) == ScopeAfter(cfg, base, observations)
  {
    ToolOutputIsTool("", "", provider);
    assert (observations + [o])[..|observations|] == observations;
  }

  lemma ToolResultGrows(
      cfg: Config, base: Scope, observations: seq<Observation>, o: Observation, tool: string, text: Message,
      name: string)
    requires Grown(cfg, base, observations) && o.fact.source == TOOL + name
    requires AskedFor(observations, "TOOL:", tool, text)
    requires tool in ScopeAfter(cfg, base, observations).allowedTools && tool in cfg.tools
    ensures Grown(cfg, base, observations + [o])
    ensures ScopeAfter(cfg, base, observations + [o]) == ScopeAfter(cfg, base, observations)
  {
    ToolOutputIsTool(name, "", "");
    assert (observations + [o])[..|observations|] == observations;
  }

  lemma HandoffGrows(
      cfg: Config, base: Scope, observations: seq<Observation>, o: Observation, key: string, summary: Message)
    requires observations != [] && AskedFor(observations, "HANDOFF:", key, summary) && key in cfg.bots
    requires o.fact
      == HandoffFact(ScopeAfter(cfg, base, observations).activeBot, cfg.bots[key].botId, TextOf(summary))
    ensures Grown(cfg, base, observations) ==> Grown(cfg, base, observations + [o])
    ensures ScopeAfter(cfg, base, observations + [o]) == Scope(Some(cfg.bots[key].botId), cfg.bots[key].allowedTools)
  {
    hide HandoffFact, ScopeAfter, AskedFor;
    assert (observations + [o])[..|observations|] == observations;
    HandoffMovesScope(cfg, base, observations, o, key, summary);
  }

  lemma HandoffMovesScope(
      cfg: Config, base: Scope, observations: seq<Observation>, o: Observation, key: string, summary: Message)
    requires observations != [] && AskedFor(observations, "HANDOFF:", key, summary) && key in cfg.bots
    requires o.fact
      == HandoffFact(ScopeAfter(cfg, base, observations).activeBot, cfg.bots[key].botId, TextOf(summary))
    ensures ScopeAfter(cfg, base, observations + [o]) == Scope(Some(cfg.bots[key].botId), cfg.bots[key].allowedTools)
  {
    hide ParseDirective;
    ToolOutputIsTool("", cfg.bots[key].botId, "");
    assert (observations + [o])[..|observations|] == observations;
  }

  /** An action that the engine chose keeps the grammar, tracks the scope, and never trips over a preventable error. */
  lemma PerformKeepsGrammar(
      cfg: Config, world: World, goal: string, observations: seq<Observation>, base: Scope, step: nat, d: Decision)
    requires Standard(cfg) && Grown(cfg, base, observations)
    requires d == DecisionAt(cfg, world, observations, ScopeAfter(cfg, base, observations), step)
    requires d.action !in {Finish, Cancel, Fail}
    ensures var effect := EffectOf(cfg, world, goal, observations, ScopeAfter(cfg, base, observations), step, d);
      && (effect.outcome.Err? ==> !Preventable(effect.outcome.error) && effect.outcome.error != StepBudgetExhausted)
      && (effect.outcome.Ok? ==>
            && Grown(cfg, base, observations + [effect.outcome.value.0])
            && effect.outcome.value.1 == ScopeAfter(cfg, base, observations + [effect.outcome.value.0]))
  {
    hide AskedFor, Grown, ScopeAfter, Decide;
    var scope := ScopeAfter(cfg, base, observations);
    ChoiceIsGrounded(cfg, world, observations, scope, step) by { GrownIsFromRun(cfg, base, observations); }
    var effect := EffectOf(cfg, world, goal, observations, scope, step, d);
    if effect.outcome.Ok? {
      var o := effect.outcome.value.0;
      match d.action
      case Handoff =>
        assert observations != [] by { GrownIsFromRun(cfg, base, observations); }
        HandoffGrows(cfg, base, observations, o, d.target.value, d.argument);
      case CallTool =>
        var name := world.execute(step, d.target.value, TextOf(d.argument)).tool;
        ToolResultGrows(cfg, base, observations, o, d.target.value, d.argument, name);
      case CallLlm =>
        var visible := Visible(cfg, cfg.toolSpecs, scope.allowedTools);
        ModelOutputGrows(cfg, base, observations, o, world.complete(step, goal, observations, visible).provider);
    }
  }

  /** The latest observation asks for the tool or the bot that the decision names, and the name is in scope. */
  ghost predicate Grounded(cfg: Config, observations: seq<Observation>, scope: Scope, d: Decision) {
    && (d.action == CallTool ==>
          d.target.Some? && d.target.value in scope.allowedTools
          && AskedFor(observations, "TOOL:", d.target.value, d.argument))
    && (d.action == Action.Handoff ==>
          d.target.Some? && d.target.value in cfg.bots
          && AskedFor(observations, "HANDOFF:", d.target.value, d.argument))
  }

  /** What the plugged-in engine guarantees about its choice in a run. */
  lemma ChoiceIsGrounded(cfg: Config, world: World, observations: seq<Observation>, scope: Scope, step: nat)
    requires Standard(cfg) && FromRun(observations)
    ensures Grounded(cfg, observations, scope, DecisionAt(cfg, world, observations, scope, step))
  {
    DecideActsOnLatestOutput(
      Engine(cfg.providerName, cfg.bots), Policy(cfg.maxSteps, scope.allowedTools), observations, step,
      world.cancelled(step, true));
  }

  lemma EngineStaysInBudget(
      cfg: Config, world: World, observations: seq<Observation>, scope: Scope, step: nat)
    requires Standard(cfg) && observations != []
    ensures var d := DecisionAt(cfg, world, observations, scope, step);
      && (d.action !in {Finish, Cancel, Fail} ==> step + 1 < cfg.maxSteps)
      && (d.action in {Finish, Cancel, Fail} ==> !Preventable(d.argument) && d.argument != StepBudgetExhausted)
  {
    hide ParseDirective, DoneAnswer, Strip, LatestByPrefix;
    var engine, policy := Engine(cfg.providerName, cfg.bots), Policy(cfg.maxSteps, scope.allowedTools);
    assert DecisionAt(cfg, world, observations, scope, step)
        == Decide(engine, policy, observations, step, world.cancelled(step, true));
  }

  lemma StepKeepsGrammar(
      cfg: Config, world: World, goal: string, observations: seq<Observation>, base: Scope, state: RunState, step: nat)
    requires Standard(cfg) && Grown(cfg, base, observations)
    ensures var done := Step(cfg, world, goal, observations, ScopeAfter(cfg, base, observations), state, step);
      && (done.Over? ==> !Preventable(done.verdict.answer) && done.verdict.answer != StepBudgetExhausted)
      && (done.Next? ==>
            Grown(cfg, base, observations + [done.observation])
            && done.scope == ScopeAfter(cfg, base, observations + [done.observation])
            && step + 1 < cfg.maxSteps)
  {
    var scope := ScopeAfter(cfg, base, observations);
    if !world.cancelled(step, false) {
      EngineStaysInBudget(cfg, world, observations, scope, step);
      var d := DecisionAt(cfg, world, observations, scope, step);
      if d.action !in {Finish, Cancel, Fail} {
        PerformKeepsGrammar(cfg, world, goal, observations, base, step, d);
      }
    }
  }

  /**
    Over a whole loop, for every behaviour of its surroundings: all states it passes through obey
    the grammar, hold one observation per step, and stay below the step budget; it ends for want
    of steps only if it was started without any; and no allowlist, target or registry check made
    while acting ever fails.
  */
  lemma {:induction false} LoopKeepsGrammar(
      cfg: Config, world: World, goal: string, observations: seq<Observation>, base: Scope, state: RunState, step: nat)
    requires Standard(cfg) && Grown(cfg, base, observations)
    ensures var scope := ScopeAfter(cfg, base, observations);
      var t := Loop(cfg, world, goal, observations, scope, state, step);
      && !Preventable(t.verdict.answer)
      && (t.outOfSteps <==> step >= cfg.maxSteps)
      && (t.verdict.answer == StepBudgetExhausted <==> step >= cfg.maxSteps)
      && (forall c :: c in Cursors(cfg, world, goal, observations, scope, state, step) ==>
            && Grown(cfg, base, c.observations) && c.scope == ScopeAfter(cfg, base, c.observations)
            && step < c.step < cfg.maxSteps
            && |c.observations| - |observations| == c.step - step)
    decreases cfg.maxSteps - step
  {
    if step < cfg.maxSteps {
      StepKeepsGrammar(cfg, world, goal, observations, base, state, step);
      var done := Step(cfg, world, goal, observations, ScopeAfter(cfg, base, observations), state, step);
      if done.Next? {
        LoopKeepsGrammar(cfg, world, goal, observations + [done.observation], base, Acting, step + 1);
      }
    }
  }

  /** The same for a fresh run, read off its log. */
  lemma RunKeepsGrammar(cfg: Config, world: World, goal: string, base: Scope)
    requires Standard(cfg)
    ensures var t := Run(cfg, world, goal, base);
      && !Preventable(t.verdict.answer)
      && (t.verdict.answer == StepBudgetExhausted <==> cfg.maxSteps <= 0)
      && (forall s :: s in Snapshots(t.events) ==>
            && 0 < s.step < cfg.maxSteps && s.goal == goal
            && |s.observations| == s.step + 1
            && Grown(cfg, base, s.observations)
            && s.activeBot == ScopeAfter(cfg, base, s.observations).activeBot)
  {
    var user := [UserObservation(world, goal)];
    LoopKeepsGrammar(cfg, world, goal, user, base, Created, 0);
    CheckpointsAreCursors(cfg, world, goal, user, base, Created, 0);
    var t, rest := Run(cfg, world, goal, base), Loop(cfg, world, goal, user, base, Created, 0);
    assert t.events[1..] == rest.events;
  }

  // ----- Provenance in the log -----

  /** Row `i` shows the model output whose directive asked for the tool call or handoff of row `j`. */
  ghost predicate Prompts(cfg: Config, i: Event, j: Event) {
    && i.payload.Observed?
    && var o := i.payload.observation;
       match j.payload
       case Requested(d) =>
         d.action == CallTool ==> d.target.Some? && AskedFor([o], "TOOL:", d.target.value, d.argument)
       case HandoffResult(_, toBot, summary, allowedTools) =>
         exists key :: AskedFor([o], "HANDOFF:", key, summary) && key in cfg.bots
           && cfg.bots[key].botId == toBot && cfg.bots[key].allowedTools == allowedTools
       case _ => true
  }

  predicate Acts(e: Event) {
    (e.payload.Requested? && e.payload.decision.action == CallTool) || e.payload.HandoffResult?
  }

  /**
    Four rows before every tool request and every handoff stands the model output that asked for
    it: between the two are only the move to `deciding`, the decision and the move to `acting`.
  */
  ghost predicate Provenance(cfg: Config, events: seq<Event>) {
    forall j :: 0 <= j < |events| && Acts(events[j]) ==> 4 <= j && Prompts(cfg, events[j - 4], events[j])
  }

  lemma ProvenanceConcat(cfg: Config, a: seq<Event>, b: seq<Event>)
    requires Provenance(cfg, a) && Provenance(cfg, b)
    ensures Provenance(cfg, a + b)
  {}

  lemma QuietProvenance(cfg: Config, events: seq<Event>)
    requires forall e :: e in events ==> !Acts(e)
    ensures Provenance(cfg, events)
  {}

  lemma PerformProvenance(
      cfg: Config, world: World, goal: string, observations: seq<Observation>, scope: Scope, state: RunState,
      step: nat, d: Decision)
    requires Standard(cfg) && FromRun(observations)
    requires d == DecisionAt(cfg, world, observations, scope, step) && d.action !in {Finish, Cancel, Fail}
    ensures Provenance(
      cfg, Opening(state, observations, d) + Perform(cfg, world, goal, observations, scope, step, d).events)
  {
    hide AskedFor, Grounded, Decide, Prompts, HandOver, Act;
    var n, last := |observations|, observations[|observations| - 1];
    var opening := Opening(state, observations, d);
    var more := Perform(cfg, world, goal, observations, scope, step, d).events;
    assert opening[n] == ObserveEvents(observations)[n - 1] == Event(Observing, Observed(last));
    ChoiceIsGrounded(cfg, world, observations, scope, step);
    FirstEffectIsPrompted(cfg, world, goal, observations, scope, step, d);
    assert forall e :: e in opening ==> !Acts(e);
    forall k: nat | k < |more| && Acts(more[k])
      ensures k == 1 && Prompts(cfg, Event(Observing, Observed(last)), more[k])
    {
      OnlyTheFirstEffectActs(cfg, world, goal, observations, scope, step, d, k);
    }
    PromptedFromOpening(cfg, opening, more, n);
  }

  lemma PromptedFromOpening(cfg: Config, opening: seq<Event>, more: seq<Event>, n: nat)
    requires |opening| == n + 3
    requires forall e :: e in opening ==> !Acts(e)
    requires forall k: nat :: k < |more| && Acts(more[k]) ==> 1 <= n && k == 1 && Prompts(cfg, opening[n], more[k])
    ensures Provenance(cfg, opening + more)
  {
    hide AskedFor;
    forall j | 0 <= j < |opening + more| && Acts((opening + more)[j])
      ensures 4 <= j && Prompts(cfg, (opening + more)[j - 4], (opening + more)[j])
    {
      assert (opening + more)[j] !in opening;
      assert (opening + more)[j] == more[j - |opening|];
    }
  }

  lemma FirstEffectIsPrompted(
      cfg: Config, world: World, goal: string, observations: seq<Observation>, scope: Scope, step: nat, d: Decision)
    requires observations != [] && Grounded(cfg, observations, scope, d)
    ensures var effect := EffectOf(cfg, world, goal, observations, scope, step, d);
      effect.events != [] ==>
        Prompts(cfg, Event(Observing, Observed(observations[|observations| - 1])), effect.events[0])
  {
    hide AskedFor;
    var o := observations[|observations| - 1];
    if d.action == CallTool {
      AskedForByTheLast(observations, "TOOL:", d.target.value, d.argument);
    } else if d.action == Action.Handoff {
      AskedForByTheLast(observations, "HANDOFF:", d.target.value, d.argument);
      var bot := cfg.bots[d.target.value];
      assert Prompts(
        cfg, Event(Observing, Observed(o)),
        Event(Acting, HandoffResult(scope.activeBot, bot.botId, d.argument, bot.allowedTools)));
    }
  }

  lemma AskedForByTheLast(observations: seq<Observation>, keyword: string, name: string, argument: Message)
    requires AskedFor(observations, keyword, name, argument)
    ensures AskedFor([observations[|observations| - 1]], keyword, name, argument)
  {
    hide ParseDirective;
  }

  /** Of the rows that an action writes, only the second can be a tool request or a handoff. */
  lemma OnlyTheFirstEffectActs(
      cfg: Config, world: World, goal: string, observations: seq<Observation>, scope: Scope, step: nat, d: Decision,
      k: nat)
    requires d.action in {CallTool, CallLlm, Action.Handoff}
    requires var more := Perform(cfg, world, goal, observations, scope, step, d).events;
      k < |more| && Acts(more[k])
    ensures k == 1
    ensures Perform(cfg, world, goal, observations, scope, step, d).events[1]
      == EffectOf(cfg, world, goal, observations, scope, step, d).events[0]
  {}

  lemma StepProvenance(
      cfg: Config, world: World, goal: string, observations: seq<Observation>, scope: Scope, state: RunState, step: nat)
    requires Standard(cfg) && FromRun(observations)
    ensures Provenance(cfg, Step(cfg, world, goal, observations, scope, state, step).events)
  {
    if !world.cancelled(step, false) {
      var d := DecisionAt(cfg, world, observations, scope, step);
      if d.action in {Finish, Cancel, Fail} {
        QuietProvenance(cfg, Opening(state, observations, d) + Conclude(d, step).events);
      } else {
        PerformProvenance(cfg, world, goal, observations, scope, state, step, d);
      }
    }
  }

  /** Every row of a loop that acts is prompted by the model output just before it. */
  lemma {:induction false} LoopProvenance(
      cfg: Config, world: World, goal: string, observations: seq<Observation>, base: Scope, state: RunState, step: nat)
    requires Standard(cfg) && Grown(cfg, base, observations)
    ensures Provenance(
      cfg, Loop(cfg, world, goal, observations, ScopeAfter(cfg, base, observations), state, step).events)
    decreases cfg.maxSteps - step
  {
    if step < cfg.maxSteps {
      var scope := ScopeAfter(cfg, base, observations);
      var done := Step(cfg, world, goal, observations, scope, state, step);
      GrownIsFromRun(cfg, base, observations);
      StepProvenance(cfg, world, goal, observations, scope, state, step);
      if done.Next? {
        StepKeepsGrammar(cfg, world, goal, observations, base, state, step);
        var observations' := observations + [done.observation];
        LoopProvenance(cfg, world, goal, observations', base, Acting, step + 1);
        ProvenanceConcat(
          cfg, done.events, Loop(cfg, world, goal, observations', done.scope, Acting, step + 1).events);
      }
    }
  }

  // ----- Acting and speaking take turns in the log -----

  /** Between any two rows that act lies an answer of the model. */
  ghost predicate Alternates(events: seq<Event>) {
    forall i, j :: 0 <= i < j < |events| && Acts(events[i]) && Acts(events[j]) ==> SpokenBetween(events, i, j)
  }

  ghost predicate SpokenBetween(events: seq<Event>, i: int, j: int) {
    exists k :: 0 <= k < |events| && i < k < j && events[k].payload.LlmResult?
  }

  /** The model answers before anything acts. */
  ghost predicate SpeaksFirst(events: seq<Event>) {
    forall j :: 0 <= j < |events| && Acts(events[j]) ==> SpokenBetween(events, -1, j)
  }

  predicate ActsSomewhere(events: seq<Event>) {
    exists e :: e in events && Acts(e)
  }

  lemma TakingTurns(a: seq<Event>, b: seq<Event>)
    requires Alternates(a) && Alternates(b) && (!ActsSomewhere(a) || SpeaksFirst(b))
    ensures Alternates(a + b)
    ensures !ActsSomewhere(a) && (SpeaksFirst(b) || exists e :: e in a && e.payload.LlmResult?) ==> SpeaksFirst(a + b)
  {
    hide Acts;
    var all := a + b;
    assert forall k :: 0 <= k < |a| ==> all[k] == a[k] && a[k] in a;
    assert forall k :: 0 <= k < |b| ==> all[|a| + k] == b[k];
    forall i, j | 0 <= i < j < |all| && Acts(all[i]) && Acts(all[j]) ensures SpokenBetween(all, i, j) {
      if j < |a| {
        var k :| 0 <= k < |a| && i < k < j && a[k].payload.LlmResult?;
        assert all[k].payload.LlmResult?;
      } else {
        assert all[j] == b[j - |a|];
        assert SpokenBetween(b, i - |a|, j - |a|) by {
          if i >= |a| { assert all[i] == b[i - |a|]; }
        }
        var k :| 0 <= k < |b| && i - |a| < k < j - |a| && b[k].payload.LlmResult?;
        assert all[|a| + k].payload.LlmResult?;
      }
    }
    if !ActsSomewhere(a) && (SpeaksFirst(b) || exists e :: e in a && e.payload.LlmResult?) {
      forall j | 0 <= j < |all| && Acts(all[j]) ensures SpokenBetween(all, -1, j) {
        assert all[j] == b[j - |a|];
        if e :| e in a && e.payload.LlmResult? {
          var k :| 0 <= k < |a| && a[k] == e;
          assert all[k].payload.LlmResult?;
        } else {
          var k :| 0 <= k < |b| && -1 < k < j - |a| && b[k].payload.LlmResult?;
          assert all[|a| + k].payload.LlmResult?;
        }
      }
    }
  }

  /** One iteration acts once at most, acts only upon model output, and either acts or lets the model speak. */
  lemma StepTakesTurns(
      cfg: Config, world: World, goal: string, observations: seq<Observation>, scope: Scope, state: RunState, step: nat)
    requires Standard(cfg) && FromRun(observations)
    ensures var done := Step(cfg, world, goal, observations, scope, state, step);
      && Alternates(done.events)
      && (!(LLM <= observations[|observations| - 1].fact.source) ==> !ActsSomewhere(done.events))
      && (done.Next? && LLM <= done.observation.fact.source ==>
            !ActsSomewhere(done.events) && exists e :: e in done.events && e.payload.LlmResult?)
  {
    hide AskedFor, Decide, Standard, ParseDirective, Opening, Perform, Alternates;
    if world.cancelled(step, false) {
      QuietTurns(Ending(state, Cancelled, RunCancelled(CancellationRequested, step)));
    } else {
      var d := DecisionAt(cfg, world, observations, scope, step);
      ChoiceIsGrounded(cfg, world, observations, scope, step);
      OpeningTakesNoTurn(state, observations, d);
      if d.action in {Finish, Cancel, Fail} {
        QuietTurns(Opening(state, observations, d) + Conclude(d, step).events);
      }
      if d.action !in {Finish, Cancel, Fail} {
        PerformTakesTurns(cfg, world, goal, observations, scope, step, d);
        TakingTurns(Opening(state, observations, d), Perform(cfg, world, goal, observations, scope, step, d).events);
      }
    }
  }

  lemma OpeningTakesNoTurn(state: RunState, observations: seq<Observation>, d: Decision)
    ensures var opening := Opening(state, observations, d);
      (forall e :: e in opening ==> !Acts(e)) && !ActsSomewhere(opening) && Alternates(opening)
  {
    assert forall i :: 0 <= i < |Opening(state, observations, d)| ==>
      Opening(state, observations, d)[i] in Opening(state, observations, d);
  }

  lemma PerformTakesTurns(
      cfg: Config, world: World, goal: string, observations: seq<Observation>, scope: Scope, step: nat, d: Decision)
    requires observations != [] && Grounded(cfg, observations, scope, d)
    requires d.action in {CallTool, CallLlm, Action.Handoff}
    ensures var done := Perform(cfg, world, goal, observations, scope, step, d);
      && Alternates(done.events)
      && (!(LLM <= observations[|observations| - 1].fact.source) ==> !ActsSomewhere(done.events))
      && (done.Next? && LLM <= done.observation.fact.source ==>
            !ActsSomewhere(done.events) && exists e :: e in done.events && e.payload.LlmResult?)
  {
    hide ParseDirective;
    var done := Perform(cfg, world, goal, observations, scope, step, d);
    forall k: nat | k < |done.events| && Acts(done.events[k]) ensures k == 1 {
      OnlyTheFirstEffectActs(cfg, world, goal, observations, scope, step, d, k);
    }
    if done.Next? && LLM <= done.observation.fact.source {
      assert d.action == CallLlm by { OtherSources(); }
      assert done.events[2].payload.LlmResult? && done.events[2] in done.events;
    }
  }

  lemma OtherSources()
    ensures forall tool: string :: !(LLM <= TOOL + tool)
    ensures forall bot: string :: !(LLM <= HANDOFF + bot)
  {
    assert LLM[0] == 'l';
    assert forall tool: string :: (TOOL + tool)[0] == 't';
    assert forall bot: string :: (HANDOFF + bot)[0] == 'h';
  }

  /**
    Over the log of one invocation the model answers between any two rows that act; and where the
    invocation goes on from a tool result or a handoff, it answers before the first one.
  */
  lemma {:induction false} LoopTakesTurns(
      cfg: Config, world: World, goal: string, observations: seq<Observation>, base: Scope, state: RunState, step: nat)
    requires Standard(cfg) && Grown(cfg, base, observations)
    ensures var t := Loop(cfg, world, goal, observations, ScopeAfter(cfg, base, observations), state, step);
      && Alternates(t.events)
      && (!(LLM <= observations[|observations| - 1].fact.source) ==> SpeaksFirst(t.events))
    decreases cfg.maxSteps - step
  {
    hide Step, Standard, Grown, ScopeAfter, Alternates, SpeaksFirst, ActsSomewhere;
    GrownIsFromRun(cfg, base, observations);
    if step >= cfg.maxSteps {
      QuietTurns(Ending(state, Failed, RunFailed(StepBudgetExhausted, cfg.maxSteps)));
    } else {
      var scope := ScopeAfter(cfg, base, observations);
      var done := Step(cfg, world, goal, observations, scope, state, step);
      StepTakesTurns(cfg, world, goal, observations, scope, state, step);
      if done.Over? {
        WithoutActing(done.events);
      } else {
        StepKeepsGrammar(cfg, world, goal, observations, base, state, step);
        var observations' := observations + [done.observation];
        LoopTakesTurns(cfg, world, goal, observations', base, Acting, step + 1);
        TakingTurns(done.events, Loop(cfg, world, goal, observations', done.scope, Acting, step + 1).events);
      }
    }
  }

  /** The same for a fresh run, which starts from the goal: the model answers before anything acts. */
  lemma RunTakesTurns(cfg: Config, world: World, goal: string, base: Scope)
    requires Standard(cfg)
    ensures Alternates(Run(cfg, world, goal, base).events) && SpeaksFirst(Run(cfg, world, goal, base).events)
  {
    hide Loop, Standard, Alternates, SpeaksFirst, ActsSomewhere;
    var created := [Event(Created, RunCreated(goal, cfg.providerName))];
    UserIsNoPrefix();
    LoopTakesTurns(cfg, world, goal, [UserObservation(world, goal)], base, Created, 0);
    QuietTurns(created);
    assert !ActsSomewhere(created) by { NothingActs(created); }
    TakingTurns(created, Loop(cfg, world, goal, [UserObservation(world, goal)], base, Created, 0).events);
  }

  lemma NothingActs(events: seq<Event>)
    requires forall e :: e in events ==> !Acts(e)
    ensures !ActsSomewhere(events)
  {}

  lemma WithoutActing(events: seq<Event>)
    ensures !ActsSomewhere(events) ==> Alternates(events) && SpeaksFirst(events)
  {
    assert forall i :: 0 <= i < |events| ==> events[i] in events;
  }

  lemma QuietTurns(events: seq<Event>)
    requires forall e :: e in events ==> !Acts(e)
    ensures Alternates(events) && SpeaksFirst(events)
  {
    WithoutActing(events);
  }
}

/** What each row of a run's log says about the rows around it and about what the surroundings did. */
module Chronicle {
  import opened DecisionEngine
  import opened EventLog
  import opened Lifecycle
  import opened RunSpec
  import opened Selection
  import opened Text

  // ----- What is known at a row -----

  /** What the loop has gathered, read off the rows so far. */
  datatype Memory = Memory(
    observations: seq<Observation>, activeBot: Option<string>, allowedTools: set<string>, step: nat)

  function Noted(m: Memory, e: Event): Memory {
    match e.payload
    case HandoffResult(_, toBot, _, allowedTools) => m.(activeBot := Some(toBot), allowedTools := allowedTools)
    case Checkpoint(s) => m.(observations := s.observations, step := m.step + 1)
    case _ => m
  }

  function Known(start: Memory, events: seq<Event>): Memory {
    if events == [] then start else Noted(Known(start, events[..|events| - 1]), events[|events| - 1])
  }

  function StartOf(observations: seq<Observation>, scope: Scope, step: nat): Memory {
    Memory(observations, scope.activeBot, scope.allowedTools, step)
  }

  predicate Quiet(e: Event) {
    !e.payload.HandoffResult? && !e.payload.Checkpoint?
  }

  lemma {:induction false} NothingNew(start: Memory, events: seq<Event>)
    requires forall e :: e in events ==> Quiet(e)
    ensures Known(start, events) == start
  {
    if events != [] {
      var front := events[..|events| - 1];
      assert events[|events| - 1] in events && forall e :: e in front ==> e in events;
      NothingNew(start, front);
    }
  }

  lemma {:induction false} KnownInTwoParts(start: Memory, a: seq<Event>, b: seq<Event>)
    ensures Known(start, a + b) == Known(Known(start, a), b)
    decreases |b|
  {
    if b == [] {
      assert a + b == a;
    } else {
      assert (a + b)[..|a + b| - 1] == a + b[..|b| - 1];
      KnownInTwoParts(start, a, b[..|b| - 1]);
    }
  }

  // ----- What a decision leads to -----

  predicate RowIs(events: seq<Event>, i: int, payload: Payload) {
    0 <= i < |events| && events[i].payload == payload
  }

  /** The run ends at row `i` because the action failed. */
  predicate FailsWith(cfg: Config, events: seq<Event>, i: int, reason: Message) {
    |events| == i + 2
    && RowIs(events, i, Transition(Acting, Failed)) && RowIs(events, i + 1, RunFailed(reason, cfg.maxSteps))
  }

  /** Row `i` saves everything known so far and the new observation. */
  predicate Remembers(world: World, goal: string, m: Memory, events: seq<Event>, i: int, fact: Fact) {
    RowIs(events, i, Checkpoint(Snapshot(
      goal, m.step + 1, Acting, m.observations + [Observation(fact, world.freshId(m.step + 1))], m.activeBot)))
  }

  /** The advertised tools that are registered and in scope, in the order in which they are advertised. */
  ghost predicate Offered(cfg: Config, allowed: set<string>, visible: seq<string>) {
    exists ps: seq<nat> ::
      && |ps| == |visible| && Ascending(ps)
      && (forall i :: 0 <= i < |ps| ==> ps[i] < |cfg.toolSpecs| && cfg.toolSpecs[ps[i]] == visible[i])
      && (forall p: nat :: p < |cfg.toolSpecs| ==>
            (cfg.toolSpecs[p] in allowed && cfg.toolSpecs[p] in cfg.tools <==> p in ps))
  }

  /** Row `i` asks the model, and what it says is logged and remembered, word for word. */
  ghost predicate ModelAnswers(cfg: Config, world: World, goal: string, m: Memory, events: seq<Event>, i: int) {
    exists visible :: Offered(cfg, m.allowedTools, visible) &&
      match world.complete(m.step, goal, m.observations, visible)
      case Broke(message) => FailsWith(cfg, events, i + 1, Said(message))
      case Reply(provider, text, raw) =>
        && RowIs(events, i + 1, LlmResult(text, raw))
        && Remembers(world, goal, m, events, i + 2, Fact("llm:" + provider, text, raw))
  }

  /** Row `i` asks for a tool, and what that tool returns for that text is logged and remembered, word for word. */
  ghost predicate ToolAnswers(
      cfg: Config, world: World, goal: string, m: Memory, events: seq<Event>, i: int, d: Decision)
  {
    var text := if d.argument.Said? then d.argument.text else "";
    if d.target.None? then FailsWith(cfg, events, i + 1, ToolWithoutTarget)
    else if d.target.value !in m.allowedTools then FailsWith(cfg, events, i + 1, ToolNotAllowed(d.target.value))
    else if d.target.value !in cfg.tools then FailsWith(cfg, events, i + 1, ToolNotRegistered(d.target.value))
    else
      match world.execute(m.step, d.target.value, text)
      case Threw(message) => FailsWith(cfg, events, i + 1, Said(message))
      case Done(tool, ok, content, metadata) =>
        && RowIs(events, i + 1, ToolResult(tool, ok, content, metadata))
        && Remembers(world, goal, m, events, i + 2, Fact("tool:" + tool, content, metadata))
  }

  /** Row `i` hands over to the bot that was named, which brings its own tools. */
  ghost predicate BotTakesOver(
      cfg: Config, world: World, goal: string, m: Memory, events: seq<Event>, i: int, d: Decision)
  {
    var summary := if d.argument.Said? then d.argument.text else "";
    if d.target.None? then FailsWith(cfg, events, i, HandoffWithoutTarget)
    else if d.target.value !in cfg.bots then FailsWith(cfg, events, i, HandoffNotRegistered(d.target.value))
    else
      var bot := cfg.bots[d.target.value];
      && RowIs(events, i, HandoffResult(m.activeBot, bot.botId, d.argument, bot.allowedTools))
      && Remembers(world, goal, m.(activeBot := Some(bot.botId)), events, i + 1,
           Fact("handoff:" + bot.botId, "HANDED_OFF:" + bot.botId + ":" + summary, map[
             "from_bot" := match m.activeBot case Some(previous) => Str(previous) case None => Null,
             "to_bot" := Str(bot.botId), "summary" := Str(summary)]))
  }

  /** The rows from `i` on carry out the decision. */
  ghost predicate CarriedOut(
      cfg: Config, world: World, goal: string, m: Memory, events: seq<Event>, i: int, d: Decision)
  {
    match d.action
    case Finish =>
      |events| == i + 2 && RowIs(events, i, Transition(Deciding, Succeeded))
      && RowIs(events, i + 1, RunCompleted(d.argument, m.step + 1))
    case Cancel =>
      |events| == i + 2 && RowIs(events, i, Transition(Deciding, Cancelled))
      && RowIs(events, i + 1, RunCancelled(d.argument, m.step + 1))
    case Fail =>
      |events| == i + 2 && RowIs(events, i, Transition(Deciding, Failed))
      && RowIs(events, i + 1, RunFailed(d.argument, m.step + 1))
    case Handoff =>
      RowIs(events, i, Transition(Deciding, Acting)) && BotTakesOver(cfg, world, goal, m, events, i + 1, d)
    case CallLlm =>
      RowIs(events, i, Transition(Deciding, Acting)) && RowIs(events, i + 1, Requested(d))
      && ModelAnswers(cfg, world, goal, m, events, i + 1)
    case CallTool =>
      RowIs(events, i, Transition(Deciding, Acting)) && RowIs(events, i + 1, Requested(d))
      && ToolAnswers(cfg, world, goal, m, events, i + 1, d)
  }

  /** The rows before a decision list everything known, and the decision is made from nothing else. */
  ghost predicate Informed(cfg: Config, world: World, m: Memory, events: seq<Event>, i: int, d: Decision) {
    var n := |m.observations|;
    && n + 2 <= i < |events|
    && events[i - 2 - n].payload.Transition? && events[i - 2 - n].payload.to == Observing
    && (forall k :: 0 <= k < n ==> events[i - 1 - n + k].payload == Observed(m.observations[k]))
    && events[i - 1].payload == Transition(Observing, Deciding)
    && m.step < cfg.maxSteps && !world.cancelled(m.step, false)
    && d == cfg.decide(
         Policy(cfg.maxSteps, m.allowedTools), m.observations, m.step, world.cancelled(m.step, true))
  }

  predicate DecidedAt(events: seq<Event>, i: int) {
    0 <= i < |events| && events[i].payload.Decided?
  }

  predicate Neighbours(events: seq<Event>, i: int) {
    0 < i && i + 1 < |events|
  }

  /** Where a row may stand. Together with what follows each decision this leaves no row unaccounted for. */
  ghost predicate InPlace(cfg: Config, world: World, m: Memory, events: seq<Event>, i: nat)
    requires i < |events|
  {
    match events[i].payload
    case RunCreated(_, _) => i == 0
    case Transition(from, to) =>
      if to == Observing then
        i > 0 ==> events[i - 1].payload.Checkpoint? || events[i - 1].payload.RunCreated?
      else if to == Deciding then DecidedAt(events, i + 1)
      else if to == Acting then DecidedAt(events, i - 1)
      else IsTerminal(to) && i + 2 == |events|
    case Observed(_) =>
      && Neighbours(events, i)
      && (events[i - 1].payload.Observed?
          || (events[i - 1].payload.Transition? && events[i - 1].payload.to == Observing))
      && (events[i + 1].payload.Observed? || events[i + 1].payload == Transition(Observing, Deciding))
    case Decided(_) => true
    case Requested(_) => DecidedAt(events, i - 2)
    case LlmResult(_, _) =>
      DecidedAt(events, i - 3) && events[i - 3].payload.decision.action == CallLlm
    case ToolResult(_, _, _, _) =>
      DecidedAt(events, i - 3) && events[i - 3].payload.decision.action == CallTool
    case HandoffResult(_, _, _, _) =>
      DecidedAt(events, i - 2) && events[i - 2].payload.decision.action == Action.Handoff
    case Checkpoint(_) =>
      && i > 0
      && (events[i - 1].payload.LlmResult? || events[i - 1].payload.ToolResult? || events[i - 1].payload.HandoffResult?)
    case RunCompleted(_, _) =>
      i + 1 == |events| && DecidedAt(events, i - 2) && events[i - 2].payload.decision.action == Finish
    case RunCancelled(reason, steps) =>
      i + 1 == |events|
      && ((DecidedAt(events, i - 2) && events[i - 2].payload.decision.action == Cancel)
          || (reason == CancellationRequested && steps == m.step && world.cancelled(m.step, false)))
    case RunFailed(reason, steps) =>
      i + 1 == |events|
      && ((DecidedAt(events, i - 2) && events[i - 2].payload.decision.action == Fail)
          || (i > 0 && events[i - 1].payload == Transition(Acting, Failed) && steps == cfg.maxSteps)
          || (reason == StepBudgetExhausted && steps == cfg.maxSteps <= m.step))
  }

  /** Row `i` stands where it may, and if it is a decision it was made and carried out as it should be. */
  ghost predicate RowExplained(
      cfg: Config, world: World, goal: string, start: Memory, events: seq<Event>, i: nat)
    requires i < |events|
  {
    var m := Known(start, events[..i]);
    && InPlace(cfg, world, m, events, i)
    && (events[i].payload.Decided? ==>
          && Informed(cfg, world, m, events, i, events[i].payload.decision)
          && CarriedOut(cfg, world, goal, m, events, i + 1, events[i].payload.decision))
  }

  ghost predicate Explained(cfg: Config, world: World, goal: string, start: Memory, events: seq<Event>) {
    forall i: nat :: i < |events| ==> RowExplained(cfg, world, goal, start, events, i)
  }

  // ----- One log after the other -----

  /** No row ends the run. */
  predicate Ongoing(events: seq<Event>) {
    forall e :: e in events ==>
      && (e.payload.Transition? ==> !IsTerminal(e.payload.to))
      && TerminalVerdict(e.payload).None?
  }

  lemma CarriedOutInFirst(
      cfg: Config, world: World, goal: string, m: Memory, a: seq<Event>, b: seq<Event>, i: nat, d: Decision)
    requires Ongoing(a) && CarriedOut(cfg, world, goal, m, a, i, d)
    ensures CarriedOut(cfg, world, goal, m, a + b, i, d)
  {
    hide Offered;
    assert forall k :: 0 <= k < |a| ==> (a + b)[k] == a[k] && a[k] in a;
  }

  lemma RowOfFirst(cfg: Config, world: World, goal: string, start: Memory, a: seq<Event>, b: seq<Event>, i: nat)
    requires i < |a| && Ongoing(a) && RowExplained(cfg, world, goal, start, a, i)
    ensures RowExplained(cfg, world, goal, start, a + b, i)
  {
    hide Known, CarriedOut;
    assert (a + b)[..i] == a[..i];
    assert forall k :: 0 <= k < |a| ==> (a + b)[k] == a[k] && a[k] in a;
    if a[i].payload.Decided? {
      CarriedOutInFirst(cfg, world, goal, Known(start, a[..i]), a, b, i + 1, a[i].payload.decision);
    }
  }

  lemma CarriedOutInSecond(
      cfg: Config, world: World, goal: string, m: Memory, a: seq<Event>, b: seq<Event>, k: nat, d: Decision)
    requires CarriedOut(cfg, world, goal, m, b, k, d)
    ensures CarriedOut(cfg, world, goal, m, a + b, |a| + k, d)
  {
    hide Offered;
    assert forall j :: 0 <= j < |b| ==> (a + b)[|a| + j] == b[j];
  }

  lemma InformedInSecond(cfg: Config, world: World, m: Memory, a: seq<Event>, b: seq<Event>, k: nat, d: Decision)
    requires Informed(cfg, world, m, b, k, d)
    ensures Informed(cfg, world, m, a + b, |a| + k, d)
  {
    assert forall j :: 0 <= j < |b| ==> (a + b)[|a| + j] == b[j];
  }

  lemma InPlaceInSecond(cfg: Config, world: World, m: Memory, a: seq<Event>, b: seq<Event>, k: nat)
    requires k < |b| && InPlace(cfg, world, m, b, k)
    requires a != [] && (a[|a| - 1].payload.Checkpoint? || a[|a| - 1].payload.RunCreated?)
    requires !b[0].payload.RunCreated?
    ensures InPlace(cfg, world, m, a + b, |a| + k)
  {
    assert forall j :: 0 <= j < |b| ==> (a + b)[|a| + j] == b[j];
    assert (a + b)[|a| - 1] == a[|a| - 1];
  }

  lemma RowOfSecond(cfg: Config, world: World, goal: string, start: Memory, a: seq<Event>, b: seq<Event>, k: nat)
    requires k < |b| && RowExplained(cfg, world, goal, Known(start, a), b, k)
    requires a != [] && (a[|a| - 1].payload.Checkpoint? || a[|a| - 1].payload.RunCreated?)
    requires !b[0].payload.RunCreated?
    ensures RowExplained(cfg, world, goal, start, a + b, |a| + k)
  {
    hide Known, CarriedOut, Informed, InPlace;
    assert (a + b)[..|a| + k] == a + b[..k];
    KnownInTwoParts(start, a, b[..k]);
    var m := Known(Known(start, a), b[..k]);
    InPlaceInSecond(cfg, world, m, a, b, k);
    if b[k].payload.Decided? {
      InformedInSecond(cfg, world, m, a, b, k, b[k].payload.decision);
      CarriedOutInSecond(cfg, world, goal, m, a, b, k + 1, b[k].payload.decision);
    }
  }

  lemma ExplainedInTwoParts(cfg: Config, world: World, goal: string, start: Memory, a: seq<Event>, b: seq<Event>)
    requires Explained(cfg, world, goal, start, a) && Ongoing(a)
    requires a != [] && (a[|a| - 1].payload.Checkpoint? || a[|a| - 1].payload.RunCreated?)
    requires Explained(cfg, world, goal, Known(start, a), b) && (b != [] ==> !b[0].payload.RunCreated?)
    ensures Explained(cfg, world, goal, start, a + b)
  {
    hide RowExplained, Known, Ongoing;
    forall i: nat | i < |a + b| ensures RowExplained(cfg, world, goal, start, a + b, i) {
      if i < |a| {
        RowOfFirst(cfg, world, goal, start, a, b, i);
      } else {
        RowOfSecond(cfg, world, goal, start, a, b, i - |a|);
      }
    }
  }

  // ----- One iteration -----

  lemma OpeningRows(state: RunState, observations: seq<Observation>, d: Decision, tail: seq<Event>)
    ensures var events, n := Opening(state, observations, d) + tail, |observations|;
      && |Opening(state, observations, d)| == n + 3
      && events[0].payload == Transition(state, Observing)
      && (forall k :: 0 <= k < n ==> events[1 + k].payload == Observed(observations[k]))
      && events[n + 1].payload == Transition(Observing, Deciding)
      && events[n + 2].payload == Decided(d)
      && (forall j :: 0 <= j < |tail| ==> events[n + 3 + j] == tail[j])
      && (forall e :: e in Opening(state, observations, d) ==> Quiet(e))
  {}

  lemma OpeningInPlace(
      cfg: Config, world: World, m: Memory, state: RunState, observations: seq<Observation>, d: Decision,
      tail: seq<Event>, i: nat)
    requires i < |observations| + 3
    ensures |Opening(state, observations, d)| == |observations| + 3
    ensures InPlace(cfg, world, m, Opening(state, observations, d) + tail, i)
  {
    hide Opening;
    OpeningRows(state, observations, d, tail);
    var events, n := Opening(state, observations, d) + tail, |observations|;
    if 1 <= i <= n {
      assert events[i].payload == Observed(observations[i - 1]);
      assert i < n ==> events[i + 1].payload == Observed(observations[i]);
      assert i > 1 ==> events[i - 1].payload == Observed(observations[i - 2]);
    }
  }

  lemma WhatIsOffered(cfg: Config, allowed: set<string>)
    ensures Offered(cfg, allowed, Visible(cfg, cfg.toolSpecs, allowed))
  {
    var ps := KeptIsPicked(cfg.toolSpecs, InScope(cfg, allowed));
  }

  lemma ConcludeCarriesOut(
      cfg: Config, world: World, goal: string, m: Memory, before: seq<Event>, d: Decision)
    requires d.action in {Finish, Cancel, Fail}
    ensures CarriedOut(cfg, world, goal, m, before + Conclude(d, m.step).events, |before|, d)
  {
    var tail := Conclude(d, m.step).events;
    assert forall j :: 0 <= j < |tail| ==> (before + tail)[|before| + j] == tail[j];
  }

  lemma PerformCarriesOut(
      cfg: Config, world: World, goal: string, observations: seq<Observation>, scope: Scope, step: nat,
      before: seq<Event>, d: Decision)
    requires d.action !in {Finish, Cancel, Fail}
    ensures CarriedOut(
      cfg, world, goal, StartOf(observations, scope, step),
      before + Perform(cfg, world, goal, observations, scope, step, d).events, |before|, d)
  {
    hide Offered, Visible, ModelAnswers, ToolAnswers, BotTakesOver;
    var tail := Perform(cfg, world, goal, observations, scope, step, d).events;
    assert forall j :: 0 <= j < |tail| ==> (before + tail)[|before| + j] == tail[j];
    match d.action
    case Handoff => BotDoesTakeOver(cfg, world, goal, observations, scope, step, before, d);
    case CallLlm => ModelDoesAnswer(cfg, world, goal, observations, scope, step, before, d);
    case CallTool => ToolDoesAnswer(cfg, world, goal, observations, scope, step, before, d);
  }

  lemma BotDoesTakeOver(
      cfg: Config, world: World, goal: string, observations: seq<Observation>, scope: Scope, step: nat,
      before: seq<Event>, d: Decision)
    requires d.action == Action.Handoff
    ensures BotTakesOver(
      cfg, world, goal, StartOf(observations, scope, step),
      before + Perform(cfg, world, goal, observations, scope, step, d).events, |before| + 1, d)
  {
    hide Act;
    var tail := Perform(cfg, world, goal, observations, scope, step, d).events;
    assert forall j :: 0 <= j < |tail| ==> (before + tail)[|before| + j] == tail[j];
  }

  lemma ModelDoesAnswer(
      cfg: Config, world: World, goal: string, observations: seq<Observation>, scope: Scope, step: nat,
      before: seq<Event>, d: Decision)
    requires d.action == CallLlm
    ensures ModelAnswers(
      cfg, world, goal, StartOf(observations, scope, step),
      before + Perform(cfg, world, goal, observations, scope, step, d).events, |before| + 1)
  {
    hide Offered, Visible, HandOver;
    WhatIsOffered(cfg, scope.allowedTools);
    var tail := Perform(cfg, world, goal, observations, scope, step, d).events;
    assert forall j :: 0 <= j < |tail| ==> (before + tail)[|before| + j] == tail[j];
  }

  lemma ToolDoesAnswer(
      cfg: Config, world: World, goal: string, observations: seq<Observation>, scope: Scope, step: nat,
      before: seq<Event>, d: Decision)
    requires d.action == CallTool
    ensures ToolAnswers(
      cfg, world, goal, StartOf(observations, scope, step),
      before + Perform(cfg, world, goal, observations, scope, step, d).events, |before| + 1, d)
  {
    hide HandOver, Visible;
    var tail := Perform(cfg, world, goal, observations, scope, step, d).events;
    assert forall j :: 0 <= j < |tail| ==> (before + tail)[|before| + j] == tail[j];
  }

  lemma ConcludeInPlace(cfg: Config, world: World, m: Memory, before: seq<Event>, d: Decision, step: nat, j: nat)
    requires d.action in {Finish, Cancel, Fail} && j < |Conclude(d, step).events|
    requires before != [] && before[|before| - 1].payload == Decided(d)
    ensures InPlace(cfg, world, m, before + Conclude(d, step).events, |before| + j)
  {
    var tail := Conclude(d, step).events;
    assert forall j :: 0 <= j < |tail| ==> (before + tail)[|before| + j] == tail[j];
    assert (before + tail)[|before| - 1] == before[|before| - 1];
  }

  lemma PerformInPlace(
      cfg: Config, world: World, goal: string, observations: seq<Observation>, scope: Scope, step: nat, m: Memory,
      before: seq<Event>, d: Decision, j: nat)
    requires d.action !in {Finish, Cancel, Fail}
    requires j < |Perform(cfg, world, goal, observations, scope, step, d).events|
    requires before != [] && before[|before| - 1].payload == Decided(d)
    ensures InPlace(
      cfg, world, m, before + Perform(cfg, world, goal, observations, scope, step, d).events, |before| + j)
  {
    hide Visible, HandoffFact, InScope;
    var tail := Perform(cfg, world, goal, observations, scope, step, d).events;
    assert forall j :: 0 <= j < |tail| ==> (before + tail)[|before| + j] == tail[j];
    assert (before + tail)[|before| - 1] == before[|before| - 1];
    if d.action == Action.Handoff {
      hide Act;
    } else {
      hide HandOver;
    }
  }

  lemma NoSecondDecision(
      cfg: Config, world: World, goal: string, observations: seq<Observation>, scope: Scope, step: nat, d: Decision)
    ensures d.action in {Finish, Cancel, Fail} ==> forall e :: e in Conclude(d, step).events ==> !e.payload.Decided?
    ensures d.action !in {Finish, Cancel, Fail} ==>
      forall e :: e in Perform(cfg, world, goal, observations, scope, step, d).events ==> !e.payload.Decided?
  {
    hide Visible;
  }

  /** The rows of an iteration after its opening. */
  function Rest(
      cfg: Config, world: World, goal: string, observations: seq<Observation>, scope: Scope, step: nat, d: Decision)
      : StepResult
  {
    if d.action in {Finish, Cancel, Fail} then Conclude(d, step)
    else Perform(cfg, world, goal, observations, scope, step, d)
  }

  lemma RestCarriesOut(
      cfg: Config, world: World, goal: string, observations: seq<Observation>, scope: Scope, step: nat,
      before: seq<Event>, d: Decision)
    ensures var tail := Rest(cfg, world, goal, observations, scope, step, d).events;
      && CarriedOut(cfg, world, goal, StartOf(observations, scope, step), before + tail, |before|, d)
      && (forall e :: e in tail ==> !e.payload.Decided?)
  {
    hide CarriedOut, Conclude, Perform;
    NoSecondDecision(cfg, world, goal, observations, scope, step, d);
    if d.action in {Finish, Cancel, Fail} {
      ConcludeCarriesOut(cfg, world, goal, StartOf(observations, scope, step), before, d);
    } else {
      PerformCarriesOut(cfg, world, goal, observations, scope, step, before, d);
    }
  }

  lemma RestInPlace(
      cfg: Config, world: World, goal: string, observations: seq<Observation>, scope: Scope, step: nat, m: Memory,
      before: seq<Event>, d: Decision, j: nat)
    requires before != [] && before[|before| - 1].payload == Decided(d)
    requires j < |Rest(cfg, world, goal, observations, scope, step, d).events|
    ensures InPlace(
      cfg, world, m, before + Rest(cfg, world, goal, observations, scope, step, d).events, |before| + j)
  {
    hide InPlace, Conclude, Perform;
    if d.action in {Finish, Cancel, Fail} {
      ConcludeInPlace(cfg, world, m, before, d, step, j);
    } else {
      PerformInPlace(cfg, world, goal, observations, scope, step, m, before, d, j);
    }
  }

  lemma StepUnfolds(
      cfg: Config, world: World, goal: string, observations: seq<Observation>, scope: Scope, state: RunState, step: nat)
    requires !world.cancelled(step, false)
    ensures var d := DecisionAt(cfg, world, observations, scope, step);
      Step(cfg, world, goal, observations, scope, state, step)
        == After(Opening(state, observations, d), Rest(cfg, world, goal, observations, scope, step, d))
  {
    hide Opening, Conclude, Perform, DecisionAt;
  }

  lemma OpeningIsInformed(
      cfg: Config, world: World, state: RunState, observations: seq<Observation>, scope: Scope, step: nat,
      tail: seq<Event>)
    requires step < cfg.maxSteps && !world.cancelled(step, false)
    ensures var d := DecisionAt(cfg, world, observations, scope, step);
      Informed(cfg, world, StartOf(observations, scope, step), Opening(state, observations, d) + tail,
               |observations| + 2, d)
  {
    hide Opening;
    OpeningRows(state, observations, DecisionAt(cfg, world, observations, scope, step), tail);
  }

  lemma DecidedStepIsExplained(
      cfg: Config, world: World, goal: string, observations: seq<Observation>, scope: Scope, state: RunState, step: nat)
    requires step < cfg.maxSteps && !world.cancelled(step, false)
    ensures Explained(cfg, world, goal, StartOf(observations, scope, step),
                      Step(cfg, world, goal, observations, scope, state, step).events)
  {
    hide Known, Opening, Rest, InPlace, Informed, CarriedOut, DecisionAt;
    var d := DecisionAt(cfg, world, observations, scope, step);
    var start, n := StartOf(observations, scope, step), |observations|;
    var opening, tail :=
      Opening(state, observations, d), Rest(cfg, world, goal, observations, scope, step, d).events;
    var events := opening + tail;
    StepUnfolds(cfg, world, goal, observations, scope, state, step);
    OpeningRows(state, observations, d, []);
    assert opening + [] == opening;
    RestCarriesOut(cfg, world, goal, observations, scope, step, opening, d);
    forall i: nat | i < |events| ensures RowExplained(cfg, world, goal, start, events, i) {
      if i < n + 3 {
        OpeningInPlace(cfg, world, Known(start, events[..i]), state, observations, d, tail, i);
        assert events[..i] == opening[..i];
        assert events[i] == opening[i];
        assert forall e :: e in opening[..i] ==> e in opening;
        NothingNew(start, opening[..i]);
        OpeningIsInformed(cfg, world, state, observations, scope, step, tail);
        OpeningDecidesLast(state, observations, d, i);
      } else {
        assert events[i] == tail[i - |opening|] && tail[i - |opening|] in tail;
        RestInPlace(
          cfg, world, goal, observations, scope, step, Known(start, events[..i]), opening, d, i - |opening|);
      }
    }
  }

  lemma OpeningDecidesLast(state: RunState, observations: seq<Observation>, d: Decision, i: nat)
    ensures i < |Opening(state, observations, d)| && Opening(state, observations, d)[i].payload.Decided? ==>
      i == |observations| + 2 && Opening(state, observations, d)[i].payload == Decided(d)
  {}

  lemma StepIsExplained(
      cfg: Config, world: World, goal: string, observations: seq<Observation>, scope: Scope, state: RunState, step: nat)
    requires step < cfg.maxSteps
    ensures Explained(cfg, world, goal, StartOf(observations, scope, step),
                      Step(cfg, world, goal, observations, scope, state, step).events)
  {
    if world.cancelled(step, false) {
      var events := Step(cfg, world, goal, observations, scope, state, step).events;
      assert events == Ending(state, Cancelled, RunCancelled(CancellationRequested, step));
      assert Known(StartOf(observations, scope, step), events[..0]) == StartOf(observations, scope, step);
      NothingNew(StartOf(observations, scope, step), events[..1]);
    } else {
      DecidedStepIsExplained(cfg, world, goal, observations, scope, state, step);
    }
  }

  // ----- Whole logs -----

  lemma PerformIsKnown(
      cfg: Config, world: World, goal: string, observations: seq<Observation>, scope: Scope, step: nat, d: Decision)
    ensures var done := Perform(cfg, world, goal, observations, scope, step, d);
      done.Next? ==>
        && Known(StartOf(observations, scope, step), done.events)
          == StartOf(observations + [done.observation], done.scope, step + 1)
        && Ongoing(done.events) && done.events != [] && done.events[|done.events| - 1].payload.Checkpoint?
  {
    hide Known, Visible;
    var done := Perform(cfg, world, goal, observations, scope, step, d);
    var start := StartOf(observations, scope, step);
    if done.Next? {
      var effect := EffectOf(cfg, world, goal, observations, scope, step, d);
      var moved, saved := [Event(Acting, Transition(Deciding, Acting))], done.events[|done.events| - 1];
      NothingNew(start, moved);
      assert done.events == moved + effect.events + [saved];
      KnownInTwoParts(start, moved, effect.events);
      KnownInTwoParts(start, moved + effect.events, [saved]);
      EffectIsKnown(cfg, world, goal, observations, scope, step, d);
      OneRow(Known(start, moved + effect.events), saved);
    }
  }

  lemma OneRow(m: Memory, e: Event)
    ensures Known(m, [e]) == Noted(m, e)
  {
    assert [e][..0] == [];
    assert Known(m, []) == m;
  }

  lemma EffectIsKnown(
      cfg: Config, world: World, goal: string, observations: seq<Observation>, scope: Scope, step: nat, d: Decision)
    ensures var effect := EffectOf(cfg, world, goal, observations, scope, step, d);
      effect.outcome.Ok? ==>
        Known(StartOf(observations, scope, step), effect.events) == StartOf(observations, effect.outcome.value.1, step)
  {
    hide Known, Visible;
    var effect := EffectOf(cfg, world, goal, observations, scope, step, d);
    if effect.outcome.Ok? {
      if d.action == Action.Handoff {
        OneRow(StartOf(observations, scope, step), effect.events[0]);
      } else {
        NothingNew(StartOf(observations, scope, step), effect.events);
      }
    }
  }

  lemma StepIsKnown(
      cfg: Config, world: World, goal: string, observations: seq<Observation>, scope: Scope, state: RunState, step: nat)
    ensures var done := Step(cfg, world, goal, observations, scope, state, step);
      done.Next? ==>
        && Known(StartOf(observations, scope, step), done.events)
          == StartOf(observations + [done.observation], done.scope, step + 1)
        && Ongoing(done.events) && done.events != [] && done.events[|done.events| - 1].payload.Checkpoint?
  {
    hide Known, Perform, Opening, Ongoing, DecisionAt;
    var start := StartOf(observations, scope, step);
    if Step(cfg, world, goal, observations, scope, state, step).Next? {
      var d := DecisionAt(cfg, world, observations, scope, step);
      var opening, more :=
        Opening(state, observations, d), Perform(cfg, world, goal, observations, scope, step, d).events;
      OpeningIsOngoing(state, observations, d);
      NothingNew(start, opening);
      KnownInTwoParts(start, opening, more);
      PerformIsKnown(cfg, world, goal, observations, scope, step, d);
      StillOngoing(opening, more);
    }
  }

  lemma OpeningIsOngoing(state: RunState, observations: seq<Observation>, d: Decision)
    ensures Ongoing(Opening(state, observations, d))
    ensures forall e :: e in Opening(state, observations, d) ==> Quiet(e)
  {}

  lemma StillOngoing(a: seq<Event>, b: seq<Event>)
    ensures Ongoing(a) && Ongoing(b) ==> Ongoing(a + b)
  {}

  lemma LoopStarts(
      cfg: Config, world: World, goal: string, observations: seq<Observation>, scope: Scope, state: RunState, step: nat)
    ensures var events := Loop(cfg, world, goal, observations, scope, state, step).events;
      events != [] && !events[0].payload.RunCreated?
  {
    hide Perform;
  }

  /**
    Every row of a loop's log is accounted for. A decision is made from what the rows before it list and
    nothing else, and is carried out by the rows after it: the model is offered the tools in scope and what it
    says is logged and remembered word for word; a tool runs on the text it was asked for and what it
    returns is logged and remembered word for word; a bot that takes over brings its own tools; a failure
    ends the run with its reason. No other rows are written.
  */
  lemma {:induction false} LoopIsExplained(
      cfg: Config, world: World, goal: string, observations: seq<Observation>, scope: Scope, state: RunState, step: nat)
    ensures Explained(cfg, world, goal, StartOf(observations, scope, step),
                      Loop(cfg, world, goal, observations, scope, state, step).events)
    decreases cfg.maxSteps - step
  {
    hide Explained, Step, Ongoing, Known;
    if step >= cfg.maxSteps {
      NoStepsLeft(cfg, world, goal, StartOf(observations, scope, step), state);
    } else {
      StepIsExplained(cfg, world, goal, observations, scope, state, step);
      StepIsKnown(cfg, world, goal, observations, scope, state, step);
      var done := Step(cfg, world, goal, observations, scope, state, step);
      if done.Next? {
        var observations' := observations + [done.observation];
        LoopIsExplained(cfg, world, goal, observations', done.scope, Acting, step + 1);
        LoopStarts(cfg, world, goal, observations', done.scope, Acting, step + 1);
        ExplainedInTwoParts(
          cfg, world, goal, StartOf(observations, scope, step), done.events,
          Loop(cfg, world, goal, observations', done.scope, Acting, step + 1).events);
      }
    }
  }

  lemma NoStepsLeft(cfg: Config, world: World, goal: string, start: Memory, state: RunState)
    requires start.step >= cfg.maxSteps
    ensures Explained(
      cfg, world, goal, start, Ending(state, Failed, RunFailed(StepBudgetExhausted, cfg.maxSteps)))
  {
    NothingNew(start, Ending(state, Failed, RunFailed(StepBudgetExhausted, cfg.maxSteps))[..1]);
  }

  /** The same for a fresh run, which starts from the goal as the user gave it. */
  lemma RunIsExplained(cfg: Config, world: World, goal: string, base: Scope)
    ensures var user := Observation(Fact("user", goal, map[]), world.freshId(0));
      var events := Run(cfg, world, goal, base).events;
      && Explained(cfg, world, goal, StartOf([user], base, 0), events)
      && events[0].payload == RunCreated(goal, cfg.providerName)
  {
    hide Explained, Loop;
    var user := Observation(Fact("user", goal, map[]), world.freshId(0));
    var created := [Event(Created, RunCreated(goal, cfg.providerName))];
    var rest := Loop(cfg, world, goal, [user], base, Created, 0).events;
    LoopIsExplained(cfg, world, goal, [user], base, Created, 0);
    LoopStarts(cfg, world, goal, [user], base, Created, 0);
    NothingNew(StartOf([user], base, 0), created);
    assert Explained(cfg, world, goal, StartOf([user], base, 0), created) by {
      Announced(cfg, world, goal, base, user);
    }
    ExplainedInTwoParts(cfg, world, goal, StartOf([user], base, 0), created, rest);
  }

  lemma Announced(cfg: Config, world: World, goal: string, base: Scope, user: Observation)
    ensures Explained(
      cfg, world, goal, StartOf([user], base, 0), [Event(Created, RunCreated(goal, cfg.providerName))])
  {}

  // ----- What a reader of the log can rely on -----

  /** The fact that the checkpoint of row `i` has added last. */
  predicate AddsLast(events: seq<Event>, i: int, fact: Fact) {
    && 0 <= i < |events| && events[i].payload.Checkpoint?
    && var observations := events[i].payload.snapshot.observations;
       observations != [] && observations[|observations| - 1].fact == fact
  }

  /**
    In any explained log a tool result is what the tool returned for the name and the text of the request
    before it, and the next checkpoint adds exactly that; likewise for what the model said.
  */
  lemma ResultsAreKept(cfg: Config, world: World, goal: string, start: Memory, events: seq<Event>, i: nat)
    requires Explained(cfg, world, goal, start, events) && i < |events|
    ensures events[i].payload.ToolResult? ==>
      var ToolResult(tool, ok, content, metadata) := events[i].payload;
      && 0 < i && events[i - 1].payload.Requested? && events[i - 1].payload.decision.target.Some?
      && (var d := events[i - 1].payload.decision;
          var asked := if d.argument.Said? then d.argument.text else "";
          world.execute(Known(start, events[..i]).step, d.target.value, asked) == Done(tool, ok, content, metadata))
      && AddsLast(events, i + 1, Fact("tool:" + tool, content, metadata))
    ensures events[i].payload.LlmResult? ==>
      var LlmResult(text, raw) := events[i].payload;
      && 0 < i && events[i - 1].payload.Requested?
      && (exists provider, visible ::
            var m := Known(start, events[..i]);
            && Offered(cfg, m.allowedTools, visible)
            && world.complete(m.step, goal, m.observations, visible) == Reply(provider, text, raw)
            && AddsLast(events, i + 1, Fact("llm:" + provider, text, raw)))
  {
    hide Known, Offered, Informed;
    if events[i].payload.ToolResult? || events[i].payload.LlmResult? {
      assert RowExplained(cfg, world, goal, start, events, i);
      assert DecidedAt(events, i - 3);
      assert RowExplained(cfg, world, goal, start, events, i - 3);
      ThreeRowsOn(start, events, i - 3);
    }
  }

  /** Deciding, moving and asking teach nothing new. */
  lemma ThreeRowsOn(start: Memory, events: seq<Event>, i: nat)
    requires i + 3 < |events| && Quiet(events[i]) && Quiet(events[i + 1]) && Quiet(events[i + 2])
    ensures Known(start, events[..i + 3]) == Known(start, events[..i])
  {
    hide Known;
    KnownInTwoParts(start, events[..i], events[i..i + 3]);
    assert events[..i + 3] == events[..i] + events[i..i + 3];
    NothingNew(Known(start, events[..i]), events[i..i + 3]);
  }
}

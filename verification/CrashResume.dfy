/** A run that is killed any number of times and resumed each time ends as if it had never been interrupted. */
module CrashResume {
  import opened DecisionEngine
  import opened EventLog
  import opened Lifecycle
  import opened RunHistory
  import opened RunProofs
  import opened RunSpec
  import opened Text

  /** A provider and tools whose answers depend only on what they are asked, not on ids or on the moment. */
  datatype Service = Service(
    complete: (string, seq<Fact>, seq<string>) -> Reply,
    execute: (string, string) -> ToolReply)

  /** `world` is that service, without cancellation. */
  ghost predicate Serves(world: World, svc: Service) {
    && (forall step, goal, observations, visible ::
          world.complete(step, goal, observations, visible) == svc.complete(goal, Facts(observations), visible))
    && (forall step, tool, text :: world.execute(step, tool, text) == svc.execute(tool, text))
    && (forall step, second :: !world.cancelled(step, second))
  }

  // ----- Observation ids do not matter -----

  lemma {:induction false} LatestIgnoresIds(a: seq<Observation>, b: seq<Observation>, prefix: string)
    requires Facts(a) == Facts(b)
    ensures LatestByPrefix(a, prefix) == LatestByPrefix(b, prefix)
  {
    assert |a| == |Facts(a)| == |b|;
    if a != [] {
      assert a[|a| - 1].fact == Facts(a)[|a| - 1] == b[|b| - 1].fact;
      assert Facts(a[..|a| - 1]) == Facts(a)[..|a| - 1] == Facts(b)[..|b| - 1] == Facts(b[..|b| - 1]);
      LatestIgnoresIds(a[..|a| - 1], b[..|b| - 1], prefix);
    }
  }

  predicate SameChoice(a: Decision, b: Decision) {
    a.action == b.action && a.target == b.target && a.argument == b.argument
  }

  lemma FollowModelIgnoresIds(engine: Engine, policy: Policy, o: Observation, p: Observation)
    ensures o.fact == p.fact ==> SameChoice(FollowModel(engine, policy, o), FollowModel(engine, policy, p))
    ensures o.fact == p.fact ==> FollowModel(engine, policy, o).action != Cancel
  {
    hide ParseDirective, DoneAnswer;
  }

  /** The engine chooses the same action whatever the observation ids are. */
  lemma DecideIgnoresIds(
      engine: Engine, policy: Policy, a: seq<Observation>, b: seq<Observation>, step: int, cancelled: bool)
    requires a != [] && Facts(a) == Facts(b)
    ensures b != []
    ensures SameChoice(Decide(engine, policy, a, step, cancelled), Decide(engine, policy, b, step, cancelled))
    ensures !cancelled ==> Decide(engine, policy, a, step, cancelled).action != Cancel
  {
    hide FollowModel, DoneAnswer, LatestByPrefix;
    assert |a| == |Facts(a)| == |b|;
    assert forall i :: 0 <= i < |a| ==> a[i].fact == Facts(a)[i] == b[i].fact;
    LatestIgnoresIds(a, b, LLM);
    var found := LatestByPrefix(a, LLM);
    if found.Some? {
      FollowModelIgnoresIds(engine, policy, a[found.value], b[found.value]);
    }
  }

  lemma ChoiceIgnoresIds(
      cfg: Config, svc: Service, w: World, v: World, a: seq<Observation>, b: seq<Observation>, scope: Scope, step: nat)
    requires Standard(cfg) && Serves(w, svc) && Serves(v, svc)
    requires a != [] && Facts(a) == Facts(b)
    ensures b != []
    ensures SameChoice(DecisionAt(cfg, w, a, scope, step), DecisionAt(cfg, v, b, scope, step))
    ensures DecisionAt(cfg, w, a, scope, step).action != Cancel
  {
    hide Decide;
    var engine, policy := Engine(cfg.providerName, cfg.bots), Policy(cfg.maxSteps, scope.allowedTools);
    DecideIgnoresIds(engine, policy, a, b, step, false);
    assert DecisionAt(cfg, w, a, scope, step) == Decide(engine, policy, a, step, false);
    assert DecisionAt(cfg, v, b, scope, step) == Decide(engine, policy, b, step, false);
  }

  /** Two iterations agree on what happened, observation ids and log rows aside. */
  predicate SameOutcome(r: StepResult, s: StepResult) {
    match (r, s)
    case (Over(_, u), Over(_, v)) => u == v
    case (Next(_, o, p), Next(_, q, t)) => o.fact == q.fact && p == t
    case _ => false
  }

  lemma StepIgnoresIds(
      cfg: Config, svc: Service, w: World, v: World, goal: string, a: seq<Observation>, b: seq<Observation>,
      scope: Scope, r: RunState, s: RunState, step: nat)
    requires Standard(cfg) && Serves(w, svc) && Serves(v, svc)
    requires a != [] && Facts(a) == Facts(b)
    ensures SameOutcome(Step(cfg, w, goal, a, scope, r, step), Step(cfg, v, goal, b, scope, s, step))
  {
    hide Visible, DecisionAt, EffectOf, Standard;
    ChoiceIgnoresIds(cfg, svc, w, v, a, b, scope, step);
    var d, e := DecisionAt(cfg, w, a, scope, step), DecisionAt(cfg, v, b, scope, step);
    if d.action !in {Finish, Cancel, Fail} {
      EffectIgnoresIds(cfg, svc, w, v, goal, a, b, scope, step, d, e);
    }
  }

  /** Two effects yield the same fact and scope, or the same error. */
  predicate SameEffect(x: Effect, y: Effect) {
    match (x.outcome, y.outcome)
    case (Ok((o, s)), Ok((p, t))) => o.fact == p.fact && s == t
    case (Err(e), Err(f)) => e == f
    case _ => false
  }

  lemma EffectIgnoresIds(
      cfg: Config, svc: Service, w: World, v: World, goal: string, a: seq<Observation>, b: seq<Observation>,
      scope: Scope, step: nat, d: Decision, e: Decision)
    requires Serves(w, svc) && Serves(v, svc) && Facts(a) == Facts(b) && SameChoice(d, e)
    ensures SameEffect(EffectOf(cfg, w, goal, a, scope, step, d), EffectOf(cfg, v, goal, b, scope, step, e))
  {
    hide Visible;
    var visible := Visible(cfg, cfg.toolSpecs, scope.allowedTools);
    assert w.complete(step, goal, a, visible) == svc.complete(goal, Facts(a), visible);
    assert v.complete(step, goal, b, visible) == svc.complete(goal, Facts(b), visible);
    if d.target.Some? {
      assert w.execute(step, d.target.value, TextOf(d.argument)) == svc.execute(d.target.value, TextOf(d.argument));
      assert v.execute(step, d.target.value, TextOf(d.argument)) == svc.execute(d.target.value, TextOf(d.argument));
    }
  }

  lemma FactsSnoc(observations: seq<Observation>, o: Observation)
    ensures Facts(observations + [o]) == Facts(observations) + [o.fact]
  {}

  /** Two loops over the same facts and the same service give the same verdict, whatever ids they hand out. */
  lemma {:induction false} LoopIgnoresIds(
      cfg: Config, svc: Service, w: World, v: World, goal: string, a: seq<Observation>, b: seq<Observation>,
      scope: Scope, r: RunState, s: RunState, step: nat)
    requires Standard(cfg) && Serves(w, svc) && Serves(v, svc)
    requires a != [] && Facts(a) == Facts(b)
    ensures Loop(cfg, w, goal, a, scope, r, step).verdict == Loop(cfg, v, goal, b, scope, s, step).verdict
    decreases cfg.maxSteps - step
  {
    hide Step, Standard, Serves;
    if step < cfg.maxSteps {
      StepIgnoresIds(cfg, svc, w, v, goal, a, b, scope, r, s, step);
      var x, y := Step(cfg, w, goal, a, scope, r, step), Step(cfg, v, goal, b, scope, s, step);
      if x.Next? {
        FactsSnoc(a, x.observation);
        FactsSnoc(b, y.observation);
        LoopIgnoresIds(
          cfg, svc, w, v, goal, a + [x.observation], b + [y.observation], x.scope, Acting, Acting, step + 1);
      }
    }
  }

  // ----- Restoring the scope -----

  /** The bot is found again under the id that a checkpoint stores for it, with the same tools. */
  predicate FoundAgain(cfg: Config, key: string)
    requires key in cfg.bots
  {
    var bot := cfg.bots[key];
    bot.botId in cfg.bots && cfg.bots[bot.botId].botId == bot.botId
    && cfg.bots[bot.botId].allowedTools == bot.allowedTools
  }

  /** A handoff is restored on resume exactly when its bot is registered under its own id with the same tools. */
  lemma HandoffIsRestoredIff(cfg: Config, base: Scope, key: string)
    requires key in cfg.bots
    ensures var scope := Scope(Some(cfg.bots[key].botId), cfg.bots[key].allowedTools);
      RestoredScope(cfg, base, scope.activeBot) == Ok(scope) <==> FoundAgain(cfg, key)
  {}

  /** So a registry that files a bot under another key loses it: the resumption is refused. */
  lemma MisfiledBotIsLost(base: Scope, cfg: Config)
    requires cfg.bots == map["writer" := BotSpec("scribe", {"echo"})]
    ensures RestoredScope(cfg, base, Some(cfg.bots["writer"].botId)) == Err(CheckpointBotNotRegistered("scribe"))
  {
    assert "scribe"[0] != "writer"[0];
  }

  /** Every registered bot can be found again, and the initially active one is filed under its own id. */
  ghost predicate Coherent(cfg: Config) {
    && (forall key :: key in cfg.bots ==> FoundAgain(cfg, key))
    && (cfg.activeBot.Some? && cfg.activeBot.value in cfg.bots ==>
          cfg.bots[cfg.activeBot.value].botId == cfg.activeBot.value)
  }

  /** A registry keyed by bot id, the usual way to build one, is coherent. */
  lemma KeyedByIdIsCoherent(cfg: Config)
    requires forall key :: key in cfg.bots ==> cfg.bots[key].botId == key
    ensures Coherent(cfg)
  {}

  lemma StepRestorable(
      cfg: Config, world: World, goal: string, observations: seq<Observation>, base: Scope, scope: Scope,
      state: RunState, step: nat)
    requires Coherent(cfg) && RestoredScope(cfg, base, scope.activeBot) == Ok(scope)
    ensures var done := Step(cfg, world, goal, observations, scope, state, step);
      done.Next? ==> RestoredScope(cfg, base, done.scope.activeBot) == Ok(done.scope)
  {}

  // ----- Checkpoints and crashes -----

  /** Continuing from this checkpoint with the same service leads to `verdict`. */
  ghost predicate LeadsTo(cfg: Config, svc: Service, goal: string, base: Scope, verdict: Verdict, s: Snapshot) {
    && s.goal == goal && s.step >= 0 && s.observations != []
    && var restored := RestoredScope(cfg, base, s.activeBot);
       restored.Ok? && forall w :: Serves(w, svc) ==>
         Loop(cfg, w, goal, s.observations, restored.value, Created, s.step).verdict == verdict
  }

  /** Every checkpoint leads to `verdict` and every terminal event records it. */
  ghost predicate Faithful(
      cfg: Config, svc: Service, goal: string, base: Scope, verdict: Verdict, events: seq<Event>)
  {
    forall e :: e in events ==>
      && (e.payload.Checkpoint? ==> LeadsTo(cfg, svc, goal, base, verdict, e.payload.snapshot))
      && (TerminalVerdict(e.payload).Some? ==> TerminalVerdict(e.payload).value == verdict)
  }

  lemma {:induction false} SnapshotInEvents(events: seq<Event>, e: Event)
    ensures e in events && e.payload.Checkpoint? ==> e.payload.snapshot in Snapshots(events)
  {
    if events != [] && events[0] != e {
      SnapshotInEvents(events[1..], e);
    }
  }

  /** Every state a loop passes through leads to the verdict of that loop. */
  lemma {:induction false} CursorsLeadOn(
      cfg: Config, svc: Service, world: World, goal: string, observations: seq<Observation>, base: Scope, scope: Scope,
      state: RunState, step: nat)
    requires Standard(cfg) && Coherent(cfg) && Serves(world, svc)
    requires observations != [] && RestoredScope(cfg, base, scope.activeBot) == Ok(scope)
    ensures var verdict := Loop(cfg, world, goal, observations, scope, state, step).verdict;
      forall c :: c in Cursors(cfg, world, goal, observations, scope, state, step) ==>
        LeadsTo(cfg, svc, goal, base, verdict, SnapshotOf(goal, c))
    decreases cfg.maxSteps - step
  {
    hide Step, Standard, Serves, Coherent, LeadsTo, RestoredScope;
    if step < cfg.maxSteps {
      var done := Step(cfg, world, goal, observations, scope, state, step);
      if done.Next? {
        var observations' := observations + [done.observation];
        StepRestorable(cfg, world, goal, observations, base, scope, state, step);
        CursorsLeadOn(cfg, svc, world, goal, observations', base, done.scope, Acting, step + 1);
        CursorLeadsOn(cfg, svc, world, goal, base, Cursor(observations', done.scope, step + 1));
      }
    }
  }

  lemma CursorLeadsOn(cfg: Config, svc: Service, world: World, goal: string, base: Scope, c: Cursor)
    requires Standard(cfg) && Serves(world, svc)
    requires c.observations != [] && RestoredScope(cfg, base, c.scope.activeBot) == Ok(c.scope)
    ensures var verdict := Loop(cfg, world, goal, c.observations, c.scope, Acting, c.step).verdict;
      LeadsTo(cfg, svc, goal, base, verdict, SnapshotOf(goal, c))
  {
    hide Loop, Standard, Serves;
    forall w | Serves(w, svc)
      ensures Loop(cfg, w, goal, c.observations, c.scope, Created, c.step).verdict
           == Loop(cfg, world, goal, c.observations, c.scope, Acting, c.step).verdict
    {
      LoopIgnoresIds(cfg, svc, w, world, goal, c.observations, c.observations, c.scope, Created, Acting, c.step);
    }
  }

  lemma LoopIsFaithful(
      cfg: Config, svc: Service, world: World, goal: string, observations: seq<Observation>, base: Scope, scope: Scope,
      step: nat)
    requires Standard(cfg) && Coherent(cfg) && Serves(world, svc)
    requires observations != [] && RestoredScope(cfg, base, scope.activeBot) == Ok(scope)
    ensures var t := Loop(cfg, world, goal, observations, scope, Created, step);
      Faithful(cfg, svc, goal, base, t.verdict, t.events)
  {
    hide Step, Standard, Serves, Coherent, RestoredScope, LeadsTo, Loop, Cursors, Snapshots;
    var t := Loop(cfg, world, goal, observations, scope, Created, step);
    LoopEndsOnce(cfg, world, goal, observations, scope, Created, step);
    CheckpointsAreCursors(cfg, world, goal, observations, scope, Created, step);
    var cursors := Cursors(cfg, world, goal, observations, scope, Created, step);
    forall e | e in t.events
      ensures e.payload.Checkpoint? ==> LeadsTo(cfg, svc, goal, base, t.verdict, e.payload.snapshot)
      ensures TerminalVerdict(e.payload).Some? ==> TerminalVerdict(e.payload).value == t.verdict
    {
      var j :| 0 <= j < |t.events| && t.events[j] == e;
      if j < |t.events| - 1 {
        assert e in t.events[..|t.events| - 1];
      }
      if e.payload.Checkpoint? {
        SnapshotInEvents(t.events, e);
        var i :| 0 <= i < |cursors| && SnapshotsOf(goal, cursors)[i] == e.payload.snapshot;
        CursorsLeadOn(cfg, svc, world, goal, observations, base, scope, Created, step);
        assert cursors[i] in cursors;
      }
    }
  }

  lemma {:induction false} RecordedIsTerminal(events: seq<Event>)
    ensures RecordedOutcome(events).Some? ==>
      exists e :: e in events && TerminalVerdict(e.payload) == RecordedOutcome(events)
    ensures RecordedOutcome(events).None? ==> Unfinished(events)
  {
    if events != [] {
      RecordedIsTerminal(events[..|events| - 1]);
    }
  }

  lemma {:induction false} LatestIsInLog(events: seq<Event>)
    ensures LatestCheckpoint(events).Some? ==>
      exists e :: e in events && e.payload == Checkpoint(LatestCheckpoint(events).value)
    ensures LatestCheckpoint(events).None? ==> forall e :: e in events ==> !e.payload.Checkpoint?
  {
    if events != [] {
      LatestIsInLog(events[..|events| - 1]);
    }
  }

  /** The log after a resumption. */
  function Resumed(cfg: Config, world: World, base: Scope, kept: seq<Event>): seq<Event> {
    var r := Resume(cfg, world, base, kept);
    if r.Continued? then kept + r.trace.events else kept
  }

  function VerdictOf(r: Resumption): Option<Verdict> {
    match r
    case Recorded(verdict) => Some(verdict)
    case Continued(trace) => Some(trace.verdict)
    case Refused(_) => None
  }

  predicate HasProgress(events: seq<Event>) {
    RecordedOutcome(events).Some? || LatestCheckpoint(events).Some?
  }

  /**
    Resuming a faithful log gives the verdict, and leaves a faithful log that ends with it -
    provided a checkpoint or an outcome survived; without either it is refused and the log stays.
  */
  lemma ResumeIsFaithful(
      cfg: Config, svc: Service, world: World, goal: string, base: Scope, verdict: Verdict, kept: seq<Event>)
    requires Standard(cfg) && Coherent(cfg) && Serves(world, svc) && ValidateGoal(cfg, goal).None?
    requires InitialScope(cfg) == Ok(base)
    requires Faithful(cfg, svc, goal, base, verdict, kept)
    ensures Faithful(cfg, svc, goal, base, verdict, Resumed(cfg, world, base, kept))
    ensures VerdictOf(Resume(cfg, world, base, kept)) == if HasProgress(kept) then Some(verdict) else None
    ensures HasProgress(kept) ==> RecordedOutcome(Resumed(cfg, world, base, kept)) == Some(verdict)
  {
    hide Loop, Step, Standard, Serves, Coherent, RecordedOutcome, LatestCheckpoint, ValidateGoal, RestoredScope,
      LeadsTo, InitialScope, Faithful, Resume;
    FaithfulRecords(cfg, svc, goal, base, verdict, kept);
    ResumeStarts(cfg, world, base, kept);
    if RecordedOutcome(kept).None? && LatestCheckpoint(kept).Some? {
      ContinuationIsFaithful(cfg, svc, world, goal, base, verdict, kept, LatestCheckpoint(kept).value);
      ResumeIsIdempotent(cfg, world, world, base, kept);
      var more := Resume(cfg, world, base, kept).trace.events;
      ResumeStarts(cfg, world, base, kept + more);
      FaithfulInTwoParts(cfg, svc, goal, base, verdict, kept, more);
    }
  }

  /** What a resumption looks at first. */
  lemma ResumeStarts(cfg: Config, world: World, base: Scope, events: seq<Event>)
    ensures var r := Resume(cfg, world, base, events);
      && (r.Recorded? <==> RecordedOutcome(events).Some?)
      && (r.Recorded? ==> RecordedOutcome(events) == Some(r.verdict))
      && (RecordedOutcome(events).None? && LatestCheckpoint(events).None? ==> r == Refused(NoCheckpoint))
  {
    hide RecordedOutcome, LatestCheckpoint, Loop, ValidateGoal, RestoredScope, Strip, StartStep;
  }

  /** In a faithful log the recorded outcome is the verdict and the latest checkpoint leads to it. */
  lemma FaithfulRecords(cfg: Config, svc: Service, goal: string, base: Scope, verdict: Verdict, kept: seq<Event>)
    requires Faithful(cfg, svc, goal, base, verdict, kept)
    ensures RecordedOutcome(kept).Some? ==> RecordedOutcome(kept) == Some(verdict)
    ensures LatestCheckpoint(kept).Some? ==> LeadsTo(cfg, svc, goal, base, verdict, LatestCheckpoint(kept).value)
  {
    hide RecordedOutcome, LatestCheckpoint, LeadsTo;
    RecordedIsTerminal(kept);
    LatestIsInLog(kept);
  }

  lemma FaithfulInTwoParts(
      cfg: Config, svc: Service, goal: string, base: Scope, verdict: Verdict, a: seq<Event>, b: seq<Event>)
    ensures Faithful(cfg, svc, goal, base, verdict, a) && Faithful(cfg, svc, goal, base, verdict, b) ==>
      Faithful(cfg, svc, goal, base, verdict, a + b)
  {
    hide LeadsTo;
  }

  lemma ContinuationIsFaithful(
      cfg: Config, svc: Service, world: World, goal: string, base: Scope, verdict: Verdict, kept: seq<Event>,
      snapshot: Snapshot)
    requires Standard(cfg) && Coherent(cfg) && Serves(world, svc) && ValidateGoal(cfg, goal).None?
    requires InitialScope(cfg) == Ok(base) && LeadsTo(cfg, svc, goal, base, verdict, snapshot)
    ensures var r := Resume(cfg, world, base, kept);
      RecordedOutcome(kept).None? && LatestCheckpoint(kept) == Some(snapshot) ==>
        r.Continued? && r.trace.verdict == verdict && Faithful(cfg, svc, goal, base, verdict, r.trace.events)
  {
    hide Loop, Step, Standard, Serves, Coherent, RecordedOutcome, LatestCheckpoint, ValidateGoal, RestoredScope,
      Faithful, InitialScope, Resume;
    GoalIsNotBlank(cfg, goal);
    var restored := RestoredScope(cfg, base, snapshot.activeBot).value;
    InitialIsRestored(cfg, base);
    RestoredTwice(cfg, base, snapshot.activeBot);
    LoopIsFaithful(cfg, svc, world, goal, snapshot.observations, base, restored, snapshot.step);
    ResumeContinues(cfg, world, base, kept, snapshot);
  }

  /** An unfinished log with a usable checkpoint is continued from it. */
  lemma ResumeContinues(cfg: Config, world: World, base: Scope, events: seq<Event>, s: Snapshot)
    requires Strip(s.goal) != "" && s.observations != [] && ValidateGoal(cfg, s.goal).None?
    requires RestoredScope(cfg, base, s.activeBot).Ok? && s.step >= 0
    ensures RecordedOutcome(events).None? && LatestCheckpoint(events) == Some(s) ==>
      var restored := RestoredScope(cfg, base, s.activeBot).value;
      Resume(cfg, world, base, events)
        == Continued(Loop(cfg, world, s.goal, s.observations, restored, Created, s.step))
  {
    hide RecordedOutcome, LatestCheckpoint, Loop, ValidateGoal, RestoredScope, Strip;
  }

  lemma GoalIsNotBlank(cfg: Config, goal: string)
    ensures ValidateGoal(cfg, goal).None? ==> Strip(goal) != ""
  {}

  /** The constructor's scope is what a checkpoint without a later handoff restores. */
  lemma InitialIsRestored(cfg: Config, base: Scope)
    ensures Coherent(cfg) && InitialScope(cfg) == Ok(base) ==> RestoredScope(cfg, base, base.activeBot) == Ok(base)
  {}

  /** A restored scope restores to itself. */
  lemma RestoredTwice(cfg: Config, base: Scope, activeBot: Option<string>)
    requires Coherent(cfg) && RestoredScope(cfg, base, activeBot).Ok?
    requires RestoredScope(cfg, base, base.activeBot) == Ok(base)
    ensures var scope := RestoredScope(cfg, base, activeBot).value;
      RestoredScope(cfg, base, scope.activeBot) == Ok(scope)
  {}

  /** One kill and one resumption: only the first `keep` rows of the run survived. */
  datatype Crash = Crash(keep: nat, world: World)

  function Kept(events: seq<Event>, keep: nat): seq<Event> {
    if keep <= |events| then events[..keep] else events
  }

  /** The log of the run after these crashes, each followed by a resumption on a fresh runner. */
  function Survivor(cfg: Config, base: Scope, events: seq<Event>, crashes: seq<Crash>): seq<Event>
    decreases |crashes|
  {
    if crashes == [] then events
    else
      var after := Resumed(cfg, crashes[0].world, base, Kept(events, crashes[0].keep));
      Survivor(cfg, base, after, crashes[1..])
  }

  lemma FaithfulPrefix(
      cfg: Config, svc: Service, goal: string, base: Scope, verdict: Verdict, events: seq<Event>, keep: nat)
    ensures Faithful(cfg, svc, goal, base, verdict, events) ==>
      Faithful(cfg, svc, goal, base, verdict, Kept(events, keep))
  {
    hide LeadsTo;
  }

  lemma RunIsFaithful(cfg: Config, svc: Service, world: World, goal: string, base: Scope)
    requires Standard(cfg) && Coherent(cfg) && Serves(world, svc) && InitialScope(cfg) == Ok(base)
    ensures var t := Run(cfg, world, goal, base);
      Faithful(cfg, svc, goal, base, t.verdict, t.events)
  {
    hide Loop, Standard, Serves, LeadsTo;
    InitialIsRestored(cfg, base);
    LoopIsFaithful(cfg, svc, world, goal, [UserObservation(world, goal)], base, base, 0);
  }

  lemma {:induction false} ProgressSurvives(events: seq<Event>, more: seq<Event>)
    requires HasProgress(events) && events <= more
    ensures HasProgress(more)
  {
    if events != more {
      var init := more[..|more| - 1];
      assert events <= init;
      ProgressSurvives(events, init);
    }
  }

  /** A resumption only appends. */
  lemma ResumedExtends(cfg: Config, world: World, base: Scope, kept: seq<Event>)
    ensures kept <= Resumed(cfg, world, base, kept)
  {
    hide Resume;
  }

  lemma {:induction false} SurvivorIsFaithful(
      cfg: Config, svc: Service, goal: string, base: Scope, verdict: Verdict, events: seq<Event>, first: seq<Event>,
      crashes: seq<Crash>)
    requires Standard(cfg) && Coherent(cfg) && ValidateGoal(cfg, goal).None? && InitialScope(cfg) == Ok(base)
    requires Faithful(cfg, svc, goal, base, verdict, events) && RecordedOutcome(events) == Some(verdict)
    requires first <= events && HasProgress(first)
    requires forall c :: c in crashes ==> Serves(c.world, svc) && c.keep >= |first|
    ensures Faithful(cfg, svc, goal, base, verdict, Survivor(cfg, base, events, crashes))
    ensures RecordedOutcome(Survivor(cfg, base, events, crashes)) == Some(verdict)
    ensures first <= Survivor(cfg, base, events, crashes)
    decreases |crashes|
  {
    hide Standard, Coherent, Serves, Faithful, Resumed, RecordedOutcome, HasProgress, ValidateGoal, InitialScope;
    if crashes != [] {
      var kept := Kept(events, crashes[0].keep);
      FaithfulPrefix(cfg, svc, goal, base, verdict, events, crashes[0].keep);
      assert first <= kept;
      ProgressSurvives(first, kept);
      ResumeIsFaithful(cfg, svc, crashes[0].world, goal, base, verdict, kept);
      ResumedExtends(cfg, crashes[0].world, base, kept);
      SurvivorIsFaithful(
        cfg, svc, goal, base, verdict, Resumed(cfg, crashes[0].world, base, kept), first, crashes[1..]);
    }
  }

  /** A row from which a run can be picked up again: a checkpoint or the outcome. */
  predicate IsProgress(e: Event) {
    e.payload.Checkpoint? || TerminalVerdict(e.payload).Some?
  }

  lemma ProgressSoFar(events: seq<Event>, first: nat)
    requires first < |events|
    ensures IsProgress(events[first]) ==> HasProgress(events[..first + 1])
  {
    assert events[..first + 1][..first] == events[..first];
  }

  /**
    Take any uninterrupted run and any row of its log that holds a checkpoint or the outcome. Kill
    the run any number of times, each time at any point after that row, and resume it each time on
    a fresh runner. Then one more kill and resumption still returns the state, the answer and the
    step count of the uninterrupted run.
  */
  lemma CrashesAreInvisible(
      cfg: Config, svc: Service, world: World, goal: string, base: Scope, first: nat, crashes: seq<Crash>, last: Crash)
    requires Standard(cfg) && Coherent(cfg) && ValidateGoal(cfg, goal).None? && InitialScope(cfg) == Ok(base)
    requires Serves(world, svc) && Serves(last.world, svc) && first < last.keep
    requires forall c :: c in crashes ==> Serves(c.world, svc) && first < c.keep
    ensures var t := Run(cfg, world, goal, base);
      var log := Survivor(cfg, base, t.events, crashes);
      first < |t.events| && IsProgress(t.events[first]) ==>
        && VerdictOf(Resume(cfg, last.world, base, Kept(log, last.keep))) == Some(t.verdict)
        && RecordedOutcome(log) == Some(t.verdict)
  {
    hide Standard, Coherent, Serves, Faithful, Resumed, Resume, RecordedOutcome, HasProgress, ValidateGoal,
      InitialScope, Run, IsProgress;
    var t := Run(cfg, world, goal, base);
    if first < |t.events| && IsProgress(t.events[first]) {
      var start := t.events[..first + 1];
      ProgressSoFar(t.events, first);
      RunIsFaithful(cfg, svc, world, goal, base);
      FinishedRunIsRecorded(cfg, world, goal, base, world, base);
      SurvivorIsFaithful(cfg, svc, goal, base, t.verdict, t.events, start, crashes);
      var log := Survivor(cfg, base, t.events, crashes);
      FaithfulPrefix(cfg, svc, goal, base, t.verdict, log, last.keep);
      assert start <= Kept(log, last.keep);
      ProgressSurvives(start, Kept(log, last.keep));
      ResumeIsFaithful(cfg, svc, last.world, goal, base, t.verdict, Kept(log, last.keep));
    }
  }

  /** Killed before anything useful was stored, a run is not resumed at all, and its log stays as it is. */
  lemma TooEarlyIsRefused(
      cfg: Config, svc: Service, world: World, goal: string, base: Scope, keep: nat, later: World)
    requires Standard(cfg) && Coherent(cfg) && ValidateGoal(cfg, goal).None? && InitialScope(cfg) == Ok(base)
    requires Serves(world, svc) && Serves(later, svc)
    ensures var kept := Kept(Run(cfg, world, goal, base).events, keep);
      Resume(cfg, later, base, kept) == Refused(NoCheckpoint) <==> !HasProgress(kept)
  {
    hide Standard, Coherent, Serves, Faithful, RecordedOutcome, LatestCheckpoint, ValidateGoal, InitialScope, Run, Loop;
    var t := Run(cfg, world, goal, base);
    RunIsFaithful(cfg, svc, world, goal, base);
    FaithfulPrefix(cfg, svc, goal, base, t.verdict, t.events, keep);
    ResumeIsFaithful(cfg, svc, later, goal, base, t.verdict, Kept(t.events, keep));
  }

  // ----- Safety of resumed runs, whatever the surroundings do -----

  /** The checkpoint holds observations that obey the grammar and the scope that they lead to. */
  ghost predicate Sane(cfg: Config, base: Scope, s: Snapshot) {
    && 0 < s.step < cfg.maxSteps && |s.observations| == s.step + 1
    && Grown(cfg, base, s.observations)
    && RestoredScope(cfg, base, s.activeBot) == Ok(ScopeAfter(cfg, base, s.observations))
  }

  ghost predicate Safe(cfg: Config, base: Scope, events: seq<Event>) {
    && Provenance(cfg, events)
    && forall e :: e in events ==>
         && (e.payload.Checkpoint? ==> Sane(cfg, base, e.payload.snapshot))
         && (TerminalVerdict(e.payload).Some? ==>
               var m := TerminalVerdict(e.payload).value.answer; !Preventable(m) && m != StepBudgetExhausted)
  }

  lemma {:induction false} CursorsRestorable(
      cfg: Config, world: World, goal: string, observations: seq<Observation>, base: Scope, scope: Scope,
      state: RunState, step: nat)
    requires Coherent(cfg) && RestoredScope(cfg, base, scope.activeBot) == Ok(scope)
    ensures forall c :: c in Cursors(cfg, world, goal, observations, scope, state, step) ==>
      RestoredScope(cfg, base, c.scope.activeBot) == Ok(c.scope)
    decreases cfg.maxSteps - step
  {
    hide Step, Coherent, RestoredScope;
    if step < cfg.maxSteps {
      StepRestorable(cfg, world, goal, observations, base, scope, state, step);
      var done := Step(cfg, world, goal, observations, scope, state, step);
      if done.Next? {
        CursorsRestorable(cfg, world, goal, observations + [done.observation], base, done.scope, Acting, step + 1);
      }
    }
  }

  lemma LoopIsSafe(
      cfg: Config, world: World, goal: string, observations: seq<Observation>, base: Scope, step: nat)
    requires Standard(cfg) && Coherent(cfg) && Grown(cfg, base, observations)
    requires |observations| == step + 1 && step < cfg.maxSteps
    requires var scope := ScopeAfter(cfg, base, observations); RestoredScope(cfg, base, scope.activeBot) == Ok(scope)
    ensures var scope := ScopeAfter(cfg, base, observations);
      Safe(cfg, base, Loop(cfg, world, goal, observations, scope, Created, step).events)
  {
    hide Loop, Cursors, Snapshots, Standard, Coherent, Grown, ScopeAfter, RestoredScope, Provenance;
    var scope := ScopeAfter(cfg, base, observations);
    var t := Loop(cfg, world, goal, observations, scope, Created, step);
    LoopProvenance(cfg, world, goal, observations, base, Created, step);
    LoopEndsOnce(cfg, world, goal, observations, scope, Created, step);
    LoopKeepsGrammar(cfg, world, goal, observations, base, Created, step);
    CheckpointsAreCursors(cfg, world, goal, observations, scope, Created, step);
    CursorsRestorable(cfg, world, goal, observations, base, scope, Created, step);
    var cursors := Cursors(cfg, world, goal, observations, scope, Created, step);
    forall e | e in t.events
      ensures e.payload.Checkpoint? ==> Sane(cfg, base, e.payload.snapshot)
      ensures TerminalVerdict(e.payload).Some? ==> TerminalVerdict(e.payload).value == t.verdict
    {
      var j :| 0 <= j < |t.events| && t.events[j] == e;
      if j < |t.events| - 1 {
        assert e in t.events[..|t.events| - 1];
      }
      if e.payload.Checkpoint? {
        SnapshotInEvents(t.events, e);
        var i :| 0 <= i < |cursors| && SnapshotsOf(goal, cursors)[i] == e.payload.snapshot;
        assert cursors[i] in cursors;
      }
    }
  }

  lemma ResumeIsSafe(cfg: Config, world: World, base: Scope, kept: seq<Event>)
    requires Standard(cfg) && Coherent(cfg) && InitialScope(cfg) == Ok(base) && Safe(cfg, base, kept)
    ensures Safe(cfg, base, Resumed(cfg, world, base, kept))
  {
    hide Loop, Standard, Coherent, Grown, ScopeAfter, Provenance, ValidateGoal, RecordedOutcome, LatestCheckpoint,
      InitialScope;
    LatestIsInLog(kept);
    if RecordedOutcome(kept).None? && LatestCheckpoint(kept).Some? {
      var snapshot := LatestCheckpoint(kept).value;
      assert Sane(cfg, base, snapshot);
      InitialIsRestored(cfg, base);
      RestoredTwice(cfg, base, snapshot.activeBot);
      LoopIsSafe(cfg, world, snapshot.goal, snapshot.observations, base, snapshot.step);
      var r := Resume(cfg, world, base, kept);
      if r.Continued? {
        ProvenanceConcat(cfg, kept, r.trace.events);
      }
    }
  }

  lemma SafePrefix(cfg: Config, base: Scope, events: seq<Event>, keep: nat)
    ensures Safe(cfg, base, events) ==> Safe(cfg, base, Kept(events, keep))
  {
    hide Sane, Prompts, Acts;
  }

  lemma {:induction false} SurvivorStaysSafe(
      cfg: Config, base: Scope, events: seq<Event>, crashes: seq<Crash>)
    requires Standard(cfg) && Coherent(cfg) && InitialScope(cfg) == Ok(base) && Safe(cfg, base, events)
    ensures Safe(cfg, base, Survivor(cfg, base, events, crashes))
    decreases |crashes|
  {
    hide Standard, Coherent, InitialScope, Safe, Resumed;
    if crashes != [] {
      var kept := Kept(events, crashes[0].keep);
      SafePrefix(cfg, base, events, crashes[0].keep);
      ResumeIsSafe(cfg, crashes[0].world, base, kept);
      SurvivorStaysSafe(cfg, base, Resumed(cfg, crashes[0].world, base, kept), crashes[1..]);
    }
  }

  /**
    However often a run is killed - at any row, with any behaviour of provider, tools and
    cancellation file before and after - its log never shows a tool call or handoff that the model
    output right before it did not ask for, a checkpoint outside the grammar or the step budget,
    or an end by an error that the engine had ruled out.
  */
  lemma EveryHistoryIsSafe(cfg: Config, world: World, goal: string, base: Scope, crashes: seq<Crash>)
    requires Standard(cfg) && Coherent(cfg) && InitialScope(cfg) == Ok(base) && cfg.maxSteps >= 1
    ensures Safe(cfg, base, Survivor(cfg, base, Run(cfg, world, goal, base).events, crashes))
  {
    hide Loop, Standard, Coherent, Provenance;
    InitialIsRestored(cfg, base);
    var user := [UserObservation(world, goal)];
    LoopIsSafe(cfg, world, goal, user, base, 0);
    var first := [Event(Created, RunCreated(goal, cfg.providerName))];
    QuietProvenance(cfg, first);
    ProvenanceConcat(cfg, first, Loop(cfg, world, goal, user, base, Created, 0).events);
    SurvivorStaysSafe(cfg, base, Run(cfg, world, goal, base).events, crashes);
  }
}

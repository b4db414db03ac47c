/** What a run that succeeds answers with. */
module RunAnswers {
  import opened Chronicle
  import opened DecisionEngine
  import opened EventLog
  import opened Lifecycle
  import opened RunHistory
  import opened RunProofs
  import opened RunSpec
  import opened Text

  lemma {:induction false} KnownWasSaved(start: Memory, events: seq<Event>)
    ensures var m := Known(start, events);
      m.observations == start.observations
      || exists i :: 0 <= i < |events| && events[i].payload.Checkpoint?
           && events[i].payload.snapshot.observations == m.observations
  {
    if events != [] {
      var front := events[..|events| - 1];
      KnownWasSaved(start, front);
      assert forall i :: 0 <= i < |front| ==> front[i] == events[i];
    }
  }

  lemma {:induction false} CheckpointIsSnapshot(events: seq<Event>, i: nat)
    requires i < |events| && events[i].payload.Checkpoint?
    ensures events[i].payload.snapshot in Snapshots(events)
  {
    if i > 0 {
      CheckpointIsSnapshot(events[1..], i - 1);
    }
  }

  /** Whatever a loop knows at some row is what the grammar of observations allows. */
  lemma KnownIsGrown(
      cfg: Config, world: World, goal: string, observations: seq<Observation>, base: Scope, state: RunState, step: nat,
      i: nat)
    requires Standard(cfg) && Grown(cfg, base, observations)
    requires i <= |Loop(cfg, world, goal, observations, ScopeAfter(cfg, base, observations), state, step).events|
    ensures var scope := ScopeAfter(cfg, base, observations);
      var events := Loop(cfg, world, goal, observations, scope, state, step).events;
      Grown(cfg, base, Known(StartOf(observations, scope, step), events[..i]).observations)
  {
    hide Standard, Loop, Known, Snapshots, ScopeAfter, Cursors, Grown;
    var scope := ScopeAfter(cfg, base, observations);
    var start, events :=
      StartOf(observations, scope, step), Loop(cfg, world, goal, observations, scope, state, step).events;
    KnownWasSaved(start, events[..i]);
    LoopKeepsGrammar(cfg, world, goal, observations, base, state, step);
    CheckpointsAreCursors(cfg, world, goal, observations, scope, state, step);
    var m := Known(start, events[..i]);
    if m.observations != observations {
      var k :| 0 <= k < i && events[..i][k].payload.Checkpoint?
        && events[..i][k].payload.snapshot.observations == m.observations;
      CheckpointIsSnapshot(events, k);
      var cursors := Cursors(cfg, world, goal, observations, scope, state, step);
      var j :| 0 <= j < |cursors| && SnapshotOf(goal, cursors[j]) == events[k].payload.snapshot;
      assert cursors[j] in cursors;
    }
  }

  /** The last observation that the run listed before it ended: the fifth row from the end. */
  predicate AnswersWith(events: seq<Event>, answer: Message, o: Observation) {
    && 5 <= |events| && events[|events| - 5].payload == Observed(o)
    && answer == Said(Strip(if "DONE:" <= o.fact.content then o.fact.content[5..] else o.fact.content))
  }

  /**
    A loop that succeeds answers with what it observed last, without the mark; and it ended because the
    model said it was done, or because this was the last step.
  */
  lemma LoopAnswers(
      cfg: Config, world: World, goal: string, observations: seq<Observation>, base: Scope, state: RunState, step: nat)
    requires Standard(cfg) && Grown(cfg, base, observations)
    ensures var t := Loop(cfg, world, goal, observations, ScopeAfter(cfg, base, observations), state, step);
      t.verdict.state == Succeeded ==>
        exists o :: AnswersWith(t.events, t.verdict.answer, o)
          && ((LLM <= o.fact.source && "DONE:" <= o.fact.content) || t.verdict.steps == cfg.maxSteps)
  {
    hide Loop, Known, Grown, ScopeAfter, Explained, Strip, Decide;
    var scope := ScopeAfter(cfg, base, observations);
    var start, t := StartOf(observations, scope, step), Loop(cfg, world, goal, observations, scope, state, step);
    LoopEndsOnce(cfg, world, goal, observations, scope, state, step);
    if t.verdict.state == Succeeded {
      LoopIsExplained(cfg, world, goal, observations, scope, state, step);
      var m, d := FinishedBy(cfg, world, goal, start, t.events);
      var i := |t.events| - 3;
      KnownIsGrown(cfg, world, goal, observations, base, state, step, i);
      GrownIsFromRun(cfg, base, m.observations);
      assert t.events[i - 2].payload == Observed(m.observations[|m.observations| - 1]);
      WhyFinished(cfg, m, d, world.cancelled(m.step, true));
    }
  }

  /** The decision behind a completed run, and what was known when it was made. */
  lemma FinishedBy(cfg: Config, world: World, goal: string, start: Memory, events: seq<Event>)
      returns (m: Memory, d: Decision)
    requires Explained(cfg, world, goal, start, events) && events != []
    requires events[|events| - 1].payload.RunCompleted?
    ensures |events| >= 3 && m == Known(start, events[..|events| - 3]) && d.action == Finish
    ensures Informed(cfg, world, m, events, |events| - 3, d)
    ensures events[|events| - 1].payload == RunCompleted(d.argument, m.step + 1)
  {
    hide Known, Informed;
    assert RowExplained(cfg, world, goal, start, events, |events| - 1);
    assert RowExplained(cfg, world, goal, start, events, |events| - 3);
    m, d := Known(start, events[..|events| - 3]), events[|events| - 3].payload.decision;
  }

  lemma WhyFinished(cfg: Config, m: Memory, d: Decision, cancelled: bool)
    requires Standard(cfg) && FromRun(m.observations) && m.step < cfg.maxSteps && d.action == Finish
    requires d == cfg.decide(Policy(cfg.maxSteps, m.allowedTools), m.observations, m.step, cancelled)
    ensures var o := m.observations[|m.observations| - 1].fact;
      && d.argument == Said(Strip(if "DONE:" <= o.content then o.content[5..] else o.content))
      && ((LLM <= o.source && "DONE:" <= o.content) || m.step + 1 == cfg.maxSteps)
  {
    hide Decide, Strip, AskedFor;
    var engine, policy := Engine(cfg.providerName, cfg.bots), Policy(cfg.maxSteps, m.allowedTools);
    if cancelled || m.step >= cfg.maxSteps - 1 {
      LastStepAnswers(engine, policy, m.observations, m.step, cancelled);
    } else {
      DecisionIsExact(engine, policy, m.observations, m.step);
    }
  }
}

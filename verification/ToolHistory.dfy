/** How often a run asks for its tools when it is killed and resumed. */
module ToolHistory {
  import opened CrashResume
  import opened DecisionEngine
  import opened EventLog
  import opened Lifecycle
  import opened RunHistory
  import opened RunProofs
  import opened RunSpec
  import opened Text

  // ----- Tool requests in a log -----

  datatype Call = Call(tool: Option<string>, argument: Message)

  /** A tool request row. It is settled when a checkpoint or the outcome follows before a restart does. */
  datatype Attempt = Attempt(call: Call, settled: bool)

  predicate IsCall(e: Event) {
    e.payload.Requested? && e.payload.decision.action == CallTool
  }

  function CallOf(e: Event): Call
    requires IsCall(e)
  {
    Call(e.payload.decision.target, e.payload.decision.argument)
  }

  /** The first row of every invocation: a new state machine leaves `created`. */
  predicate IsRestart(e: Event) {
    e.payload.Transition? && e.payload.from == Created
  }

  predicate Settles(rest: seq<Event>) {
    rest != [] && (IsProgress(rest[0]) || (!IsRestart(rest[0]) && Settles(rest[1..])))
  }

  /** All tool requests of a log, in order. */
  function Attempts(events: seq<Event>): seq<Attempt> {
    if events == [] then [] else
      var rest := Attempts(events[1..]);
      if IsCall(events[0]) then [Attempt(CallOf(events[0]), Settles(events[1..]))] + rest else rest
  }

  /** The calls whose request was settled. */
  function Completed(attempts: seq<Attempt>): seq<Call> {
    if attempts == [] then [] else
      (if attempts[0].settled then [attempts[0].call] else []) + Completed(attempts[1..])
  }

  /**
    What remains of the calls that are due when the attempts were made: each attempt is for the call
    that is due next, and a settled one takes it off the list. `None` when an attempt is for another.
  */
  function Due(attempts: seq<Attempt>, calls: seq<Call>): Option<seq<Call>> {
    if attempts == [] then Some(calls)
    else if calls == [] || attempts[0].call != calls[0] then None
    else Due(attempts[1..], if attempts[0].settled then calls[1..] else calls)
  }

  lemma {:induction false} DueInTwoParts(a: seq<Attempt>, b: seq<Attempt>, calls: seq<Call>)
    ensures Due(a + b, calls) == (if Due(a, calls).Some? then Due(b, Due(a, calls).value) else None)
    decreases |a|
  {
    if a == [] {
      assert a + b == b;
    } else {
      assert (a + b)[1..] == a[1..] + b && (a + b)[0] == a[0];
      if calls != [] && a[0].call == calls[0] {
        DueInTwoParts(a[1..], b, if a[0].settled then calls[1..] else calls);
      }
    }
  }

  /** When nothing is due any more, the settled calls are the list, and an unsettled one is made again. */
  lemma {:induction false} NothingDue(attempts: seq<Attempt>, calls: seq<Call>)
    requires Due(attempts, calls) == Some([])
    ensures Completed(attempts) == calls
    ensures forall i :: 0 <= i < |attempts| && !attempts[i].settled ==>
      i + 1 < |attempts| && attempts[i + 1].call == attempts[i].call
    decreases |attempts|
  {
    if attempts != [] {
      var rest := attempts[1..];
      NothingDue(rest, if attempts[0].settled then calls[1..] else calls);
      forall i | 0 <= i < |attempts| && !attempts[i].settled
        ensures i + 1 < |attempts| && attempts[i + 1].call == attempts[i].call
      {
        if i > 0 {
          assert rest[i - 1] == attempts[i];
        } else {
          assert rest != [] && rest[0].call == calls[0];
        }
      }
    }
  }

  // ----- Taking logs apart -----

  predicate EndsInProgress(events: seq<Event>) {
    events != [] && IsProgress(events[|events| - 1])
  }

  predicate StartsAfresh(events: seq<Event>) {
    events == [] || IsRestart(events[0])
  }

  lemma {:induction false} SettlesAlone(a: seq<Event>, b: seq<Event>)
    requires StartsAfresh(b) || EndsInProgress(a)
    ensures Settles(a + b) == Settles(a)
    decreases |a|
  {
    if a == [] {
      assert a + b == b;
    } else {
      assert (a + b)[1..] == a[1..] + b;
      if !IsProgress(a[0]) {
        SettlesAlone(a[1..], b);
      }
    }
  }

  lemma {:induction false} AttemptsInTwoParts(a: seq<Event>, b: seq<Event>)
    requires StartsAfresh(b) || EndsInProgress(a)
    ensures Attempts(a + b) == Attempts(a) + Attempts(b)
    decreases |a|
  {
    hide Settles, IsProgress, Attempts;
    NoAttempts();
    if a == [] {
      assert a + b == b;
    } else {
      assert a == [a[0]] + a[1..] && a + b == [a[0]] + (a[1..] + b);
      FirstAttempt(a[0], a[1..]);
      FirstAttempt(a[0], a[1..] + b);
      if |a| == 1 {
        assert a[1..] + b == b;
        LastCallIsOpen(a, b);
      } else {
        assert EndsInProgress(a) ==> EndsInProgress(a[1..]);
        SettlesAlone(a[1..], b);
        AttemptsInTwoParts(a[1..], b);
      }
    }
  }

  lemma NoAttempts()
    ensures Attempts([]) == []
  {}

  /** What a row contributes to the attempts, given the rows after it. */
  function Head(e: Event, rest: seq<Event>): seq<Attempt> {
    if IsCall(e) then [Attempt(CallOf(e), Settles(rest))] else []
  }

  lemma {:induction false} FirstAttempt(e: Event, rest: seq<Event>)
    ensures Attempts([e] + rest) == Head(e, rest) + Attempts(rest)
  {
    hide Settles;
    assert ([e] + rest)[1..] == rest;
  }

  lemma LastCallIsOpen(a: seq<Event>, b: seq<Event>)
    requires |a| == 1 && (StartsAfresh(b) || EndsInProgress(a))
    ensures a[1..] == [] && (IsCall(a[0]) ==> Settles(b) == Settles([]))
  {}

  lemma {:induction false} NoCalls(a: seq<Event>, b: seq<Event>)
    requires forall e :: e in a ==> !IsCall(e)
    ensures Attempts(a + b) == Attempts(b)
    decreases |a|
  {
    hide Settles;
    if a == [] {
      assert a + b == b;
    } else {
      assert (a + b)[1..] == a[1..] + b && (a + b)[0] == a[0];
      NoCalls(a[1..], b);
    }
  }

  lemma {:induction false} Unsettled(events: seq<Event>)
    requires forall e :: e in events ==> !IsProgress(e)
    ensures !Settles(events)
  {
    if events != [] {
      Unsettled(events[1..]);
    }
  }

  /** Cut before its progress row, a stretch with one request at most shows that request unsettled or not at all. */
  lemma {:induction false} CutStretch(events: seq<Event>, k: nat)
    requires k <= |events| && |Attempts(events)| <= 1
    requires forall e :: e in events[..k] ==> !IsProgress(e)
    ensures Attempts(events[..k]) == []
      || (|Attempts(events)| == 1 && Attempts(events[..k]) == [Attempt(Attempts(events)[0].call, false)])
    decreases k
  {
    hide IsProgress, Settles;
    if k > 0 {
      var cut, rest := events[..k], events[1..];
      assert cut[1..] == rest[..k - 1] && cut[0] == events[0];
      assert forall e :: e in rest[..k - 1] ==> e in cut;
      CutStretch(rest, k - 1);
      Unsettled(rest[..k - 1]);
    }
  }

  // ----- What a log was waiting for -----

  lemma {:induction false} OutcomeInTwoParts(a: seq<Event>, b: seq<Event>)
    ensures RecordedOutcome(a + b) == if RecordedOutcome(b).Some? then RecordedOutcome(b) else RecordedOutcome(a)
    ensures LatestCheckpoint(a + b) == if LatestCheckpoint(b).Some? then LatestCheckpoint(b) else LatestCheckpoint(a)
    decreases |b|
  {
    if b == [] {
      assert a + b == a;
    } else {
      assert (a + b)[..|a + b| - 1] == a + b[..|b| - 1];
      OutcomeInTwoParts(a, b[..|b| - 1]);
    }
  }

  lemma {:induction false} NoOutcome(events: seq<Event>)
    requires forall e :: e in events ==> !IsProgress(e)
    ensures RecordedOutcome(events).None? && LatestCheckpoint(events).None?
  {
    if events != [] {
      assert events[|events| - 1] in events;
      NoOutcome(events[..|events| - 1]);
    }
  }

  /** The service as a world of its own, with one id for everything. */
  function WorldOf(svc: Service): World {
    World(
      (step: nat, goal: string, observations: seq<Observation>, visible: seq<string>) =>
        svc.complete(goal, Facts(observations), visible),
      (step: nat, tool: string, text: string) => svc.execute(tool, text),
      (step: nat, second: bool) => false,
      (n: nat) => "id")
  }

  lemma WorldServes(svc: Service)
    ensures Serves(WorldOf(svc), svc)
  {}

  /** The tool that one iteration asks for, if any. */
  function StepCalls(cfg: Config, world: World, observations: seq<Observation>, scope: Scope, step: nat): (r: seq<Call>)
    ensures |r| <= 1
  {
    var d := DecisionAt(cfg, world, observations, scope, step);
    if !world.cancelled(step, false) && d.action == CallTool then [Call(d.target, d.argument)] else []
  }

  /** The tools that a loop asks for when nothing interrupts it. */
  function LoopCalls(
      cfg: Config, world: World, goal: string, observations: seq<Observation>, scope: Scope, step: nat): seq<Call>
    decreases cfg.maxSteps - step
  {
    if step >= cfg.maxSteps then [] else
      var done := Step(cfg, world, goal, observations, scope, Created, step);
      StepCalls(cfg, world, observations, scope, step) +
      if done.Over? then [] else
        LoopCalls(cfg, world, goal, observations + [done.observation], done.scope, step + 1)
  }

  /** The calls still to be made by whoever goes on from a checkpoint. */
  function CallsFrom(cfg: Config, svc: Service, base: Scope, s: Snapshot): seq<Call> {
    var restored := RestoredScope(cfg, base, s.activeBot);
    if restored.Err? then [] else
      LoopCalls(cfg, WorldOf(svc), s.goal, s.observations, restored.value, StartStep(s.step))
  }

  /** The calls that are due after `events`, if `calls` were due before. */
  function Remaining(cfg: Config, svc: Service, base: Scope, calls: seq<Call>, events: seq<Event>): seq<Call> {
    if RecordedOutcome(events).Some? then []
    else if LatestCheckpoint(events).Some? then CallsFrom(cfg, svc, base, LatestCheckpoint(events).value)
    else calls
  }

  /** The attempts in the log have brought the list of calls to where its latest row that can be resumed says it is. */
  ghost predicate OnSchedule(cfg: Config, svc: Service, base: Scope, calls: seq<Call>, events: seq<Event>) {
    Due(Attempts(events), calls) == Some(Remaining(cfg, svc, base, calls, events))
  }

  lemma {:induction false} LoopCallsIgnoreIds(
      cfg: Config, svc: Service, w: World, v: World, goal: string, a: seq<Observation>, b: seq<Observation>,
      scope: Scope, step: nat)
    requires Standard(cfg) && Serves(w, svc) && Serves(v, svc)
    requires a != [] && Facts(a) == Facts(b)
    ensures LoopCalls(cfg, w, goal, a, scope, step) == LoopCalls(cfg, v, goal, b, scope, step)
    decreases cfg.maxSteps - step
  {
    hide Step, Standard, DecisionAt;
    if step < cfg.maxSteps {
      ChoiceIgnoresIds(cfg, svc, w, v, a, b, scope, step);
      StepIgnoresIds(cfg, svc, w, v, goal, a, b, scope, Created, Created, step);
      var x, y := Step(cfg, w, goal, a, scope, Created, step), Step(cfg, v, goal, b, scope, Created, step);
      if x.Next? {
        FactsSnoc(a, x.observation);
        FactsSnoc(b, y.observation);
        LoopCallsIgnoreIds(cfg, svc, w, v, goal, a + [x.observation], b + [y.observation], x.scope, step + 1);
      }
    }
  }

  // ----- One iteration -----

  function Done(calls: seq<Call>): seq<Attempt> {
    seq(|calls|, i requires 0 <= i < |calls| => Attempt(calls[i], true))
  }

  /** An iteration asks for one tool at most and ends in its only progress row. */
  lemma StepAttempts(
      cfg: Config, world: World, goal: string, observations: seq<Observation>, scope: Scope, state: RunState, step: nat)
    ensures var events := Step(cfg, world, goal, observations, scope, state, step).events;
      && Attempts(events) == Done(StepCalls(cfg, world, observations, scope, step))
      && EndsInProgress(events)
      && (forall e :: e in events[..|events| - 1] ==> !IsProgress(e))
  {
    hide DecisionAt, Perform, Conclude, Opening, Attempts, IsProgress, Ending, IsCall;
    if world.cancelled(step, false) {
      EndingIsShort(state, Cancelled, RunCancelled(CancellationRequested, step));
      QuietEnding(state, Cancelled, RunCancelled(CancellationRequested, step));
    } else {
      var d := DecisionAt(cfg, world, observations, scope, step);
      var opening := Opening(state, observations, d);
      OpeningIsQuiet(state, observations, d);
      var more := if d.action in {Finish, Cancel, Fail} then Conclude(d, step).events
                  else Perform(cfg, world, goal, observations, scope, step, d).events;
      if d.action in {Finish, Cancel, Fail} {
        ConcludeAttempts(d, step);
      } else {
        PerformAttempts(cfg, world, goal, observations, scope, step, d);
      }
      NoCalls(opening, more);
      assert (opening + more)[..|opening + more| - 1] == opening + more[..|more| - 1];
    }
  }

  lemma EndingIsShort(from: RunState, to: RunState, payload: Payload)
    ensures |Ending(from, to, payload)| == 2
  {}

  lemma OpeningIsQuiet(state: RunState, observations: seq<Observation>, d: Decision)
    ensures forall e :: e in Opening(state, observations, d) ==> !IsCall(e) && !IsProgress(e)
  {}

  lemma QuietEnding(from: RunState, to: RunState, payload: Payload)
    requires TerminalVerdict(payload).Some?
    ensures var ending := Ending(from, to, payload);
      Attempts(ending) == [] && EndsInProgress(ending) && forall e :: e in ending[..1] ==> !IsProgress(e)
  {
    var ending := Ending(from, to, payload);
    assert ending[1..] == [ending[1]] && ending[1..][1..] == [];
    assert Attempts([ending[1]]) == Attempts(ending[1..][1..]) == [];
    assert ending[..1] == [ending[0]];
  }

  lemma ConcludeAttempts(d: Decision, step: nat)
    requires d.action in {Finish, Cancel, Fail}
    ensures var more := Conclude(d, step).events;
      Attempts(more) == [] && EndsInProgress(more) && forall e :: e in more[..|more| - 1] ==> !IsProgress(e)
  {
    match d.action
    case Finish => QuietEnding(Deciding, Succeeded, RunCompleted(d.argument, step + 1));
    case Cancel => QuietEnding(Deciding, Cancelled, RunCancelled(d.argument, step + 1));
    case Fail => QuietEnding(Deciding, Failed, RunFailed(d.argument, step + 1));
  }

  lemma PerformAttempts(
      cfg: Config, world: World, goal: string, observations: seq<Observation>, scope: Scope, step: nat, d: Decision)
    requires d.action !in {Finish, Cancel, Fail}
    ensures var more := Perform(cfg, world, goal, observations, scope, step, d).events;
      && Attempts(more) == (if d.action == CallTool then [Attempt(Call(d.target, d.argument), true)] else [])
      && EndsInProgress(more) && forall e :: e in more[..|more| - 1] ==> !IsProgress(e)
  {
    var effect := EffectOf(cfg, world, goal, observations, scope, step, d);
    var tail := Perform(cfg, world, goal, observations, scope, step, d).events[1 + |effect.events|..];
    EffectShape(cfg, world, goal, observations, scope, step, d);
    assert Perform(cfg, world, goal, observations, scope, step, d).events
        == [Event(Acting, Transition(Deciding, Acting))] + effect.events + tail;
    ShapeAttempts(effect.events, tail, d);
  }

  /** What an effect logs: at most the request and the result of it. */
  predicate EffectOfDecision(events: seq<Event>, d: Decision) {
    && (forall e :: e in events ==> !IsProgress(e) && !IsRestart(e))
    && (d.action == CallTool ==> events != [] && events[0].payload == Requested(d))
    && (d.action != CallTool ==> forall e :: e in events ==> !IsCall(e))
    && (events != [] ==> forall e :: e in events[1..] ==> !IsCall(e))
  }

  predicate Tail(events: seq<Event>) {
    && 1 <= |events| <= 2
    && IsProgress(events[|events| - 1])
    && (|events| == 2 ==> !IsProgress(events[0]) && !IsCall(events[0]) && !IsRestart(events[0]))
  }

  lemma EffectShape(
      cfg: Config, world: World, goal: string, observations: seq<Observation>, scope: Scope, step: nat, d: Decision)
    requires d.action !in {Finish, Cancel, Fail}
    ensures var effect := EffectOf(cfg, world, goal, observations, scope, step, d);
      var events := Perform(cfg, world, goal, observations, scope, step, d).events;
      && EffectOfDecision(effect.events, d)
      && |events| > |effect.events| && events[..1 + |effect.events|]
           == [Event(Acting, Transition(Deciding, Acting))] + effect.events
      && Tail(events[1 + |effect.events|..])
  {
    hide EffectOf, EffectOfDecision, Tail;
    var effect := EffectOf(cfg, world, goal, observations, scope, step, d);
    EffectIsSmall(cfg, world, goal, observations, scope, step, d);
    var events := Perform(cfg, world, goal, observations, scope, step, d).events;
    if effect.outcome.Err? {
      FailingTail(effect.outcome.error, cfg.maxSteps);
      assert events[1 + |effect.events|..] == Ending(Acting, Failed, RunFailed(effect.outcome.error, cfg.maxSteps));
    } else {
      CheckpointTail(events[|events| - 1]);
      assert events[1 + |effect.events|..] == [events[|events| - 1]];
    }
  }

  lemma EffectIsSmall(
      cfg: Config, world: World, goal: string, observations: seq<Observation>, scope: Scope, step: nat, d: Decision)
    requires d.action !in {Finish, Cancel, Fail}
    ensures EffectOfDecision(EffectOf(cfg, world, goal, observations, scope, step, d).events, d)
  {}

  lemma FailingTail(error: Message, steps: int)
    ensures Tail(Ending(Acting, Failed, RunFailed(error, steps)))
  {}

  lemma CheckpointTail(e: Event)
    requires e.payload.Checkpoint?
    ensures Tail([e])
  {}

  lemma ShapeAttempts(effect: seq<Event>, tail: seq<Event>, d: Decision)
    requires EffectOfDecision(effect, d) && Tail(tail)
    ensures var more := [Event(Acting, Transition(Deciding, Acting))] + effect + tail;
      && Attempts(more) == (if d.action == CallTool then [Attempt(Call(d.target, d.argument), true)] else [])
      && EndsInProgress(more) && forall e :: e in more[..|more| - 1] ==> !IsProgress(e)
  {
    hide Attempts, Settles, IsProgress, IsRestart;
    var move := [Event(Acting, Transition(Deciding, Acting))];
    var more := move + effect + tail;
    assert more == move + (effect + tail);
    MoveIsQuiet();
    NoCalls(move, effect + tail);
    TailAttempts(tail);
    EffectAttempts(effect, tail, d);
    assert more[..|more| - 1] == move + effect + tail[..|tail| - 1];
  }

  lemma EffectAttempts(effect: seq<Event>, tail: seq<Event>, d: Decision)
    requires EffectOfDecision(effect, d) && Attempts(tail) == [] && Settles(tail)
    ensures Attempts(effect + tail)
      == if d.action == CallTool then [Attempt(Call(d.target, d.argument), true)] else []
  {
    hide Attempts, Settles, IsProgress, IsRestart;
    if d.action == CallTool {
      var rest := effect[1..];
      assert effect + tail == [effect[0]] + (rest + tail);
      FirstAttempt(effect[0], rest + tail);
      assert forall e :: e in rest ==> e in effect;
      NoCalls(rest, tail);
      SettledByTail(rest, tail);
    } else {
      NoCalls(effect, tail);
    }
  }

  lemma MoveIsQuiet()
    ensures var move := Event(Acting, Transition(Deciding, Acting));
      !IsCall(move) && !IsProgress(move) && !IsRestart(move)
  {}

  lemma {:induction false} SettledByTail(quiet: seq<Event>, tail: seq<Event>)
    requires forall e :: e in quiet ==> !IsProgress(e) && !IsRestart(e)
    ensures Settles(quiet + tail) == Settles(tail)
  {
    hide IsProgress, IsRestart;
    if quiet == [] {
      assert quiet + tail == tail;
    } else {
      assert (quiet + tail)[1..] == quiet[1..] + tail && (quiet + tail)[0] == quiet[0];
      SettledByTail(quiet[1..], tail);
    }
  }

  lemma TailAttempts(tail: seq<Event>)
    requires Tail(tail)
    ensures Attempts(tail) == [] && Settles(tail)
    ensures forall e :: e in tail[..|tail| - 1] ==> !IsProgress(e)
  {
    if |tail| == 2 {
      assert tail[1..] == [tail[1]] && tail[1..][1..] == [];
    } else {
      assert tail == [tail[0]] && tail[1..] == [];
    }
  }

  // ----- Whole logs -----

  lemma LoopStartsAfresh(
      cfg: Config, world: World, goal: string, observations: seq<Observation>, scope: Scope, step: nat)
    ensures StartsAfresh(Loop(cfg, world, goal, observations, scope, Created, step).events)
  {
    hide DecisionAt, Perform, Conclude;
    if step < cfg.maxSteps {
      var done := Step(cfg, world, goal, observations, scope, Created, step);
      StepAttempts(cfg, world, goal, observations, scope, Created, step);
      assert IsRestart(done.events[0]);
    }
  }

  /** Every cut of an undisturbed loop is on schedule. */
  lemma {:induction false} LoopOnSchedule(
      cfg: Config, svc: Service, world: World, goal: string, observations: seq<Observation>, base: Scope, scope: Scope,
      state: RunState, step: nat, k: nat)
    requires Standard(cfg) && Coherent(cfg) && Serves(world, svc)
    requires observations != [] && RestoredScope(cfg, base, scope.activeBot) == Ok(scope)
    requires k <= |Loop(cfg, world, goal, observations, scope, state, step).events|
    ensures OnSchedule(
      cfg, svc, base, LoopCalls(cfg, world, goal, observations, scope, step),
      Loop(cfg, world, goal, observations, scope, state, step).events[..k])
    decreases cfg.maxSteps - step
  {
    hide Step, Standard, Coherent, Serves, RestoredScope, StepCalls, Due, Remaining, Attempts;
    var events := Loop(cfg, world, goal, observations, scope, state, step).events;
    var calls := LoopCalls(cfg, world, goal, observations, scope, step);
    if step >= cfg.maxSteps {
      QuietEnding(state, Failed, RunFailed(StepBudgetExhausted, cfg.maxSteps));
      NothingRemains(cfg, svc, base, calls, events);
      StretchOnSchedule(cfg, svc, base, calls, events, [], [], k);
    } else {
      var done := Step(cfg, world, goal, observations, scope, state, step);
      StepAttempts(cfg, world, goal, observations, scope, state, step);
      StepIsTheSame(cfg, world, goal, observations, scope, state, step);
      var here := StepCalls(cfg, world, observations, scope, step);
      if done.Over? {
        assert calls == here + [];
        StepEndsOnce(cfg, world, goal, observations, scope, state, step);
        NothingRemains(cfg, svc, base, calls, events);
        StretchOnSchedule(cfg, svc, base, calls, events, here, [], k);
      } else {
        var observations' := observations + [done.observation];
        var rest := Loop(cfg, world, goal, observations', done.scope, Acting, step + 1).events;
        var more := LoopCalls(cfg, world, goal, observations', done.scope, step + 1);
        assert calls == here + more;
        StepRestorable(cfg, world, goal, observations, base, scope, state, step);
        StepSnapshot(cfg, svc, world, goal, observations, base, scope, state, step);
        if k <= |done.events| {
          assert events[..k] == done.events[..k];
          StretchOnSchedule(cfg, svc, base, calls, done.events, here, more, k);
        } else {
          assert events[..k] == done.events + rest[..k - |done.events|];
          LoopOnSchedule(
            cfg, svc, world, goal, observations', base, done.scope, Acting, step + 1, k - |done.events|);
          StretchOnSchedule(cfg, svc, base, calls, done.events, here, more, |done.events|);
          assert done.events[..|done.events|] == done.events;
          ThenOnSchedule(cfg, svc, base, calls, done.events, more, rest[..k - |done.events|]);
        }
      }
    }
  }

  /** A stretch that ends in its only progress row, cut anywhere. */
  lemma StretchOnSchedule(
      cfg: Config, svc: Service, base: Scope, calls: seq<Call>, events: seq<Event>, here: seq<Call>, more: seq<Call>,
      k: nat)
    requires calls == here + more && |here| <= 1 && Attempts(events) == Done(here)
    requires EndsInProgress(events) && forall e :: e in events[..|events| - 1] ==> !IsProgress(e)
    requires k <= |events| && Remaining(cfg, svc, base, calls, events) == more
    ensures OnSchedule(cfg, svc, base, calls, events[..k])
  {
    hide IsProgress, RecordedOutcome, LatestCheckpoint, CallsFrom, Attempts, Due, Remaining;
    if k < |events| {
      assert forall e :: e in events[..k] ==> e in events[..|events| - 1];
      CutStretch(events, k);
      NoOutcome(events[..k]);
      assert Remaining(cfg, svc, base, calls, events[..k]) == calls by { NotYet(cfg, svc, base, calls, events[..k]); }
    } else {
      assert events[..k] == events;
    }
    FirstDue(here, more);
  }

  lemma NotYet(cfg: Config, svc: Service, base: Scope, calls: seq<Call>, events: seq<Event>)
    requires RecordedOutcome(events).None? && LatestCheckpoint(events).None?
    ensures Remaining(cfg, svc, base, calls, events) == calls
  {}

  /** One call at most: settled it is taken off the list, unsettled or not made it stays due. */
  lemma FirstDue(here: seq<Call>, more: seq<Call>)
    requires |here| <= 1
    ensures Due(Done(here), here + more) == Some(more) && Due([], here + more) == Some(here + more)
    ensures here != [] ==> Due([Attempt(here[0], false)], here + more) == Some(here + more)
  {
    if here != [] {
      assert (here + more)[1..] == more;
      assert Done(here) == [Attempt(here[0], true)] && Done(here)[1..] == [];
      assert [Attempt(here[0], false)][1..] == [];
    } else {
      assert here + more == more;
    }
  }

  lemma NothingRemains(cfg: Config, svc: Service, base: Scope, calls: seq<Call>, events: seq<Event>)
    requires events != [] && TerminalVerdict(events[|events| - 1].payload).Some?
    ensures Remaining(cfg, svc, base, calls, events) == []
  {}

  /** Two stretches on schedule, the first of which settles all its requests or the second of which starts afresh. */
  lemma ThenOnSchedule(
      cfg: Config, svc: Service, base: Scope, calls: seq<Call>, a: seq<Event>, due: seq<Call>, b: seq<Event>)
    requires StartsAfresh(b) || EndsInProgress(a)
    requires OnSchedule(cfg, svc, base, calls, a) && OnSchedule(cfg, svc, base, due, b)
    requires Remaining(cfg, svc, base, calls, a) == due && RecordedOutcome(a).None?
    ensures OnSchedule(cfg, svc, base, calls, a + b)
  {
    hide RecordedOutcome, LatestCheckpoint, CallsFrom, Attempts, Due, StartsAfresh, EndsInProgress;
    AttemptsInTwoParts(a, b);
    DueInTwoParts(Attempts(a), Attempts(b), calls);
    OutcomeInTwoParts(a, b);
  }

  /** The verdict of an iteration and the calls do not depend on the state it starts from. */
  lemma StepIsTheSame(
      cfg: Config, world: World, goal: string, observations: seq<Observation>, scope: Scope,
      state: RunState, step: nat)
    ensures var x := Step(cfg, world, goal, observations, scope, state, step);
      var y := Step(cfg, world, goal, observations, scope, Created, step);
      && (x.Next? <==> y.Next?)
      && (x.Next? ==> x.observation == y.observation && x.scope == y.scope)
  {
    hide DecisionAt, Perform, Conclude;
  }

  /** What the progress row of an iteration leaves to be done. */
  lemma StepSnapshot(
      cfg: Config, svc: Service, world: World, goal: string, observations: seq<Observation>, base: Scope, scope: Scope,
      state: RunState, step: nat)
    requires Standard(cfg) && Coherent(cfg) && Serves(world, svc)
    requires observations != [] && RestoredScope(cfg, base, scope.activeBot) == Ok(scope)
    ensures var done := Step(cfg, world, goal, observations, scope, state, step);
      done.Next? ==>
        && RecordedOutcome(done.events).None?
        && LatestCheckpoint(done.events)
             == Some(Snapshot(goal, step + 1, Acting, observations + [done.observation], done.scope.activeBot))
        && forall calls :: Remaining(cfg, svc, base, calls, done.events)
             == LoopCalls(cfg, world, goal, observations + [done.observation], done.scope, step + 1)
  {
    hide DecisionAt, Standard, Coherent, Serves, RestoredScope, LoopCalls, Step, RecordedOutcome, LatestCheckpoint;
    var done := Step(cfg, world, goal, observations, scope, state, step);
    if done.Next? {
      StepCheckpoints(cfg, world, goal, observations, scope, state, step);
      LatestIsLastSnapshot(done.events);
      StepEndsOnce(cfg, world, goal, observations, scope, state, step);
      RecordedIsTerminal(done.events);
      StepRestorable(cfg, world, goal, observations, base, scope, state, step);
      WorldServes(svc);
      LoopCallsIgnoreIds(
        cfg, svc, WorldOf(svc), world, goal, observations + [done.observation], observations + [done.observation],
        done.scope, step + 1);
    }
  }

  // ----- At most one request between two rows that can be resumed -----

  /** A request comes before any progress or restart does. */
  predicate Busy(events: seq<Event>) {
    && events != [] && !IsProgress(events[0]) && !IsRestart(events[0])
    && (IsCall(events[0]) || Busy(events[1..]))
  }

  predicate Sparse(events: seq<Event>) {
    events == [] || ((IsCall(events[0]) ==> !Busy(events[1..])) && Sparse(events[1..]))
  }

  lemma {:induction false} BusyAlone(a: seq<Event>, b: seq<Event>)
    requires StartsAfresh(b) || EndsInProgress(a)
    ensures Busy(a + b) == Busy(a)
    decreases |a|
  {
    if a == [] {
      assert a + b == b;
    } else {
      assert (a + b)[1..] == a[1..] + b && (a + b)[0] == a[0];
      if !IsProgress(a[0]) {
        BusyAlone(a[1..], b);
      }
    }
  }

  lemma {:induction false} SparseInTwoParts(a: seq<Event>, b: seq<Event>)
    requires Sparse(a) && Sparse(b) && (StartsAfresh(b) || EndsInProgress(a))
    ensures Sparse(a + b)
    decreases |a|
  {
    hide IsProgress;
    if a == [] {
      assert a + b == b;
    } else {
      assert (a + b)[1..] == a[1..] + b && (a + b)[0] == a[0];
      if |a| == 1 {
        assert a[1..] + b == b;
        if IsCall(a[0]) {
          NotBusyAfresh(a, b);
        }
      } else {
        assert EndsInProgress(a) ==> EndsInProgress(a[1..]);
        BusyAlone(a[1..], b);
        SparseInTwoParts(a[1..], b);
      }
    }
  }

  lemma NotBusyAfresh(a: seq<Event>, b: seq<Event>)
    requires |a| == 1 && IsCall(a[0]) && (StartsAfresh(b) || EndsInProgress(a))
    ensures !Busy(b)
  {}

  lemma {:induction false} FewAreSparse(events: seq<Event>)
    requires |Attempts(events)| <= 1
    ensures Sparse(events) && (Attempts(events) == [] ==> !Busy(events))
  {
    hide Settles, IsProgress;
    if events != [] {
      FewAreSparse(events[1..]);
    }
  }

  lemma {:induction false} CutIsSparse(events: seq<Event>, k: nat)
    requires k <= |events|
    ensures Sparse(events) ==> Sparse(events[..k])
    ensures Busy(events[..k]) ==> Busy(events)
    decreases k
  {
    hide IsProgress;
    if k > 0 {
      assert events[..k][1..] == events[1..][..k - 1];
      CutIsSparse(events[1..], k - 1);
    }
  }

  function Torn(attempts: seq<Attempt>): nat {
    if attempts == [] then 0 else (if attempts[0].settled then 0 else 1) + Torn(attempts[1..])
  }

  lemma {:induction false} TornInTwoParts(a: seq<Attempt>, b: seq<Attempt>)
    ensures Torn(a + b) == Torn(a) + Torn(b)
    decreases |a|
  {
    if a == [] {
      assert a + b == b;
    } else {
      assert (a + b)[1..] == a[1..] + b && (a + b)[0] == a[0];
      TornInTwoParts(a[1..], b);
    }
  }

  lemma {:induction false} AttemptsAreCompletedOrTorn(attempts: seq<Attempt>)
    ensures |attempts| == |Completed(attempts)| + Torn(attempts)
  {
    if attempts != [] {
      AttemptsAreCompletedOrTorn(attempts[1..]);
    }
  }

  lemma {:induction false} CutBeforeProgress(events: seq<Event>, k: nat)
    requires k <= |events| && Settles(events) && !Settles(events[..k]) && !Busy(events)
    ensures Attempts(events[..k]) == []
    decreases k
  {
    hide IsProgress;
    if k > 0 {
      assert events[..k][1..] == events[1..][..k - 1] && events[..k][0] == events[0];
      CutBeforeProgress(events[1..], k - 1);
    }
  }

  lemma {:induction false} CutSettlesLess(events: seq<Event>, k: nat)
    requires k <= |events|
    ensures Settles(events[..k]) ==> Settles(events)
    decreases k
  {
    hide IsProgress;
    if k > 0 {
      assert events[..k][1..] == events[1..][..k - 1] && events[..k][0] == events[0];
      CutSettlesLess(events[1..], k - 1);
    }
  }

  /** One cut leaves at most one more request unsettled. */
  lemma {:induction false} CutTearsOne(events: seq<Event>, k: nat)
    requires k <= |events| && Sparse(events)
    ensures Torn(Attempts(events[..k])) <= Torn(Attempts(events)) + 1
    decreases k
  {
    hide Settles, Busy, IsProgress;
    if k > 0 {
      var cut, rest := events[..k], events[1..];
      assert cut[1..] == rest[..k - 1] && cut[0] == events[0];
      CutTearsOne(rest, k - 1);
      if IsCall(events[0]) {
        CutSettlesLess(rest, k - 1);
        TornFirst(CallOf(events[0]), Settles(rest), Attempts(rest));
        TornFirst(CallOf(events[0]), Settles(rest[..k - 1]), Attempts(rest[..k - 1]));
        if Settles(rest) && !Settles(rest[..k - 1]) {
          CutBeforeProgress(rest, k - 1);
        }
      }
    }
  }

  lemma TornFirst(call: Call, settled: bool, rest: seq<Attempt>)
    ensures Torn([Attempt(call, settled)] + rest) == (if settled then 0 else 1) + Torn(rest)
  {
    assert ([Attempt(call, settled)] + rest)[1..] == rest;
  }

  // ----- Runs, resumptions and histories -----

  lemma DoneInTwoParts(a: seq<Call>, b: seq<Call>)
    ensures Done(a + b) == Done(a) + Done(b)
  {}

  lemma {:induction false} DoneIsCompleted(calls: seq<Call>)
    ensures Completed(Done(calls)) == calls && Torn(Done(calls)) == 0
    decreases |calls|
  {
    if calls != [] {
      assert Done(calls)[1..] == Done(calls[1..]);
      DoneIsCompleted(calls[1..]);
    }
  }

  /** A loop that nothing interrupts settles every request. */
  lemma {:induction false} LoopSettles(
      cfg: Config, world: World, goal: string, observations: seq<Observation>, scope: Scope,
      state: RunState, step: nat)
    ensures var events := Loop(cfg, world, goal, observations, scope, state, step).events;
      Attempts(events) == Done(LoopCalls(cfg, world, goal, observations, scope, step)) && Sparse(events)
    decreases cfg.maxSteps - step
  {
    hide Step, StepCalls, Attempts, Sparse, Done;
    if step >= cfg.maxSteps {
      QuietEnding(state, Failed, RunFailed(StepBudgetExhausted, cfg.maxSteps));
      FewAreSparse(Ending(state, Failed, RunFailed(StepBudgetExhausted, cfg.maxSteps)));
      assert Done([]) == [] by { DoneInTwoParts([], []); NothingDone(); }
    } else {
      var done := Step(cfg, world, goal, observations, scope, state, step);
      var here := StepCalls(cfg, world, observations, scope, step);
      StepAttempts(cfg, world, goal, observations, scope, state, step);
      StepIsTheSame(cfg, world, goal, observations, scope, state, step);
      assert |Done(here)| <= 1 by { NothingDone(); }
      FewAreSparse(done.events);
      if done.Over? {
        assert here + [] == here;
      } else {
        var observations' := observations + [done.observation];
        var rest := Loop(cfg, world, goal, observations', done.scope, Acting, step + 1).events;
        LoopSettles(cfg, world, goal, observations', done.scope, Acting, step + 1);
        AttemptsInTwoParts(done.events, rest);
        SparseInTwoParts(done.events, rest);
        DoneInTwoParts(here, LoopCalls(cfg, world, goal, observations', done.scope, step + 1));
      }
    }
  }

  lemma NothingDone()
    ensures Done([]) == [] && forall calls :: |Done(calls)| == |calls|
  {}

  /** Every cut of the log is on schedule, and the requests in it lie apart. */
  ghost predicate Steady(cfg: Config, svc: Service, base: Scope, calls: seq<Call>, events: seq<Event>) {
    && Sparse(events)
    && forall k :: 0 <= k <= |events| ==> OnSchedule(cfg, svc, base, calls, events[..k])
  }

  /** The calls of an uninterrupted run. */
  function RunCalls(cfg: Config, world: World, goal: string, base: Scope): seq<Call> {
    LoopCalls(cfg, world, goal, [UserObservation(world, goal)], base, 0)
  }

  lemma RunIsSteady(cfg: Config, svc: Service, world: World, goal: string, base: Scope)
    requires Standard(cfg) && Coherent(cfg) && Serves(world, svc) && InitialScope(cfg) == Ok(base)
    ensures var t := Run(cfg, world, goal, base);
      && Steady(cfg, svc, base, RunCalls(cfg, world, goal, base), t.events)
      && Attempts(t.events) == Done(RunCalls(cfg, world, goal, base))
  {
    hide Loop, Standard, Coherent, Serves, LoopCalls, Attempts, Sparse, OnSchedule;
    var calls := RunCalls(cfg, world, goal, base);
    var user := [UserObservation(world, goal)];
    var created := [Event(Created, RunCreated(goal, cfg.providerName))];
    var rest := Loop(cfg, world, goal, user, base, Created, 0).events;
    InitialIsRestored(cfg, base);
    LoopSettles(cfg, world, goal, user, base, Created, 0);
    CreationIsQuiet(cfg, svc, base, calls, goal, rest);
    forall k | 0 <= k <= |created + rest| ensures OnSchedule(cfg, svc, base, calls, (created + rest)[..k]) {
      if k == 0 {
        assert (created + rest)[..0] == [];
        NothingHappened(cfg, svc, base, calls);
      } else {
        assert (created + rest)[..k] == created + rest[..k - 1];
        LoopOnSchedule(cfg, svc, world, goal, user, base, base, Created, 0, k - 1);
        CreationIsQuiet(cfg, svc, base, calls, goal, rest[..k - 1]);
      }
    }
  }

  lemma NothingHappened(cfg: Config, svc: Service, base: Scope, calls: seq<Call>)
    ensures OnSchedule(cfg, svc, base, calls, [])
  {}

  lemma CreationIsQuiet(cfg: Config, svc: Service, base: Scope, calls: seq<Call>, goal: string, rest: seq<Event>)
    ensures var events := [Event(Created, RunCreated(goal, cfg.providerName))] + rest;
      && Attempts(events) == Attempts(rest)
      && (Sparse(rest) ==> Sparse(events))
      && (OnSchedule(cfg, svc, base, calls, rest) ==> OnSchedule(cfg, svc, base, calls, events))
  {
    hide CallsFrom, Due;
    var created := [Event(Created, RunCreated(goal, cfg.providerName))];
    assert (created + rest)[1..] == rest;
    NoCalls(created, rest);
    OutcomeInTwoParts(created, rest);
    assert created[..0] == [];
  }

  /** A steady log that is picked up again stays steady, and no request made from then on is torn. */
  lemma ResumedIsSteady(
      cfg: Config, svc: Service, world: World, goal: string, base: Scope, verdict: Verdict, calls: seq<Call>,
      kept: seq<Event>)
    requires Standard(cfg) && Coherent(cfg) && Serves(world, svc) && ValidateGoal(cfg, goal).None?
    requires InitialScope(cfg) == Ok(base) && Faithful(cfg, svc, goal, base, verdict, kept) && HasProgress(kept)
    requires Steady(cfg, svc, base, calls, kept)
    ensures var log := Resumed(cfg, world, base, kept);
      Steady(cfg, svc, base, calls, log) && Torn(Attempts(log)) == Torn(Attempts(kept))
  {
    hide Standard, Coherent, Serves, ValidateGoal, InitialScope, Faithful, Resume, RecordedOutcome, LatestCheckpoint,
      Loop, LeadsTo, LoopCalls, Steady, Attempts, Torn, Completed, Done, RestoredScope;
    ResumeStarts(cfg, world, base, kept);
    if RecordedOutcome(kept).None? {
      var s := LatestCheckpoint(kept).value;
      FaithfulRecords(cfg, svc, goal, base, verdict, kept);
      UsableCheckpoint(cfg, svc, goal, base, verdict, s);
      ResumeContinues(cfg, world, base, kept, s);
      var restored := RestoredScope(cfg, base, s.activeBot).value;
      InitialIsRestored(cfg, base);
      RestoredTwice(cfg, base, s.activeBot);
      var more := Loop(cfg, world, goal, s.observations, restored, Created, s.step).events;
      LoopSettles(cfg, world, goal, s.observations, restored, Created, s.step);
      LoopStartsAfresh(cfg, world, goal, s.observations, restored, s.step);
      AttemptsInTwoParts(kept, more);
      TornInTwoParts(Attempts(kept), Attempts(more));
      DoneIsCompleted(LoopCalls(cfg, world, goal, s.observations, restored, s.step));
      ContinuationIsSteady(cfg, svc, world, goal, base, restored, calls, kept, s);
    }
  }

  lemma UsableCheckpoint(cfg: Config, svc: Service, goal: string, base: Scope, verdict: Verdict, s: Snapshot)
    requires LeadsTo(cfg, svc, goal, base, verdict, s) && ValidateGoal(cfg, goal).None?
    ensures s.goal == goal && Strip(s.goal) != "" && s.observations != [] && s.step >= 0
    ensures RestoredScope(cfg, base, s.activeBot).Ok?
  {
    hide Loop, Serves;
    GoalIsNotBlank(cfg, goal);
  }

  lemma ContinuationIsSteady(
      cfg: Config, svc: Service, world: World, goal: string, base: Scope, restored: Scope, calls: seq<Call>,
      kept: seq<Event>, s: Snapshot)
    requires Standard(cfg) && Coherent(cfg) && Serves(world, svc) && Steady(cfg, svc, base, calls, kept)
    requires RecordedOutcome(kept).None? && LatestCheckpoint(kept) == Some(s)
    requires s.goal == goal && s.observations != [] && s.step >= 0
    requires RestoredScope(cfg, base, s.activeBot) == Ok(restored)
    requires RestoredScope(cfg, base, restored.activeBot) == Ok(restored)
    ensures var more := Loop(cfg, world, goal, s.observations, restored, Created, s.step).events;
      Steady(cfg, svc, base, calls, kept + more)
  {
    hide Standard, Coherent, Serves, RecordedOutcome, LatestCheckpoint, Loop, LoopCalls, OnSchedule, Attempts,
      RestoredScope, Sparse;
    var more := Loop(cfg, world, goal, s.observations, restored, Created, s.step).events;
    var due := LoopCalls(cfg, world, goal, s.observations, restored, s.step);
    LoopSettles(cfg, world, goal, s.observations, restored, Created, s.step);
    LoopStartsAfresh(cfg, world, goal, s.observations, restored, s.step);
    SparseInTwoParts(kept, more);
    WorldServes(svc);
    LoopCallsIgnoreIds(cfg, svc, WorldOf(svc), world, goal, s.observations, s.observations, restored, s.step);
    assert Remaining(cfg, svc, base, calls, kept) == due;
    assert kept[..|kept|] == kept;
    forall k | 0 <= k <= |kept + more| ensures OnSchedule(cfg, svc, base, calls, (kept + more)[..k]) {
      if k <= |kept| {
        assert (kept + more)[..k] == kept[..k];
      } else {
        assert (kept + more)[..k] == kept + more[..k - |kept|];
        LoopOnSchedule(
          cfg, svc, world, goal, s.observations, base, restored, Created, s.step, k - |kept|);
        ThenOnSchedule(cfg, svc, base, calls, kept, due, more[..k - |kept|]);
      }
    }
  }

  lemma {:induction false} SurvivorIsSteady(
      cfg: Config, svc: Service, goal: string, base: Scope, verdict: Verdict, calls: seq<Call>, events: seq<Event>,
      first: seq<Event>, crashes: seq<Crash>)
    requires Standard(cfg) && Coherent(cfg) && ValidateGoal(cfg, goal).None? && InitialScope(cfg) == Ok(base)
    requires Faithful(cfg, svc, goal, base, verdict, events) && Steady(cfg, svc, base, calls, events)
    requires first <= events && HasProgress(first)
    requires forall c :: c in crashes ==> Serves(c.world, svc) && c.keep >= |first|
    ensures var log := Survivor(cfg, base, events, crashes);
      && Steady(cfg, svc, base, calls, log)
      && Torn(Attempts(log)) <= Torn(Attempts(events)) + |crashes|
    decreases |crashes|
  {
    hide Standard, Coherent, Serves, Faithful, Resumed, HasProgress, ValidateGoal, InitialScope, Steady, Torn, Attempts;
    if crashes != [] {
      var kept := Kept(events, crashes[0].keep);
      FaithfulPrefix(cfg, svc, goal, base, verdict, events, crashes[0].keep);
      assert first <= kept;
      ProgressSurvives(first, kept);
      KeptIsSteady(cfg, svc, base, calls, events, crashes[0].keep);
      ResumeIsFaithful(cfg, svc, crashes[0].world, goal, base, verdict, kept);
      ResumedIsSteady(cfg, svc, crashes[0].world, goal, base, verdict, calls, kept);
      ResumedExtends(cfg, crashes[0].world, base, kept);
      SurvivorIsSteady(
        cfg, svc, goal, base, verdict, calls, Resumed(cfg, crashes[0].world, base, kept), first, crashes[1..]);
    }
  }

  lemma KeptIsSteady(cfg: Config, svc: Service, base: Scope, calls: seq<Call>, events: seq<Event>, keep: nat)
    requires Steady(cfg, svc, base, calls, events)
    ensures var kept := Kept(events, keep);
      Steady(cfg, svc, base, calls, kept) && Torn(Attempts(kept)) <= Torn(Attempts(events)) + 1
  {
    hide OnSchedule, Sparse, Attempts, Torn;
    if keep <= |events| {
      CutIsSparse(events, keep);
      CutTearsOne(events, keep);
      forall k | 0 <= k <= keep ensures OnSchedule(cfg, svc, base, calls, events[..keep][..k]) {
        assert events[..keep][..k] == events[..k];
      }
    }
  }

  /**
    Take an uninterrupted run and any history of kills and resumptions after its first checkpoint.
    The tool requests that were settled are the same in both logs, in the same order: no tool call
    is completed twice or left out. Only a kill between a request and the checkpoint after it makes
    the request again, the next request then being the same call; and each kill does so once at most.
  */
  lemma ToolsCompleteOnce(
      cfg: Config, svc: Service, world: World, goal: string, base: Scope, first: nat, crashes: seq<Crash>)
    requires Standard(cfg) && Coherent(cfg) && ValidateGoal(cfg, goal).None? && InitialScope(cfg) == Ok(base)
    requires Serves(world, svc) && forall c :: c in crashes ==> Serves(c.world, svc) && first < c.keep
    ensures var t := Run(cfg, world, goal, base);
      var run, log := Attempts(t.events), Attempts(Survivor(cfg, base, t.events, crashes));
      first < |t.events| && IsProgress(t.events[first]) ==>
        && (forall i :: 0 <= i < |run| ==> run[i].settled)
        && Completed(log) == Completed(run)
        && (forall i :: 0 <= i < |log| && !log[i].settled ==> i + 1 < |log| && log[i + 1].call == log[i].call)
        && |run| <= |log| <= |run| + |crashes|
  {
    hide Standard, Coherent, Serves, Faithful, RecordedOutcome, LatestCheckpoint, HasProgress, ValidateGoal,
      InitialScope, Run, IsProgress, Attempts, Survivor, Steady, Torn, Completed, RunCalls, Due;
    var t, calls := Run(cfg, world, goal, base), RunCalls(cfg, world, goal, base);
    if first < |t.events| && IsProgress(t.events[first]) {
      var start := t.events[..first + 1];
      ProgressSoFar(t.events, first);
      RunIsFaithful(cfg, svc, world, goal, base);
      FinishedRunIsRecorded(cfg, world, goal, base, world, base);
      RunIsSteady(cfg, svc, world, goal, base);
      SurvivorIsFaithful(cfg, svc, goal, base, t.verdict, t.events, start, crashes);
      SurvivorIsSteady(cfg, svc, goal, base, t.verdict, calls, t.events, start, crashes);
      var log := Survivor(cfg, base, t.events, crashes);
      FinishedIsDone(cfg, svc, base, calls, log);
      NothingDue(Attempts(log), calls);
      DoneIsCompleted(calls);
      AttemptsAreCompletedOrTorn(Attempts(log));
      AttemptsAreCompletedOrTorn(Attempts(t.events));
    }
  }

  lemma FinishedIsDone(cfg: Config, svc: Service, base: Scope, calls: seq<Call>, log: seq<Event>)
    requires Steady(cfg, svc, base, calls, log) && RecordedOutcome(log).Some?
    ensures Due(Attempts(log), calls) == Some([])
  {
    hide RecordedOutcome, Sparse, Attempts, Due;
    assert log[..|log|] == log;
  }
}

/** Checkpoint payloads: what is written to the log and what is rebuilt from it. */
module Checkpoints {
  import opened EventLog
  import opened Lifecycle
  import opened RunHistory
  import opened RunSpec
  import opened Text

  function StateName(state: RunState): string {
    match state
    case Created => "created"
    case Observing => "observing"
    case Deciding => "deciding"
    case Acting => "acting"
    case Succeeded => "succeeded"
    case Failed => "failed"
    case Cancelled => "cancelled"
  }

  /** `RunState(text)`, which refuses any other text. */
  function StateOf(name: string): Option<RunState> {
    if name == "created" then Some(Created)
    else if name == "observing" then Some(Observing)
    else if name == "deciding" then Some(Deciding)
    else if name == "acting" then Some(Acting)
    else if name == "succeeded" then Some(Succeeded)
    else if name == "failed" then Some(Failed)
    else if name == "cancelled" then Some(Cancelled)
    else None
  }

  // ----- Writing -----

  /** `Observation.to_dict`. */
  function ObservationToJson(o: Observation): Json {
    Members(map[
      "observation_id" := Str(o.id), "source" := Str(o.fact.source), "content" := Str(o.fact.content),
      "metadata" := Members(o.fact.metadata)])
  }

  function ObservationsToJson(observations: seq<Observation>): (items: seq<Json>)
    ensures |items| == |observations|
    ensures forall i :: 0 <= i < |items| ==> items[i] == ObservationToJson(observations[i])
  {
    seq(|observations|, i requires 0 <= i < |observations| => ObservationToJson(observations[i]))
  }

  /** `to_payload`: the active bot is a key only if there is one. */
  function ToPayload(s: Snapshot): map<string, Json> {
    var payload := map[
      "goal" := Str(s.goal), "step" := Number(s.step), "state" := Str(StateName(s.state)),
      "observations" := Items(ObservationsToJson(s.observations))];
    if s.activeBot.Some? then payload["active_bot_id" := Str(s.activeBot.value)] else payload
  }

  /** The payload as the log holds it, key by key. */
  lemma PayloadIsExact(s: Snapshot)
    ensures var p := ToPayload(s);
      && p.Keys == {"goal", "step", "state", "observations"} + (if s.activeBot.Some? then {"active_bot_id"} else {})
      && p["goal"] == Str(s.goal) && p["step"] == Number(s.step) && p["state"] == Str(StateName(s.state))
      && (s.state == Acting ==> p["state"] == Str("acting"))
      && (s.activeBot.Some? ==> p["active_bot_id"] == Str(s.activeBot.value))
      && p["observations"].Items? && |p["observations"].items| == |s.observations|
      && forall i :: 0 <= i < |s.observations| ==>
           p["observations"].items[i] == Members(map[
             "observation_id" := Str(s.observations[i].id), "source" := Str(s.observations[i].fact.source),
             "content" := Str(s.observations[i].fact.content), "metadata" := Members(s.observations[i].fact.metadata)])
  {}

  // ----- Reading -----

  function Get(members: map<string, Json>, key: string, otherwise: Json): Json {
    if key in members then members[key] else otherwise
  }

  /** `observation_from_dict`: the source and the content must be there; a missing or empty id is replaced. */
  function ObservationFromJson(json: Json, freshId: string): Option<Observation> {
    if !json.Members? then None else
      var members := json.members;
      if "source" !in members || "content" !in members then None else
        var source, content := members["source"], members["content"];
        var metadata := Get(members, "metadata", Members(map[]));
        var id := Get(members, "observation_id", Null);
        if !source.Str? || !content.Str? || !metadata.Members? || (!id.Null? && !id.Str?) then None
        else Some(Observation(
          Fact(source.text, content.text, metadata.members), if id.Null? || id.text == "" then freshId else id.text))
  }

  /** All observations of a payload; `freshIds` are the ids drawn for those that have none. */
  function ObservationsFromJson(items: seq<Json>, freshIds: nat -> string): Option<seq<Observation>> {
    if items == [] then Some([]) else
      var k := |items| - 1;
      var front, last := ObservationsFromJson(items[..k], freshIds), ObservationFromJson(items[k], freshIds(k));
      if front.None? || last.None? then None else Some(front.value + [last.value])
  }

  /** The body of the loop in `load_latest_checkpoint`, with its defaults for missing keys. */
  function FromPayload(payload: map<string, Json>, freshIds: nat -> string): Option<Snapshot> {
    var goal, step := Get(payload, "goal", Str("")), Get(payload, "step", Number(0));
    var state, items := Get(payload, "state", Str("created")), Get(payload, "observations", Items([]));
    var bot := Get(payload, "active_bot_id", Null);
    if !goal.Str? || !step.Number? || !state.Str? || !items.Items? || (!bot.Null? && !bot.Str?) then None else
      var observations, known := ObservationsFromJson(items.items, freshIds), StateOf(state.text);
      if observations.None? || known.None? then None
      else Some(Snapshot(
        goal.text, step.n, known.value, observations.value, if bot.Null? then None else Some(bot.text)))
  }

  // ----- Round trip -----

  function Identified(o: Observation, freshId: string): Observation {
    if o.id == "" then o.(id := freshId) else o
  }

  function AllIdentified(observations: seq<Observation>, freshIds: nat -> string): (r: seq<Observation>)
    ensures |r| == |observations|
    ensures forall i: nat :: i < |r| ==> r[i] == Identified(observations[i], freshIds(i))
  {
    seq(|observations|, i requires 0 <= i < |observations| => Identified(observations[i], freshIds(i)))
  }

  lemma StateSurvives(state: RunState)
    ensures StateOf(StateName(state)) == Some(state)
  {}

  lemma ObservationSurvives(o: Observation, freshId: string)
    ensures ObservationFromJson(ObservationToJson(o), freshId) == Some(Identified(o, freshId))
  {}

  lemma {:induction false} ObservationsSurvive(observations: seq<Observation>, freshIds: nat -> string)
    ensures ObservationsFromJson(ObservationsToJson(observations), freshIds)
      == Some(AllIdentified(observations, freshIds))
  {
    hide ObservationFromJson, ObservationToJson, Identified;
    if observations != [] {
      var k := |observations| - 1;
      var front := observations[..k];
      ObservationsSurvive(front, freshIds);
      ObservationSurvives(observations[k], freshIds(k));
      assert ObservationsToJson(observations)[..k] == ObservationsToJson(front);
      assert AllIdentified(observations, freshIds)
        == AllIdentified(front, freshIds) + [Identified(observations[k], freshIds(k))];
    }
  }

  /** What `resume` reads back is what the interrupted run had saved, except that an empty
      observation id is drawn anew. */
  lemma SavedIsLoaded(s: Snapshot, freshIds: nat -> string)
    ensures FromPayload(ToPayload(s), freshIds) == Some(s.(observations := AllIdentified(s.observations, freshIds)))
  {
    hide ObservationsFromJson, ObservationsToJson, AllIdentified, StateOf, StateName;
    StateSurvives(s.state);
    ObservationsSurvive(s.observations, freshIds);
  }

  /** So nothing at all is lost exactly when every observation has an id. */
  lemma SavedIsLoadedUnchangedIff(s: Snapshot, freshIds: nat -> string)
    requires forall n: nat :: freshIds(n) != ""
    ensures FromPayload(ToPayload(s), freshIds) == Some(s)
      <==> forall i :: 0 <= i < |s.observations| ==> s.observations[i].id != ""
  {
    hide ToPayload, FromPayload;
    SavedIsLoaded(s, freshIds);
    var identified := AllIdentified(s.observations, freshIds);
    if forall i :: 0 <= i < |s.observations| ==> s.observations[i].id != "" {
      assert identified == s.observations;
    } else {
      var i: nat :| i < |s.observations| && s.observations[i].id == "";
      assert identified[i] != s.observations[i];
    }
  }

  /** A checkpoint of a version that stored no bot still loads, and leaves the scope to the constructor. */
  lemma OlderPayloadLoads(s: Snapshot, freshIds: nat -> string)
    ensures var loaded := FromPayload(ToPayload(s) - {"active_bot_id"}, freshIds);
      loaded.Some? && loaded == FromPayload(ToPayload(s.(activeBot := None)), freshIds)
  {
    hide ObservationsFromJson, ObservationsToJson, AllIdentified, StateOf, StateName;
    SavedIsLoaded(s.(activeBot := None), freshIds);
    assert ToPayload(s) - {"active_bot_id"} == ToPayload(s.(activeBot := None));
  }

  // ----- The checkpoints of a run -----

  predicate HaveIds(observations: seq<Observation>) {
    forall i :: 0 <= i < |observations| ==> observations[i].id != ""
  }

  lemma StepDrawsId(
      cfg: Config, world: World, goal: string, observations: seq<Observation>, scope: Scope, state: RunState, step: nat)
    requires forall n: nat :: world.freshId(n) != ""
    ensures var done := Step(cfg, world, goal, observations, scope, state, step);
      done.Next? ==> done.observation.id != ""
  {}

  lemma {:induction false} CursorsHaveIds(
      cfg: Config, world: World, goal: string, observations: seq<Observation>, scope: Scope, state: RunState, step: nat)
    requires HaveIds(observations) && forall n: nat :: world.freshId(n) != ""
    ensures forall c :: c in Cursors(cfg, world, goal, observations, scope, state, step) ==> HaveIds(c.observations)
    decreases cfg.maxSteps - step
  {
    hide Step;
    if step < cfg.maxSteps {
      var done := Step(cfg, world, goal, observations, scope, state, step);
      StepDrawsId(cfg, world, goal, observations, scope, state, step);
      if done.Next? {
        CursorsHaveIds(cfg, world, goal, observations + [done.observation], done.scope, Acting, step + 1);
      }
    }
  }

  /** Every checkpoint that a run writes is read back from its JSON exactly as it was. */
  lemma RunCheckpointsSurvive(
      cfg: Config, world: World, goal: string, scope: Scope, s: Snapshot, freshIds: nat -> string)
    requires (forall n: nat :: world.freshId(n) != "") && forall n: nat :: freshIds(n) != ""
    requires s in Snapshots(Run(cfg, world, goal, scope).events)
    ensures FromPayload(ToPayload(s), freshIds) == Some(s)
  {
    hide Loop, Cursors, Snapshots, ToPayload, FromPayload;
    var user := [UserObservation(world, goal)];
    CursorsHaveIds(cfg, world, goal, user, scope, Created, 0);
    CheckpointsAreCursors(cfg, world, goal, user, scope, Created, 0);
    FirstRowIsNoCheckpoint(cfg, world, goal, scope);
    SavedIsLoadedUnchangedIff(s, freshIds);
  }

  lemma FirstRowIsNoCheckpoint(cfg: Config, world: World, goal: string, scope: Scope)
    ensures var user := [UserObservation(world, goal)];
      Snapshots(Run(cfg, world, goal, scope).events)
        == Snapshots(Loop(cfg, world, goal, user, scope, Created, 0).events)
  {
    hide Loop;
    var rest := Loop(cfg, world, goal, [UserObservation(world, goal)], scope, Created, 0);
    assert Run(cfg, world, goal, scope).events[1..] == rest.events;
  }
}

/**
  Routing of JSON-RPC responses to requests over a server process that can be killed and replaced.
  Every action below is one critical section of the client or one unlocked change of a shared
  field, so a sequence of actions is one interleaving of callers, reader threads and the thread
  that restarts the server.
*/
module McpRouting {
  import opened Text

  /** A response line: the process that printed it, the id it carries, its content. */
  datatype Message = Message(origin: nat, id: nat, body: string)

  /** The client's shared fields. A process is named by the generation it was spawned in. */
  datatype Table = Table(
    nextId: nat,
    pending: map<nat, nat>,
    responses: map<nat, Message>,
    generation: nat,
    process: Option<nat>,
    closed: bool)

  datatype Look = Got(message: Message) | Replaced | Broken | Nothing

  const FRESH_TABLE := Table(1, map[], map[], 0, None, false)

  function Numbered(t: Table): Table {
    t.(nextId := t.nextId + 1)
  }

  function Registered(t: Table, id: nat): Table {
    t.(pending := t.pending[id := t.generation])
  }

  /** The process that a message registered for a generation may be written to. */
  function Writable(t: Table, registeredFor: nat): Option<nat> {
    if t.generation == registeredFor then t.process else None
  }

  function Delivered(t: Table, m: Message): Table {
    if m.id in t.pending then t.(responses := t.responses[m.id := m]) else t
  }

  function Looked(t: Table, id: nat): (Table, Look) {
    if id in t.responses then (t.(responses := t.responses - {id}), Got(t.responses[id]))
    else if id !in t.pending || t.pending[id] != t.generation then (t, Replaced)
    else if t.closed then (t, Broken)
    else (t, Nothing)
  }

  function Forgotten(t: Table, id: nat): Table {
    t.(pending := t.pending - {id}, responses := t.responses - {id})
  }

  function Marked(t: Table, generation: nat): Table {
    if generation == t.generation then t.(closed := true) else t
  }

  function Detached(t: Table): Table {
    t.(process := None)
  }

  function Stopped(t: Table): Table {
    t.(closed := true)
  }

  function Respawned(t: Table): Table {
    t.(pending := map[], responses := map[], closed := false, generation := t.generation + 1)
  }

  /** The client's fields and the bodies of its critical sections. */
  class StdioMcpClient {
    var ids: nat
    var pending: map<nat, nat>
    var responses: map<nat, Message>
    var generation: nat
    var process: Option<nat>
    var closed: bool

    constructor ()
      ensures Fields() == FRESH_TABLE
    {
      ids, pending, responses, generation, process, closed := 1, map[], map[], 0, None, false;
    }

    function Fields(): Table
      reads this
    {
      Table(ids, pending, responses, generation, process, closed)
    }

    /** `next(self._ids)`. */
    method DrawId() returns (id: nat)
      modifies this`ids
      ensures id == old(ids) && Fields() == Numbered(old(Fields()))
    {
      id := ids;
      ids := ids + 1;
    }

    /** The locked part of `_issue`: remember which process the request is meant for. */
    method Register(id: nat) returns (registeredFor: nat)
      modifies this`pending
      ensures registeredFor == generation && Fields() == Registered(old(Fields()), id)
    {
      registeredFor := generation;
      pending := pending[id := registeredFor];
    }

    /** The locked part of `_write`: only the process the message belongs to may receive it. */
    method WritableTo(registeredFor: nat) returns (target: Option<nat>)
      ensures target == Writable(Fields(), registeredFor)
    {
      if generation != registeredFor {
        return None;
      }
      return process;
    }

    /** The end of `_handle_line`: keep a response only while someone tracks its id. */
    method Deliver(m: Message)
      modifies this`responses
      ensures Fields() == Delivered(old(Fields()), m)
      ensures m.id in pending ==> m.id in responses && responses[m.id] == m
      ensures responses - {m.id} == old(responses) - {m.id} && (m.id !in pending ==> responses == old(responses))
    {
      if m.id in pending {
        responses := responses[m.id := m];
      }
    }

    /** One pass of the wait loop in `_await`. */
    method LookFor(id: nat) returns (found: Look)
      modifies this`responses
      ensures (Fields(), found) == Looked(old(Fields()), id)
    {
      if id in responses {
        found := Got(responses[id]);
        responses := responses - {id};
      } else if id !in pending || pending[id] != generation {
        found := Replaced;
      } else if closed {
        found := Broken;
      } else {
        found := Nothing;
      }
    }

    method Forget(id: nat)
      modifies this`pending, this`responses
      ensures Fields() == Forgotten(old(Fields()), id)
    {
      pending := pending - {id};
      responses := responses - {id};
    }

    /** `_mark_broken`, and the reader thread at end of stream: a replaced process cannot close its successor. */
    method MarkBroken(failed: nat)
      modifies this`closed
      ensures Fields() == Marked(old(Fields()), failed)
    {
      if failed == generation {
        closed := true;
      }
    }

    /** The first part of `_teardown`, outside the lock: from now on there is no process to write to. */
    method Detach() returns (was: Option<nat>)
      modifies this`process
      ensures was == old(process) && Fields() == Detached(old(Fields()))
    {
      was := process;
      process := None;
    }

    /** The last part of `_teardown`, after the process has ended and its readers were joined. */
    method MarkStopped()
      modifies this`closed
      ensures Fields() == Stopped(old(Fields()))
    {
      if !closed {
        closed := true;
      }
    }

    /** The locked part of `_spawn`. */
    method Respawn()
      modifies this`pending, this`responses, this`closed, this`generation
      ensures Fields() == Respawned(old(Fields()))
    {
      pending, responses, closed, generation := map[], map[], false, generation + 1;
    }
  }

  // ----- The transition system -----

  datatype Outcome = Answered(message: Message) | Failed | TimedOut

  /** How far one request has got. */
  datatype Phase =
    | Drawn
    | Pending
    | Cleared(target: nat)
    | Waiting
    | Unanswered
    | Leaving(outcome: Outcome)
    | Gone(outcome: Outcome)

  /** What the holder of the lifecycle lock is doing. */
  datatype Lifecycle = Free | Stopping | Spawning

  /**
    `home` remembers which generation each request was registered for, `read` which process has
    been sent which request; both only serve to state properties.
  */
  datatype Sys = Sys(
    table: Table, lifecycle: Lifecycle, phases: map<nat, Phase>, home: map<nat, nat>, read: set<(nat, nat)>)

  const START := Sys(FRESH_TABLE, Free, map[], map[], {})

  datatype Action =
    | Draw
    | Register(id: nat)
    | Check(id: nat, lockFree: bool)
    | Write(id: nat, arrived: bool, completed: bool)
    | Await(id: nat, expired: bool)
    | AwaitAgain(id: nat)
    | Forget(id: nat)
    | Print(message: Message)
    | EndOfStream(generation: nat)
    | Teardown
    | TeardownEnds
    | Respawn
    | Launch(started: bool)

  predicate InPhase(s: Sys, id: nat, phase: Phase) {
    id in s.phases && s.phases[id] == phase
  }

  predicate Enabled(s: Sys, a: Action) {
    match a
    case Draw => true
    case Register(id) => InPhase(s, id, Drawn)
    case Check(id, _) => InPhase(s, id, Pending) && id in s.home
    case Write(id, _, _) => id in s.phases && s.phases[id].Cleared? && id in s.home
    case Await(id, _) => InPhase(s, id, Waiting)
    case AwaitAgain(id) => InPhase(s, id, Unanswered)
    case Forget(id) => id in s.phases && (s.phases[id].Leaving? || s.phases[id].Unanswered?)
    case Print(m) => 1 <= m.origin <= s.table.generation
    case EndOfStream(generation) => generation <= s.table.generation
    case Teardown => s.lifecycle == Free
    case TeardownEnds => s.lifecycle == Stopping
    case Respawn => s.lifecycle == Free && s.table.process == None
    case Launch(_) => s.lifecycle == Spawning
  }

  /** Moves request `id` to a new phase over a new table. */
  function Move(s: Sys, id: nat, phase: Phase, table: Table): Sys {
    s.(table := table, phases := s.phases[id := phase])
  }

  function Next(s: Sys, a: Action): Sys
    requires Enabled(s, a)
  {
    var t := s.table;
    match a
    case Draw => Move(s, t.nextId, Drawn, Numbered(t))
    case Register(id) => Move(s, id, Pending, Registered(t, id)).(home := s.home[id := t.generation])
    case Check(id, lockFree) =>
      var target := Writable(t, s.home[id]);
      if target.Some? && lockFree then Move(s, id, Cleared(target.value), t)
      else Move(s, id, Leaving(Failed), t)
    case Write(id, arrived, completed) =>
      var target := s.phases[id].target;
      var s' := if completed then Move(s, id, Waiting, t) else Move(s, id, Leaving(Failed), Marked(t, s.home[id]));
      if arrived || completed then s'.(read := s.read + {(target, id)}) else s'
    case Await(id, expired) =>
      var (t', found) := Looked(t, id);
      (match found
       case Got(m) => Move(s, id, Leaving(Answered(m)), t')
       case Replaced | Broken => Move(s, id, Leaving(Failed), t')
       case Nothing => if expired then Move(s, id, Unanswered, t') else s)
    case AwaitAgain(id) => Move(s, id, Waiting, t)
    case Forget(id) =>
      Move(s, id, Gone(if s.phases[id].Leaving? then s.phases[id].outcome else TimedOut), Forgotten(t, id))
    case Print(m) => s.(table := Delivered(t, m))
    case EndOfStream(generation) => s.(table := Marked(t, generation))
    case Teardown => s.(table := Detached(t), lifecycle := if t.process.Some? then Stopping else Free)
    case TeardownEnds => s.(table := Stopped(t), lifecycle := Free)
    case Respawn => s.(table := Respawned(t), lifecycle := Spawning)
    case Launch(started) =>
      s.(table := if started then t.(process := Some(t.generation)) else t, lifecycle := Free)
  }

  /** The request is registered and its caller has not dropped it yet. */
  predicate InFlight(s: Sys, id: nat) {
    id in s.phases && !s.phases[id].Drawn? && !s.phases[id].Gone?
  }

  /** The response that the caller of this request was given, if any. */
  function Answer(s: Sys, id: nat): Option<Message> {
    if id in s.phases && (s.phases[id].Leaving? || s.phases[id].Gone?) && s.phases[id].outcome.Answered?
    then Some(s.phases[id].outcome.message) else None
  }

  /** A stored response is for a tracked request; a tracked request is in flight to the current process. */
  ghost predicate Tracked(s: Sys) {
    var t := s.table;
    && t.responses.Keys <= t.pending.Keys
    && (forall id: nat :: id in t.responses ==> t.responses[id].id == id)
    && (forall id: nat :: id in t.pending ==>
          InFlight(s, id) && id in s.home && t.pending[id] == s.home[id] == t.generation)
    && (t.process.Some? ==> t.process.value == t.generation)
    && (s.lifecycle != Free ==> t.process.None?)
  }

  /** Ids are drawn once, registered once, and sent only to the process they were registered for. */
  ghost predicate Accounted(s: Sys) {
    && s.table.nextId >= 1
    && (forall id: nat :: id in s.phases ==> 1 <= id < s.table.nextId && (s.phases[id].Drawn? <==> id !in s.home))
    && (forall id: nat :: id in s.home ==> id in s.phases && s.home[id] <= s.table.generation)
    && (forall id: nat :: id in s.phases && s.phases[id].Cleared? ==> s.phases[id].target == s.home[id])
    && (forall g: nat, id: nat :: (g, id) in s.read ==> id in s.home && s.home[id] == g)
  }

  /** An answer carries the id of the request it was given to. */
  ghost predicate Matched(s: Sys) {
    forall id: nat :: Answer(s, id).Some? ==> Answer(s, id).value.id == id
  }

  /** A caller that has not left is tracked for as long as the process its request is meant for is current. */
  ghost predicate Held(s: Sys) {
    forall id: nat :: InFlight(s, id) && id in s.home && s.home[id] == s.table.generation ==> id in s.table.pending
  }

  /** What holds in every interleaving, however the server behaves. */
  ghost predicate Consistent(s: Sys) {
    Tracked(s) && Accounted(s) && Matched(s) && Held(s)
  }

  /** The rule of section 5 of JSON-RPC 2.0 for servers: a response carries the id of a request it received. */
  predicate Honest(s: Sys, a: Action) {
    a.Print? ==> (a.message.origin, a.message.id) in s.read
  }

  /** What an honest server adds: each kept or returned response comes from the process its request was sent to. */
  ghost predicate WellRouted(s: Sys) {
    && (forall id: nat :: id in s.table.responses ==> (s.table.responses[id].origin, id) in s.read)
    && (forall id: nat :: Answer(s, id).Some? ==> (Answer(s, id).value.origin, id) in s.read)
  }

  /** A caller is only ever given a stored response. */
  lemma AnswersComeFromStore(s: Sys, a: Action, id: nat)
    requires Enabled(s, a) && Accounted(s)
    ensures var s' := Next(s, a);
      Answer(s', id) == Answer(s, id)
      || (id in s.table.responses && Answer(s', id) == Some(s.table.responses[id]))
  {}

  predicate BySender(a: Action) {
    a.Draw? || a.Register? || a.Check? || a.Write?
  }

  predicate ByWaiter(a: Action) {
    a.Await? || a.AwaitAgain? || a.Forget?
  }

  lemma TrackedDrawStep(s: Sys, a: Action)
    ensures Consistent(s) && Enabled(s, a) && (a.Draw? || a.Register?) ==> Tracked(Next(s, a))
  {
    hide Matched, Held, Delivered, Looked, Forgotten, Marked, Respawned;
  }

  lemma TrackedCheckStep(s: Sys, a: Action)
    ensures Consistent(s) && Enabled(s, a) && a.Check? ==> Tracked(Next(s, a))
  {
    hide Matched, Held, Accounted, Delivered, Looked, Forgotten, Registered, Respawned;
  }

  lemma TrackedWriteStep(s: Sys, a: Action)
    ensures Consistent(s) && Enabled(s, a) && a.Write? ==> Tracked(Next(s, a))
  {
    hide Matched, Held, Accounted, Delivered, Looked, Forgotten, Registered, Respawned;
  }

  lemma TrackedAwaitStep(s: Sys, a: Action)
    ensures Consistent(s) && Enabled(s, a) && (a.Await? || a.AwaitAgain?) ==> Tracked(Next(s, a))
  {
    hide Matched, Held, Accounted, Delivered, Registered, Marked, Respawned, Forgotten;
  }

  lemma TrackedForgetStep(s: Sys, a: Action)
    ensures Consistent(s) && Enabled(s, a) && a.Forget? ==> Tracked(Next(s, a))
  {
    hide Matched, Held, Accounted, Delivered, Registered, Marked, Respawned, Looked;
  }

  lemma TrackedStep(s: Sys, a: Action)
    requires Consistent(s) && Enabled(s, a)
    ensures Tracked(Next(s, a))
  {
    if BySender(a) {
      if a.Draw? || a.Register? {
        TrackedDrawStep(s, a);
      } else if a.Check? {
        TrackedCheckStep(s, a);
      } else {
        TrackedWriteStep(s, a);
      }
    } else if ByWaiter(a) {
      if a.Forget? {
        TrackedForgetStep(s, a);
      } else {
        TrackedAwaitStep(s, a);
      }
    }
  }

  lemma AccountedDrawStep(s: Sys, a: Action)
    ensures Consistent(s) && Enabled(s, a) && (a.Draw? || a.Register?) ==> Accounted(Next(s, a))
  {
    hide Tracked, Matched, Held, Delivered, Looked, Forgotten, Respawned, Marked;
  }

  lemma AccountedWriteStep(s: Sys, a: Action)
    ensures Consistent(s) && Enabled(s, a) && (a.Check? || a.Write?) ==> Accounted(Next(s, a))
  {
    hide Matched, Held, Delivered, Looked, Forgotten, Respawned, Registered;
  }

  lemma AccountedWaiterStep(s: Sys, a: Action)
    ensures Consistent(s) && Enabled(s, a) && ByWaiter(a) ==> Accounted(Next(s, a))
  {
    hide Tracked, Matched, Held, Delivered, Respawned, Registered, Marked;
  }

  lemma AccountedStep(s: Sys, a: Action)
    requires Consistent(s) && Enabled(s, a)
    ensures Accounted(Next(s, a))
  {
    if a.Draw? || a.Register? {
      AccountedDrawStep(s, a);
    } else if a.Check? || a.Write? {
      AccountedWriteStep(s, a);
    } else if ByWaiter(a) {
      AccountedWaiterStep(s, a);
    }
  }

  lemma HeldStep(s: Sys, a: Action)
    requires Consistent(s) && Enabled(s, a)
    ensures Held(Next(s, a))
  {
    hide Matched;
    if BySender(a) {
      hide Delivered, Looked, Forgotten, Respawned;
    } else if ByWaiter(a) {
      hide Delivered, Registered, Respawned, Marked;
    } else {
      hide Looked, Forgotten, Registered;
    }
  }

  lemma MatchedStep(s: Sys, a: Action)
    requires Consistent(s) && Enabled(s, a)
    ensures Matched(Next(s, a))
  {
    forall id: nat ensures Answer(Next(s, a), id).Some? ==> Answer(Next(s, a), id).value.id == id {
      AnswersComeFromStore(s, a, id);
    }
  }

  lemma WellRoutedStep(s: Sys, a: Action)
    requires Consistent(s) && WellRouted(s) && Enabled(s, a) && Honest(s, a)
    ensures WellRouted(Next(s, a))
  {
    forall id: nat ensures Answer(Next(s, a), id).Some? ==> (Answer(Next(s, a), id).value.origin, id) in s.read {
      AnswersComeFromStore(s, a, id);
    }
  }

  // ----- Whole interleavings -----

  ghost predicate Legal(s: Sys, run: seq<Action>)
    decreases |run|
  {
    run == [] || (Enabled(s, run[0]) && Legal(Next(s, run[0]), run[1..]))
  }

  function After(s: Sys, run: seq<Action>): Sys
    requires Legal(s, run)
    decreases |run|
  {
    if run == [] then s else After(Next(s, run[0]), run[1..])
  }

  ghost predicate AllHonest(s: Sys, run: seq<Action>)
    requires Legal(s, run)
    decreases |run|
  {
    run == [] || (Honest(s, run[0]) && AllHonest(Next(s, run[0]), run[1..]))
  }

  lemma {:induction false} StaysConsistent(s: Sys, run: seq<Action>)
    requires Consistent(s) && Legal(s, run)
    ensures Consistent(After(s, run))
    ensures WellRouted(s) && AllHonest(s, run) ==> WellRouted(After(s, run))
    decreases |run|
  {
    hide Tracked, Accounted, Matched, Held, WellRouted, Next, Enabled;
    if run != [] {
      TrackedStep(s, run[0]);
      AccountedStep(s, run[0]);
      MatchedStep(s, run[0]);
      HeldStep(s, run[0]);
      if WellRouted(s) && AllHonest(s, run) {
        WellRoutedStep(s, run[0]);
      }
      StaysConsistent(Next(s, run[0]), run[1..]);
    }
  }

  /**
    After every interleaving: a stored response is for a tracked request, a tracked request is in
    flight and belongs to the process that is current, and a caller that has left - by an answer, a
    failure or a timeout - has left nothing behind.
  */
  lemma NothingIsLeftBehind(run: seq<Action>, id: nat)
    requires Legal(START, run)
    ensures var s := After(START, run);
      && s.table.responses.Keys <= s.table.pending.Keys
      && (id in s.table.pending ==> InFlight(s, id) && s.table.pending[id] == s.table.generation)
      && (id in s.phases && s.phases[id].Gone? ==> id !in s.table.pending && id !in s.table.responses)
      && (id in s.phases ==> id != s.table.nextId)
  {
    hide Next, Enabled;
    StaysConsistent(START, run);
  }

  /**
    With servers that answer only requests they received, the response that a caller is given
    carries the id of its request and was printed by the very process that the request was
    registered for and sent to - whatever was killed, restarted or still printing meanwhile.
  */
  lemma ResponsesAreRouted(run: seq<Action>, id: nat)
    requires Legal(START, run) && AllHonest(START, run)
    ensures var s := After(START, run);
      Answer(s, id).Some? ==>
        && Answer(s, id).value.id == id
        && id in s.home && Answer(s, id).value.origin == s.home[id]
        && (s.home[id], id) in s.read
  {
    hide Next, Enabled;
    StaysConsistent(START, run);
  }

  /**
    No process is ever sent a request that was registered for another one, and the test before a
    write lets a request through to nothing but the process it was registered for.
  */
  lemma RequestsStayHome(run: seq<Action>, id: nat)
    requires Legal(START, run)
    ensures var s := After(START, run);
      && (forall g: nat :: (g, id) in s.read ==> id in s.home && s.home[id] == g)
      && (id in s.home && Writable(s.table, s.home[id]).Some? ==> Writable(s.table, s.home[id]) == Some(s.home[id]))
      && (id in s.phases && s.phases[id].Cleared? ==> id in s.home && s.phases[id].target == s.home[id])
  {
    hide Next, Enabled;
    StaysConsistent(START, run);
  }

  predicate Settled(s: Sys, id: nat) {
    id in s.phases && (s.phases[id].Leaving? || s.phases[id].Gone?)
  }

  lemma OutlivedStep(s: Sys, a: Action, id: nat)
    requires Consistent(s) && Enabled(s, a)
    requires id in s.home && s.home[id] < s.table.generation && Answer(s, id) == None
    ensures var s' := Next(s, a);
      id in s'.home && s'.home[id] < s'.table.generation && Answer(s', id) == None
  {
    hide Matched, Held;
    if BySender(a) {
      hide Delivered, Looked, Forgotten, Respawned;
    } else if ByWaiter(a) {
      hide Delivered, Registered, Respawned, Marked;
    } else {
      hide Looked, Forgotten, Registered;
    }
  }

  /** A request whose process was replaced before it was answered is never answered, even by a dishonest server. */
  lemma {:induction false} ReplacedMeansUnanswered(s: Sys, run: seq<Action>, id: nat)
    requires Consistent(s) && Legal(s, run)
    requires id in s.home && s.home[id] < s.table.generation && Answer(s, id) == None
    ensures Answer(After(s, run), id) == None
    decreases |run|
  {
    hide Tracked, Accounted, Matched, Held, Next, Enabled;
    if run != [] {
      TrackedStep(s, run[0]);
      AccountedStep(s, run[0]);
      MatchedStep(s, run[0]);
      HeldStep(s, run[0]);
      OutlivedStep(s, run[0], id);
      ReplacedMeansUnanswered(Next(s, run[0]), run[1..], id);
    }
  }

  lemma SettledStep(s: Sys, a: Action, id: nat)
    requires Consistent(s) && Enabled(s, a) && Settled(s, id)
    ensures Settled(Next(s, a), id) && Next(s, a).phases[id].outcome == s.phases[id].outcome
    ensures s.phases[id].Gone? ==> Next(s, a).phases[id].Gone?
  {}

  /** Ids are never reused: what became of a request stays what became of it. */
  lemma {:induction false} OutcomesAreFinal(s: Sys, run: seq<Action>, id: nat)
    requires Consistent(s) && Legal(s, run) && Settled(s, id)
    ensures Settled(After(s, run), id) && After(s, run).phases[id].outcome == s.phases[id].outcome
    ensures s.phases[id].Gone? ==> After(s, run).phases[id].Gone?
    decreases |run|
  {
    hide Tracked, Accounted, Matched, Held, Next, Enabled;
    if run != [] {
      TrackedStep(s, run[0]);
      AccountedStep(s, run[0]);
      MatchedStep(s, run[0]);
      HeldStep(s, run[0]);
      SettledStep(s, run[0], id);
      OutcomesAreFinal(Next(s, run[0]), run[1..], id);
    }
  }

  // ----- Every caller is answered, or told why not -----

  /** The action is neither about this request nor about ending or replacing the process. */
  predicate Elsewhere(a: Action, id: nat) {
    match a
    case Register(i) => i != id
    case Check(i, _) => i != id
    case Write(i, _, _) => i != id
    case Await(i, _) => i != id
    case AwaitAgain(i) => i != id
    case Forget(i) => i != id
    case Print(m) => m.id != id
    case Respawn => false
    case _ => true
  }

  /** What a request shares with the rest of the system is the same in both states. */
  predicate Untouched(s: Sys, t: Sys, id: nat) {
    && id in s.phases && id in t.phases && t.phases[id] == s.phases[id]
    && (id in s.home <==> id in t.home) && (id in s.home ==> t.home[id] == s.home[id])
    && (id in s.table.pending <==> id in t.table.pending)
    && (id in s.table.responses <==> id in t.table.responses)
    && (id in s.table.responses ==> t.table.responses[id] == s.table.responses[id])
    && t.table.generation == s.table.generation
    && (s.table.closed ==> t.table.closed)
    && s.read <= t.read
  }

  lemma StepElsewhere(s: Sys, a: Action, id: nat)
    requires Consistent(s) && Enabled(s, a) && Elsewhere(a, id) && id in s.phases
    ensures Untouched(s, Next(s, a), id)
  {
    hide Tracked, Matched, Held, Accounted, Untouched;
    if BySender(a) {
      SenderElsewhere(s, a, id);
    } else if ByWaiter(a) {
      WaiterElsewhere(s, a, id);
    } else {
      ServerElsewhere(s, a, id);
    }
  }

  lemma SenderElsewhere(s: Sys, a: Action, id: nat)
    requires Accounted(s) && Enabled(s, a) && Elsewhere(a, id) && id in s.phases && BySender(a)
    ensures Untouched(s, Next(s, a), id)
  {
    hide Delivered, Looked, Forgotten, Respawned, Writable;
  }

  lemma WaiterElsewhere(s: Sys, a: Action, id: nat)
    requires Enabled(s, a) && Elsewhere(a, id) && id in s.phases && ByWaiter(a)
    ensures Untouched(s, Next(s, a), id)
  {
    hide Delivered, Registered, Respawned, Writable, Marked;
  }

  lemma ServerElsewhere(s: Sys, a: Action, id: nat)
    requires Enabled(s, a) && Elsewhere(a, id) && id in s.phases && !BySender(a) && !ByWaiter(a)
    ensures Untouched(s, Next(s, a), id)
  {
    hide Looked, Forgotten, Registered, Respawned, Writable;
  }

  predicate AllElsewhere(run: seq<Action>, id: nat) {
    forall a :: a in run ==> Elsewhere(a, id)
  }

  /** Nothing that the others do reaches a request, short of a restart. */
  lemma {:induction false} RunElsewhere(s: Sys, run: seq<Action>, id: nat)
    requires Consistent(s) && Legal(s, run) && AllElsewhere(run, id) && id in s.phases
    ensures Consistent(After(s, run)) && Untouched(s, After(s, run), id)
    decreases |run|
  {
    hide Tracked, Accounted, Matched, Held, Next, Enabled, Elsewhere;
    if run != [] {
      TrackedStep(s, run[0]);
      AccountedStep(s, run[0]);
      MatchedStep(s, run[0]);
      HeldStep(s, run[0]);
      assert run[0] in run && forall a :: a in run[1..] ==> a in run;
      StepElsewhere(s, run[0], id);
      RunElsewhere(Next(s, run[0]), run[1..], id);
    }
  }

  lemma StepKeepsConsistent(s: Sys, a: Action)
    requires Consistent(s) && Enabled(s, a)
    ensures Consistent(Next(s, a))
  {
    hide Tracked, Accounted, Matched, Held, Next, Enabled;
    TrackedStep(s, a);
    AccountedStep(s, a);
    MatchedStep(s, a);
    HeldStep(s, a);
  }

  /** A line from the server reaches the one request whose id it carries, if that is tracked, and no other. */
  lemma PrintIsRouted(s: Sys, m: Message)
    requires Consistent(s) && Enabled(s, Print(m))
    ensures var t := Next(s, Print(m));
      && (m.id in s.table.pending ==> m.id in t.table.responses && t.table.responses[m.id] == m)
      && (m.id !in s.table.pending ==> m.id !in t.table.responses)
      && (forall id: nat :: id != m.id && id in s.phases ==> Untouched(s, t, id))
      && t.phases == s.phases && t.home == s.home && t.table.pending == s.table.pending
      && t.table.generation == s.table.generation
  {
    hide Matched, Held;
    forall id: nat | id != m.id && id in s.phases ensures Untouched(s, Next(s, Print(m)), id) {
      StepElsewhere(s, Print(m), id);
    }
  }

  /** What a waiting caller is told, exactly. */
  lemma AwaitIsExact(s: Sys, id: nat, expired: bool)
    requires Consistent(s) && Enabled(s, Await(id, expired))
    ensures var t := Next(s, Await(id, expired));
      && (forall m :: Answer(t, id) == Some(m) <==> id in s.table.responses && s.table.responses[id] == m)
      && (t.phases[id] == Leaving(Failed) <==>
            id !in s.table.responses && (s.home[id] != s.table.generation || s.table.closed))
      && (t.phases[id] == Unanswered <==>
            id !in s.table.responses && s.home[id] == s.table.generation && !s.table.closed && expired)
      && (t.phases[id] == Waiting <==>
            id !in s.table.responses && s.home[id] == s.table.generation && !s.table.closed && !expired)
  {
    hide Matched;
  }

  lemma CallerIsTracked(s: Sys, id: nat)
    requires Consistent(s) && InFlight(s, id)
    ensures id in s.home && (s.home[id] == s.table.generation ==> id in s.table.pending)
  {
    hide Tracked, Matched;
  }

  /**
    A response to a request whose caller has not left is kept for it through everything the others do, and is
    what the caller is given when it looks.
  */
  lemma AnswerArrives(s: Sys, m: Message, run: seq<Action>, expired: bool)
    requires Consistent(s) && Enabled(s, Print(m))
    requires InFlight(s, m.id) && s.home[m.id] == s.table.generation
    requires Legal(Next(s, Print(m)), run) && AllElsewhere(run, m.id)
    ensures var t := After(Next(s, Print(m)), run);
      Enabled(t, Await(m.id, expired)) ==> Answer(Next(t, Await(m.id, expired)), m.id) == Some(m)
  {
    hide Tracked, Accounted, Matched, Held, Next, Enabled;
    CallerIsTracked(s, m.id);
    PrintIsRouted(s, m);
    StepKeepsConsistent(s, Print(m));
    RunElsewhere(Next(s, Print(m)), run, m.id);
    var t := After(Next(s, Print(m)), run);
    if Enabled(t, Await(m.id, expired)) {
      AwaitIsExact(t, m.id, expired);
    }
  }

  /**
    When the stream of the process a request was meant for has ended, a caller without a response is told so;
    and the end of a replaced process's stream tells nobody anything.
  */
  lemma EndIsNoticed(s: Sys, generation: nat, run: seq<Action>, id: nat, expired: bool)
    requires Consistent(s) && Enabled(s, EndOfStream(generation))
    requires InFlight(s, id) && Legal(Next(s, EndOfStream(generation)), run) && AllElsewhere(run, id)
    ensures var t := After(Next(s, EndOfStream(generation)), run);
      generation == s.home[id] && id !in s.table.responses && Enabled(t, Await(id, expired)) ==>
        Next(t, Await(id, expired)).phases[id] == Leaving(Failed)
    ensures generation != s.table.generation ==> Next(s, EndOfStream(generation)) == s
  {
    hide Tracked, Matched, Held;
    EndCloses(s, generation);
    StepElsewhere(s, EndOfStream(generation), id);
    StepKeepsConsistent(s, EndOfStream(generation));
    RunElsewhere(Next(s, EndOfStream(generation)), run, id);
    var t := After(Next(s, EndOfStream(generation)), run);
    if Enabled(t, Await(id, expired)) {
      AwaitIsExact(t, id, expired);
    }
  }

  lemma EndCloses(s: Sys, generation: nat)
    requires Enabled(s, EndOfStream(generation))
    ensures generation == s.table.generation ==> Next(s, EndOfStream(generation)).table.closed
    ensures generation != s.table.generation ==> Next(s, EndOfStream(generation)) == s
  {}

  /** A caller whose process was replaced is told that it has failed, whatever happens meanwhile. */
  lemma ReplacementIsNoticed(s: Sys, id: nat, expired: bool)
    requires Consistent(s) && Enabled(s, Await(id, expired)) && s.home[id] < s.table.generation
    ensures Next(s, Await(id, expired)).phases[id] == Leaving(Failed)
  {
    hide Matched, Held;
    AwaitIsExact(s, id, expired);
  }

  // ----- From issuing a request to its answer -----

  predicate KeepsProcess(a: Action) {
    !a.Teardown? && !a.Respawn?
  }

  lemma {:induction false} ProcessStays(s: Sys, run: seq<Action>)
    requires Consistent(s) && s.table.process.Some? && Legal(s, run) && forall a :: a in run ==> KeepsProcess(a)
    ensures After(s, run).table.process == s.table.process
    decreases |run|
  {
    hide Consistent, Next, Enabled;
    if run != [] {
      assert run[0] in run && forall a :: a in run[1..] ==> a in run;
      StepKeepsConsistent(s, run[0]);
      ProcessStaysOnce(s, run[0]);
      ProcessStays(Next(s, run[0]), run[1..]);
    }
  }

  lemma ProcessStaysOnce(s: Sys, a: Action)
    requires Consistent(s) && s.table.process.Some? && Enabled(s, a) && KeepsProcess(a)
    ensures Next(s, a).table.process == s.table.process
  {
    hide Matched, Held, Accounted;
  }

  /** The test before a write lets a request through exactly when its process runs and the lock was free in time. */
  lemma CheckIsExact(s: Sys, id: nat, lockFree: bool)
    requires Consistent(s) && Enabled(s, Check(id, lockFree))
    ensures var t := Next(s, Check(id, lockFree));
      && id in t.phases
      && (t.phases[id] == Cleared(s.home[id]) <==>
            lockFree && s.home[id] == s.table.generation && s.table.process.Some?)
      && (t.phases[id] == Cleared(s.home[id]) || t.phases[id] == Leaving(Failed))
      && t.table == s.table && t.home == s.home
  {
    hide Matched, Held;
  }

  /** A completed write has been received and is waited for; any other one fails its caller and closes the channel. */
  lemma WriteIsExact(s: Sys, id: nat, arrived: bool, completed: bool)
    requires Consistent(s) && Enabled(s, Write(id, arrived, completed))
    ensures var t := Next(s, Write(id, arrived, completed));
      && id in t.phases
      && t.phases[id] == (if completed then Waiting else Leaving(Failed))
      && (completed ==> (s.home[id], id) in t.read && t.table == s.table)
      && (!completed && s.home[id] == s.table.generation ==> t.table.closed)
      && (!completed && s.home[id] != s.table.generation ==> t.table == s.table)
      && t.home == s.home
  {
    hide Matched, Held, Tracked;
  }

  /** A caller whose time is up may look again, for instance for a late answer; if it leaves instead, it timed out. */
  lemma TimeIsUp(s: Sys, id: nat)
    requires Consistent(s) && InPhase(s, id, Unanswered)
    ensures Enabled(s, AwaitAgain(id)) && Next(s, AwaitAgain(id)) == s.(phases := s.phases[id := Waiting])
    ensures Enabled(s, Forget(id)) && Next(s, Forget(id)).phases == s.phases[id := Gone(TimedOut)]
    ensures id !in Next(s, Forget(id)).table.pending && id !in Next(s, Forget(id)).table.responses
  {}

  /**
    With a running process a request that is registered, passes the test and is written goes to that
    process and is then waited for, whatever the other callers and the readers do in between.
  */
  lemma RequestIsSent(s: Sys, id: nat, before: seq<Action>, between: seq<Action>)
    requires Consistent(s) && Enabled(s, Register(id)) && s.table.process.Some?
    requires Legal(Next(s, Register(id)), before) && AllElsewhere(before, id)
    requires forall a :: a in before ==> KeepsProcess(a)
    ensures Enabled(After(Next(s, Register(id)), before), Check(id, true))
    ensures var cleared := Next(After(Next(s, Register(id)), before), Check(id, true));
      Legal(cleared, between) && AllElsewhere(between, id)
      && Enabled(After(cleared, between), Write(id, true, true)) ==>
        var t := Next(After(cleared, between), Write(id, true, true));
        && InPhase(t, id, Waiting) && id in t.home
        && t.home[id] == s.table.process.value == t.table.generation && (t.home[id], id) in t.read
  {
    hide Tracked, Accounted, Matched, Held, Next, Enabled;
    var registered := Next(s, Register(id));
    StepKeepsConsistent(s, Register(id));
    JustRegistered(s, id);
    RunElsewhere(registered, before, id);
    ProcessStays(registered, before);
    var ready := After(registered, before);
    MayCheck(ready, id);
    CheckIsExact(ready, id, true);
    StepKeepsConsistent(ready, Check(id, true));
    var cleared := Next(ready, Check(id, true));
    if Legal(cleared, between) && AllElsewhere(between, id)
      && Enabled(After(cleared, between), Write(id, true, true))
    {
      RunElsewhere(cleared, between, id);
      WriteIsExact(After(cleared, between), id, true, true);
    }
  }

  lemma JustRegistered(s: Sys, id: nat)
    requires Consistent(s) && Enabled(s, Register(id)) && s.table.process.Some?
    ensures var t := Next(s, Register(id));
      && InPhase(t, id, Pending) && id in t.home && t.table.process == s.table.process
      && t.home[id] == t.table.generation == s.table.process.value
  {
    hide Matched, Held, Accounted;
  }

  lemma MayCheck(s: Sys, id: nat)
    requires InPhase(s, id, Pending) && id in s.home
    ensures Enabled(s, Check(id, true))
  {}

  // ----- Ends and restarts -----

  predicate MayClose(a: Action) {
    a.EndOfStream? || (a.Write? && !a.completed) || a.TeardownEnds?
  }

  /** A channel is closed by the end of a stream, by a write that failed or by a teardown, and by nothing else. */
  lemma {:induction false} OpenStaysOpen(s: Sys, run: seq<Action>)
    requires Legal(s, run) && !s.table.closed && forall a :: a in run ==> !MayClose(a)
    ensures !After(s, run).table.closed
    decreases |run|
  {
    hide Next, Enabled;
    if run != [] {
      assert run[0] in run && forall a :: a in run[1..] ==> a in run;
      OpenOnce(s, run[0]);
      OpenStaysOpen(Next(s, run[0]), run[1..]);
    }
  }

  lemma OpenOnce(s: Sys, a: Action)
    requires Enabled(s, a) && !s.table.closed && !MayClose(a)
    ensures !Next(s, a).table.closed
  {}

  /** A teardown that is over has closed the channel, and a caller without a response is told so. */
  lemma TeardownIsNoticed(s: Sys, run: seq<Action>, id: nat, expired: bool)
    requires Consistent(s) && Enabled(s, TeardownEnds)
    requires InFlight(s, id) && Legal(Next(s, TeardownEnds), run) && AllElsewhere(run, id)
    ensures var t := After(Next(s, TeardownEnds), run);
      id !in s.table.responses && Enabled(t, Await(id, expired)) ==>
        Next(t, Await(id, expired)).phases[id] == Leaving(Failed)
  {
    hide Tracked, Accounted, Matched, Held, Next, Enabled;
    TeardownCloses(s);
    StepElsewhere(s, TeardownEnds, id);
    StepKeepsConsistent(s, TeardownEnds);
    RunElsewhere(Next(s, TeardownEnds), run, id);
    var t := After(Next(s, TeardownEnds), run);
    if Enabled(t, Await(id, expired)) {
      AwaitIsExact(t, id, expired);
    }
  }

  lemma TeardownCloses(s: Sys)
    requires Enabled(s, TeardownEnds)
    ensures Next(s, TeardownEnds).table.closed && Next(s, TeardownEnds).lifecycle == Free
  {}

  /** A restart forgets every request of the old process and opens a channel of its own, to the process that it
      starts. */
  lemma RestartIsClean(s: Sys, run: seq<Action>, started: bool)
    requires Consistent(s) && Enabled(s, Respawn) && Legal(Next(s, Respawn), run)
    requires forall a :: a in run ==> !MayClose(a) && !a.Respawn? && !a.Launch?
    ensures Next(s, Respawn).table.pending == map[] && Next(s, Respawn).table.responses == map[]
    ensures Next(s, Respawn).table.generation == s.table.generation + 1
    ensures var t := After(Next(s, Respawn), run);
      Enabled(t, Launch(started)) ==>
        var u := Next(t, Launch(started));
        && u.lifecycle == Free && !u.table.closed
        && u.table.process == if started then Some(s.table.generation + 1) else None
  {
    hide Tracked, Accounted, Matched, Held, Next, Enabled;
    FreshlyRespawned(s);
    OpenStaysOpen(Next(s, Respawn), run);
    StepKeepsConsistent(s, Respawn);
    SpawningKeepsGeneration(Next(s, Respawn), run);
    var t := After(Next(s, Respawn), run);
    if Enabled(t, Launch(started)) {
      LaunchIsExact(t, started);
    }
  }

  lemma FreshlyRespawned(s: Sys)
    requires Enabled(s, Respawn)
    ensures var t := Next(s, Respawn);
      && t.table.pending == map[] && t.table.responses == map[] && !t.table.closed
      && t.table.generation == s.table.generation + 1 && t.table.process.None? && t.lifecycle == Spawning
  {}

  lemma LaunchIsExact(s: Sys, started: bool)
    requires Enabled(s, Launch(started))
    ensures var t := Next(s, Launch(started));
      && t.lifecycle == Free && t.table.closed == s.table.closed
      && t.table.process == if started then Some(s.table.generation) else s.table.process
  {}

  /** Nobody else starts or stops a process while one is being started. */
  lemma {:induction false} SpawningKeepsGeneration(s: Sys, run: seq<Action>)
    requires s.table.process.None? && Legal(s, run) && forall a :: a in run ==> !a.Respawn? && !a.Launch?
    ensures After(s, run).table.generation == s.table.generation && After(s, run).table.process.None?
    decreases |run|
  {
    hide Next, Enabled;
    if run != [] {
      assert run[0] in run && forall a :: a in run[1..] ==> a in run;
      GenerationStaysOnce(s, run[0]);
      SpawningKeepsGeneration(Next(s, run[0]), run[1..]);
    }
  }

  lemma GenerationStaysOnce(s: Sys, a: Action)
    requires Enabled(s, a) && s.table.process.None? && !a.Respawn? && !a.Launch?
    ensures Next(s, a).table.generation == s.table.generation && Next(s, a).table.process.None?
  {}
}

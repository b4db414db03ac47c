/** The append-only event log with per-run sequence numbers. */
module EventLog {
  import opened Lifecycle
  import opened Text

  /** The JSON values that occur in payloads and metadata. */
  datatype Json =
    | Null
    | Number(n: int)
    | Str(text: string)
    | Items(items: seq<Json>)
    | Members(members: map<string, Json>)

  type Metadata = map<string, Json>

  datatype Fact = Fact(source: string, content: string, metadata: Metadata)

  /** A text that the runtime writes. Each fixed message is a constructor that carries its variable parts. */
  datatype Message =
    | Said(text: string)
    | CancellationRequested | CancellationFileExists | StepBudgetExhausted
    | NeedsSynthesis | NeedsContinuation | NoModelOutputYet | NeedAnotherTurn
    | MalformedTool | MalformedHandoff | NotAllowlisted(tool: string) | UnknownBot(bot: string)
    | HandoffWithoutTarget | HandoffNotRegistered(bot: string)
    | ToolWithoutTarget | ToolNotAllowed(tool: string) | ToolNotRegistered(tool: string) | UnsupportedAction
    | GoalEmpty | GoalTooLong | ActiveBotNotRegistered(bot: string)
    | NoCheckpoint | CheckpointWithoutGoal | CheckpointWithoutObservations | CheckpointBotNotRegistered(bot: string)

  datatype Observation = Observation(fact: Fact, id: string)

  /** What a decision, an observation or an outcome leaves in the log, one shape per event kind. */
  datatype Payload =
    | RunCreated(goal: string, provider: string)
    | Transition(from: RunState, to: RunState)
    | Observed(observation: Observation)
    | Decided(decision: Decision)
    | Requested(decision: Decision)
    | LlmResult(text: string, raw: Metadata)
    | ToolResult(tool: string, ok: bool, content: string, metadata: Metadata)
    | HandoffResult(fromBot: Option<string>, toBot: string, summary: Message, allowedTools: set<string>)
    | Checkpoint(snapshot: Snapshot)
    | RunCompleted(answer: Message, steps: int)
    | RunFailed(reason: Message, steps: int)
    | RunCancelled(reason: Message, steps: int)

  datatype Snapshot = Snapshot(
    goal: string, step: int, state: RunState, observations: seq<Observation>, activeBot: Option<string>)

  datatype Action = CallLlm | CallTool | Handoff | Finish | Fail | Cancel

  datatype Rule =
    | CancelFile | DoneOrBudget | ResultNeedsSynthesis | HandoffNeedsContinuation | NoModelOutput
    | MalformedToolRequest | DisallowedToolRequest | RequestedTool
    | MalformedHandoffRequest | UnknownHandoffBot | RequestedHandoff | NeedsFollowup

  /** `argument` is the single value of the decision payload: a reason, an answer, a text or a summary. */
  datatype Decision = Decision(
    action: Action, target: Option<string>, argument: Message, rule: Rule, used: seq<string>)

  /** One event as a run sees it: the state column and the payload. */
  datatype Event = Event(state: RunState, payload: Payload)

  datatype Row = Row(runId: string, seqNo: nat, event: Event)

  /** The events of one run, in table order. */
  function EventsOf(rows: seq<Row>, runId: string): seq<Event> {
    if rows == [] then [] else
      var rest := EventsOf(rows[..|rows| - 1], runId);
      var last := rows[|rows| - 1];
      if last.runId == runId then rest + [last.event] else rest
  }

  /** `COALESCE(MAX(seq), 0)` over the rows of one run. */
  function MaxSeq(rows: seq<Row>, runId: string): nat {
    if rows == [] then 0 else
      var m := MaxSeq(rows[..|rows| - 1], runId);
      var last := rows[|rows| - 1];
      if last.runId == runId && last.seqNo > m then last.seqNo else m
  }

  /** The rows of every run carry the numbers 1, 2, 3, ... in table order. */
  ghost predicate Dense(rows: seq<Row>) {
    forall i :: 0 <= i < |rows| ==> rows[i].seqNo == |EventsOf(rows[..i], rows[i].runId)| + 1
  }

  lemma {:induction false} MaxSeqCountsRows(rows: seq<Row>, runId: string)
    requires Dense(rows)
    ensures MaxSeq(rows, runId) == |EventsOf(rows, runId)|
  {
    if rows != [] {
      var init := rows[..|rows| - 1];
      assert forall i :: 0 <= i < |init| ==> init[..i] == rows[..i] && init[i] == rows[i];
      MaxSeqCountsRows(init, runId);
      assert rows[|rows| - 1].seqNo == |EventsOf(init, rows[|rows| - 1].runId)| + 1;
    }
  }

  /** The log after `events` were appended for one run, each with the next number of that run. */
  function Appended(rows: seq<Row>, runId: string, events: seq<Event>): (r: seq<Row>)
    ensures rows <= r && |r| == |rows| + |events|
  {
    if events == [] then rows else
      var before := Appended(rows, runId, events[..|events| - 1]);
      before + [Row(runId, MaxSeq(before, runId) + 1, events[|events| - 1])]
  }

  lemma {:induction false} AppendedInTwoParts(rows: seq<Row>, runId: string, a: seq<Event>, b: seq<Event>)
    ensures Appended(rows, runId, a + b) == Appended(Appended(rows, runId, a), runId, b)
  {
    hide MaxSeq;
    if b == [] {
      assert a + b == a;
    } else {
      AppendedInTwoParts(rows, runId, a, b[..|b| - 1]);
      assert (a + b)[..|a + b| - 1] == a + b[..|b| - 1];
    }
  }

  lemma EventsOfOneMore(rows: seq<Row>, row: Row, runId: string)
    ensures EventsOf(rows + [row], runId) == EventsOf(rows, runId) + Only(runId == row.runId, [row.event])
  {
    assert (rows + [row])[..|rows|] == rows;
  }

  /** Appending to one run extends exactly that run's events and leaves every other run's events alone. */
  lemma {:induction false} AppendedIsIsolated(rows: seq<Row>, runId: string, events: seq<Event>, other: string)
    ensures EventsOf(Appended(rows, runId, events), other)
         == EventsOf(rows, other) + Only(other == runId, events)
  {
    hide MaxSeq, EventsOf;
    if events != [] {
      var init, last := events[..|events| - 1], events[|events| - 1];
      var before := Appended(rows, runId, init);
      AppendedIsIsolated(rows, runId, init, other);
      EventsOfOneMore(before, Row(runId, MaxSeq(before, runId) + 1, last), other);
      assert events == init + [last];
    }
  }

  /** `events` when the condition holds, nothing otherwise. */
  function Only(condition: bool, events: seq<Event>): seq<Event> {
    if condition then events else []
  }

  lemma DenseOneMore(rows: seq<Row>, runId: string, event: Event)
    requires Dense(rows)
    ensures Dense(rows + [Row(runId, MaxSeq(rows, runId) + 1, event)])
  {
    var after := rows + [Row(runId, MaxSeq(rows, runId) + 1, event)];
    MaxSeqCountsRows(rows, runId);
    forall i | 0 <= i < |after| ensures after[i].seqNo == |EventsOf(after[..i], after[i].runId)| + 1 {
      assert after[..i] == rows[..i];
      if i < |rows| {
        assert after[i] == rows[i];
      } else {
        assert rows[..i] == rows;
      }
    }
  }

  /** The numbering stays 1, 2, 3, ... per run, however the appends of several runs interleave. */
  lemma {:induction false} AppendedStaysDense(rows: seq<Row>, runId: string, events: seq<Event>)
    requires Dense(rows)
    ensures Dense(Appended(rows, runId, events))
  {
    if events != [] {
      AppendedStaysDense(rows, runId, events[..|events| - 1]);
      DenseOneMore(Appended(rows, runId, events[..|events| - 1]), runId, events[|events| - 1]);
    }
  }

  class SQLiteEventLog {
    var rows: seq<Row>

    constructor ()
      ensures rows == []
    {
      rows := [];
    }

    method Append(runId: string, state: RunState, payload: Payload) returns (record: Row)
      modifies this
      ensures rows == Appended(old(rows), runId, [Event(state, payload)])
      ensures rows == old(rows) + [record]
    {
      record := Row(runId, MaxSeq(rows, runId) + 1, Event(state, payload));
      assert Appended(rows, runId, [Event(state, payload)][..0]) == rows;
      rows := rows + [record];
    }

    /**
      The query `WHERE run_id = ? ORDER BY seq`. On a dense log the filter already yields the
      sequence numbers in order, without gaps.
    */
    method ListEvents(runId: string) returns (found: seq<Row>)
      ensures |found| == |EventsOf(rows, runId)|
      ensures forall i :: 0 <= i < |found| ==> found[i].event == EventsOf(rows, runId)[i] && found[i].runId == runId
      ensures Dense(rows) ==> forall i :: 0 <= i < |found| ==> found[i].seqNo == i + 1
    {
      found := [];
      for k := 0 to |rows|
        invariant |found| == |EventsOf(rows[..k], runId)|
        invariant forall i :: 0 <= i < |found| ==>
          found[i].event == EventsOf(rows[..k], runId)[i] && found[i].runId == runId
        invariant Dense(rows) ==> forall i :: 0 <= i < |found| ==> found[i].seqNo == i + 1
      {
        assert rows[..k + 1][..k] == rows[..k];
        if rows[k].runId == runId {
          found := found + [rows[k]];
        }
      }
      assert rows[..|rows|] == rows;
    }
  }
}

/** The lifecycle automaton of one agent run. */
module Lifecycle {
  import opened Text

  datatype RunState = Created | Observing | Deciding | Acting | Succeeded | Failed | Cancelled

  /** The transition table. */
  function Allowed(s: RunState): set<RunState> {
    match s
    case Created => {Observing, Cancelled, Failed}
    case Observing => {Deciding, Cancelled, Failed}
    case Deciding => {Acting, Succeeded, Cancelled, Failed}
    case Acting => {Observing, Succeeded, Cancelled, Failed}
    case Succeeded | Failed | Cancelled => {}
  }

  predicate IsTerminal(s: RunState) {
    s in {Succeeded, Failed, Cancelled}
  }

  class RunStateMachine {
    var state: RunState

    constructor ()
      ensures state == Created
    {
      state := Created;
    }

    /** Moves only along the table; otherwise reports the refused pair and stays put. */
    method TransitionTo(next: RunState) returns (r: Result<(RunState, RunState), (RunState, RunState)>)
      modifies this
      ensures next in Allowed(old(state)) ==> r == Ok((old(state), next)) && state == next
      ensures next !in Allowed(old(state)) ==> r == Err((old(state), next)) && state == old(state)
    {
      if next !in Allowed(state) {
        return Err((state, next));
      }
      var previous := state;
      state := next;
      return Ok((previous, next));
    }
  }

  /** A chain of legal moves. */
  ghost predicate Path(p: seq<RunState>) {
    p != [] && forall i :: 0 <= i < |p| - 1 ==> p[i + 1] in Allowed(p[i])
  }

  /**
    Terminal states absorb: no legal path passes through one. Every live state, on the other
    hand, can still fail or be cancelled at once.
  */
  lemma TerminalStatesAbsorb(p: seq<RunState>, i: nat)
    requires Path(p) && i < |p|
    ensures IsTerminal(p[i]) ==> i == |p| - 1
    ensures !IsTerminal(p[i]) <==> {Failed, Cancelled} <= Allowed(p[i])
  {
    if i < |p| - 1 {
      assert p[i + 1] in Allowed(p[i]);
    }
  }

  /** What leads where: a run observes, decides, and then acts and observes again, or succeeds. */
  lemma MovesAreExact(from: RunState, to: RunState)
    ensures to in Allowed(from) <==>
      match to
      case Created => false
      case Observing => from == Created || from == Acting
      case Deciding => from == Observing
      case Acting => from == Deciding
      case Succeeded => from == Deciding || from == Acting
      case Failed | Cancelled => !IsTerminal(from)
  {}

  /** On any legal path `Succeeded` is entered from `Deciding` or `Acting`, never earlier. */
  lemma {:induction false} SuccessNeedsADecision(p: seq<RunState>)
    requires Path(p) && p[0] == Created && p[|p| - 1] == Succeeded
    ensures |p| >= 4 && Observing in p && Deciding in p
  {
    var n := |p|;
    assert p[1] in Allowed(p[0]);
    TerminalStatesAbsorb(p, 1);
    assert p[1] == Observing;
    assert p[2] in Allowed(p[1]);
    TerminalStatesAbsorb(p, 2);
    assert p[2] == Deciding;
  }
}

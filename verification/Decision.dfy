/** The rule-based decision engine and the directives it reads out of model output. */
module DecisionEngine {
  import opened EventLog
  import opened Text

  const TOOL := "tool:"
  const HANDOFF := "handoff:"
  const LLM := "llm:"

  datatype BotSpec = BotSpec(botId: string, allowedTools: set<string>)

  /** What a decision looks at besides the observations. */
  datatype Policy = Policy(maxSteps: int, allowedTools: set<string>)

  datatype Engine = Engine(providerName: string, bots: map<string, BotSpec>)

  function Facts(observations: seq<Observation>): (facts: seq<Fact>)
    ensures |facts| == |observations|
    ensures forall i :: 0 <= i < |facts| ==> facts[i] == observations[i].fact
  {
    seq(|observations|, i requires 0 <= i < |observations| => observations[i].fact)
  }

  /**
    `_parse_tool_request` and `_parse_handoff_request`: both read `KEYWORD:name:argument`,
    trim the name and keep the argument as it stands.
  */
  function ParseDirective(content: string): Option<(string, string)> {
    var parts := Split(content, ':', 2);
    if |parts| != 3 then None else
      var name, argument := Strip(parts[1]), parts[2];
      if name == "" || Strip(argument) == "" then None else Some((name, argument))
  }

  ghost predicate Spells(content: string, keyword: string, padded: string, argument: string) {
    ':' !in keyword && ':' !in padded && content == keyword + [':'] + padded + [':'] + argument
  }

  lemma {:induction false} ThreeParts(content: string, keyword: string, padded: string, argument: string)
    requires Spells(content, keyword, padded, argument)
    ensures Split(content, ':', 2) == [keyword, padded, argument]
  {
    hide Split;
    var tail := padded + [':'] + argument;
    assert content == keyword + [':'] + tail;
    SplitHead(keyword, ':', tail, 2);
    SplitHead(padded, ':', argument, 1);
    SplitNoMore(argument, ':');
  }

  lemma Associate(a: string, b: string, c: string, d: string, e: string)
    ensures a + b + (c + d + e) == a + b + c + d + e
  {}

  lemma {:induction false} SpelledByItsParts(content: string)
    requires |Split(content, ':', 2)| == 3
    ensures var parts := Split(content, ':', 2);
      Spells(content, parts[0], parts[1], parts[2])
  {
    hide Split, Spells;
    if ':' !in content {
      SplitNothing(content, ':', 2);
    }
    var keyword, tail := FirstCut(content, ':', 2);
    if ':' !in tail {
      SplitNothing(tail, ':', 1);
    }
    var padded, argument := FirstCut(tail, ':', 1);
    SplitNoMore(argument, ':');
    Associate(keyword, [':'], padded, [':'], argument);
    SpelledBy(content, keyword, padded, argument);
  }

  lemma SpelledBy(content: string, keyword: string, padded: string, argument: string)
    requires ':' !in keyword && ':' !in padded && content == keyword + [':'] + padded + [':'] + argument
    ensures Spells(content, keyword, padded, argument)
  {}

  /** A directive as the parser sees it: a name that is not blank once trimmed, an argument that is not blank. */
  ghost predicate IsDirective(content: string, name: string, argument: string) {
    exists keyword, padded ::
      Spells(content, keyword, padded, argument) && Strip(padded) == name && name != "" && Strip(argument) != ""
  }

  /**
    The parser accepts exactly the directives: text before the first colon, a name between the
    first two colons, and everything after the second colon - further colons included - as the
    argument.
  */
  lemma ParseDirectiveIsExact(content: string, name: string, argument: string)
    ensures ParseDirective(content) == Some((name, argument)) <==> IsDirective(content, name, argument)
  {
    hide Strip, Split, Spells;
    if ParseDirective(content) == Some((name, argument)) {
      SpelledByItsParts(content);
    }
    if IsDirective(content, name, argument) {
      var keyword, padded :|
        Spells(content, keyword, padded, argument) && Strip(padded) == name && name != "" && Strip(argument) != "";
      ThreeParts(content, keyword, padded, argument);
    }
  }

  /** What a model prints as `TOOL:name:payload` is what the engine reads back. */
  lemma DirectiveRoundTrip(keyword: string, name: string, argument: string)
    requires ':' !in keyword && ':' !in name && Stripped(name) && name != "" && Strip(argument) != ""
    ensures ParseDirective(keyword + [':'] + name + [':'] + argument) == Some((name, argument))
  {
    StripOfStripped(name);
    assert Spells(keyword + [':'] + name + [':'] + argument, keyword, name, argument);
    ThreeParts(keyword + [':'] + name + [':'] + argument, keyword, name, argument);
  }

  /** The reverse scan: the last index whose source has the prefix. */
  function LatestByPrefix(observations: seq<Observation>, prefix: string): (found: Option<nat>)
    ensures found.Some? ==> found.value < |observations| && prefix <= observations[found.value].fact.source
    ensures found.Some? ==> forall j :: found.value < j < |observations| ==> !(prefix <= observations[j].fact.source)
    ensures found.None? ==> forall j :: 0 <= j < |observations| ==> !(prefix <= observations[j].fact.source)
  {
    if observations == [] then None
    else if prefix <= observations[|observations| - 1].fact.source then Some(|observations| - 1)
    else LatestByPrefix(observations[..|observations| - 1], prefix)
  }

  function DoneAnswer(content: string): string {
    Strip(RemovePrefix(content, "DONE:"))
  }

  /** `decide`: cancellation, then the step budget, then the latest observation, then the latest model output. */
  function Decide(engine: Engine, policy: Policy, observations: seq<Observation>, step: int, cancelled: bool): Decision
    requires observations != []
  {
    var latest := observations[|observations| - 1];
    if cancelled then
      Decision(Cancel, None, CancellationFileExists, CancelFile, [])
    else if step >= policy.maxSteps - 1 then
      Decision(Finish, None, Said(DoneAnswer(latest.fact.content)), DoneOrBudget, [latest.id])
    else if TOOL <= latest.fact.source then
      Ask(engine, NeedsSynthesis, ResultNeedsSynthesis, [latest.id])
    else if HANDOFF <= latest.fact.source then
      Ask(engine, NeedsContinuation, HandoffNeedsContinuation, [latest.id])
    else
      match LatestByPrefix(observations, LLM)
      case None =>
        Ask(engine, NoModelOutputYet, NoModelOutput,
            seq(|observations|, i requires 0 <= i < |observations| => observations[i].id))
      case Some(i) => FollowModel(engine, policy, observations[i])
  }

  /** The part of `decide` that obeys the latest model output. */
  function FollowModel(engine: Engine, policy: Policy, output: Observation): Decision {
    var content := output.fact.content;
    if "TOOL:" <= content then
      match ParseDirective(content)
      case None => Ask(engine, MalformedTool, MalformedToolRequest, [output.id])
      case Some((tool, text)) =>
        if tool !in policy.allowedTools then
          Ask(engine, NotAllowlisted(tool), DisallowedToolRequest, [output.id])
        else
          Decision(CallTool, Some(tool), Said(text), RequestedTool, [output.id])
    else if "HANDOFF:" <= content then
      match ParseDirective(content)
      case None => Ask(engine, MalformedHandoff, MalformedHandoffRequest, [output.id])
      case Some((bot, summary)) =>
        if bot !in engine.bots then
          Decision(Fail, None, UnknownBot(bot), UnknownHandoffBot, [output.id])
        else
          Decision(Action.Handoff, Some(bot), Said(summary), RequestedHandoff, [output.id])
    else if "DONE:" <= content then
      Decision(Finish, None, Said(DoneAnswer(content)), DoneOrBudget, [output.id])
    else
      Ask(engine, NeedAnotherTurn, NeedsFollowup, [output.id])
  }

  function Ask(engine: Engine, reason: Message, rule: Rule, used: seq<string>): Decision {
    Decision(CallLlm, Some(engine.providerName), reason, rule, used)
  }

  /** The latest observation is model output that asks, in a well-formed directive, for `name`. */
  ghost predicate AskedFor(observations: seq<Observation>, keyword: string, name: string, argument: Message) {
    && observations != []
    && var latest := observations[|observations| - 1].fact;
       LLM <= latest.source && keyword <= latest.content
       && argument.Said? && ParseDirective(latest.content) == Some((name, argument.text))
  }

  /** Every observation after the goal came from a model, a tool or a handoff. */
  predicate FromRun(observations: seq<Observation>) {
    && observations != []
    && observations[0].fact.source == "user"
    && forall i :: 1 <= i < |observations| ==>
         var source := observations[i].fact.source;
         LLM <= source || TOOL <= source || HANDOFF <= source
  }

  lemma UserIsNoPrefix()
    ensures !(LLM <= "user") && !(TOOL <= "user") && !(HANDOFF <= "user")
  {
    assert LLM[0] == 'l' && TOOL[0] == 't' && HANDOFF[0] == 'h' && "user"[0] == 'u';
  }

  /**
    In a run the engine acts only on the model output it has just seen: a tool call names an
    allowlisted tool that the latest observation asked for, a handoff names a registered bot the
    latest observation asked for, and a tool result or a handoff is never followed by a second one.
  */
  lemma DecideActsOnLatestOutput(
      engine: Engine, policy: Policy, observations: seq<Observation>, step: int, cancelled: bool)
    requires FromRun(observations)
    ensures var d := Decide(engine, policy, observations, step, cancelled);
      && (d.action == CallTool ==>
            d.target.Some? && d.target.value in policy.allowedTools
            && AskedFor(observations, "TOOL:", d.target.value, d.argument))
      && (d.action == Action.Handoff ==>
            d.target.Some? && d.target.value in engine.bots
            && AskedFor(observations, "HANDOFF:", d.target.value, d.argument))
      && (d.action in {CallTool, Action.Handoff} ==> step < policy.maxSteps - 1 && !cancelled)
      && (step >= policy.maxSteps - 1 ==> d.action in {Cancel, Finish})
  {
    hide ParseDirective, DoneAnswer, Strip;
    UserIsNoPrefix();
  }

  /** The latest observation is model output. */
  predicate ModelSpoke(observations: seq<Observation>) {
    observations != [] && LLM <= observations[|observations| - 1].fact.source
  }

  function LatestContent(observations: seq<Observation>): string
    requires observations != []
  {
    observations[|observations| - 1].fact.content
  }

  lemma LatestIsFound(observations: seq<Observation>)
    requires ModelSpoke(observations)
    ensures LatestByPrefix(observations, LLM) == Some(|observations| - 1)
  {}

  lemma OnePrefix(source: string)
    ensures LLM <= source ==> !(TOOL <= source) && !(HANDOFF <= source)
    ensures TOOL <= source ==> !(HANDOFF <= source)
  {
    assert LLM[0] == 'l' && TOOL[0] == 't' && HANDOFF[0] == 'h';
  }

  lemma OneKeyword(content: string)
    ensures "TOOL:" <= content ==> !("HANDOFF:" <= content) && !("DONE:" <= content)
    ensures "HANDOFF:" <= content ==> !("DONE:" <= content)
  {
    assert "TOOL:"[0] == 'T' && "HANDOFF:"[0] == 'H' && "DONE:"[0] == 'D';
  }

  /**
    What is decided in a run before its last step, as what the latest observation says: the run ends
    with the rest of a `DONE:` exactly when the model said so, a tool or a bot is called exactly when
    a well-formed directive asks for one that is in scope, a bot that nobody knows ends the run, and
    in every other case the model is asked.
  */
  lemma DecisionIsExact(engine: Engine, policy: Policy, observations: seq<Observation>, step: int)
    requires FromRun(observations) && step < policy.maxSteps - 1
    ensures var d := Decide(engine, policy, observations, step, false);
      var content := LatestContent(observations);
      && (d.action == Finish <==> ModelSpoke(observations) && "DONE:" <= content)
      && (d.action == Finish ==> d.argument == Said(Strip(content[5..])))
      && (d.action == CallTool <==>
            exists tool, text :: AskedFor(observations, "TOOL:", tool, text) && tool in policy.allowedTools)
      && (d.action == Action.Handoff <==>
            exists bot, summary :: AskedFor(observations, "HANDOFF:", bot, summary) && bot in engine.bots)
      && (d.action == Fail <==>
            exists bot, summary :: AskedFor(observations, "HANDOFF:", bot, summary) && bot !in engine.bots)
      && (forall name, argument :: d.action == CallTool && AskedFor(observations, "TOOL:", name, argument) ==>
            d.target == Some(name) && d.argument == argument)
      && (forall name, argument :: d.action == Action.Handoff && AskedFor(observations, "HANDOFF:", name, argument) ==>
            d.target == Some(name) && d.argument == argument)
      && (forall name, argument :: d.action == Fail && AskedFor(observations, "HANDOFF:", name, argument) ==>
            d.argument == UnknownBot(name))
      && d.action != Cancel
      && (d.action == CallLlm ==> d.target == Some(engine.providerName))
      && d.used == [observations[|observations| - 1].id]
  {
    hide ParseDirective, Strip, AskedFor, LatestByPrefix;
    UserIsNoPrefix();
    var latest := observations[|observations| - 1];
    OnePrefix(latest.fact.source);
    OneKeyword(latest.fact.content);
    Asking(observations, "TOOL:");
    Asking(observations, "HANDOFF:");
    if ModelSpoke(observations) {
      LatestIsFound(observations);
      var parsed := ParseDirective(latest.fact.content);
      if parsed.Some? {
        var (name, text) := parsed.value;
        assert "TOOL:" <= latest.fact.content ==> AskedFor(observations, "TOOL:", name, Said(text));
        assert "HANDOFF:" <= latest.fact.content ==> AskedFor(observations, "HANDOFF:", name, Said(text));
      }
    } else if |observations| == 1 {
      NoModelYet(observations);
    }
  }

  lemma NoModelYet(observations: seq<Observation>)
    requires |observations| == 1 && !ModelSpoke(observations)
    ensures LatestByPrefix(observations, LLM) == None
  {}

  /** Something is asked for exactly when model output parses as a directive of that keyword. */
  lemma Asking(observations: seq<Observation>, keyword: string)
    requires observations != []
    ensures forall name, argument :: AskedFor(observations, keyword, name, argument) <==>
      && ModelSpoke(observations) && keyword <= LatestContent(observations)
      && argument.Said? && ParseDirective(LatestContent(observations)) == Some((name, argument.text))
  {
    hide ParseDirective;
  }

  /** On the last step the run ends with what was observed last, a cancellation apart. */
  lemma LastStepAnswers(
      engine: Engine, policy: Policy, observations: seq<Observation>, step: int, cancelled: bool)
    requires observations != [] && (cancelled || step >= policy.maxSteps - 1)
    ensures var d := Decide(engine, policy, observations, step, cancelled);
      var content := LatestContent(observations);
      && (cancelled ==> d.action == Cancel && d.argument == CancellationFileExists && d.used == [])
      && (!cancelled ==>
            && d.action == Finish
            && d.argument == Said(Strip(if "DONE:" <= content then content[5..] else content))
            && d.used == [observations[|observations| - 1].id])
  {
    hide Strip;
  }

  /** Why the model is asked again, and which rule says so. */
  lemma ReasonIsExact(engine: Engine, policy: Policy, observations: seq<Observation>, step: int)
    requires FromRun(observations) && step < policy.maxSteps - 1
    ensures var d := Decide(engine, policy, observations, step, false);
      var source, content := observations[|observations| - 1].fact.source, LatestContent(observations);
      && (|observations| == 1 ==> d.argument == NoModelOutputYet && d.rule == NoModelOutput)
      && (|observations| > 1 && TOOL <= source ==> d.argument == NeedsSynthesis && d.rule == ResultNeedsSynthesis)
      && (|observations| > 1 && HANDOFF <= source ==>
            d.argument == NeedsContinuation && d.rule == HandoffNeedsContinuation)
      && (ModelSpoke(observations) && "TOOL:" <= content ==>
            match ParseDirective(content)
            case None => d.argument == MalformedTool && d.rule == MalformedToolRequest
            case Some((tool, _)) =>
              if tool in policy.allowedTools then d.rule == RequestedTool
              else d.argument == NotAllowlisted(tool) && d.rule == DisallowedToolRequest)
      && (ModelSpoke(observations) && "HANDOFF:" <= content ==>
            match ParseDirective(content)
            case None => d.argument == MalformedHandoff && d.rule == MalformedHandoffRequest
            case Some((bot, _)) => d.rule == if bot in engine.bots then RequestedHandoff else UnknownHandoffBot)
      && (ModelSpoke(observations) && !("TOOL:" <= content) && !("HANDOFF:" <= content) ==>
            if "DONE:" <= content then d.rule == DoneOrBudget
            else d.argument == NeedAnotherTurn && d.rule == NeedsFollowup)
  {
    hide ParseDirective, Strip, LatestByPrefix;
    UserIsNoPrefix();
    OnePrefix(observations[|observations| - 1].fact.source);
    OneKeyword(observations[|observations| - 1].fact.content);
    if ModelSpoke(observations) {
      LatestIsFound(observations);
    } else if |observations| == 1 {
      NoModelYet(observations);
    }
  }
}

/** Whole runs of the event stream, and the encoder class that produces them. */
module AnthropicRuns {
  import opened Common
  import opened AnthropicStream

  datatype Call =
    | Start(cacheRead: Option<int>)
    | Reasoning(delta: string)
    | Content(delta: string)
    | Finish(outcome: Outcome)

  function Apply(c: Config, s: State, call: Call): Step {
    match call
    case Start(cacheRead) => AfterStart(c, s, cacheRead)
    case Reasoning(text) => AfterReasoning(s, text)
    case Content(text) => AfterContent(c, s, text)
    case Finish(o) => AfterFinish(c, s, o)
  }

  /** A run so far: the fields, everything emitted, and whether a call threw after it had changed the stream. */
  datatype Run = Run(state: State, emitted: seq<Event>, torn: bool)

  /** The call threw, but not before it had closed or opened blocks. */
  predicate Tears(c: Config, s: State, call: Call) {
    Apply(c, s, call).1.Err? && Apply(c, s, call).0.(drawn := s.drawn) != s
  }

  /** One call more. */
  function Next(c: Config, run: Run, call: Call): Run {
    var (t, r) := Apply(c, run.state, call);
    Run(t, run.emitted + (if r.Ok? then r.value else []), run.torn || Tears(c, run.state, call))
  }

  function RunAll(c: Config, calls: seq<Call>): Run {
    if calls == [] then Run(FRESH, [], false) else Next(c, RunAll(c, calls[..|calls| - 1]), calls[|calls| - 1])
  }

  lemma RunSnoc(c: Config, calls: seq<Call>, call: Call)
    ensures RunAll(c, calls + [call]) == Next(c, RunAll(c, calls), call)
  {
    var all := calls + [call];
    assert all[..|all| - 1] == calls && all[|all| - 1] == call;
  }

  /** What the client has understood of a run that was not torn. */
  ghost predicate InStep(c: Config, run: Run) {
    var client := ReadAll(Waiting, run.emitted, c.isObject);
    if !run.state.started then run.state == FRESH.(drawn := run.state.drawn) && run.emitted == []
    else if run.state.finished then client.Complete?
    else Follows(c, run.state, client)
  }

  /** Only a finish can tear a run. */
  lemma OnlyFinishTears(c: Config, s: State, call: Call)
    ensures Tears(c, s, call) ==> call.Finish? && s.started && !s.finished
  {
  }

  lemma StepKeeps(c: Config, run: Run, call: Call)
    requires InStep(c, run) && !Tears(c, run.state, call)
    ensures InStep(c, Next(c, run, call))
  {
    hide ReadAll, AfterFinish, Rebuilds, AfterReasoning, AfterContent;
    var s := run.state;
    var client := ReadAll(Waiting, run.emitted, c.isObject);
    var (t, r) := Apply(c, s, call);
    ReadNothing(Waiting, c.isObject);
    assert run.emitted + [] == run.emitted;
    if r.Err? {
      FollowsIgnoresDraws(c, s, t, client);
    } else {
      ReadConcat(Waiting, run.emitted, r.value, c.isObject);
      match call
      case Start(cacheRead) => StartedStep(c, s, cacheRead); StartFollows(c, s, cacheRead);
      case Reasoning(text) => ReasoningStep(c, s, text); ReasoningFollows(c, s, client, text);
      case Content(text) => ContentStep(c, s, text); ContentFollows(c, s, client, text);
      case Finish(o) =>
        FinishStep(c, s, o);
        FinishRebuilds(c, s, client, o, c.ids, s.drawn);
        RebuildsComplete(c, o, ReadAll(client, r.value, c.isObject), c.ids, s.drawn);
    }
  }

  lemma RebuildsComplete(c: Config, o: Outcome, client: Client, ids: nat -> string, from: nat)
    requires Rebuilds(c, o, client, ids, from)
    ensures client.Complete?
  {
  }

  lemma FollowsIgnoresDraws(c: Config, s: State, t: State, client: Client)
    requires t.(drawn := s.drawn) == s
    ensures Follows(c, s, client) ==> Follows(c, t, client)
  {
  }

  lemma StartedStep(c: Config, s: State, cacheRead: Option<int>)
    ensures AfterStart(c, s, cacheRead).1.Ok? ==> !s.started && !s.finished
  {
  }

  lemma ReasoningStep(c: Config, s: State, text: string)
    ensures var (t, r) := AfterReasoning(s, text);
            r.Ok? ==> s.started && !s.finished && !s.textOpen && t.started && !t.finished
  {
  }

  lemma ContentStep(c: Config, s: State, text: string)
    ensures var (t, r) := AfterContent(c, s, text);
            r.Ok? ==> s.started && !s.finished && t.started && !t.finished
  {
  }

  lemma FinishStep(c: Config, s: State, o: Outcome)
    ensures var (t, r) := AfterFinish(c, s, o);
            r.Ok? ==> s.started && !s.finished && t.started && t.finished
  {
    hide AfterSuffix, AfterText, AfterTools, StopPresentation;
    if s.started && s.reasoning <= o.reasoning && s.content <= o.text {
      StartedKept(c, s, o);
    }
  }

  lemma StartedKept(c: Config, s: State, o: Outcome)
    requires s.reasoning <= o.reasoning && s.content <= o.text && s.started
    ensures AfterSuffix(s, o.reasoning).0.started && AfterSuffix(s, o.reasoning).0.content <= o.text
    ensures AfterText(c, AfterSuffix(s, o.reasoning).0, o.text).0.started
    ensures forall t: State, n: nat :: t.started && n <= |o.toolCalls| ==> AfterTools(c, t, o.toolCalls, n).0.started
  {
    forall t: State, n: nat | t.started && n <= |o.toolCalls| ensures AfterTools(c, t, o.toolCalls, n).0.started {
      ToolsKeepStarted(c, t, o.toolCalls, n);
    }
  }

  lemma {:induction false} ToolsKeepStarted(c: Config, s: State, calls: seq<ToolCall>, n: nat)
    requires n <= |calls|
    ensures AfterTools(c, s, calls, n).0.started == s.started
  {
    if n > 0 { ToolsKeepStarted(c, s, calls, n - 1); }
  }

  /** In every run that no late failure tore, the client has read everything emitted without a fault. */
  lemma {:induction false} EveryRunInStep(c: Config, calls: seq<Call>)
    requires !RunAll(c, calls).torn
    ensures InStep(c, RunAll(c, calls))
  {
    if calls != [] {
      var before, call := RunAll(c, calls[..|calls| - 1]), calls[|calls| - 1];
      EveryRunInStep(c, calls[..|calls| - 1]);
      StepKeeps(c, before, call);
    }
  }

  /** Every run of deltas that ends in a successful finish rebuilds the aggregate answer. */
  lemma RunRebuilds(c: Config, calls: seq<Call>, o: Outcome, ids: nat -> string, from: nat)
    requires !RunAll(c, calls).torn
    requires Apply(c, RunAll(c, calls).state, Finish(o)).1.Ok?
    ensures var client := ReadAll(Waiting, RunAll(c, calls + [Finish(o)]).emitted, c.isObject);
            Rebuilds(c, o, client, ids, from) && client.Complete? && Tells(c.identity, o, client.message)
  {
    hide ReadAll, AfterFinish, Rebuilds, Follows, Tells;
    EveryRunInStep(c, calls);
    var run := RunAll(c, calls);
    RunSnoc(c, calls, Finish(o));
    FinishStep(c, run.state, o);
    var events := AfterFinish(c, run.state, o).1.value;
    ReadConcat(Waiting, run.emitted, events, c.isObject);
    FinishRebuilds(c, run.state, ReadAll(Waiting, run.emitted, c.isObject), o, ids, from);
    RebuiltTells(c, o, ReadAll(Waiting, run.emitted + events, c.isObject), ids, from);
  }

  // ----- Torn runs

  predicate BlockOpen(s: State) { s.thinkingOpen || s.textOpen }

  /** Started, not finished, and no block open as far as the stream knows. */
  predicate Idle(s: State) { s.started && !s.finished && !BlockOpen(s) }

  /** The client waits for the end of a block that the stream believes closed, or has met a fault already. */
  ghost predicate Stuck(c: Config, run: Run) {
    var client := ReadAll(Waiting, run.emitted, c.isObject);
    client.Broken? || (client.Streaming? && client.current.Some? && Idle(run.state))
  }

  /** The client has seen no block, but the stream has already given away a block index. */
  ghost predicate Hollow(c: Config, run: Run) {
    var client := ReadAll(Waiting, run.emitted, c.isObject);
    && client.Streaming? && client.identity == c.identity && client.blocks == [] && client.current == None
    && Idle(run.state) && run.state.nextIndex > 0
  }

  predicate Kept(s: State, t: State) {
    t.started == s.started && t.finished == s.finished && t.thinkingOpen == s.thinkingOpen && t.textOpen == s.textOpen
    && t.nextIndex >= s.nextIndex && (t.nextIndex == s.nextIndex ==> t == s)
  }

  lemma {:induction false} ToolsKeep(c: Config, s: State, calls: seq<ToolCall>, n: nat)
    requires n <= |calls|
    ensures Kept(s, AfterTools(c, s, calls, n).0)
  {
    if n > 0 { ToolsKeep(c, s, calls, n - 1); }
  }

  /** A finish that throws either left everything alone or left every block closed; with no block open to begin
      with, it then gave away an index. */
  lemma FinishThrows(c: Config, s: State, o: Outcome)
    requires AfterFinish(c, s, o).1.Err?
    ensures var t := AfterFinish(c, s, o).0;
            || t.(drawn := s.drawn) == s
            || (s.started && Idle(t) && t.nextIndex >= s.nextIndex && (!BlockOpen(s) ==> t.nextIndex > s.nextIndex))
  {
    hide AfterTools, StopPresentation;
    forall t: State, n: nat | n <= |o.toolCalls| ensures Kept(t, AfterTools(c, t, o.toolCalls, n).0) {
      ToolsKeep(c, t, o.toolCalls, n);
    }
  }

  lemma Throws(c: Config, s: State, call: Call)
    requires Apply(c, s, call).1.Err?
    ensures var t := Apply(c, s, call).0;
            || t.(drawn := s.drawn) == s
            || (call.Finish? && s.started && !s.finished && Idle(t) && t.nextIndex >= s.nextIndex
                && (!BlockOpen(s) ==> t.nextIndex > s.nextIndex))
  {
    if call.Finish? { FinishThrows(c, s, call.outcome); }
  }

  /** With every block closed, the next call that succeeds starts a block with the next index or ends the message. */
  lemma NextStartsOrEnds(c: Config, s: State, call: Call)
    requires Idle(s) && Apply(c, s, call).1.Ok?
    ensures var events := Apply(c, s, call).1.value;
            events != [] && ((events[0].BlockStart? && events[0].index == s.nextIndex)
                             || (call.Finish? && events[0].MessageDelta?))
  {
    if call.Finish? { FinishStartsOrEnds(c, s, call.outcome); }
  }

  lemma FinishStartsOrEnds(c: Config, s: State, o: Outcome)
    requires Idle(s) && AfterFinish(c, s, o).1.Ok?
    ensures var events := AfterFinish(c, s, o).1.value;
            && events != []
            && ((events[0].BlockStart? && events[0].index == s.nextIndex) || events[0].MessageDelta?)
    ensures var events := AfterFinish(c, s, o).1.value;
            events[0].MessageDelta? ==>
              && o.toolCalls == [] && o.reasoning == s.reasoning && o.text == s.content && StopPresentation(o).Ok?
              && events == [MessageDelta(StopPresentation(o).value, FinalUsage(o)), MessageStop]
  {
    hide AfterTools, StopPresentation;
    var (s1, thinking) := AfterSuffix(s, o.reasoning);
    var (s2, text) := AfterText(c, s1, o.text);
    var (s3, closeThinking) := ThinkingClosed(c, s2);
    var (s4, closeText) := TextClosed(s3);
    ToolsStart(c, s4, o.toolCalls, |o.toolCalls|);
    assert |s.reasoning| == |o.reasoning| && s.reasoning <= o.reasoning ==> s.reasoning == o.reasoning;
    assert |s.content| == |o.text| && s.content <= o.text ==> s.content == o.text;
    var last := [MessageDelta(StopPresentation(o).value, FinalUsage(o)), MessageStop];
    assert [] + last == last;
  }

  lemma {:induction false} ToolsStart(c: Config, s: State, calls: seq<ToolCall>, n: nat)
    requires n <= |calls|
    ensures var r := AfterTools(c, s, calls, n).1;
            && (r.Ok? && r.value != [] ==> r.value[0].BlockStart? && r.value[0].index == s.nextIndex)
            && (r.Ok? && r.value == [] ==> n == 0)
    ensures n == 0 ==> AfterTools(c, s, calls, n) == (s, Ok([]))
  {
    if n > 0 {
      ToolsStart(c, s, calls, n - 1);
      if n == 1 { assert AfterTools(c, s, calls, 0) == (s, Ok([])); }
    }
  }

  /** A client that breaks on the first event is broken. */
  lemma FirstBreaks(client: Client, events: seq<Event>, isObject: string -> bool)
    requires events != [] && Read(client, events[0], isObject) == Broken
    ensures ReadAll(client, events, isObject) == Broken
  {
    assert events == [events[0]] + events[1..];
    ReadConcat(client, [events[0]], events[1..], isObject);
    ReadOne(client, events[0], isObject);
    BrokenStays(events[1..], isObject);
  }

  lemma StuckStep(c: Config, run: Run, call: Call)
    requires Stuck(c, run)
    ensures Stuck(c, Next(c, run, call))
  {
    hide ReadAll, AfterFinish, AfterReasoning, AfterContent;
    var (t, r) := Apply(c, run.state, call);
    var client := ReadAll(Waiting, run.emitted, c.isObject);
    assert run.emitted + [] == run.emitted;
    if r.Ok? {
      ReadConcat(Waiting, run.emitted, r.value, c.isObject);
      if client.Broken? {
        BrokenStays(r.value, c.isObject);
      } else {
        NextStartsOrEnds(c, run.state, call);
        FirstBreaks(client, r.value, c.isObject);
      }
    } else {
      Throws(c, run.state, call);
    }
  }

  /** From a hollow run a call that succeeds breaks the client, or is a finish with nothing to show. */
  lemma HollowStep(c: Config, run: Run, call: Call)
    requires Hollow(c, run)
    ensures var after := Next(c, run, call);
            Hollow(c, after) || Stuck(c, after) || (call.Finish? && Apply(c, run.state, call).1.Ok?)
  {
    hide ReadAll, AfterFinish, AfterReasoning, AfterContent;
    var (t, r) := Apply(c, run.state, call);
    var client := ReadAll(Waiting, run.emitted, c.isObject);
    assert run.emitted + [] == run.emitted;
    if r.Ok? {
      ReadConcat(Waiting, run.emitted, r.value, c.isObject);
      NextStartsOrEnds(c, run.state, call);
      if r.value[0].BlockStart? { FirstBreaks(client, r.value, c.isObject); }
    } else {
      Throws(c, run.state, call);
    }
  }

  /** What a tear leaves: a stuck client if a block was open, a hollow run otherwise. */
  lemma TearLeaves(c: Config, run: Run, call: Call)
    requires InStep(c, run) && Tears(c, run.state, call)
    ensures Stuck(c, Next(c, run, call)) || Hollow(c, Next(c, run, call))
  {
    hide ReadAll, AfterFinish, AfterReasoning, AfterContent;
    Throws(c, run.state, call);
    assert run.emitted + [] == run.emitted;
  }

  lemma TornStep(c: Config, run: Run, call: Call)
    ensures Next(c, run, call).torn <==> run.torn || Tears(c, run.state, call)
    ensures Next(c, run, call).state == Apply(c, run.state, call).0
  {
  }

  /** Every run is understood, or torn and stuck, or torn and hollow, or over. */
  ghost predicate Known(c: Config, run: Run) {
    run.state.finished || if run.torn then Stuck(c, run) || Hollow(c, run) else InStep(c, run)
  }

  lemma FinishedStays(c: Config, s: State, call: Call)
    requires s.finished
    ensures Apply(c, s, call).0 == s && Apply(c, s, call).1.Err?
  {
  }

  lemma KnownStep(c: Config, run: Run, call: Call)
    requires Known(c, run)
    ensures Known(c, Next(c, run, call))
  {
    hide ReadAll, Apply, Next, Tears, Stuck, Hollow, InStep;
    TornStep(c, run, call);
    if run.state.finished {
      FinishedStays(c, run.state, call);
    } else if run.torn {
      if Stuck(c, run) {
        StuckStep(c, run, call);
      } else {
        HollowStep(c, run, call);
        SuccessFinishes(c, run.state, call);
      }
    } else if Tears(c, run.state, call) {
      TearLeaves(c, run, call);
    } else {
      StepKeeps(c, run, call);
    }
  }

  lemma SuccessFinishes(c: Config, s: State, call: Call)
    ensures call.Finish? && Apply(c, s, call).1.Ok? ==> Apply(c, s, call).0.finished
  {
    if call.Finish? { FinishStep(c, s, call.outcome); }
  }

  lemma {:induction false} EveryRunKnown(c: Config, calls: seq<Call>)
    ensures Known(c, RunAll(c, calls))
  {
    hide Known, Next, InStep;
    if calls == [] {
      EveryRunInStep(c, calls);
      KnownAtStart(c);
    } else {
      EveryRunKnown(c, calls[..|calls| - 1]);
      KnownStep(c, RunAll(c, calls[..|calls| - 1]), calls[|calls| - 1]);
    }
  }

  lemma KnownAtStart(c: Config)
    requires InStep(c, Run(FRESH, [], false))
    ensures Known(c, Run(FRESH, [], false))
  {
  }

  /** A started run begins with the message start. */
  lemma {:induction false} StartsWithStart(c: Config, calls: seq<Call>)
    ensures var run := RunAll(c, calls);
            if run.state.started then run.emitted != [] && run.emitted[0].MessageStart? else run.emitted == []
  {
    hide AfterFinish, AfterSuffix, AfterText;
    if calls != [] {
      StartsWithStart(c, calls[..|calls| - 1]);
      var s, call := RunAll(c, calls[..|calls| - 1]).state, calls[|calls| - 1];
      StartedOnce(c, s, call);
    }
  }

  lemma StartedOnce(c: Config, s: State, call: Call)
    ensures var (t, r) := Apply(c, s, call);
            && (s.started ==> t.started)
            && (!s.started && t.started ==> r.Ok? && r.value != [] && r.value[0].MessageStart?)
            && (!s.started && !t.started ==> r.Err?)
  {
    hide AfterSuffix, AfterText, AfterTools, StopPresentation;
    if call.Finish? && s.started && s.reasoning <= call.outcome.reasoning && s.content <= call.outcome.text {
      StartedKept(c, s, call.outcome);
    }
  }

  /** Nothing to show: no block in the answer, and no event so far but the message start. */
  ghost predicate NothingToShow(run: Run, o: Outcome) {
    o.reasoning == "" && o.text == "" && o.toolCalls == [] && |run.emitted| == 1
  }

  /** A client in the middle of a message without any block has read one event. */
  lemma HollowEmitted(emitted: seq<Event>, isObject: string -> bool)
    requires emitted != []
    requires var client := ReadAll(Waiting, emitted, isObject);
             client.Streaming? && client.blocks == [] && client.current == None
    ensures |emitted| == 1
  {
    var before, last := emitted[..|emitted| - 1], emitted[|emitted| - 1];
    var client := ReadAll(Waiting, before, isObject);
    assert ReadAll(Waiting, emitted, isObject) == Read(client, last, isObject);
    if before != [] { NeverWaitingAgain(Waiting, before, isObject); }
  }

  lemma NeverWaitingAgain(client: Client, events: seq<Event>, isObject: string -> bool)
    requires events != []
    ensures !ReadAll(client, events, isObject).Waiting?
  {
  }

  lemma ShownBlocks(c: Config, s: State, o: Outcome)
    requires Idle(s) && AfterFinish(c, s, o).1.Ok? && o.reasoning == "" && o.text == "" && o.toolCalls == []
    ensures AfterFinish(c, s, o).1.value[0].MessageDelta?
  {
  }

  lemma StuckShown(c: Config, run: Run)
    requires Stuck(c, run) && run.emitted != [] && run.emitted[0].MessageStart?
    ensures |run.emitted| != 1
  {
    if |run.emitted| == 1 {
      assert run.emitted == [run.emitted[0]];
      ReadOne(Waiting, run.emitted[0], c.isObject);
      assert false;
    }
  }

  /** A finish from a hollow run rebuilds the answer just when there is nothing to show. */
  lemma HollowFinish(c: Config, run: Run, o: Outcome, ids: nat -> string, from: nat)
    requires Hollow(c, run) && run.emitted != [] && AfterFinish(c, run.state, o).1.Ok?
    ensures Rebuilds(c, o, ReadAll(Waiting, run.emitted + AfterFinish(c, run.state, o).1.value, c.isObject), ids, from)
            <==> NothingToShow(run, o)
  {
    hide ReadAll, AfterFinish, Essence;
    var client := ReadAll(Waiting, run.emitted, c.isObject);
    var events := AfterFinish(c, run.state, o).1.value;
    ReadConcat(Waiting, run.emitted, events, c.isObject);
    FinishStartsOrEnds(c, run.state, o);
    HollowEmitted(run.emitted, c.isObject);
    if events[0].BlockStart? {
      FirstBreaks(client, events, c.isObject);
      if NothingToShow(run, o) { ShownBlocks(c, run.state, o); }
    } else {
      EndFollows(client, StopPresentation(o).value, FinalUsage(o), c.isObject);
      EssenceOfNothing();
      PlainIsEssential(c.identity, o.reasoning, o.text);
      assert PlainBlocks(c.identity, o.reasoning, o.text) + ToolBlocks([], ids, from) == PlainBlocks(c.identity,
            o.reasoning, o.text);
    }
  }

  lemma ErrOutcome(c: Config, s: State, o: Outcome)
    requires s.started && !s.finished && AfterFinish(c, s, o).1.Err?
    ensures Continues(s, o) ==> !BlockOpen(AfterFinish(c, s, o).0)
    ensures !Continues(s, o) ==> AfterFinish(c, s, o).0 == s
  {
    hide AfterTools, StopPresentation;
    forall t: State, n: nat | n <= |o.toolCalls| ensures Kept(t, AfterTools(c, t, o.toolCalls, n).0) {
      ToolsKeep(c, t, o.toolCalls, n);
    }
    assert s.reasoning <= o.reasoning && |s.reasoning| == |o.reasoning| ==> s.reasoning == o.reasoning;
  }

  /** With a block open, finish tears the run exactly when the outcome continues the stream but has no aggregate
      answer. */
  lemma TearsExactly(c: Config, s: State, client: Client, o: Outcome, ids: nat -> string, from: nat)
    requires Follows(c, s, client) && BlockOpen(s)
    ensures Tears(c, s, Finish(o)) <==> Continues(s, o) && Aggregate(c.identity, o, c.isObject, ids, from).Err?
  {
    hide AfterFinish, Rebuilds, Aggregate;
    FinishRebuilds(c, s, client, o, ids, from);
    if AfterFinish(c, s, o).1.Err? { ErrOutcome(c, s, o); }
  }

  /** A first block of the answer that finish would open: reasoning, text, or a tool call with an object. */
  predicate OpensBlock(o: Outcome, isObject: string -> bool) {
    o.reasoning != "" || o.text != "" || (o.toolCalls != [] && isObject(o.toolCalls[0].arguments))
  }

  /** The tool loop gives away an index exactly when the first call is good. */
  lemma {:induction false} ToolsGive(c: Config, s: State, calls: seq<ToolCall>, n: nat)
    requires n <= |calls|
    ensures n == 0 || !c.isObject(calls[0].arguments) ==> AfterTools(c, s, calls, n).0 == s
    ensures n > 0 && !c.isObject(calls[0].arguments) ==> AfterTools(c, s, calls, n).1.Err?
    ensures n > 0 && c.isObject(calls[0].arguments) ==> AfterTools(c, s, calls, n).0.nextIndex > s.nextIndex
  {
    if n > 0 {
      ToolsGive(c, s, calls, n - 1);
      if n == 1 { assert AfterTools(c, s, calls, 0) == (s, Ok([])); }
    }
  }

  /** With nothing streamed yet, finish tears the run exactly when the outcome has no aggregate answer but has a
      first block. */
  lemma TearsIdle(c: Config, s: State, client: Client, o: Outcome, ids: nat -> string, from: nat)
    requires Follows(c, s, client) && !BlockOpen(s)
    ensures Tears(c, s, Finish(o)) <==>
            Aggregate(c.identity, o, c.isObject, ids, from).Err? && OpensBlock(o, c.isObject)
  {
    hide AfterFinish, Rebuilds, Aggregate;
    FinishRebuilds(c, s, client, o, ids, from);
    if AfterFinish(c, s, o).1.Err? { IdleThrows(c, s, o); }
  }

  lemma IdleThrows(c: Config, s: State, o: Outcome)
    requires Idle(s) && s.reasoning == s.content == "" && AfterFinish(c, s, o).1.Err?
    ensures AfterFinish(c, s, o).0.(drawn := s.drawn) != s <==> OpensBlock(o, c.isObject)
  {
    hide AfterTools, StopPresentation;
    forall t: State, n: nat | n <= |o.toolCalls| ensures Kept(t, AfterTools(c, t, o.toolCalls, n).0) {
      ToolsKeep(c, t, o.toolCalls, n);
    }
    ToolsGive(c, s, o.toolCalls, |o.toolCalls|);
  }

  // ----- The tear as the caller and the client see it

  /** The reasoning and the text the client has read. */
  function ReasoningRead(client: Client): string
    requires client.Streaming?
  {
    var blocks := client.blocks + if client.current.Some? then [client.current.value] else [];
    if blocks != [] && blocks[0].Thinking? then blocks[0].thinking else ""
  }

  function TextRead(client: Client): string
    requires client.Streaming?
  {
    if client.current.Some? && client.current.value.Text? then client.current.value.text else ""
  }

  /** An outcome that continues what the client has read, has no aggregate answer, and finds or opens a block. */
  predicate CutsOff(c: Config, client: Client, o: Outcome) {
    && client.Streaming?
    && ReasoningRead(client) <= o.reasoning && TextRead(client) <= o.text
    && (client.current.Some? && client.current.value.Text? ==> ReasoningRead(client) == o.reasoning)
    && Aggregate(c.identity, o, c.isObject, c.ids, 0).Err?
    && (client.current.Some? || OpensBlock(o, c.isObject))
  }

  lemma TearsAsRead(c: Config, s: State, client: Client, o: Outcome)
    requires Follows(c, s, client)
    ensures Tears(c, s, Finish(o)) <==> CutsOff(c, client, o)
  {
    hide Tears, Aggregate;
    if BlockOpen(s) {
      TearsExactly(c, s, client, o, c.ids, 0);
    } else {
      TearsIdle(c, s, client, o, c.ids, 0);
    }
  }

  /** The client after the first k calls. */
  function ClientAfter(c: Config, calls: seq<Call>, k: nat): Client
    requires k <= |calls|
  {
    ReadAll(Waiting, RunAll(c, calls[..k]).emitted, c.isObject)
  }

  /** The k-th call is a finish that cuts the client off. */
  predicate CutOffAt(c: Config, calls: seq<Call>, k: nat)
    requires k < |calls|
  {
    calls[k].Finish? && CutsOff(c, ClientAfter(c, calls, k), calls[k].outcome)
  }

  lemma TearIsCut(c: Config, run: Run, call: Call)
    requires InStep(c, run)
    ensures Tears(c, run.state, call)
            <==> call.Finish? && CutsOff(c, ReadAll(Waiting, run.emitted, c.isObject), call.outcome)
  {
    hide Tears, ReadAll, CutsOff, Follows;
    OnlyFinishTears(c, run.state, call);
    var client := ReadAll(Waiting, run.emitted, c.isObject);
    CutsOffStreaming(c, client);
    if run.state.started && !run.state.finished {
      if call.Finish? { TearsAsRead(c, run.state, client, call.outcome); }
    } else {
      ReadNothing(Waiting, c.isObject);
    }
  }

  lemma CutsOffStreaming(c: Config, client: Client)
    ensures forall o :: CutsOff(c, client, o) ==> client.Streaming?
  {
  }

  /** A run is torn exactly when one of its finishes cut the client off. */
  lemma {:induction false} TornExactly(c: Config, calls: seq<Call>)
    ensures RunAll(c, calls).torn <==> exists k :: 0 <= k < |calls| && CutOffAt(c, calls, k)
  {
    hide InStep, CutsOff, Tears, ReadAll, Apply;
    if calls != [] {
      var n := |calls| - 1;
      var front := calls[..n];
      TornExactly(c, front);
      TornStep(c, RunAll(c, front), calls[n]);
      forall k | 0 <= k < n ensures CutOffAt(c, front, k) <==> CutOffAt(c, calls, k) {
        assert front[..k] == calls[..k];
      }
      if !RunAll(c, front).torn {
        EveryRunInStep(c, front);
        TearIsCut(c, RunAll(c, front), calls[n]);
        assert CutOffAt(c, calls, n) <==> Tears(c, RunAll(c, front).state, calls[n]);
      }
    }
  }

  /** A finish that succeeds rebuilds the answer if and only if no earlier finish cut the client off, or there is
      nothing to show. */
  lemma RebuildsExactly(c: Config, calls: seq<Call>, o: Outcome, ids: nat -> string, from: nat)
    requires Apply(c, RunAll(c, calls).state, Finish(o)).1.Ok?
    ensures Rebuilds(c, o, ReadAll(Waiting, RunAll(c, calls + [Finish(o)]).emitted, c.isObject), ids, from)
            <==> (forall k :: 0 <= k < |calls| ==> !CutOffAt(c, calls, k)) || NothingToShow(RunAll(c, calls), o)
  {
    hide ReadAll, AfterFinish, RunAll, InStep, Hollow, NothingToShow, CutOffAt;
    TornExactly(c, calls);
    EveryRunKnown(c, calls);
    StartsWithStart(c, calls);
    var run := RunAll(c, calls);
    FinishStep(c, run.state, o);
    if !run.torn {
      RunRebuilds(c, calls, o, ids, from);
    } else {
      RunSnoc(c, calls, Finish(o));
      if Stuck(c, run) {
        StuckStep(c, run, Finish(o));
        StuckShown(c, run);
        NothingCounts(run, o);
      } else {
        HollowFinish(c, run, o, ids, from);
      }
    }
  }

  lemma NothingCounts(run: Run, o: Outcome)
    ensures NothingToShow(run, o) ==> |run.emitted| == 1
  {
  }

  /** The concrete failure: reasoning is streamed, a finish throws because the generation was cancelled, and a
      second finish succeeds; the client never sees the thinking block close. */
  lemma LateFailureBreaks(c: Config)
    ensures var cancelled := Outcome("", "a", [], 1, 1, 1, 0, Cancelled, None);
            var ended := cancelled.(finishReason := StopToken);
            var calls := [Start(None), Reasoning("a"), Finish(cancelled)];
            && Apply(c, RunAll(c, calls).state, Finish(ended)).1.Ok?
            && RunAll(c, calls).torn
            && !Rebuilds(c, ended, ReadAll(Waiting, RunAll(c, calls + [Finish(ended)]).emitted, c.isObject), c.ids, 0)
  {
    hide RunAll, Next, Rebuilds, ReadAll, AfterFinish;
    var cancelled := Outcome("", "a", [], 1, 1, 1, 0, Cancelled, None);
    var ended := cancelled.(finishReason := StopToken);
    var calls := [Start(None), Reasoning("a"), Finish(cancelled)];
    var s1 := FRESH.(started := true);
    var s2 := s1.(thinkingOpen := true, nextIndex := 1, reasoning := "a");
    FirstTwoCalls(c);
    CancelledThrows(c, s2, cancelled);
    EndedSucceeds(c, s2.(thinkingOpen := false), ended);
    assert calls[..0] == [] && calls[..1] == [Start(None)] && calls[..2] == [Start(None), Reasoning("a")];
    assert calls == calls[..2] + [Finish(cancelled)];
    RunSnoc(c, calls[..2], Finish(cancelled));
    NextOf(c, RunAll(c, calls[..2]), Finish(cancelled));
    TornExactly(c, calls);
    RebuildsExactly(c, calls, ended, c.ids, 0);
  }

  lemma NextOf(c: Config, run: Run, call: Call)
    ensures Next(c, run, call).state == Apply(c, run.state, call).0
    ensures Next(c, run, call).torn <==> run.torn || Tears(c, run.state, call)
  {
  }

  lemma FirstTwoCalls(c: Config)
    ensures var run := RunAll(c, [Start(None), Reasoning("a")]);
            run.state == FRESH.(started := true, thinkingOpen := true, nextIndex := 1, reasoning := "a")
  {
    hide RunAll;
    RunStart(c);
    RunSnoc(c, [], Start(None));
    RunSnoc(c, [Start(None)], Reasoning("a"));
    assert [] + [Start(None)] == [Start(None)] && [Start(None)] + [Reasoning("a")] == [Start(None), Reasoning("a")];
    assert "" + "a" == "a";
  }

  lemma RunStart(c: Config)
    ensures RunAll(c, []) == Run(FRESH, [], false)
  {
  }

  lemma CancelledThrows(c: Config, s: State, o: Outcome)
    requires s.started && !s.finished && s.thinkingOpen && !s.textOpen && s.reasoning == o.reasoning
             && s.content == o.text == ""
    requires o.toolCalls == [] && o.finishReason == Cancelled
    ensures AfterFinish(c, s, o) == (s.(thinkingOpen := false), Err(LogicError))
  {
  }

  lemma EndedSucceeds(c: Config, s: State, o: Outcome)
    requires s.started && !s.finished && !BlockOpen(s) && s.reasoning == o.reasoning && s.content == o.text == ""
    requires o.toolCalls == [] && o.finishReason == StopToken
    ensures AfterFinish(c, s, o).1.Ok?
  {
  }
}

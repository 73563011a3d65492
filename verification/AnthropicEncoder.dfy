/** The encoder object: its methods change its fields as the stream functions say. */
module AnthropicEncoder {
  import opened Common
  import opened AnthropicStream
  import opened AnthropicRuns

  /** static_cast<int> of a 32-bit count. */
  function AsInt(n: nat): int
    requires n <= UINT32_MAX
  {
    if n > INT32_MAX then n - (UINT32_MAX + 1) else n
  }

  class AnthropicMessagesStream {
    const config: Config
    var started: bool
    var finished: bool
    var thinkingOpen: bool
    var textOpen: bool
    var nextIndex: nat
    var thinkingIndex: nat
    var textIndex: nat
    var reasoning: string
    var content: string
    /** How many random identifiers have been drawn. */
    var drawn: nat
    /** Every call made so far, and what it has emitted. */
    ghost var calls: seq<Call>
    ghost var emitted: seq<Event>

    function Fields(): State
      reads this
    {
      State(started, finished, thinkingOpen, textOpen, nextIndex, thinkingIndex, textIndex, reasoning, content, drawn)
    }

    /** The object is where the run of its calls leads. */
    ghost predicate Valid()
      reads this
    {
      Fields() == RunAll(config, calls).state && emitted == RunAll(config, calls).emitted
    }

    constructor (config: Config)
      ensures Valid() && this.config == config && calls == [] && emitted == []
    {
      this.config := config;
      started, finished, thinkingOpen, textOpen := false, false, false, false;
      nextIndex, thinkingIndex, textIndex, drawn := 0, 0, 0, 0;
      reasoning, content, calls, emitted := "", "", [], [];
    }

    /** The call goes down in the history. */
    ghost method Note(call: Call, r: Result<seq<Event>>, before: State)
      requires Fields() == Apply(config, before, call).0 && r == Apply(config, before, call).1
      requires before == RunAll(config, calls).state && emitted == RunAll(config, calls).emitted
      modifies this`calls, this`emitted
      ensures Valid() && calls == old(calls) + [call]
      ensures emitted == old(emitted) + if r.Ok? then r.value else []
    {
      RunSnoc(config, calls, call);
      calls := calls + [call];
      emitted := emitted + if r.Ok? then r.value else [];
    }

    /** start() without an engine start event. */
    method Start() returns (r: Result<seq<Event>>)
      requires Valid()
      modifies this
      ensures Valid() && calls == old(calls) + [Call.Start(None)]
      ensures (Fields(), r) == AfterStart(config, old(Fields()), None)
    {
      r := StartWithCache(None);
    }

    /** start(generation): the engine's prompt count must be the one the request was counted with.  The reused
        count goes through an int, so counts above INT_MAX turn negative. */
    method StartGeneration(promptTokens: nat, reusedPromptTokens: nat) returns (r: Result<seq<Event>>)
      requires Valid() && promptTokens <= UINT32_MAX && reusedPromptTokens <= UINT32_MAX
      modifies this
      ensures Valid()
      ensures promptTokens != config.inputTokens % (UINT32_MAX + 1) ==>
                r == Err(LogicError) && Fields() == old(Fields()) && calls == old(calls)
      ensures promptTokens == config.inputTokens % (UINT32_MAX + 1) ==>
                var reused := if reusedPromptTokens > 0x7FFF_FFFF then reusedPromptTokens - 0x1_0000_0000
                              else reusedPromptTokens;
                && calls == old(calls) + [Call.Start(Some(reused))]
                && (Fields(), r) == AfterStart(config, old(Fields()), Some(reused))
                && (r.Ok? ==>
                      r.value[0].MessageStart? && TellsStart(config.inputTokens, Some(reused), r.value[0].usage))
    {
      hide TellsStart;
      if promptTokens != config.inputTokens % (UINT32_MAX + 1) { return Err(LogicError); }
      r := StartWithCache(Some(AsInt(reusedPromptTokens)));
      if r.Ok? { StartTells(config, old(Fields()), Some(AsInt(reusedPromptTokens))); }
    }

    method StartWithCache(cacheRead: Option<int>) returns (r: Result<seq<Event>>)
      requires Valid()
      modifies this
      ensures Valid() && calls == old(calls) + [Call.Start(cacheRead)]
      ensures (Fields(), r) == AfterStart(config, old(Fields()), cacheRead)
    {
      if started || finished {
        r := Err(LogicError);
      } else {
        started := true;
        r := Ok([MessageStart(config.identity, StartUsage(config.inputTokens, cacheRead))]);
      }
      Note(Call.Start(cacheRead), r, old(Fields()));
    }

    method ReasoningEvents(text: string) returns (r: Result<seq<Event>>)
      modifies this`thinkingOpen, this`thinkingIndex, this`nextIndex, this`reasoning
      ensures (Fields(), r) == AfterReasoning(old(Fields()), text)
    {
      if !started || finished || textOpen { return Err(LogicError); }
      var events: seq<Event> := [];
      if !thinkingOpen {
        thinkingIndex := nextIndex;
        nextIndex := nextIndex + 1;
        thinkingOpen := true;
        events := events + [BlockStart(thinkingIndex, Thinking("", ""))];
      }
      reasoning := reasoning + text;
      if text != "" { events := events + [BlockDelta(thinkingIndex, ThinkingDelta(text))]; }
      assert events == AfterReasoning(old(Fields()), text).1.value;
      r := Ok(events);
    }

    method CloseThinking() returns (events: seq<Event>)
      modifies this`thinkingOpen
      ensures (Fields(), events) == ThinkingClosed(config, old(Fields()))
    {
      events := [];
      if !thinkingOpen { return; }
      events := events + [BlockDelta(thinkingIndex, SignatureDelta(config.identity.messageId))];
      events := events + [BlockStop(thinkingIndex)];
      assert events == ThinkingClosed(config, old(Fields())).1;
      thinkingOpen := false;
    }

    method ContentEvents(text: string) returns (r: Result<seq<Event>>)
      modifies this`thinkingOpen, this`textOpen, this`textIndex, this`nextIndex, this`content
      ensures (Fields(), r) == AfterContent(config, old(Fields()), text)
    {
      if !started || finished { return Err(LogicError); }
      var events := CloseThinking();
      if !textOpen {
        textIndex := nextIndex;
        nextIndex := nextIndex + 1;
        textOpen := true;
        events := events + [BlockStart(textIndex, Text(""))];
      }
      content := content + text;
      if text != "" { events := events + [BlockDelta(textIndex, TextDelta(text))]; }
      assert events == AfterContent(config, old(Fields()), text).1.value;
      r := Ok(events);
    }

    method CloseText() returns (events: seq<Event>)
      modifies this`textOpen
      ensures (Fields(), events) == TextClosed(old(Fields()))
    {
      if !textOpen { return []; }
      textOpen := false;
      events := [BlockStop(textIndex)];
    }

    method ReasoningDelta(text: string) returns (r: Result<seq<Event>>)
      requires Valid()
      modifies this
      ensures Valid() && calls == old(calls) + [Call.Reasoning(text)]
      ensures (Fields(), r) == AfterReasoning(old(Fields()), text)
    {
      r := ReasoningEvents(text);
      Note(Call.Reasoning(text), r, old(Fields()));
    }

    method ContentDelta(text: string) returns (r: Result<seq<Event>>)
      requires Valid()
      modifies this
      ensures Valid() && calls == old(calls) + [Call.Content(text)]
      ensures (Fields(), r) == AfterContent(config, old(Fields()), text)
    {
      r := ContentEvents(text);
      Note(Call.Content(text), r, old(Fields()));
    }

    /** The tool blocks of the outcome, one start, one delta and one stop each. */
    method ToolEvents(toolCalls: seq<ToolCall>) returns (r: Result<seq<Event>>)
      modifies this`nextIndex, this`drawn
      ensures var (t, tools) := AfterTools(config, old(Fields()), toolCalls, |toolCalls|);
              Fields() == t.(drawn := old(drawn) + |toolCalls|) && r == tools
    {
      hide AfterTools;
      var first := drawn;
      NoTools(config, old(Fields()), toolCalls);
      drawn := drawn + |toolCalls|;
      var events: seq<Event> := [];
      for i := 0 to |toolCalls|
        invariant drawn == old(drawn) + |toolCalls|
        invariant (Fields().(drawn := old(drawn)), Ok(events)) == AfterTools(config, old(Fields()), toolCalls, i)
      {
        var call := toolCalls[i];
        NextTool(config, old(Fields()), toolCalls, i);
        if !config.isObject(call.arguments) {
          ToolsStop(config, old(Fields()), toolCalls, i + 1, |toolCalls|);
          return Err(LogicError);
        }
        var index := nextIndex;
        nextIndex := nextIndex + 1;
        events := events + [BlockStart(index, ToolUse(config.ids(first + i), call.name, "")),
                            BlockDelta(index, InputJsonDelta(call.arguments)), BlockStop(index)];
      }
      r := Ok(events);
    }

    method Finish(o: Outcome) returns (r: Result<seq<Event>>)
      requires Valid()
      modifies this
      ensures Valid() && calls == old(calls) + [Call.Finish(o)]
      ensures (Fields(), r) == AfterFinish(config, old(Fields()), o)
      ensures r.Ok? ==>
                (Rebuilds(config, o, ReadAll(Waiting, emitted, config.isObject), config.ids, old(drawn))
                 <==> (forall k :: 0 <= k < |old(calls)| ==> !CutOffAt(config, old(calls), k))
                      || NothingToShow(RunAll(config, old(calls)), o))
      ensures r.Ok? ==>
                var client := ReadAll(Waiting, emitted, config.isObject);
                client.Complete? ==> TellsStop(o, client.message.stop) && TellsUsage(o, client.message.usage)
      ensures r.Ok? && (forall k :: 0 <= k < |old(calls)| ==> !CutOffAt(config, old(calls), k)) ==>
                var client := ReadAll(Waiting, emitted, config.isObject);
                client.Complete? && Tells(config.identity, o, client.message)
    {
      hide AfterFinish, ReadAll, CutOffAt, Rebuilds, NothingToShow, Tells, TellsStop, TellsUsage, RunAll;
      r := FinishEvents(o);
      ghost var before, fields := emitted, old(Fields());
      Note(Call.Finish(o), r, fields);
      if r.Ok? {
        RebuildsExactly(config, old(calls), o, config.ids, old(drawn));
        ghost var client := ReadAll(Waiting, emitted, config.isObject);
        if Rebuilds(config, o, client, config.ids, old(drawn)) {
          RebuiltTells(config, o, client, config.ids, old(drawn));
        }
        FinishTells(config, fields, o);
        assert emitted[|before|..] == r.value;
        if client.Complete? { LastTold(Waiting, emitted, config.isObject); }
      }
    }

    /** The reasoning that finish still has to stream. */
    method SuffixEvents(complete: string) returns (r: Result<seq<Event>>)
      requires reasoning <= complete
      modifies this`thinkingOpen, this`thinkingIndex, this`nextIndex, this`reasoning
      ensures (Fields(), r) == AfterSuffix(old(Fields()), complete)
    {
      hide AfterReasoning;
      var suffix := complete[|reasoning|..];
      if suffix == "" { return Ok([]); }
      if textOpen { return Err(LogicError); }
      r := ReasoningEvents(suffix);
    }

    method TextEvents(complete: string) returns (r: Result<seq<Event>>)
      requires content <= complete
      modifies this`thinkingOpen, this`textOpen, this`textIndex, this`nextIndex, this`content
      ensures (Fields(), r) == AfterText(config, old(Fields()), complete)
    {
      hide AfterContent;
      var suffix := complete[|content|..];
      if suffix == "" { return Ok([]); }
      r := ContentEvents(suffix);
    }

    method FinishEvents(o: Outcome) returns (r: Result<seq<Event>>)
      modifies this`finished, this`thinkingOpen, this`textOpen, this`thinkingIndex, this`textIndex, this`nextIndex,
               this`reasoning, this`content, this`drawn
      ensures (Fields(), r) == AfterFinish(config, old(Fields()), o)
    {
      hide AfterSuffix, AfterText, AfterTools, StopPresentation, ThinkingClosed, TextClosed;
      if !started || finished { return Err(LogicError); }
      if !(reasoning <= o.reasoning) || !(content <= o.text) { return Err(LogicError); }
      ContentKept(Fields(), o.reasoning);
      var events: seq<Event> := [];
      var thinking := SuffixEvents(o.reasoning);
      if thinking.Err? { return thinking; }
      var text := TextEvents(o.text);
      if text.Err? { return text; }
      events := events + thinking.value + text.value;
      var closeThinking := CloseThinking();
      events := events + closeThinking;
      var closeText := CloseText();
      events := events + closeText;
      var tools := ToolEvents(o.toolCalls);
      if tools.Err? { return tools; }
      events := events + tools.value;
      var stop := StopPresentation(o);
      if stop.Err? { return Err(stop.error); }
      events := events + [MessageDelta(stop.value, FinalUsage(o))] + [MessageStop];
      finished := true;
      assert events == AfterFinish(config, old(Fields()), o).1.value;
      r := Ok(events);
    }
  }

  lemma {:induction false} ToolsStop(c: Config, s: State, calls: seq<ToolCall>, n: nat, m: nat)
    requires n <= m <= |calls| && AfterTools(c, s, calls, n).1.Err?
    ensures AfterTools(c, s, calls, m) == AfterTools(c, s, calls, n)
  {
    if n < m { ToolsStop(c, s, calls, n, m - 1); }
  }
}

/** The Anthropic Messages event stream, a client that folds it, and the aggregate answer it must rebuild. */
module AnthropicStream {
  import opened Common

  datatype FinishReason = NoReason | StopToken | StopString | OutputLimit | ContextCapacity | Cancelled

  datatype ToolCall = ToolCall(name: string, arguments: string)

  datatype Outcome = Outcome(
    text: string, reasoning: string, toolCalls: seq<ToolCall>, promptTokens: int, completionTokens: int,
    reasoningTokens: int, cacheHitTokens: nat, finishReason: FinishReason, matchedStopString: Option<string>)

  datatype Identity = Identity(messageId: string, model: string)

  datatype Stop = Stop(reason: string, sequence: Option<string>)

  datatype Usage = Usage(input: int, cacheRead: Option<int>, output: int, thinking: Option<int>)

  datatype Block =
    | Thinking(thinking: string, signature: string)
    | Text(text: string)
    | ToolUse(id: string, name: string, input: string)

  datatype Message = Message(identity: Identity, content: seq<Block>, stop: Stop, usage: Usage)

  datatype Delta = ThinkingDelta(thinking: string) | SignatureDelta(signature: string) | TextDelta(text: string)
                 | InputJsonDelta(json: string)

  datatype Event =
    | MessageStart(identity: Identity, usage: Usage)
    | BlockStart(index: nat, block: Block)
    | BlockDelta(index: nat, delta: Delta)
    | BlockStop(index: nat)
    | MessageDelta(stop: Stop, usage: Usage)
    | MessageStop

  // ----- The aggregate answer

  /** stop_presentation: tool calls win; cancelled generations have no answer. */
  function StopPresentation(o: Outcome): Result<Stop> {
    if o.toolCalls != [] then Ok(Stop("tool_use", None)) else
    match o.finishReason
    case OutputLimit => Ok(Stop("max_tokens", None))
    case ContextCapacity => Ok(Stop("model_context_window_exceeded", None))
    case StopString =>
      if o.matchedStopString.None? then Err(LogicError) else Ok(Stop("stop_sequence", o.matchedStopString))
    case StopToken => Ok(Stop("end_turn", None))
    case NoReason => Ok(Stop("end_turn", None))
    case Cancelled => Err(LogicError)
  }

  function FinalUsage(o: Outcome): Usage {
    var prompt := Max(0, o.promptTokens);
    var cached := Min(o.cacheHitTokens, prompt);
    Usage(prompt - cached, Some(cached), Max(0, o.completionTokens), Some(Max(0, o.reasoningTokens)))
  }

  function StartUsage(inputTokens: int, cacheRead: Option<int>): Usage {
    var prompt := Max(0, inputTokens);
    match cacheRead
    case Some(n) => var cached := Max(0, Min(n, prompt)); Usage(prompt - cached, Some(cached), 0, None)
    case None => Usage(prompt, None, 0, None)
  }

  /** Ids are drawn at random; the i-th draw is ids(i). */
  function ToolBlocks(calls: seq<ToolCall>, ids: nat -> string, from: nat): (blocks: seq<Block>)
    ensures |blocks| == |calls|
    ensures forall i :: 0 <= i < |calls| ==> blocks[i] == ToolUse(ids(from + i), calls[i].name, calls[i].arguments)
  {
    seq(|calls|, i requires 0 <= i < |calls| => ToolUse(ids(from + i), calls[i].name, calls[i].arguments))
  }

  /** Every tool call carries a JSON object. */
  predicate ObjectsOnly(calls: seq<ToolCall>, isObject: string -> bool) {
    forall i :: 0 <= i < |calls| ==> isObject(calls[i].arguments)
  }

  function PlainBlocks(identity: Identity, reasoning: string, text: string): seq<Block> {
    (if reasoning == "" then [] else [Thinking(reasoning, identity.messageId)])
      + (if text == "" then [] else [Text(text)])
  }

  /** make_anthropic_messages_response. */
  function Aggregate(identity: Identity, o: Outcome, isObject: string -> bool, ids: nat -> string,
                     from: nat): Result<Message>
  {
    if !ObjectsOnly(o.toolCalls, isObject) then Err(LogicError) else
    var stop :- StopPresentation(o);
    Ok(Message(identity, PlainBlocks(identity, o.reasoning, o.text) + ToolBlocks(o.toolCalls, ids, from), stop,
               FinalUsage(o)))
  }

  // ----- A client

  datatype Client =
    | Waiting
    | Streaming(identity: Identity, blocks: seq<Block>, current: Option<Block>)
    | Stopping(message: Message)
    | Complete(message: Message)
    | Broken

  /** A block as its start event shows it: with nothing in it yet. */
  predicate Fresh(b: Block) {
    match b
    case Thinking(t, s) => t == "" && s == ""
    case Text(t) => t == ""
    case ToolUse(_, _, input) => input == ""
  }

  /** A delta appended to the block it belongs to. */
  function Grown(b: Block, d: Delta): Option<Block> {
    match (b, d)
    case (Thinking(t, s), ThinkingDelta(x)) => Some(Thinking(t + x, s))
    case (Thinking(t, s), SignatureDelta(x)) => Some(Thinking(t, s + x))
    case (Text(t), TextDelta(x)) => Some(Text(t + x))
    case (ToolUse(id, name, input), InputJsonDelta(x)) => Some(ToolUse(id, name, input + x))
    case _ => None
  }

  /** One event read strictly: blocks are numbered 0, 1, 2, ..., never nested, and closed before the end. */
  function Read(c: Client, e: Event, isObject: string -> bool): Client {
    match e
    case MessageStart(identity, _) => if c.Waiting? then Streaming(identity, [], None) else Broken
    case BlockStart(index, block) =>
      if c.Streaming? && c.current.None? && index == |c.blocks| && Fresh(block) then
        c.(current := Some(block))
      else Broken
    case BlockDelta(index, delta) =>
      if c.Streaming? && c.current.Some? && index == |c.blocks| && Grown(c.current.value, delta).Some? then
        c.(current := Grown(c.current.value, delta))
      else Broken
    case BlockStop(index) =>
      if c.Streaming? && c.current.Some? && index == |c.blocks|
         && (c.current.value.ToolUse? ==> isObject(c.current.value.input)) then
        c.(blocks := c.blocks + [c.current.value], current := None)
      else Broken
    case MessageDelta(stop, usage) =>
      if c.Streaming? && c.current.None? then Stopping(Message(c.identity, c.blocks, stop, usage)) else Broken
    case MessageStop => if c.Stopping? then Complete(c.message) else Broken
  }

  function ReadAll(c: Client, events: seq<Event>, isObject: string -> bool): Client {
    if events == [] then c else Read(ReadAll(c, events[..|events| - 1], isObject), events[|events| - 1], isObject)
  }

  lemma {:induction false} ReadConcat(c: Client, a: seq<Event>, b: seq<Event>, isObject: string -> bool)
    ensures ReadAll(c, a + b, isObject) == ReadAll(ReadAll(c, a, isObject), b, isObject)
  {
    if b == [] {
      assert a + b == a;
    } else {
      ReadConcat(c, a, b[..|b| - 1], isObject);
      assert (a + b)[..|a + b| - 1] == a + b[..|b| - 1];
    }
  }

  lemma ReadOne(c: Client, e: Event, isObject: string -> bool)
    ensures ReadAll(c, [e], isObject) == Read(c, e, isObject)
  {
    assert [e][..0] == [];
    assert ReadAll(c, [], isObject) == c;
  }

  /** A broken client stays broken. */
  lemma {:induction false} BrokenStays(events: seq<Event>, isObject: string -> bool)
    ensures ReadAll(Broken, events, isObject) == Broken
  {
    if events != [] { BrokenStays(events[..|events| - 1], isObject); }
  }

  /** What of a block counts: nothing of an empty thinking or text block, and a tool call without its random id. */
  function Kernel(b: Block): seq<Block> {
    match b
    case Thinking(t, _) => if t == "" then [] else [b]
    case Text(t) => if t == "" then [] else [b]
    case ToolUse(_, name, input) => [ToolUse("", name, input)]
  }

  /** The blocks without what a client may ignore. */
  function Essence(blocks: seq<Block>): seq<Block> {
    if blocks == [] then [] else Essence(blocks[..|blocks| - 1]) + Kernel(blocks[|blocks| - 1])
  }

  lemma {:induction false} EssenceConcat(a: seq<Block>, b: seq<Block>)
    ensures Essence(a + b) == Essence(a) + Essence(b)
  {
    hide Kernel;
    if b == [] {
      assert a + b == a;
    } else {
      var front, last := b[..|b| - 1], Kernel(b[|b| - 1]);
      EssenceConcat(a, front);
      assert (a + b)[..|a + b| - 1] == a + front && (a + b)[|a + b| - 1] == b[|b| - 1];
      assert (Essence(a) + Essence(front)) + last == Essence(a) + (Essence(front) + last);
    }
  }

  lemma {:induction false} EssenceIgnoresIds(calls: seq<ToolCall>, ids: nat -> string, from: nat, ids': nat -> string,
                                             from': nat)
    ensures Essence(ToolBlocks(calls, ids, from)) == Essence(ToolBlocks(calls, ids', from'))
  {
    if calls != [] {
      var n := |calls| - 1;
      EssenceIgnoresIds(calls[..n], ids, from, ids', from');
      assert ToolBlocks(calls, ids, from)[..n] == ToolBlocks(calls[..n], ids, from);
      assert ToolBlocks(calls, ids', from')[..n] == ToolBlocks(calls[..n], ids', from');
    }
  }

  // ----- The stream, as a function of its fields

  datatype Config = Config(identity: Identity, inputTokens: int, isObject: string -> bool, ids: nat -> string)

  datatype State = State(
    started: bool, finished: bool, thinkingOpen: bool, textOpen: bool, nextIndex: nat, thinkingIndex: nat,
    textIndex: nat, reasoning: string, content: string, drawn: nat)

  const FRESH := State(false, false, false, false, 0, 0, 0, "", "", 0)

  /** What a call leaves behind, and the events it returns or the error it throws. */
  type Step = (State, Result<seq<Event>>)

  function AfterStart(c: Config, s: State, cacheRead: Option<int>): Step {
    if s.started || s.finished then (s, Err(LogicError)) else
    (s.(started := true), Ok([MessageStart(c.identity, StartUsage(c.inputTokens, cacheRead))]))
  }

  function AfterReasoning(s: State, text: string): Step {
    if !s.started || s.finished || s.textOpen then (s, Err(LogicError)) else
    var index := if s.thinkingOpen then s.thinkingIndex else s.nextIndex;
    var opening := if s.thinkingOpen then [] else [BlockStart(index, Thinking("", ""))];
    (s.(thinkingOpen := true, thinkingIndex := index,
        nextIndex := if s.thinkingOpen then s.nextIndex else s.nextIndex + 1, reasoning := s.reasoning + text),
     Ok(opening + if text == "" then [] else [BlockDelta(index, ThinkingDelta(text))]))
  }

  function ThinkingClosed(c: Config, s: State): (State, seq<Event>) {
    if !s.thinkingOpen then (s, []) else
    (s.(thinkingOpen := false),
     [BlockDelta(s.thinkingIndex, SignatureDelta(c.identity.messageId)), BlockStop(s.thinkingIndex)])
  }

  function TextClosed(s: State): (State, seq<Event>) {
    if !s.textOpen then (s, []) else (s.(textOpen := false), [BlockStop(s.textIndex)])
  }

  function AfterContent(c: Config, s: State, text: string): Step {
    if !s.started || s.finished then (s, Err(LogicError)) else
    var (t, closing) := ThinkingClosed(c, s);
    var index := if t.textOpen then t.textIndex else t.nextIndex;
    var opening := if t.textOpen then [] else [BlockStart(index, Text(""))];
    (t.(textOpen := true, textIndex := index, nextIndex := if t.textOpen then t.nextIndex else t.nextIndex + 1,
        content := t.content + text),
     Ok(closing + opening + if text == "" then [] else [BlockDelta(index, TextDelta(text))]))
  }

  /** The first n tool calls as blocks of their own; a call without a JSON object throws. */
  function AfterTools(c: Config, s: State, calls: seq<ToolCall>, n: nat): Step
    requires n <= |calls|
  {
    if n == 0 then (s, Ok([])) else
    var (t, before) := AfterTools(c, s, calls, n - 1);
    if before.Err? || !c.isObject(calls[n - 1].arguments) then (t, Err(LogicError)) else
    (t.(nextIndex := t.nextIndex + 1),
     Ok(before.value + [BlockStart(t.nextIndex, ToolUse(c.ids(s.drawn + n - 1), calls[n - 1].name, "")),
                        BlockDelta(t.nextIndex, InputJsonDelta(calls[n - 1].arguments)), BlockStop(t.nextIndex)]))
  }

  /** The reasoning that has not been streamed yet. */
  function AfterSuffix(s: State, reasoning: string): Step
    requires s.reasoning <= reasoning
  {
    if |reasoning| == |s.reasoning| then (s, Ok([])) else
    if s.textOpen then (s, Err(LogicError)) else AfterReasoning(s, reasoning[|s.reasoning|..])
  }

  function AfterText(c: Config, s: State, text: string): Step
    requires s.content <= text
  {
    if |text| == |s.content| then (s, Ok([])) else AfterContent(c, s, text[|s.content|..])
  }

  lemma ContentKept(s: State, reasoning: string)
    requires s.reasoning <= reasoning
    ensures AfterSuffix(s, reasoning).0.content == s.content
  {
  }

  function AfterFinish(c: Config, s: State, o: Outcome): Step {
    if !s.started || s.finished then (s, Err(LogicError)) else
    if !(s.reasoning <= o.reasoning) || !(s.content <= o.text) then (s, Err(LogicError)) else
    ContentKept(s, o.reasoning);
    var (s1, thinking) := AfterSuffix(s, o.reasoning);
    if thinking.Err? then (s1, thinking) else
    var (s2, text) := AfterText(c, s1, o.text);
    if text.Err? then (s2, text) else
    var (s3, closeThinking) := ThinkingClosed(c, s2);
    var (s4, closeText) := TextClosed(s3);
    var (s5, tools) := AfterTools(c, s4, o.toolCalls, |o.toolCalls|);
    var s6 := s5.(drawn := s4.drawn + |o.toolCalls|);
    if tools.Err? then (s6, tools) else
    var stop := StopPresentation(o);
    if stop.Err? then (s6, Err(stop.error)) else
    (s6.(finished := true),
     Ok(thinking.value + text.value + closeThinking + closeText + tools.value
        + [MessageDelta(stop.value, FinalUsage(o)), MessageStop]))
  }

  // ----- The client follows the stream

  /** Blocks closed before any text: the thinking block, if there was one. */
  ghost predicate ThinkingDone(c: Config, s: State, blocks: seq<Block>) {
    (blocks == [] && s.reasoning == "") || blocks == [Thinking(s.reasoning, c.identity.messageId)]
  }

  ghost predicate AtBlock(c: Config, s: State, client: Client) {
    && s.started && !s.finished && client.Streaming? && client.identity == c.identity
    && s.nextIndex == |client.blocks| + (if client.current.Some? then 1 else 0)
  }

  /** Between two calls: nothing yet, inside the thinking block, or inside the text block. */
  ghost predicate Follows(c: Config, s: State, client: Client) {
    && AtBlock(c, s, client) && !(s.thinkingOpen && s.textOpen)
    && (s.thinkingOpen ==> s.thinkingIndex == 0 && client.blocks == [] && s.content == ""
                           && client.current == Some(Thinking(s.reasoning, "")))
    && (s.textOpen ==> s.textIndex == |client.blocks| && ThinkingDone(c, s, client.blocks)
                       && client.current == Some(Text(s.content)))
    && (!s.thinkingOpen && !s.textOpen ==>
          client.blocks == [] && client.current == None && s.reasoning == "" && s.content == "")
  }

  /** Thinking is closed; text may be open. */
  ghost predicate PastThinking(c: Config, s: State, client: Client) {
    && AtBlock(c, s, client) && !s.thinkingOpen && ThinkingDone(c, s, client.blocks)
    && (if s.textOpen then s.textIndex == |client.blocks| && client.current == Some(Text(s.content))
        else client.current == None && s.content == "")
  }

  /** Every block is closed, and the blocks say what was streamed. */
  ghost predicate AllClosed(c: Config, s: State, client: Client) {
    && AtBlock(c, s, client) && !s.thinkingOpen && !s.textOpen && client.current == None
    && Essence(client.blocks) == PlainBlocks(c.identity, s.reasoning, s.content)
  }

  lemma ReadTwo(client: Client, a: Event, b: Event, isObject: string -> bool)
    ensures ReadAll(client, [a, b], isObject) == Read(Read(client, a, isObject), b, isObject)
  {
    assert [a, b] == [a] + [b];
    ReadConcat(client, [a], [b], isObject);
    ReadOne(client, a, isObject);
    ReadOne(Read(client, a, isObject), b, isObject);
  }

  lemma ReadNothing(client: Client, isObject: string -> bool)
    ensures ReadAll(client, [], isObject) == client
  {
  }

  lemma StartFollows(c: Config, s: State, cacheRead: Option<int>)
    requires s == FRESH.(drawn := s.drawn)
    ensures var (t, r) := AfterStart(c, s, cacheRead);
            r.Ok? && Follows(c, t, ReadAll(Waiting, r.value, c.isObject))
  {
    ReadOne(Waiting, MessageStart(c.identity, StartUsage(c.inputTokens, cacheRead)), c.isObject);
  }

  lemma ReasoningFollows(c: Config, s: State, client: Client, text: string)
    requires Follows(c, s, client) && !s.textOpen
    ensures var (t, r) := AfterReasoning(s, text);
            r.Ok? && Follows(c, t, ReadAll(client, r.value, c.isObject))
            && ReadAll(client, r.value, c.isObject)
               == client.(current := Some(Thinking(s.reasoning + text, "")))
  {
    hide ReadAll;
    ReasoningShown(c, s, client, text);
  }

  lemma ReasoningShown(c: Config, s: State, client: Client, text: string)
    requires Follows(c, s, client) && !s.textOpen
    ensures AfterReasoning(s, text).1.Ok? && client.Streaming?
    ensures ReadAll(client, AfterReasoning(s, text).1.value, c.isObject)
         == client.(current := Some(Thinking(s.reasoning + text, "")))
  {
    hide ReadAll;
    var index := if s.thinkingOpen then s.thinkingIndex else s.nextIndex;
    var start, delta := BlockStart(index, Thinking("", "")), BlockDelta(index, ThinkingDelta(text));
    ReadNothing(client, c.isObject);
    ReadOne(client, start, c.isObject);
    ReadOne(client, delta, c.isObject);
    ReadTwo(client, start, delta, c.isObject);
    assert [start] + [delta] == [start, delta] && [start] + [] == [start] && [] + [delta] == [delta];
    assert s.reasoning + "" == s.reasoning && "" + text == text;
  }

  lemma CloseThinkingFollows(c: Config, s: State, client: Client)
    requires Follows(c, s, client)
    ensures var (t, events) := ThinkingClosed(c, s);
            PastThinking(c, t, ReadAll(client, events, c.isObject))
  {
    hide ReadAll;
    ReadNothing(client, c.isObject);
    ReadTwo(client, BlockDelta(s.thinkingIndex, SignatureDelta(c.identity.messageId)), BlockStop(s.thinkingIndex),
            c.isObject);
    assert "" + c.identity.messageId == c.identity.messageId;
  }

  lemma OpenTextFollows(c: Config, s: State, client: Client, text: string)
    requires PastThinking(c, s, client)
    ensures var index := if s.textOpen then s.textIndex else s.nextIndex;
            var opening := if s.textOpen then [] else [BlockStart(index, Text(""))];
            var events := opening + if text == "" then [] else [BlockDelta(index, TextDelta(text))];
            var t := s.(textOpen := true, textIndex := index,
                        nextIndex := if s.textOpen then s.nextIndex else s.nextIndex + 1, content := s.content + text);
            Follows(c, t, ReadAll(client, events, c.isObject))
  {
    hide ReadAll;
    var index := if s.textOpen then s.textIndex else s.nextIndex;
    var start, delta := BlockStart(index, Text("")), BlockDelta(index, TextDelta(text));
    ReadNothing(client, c.isObject);
    ReadOne(client, start, c.isObject);
    ReadOne(client, delta, c.isObject);
    ReadTwo(client, start, delta, c.isObject);
    assert [start] + [delta] == [start, delta] && [start] + [] == [start] && [] + [delta] == [delta];
    assert s.content + "" == s.content && "" + text == text;
  }

  lemma ContentFollows(c: Config, s: State, client: Client, text: string)
    requires Follows(c, s, client)
    ensures var (t, r) := AfterContent(c, s, text);
            r.Ok? && Follows(c, t, ReadAll(client, r.value, c.isObject))
            && ReadAll(client, r.value, c.isObject)
               == client.(current := Some(Text(s.content + text)),
                          blocks := client.blocks + if !s.thinkingOpen then []
                                                    else [Thinking(s.reasoning, c.identity.messageId)])
  {
    hide ReadAll;
    var (t, closing) := ThinkingClosed(c, s);
    CloseThinkingFollows(c, s, client);
    OpenTextFollows(c, t, ReadAll(client, closing, c.isObject), text);
    var index := if t.textOpen then t.textIndex else t.nextIndex;
    var rest := (if t.textOpen then [] else [BlockStart(index, Text(""))])
                + if text == "" then [] else [BlockDelta(index, TextDelta(text))];
    ReadConcat(client, closing, rest, c.isObject);
    assert AfterContent(c, s, text).1.value == closing + rest;
  }

  lemma EssenceOfOne(b: Block)
    ensures Essence([b]) == Kernel(b)
  {
    assert [b][..0] == [] && Essence([]) == [];
  }

  lemma CloseTextFollows(c: Config, s: State, client: Client)
    requires PastThinking(c, s, client)
    ensures var (t, events) := TextClosed(s);
            AllClosed(c, t, ReadAll(client, events, c.isObject))
  {
    hide ReadAll, Essence;
    ReadNothing(client, c.isObject);
    ReadOne(client, BlockStop(s.textIndex), c.isObject);
    EssenceOfNothing();
    EssenceOfOne(Thinking(s.reasoning, c.identity.messageId));
    EssenceOfOne(Text(s.content));
    EssenceConcat(client.blocks, [Text(s.content)]);
    assert client.blocks + [] == client.blocks;
  }

  lemma EssenceOfNothing()
    ensures Essence([]) == []
  {
  }

  lemma AtBlockStreams(c: Config, s: State, client: Client)
    requires AtBlock(c, s, client)
    ensures client.Streaming?
  {
  }

  lemma NoTools(c: Config, s: State, calls: seq<ToolCall>)
    ensures AfterTools(c, s, calls, 0) == (s, Ok([]))
  {
  }

  lemma NextTool(c: Config, s: State, calls: seq<ToolCall>, i: nat)
    requires i < |calls|
    ensures var (t, before) := AfterTools(c, s, calls, i);
            AfterTools(c, s, calls, i + 1)
            == if before.Err? || !c.isObject(calls[i].arguments) then (t, Err(LogicError)) else
                 (t.(nextIndex := t.nextIndex + 1),
                  Ok(before.value + [BlockStart(t.nextIndex, ToolUse(c.ids(s.drawn + i), calls[i].name, "")),
                                     BlockDelta(t.nextIndex, InputJsonDelta(calls[i].arguments)),
                                     BlockStop(t.nextIndex)]))
  {
  }

  /** The tool blocks arrive behind the closed ones. */
  lemma {:induction false} ToolsFollow(c: Config, s: State, client: Client, calls: seq<ToolCall>, n: nat)
    requires AtBlock(c, s, client) && client.current == None && n <= |calls|
    ensures AfterTools(c, s, calls, n).1.Ok? <==> forall i :: 0 <= i < n ==> c.isObject(calls[i].arguments)
    ensures var (t, r) := AfterTools(c, s, calls, n);
            r.Ok? ==> AtBlock(c, t, ReadAll(client, r.value, c.isObject))
                      && ReadAll(client, r.value, c.isObject)
                         == client.(blocks := client.blocks + ToolBlocks(calls[..n], c.ids, s.drawn))
  {
    hide ReadAll, AfterTools, AtBlock;
    AtBlockStreams(c, s, client);
    if n == 0 {
      NoTools(c, s, calls);
      ReadNothing(client, c.isObject);
      assert client.blocks + ToolBlocks(calls[..0], c.ids, s.drawn) == client.blocks;
    } else {
      ToolsFollow(c, s, client, calls, n - 1);
      NextTool(c, s, calls, n - 1);
      var (t, before) := AfterTools(c, s, calls, n - 1);
      if before.Ok? && c.isObject(calls[n - 1].arguments) {
        ToolFollows(c, s, t, client, calls, n, before.value);
      }
    }
  }

  lemma ToolFollows(c: Config, s: State, t: State, client: Client, calls: seq<ToolCall>, n: nat, before: seq<Event>)
    requires 0 < n <= |calls| && c.isObject(calls[n - 1].arguments) && client.Streaming?
    requires var now := ReadAll(client, before, c.isObject);
             AtBlock(c, t, now) && now == client.(blocks := client.blocks + ToolBlocks(calls[..n - 1], c.ids, s.drawn))
             && client.current == None
    ensures var more := [BlockStart(t.nextIndex, ToolUse(c.ids(s.drawn + n - 1), calls[n - 1].name, "")),
                         BlockDelta(t.nextIndex, InputJsonDelta(calls[n - 1].arguments)), BlockStop(t.nextIndex)];
            && ReadAll(client, before + more, c.isObject)
               == client.(blocks := client.blocks + ToolBlocks(calls[..n], c.ids, s.drawn))
            && AtBlock(c, t.(nextIndex := t.nextIndex + 1), ReadAll(client, before + more, c.isObject))
  {
    hide ReadAll;
    var now := ReadAll(client, before, c.isObject);
    var start := BlockStart(t.nextIndex, ToolUse(c.ids(s.drawn + n - 1), calls[n - 1].name, ""));
    var delta := BlockDelta(t.nextIndex, InputJsonDelta(calls[n - 1].arguments));
    var stop := BlockStop(t.nextIndex);
    ReadTwo(now, start, delta, c.isObject);
    ReadConcat(now, [start, delta], [stop], c.isObject);
    ReadOne(ReadAll(now, [start, delta], c.isObject), stop, c.isObject);
    assert [start, delta] + [stop] == [start, delta, stop];
    ReadConcat(client, before, [start, delta, stop], c.isObject);
    assert "" + calls[n - 1].arguments == calls[n - 1].arguments;
    assert ToolBlocks(calls[..n], c.ids, s.drawn)
        == ToolBlocks(calls[..n - 1], c.ids, s.drawn)
          + [ToolUse(c.ids(s.drawn + n - 1), calls[n - 1].name, calls[n - 1].arguments)];
  }

  // ----- Finishing

  /** The client ends with the aggregate answer, up to empty blocks and tool ids. */
  ghost predicate Rebuilds(c: Config, o: Outcome, client: Client, ids: nat -> string, from: nat) {
    && client.Complete? && Aggregate(c.identity, o, c.isObject, ids, from).Ok?
    && var answer := Aggregate(c.identity, o, c.isObject, ids, from).value;
       && client.message.identity == answer.identity && client.message.stop == answer.stop
       && client.message.usage == answer.usage && Essence(client.message.content) == Essence(answer.content)
  }

  /** The terminal outcome continues what was streamed. */
  predicate Continues(s: State, o: Outcome) {
    s.reasoning <= o.reasoning && s.content <= o.text && (s.textOpen ==> s.reasoning == o.reasoning)
  }

  lemma SuffixFollows(c: Config, s: State, client: Client, reasoning: string)
    requires Follows(c, s, client) && s.reasoning <= reasoning
    ensures var (t, r) := AfterSuffix(s, reasoning);
            && (r.Ok? <==> (s.textOpen ==> s.reasoning == reasoning))
            && (r.Ok? ==>
                  && Follows(c, t, ReadAll(client, r.value, c.isObject))
                  && t.reasoning == reasoning && t.content == s.content)
  {
    hide ReadAll;
    ReadNothing(client, c.isObject);
    if |reasoning| > |s.reasoning| && !s.textOpen {
      ReasoningFollows(c, s, client, reasoning[|s.reasoning|..]);
      assert s.reasoning + reasoning[|s.reasoning|..] == reasoning;
    }
  }

  lemma TextFollows(c: Config, s: State, client: Client, text: string)
    requires Follows(c, s, client) && s.content <= text
    ensures var (t, r) := AfterText(c, s, text);
            && r.Ok? && Follows(c, t, ReadAll(client, r.value, c.isObject)) && t.content == text
               && t.reasoning == s.reasoning
  {
    hide ReadAll;
    ReadNothing(client, c.isObject);
    if |text| > |s.content| {
      ContentFollows(c, s, client, text[|s.content|..]);
      assert s.content + text[|s.content|..] == text;
    }
  }

  /** The last events of a message. */
  lemma EndFollows(client: Client, stop: Stop, usage: Usage, isObject: string -> bool)
    requires client.Streaming? && client.current == None
    ensures ReadAll(client, [MessageDelta(stop, usage), MessageStop], isObject)
         == Complete(Message(client.identity, client.blocks, stop, usage))
  {
    ReadTwo(client, MessageDelta(stop, usage), MessageStop, isObject);
  }

  lemma EssenceOfAnswer(blocks: seq<Block>, plain: seq<Block>, calls: seq<ToolCall>, ids: nat -> string, from: nat,
                        ids': nat -> string, from': nat)
    requires Essence(blocks) == plain && Essence(plain) == plain
    ensures Essence(blocks + ToolBlocks(calls, ids, from)) == Essence(plain + ToolBlocks(calls, ids', from'))
  {
    EssenceConcat(blocks, ToolBlocks(calls, ids, from));
    EssenceConcat(plain, ToolBlocks(calls, ids', from'));
    EssenceIgnoresIds(calls, ids, from, ids', from');
  }

  lemma PlainIsEssential(identity: Identity, reasoning: string, text: string)
    ensures Essence(PlainBlocks(identity, reasoning, text)) == PlainBlocks(identity, reasoning, text)
  {
    EssenceOfNothing();
    EssenceOfOne(Thinking(reasoning, identity.messageId));
    EssenceOfOne(Text(text));
    EssenceConcat(if reasoning == "" then [] else [Thinking(reasoning, identity.messageId)],
                  if text == "" then [] else [Text(text)]);
  }

  /** What finish emits before its last two events closes every block and adds the tool blocks. */
  lemma FinishCloses(c: Config, s: State, client: Client, o: Outcome)
    requires Follows(c, s, client) && Continues(s, o)
    ensures var (t, r) := AfterFinish(c, s, o);
            && (r.Ok? <==> ObjectsOnly(o.toolCalls, c.isObject) && StopPresentation(o).Ok?)
            && (r.Ok? ==>
                  |r.value| >= 2 && r.value[|r.value| - 2..] == [MessageDelta(StopPresentation(o).value, FinalUsage(o)),
                                                                 MessageStop]
                  && Closed(c, o, s.drawn, ReadAll(client, r.value[..|r.value| - 2], c.isObject)))
  {
    hide ReadAll, AfterSuffix, AfterText, AfterTools, Essence;
    SuffixFollows(c, s, client, o.reasoning);
    var (s1, thinking) := AfterSuffix(s, o.reasoning);
    var c1 := ReadAll(client, thinking.value, c.isObject);
    TextFollows(c, s1, c1, o.text);
    var (s2, text) := AfterText(c, s1, o.text);
    var c2 := ReadAll(c1, text.value, c.isObject);
    var (s3, closeThinking) := ThinkingClosed(c, s2);
    CloseThinkingFollows(c, s2, c2);
    var c3 := ReadAll(c2, closeThinking, c.isObject);
    var (s4, closeText) := TextClosed(s3);
    CloseTextFollows(c, s3, c3);
    var c4 := ReadAll(c3, closeText, c.isObject);
    DrawnKept(c, s, o);
    ToolsFollow(c, s4, c4, o.toolCalls, |o.toolCalls|);
    assert o.toolCalls[..|o.toolCalls|] == o.toolCalls;
    var (s5, tools) := AfterTools(c, s4, o.toolCalls, |o.toolCalls|);
    if tools.Ok? && StopPresentation(o).Ok? {
      var all := thinking.value + text.value + closeThinking + closeText + tools.value;
      ReadConcat(client, thinking.value, text.value, c.isObject);
      ReadConcat(client, thinking.value + text.value, closeThinking, c.isObject);
      ReadConcat(client, thinking.value + text.value + closeThinking, closeText, c.isObject);
      ReadConcat(client, thinking.value + text.value + closeThinking + closeText, tools.value, c.isObject);
      var events := AfterFinish(c, s, o).1.value;
      assert events == all + [MessageDelta(StopPresentation(o).value, FinalUsage(o)), MessageStop];
      assert events[..|events| - 2] == all;
    }
  }

  /** All blocks of the answer are there and closed. */
  ghost predicate Closed(c: Config, o: Outcome, drawn: nat, client: Client) {
    && client.Streaming? && client.current == None && client.identity == c.identity
    && exists blocks :: client.blocks == blocks + ToolBlocks(o.toolCalls, c.ids, drawn)
                        && Essence(blocks) == PlainBlocks(c.identity, o.reasoning, o.text)
  }

  lemma DrawnKept(c: Config, s: State, o: Outcome)
    requires s.reasoning <= o.reasoning && s.content <= o.text
    ensures AfterSuffix(s, o.reasoning).0.drawn == s.drawn
    ensures AfterSuffix(s, o.reasoning).0.content <= o.text
    ensures AfterText(c, AfterSuffix(s, o.reasoning).0, o.text).0.drawn == s.drawn
  {
  }

  /** finish succeeds exactly when the outcome continues the stream and has an aggregate answer, and then the
      whole stream rebuilds that answer. */
  lemma FinishRebuilds(c: Config, s: State, client: Client, o: Outcome, ids: nat -> string, from: nat)
    requires Follows(c, s, client)
    ensures var r := AfterFinish(c, s, o).1;
            && (r.Ok? <==> Continues(s, o) && Aggregate(c.identity, o, c.isObject, ids, from).Ok?)
            && (r.Ok? ==> Rebuilds(c, o, ReadAll(client, r.value, c.isObject), ids, from))
  {
    hide ReadAll, Essence, AfterTools;
    if s.reasoning <= o.reasoning && s.content <= o.text { SuffixFollows(c, s, client, o.reasoning); }
    var r := AfterFinish(c, s, o).1;
    if Continues(s, o) {
      FinishCloses(c, s, client, o);
      if r.Ok? {
        var before, stop := r.value[..|r.value| - 2], StopPresentation(o).value;
        var last := [MessageDelta(stop, FinalUsage(o)), MessageStop];
        assert r.value == before + last;
        ReadConcat(client, before, last, c.isObject);
        var closed := ReadAll(client, before, c.isObject);
        EndFollows(closed, stop, FinalUsage(o), c.isObject);
        var blocks :| closed.blocks == blocks + ToolBlocks(o.toolCalls, c.ids, s.drawn)
                      && Essence(blocks) == PlainBlocks(c.identity, o.reasoning, o.text);
        PlainIsEssential(c.identity, o.reasoning, o.text);
        EssenceOfAnswer(blocks, PlainBlocks(c.identity, o.reasoning, o.text), o.toolCalls, c.ids, s.drawn, ids, from);
      }
    }
  }

  // ----- What the message says, in terms of the outcome alone

  /** The stop reason names what ended the generation; the stop sequence comes with its own reason only. */
  ghost predicate TellsStop(o: Outcome, stop: Stop) {
    && (stop.reason == "tool_use" <==> o.toolCalls != [])
    && (o.toolCalls == [] ==>
          && (stop.reason == "max_tokens" <==> o.finishReason == OutputLimit)
          && (stop.reason == "model_context_window_exceeded" <==> o.finishReason == ContextCapacity)
          && (stop.reason == "stop_sequence" <==> o.finishReason == StopString)
          && (stop.reason == "end_turn" <==> o.finishReason == StopToken || o.finishReason == NoReason))
    && (stop.sequence.Some? <==> stop.reason == "stop_sequence")
    && (stop.sequence.Some? ==> stop.sequence == o.matchedStopString)
  }

  function Counted(n: int): nat { if n < 0 then 0 else n }

  /** The prompt is split into what was reused and the rest; counts below zero are shown as zero. */
  ghost predicate TellsUsage(o: Outcome, usage: Usage) {
    && usage.output == Counted(o.completionTokens) && usage.thinking == Some(Counted(o.reasoningTokens))
    && usage.cacheRead.Some? && usage.input + usage.cacheRead.value == Counted(o.promptTokens) && usage.input >= 0
    && usage.cacheRead.value <= o.cacheHitTokens
    && (usage.cacheRead.value == o.cacheHitTokens || usage.input == 0)
  }

  /** The start shows no output yet; a reused count below zero, or above the prompt, is brought into range. */
  ghost predicate TellsStart(inputTokens: int, cacheRead: Option<int>, usage: Usage) {
    && usage.output == 0 && usage.thinking == None
    && (cacheRead.None? ==> usage.cacheRead == None && usage.input == Counted(inputTokens))
    && (cacheRead.Some? ==>
          && usage.cacheRead.Some? && usage.input + usage.cacheRead.value == Counted(inputTokens) && usage.input >= 0
          && (cacheRead.value < 0 ==> usage.cacheRead == Some(0))
          && (0 <= cacheRead.value <= Counted(inputTokens) ==> usage.cacheRead == cacheRead)
          && (cacheRead.value > Counted(inputTokens) ==> usage.input == 0))
  }

  /** Identity, stop, usage and content of a message, ids and empty blocks aside. */
  ghost predicate Tells(identity: Identity, o: Outcome, message: Message) {
    && message.identity == identity && TellsStop(o, message.stop) && TellsUsage(o, message.usage)
    && Essence(message.content)
       == (if o.reasoning == "" then [] else [Thinking(o.reasoning, identity.messageId)])
          + (if o.text == "" then [] else [Text(o.text)])
          + seq(|o.toolCalls|, i requires 0 <= i < |o.toolCalls| =>
                  ToolUse("", o.toolCalls[i].name, o.toolCalls[i].arguments))
  }

  /** Which outcomes have an answer, and what it says. */
  lemma AnswerTells(identity: Identity, o: Outcome, isObject: string -> bool, ids: nat -> string, from: nat)
    ensures Aggregate(identity, o, isObject, ids, from).Ok? <==>
              && (forall i :: 0 <= i < |o.toolCalls| ==> isObject(o.toolCalls[i].arguments))
              && (o.toolCalls == [] ==>
                    o.finishReason != Cancelled && (o.finishReason == StopString ==> o.matchedStopString.Some?))
    ensures Aggregate(identity, o, isObject, ids, from).Ok? ==>
              Tells(identity, o, Aggregate(identity, o, isObject, ids, from).value)
  {
    hide Essence;
    var plain, tools := PlainBlocks(identity, o.reasoning, o.text), ToolBlocks(o.toolCalls, ids, from);
    PlainIsEssential(identity, o.reasoning, o.text);
    EssenceConcat(plain, tools);
    EssenceOfTools(o.toolCalls, ids, from);
  }

  lemma {:induction false} EssenceOfTools(calls: seq<ToolCall>, ids: nat -> string, from: nat)
    ensures Essence(ToolBlocks(calls, ids, from))
         == seq(|calls|, i requires 0 <= i < |calls| => ToolUse("", calls[i].name, calls[i].arguments))
  {
    if calls != [] {
      var n := |calls| - 1;
      EssenceOfTools(calls[..n], ids, from);
      assert ToolBlocks(calls, ids, from)[..n] == ToolBlocks(calls[..n], ids, from);
    }
  }

  /** A client that ends with the aggregate answer has been told all this. */
  lemma RebuiltTells(c: Config, o: Outcome, client: Client, ids: nat -> string, from: nat)
    requires Rebuilds(c, o, client, ids, from)
    ensures client.Complete? && Tells(c.identity, o, client.message)
  {
    hide Aggregate, Essence;
    AnswerTells(c.identity, o, c.isObject, ids, from);
  }

  /** Whatever was streamed before, a finish that succeeds ends by telling stop and usage. */
  lemma FinishTells(c: Config, s: State, o: Outcome)
    requires AfterFinish(c, s, o).1.Ok?
    ensures var events := AfterFinish(c, s, o).1.value;
            && |events| >= 2 && events[|events| - 1] == MessageStop
            && events[|events| - 2].MessageDelta? && TellsStop(o, events[|events| - 2].stop)
            && TellsUsage(o, events[|events| - 2].usage)
  {
    hide AfterSuffix, AfterText, AfterTools;
    ContentKept(s, o.reasoning);
  }

  /** The message of a client that is complete is the one of the last two events. */
  lemma LastTold(client: Client, events: seq<Event>, isObject: string -> bool)
    requires |events| >= 2 && events[|events| - 1] == MessageStop && events[|events| - 2].MessageDelta?
    requires ReadAll(client, events, isObject).Complete?
    ensures var message := ReadAll(client, events, isObject).message;
            message.stop == events[|events| - 2].stop && message.usage == events[|events| - 2].usage
  {
  }

  lemma StartTells(c: Config, s: State, cacheRead: Option<int>)
    requires AfterStart(c, s, cacheRead).1.Ok?
    ensures var events := AfterStart(c, s, cacheRead).1.value;
            && |events| == 1 && events[0].MessageStart? && events[0].identity == c.identity
            && TellsStart(c.inputTokens, cacheRead, events[0].usage)
  {
  }

  /** The usage of the start event and of the end agree on the prompt when the engine's counts do. */
  lemma UsagesAgree(o: Outcome, inputTokens: int, cacheRead: int)
    requires inputTokens == o.promptTokens && cacheRead == o.cacheHitTokens
    ensures var start, end := StartUsage(inputTokens, Some(cacheRead)), FinalUsage(o);
            && start.input == end.input && start.cacheRead == end.cacheRead && start.output == 0
            && end.input + end.cacheRead.value == Max(0, o.promptTokens) && end.input >= 0 && end.cacheRead.value >= 0
  {
  }
}

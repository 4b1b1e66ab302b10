/** The conversation loop `Agent.Run` (agent/agent.go) as a state machine
    driven by scripted model turns and scripted human input. */
module Conversation {
  import opened Results
  import opened FileSystem
  import opened Tools
  import opened Events
  import opened Dispatch

  datatype Role = User | Assistant

  /** A content block of a message or of a model response. `Other` stands
      for the response block kinds the loop neither keeps nor dispatches. */
  datatype Block =
    | Text(text: string)
    | ToolUse(id: string, name: string, input: ToolInput)
    | ToolResultBlock(result: ToolResult)
    | Other(kind: string)

  datatype Message = Message(role: Role, content: seq<Block>)

  /** One inference call as the loop sees it: the fragments forwarded while
      it streamed, and the response content or the error it returned. */
  datatype Turn = Turn(fragments: seq<StreamEvent>, response: Result<seq<Block>, string>)

  /** What `getUserMessage` returns: a line, or `ok == false`. */
  datatype UserInput = Line(text: string) | EndOfInput

  /** Where the loop stands: about to call the model, about to ask the human,
      returned `nil`, or returned an inference error. */
  datatype Phase = AwaitingModel | AwaitingUser | Closed | Failed(error: string)

  datatype Session = Session(history: seq<Message>, events: seq<OutputEvent>, fs: Tree, phase: Phase)

  const StartText: string := "Start the conversation"
  const AssistantLabel: string := "Claude: "
  const UserLabel: string := "You: "

  /** The text blocks of a response, in order. */
  function Texts(blocks: seq<Block>): (r: seq<Block>)
    ensures forall k :: 0 <= k < |r| ==> r[k].Text?
    decreases |blocks|
  {
    if |blocks| == 0 then []
    else (if blocks[0].Text? then [blocks[0]] else []) + Texts(blocks[1..])
  }

  /** The tool_use blocks of a response, in order. */
  function ToolUses(blocks: seq<Block>): (r: seq<Block>)
    ensures forall k :: 0 <= k < |r| ==> r[k].ToolUse?
    decreases |blocks|
  {
    if |blocks| == 0 then []
    else (if blocks[0].ToolUse? then [blocks[0]] else []) + ToolUses(blocks[1..])
  }

  /** The outcome of going through a response's blocks. */
  datatype Dispatched = Dispatched(fs: Tree, kept: seq<Block>, results: seq<Block>, events: seq<OutputEvent>)

  /** The block loop of `Run`: text blocks are kept for the assistant message,
      each tool_use block is executed (in order, each seeing the filesystem
      the previous one left) and its result collected, anything else is
      skipped. Exactly one result answers each tool_use block, in order. */
  function DispatchBlocks(tools: seq<ToolDef>, fs: Tree, blocks: seq<Block>): (r: Dispatched)
    ensures r.kept == Texts(blocks)
    ensures |r.results| == |ToolUses(blocks)|
    decreases |blocks|
  {
    if |blocks| == 0 then Dispatched(fs, [], [], [])
    else
      var b := blocks[0];
      assert Texts(blocks) == (if b.Text? then [b] else []) + Texts(blocks[1..]);
      assert ToolUses(blocks) == (if b.ToolUse? then [b] else []) + ToolUses(blocks[1..]);
      match b
      case Text(_) =>
        var rest := DispatchBlocks(tools, fs, blocks[1..]);
        rest.(kept := [b] + rest.kept)
      case ToolUse(id, name, input) =>
        var x := ExecuteTool(tools, fs, id, name, input);
        var rest := DispatchBlocks(tools, x.fs, blocks[1..]);
        Dispatched(rest.fs, rest.kept, [ToolResultBlock(x.result)] + rest.results, x.events + rest.events)
      case _ =>
        DispatchBlocks(tools, fs, blocks[1..])
  }

  /** `results[k]` is the tool result answering the tool_use block `uses[k]`. */
  predicate Answers(results: seq<Block>, uses: seq<Block>) {
    && |results| == |uses|
    && forall k :: 0 <= k < |results| ==>
         && results[k].ToolResultBlock?
         && uses[k].ToolUse?
         && results[k].result.toolUseId == uses[k].id
  }

  lemma AnswersCons(x: ToolResult, u: Block, results: seq<Block>, uses: seq<Block>)
    requires u.ToolUse? && x.toolUseId == u.id && Answers(results, uses)
    ensures Answers([ToolResultBlock(x)] + results, [u] + uses)
  {
    var rs := [ToolResultBlock(x)] + results;
    var us := [u] + uses;
    forall k | 0 <= k < |rs|
      ensures rs[k].ToolResultBlock? && us[k].ToolUse? && rs[k].result.toolUseId == us[k].id
    {
      if k > 0 {
        assert rs[k] == results[k - 1] && us[k] == uses[k - 1];
      }
    }
  }

  /** Exactly one result answers each tool_use block, in order, under its id. */
  lemma {:induction false} DispatchAnswers(tools: seq<ToolDef>, fs: Tree, blocks: seq<Block>)
    ensures Answers(DispatchBlocks(tools, fs, blocks).results, ToolUses(blocks))
    decreases |blocks|
  {
    if |blocks| > 0 {
      var b := blocks[0];
      assert ToolUses(blocks) == (if b.ToolUse? then [b] else []) + ToolUses(blocks[1..]);
      if b.ToolUse? {
        var x := ExecuteTool(tools, fs, b.id, b.name, b.input);
        var rest := DispatchBlocks(tools, x.fs, blocks[1..]).results;
        DispatchAnswers(tools, x.fs, blocks[1..]);
        assert DispatchBlocks(tools, fs, blocks).results == [ToolResultBlock(x.result)] + rest;
        AnswersCons(x.result, b, rest, ToolUses(blocks[1..]));
      } else {
        DispatchAnswers(tools, fs, blocks[1..]);
        assert DispatchBlocks(tools, fs, blocks).results == DispatchBlocks(tools, fs, blocks[1..]).results;
        assert ToolUses(blocks) == ToolUses(blocks[1..]);
      }
    }
  }

  /** Going through the blocks emits only progress notes, at most one per
      tool result. */
  lemma {:induction false} DispatchEvents(tools: seq<ToolDef>, fs: Tree, blocks: seq<Block>)
    ensures var d := DispatchBlocks(tools, fs, blocks);
      && (forall k :: 0 <= k < |d.events| ==> d.events[k].Content?)
      && |d.events| <= |d.results|
    decreases |blocks|
  {
    if |blocks| > 0 {
      match blocks[0]
      case ToolUse(id, name, input) =>
        var x := ExecuteTool(tools, fs, id, name, input);
        DispatchEvents(tools, x.fs, blocks[1..]);
        var rest := DispatchBlocks(tools, x.fs, blocks[1..]);
        var events := x.events + rest.events;
        forall k | 0 <= k < |events| ensures events[k].Content? {
          if k >= |x.events| {
            assert events[k] == rest.events[k - |x.events|];
          }
        }
      case _ =>
        DispatchEvents(tools, fs, blocks[1..]);
    }
  }

  /** The state `Run` enters its loop in: one user message, so that the
      model speaks first. */
  function Start(fs: Tree): Session {
    Session([Message(User, [Text(StartText)])], [], fs, AwaitingModel)
  }

  /** One model turn: emit the assistant prefix, run inference (forwarding
      its fragments), and on success emit a line break, go through the
      blocks, append the assistant message holding only the text blocks,
      then either append the tool results and go straight back to the model,
      or emit the user prefix and wait for the human. An inference error
      ends the run with the history untouched. */
  function StepModel(tools: seq<ToolDef>, s: Session, turn: Turn): (r: Session)
    requires s.phase == AwaitingModel
    ensures s.history <= r.history && s.events <= r.events
    ensures turn.response.Err? ==> r.history == s.history && r.phase == Failed(turn.response.error)
    ensures turn.response.Ok? ==>
              |r.history| > |s.history| && r.history[|s.history|] == Message(Assistant, Texts(turn.response.value))
    ensures turn.response.Ok? && |ToolUses(turn.response.value)| > 0 ==>
              && r.phase == AwaitingModel
              && |r.history| == |s.history| + 2
              && r.history[|s.history| + 1] == Message(User, DispatchBlocks(tools, s.fs, turn.response.value).results)
    ensures turn.response.Ok? && |ToolUses(turn.response.value)| == 0 ==>
              && r.phase == AwaitingUser
              && |r.history| == |s.history| + 1
              && r.fs == s.fs
  {
    var streamed := s.events + [AssistantPrefix(AssistantLabel)] + Forward(turn.fragments);
    match turn.response
    case Err(e) => s.(events := streamed, phase := Failed(e))
    case Ok(blocks) =>
      var d := DispatchBlocks(tools, s.fs, blocks);
      var history := s.history + [Message(Assistant, d.kept)];
      var events := streamed + [Newline] + d.events;
      if |d.results| > 0 then
        Session(history + [Message(User, d.results)], events, d.fs, AwaitingModel)
      else
        NoToolUseKeepsFs(tools, s.fs, blocks);
        Session(history, events + [UserPrefix(UserLabel)], d.fs, AwaitingUser)
  }

  /** After tool calls the appended user message answers every tool use of
      the response, in order, under its id. */
  lemma StepModelAnswers(tools: seq<ToolDef>, s: Session, turn: Turn)
    requires s.phase == AwaitingModel
    requires turn.response.Ok? && |ToolUses(turn.response.value)| > 0
    ensures var r := StepModel(tools, s, turn);
      && r.history[|s.history| + 1].role == User
      && Answers(r.history[|s.history| + 1].content, ToolUses(turn.response.value))
  {
    DispatchAnswers(tools, s.fs, turn.response.value);
  }

  /** What a model turn shows: the assistant prefix first; after tool calls
      the loop goes back to the model without showing the user prefix;
      otherwise the user prefix is the last thing shown. */
  lemma StepModelEvents(tools: seq<ToolDef>, s: Session, turn: Turn)
    requires s.phase == AwaitingModel
    ensures var r := StepModel(tools, s, turn);
      && |r.events| > |s.events| && r.events[|s.events|] == AssistantPrefix(AssistantLabel)
      && (turn.response.Ok? && |ToolUses(turn.response.value)| > 0 ==>
            UserPrefix(UserLabel) !in r.events[|s.events|..])
      && (turn.response.Ok? && |ToolUses(turn.response.value)| == 0 ==>
            r.events[|r.events| - 1] == UserPrefix(UserLabel))
  {
    var streamed := s.events + [AssistantPrefix(AssistantLabel)] + Forward(turn.fragments);
    if turn.response.Ok? {
      var blocks := turn.response.value;
      var d := DispatchBlocks(tools, s.fs, blocks);
      var events := streamed + [Newline] + d.events;
      ForwardOnlyRawAndContent(turn.fragments);
      DispatchEvents(tools, s.fs, blocks);
      assert events[|s.events|..] == [AssistantPrefix(AssistantLabel)] + Forward(turn.fragments) + [Newline] + d.events;
    }
  }

  /** A response without tool_use blocks runs no tool. */
  lemma {:induction false} NoToolUseKeepsFs(tools: seq<ToolDef>, fs: Tree, blocks: seq<Block>)
    requires |ToolUses(blocks)| == 0
    ensures DispatchBlocks(tools, fs, blocks).fs == fs
    ensures DispatchBlocks(tools, fs, blocks).events == []
    decreases |blocks|
  {
    if |blocks| > 0 {
      NoToolUseKeepsFs(tools, fs, blocks[1..]);
    }
  }

  /** One human turn: end of input ends the run; a line becomes a user
      message and the model is called again. */
  function StepUser(s: Session, input: UserInput): (r: Session)
    requires s.phase == AwaitingUser
    ensures r.events == s.events && r.fs == s.fs
    ensures input.EndOfInput? ==> r.phase == Closed && r.history == s.history
    ensures input.Line? ==> r.phase == AwaitingModel && r.history == s.history + [Message(User, [Text(input.text)])]
  {
    match input
    case EndOfInput => s.(phase := Closed)
    case Line(t) => s.(history := s.history + [Message(User, [Text(t)])], phase := AwaitingModel)
  }

  /** Runs the loop until it stops or the script runs out: each model turn
      consumes the next scripted turn, each human turn the next input. */
  function Run(tools: seq<ToolDef>, s: Session, turns: seq<Turn>, inputs: seq<UserInput>): (r: Session)
    ensures s.history <= r.history && s.events <= r.events
    ensures s.phase == Closed || s.phase.Failed? ==> r == s
    ensures Valid(s) ==> Valid(r)
    decreases |turns| + |inputs|
  {
    if s.phase == AwaitingModel && |turns| > 0 then
      var next := StepModel(tools, s, turns[0]);
      StepModelValid(tools, s, turns[0]);
      Run(tools, next, turns[1..], inputs)
    else if s.phase == AwaitingUser && |inputs| > 0 then
      var next := StepUser(s, inputs[0]);
      StepUserValid(s, inputs[0]);
      Run(tools, next, turns, inputs[1..])
    else s
  }

  // ---------------------------------------------------------------------
  // The loop's invariant

  /** Roles alternate, starting with the user. */
  predicate Alternating(h: seq<Message>) {
    forall i :: 0 <= i < |h| ==> h[i].role == (if i % 2 == 0 then User else Assistant)
  }

  /** No message of the history holds a tool_use block. */
  predicate NoToolUseRecorded(h: seq<Message>) {
    forall i, k :: 0 <= i < |h| && 0 <= k < |h[i].content| ==> !h[i].content[k].ToolUse?
  }

  /** The state of the loop is consistent: the history starts with the seed
      message, alternates roles, and ends with a user message exactly when
      the model is to be called (or failed being called). */
  predicate Valid(s: Session) {
    && |s.history| > 0
    && s.history[0] == Message(User, [Text(StartText)])
    && Alternating(s.history)
    && NoToolUseRecorded(s.history)
    && ((s.phase == AwaitingModel || s.phase.Failed?) <==> |s.history| % 2 == 1)
  }

  lemma StartValid(fs: Tree)
    ensures Valid(Start(fs))
  {
  }

  /** Every inference call sees a history that ends with a user message. */
  lemma ModelSeesUserLast(s: Session)
    requires Valid(s) && s.phase == AwaitingModel
    ensures s.history[|s.history| - 1].role == User
  {
  }

  lemma {:induction false} ResultsAreNotToolUse(tools: seq<ToolDef>, fs: Tree, blocks: seq<Block>)
    ensures forall k :: 0 <= k < |DispatchBlocks(tools, fs, blocks).results| ==>
              !DispatchBlocks(tools, fs, blocks).results[k].ToolUse?
  {
    DispatchAnswers(tools, fs, blocks);
  }

  lemma StepModelValid(tools: seq<ToolDef>, s: Session, turn: Turn)
    requires s.phase == AwaitingModel
    ensures Valid(s) ==> Valid(StepModel(tools, s, turn))
  {
    if Valid(s) && turn.response.Ok? {
      var blocks := turn.response.value;
      var r := StepModel(tools, s, turn);
      var d := DispatchBlocks(tools, s.fs, blocks);
      var a := Message(Assistant, d.kept);
      var h := s.history + [a];
      ExtendValid(s.history, a);
      if |d.results| > 0 {
        ResultsAreNotToolUse(tools, s.fs, blocks);
        ExtendValid(h, Message(User, d.results));
        assert r.history == h + [Message(User, d.results)];
      } else {
        assert r.history == h;
      }
    }
  }

  /** Appending a message of the expected role without tool uses keeps the
      history alternating and free of tool uses. */
  lemma ExtendValid(h: seq<Message>, m: Message)
    requires Alternating(h) && NoToolUseRecorded(h)
    requires m.role == (if |h| % 2 == 0 then User else Assistant)
    requires forall k :: 0 <= k < |m.content| ==> !m.content[k].ToolUse?
    ensures Alternating(h + [m]) && NoToolUseRecorded(h + [m])
  {
    var h' := h + [m];
    forall i | 0 <= i < |h'| ensures h'[i].role == (if i % 2 == 0 then User else Assistant) {
      if i < |h| { assert h'[i] == h[i]; }
    }
    forall i, k | 0 <= i < |h'| && 0 <= k < |h'[i].content| ensures !h'[i].content[k].ToolUse? {
      if i < |h| { assert h'[i] == h[i]; }
    }
  }

  lemma StepUserValid(s: Session, input: UserInput)
    requires s.phase == AwaitingUser
    ensures Valid(s) ==> Valid(StepUser(s, input))
  {
  }

  /** The appended assistant message keeps the response's text blocks only:
      a tool_use block is executed but never recorded, so the tool results
      that follow answer ids the history does not contain. */
  lemma ToolUseNotRecorded(tools: seq<ToolDef>, s: Session, id: string, name: string, input: ToolInput)
    requires s.phase == AwaitingModel
    ensures var r := StepModel(tools, s, Turn([], Ok([ToolUse(id, name, input)])));
      && r.history[|s.history|] == Message(Assistant, [])
      && r.history[|s.history| + 1].content[0].ToolResultBlock?
      && r.history[|s.history| + 1].content[0].result.toolUseId == id
  {
    var blocks := [ToolUse(id, name, input)];
    assert ToolUses(blocks) == blocks;
    assert Texts(blocks) == [];
    DispatchAnswers(tools, s.fs, blocks);
  }
}

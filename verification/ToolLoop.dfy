/** The tool-calling loop of a chat completion, against any model and any executor of tools. Both see
    the whole transcript so far, which grows with every step, so they may answer as they like. */
module ToolLoop {
  import opened Wrappers
  import opened Text

  const STEPS: nat := 12

  datatype Role = System | User | Assistant | Tool

  datatype ToolCall = ToolCall(id: string, name: string, arguments: string)

  datatype ChatMessage = ChatMessage(role: Role, content: string, calls: seq<ToolCall>, callId: string, name: string)

  const NUDGE_TEXT := "Your last message had no text. Reply with JSON only: {\"reply\":\"your short message\"}"
  const NUDGE := ChatMessage(User, NUDGE_TEXT, [], "", "")

  /** What a request to the model brings: an error, an answer without choices, or the first choice. */
  datatype Response = Failed(error: string) | NoChoice | Choice(message: ChatMessage)

  type Model = seq<ChatMessage> -> Response

  /** A tool is given its name and arguments; it may depend on all that went before. */
  type Executor = (seq<ChatMessage>, string, string) -> Result<string, string>

  datatype Error = RequestFailed(error: string) | NoChoices | EmptyContent | TooManySteps

  function ResultText(r: Result<string, string>): string {
    match r
    case Ok(text) => text
    case Err(error) => "error calling tool: " + error
  }

  function ToolMessage(call: ToolCall, result: string): ChatMessage {
    ChatMessage(Tool, result, [], call.id, call.name)
  }

  method ChatWithTools(base: seq<ChatMessage>, model: Model, exec: Executor)
    returns (r: Result<string, Error>, requests: seq<seq<ChatMessage>>)
    ensures exists blocks :: Conversation(base, model, exec, Talk(requests, blocks, r))
  {
    hide Render, RenderAll, Follows, Executed, SoFar;
    var msgs := base;
    var nudged := false;
    var step: nat := 0;
    requests := [];
    ghost var blocks: seq<Block> := [];
    NothingSaid(base, model, exec);
    while step < STEPS
      invariant step <= STEPS && |requests| == |blocks| == step
      invariant msgs == base + RenderAll(blocks)
      invariant SoFar(base, model, exec, requests, blocks)
      invariant nudged <==> Nudge in blocks
    {
      RequestAdds(base, model, exec, requests, blocks);
      requests := requests + [msgs];
      var response := model(msgs);
      if response.Failed? {
        r := Err(RequestFailed(response.error));
        assert Conversation(base, model, exec, Talk(requests, blocks, r));
        return;
      }
      if response.NoChoice? {
        r := Err(NoChoices);
        assert Conversation(base, model, exec, Talk(requests, blocks, r));
        return;
      }
      var choice := response.message;
      if choice.calls == [] {
        var content := Trim(choice.content);
        if content == "" {
          if step > 0 && !nudged {
            nudged := true;
            NudgeAdds(base, model, exec, requests, blocks);
            msgs := msgs + [NUDGE];
            blocks := blocks + [Nudge];
            step := step + 1;
            continue;
          }
          r := Err(EmptyContent);
          assert Conversation(base, model, exec, Talk(requests, blocks, r));
          return;
        }
        r := Ok(content);
        assert Conversation(base, model, exec, Talk(requests, blocks, r));
        return;
      }
      ghost var before := msgs;
      msgs := CallTools(msgs, choice, exec);
      ghost var results :| && |results| == |choice.calls| && msgs == before + [choice] + Answers(choice.calls, results)
                           && Executed(exec, before + [choice], choice.calls, results);
      RoundAdds(base, model, exec, requests, blocks, choice, results);
      blocks := blocks + [Round(choice, results)];
      step := step + 1;
    }
    r := Err(TooManySteps);
    assert Conversation(base, model, exec, Talk(requests, blocks, r));
    return;
  }

  /** Appends the model's message, and the result of each of its calls in turn. */
  method CallTools(before: seq<ChatMessage>, choice: ChatMessage, exec: Executor)
    returns (msgs: seq<ChatMessage>)
    ensures exists results ::
              && |results| == |choice.calls| && msgs == before + [choice] + Answers(choice.calls, results)
              && Executed(exec, before + [choice], choice.calls, results)
  {
    msgs := before + [choice];
    ghost var results: seq<string> := [];
    var i := 0;
    while i < |choice.calls|
      invariant 0 <= i <= |choice.calls| && |results| == i
      invariant msgs == before + [choice] + Answers(choice.calls, results)
      invariant Executed(exec, before + [choice], choice.calls, results)
    {
      var call := choice.calls[i];
      var result := ResultText(exec(msgs, call.name, call.arguments));
      msgs := msgs + [ToolMessage(call, result)];
      ghost var earlier := results;
      results := results + [result];
      assert forall j :: 0 <= j <= i ==> results[..j] == earlier[..j];
      assert results[..i] == earlier;
      i := i + 1;
    }
  }

  // ---------- What a conversation looks like ----------

  /** What one step adds to the transcript. */
  datatype Block = Round(message: ChatMessage, results: seq<string>) | Nudge

  function Answers(calls: seq<ToolCall>, results: seq<string>): seq<ChatMessage>
    requires |results| <= |calls|
  {
    seq(|results|, j requires 0 <= j < |results| => ToolMessage(calls[j], results[j]))
  }

  predicate Complete(b: Block) {
    b.Round? ==> 1 <= |b.message.calls| == |b.results|
  }

  function Render(b: Block): seq<ChatMessage> {
    if b.Nudge? then [NUDGE]
    else if |b.results| <= |b.message.calls| then [b.message] + Answers(b.message.calls, b.results)
    else [b.message]
  }

  function RenderAll(blocks: seq<Block>): seq<ChatMessage> {
    if blocks == [] then [] else RenderAll(blocks[..|blocks| - 1]) + Render(blocks[|blocks| - 1])
  }

  lemma LastRendered(blocks: seq<Block>, b: Block)
    ensures RenderAll(blocks + [b]) == RenderAll(blocks) + Render(b)
  {
    assert (blocks + [b])[..|blocks|] == blocks;
  }

  /** Each result is what the tool said, or its error, when it was called after all that precedes it. */
  ghost predicate Executed(exec: Executor, before: seq<ChatMessage>, calls: seq<ToolCall>, results: seq<string>)
    requires |results| <= |calls|
  {
    forall j :: 0 <= j < |results| ==>
      results[j] == ResultText(exec(before + Answers(calls, results[..j]), calls[j].name, calls[j].arguments))
  }

  predicate BlankReply(r: Response) {
    r.Choice? && r.message.calls == [] && Trim(r.message.content) == ""
  }

  /** The k-th block is what the model's k-th answer calls for. */
  ghost predicate Follows(model: Model, exec: Executor, request: seq<ChatMessage>, blocks: seq<Block>, k: nat)
    requires k < |blocks|
  {
    if blocks[k].Nudge? then BlankReply(model(request)) && k > 0 && Nudge !in blocks[..k]
    else
      && Complete(blocks[k])
      && model(request) == Choice(blocks[k].message)
      && Executed(exec, request + [blocks[k].message], blocks[k].message.calls, blocks[k].results)
  }

  /** Every request is the unchanged base and the blocks so far. */
  ghost predicate Sent(base: seq<ChatMessage>, requests: seq<seq<ChatMessage>>, blocks: seq<Block>) {
    |requests| - 1 <= |blocks| && forall k :: 0 <= k < |requests| ==> requests[k] == base + RenderAll(blocks[..k])
  }

  ghost predicate Answered(model: Model, exec: Executor, requests: seq<seq<ChatMessage>>, blocks: seq<Block>) {
    |blocks| <= |requests| && forall k :: 0 <= k < |blocks| ==> Follows(model, exec, requests[k], blocks, k)
  }

  ghost predicate SoFar(base: seq<ChatMessage>, model: Model, exec: Executor,
                        requests: seq<seq<ChatMessage>>, blocks: seq<Block>)
  {
    Sent(base, requests, blocks) && Answered(model, exec, requests, blocks)
  }

  /** The requests that were made, what each but the last has led to, and the outcome. */
  datatype Talk = Talk(requests: seq<seq<ChatMessage>>, blocks: seq<Block>, result: Result<string, Error>)

  /** Why the conversation ended, and with what. */
  predicate Concludes(last: Response, talk: Talk) {
    if talk.result == Err(TooManySteps) then |talk.blocks| == |talk.requests| == STEPS
    else
      && |talk.blocks| == |talk.requests| - 1
      && match talk.result
         case Ok(content) =>
           last.Choice? && last.message.calls == [] && content == Trim(last.message.content) && content != ""
         case Err(RequestFailed(error)) => last == Failed(error)
         case Err(NoChoices) => last == NoChoice
         case Err(EmptyContent) => BlankReply(last) && (|talk.requests| == 1 || Nudge in talk.blocks)
         case Err(TooManySteps) => true
  }

  ghost predicate Conversation(base: seq<ChatMessage>, model: Model, exec: Executor, talk: Talk) {
    && SoFar(base, model, exec, talk.requests, talk.blocks)
    && 1 <= |talk.requests| <= STEPS
    && Concludes(model(talk.requests[|talk.requests| - 1]), talk)
  }

  lemma NothingSaid(base: seq<ChatMessage>, model: Model, exec: Executor)
    ensures SoFar(base, model, exec, [], []) && base == base + RenderAll([])
  {}

  lemma RequestAdds(base: seq<ChatMessage>, model: Model, exec: Executor,
                    requests: seq<seq<ChatMessage>>, blocks: seq<Block>)
    requires SoFar(base, model, exec, requests, blocks) && |requests| == |blocks|
    ensures SoFar(base, model, exec, requests + [base + RenderAll(blocks)], blocks)
  {
    hide RenderAll, Follows;
    assert blocks[..|blocks|] == blocks;
  }

  lemma SentStays(base: seq<ChatMessage>, requests: seq<seq<ChatMessage>>, blocks: seq<Block>, b: Block)
    requires Sent(base, requests, blocks)
    ensures Sent(base, requests, blocks + [b])
  {
    hide RenderAll;
    forall k | 0 <= k < |requests|
      ensures requests[k] == base + RenderAll((blocks + [b])[..k])
    {
      assert (blocks + [b])[..k] == blocks[..k];
    }
  }

  lemma LastSent(base: seq<ChatMessage>, requests: seq<seq<ChatMessage>>, blocks: seq<Block>)
    requires Sent(base, requests, blocks) && |requests| == |blocks| + 1
    ensures requests[|blocks|] == base + RenderAll(blocks)
  {
    hide RenderAll;
    assert blocks[..|blocks|] == blocks;
  }

  lemma LaterBlocksDoNotMatter(model: Model, exec: Executor, request: seq<ChatMessage>, blocks: seq<Block>,
                               b: Block, k: nat)
    requires k < |blocks|
    ensures Follows(model, exec, request, blocks + [b], k) == Follows(model, exec, request, blocks, k)
  {
    hide Executed;
    assert (blocks + [b])[..k] == blocks[..k];
  }

  lemma AnsweredStays(model: Model, exec: Executor, requests: seq<seq<ChatMessage>>, blocks: seq<Block>, b: Block)
    requires Answered(model, exec, requests, blocks) && |requests| == |blocks| + 1
    requires Follows(model, exec, requests[|blocks|], blocks + [b], |blocks|)
    ensures Answered(model, exec, requests, blocks + [b])
  {
    hide Follows;
    forall k | 0 <= k < |blocks|
      ensures Follows(model, exec, requests[k], blocks + [b], k)
    {
      LaterBlocksDoNotMatter(model, exec, requests[k], blocks, b, k);
    }
  }

  lemma BlockAdds(base: seq<ChatMessage>, model: Model, exec: Executor,
                  requests: seq<seq<ChatMessage>>, blocks: seq<Block>, b: Block)
    requires SoFar(base, model, exec, requests, blocks) && |requests| == |blocks| + 1
    requires Follows(model, exec, base + RenderAll(blocks), blocks + [b], |blocks|)
    ensures SoFar(base, model, exec, requests, blocks + [b])
    ensures RenderAll(blocks + [b]) == RenderAll(blocks) + Render(b)
  {
    hide Render, RenderAll, Follows, Sent, Answered;
    LastSent(base, requests, blocks);
    SentStays(base, requests, blocks, b);
    AnsweredStays(model, exec, requests, blocks, b);
    LastRendered(blocks, b);
  }

  lemma NudgeAdds(base: seq<ChatMessage>, model: Model, exec: Executor,
                  requests: seq<seq<ChatMessage>>, blocks: seq<Block>)
    requires SoFar(base, model, exec, requests, blocks) && |requests| == |blocks| + 1
    requires BlankReply(model(base + RenderAll(blocks))) && |blocks| > 0 && Nudge !in blocks
    ensures SoFar(base, model, exec, requests, blocks + [Nudge])
    ensures RenderAll(blocks + [Nudge]) == RenderAll(blocks) + [NUDGE]
  {
    hide SoFar, RenderAll;
    assert (blocks + [Nudge])[..|blocks|] == blocks;
    BlockAdds(base, model, exec, requests, blocks, Nudge);
  }

  lemma RoundAdds(base: seq<ChatMessage>, model: Model, exec: Executor,
                  requests: seq<seq<ChatMessage>>, blocks: seq<Block>, choice: ChatMessage, results: seq<string>)
    requires SoFar(base, model, exec, requests, blocks) && |requests| == |blocks| + 1
    requires model(base + RenderAll(blocks)) == Choice(choice) && 1 <= |choice.calls| == |results|
    requires Executed(exec, base + RenderAll(blocks) + [choice], choice.calls, results)
    ensures SoFar(base, model, exec, requests, blocks + [Round(choice, results)])
    ensures base + RenderAll(blocks + [Round(choice, results)])
         == base + RenderAll(blocks) + [choice] + Answers(choice.calls, results)
  {
    hide SoFar, RenderAll, Executed, Answers;
    assert (blocks + [Round(choice, results)])[|blocks|] == Round(choice, results);
    BlockAdds(base, model, exec, requests, blocks, Round(choice, results));
  }

  // ---------- What follows ----------

  /** The model is reminded at most once, and never before it was sent the result of a tool. */
  lemma OneNudge(base: seq<ChatMessage>, model: Model, exec: Executor, talk: Talk, i: nat, j: nat)
    requires Conversation(base, model, exec, talk) && i <= j < |talk.blocks|
    requires talk.blocks[i].Nudge? && talk.blocks[j].Nudge?
    ensures i == j && talk.blocks[0].Round?
  {
    hide RenderAll, Executed;
    assert Follows(model, exec, talk.requests[0], talk.blocks, 0);
    assert Follows(model, exec, talk.requests[j], talk.blocks, j);
    assert talk.blocks[i] == Nudge;
  }

  /** The calls of a transcript that wait for their results: none, if a result is missing, is out of
      order, or answers another call. */
  function Waiting(msgs: seq<ChatMessage>): Option<seq<ToolCall>> {
    if msgs == [] then Some([])
    else
      var m := msgs[|msgs| - 1];
      var waiting := Waiting(msgs[..|msgs| - 1]);
      if waiting.None? then None
      else if waiting.value == [] then if m.role == Tool then None else Some(m.calls)
      else if m.role == Tool && m.callId == waiting.value[0].id && m.name == waiting.value[0].name
      then Some(waiting.value[1..]) else None
  }

  lemma {:induction false} AnswersWaiting(msgs: seq<ChatMessage>, calls: seq<ToolCall>, results: seq<string>)
    requires |results| <= |calls| && Waiting(msgs) == Some(calls)
    ensures Waiting(msgs + Answers(calls, results)) == Some(calls[|results|..])
  {
    if results == [] {
      assert msgs + Answers(calls, results) == msgs;
    } else {
      var n := |results| - 1;
      AnswersWaiting(msgs, calls, results[..n]);
      var last := ToolMessage(calls[n], results[n]);
      assert msgs + Answers(calls, results) == msgs + Answers(calls, results[..n]) + [last];
      assert calls[n..][1..] == calls[n + 1..];
    }
  }

  lemma RenderedIsAnswered(msgs: seq<ChatMessage>, b: Block)
    requires Waiting(msgs) == Some([]) && Complete(b) && (b.Round? ==> b.message.role != Tool)
    ensures Waiting(msgs + Render(b)) == Some([])
  {
    hide Answers;
    if b.Round? {
      CallsWait(msgs, b.message);
      var asked := msgs + [b.message];
      hide Waiting;
      AnswersWaiting(asked, b.message.calls, b.results);
      assert msgs + Render(b) == asked + Answers(b.message.calls, b.results);
      assert b.message.calls[|b.results|..] == [];
    } else {
      CallsWait(msgs, NUDGE);
    }
  }

  lemma CallsWait(msgs: seq<ChatMessage>, m: ChatMessage)
    requires Waiting(msgs) == Some([]) && m.role != Tool
    ensures Waiting(msgs + [m]) == Some(m.calls)
  {
    assert (msgs + [m])[..|msgs|] == msgs;
  }

  /** In every request each call of a tool is followed by its result, in order, before anything else. */
  lemma {:induction false} EveryCallIsAnswered(base: seq<ChatMessage>, model: Model, exec: Executor, talk: Talk, k: nat)
    requires Waiting(base) == Some([]) && Conversation(base, model, exec, talk) && k < |talk.requests|
    requires forall i :: 0 <= i < k && talk.blocks[i].Round? ==> talk.blocks[i].message.role != Tool
    ensures Waiting(talk.requests[k]) == Some([])
  {
    hide Waiting, Render, Executed, Concludes;
    var requests, blocks := talk.requests, talk.blocks;
    if k == 0 {
      assert requests[0] == base;
    } else {
      EveryCallIsAnswered(base, model, exec, talk, k - 1);
      assert Follows(model, exec, requests[k - 1], blocks, k - 1);
      RenderedIsAnswered(requests[k - 1], blocks[k - 1]);
      assert blocks[..k][..k - 1] == blocks[..k - 1];
      assert requests[k] == requests[k - 1] + Render(blocks[k - 1]);
    }
  }

  // ---------- What the model is shown ----------

  /** The message at this place is a tool's answer to the call: its text, or its error, when it was called with
      these arguments after all that precedes. */
  ghost predicate AnswersAt(msgs: seq<ChatMessage>, at: int, call: ToolCall, exec: Executor) {
    && 0 <= at < |msgs|
    && var m := msgs[at];
       && m.role == Tool && m.callId == call.id && m.name == call.name && m.calls == []
       && match exec(msgs[..at], call.name, call.arguments)
          case Ok(text) => m.content == text
          case Err(error) => m.content == "error calling tool: " + error
  }

  /** What is appended to a request whose answer was this choice: the choice itself, and for each of its calls
      in turn the answer. */
  ghost predicate Shown(request: seq<ChatMessage>, choice: ChatMessage, exec: Executor, next: seq<ChatMessage>) {
    && |next| == |request| + 1 + |choice.calls|
    && request <= next && next[|request|] == choice
    && forall j :: 0 <= j < |choice.calls| ==> AnswersAt(next, |request| + 1 + j, choice.calls[j], exec)
  }

  lemma RoundIsShown(request: seq<ChatMessage>, b: Block, exec: Executor)
    requires b.Round? && Complete(b) && Executed(exec, request + [b.message], b.message.calls, b.results)
    ensures Shown(request, b.message, exec, request + Render(b))
  {
    var choice, results := b.message, b.results;
    var asked := request + [choice];
    var next := request + Render(b);
    assert next == asked + Answers(choice.calls, results);
    forall j | 0 <= j < |choice.calls|
      ensures AnswersAt(next, |request| + 1 + j, choice.calls[j], exec)
    {
      assert Answers(choice.calls, results)[..j] == Answers(choice.calls, results[..j]);
      assert next[..|request| + 1 + j] == asked + Answers(choice.calls, results[..j]);
    }
  }

  /** Over a whole conversation of at most twelve requests: the first request is the base. Each further one is
      its predecessor, followed by the model's answer to it with what its tools said, or, when the answer was
      blank, by the reminder to reply. */
  lemma RequestsShowResults(base: seq<ChatMessage>, model: Model, exec: Executor, talk: Talk, k: nat)
    requires Conversation(base, model, exec, talk) && k < |talk.requests|
    ensures |talk.requests| <= 12 && (talk.result == Err(TooManySteps) ==> |talk.requests| == 12)
    ensures k == 0 ==> talk.requests[0] == base
    ensures k > 0 ==>
              var before, now := talk.requests[k - 1], talk.requests[k];
              && model(before).Choice?
              && (if model(before).message.calls != [] then Shown(before, model(before).message, exec, now)
                  else && Blank(model(before).message.content)
                       && now == before + [ChatMessage(
                            User,
                            "Your last message had no text. Reply with JSON only: {\"reply\":\"your short message\"}",
                            [], "", "")])
  {
    hide Render, Executed, Shown, Trim;
    var requests, blocks := talk.requests, talk.blocks;
    if k > 0 {
      assert Follows(model, exec, requests[k - 1], blocks, k - 1);
      assert blocks[..k][..k - 1] == blocks[..k - 1];
      assert requests[k] == requests[k - 1] + Render(blocks[k - 1]);
      if blocks[k - 1].Round? {
        RoundIsShown(requests[k - 1], blocks[k - 1], exec);
      } else {
        NudgeIsShown(requests[k - 1], blocks[k - 1]);
        TrimmedIsNotBlank(model(requests[k - 1]).message.content);
      }
    }
  }

  lemma NudgeIsShown(request: seq<ChatMessage>, b: Block)
    requires b.Nudge?
    ensures request + Render(b) == request + [NUDGE]
  {}

  lemma {:induction false} RequestsGrow(base: seq<ChatMessage>, model: Model, exec: Executor, talk: Talk,
                                        k: nat, n: nat)
    requires Conversation(base, model, exec, talk) && k <= n < |talk.requests|
    ensures talk.requests[k] <= talk.requests[n]
  {
    hide Conversation, Shown;
    if k < n {
      RequestsGrow(base, model, exec, talk, k, n - 1);
      OneRequestGrows(base, model, exec, talk, n);
    }
  }

  lemma OneRequestGrows(base: seq<ChatMessage>, model: Model, exec: Executor, talk: Talk, n: nat)
    requires Conversation(base, model, exec, talk) && 0 < n < |talk.requests|
    ensures talk.requests[n - 1] <= talk.requests[n]
  {
    hide Conversation;
    RequestsShowResults(base, model, exec, talk, n);
  }

  lemma AnswerStays(msgs: seq<ChatMessage>, later: seq<ChatMessage>, at: int, call: ToolCall, exec: Executor)
    requires AnswersAt(msgs, at, call, exec) && msgs <= later
    ensures AnswersAt(later, at, call, exec)
  {
    assert later[..at] == msgs[..at];
  }

  /** In every later request, call `j` of the model's answer `k` is answered by what the tool said of its
      arguments, after the transcript before it. */
  lemma EveryResultIsShown(base: seq<ChatMessage>, model: Model, exec: Executor, talk: Talk, k: nat, n: nat, j: nat)
    requires Conversation(base, model, exec, talk) && k < n < |talk.requests|
    ensures model(talk.requests[k]).Choice?
    ensures var calls := model(talk.requests[k]).message.calls;
            j < |calls| ==> AnswersAt(talk.requests[n], |talk.requests[k]| + 1 + j, calls[j], exec)
  {
    hide Conversation, AnswersAt;
    RequestsShowResults(base, model, exec, talk, k + 1);
    RequestsGrow(base, model, exec, talk, k + 1, n);
    var calls := model(talk.requests[k]).message.calls;
    if j < |calls| {
      AnswerStays(talk.requests[k + 1], talk.requests[n], |talk.requests[k]| + 1 + j, calls[j], exec);
    }
  }

  // ---------- One outcome ----------

  lemma {:induction false} SameResults(exec: Executor, before: seq<ChatMessage>, calls: seq<ToolCall>,
                                       p: seq<string>, q: seq<string>, j: nat)
    requires |p| == |q| == |calls| && j <= |p|
    requires Executed(exec, before, calls, p) && Executed(exec, before, calls, q)
    ensures p[..j] == q[..j]
  {
    if j > 0 {
      SameResults(exec, before, calls, p, q, j - 1);
      assert p[j - 1] == q[j - 1];
    }
  }

  lemma SameBlock(model: Model, exec: Executor, request: seq<ChatMessage>, blocks: seq<Block>,
                  their: seq<Block>, k: nat)
    requires k < |blocks| && k < |their|
    requires Follows(model, exec, request, blocks, k) && Follows(model, exec, request, their, k)
    ensures blocks[k] == their[k]
  {
    hide Executed;
    if blocks[k].Round? && their[k].Round? {
      var b, c := blocks[k], their[k];
      SameResults(exec, request + [b.message], b.message.calls, b.results, c.results, |b.results|);
      assert b.results[..|b.results|] == b.results && c.results[..|b.results|] == c.results;
    }
  }

  /** The same model and tools leave no choice: two conversations agree step by step. */
  lemma {:induction false} SameBlocks(base: seq<ChatMessage>, model: Model, exec: Executor,
                                      talk: Talk, other: Talk, k: nat)
    requires Conversation(base, model, exec, talk) && Conversation(base, model, exec, other)
    requires k <= |talk.blocks| && k <= |other.blocks|
    ensures talk.blocks[..k] == other.blocks[..k]
  {
    hide Follows, RenderAll, Concludes;
    if k > 0 {
      SameBlocks(base, model, exec, talk, other, k - 1);
      assert talk.requests[k - 1] == other.requests[k - 1];
      SameBlock(model, exec, talk.requests[k - 1], talk.blocks, other.blocks, k - 1);
      assert talk.blocks[..k] == talk.blocks[..k - 1] + [talk.blocks[k - 1]];
      assert other.blocks[..k] == other.blocks[..k - 1] + [other.blocks[k - 1]];
    }
  }

  lemma NothingFollows(model: Model, exec: Executor, request: seq<ChatMessage>, blocks: seq<Block>, k: nat, other: Talk)
    requires Concludes(model(request), other) && |other.blocks| == k && |other.requests| == k + 1
    requires k < |blocks| && blocks[..k] == other.blocks
    ensures !Follows(model, exec, request, blocks, k)
  {}

  lemma EndedIsNotShorter(base: seq<ChatMessage>, model: Model, exec: Executor, talk: Talk, other: Talk)
    requires Conversation(base, model, exec, talk) && Conversation(base, model, exec, other)
    ensures |talk.blocks| <= |other.blocks|
  {
    hide RenderAll, Follows;
    var k := |other.blocks|;
    if k < |talk.blocks| {
      SameBlocks(base, model, exec, talk, other, k);
      assert talk.requests[k] == base + RenderAll(talk.blocks[..k]);
      assert other.blocks[..k] == other.blocks && talk.blocks[..k] == other.blocks;
      NothingFollows(model, exec, talk.requests[k], talk.blocks, k, other);
    }
  }

  /** What the loop promises leaves one outcome: its requests and its result are determined. */
  lemma OutcomeIsDetermined(base: seq<ChatMessage>, model: Model, exec: Executor, talk: Talk, other: Talk)
    requires Conversation(base, model, exec, talk) && Conversation(base, model, exec, other)
    ensures talk == other
  {
    hide RenderAll, Follows;
    EndedIsNotShorter(base, model, exec, talk, other);
    EndedIsNotShorter(base, model, exec, other, talk);
    var n := |talk.blocks|;
    SameBlocks(base, model, exec, talk, other, n);
    assert talk.blocks[..n] == talk.blocks && other.blocks[..n] == other.blocks;
    assert |talk.requests| == |other.requests|;
    assert talk.requests == other.requests;
  }
}

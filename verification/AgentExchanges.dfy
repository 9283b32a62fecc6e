/**
  Exchanges: what one chat adds to the history, and what its commit leaves there
  (src-tauri/src/ai_agent.rs, `agent_chat`, `trim_history`, `is_exchange_start`).
*/
module AgentExchanges {
  import opened Wrappers
  import opened AgentHistory

  /** What the model answers to one request, with the outcome of each tool call in it. */
  datatype Reply = Reply(stopReason: string, content: seq<Block>, outcomes: seq<ToolOutcome>)

  datatype ToolOutcome = Done(content: ResultContent) | ToolFailed(error: string)

  // ---- Building messages ----

  function Join(notes: seq<string>): string {
    if notes == [] then "" else if |notes| == 1 then notes[0] else notes[0] + " " + Join(notes[1..])
  }

  function BuildUserMessage(text: string, image: Option<ImageSource>, notes: seq<string>): Message {
    Message(User, Blocks(
      (if image.Some? then [Image(image.value)] else [])
      + (if notes != [] then [Text("(App note, not from the user: " + Join(notes) + ")")] else [])
      + [Text(text)]))
  }

  function ToolUseIds(blocks: seq<Block>): seq<string> {
    if blocks == [] then []
    else (if blocks[0].ToolUse? then [blocks[0].id] else []) + ToolUseIds(blocks[1..])
  }

  /** One result block for each tool call, in the order of the calls. */
  function ToolResults(blocks: seq<Block>, outcomes: seq<ToolOutcome>): seq<Block>
    requires |outcomes| == |ToolUseIds(blocks)|
  {
    if blocks == [] then
      []
    else if blocks[0].ToolUse? then
      [match outcomes[0]
       case Done(content) => ToolResult(blocks[0].id, content, false)
       case ToolFailed(error) => ToolResult(blocks[0].id, Plain(error), true)]
      + ToolResults(blocks[1..], outcomes[1..])
    else
      ToolResults(blocks[1..], outcomes)
  }

  predicate Answerable(reply: Reply) {
    |reply.outcomes| == |ToolUseIds(reply.content)|
  }

  // ---- The tool loop ----

  datatype RoundEnd = Stopped(stopReason: string) | Continues

  /** One iteration of the loop: the messages after it, and whether it ended the loop. */
  function Round(messages: seq<Message>, reply: Reply): (seq<Message>, RoundEnd)
    requires Answerable(reply)
  {
    if reply.stopReason == "refusal" then
      (messages, Stopped("refusal"))
    else
      var answered := messages + [Message(Assistant, Blocks(reply.content))];
      if reply.stopReason != "tool_use" then
        (answered, Stopped(reply.stopReason))
      else
        (answered + [Message(User, Blocks(ToolResults(reply.content, reply.outcomes)))], Continues)
  }

  /** The rest of the loop from a given round, against what the model would answer in each round. */
  function Rounds(messages: seq<Message>, script: seq<Result<Reply, string>>, round: nat)
    : (seq<Message>, Result<string, string>)
    requires |script| == MAX_TOOL_ROUNDS + 1 && round <= |script|
    requires forall k :: 0 <= k < |script| && script[k].Ok? ==> Answerable(script[k].value)
    decreases |script| - round
  {
    if round == |script| then
      (messages, Err(TOO_MANY_STEPS))
    else match script[round]
      case Err(error) => (messages, Err(error))
      case Ok(reply) =>
        var (after, end) := Round(messages, reply);
        match end
        case Stopped(stopReason) => (after, Ok(stopReason))
        case Continues => Rounds(after, script, round + 1)
  }

  method CollectResults(content: seq<Block>, outcomes: seq<ToolOutcome>) returns (results: seq<Block>)
    requires |outcomes| == |ToolUseIds(content)|
    ensures results == ToolResults(content, outcomes)
  {
    results := [];
    var ran := 0;
    for i := 0 to |content|
      invariant ran <= |outcomes| && |outcomes[ran..]| == |ToolUseIds(content[i..])|
      invariant results + ToolResults(content[i..], outcomes[ran..]) == ToolResults(content, outcomes)
    {
      var block := content[i];
      assert content[i..][1..] == content[i + 1..];
      if block.ToolUse? {
        assert outcomes[ran..][1..] == outcomes[ran + 1..];
        match outcomes[ran] {
          case Done(done) => results := results + [ToolResult(block.id, done, false)];
          case ToolFailed(error) => results := results + [ToolResult(block.id, Plain(error), true)];
        }
        ran := ran + 1;
      }
    }
  }

  method RunToolLoop(start: seq<Message>, script: seq<Result<Reply, string>>)
    returns (messages: seq<Message>, outcome: Result<string, string>)
    requires |script| == MAX_TOOL_ROUNDS + 1
    requires forall k :: 0 <= k < |script| && script[k].Ok? ==> Answerable(script[k].value)
    ensures (messages, outcome) == Rounds(start, script, 0)
  {
    messages := start;
    for round := 0 to MAX_TOOL_ROUNDS + 1
      invariant Rounds(messages, script, round) == Rounds(start, script, 0)
    {
      match script[round] {
        case Err(error) => return messages, Err(error);
        case Ok(reply) =>
          if reply.stopReason == "refusal" {
            return messages, Ok(reply.stopReason);
          }
          messages := messages + [Message(Assistant, Blocks(reply.content))];
          if reply.stopReason != "tool_use" {
            return messages, Ok(reply.stopReason);
          }
          var results := CollectResults(reply.content, reply.outcomes);
          messages := messages + [Message(User, Blocks(results))];
      }
    }
    outcome := Err(TOO_MANY_STEPS);
  }

  // ---- Trimming ----

  predicate IsExchangeStart(message: Message) {
    && message.role.User?
    && (message.content.Blocks? ==>
          forall i :: 0 <= i < |message.content.blocks| ==> !message.content.blocks[i].ToolResult?)
  }

  /** The last message that starts an exchange. */
  function LastStart(messages: seq<Message>): (start: Option<nat>)
    ensures start.Some? ==> start.value < |messages| && IsExchangeStart(messages[start.value])
    ensures start.Some? ==> forall i :: start.value < i < |messages| ==> !IsExchangeStart(messages[i])
    ensures start.None? ==> forall i :: 0 <= i < |messages| ==> !IsExchangeStart(messages[i])
    decreases |messages|
  {
    if messages == [] then None
    else if IsExchangeStart(messages[|messages| - 1]) then Some(|messages| - 1)
    else LastStart(messages[..|messages| - 1])
  }

  function Trim(messages: seq<Message>, limit: nat): seq<Message> {
    if |messages| <= limit then messages
    else match LastStart(messages)
      case Some(start) => messages[start..]
      case None => messages
  }

  method TrimHistory(messages: seq<Message>, limit: nat) returns (trimmed: seq<Message>)
    ensures trimmed == Trim(messages, limit)
  {
    if |messages| <= limit {
      return messages;
    }
    var i := |messages|;
    while i > 0
      invariant 0 <= i <= |messages|
      invariant forall k :: i <= k < |messages| ==> !IsExchangeStart(messages[k])
    {
      i := i - 1;
      if IsExchangeStart(messages[i]) {
        return messages[i..];
      }
    }
    trimmed := messages;
  }

  /** What a commit stores: `messages` is the local history, `kept` the length it began with. */
  function Commit(messages: seq<Message>, kept: nat, stopReason: string): seq<Message>
    requires kept <= |messages|
  {
    var answered := if stopReason == "refusal" then messages[..kept] else messages;
    DropImages(Trim(answered, MAX_HISTORY_MESSAGES))
  }

  // ---- The shape of a history ----

  /** `results` answers, one for one and in order, the tool calls of `calls`. */
  ghost predicate Answers(calls: Message, results: Message) {
    && calls.role.Assistant? && calls.content.Blocks?
    && results.role.User? && results.content.Blocks?
    && var ids := ToolUseIds(calls.content.blocks);
       var blocks := results.content.blocks;
       |blocks| == |ids|
       && forall k :: 0 <= k < |ids| ==> blocks[k].ToolResult? && blocks[k].toolUseId == ids[k]
  }

  ghost predicate InPlace(messages: seq<Message>, i: nat)
    requires i < |messages|
  {
    if i % 2 == 1 then
      messages[i].role.Assistant?
    else
      IsExchangeStart(messages[i]) || (i > 0 && Answers(messages[i - 1], messages[i]))
  }

  /**
    User and assistant alternate from a user message; a user message either starts an
    exchange or answers exactly the tool calls of the message before it.
  */
  ghost predicate WellFormed(messages: seq<Message>) {
    && (forall i :: 0 <= i < |messages| ==> InPlace(messages, i))
    && (messages != [] ==> IsExchangeStart(messages[0]))
  }

  /** A history at rest: well formed, ending with the assistant, without images, and bounded. */
  ghost predicate Settled(messages: seq<Message>) {
    WellFormed(messages) && |messages| % 2 == 0 && ImageFree(messages) && |messages| <= MAX_HISTORY_MESSAGES
  }

  lemma UserMessageStartsExchange(text: string, image: Option<ImageSource>, notes: seq<string>)
    ensures IsExchangeStart(BuildUserMessage(text, image, notes)) && IsExchangeStart(Message(User, Words(text)))
  {
  }

  // ---- What a user message says ----

  lemma JoinOfOne(note: string)
    ensures Join([note]) == note
  {
  }

  /** Notes are joined with one space between any two, wherever the list is split. */
  lemma {:induction false} JoinOfBoth(a: seq<string>, b: seq<string>)
    requires a != [] && b != []
    ensures Join(a + b) == Join(a) + " " + Join(b)
  {
    if |a| > 1 {
      assert (a + b)[1..] == a[1..] + b;
      JoinOfBoth(a[1..], b);
      calc {
        Join(a + b);
        a[0] + " " + (Join(a[1..]) + " " + Join(b));
        (a[0] + " " + Join(a[1..])) + " " + Join(b);
      }
    } else {
      assert (a + b)[1..] == b;
    }
  }

  predicate StandsAt(text: string, note: string, at: nat) {
    at + |note| <= |text| && text[at..at + |note|] == note
  }

  /** Every note stands in the text, each behind the one before it, none before `from`. */
  ghost predicate HoldsInOrder(text: string, notes: seq<string>, from: nat)
    decreases |notes|
  {
    notes == []
    || exists at: nat :: from <= at && StandsAt(text, notes[0], at) && HoldsInOrder(text, notes[1..], at + |notes[0]|)
  }

  lemma {:induction false} EarlierFrom(text: string, notes: seq<string>, from: nat, earlier: nat)
    requires HoldsInOrder(text, notes, from) && earlier <= from
    ensures HoldsInOrder(text, notes, earlier)
  {
  }

  lemma {:induction false} JoinHoldsInOrder(text: string, notes: seq<string>, from: nat)
    requires StandsAt(text, Join(notes), from)
    ensures HoldsInOrder(text, notes, from)
    decreases |notes|
  {
    if notes != [] {
      var next := from + |notes[0]|;
      assert StandsAt(text, notes[0], from) by {
        assert text[from..next] == Join(notes)[..|notes[0]|];
      }
      if |notes| > 1 {
        assert StandsAt(text, Join(notes[1..]), next + 1) by {
          assert text[next + 1..from + |Join(notes)|] == Join(notes)[|notes[0]| + 1..];
        }
        JoinHoldsInOrder(text, notes[1..], next + 1);
        EarlierFrom(text, notes[1..], next + 1, next);
      }
      assert HoldsInOrder(text, notes[1..], next);
    }
  }

  /**
    The message is the user's: the image if there is one, then one text with all notes in
    order if there are any, marked as not the user's, and last the text itself.
  */
  ghost predicate Tells(message: Message, text: string, image: Option<ImageSource>, notes: seq<string>) {
    && message.role.User? && message.content.Blocks?
    && var blocks := message.content.blocks;
       var images: nat := if image.Some? then 1 else 0;
       |blocks| == images + (if notes == [] then 0 else 1) + 1
       && blocks[|blocks| - 1] == Text(text)
       && (image.Some? ==> blocks[0] == Image(image.value))
       && (notes != [] ==> NoteBlock(blocks[images], notes))
  }

  ghost predicate NoteBlock(block: Block, notes: seq<string>) {
    && block == Text("(App note, not from the user: " + Join(notes) + ")")
    && HoldsInOrder(block.text, notes, |"(App note, not from the user: "|)
  }

  lemma UserMessageTells(text: string, image: Option<ImageSource>, notes: seq<string>)
    ensures Tells(BuildUserMessage(text, image, notes), text, image, notes)
  {
    var lead, joined, close := "(App note, not from the user: ", Join(notes), ")";
    assert (lead + joined + close)[|lead|..|lead| + |joined|] == joined;
    JoinHoldsInOrder(lead + joined + close, notes, |lead|);
  }

  /** The block gives the outcome of the tool call with this id: its content, or its error marked as one. */
  predicate Reports(result: Block, id: string, outcome: ToolOutcome) {
    && result.ToolResult? && result.toolUseId == id
    && result.isError == outcome.ToolFailed?
    && result.content == if outcome.Done? then outcome.content else Plain(outcome.error)
  }

  lemma Bracketed(open: string, a: string, b: string, close: string)
    requires open + a + close == open + b + close
    ensures a == b
  {
    assert (open + a + close)[|open|..|open| + |a|] == a && (open + b + close)[|open|..|open| + |b|] == b;
  }

  /**
    What the user says and what the application says are never confused: two user messages
    are equal exactly when their texts, their images and their joined notes are.
  */
  lemma {:induction false} UserMessageTellsItsPartsApart(
    text: string, image: Option<ImageSource>, notes: seq<string>,
    text': string, image': Option<ImageSource>, notes': seq<string>)
    ensures BuildUserMessage(text, image, notes) == BuildUserMessage(text', image', notes')
            <==> text == text' && image == image' && (notes == [] <==> notes' == []) && Join(notes) == Join(notes')
  {
    var m, m' := BuildUserMessage(text, image, notes), BuildUserMessage(text', image', notes');
    var blocks, blocks' := m.content.blocks, m'.content.blocks;
    assert blocks[|blocks| - 1] == Text(text) && blocks'[|blocks'| - 1] == Text(text');
    if m == m' {
      assert blocks[0].Image? <==> image.Some?;
      assert blocks'[0].Image? <==> image'.Some?;
      if notes != [] && notes' != [] {
        assert blocks[|blocks| - 2] == Text("(App note, not from the user: " + Join(notes) + ")");
        assert blocks'[|blocks'| - 2] == Text("(App note, not from the user: " + Join(notes') + ")");
        Bracketed("(App note, not from the user: ", Join(notes), Join(notes'), ")");
      }
    }
  }

  /** The calls of a list of blocks are those of its tool blocks, in order. */
  lemma {:induction false} ToolUseIdsOfBoth(a: seq<Block>, b: seq<Block>)
    ensures ToolUseIds(a + b) == ToolUseIds(a) + ToolUseIds(b)
    ensures |a| == 1 ==> ToolUseIds(a) == if a[0].ToolUse? then [a[0].id] else []
  {
    if a == [] {
      assert a + b == b;
    } else {
      assert (a + b)[1..] == a[1..] + b;
      ToolUseIdsOfBoth(a[1..], b);
    }
  }

  lemma {:induction false} ToolResultsAnswer(content: seq<Block>, outcomes: seq<ToolOutcome>)
    requires |outcomes| == |ToolUseIds(content)|
    ensures var results := ToolResults(content, outcomes);
            var ids := ToolUseIds(content);
            |results| == |ids| && forall k :: 0 <= k < |ids| ==> Reports(results[k], ids[k], outcomes[k])
  {
    if content != [] {
      var calls := content[0].ToolUse?;
      var rest := if calls then outcomes[1..] else outcomes;
      ToolResultsAnswer(content[1..], rest);
      var results, ids := ToolResults(content, outcomes), ToolUseIds(content);
      if calls {
        forall k | 0 <= k < |ids| ensures Reports(results[k], ids[k], outcomes[k]) {
          assert k > 0 ==> Reports(ToolResults(content[1..], rest)[k - 1], ToolUseIds(content[1..])[k - 1], rest[k - 1]);
        }
      }
    }
  }

  /**
    A message of tool results counts as the start of an exchange exactly when it is
    empty: when the model stopped for tool use without calling a tool.
  */
  lemma ResultsLookLikeAStartExactlyWhenEmpty(reply: Reply)
    requires Answerable(reply)
    ensures IsExchangeStart(Message(User, Blocks(ToolResults(reply.content, reply.outcomes))))
            <==> ToolUseIds(reply.content) == []
  {
    ToolResultsAnswer(reply.content, reply.outcomes);
    var results := ToolResults(reply.content, reply.outcomes);
    if results != [] {
      assert results[0].ToolResult?;
    }
  }

  lemma AppendKeepsWellFormed(messages: seq<Message>, next: Message)
    requires WellFormed(messages) && InPlace(messages + [next], |messages|)
    requires messages == [] ==> IsExchangeStart(next)
    ensures WellFormed(messages + [next])
  {
    var longer := messages + [next];
    forall i | 0 <= i < |longer| ensures InPlace(longer, i) {
      if i < |messages| {
        assert InPlace(messages, i);
      }
    }
  }

  /** A round keeps the shape and only appends: an answer, or an answer and the results it asked for. */
  lemma RoundKeepsWellFormed(messages: seq<Message>, reply: Reply)
    requires Answerable(reply) && WellFormed(messages) && |messages| % 2 == 1
    ensures var (after, end) := Round(messages, reply);
            && messages <= after && WellFormed(after)
            && match end
               case Continues => |after| == |messages| + 2
               case Stopped(stopReason) =>
                 if stopReason == "refusal" then after == messages else |after| == |messages| + 1
  {
    if reply.stopReason != "refusal" {
      var answer := Message(Assistant, Blocks(reply.content));
      AppendKeepsWellFormed(messages, answer);
      if reply.stopReason == "tool_use" {
        ToolResultsAnswer(reply.content, reply.outcomes);
        var results := Message(User, Blocks(ToolResults(reply.content, reply.outcomes)));
        assert (messages + [answer] + [results])[|messages|] == answer;
        assert Answers(answer, results);
        AppendKeepsWellFormed(messages + [answer], results);
      }
    }
  }

  /**
    A refusal adds nothing.  Any other reply is appended as it came; the loop goes on
    exactly when the model stopped for tool use, and then the outcome of each of its calls
    is reported back, in order.
  */
  lemma RoundMeans(messages: seq<Message>, reply: Reply)
    requires Answerable(reply)
    ensures var (after, end) := Round(messages, reply);
            && end == (if reply.stopReason == "tool_use" then Continues else Stopped(reply.stopReason))
            && if reply.stopReason == "refusal" then
                 after == messages
               else if reply.stopReason == "tool_use" then
                 exists results: seq<Block> :: ReportsAll(results, reply)
                   && after == messages + [Message(Assistant, Blocks(reply.content)), Message(User, Blocks(results))]
               else
                 after == messages + [Message(Assistant, Blocks(reply.content))]
  {
    if reply.stopReason == "tool_use" {
      var results := ToolResults(reply.content, reply.outcomes);
      ToolResultsAnswer(reply.content, reply.outcomes);
      assert ReportsAll(results, reply);
      assert Round(messages, reply).0
             == messages + [Message(Assistant, Blocks(reply.content)), Message(User, Blocks(results))];
    }
  }

  /** The results report the outcomes of the reply's calls, one for one and in order. */
  ghost predicate ReportsAll(results: seq<Block>, reply: Reply)
    requires Answerable(reply)
  {
    var ids := ToolUseIds(reply.content);
    |results| == |ids| && forall k :: 0 <= k < |ids| ==> Reports(results[k], ids[k], reply.outcomes[k])
  }

  predicate AsksForTools(answer: Result<Reply, string>) {
    answer.Ok? && answer.value.stopReason == "tool_use"
  }

  /**
    The first of the nine answers that does not ask for tools ends the loop, with its error
    or its stop reason; when all nine ask for tools, the loop gives up.
  */
  lemma {:induction false} FirstOtherAnswerEnds(
    messages: seq<Message>, script: seq<Result<Reply, string>>, round: nat, ends: nat)
    requires |script| == MAX_TOOL_ROUNDS + 1 && round <= ends <= |script|
    requires forall k :: 0 <= k < |script| && script[k].Ok? ==> Answerable(script[k].value)
    requires forall k :: round <= k < ends ==> AsksForTools(script[k])
    requires ends < |script| ==> !AsksForTools(script[ends])
    ensures var (after, outcome) := Rounds(messages, script, round);
            if ends == |script| then
              outcome.Err? && outcome.error == TOO_MANY_STEPS && |after| == |messages| + 2 * (ends - round)
            else if script[ends].Err? then
              outcome.Err? && outcome.error == script[ends].error && |after| == |messages| + 2 * (ends - round)
            else
              outcome == Ok(script[ends].value.stopReason)
              && |after| == |messages| + 2 * (ends - round) + if outcome.value == "refusal" then 0 else 1
    decreases ends - round
  {
    if round < ends {
      assert AsksForTools(script[round]);
      FirstOtherAnswerEnds(Round(messages, script[round].value).0, script, round + 1, ends);
    }
  }

  /** A whole loop that ends with an answer appends at most 17 messages and ends with the assistant. */
  lemma {:induction false} RoundsKeepWellFormed(messages: seq<Message>, script: seq<Result<Reply, string>>, round: nat)
    requires |script| == MAX_TOOL_ROUNDS + 1 && round <= |script|
    requires forall k :: 0 <= k < |script| && script[k].Ok? ==> Answerable(script[k].value)
    requires WellFormed(messages) && |messages| % 2 == 1
    ensures var (after, outcome) := Rounds(messages, script, round);
            && messages <= after && WellFormed(after)
            && (outcome.Ok? && outcome.value != "refusal" ==>
                  |after| % 2 == 0 && |after| <= |messages| + 2 * (MAX_TOOL_ROUNDS - round) + 1)
    decreases |script| - round
  {
    if round < |script| && script[round].Ok? {
      RoundKeepsWellFormed(messages, script[round].value);
      var (after, end) := Round(messages, script[round].value);
      if end.Continues? {
        RoundsKeepWellFormed(after, script, round + 1);
      }
    }
  }

  // ---- Answered calls ----

  /** The tool calls that a message makes. */
  function Calls(message: Message): seq<string> {
    if message.role.Assistant? && message.content.Blocks? then ToolUseIds(message.content.blocks) else []
  }

  ghost predicate AnsweredAt(messages: seq<Message>, i: nat)
    requires i < |messages|
  {
    Calls(messages[i]) != [] ==> i + 1 < |messages| && Answers(messages[i], messages[i + 1])
  }

  /** Every message that calls tools is followed by the answers to its calls. */
  ghost predicate AllAnswered(messages: seq<Message>) {
    forall i :: 0 <= i < |messages| ==> AnsweredAt(messages, i)
  }

  /** Every message before the last one is. */
  ghost predicate AnsweredBeforeLast(messages: seq<Message>) {
    forall i :: 0 <= i < |messages| - 1 ==> AnsweredAt(messages, i)
  }

  /** A round leaves at most its own calls open, and only if it ends the loop. */
  lemma RoundKeepsAnswers(messages: seq<Message>, reply: Reply)
    requires Answerable(reply) && AllAnswered(messages) && reply.stopReason != "refusal"
    ensures var (after, end) := Round(messages, reply);
            && (end.Continues? ==> AllAnswered(after))
            && (end.Stopped? ==> after != [] && AnsweredBeforeLast(after) && Calls(after[|after| - 1]) == ToolUseIds(reply.content))
  {
    var (after, end) := Round(messages, reply);
    var answer := Message(Assistant, Blocks(reply.content));
    forall i | 0 <= i < |messages| ensures AnsweredAt(after, i) {
      assert AnsweredAt(messages, i);
    }
    if end.Continues? {
      ToolResultsAnswer(reply.content, reply.outcomes);
      assert Answers(answer, after[|messages| + 1]);
    }
  }

  lemma StripKeepsCalls(message: Message)
    ensures Calls(StripMessage(message)) == Calls(message)
  {
    StripKeepsPlace(message);
  }

  lemma StripKeepsAnswers(calls: Message, results: Message)
    requires Answers(calls, results)
    ensures Answers(StripMessage(calls), StripMessage(results))
  {
    StripKeepsPlace(calls);
    StripKeepsPlace(results);
  }

  lemma {:induction false} CleanedAnswersAt(messages: seq<Message>, i: nat)
    requires i < |messages| && (i < |messages| - 1 ==> AnsweredAt(messages, i))
    ensures |DropImages(messages)| == |messages|
    ensures AnsweredAt(DropImages(messages), i) <==> i < |messages| - 1 || Calls(messages[i]) == []
  {
    DropPointwise(messages);
    StripKeepsCalls(messages[i]);
    if i < |messages| - 1 && Calls(messages[i]) != [] {
      StripKeepsAnswers(messages[i], messages[i + 1]);
    }
  }

  lemma {:induction false} CleaningKeepsAnswersBeforeLast(messages: seq<Message>)
    requires AnsweredBeforeLast(messages)
    ensures |DropImages(messages)| == |messages| && AnsweredBeforeLast(DropImages(messages))
  {
    DropPointwise(messages);
    var dropped := DropImages(messages);
    forall i | 0 <= i < |dropped| - 1 ensures AnsweredAt(dropped, i) {
      CleanedAnswersAt(messages, i);
    }
  }

  lemma OpenLastExactlyWhen(messages: seq<Message>)
    requires messages != [] && AnsweredBeforeLast(messages)
    ensures AllAnswered(messages) <==> Calls(messages[|messages| - 1]) == []
  {
    var last := |messages| - 1;
    if Calls(messages[last]) != [] {
      assert !AnsweredAt(messages, last);
    } else {
      forall i | 0 <= i < |messages| ensures AnsweredAt(messages, i) {
        assert i == last || i < |messages| - 1;
      }
    }
  }

  lemma {:induction false} CleaningKeepsAnswers(messages: seq<Message>, dropped: seq<Message>)
    requires messages != [] && AnsweredBeforeLast(messages) && dropped == DropImages(messages)
    ensures dropped != [] && AnsweredBeforeLast(dropped)
    ensures Calls(dropped[|dropped| - 1]) == Calls(messages[|messages| - 1])
  {
    CleaningKeepsAnswersBeforeLast(messages);
    DropPointwise(messages);
    StripKeepsCalls(messages[|messages| - 1]);
  }

  lemma SuffixKeepsAnswers(messages: seq<Message>, start: nat)
    requires start < |messages| && AnsweredBeforeLast(messages)
    ensures AnsweredBeforeLast(messages[start..])
  {
    forall i | 0 <= i < |messages[start..]| - 1 ensures AnsweredAt(messages[start..], i) {
      assert AnsweredAt(messages, start + i);
    }
  }

  /** An answered turn whose earlier calls are answered is stored so exactly when its last reply calls no tool. */
  lemma CommitKeepsAnswersExactlyWhen(messages: seq<Message>, kept: nat, stopReason: string)
    requires kept < |messages| && stopReason != "refusal" && AnsweredBeforeLast(messages)
    ensures AllAnswered(Commit(messages, kept, stopReason)) <==> Calls(messages[|messages| - 1]) == []
  {
    var start, stored := LastStart(messages), Commit(messages, kept, stopReason);
    if |messages| > MAX_HISTORY_MESSAGES && start.Some? {
      SuffixKeepsAnswers(messages, start.value);
      CleaningKeepsAnswers(messages[start.value..], stored);
    } else {
      CleaningKeepsAnswers(messages, stored);
    }
    OpenLastExactlyWhen(stored);
  }

  // ---- Messages that look like a start ----

  /** Some message behind the first one from `kept` on looks like the start of an exchange. */
  ghost predicate HasLaterStart(messages: seq<Message>, kept: nat) {
    exists i :: kept < i < |messages| && IsExchangeStart(messages[i])
  }

  /** A round adds such a message exactly when it stopped for tool use without calling a tool. */
  lemma RoundAddsAStartExactlyWhen(messages: seq<Message>, reply: Reply, kept: nat)
    requires Answerable(reply) && kept < |messages|
    ensures HasLaterStart(Round(messages, reply).0, kept)
            <==> HasLaterStart(messages, kept) || (reply.stopReason == "tool_use" && ToolUseIds(reply.content) == [])
  {
    var after := Round(messages, reply).0;
    ResultsLookLikeAStartExactlyWhenEmpty(reply);
    if i :| kept < i < |messages| && IsExchangeStart(messages[i]) {
      assert after[i] == messages[i];
    }
    if i :| kept < i < |after| && IsExchangeStart(after[i]) {
      assert i < |messages| ==> after[i] == messages[i];
      assert i >= |messages| ==> after[i].role.User? && i == |messages| + 1;
    }
    if reply.stopReason == "tool_use" {
      assert after[|messages| + 1] == Message(User, Blocks(ToolResults(reply.content, reply.outcomes)));
    }
  }

  // ---- Commits ----

  lemma SuffixIsWellFormed(messages: seq<Message>, start: nat)
    requires WellFormed(messages) && start < |messages| && IsExchangeStart(messages[start])
    ensures WellFormed(messages[start..]) && start % 2 == 0
  {
    assert InPlace(messages, start);
    var suffix := messages[start..];
    forall i | 0 <= i < |suffix| ensures InPlace(suffix, i) {
      assert InPlace(messages, start + i);
    }
  }

  lemma StripKeepsPlace(message: Message)
    ensures StripMessage(message).role == message.role
    ensures IsExchangeStart(StripMessage(message)) <==> IsExchangeStart(message)
    ensures forall calls :: Answers(calls, message) ==> Answers(calls, StripMessage(message))
    ensures message.role.Assistant? ==> StripMessage(message) == message
  {
    if message.role.User? && message.content.Blocks? {
      StripPointwise(message.content.blocks);
      assert forall i :: 0 <= i < |message.content.blocks| ==>
          (Strip(message.content.blocks)[i].ToolResult? <==> message.content.blocks[i].ToolResult?);
    }
  }

  lemma {:induction false} DropImagesKeepsWellFormed(messages: seq<Message>)
    requires WellFormed(messages)
    ensures WellFormed(DropImages(messages)) && |DropImages(messages)| == |messages|
  {
    DropPointwise(messages);
    var dropped := DropImages(messages);
    forall i | 0 <= i < |messages| ensures InPlace(dropped, i) {
      assert InPlace(messages, i);
      StripKeepsPlace(messages[i]);
      if i > 0 {
        StripKeepsPlace(messages[i - 1]);
      }
    }
    if messages != [] {
      StripKeepsPlace(messages[0]);
    }
  }

  lemma {:induction false} DropImagesSplits(a: seq<Message>, b: seq<Message>)
    ensures DropImages(a + b) == DropImages(a) + DropImages(b)
  {
    DropPointwise(a);
    DropPointwise(b);
    DropPointwise(a + b);
  }

  /** A refused turn leaves the stored history exactly as the request found it. */
  lemma RefusalChangesNothing(base: seq<Message>, messages: seq<Message>)
    requires Settled(base) && base <= messages
    ensures Commit(messages, |base|, "refusal") == base
  {
    assert messages[..|base|] == base;
    DropImagesFixesExactlyTheImageFree(base);
  }

  /** `messages` is the history `base` followed by one whole exchange of at most 18 messages. */
  ghost predicate OneExchangeMore(base: seq<Message>, messages: seq<Message>) {
    && |base| < |messages| <= |base| + 2 * MAX_TOOL_ROUNDS + 2
    && base <= messages && IsExchangeStart(messages[|base|])
    && WellFormed(messages) && |messages| % 2 == 0
  }

  lemma {:induction false} CleaningSettles(messages: seq<Message>)
    requires WellFormed(messages) && |messages| % 2 == 0 && |messages| <= MAX_HISTORY_MESSAGES
    ensures Settled(DropImages(messages))
  {
    DropImagesFixesExactlyTheImageFree(messages);
    DropImagesKeepsWellFormed(messages);
  }

  /** Up to 60 messages, an answered turn extends the history it began from, which stays as it was. */
  lemma AnswerExtends(base: seq<Message>, messages: seq<Message>, stopReason: string)
    requires Settled(base) && OneExchangeMore(base, messages) && stopReason != "refusal"
    requires |messages| <= MAX_HISTORY_MESSAGES
    ensures Commit(messages, |base|, stopReason) == base + DropImages(messages[|base|..])
    ensures Settled(Commit(messages, |base|, stopReason))
  {
    CleaningSettles(messages);
    DropImagesFixesExactlyTheImageFree(base);
    DropImagesSplits(base, messages[|base|..]);
    assert messages == base + messages[|base|..];
  }

  /** `stored` is the exchange, cleaned, from its last message that looks like a start. */
  ghost predicate FromNewestStart(exchange: seq<Message>, stored: seq<Message>) {
    exists start :: 0 <= start < |exchange| && IsExchangeStart(exchange[start])
                    && !HasLaterStart(exchange, start) && stored == DropImages(exchange[start..])
  }

  /** Past 60 messages, the history restarts at the newest exchange start, inside the new exchange. */
  lemma {:induction false} AnswerRestarts(base: seq<Message>, messages: seq<Message>, stopReason: string)
    requires Settled(base) && OneExchangeMore(base, messages) && stopReason != "refusal"
    requires |messages| > MAX_HISTORY_MESSAGES
    ensures var start := LastStart(messages);
            start.Some? && |base| <= start.value
            && Commit(messages, |base|, stopReason) == DropImages(messages[start.value..])
    ensures FromNewestStart(messages[|base|..], Commit(messages, |base|, stopReason))
    ensures Settled(Commit(messages, |base|, stopReason))
  {
    var start := LastStart(messages).value;
    SuffixIsWellFormed(messages, start);
    NewestExchangeFits(base, messages, start);
    CleaningSettles(messages[start..]);
    var exchange, at := messages[|base|..], start - |base|;
    assert exchange[at..] == messages[start..];
    assert forall i :: at < i < |exchange| ==> exchange[i] == messages[|base| + i];
  }

  lemma NewestExchangeFits(base: seq<Message>, messages: seq<Message>, start: nat)
    requires OneExchangeMore(base, messages) && |base| <= start < |messages| && start % 2 == 0
    ensures |messages[start..]| <= MAX_HISTORY_MESSAGES && |messages[start..]| % 2 == 0
  {
  }

  /** A restart keeps the newest exchange whole exactly when no later message of it looks like a start. */
  lemma RestartKeepsWholeExchangeExactlyWhen(base: seq<Message>, messages: seq<Message>, stopReason: string)
    requires Settled(base) && OneExchangeMore(base, messages) && stopReason != "refusal"
    requires |messages| > MAX_HISTORY_MESSAGES
    ensures Commit(messages, |base|, stopReason) == DropImages(messages[|base|..])
            <==> !HasLaterStart(messages, |base|)
  {
    AnswerRestarts(base, messages, stopReason);
    var start := LastStart(messages).value;
    DropPointwise(messages[start..]);
    DropPointwise(messages[|base|..]);
  }
}

/**
  What a commit stores, followed over whole runs: when every stored tool call is answered,
  when a restart keeps the newest exchange whole, and that the steps of a chat are the
  rounds of the tool loop.
*/
module AgentCommits {
  import opened Wrappers
  import opened AgentHistory
  import opened AgentExchanges
  import opened AgentConversation
  import opened AgentRuns

  // ---- The tool loop, step by step ----

  /** The actions of a chat that asks the model from a given round on. */
  function Asks(script: seq<Result<Reply, string>>, offers: seq<seq<Proposal>>, round: nat): seq<Action>
    requires |script| == |offers| && round <= |script|
    decreases |script| - round
  {
    if round == |script| || script[round].Err? then []
    else [Ask(script[round].value, offers[round])] + Asks(script, offers, round + 1)
  }

  lemma {:induction false} AnsweredChatIgnoresAsks(
    s: System, script: seq<Result<Reply, string>>, offers: seq<seq<Proposal>>, round: nat)
    requires s.pc.Answered? && |script| == |offers| && round <= |script|
    ensures s.Run(Asks(script, offers, round)) == s
    decreases |script| - round
  {
    if round < |script| && script[round].Ok? {
      var actions := Asks(script, offers, round);
      assert actions[1..] == Asks(script, offers, round + 1);
      AnsweredChatIgnoresAsks(s, script, offers, round + 1);
    }
  }

  /**
    A chat that asks step by step, with anything in between left out, ends as the tool loop
    does: answered with the loop's messages and stop reason, or still asking when the loop
    fails, so that the chat can only be given up.
  */
  lemma {:induction false} AsksAreTheRounds(
    s: System, script: seq<Result<Reply, string>>, offers: seq<seq<Proposal>>, round: nat)
    requires |script| == |offers| == MAX_TOOL_ROUNDS + 1 && round <= |script|
    requires forall k :: 0 <= k < |script| && script[k].Ok? ==> Answerable(script[k].value)
    requires s.pc.Asking? && s.pc.chat.round == round
    ensures var t := s.Run(Asks(script, offers, round));
            var (messages, outcome) := Rounds(s.pc.chat.messages, script, round);
            && (outcome.Ok? ==> t.pc.Answered? && t.pc.stopReason == outcome.value)
            && (outcome.Err? ==> t.pc.Asking?)
            && t.pc.chat.messages == messages && t.pc.chat.base == s.pc.chat.base && t.convo == s.convo
    decreases |script| - round
  {
    if round < |script| && script[round].Ok? {
      var actions := Asks(script, offers, round);
      assert actions[1..] == Asks(script, offers, round + 1);
      var next := s.Step(actions[0]);
      assert s.Run(actions) == next.Run(actions[1..]);
      if next.pc.Asking? {
        AsksAreTheRounds(next, script, offers, round + 1);
      } else {
        AnsweredChatIgnoresAsks(next, script, offers, round + 1);
      }
    }
  }

  // ---- Answered calls ----

  /** Where the calls in the conversation and in the chat at work stand. */
  ghost predicate CallsInv(s: System) {
    match s.pc
    case Asking(chat) => AllAnswered(chat.base) ==> AllAnswered(chat.messages)
    case Answered(chat, stopReason) => AllAnswered(chat.base) && stopReason != "refusal" ==> AnsweredBeforeLast(chat.messages)
    case _ => true
  }

  lemma MessageKeepsAnswers(messages: seq<Message>, next: Message)
    requires AllAnswered(messages) && next.role.User?
    ensures AllAnswered(messages + [next])
  {
    forall i | 0 <= i < |messages + [next]| ensures AnsweredAt(messages + [next], i) {
      if i < |messages| {
        assert AnsweredAt(messages, i);
      }
    }
  }

  lemma AskKeepsCallsInv(s: System, reply: Reply, proposals: seq<Proposal>)
    requires CallsInv(s)
    ensures CallsInv(s.DoAsk(reply, proposals))
  {
    if s.pc.Asking? && Answerable(reply) && reply.stopReason != "refusal" && AllAnswered(s.pc.chat.base) {
      RoundKeepsAnswers(s.pc.chat.messages, reply);
    }
  }

  lemma CopyOutKeepsCallsInv(s: System, text: string, image: Option<ImageSource>)
    requires CallsInv(s)
    ensures CallsInv(s.DoCopyOut(text, image))
  {
    if s.pc.ProfileRead? {
      var (claimed, chat) := s.convo.BeginChat(s.pc.profile, text, image);
      if AllAnswered(chat.base) {
        MessageKeepsAnswers(chat.base, BuildUserMessage(text, image, chat.notes));
      }
    }
  }

  lemma StepKeepsCallsInv(s: System, a: Action)
    requires CallsInv(s)
    ensures CallsInv(s.Step(a))
  {
    match a
    case Ask(reply, proposals) => AskKeepsCallsInv(s, reply, proposals);
    case CopyOut(text, image) => CopyOutKeepsCallsInv(s, text, image);
    case _ => assert s.Step(a).pc == s.pc || !(s.Step(a).pc.Asking? || s.Step(a).pc.Answered?);
  }

  lemma {:induction false} RunKeepsCallsInv(s: System, actions: seq<Action>)
    requires CallsInv(s)
    ensures CallsInv(s.Run(actions))
    decreases |actions|
  {
    if actions != [] {
      StepKeepsCallsInv(s, actions[0]);
      RunKeepsCallsInv(s.Step(actions[0]), actions[1..]);
    }
  }

  lemma {:induction false} ReachableCalls(profile: ProfileId, actions: seq<Action>)
    ensures PcInv(Start(profile).Run(actions)) && CallsInv(Start(profile).Run(actions))
  {
    Reachable(profile, actions);
    RunKeepsCallsInv(Start(profile), actions);
  }

  /** The chat's messages at its commit: answered but for the last, and behind the history it began from. */
  lemma AnsweredChat(s: System)
    requires PcInv(s) && CallsInv(s) && s.pc.Answered? && s.pc.stopReason != "refusal"
    requires s.convo.generation == s.pc.chat.generation && AllAnswered(s.convo.messages)
    ensures |s.pc.chat.base| < |s.pc.chat.messages| && AnsweredBeforeLast(s.pc.chat.messages)
  {
    assert s.convo.messages == s.pc.chat.base;
  }

  lemma CommitStores(s: System)
    requires s.pc.Answered? && s.convo.generation == s.pc.chat.generation && |s.pc.chat.base| < |s.pc.chat.messages|
    ensures s.DoCommit().convo.messages == Commit(s.pc.chat.messages, |s.pc.chat.base|, s.pc.stopReason)
  {
  }

  lemma CommitAnswersCalls(s: System)
    requires PcInv(s) && CallsInv(s) && s.pc.Answered? && s.pc.stopReason != "refusal"
    requires s.convo.generation == s.pc.chat.generation && AllAnswered(s.convo.messages)
    ensures s.pc.chat.messages != []
    ensures AllAnswered(s.DoCommit().convo.messages) <==> Calls(s.pc.chat.messages[|s.pc.chat.messages| - 1]) == []
  {
    AnsweredChat(s);
    CommitStores(s);
    CommitKeepsAnswersExactlyWhen(s.pc.chat.messages, |s.pc.chat.base|, s.pc.stopReason);
  }

  /** A commit leaves every stored call answered exactly when the last reply calls no tool. */
  ghost predicate CommitsAnswered(s: System) {
    && s.pc.Answered? && s.pc.chat.messages != []
    && (AllAnswered(s.Step(CommitReply).convo.messages)
        <==> Calls(s.pc.chat.messages[|s.pc.chat.messages| - 1]) == [])
  }

  lemma ReachableCommit(s: System)
    requires PcInv(s) && CallsInv(s) && s.pc.Answered? && s.pc.stopReason != "refusal"
    requires s.convo.generation == s.pc.chat.generation && AllAnswered(s.convo.messages)
    ensures CommitsAnswered(s)
  {
    CommitAnswersCalls(s);
    assert s.Step(CommitReply) == s.DoCommit();
  }

  /**
    When a commit keeps every stored call answered.  In every run, as the chat began from
    an answered history and is not refused, what it stores is answered exactly when its
    last reply calls no tool.
  */
  lemma {:induction false} CommitAnswersEveryCallExactlyWhen(profile: ProfileId, actions: seq<Action>)
    requires var s := Start(profile).Run(actions);
             s.pc.Answered? && s.pc.stopReason != "refusal" && s.convo.generation == s.pc.chat.generation
             && AllAnswered(s.convo.messages)
    ensures var s := Start(profile).Run(actions);
            && s.pc.chat.messages != []
            && (AllAnswered(s.Step(CommitReply).convo.messages)
                <==> Calls(s.pc.chat.messages[|s.pc.chat.messages| - 1]) == [])
  {
    assert CommitsAnswered(Start(profile).Run(actions)) by {
      ReachableCalls(profile, actions);
      ReachableCommit(Start(profile).Run(actions));
    }
  }

  /** If the step commits an answer to the conversation it came from, its last reply calls no tool. */
  predicate CommitsClosed(s: System, a: Action) {
    (a.CommitReply? && s.pc.Answered? && s.pc.stopReason != "refusal" && s.convo.generation == s.pc.chat.generation) ==>
      (s.pc.chat.messages != [] ==> Calls(s.pc.chat.messages[|s.pc.chat.messages| - 1]) == [])
  }

  lemma CommitKeepsAnsweredExactlyWhen(s: System)
    requires PcInv(s) && CallsInv(s) && AllAnswered(s.convo.messages)
    ensures AllAnswered(s.DoCommit().convo.messages) <==> CommitsClosed(s, CommitReply)
  {
    if s.pc.Answered? && s.convo.generation == s.pc.chat.generation {
      if s.pc.stopReason == "refusal" {
        RefusalChangesNothing(s.pc.chat.base, s.pc.chat.messages);
      } else {
        CommitAnswersCalls(s);
      }
    }
  }

  lemma StepKeepsAnsweredExactlyWhen(s: System, a: Action)
    requires PcInv(s) && CallsInv(s) && AllAnswered(s.convo.messages)
    ensures AllAnswered(s.Step(a).convo.messages) <==> CommitsClosed(s, a)
  {
    if a.CommitReply? {
      CommitKeepsAnsweredExactlyWhen(s);
    } else {
      OtherStepsKeepHistory(s, a);
      NothingIsAnswered();
    }
  }

  /** At every moment of the run every stored call is answered. */
  ghost predicate AlwaysAnswered(s: System, actions: seq<Action>)
    decreases |actions|
  {
    AllAnswered(s.convo.messages) && (actions != [] ==> AlwaysAnswered(s.Step(actions[0]), actions[1..]))
  }

  predicate AllCommitsClosed(s: System, actions: seq<Action>)
    decreases |actions|
  {
    actions == [] || (CommitsClosed(s, actions[0]) && AllCommitsClosed(s.Step(actions[0]), actions[1..]))
  }

  lemma {:induction false} RunIsAnsweredExactlyWhen(s: System, actions: seq<Action>)
    requires Inv(s) && CallsInv(s) && AllAnswered(s.convo.messages)
    ensures AlwaysAnswered(s, actions) <==> AllCommitsClosed(s, actions)
    decreases |actions|
  {
    if actions != [] {
      var next := s.Step(actions[0]);
      StepKeepsAnsweredExactlyWhen(s, actions[0]);
      StepKeepsInv(s, actions[0]);
      StepKeepsCallsInv(s, actions[0]);
      if AllAnswered(next.convo.messages) {
        RunIsAnsweredExactlyWhen(next, actions[1..]);
      }
    }
  }

  /**
    Over whole runs: every call in every history stored along the way is answered, exactly
    when no answer is committed whose last reply calls a tool.
  */
  lemma {:induction false} StoredCallsAreAnsweredExactlyWhen(profile: ProfileId, actions: seq<Action>)
    ensures AlwaysAnswered(Start(profile), actions) <==> AllCommitsClosed(Start(profile), actions)
  {
    StartHasNoOpenCall(profile);
    RunIsAnsweredExactlyWhen(Start(profile), actions);
  }

  /** A reply that is refused, that asks for its tools to be run, or that calls none. */
  predicate StopsWell(a: Action) {
    a.Ask? ==> a.reply.stopReason == "refusal" || a.reply.stopReason == "tool_use" || ToolUseIds(a.reply.content) == []
  }

  /** Every call that the conversation or the chat at work has made is answered. */
  ghost predicate NoOpenCall(s: System) {
    && AllAnswered(s.convo.messages)
    && match s.pc
       case Asking(chat) => AllAnswered(chat.base) && AllAnswered(chat.messages)
       case Answered(chat, stopReason) =>
         AllAnswered(chat.base)
         && (stopReason != "refusal" ==>
               chat.messages != [] && AnsweredBeforeLast(chat.messages) && Calls(chat.messages[|chat.messages| - 1]) == [])
       case _ => true
  }

  lemma NothingIsAnswered()
    ensures AllAnswered([])
  {
  }

  lemma AskLeavesNoOpenCall(s: System, reply: Reply, proposals: seq<Proposal>)
    requires NoOpenCall(s) && StopsWell(Ask(reply, proposals))
    ensures NoOpenCall(s.DoAsk(reply, proposals))
  {
    if s.pc.Asking? && Answerable(reply) && reply.stopReason != "refusal" {
      RoundKeepsAnswers(s.pc.chat.messages, reply);
    }
  }

  lemma CopyOutLeavesNoOpenCall(s: System, text: string, image: Option<ImageSource>)
    requires NoOpenCall(s)
    ensures NoOpenCall(s.DoCopyOut(text, image))
  {
    NothingIsAnswered();
    if s.pc.ProfileRead? {
      var (claimed, chat) := s.convo.BeginChat(s.pc.profile, text, image);
      MessageKeepsAnswers(chat.base, BuildUserMessage(text, image, chat.notes));
    }
  }

  lemma CommitLeavesNoOpenCall(s: System)
    requires Inv(s) && NoOpenCall(s)
    ensures NoOpenCall(s.DoCommit())
  {
    if s.pc.Answered? && s.convo.generation == s.pc.chat.generation {
      if s.pc.stopReason == "refusal" {
        RefusalChangesNothing(s.pc.chat.base, s.pc.chat.messages);
      } else {
        CommitKeepsAnswersExactlyWhen(s.pc.chat.messages, |s.pc.chat.base|, s.pc.stopReason);
      }
    }
  }

  lemma OtherStepsKeepHistory(s: System, a: Action)
    requires !a.CommitReply?
    ensures var t := s.Step(a);
            && (t.convo.messages == s.convo.messages || t.convo.messages == [])
            && (!a.Ask? && !a.CopyOut? ==> t.pc == s.pc || !(t.pc.Asking? || t.pc.Answered?))
  {
  }

  lemma StepLeavesNoOpenCall(s: System, a: Action)
    requires Inv(s) && NoOpenCall(s) && StopsWell(a)
    ensures NoOpenCall(s.Step(a))
  {
    match a
    case Ask(reply, proposals) => AskLeavesNoOpenCall(s, reply, proposals);
    case CopyOut(text, image) => CopyOutLeavesNoOpenCall(s, text, image);
    case CommitReply => CommitLeavesNoOpenCall(s);
    case _ =>
      NothingIsAnswered();
      OtherStepsKeepHistory(s, a);
  }

  lemma {:induction false} RunLeavesNoOpenCall(s: System, actions: seq<Action>)
    requires Inv(s) && NoOpenCall(s) && forall k :: 0 <= k < |actions| ==> StopsWell(actions[k])
    ensures NoOpenCall(s.Run(actions))
    decreases |actions|
  {
    if actions != [] {
      StepKeepsInv(s, actions[0]);
      StepLeavesNoOpenCall(s, actions[0]);
      RunLeavesNoOpenCall(s.Step(actions[0]), actions[1..]);
    }
  }

  lemma StartHasNoOpenCall(profile: ProfileId)
    ensures Inv(Start(profile)) && NoOpenCall(Start(profile))
  {
    NothingIsAnswered();
    Reachable(profile, []);
    assert Start(profile).Run([]) == Start(profile);
  }

  /**
    As long as no reply other than a refusal calls tools under another stop reason than
    tool use, every tool call in every history that is ever stored is answered.
  */
  lemma {:induction false} StoredCallsAreAnswered(profile: ProfileId, actions: seq<Action>)
    requires forall k :: 0 <= k < |actions| ==> StopsWell(actions[k])
    ensures AllAnswered(Start(profile).Run(actions).convo.messages)
  {
    StartHasNoOpenCall(profile);
    RunLeavesNoOpenCall(Start(profile), actions);
  }

  // ---- Whole chats ----

  lemma {:induction false} RunSplits(s: System, a: seq<Action>, b: seq<Action>)
    ensures s.Run(a + b) == s.Run(a).Run(b)
    decreases |a|
  {
    if a == [] {
      assert a + b == b;
    } else {
      assert (a + b)[1..] == a[1..] + b;
      RunSplits(s.Step(a[0]), a[1..], b);
    }
  }

  lemma {:induction false} RunOne(s: System, a: Action, rest: seq<Action>)
    ensures s.Run([a] + rest) == s.Step(a).Run(rest)
  {
    assert ([a] + rest)[1..] == rest;
  }

  /** A chat with these answers, from the guard to the commit. */
  function Chatting(text: string, replies: seq<Reply>): seq<Action> {
    [AcquireGuard] + ([ReadProfile] + ([CopyOut(text, None)] + (Asking(replies) + [CommitReply])))
  }

  function Asking(replies: seq<Reply>): seq<Action> {
    if replies == [] then [] else [Ask(replies[0], [])] + Asking(replies[1..])
  }

  /** A conversation at rest, of the profile that is watching or of none yet, and without notes. */
  predicate AtRest(s: System) {
    s.pc.NoChat? && s.convo.notes == [] && (s.convo.profile == Some(s.watching) || s.convo == Convo([], map[], [], 0, None))
  }

  /** A chat at rest begins with its one message behind the stored history. */
  lemma {:induction false} ChatBegins(s: System, text: string, rest: seq<Action>)
    requires AtRest(s)
    ensures var t := s.Step(AcquireGuard).Step(ReadProfile).Step(CopyOut(text, None));
            && s.Run([AcquireGuard] + ([ReadProfile] + ([CopyOut(text, None)] + rest))) == t.Run(rest)
            && t.pc.Asking? && t.watching == s.watching && t.pc.chat.round == 0
            && t.pc.chat.base == s.convo.messages && t.convo.messages == s.convo.messages
            && t.pc.chat.messages == s.convo.messages + [BuildUserMessage(text, None, [])]
            && t.convo.profile == Some(s.watching) && t.convo.generation == t.pc.chat.generation
            && t.convo.notes == [] && t.pc.chat.notes == []
  {
    RunOne(s, AcquireGuard, [ReadProfile] + ([CopyOut(text, None)] + rest));
    RunOne(s.Step(AcquireGuard), ReadProfile, [CopyOut(text, None)] + rest);
    RunOne(s.Step(AcquireGuard).Step(ReadProfile), CopyOut(text, None), rest);
  }

  /** A chat of one answer stores the history with that exchange, as a commit leaves it. */
  lemma OneAnswer(s: System, text: string, reply: Reply)
    requires AtRest(s) && Answerable(reply) && reply.stopReason != "refusal" && reply.stopReason != "tool_use"
    ensures var t := s.Run(Chatting(text, [reply]));
            && AtRest(t) && t.watching == s.watching && t.convo.profile == Some(s.watching)
            && t.convo.messages
               == Commit(s.convo.messages + [BuildUserMessage(text, None, [])] + [Message(Assistant, Blocks(reply.content))],
                         |s.convo.messages|, reply.stopReason)
  {
    assert [reply][1..] == [] && Asking([reply]) == [Ask(reply, [])] + Asking([]);
    ChatBegins(s, text, Asking([reply]) + [CommitReply]);
    var asking := s.Step(AcquireGuard).Step(ReadProfile).Step(CopyOut(text, None));
    assert Asking([reply]) + [CommitReply] == [Ask(reply, [])] + ([CommitReply] + []);
    RunOne(asking, Ask(reply, []), [CommitReply] + []);
    RunOne(asking.Step(Ask(reply, [])), CommitReply, []);
  }

  // ---- A call that stays open ----

  const CUT_OFF := Reply("max_tokens", [ToolUse("t1", "search_library", "{}")], [Done(Plain(""))])

  /**
    The condition is needed: an answer cut off behind a tool call is stored with the call
    open, in a history that is settled in every other way.
  */
  lemma ACallCanStayOpen(profile: ProfileId)
    ensures var messages := Start(profile).Run(Chatting("hi", [CUT_OFF])).convo.messages;
            && messages == [BuildUserMessage("hi", None, []), Message(Assistant, Blocks(CUT_OFF.content))]
            && Settled(messages) && Calls(messages[1]) == ["t1"] && !AllAnswered(messages)
  {
    var content := CUT_OFF.content;
    assert content[1..] == [] && ToolUseIds(content) == ["t1"] + ToolUseIds([]);
    OneAnswer(Start(profile), "hi", CUT_OFF);
    Reachable(profile, Chatting("hi", [CUT_OFF]));
    var user, answer := BuildUserMessage("hi", None, []), Message(Assistant, Blocks(content));
    assert [] + [user] + [answer] == [user, answer];
    WordsAreImageFree([user, answer]);
    assert !AnsweredAt([user, answer], 1);
  }

  /** Messages of text, and of the assistant, are stored as they are. */
  lemma {:induction false} WordsAreImageFree(messages: seq<Message>)
    requires forall i :: 0 <= i < |messages| ==> MessageImageFree(messages[i])
    ensures DropImages(messages) == messages
  {
    DropImagesFixesExactlyTheImageFree(messages);
  }

  // ---- A restart that loses the question ----

  const OK := Reply("end_turn", [Text("ok")], [])
  const IDLE_ROUND := Reply("tool_use", [], [])

  function Chats(n: nat): seq<Action> {
    if n == 0 then [] else Chats(n - 1) + Chatting("hi", [OK])
  }

  lemma {:induction false} ChatsFill(profile: ProfileId, n: nat)
    requires n <= 29
    ensures var s := Start(profile).Run(Chats(n));
            AtRest(s) && s.watching == profile && |s.convo.messages| == 2 * n
  {
    if n > 0 {
      ChatsFill(profile, n - 1);
      var before := Start(profile).Run(Chats(n - 1));
      RunSplits(Start(profile), Chats(n - 1), Chatting("hi", [OK]));
      Reachable(profile, Chats(n - 1));
      OneAnswer(before, "hi", OK);
      DropPointwise(before.convo.messages + [BuildUserMessage("hi", None, [])] + [Message(Assistant, Blocks(OK.content))]);
    }
  }

  const IDLE_EXCHANGE: seq<Message> :=
    [BuildUserMessage("what did I ask?", None, []), Message(Assistant, Blocks([])), Message(User, Blocks([])),
     Message(Assistant, Blocks([Text("ok")]))]

  /** Over a history of 58 messages, the restart begins at the empty results. */
  lemma IdleExchangeIsCut(base: seq<Message>)
    requires |base| == 58
    ensures Commit(base + IDLE_EXCHANGE, 58, "end_turn") == IDLE_EXCHANGE[2..]
  {
    var messages := base + IDLE_EXCHANGE;
    assert messages[60] == IDLE_EXCHANGE[2] && messages[61] == IDLE_EXCHANGE[3];
    NewestStartIs(messages, 60);
    assert messages[60..] == IDLE_EXCHANGE[2..];
    WordsAreImageFree(IDLE_EXCHANGE[2..]);
  }

  lemma IdleRounds(s: System)
    requires s.pc.Asking? && s.pc.chat.round == 0
    ensures var t := s.Step(Ask(IDLE_ROUND, [])).Step(Ask(OK, []));
            && t.pc.Answered? && t.pc.stopReason == "end_turn" && t.convo == s.convo && t.watching == s.watching
            && t.pc.chat.base == s.pc.chat.base && t.pc.chat.generation == s.pc.chat.generation
            && t.pc.chat.notes == s.pc.chat.notes
            && t.pc.chat.messages == s.pc.chat.messages + IDLE_EXCHANGE[1..]
  {
    assert Answerable(IDLE_ROUND) && Answerable(OK);
    var once := s.Step(Ask(IDLE_ROUND, []));
    assert once.pc.chat.messages == s.pc.chat.messages + [IDLE_EXCHANGE[1]] + [IDLE_EXCHANGE[2]];
    assert s.pc.chat.messages + [IDLE_EXCHANGE[1]] + [IDLE_EXCHANGE[2]] + [IDLE_EXCHANGE[3]]
           == s.pc.chat.messages + IDLE_EXCHANGE[1..];
  }

  lemma IdleChatRuns(asking: System)
    ensures asking.Run(Asking([IDLE_ROUND, OK]) + [CommitReply])
            == asking.Step(Ask(IDLE_ROUND, [])).Step(Ask(OK, [])).Step(CommitReply)
  {
    var replies := [IDLE_ROUND, OK];
    assert replies[1..] == [OK] && [OK][1..] == [];
    assert Asking(replies) == [Ask(IDLE_ROUND, [])] + Asking([OK]) && Asking([OK]) == [Ask(OK, [])] + Asking([]);
    var once := asking.Step(Ask(IDLE_ROUND, []));
    assert Asking(replies) + [CommitReply] == [Ask(IDLE_ROUND, [])] + ([Ask(OK, [])] + ([CommitReply] + []));
    RunOne(asking, Ask(IDLE_ROUND, []), [Ask(OK, [])] + ([CommitReply] + []));
    RunOne(once, Ask(OK, []), [CommitReply] + []);
    RunOne(once.Step(Ask(OK, [])), CommitReply, []);
  }

  lemma IdleCommit(s: System, base: seq<Message>)
    requires s.pc.Answered? && s.pc.stopReason == "end_turn" && s.convo.generation == s.pc.chat.generation
    requires s.pc.chat.base == base && |base| == 58 && s.pc.chat.messages == base + IDLE_EXCHANGE
    ensures s.Step(CommitReply).convo.messages == IDLE_EXCHANGE[2..]
  {
    IdleExchangeIsCut(base);
  }

  lemma IdleMessages(base: seq<Message>)
    ensures base + [BuildUserMessage("what did I ask?", None, [])] + IDLE_EXCHANGE[1..] == base + IDLE_EXCHANGE
  {
    assert [BuildUserMessage("what did I ask?", None, [])] + IDLE_EXCHANGE[1..] == IDLE_EXCHANGE;
  }

  /** What the chat with the idle round stores over a history of 58 messages. */
  lemma IdleRoundIsStored(s: System)
    requires AtRest(s) && |s.convo.messages| == 58
    ensures s.Run(Chatting("what did I ask?", [IDLE_ROUND, OK])).convo.messages == IDLE_EXCHANGE[2..]
  {
    ChatBegins(s, "what did I ask?", Asking([IDLE_ROUND, OK]) + [CommitReply]);
    var asking := s.Step(AcquireGuard).Step(ReadProfile).Step(CopyOut("what did I ask?", None));
    IdleChatRuns(asking);
    IdleRounds(asking);
    IdleMessages(s.convo.messages);
    IdleCommit(asking.Step(Ask(IDLE_ROUND, [])).Step(Ask(OK, [])), s.convo.messages);
  }

  lemma {:induction false} NewestStartIs(messages: seq<Message>, start: nat)
    requires start < |messages| && IsExchangeStart(messages[start])
    requires forall i :: start < i < |messages| ==> !IsExchangeStart(messages[i])
    ensures LastStart(messages) == Some(start)
  {
  }

  /**
    The condition for keeping the newest exchange whole is needed: 29 chats and then one
    whose first answer stops for tool use without a call store an empty user message and
    an answer, and the question is gone.
  */
  lemma ARestartCanLoseTheQuestion(profile: ProfileId)
    ensures Start(profile).Run(Chats(29) + Chatting("what did I ask?", [IDLE_ROUND, OK])).convo.messages
            == [Message(User, Blocks([])), Message(Assistant, Blocks([Text("ok")]))]
  {
    ChatsFill(profile, 29);
    RunSplits(Start(profile), Chats(29), Chatting("what did I ask?", [IDLE_ROUND, OK]));
    IdleRoundIsStored(Start(profile).Run(Chats(29)));
    assert IDLE_EXCHANGE[2..] == [Message(User, Blocks([])), Message(Assistant, Blocks([Text("ok")]))];
  }
}

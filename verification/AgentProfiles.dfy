/**
  Under which profile the tool results of a conversation were read.

  A conversation belongs to the profile of its chats, and another profile starts a new one,
  so that nothing one profile saw carries over to another (src-tauri/src/ai_agent.rs:148-155).
  The tools, however, read for whoever is watching when they run (lines 519 and 799-844).
  The tools of one round run at one moment here.
*/
module AgentProfiles {
  import opened Wrappers
  import opened AgentHistory
  import opened AgentExchanges
  import opened AgentConversation
  import opened AgentRuns

  /** For a message of tool results, the profile that was watching when they were read. */
  type Mark = Option<ProfileId>

  /** The marks of the stored history and of the chat at work, message by message. */
  datatype Tracked = Tracked(s: System, stored: seq<Mark>, asking: seq<Mark>) {
    function MarksOfAsk(reply: Reply): seq<Mark> {
      if !s.pc.Asking? || s.pc.chat.round > MAX_TOOL_ROUNDS || !Answerable(reply) || reply.stopReason == "refusal" then
        asking
      else if reply.stopReason == "tool_use" then
        asking + [None, if ToolUseIds(reply.content) == [] then None else Some(s.watching)]
      else
        asking + [None]
    }

    /** Where the history that a commit stores begins in the chat's messages. */
    function CutOf(): nat
      requires s.pc.Answered?
    {
      if s.pc.stopReason != "refusal" && |s.pc.chat.messages| > MAX_HISTORY_MESSAGES
         && LastStart(s.pc.chat.messages).Some?
      then LastStart(s.pc.chat.messages).value else 0
    }

    predicate Commits() {
      s.pc.Answered? && s.pc.stopReason != "refusal" && s.convo.generation == s.pc.chat.generation
    }

    function Step(a: Action): Tracked {
      var t := s.Step(a);
      var kept := if t.convo.generation == s.convo.generation then stored else [];
      match a
      case CopyOut(_, _) => Tracked(t, kept, if s.pc.ProfileRead? then kept + [None] else asking)
      case Ask(reply, _) => Tracked(t, kept, MarksOfAsk(reply))
      case CommitReply =>
        Tracked(t, if Commits() && CutOf() <= |asking| then asking[CutOf()..] else kept, asking)
      case _ => Tracked(t, kept, asking)
    }

    function Run(actions: seq<Action>): Tracked
      decreases |actions|
    {
      if actions == [] then this else Step(actions[0]).Run(actions[1..])
    }
  }

  function Begin(profile: ProfileId): Tracked {
    Tracked(Start(profile), [], [])
  }

  /** Tracking follows the run. */
  lemma {:induction false} TrackingFollows(t: Tracked, actions: seq<Action>)
    ensures t.Run(actions).s == t.s.Run(actions)
    decreases |actions|
  {
    if actions != [] {
      TrackingFollows(t.Step(actions[0]), actions[1..]);
    }
  }

  // ---- What the marks mean ----

  predicate IsResults(message: Message) {
    message.role.User? && !IsExchangeStart(message)
  }

  /** Exactly the messages of tool results are marked. */
  ghost predicate MarksFit(marks: seq<Mark>, messages: seq<Message>) {
    |marks| == |messages| && forall k :: 0 <= k < |marks| ==> (marks[k].Some? <==> IsResults(messages[k]))
  }

  ghost predicate Aligned(t: Tracked) {
    && MarksFit(t.stored, t.s.convo.messages)
    && match t.s.pc
       case Asking(chat) => ChatAligned(t, chat)
       case Answered(chat, _) => ChatAligned(t, chat)
       case _ => true
  }

  ghost predicate ChatAligned(t: Tracked, chat: Chat) {
    && MarksFit(t.asking, chat.messages) && |chat.base| <= |chat.messages|
    && (chat.generation == t.s.convo.generation ==> t.asking[..|chat.base|] == t.stored)
  }

  lemma AskKeepsAligned(t: Tracked, reply: Reply, proposals: seq<Proposal>)
    requires Aligned(t)
    ensures Aligned(t.Step(Ask(reply, proposals)))
  {
    if t.s.pc.Asking? && t.s.pc.chat.round <= MAX_TOOL_ROUNDS && Answerable(reply) {
      var chat, after := t.s.pc.chat, Round(t.s.pc.chat.messages, reply).0;
      ResultsLookLikeAStartExactlyWhenEmpty(reply);
      assert MarksFit(t.MarksOfAsk(reply), after);
      assert t.MarksOfAsk(reply)[..|chat.base|] == t.asking[..|chat.base|];
    }
  }

  lemma {:induction false} StripKeepsResults(messages: seq<Message>, marks: seq<Mark>)
    requires MarksFit(marks, messages)
    ensures MarksFit(marks, DropImages(messages))
  {
    DropPointwise(messages);
    forall k | 0 <= k < |marks| ensures marks[k].Some? <==> IsResults(DropImages(messages)[k]) {
      StripKeepsPlace(messages[k]);
    }
  }

  lemma CommitKeepsAligned(t: Tracked)
    requires PcInv(t.s) && Settled(t.s.convo.messages) && Aligned(t)
    ensures Aligned(t.Step(CommitReply))
  {
    if t.s.pc.Answered? && t.s.convo.generation == t.s.pc.chat.generation {
      var chat := t.s.pc.chat;
      if t.s.pc.stopReason == "refusal" {
        RefusalChangesNothing(chat.base, chat.messages);
      } else {
        StripKeepsResults(chat.messages[t.CutOf()..], t.asking[t.CutOf()..]);
      }
    }
  }

  lemma CopyOutKeepsAligned(t: Tracked, text: string, image: Option<ImageSource>)
    requires Aligned(t)
    ensures Aligned(t.Step(CopyOut(text, image)))
  {
    if t.s.pc.ProfileRead? {
      var (claimed, chat) := t.s.convo.BeginChat(t.s.pc.profile, text, image);
      UserMessageStartsExchange(text, image, chat.notes);
    }
  }

  lemma StepKeepsAligned(t: Tracked, a: Action)
    requires Inv(t.s) && Aligned(t)
    ensures Aligned(t.Step(a))
  {
    match a
    case Ask(reply, proposals) => AskKeepsAligned(t, reply, proposals);
    case CommitReply => CommitKeepsAligned(t);
    case CopyOut(text, image) => CopyOutKeepsAligned(t, text, image);
    case _ => OtherStepsMoveOn(t.s, a);
  }

  lemma OtherStepsMoveOn(s: System, a: Action)
    requires !a.Ask? && !a.CopyOut? && !a.CommitReply?
    ensures var t := s.Step(a);
            && (t.pc == s.pc || !(t.pc.Asking? || t.pc.Answered?))
            && s.convo.generation <= t.convo.generation
            && (if t.convo.generation == s.convo.generation
                then t.convo.messages == s.convo.messages && t.convo.profile == s.convo.profile
                else t.convo.messages == [])
  {
  }

  lemma {:induction false} RunKeepsAligned(t: Tracked, actions: seq<Action>)
    requires Inv(t.s) && Aligned(t)
    ensures Aligned(t.Run(actions))
    decreases |actions|
  {
    if actions != [] {
      StepKeepsInv(t.s, actions[0]);
      StepKeepsAligned(t, actions[0]);
      RunKeepsAligned(t.Step(actions[0]), actions[1..]);
    }
  }

  lemma BeginIsValid(profile: ProfileId)
    ensures Inv(Start(profile)) && Aligned(Begin(profile))
  {
    Reachable(profile, []);
    assert Start(profile).Run([]) == Start(profile);
  }

  /** In every run exactly the stored messages of tool results are marked. */
  lemma {:induction false} ResultsAreMarked(profile: ProfileId, actions: seq<Action>)
    ensures var t := Begin(profile).Run(actions);
            t.s == Start(profile).Run(actions) && MarksFit(t.stored, t.s.convo.messages)
  {
    BeginIsValid(profile);
    TrackingFollows(Begin(profile), actions);
    RunKeepsAligned(Begin(profile), actions);
  }

  // ---- Whose results are stored ----

  /** Every stored tool result was read under the profile that the conversation belongs to. */
  ghost predicate OwnResults(t: Tracked) {
    AllOf(t.stored, t.s.convo.profile)
  }

  /** In each round that a commit stores, the profile watching was that of the chat. */
  predicate ReadsOwn(t: Tracked, a: Action) {
    (a.CommitReply? && t.Commits()) ==>
      forall k :: t.CutOf() <= k < |t.asking| && |t.s.pc.chat.base| <= k && t.asking[k].Some? ==>
        t.asking[k] == Some(t.s.pc.chat.profile)
  }

  ghost predicate AllOf(marks: seq<Mark>, profile: Option<ProfileId>) {
    forall k :: 0 <= k < |marks| && marks[k].Some? ==> marks[k] == profile
  }

  ghost predicate AllOfFrom(marks: seq<Mark>, from: nat, kept: nat, profile: Option<ProfileId>) {
    forall k :: from <= k < |marks| && kept <= k && marks[k].Some? ==> marks[k] == profile
  }

  lemma SuffixIsOfExactlyWhen(marks: seq<Mark>, kept: nat, cut: nat, profile: Option<ProfileId>)
    requires kept <= |marks| && cut <= |marks| && AllOf(marks[..kept], profile)
    ensures AllOf(marks[cut..], profile) <==> AllOfFrom(marks, cut, kept, profile)
  {
    assert forall k :: 0 <= k < kept ==> marks[k] == marks[..kept][k];
    assert forall k :: cut <= k < |marks| ==> marks[k] == marks[cut..][k - cut];
  }

  lemma CommitKeepsOwnResultsExactlyWhen(t: Tracked)
    requires PcInv(t.s) && Aligned(t) && OwnResults(t)
    ensures OwnResults(t.Step(CommitReply)) <==> ReadsOwn(t, CommitReply)
  {
    if t.Commits() {
      var chat, after := t.s.pc.chat, t.Step(CommitReply);
      SuffixIsOfExactlyWhen(t.asking, |chat.base|, t.CutOf(), Some(chat.profile));
      assert after.stored == t.asking[t.CutOf()..] && after.s.convo.profile == Some(chat.profile);
      assert ReadsOwn(t, CommitReply) <==> AllOfFrom(t.asking, t.CutOf(), |chat.base|, Some(chat.profile));
    }
  }

  lemma StepKeepsOwnResultsExactlyWhen(t: Tracked, a: Action)
    requires Inv(t.s) && Aligned(t) && OwnResults(t)
    ensures OwnResults(t.Step(a)) <==> ReadsOwn(t, a)
  {
    match a
    case CommitReply => CommitKeepsOwnResultsExactlyWhen(t);
    case Ask(_, _) =>
    case CopyOut(_, _) =>
    case _ => OtherStepsMoveOn(t.s, a);
  }

  ghost predicate AlwaysOwn(t: Tracked, actions: seq<Action>)
    decreases |actions|
  {
    OwnResults(t) && (actions != [] ==> AlwaysOwn(t.Step(actions[0]), actions[1..]))
  }

  predicate AllReadOwn(t: Tracked, actions: seq<Action>)
    decreases |actions|
  {
    actions == [] || (ReadsOwn(t, actions[0]) && AllReadOwn(t.Step(actions[0]), actions[1..]))
  }

  lemma {:induction false} RunStaysOwn(t: Tracked, actions: seq<Action>)
    requires Inv(t.s) && Aligned(t) && OwnResults(t)
    ensures AlwaysOwn(t, actions) <==> AllReadOwn(t, actions)
    decreases |actions|
  {
    if actions != [] {
      StepKeepsInv(t.s, actions[0]);
      StepKeepsAligned(t, actions[0]);
      StepKeepsOwnResultsExactlyWhen(t, actions[0]);
      if OwnResults(t.Step(actions[0])) {
        RunStaysOwn(t.Step(actions[0]), actions[1..]);
      }
    }
  }

  /**
    At every moment of a run all stored tool results were read under the profile of the
    conversation, exactly when in each round that is committed the profile watching was
    that of the chat.
  */
  lemma {:induction false} ResultsAreOwnExactlyWhen(profile: ProfileId, actions: seq<Action>)
    ensures AlwaysOwn(Begin(profile), actions) <==> AllReadOwn(Begin(profile), actions)
  {
    BeginIsValid(profile);
    RunStaysOwn(Begin(profile), actions);
  }

  // ---- A result that crosses over ----

  const LOOKUP := Reply("tool_use", [ToolUse("t1", "search_library", "{}")], [Done(Plain("[]"))])
  const ANSWER := Reply("end_turn", [Text("Here it is.")], [])

  function SwitchedWhileAsking(other: ProfileId): seq<Action> {
    [AcquireGuard, ReadProfile, CopyOut("hi", None), SwitchProfile(other)] + [Ask(LOOKUP, []), Ask(ANSWER, []), CommitReply]
  }

  lemma {:induction false} RunOne(t: Tracked, a: Action, rest: seq<Action>)
    ensures t.Run([a] + rest) == t.Step(a).Run(rest)
  {
    assert ([a] + rest)[1..] == rest;
  }

  lemma SwitchedRuns(t: Tracked, other: ProfileId)
    ensures t.Run(SwitchedWhileAsking(other))
            == t.Step(AcquireGuard).Step(ReadProfile).Step(CopyOut("hi", None)).Step(SwitchProfile(other))
                .Step(Ask(LOOKUP, [])).Step(Ask(ANSWER, [])).Step(CommitReply)
  {
    var asks := [Ask(LOOKUP, [])] + ([Ask(ANSWER, [])] + ([CommitReply] + []));
    assert SwitchedWhileAsking(other)
           == [AcquireGuard] + ([ReadProfile] + ([CopyOut("hi", None)] + ([SwitchProfile(other)] + asks)));
    var t1 := t.Step(AcquireGuard);
    var t2 := t1.Step(ReadProfile);
    var t3 := t2.Step(CopyOut("hi", None));
    RunOne(t, AcquireGuard, [ReadProfile] + ([CopyOut("hi", None)] + ([SwitchProfile(other)] + asks)));
    RunOne(t1, ReadProfile, [CopyOut("hi", None)] + ([SwitchProfile(other)] + asks));
    RunOne(t2, CopyOut("hi", None), [SwitchProfile(other)] + asks);
    RunOne(t3, SwitchProfile(other), asks);
    AsksRun(t3.Step(SwitchProfile(other)));
  }

  lemma AsksRun(t: Tracked)
    ensures t.Run([Ask(LOOKUP, [])] + ([Ask(ANSWER, [])] + ([CommitReply] + [])))
            == t.Step(Ask(LOOKUP, [])).Step(Ask(ANSWER, [])).Step(CommitReply)
  {
    var t1 := t.Step(Ask(LOOKUP, []));
    RunOne(t, Ask(LOOKUP, []), [Ask(ANSWER, [])] + ([CommitReply] + []));
    RunOne(t1, Ask(ANSWER, []), [CommitReply] + []);
    RunOne(t1.Step(Ask(ANSWER, [])), CommitReply, []);
  }

  lemma LookupAsks(t: Tracked)
    requires t.s.pc.Asking? && t.s.pc.chat.round == 0
    ensures var u := t.Step(Ask(LOOKUP, [])).Step(Ask(ANSWER, []));
            && u.s.pc.Answered? && u.s.pc.stopReason == "end_turn" && u.s.convo == t.s.convo && u.stored == t.stored
            && u.s.pc.chat.generation == t.s.pc.chat.generation && u.s.pc.chat.base == t.s.pc.chat.base
            && |u.s.pc.chat.messages| == |t.s.pc.chat.messages| + 3
            && u.asking == t.asking + [None, Some(t.s.watching)] + [None]
  {
    assert LOOKUP.content[1..] == [] && ToolUseIds(LOOKUP.content) == ["t1"] + ToolUseIds([]);
    assert Answerable(LOOKUP) && Answerable(ANSWER);
  }

  /**
    A concrete run in which what one profile saw is stored for another: the profile switches
    while a chat is asking, and the tool result read under the new one is committed to the
    conversation of the old one.
  */
  lemma AResultCanCrossOver(profile: ProfileId, other: ProfileId)
    requires profile != other
    ensures var t := Begin(profile).Run(SwitchedWhileAsking(other));
            && t.s == Start(profile).Run(SwitchedWhileAsking(other))
            && t.s.convo.profile == Some(profile) && t.stored == [None, None, Some(other), None] && !OwnResults(t)
  {
    TrackingFollows(Begin(profile), SwitchedWhileAsking(other));
    SwitchedRuns(Begin(profile), other);
    var asking := Begin(profile).Step(AcquireGuard).Step(ReadProfile).Step(CopyOut("hi", None)).Step(SwitchProfile(other));
    SwitchedChatAsks(profile, other);
    LookupAsks(asking);
    ResultIsStored(asking.Step(Ask(LOOKUP, [])).Step(Ask(ANSWER, [])), profile, other);
  }

  lemma SwitchedChatAsks(profile: ProfileId, other: ProfileId)
    ensures var t := Begin(profile).Step(AcquireGuard).Step(ReadProfile).Step(CopyOut("hi", None)).Step(SwitchProfile(other));
            && t.s.pc.Asking? && t.s.pc.chat.round == 0 && t.asking == [None] && t.s.watching == other
            && t.s.pc.chat.base == [] && |t.s.pc.chat.messages| == 1
            && t.s.pc.chat.generation == t.s.convo.generation && t.s.convo.profile == Some(profile)
  {
  }

  lemma ResultIsStored(t: Tracked, profile: ProfileId, other: ProfileId)
    requires t.s.pc.Answered? && t.s.pc.stopReason == "end_turn" && t.s.pc.chat.generation == t.s.convo.generation
    requires t.s.pc.chat.base == [] && |t.s.pc.chat.messages| == 4
    requires t.asking == [None] + [None, Some(other)] + [None]
    requires profile != other && t.s.convo.profile == Some(profile)
    ensures var u := t.Step(CommitReply);
            u.s.convo.profile == Some(profile) && u.stored == [None, None, Some(other), None] && !OwnResults(u)
  {
    assert t.asking[0..] == [None, None, Some(other), None];
    assert t.Step(CommitReply).stored[2] == Some(other);
  }
}

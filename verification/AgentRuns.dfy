/**
  Every interleaving of chats, buttons, resets and profile switches.

  A run is any sequence of actions; an action that is not ready changes nothing.  A
  chat takes the busy guard, reads the active profile, copies the conversation out,
  asks the model round by round without the lock, and commits or fails.  Any number
  of buttons may be pressed meanwhile: each reads the active profile, takes its action
  under the lock, executes it, and pushes a note.
*/
module AgentRuns {
  import opened Wrappers
  import opened AgentHistory
  import opened AgentExchanges
  import opened AgentConversation

  datatype ChatPc =
    | NoChat
    | Acquired
    | ProfileRead(profile: ProfileId)
    | Asking(chat: Chat)
    | Answered(chat: Chat, stopReason: string)

  /** A button that executes keeps what was recorded of its action when it was taken. */
  datatype ButtonPc = Pressed(profile: ProfileId, id: ActionId) | Executing(action: ProposedAction, taken: Execution)

  /** Where an action was proposed: by a chat of this profile that began in this generation. */
  datatype Origin = Origin(profile: ProfileId, generation: nat)

  /** An action taken by a button that read this profile, in this generation of the conversation. */
  datatype Execution = Execution(id: ActionId, profile: ProfileId, generation: nat)

  datatype Proposal = Proposal(mediaId: Option<int>, caption: string)

  datatype Action =
    | SwitchProfile(profile: ProfileId)
    | ResetConversation
    | AcquireGuard
    | ReadProfile
    | CopyOut(text: string, image: Option<ImageSource>)
    | Ask(reply: Reply, proposals: seq<Proposal>)
    | FailChat
    | CommitReply
    | PressButton(button: nat, id: ActionId)
    | TakeAction(button: nat)
    | EndAction(button: nat, result: Result<string, string>)

  /**
    The last seven fields record history: the next action number, where each action was
    proposed, what was executed; for the current generation, the notes pushed, the
    execution behind each of them, and the notes carried by committed chats that were not
    refused; and whether a round of the current chat stopped for tool use without a call.
  */
  datatype System = System(
    convo: Convo,
    watching: ProfileId,
    pc: ChatPc,
    buttons: map<nat, ButtonPc>,
    nextAction: nat,
    origin: map<ActionId, Origin>,
    executed: seq<Execution>,
    pushed: seq<string>,
    pushers: seq<Execution>,
    delivered: seq<string>,
    emptyRound: bool)
  {
    function OnConvo(after: Convo): System {
      this.(convo := after,
            pushed := if after.generation == convo.generation then pushed else [],
            pushers := if after.generation == convo.generation then pushers else [],
            delivered := if after.generation == convo.generation then delivered else [])
    }

    function DoCopyOut(text: string, image: Option<ImageSource>): System {
      if pc.ProfileRead? then
        var (claimed, chat) := convo.BeginChat(pc.profile, text, image);
        OnConvo(claimed).(pc := Asking(chat), emptyRound := false)
      else
        this
    }

    /** One iteration of the tool loop; actions are proposed only by tools that ran. */
    function DoAsk(reply: Reply, proposals: seq<Proposal>): System {
      if !pc.Asking? || pc.chat.round > MAX_TOOL_ROUNDS || !Answerable(reply) then
        this
      else
        var chat := pc.chat;
        var (messages, end) := Round(chat.messages, reply);
        match end
        case Stopped(stopReason) => this.(pc := Answered(chat.(messages := messages), stopReason))
        case Continues =>
          var numbered := Numbered(nextAction, proposals);
          this.(pc := Asking(chat.(messages := messages, round := chat.round + 1,
                                   proposals := chat.proposals + numbered)),
                nextAction := nextAction + |proposals|,
                emptyRound := emptyRound || ToolUseIds(reply.content) == [],
                origin := Attribute(origin, numbered, Origin(chat.profile, chat.generation)))
    }

    function DoCommit(): System {
      if pc.Answered? && |pc.chat.base| <= |pc.chat.messages| then
        OnConvo(convo.CommitChat(pc.chat, pc.stopReason))
          .(pc := NoChat,
            delivered := if convo.generation == pc.chat.generation && pc.stopReason != "refusal"
                         then delivered + pc.chat.notes else delivered)
      else
        this
    }

    function DoTake(button: nat): System {
      if button in buttons && buttons[button].Pressed? then
        var press := buttons[button];
        var (after, action) := convo.TakeAction(press.profile, press.id);
        match action
        case None => OnConvo(after).(buttons := buttons - {button})
        case Some(taken) =>
          var execution := Execution(press.id, press.profile, after.generation);
          OnConvo(after).(buttons := buttons[button := Executing(taken, execution)],
                          executed := executed + [execution])
      else
        this
    }

    function DoEnd(button: nat, result: Result<string, string>): System {
      if button in buttons && buttons[button].Executing? then
        var note := NoteFor(buttons[button].action.caption, result);
        OnConvo(convo.PushNote(note)).(buttons := buttons - {button}, pushed := pushed + [note],
                                        pushers := pushers + [buttons[button].taken])
      else
        this
    }

    function Step(a: Action): System {
      match a
      case SwitchProfile(profile) => this.(watching := profile)
      case ResetConversation => OnConvo(convo.Reset())
      case AcquireGuard => if pc.NoChat? then this.(pc := Acquired) else this
      case ReadProfile => if pc.Acquired? then this.(pc := ProfileRead(watching)) else this
      case CopyOut(text, image) => DoCopyOut(text, image)
      case Ask(reply, proposals) => DoAsk(reply, proposals)
      case FailChat => this.(pc := NoChat)
      case CommitReply => DoCommit()
      case PressButton(button, id) =>
        if button in buttons then this else this.(buttons := buttons[button := Pressed(watching, id)])
      case TakeAction(button) => DoTake(button)
      case EndAction(button, result) => DoEnd(button, result)
    }

    function Run(actions: seq<Action>): System
      decreases |actions|
    {
      if actions == [] then this else Step(actions[0]).Run(actions[1..])
    }

    predicate Executed(id: ActionId) {
      exists e :: e in executed && e.id == id
    }
  }

  function Numbered(next: nat, proposals: seq<Proposal>): seq<ProposedAction> {
    seq(|proposals|, i requires 0 <= i < |proposals| =>
      ProposedAction(next + i, proposals[i].mediaId, proposals[i].caption))
  }

  function Attribute(origin: map<ActionId, Origin>, actions: seq<ProposedAction>, source: Origin)
    : map<ActionId, Origin>
    decreases |actions|
  {
    if actions == [] then origin else Attribute(origin[actions[0].id := source], actions[1..], source)
  }

  function Start(profile: ProfileId): System {
    System(Convo([], map[], [], 0, None), profile, NoChat, map[], 1, map[], [], [], [], [], false)
  }

  // ---- The inductive invariant ----

  predicate Proposes(chat: Chat, id: ActionId) {
    exists k :: 0 <= k < |chat.proposals| && chat.proposals[k].id == id
  }

  /** An action is in flight while the chat that proposed it has not committed or failed. */
  predicate InFlight(s: System, id: ActionId) {
    (s.pc.Asking? || s.pc.Answered?) && Proposes(s.pc.chat, id)
  }

  /** Unless the conversation was restarted, it still holds what the chat copied out of it. */
  ghost predicate Unmoved(convo: Convo, chat: Chat) {
    && chat.generation <= convo.generation
    && (chat.generation == convo.generation ==>
          convo.messages == chat.base && chat.notes <= convo.notes && convo.profile == Some(chat.profile))
  }

  ghost predicate ChatInv(chat: Chat) {
    && Settled(chat.base) && WellFormed(chat.messages)
    && |chat.base| < |chat.messages| && chat.base <= chat.messages
    && chat.messages[|chat.base|] == BuildUserMessage(chat.text, chat.image, chat.notes)
    && chat.round <= MAX_TOOL_ROUNDS + 1
  }

  ghost predicate PcInv(s: System) {
    match s.pc
    case Asking(chat) =>
      Unmoved(s.convo, chat) && ChatInv(chat) && |chat.messages| == |chat.base| + 1 + 2 * chat.round
      && (s.emptyRound <==> HasLaterStart(chat.messages, |chat.base|))
    case Answered(chat, stopReason) =>
      Unmoved(s.convo, chat) && ChatInv(chat)
      && (s.emptyRound <==> HasLaterStart(chat.messages, |chat.base|))
      && (stopReason != "refusal" ==> OneExchangeMore(chat.base, chat.messages))
    case _ => true
  }

  /** What is known of one action number. */
  ghost predicate ActionInv(s: System, id: ActionId) {
    && (id in s.origin ==> id < s.nextAction)
    && (id in s.convo.pending ==>
          && s.convo.pending[id].id == id
          && id in s.origin && !s.Executed(id) && !InFlight(s, id)
          && s.convo.profile == Some(s.origin[id].profile) && s.convo.generation == s.origin[id].generation)
    && (InFlight(s, id) ==>
          id in s.origin && !s.Executed(id)
          && s.origin[id] == Origin(s.pc.chat.profile, s.pc.chat.generation))
  }

  ghost predicate ExecutedInv(s: System) {
    && (forall e :: e in s.executed ==> e.id in s.origin && s.origin[e.id] == Origin(e.profile, e.generation))
    && (forall i, j :: 0 <= i < j < |s.executed| ==> s.executed[i].id != s.executed[j].id)
  }

  ghost predicate Inv(s: System) {
    && Settled(s.convo.messages)
    && s.pushed == s.delivered + s.convo.notes
    && PcInv(s)
    && ExecutedInv(s)
    && (forall id: ActionId :: ActionInv(s, id))
  }

  lemma {:induction false} AddPendingHolds(
    pending: map<ActionId, ProposedAction>, actions: seq<ProposedAction>, id: ActionId)
    ensures var after := AddPending(pending, actions);
            && (id in after <==> id in pending || exists k :: 0 <= k < |actions| && actions[k].id == id)
            && ((id in pending ==> pending[id].id == id) && id in after ==> after[id].id == id)
            && (id in after && (forall k :: 0 <= k < |actions| ==> actions[k].id != id) ==> after[id] == pending[id])
            && (id in after && (exists k :: 0 <= k < |actions| && actions[k].id == id) ==> after[id] in actions)
    decreases |actions|
  {
    if actions != [] {
      AddPendingHolds(pending[actions[0].id := actions[0]], actions[1..], id);
      assert forall k :: 1 <= k < |actions| ==> actions[k] == actions[1..][k - 1];
    }
  }

  lemma EmptyIsSettled()
    ensures Settled([])
  {
  }

  lemma CopyOutKeepsInv(s: System, text: string, image: Option<ImageSource>)
    requires Inv(s)
    ensures Inv(s.DoCopyOut(text, image))
  {
    if s.pc.ProfileRead? {
      EmptyIsSettled();
      var (claimed, chat) := s.convo.BeginChat(s.pc.profile, text, image);
      var user := BuildUserMessage(text, image, chat.notes);
      UserMessageStartsExchange(text, image, chat.notes);
      AppendKeepsWellFormed(chat.base, user);
      forall id: ActionId ensures ActionInv(s.DoCopyOut(text, image), id) {
        assert ActionInv(s, id);
      }
    }
  }

  lemma {:induction false} AttributeHolds(
    origin: map<ActionId, Origin>, actions: seq<ProposedAction>, source: Origin, id: ActionId)
    ensures var after := Attribute(origin, actions, source);
            if exists k :: 0 <= k < |actions| && actions[k].id == id
            then id in after && after[id] == source
            else (id in after <==> id in origin) && (id in after ==> after[id] == origin[id])
    decreases |actions|
  {
    if actions != [] {
      AttributeHolds(origin[actions[0].id := source], actions[1..], source, id);
      assert forall k :: 1 <= k < |actions| ==> actions[k] == actions[1..][k - 1];
    }
  }

  lemma NumberedIsFresh(next: nat, proposals: seq<Proposal>, id: ActionId)
    ensures var actions := Numbered(next, proposals);
            (exists k :: 0 <= k < |actions| && actions[k].id == id) <==> next <= id < next + |proposals|
  {
    var actions := Numbered(next, proposals);
    if next <= id < next + |proposals| {
      assert actions[id - next].id == id;
    }
  }

  lemma AskKeepsActionInv(s: System, reply: Reply, proposals: seq<Proposal>, id: ActionId)
    requires ActionInv(s, id) && ExecutedInv(s)
    ensures ActionInv(s.DoAsk(reply, proposals), id)
    ensures id in s.origin ==> id in s.DoAsk(reply, proposals).origin
                               && s.DoAsk(reply, proposals).origin[id] == s.origin[id]
  {
    if s.pc.Asking? {
      var numbered := Numbered(s.nextAction, proposals);
      NumberedIsFresh(s.nextAction, proposals, id);
      AttributeHolds(s.origin, numbered, Origin(s.pc.chat.profile, s.pc.chat.generation), id);
      var more := s.pc.chat.proposals + numbered;
      if k :| 0 <= k < |more| && more[k].id == id {
        if k >= |s.pc.chat.proposals| {
          assert numbered[k - |s.pc.chat.proposals|].id == id;
        }
      }
      if k :| 0 <= k < |s.pc.chat.proposals| && s.pc.chat.proposals[k].id == id {
        assert more[k].id == id;
      }
    }
  }

  lemma AskKeepsPcInv(s: System, reply: Reply, proposals: seq<Proposal>)
    requires PcInv(s)
    ensures PcInv(s.DoAsk(reply, proposals))
  {
    if s.pc.Asking? && s.pc.chat.round <= MAX_TOOL_ROUNDS && Answerable(reply) {
      var chat := s.pc.chat;
      RoundKeepsWellFormed(chat.messages, reply);
      RoundAddsAStartExactlyWhen(chat.messages, reply, |chat.base|);
      UserMessageStartsExchange(chat.text, chat.image, chat.notes);
    }
  }

  lemma AskKeepsInv(s: System, reply: Reply, proposals: seq<Proposal>)
    requires Inv(s)
    ensures Inv(s.DoAsk(reply, proposals))
  {
    AskKeepsPcInv(s, reply, proposals);
    forall id: ActionId
      ensures ActionInv(s.DoAsk(reply, proposals), id)
      ensures id in s.origin ==> id in s.DoAsk(reply, proposals).origin
                                 && s.DoAsk(reply, proposals).origin[id] == s.origin[id]
    {
      assert ActionInv(s, id);
      AskKeepsActionInv(s, reply, proposals, id);
    }
  }

  lemma CommitKeepsHistory(s: System)
    requires Inv(s) && s.pc.Answered?
    ensures Settled(s.convo.CommitChat(s.pc.chat, s.pc.stopReason).messages)
  {
    var chat := s.pc.chat;
    if s.convo.generation == chat.generation {
      if s.pc.stopReason == "refusal" {
        RefusalChangesNothing(chat.base, chat.messages);
      } else if |chat.messages| <= MAX_HISTORY_MESSAGES {
        AnswerExtends(chat.base, chat.messages, s.pc.stopReason);
      } else {
        AnswerRestarts(chat.base, chat.messages, s.pc.stopReason);
      }
    }
  }

  lemma CommitKeepsActionInv(s: System, id: ActionId)
    requires PcInv(s) && s.pc.Answered? && ActionInv(s, id)
    ensures ActionInv(s.DoCommit(), id)
  {
    AddPendingHolds(s.convo.pending, s.pc.chat.proposals, id);
  }

  lemma CommitKeepsNotes(s: System)
    requires s.pushed == s.delivered + s.convo.notes && PcInv(s)
    ensures s.DoCommit().pushed == s.DoCommit().delivered + s.DoCommit().convo.notes
  {
    if s.pc.Answered? && s.convo.generation == s.pc.chat.generation {
      var notes, sent := s.convo.notes, |s.pc.chat.notes|;
      assert notes == s.pc.chat.notes + notes[sent..];
      assert s.delivered + (s.pc.chat.notes + notes[sent..]) == (s.delivered + s.pc.chat.notes) + notes[sent..];
    }
  }

  lemma CommitKeepsInv(s: System)
    requires Inv(s)
    ensures Inv(s.DoCommit())
  {
    CommitKeepsNotes(s);
    if s.pc.Answered? {
      CommitKeepsHistory(s);
      forall id: ActionId ensures ActionInv(s.DoCommit(), id) {
        CommitKeepsActionInv(s, id);
      }
    }
  }

  lemma TakeKeepsActionInv(s: System, button: nat, id: ActionId)
    requires ActionInv(s, id)
    ensures ActionInv(s.DoTake(button), id)
  {
  }

  lemma TakeKeepsExecutedInv(s: System, button: nat)
    requires ExecutedInv(s) && (button in s.buttons && s.buttons[button].Pressed? ==> ActionInv(s, s.buttons[button].id))
    ensures ExecutedInv(s.DoTake(button))
  {
  }

  lemma TakeKeepsConversation(s: System, button: nat)
    requires Settled(s.convo.messages) && s.pushed == s.delivered + s.convo.notes
    ensures var after := s.DoTake(button);
            && Settled(after.convo.messages) && after.pushed == after.delivered + after.convo.notes
            && after.pc == s.pc && after.emptyRound == s.emptyRound
            && (after.convo.generation == s.convo.generation ==>
                  (after.convo.messages, after.convo.notes, after.convo.profile)
                  == (s.convo.messages, s.convo.notes, s.convo.profile))
            && s.convo.generation <= after.convo.generation
  {
    EmptyIsSettled();
  }

  lemma UnmovedKeepsPcInv(s: System, after: System)
    requires PcInv(s) && after.pc == s.pc && after.emptyRound == s.emptyRound
    requires s.convo.generation <= after.convo.generation
    requires after.convo.generation == s.convo.generation ==>
               (after.convo.messages, after.convo.notes, after.convo.profile)
               == (s.convo.messages, s.convo.notes, s.convo.profile)
    ensures PcInv(after)
  {
  }

  lemma TakeKeepsInv(s: System, button: nat)
    requires Inv(s)
    ensures Inv(s.DoTake(button))
  {
    TakeKeepsConversation(s, button);
    UnmovedKeepsPcInv(s, s.DoTake(button));
    if button in s.buttons && s.buttons[button].Pressed? {
      assert ActionInv(s, s.buttons[button].id);
    }
    TakeKeepsExecutedInv(s, button);
    forall id: ActionId ensures ActionInv(s.DoTake(button), id) {
      TakeKeepsActionInv(s, button, id);
    }
  }

  lemma ResetKeepsInv(s: System)
    requires Inv(s)
    ensures Inv(s.OnConvo(s.convo.Reset()))
  {
    EmptyIsSettled();
    forall id: ActionId ensures ActionInv(s.OnConvo(s.convo.Reset()), id) {
      assert ActionInv(s, id);
    }
  }

  lemma EndKeepsInv(s: System, button: nat, result: Result<string, string>)
    requires Inv(s)
    ensures Inv(s.DoEnd(button, result))
  {
    forall id: ActionId ensures ActionInv(s.DoEnd(button, result), id) {
      assert ActionInv(s, id);
    }
  }

  lemma StepKeepsInv(s: System, a: Action)
    requires Inv(s)
    ensures Inv(s.Step(a))
  {
    match a
    case ResetConversation => ResetKeepsInv(s);
    case CopyOut(text, image) => CopyOutKeepsInv(s, text, image);
    case Ask(reply, proposals) => AskKeepsInv(s, reply, proposals);
    case CommitReply => CommitKeepsInv(s);
    case TakeAction(button) => TakeKeepsInv(s, button);
    case EndAction(button, result) => EndKeepsInv(s, button, result);
    case _ =>
      forall id: ActionId ensures ActionInv(s.Step(a), id) {
        assert ActionInv(s, id);
      }
  }

  lemma {:induction false} RunKeepsInv(s: System, actions: seq<Action>)
    requires Inv(s)
    ensures Inv(s.Run(actions))
    decreases |actions|
  {
    if actions != [] {
      StepKeepsInv(s, actions[0]);
      RunKeepsInv(s.Step(actions[0]), actions[1..]);
    }
  }

  lemma {:induction false} Reachable(profile: ProfileId, actions: seq<Action>)
    ensures Inv(Start(profile).Run(actions))
  {
    EmptyIsSettled();
    RunKeepsInv(Start(profile), actions);
  }

  // ---- What the invariant means for every run ----

  /**
    Every history that is ever stored, and so every history that a chat begins from:
    user and assistant alternate, every user message starts an exchange or answers the
    tool calls before it one for one, no uploaded image is left, at most 60 messages.
  */
  lemma {:induction false} StoredHistoryIsSettled(profile: ProfileId, actions: seq<Action>)
    ensures Settled(Start(profile).Run(actions).convo.messages)
  {
    Reachable(profile, actions);
  }

  /**
    The optimistic commit is exact.  At the moment of a commit the stored history is
    the one the chat began from, unless the conversation was restarted meanwhile; then
    nothing changes.  A refused turn changes neither history nor notes; an answered one
    extends the history, unchanged, or restarts it at the newest start of an exchange.
    That is the start of the new exchange, which is then kept whole, exactly when no round
    of the chat stopped for tool use without calling a tool.
  */
  lemma {:induction false} CommitIsExact(profile: ProfileId, actions: seq<Action>)
    requires Start(profile).Run(actions).pc.Answered?
    ensures var s := Start(profile).Run(actions);
            var chat := s.pc.chat;
            var after := s.Step(CommitReply).convo;
            if s.convo.generation != chat.generation then
              after == s.convo
            else
              && s.convo.messages == chat.base && chat.notes <= s.convo.notes
              && after.profile == s.convo.profile && after.generation == s.convo.generation
              && (if s.pc.stopReason == "refusal" then
                    after.messages == s.convo.messages && after.notes == s.convo.notes
                  else
                    && after.notes == s.convo.notes[|chat.notes|..]
                    && |chat.base| < |chat.messages|
                    && var exchange := chat.messages[|chat.base|..];
                       exchange[0] == BuildUserMessage(chat.text, chat.image, chat.notes)
                       && if |s.convo.messages| + |exchange| <= MAX_HISTORY_MESSAGES then
                            after.messages == s.convo.messages + DropImages(exchange)
                          else
                            FromNewestStart(exchange, after.messages)
                            && (after.messages == DropImages(exchange) <==> !s.emptyRound))
  {
    Reachable(profile, actions);
    var s := Start(profile).Run(actions);
    var chat := s.pc.chat;
    if s.convo.generation == chat.generation {
      if s.pc.stopReason == "refusal" {
        RefusalChangesNothing(chat.base, chat.messages);
      } else if |chat.messages| <= MAX_HISTORY_MESSAGES {
        AnswerExtends(chat.base, chat.messages, s.pc.stopReason);
      } else {
        AnswerRestarts(chat.base, chat.messages, s.pc.stopReason);
        RestartKeepsWholeExchangeExactlyWhen(chat.base, chat.messages, s.pc.stopReason);
      }
    }
  }

  /**
    A commit in the same generation offers exactly the buttons of its chat, each as it was
    proposed, besides those already there, which stay as they are.
  */
  lemma {:induction false} CommitOffersItsButtons(profile: ProfileId, actions: seq<Action>, id: ActionId)
    requires var s := Start(profile).Run(actions);
             s.pc.Answered? && s.convo.generation == s.pc.chat.generation
    ensures var s := Start(profile).Run(actions);
            var after := s.Step(CommitReply);
            && (id in after.convo.pending <==> id in s.convo.pending || Proposes(s.pc.chat, id))
            && (id in after.convo.pending ==> after.convo.pending[id].id == id && !after.Executed(id))
            && (Proposes(s.pc.chat, id) ==> after.convo.pending[id] in s.pc.chat.proposals)
            && (!Proposes(s.pc.chat, id) && id in s.convo.pending ==> after.convo.pending[id] == s.convo.pending[id])
  {
    Reachable(profile, actions);
    var s := Start(profile).Run(actions);
    AddPendingHolds(s.convo.pending, s.pc.chat.proposals, id);
    StepKeepsInv(s, CommitReply);
    assert ActionInv(s.Step(CommitReply), id);
  }

  /**
    Within one generation the notes pushed so far are, in order, those carried by the
    committed chats that were not refused, followed by those still waiting: none is
    lost, repeated or reordered, however buttons interleave with chats.
  */
  lemma {:induction false} NotesAreDeliveredOnce(profile: ProfileId, actions: seq<Action>)
    ensures var s := Start(profile).Run(actions);
            s.pushed == s.delivered + s.convo.notes
  {
    Reachable(profile, actions);
  }

  /**
    Each proposed action is executed at most once, and only by a button whose profile
    and conversation are those of the chat that proposed it.
  */
  lemma {:induction false} ActionsRunOnceWhereProposed(profile: ProfileId, actions: seq<Action>)
    ensures var s := Start(profile).Run(actions);
            && (forall i, j :: 0 <= i < j < |s.executed| ==> s.executed[i].id != s.executed[j].id)
            && (forall e :: e in s.executed ==>
                  e.id in s.origin && s.origin[e.id].profile == e.profile && s.origin[e.id].generation == e.generation)
  {
    Reachable(profile, actions);
  }

  /** The action was proposed in an earlier generation, and has not been executed. */
  predicate Expired(s: System, id: ActionId) {
    id in s.origin && s.origin[id].generation < s.convo.generation && !s.Executed(id)
  }

  lemma StepKeepsExpired(s: System, a: Action, id: ActionId)
    requires Inv(s) && Expired(s, id)
    ensures Expired(s.Step(a), id)
  {
    assert ActionInv(s, id);
    match a
    case Ask(reply, proposals) => AskKeepsActionInv(s, reply, proposals, id);
    case TakeAction(button) =>
    case _ =>
  }

  /** Once a reset or a profile switch has moved the conversation on, an unused button never acts again. */
  lemma {:induction false} ExpiredActionsNeverRun(s: System, more: seq<Action>, id: ActionId)
    requires Inv(s) && Expired(s, id)
    ensures !s.Run(more).Executed(id)
    decreases |more|
  {
    if more != [] {
      StepKeepsInv(s, more[0]);
      StepKeepsExpired(s, more[0], id);
      ExpiredActionsNeverRun(s.Step(more[0]), more[1..], id);
    }
  }

  /** A button that is offered really acts: pressed by the profile it was proposed for, its action is taken. */
  lemma {:induction false} OfferedActionsRun(profile: ProfileId, actions: seq<Action>, button: nat, id: ActionId)
    requires var s := Start(profile).Run(actions);
             id in s.convo.pending && button !in s.buttons && s.convo.profile == Some(s.watching)
    ensures var s := Start(profile).Run(actions);
            var after := s.Step(PressButton(button, id)).Step(TakeAction(button));
            && after.Executed(id) && after.buttons == s.buttons[button := Executing(s.convo.pending[id], Execution(id, s.watching, s.convo.generation))]
            && after.convo == s.convo.(pending := s.convo.pending - {id})
  {
    var s := Start(profile).Run(actions);
    var after := s.Step(PressButton(button, id)).Step(TakeAction(button));
    assert after.executed[|s.executed|] == Execution(id, s.watching, s.convo.generation);
    assert after.executed[|s.executed|] in after.executed;
  }
}

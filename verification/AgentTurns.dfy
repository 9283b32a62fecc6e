/**
  What the model is told: the message that opens a chat, the notes that a commit counts as
  delivered, and the note that an executed action leaves (src-tauri/src/ai_agent.rs).
*/
module AgentTurns {
  import opened Wrappers
  import opened AgentHistory
  import opened AgentExchanges
  import opened AgentConversation
  import opened AgentRuns

  /**
    A chat of the conversation's own profile continues it; a chat of any other profile finds
    it empty, in a new generation, without buttons or notes.  Either way the chat asks the
    model with everything that the conversation holds, followed by one message that tells
    the image, the waiting notes and the text.
  */
  lemma {:induction false} ChatOpens(profile: ProfileId, actions: seq<Action>, text: string, image: Option<ImageSource>)
    requires Start(profile).Run(actions).pc.ProfileRead?
    ensures var s := Start(profile).Run(actions);
            var t := s.Step(CopyOut(text, image));
            && t.convo == (if s.convo.profile == Some(s.pc.profile) then s.convo
                           else Convo([], map[], [], s.convo.generation + 1, Some(s.pc.profile)))
            && t.pc.Asking? && t.pc.chat.proposals == []
            && (t.pc.chat.profile, t.pc.chat.generation) == (s.pc.profile, t.convo.generation)
            && |t.pc.chat.messages| == |t.convo.messages| + 1 && t.convo.messages <= t.pc.chat.messages
            && Tells(t.pc.chat.messages[|t.convo.messages|], text, image, t.convo.notes)
  {
    var s := Start(profile).Run(actions);
    UserMessageTells(text, image, s.Step(CopyOut(text, image)).convo.notes);
  }

  /**
    The notes that a commit counts as delivered are those that its chat's opening message
    told the model: each of them stands there, in order, in the block of notes.
  */
  lemma {:induction false} DeliveredNotesWereTold(profile: ProfileId, actions: seq<Action>)
    requires Start(profile).Run(actions).pc.Answered?
    ensures var s := Start(profile).Run(actions);
            var chat, after := s.pc.chat, s.Step(CommitReply);
            && s.delivered <= after.delivered
            && |chat.base| < |chat.messages|
            && var told := after.delivered[|s.delivered|..];
               told != [] ==> Tells(chat.messages[|chat.base|], chat.text, chat.image, told)
  {
    Reachable(profile, actions);
    var s := Start(profile).Run(actions);
    var chat, after := s.pc.chat, s.Step(CommitReply);
    UserMessageTells(chat.text, chat.image, chat.notes);
    if s.convo.generation == chat.generation && s.pc.stopReason != "refusal" {
      assert after.delivered == s.delivered + chat.notes;
      assert after.delivered[|s.delivered|..] == chat.notes;
    }
  }

  /** An executed action leaves one note behind all others: its caption, and what it did or why it failed. */
  lemma {:induction false} EndedActionIsNoted(
    profile: ProfileId, actions: seq<Action>, button: nat, result: Result<string, string>)
    requires var s := Start(profile).Run(actions); button in s.buttons && s.buttons[button].Executing?
    ensures var s := Start(profile).Run(actions);
            var caption := s.buttons[button].action.caption;
            s.Step(EndAction(button, result)).convo
            == s.convo.(notes := s.convo.notes
                 + [if result.Ok? then "The user approved \U{201c}" + caption + "\U{201d}: " + result.value + "."
                    else "The user approved \U{201c}" + caption + "\U{201d} but it failed: " + result.error + "."])
  {
  }

  /**
    A press finds nothing to execute exactly when its action is not pending or the
    conversation is another profile's; then only the button is spent, and another profile's
    conversation is started afresh for the profile that pressed.
  */
  lemma {:induction false} APressActsExactlyWhen(profile: ProfileId, actions: seq<Action>, button: nat)
    requires var s := Start(profile).Run(actions); button in s.buttons && s.buttons[button].Pressed?
    ensures var s := Start(profile).Run(actions);
            var press, t := s.buttons[button], s.Step(TakeAction(button));
            var own := s.convo.profile == Some(press.profile);
            if own && press.id in s.convo.pending then
              t.executed == s.executed + [Execution(press.id, press.profile, s.convo.generation)]
            else
              && t.executed == s.executed && t.buttons == s.buttons - {button}
              && t.convo == if own then s.convo
                            else Convo([], map[], [], s.convo.generation + 1, Some(press.profile))
  {
  }
}

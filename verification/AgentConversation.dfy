/**
  The one conversation that chats, buttons, resets and profile switches share
  (src-tauri/src/ai_agent.rs).

  `Convo` is the value behind the mutex, with one specification function for each
  locked section; the class `Conversation` is the conversation itself, updated in
  place.  Module `AgentRuns` proves what every interleaving of the sections keeps.
*/
module AgentConversation {
  import opened Wrappers
  import opened AgentHistory
  import opened AgentExchanges

  /** The number in the identifier "act-<number>". */
  type ActionId = nat

  type ProfileId = int

  datatype ProposedAction = ProposedAction(id: ActionId, mediaId: Option<int>, caption: string)

  /** What the model is told about an approved action. */
  function NoteFor(caption: string, result: Result<string, string>): string {
    match result
    case Ok(done) => "The user approved \U{201c}" + caption + "\U{201d}: " + done + "."
    case Err(error) => "The user approved \U{201c}" + caption + "\U{201d} but it failed: " + error + "."
  }

  function AddPending(pending: map<ActionId, ProposedAction>, actions: seq<ProposedAction>)
    : map<ActionId, ProposedAction>
    decreases |actions|
  {
    if actions == [] then pending else AddPending(pending[actions[0].id := actions[0]], actions[1..])
  }

  function Min(a: nat, b: nat): nat {
    if a <= b then a else b
  }

  /** What a chat holds from its snapshot to its commit. */
  datatype Chat = Chat(
    profile: ProfileId,
    generation: nat,
    base: seq<Message>,
    notes: seq<string>,
    text: string,
    image: Option<ImageSource>,
    messages: seq<Message>,
    proposals: seq<ProposedAction>,
    round: nat)

  datatype Convo = Convo(
    messages: seq<Message>,
    pending: map<ActionId, ProposedAction>,
    notes: seq<string>,
    generation: nat,
    profile: Option<ProfileId>)
  {
    function Reset(): Convo {
      Convo([], map[], [], generation + 1, None)
    }

    function ClaimForProfile(id: ProfileId): Convo {
      if profile != Some(id) then Reset().(profile := Some(id)) else this
    }

    /** The claimed conversation, and what a chat of `id` copies out of it. */
    function BeginChat(id: ProfileId, text: string, image: Option<ImageSource>): (Convo, Chat) {
      var claimed := ClaimForProfile(id);
      (claimed,
       Chat(id, claimed.generation, claimed.messages, claimed.notes, text, image,
            claimed.messages + [BuildUserMessage(text, image, claimed.notes)], [], 0))
    }

    function CommitChat(chat: Chat, stopReason: string): Convo
      requires |chat.base| <= |chat.messages|
    {
      if generation != chat.generation then
        this
      else
        this.(notes := if stopReason == "refusal" then notes else notes[Min(|chat.notes|, |notes|)..],
              messages := Commit(chat.messages, |chat.base|, stopReason),
              pending := AddPending(pending, chat.proposals))
    }

    function TakeAction(profileId: ProfileId, id: ActionId): (Convo, Option<ProposedAction>) {
      var claimed := ClaimForProfile(profileId);
      if id in claimed.pending then
        (claimed.(pending := claimed.pending - {id}), Some(claimed.pending[id]))
      else
        (claimed, None)
    }

    function PushNote(note: string): Convo {
      this.(notes := notes + [note])
    }
  }

  class Conversation {
    var messages: seq<Message>
    var pending: map<ActionId, ProposedAction>
    var notes: seq<string>
    var generation: nat
    var profileId: Option<ProfileId>

    ghost function State(): Convo
      reads this
    {
      Convo(messages, pending, notes, generation, profileId)
    }

    constructor ()
      ensures State() == Convo([], map[], [], 0, None)
    {
      messages, pending, notes, generation, profileId := [], map[], [], 0, None;
    }

    method Reset()
      modifies this
      ensures State() == old(State()).Reset()
    {
      messages, pending, notes, generation, profileId := [], map[], [], generation + 1, None;
    }

    method ClaimForProfile(id: ProfileId)
      modifies this
      ensures State() == old(State()).ClaimForProfile(id)
    {
      if profileId != Some(id) {
        Reset();
        profileId := Some(id);
      }
    }

    /** The section that opens `agent_chat`: claim, copy out, and append the new message to the copy. */
    method BeginChat(id: ProfileId, text: string, image: Option<ImageSource>) returns (chat: Chat)
      modifies this
      ensures (State(), chat) == old(State()).BeginChat(id, text, image)
    {
      ClaimForProfile(id);
      var copied := messages;
      copied := copied + [BuildUserMessage(text, image, notes)];
      chat := Chat(id, generation, messages, notes, text, image, copied, [], 0);
    }

    method StoreHistory(local: seq<Message>)
      modifies this`messages
      ensures messages == DropImages(Trim(local, MAX_HISTORY_MESSAGES))
    {
      var trimmed := TrimHistory(local, MAX_HISTORY_MESSAGES);
      var cells := new Message[|trimmed|](i requires 0 <= i < |trimmed| => trimmed[i]);
      assert cells[..] == trimmed;
      DropPastImages(cells);
      messages := cells[..];
    }

    method OfferButtons(actions: seq<ProposedAction>)
      modifies this`pending
      ensures pending == AddPending(old(pending), actions)
    {
      for i := 0 to |actions|
        invariant AddPending(pending, actions[i..]) == AddPending(old(pending), actions)
      {
        assert actions[i..][1..] == actions[i + 1..];
        pending := pending[actions[i].id := actions[i]];
      }
    }

    /** The section that closes `agent_chat`; returns the buttons that the reply still offers. */
    method CommitChat(chat: Chat, stopReason: string) returns (offered: seq<ProposedAction>)
      requires |chat.base| <= |chat.messages|
      modifies this
      ensures State() == old(State()).CommitChat(chat, stopReason)
      ensures offered == if old(generation) == chat.generation then chat.proposals else []
    {
      if generation != chat.generation {
        return [];
      }
      var local := chat.messages;
      if stopReason == "refusal" {
        local := local[..|chat.base|];
      } else {
        notes := notes[Min(|chat.notes|, |notes|)..];
      }
      StoreHistory(local);
      OfferButtons(chat.proposals);
      offered := chat.proposals;
    }

    /** The section that opens `agent_run_action`: claim, and take the button's action if it is still there. */
    method TakeAction(profile: ProfileId, id: ActionId) returns (action: Option<ProposedAction>)
      modifies this
      ensures (State(), action) == old(State()).TakeAction(profile, id)
    {
      ClaimForProfile(profile);
      if id !in pending {
        return None;
      }
      action := Some(pending[id]);
      pending := pending - {id};
    }

    method PushNote(note: string)
      modifies this
      ensures State() == old(State()).PushNote(note)
    {
      notes := notes + [note];
    }
  }
}

/**
  Where the notes of approved actions come from.

  A note is pushed without checking that the conversation is still the one in which its
  action was taken (src-tauri/src/ai_agent.rs:1109-1111).  This module says exactly when a
  note stays in its own generation, and shows that it need not.
*/
module AgentNotes {
  import opened Wrappers
  import opened AgentHistory
  import opened AgentExchanges
  import opened AgentConversation
  import opened AgentRuns

  // ---- The execution behind each note ----

  /** An executing button and the record of its action belong together. */
  ghost predicate TracedButton(s: System, button: nat) {
    button in s.buttons && s.buttons[button].Executing? ==>
      s.buttons[button].taken in s.executed && s.buttons[button].taken.id == s.buttons[button].action.id
  }

  /** Every note of the generation has an execution behind it, of this generation or an earlier one. */
  ghost predicate Traced(s: System) {
    && |s.pushers| == |s.pushed|
    && (forall e :: e in s.pushers ==> e in s.executed)
    && (forall e :: e in s.executed ==> e.generation <= s.convo.generation)
    && (forall button: nat :: TracedButton(s, button))
  }

  lemma TakeKeepsTraced(s: System, button: nat)
    requires Inv(s) && Traced(s)
    ensures Traced(s.DoTake(button))
  {
    var after := s.DoTake(button);
    if button in s.buttons && s.buttons[button].Pressed? {
      assert ActionInv(s, s.buttons[button].id);
      assert forall e :: e in after.executed ==> e in s.executed || e.generation == after.convo.generation;
      assert forall e :: e in s.executed ==> e in after.executed;
    }
    forall other: nat ensures TracedButton(after, other) {
      assert TracedButton(s, other);
    }
  }

  lemma EndKeepsTraced(s: System, button: nat, result: Result<string, string>)
    requires Traced(s)
    ensures Traced(s.DoEnd(button, result))
  {
    assert TracedButton(s, button);
    forall other: nat ensures TracedButton(s.DoEnd(button, result), other) {
      assert TracedButton(s, other);
    }
  }

  lemma StepKeepsTraced(s: System, a: Action)
    requires Inv(s) && Traced(s)
    ensures Traced(s.Step(a))
  {
    match a
    case TakeAction(button) => TakeKeepsTraced(s, button);
    case EndAction(button, result) => EndKeepsTraced(s, button, result);
    case _ => OtherStepsKeepTraced(s, a);
  }

  lemma OtherStepsKeepTraced(s: System, a: Action)
    requires Traced(s) && !a.TakeAction? && !a.EndAction?
    ensures Traced(s.Step(a))
  {
    forall button: nat ensures TracedButton(s.Step(a), button) {
      assert TracedButton(s, button);
    }
  }

  lemma {:induction false} RunKeepsTraced(s: System, actions: seq<Action>)
    requires Inv(s) && Traced(s)
    ensures Traced(s.Run(actions))
    decreases |actions|
  {
    if actions != [] {
      StepKeepsInv(s, actions[0]);
      StepKeepsTraced(s, actions[0]);
      RunKeepsTraced(s.Step(actions[0]), actions[1..]);
    }
  }

  lemma {:induction false} ReachableIsTraced(profile: ProfileId, actions: seq<Action>)
    ensures Inv(Start(profile).Run(actions)) && Traced(Start(profile).Run(actions))
  {
    Reachable(profile, []);
    Reachable(profile, actions);
    RunKeepsTraced(Start(profile), actions);
  }

  // ---- One note ----

  /** The missing guard: the conversation is still the one in which the button's action was taken. */
  predicate InTime(s: System, button: nat) {
    button in s.buttons && s.buttons[button].Executing? && s.buttons[button].taken.generation == s.convo.generation
  }

  /**
    The note of an executed action is queued in the generation in which the action was
    taken exactly when the conversation has not been restarted since; otherwise it is
    queued in a later conversation.
  */
  lemma {:induction false} NoteStaysInItsGenerationExactlyWhen(
    profile: ProfileId, actions: seq<Action>, button: nat, result: Result<string, string>)
    requires var s := Start(profile).Run(actions); button in s.buttons && s.buttons[button].Executing?
    ensures var s := Start(profile).Run(actions);
            var action := s.buttons[button].action;
            var after := s.Step(EndAction(button, result));
            && after.convo.notes == s.convo.notes + [NoteFor(action.caption, result)]
            && ((exists e :: e in after.executed && e.id == action.id && e.generation == after.convo.generation)
                <==> InTime(s, button))
  {
    ReachableIsTraced(profile, actions);
    var s := Start(profile).Run(actions);
    assert TracedButton(s, button);
    var taken := s.buttons[button].taken;
    if e :| e in s.executed && e.id == taken.id && e.generation == s.convo.generation {
      SameExecution(s, e, taken);
    }
  }

  lemma SameExecution(s: System, a: Execution, b: Execution)
    requires ExecutedInv(s) && a in s.executed && b in s.executed && a.id == b.id
    ensures a == b
  {
    var i :| 0 <= i < |s.executed| && s.executed[i] == a;
    var j :| 0 <= j < |s.executed| && s.executed[j] == b;
  }

  /** From every reachable moment of an execution, a reset before its end leaves its note alone in the next conversation. */
  lemma {:induction false} AResetStrandsTheNote(
    profile: ProfileId, actions: seq<Action>, button: nat, result: Result<string, string>)
    requires var s := Start(profile).Run(actions); button in s.buttons && s.buttons[button].Executing?
    ensures var s := Start(profile).Run(actions);
            var after := s.Step(ResetConversation).Step(EndAction(button, result));
            && after.convo.notes == [NoteFor(s.buttons[button].action.caption, result)]
            && after.convo.generation == s.convo.generation + 1
            && !InTime(s.Step(ResetConversation), button)
  {
    ReachableIsTraced(profile, actions);
    var s := Start(profile).Run(actions);
    assert TracedButton(s, button);
  }

  // ---- A run in which a note is stranded ----

  lemma {:induction false} RunAppends(s: System, actions: seq<Action>, a: Action)
    ensures s.Run(actions + [a]) == s.Run(actions).Step(a)
    decreases |actions|
  {
    if actions == [] {
      assert [] + [a] == [a] && [a][1..] == [];
      assert s.Run([a]) == s.Step(a).Run([]);
    } else {
      assert (actions + [a])[1..] == actions[1..] + [a];
      RunAppends(s.Step(actions[0]), actions[1..], a);
    }
  }

  const CALL := ToolUse("t1", "organize_library", "{}")
  const OFFER := Reply("tool_use", [CALL], [Done(Plain("offered"))])
  const PROPOSAL := Proposal(None, "Rescan the library")
  const CLOSING := Reply("end_turn", [Text("There you go.")], [])

  /** A chat up to its last answer, which offers one button. */
  const OFFERING: seq<Action> :=
    [AcquireGuard, ReadProfile, CopyOut("Please rescan", None), Ask(OFFER, [PROPOSAL]), Ask(CLOSING, [])]

  lemma OfferingRuns(profile: ProfileId)
    ensures var s := Start(profile).Run(OFFERING);
            && s.pc.Answered? && s.pc.stopReason == "end_turn" && s.watching == profile
            && s.convo == Convo([], map[], [], 1, Some(profile)) && s.buttons == map[] && s.executed == []
            && s.pc.chat.generation == 1 && |s.pc.chat.base| <= |s.pc.chat.messages|
            && s.pc.chat.proposals == [ProposedAction(1, None, "Rescan the library")]
  {
    var s0 := Start(profile);
    var s1 := s0.Step(AcquireGuard);
    var s2 := s1.Step(ReadProfile);
    var s3 := s2.Step(CopyOut("Please rescan", None));
    assert ToolUseIds([CALL]) == ["t1"] + ToolUseIds([CALL][1..]);
    assert Answerable(OFFER) && Answerable(CLOSING);
    var s4 := s3.Step(Ask(OFFER, [PROPOSAL]));
    assert Numbered(1, [PROPOSAL]) == [ProposedAction(1, None, "Rescan the library")];
    assert s4.pc.Asking? && s4.pc.chat.proposals == [ProposedAction(1, None, "Rescan the library")];
    var s5 := s4.Step(Ask(CLOSING, []));
    FiveSteps(s0, OFFERING);
  }

  lemma {:induction false} FiveSteps(s: System, actions: seq<Action>)
    requires |actions| == 5
    ensures s.Run(actions) == s.Step(actions[0]).Step(actions[1]).Step(actions[2]).Step(actions[3]).Step(actions[4])
  {
    assert actions == [] + [actions[0]] + [actions[1]] + [actions[2]] + [actions[3]] + [actions[4]];
    var a := [] + [actions[0]];
    var b := a + [actions[1]];
    var c := b + [actions[2]];
    RunAppends(s, [], actions[0]);
    RunAppends(s, a, actions[1]);
    RunAppends(s, b, actions[2]);
    RunAppends(s, c, actions[3]);
    RunAppends(s, c + [actions[3]], actions[4]);
  }

  const COMMITTED: seq<Action> := OFFERING + [CommitReply]
  const EXECUTING: seq<Action> := COMMITTED + [PressButton(0, 1)] + [AgentRuns.TakeAction(0)]
  const STRANDING: seq<Action> := EXECUTING + [ResetConversation] + [EndAction(0, Ok("rescanned"))]

  lemma CommittedRuns(profile: ProfileId)
    ensures var s := Start(profile).Run(COMMITTED);
            && s.convo.generation == 1 && s.convo.profile == Some(profile) && s.watching == profile
            && s.convo.pending == map[1 := ProposedAction(1, None, "Rescan the library")]
            && s.buttons == map[] && s.executed == [] && s.pc.NoChat?
  {
    OfferingRuns(profile);
    RunAppends(Start(profile), OFFERING, CommitReply);
    OneIsPending(ProposedAction(1, None, "Rescan the library"));
  }

  lemma OneIsPending(action: ProposedAction)
    ensures AddPending(map[], [action]) == map[action.id := action]
  {
    assert AddPending(map[], [action]) == AddPending(map[action.id := action], [action][1..]);
  }

  lemma ExecutingRuns(profile: ProfileId)
    ensures var s := Start(profile).Run(EXECUTING);
            && s.convo.generation == 1 && 0 in s.buttons && s.buttons[0].Executing?
            && s.buttons[0].action.caption == "Rescan the library" && s.buttons[0].taken.generation == 1
            && s.executed == [s.buttons[0].taken] && s.buttons[0].taken.profile == profile
            && s.pc.NoChat? && s.convo.profile == Some(profile)
  {
    CommittedRuns(profile);
    RunAppends(Start(profile), COMMITTED, PressButton(0, 1));
    RunAppends(Start(profile), COMMITTED + [PressButton(0, 1)], AgentRuns.TakeAction(0));
  }

  /**
    A concrete run in which a note crosses over: its action was taken in generation 1, and
    it is the only note of the conversation of generation 2, which never saw the action.
  */
  lemma ANoteCanCrossOver(profile: ProfileId)
    ensures var s := Start(profile).Run(STRANDING);
            && s.convo.generation == 2 && s.executed != []
            && (forall e :: e in s.executed ==> e.generation == 1)
            && s.convo.notes == [NoteFor("Rescan the library", Ok("rescanned"))]
            && !OwnNotes(s)
  {
    ExecutingRuns(profile);
    ReachableIsTraced(profile, EXECUTING);
    var s := Start(profile).Run(EXECUTING);
    assert TracedButton(s, 0);
    AResetStrandsTheNote(profile, EXECUTING, 0, Ok("rescanned"));
    RunAppends(Start(profile), EXECUTING, ResetConversation);
    RunAppends(Start(profile), EXECUTING + [ResetConversation], EndAction(0, Ok("rescanned")));
    var end := Start(profile).Run(STRANDING);
    assert end.pushers == [s.buttons[0].taken];
    assert end.executed == s.executed;
  }

  /** Another profile takes the conversation over before the action ends. */
  function TakenOver(other: ProfileId): seq<Action> {
    [SwitchProfile(other), AcquireGuard, ReadProfile, CopyOut("hello", None), EndAction(0, Ok("rescanned"))]
  }

  /**
    A note can reach another profile: the action was taken under one, and its note is the
    only one waiting in the conversation that the other has begun since.
  */
  lemma ANoteCanReachAnotherProfile(profile: ProfileId, other: ProfileId)
    requires profile != other
    ensures var s := Start(profile).Run(EXECUTING).Run(TakenOver(other));
            && s.convo.profile == Some(other) && s.convo.notes == [NoteFor("Rescan the library", Ok("rescanned"))]
            && s.executed != [] && (forall e :: e in s.executed ==> e.profile == profile)
  {
    ExecutingRuns(profile);
    var s := Start(profile).Run(EXECUTING);
    FiveSteps(s, TakenOver(other));
    var begun := s.Step(SwitchProfile(other)).Step(AcquireGuard).Step(ReadProfile).Step(CopyOut("hello", None));
    assert begun.convo.profile == Some(other) && begun.convo.notes == [] && begun.buttons == s.buttons;
  }

  // ---- All notes of a run ----

  /** Every note of the current generation, delivered or waiting, comes from an execution of this generation. */
  ghost predicate OwnNotes(s: System) {
    forall e :: e in s.pushers ==> e.generation == s.convo.generation
  }

  /** In generation `g`, the step pushes no note of an action taken in another one. */
  predicate PushesInTime(s: System, a: Action, g: nat) {
    (a.EndAction? && a.button in s.buttons && s.buttons[a.button].Executing? && s.convo.generation == g) ==>
      InTime(s, a.button)
  }

  /** Every note that the run pushes in generation `g` is pushed in time. */
  predicate AllInTime(s: System, actions: seq<Action>, g: nat)
    decreases |actions|
  {
    actions == [] || (PushesInTime(s, actions[0], g) && AllInTime(s.Step(actions[0]), actions[1..], g))
  }

  lemma StepKeepsOwnNotesExactlyWhen(s: System, a: Action)
    ensures s.convo.generation <= s.Step(a).convo.generation
    ensures s.convo.generation < s.Step(a).convo.generation ==> OwnNotes(s.Step(a)) && !a.EndAction?
    ensures s.convo.generation == s.Step(a).convo.generation ==>
              (OwnNotes(s.Step(a)) <==> OwnNotes(s) && PushesInTime(s, a, s.convo.generation))
  {
    if a.EndAction? && a.button in s.buttons && s.buttons[a.button].Executing? {
      var taken := s.buttons[a.button].taken;
      assert s.Step(a).pushers == s.pushers + [taken];
      assert taken in s.Step(a).pushers;
    }
  }

  lemma {:induction false} RunOwnsItsNotes(s: System, actions: seq<Action>)
    ensures var t := s.Run(actions);
            && s.convo.generation <= t.convo.generation
            && (OwnNotes(t) <==>
                  (t.convo.generation == s.convo.generation ==> OwnNotes(s)) && AllInTime(s, actions, t.convo.generation))
    decreases |actions|
  {
    if actions != [] {
      StepKeepsOwnNotesExactlyWhen(s, actions[0]);
      RunOwnsItsNotes(s.Step(actions[0]), actions[1..]);
    }
  }

  /**
    Over whole runs: the notes that the current generation has delivered or still holds all
    come from actions executed in it, exactly when each note of the generation was pushed
    in time.
  */
  lemma {:induction false} NotesAreOwnExactlyWhenInTime(profile: ProfileId, actions: seq<Action>)
    ensures var s := Start(profile).Run(actions);
            && s.pushed == s.delivered + s.convo.notes && |s.pushers| == |s.pushed|
            && (forall e :: e in s.pushers ==> e in s.executed)
            && (OwnNotes(s) <==> AllInTime(Start(profile), actions, s.convo.generation))
  {
    ReachableIsTraced(profile, actions);
    RunOwnsItsNotes(Start(profile), actions);
  }
}

/**
  Which model a stored history was made by, and which one it is sent to
  (src-tauri/src/ai_agent.rs).

  A switch of models resets the conversation and then saves the choice, in two steps; a
  chat reads the choice before it copies the conversation out.  A history may only be sent
  back to the model that made it.  Of the conversation this module keeps its generation and
  the models that made it; what a commit stores is the subject of `AgentExchanges`.
*/
module AgentModels {
  type Model = string

  datatype ChatPc =
    | NoChat
    | ModelRead(model: Model)
    | Asking(model: Model, generation: nat, base: set<Model>)

  /** A switch to a model, before its reset or before it saves. */
  datatype Switch = Resetting(model: Model) | Saving(model: Model)

  datatype Action =
    | ReadModel
    | CopyOut
    | Commit(refused: bool, restarts: bool)
    | FailChat
    | SetModel(id: nat, model: Model)
    | ResetFor(id: nat)
    | Save(id: nat)
    | FailSwitch(id: nat)
    | ResetConversation

  datatype System = System(saved: Model, generation: nat, makers: set<Model>, pc: ChatPc, switches: map<nat, Switch>) {
    function Reset(): System {
      this.(generation := generation + 1, makers := {})
    }

    predicate At(id: nat, resetting: bool) {
      id in switches && switches[id].Resetting? == resetting
    }

    /** An answered chat adds its model; a restart of the history leaves only its own messages. */
    function DoCommit(refused: bool, restarts: bool): System {
      if pc.Asking? && pc.generation == generation && !refused then
        this.(makers := (if restarts then {} else pc.base) + {pc.model}, pc := NoChat)
      else
        this.(pc := NoChat)
    }

    function Step(a: Action): System {
      match a
      case ReadModel => if pc.NoChat? then this.(pc := ModelRead(saved)) else this
      case CopyOut => if pc.ModelRead? then this.(pc := Asking(pc.model, generation, makers)) else this
      case Commit(refused, restarts) => DoCommit(refused, restarts)
      case FailChat => this.(pc := NoChat)
      case SetModel(id, model) =>
        if id in switches then this
        else this.(switches := switches[id := if saved != model then Resetting(model) else Saving(model)])
      case ResetFor(id) =>
        if At(id, true) then Reset().(switches := switches[id := Saving(switches[id].model)]) else this
      case Save(id) =>
        if At(id, false) then this.(saved := switches[id].model, switches := switches - {id}) else this
      case FailSwitch(id) => this.(switches := switches - {id})
      case ResetConversation => Reset()
    }

    function Run(actions: seq<Action>): System
      decreases |actions|
    {
      if actions == [] then this else Step(actions[0]).Run(actions[1..])
    }
  }

  function Start(model: Model): System {
    System(model, 0, {}, NoChat, map[])
  }

  /** The stored history was made by the model that the next chat will read. */
  predicate MadeBySaved(s: System) {
    s.makers <= {s.saved}
  }

  /** The chat sends a history back to another model than one that made it. */
  predicate Replays(s: System) {
    s.pc.Asking? && !(s.pc.base <= {s.pc.model})
  }

  /** Unless the conversation was restarted, it still holds what the chat copied out. */
  predicate Unmoved(s: System) {
    s.pc.Asking? ==> s.pc.generation <= s.generation && (s.pc.generation == s.generation ==> s.pc.base == s.makers)
  }

  /**
    The guards that the code lacks: a commit tests that the choice is still the model it
    asked, and a save that no history is stored or that the choice does not change.  (The
    history is empty exactly when `makers` is.)
  */
  predicate Proper(s: System, a: Action) {
    match a
    case Commit(refused, _) => s.pc.Asking? && s.pc.generation == s.generation && !refused ==> s.pc.model == s.saved
    case Save(id) => s.At(id, false) ==> s.makers == {} || s.switches[id].model == s.saved
    case _ => true
  }

  lemma StepKeepsUnmoved(s: System, a: Action)
    requires Unmoved(s)
    ensures Unmoved(s.Step(a))
  {
  }

  /** Which steps keep the history with the saved model: exactly the proper ones. */
  lemma StepKeepsMadeBySavedExactlyWhen(s: System, a: Action)
    requires Unmoved(s) && MadeBySaved(s)
    ensures MadeBySaved(s.Step(a)) <==> Proper(s, a)
  {
    match a
    case Commit(refused, restarts) =>
      if s.pc.Asking? {
        var after := s.Step(a);
        assert s.pc.generation == s.generation && !refused ==> s.pc.model in after.makers;
      }
    case Save(id) =>
      if s.makers != {} {
        var maker :| maker in s.makers;
        assert maker == s.saved;
      }
    case _ =>
  }

  predicate AllMadeBySaved(s: System, actions: seq<Action>)
    decreases |actions|
  {
    MadeBySaved(s) && (actions != [] ==> AllMadeBySaved(s.Step(actions[0]), actions[1..]))
  }

  predicate AllProper(s: System, actions: seq<Action>)
    decreases |actions|
  {
    actions == [] || (Proper(s, actions[0]) && AllProper(s.Step(actions[0]), actions[1..]))
  }

  lemma {:induction false} RunStaysWithSaved(s: System, actions: seq<Action>)
    requires Unmoved(s) && MadeBySaved(s)
    ensures AllMadeBySaved(s, actions) <==> AllProper(s, actions)
    decreases |actions|
  {
    if actions != [] {
      var next := s.Step(actions[0]);
      StepKeepsUnmoved(s, actions[0]);
      StepKeepsMadeBySavedExactlyWhen(s, actions[0]);
      if MadeBySaved(next) {
        RunStaysWithSaved(next, actions[1..]);
      }
    }
  }

  /**
    At every moment of a run the stored history is by the model that the next chat reads,
    exactly when every commit in it happens under the model that is saved, and every save
    finds no stored history or leaves the choice as it is.
  */
  lemma {:induction false} HistoryIsBySavedExactlyWhen(model: Model, actions: seq<Action>)
    ensures AllMadeBySaved(Start(model), actions) <==> AllProper(Start(model), actions)
  {
    RunStaysWithSaved(Start(model), actions);
  }

  /** A chat that copies such a history out sends it to another model exactly when the choice changed since it read it. */
  lemma CopyOutReplaysExactlyWhen(s: System)
    requires MadeBySaved(s) && s.pc.ModelRead?
    ensures Replays(s.Step(CopyOut)) <==> s.makers != {} && s.pc.model != s.saved
  {
    if s.makers != {} {
      var maker :| maker in s.makers;
      assert maker == s.saved;
    }
  }

  // ---- A switch in between ----

  function SwitchedMeanwhile(other: Model): seq<Action> {
    [ReadModel, SetModel(0, other), ResetFor(0), Save(0), CopyOut, Commit(false, false)]
  }

  function TwoMore(): seq<Action> {
    [ReadModel, CopyOut]
  }

  lemma {:induction false} RunTwo(s: System, a: Action, b: Action, rest: seq<Action>)
    ensures s.Run([a, b] + rest) == s.Step(a).Step(b).Run(rest)
  {
    assert ([a, b] + rest)[1..] == [b] + rest && ([b] + rest)[1..] == rest;
  }

  /**
    A switch that falls between a chat's reading of the model and its copying out leaves a
    history by the old model stored for the new one, to which the next chat sends it.
  */
  lemma ASwitchInBetweenReplays(model: Model, other: Model)
    requires model != other
    ensures var s := Start(model).Run(SwitchedMeanwhile(other));
            && s.saved == other && s.makers == {model} && !MadeBySaved(s)
            && Replays(s.Run(TwoMore()))
  {
    var s0 := Start(model);
    var s2 := s0.Step(ReadModel).Step(SetModel(0, other));
    var s4 := s2.Step(ResetFor(0)).Step(Save(0));
    var s6 := s4.Step(CopyOut).Step(Commit(false, false));
    RunTwo(s0, ReadModel, SetModel(0, other), [ResetFor(0), Save(0), CopyOut, Commit(false, false)]);
    RunTwo(s2, ResetFor(0), Save(0), [CopyOut, Commit(false, false)]);
    RunTwo(s4, CopyOut, Commit(false, false), []);
    RunTwo(s6, ReadModel, CopyOut, []);
    assert SwitchedMeanwhile(other)
           == [ReadModel, SetModel(0, other)] + ([ResetFor(0), Save(0)] + ([CopyOut, Commit(false, false)] + []));
    assert [ResetFor(0), Save(0)] + [CopyOut, Commit(false, false)] == [ResetFor(0), Save(0), CopyOut, Commit(false, false)];
    assert [CopyOut, Commit(false, false)] + [] == [CopyOut, Commit(false, false)];
    assert TwoMore() == [ReadModel, CopyOut] + [];
    assert model in s6.makers;
  }
}

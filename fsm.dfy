/** The engine: class `FSM` of src/fsm.js.  Its three fields are updated in
    place; every method states the new fields outright and that they are the
    ones module History computes from the old fields. */
module Fsm {
  import opened Configuration
  import History

  class FSM {
    const config: Config
    var currentState: string
    /** The history of visited states (the array the engine calls `states`). */
    var history: seq<string>
    var position: nat

    /** The fields as one value of module History. */
    function Snapshot(): History.Machine
      reads this
    {
      History.Machine(currentState, history, position)
    }

    /** The class invariant: the configuration has distinct keys and the
        cursor lies inside the history, on the active state. */
    ghost predicate Valid()
      reads this
    {
      WellFormed(config) && History.Inv(Snapshot())
    }

    constructor (config: Config)
      requires WellFormed(config)
      ensures Valid() && this.config == config
      ensures currentState == config.initial && history == [config.initial] && position == 0
      ensures Snapshot() == History.Init(config)
    {
      this.config := config;
      currentState := config.initial;
      history := [config.initial];
      position := 0;
    }

    /** `new FSM(config)`, which throws when `config` is `null` (`None` here):
        the result is `null` exactly then. */
    static method Create(config: Option<Config>) returns (m: FSM?)
      requires config.Some? ==> WellFormed(config.value)
      ensures m == null <==> config.None?
      ensures m != null ==> fresh(m) && m.Valid() && m.config == config.value
      ensures m != null ==> m.Snapshot() == History.Init(config.value)
    {
      if config.None? {
        m := null;
      } else {
        m := new FSM(config.value);
      }
    }

    /** `getState()`: the state under the history cursor. */
    function GetState(): (s: string)
      reads this
      requires Valid()
      ensures s == history[position]
    {
      currentState
    }

    /** `changeState(state)`: `ok` is false where the engine throws, and then
        nothing changes. */
    method ChangeState(state: string) returns (ok: bool)
      requires Valid()
      modifies this
      ensures Valid()
      ensures ok <==> state in StateNames(config.states)
      ensures ok ==> history == old(history) + [state] && position == |old(history)| && currentState == state
      ensures !ok ==> Snapshot() == old(Snapshot())
      ensures History.ChangeState(config, old(Snapshot()), state) == if ok then Some(Snapshot()) else None
    {
      var known := state in StateNames(config.states);
      if known {
        history := history + [state];
        position := |history| - 1;
        currentState := state;
      }
      ok := known;
    }

    /** `trigger(event)`: `ok` is false where the engine throws, and then
        nothing changes.  The engine looks up the active state's transitions
        without checking that the state is configured; that is required here. */
    method Trigger(event: string) returns (ok: bool)
      requires Valid() && currentState in StateNames(config.states)
      modifies this
      ensures Valid()
      ensures ok <==> event in EventNames(TransitionsOf(config.states, old(currentState)).value)
      ensures ok ==> Transition(event, currentState) in TransitionsOf(config.states, old(currentState)).value
      ensures ok ==> history == old(history[..position + 1]) + [currentState] && position == |history| - 1
      ensures !ok ==> Snapshot() == old(Snapshot())
      ensures History.Trigger(config, old(Snapshot()), event) == if ok then Some(Snapshot()) else None
    {
      var events := TransitionsOf(config.states, currentState).value;
      var known := event in EventNames(events);
      if known {
        var target := Target(events, event).value;
        history := history[..position + 1];
        history := history + [target];
        position := |history| - 1;
        currentState := history[position];
      }
      ok := known;
    }

    /** `reset()`: back to the initial state with a one-entry history. */
    method Reset()
      requires Valid()
      modifies this
      ensures Valid()
      ensures currentState == config.initial && history == [config.initial] && position == 0
      ensures Snapshot() == History.Init(config)
    {
      history := [];
      history := history + [config.initial];
      position := 0;
      currentState := config.initial;
    }

    /** `getStates(event)`: all configured state names when `event` is absent
        or empty, otherwise the names of the states with a transition keyed by
        `event`; both in the configuration's key order. */
    method GetStates(event: Option<string>) returns (names: seq<string>)
      requires Valid()
      ensures names == StatesFor(config, event)
      ensures Falsy(event) ==> names == StateNames(config.states)
      ensures !Falsy(event) ==> Distinct(names)
      ensures !Falsy(event) ==> forall s :: s in names <==>
                exists d :: d in config.states && d.name == s && Handles(d, event.value)
    {
      names := [];
      if Falsy(event) {
        names := StateNames(config.states);
      } else {
        var e := event.value;
        var i := 0;
        while i < |config.states|
          invariant 0 <= i <= |config.states|
          invariant names == Collect(config.states[..i], e)
        {
          var d := config.states[i];
          var j := 0;
          while j < |d.transitions|
            invariant 0 <= j <= |d.transitions|
            invariant names == Collect(config.states[..i], e) + Pushes(d.name, d.transitions[..j], e)
          {
            if d.transitions[j].event == e {
              names := names + [d.name];
            }
            assert d.transitions[..j + 1][..j] == d.transitions[..j];
            j := j + 1;
          }
          assert d.transitions[..j] == d.transitions;
          assert config.states[..i + 1][..i] == config.states[..i];
          i := i + 1;
        }
        assert config.states[..i] == config.states;
      }
      StatesForMeaning(config, event);
    }

    /** `undo()`: false, with nothing changed, exactly when the cursor is on
        the first entry; otherwise the cursor moves back one entry. */
    method Undo() returns (ok: bool)
      requires Valid()
      modifies this
      ensures Valid()
      ensures ok <==> old(position) != 0
      ensures ok ==> position == old(position) - 1 && currentState == history[position]
      ensures history == old(history)
      ensures !ok ==> Snapshot() == old(Snapshot())
      ensures History.Undo(old(Snapshot())) == if ok then Some(Snapshot()) else None
    {
      ok := false;
      if position != 0 {
        currentState := history[position - 1];
        position := position - 1;
        ok := true;
      }
    }

    /** `redo()`: false, with nothing changed, exactly when the cursor is on
        the last entry; otherwise the cursor moves forward one entry. */
    method Redo() returns (ok: bool)
      requires Valid()
      modifies this
      ensures Valid()
      ensures ok <==> old(position) + 1 < |old(history)|
      ensures ok ==> position == old(position) + 1 && currentState == history[position]
      ensures history == old(history)
      ensures !ok ==> Snapshot() == old(Snapshot())
      ensures History.Redo(old(Snapshot())) == if ok then Some(Snapshot()) else None
    {
      ok := false;
      if position + 1 < |history| {
        currentState := history[position + 1];
        position := position + 1;
        ok := true;
      }
    }

    /** `clearHistory()`: the history shrinks to the active state alone. */
    method ClearHistory()
      requires Valid()
      modifies this
      ensures Valid()
      ensures currentState == old(currentState) && history == [currentState] && position == 0
      ensures Snapshot() == History.ClearHistory(old(Snapshot()))
    {
      history := [];
      history := history + [currentState];
      position := 0;
    }
  }
}

/** A client of the class: two states A and B with events toB and toA. */
module FsmClient {
  import opened Configuration
  import opened Fsm

  method TwoStateWalk() {
    var a, b := StateDef("A", [Transition("toB", "B")]), StateDef("B", [Transition("toA", "A")]);
    var config := Config("A", [a, b]);
    assert StateNames(config.states) == ["A", "B"];
    assert TransitionsOf(config.states, "A") == Some(a.transitions);
    assert TransitionsOf(config.states, "B") == Some(b.transitions);
    assert EventNames(a.transitions) == ["toB"] && EventNames(b.transitions) == ["toA"];
    var m := new FSM(config);
    var ok := m.Trigger("toB");
    assert ok && m.GetState() == "B";
    ok := m.Trigger("toA");
    assert ok && m.GetState() == "A";
    ok := m.Undo();
    assert ok && m.GetState() == "B";
    ok := m.Undo();
    assert ok && m.GetState() == "A";
    ok := m.Undo();
    assert !ok && m.GetState() == "A";
  }
}

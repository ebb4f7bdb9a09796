/** The engine's three mutable fields taken together as one value, and each
    operation as a function from the fields before the call to the fields
    after it (`None` where the call throws).  The class in module Fsm is proved
    to follow these functions; the lemmas here relate several calls. */
module History {
  import opened Configuration

  /** `currentState`, the history array (`states` in the engine) and `position`. */
  datatype Machine = Machine(current: string, history: seq<string>, position: nat)

  /** The cursor lies inside the history and names the active state. */
  predicate Inv(m: Machine) {
    m.position < |m.history| && m.history[m.position] == m.current
  }

  /** Every state recorded in the history is a configured state. */
  predicate Configured(c: Config, m: Machine) {
    forall s :: s in m.history ==> s in StateNames(c.states)
  }

  /** The fields after construction, and after every `reset()`. */
  function Init(c: Config): (m: Machine)
    ensures Inv(m) && m.current == c.initial && |m.history| == 1
  {
    Machine(c.initial, [c.initial], 0)
  }

  /** `changeState(target)`: a jump to any configured state.  Nothing is cut
      from the history, even after an undo: the whole old history is kept and
      the target is put after its last entry, where the cursor then stands. */
  function ChangeState(c: Config, m: Machine, target: string): (r: Option<Machine>)
    ensures r.Some? <==> target in StateNames(c.states)
    ensures r.Some? ==> Inv(r.value) && r.value.current == target && r.value.position == |m.history|
    ensures r.Some? ==> |r.value.history| == |m.history| + 1 && r.value.history[..|m.history|] == m.history
  {
    if target in StateNames(c.states) then
      Some(Machine(target, m.history + [target], |m.history|))
    else
      None
  }

  /** `trigger(event)`: follows the current state's transition for `event`.
      The history after the cursor is discarded first, so the new entry is the
      last one and no redo remains. */
  function Trigger(c: Config, m: Machine, event: string): (r: Option<Machine>)
    requires Inv(m) && m.current in StateNames(c.states)
    ensures r.Some? <==> event in EventNames(TransitionsOf(c.states, m.current).value)
    ensures r.Some? ==> Transition(event, r.value.current) in TransitionsOf(c.states, m.current).value
    ensures r.Some? ==> Inv(r.value) && r.value.position == m.position + 1
    ensures r.Some? ==> r.value.history == m.history[..m.position + 1] + [r.value.current]
    ensures r.Some? ==> Redo(r.value).None?
  {
    var events := TransitionsOf(c.states, m.current).value;
    match Target(events, event)
    case None => None
    case Some(target) =>
      Some(Machine(target, m.history[..m.position + 1] + [target], m.position + 1))
  }

  /** `undo()`: one step back along the history, which itself is kept. */
  function Undo(m: Machine): (r: Option<Machine>)
    requires Inv(m)
    ensures r.Some? <==> m.position > 0
    ensures r.Some? ==> Inv(r.value) && r.value.history == m.history && r.value.position + 1 == m.position
  {
    if m.position != 0 then Some(Machine(m.history[m.position - 1], m.history, m.position - 1)) else None
  }

  /** `redo()`: one step forward along the history, which itself is kept. */
  function Redo(m: Machine): (r: Option<Machine>)
    requires Inv(m)
    ensures r.Some? <==> m.position + 1 < |m.history|
    ensures r.Some? ==> Inv(r.value) && r.value.history == m.history && r.value.position == m.position + 1
  {
    if m.position + 1 < |m.history| then Some(Machine(m.history[m.position + 1], m.history, m.position + 1)) else None
  }

  /** `clearHistory()`: forgets every entry but the active state. */
  function ClearHistory(m: Machine): (r: Machine)
    ensures Inv(r) && r.current == m.current && |r.history| == 1
  {
    Machine(m.current, [m.current], 0)
  }

  /** `undo()` called `k` times; a call with nothing to undo changes nothing. */
  function UndoTimes(m: Machine, k: nat): (r: Machine)
    requires Inv(m)
    ensures Inv(r) && r.history == m.history
    decreases k
  {
    if k == 0 then m
    else match Undo(m)
      case None => UndoTimes(m, k - 1)
      case Some(p) => UndoTimes(p, k - 1)
  }

  /** `redo()` called `k` times; a call with nothing to redo changes nothing. */
  function RedoTimes(m: Machine, k: nat): (r: Machine)
    requires Inv(m)
    ensures Inv(r) && r.history == m.history
    decreases k
  {
    if k == 0 then m
    else match Redo(m)
      case None => RedoTimes(m, k - 1)
      case Some(p) => RedoTimes(p, k - 1)
  }

  /** After `k` undos the cursor is `k` entries back, or at the first entry. */
  lemma {:induction false} UndoTimesAt(m: Machine, k: nat)
    requires Inv(m)
    ensures UndoTimes(m, k).position == if k <= m.position then m.position - k else 0
    decreases k
  {
    if k > 0 {
      match Undo(m)
      case None => UndoTimesAt(m, k - 1);
      case Some(p) => UndoTimesAt(p, k - 1);
    }
  }

  /** After `k` redos the cursor is `k` entries forward, or at the last entry. */
  lemma {:induction false} RedoTimesAt(m: Machine, k: nat)
    requires Inv(m)
    ensures RedoTimes(m, k).position == if m.position + k < |m.history| then m.position + k else |m.history| - 1
    decreases k
  {
    if k > 0 {
      match Redo(m)
      case None => RedoTimesAt(m, k - 1);
      case Some(p) => RedoTimesAt(p, k - 1);
    }
  }

  /** Undo and redo are inverse along the recorded history: `k` undos that
      all succeed, followed by `k` redos, give back the same fields. */
  lemma UndoRedoRoundTrip(m: Machine, k: nat)
    requires Inv(m) && k <= m.position
    ensures RedoTimes(UndoTimes(m, k), k) == m
  {
    UndoTimesAt(m, k);
    RedoTimesAt(UndoTimes(m, k), k);
  }

  /** A trigger after `k` undos discards the branch that could have been
      redone: the history is the old one up to the cursor's entry, plus the
      new target, and no number of redos moves away from it. */
  lemma TriggerAfterUndo(c: Config, m: Machine, k: nat, event: string, j: nat)
    requires Inv(m) && k <= m.position
    requires UndoTimes(m, k).current in StateNames(c.states)
    requires Trigger(c, UndoTimes(m, k), event).Some?
    ensures Trigger(c, UndoTimes(m, k), event).value.history ==
              m.history[..m.position - k + 1] + [Trigger(c, UndoTimes(m, k), event).value.current]
    ensures RedoTimes(Trigger(c, UndoTimes(m, k), event).value, j) == Trigger(c, UndoTimes(m, k), event).value
  {
    var t := Trigger(c, UndoTimes(m, k), event).value;
    UndoTimesAt(m, k);
    RedoTimesAt(t, j);
  }

  /** A `changeState` after `k` undos keeps the entries that were ahead of
      the cursor: they now lie behind the new last entry, so the next undo
      returns to the old history's last state, not to the state undone from. */
  lemma ChangeStateAfterUndo(c: Config, m: Machine, k: nat, target: string)
    requires Inv(m) && k <= m.position && target in StateNames(c.states)
    ensures ChangeState(c, UndoTimes(m, k), target).value.history == m.history + [target]
    ensures Undo(ChangeState(c, UndoTimes(m, k), target).value) ==
              Some(Machine(m.history[|m.history| - 1], m.history + [target], |m.history| - 1))
  {
  }

  /** In a configuration whose initial state and transition targets are all
      configured, every state the engine records is configured, so the
      current state is always a key of the configuration and `trigger` can
      always look up its transitions. */
  lemma ClosedStaysConfigured(c: Config, m: Machine, target: string, event: string)
    requires Closed(c) && Inv(m) && Configured(c, m)
    ensures Configured(c, Init(c))
    ensures m.current in StateNames(c.states)
    ensures ChangeState(c, m, target).Some? ==> Configured(c, ChangeState(c, m, target).value)
    ensures Trigger(c, m, event).Some? ==> Configured(c, Trigger(c, m, event).value)
    ensures Undo(m).Some? ==> Configured(c, Undo(m).value)
    ensures Redo(m).Some? ==> Configured(c, Redo(m).value)
    ensures Configured(c, ClearHistory(m))
  {
  }
}

# Finite-state machine with undo/redo history

A Dafny model of the `FSM` class of `src/fsm.js`: a generic evaluator for a
finite-state machine described by a caller-supplied configuration (an
`initial` state name and, for every state name, a `transitions` object from
event name to target state name), which keeps a linear history of visited
states with a cursor for undo and redo.

The model has three modules:

- `Configuration` (config.dfy): the configuration as data. A JavaScript object
  is a sequence of entries in its key order, so `Object.keys` is a sequence of
  names; `WellFormed` says keys are distinct, as they are in any JavaScript
  object. It holds the key lookups `trigger` performs and the specification of
  `getStates`: `Collect` is what the two nested `forEach` loops push,
  `Having` an independent one-entry-per-state filter, and lemmas connect the two.
- `History` (history.dfy): the three fields `currentState`, the history array
  (called `states` in the engine) and `position` as one value `Machine`, with
  each operation as a function from old fields to new fields (`None` where the
  engine throws), the invariant `Inv` (cursor inside the history, on the active
  state) and lemmas about sequences of calls: undo/redo round trips, a trigger
  after undos discarding the redo branch, a `changeState` after undos keeping it.
- `Fsm` (fsm.dfy): class `FSM` with the three mutable fields and one member
  per operation: `getState` is a function, the others are methods. Each method
  that changes the fields states its new fields and that they are what the
  matching `History` function gives for the old fields. `getStates` keeps its
  nested loops and is proved equal to `Collect`.

A thrown `Error()` is modelled as a method returning `ok == false` with no
field changed. `getStates`'s argument is an `Option<string>`; `None` and
`Some("")` are the falsy values.

Two behaviours of the code the model keeps:

- `changeState` appends the new state after the LAST entry of the whole
  history, whatever the cursor (src/fsm.js:35-36). Entries ahead of the cursor
  after an undo stay in the history, behind the new entry, and the next
  `undo()` returns to them (`History.ChangeStateAfterUndo`).
- Construction throws only for `null` (src/fsm.js:7). An `undefined`
  configuration fails later through an incidental `TypeError` (src/fsm.js:12),
  which is not modelled.

## Model

| member | source | states |
|---|---|---|
| Configuration.TransitionsOf | src/fsm.js:48 | looking up a state name succeeds exactly when the name is a configured state, and returns transitions stored under that name |
| Configuration.TransitionsOfEntry | src/fsm.js:48 | with distinct state names, the lookup of an entry's name returns that entry's own transitions |
| Configuration.Target | src/fsm.js:49-55 | looking up an event succeeds exactly when the event is a key of the transitions (the `some` test), and returns a target stored under that key |
| Configuration.TargetOfEntry | src/fsm.js:55 | with distinct event names, the lookup of an entry's event returns that entry's own target |
| Configuration.Pushes | src/fsm.js:86-90 | the inner `forEach` as written, pushing the state's name once per transition key equal to the event: every pushed entry is that state's name, and there are at most as many as transition keys |
| Configuration.Collect | src/fsm.js:85-91 | the two nested `forEach` loops as written, state by state in key order: every collected entry is a configured state name |
| Configuration.StatesFor | src/fsm.js:79-95 | the result of `getStates` as written, `Object.keys` for a falsy event and the nested loops otherwise: every returned entry is a configured state name |
| Configuration.PushesOnce | src/fsm.js:86-90 | with distinct event keys, the inner loop pushes a state's name once if the state has the event and not at all otherwise |
| Configuration.CollectIsHaving | src/fsm.js:85-91 | the nested loops produce exactly the key-ordered one-per-state filter of states having the event |
| Configuration.HavingMembers | src/fsm.js:85-91 | a name is in the filter iff some configured state of that name has a transition keyed by the event |
| Configuration.HavingDistinct | src/fsm.js:85-91 | with distinct state names the filter lists no name twice |
| Configuration.StatesForMeaning | src/fsm.js:79-95 | `getStates` gives all names in key order for a falsy event, else exactly the states having the event, each once, in key order |
| History.Init | src/fsm.js:11-14 | construction and reset give a valid machine on the initial state with a one-entry history |
| History.ChangeState | src/fsm.js:29-41 | succeeds iff the target is a configured state; then the whole old history is kept as a prefix, one entry is added, the cursor is on it and the invariant holds |
| History.Trigger | src/fsm.js:47-61 | succeeds iff the event is a key of the current state's transitions; then the new state is that transition's target, the history is the old one cut after the cursor plus the target, the cursor is on the last entry and no redo is possible |
| History.Undo | src/fsm.js:102-112 | succeeds iff the cursor is not on the first entry; then the cursor moves back one, the history is unchanged and the invariant holds |
| History.Redo | src/fsm.js:119-129 | succeeds iff an entry follows the cursor; then the cursor moves forward one, the history is unchanged and the invariant holds |
| History.ClearHistory | src/fsm.js:134-138 | the history collapses to one entry, the current state is unchanged and the invariant holds |
| History.UndoTimes | src/fsm.js:102-112 | repeated undo keeps the invariant and never changes the history |
| History.RedoTimes | src/fsm.js:119-129 | repeated redo keeps the invariant and never changes the history |
| History.UndoTimesAt | src/fsm.js:105-107 | after k undos the cursor is k entries back, or on the first entry |
| History.RedoTimesAt | src/fsm.js:122-124 | after k redos the cursor is k entries forward, or on the last entry |
| History.UndoRedoRoundTrip | src/fsm.js:102-129 | k successful undos followed by k redos restore the current state, history and cursor |
| History.TriggerAfterUndo | src/fsm.js:54-56 | a trigger after k undos keeps only the history up to the cursor plus the target, and afterwards any number of redos changes nothing |
| History.ChangeStateAfterUndo | src/fsm.js:35-36 | a changeState after k undos keeps the whole old history before the new entry, so the next undo returns to the old last entry |
| History.ClosedStaysConfigured | src/fsm.js:12-14 | when the initial state and every transition target are configured, every operation keeps every history entry a configured state, so the current state can always be looked up |
| Fsm.FSM.constructor | src/fsm.js:11-14 | the machine starts valid on the initial state, with history `[initial]` and cursor 0 |
| Fsm.FSM.Create | src/fsm.js:6-15 | construction yields no machine exactly when the configuration is null, otherwise a fresh valid machine on the initial state |
| Fsm.FSM.GetState | src/fsm.js:21-23 | the active state is the history entry under the cursor |
| Fsm.FSM.ChangeState | src/fsm.js:29-41 | succeeds iff the state is configured; appends it to the whole history with the cursor on it, otherwise changes nothing; keeps the invariant |
| Fsm.FSM.Trigger | src/fsm.js:47-61 | succeeds iff the event is a key of the current state's transitions; cuts the history after the cursor and appends the transition's target, otherwise changes nothing; keeps the invariant |
| Fsm.FSM.Reset | src/fsm.js:66-71 | always back to the initial state with history `[initial]` and cursor 0 |
| Fsm.FSM.GetStates | src/fsm.js:79-95 | returns what the nested loops collect: all names for a falsy event, else exactly the states having the event, each once, in key order; changes nothing |
| Fsm.FSM.Undo | src/fsm.js:102-112 | returns false with nothing changed iff the cursor is on the first entry; otherwise moves the cursor back one onto its entry, history unchanged |
| Fsm.FSM.Redo | src/fsm.js:119-129 | returns false with nothing changed iff the cursor is on the last entry; otherwise moves the cursor forward one onto its entry, history unchanged |
| Fsm.FSM.ClearHistory | src/fsm.js:134-138 | the history becomes `[currentState]` with cursor 0 and the current state unchanged |

## Left out

- The error objects: every failure throws a bare `Error()`; the model has one failure outcome (`ok == false`, `null` from `Create`), with no error kinds or messages.
- Malformed configurations: an `undefined` configuration, a missing `states` or `transitions` object, or values that are not strings fail in the engine only through incidental `TypeError`s and are not modelled.
- Fsm.FSM.Trigger: requires the current state to be a configured state; the engine would fail with a `TypeError` (src/fsm.js:48) instead of its own error. `History.ClosedStaysConfigured` shows the requirement always holds when the initial state and all transition targets are configured.
- JavaScript truthiness of `getStates`'s argument beyond absence and the empty string (`0`, `false`, `null`, `NaN`): the argument is a string here.
- The `Object.keys` rule that integer-like keys enumerate first: the key order is taken to be the configuration's sequence order.
- `module.exports` (src/fsm.js:141): packaging only.
- Aliasing: `getStates` with a falsy event returns the array made by `Object.keys`, a fresh array in JavaScript and a value here; the configuration is an immutable value, so a caller mutating it after construction is not modelled.

/** The caller-supplied configuration of a state machine and the queries the
    engine makes of it.  A JavaScript object is modelled as a sequence of
    entries in its own key order (the order `Object.keys` enumerates). */
module Configuration {

  datatype Option<T> = None | Some(value: T)

  /** One key of a state's `transitions` object: event name -> target state. */
  datatype Transition = Transition(event: string, target: string)

  /** One key of the `states` object: a state name and its transitions. */
  datatype StateDef = StateDef(name: string, transitions: seq<Transition>)

  datatype Config = Config(initial: string, states: seq<StateDef>)

  predicate Distinct<T(==)>(s: seq<T>) {
    forall i, j :: 0 <= i < j < |s| ==> s[i] != s[j]
  }

  /** `Object.keys(config.states)`, in key order. */
  function StateNames(defs: seq<StateDef>): seq<string> {
    seq(|defs|, i requires 0 <= i < |defs| => defs[i].name)
  }

  /** `Object.keys(transitions)`, in key order. */
  function EventNames(ts: seq<Transition>): seq<string> {
    seq(|ts|, i requires 0 <= i < |ts| => ts[i].event)
  }

  /** The keys of a JavaScript object are distinct: no state name occurs
      twice, and no event name occurs twice within one state. */
  predicate WellFormed(c: Config) {
    && Distinct(StateNames(c.states))
    && forall d :: d in c.states ==> Distinct(EventNames(d.transitions))
  }

  /** A configuration in which every state the engine can be sent to is itself
      configured: the initial state and every transition target. */
  predicate Closed(c: Config) {
    && c.initial in StateNames(c.states)
    && forall d, t :: d in c.states && t in d.transitions ==> t.target in StateNames(c.states)
  }

  /** `config.states[name].transitions`: the transitions stored under a state name. */
  function TransitionsOf(defs: seq<StateDef>, name: string): (r: Option<seq<Transition>>)
    ensures r.Some? <==> name in StateNames(defs)
    ensures r.Some? ==> StateDef(name, r.value) in defs
  {
    if defs == [] then None
    else if defs[0].name == name then
      assert StateNames(defs)[0] == name;
      Some(defs[0].transitions)
    else
      assert StateNames(defs) == [defs[0].name] + StateNames(defs[1..]);
      TransitionsOf(defs[1..], name)
  }

  /** `events[event]`: the target stored under an event name. */
  function Target(ts: seq<Transition>, event: string): (r: Option<string>)
    ensures r.Some? <==> event in EventNames(ts)
    ensures r.Some? ==> Transition(event, r.value) in ts
  {
    if ts == [] then None
    else if ts[0].event == event then
      assert EventNames(ts)[0] == event;
      Some(ts[0].target)
    else
      assert EventNames(ts) == [ts[0].event] + EventNames(ts[1..]);
      Target(ts[1..], event)
  }

  /** With distinct keys, a lookup finds exactly the entry stored under that key. */
  lemma {:induction false} TransitionsOfEntry(defs: seq<StateDef>, i: nat)
    requires i < |defs| && Distinct(StateNames(defs))
    ensures TransitionsOf(defs, defs[i].name) == Some(defs[i].transitions)
  {
    if i > 0 {
      assert StateNames(defs)[0] != StateNames(defs)[i];
      assert StateNames(defs[1..]) == StateNames(defs)[1..];
      TransitionsOfEntry(defs[1..], i - 1);
    }
  }

  lemma {:induction false} TargetOfEntry(ts: seq<Transition>, i: nat)
    requires i < |ts| && Distinct(EventNames(ts))
    ensures Target(ts, ts[i].event) == Some(ts[i].target)
  {
    if i > 0 {
      assert EventNames(ts)[0] != EventNames(ts)[i];
      assert EventNames(ts[1..]) == EventNames(ts)[1..];
      TargetOfEntry(ts[1..], i - 1);
    }
  }

  /** True when `event` is a key of the state's transitions. */
  predicate Handles(d: StateDef, event: string) {
    event in EventNames(d.transitions)
  }

  /** JavaScript's `!event` for the argument of `getStates`: absent or empty. */
  predicate Falsy(event: Option<string>) {
    event.None? || event.value == ""
  }

  /** What the inner `forEach` of `getStates` pushes for one state: its name
      once for every transition key equal to `event`, so only that name and
      no more entries than there are keys. */
  function Pushes(name: string, ts: seq<Transition>, event: string): (r: seq<string>)
    ensures forall s :: s in r ==> s == name
    ensures |r| <= |ts|
  {
    if ts == [] then []
    else Pushes(name, ts[..|ts| - 1], event) + (if ts[|ts| - 1].event == event then [name] else [])
  }

  /** What the two nested `forEach` loops of `getStates` collect, state by state. */
  function Collect(defs: seq<StateDef>, event: string): (r: seq<string>)
    ensures forall s :: s in r ==> s in StateNames(defs)
  {
    if defs == [] then []
    else
      var d := defs[|defs| - 1];
      assert StateNames(defs) == StateNames(defs[..|defs| - 1]) + [d.name];
      Collect(defs[..|defs| - 1], event) + Pushes(d.name, d.transitions, event)
  }

  /** Reference definition: the names, in key order, of the states that
      handle `event`, each taken once. */
  function Having(defs: seq<StateDef>, event: string): seq<string> {
    if defs == [] then []
    else
      var d := defs[|defs| - 1];
      Having(defs[..|defs| - 1], event) + (if Handles(d, event) then [d.name] else [])
  }

  /** The result of `getStates(event)`. */
  function StatesFor(c: Config, event: Option<string>): (r: seq<string>)
    ensures forall s :: s in r ==> s in StateNames(c.states)
  {
    if Falsy(event) then StateNames(c.states) else Collect(c.states, event.value)
  }

  /** With distinct event keys the inner loop pushes a state's name at most
      once: exactly when the state handles the event. */
  lemma {:induction false} PushesOnce(name: string, ts: seq<Transition>, event: string)
    requires Distinct(EventNames(ts))
    ensures Pushes(name, ts, event) == if event in EventNames(ts) then [name] else []
  {
    if ts != [] {
      var p := ts[..|ts| - 1];
      assert EventNames(ts) == EventNames(p) + [ts[|ts| - 1].event];
      assert EventNames(p) == EventNames(ts)[..|ts| - 1];
      forall k | 0 <= k < |p| ensures EventNames(p)[k] != ts[|ts| - 1].event {
        assert EventNames(ts)[k] != EventNames(ts)[|ts| - 1];
      }
      PushesOnce(name, p, event);
    }
  }

  /** The nested loops compute the reference filter. */
  lemma {:induction false} CollectIsHaving(defs: seq<StateDef>, event: string)
    requires forall d :: d in defs ==> Distinct(EventNames(d.transitions))
    ensures Collect(defs, event) == Having(defs, event)
  {
    if defs != [] {
      var d := defs[|defs| - 1];
      CollectIsHaving(defs[..|defs| - 1], event);
      PushesOnce(d.name, d.transitions, event);
    }
  }

  /** A name is in the filter exactly when a state of that name handles the event. */
  lemma {:induction false} HavingMembers(defs: seq<StateDef>, event: string, s: string)
    ensures s in Having(defs, event) <==> exists d :: d in defs && d.name == s && Handles(d, event)
  {
    if defs != [] {
      var p, d := defs[..|defs| - 1], defs[|defs| - 1];
      HavingMembers(p, event, s);
      assert defs == p + [d];
    }
  }

  /** The filter lists no state twice when the state names are distinct. */
  lemma {:induction false} HavingDistinct(defs: seq<StateDef>, event: string)
    requires Distinct(StateNames(defs))
    ensures Distinct(Having(defs, event))
  {
    if defs != [] {
      var p, d := defs[..|defs| - 1], defs[|defs| - 1];
      assert StateNames(defs) == StateNames(p) + [d.name];
      assert StateNames(p) == StateNames(defs)[..|defs| - 1];
      HavingDistinct(p, event);
      if Handles(d, event) {
        forall e | e in p ensures e.name != d.name {
          var k :| 0 <= k < |p| && p[k] == e;
          assert StateNames(defs)[k] != StateNames(defs)[|defs| - 1];
        }
        HavingMembers(p, event, d.name);
      }
    }
  }

  /** What `getStates` returns: every configured name when the event is falsy;
      otherwise exactly the names of the states having a transition keyed by
      the event, each once. */
  lemma StatesForMeaning(c: Config, event: Option<string>)
    requires WellFormed(c)
    ensures Falsy(event) ==> StatesFor(c, event) == StateNames(c.states)
    ensures !Falsy(event) ==> StatesFor(c, event) == Having(c.states, event.value)
    ensures !Falsy(event) ==> Distinct(StatesFor(c, event))
    ensures !Falsy(event) ==> forall s :: s in StatesFor(c, event) <==>
              exists d :: d in c.states && d.name == s && Handles(d, event.value)
  {
    if !Falsy(event) {
      CollectIsHaving(c.states, event.value);
      HavingDistinct(c.states, event.value);
      forall s ensures s in StatesFor(c, event) <==>
          exists d :: d in c.states && d.name == s && Handles(d, event.value) {
        HavingMembers(c.states, event.value, s);
      }
    }
  }
}

/** AIComponent of the making_3d_games_book AI project: a component that
  * holds a map from names to AI states and a current state (a possibly
  * null pointer), and runs the current state's hooks. The hooks' bodies
  * belong to the concrete states and are recorded as a ghost trace. */
module AIStates {

  /** An AIState: a named state object. Its name is what GetName returns,
    * fixed for the object's lifetime. */
  class AIState {
    const name: string

    constructor (name: string)
      ensures this.name == name
    {
      this.name := name;
    }
  }

  /** A call of one of the virtual hooks of AIState. */
  datatype AIHook =
    | OnEnter(state: AIState)
    | OnExit(state: AIState)
    | StateUpdate(state: AIState, dt: real)

  /** What `mStateMap.find(name)` gives: the state registered under the name,
    * or null. */
  function Lookup(stateMap: map<string, AIState>, name: string): (r: AIState?)
    ensures r != null <==> name in stateMap
    ensures r != null ==> r == stateMap[name]
  {
    if name in stateMap then stateMap[name] else null
  }

  /** The hook calls of ChangeState: OnExit of the state being left (if
    * any), then OnEnter of the state found (if any). */
  function ChangeCalls(from: AIState?, to: AIState?): seq<AIHook> {
    (if from != null then [OnExit(from)] else []) + (if to != null then [OnEnter(to)] else [])
  }

  class AIComponent {
    var current: AIState?
    var stateMap: map<string, AIState>
    /** The AIState hooks run so far, in order. */
    ghost var trace: seq<AIHook>

    /** Every state is filed under its own name, and a current state is one
      * the map holds. */
    ghost predicate Valid()
      reads this
    {
      (forall n :: n in stateMap ==> stateMap[n].name == n)
      && (current != null ==> current.name in stateMap && stateMap[current.name] == current)
    }

    /** AIComponent::AIComponent: no current state and an empty map. */
    constructor ()
      ensures Valid() && current == null && stateMap == map[] && trace == []
    {
      current := null;
      stateMap := map[];
      trace := [];
    }

    /** AIComponent::Update: the current state's Update, if there is one. */
    method Update(dt: real)
      modifies this`trace
      ensures current == null ==> trace == old(trace)
      ensures current != null ==> trace == old(trace) + [StateUpdate(current, dt)]
    {
      if current != null {
        trace := trace + [StateUpdate(current, dt)];
      }
    }

    /** AIComponent::ChangeState: leave the current state, then enter the
      * state registered under the name, or have none when there is no
      * such state. */
    method ChangeState(name: string)
      requires Valid()
      modifies this`current, this`trace
      ensures Valid()
      ensures current == Lookup(stateMap, name)
      ensures trace == old(trace) + ChangeCalls(old(current), current)
    {
      if current != null {
        trace := trace + [OnExit(current)];
      }
      if name in stateMap {
        current := stateMap[name];
        trace := trace + [OnEnter(current)];
      } else {
        current := null;
      }
    }

    /** AIComponent::RegisterState: `emplace` under the state's name, which
      * does nothing when the name is taken. */
    method RegisterState(state: AIState)
      requires Valid()
      modifies this`stateMap
      ensures Valid()
      ensures old(state.name in stateMap) ==> stateMap == old(stateMap)
      ensures old(state.name !in stateMap) ==> stateMap == old(stateMap)[state.name := state]
    {
      if state.name !in stateMap {
        stateMap := stateMap[state.name := state];
      }
    }
  }

  /** Registering a second state under a taken name changes nothing: the
    * first registration wins, and a later lookup finds the first state. */
  lemma FirstRegistrationWins(stateMap: map<string, AIState>, first: AIState, second: AIState)
    requires first.name == second.name && first.name in stateMap && stateMap[first.name] == first
    ensures Lookup(stateMap, second.name) == first
  {
  }

  /** Changing to the current state's own name exits it and enters it
    * again, and it stays current. */
  lemma ChangeToSelf(stateMap: map<string, AIState>, current: AIState)
    requires current.name in stateMap && stateMap[current.name] == current
    ensures Lookup(stateMap, current.name) == current
    ensures ChangeCalls(current, Lookup(stateMap, current.name)) == [OnExit(current), OnEnter(current)]
  {
  }

  /** Changing to an unregistered name only exits: no state is entered and
    * none is current afterwards. */
  lemma ChangeToUnknown(stateMap: map<string, AIState>, current: AIState?, name: string)
    requires name !in stateMap
    ensures Lookup(stateMap, name) == null
    ensures ChangeCalls(current, Lookup(stateMap, name)) == if current != null then [OnExit(current)] else []
  {
  }
}

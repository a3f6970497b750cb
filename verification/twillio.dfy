/** The call-flow document the generator emits: a project is a description
    and a list of states (widgets). */
module Twillio {
  import opened Wrappers

  /** A JSON value, for the free-form `properties` and `conditions` maps. */
  datatype Json =
    | JNull
    | JBool(b: bool)
    | JNumber(n: int)
    | JString(s: string)
    | JArray(items: seq<Json>)
    | JObject(fields: map<string, Json>)

  /** A Go slice, which may be nil (encoded as JSON `null`) or hold elements. */
  datatype Slice<T> = Nil | Elems(items: seq<T>) {
    function Items(): seq<T> {
      if Nil? then [] else items
    }
  }

  datatype Transition = Transition(
    event: string,
    conditions: seq<map<string, Json>>,
    next: Option<string>,
    uuid: string,
    widgetId: string)

  datatype State = State(
    kind: string,
    name: string,
    sid: string,
    properties: map<string, Json>,
    transitions: seq<Transition>)

  datatype Project = Project(description: string, states: Slice<State>)

  /** `(*Project).Add`: append a state; a nil list becomes a one-element list. */
  function Add(p: Project, s: State): (q: Project)
    ensures q.description == p.description
    ensures q.states.Elems?
    ensures q.states.Items() == p.states.Items() + [s]
    ensures |q.states.Items()| == |p.states.Items()| + 1
    ensures q.states.Items()[|p.states.Items()|] == s
    ensures forall i :: 0 <= i < |p.states.Items()| ==> q.states.Items()[i] == p.states.Items()[i]
    ensures p.states.Nil? ==> q.states == Elems([s])
  {
    match p.states
    case Nil => p.(states := Elems([s]))
    case Elems(existing) => p.(states := Elems(existing + [s]))
  }

  /** Adding states one by one lists them in the order they were added,
      after whatever the project already had. */
  function AddAll(p: Project, states: seq<State>): (q: Project)
    ensures q.description == p.description
    ensures q.states.Items() == p.states.Items() + states
    decreases |states|
  {
    if |states| == 0 then p
    else
      var q := AddAll(p, states[..|states| - 1]);
      var r := Add(q, states[|states| - 1]);
      assert r.states.Items() == q.states.Items() + [states[|states| - 1]];
      assert states == states[..|states| - 1] + [states[|states| - 1]];
      r
  }
}

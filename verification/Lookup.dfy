/** What the engine looks up in a state: its enabled transition and its pseudo-states
    (src/lib/osStateMachine/src/AbstractState.cpp:78-81, src/lib/osStateMachine/src/State.cpp:219-237). */
module Lookup {
  import opened Options
  import opened StateTree

  /** The transition doTransition picks: the first, in iteration order, with this event name and an open guard. */
  function FirstEnabled(ts: seq<Transition>, event: string, v: Value): (r: Option<Transition>)
    ensures r.Some? ==> r.value in ts && r.value.event == event && r.value.guard(v)
    ensures r.None? ==> forall tr <- ts :: tr.event == event ==> !tr.guard(v)
  {
    if ts == [] then None
    else if ts[0].event == event && ts[0].guard(v) then Some(ts[0])
    else FirstEnabled(ts[1..], event, v)
  }

  /** The transition at place `k` has this event and an open guard, and none before it has. */
  ghost predicate IsFirstEnabled(ts: seq<Transition>, event: string, v: Value, k: nat) {
    && k < |ts| && ts[k].event == event && ts[k].guard(v)
    && forall j :: 0 <= j < k ==> !(ts[j].event == event && ts[j].guard(v))
  }

  lemma {:induction false} FirstEnabledIs(ts: seq<Transition>, event: string, v: Value, k: nat)
    requires IsFirstEnabled(ts, event, v, k)
    ensures FirstEnabled(ts, event, v) == Some(ts[k])
    decreases k
  {
    if k > 0 {
      assert !(ts[0].event == event && ts[0].guard(v));
      forall j | 0 <= j < k - 1
        ensures !(ts[1..][j].event == event && ts[1..][j].guard(v))
      {
        assert ts[1..][j] == ts[j + 1];
      }
      FirstEnabledIs(ts[1..], event, v, k - 1);
    }
  }

  /** An enabled transition exists. */
  ghost predicate HasEnabled(ts: seq<Transition>, event: string, v: Value) {
    exists tr :: tr in ts && tr.event == event && tr.guard(v)
  }

  lemma {:induction false} EnabledHasFirst(ts: seq<Transition>, event: string, v: Value) returns (k: nat)
    requires HasEnabled(ts, event, v)
    ensures IsFirstEnabled(ts, event, v, k)
    decreases |ts|
  {
    if ts[0].event == event && ts[0].guard(v) {
      k := 0;
    } else {
      var tr :| tr in ts && tr.event == event && tr.guard(v);
      assert ts == [ts[0]] + ts[1..] && tr in ts[1..];
      var j := EnabledHasFirst(ts[1..], event, v);
      k := j + 1;
      forall i | 0 <= i < k
        ensures !(ts[i].event == event && ts[i].guard(v))
      {
        if i > 0 { assert ts[i] == ts[1..][i - 1]; }
      }
    }
  }

  /** getStartState and getHistoryState: the first child of that class. */
  function FirstOfKind(t: Tree, children: seq<StateId>, kind: Kind): (r: Option<StateId>)
    requires forall c <- children :: c < |t|
    ensures r.Some? ==> r.value in children && t[r.value].kind == kind
    ensures r.None? ==> forall c <- children :: t[c].kind != kind
  {
    if children == [] then None
    else
      assert children[0] in children && forall c <- children[1..] :: c in children;
      if t[children[0]].kind == kind then Some(children[0])
      else FirstOfKind(t, children[1..], kind)
  }

  function ChildOfKind(t: Tree, i: StateId, kind: Kind): (r: Option<StateId>)
    requires WellFormed(t) && i < |t|
    ensures r.Some? ==> r.value < |t| && t[r.value].kind == kind && t[r.value].parent == Some(i) && t[i].kind.Composite?
  {
    assert ChildrenOk(t, i);
    FirstOfKind(t, t[i].children, kind)
  }

  lemma ChildrenInRange(t: Tree, i: StateId)
    requires WellFormed(t) && i < |t|
    ensures Known(t, t[i].children) && forall c <- t[i].children :: c < |t|
  {
    assert ChildrenOk(t, i);
    assert forall k :: 0 <= k < |t[i].children| ==> t[i].children[k] in t[i].children;
  }

  /** The child at place `k` has this class, and none before it has. */
  ghost predicate IsFirstChild(t: Tree, i: StateId, kind: Kind, k: nat)
    requires WellFormed(t) && i < |t|
  {
    ChildrenInRange(t, i);
    && k < |t[i].children| && t[t[i].children[k]].kind == kind
    && forall j :: 0 <= j < k ==> t[t[i].children[j]].kind != kind
  }

  lemma FirstChildIs(t: Tree, i: StateId, kind: Kind, k: nat)
    requires WellFormed(t) && i < |t| && IsFirstChild(t, i, kind, k)
    ensures ChildOfKind(t, i, kind) == Some(t[i].children[k])
  {
    ChildrenInRange(t, i);
    FirstInList(t, t[i].children, kind, k);
  }

  lemma {:induction false} FirstInList(t: Tree, children: seq<StateId>, kind: Kind, k: nat)
    requires Known(t, children) && (forall c <- children :: c < |t|) && k < |children| && t[children[k]].kind == kind
    requires forall j :: 0 <= j < k ==> t[children[j]].kind != kind
    ensures FirstOfKind(t, children, kind) == Some(children[k])
    decreases k
  {
    if k > 0 {
      assert t[children[0]].kind != kind && forall c <- children[1..] :: c in children;
      FirstInList(t, children[1..], kind, k - 1);
    }
  }

  lemma NoChildOfKind(t: Tree, i: StateId, kind: Kind)
    requires WellFormed(t) && i < |t| && forall c <- t[i].children :: c < |t| ==> t[c].kind != kind
    ensures ChildOfKind(t, i, kind).None?
  {
  }

  function StartOf(t: Tree, i: StateId): Option<StateId>
    requires WellFormed(t) && i < |t|
  {
    ChildOfKind(t, i, Start)
  }

  function HistoryOf(t: Tree, i: StateId): Option<StateId>
    requires WellFormed(t) && i < |t|
  {
    ChildOfKind(t, i, History)
  }

  /** A static implicit edge: a composite state to its start state, else the target of the enabled implicit
      transition. End states and history states have none. */
  function ImplicitEdge(t: Tree, i: StateId, v: Value): (r: Option<StateId>)
    requires WellFormed(t) && i < |t|
    ensures r.Some? ==> r.value < |t|
  {
    if t[i].kind.End? || t[i].kind.History? then None
    else if StartOf(t, i).Some? then StartOf(t, i)
    else
      assert TargetsOk(t, i);
      var tr := FirstEnabled(t[i].transitions, "", v);
      if tr.Some? then tr.value.target else None
  }
}

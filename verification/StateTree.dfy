/** The hierarchy of states: what src/lib/osStateMachine/src/AbstractState.cpp and State.cpp keep about
    parents, children and transitions.

    A state is identified by its index in the table of all states ever created. The table is in creation
    order, and a parent pointer is set once, in the constructor, from a state that already exists; so a
    parent always has a smaller index than its child. */
module StateTree {
  import opened Options

  /** The payload of an event (`std::any` in the program): the engine only hands it on. */
  type Value = int

  type StateId = nat

  /** The concrete class of a state: State, StartState, EndState, HistoryState. */
  datatype Kind = Composite | Start | End | History

  /** A transition; `target` is None for an internal one. An implicit transition has the empty event name. */
  datatype Transition = Transition(id: nat, event: string, target: Option<StateId>, guard: Value -> bool)

  /** `observed` says whether the state carries the transition delegate. */
  datatype Node = Node(kind: Kind, name: string, parent: Option<StateId>, children: seq<StateId>,
                       transitions: seq<Transition>, observed: bool)

  type Tree = seq<Node>

  ghost predicate ParentOk(t: Tree, i: StateId)
    requires i < |t|
  {
    match t[i].parent
    case None => t[i].kind.Composite?
    case Some(p) => p < i && t[p].kind.Composite?
  }

  ghost predicate ChildrenOk(t: Tree, i: StateId)
    requires i < |t|
  {
    && (t[i].children != [] ==> t[i].kind.Composite?)
    && (forall c <- t[i].children :: i < c < |t| && t[c].parent == Some(i))
    && (forall j, k :: 0 <= j < k < |t[i].children| ==> t[i].children[j] != t[i].children[k])
  }

  ghost predicate TargetsOk(t: Tree, i: StateId)
    requires i < |t|
  {
    forall tr <- t[i].transitions :: tr.target.Some? ==> tr.target.value < |t|
  }

  ghost predicate WellFormed(t: Tree) {
    && (forall i: StateId :: i < |t| ==> ParentOk(t, i))
    && (forall i: StateId :: i < |t| ==> ChildrenOk(t, i))
    && (forall i: StateId :: i < |t| ==> TargetsOk(t, i))
  }

  predicate Known(t: Tree, ss: seq<StateId>) {
    forall k :: 0 <= k < |ss| ==> ss[k] < |t|
  }

  /** All states of the table belong to one hierarchy, that of the state created first. */
  ghost predicate OneTree(t: Tree)
    requires WellFormed(t)
  {
    forall i: StateId :: i < |t| ==> Root(t, i) == 0
  }

  // ----- ancestry

  function Depth(t: Tree, i: StateId): nat
    requires WellFormed(t) && i < |t|
  {
    assert ParentOk(t, i);
    if t[i].parent.None? then 0 else 1 + Depth(t, t[i].parent.value)
  }

  function Root(t: Tree, i: StateId): (r: StateId)
    requires WellFormed(t) && i < |t|
    ensures r <= i
  {
    assert ParentOk(t, i);
    if t[i].parent.None? then i else Root(t, t[i].parent.value)
  }

  /** The ancestors-or-self of a state, outermost first. */
  ghost function Path(t: Tree, i: StateId): (r: seq<StateId>)
    requires WellFormed(t) && i < |t|
    ensures |r| == Depth(t, i) + 1 && r[|r| - 1] == i && r[0] == Root(t, i)
  {
    assert ParentOk(t, i);
    if t[i].parent.None? then [i] else Path(t, t[i].parent.value) + [i]
  }

  /** The innermost State at `i`: a pseudo-state counts for its parent. */
  function InnerState(t: Tree, i: StateId): (r: StateId)
    requires WellFormed(t) && i < |t|
    ensures r <= i && t[r].kind.Composite?
  {
    assert ParentOk(t, i);
    if t[i].kind.Composite? then i else t[i].parent.value
  }

  /** The chain of State objects that are active when `i` is the current state, outermost first. */
  ghost function StateChain(t: Tree, i: StateId): seq<StateId>
    requires WellFormed(t) && i < |t|
  {
    Path(t, InnerState(t, i))
  }

  ghost predicate Ancestor(t: Tree, a: StateId, i: StateId)
    requires WellFormed(t) && i < |t|
  {
    a in Path(t, i)
  }

  /** The path of an ancestor is a prefix of the path of its descendant. */
  lemma {:induction false} PathPrefix(t: Tree, i: StateId, k: nat)
    requires WellFormed(t) && i < |t| && k < |Path(t, i)|
    ensures Path(t, i)[k] < |t| && Path(t, Path(t, i)[k]) == Path(t, i)[..k + 1]
    ensures k + 1 < |Path(t, i)| ==> t[Path(t, i)[k]].kind.Composite?
  {
    assert ParentOk(t, i);
    if t[i].parent.None? || k == |Path(t, i)| - 1 {
      assert Path(t, i)[..k + 1] == Path(t, i);
    } else {
      var p := t[i].parent.value;
      PathPrefix(t, p, k);
      assert Path(t, i)[..k + 1] == Path(t, p)[..k + 1];
    }
  }

  /** Identifiers grow along a path, so no state occurs twice on it. */
  lemma {:induction false} PathIncreasing(t: Tree, i: StateId)
    requires WellFormed(t) && i < |t|
    ensures forall j, k :: 0 <= j < k < |Path(t, i)| ==> Path(t, i)[j] < Path(t, i)[k]
  {
    assert ParentOk(t, i);
    if t[i].parent.Some? {
      var p := t[i].parent.value;
      PathIncreasing(t, p);
      assert Path(t, i) == Path(t, p) + [i];
      assert Path(t, p)[|Path(t, p)| - 1] == p;
    }
  }

  lemma PathOfAncestor(t: Tree, a: StateId, i: StateId) returns (k: nat)
    requires WellFormed(t) && i < |t| && Ancestor(t, a, i)
    ensures k < |Path(t, i)| && Path(t, i)[k] == a && a < |t|
    ensures Path(t, a) == Path(t, i)[..k + 1] && k == Depth(t, a)
    ensures Root(t, a) == Root(t, i)
  {
    k :| 0 <= k < |Path(t, i)| && Path(t, i)[k] == a;
    PathPrefix(t, i, k);
  }

  // ----- the full name

  const SEPARATOR := "/"
  const START_SUFFIX := "(S)"
  const END_SUFFIX := "(E)"
  const HISTORY_NAME := "(H)"

  /** AbstractState::getFullName, without the suffix of the pseudo-state classes. */
  function BaseName(t: Tree, i: StateId): string
    requires WellFormed(t) && i < |t|
    decreases i, 0
  {
    assert ParentOk(t, i);
    if t[i].parent.None? then SEPARATOR + t[i].name
    else FullName(t, t[i].parent.value) + (SEPARATOR + t[i].name)
  }

  function FullName(t: Tree, i: StateId): string
    requires WellFormed(t) && i < |t|
    decreases i, 1
  {
    match t[i].kind
    case Start => BaseName(t, i) + START_SUFFIX
    case End => BaseName(t, i) + END_SUFFIX
    case _ => BaseName(t, i)
  }
}

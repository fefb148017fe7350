/** Building a hierarchy: State::createRoot, create, setStartState, setHistoryState and addEndState
    (src/lib/osStateMachine/src/State.cpp:19-41, 172-213). */
module Hierarchy {
  import opened Options
  import opened StateTree
  import opened Lookup

  // ----- the effect on the table of states

  /** addChild or push_back of a new state; only State::create hands the delegate of the parent on. */
  function AddChild(t: Tree, p: StateId, kind: Kind, name: string): Tree
    requires p < |t|
  {
    t[p := t[p].(children := t[p].children + [|t|])]
    + [Node(kind, name, Some(p), [], [], kind.Composite? && t[p].observed)]
  }

  /** erase(remove_if(...)) on a child list */
  function WithoutKind(t: Tree, children: seq<StateId>, kind: Kind): (r: seq<StateId>)
    requires forall k :: 0 <= k < |children| ==> children[k] < |t|
    ensures forall c :: c in r <==> c in children && t[c].kind != kind
    ensures (forall j, k :: 0 <= j < k < |children| ==> children[j] != children[k])
            ==> forall j, k :: 0 <= j < k < |r| ==> r[j] != r[k]
    decreases |children|
  {
    if children == [] then []
    else
      var last := children[|children| - 1];
      WithoutKind(t, children[..|children| - 1], kind) + (if t[last].kind == kind then [] else [last])
  }

  function EraseKind(t: Tree, p: StateId, kind: Kind): Tree
    requires WellFormed(t) && p < |t|
  {
    ChildrenKnown(t, p);
    t[p := t[p].(children := WithoutKind(t, t[p].children, kind))]
  }

  lemma ChildrenKnown(t: Tree, p: StateId)
    requires WellFormed(t) && p < |t|
    ensures forall k :: 0 <= k < |t[p].children| ==> t[p].children[k] < |t|
  {
    assert ChildrenOk(t, p);
    forall k | 0 <= k < |t[p].children|
      ensures t[p].children[k] < |t|
    {
      assert t[p].children[k] in t[p].children;
    }
  }

  /** A start or history state replaces the one that was there. */
  function ReplaceChild(t: Tree, p: StateId, kind: Kind, name: string): Tree
    requires WellFormed(t) && p < |t|
  {
    AddChild(EraseKind(t, p, kind), p, kind, name)
  }

  // ----- what it keeps

  /** The states of `t` keep their class, name and parent in `u`. */
  ghost predicate Keeps(t: Tree, u: Tree) {
    |t| <= |u| && forall i: StateId :: i < |t| ==> u[i].kind == t[i].kind && u[i].name == t[i].name && u[i].parent == t[i].parent
  }

  lemma AddChildWellFormed(t: Tree, p: StateId, kind: Kind, name: string)
    requires WellFormed(t) && p < |t| && t[p].kind.Composite?
    ensures WellFormed(AddChild(t, p, kind, name)) && Keeps(t, AddChild(t, p, kind, name))
  {
    var u := AddChild(t, p, kind, name);
    ChildrenKnown(t, p);
    forall i: StateId | i < |u|
      ensures ParentOk(u, i)
    {
      if i < |t| { assert ParentOk(t, i); }
    }
    forall i: StateId | i < |u|
      ensures ChildrenOk(u, i)
    {
      if i < |t| { assert ChildrenOk(t, i); }
    }
    forall i: StateId | i < |u|
      ensures TargetsOk(u, i)
    {
      if i < |t| { assert TargetsOk(t, i); }
    }
  }

  lemma EraseKindWellFormed(t: Tree, p: StateId, kind: Kind)
    requires WellFormed(t) && p < |t|
    ensures WellFormed(EraseKind(t, p, kind)) && Keeps(t, EraseKind(t, p, kind))
  {
    var u := EraseKind(t, p, kind);
    ChildrenKnown(t, p);
    forall i: StateId | i < |u|
      ensures ParentOk(u, i)
    {
      assert ParentOk(t, i);
    }
    forall i: StateId | i < |u|
      ensures ChildrenOk(u, i)
    {
      assert ChildrenOk(t, i);
    }
    forall i: StateId | i < |u|
      ensures TargetsOk(u, i)
    {
      assert TargetsOk(t, i);
    }
  }

  lemma ReplaceChildWellFormed(t: Tree, p: StateId, kind: Kind, name: string)
    requires WellFormed(t) && p < |t| && t[p].kind.Composite?
    ensures WellFormed(ReplaceChild(t, p, kind, name)) && Keeps(t, ReplaceChild(t, p, kind, name))
  {
    EraseKindWellFormed(t, p, kind);
    AddChildWellFormed(EraseKind(t, p, kind), p, kind, name);
  }

  /** A state keeps its full name and its path while the hierarchy grows around it. */
  lemma {:induction false} KeepsNames(t: Tree, u: Tree, i: StateId)
    requires WellFormed(t) && WellFormed(u) && Keeps(t, u) && i < |t|
    ensures BaseName(u, i) == BaseName(t, i) && FullName(u, i) == FullName(t, i) && Path(u, i) == Path(t, i)
  {
    assert ParentOk(t, i);
    if t[i].parent.Some? { KeepsNames(t, u, t[i].parent.value); }
  }

  lemma {:induction false} FirstOfKindUnique(t: Tree, children: seq<StateId>, kind: Kind, c: StateId)
    requires forall d <- children :: d < |t|
    requires c in children && t[c].kind == kind && forall d <- children :: t[d].kind == kind ==> d == c
    ensures FirstOfKind(t, children, kind) == Some(c)
  {
  }

  /** After setStartState (or setHistoryState) the new state is the one the parent finds, and no other child of
      that class is left; all other children stay. */
  lemma ReplacedChildIsFound(t: Tree, p: StateId, kind: Kind, name: string)
    requires WellFormed(t) && p < |t| && t[p].kind.Composite?
    ensures var u := ReplaceChild(t, p, kind, name);
            && WellFormed(u)
            && ChildOfKind(u, p, kind) == Some(|t|)
            && (forall c <- u[p].children :: c < |u| && (u[c].kind == kind ==> c == |t|))
            && (forall c <- t[p].children :: c < |t| && (t[c].kind != kind ==> c in u[p].children))
  {
    ReplaceChildWellFormed(t, p, kind, name);
    ChildrenKnown(t, p);
    var u := ReplaceChild(t, p, kind, name);
    assert ChildrenOk(u, p);
    FirstOfKindUnique(u, u[p].children, kind, |t|);
  }

  /** Everything of the old states stays, but for the child list of `p`. */
  ghost predicate OnlyChildrenOf(t: Tree, u: Tree, p: StateId)
    requires p < |t|
  {
    && |u| == |t| + 1
    && (forall i: StateId :: i < |t| && i != p ==> u[i] == t[i])
    && u[p] == t[p].(children := u[p].children)
  }

  /** A new child is the last of its parent, has neither children nor transitions, and carries the delegate exactly if it is
      a State of a parent that does. */
  ghost predicate NewChild(t: Tree, u: Tree, p: StateId, kind: Kind, name: string)
    requires p < |t| && |u| == |t| + 1
  {
    && u[p].children != [] && u[p].children[|u[p].children| - 1] == |t|
    && u[|t|].kind == kind && u[|t|].name == name && u[|t|].parent == Some(p)
    && u[|t|].children == [] && u[|t|].transitions == []
    && (u[|t|].observed <==> kind == Composite && t[p].observed)
  }

  lemma AddChildGrows(t: Tree, p: StateId, kind: Kind, name: string)
    requires p < |t|
    ensures var u := AddChild(t, p, kind, name);
            && OnlyChildrenOf(t, u, p) && NewChild(t, u, p, kind, name)
            && u[p].children[..|u[p].children| - 1] == t[p].children
  {
  }

  /** `a` comes before `b`. */
  ghost predicate InOrder(s: seq<StateId>, a: StateId, b: StateId) {
    exists j, k :: 0 <= j < k < |s| && s[j] == a && s[k] == b
  }

  lemma {:induction false} WithoutKindKeepsOrder(t: Tree, children: seq<StateId>, kind: Kind, a: StateId, b: StateId)
    requires (forall k :: 0 <= k < |children| ==> children[k] < |t|) && InOrder(children, a, b) && a < |t| && b < |t|
    requires t[a].kind != kind && t[b].kind != kind
    ensures InOrder(WithoutKind(t, children, kind), a, b)
    decreases |children|
  {
    var j, k :| 0 <= j < k < |children| && children[j] == a && children[k] == b;
    var init := children[..|children| - 1];
    var r := WithoutKind(t, init, kind);
    if k < |init| {
      assert init[j] == a && init[k] == b;
      WithoutKindKeepsOrder(t, init, kind, a, b);
      var i, l :| 0 <= i < l < |r| && r[i] == a && r[l] == b;
      assert WithoutKind(t, children, kind)[i] == a && WithoutKind(t, children, kind)[l] == b;
    } else {
      assert init[j] == a && a in init && a in r;
      var i :| 0 <= i < |r| && r[i] == a;
      assert WithoutKind(t, children, kind) == r + [b];
      assert WithoutKind(t, children, kind)[i] == a && WithoutKind(t, children, kind)[|r|] == b;
    }
  }

  /** A replaced child is the last; the children of other classes stay, in their order. */
  lemma ReplaceChildGrows(t: Tree, p: StateId, kind: Kind, name: string, a: StateId, b: StateId)
    requires WellFormed(t) && p < |t| && a < |t| && b < |t|
    ensures var u := ReplaceChild(t, p, kind, name);
            && OnlyChildrenOf(t, u, p) && NewChild(t, u, p, kind, name)
            && (InOrder(t[p].children, a, b) && t[a].kind != kind && t[b].kind != kind ==> InOrder(u[p].children, a, b))
  {
    ChildrenKnown(t, p);
    var v := EraseKind(t, p, kind);
    AddChildGrows(v, p, kind, name);
    if InOrder(t[p].children, a, b) && t[a].kind != kind && t[b].kind != kind {
      WithoutKindKeepsOrder(t, t[p].children, kind, a, b);
      var j, k :| 0 <= j < k < |v[p].children| && v[p].children[j] == a && v[p].children[k] == b;
      var c := ReplaceChild(t, p, kind, name)[p].children;
      assert c[j] == a && c[k] == b;
    }
  }

  // ----- the object

  class Hierarchy {
    var nodes: Tree

    ghost predicate Valid()
      reads this
    {
      WellFormed(nodes)
    }

    constructor ()
      ensures Valid() && nodes == []
    {
      nodes := [];
    }

    /** State::createRoot */
    method CreateRoot(name: string) returns (i: StateId)
      requires Valid()
      modifies this
      ensures Valid() && i == |old(nodes)| && Keeps(old(nodes), nodes)
      ensures nodes == old(nodes) + [Node(Composite, name, None, [], [], false)]
    {
      i := |nodes|;
      ghost var t := nodes;
      nodes := nodes + [Node(Composite, name, None, [], [], false)];
      RootWellFormed(t, name);
    }

    /** State::create under a parent */
    method Create(p: StateId, name: string) returns (i: StateId)
      requires Valid() && p < |nodes| && nodes[p].kind.Composite?
      modifies this
      ensures Valid() && i == |old(nodes)| && nodes == AddChild(old(nodes), p, Composite, name)
    {
      AddChildWellFormed(nodes, p, Composite, name);
      i := |nodes|;
      var observed := nodes[p].observed;
      nodes := nodes[p := nodes[p].(children := nodes[p].children + [i])];
      nodes := nodes + [Node(Composite, name, Some(p), [], [], observed)];
    }

    /** State::addEndState */
    method AddEndState(p: StateId, name: string) returns (i: StateId)
      requires Valid() && p < |nodes| && nodes[p].kind.Composite?
      modifies this
      ensures Valid() && i == |old(nodes)| && nodes == AddChild(old(nodes), p, End, name)
    {
      AddChildWellFormed(nodes, p, End, name);
      i := |nodes|;
      nodes := nodes[p := nodes[p].(children := nodes[p].children + [i])];
      nodes := nodes + [Node(End, name, Some(p), [], [], false)];
    }

    /** State::setStartState and State::setHistoryState */
    method Replace(p: StateId, kind: Kind, name: string) returns (i: StateId)
      requires Valid() && p < |nodes| && nodes[p].kind.Composite? && (kind.Start? || kind.History?)
      modifies this
      ensures Valid() && i == |old(nodes)| && nodes == ReplaceChild(old(nodes), p, kind, name)
    {
      ReplaceChildWellFormed(nodes, p, kind, name);
      ChildrenKnown(nodes, p);
      i := |nodes|;
      var kept := WithoutKind(nodes, nodes[p].children, kind);
      nodes := nodes[p := nodes[p].(children := kept)];
      nodes := nodes[p := nodes[p].(children := nodes[p].children + [i])];
      nodes := nodes + [Node(kind, name, Some(p), [], [], false)];
    }
  }

  lemma RootWellFormed(t: Tree, name: string)
    requires WellFormed(t)
    ensures WellFormed(t + [Node(Composite, name, None, [], [], false)])
  {
    var u := t + [Node(Composite, name, None, [], [], false)];
    forall i: StateId | i < |u|
      ensures ParentOk(u, i)
    {
      if i < |t| { assert ParentOk(t, i); }
    }
    forall i: StateId | i < |u|
      ensures ChildrenOk(u, i)
    {
      if i < |t| { assert ChildrenOk(t, i); }
    }
    forall i: StateId | i < |u|
      ensures TargetsOk(u, i)
    {
      if i < |t| { assert TargetsOk(t, i); }
    }
  }
}

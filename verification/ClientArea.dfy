/** AbstractStateWidget::getLCAStateClientArea of the state machine viewer
    (src/exe/osStateMachineViewer/src/AbstractStateWidget.cpp:58-108).

    Every State has one widget and one client area; the widgets of its children sit in that area. A client
    area is named by the State that owns it. */
module ClientArea {
  import opened Options
  import opened Sequences
  import opened StateTree
  import opened LeastCommonAncestor

  /** The client area a widget sits in, None for the widget of the root. */
  function EnclosingArea(t: Tree, i: StateId): Option<StateId>
    requires WellFormed(t) && i < |t|
  {
    t[i].parent
  }

  /** The areas around a widget, innermost first, its own area included when it is the widget of a State. */
  method GetClientAreas(t: Tree, i: StateId) returns (areas: seq<StateId>)
    requires WellFormed(t) && i < |t|
    ensures areas == Reverse(StateChain(t, i))
  {
    if EnclosingArea(t, i).None? {
      RootAreas(t, i);
      return [i];
    }
    OuterAreasStep(t, i);
    var outer := GetOuterAreas(t, EnclosingArea(t, i));
    areas := if t[i].kind.Composite? then [i] + outer else outer;
  }

  /** The loop of that function: from one area to the area around it. */
  method GetOuterAreas(t: Tree, start: Option<StateId>) returns (areas: seq<StateId>)
    requires WellFormed(t) && (start.Some? ==> start.value < |t|)
    ensures areas == OuterAreas(t, start)
  {
    hide Path, Reverse, WellFormed;
    areas := [];
    var area: Option<StateId> := start;
    while area.Some?
      invariant area.Some? ==> area.value < |t|
      invariant areas + OuterAreas(t, area) == OuterAreas(t, start)
      decreases if area.Some? then area.value + 1 else 0
    {
      OuterAreasStep(t, area.value);
      Associate(areas, [area.value], OuterAreas(t, EnclosingArea(t, area.value)));
      areas, area := areas + [area.value], EnclosingArea(t, area.value);
    }
  }

  ghost function OuterAreas(t: Tree, area: Option<StateId>): seq<StateId>
    requires WellFormed(t) && (area.Some? ==> area.value < |t|)
  {
    if area.None? then [] else Reverse(Path(t, area.value))
  }

  lemma RootAreas(t: Tree, i: StateId)
    requires WellFormed(t) && i < |t| && t[i].parent.None?
    ensures Reverse(StateChain(t, i)) == [i]
  {
    assert ParentOk(t, i) && Path(t, i) == [] + [i];
    ReverseAppend([], i);
  }

  lemma OuterAreasStep(t: Tree, i: StateId)
    requires WellFormed(t) && i < |t|
    ensures t[i].parent.Some? ==> t[i].parent.value < i
    ensures OuterAreas(t, Some(i)) == [i] + OuterAreas(t, t[i].parent)
  {
    assert ParentOk(t, i);
    if t[i].parent.Some? { ReverseAppend(Path(t, t[i].parent.value), i); }
  }

  function FromEnd<T>(s: seq<T>, n: nat): T
    requires 0 < n <= |s|
  {
    s[|s| - n]
  }

  /** The three loops over the deques: trim both to one length, then drop the fronts while they differ. What is left
      of the first begins where the two agree, counted from the end, and they agree nowhere before. */
  method PopUnequalFronts(from: seq<StateId>, to: seq<StateId>) returns (rest: seq<StateId>)
    ensures |rest| <= |from| && |rest| <= |to| && rest == from[|from| - |rest|..]
    ensures rest != [] ==> FromEnd(from, |rest|) == FromEnd(to, |rest|)
    ensures forall n :: |rest| < n <= |from| && n <= |to| ==> FromEnd(from, n) != FromEnd(to, n)
  {
    var fromAreas, toAreas := from, to;
    while |fromAreas| > |toAreas|
      invariant |fromAreas| <= |from| && fromAreas == from[|from| - |fromAreas|..]
      invariant |fromAreas| < |from| ==> |fromAreas| >= |to|
    {
      fromAreas := fromAreas[1..];
    }
    while |toAreas| > |fromAreas|
      invariant |toAreas| <= |to| && toAreas == to[|to| - |toAreas|..]
      invariant |toAreas| < |to| ==> |toAreas| >= |from|
    {
      toAreas := toAreas[1..];
    }
    while fromAreas != [] && toAreas != [] && fromAreas[0] != toAreas[0]
      invariant |fromAreas| == |toAreas| <= |from| && |toAreas| <= |to|
      invariant fromAreas == from[|from| - |fromAreas|..] && toAreas == to[|to| - |toAreas|..]
      invariant forall n :: |fromAreas| < n <= |from| && n <= |to| ==> FromEnd(from, n) != FromEnd(to, n)
    {
      fromAreas, toAreas := fromAreas[1..], toAreas[1..];
    }
    rest := fromAreas;
  }

  /** The deque form finds the client area of the very state that getLCAState finds. */
  method GetLcaStateClientArea(t: Tree, from: StateId, to: Option<StateId>) returns (area: Option<StateId>)
    requires WellFormed(t) && from < |t| && (to.Some? ==> to.value < |t|)
    requires to.None? ==> t[from].kind.Composite?
    ensures to.None? ==> area == Some(from)
    ensures to == Some(from) ==> area == t[from].parent
    ensures to.Some? && to.value != from ==> area == LcaState(t, from, to.value)
  {
    if to.None? {
      return Some(from);
    }
    if from == to.value {
      return EnclosingArea(t, from);
    }
    var fromAreas := GetClientAreas(t, from);
    var toAreas := GetClientAreas(t, to.value);
    var rest := PopUnequalFronts(fromAreas, toAreas);
    FrontIsLca(t, from, to.value, |rest|);
    area := if rest == [] then None else Some(rest[0]);
  }

  lemma FrontIsLca(t: Tree, a: StateId, b: StateId, k: nat)
    requires WellFormed(t) && a < |t| && b < |t| && a != b
    requires k <= |StateChain(t, a)| && k <= |StateChain(t, b)|
    requires k > 0 ==> FromEnd(Reverse(StateChain(t, a)), k) == FromEnd(Reverse(StateChain(t, b)), k)
    requires forall n :: k < n <= |StateChain(t, a)| && n <= |StateChain(t, b)| ==>
                           FromEnd(Reverse(StateChain(t, a)), n) != FromEnd(Reverse(StateChain(t, b)), n)
    ensures LcaState(t, a, b) == if k == 0 then None else Some(FromEnd(Reverse(StateChain(t, a)), k))
  {
    hide Reverse, StateChain, LcaState;
    var x, y := StateChain(t, a), StateChain(t, b);
    if k > 0 {
      ReverseFromEnd(x, k);
      ReverseFromEnd(y, k);
    }
    forall n | k <= n < |x| && n < |y|
      ensures x[n] != y[n]
    {
      ReverseFromEnd(x, n + 1);
      ReverseFromEnd(y, n + 1);
    }
    LastAgreement(t, a, b, k);
  }

  lemma ReverseFromEnd(s: seq<StateId>, n: nat)
    requires 0 < n <= |s|
    ensures FromEnd(Reverse(s), n) == s[n - 1]
  {
    ReverseAt(s, |s| - n);
  }

  /** If two chains agree at place `n - 1` and at no later place, the state there is the least common ancestor. */
  lemma LastAgreement(t: Tree, a: StateId, b: StateId, n: nat)
    requires WellFormed(t) && a < |t| && b < |t| && a != b
    requires n <= |StateChain(t, a)| && n <= |StateChain(t, b)|
    requires n > 0 ==> StateChain(t, a)[n - 1] == StateChain(t, b)[n - 1]
    requires forall k :: n <= k < |StateChain(t, a)| && k < |StateChain(t, b)| ==> StateChain(t, a)[k] != StateChain(t, b)[k]
    ensures LcaState(t, a, b) == if n == 0 then None else Some(StateChain(t, a)[n - 1])
  {
    LcaIsDeepest(t, a, b);
    ChainIsPath(t, a);
    ChainIsPath(t, b);
    if n == 0 {
      assert StateChain(t, a)[0] != StateChain(t, b)[0];
    } else {
      AgreementIsDeepest(t, a, b, n - 1);
    }
  }

  lemma AgreementIsDeepest(t: Tree, a: StateId, b: StateId, n: nat)
    requires WellFormed(t) && a < |t| && b < |t| && a != b
    requires n < |StateChain(t, a)| && n < |StateChain(t, b)|
    requires StateChain(t, a)[n] == StateChain(t, b)[n]
    requires forall k :: n < k < |StateChain(t, a)| && k < |StateChain(t, b)| ==> StateChain(t, a)[k] != StateChain(t, b)[k]
    ensures LcaState(t, a, b) == Some(StateChain(t, a)[n])
  {
    LcaIsDeepest(t, a, b);
    ChainIsPath(t, a);
    ChainIsPath(t, b);
    var c := StateChain(t, a)[n];
    var m := PathOfAncestor(t, c, a);
    var m' := PathOfAncestor(t, c, b);
    var l := LcaState(t, a, b).value;
    var j := PathOfAncestor(t, l, a);
    var k := PathOfAncestor(t, l, b);
    StateInChain(t, l, a, j);
    StateInChain(t, l, b, k);
    assert j <= n;
    assert CommonAncestor(t, c, a, b);
    var i := PathOfAncestor(t, c, l);
    PathIncreasing(t, a);
  }

  lemma StateInChain(t: Tree, l: StateId, i: StateId, k: nat)
    requires WellFormed(t) && i < |t| && k < |Path(t, i)| && l == Path(t, i)[k] && l < |t| && t[l].kind.Composite?
    ensures k < |StateChain(t, i)| && StateChain(t, i)[k] == l
  {
  }

  /** The active chain of a state is its path, without the state itself when that is a pseudo-state. */
  lemma ChainIsPath(t: Tree, i: StateId)
    requires WellFormed(t) && i < |t|
    ensures StateChain(t, i) != [] && StateChain(t, i) <= Path(t, i)
    ensures StateChain(t, i)[0] == Root(t, i)
    ensures forall k :: 0 <= k < |StateChain(t, i)| ==> StateChain(t, i)[k] < |t| && t[StateChain(t, i)[k]].kind.Composite?
  {
    assert ParentOk(t, i);
    forall k | 0 <= k < |StateChain(t, i)|
      ensures StateChain(t, i)[k] < |t| && t[StateChain(t, i)[k]].kind.Composite?
    {
      PathPrefix(t, i, k);
    }
  }
}

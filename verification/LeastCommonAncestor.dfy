/** AbstractState::getLCAState and the deque form the viewer uses, AbstractStateWidget::getLCAStateClientArea. */
module LeastCommonAncestor {
  import opened Options
  import opened StateTree

  /** getLCAState, branch by branch; the swap of the two states in the second branch is the program's. */
  function LcaState(t: Tree, a: StateId, b: StateId): Option<StateId>
    requires WellFormed(t) && a < |t| && b < |t|
    decreases Depth(t, a) + Depth(t, b)
  {
    assert ParentOk(t, a) && ParentOk(t, b);
    if a == b then
      if t[a].kind.Composite? then Some(a) else None
    else if Depth(t, a) > Depth(t, b) then LcaState(t, t[a].parent.value, b)
    else if Depth(t, a) < Depth(t, b) then LcaState(t, t[b].parent.value, a)
    else if Depth(t, a) == 0 then None
    else LcaState(t, t[a].parent.value, t[b].parent.value)
  }

  ghost predicate CommonAncestor(t: Tree, c: StateId, a: StateId, b: StateId)
    requires WellFormed(t) && a < |t| && b < |t|
  {
    Ancestor(t, c, a) && Ancestor(t, c, b)
  }

  /** `l` is a common ancestor-or-self, and every common ancestor-or-self is one of `l`. */
  ghost predicate Deepest(t: Tree, l: StateId, a: StateId, b: StateId)
    requires WellFormed(t) && a < |t| && b < |t|
  {
    && l < |t|
    && CommonAncestor(t, l, a, b)
    && forall c :: CommonAncestor(t, c, a, b) ==> Ancestor(t, c, l)
  }

  /** For two distinct states the walk finds the deepest common ancestor-or-self, a State, and it finds none
      exactly when the two states live in different hierarchies. */
  lemma {:induction false} LcaIsDeepest(t: Tree, a: StateId, b: StateId)
    requires WellFormed(t) && a < |t| && b < |t|
    requires a == b ==> t[a].kind.Composite?
    ensures LcaState(t, a, b).None? <==> Root(t, a) != Root(t, b)
    ensures LcaState(t, a, b).Some? ==>
              Deepest(t, LcaState(t, a, b).value, a, b) && t[LcaState(t, a, b).value].kind.Composite?
    decreases Depth(t, a) + Depth(t, b)
  {
    assert ParentOk(t, a) && ParentOk(t, b);
    if a == b {
    } else if Depth(t, a) > Depth(t, b) {
      var p := t[a].parent.value;
      LcaIsDeepest(t, p, b);
      SkipDeeper(t, a, b);
    } else if Depth(t, a) < Depth(t, b) {
      var p := t[b].parent.value;
      LcaIsDeepest(t, p, a);
      SkipDeeper(t, b, a);
    } else if Depth(t, a) == 0 {
    } else {
      var p, q := t[a].parent.value, t[b].parent.value;
      LcaIsDeepest(t, p, q);
      SkipBoth(t, a, b);
    }
  }

  /** A state deeper than `b` is not an ancestor of `b`. */
  lemma DeeperIsNotAncestor(t: Tree, a: StateId, b: StateId)
    requires WellFormed(t) && a < |t| && b < |t| && a != b && Depth(t, a) >= Depth(t, b)
    ensures !Ancestor(t, a, b)
  {
    if Ancestor(t, a, b) { var k := PathOfAncestor(t, a, b); }
  }

  lemma SkipDeeper(t: Tree, a: StateId, b: StateId)
    requires WellFormed(t) && a < |t| && b < |t| && Depth(t, a) > Depth(t, b)
    ensures t[a].parent.Some? && t[a].parent.value < |t|
    ensures forall c :: CommonAncestor(t, c, a, b) <==> CommonAncestor(t, c, t[a].parent.value, b)
  {
    assert ParentOk(t, a);
    DeeperIsNotAncestor(t, a, b);
  }

  lemma SkipBoth(t: Tree, a: StateId, b: StateId)
    requires WellFormed(t) && a < |t| && b < |t| && a != b && Depth(t, a) == Depth(t, b) > 0
    ensures t[a].parent.Some? && t[a].parent.value < |t| && t[b].parent.Some? && t[b].parent.value < |t|
    ensures forall c :: CommonAncestor(t, c, a, b) <==> CommonAncestor(t, c, t[a].parent.value, t[b].parent.value)
  {
    assert ParentOk(t, a) && ParentOk(t, b);
    DeeperIsNotAncestor(t, a, b);
    DeeperIsNotAncestor(t, b, a);
    DeeperIsNotAncestor(t, a, t[b].parent.value);
    DeeperIsNotAncestor(t, b, t[a].parent.value);
  }
}

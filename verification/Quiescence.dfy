/** Where settling comes to rest, and whether the state it rests in would move again
    (src/lib/osStateMachine/src/AbstractState.cpp:117-122, src/lib/osStateMachine/src/State.cpp:54-86,
    src/lib/osStateMachine/src/EndState.cpp:20-26). */
module Quiescence {
  import opened Options
  import opened StateTree
  import opened Lookup
  import opened Engine
  import opened Settling
  import opened History
  import opened Balance

  /** The recursion that ends at `p` hands over to another state: an end state to its parent, a history to what it saved. */
  predicate HandsOver(t: Tree, p: Point)
    requires WellFormed(t) && p.state < |t|
  {
    t[p.state].kind.End? || Resumption(t, p).Some?
  }

  /** The state the machine is in once the recursion has ended at `p`. */
  function Final(t: Tree, p: Point): StateId
    requires WellFormed(t) && p.state < |t|
  {
    assert ParentOk(t, p.state);
    if t[p.state].kind.End? then t[p.state].parent.value
    else if Resumption(t, p).Some? then Resumption(t, p).value
    else p.state
  }

  /** doImplicitTransition on `i` returns null. */
  ghost predicate Quiescent(t: Tree, c: Config, i: StateId, v: Value)
    requires WellFormed(t) && i < |t|
  {
    exists n: nat :: Settles(t, c, i, v, n) && Settle(t, c, i, v, n).next == None
  }

  /** Where the recursion ends it returns what it hands over to. */
  lemma HaltHandsOver(t: Tree, c: Config, i: StateId, v: Value)
    requires WellFormed(t) && i < |t| && Hop(t, c, i, v).None?
    ensures Landing(Halt(t, c, i, v), i) == Final(t, Point(i, c))
    ensures Halt(t, c, i, v).next.Some? <==> HandsOver(t, Point(i, c))
    ensures Halt(t, c, i, v).config.saved == c.saved
  {
    hide Hop;
    assert ParentOk(t, i);
  }

  /** Settling lands where the recursion ends, or on the state handed over to there. */
  lemma {:induction false} SettleLandsAtRest(t: Tree, c: Config, i: StateId, v: Value, n: nat)
    requires WellFormed(t) && i < |t| && Settles(t, c, i, v, n)
    ensures Landing(Settle(t, c, i, v, n), i) == Final(t, Rest(t, c, i, v, n))
    ensures Settle(t, c, i, v, n).config.saved == Rest(t, c, i, v, n).config.saved
    ensures Settle(t, c, i, v, n).next.None? <==> Hop(t, c, i, v).None? && !HandsOver(t, Point(i, c))
    decreases n
  {
    hide Hop, Halt, Final, HandsOver;
    var p := Hop(t, c, i, v);
    if p.Some? {
      SettlesNext(t, c, i, v, n);
      SettleLandsAtRest(t, p.value.config, p.value.state, v, n - 1);
      if Settle(t, p.value.config, p.value.state, v, n - 1).next.None? { StaysAtRest(t, p.value, v, n - 1); }
    } else {
      HaltHandsOver(t, c, i, v);
    }
  }

  lemma StaysAtRest(t: Tree, p: Point, v: Value, n: nat)
    requires WellFormed(t) && p.state < |t| && Settles(t, p.config, p.state, v, n)
    requires Hop(t, p.config, p.state, v).None? && !HandsOver(t, p)
    ensures Final(t, Rest(t, p.config, p.state, v, n)) == p.state
  {
    hide Hop, Resumption;
  }

  /** A state is quiescent exactly when it has nowhere to hop, is no end state and resumes nothing. */
  lemma QuiescentIff(t: Tree, c: Config, i: StateId, v: Value)
    requires WellFormed(t) && i < |t|
    ensures Quiescent(t, c, i, v) <==> Hop(t, c, i, v).None? && !HandsOver(t, Point(i, c))
  {
    hide Hop, HandsOver, Settle;
    forall n: nat | Settles(t, c, i, v, n)
      ensures Settle(t, c, i, v, n).next.None? <==> Hop(t, c, i, v).None? && !HandsOver(t, Point(i, c))
    {
      SettleLandsAtRest(t, c, i, v, n);
    }
    if Hop(t, c, i, v).None? { assert Settles(t, c, i, v, 0); }
  }

  /** The recursion ends with truthful histories when it starts with them. */
  lemma {:induction false} RestRemembers(t: Tree, c: Config, i: StateId, v: Value, n: nat)
    requires WellFormed(t) && i < |t| && Settles(t, c, i, v, n) && Remembers(t, c)
    ensures Remembers(t, Rest(t, c, i, v, n).config)
    decreases n
  {
    hide Hop, Remembers;
    var p := Hop(t, c, i, v);
    if p.Some? {
      SettlesNext(t, c, i, v, n);
      HopRemembers(t, c, i, v);
      RestRemembers(t, p.value.config, p.value.state, v, n - 1);
    }
  }

  /** What is handed over to is a State. */
  lemma FinalIsState(t: Tree, p: Point)
    requires WellFormed(t) && p.state < |t| && Remembers(t, p.config)
    ensures Final(t, p) < |t|
    ensures HandsOver(t, p) ==> t[Final(t, p)].kind.Composite?
  {
    hide LastChild;
    assert ParentOk(t, p.state);
    if t[p.state].kind.History? {
      if p.state in p.config.saved { LastChildIsState(t, p.config.journal, t[p.state].parent.value); }
    } else if Resumption(t, p).Some? {
      LastChildIsState(t, p.config.journal, p.state);
    }
  }

  /** The state settling lands on, in a machine with truthful histories, is quiescent, except when the recursion ends
      by handing over to a state with a start state, an enabled implicit transition or a saved history of its own. */
  lemma RestIsQuiescentIff(t: Tree, c: Config, i: StateId, v: Value, n: nat)
    requires WellFormed(t) && i < |t| && Settles(t, c, i, v, n) && Remembers(t, c)
    ensures var p := Rest(t, c, i, v, n);
            var r := Settle(t, c, i, v, n);
            && Landing(r, i) == Final(t, p) < |t|
            && (Quiescent(t, r.config, Landing(r, i), v)
                <==> (HandsOver(t, p) ==> ImplicitEdge(t, Final(t, p), v).None? && !Resumes(t, p.config, Final(t, p))))
  {
    hide Hop, Settle, Settles, Final, HandsOver, Rest, Remembers;
    var p := Rest(t, c, i, v, n);
    var r := Settle(t, c, i, v, n);
    SettleLandsAtRest(t, c, i, v, n);
    RestRemembers(t, c, i, v, n);
    FinalIsState(t, p);
    var f := Final(t, p);
    QuiescentIff(t, r.config, f, v);
    if HandsOver(t, p) {
      StateMovesIff(t, r.config, f, v);
    } else {
      assert f == p.state && !HandsOver(t, Point(f, r.config)) by { StaysPut(t, p, r.config); }
      if Hop(t, r.config, f, v).Some? { HopBySaved(t, r.config, p.config, f, v); }
    }
  }

  lemma StaysPut(t: Tree, p: Point, c: Config)
    requires WellFormed(t) && p.state < |t| && !HandsOver(t, p) && c.saved == p.config.saved
    ensures Final(t, p) == p.state && !HandsOver(t, Point(p.state, c))
  {
  }

  lemma StateMovesIff(t: Tree, c: Config, i: StateId, v: Value)
    requires WellFormed(t) && i < |t| && t[i].kind.Composite?
    ensures (Hop(t, c, i, v).None? && !HandsOver(t, Point(i, c))) <==> (ImplicitEdge(t, i, v).None? && !Resumes(t, c, i))
  {
    hide Hop, ImplicitEdge;
  }

  /** A hierarchy without end and history states, and with a rank that every implicit edge lowers, always comes to
      rest, and in a quiescent state. */
  lemma RankedSettlesQuiescent(t: Tree, c: Config, i: StateId, v: Value, rank: seq<nat>)
    requires WellFormed(t) && i < |t| && |rank| == |t|
    requires forall j: StateId :: j < |t| ==> !t[j].kind.History? && !t[j].kind.End?
    requires forall j: StateId :: j < |t| && ImplicitEdge(t, j, v).Some? ==> rank[ImplicitEdge(t, j, v).value] < rank[j]
    ensures Settles(t, c, i, v, rank[i])
    ensures var r := Settle(t, c, i, v, rank[i]);
            Landing(r, i) < |t| && Quiescent(t, r.config, Landing(r, i), v)
  {
    hide Hop, Settle, Settles, Rest;
    RankedEdgesSettle(t, c, i, v, rank);
    var p := Rest(t, c, i, v, rank[i]);
    var r := Settle(t, c, i, v, rank[i]);
    SettleLandsAtRest(t, c, i, v, rank[i]);
    QuiescentIff(t, r.config, p.state, v);
    if Hop(t, r.config, p.state, v).Some? { HopBySaved(t, r.config, p.config, p.state, v); }
  }
}

/** What one event does to a state machine: the effects of doTransition, doImplicitTransition, doEntry and
    doExit as functions on a configuration. StateMachine.dfy holds the methods that compute them step by step. */
module Engine {
  import opened Options
  import opened StateTree
  import opened Reconfiguration
  import opened Lookup

  /** The user callbacks in the order in which they run. */
  datatype Effect = Entered(state: StateId) | Exited(state: StateId) | Acted(transition: nat)

  /** The part of TransitionRecord that names the event and the two states. */
  datatype Record = Record(event: Option<string>, from: Option<string>, to: Option<string>)

  /** `saved` maps a history state to its saved state; a history that is not a key holds null. */
  datatype Config = Config(saved: map<StateId, StateId>, journal: seq<Effect>, records: seq<Record>)

  /** `next` is the pointer a transition function returns, None for null. */
  datatype Outcome = Outcome(next: Option<StateId>, config: Config)

  // ----- entry, exit, delegate

  function ParentHistory(t: Tree, i: StateId): (r: Option<StateId>)
    requires WellFormed(t) && i < |t|
    ensures r.Some? ==> t[i].parent.Some? && r.value < |t| && t[r.value].kind.History? && t[r.value].parent == t[i].parent
  {
    assert ParentOk(t, i);
    if t[i].parent.None? then None else HistoryOf(t, t[i].parent.value)
  }

  /** State::doExit: the history of the parent forgets. */
  function ExitState(t: Tree, c: Config, i: StateId): Config
    requires WellFormed(t) && i < |t|
  {
    var h := ParentHistory(t, i);
    c.(journal := c.journal + [Exited(i)], saved := if h.None? then c.saved else c.saved - {h.value})
  }

  /** State::doEntry: the history of the parent saves the entered state. */
  function EnterState(t: Tree, c: Config, i: StateId): Config
    requires WellFormed(t) && i < |t|
  {
    var h := ParentHistory(t, i);
    c.(journal := c.journal + [Entered(i)], saved := if h.None? then c.saved else c.saved[h.value := i])
  }

  function ExitAll(t: Tree, c: Config, ss: seq<StateId>): Config
    requires WellFormed(t) && Known(t, ss)
    decreases |ss|
  {
    if ss == [] then c else ExitAll(t, ExitState(t, c, ss[0]), ss[1..])
  }

  function EnterAll(t: Tree, c: Config, ss: seq<StateId>): Config
    requires WellFormed(t) && Known(t, ss)
    decreases |ss|
  {
    if ss == [] then c
    else EnterState(t, EnterAll(t, c, ss[..|ss| - 1]), ss[|ss| - 1])
  }

  lemma ExitStep(t: Tree, c: Config, i: StateId, lca: Option<StateId>)
    requires WellFormed(t) && i < |t|
    ensures ExitAll(t, c, ExitUntil(t, i, lca)) ==
              if AsState(t, i) == lca then c
              else
                var c1 := if t[i].kind.Composite? then ExitState(t, c, i) else c;
                if t[i].parent.Some? then assert ParentOk(t, i); ExitAll(t, c1, ExitUntil(t, t[i].parent.value, lca)) else c1
  {
    assert ParentOk(t, i);
    if AsState(t, i) != lca {
      var up := if t[i].parent.Some? then ExitUntil(t, t[i].parent.value, lca) else [];
      assert [] + up == up && ([i] + up)[1..] == up;
    }
  }

  lemma EntryStep(t: Tree, c: Config, i: StateId, lca: Option<StateId>)
    requires WellFormed(t) && i < |t|
    ensures EnterAll(t, c, EntryFrom(t, i, lca)) ==
              if AsState(t, i) == lca then c
              else
                var c1 := if t[i].parent.Some? then assert ParentOk(t, i); EnterAll(t, c, EntryFrom(t, t[i].parent.value, lca)) else c;
                if t[i].kind.Composite? then EnterState(t, c1, i) else c1
  {
    assert ParentOk(t, i);
    if AsState(t, i) != lca {
      var up := if t[i].parent.Some? then EntryFrom(t, t[i].parent.value, lca) else [];
      assert up + [] == up && (up + [i])[..|up|] == up;
    }
  }

  /** onBeginTransition, seen from a state that may or may not carry the delegate. */
  function Begin(t: Tree, c: Config, observer: StateId, event: string, from: Option<StateId>): Config
    requires WellFormed(t) && observer < |t| && (from.Some? ==> from.value < |t|)
  {
    if !t[observer].observed then c
    else c.(records := c.records + [Record(if event == "" then None else Some(event),
                                           if from.None? then None else Some(FullName(t, from.value)),
                                           None)])
  }

  /** onEndTransition: the last record gets its target. */
  function Finish(t: Tree, c: Config, observer: StateId, to: Option<StateId>): Config
    requires WellFormed(t) && observer < |t| && (to.Some? ==> to.value < |t|)
  {
    if !t[observer].observed || to.None? || c.records == [] then c
    else
      var last := |c.records| - 1;
      c.(records := c.records[last := c.records[last].(to := Some(FullName(t, to.value)))])
  }

  // ----- transitions

  /** An enabled external transition fires: exits, action, entries, with one record around them. */
  function Fire(t: Tree, c: Config, i: StateId, event: string, id: nat, to: StateId): Config
    requires WellFormed(t) && i < |t| && to < |t|
  {
    var c1 := ExitAll(t, Begin(t, c, i, event, Some(i)), Exits(t, i, to));
    var c2 := EnterAll(t, c1.(journal := c1.journal + [Acted(id)]), Entries(t, i, to));
    Finish(t, c2, i, Some(to))
  }

  /** An internal transition: only its action runs. */
  function FireInternal(t: Tree, c: Config, i: StateId, event: string, id: nat): Config
    requires WellFormed(t) && i < |t|
  {
    var c1 := Begin(t, c, i, event, Some(i));
    Finish(t, c1.(journal := c1.journal + [Acted(id)]), i, None)
  }

  /** The record of a resumed history: from the history state to what it saved. */
  function Resume(t: Tree, c: Config, i: StateId, h: StateId): Config
    requires WellFormed(t) && i < |t| && h < |t| && h in c.saved
  {
    var to := c.saved[h];
    Finish(t, Begin(t, c, i, "", Some(h)), i, if to < |t| then Some(to) else None)
  }

  // ----- implicit transitions

  /** A composite state whose history holds a saved state. */
  predicate Resumes(t: Tree, c: Config, i: StateId)
    requires WellFormed(t) && i < |t|
  {
    HistoryOf(t, i).Some? && HistoryOf(t, i).value in c.saved
  }

  datatype Point = Point(state: StateId, config: Config)

  /** Where doImplicitTransition goes on after `i`: along the implicit edge, unless a saved history is resumed, which
      ends the recursion. */
  function Hop(t: Tree, c: Config, i: StateId, v: Value): (r: Option<Point>)
    requires WellFormed(t) && i < |t|
    ensures r.Some? ==> r.value.state < |t| && ImplicitEdge(t, i, v) == Some(r.value.state) && !Resumes(t, c, i)
    ensures r.None? <==> ImplicitEdge(t, i, v).None? || Resumes(t, c, i)
  {
    if Resumes(t, c, i) || ImplicitEdge(t, i, v).None? then None
    else
      var x := ImplicitEdge(t, i, v).value;
      if StartOf(t, i).Some? then Some(Point(x, Finish(t, Begin(t, c, i, "", Some(i)), i, Some(x))))
      else Some(Point(x, Fire(t, c, i, "", FirstEnabled(t[i].transitions, "", v).value.id, x)))
  }

  lemma HopFires(t: Tree, c: Config, i: StateId, v: Value)
    requires WellFormed(t) && i < |t| && !t[i].kind.End? && !t[i].kind.History? && StartOf(t, i).None? && !Resumes(t, c, i)
    ensures var tr := FirstEnabled(t[i].transitions, "", v);
            if tr.None? || tr.value.target.None? then Hop(t, c, i, v) == None
            else tr.value.target.value < |t|
                 && Hop(t, c, i, v) == Some(Point(tr.value.target.value, Fire(t, c, i, "", tr.value.id, tr.value.target.value)))
  {
    assert TargetsOk(t, i);
  }

  /** The recursion that starts at `i` ends within `n` hops. */
  ghost predicate Settles(t: Tree, c: Config, i: StateId, v: Value, n: nat)
    requires WellFormed(t) && i < |t|
    decreases n
  {
    var p := Hop(t, c, i, v);
    p.Some? ==> n > 0 && Settles(t, p.value.config, p.value.state, v, n - 1)
  }

  lemma SettlesNext(t: Tree, c: Config, i: StateId, v: Value, n: nat)
    requires WellFormed(t) && i < |t| && Settles(t, c, i, v, n) && Hop(t, c, i, v).Some?
    ensures n > 0 && Settles(t, Hop(t, c, i, v).value.config, Hop(t, c, i, v).value.state, v, n - 1)
  {
    hide Hop;
  }

  /** The virtual doImplicitTransition. */
  function Settle(t: Tree, c: Config, i: StateId, v: Value, n: nat): Outcome
    requires WellFormed(t) && i < |t| && Settles(t, c, i, v, n)
    decreases n
  {
    var p := Hop(t, c, i, v);
    if p.Some? then
      SettlesNext(t, c, i, v, n);
      var r := Settle(t, p.value.config, p.value.state, v, n - 1);
      if r.next.Some? then r else Outcome(Some(p.value.state), r.config)
    else Halt(t, c, i, v)
  }

  /** The call at which the recursion ends: an end state hands over to its parent, a history to its saved state, and
      an internal implicit transition runs its action. */
  function Halt(t: Tree, c: Config, i: StateId, v: Value): Outcome
    requires WellFormed(t) && i < |t| && Hop(t, c, i, v).None?
  {
    assert ParentOk(t, i);
    if t[i].kind.End? then Outcome(t[i].parent, Finish(t, Begin(t, c, i, "", Some(i)), i, t[i].parent))
    else if t[i].kind.History? then Outcome(if i in c.saved then Some(c.saved[i]) else None, c)
    else if Resumes(t, c, i) then
      var h := HistoryOf(t, i).value;
      Outcome(Some(c.saved[h]), Resume(t, c, i, h))
    else
      var tr := FirstEnabled(t[i].transitions, "", v);
      Outcome(None, if tr.None? then c else FireInternal(t, c, i, "", tr.value.id))
  }

  /** Where the recursion ends. */
  function Rest(t: Tree, c: Config, i: StateId, v: Value, n: nat): (r: Point)
    requires WellFormed(t) && i < |t| && Settles(t, c, i, v, n)
    ensures r.state < |t| && Hop(t, r.config, r.state, v).None?
    decreases n
  {
    var p := Hop(t, c, i, v);
    if p.Some? then
      SettlesNext(t, c, i, v, n);
      Rest(t, p.value.config, p.value.state, v, n - 1)
    else Point(i, c)
  }

  /** The saved state a call of doImplicitTransition hands back, if a history gives one. */
  function Resumption(t: Tree, p: Point): Option<StateId>
    requires WellFormed(t) && p.state < |t|
  {
    var h := if t[p.state].kind.History? then Some(p.state) else HistoryOf(t, p.state);
    if h.Some? && h.value in p.config.saved then Some(p.config.saved[h.value]) else None
  }

  /** The state that handles a named event raised at `i`: the nearest ancestor-or-self with an enabled transition. */
  function Owner(t: Tree, i: StateId, event: string, v: Value): (r: Option<StateId>)
    requires WellFormed(t) && i < |t|
    ensures r.Some? ==> r.value <= i && FirstEnabled(t[r.value].transitions, event, v).Some?
  {
    assert ParentOk(t, i);
    if FirstEnabled(t[i].transitions, event, v).Some? then Some(i)
    else if t[i].parent.None? then None
    else Owner(t, t[i].parent.value, event, v)
  }

  /** The named event settles: what it fires into comes to rest. */
  ghost predicate Reacts(t: Tree, c: Config, i: StateId, event: string, v: Value, n: nat)
    requires WellFormed(t) && i < |t|
  {
    Owner(t, i, event, v).Some? ==>
      var o := Owner(t, i, event, v).value;
      var tr := FirstEnabled(t[o].transitions, event, v).value;
      tr.target.Some? ==> tr.target.value < |t| && Settles(t, Fire(t, c, o, event, tr.id, tr.target.value), tr.target.value, v, n)
  }

  /** AbstractState::doTransition for a named event. */
  function React(t: Tree, c: Config, i: StateId, event: string, v: Value, n: nat): Outcome
    requires WellFormed(t) && i < |t| && Reacts(t, c, i, event, v, n)
  {
    var o := Owner(t, i, event, v);
    if o.None? then
      var top := Root(t, i);
      Outcome(None, Finish(t, Begin(t, c, top, event, None), top, None))
    else
      var tr := FirstEnabled(t[o.value].transitions, event, v).value;
      if tr.target.None? then Outcome(None, FireInternal(t, c, o.value, event, tr.id))
      else
        var x := tr.target.value;
        var r := Settle(t, Fire(t, c, o.value, event, tr.id, x), x, v, n);
        if r.next.Some? then r else Outcome(Some(x), r.config)
  }
}

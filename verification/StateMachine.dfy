/** The engine as the program runs it: src/lib/osStateMachine/src/AbstractState.cpp, State.cpp, EndState.cpp,
    HistoryState.cpp and StateMachine.cpp, one method each, proved against the functions of Engine.dfy. */
module StateMachine {
  import opened Options
  import opened StateTree
  import opened LeastCommonAncestor
  import opened Reconfiguration
  import opened Lookup
  import opened Engine

  /** A call of doTransition that waits in the task loop. */
  datatype Raised = Raised(event: string, value: Value)

  /** The value of an event raised without one. */
  const NO_VALUE: Value := 0

  class StateMachine {
    const tree: Tree
    const root: Option<StateId>
    var current: Option<StateId>
    var saved: map<StateId, StateId>
    var journal: seq<Effect>
    var records: seq<Record>
    var pending: seq<Raised>

    ghost predicate Valid()
      reads this
    {
      && WellFormed(tree)
      && (root.Some? ==> root.value < |tree| && tree[root.value].kind.Composite?)
      && (current.Some? ==> current.value < |tree|)
      && (forall h <- saved :: saved[h] < |tree|)
    }

    ghost function Snapshot(): Config
      reads this
    {
      Config(saved, journal, records)
    }

    constructor (tree: Tree, root: Option<StateId>)
      requires WellFormed(tree) && (root.Some? ==> root.value < |tree| && tree[root.value].kind.Composite?)
      ensures Valid() && this.tree == tree && this.root == root && current == None && Snapshot() == Config(map[], [], [])
      ensures pending == []
    {
      this.tree, this.root := tree, root;
      current, saved, journal, records, pending := None, map[], [], [], [];
    }

    /** State::doEntry */
    method DoEntry(i: StateId)
      requires Valid() && i < |tree|
      modifies this`saved, this`journal
      ensures Valid() && Snapshot() == EnterState(tree, old(Snapshot()), i)
    {
      journal := journal + [Entered(i)];
      var history := ParentHistory(tree, i);
      if history.Some? {
        saved := saved[history.value := i];
      }
    }

    /** State::doExit */
    method DoExit(i: StateId)
      requires Valid() && i < |tree|
      modifies this`saved, this`journal
      ensures Valid() && Snapshot() == ExitState(tree, old(Snapshot()), i)
    {
      journal := journal + [Exited(i)];
      var history := ParentHistory(tree, i);
      if history.Some? {
        saved := saved - {history.value};
      }
    }

    /** AbstractState::doExitUntilLCAState */
    method DoExitUntilLcaState(i: StateId, lca: Option<StateId>)
      requires Valid() && i < |tree|
      modifies this`saved, this`journal
      ensures Valid() && Snapshot() == ExitAll(tree, old(Snapshot()), ExitUntil(tree, i, lca))
      decreases i
    {
      assert ParentOk(tree, i);
      ExitStep(tree, Snapshot(), i, lca);
      if AsState(tree, i) == lca {
        return;
      }
      if tree[i].kind.Composite? {
        DoExit(i);
      }
      if tree[i].parent.Some? {
        DoExitUntilLcaState(tree[i].parent.value, lca);
      }
    }

    /** AbstractState::doEntryFromLCAState */
    method DoEntryFromLcaState(i: StateId, lca: Option<StateId>)
      requires Valid() && i < |tree|
      modifies this`saved, this`journal
      ensures Valid() && Snapshot() == EnterAll(tree, old(Snapshot()), EntryFrom(tree, i, lca))
      decreases i
    {
      assert ParentOk(tree, i);
      EntryStep(tree, Snapshot(), i, lca);
      if AsState(tree, i) == lca {
        return;
      }
      if tree[i].parent.Some? {
        DoEntryFromLcaState(tree[i].parent.value, lca);
      }
      if tree[i].kind.Composite? {
        DoEntry(i);
      }
    }

    /** StateDelegate::onBeginTransition, called by a state that may lack the delegate */
    method OnBeginTransition(observer: StateId, event: string, from: Option<StateId>)
      requires Valid() && observer < |tree| && (from.Some? ==> from.value < |tree|)
      modifies this`records
      ensures Snapshot() == Begin(tree, old(Snapshot()), observer, event, from)
    {
      if !tree[observer].observed {
        return;
      }
      var record := Record(None, None, None);
      if event != "" {
        record := record.(event := Some(event));
      }
      if from.Some? {
        record := record.(from := Some(FullName(tree, from.value)));
      }
      records := records + [record];
    }

    /** StateDelegate::onEndTransition */
    method OnEndTransition(observer: StateId, to: Option<StateId>)
      requires Valid() && observer < |tree| && (to.Some? ==> to.value < |tree|)
      modifies this`records
      ensures Snapshot() == Finish(tree, old(Snapshot()), observer, to)
    {
      if !tree[observer].observed || to.None? || records == [] {
        return;
      }
      var last := |records| - 1;
      records := records[last := records[last].(to := Some(FullName(tree, to.value)))];
    }

    /** The body of doTransition once a transition is chosen, up to the implicit transitions. */
    method FireTransition(i: StateId, event: string, transition: Transition)
      requires Valid() && i < |tree| && (transition.target.Some? ==> transition.target.value < |tree|)
      modifies this`saved, this`journal, this`records
      ensures Valid()
      ensures Snapshot() == if transition.target.None?
                            then FireInternal(tree, old(Snapshot()), i, event, transition.id)
                            else Fire(tree, old(Snapshot()), i, event, transition.id, transition.target.value)
    {
      OnBeginTransition(i, event, Some(i));
      if transition.target.None? {
        journal := journal + [Acted(transition.id)];
        OnEndTransition(i, None);
        return;
      }
      var to := transition.target.value;
      var lca := if i == to then tree[i].parent else LcaState(tree, i, to);
      DoExitUntilLcaState(i, lca);
      journal := journal + [Acted(transition.id)];
      DoEntryFromLcaState(to, lca);
      OnEndTransition(i, Some(to));
    }

    /** AbstractState::doTransition for a named event; `n` bounds the hops of the settling it causes. */
    method DoTransition(i: StateId, event: string, v: Value, ghost n: nat) returns (next: Option<StateId>)
      requires Valid() && i < |tree| && event != "" && Reacts(tree, Snapshot(), i, event, v, n)
      modifies this`saved, this`journal, this`records
      ensures Valid() && (next.Some? ==> next.value < |tree|)
      ensures Outcome(next, Snapshot()) == React(tree, old(Snapshot()), i, event, v, n)
      decreases i
    {
      assert ParentOk(tree, i) && TargetsOk(tree, i);
      var transition := FirstEnabled(tree[i].transitions, event, v);
      if transition.Some? {
        FireTransition(i, event, transition.value);
        if transition.value.target.None? {
          return None;
        }
        next := DoImplicitTransition(transition.value.target.value, v, n);
        if next.None? {
          next := transition.value.target;
        }
        return;
      }
      if tree[i].parent.Some? {
        next := DoTransition(tree[i].parent.value, event, v, n);
        return;
      }
      OnBeginTransition(i, event, None);
      OnEndTransition(i, None);
      next := None;
    }

    /** AbstractState::doImplicitTransition: doTransition with the empty event, which does not bubble. */
    method DoEmptyEvent(i: StateId, v: Value, ghost n: nat) returns (next: Option<StateId>)
      requires Valid() && i < |tree| && Settles(tree, Snapshot(), i, v, n)
      requires tree[i].kind.Start? || (tree[i].kind.Composite? && StartOf(tree, i).None?)
      requires !Resumes(tree, Snapshot(), i)
      modifies this`saved, this`journal, this`records
      ensures Valid() && (next.Some? ==> next.value < |tree|)
      ensures Outcome(next, Snapshot()) == Settle(tree, old(Snapshot()), i, v, n)
      decreases n, 0
    {
      hide Hop, Fire, FireInternal;
      HopFires(tree, Snapshot(), i, v);
      var transition := FirstEnabled(tree[i].transitions, "", v);
      if transition.None? {
        return None;
      }
      FireTransition(i, "", transition.value);
      if transition.value.target.None? {
        return None;
      }
      next := DoImplicitTransition(transition.value.target.value, v, n - 1);
      if next.None? {
        next := transition.value.target;
      }
    }

    /** The virtual doImplicitTransition: EndState, HistoryState, State and, for StartState, AbstractState. */
    method DoImplicitTransition(i: StateId, v: Value, ghost n: nat) returns (next: Option<StateId>)
      requires Valid() && i < |tree| && Settles(tree, Snapshot(), i, v, n)
      modifies this`saved, this`journal, this`records
      ensures Valid() && (next.Some? ==> next.value < |tree|)
      ensures Outcome(next, Snapshot()) == Settle(tree, old(Snapshot()), i, v, n)
      decreases n, 1
    {
      assert ParentOk(tree, i);
      match tree[i].kind
      case End =>
        OnBeginTransition(i, "", Some(i));
        OnEndTransition(i, tree[i].parent);
        next := tree[i].parent;
      case History =>
        next := if i in saved then Some(saved[i]) else None;
      case Start =>
        next := DoEmptyEvent(i, v, n);
      case Composite =>
        var history := HistoryOf(tree, i);
        if history.Some? && history.value in saved {
          next := Some(saved[history.value]);
          OnBeginTransition(i, "", history);
          OnEndTransition(i, next);
          return;
        }
        var start := StartOf(tree, i);
        if start.None? {
          next := DoEmptyEvent(i, v, n);
          return;
        }
        OnBeginTransition(i, "", Some(i));
        OnEndTransition(i, start);
        next := DoEmptyEvent(start.value, v, n - 1);
        if next.None? {
          next := start;
        }
    }

    /** StateMachine::doTransition: one raised event. The record list is logged and cleared afterwards. */
    method HandleEvent(event: string, v: Value, ghost n: nat) returns (logged: seq<Record>)
      requires Valid()
      requires current.Some? ==>
                 if event == "" then Settles(tree, Snapshot(), current.value, v, n)
                 else Reacts(tree, Snapshot(), current.value, event, v, n)
      modifies this`current, this`saved, this`journal, this`records
      ensures Valid()
      ensures old(current).None? ==> current.None? && Snapshot() == old(Snapshot()) && logged == []
      ensures old(current).Some? ==>
                var i := old(current).value;
                var r := if event == "" then Settle(tree, old(Snapshot()), i, v, n) else React(tree, old(Snapshot()), i, event, v, n);
                && current == Some(if r.next.Some? then r.next.value else i)
                && logged == r.config.records
                && Snapshot() == r.config.(records := [])
    {
      if current.None? {
        return [];
      }
      var next: Option<StateId>;
      if event == "" {
        next := DoImplicitTransition(current.value, v, n);
      } else {
        next := DoTransition(current.value, event, v, n);
      }
      if next.Some? {
        current := next;
      }
      logged := records;
      records := [];
    }

    /** StateMachine::raiseEvent: the event joins the task loop; false stands for the exception. */
    method RaiseEvent(event: string, v: Value) returns (ok: bool)
      requires Valid()
      modifies this`pending
      ensures Valid() && ok == current.Some?
      ensures pending == if ok then old(pending) + [Raised(event, v)] else old(pending)
    {
      ok := current.Some?;
      if ok {
        pending := pending + [Raised(event, v)];
      }
    }

    /** StateMachine::start, in a task loop that is running or not: false stands for the exceptions. */
    method Start(running: bool) returns (ok: bool)
      requires Valid()
      modifies this`current, this`pending
      ensures Valid() && ok == (root.Some? && running)
      ensures current == if ok then root else old(current)
      ensures pending == if ok then old(pending) + [Raised("", NO_VALUE)] else old(pending)
    {
      if root.None? || !running {
        return false;
      }
      current := root;
      ok := RaiseEvent("", NO_VALUE);
    }

    /** StateMachine::stop: false stands for the exception. */
    method Stop() returns (ok: bool)
      requires Valid()
      modifies this`current
      ensures Valid() && ok == old(current).Some? && current.None?
    {
      ok := current.Some?;
      current := None;
    }
  }
}

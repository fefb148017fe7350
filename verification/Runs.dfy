/** Whole runs of a state machine, with restarts: what is entered and not yet exited, against the chain of the current
    state (src/lib/osStateMachine/src/StateMachine.cpp:178-263). */
module Runs {
  import opened Options
  import opened Sequences
  import opened StateTree
  import opened Reconfiguration
  import opened Lookup
  import opened Engine
  import opened History
  import opened Balance

  /** What happens to a machine: an event is handled, or the machine is stopped and started again. An event handled in
      between does nothing. Stopping and starting keep histories and effects as they are. */
  datatype Step = Raise(event: Event) | Restart

  ghost function Do(t: Tree, root: StateId, m: Machine, step: Step): Machine
    requires WellFormed(t) && root < |t| && m.current < |t| && Proceeds(t, root, m, step)
  {
    match step
    case Raise(e) => Handle(t, m, e)
    case Restart => Machine(root, m.config)
  }

  /** The event comes to rest; the machine is restarted while its root is entered. */
  ghost predicate Proceeds(t: Tree, root: StateId, m: Machine, step: Step)
    requires WellFormed(t) && root < |t| && m.current < |t|
  {
    match step
    case Raise(e) => Rests(t, m, e)
    case Restart => RootEntered(t, root, m)
  }

  /** The root and its ancestors are entered and not yet exited. */
  ghost predicate RootEntered(t: Tree, root: StateId, m: Machine)
    requires WellFormed(t) && root < |t|
  {
    forall s :: Active(OnChain(t, root, s), m.config.journal, s) >= OnChain(t, root, s)
  }

  /** A restart keeps a machine sound exactly while the root is entered. */
  lemma RestartKeepsSoundIff(t: Tree, root: StateId, m: Machine)
    requires WellFormed(t) && root < |t| && Sound(t, root, m)
    ensures Sound(t, root, Machine(root, m.config)) <==> RootEntered(t, root, m)
  {
    hide Active, OnChain, Remembers;
    var restarted := Machine(root, m.config);
    assert forall s :: Surplus(t, OnChain(t, root, s), restarted, s) == Active(OnChain(t, root, s), m.config.journal, s) - OnChain(t, root, s);
    if RootEntered(t, root, m) {
      forall s
        ensures Surplus(t, OnChain(t, root, s), restarted, s) >= 0
      {
        assert Active(OnChain(t, root, s), m.config.journal, s) >= OnChain(t, root, s);
      }
    }
  }

  /** The chain of the root is a prefix of the chain of the current state. */
  ghost predicate BelowRoot(t: Tree, root: StateId, m: Machine)
    requires WellFormed(t) && root < |t| && m.current < |t|
  {
    StateChain(t, root) <= StateChain(t, m.current)
  }

  /** Below its root a sound machine can always be restarted. */
  lemma BelowRootEntered(t: Tree, root: StateId, m: Machine)
    requires WellFormed(t) && root < |t| && Sound(t, root, m) && BelowRoot(t, root, m)
    ensures RootEntered(t, root, m)
  {
    hide Active, Count, StateChain;
    var rest := StateChain(t, m.current)[|StateChain(t, root)|..];
    assert StateChain(t, m.current) == StateChain(t, root) + rest;
    forall s
      ensures Active(OnChain(t, root, s), m.config.journal, s) >= OnChain(t, root, s)
    {
      CountAppend(StateChain(t, root), rest, s);
      assert Surplus(t, OnChain(t, root, s), m, s) >= 0;
    }
  }

  /** In a single hierarchy a machine started in its topmost state is always below it. */
  lemma TopIsAbove(t: Tree, root: StateId, m: Machine)
    requires WellFormed(t) && OneTree(t) && root == 0 && |t| > 0 && m.current < |t|
    ensures BelowRoot(t, root, m)
  {
    assert ParentOk(t, root);
    TopOfChain(t, m.current);
    TopOfChain(t, root);
    assert StateChain(t, m.current)[..1] == [root];
  }

  lemma {:induction false} TopOfPath(t: Tree, i: StateId)
    requires WellFormed(t) && i < |t|
    ensures Path(t, i) != [] && Path(t, i)[0] == Root(t, i) && t[Root(t, i)].kind.Composite?
    decreases i
  {
    assert ParentOk(t, i);
    if t[i].parent.Some? { TopOfPath(t, t[i].parent.value); }
  }

  lemma TopOfChain(t: Tree, i: StateId)
    requires WellFormed(t) && i < |t|
    ensures StateChain(t, i) != [] && StateChain(t, i)[0] == Root(t, i)
    ensures t[i].parent.None? ==> StateChain(t, i) == [i]
  {
    TopOfPath(t, i);
    assert ParentOk(t, i);
    if t[i].parent.Some? { TopOfPath(t, t[i].parent.value); }
  }

  /** What the step leaves entered besides the chain of the new current state. */
  ghost function Left(t: Tree, root: StateId, m: Machine, step: Step, s: StateId): int
    requires WellFormed(t) && root < |t| && m.current < |t|
  {
    match step
    case Raise(e) => Count(LeftBehind(t, m.current, e.name, e.value), s)
    case Restart => OnChain(t, m.current, s) - OnChain(t, root, s)
  }

  /** What the step resumes from a history. */
  ghost function Back(t: Tree, root: StateId, m: Machine, step: Step): Option<StateId>
    requires WellFormed(t) && root < |t| && m.current < |t| && Proceeds(t, root, m, step)
  {
    match step
    case Raise(e) => ResumedBy(t, m, e)
    case Restart => None
  }

  lemma StepKeepsSound(t: Tree, root: StateId, m: Machine, step: Step)
    requires WellFormed(t) && Coherent(t) && root < |t| && Sound(t, root, m) && Proceeds(t, root, m, step)
    ensures Sound(t, root, Do(t, root, m, step))
  {
    hide Sound, Handle, RootEntered, Rests;
    match step
    case Raise(e) => SoundInRange(t, root, m); HandleKeepsSound(t, root, m, e);
    case Restart => RestartKeepsSoundIff(t, root, m);
  }

  lemma SoundInRange(t: Tree, root: StateId, m: Machine)
    requires WellFormed(t) && root < |t| && Sound(t, root, m)
    ensures m.current < |t|
  {
  }

  /** One step changes the surplus by exactly what it leaves behind and what it resumes. */
  lemma StepSurplus(t: Tree, root: StateId, m: Machine, step: Step, s: StateId)
    requires WellFormed(t) && Coherent(t) && root < |t| && Sound(t, root, m) && Proceeds(t, root, m, step)
    ensures var m' := Do(t, root, m, step);
            && m'.current < |t|
            && Surplus(t, OnChain(t, root, s), m', s)
               == Surplus(t, OnChain(t, root, s), m, s) + Left(t, root, m, step, s) - If(Back(t, root, m, step) == Some(s))
  {
    hide Handle, RootEntered, Rests, Remembers, Active, OnChain, LeftBehind, ResumedBy, Count;
    match step
    case Raise(e) => HandleSurplus(t, OnChain(t, root, s), m, e, s);
    case Restart =>
  }

  /** Every event of the run comes to rest where the run raises it, and every restart finds the root entered. */
  ghost predicate RunProceeds(t: Tree, root: StateId, steps: seq<Step>)
    requires WellFormed(t) && Coherent(t) && root < |t|
    decreases |steps|, 0
  {
    steps == [] ||
    var init, last := steps[..|steps| - 1], steps[|steps| - 1];
    RunProceeds(t, root, init) && Proceeds(t, root, Run(t, root, init), last)
  }

  /** The machine after a list of steps. Safety of every run, with any guards, histories, end states and restarts:
      whatever happens, the current state and all its ancestors are entered and not exited, and every history state holds
      the last child entered and not left. */
  ghost function Run(t: Tree, root: StateId, steps: seq<Step>): (m: Machine)
    requires WellFormed(t) && Coherent(t) && root < |t| && RunProceeds(t, root, steps)
    ensures Sound(t, root, m)
    decreases |steps|, 1
  {
    if steps == [] then Started(root)
    else
      var before := Run(t, root, steps[..|steps| - 1]);
      StepKeepsSound(t, root, before, steps[|steps| - 1]);
      Do(t, root, before, steps[|steps| - 1])
  }

  /** Where implicit edges have ranks for the values of the events, every event of every run comes to rest; in a single
      hierarchy started in its topmost state every restart succeeds too. */
  lemma {:induction false} RankedRunProceeds(t: Tree, root: StateId, steps: seq<Step>)
    requires WellFormed(t) && Coherent(t) && root < |t|
    requires forall k :: 0 <= k < |steps| && steps[k].Raise? ==> Ranked(t, steps[k].event.value)
    requires Restart in steps ==> OneTree(t) && root == 0
    ensures RunProceeds(t, root, steps)
    decreases |steps|
  {
    hide Ranked, Rests, Run, RootEntered, BelowRoot;
    if steps != [] {
      var init, last := steps[..|steps| - 1], steps[|steps| - 1];
      assert steps == init + [last];
      RankedRunProceeds(t, root, init);
      var m := Run(t, root, init);
      match last
      case Raise(e) => RankedRests(t, m, e);
      case Restart => TopIsAbove(t, root, m); BelowRootEntered(t, root, m);
    }
  }

  /** How often a run left `s` behind. */
  ghost function TotalLeftBehind(t: Tree, root: StateId, steps: seq<Step>, s: StateId): int
    requires WellFormed(t) && Coherent(t) && root < |t| && RunProceeds(t, root, steps)
    decreases |steps|
  {
    if steps == [] then 0
    else
      var init := steps[..|steps| - 1];
      TotalLeftBehind(t, root, init, s) + Left(t, root, Run(t, root, init), steps[|steps| - 1], s)
  }

  /** How often a run resumed `s` from a history. */
  ghost function TotalResumed(t: Tree, root: StateId, steps: seq<Step>, s: StateId): nat
    requires WellFormed(t) && Coherent(t) && root < |t| && RunProceeds(t, root, steps)
    decreases |steps|
  {
    if steps == [] then 0
    else
      var init := steps[..|steps| - 1];
      TotalResumed(t, root, init, s) + If(Back(t, root, Run(t, root, init), steps[|steps| - 1]) == Some(s))
  }

  /** Conservation over every run: entered but not exited is the current chain, plus for each event what lay strictly
      below the state that handled it and for each restart what lay below the root, less what histories resumed. */
  lemma {:induction false} SurplusOfRun(t: Tree, root: StateId, steps: seq<Step>, s: StateId)
    requires WellFormed(t) && Coherent(t) && root < |t| && RunProceeds(t, root, steps)
    ensures Surplus(t, OnChain(t, root, s), Run(t, root, steps), s)
         == TotalLeftBehind(t, root, steps, s) - TotalResumed(t, root, steps, s)
    decreases |steps|
  {
    hide Do, Proceeds, Surplus, Left, Back, Remembers;
    if steps == [] {
      NothingDone(t, root, s);
    } else {
      var init := steps[..|steps| - 1];
      SurplusOfRun(t, root, init, s);
      StepSurplus(t, root, Run(t, root, init), steps[|steps| - 1], s);
    }
  }

  lemma NothingDone(t: Tree, root: StateId, s: StateId)
    requires WellFormed(t) && root < |t|
    ensures Surplus(t, OnChain(t, root, s), Started(root), s) == 0
  {
  }

  /** Exactly the chain of the current state is entered and not exited. */
  ghost predicate Exact(t: Tree, root: StateId, m: Machine)
    requires WellFormed(t) && root < |t| && m.current < |t|
  {
    forall s :: Surplus(t, OnChain(t, root, s), m, s) == 0
  }

  /** Histories have resumed every state as often as the run left it behind. */
  ghost predicate AllResumed(t: Tree, root: StateId, steps: seq<Step>)
    requires WellFormed(t) && Coherent(t) && root < |t| && RunProceeds(t, root, steps)
  {
    forall s :: TotalLeftBehind(t, root, steps, s) == TotalResumed(t, root, steps, s)
  }

  /** Exactness of any run: it ends with exactly the current chain entered if and only if histories have resumed every
      state as often as it was left behind. */
  lemma ExactIffAllResumed(t: Tree, root: StateId, steps: seq<Step>)
    requires WellFormed(t) && Coherent(t) && root < |t| && RunProceeds(t, root, steps)
    ensures Exact(t, root, Run(t, root, steps)) <==> AllResumed(t, root, steps)
  {
    hide Surplus, TotalLeftBehind, TotalResumed, Run, RunProceeds;
    forall s
      ensures Surplus(t, OnChain(t, root, s), Run(t, root, steps), s)
           == TotalLeftBehind(t, root, steps, s) - TotalResumed(t, root, steps, s)
    {
      SurplusOfRun(t, root, steps, s);
    }
  }

  // ----- runs without histories

  /** The event is ignored, handled internally, or handled by a state with the very chain of the current one; a restart
      finds the machine in a state with the chain of the root. */
  ghost predicate OwnedByCurrent(t: Tree, root: StateId, m: Machine, step: Step)
    requires WellFormed(t) && root < |t| && m.current < |t|
  {
    match step
    case Restart => StateChain(t, m.current) == StateChain(t, root)
    case Raise(e) =>
      var o := Owner(t, m.current, e.name, e.value);
      || e.name == ""
      || o.None?
      || FirstEnabled(t[o.value].transitions, e.name, e.value).value.target.None?
      || StateChain(t, o.value) == StateChain(t, m.current)
  }

  /** So is every step of the run, where the run takes it. */
  ghost predicate AlwaysOwned(t: Tree, root: StateId, steps: seq<Step>)
    requires WellFormed(t) && Coherent(t) && root < |t| && RunProceeds(t, root, steps)
    decreases |steps|
  {
    steps == [] ||
    var init, last := steps[..|steps| - 1], steps[|steps| - 1];
    AlwaysOwned(t, root, init) && OwnedByCurrent(t, root, Run(t, root, init), last)
  }

  /** Every restart finds the machine below its root. */
  ghost predicate RestartsBelow(t: Tree, root: StateId, steps: seq<Step>)
    requires WellFormed(t) && Coherent(t) && root < |t| && RunProceeds(t, root, steps)
    decreases |steps|
  {
    steps == [] ||
    var init, last := steps[..|steps| - 1], steps[|steps| - 1];
    RestartsBelow(t, root, init) && (last.Restart? ==> BelowRoot(t, root, Run(t, root, init)))
  }

  /** Exactness of a run without histories whose restarts happen below the root: it ends with exactly the current chain
      entered if and only if every transition was fired by a state with the same chain as the state that was current, and
      every restart found the machine on the chain of its root. */
  lemma ExactIffOwnedByCurrent(t: Tree, root: StateId, steps: seq<Step>)
    requires WellFormed(t) && Coherent(t) && root < |t| && RunProceeds(t, root, steps) && HistoryFree(t)
    requires RestartsBelow(t, root, steps)
    ensures Exact(t, root, Run(t, root, steps)) <==> AlwaysOwned(t, root, steps)
  {
    hide Run, RunProceeds, AlwaysOwned, RestartsBelow, Exact, TotalLeftBehind, TotalResumed;
    ExactIffAllResumed(t, root, steps);
    NothingLeftBehindIff(t, root, steps);
    forall s
      ensures TotalResumed(t, root, steps, s) == 0
    {
      NothingResumed(t, root, steps, s);
    }
  }

  lemma {:induction false} NothingResumed(t: Tree, root: StateId, steps: seq<Step>, s: StateId)
    requires WellFormed(t) && Coherent(t) && root < |t| && RunProceeds(t, root, steps) && HistoryFree(t)
    ensures TotalResumed(t, root, steps, s) == 0
    decreases |steps|
  {
    hide Run, Rests, ResumedBy, RootEntered;
    if steps != [] {
      NothingResumed(t, root, steps[..|steps| - 1], s);
      var last := steps[|steps| - 1];
      if last.Raise? { NoHistoryResumes(t, Run(t, root, steps[..|steps| - 1]), last.event); }
    }
  }

  lemma NoHistoryResumes(t: Tree, m: Machine, e: Event)
    requires WellFormed(t) && Coherent(t) && m.current < |t| && Rests(t, m, e) && HistoryFree(t)
    ensures ResumedBy(t, m, e) == None
  {
    hide Rest, Settles, Fire;
  }

  ghost predicate LeavesNothing(t: Tree, root: StateId, m: Machine, step: Step)
    requires WellFormed(t) && root < |t| && m.current < |t|
  {
    forall s :: Left(t, root, m, step, s) == 0
  }

  /** A step of such a run leaves nothing behind if and only if it is owned by the current state. */
  lemma OwnedByCurrentIff(t: Tree, root: StateId, m: Machine, step: Step)
    requires WellFormed(t) && root < |t| && m.current < |t| && (step.Restart? ==> BelowRoot(t, root, m))
    ensures OwnedByCurrent(t, root, m, step) <==> LeavesNothing(t, root, m, step)
    ensures forall s :: Left(t, root, m, step, s) >= 0
  {
    hide Count;
    var left := LeftOver(t, root, m, step);
    forall s
      ensures Left(t, root, m, step, s) == Count(left, s)
    {
      LeftIsCounted(t, root, m, step, s);
    }
    OwnedIffNoneOver(t, root, m, step);
    if left == [] {
      forall s ensures Count(left, s) == 0 { NothingCounted(s); }
    } else {
      CountHead(left, left[0]);
      assert Left(t, root, m, step, left[0]) > 0;
    }
  }

  /** What the step leaves behind, as a list. */
  ghost function LeftOver(t: Tree, root: StateId, m: Machine, step: Step): seq<StateId>
    requires WellFormed(t) && root < |t| && m.current < |t| && (step.Restart? ==> BelowRoot(t, root, m))
  {
    match step
    case Raise(e) => LeftBehind(t, m.current, e.name, e.value)
    case Restart => StateChain(t, m.current)[|StateChain(t, root)|..]
  }

  lemma LeftIsCounted(t: Tree, root: StateId, m: Machine, step: Step, s: StateId)
    requires WellFormed(t) && root < |t| && m.current < |t| && (step.Restart? ==> BelowRoot(t, root, m))
    ensures Left(t, root, m, step, s) == Count(LeftOver(t, root, m, step), s)
  {
    hide Count, LeftBehind;
    if step.Restart? {
      assert StateChain(t, m.current) == StateChain(t, root) + LeftOver(t, root, m, step);
      CountAppend(StateChain(t, root), LeftOver(t, root, m, step), s);
    }
  }

  lemma OwnedIffNoneOver(t: Tree, root: StateId, m: Machine, step: Step)
    requires WellFormed(t) && root < |t| && m.current < |t| && (step.Restart? ==> BelowRoot(t, root, m))
    ensures OwnedByCurrent(t, root, m, step) <==> LeftOver(t, root, m, step) == []
  {
    match step
    case Raise(e) =>
      var o := Owner(t, m.current, e.name, e.value);
      if o.Some? { OwnerChain(t, m.current, e.name, e.value); }
    case Restart =>
  }

  ghost predicate NothingLeftBehind(t: Tree, root: StateId, steps: seq<Step>)
    requires WellFormed(t) && Coherent(t) && root < |t| && RunProceeds(t, root, steps)
  {
    forall s :: TotalLeftBehind(t, root, steps, s) == 0
  }

  lemma {:induction false} NothingLeftBehindIff(t: Tree, root: StateId, steps: seq<Step>)
    requires WellFormed(t) && Coherent(t) && root < |t| && RunProceeds(t, root, steps) && RestartsBelow(t, root, steps)
    ensures NothingLeftBehind(t, root, steps) <==> AlwaysOwned(t, root, steps)
    ensures forall s :: TotalLeftBehind(t, root, steps, s) >= 0
    decreases |steps|
  {
    hide Run, Proceeds, NothingLeftBehind, LeavesNothing, OwnedByCurrent, BelowRoot, Left;
    if steps == [] {
      NothingYet(t, root);
    } else {
      var init, last := steps[..|steps| - 1], steps[|steps| - 1];
      NothingLeftBehindIff(t, root, init);
      OwnedByCurrentIff(t, root, Run(t, root, init), last);
      assert steps == init + [last];
      LastLeavesNothingIff(t, root, init, last);
    }
  }

  lemma NothingYet(t: Tree, root: StateId)
    requires WellFormed(t) && Coherent(t) && root < |t|
    ensures NothingLeftBehind(t, root, [])
  {
  }

  lemma LastLeavesNothingIff(t: Tree, root: StateId, init: seq<Step>, last: Step)
    requires WellFormed(t) && Coherent(t) && root < |t| && RunProceeds(t, root, init + [last]) && RunProceeds(t, root, init)
    requires forall s :: TotalLeftBehind(t, root, init, s) >= 0
    requires forall s :: Left(t, root, Run(t, root, init), last, s) >= 0
    ensures NothingLeftBehind(t, root, init + [last]) <==>
              NothingLeftBehind(t, root, init) && LeavesNothing(t, root, Run(t, root, init), last)
    ensures forall s :: TotalLeftBehind(t, root, init + [last], s) >= 0
  {
    hide Left, Run, RunProceeds;
    assert (init + [last])[..|init|] == init;
    forall s
      ensures TotalLeftBehind(t, root, init + [last], s) == TotalLeftBehind(t, root, init, s) + Left(t, root, Run(t, root, init), last, s)
    {
    }
  }
}

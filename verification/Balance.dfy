/** One event of a state machine: what is entered and not yet exited, against the chain of the current state.

    An event raised at the current state may be handled by an ancestor. The exits then start at that ancestor
    (src/lib/osStateMachine/src/AbstractState.cpp:125-130), so the states below it stay entered; this is what
    lets a history state find its saved child again. Everything is counted for one state `s` at a time. */
module Balance {
  import opened Options
  import opened Sequences
  import opened StateTree
  import opened Reconfiguration
  import opened Lookup
  import opened Settling
  import opened Engine
  import opened History

  /** Entries of `s` not yet followed by an exit, over a journal. */
  ghost function Active(start: nat, journal: seq<Effect>, s: StateId): nat {
    if journal == [] then start
    else Applied(Active(start, journal[..|journal| - 1], s), journal[|journal| - 1], s)
  }

  ghost function Applied(a: nat, e: Effect, s: StateId): nat {
    if e == Entered(s) then a + 1 else if e == Exited(s) && a > 0 then a - 1 else a
  }

  /** How often `s` is on the chain of `i`. */
  ghost function OnChain(t: Tree, i: StateId, s: StateId): nat
    requires WellFormed(t) && i < |t|
  {
    Count(StateChain(t, i), s)
  }

  /** The entries of `s` not yet exited are its place on the chain of `i`, and `extra` besides. */
  ghost predicate Balanced(t: Tree, start: nat, journal: seq<Effect>, i: StateId, s: StateId, extra: nat)
    requires WellFormed(t) && i < |t|
  {
    Active(start, journal, s) == OnChain(t, i, s) + extra
  }

  // ----- one firing

  lemma ActiveAppend(start: nat, journal: seq<Effect>, e: Effect, s: StateId)
    ensures Active(start, journal + [e], s) == Applied(Active(start, journal, s), e, s)
  {
  }

  lemma {:induction false} ActiveAfterExits(t: Tree, start: nat, c: Config, ss: seq<StateId>, s: StateId)
    requires WellFormed(t) && Known(t, ss) && Count(ss, s) <= Active(start, c.journal, s)
    ensures Active(start, ExitAll(t, c, ss).journal, s) == Active(start, c.journal, s) - Count(ss, s)
    decreases |ss|
  {
    hide Active;
    if ss != [] {
      ActiveAppend(start, c.journal, Exited(ss[0]), s);
      CountHead(ss, s);
      ActiveAfterExits(t, start, ExitState(t, c, ss[0]), ss[1..], s);
    }
  }

  lemma {:induction false} ActiveAfterEntries(t: Tree, start: nat, c: Config, ss: seq<StateId>, s: StateId)
    requires WellFormed(t) && Known(t, ss)
    ensures Active(start, EnterAll(t, c, ss).journal, s) == Active(start, c.journal, s) + Count(ss, s)
    decreases |ss|
  {
    hide Active;
    if ss != [] {
      var init := ss[..|ss| - 1];
      ActiveAfterEntries(t, start, c, init, s);
      ActiveAppend(start, EnterAll(t, c, init).journal, Entered(ss[|ss| - 1]), s);
    }
  }

  lemma FireActive(t: Tree, start: nat, c: Config, i: StateId, event: string, id: nat, to: StateId, s: StateId)
    requires WellFormed(t) && i < |t| && to < |t| && Count(Exits(t, i, to), s) <= Active(start, c.journal, s)
    ensures Active(start, Fire(t, c, i, event, id, to).journal, s)
            == Active(start, c.journal, s) - Count(Exits(t, i, to), s) + Count(Entries(t, i, to), s)
  {
    var c0 := Begin(t, c, i, event, Some(i));
    var c1 := ExitAll(t, c0, Exits(t, i, to));
    ActiveAfterExits(t, start, c0, Exits(t, i, to), s);
    ActiveAppend(start, c1.journal, Acted(id), s);
    ActiveAfterEntries(t, start, c1.(journal := c1.journal + [Acted(id)]), Entries(t, i, to), s);
  }

  /** A transition that reconfigures exchanges the chain of its source for the chain of its target. */
  lemma FireKeepsBalance(t: Tree, start: nat, c: Config, i: StateId, event: string, id: nat, to: StateId,
                         s: StateId, extra: nat)
    requires WellFormed(t) && i < |t| && to < |t| && Joined(t, i, to) && Balanced(t, start, c.journal, i, s, extra)
    ensures Balanced(t, start, Fire(t, c, i, event, id, to).journal, to, s, extra)
  {
    ReconfiguresIff(t, i, to);
    CountReverse(Exits(t, i, to), s);
    CountAppend(Kept(t, i, to), Reverse(Exits(t, i, to)), s);
    CountAppend(Kept(t, i, to), Entries(t, i, to), s);
    FireActive(t, start, c, i, event, id, to, s);
  }

  // ----- settling

  ghost function Landing(r: Outcome, i: StateId): StateId {
    if r.next.Some? then r.next.value else i
  }

  ghost predicate HistoryFree(t: Tree) {
    forall i: StateId :: i < |t| ==> !t[i].kind.History?
  }

  lemma {:induction false} LastChildIsActive(t: Tree, start: nat, journal: seq<Effect>, p: StateId)
    requires LastChild(t, journal, p).Some?
    ensures IsChild(t, LastChild(t, journal, p).value, p)
    ensures Active(start, journal, LastChild(t, journal, p).value) > 0
    decreases |journal|
  {
    var rest, e := journal[..|journal| - 1], journal[|journal| - 1];
    if e.Acted? || !IsChild(t, e.state, p) { LastChildIsActive(t, start, rest, p); }
  }

  lemma {:induction false} PathBelow(t: Tree, i: StateId, s: StateId)
    requires WellFormed(t) && i < |t| && i < s
    ensures Count(Path(t, i), s) == 0
  {
    assert ParentOk(t, i);
    if t[i].parent.Some? {
      PathBelow(t, t[i].parent.value, s);
      CountAppend(Path(t, t[i].parent.value), [i], s);
    }
  }

  ghost function If(b: bool): nat {
    if b then 1 else 0
  }

  /** A saved state is entered: it joins the chain of its parent and leaves the extra states. */
  lemma SavedIsActive(t: Tree, start: nat, c: Config, p: StateId, h: StateId, s: StateId, extra: nat)
    requires WellFormed(t) && p < |t| && t[p].kind.Composite? && Serves(t, h, p)
    requires Remembers(t, c) && h in c.saved && Balanced(t, start, c.journal, p, s, extra)
    ensures c.saved[h] < |t|
    ensures extra >= If(s == c.saved[h]) && Balanced(t, start, c.journal, c.saved[h], s, extra - If(s == c.saved[h]))
  {
    var x := c.saved[h];
    LastChildIsState(t, c.journal, p);
    LastChildIsActive(t, start, c.journal, p);
    assert ParentOk(t, x) && StateChain(t, x) == Path(t, p) + [x] && StateChain(t, p) == Path(t, p);
    CountAppend(Path(t, p), [x], s);
    if s == x { PathBelow(t, p, x); }
  }

  /** The outcome `r` of a transition function called on `i` is balanced on the state it lands on. */
  ghost predicate LandsBalanced(t: Tree, start: nat, r: Outcome, i: StateId, s: StateId, extra: nat)
    requires WellFormed(t) && i < |t|
  {
    Landing(r, i) < |t| && Balanced(t, start, r.config.journal, Landing(r, i), s, extra)
  }

  /** A hop keeps the balance. */
  lemma HopKeepsBalance(t: Tree, start: nat, c: Config, i: StateId, v: Value, s: StateId, extra: nat)
    requires WellFormed(t) && Coherent(t) && i < |t| && Hop(t, c, i, v).Some? && Balanced(t, start, c.journal, i, s, extra)
    ensures Balanced(t, start, Hop(t, c, i, v).value.config.journal, Hop(t, c, i, v).value.state, s, extra)
  {
    hide Fire, Active, Count;
    var x := Hop(t, c, i, v).value.state;
    if StartOf(t, i).Some? {
      assert ParentOk(t, i) && StateChain(t, x) == StateChain(t, i);
    } else {
      FireKeepsBalance(t, start, c, i, "", FirstEnabled(t[i].transitions, "", v).value.id, x, s, extra);
    }
  }

  /** Where the recursion ends, a resumed state leaves the extra ones and nothing else changes them. */
  lemma HaltKeepsBalance(t: Tree, start: nat, c: Config, i: StateId, v: Value, s: StateId, extra: nat)
    requires WellFormed(t) && i < |t| && Hop(t, c, i, v).None? && Remembers(t, c) && Balanced(t, start, c.journal, i, s, extra)
    ensures extra >= If(Resumption(t, Point(i, c)) == Some(s))
    ensures LandsBalanced(t, start, Halt(t, c, i, v), i, s, extra - If(Resumption(t, Point(i, c)) == Some(s)))
  {
    hide Hop, Active, Count;
    assert ParentOk(t, i);
    if t[i].kind.History? {
      if i in c.saved { SavedIsActive(t, start, c, t[i].parent.value, i, s, extra); }
    } else if Resumes(t, c, i) {
      SavedIsActive(t, start, c, i, HistoryOf(t, i).value, s, extra);
    } else if !t[i].kind.End? && FirstEnabled(t[i].transitions, "", v).Some? {
      ActiveAppend(start, c.journal, Acted(FirstEnabled(t[i].transitions, "", v).value.id), s);
    }
  }

  /** Settling keeps the chain of the state it lands on among the entered states; a resumed history takes the
      resumed state out of the extra ones, and nothing else changes them. */
  lemma {:induction false} SettleKeepsBalance(t: Tree, start: nat, c: Config, i: StateId, v: Value, n: nat, s: StateId, extra: nat)
    requires WellFormed(t) && Coherent(t) && i < |t| && Settles(t, c, i, v, n)
    requires Remembers(t, c) && Balanced(t, start, c.journal, i, s, extra)
    ensures extra >= If(Resumption(t, Rest(t, c, i, v, n)) == Some(s))
    ensures LandsBalanced(t, start, Settle(t, c, i, v, n), i, s, extra - If(Resumption(t, Rest(t, c, i, v, n)) == Some(s)))
    decreases n
  {
    hide Hop, Halt, Balanced, Remembers, Resumption;
    var p := Hop(t, c, i, v);
    if p.Some? {
      SettlesNext(t, c, i, v, n);
      HopRemembers(t, c, i, v);
      HopKeepsBalance(t, start, c, i, v, s, extra);
      SettleKeepsBalance(t, start, p.value.config, p.value.state, v, n - 1, s, extra);
    } else {
      HaltKeepsBalance(t, start, c, i, v, s, extra);
    }
  }

  // ----- a named event

  /** The chain of the state that handles an event is a prefix of the chain of the state it was raised at. */
  lemma {:induction false} OwnerChain(t: Tree, i: StateId, event: string, v: Value)
    requires WellFormed(t) && i < |t| && Owner(t, i, event, v).Some?
    ensures StateChain(t, Owner(t, i, event, v).value) <= StateChain(t, i)
  {
    assert ParentOk(t, i);
    if FirstEnabled(t[i].transitions, event, v).None? {
      OwnerChain(t, t[i].parent.value, event, v);
    }
  }

  /** The states an event leaves entered without their being current: those strictly below the owner of the
      external transition it fires. */
  ghost function LeftBehind(t: Tree, i: StateId, event: string, v: Value): seq<StateId>
    requires WellFormed(t) && i < |t|
  {
    var o := Owner(t, i, event, v);
    if event == "" || o.None? || FirstEnabled(t[o.value].transitions, event, v).value.target.None? then []
    else
      OwnerChain(t, i, event, v);
      StateChain(t, i)[|StateChain(t, o.value)|..]
  }

  /** What a named event resumes. */
  ghost function Resumed(t: Tree, c: Config, i: StateId, event: string, v: Value, n: nat): Option<StateId>
    requires WellFormed(t) && i < |t|
    requires if event == "" then Settles(t, c, i, v, n) else Reacts(t, c, i, event, v, n)
  {
    if event == "" then Resumption(t, Rest(t, c, i, v, n))
    else
      var o := Owner(t, i, event, v);
      if o.None? then None
      else
        var tr := FirstEnabled(t[o.value].transitions, event, v).value;
        if tr.target.None? then None
        else Resumption(t, Rest(t, Fire(t, c, o.value, event, tr.id, tr.target.value), tr.target.value, v, n))
  }

  /** What lies below the owner of a fired transition is extra to the chain of the owner. */
  lemma OwnerBalance(t: Tree, start: nat, journal: seq<Effect>, i: StateId, event: string, v: Value, s: StateId, extra: nat)
    requires WellFormed(t) && i < |t| && event != "" && Balanced(t, start, journal, i, s, extra)
    requires Owner(t, i, event, v).Some? && FirstEnabled(t[Owner(t, i, event, v).value].transitions, event, v).value.target.Some?
    ensures Balanced(t, start, journal, Owner(t, i, event, v).value, s, extra + Count(LeftBehind(t, i, event, v), s))
  {
    hide Active, Count, StateChain;
    var o := Owner(t, i, event, v).value;
    OwnerChain(t, i, event, v);
    assert StateChain(t, i) == StateChain(t, o) + LeftBehind(t, i, event, v);
    CountAppend(StateChain(t, o), LeftBehind(t, i, event, v), s);
  }

  /** A transition fired by `o`, and the settling it leads into. */
  lemma FiredKeepsBalance(t: Tree, start: nat, c: Config, o: StateId, event: string, id: nat, x: StateId, v: Value, n: nat,
                          s: StateId, extra: nat)
    requires WellFormed(t) && Coherent(t) && o < |t| && x < |t| && Joined(t, o, x) && Settles(t, Fire(t, c, o, event, id, x), x, v, n)
    requires Remembers(t, c) && Balanced(t, start, c.journal, o, s, extra)
    ensures var c' := Fire(t, c, o, event, id, x);
            && extra >= If(Resumption(t, Rest(t, c', x, v, n)) == Some(s))
            && LandsBalanced(t, start, Settle(t, c', x, v, n), x, s, extra - If(Resumption(t, Rest(t, c', x, v, n)) == Some(s)))
  {
    hide Balanced, Fire, Settle, Settles, Rest, Remembers;
    FireRemembers(t, c, o, event, id, x);
    FireKeepsBalance(t, start, c, o, event, id, x, s, extra);
    SettleKeepsBalance(t, start, Fire(t, c, o, event, id, x), x, v, n, s, extra);
  }

  lemma IgnoredKeepsBalance(t: Tree, start: nat, c: Config, i: StateId, event: string, v: Value, n: nat, s: StateId, extra: nat)
    requires WellFormed(t) && i < |t| && event != "" && Reacts(t, c, i, event, v, n) && Balanced(t, start, c.journal, i, s, extra)
    requires Owner(t, i, event, v).None? || FirstEnabled(t[Owner(t, i, event, v).value].transitions, event, v).value.target.None?
    ensures LandsBalanced(t, start, React(t, c, i, event, v, n), i, s, extra)
  {
    hide Active, Count;
    var o := Owner(t, i, event, v);
    if o.Some? { ActiveAppend(start, c.journal, Acted(FirstEnabled(t[o.value].transitions, event, v).value.id), s); }
  }

  /** A named event adds what it leaves behind to the extra states and takes out what it resumes. */
  lemma ReactKeepsBalance(t: Tree, start: nat, c: Config, i: StateId, event: string, v: Value, n: nat, s: StateId, extra: nat)
    requires WellFormed(t) && Coherent(t) && i < |t| && event != "" && Reacts(t, c, i, event, v, n)
    requires Remembers(t, c) && Balanced(t, start, c.journal, i, s, extra)
    ensures extra + Count(LeftBehind(t, i, event, v), s) >= If(Resumed(t, c, i, event, v, n) == Some(s))
    ensures LandsBalanced(t, start, React(t, c, i, event, v, n), i, s,
                          extra + Count(LeftBehind(t, i, event, v), s) - If(Resumed(t, c, i, event, v, n) == Some(s)))
  {
    hide LandsBalanced, Balanced, React, Reacts, Rest, Remembers;
    var o := Owner(t, i, event, v);
    if o.None? || FirstEnabled(t[o.value].transitions, event, v).value.target.None? {
      IgnoredKeepsBalance(t, start, c, i, event, v, n, s, extra);
      NothingCounted(s);
    } else {
      HandledKeepsBalance(t, start, c, i, event, v, n, s, extra);
    }
  }

  lemma CoherentFires(t: Tree, i: StateId, event: string, v: Value)
    requires WellFormed(t) && Coherent(t) && i < |t|
    requires FirstEnabled(t[i].transitions, event, v).Some? && FirstEnabled(t[i].transitions, event, v).value.target.Some?
    ensures var x := FirstEnabled(t[i].transitions, event, v).value.target.value; x < |t| && Joined(t, i, x)
  {
    hide Joined;
  }

  lemma HandledKeepsBalance(t: Tree, start: nat, c: Config, i: StateId, event: string, v: Value, n: nat, s: StateId, extra: nat)
    requires WellFormed(t) && Coherent(t) && i < |t| && event != "" && Reacts(t, c, i, event, v, n)
    requires Remembers(t, c) && Balanced(t, start, c.journal, i, s, extra)
    requires Owner(t, i, event, v).Some? && FirstEnabled(t[Owner(t, i, event, v).value].transitions, event, v).value.target.Some?
    ensures extra + Count(LeftBehind(t, i, event, v), s) >= If(Resumed(t, c, i, event, v, n) == Some(s))
    ensures LandsBalanced(t, start, React(t, c, i, event, v, n), i, s,
                          extra + Count(LeftBehind(t, i, event, v), s) - If(Resumed(t, c, i, event, v, n) == Some(s)))
  {
    hide Balanced, Fire, Settle, Settles, Rest, Remembers, LeftBehind, Owner, FirstEnabled, Resumption, Count, Coherent;
    var o := Owner(t, i, event, v).value;
    var tr := FirstEnabled(t[o].transitions, event, v).value;
    CoherentFires(t, o, event, v);
    OwnerBalance(t, start, c.journal, i, event, v, s, extra);
    FiredKeepsBalance(t, start, c, o, event, tr.id, tr.target.value, v, n, s, extra + Count(LeftBehind(t, i, event, v), s));
  }

  lemma NothingCounted(s: StateId)
    ensures Count([], s) == 0
  {
  }

  // ----- runs

  datatype Event = Event(name: string, value: Value)

  datatype Machine = Machine(current: StateId, config: Config)

  /** Within `n` hops the recursion that the event starts ends. */
  ghost predicate RestsWithin(t: Tree, m: Machine, e: Event, n: nat)
    requires WellFormed(t) && m.current < |t|
  {
    if e.name == "" then Settles(t, m.config, m.current, e.value, n) else Reacts(t, m.config, m.current, e.name, e.value, n)
  }

  /** The event does not make the machine recurse for ever. */
  ghost predicate Rests(t: Tree, m: Machine, e: Event)
    requires WellFormed(t) && m.current < |t|
  {
    exists n: nat :: RestsWithin(t, m, e, n)
  }

  function Outcomes(t: Tree, m: Machine, e: Event, n: nat): Outcome
    requires WellFormed(t) && m.current < |t| && RestsWithin(t, m, e, n)
  {
    if e.name == "" then Settle(t, m.config, m.current, e.value, n) else React(t, m.config, m.current, e.name, e.value, n)
  }

  /** The outcome of an event that comes to rest depends on no bound. */
  lemma OneOutcome(t: Tree, m: Machine, e: Event, n: nat, n': nat)
    requires WellFormed(t) && m.current < |t| && RestsWithin(t, m, e, n) && RestsWithin(t, m, e, n') && n <= n'
    ensures Outcomes(t, m, e, n) == Outcomes(t, m, e, n')
    ensures Resumed(t, m.config, m.current, e.name, e.value, n) == Resumed(t, m.config, m.current, e.name, e.value, n')
  {
    hide Settles, Settle, Fire, Rest, Resumption;
    if e.name == "" {
      SettlesMonotone(t, m.config, m.current, e.value, n, n');
    } else {
      var o := Owner(t, m.current, e.name, e.value);
      if o.Some? {
        var tr := FirstEnabled(t[o.value].transitions, e.name, e.value).value;
        if tr.target.Some? {
          SettlesMonotone(t, Fire(t, m.config, o.value, e.name, tr.id, tr.target.value), tr.target.value, e.value, n, n');
        }
      }
    }
  }

  /** Inside one hierarchy an event that comes to rest does so in fewer hops than there are states. */
  lemma RestsSoon(t: Tree, m: Machine, e: Event)
    requires WellFormed(t) && OneTree(t) && m.current < |t|
    ensures Rests(t, m, e) <==> RestsWithin(t, m, e, |t| - 1)
  {
    hide Settles, Fire;
    if n: nat :| RestsWithin(t, m, e, n) {
      if e.name == "" {
        SettlesSoon(t, m.config, m.current, e.value, n);
      } else {
        var o := Owner(t, m.current, e.name, e.value);
        if o.Some? {
          var tr := FirstEnabled(t[o.value].transitions, e.name, e.value).value;
          if tr.target.Some? {
            SettlesSoon(t, Fire(t, m.config, o.value, e.name, tr.id, tr.target.value), tr.target.value, e.value, n);
          }
        }
      }
    }
  }

  lemma SettlesSoon(t: Tree, c: Config, i: StateId, v: Value, n: nat)
    requires WellFormed(t) && OneTree(t) && i < |t| && Settles(t, c, i, v, n)
    ensures Settles(t, c, i, v, |t| - 1)
  {
    hide Settles;
    assert EventuallySettles(t, c, i, v);
    SettlesIffNoRevisit(t, c, i, v);
  }

  /** StateMachine::doTransition on one event: HandleEvent in StateMachine.dfy ends in this state. */
  ghost function Handle(t: Tree, m: Machine, e: Event): Machine
    requires WellFormed(t) && m.current < |t| && Rests(t, m, e)
  {
    var n: nat :| RestsWithin(t, m, e, n);
    var r := Outcomes(t, m, e, n);
    Machine(Landing(r, m.current), r.config.(records := []))
  }

  /** What handling the event resumes. */
  ghost function ResumedBy(t: Tree, m: Machine, e: Event): Option<StateId>
    requires WellFormed(t) && m.current < |t| && Rests(t, m, e)
  {
    var n: nat :| RestsWithin(t, m, e, n);
    Resumed(t, m.config, m.current, e.name, e.value, n)
  }

  /** They are the outcome within any bound that suffices. */
  lemma HandleWithin(t: Tree, m: Machine, e: Event, n: nat)
    requires WellFormed(t) && m.current < |t| && RestsWithin(t, m, e, n)
    ensures Handle(t, m, e) == Machine(Landing(Outcomes(t, m, e, n), m.current), Outcomes(t, m, e, n).config.(records := []))
    ensures ResumedBy(t, m, e) == Resumed(t, m.config, m.current, e.name, e.value, n)
  {
    hide Settles, Reacts, Outcomes, Resumed;
    forall n': nat | RestsWithin(t, m, e, n')
      ensures Outcomes(t, m, e, n') == Outcomes(t, m, e, n)
      ensures Resumed(t, m.config, m.current, e.name, e.value, n') == Resumed(t, m.config, m.current, e.name, e.value, n)
    {
      if n <= n' { OneOutcome(t, m, e, n, n'); } else { OneOutcome(t, m, e, n', n); }
    }
  }

  /** What is entered beyond the chain of the current state; negative if some of that chain is not entered. */
  ghost function Surplus(t: Tree, start: nat, m: Machine, s: StateId): int
    requires WellFormed(t) && m.current < |t|
  {
    Active(start, m.config.journal, s) - OnChain(t, m.current, s)
  }

  /** Every state on the chain of the current state is entered and not yet exited, in a machine started in `root`. */
  ghost predicate ChainEntered(t: Tree, root: StateId, m: Machine)
    requires WellFormed(t) && root < |t| && m.current < |t|
  {
    forall s :: Surplus(t, OnChain(t, root, s), m, s) >= 0
  }

  /** A machine between two events: histories tell the truth and the current chain is entered. */
  ghost predicate Sound(t: Tree, root: StateId, m: Machine)
    requires WellFormed(t) && root < |t|
  {
    m.current < |t| && Remembers(t, m.config) && ChainEntered(t, root, m)
  }

  lemma OutcomeKeepsBalance(t: Tree, start: nat, m: Machine, e: Event, n: nat, s: StateId, extra: nat)
    requires WellFormed(t) && Coherent(t) && m.current < |t| && RestsWithin(t, m, e, n)
    requires Remembers(t, m.config) && Balanced(t, start, m.config.journal, m.current, s, extra)
    ensures var left := Count(LeftBehind(t, m.current, e.name, e.value), s);
            var back := If(Resumed(t, m.config, m.current, e.name, e.value, n) == Some(s));
            && extra + left >= back
            && LandsBalanced(t, start, Outcomes(t, m, e, n), m.current, s, extra + left - back)
  {
    hide Balanced, LandsBalanced, Settle, Settles, React, Reacts, Rest, Remembers, Resumption, Owner, Coherent;
    if e.name == "" {
      SettleKeepsBalance(t, start, m.config, m.current, e.value, n, s, extra);
      NothingCounted(s);
    } else {
      ReactKeepsBalance(t, start, m.config, m.current, e.name, e.value, n, s, extra);
    }
  }

  /** One event keeps the chain of the current state entered, and changes the surplus by exactly the states it left
      behind below its owner and the state a history resumed. */
  lemma HandleSurplus(t: Tree, start: nat, m: Machine, e: Event, s: StateId)
    requires WellFormed(t) && Coherent(t) && m.current < |t| && Rests(t, m, e) && Remembers(t, m.config)
    requires Surplus(t, start, m, s) >= 0
    ensures var m' := Handle(t, m, e);
            && m'.current < |t|
            && 0 <= Surplus(t, start, m', s)
            && Surplus(t, start, m', s)
               == Surplus(t, start, m, s) + Count(LeftBehind(t, m.current, e.name, e.value), s) - If(ResumedBy(t, m, e) == Some(s))
  {
    hide RestsWithin, Outcomes, Active, OnChain, Remembers, LeftBehind, Resumed, Handle, ResumedBy;
    var n: nat :| RestsWithin(t, m, e, n);
    HandleWithin(t, m, e, n);
    OutcomeKeepsBalance(t, start, m, e, n, s, Surplus(t, start, m, s));
  }

  lemma RecordsDoNotCount(t: Tree, c: Config)
    requires WellFormed(t) && Remembers(t, c)
    ensures Remembers(t, c.(records := []))
  {
  }

  lemma HandleRemembers(t: Tree, m: Machine, e: Event)
    requires WellFormed(t) && Coherent(t) && m.current < |t| && Rests(t, m, e) && Remembers(t, m.config)
    ensures Remembers(t, Handle(t, m, e).config)
  {
    hide Settles, Settle, React, Reacts, Handle, Remembers;
    var n: nat :| RestsWithin(t, m, e, n);
    HandleWithin(t, m, e, n);
    if e.name == "" {
      SettleRemembers(t, m.config, m.current, e.value, n);
    } else {
      ReactRemembers(t, m.config, m.current, e.name, e.value, n);
    }
    RecordsDoNotCount(t, Outcomes(t, m, e, n).config);
  }

  lemma HandleKeepsSound(t: Tree, root: StateId, m: Machine, e: Event)
    requires WellFormed(t) && Coherent(t) && root < |t| && Sound(t, root, m) && Rests(t, m, e)
    ensures Sound(t, root, Handle(t, m, e))
  {
    hide Remembers, Handle, Surplus, Rests, OnChain;
    HandleRemembers(t, m, e);
    HandleSurplus(t, OnChain(t, root, 0), m, e, 0);
    forall s
      ensures Surplus(t, OnChain(t, root, s), Handle(t, m, e), s) >= 0
    {
      HandleSurplus(t, OnChain(t, root, s), m, e, s);
    }
  }

  /** The machine as start() leaves it: the root is current and counts as entered. */
  ghost function Started(root: StateId): Machine {
    Machine(root, Config(map[], [], []))
  }

  /** For this value every implicit edge lowers some rank. */
  ghost predicate Ranked(t: Tree, v: Value)
    requires WellFormed(t)
  {
    exists rank: seq<nat> :: |rank| == |t| &&
      forall j: StateId :: j < |t| && ImplicitEdge(t, j, v).Some? ==> rank[ImplicitEdge(t, j, v).value] < rank[j]
  }

  lemma RankedRests(t: Tree, m: Machine, e: Event)
    requires WellFormed(t) && m.current < |t| && Ranked(t, e.value)
    ensures Rests(t, m, e)
  {
    hide Settles, Fire;
    var rank: seq<nat> :| |rank| == |t| &&
      forall j: StateId :: j < |t| && ImplicitEdge(t, j, e.value).Some? ==> rank[ImplicitEdge(t, j, e.value).value] < rank[j];
    if e.name == "" {
      RankedEdgesSettle(t, m.config, m.current, e.value, rank);
      assert RestsWithin(t, m, e, rank[m.current]);
    } else {
      var o := Owner(t, m.current, e.name, e.value);
      if o.None? || FirstEnabled(t[o.value].transitions, e.name, e.value).value.target.None? {
        assert RestsWithin(t, m, e, 0);
      } else {
        var tr := FirstEnabled(t[o.value].transitions, e.name, e.value).value;
        var x := tr.target.value;
        assert TargetsOk(t, o.value);
        RankedEdgesSettle(t, Fire(t, m.config, o.value, e.name, tr.id, x), x, e.value, rank);
        assert RestsWithin(t, m, e, rank[x]);
      }
    }
  }
}

/** What a history state remembers (src/lib/osStateMachine/src/State.cpp:131-165). Entry saves and exit forgets,
    so the saved state is decided by the last of the two that concerned a child of the composite state. */
module History {
  import opened Options
  import opened StateTree
  import opened Reconfiguration
  import opened Lookup
  import opened Engine

  /** The child of `p` whose entry is the last entry or exit of a child of `p`, if that last event is an entry. */
  ghost function LastChild(t: Tree, journal: seq<Effect>, p: StateId): Option<StateId> {
    if journal == [] then None
    else
      var rest, e := journal[..|journal| - 1], journal[|journal| - 1];
      match e
      case Entered(s) => if IsChild(t, s, p) then Some(s) else LastChild(t, rest, p)
      case Exited(s) => if IsChild(t, s, p) then None else LastChild(t, rest, p)
      case Acted(_) => LastChild(t, rest, p)
  }

  ghost predicate IsChild(t: Tree, s: StateId, p: StateId) {
    s < |t| && t[s].parent == Some(p)
  }

  /** `h` is the history state its parent finds, and `p` that parent. */
  ghost predicate Serves(t: Tree, h: StateId, p: StateId)
    requires WellFormed(t)
  {
    p < |t| && HistoryOf(t, p) == Some(h)
  }

  ghost predicate JournalOk(t: Tree, journal: seq<Effect>) {
    forall k :: 0 <= k < |journal| && !journal[k].Acted? ==> journal[k].state < |t| && t[journal[k].state].kind.Composite?
  }

  /** Every history state holds exactly the child the journal says was the last one in. */
  ghost predicate Remembers(t: Tree, c: Config)
    requires WellFormed(t)
  {
    && JournalOk(t, c.journal)
    && (forall h: StateId, p: StateId :: Serves(t, h, p) ==>
          if h in c.saved then LastChild(t, c.journal, p) == Some(c.saved[h]) else LastChild(t, c.journal, p) == None)
    && (forall h :: h in c.saved ==> h < |t| && t[h].parent.Some? && Serves(t, h, t[h].parent.value))
  }

  lemma ExitRemembers(t: Tree, c: Config, i: StateId)
    requires WellFormed(t) && i < |t| && t[i].kind.Composite? && Remembers(t, c)
    ensures Remembers(t, ExitState(t, c, i))
  {
  }

  lemma EntryRemembers(t: Tree, c: Config, i: StateId)
    requires WellFormed(t) && i < |t| && t[i].kind.Composite? && Remembers(t, c)
    ensures Remembers(t, EnterState(t, c, i))
  {
    var c' := EnterState(t, c, i);
    assert c'.journal[..|c'.journal| - 1] == c.journal;
    assert ParentOk(t, i);
    if ParentHistory(t, i).Some? {
      assert Serves(t, ParentHistory(t, i).value, t[i].parent.value);
    }
    forall h: StateId, p: StateId | Serves(t, h, p)
      ensures if h in c'.saved then LastChild(t, c'.journal, p) == Some(c'.saved[h]) else LastChild(t, c'.journal, p) == None
    {
      assert t[h].parent == Some(p);
    }
  }

  lemma ActionRemembers(t: Tree, c: Config, id: nat)
    requires WellFormed(t) && Remembers(t, c)
    ensures Remembers(t, c.(journal := c.journal + [Acted(id)]))
  {
  }

  ghost predicate AllStates(t: Tree, ss: seq<StateId>) {
    forall k :: 0 <= k < |ss| ==> ss[k] < |t| && t[ss[k]].kind.Composite?
  }

  lemma {:induction false} ExitsRemember(t: Tree, c: Config, ss: seq<StateId>)
    requires WellFormed(t) && AllStates(t, ss) && Remembers(t, c)
    ensures Remembers(t, ExitAll(t, c, ss))
    decreases |ss|
  {
    if ss != [] {
      ExitRemembers(t, c, ss[0]);
      ExitsRemember(t, ExitState(t, c, ss[0]), ss[1..]);
    }
  }

  lemma {:induction false} EntriesRemember(t: Tree, c: Config, ss: seq<StateId>)
    requires WellFormed(t) && AllStates(t, ss) && Remembers(t, c)
    ensures Remembers(t, EnterAll(t, c, ss))
    decreases |ss|
  {
    if ss != [] {
      EntriesRemember(t, c, ss[..|ss| - 1]);
      EntryRemembers(t, EnterAll(t, c, ss[..|ss| - 1]), ss[|ss| - 1]);
    }
  }

  lemma {:induction false} ExitsAreStates(t: Tree, i: StateId, lca: Option<StateId>)
    requires WellFormed(t) && i < |t|
    ensures AllStates(t, ExitUntil(t, i, lca)) && AllStates(t, EntryFrom(t, i, lca))
  {
    assert ParentOk(t, i);
    if t[i].parent.Some? { ExitsAreStates(t, t[i].parent.value, lca); }
  }

  lemma FireRemembers(t: Tree, c: Config, i: StateId, event: string, id: nat, to: StateId)
    requires WellFormed(t) && i < |t| && to < |t| && Remembers(t, c)
    ensures Remembers(t, Fire(t, c, i, event, id, to))
  {
    ExitsAreStates(t, i, Pivot(t, i, to));
    ExitsAreStates(t, to, Pivot(t, i, to));
    var c0 := Begin(t, c, i, event, Some(i));
    var c1 := ExitAll(t, c0, Exits(t, i, to));
    ExitsRemember(t, c0, Exits(t, i, to));
    ActionRemembers(t, c1, id);
    EntriesRemember(t, c1.(journal := c1.journal + [Acted(id)]), Entries(t, i, to));
  }

  lemma HopRemembers(t: Tree, c: Config, i: StateId, v: Value)
    requires WellFormed(t) && i < |t| && Remembers(t, c) && Hop(t, c, i, v).Some?
    ensures Remembers(t, Hop(t, c, i, v).value.config)
  {
    hide Fire;
    if StartOf(t, i).None? {
      FireRemembers(t, c, i, "", FirstEnabled(t[i].transitions, "", v).value.id, Hop(t, c, i, v).value.state);
    }
  }

  lemma HaltRemembers(t: Tree, c: Config, i: StateId, v: Value)
    requires WellFormed(t) && i < |t| && Remembers(t, c) && Hop(t, c, i, v).None?
    ensures Remembers(t, Halt(t, c, i, v).config)
  {
    hide Hop;
    var tr := FirstEnabled(t[i].transitions, "", v);
    if tr.Some? { ActionRemembers(t, Begin(t, c, i, "", Some(i)), tr.value.id); }
  }

  lemma {:induction false} SettleRemembers(t: Tree, c: Config, i: StateId, v: Value, n: nat)
    requires WellFormed(t) && i < |t| && Settles(t, c, i, v, n) && Remembers(t, c)
    ensures Remembers(t, Settle(t, c, i, v, n).config)
    decreases n
  {
    hide Hop, Halt, Remembers;
    var p := Hop(t, c, i, v);
    if p.Some? {
      HopRemembers(t, c, i, v);
      SettleRemembers(t, p.value.config, p.value.state, v, n - 1);
    } else {
      HaltRemembers(t, c, i, v);
    }
  }

  lemma ReactRemembers(t: Tree, c: Config, i: StateId, event: string, v: Value, n: nat)
    requires WellFormed(t) && i < |t| && Reacts(t, c, i, event, v, n) && Remembers(t, c)
    ensures Remembers(t, React(t, c, i, event, v, n).config)
  {
    hide Fire, Settle;
    var o := Owner(t, i, event, v);
    if o.Some? {
      var tr := FirstEnabled(t[o.value].transitions, event, v).value;
      if tr.target.None? {
        ActionRemembers(t, Begin(t, c, o.value, event, Some(o.value)), tr.id);
      } else {
        FireRemembers(t, c, o.value, event, tr.id, tr.target.value);
        SettleRemembers(t, Fire(t, c, o.value, event, tr.id, tr.target.value), tr.target.value, v, n);
      }
    }
  }

  lemma {:induction false} LastChildIsState(t: Tree, journal: seq<Effect>, p: StateId)
    requires JournalOk(t, journal) && LastChild(t, journal, p).Some?
    ensures IsChild(t, LastChild(t, journal, p).value, p) && t[LastChild(t, journal, p).value].kind.Composite?
    decreases |journal|
  {
    var rest, e := journal[..|journal| - 1], journal[|journal| - 1];
    if e.Acted? || !IsChild(t, e.state, p) { LastChildIsState(t, rest, p); }
  }
}

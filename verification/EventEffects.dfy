/** What one event does, step by step in the journal and in the records, told without the functions that compute it
    (src/lib/osStateMachine/src/AbstractState.cpp:73-138, src/lib/osStateMachine/src/State.cpp:54-86 and
    src/lib/osStateMachine/src/StateMachine.cpp:35-74). */
module EventEffects {
  import opened Options
  import opened StateTree
  import opened Reconfiguration
  import opened Lookup
  import opened Engine

  // ----- who handles an event

  /** Among the ancestors-or-self of `i`, the one at place `k` has an enabled transition and none below it has. */
  ghost predicate IsNearest(t: Tree, i: StateId, event: string, v: Value, k: nat)
    requires WellFormed(t) && i < |t|
  {
    && k < |Path(t, i)|
    && Handles(t, Path(t, i)[k], event, v)
    && forall j :: k < j < |Path(t, i)| ==> !Handles(t, Path(t, i)[j], event, v)
  }

  ghost predicate Handles(t: Tree, i: StateId, event: string, v: Value) {
    i < |t| && HasEnabled(t[i].transitions, event, v)
  }

  lemma PathKnown(t: Tree, i: StateId)
    requires WellFormed(t) && i < |t|
    ensures Known(t, Path(t, i))
  {
    forall k | 0 <= k < |Path(t, i)|
      ensures Path(t, i)[k] < |t|
    {
      PathPrefix(t, i, k);
    }
  }

  /** The nearest enabled ancestor-or-self handles the event, and nobody does if none is enabled. */
  lemma {:induction false} OwnerIsNearest(t: Tree, i: StateId, event: string, v: Value, k: nat)
    requires WellFormed(t) && i < |t|
    ensures IsNearest(t, i, event, v, k) ==> Owner(t, i, event, v) == Some(Path(t, i)[k])
    ensures Owner(t, i, event, v).None? <==> forall j :: 0 <= j < |Path(t, i)| ==> !Handles(t, Path(t, i)[j], event, v)
    decreases i
  {
    assert ParentOk(t, i);
    var path := Path(t, i);
    var last := |path| - 1;
    assert path[last] == i;
    if Handles(t, i, event, v) {
      var m := EnabledHasFirst(t[i].transitions, event, v);
      FirstEnabledIs(t[i].transitions, event, v, m);
      assert IsNearest(t, i, event, v, k) ==> k == last;
    } else if t[i].parent.Some? {
      var p := t[i].parent.value;
      OwnerIsNearest(t, p, event, v, k);
      assert path == Path(t, p) + [i];
      PathKnown(t, p);
      if IsNearest(t, i, event, v, k) {
        assert k < last && forall j :: 0 <= j < last ==> path[j] == Path(t, p)[j];
        assert IsNearest(t, p, event, v, k);
      }
      assert forall j :: 0 <= j < last ==> path[j] == Path(t, p)[j];
    }
  }

  lemma {:induction false} NearestExists(t: Tree, i: StateId, event: string, v: Value, n: nat) returns (k: nat)
    requires WellFormed(t) && i < |t| && n <= |Path(t, i)|
    requires exists j :: 0 <= j < n && Handles(t, Path(t, i)[j], event, v)
    requires forall j :: n <= j < |Path(t, i)| ==> !Handles(t, Path(t, i)[j], event, v)
    ensures IsNearest(t, i, event, v, k)
    decreases n
  {
    if Handles(t, Path(t, i)[n - 1], event, v) { k := n - 1; } else { k := NearestExists(t, i, event, v, n - 1); }
  }

  lemma OwnerIff(t: Tree, i: StateId, event: string, v: Value, o: StateId)
    requires WellFormed(t) && i < |t|
    ensures Owner(t, i, event, v) == Some(o) <==> exists k: nat :: IsNearest(t, i, event, v, k) && Path(t, i)[k] == o
  {
    hide Owner, Handles;
    OwnerIsNearest(t, i, event, v, 0);
    if k: nat :| IsNearest(t, i, event, v, k) && Path(t, i)[k] == o {
      OwnerIsNearest(t, i, event, v, k);
    } else if Owner(t, i, event, v).Some? {
      var k := NearestExists(t, i, event, v, |Path(t, i)|);
      OwnerIsNearest(t, i, event, v, k);
    }
  }

  // ----- the journal of a transition

  function ExitedAll(ss: seq<StateId>): (r: seq<Effect>) {
    seq(|ss|, k requires 0 <= k < |ss| => Exited(ss[k]))
  }

  function EnteredAll(ss: seq<StateId>): (r: seq<Effect>) {
    seq(|ss|, k requires 0 <= k < |ss| => Entered(ss[k]))
  }

  lemma {:induction false} ExitsInJournal(t: Tree, c: Config, ss: seq<StateId>)
    requires WellFormed(t) && Known(t, ss)
    ensures ExitAll(t, c, ss).journal == c.journal + ExitedAll(ss) && ExitAll(t, c, ss).records == c.records
    decreases |ss|
  {
    if ss != [] {
      ExitsInJournal(t, ExitState(t, c, ss[0]), ss[1..]);
      assert ExitedAll(ss) == [Exited(ss[0])] + ExitedAll(ss[1..]);
    }
  }

  lemma {:induction false} EntriesInJournal(t: Tree, c: Config, ss: seq<StateId>)
    requires WellFormed(t) && Known(t, ss)
    ensures EnterAll(t, c, ss).journal == c.journal + EnteredAll(ss) && EnterAll(t, c, ss).records == c.records
    decreases |ss|
  {
    if ss != [] {
      var init := ss[..|ss| - 1];
      EntriesInJournal(t, c, init);
      assert EnteredAll(ss) == EnteredAll(init) + [Entered(ss[|ss| - 1])];
    }
  }

  /** What a transition of `i` adds to the records: one record if its state carries the delegate. */
  ghost function Recorded(t: Tree, i: StateId, event: string, from: Option<StateId>, to: Option<StateId>): seq<Record>
    requires WellFormed(t) && i < |t| && (from.Some? ==> from.value < |t|) && (to.Some? ==> to.value < |t|)
  {
    if !t[i].observed then []
    else [Record(if event == "" then None else Some(event),
                 if from.None? then None else Some(FullName(t, from.value)),
                 if to.None? then None else Some(FullName(t, to.value)))]
  }

  lemma BracketRecords(t: Tree, c: Config, c': Config, i: StateId, event: string, from: Option<StateId>, to: Option<StateId>)
    requires WellFormed(t) && i < |t| && (from.Some? ==> from.value < |t|) && (to.Some? ==> to.value < |t|)
    requires c'.records == Begin(t, c, i, event, from).records
    ensures Finish(t, c', i, to).records == c.records + Recorded(t, i, event, from, to)
    ensures Finish(t, c', i, to).journal == c'.journal && Finish(t, c', i, to).saved == c'.saved
    ensures Begin(t, c, i, event, from).journal == c.journal && Begin(t, c, i, event, from).saved == c.saved
  {
    hide FullName;
  }

  /** A fired external transition: all exits, innermost first, then its action, then all entries, outermost first; and one
      record from its state to its target. */
  lemma FireEffects(t: Tree, c: Config, i: StateId, event: string, id: nat, to: StateId)
    requires WellFormed(t) && i < |t| && to < |t|
    ensures var c' := Fire(t, c, i, event, id, to);
            && c'.journal == c.journal + ExitedAll(Exits(t, i, to)) + [Acted(id)] + EnteredAll(Entries(t, i, to))
            && c'.records == c.records + Recorded(t, i, event, Some(i), Some(to))
  {
    hide Begin, Finish, ExitAll, EnterAll, ExitUntil, EntryFrom, Pivot, Recorded;
    var c0 := Begin(t, c, i, event, Some(i));
    var c1 := ExitAll(t, c0, Exits(t, i, to));
    var c2 := c1.(journal := c1.journal + [Acted(id)]);
    ExitsInJournal(t, c0, Exits(t, i, to));
    EntriesInJournal(t, c2, Entries(t, i, to));
    BracketRecords(t, c, EnterAll(t, c2, Entries(t, i, to)), i, event, Some(i), Some(to));
  }

  /** An internal transition runs its action and nothing else; its record has no target. */
  lemma InternalEffects(t: Tree, c: Config, i: StateId, event: string, id: nat)
    requires WellFormed(t) && i < |t|
    ensures var c' := FireInternal(t, c, i, event, id);
            && c'.journal == c.journal + [Acted(id)] && c'.saved == c.saved
            && c'.records == c.records + Recorded(t, i, event, Some(i), None)
  {
    hide Begin, Finish, Recorded;
    var c1 := Begin(t, c, i, event, Some(i));
    BracketRecords(t, c, c1.(journal := c1.journal + [Acted(id)]), i, event, Some(i), None);
  }

  // ----- where an implicit transition goes on

  /** `c'` is `c` with one more record, if the state carries the delegate. */
  ghost predicate OnlyRecords(t: Tree, c: Config, c': Config, i: StateId, from: StateId, to: Option<StateId>)
    requires WellFormed(t) && i < |t| && from < |t| && (to.Some? ==> to.value < |t|)
  {
    c'.journal == c.journal && c'.saved == c.saved && c'.records == c.records + Recorded(t, i, "", Some(from), to)
  }

  /** First of all, a composite state hands over to what its first history state has saved. */
  lemma HistoryComesFirst(t: Tree, c: Config, i: StateId, v: Value, k: nat)
    requires WellFormed(t) && i < |t| && IsFirstChild(t, i, History, k) && t[i].children[k] in c.saved
    requires c.saved[t[i].children[k]] < |t| && t[i].children[k] < |t|
    ensures Hop(t, c, i, v).None?
    ensures var x := c.saved[t[i].children[k]];
            Halt(t, c, i, v).next == Some(x) && OnlyRecords(t, c, Halt(t, c, i, v).config, i, t[i].children[k], Some(x))
  {
    FirstChildIs(t, i, History, k);
    assert ChildrenOk(t, i);
  }

  ghost predicate NothingSaved(t: Tree, c: Config, i: StateId)
    requires WellFormed(t) && i < |t|
  {
    forall k: nat :: IsFirstChild(t, i, History, k) ==> t[i].children[k] !in c.saved
  }

  lemma NothingSavedResumes(t: Tree, c: Config, i: StateId)
    requires WellFormed(t) && i < |t| && NothingSaved(t, c, i)
    ensures !Resumes(t, c, i)
  {
    if HistoryOf(t, i).Some? { var k := FirstChildPlace(t, i, History); }
  }

  lemma FirstChildPlace(t: Tree, i: StateId, kind: Kind) returns (k: nat)
    requires WellFormed(t) && i < |t| && ChildOfKind(t, i, kind).Some?
    ensures IsFirstChild(t, i, kind, k) && ChildOfKind(t, i, kind) == Some(t[i].children[k])
  {
    ChildrenInRange(t, i);
    k := FirstPlace(t, t[i].children, kind);
  }

  lemma {:induction false} FirstPlace(t: Tree, children: seq<StateId>, kind: Kind) returns (k: nat)
    requires Known(t, children) && (forall c <- children :: c < |t|) && FirstOfKind(t, children, kind).Some?
    ensures k < |children| && t[children[k]].kind == kind && FirstOfKind(t, children, kind) == Some(children[k])
    ensures forall j :: 0 <= j < k ==> t[children[j]].kind != kind
    decreases |children|
  {
    if t[children[0]].kind == kind {
      k := 0;
    } else {
      assert forall c <- children[1..] :: c in children;
      var j := FirstPlace(t, children[1..], kind);
      k := j + 1;
      forall m | 0 <= m < k
        ensures t[children[m]].kind != kind
      {
        if m > 0 { assert children[m] == children[1..][m - 1]; }
      }
    }
  }

  /** Then to its first start state, entering and leaving nothing. */
  lemma StartComesSecond(t: Tree, c: Config, i: StateId, v: Value, k: nat)
    requires WellFormed(t) && i < |t| && IsFirstChild(t, i, Start, k) && NothingSaved(t, c, i)
    ensures Hop(t, c, i, v).Some? && t[i].children[k] < |t|
    ensures var p := Hop(t, c, i, v).value;
            p.state == t[i].children[k] && OnlyRecords(t, c, p.config, i, i, Some(p.state))
  {
    assert ChildrenOk(t, i);
    FirstChildIs(t, i, Start, k);
    NothingSavedResumes(t, c, i);
  }

  /** Then a State without start state, or a start state, fires its first enabled implicit transition, if it has one. */
  lemma ImplicitComesLast(t: Tree, c: Config, i: StateId, v: Value, k: nat)
    requires WellFormed(t) && i < |t| && !t[i].kind.End? && !t[i].kind.History? && NothingSaved(t, c, i)
    requires forall j: nat :: !IsFirstChild(t, i, Start, j)
    requires IsFirstEnabled(t[i].transitions, "", v, k)
    ensures var tr := t[i].transitions[k];
            if tr.target.Some? then
              tr.target.value < |t| && Hop(t, c, i, v) == Some(Point(tr.target.value, Fire(t, c, i, "", tr.id, tr.target.value)))
            else Hop(t, c, i, v).None? && Halt(t, c, i, v) == Outcome(None, FireInternal(t, c, i, "", tr.id))
  {
    hide Fire, FireInternal;
    assert TargetsOk(t, i);
    NothingSavedResumes(t, c, i);
    FirstEnabledIs(t[i].transitions, "", v, k);
    if StartOf(t, i).Some? { var j := FirstChildPlace(t, i, Start); }
  }

  /** And otherwise nothing happens. */
  lemma NothingImplicit(t: Tree, c: Config, i: StateId, v: Value)
    requires WellFormed(t) && i < |t| && !t[i].kind.End? && !t[i].kind.History? && NothingSaved(t, c, i)
    requires forall j: nat :: !IsFirstChild(t, i, Start, j)
    requires !HasEnabled(t[i].transitions, "", v)
    ensures Hop(t, c, i, v).None? && Halt(t, c, i, v) == Outcome(None, c)
  {
    NothingSavedResumes(t, c, i);
    if StartOf(t, i).Some? { var j := FirstChildPlace(t, i, Start); }
  }

  /** An end state hands over to its parent, and a history state to what it has saved, if anything. */
  lemma PseudoHandsOver(t: Tree, c: Config, i: StateId, v: Value)
    requires WellFormed(t) && i < |t| && (t[i].kind.End? || t[i].kind.History?)
    ensures Hop(t, c, i, v).None?
    ensures t[i].parent.Some? && t[i].parent.value < |t|
    ensures t[i].kind.End? ==> Halt(t, c, i, v).next == t[i].parent && OnlyRecords(t, c, Halt(t, c, i, v).config, i, i, t[i].parent)
    ensures t[i].kind.History? ==> Halt(t, c, i, v) == Outcome(if i in c.saved then Some(c.saved[i]) else None, c)
  {
    assert ParentOk(t, i);
  }

  // ----- a named event

  /** Settling only adds to the journal and to the records. */
  lemma {:induction false} SettleExtends(t: Tree, c: Config, i: StateId, v: Value, n: nat)
    requires WellFormed(t) && i < |t| && Settles(t, c, i, v, n)
    ensures c.journal <= Settle(t, c, i, v, n).config.journal && c.records <= Settle(t, c, i, v, n).config.records
    decreases n
  {
    hide Hop, Halt;
    var p := Hop(t, c, i, v);
    if p.Some? {
      SettlesNext(t, c, i, v, n);
      HopExtends(t, c, i, v);
      SettleExtends(t, p.value.config, p.value.state, v, n - 1);
    } else {
      HaltExtends(t, c, i, v);
    }
  }

  lemma HopExtends(t: Tree, c: Config, i: StateId, v: Value)
    requires WellFormed(t) && i < |t| && Hop(t, c, i, v).Some?
    ensures c.journal <= Hop(t, c, i, v).value.config.journal && c.records <= Hop(t, c, i, v).value.config.records
  {
    hide Fire, Begin, Finish, Recorded;
    var x := Hop(t, c, i, v).value.state;
    if StartOf(t, i).Some? {
      BracketRecords(t, c, Begin(t, c, i, "", Some(i)), i, "", Some(i), Some(x));
    } else {
      FireEffects(t, c, i, "", FirstEnabled(t[i].transitions, "", v).value.id, x);
    }
  }

  lemma HaltExtends(t: Tree, c: Config, i: StateId, v: Value)
    requires WellFormed(t) && i < |t| && Hop(t, c, i, v).None?
    ensures c.journal <= Halt(t, c, i, v).config.journal && c.records <= Halt(t, c, i, v).config.records
  {
    hide Hop, FullName;
    assert ParentOk(t, i);
  }

  /** A named event that somebody handles: the first enabled transition of the nearest enabled ancestor-or-self fires. An
      internal one runs its action and leaves the machine where it is; an external one exits, acts and enters, and what
      follows are the implicit transitions from its target. */
  lemma EventFires(t: Tree, c: Config, i: StateId, event: string, v: Value, n: nat, k: nat, m: nat)
    requires WellFormed(t) && i < |t| && Reacts(t, c, i, event, v, n) && IsNearest(t, i, event, v, k)
    requires IsFirstEnabled(t[Path(t, i)[k]].transitions, event, v, m)
    ensures var o := Path(t, i)[k];
            var tr := t[o].transitions[m];
            var r := React(t, c, i, event, v, n);
            if tr.target.None? then
              r.next == None && r.config.saved == c.saved && r.config.journal == c.journal + [Acted(tr.id)]
              && r.config.records == c.records + Recorded(t, o, event, Some(o), None)
            else
              var x := tr.target.value;
              && x < |t| && r.next.Some?
              && c.journal + ExitedAll(Exits(t, o, x)) + [Acted(tr.id)] + EnteredAll(Entries(t, o, x)) <= r.config.journal
              && c.records + Recorded(t, o, event, Some(o), Some(x)) <= r.config.records
  {
    hide Fire, FireInternal, Settle, Settles, Recorded, ExitedAll, EnteredAll, Exits, Entries;
    var o := Path(t, i)[k];
    var tr := t[o].transitions[m];
    OwnerIsNearest(t, i, event, v, k);
    FirstEnabledIs(t[o].transitions, event, v, m);
    assert TargetsOk(t, o);
    if tr.target.None? {
      InternalEffects(t, c, o, event, tr.id);
    } else {
      FireEffects(t, c, o, event, tr.id, tr.target.value);
      SettleExtends(t, Fire(t, c, o, event, tr.id, tr.target.value), tr.target.value, v, n);
    }
  }

  /** A named event that nobody handles leaves everything as it is, but for one record of the topmost state. */
  lemma EventIgnored(t: Tree, c: Config, i: StateId, event: string, v: Value, n: nat)
    requires WellFormed(t) && i < |t| && Reacts(t, c, i, event, v, n)
    requires forall j :: 0 <= j < |Path(t, i)| ==> !Handles(t, Path(t, i)[j], event, v)
    ensures Path(t, i)[0] < |t|
    ensures var r := React(t, c, i, event, v, n);
            && r.next == None && r.config.journal == c.journal && r.config.saved == c.saved
            && r.config.records == c.records + Recorded(t, Path(t, i)[0], event, None, None)
  {
    hide Begin, Finish, Recorded;
    OwnerIsNearest(t, i, event, v, 0);
    var top := Root(t, i);
    BracketRecords(t, c, Begin(t, c, top, event, None), top, event, None, None);
  }
}

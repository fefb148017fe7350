/** Which states a fired transition leaves and enters, and in which order
    (src/lib/osStateMachine/src/AbstractState.cpp:105-114 and 200-230). */
module Reconfiguration {
  import opened Options
  import opened Sequences
  import opened StateTree
  import opened LeastCommonAncestor

  /** The State a dynamic_pointer_cast gives: null for a pseudo-state. */
  function AsState(t: Tree, i: StateId): Option<StateId>
    requires i < |t|
  {
    if t[i].kind.Composite? then Some(i) else None
  }

  /** doExitUntilLCAState: the states whose doExit runs, in order. */
  function ExitUntil(t: Tree, i: StateId, lca: Option<StateId>): (r: seq<StateId>)
    requires WellFormed(t) && i < |t|
    ensures Known(t, r)
  {
    assert ParentOk(t, i);
    if AsState(t, i) == lca then []
    else (if t[i].kind.Composite? then [i] else [])
         + (if t[i].parent.Some? then ExitUntil(t, t[i].parent.value, lca) else [])
  }

  /** doEntryFromLCAState: the states whose doEntry runs, in order. */
  function EntryFrom(t: Tree, i: StateId, lca: Option<StateId>): (r: seq<StateId>)
    requires WellFormed(t) && i < |t|
    ensures Known(t, r)
  {
    assert ParentOk(t, i);
    if AsState(t, i) == lca then []
    else (if t[i].parent.Some? then EntryFrom(t, t[i].parent.value, lca) else [])
         + (if t[i].kind.Composite? then [i] else [])
  }

  /** The state at which exits stop and entries start: the parent for a self transition. */
  function Pivot(t: Tree, from: StateId, to: StateId): Option<StateId>
    requires WellFormed(t) && from < |t| && to < |t|
  {
    if from == to then t[from].parent else LcaState(t, from, to)
  }

  function Exits(t: Tree, from: StateId, to: StateId): seq<StateId>
    requires WellFormed(t) && from < |t| && to < |t|
  {
    ExitUntil(t, from, Pivot(t, from, to))
  }

  function Entries(t: Tree, from: StateId, to: StateId): seq<StateId>
    requires WellFormed(t) && from < |t| && to < |t|
  {
    EntryFrom(t, to, Pivot(t, from, to))
  }

  /** The states kept active across a transition: the chain of the pivot. */
  ghost function Kept(t: Tree, from: StateId, to: StateId): seq<StateId>
    requires WellFormed(t) && from < |t| && to < |t|
  {
    PivotInRange(t, from, to);
    if Pivot(t, from, to).None? then [] else Path(t, Pivot(t, from, to).value)
  }

  lemma PivotInRange(t: Tree, from: StateId, to: StateId)
    requires WellFormed(t) && from < |t| && to < |t|
    ensures Pivot(t, from, to).Some? ==>
              Pivot(t, from, to).value < |t| && t[Pivot(t, from, to).value].kind.Composite?
              && Ancestor(t, Pivot(t, from, to).value, from) && Ancestor(t, Pivot(t, from, to).value, to)
    ensures Pivot(t, from, to).None? ==> Root(t, from) != Root(t, to) || (from == to && t[from].parent.None?)
  {
    assert ParentOk(t, from);
    if from != to {
      LcaIsDeepest(t, from, to);
    } else if t[from].parent.Some? {
      var p := t[from].parent.value;
      assert Path(t, from) == Path(t, p) + [from];
      assert Path(t, p)[|Path(t, p)| - 1] == p;
    }
  }

  /** Exits undo entries: the same states, innermost first. */
  lemma {:induction false} ExitsReverseEntries(t: Tree, i: StateId, lca: Option<StateId>)
    requires WellFormed(t) && i < |t|
    ensures ExitUntil(t, i, lca) == Reverse(EntryFrom(t, i, lca))
  {
    assert ParentOk(t, i);
    if AsState(t, i) == lca {
    } else if t[i].parent.None? {
      assert EntryFrom(t, i, lca) == [i];
    } else {
      var up := EntryFrom(t, t[i].parent.value, lca);
      ExitsReverseEntries(t, t[i].parent.value, lca);
      ReverseAppend(up, i);
      assert up + [] == up;
    }
  }

  /** Entering from an ancestor State rebuilds the part of the chain below it. */
  lemma {:induction false} EntriesExtendAncestor(t: Tree, i: StateId, l: StateId)
    requires WellFormed(t) && i < |t| && Ancestor(t, l, i) && l < |t| && t[l].kind.Composite?
    ensures StateChain(t, i) == Path(t, l) + EntryFrom(t, i, Some(l))
  {
    assert ParentOk(t, i);
    if i == l {
      assert Path(t, l) + [] == Path(t, l);
    } else {
      var p := t[i].parent.value;
      assert Path(t, i) == Path(t, p) + [i];
      EntriesExtendAncestor(t, p, l);
      var up := EntryFrom(t, p, Some(l));
      if t[i].kind.Composite? {
        assert Path(t, l) + (up + [i]) == (Path(t, l) + up) + [i];
      } else {
        assert up + [] == up;
      }
    }
  }

  /** Without a pivot a State is entered from its root downwards, and a pseudo-state not at all. */
  lemma {:induction false} EntriesFromRoot(t: Tree, i: StateId)
    requires WellFormed(t) && i < |t|
    ensures EntryFrom(t, i, None) == if t[i].kind.Composite? then StateChain(t, i) else []
  {
    assert ParentOk(t, i);
    if t[i].parent.Some? { EntriesFromRoot(t, t[i].parent.value); }
  }

  /** The transition from `from` to `to` takes the chain of one to the chain of the other: what is left
      is what was active below the kept part, innermost first, and what is entered is what is active
      below it afterwards, outermost first. */
  ghost predicate Reconfigures(t: Tree, from: StateId, to: StateId)
    requires WellFormed(t) && from < |t| && to < |t|
  {
    && StateChain(t, from) == Kept(t, from, to) + Reverse(Exits(t, from, to))
    && StateChain(t, to) == Kept(t, from, to) + Entries(t, from, to)
  }

  lemma {:induction false} ReverseTwice<T>(s: seq<T>)
    ensures Reverse(Reverse(s)) == s
  {
    forall k | 0 <= k < |s|
      ensures Reverse(Reverse(s))[k] == s[k]
    {
      ReverseAt(Reverse(s), k);
      ReverseAt(s, |s| - 1 - k);
    }
  }

  lemma ReconfiguresBelowPivot(t: Tree, from: StateId, to: StateId)
    requires WellFormed(t) && from < |t| && to < |t| && Pivot(t, from, to).Some?
    ensures Reconfigures(t, from, to)
  {
    var l := Pivot(t, from, to);
    PivotInRange(t, from, to);
    ExitsReverseEntries(t, from, l);
    ReverseTwice(EntryFrom(t, from, l));
    EntriesExtendAncestor(t, from, l.value);
    EntriesExtendAncestor(t, to, l.value);
  }

  lemma ReconfiguresWithoutPivot(t: Tree, from: StateId, to: StateId)
    requires WellFormed(t) && from < |t| && to < |t| && Pivot(t, from, to).None?
    ensures Reconfigures(t, from, to) <==> t[from].kind.Composite? && t[to].kind.Composite?
  {
    ExitsReverseEntries(t, from, None);
    ReverseTwice(EntryFrom(t, from, None));
    EntriesFromRoot(t, from);
    EntriesFromRoot(t, to);
    EmptyPrefix(EntryFrom(t, from, None));
    EmptyPrefix(EntryFrom(t, to, None));
  }

  lemma EmptyPrefix(s: seq<StateId>)
    ensures [] + s == s
  {
  }

  /** Two states of one hierarchy, or two States. */
  predicate Joined(t: Tree, from: StateId, to: StateId)
    requires WellFormed(t) && from < |t| && to < |t|
  {
    Root(t, from) == Root(t, to) || (t[from].kind.Composite? && t[to].kind.Composite?)
  }

  /** A transition reconfigures exactly when both ends are in one hierarchy, or both are States. The failing
      case is a pseudo-state at one end of a transition between two hierarchies: with no common ancestor the
      null State of the cast equals the null pivot, and nothing is left (or entered). */
  lemma ReconfiguresIff(t: Tree, from: StateId, to: StateId)
    requires WellFormed(t) && from < |t| && to < |t|
    ensures Reconfigures(t, from, to) <==> Joined(t, from, to)
  {
    PivotInRange(t, from, to);
    assert ParentOk(t, from);
    if Pivot(t, from, to).Some? {
      var k := PathOfAncestor(t, Pivot(t, from, to).value, from);
      var k' := PathOfAncestor(t, Pivot(t, from, to).value, to);
      ReconfiguresBelowPivot(t, from, to);
    } else {
      ReconfiguresWithoutPivot(t, from, to);
    }
  }

  /** Every transition of the table reconfigures. */
  ghost predicate Coherent(t: Tree)
    requires WellFormed(t)
  {
    forall i: StateId, tr :: i < |t| && tr in t[i].transitions && tr.target.Some? ==>
      tr.target.value < |t| && Joined(t, i, tr.target.value)
  }

  lemma OneTreeIsCoherent(t: Tree)
    requires WellFormed(t) && OneTree(t)
    ensures Coherent(t)
  {
    forall i: StateId, tr | i < |t| && tr in t[i].transitions && tr.target.Some?
      ensures tr.target.value < |t| && Joined(t, i, tr.target.value)
    {
      assert TargetsOk(t, i);
    }
  }

  // ----- what is left and entered, told by the two chains

  ghost predicate LongestCommonPrefix(p: seq<StateId>, a: seq<StateId>, b: seq<StateId>) {
    p <= a && p <= b && (|p| == |a| || |p| == |b| || a[|p|] != b[|p|])
  }

  lemma CommonPrefixIsUnique(p: seq<StateId>, q: seq<StateId>, a: seq<StateId>, b: seq<StateId>)
    requires LongestCommonPrefix(p, a, b) && LongestCommonPrefix(q, a, b)
    ensures p == q
  {
    assert p == a[..|p|] && q == a[..|q|];
  }

  lemma InnerPath(t: Tree, i: StateId, k: nat)
    requires WellFormed(t) && i < |t| && k < |StateChain(t, i)|
    ensures StateChain(t, i)[k] in Path(t, i)
  {
    assert ParentOk(t, i);
    if !t[i].kind.Composite? { assert Path(t, i) == StateChain(t, i) + [i]; }
  }

  lemma CommonIsKept(t: Tree, from: StateId, to: StateId, c: StateId) returns (i: nat)
    requires WellFormed(t) && from < |t| && to < |t| && from != to && c in Path(t, from) && c in Path(t, to)
    ensures i < |Kept(t, from, to)| && Kept(t, from, to)[i] == c
  {
    var k := PathOfAncestor(t, c, from);
    var k' := PathOfAncestor(t, c, to);
    LcaIsDeepest(t, from, to);
    assert CommonAncestor(t, c, from, to) && Ancestor(t, c, Pivot(t, from, to).value);
    i :| 0 <= i < |Kept(t, from, to)| && Kept(t, from, to)[i] == c;
  }

  lemma ChainDistinct(t: Tree, i: StateId, j: nat, k: nat)
    requires WellFormed(t) && i < |t| && j < k < |StateChain(t, i)|
    ensures StateChain(t, i)[j] != StateChain(t, i)[k]
  {
    PathIncreasing(t, InnerState(t, i));
  }

  /** Below what is kept the two chains differ. */
  lemma ChainsPart(t: Tree, from: StateId, to: StateId)
    requires WellFormed(t) && from < |t| && to < |t| && from != to
    requires Kept(t, from, to) <= StateChain(t, from) && Kept(t, from, to) <= StateChain(t, to)
    ensures var n := |Kept(t, from, to)|;
            n < |StateChain(t, from)| && n < |StateChain(t, to)| ==> StateChain(t, from)[n] != StateChain(t, to)[n]
  {
    hide Path, Kept, StateChain, WellFormed;
    var a, b, n := StateChain(t, from), StateChain(t, to), |Kept(t, from, to)|;
    if n < |a| && n < |b| && a[n] == b[n] {
      InnerPath(t, from, n);
      InnerPath(t, to, n);
      var i := CommonIsKept(t, from, to, a[n]);
      ChainDistinct(t, from, i, n);
      assert false;
    }
  }

  /** What a transition between two states keeps is the longest common part of their chains. */
  lemma KeptIsCommon(t: Tree, from: StateId, to: StateId)
    requires WellFormed(t) && from < |t| && to < |t| && from != to && Joined(t, from, to)
    ensures LongestCommonPrefix(Kept(t, from, to), StateChain(t, from), StateChain(t, to))
  {
    hide Kept, StateChain, Joined;
    ReconfiguresIff(t, from, to);
    ChainsPart(t, from, to);
  }

  /** Exits and entries: a transition between two different states leaves exactly what its source has beyond the common
      part of the chains, innermost first, and enters exactly what its target has beyond it, outermost first. A self
      transition leaves and enters the state itself. */
  lemma ExitsAndEntriesAre(t: Tree, from: StateId, to: StateId, p: seq<StateId>)
    requires WellFormed(t) && from < |t| && to < |t| && Joined(t, from, to)
    requires from != to ==> LongestCommonPrefix(p, StateChain(t, from), StateChain(t, to))
    ensures from != to ==> Exits(t, from, to) == Reverse(StateChain(t, from)[|p|..]) && Entries(t, from, to) == StateChain(t, to)[|p|..]
    ensures from == to ==> Exits(t, from, to) == Entries(t, from, to) == if t[from].kind.Composite? then [from] else []
  {
    assert ParentOk(t, from);
    if from != to {
      KeptIsCommon(t, from, to);
      ReconfiguresIff(t, from, to);
      CommonPrefixIsUnique(p, Kept(t, from, to), StateChain(t, from), StateChain(t, to));
      assert StateChain(t, from)[|p|..] == Reverse(Exits(t, from, to));
      ReverseTwice(Exits(t, from, to));
    } else {
      SelfTransition(t, from);
    }
  }

  lemma SelfTransition(t: Tree, i: StateId)
    requires WellFormed(t) && i < |t|
    ensures Exits(t, i, i) == Entries(t, i, i) == if t[i].kind.Composite? then [i] else []
  {
    assert ParentOk(t, i);
    if t[i].parent.Some? {
      var p := t[i].parent.value;
      assert ExitUntil(t, p, Some(p)) == [] && EntryFrom(t, p, Some(p)) == [];
      assert [i] + [] == [i] && [] + [i] == [i];
    }
  }
}

/** Reading names does not disturb a hierarchy: a second reading changes nothing, and the states already there
    are found under their own names. */
module NameStability {
  import opened Options
  import opened PathText
  import opened Sequences
  import opened StateTree
  import opened Lookup
  import opened Hierarchy
  import opened StateNames
  import opened NameParser
  import opened WalkOnce
  import opened NameRoundTrip

  // ----- a second reading

  /** Reading below `i` leaves the states created before `i` as they are. */
  lemma {:induction false} DescendKeepsEarlier(t: Tree, i: StateId, parts: seq<string>)
    requires WellFormed(t) && i < |t|
    ensures |t| <= |Descend(t, i, parts).0| && forall k: StateId :: k < i ==> Descend(t, i, parts).0[k] == t[k]
    decreases |parts|
  {
    if parts != [] {
      StepWellFormed(t, i, parts[0]);
      var r := Step(t, i, parts[0]);
      if !r.done && r.current.Some? { DescendKeepsEarlier(r.tree, r.current.value, parts[1..]); }
    }
  }

  lemma {:induction false} FirstNamedKeeps(t: Tree, u: Tree, children: seq<StateId>, name: string)
    requires Keeps(t, u) && forall c <- children :: c < |t|
    ensures FirstNamed(u, children, name) == FirstNamed(t, children, name)
    decreases |children|
  {
    if children != [] {
      assert children[0] in children && forall c <- children[1..] :: c in children;
      FirstNamedKeeps(t, u, children[1..], name);
    }
  }

  /** A child that alone has its name is the one found under it. */
  lemma OnlyChildNamed(t: Tree, i: StateId, c: StateId)
    requires WellFormed(t) && i < |t| && c < |t| && c in t[i].children
    requires forall d <- t[i].children :: d < |t| && (t[d].name == t[c].name ==> d == c)
    ensures ChildNamed(t, i, t[c].name) == Some(c)
  {
  }

  /** Once a State part has been read, reading it again finds the same child. */
  lemma StateAgain(t: Tree, i: StateId, name: string, u: Tree)
    requires WellFormed(t) && CleanTree(t) && i < |t| && t[i].kind.Composite? && Clean(name)
    requires WellFormed(Step(t, i, name).tree) && Keeps(Step(t, i, name).tree, u)
    requires WellFormed(u) && i < |u| && i < |Step(t, i, name).tree| && u[i] == Step(t, i, name).tree[i]
    ensures Step(u, i, name) == Round(u, Step(t, i, name).current, false)
  {
    UnmarkPart(name);
    StateStep(t, i, name);
    var r := Step(t, i, name);
    assert ChildrenOk(t, i) && ChildrenOk(u, i);
    if ChildNamed(t, i, name).Some? {
      FirstNamedKeeps(t, u, t[i].children, name);
    } else {
      var c := r.current.value;
      assert c in u[i].children;
      OnlyChildNamed(u, i, c);
    }
  }

  lemma MarkedAgain(t: Tree, i: StateId, name: string, kind: Kind)
    requires WellFormed(t) && CleanTree(t) && i < |t| && t[i].kind.Composite? && Clean(name) && (kind.Start? || kind.End?)
    ensures var r := Step(t, i, name + KindSuffix(kind));
            WellFormed(r.tree) && i < |r.tree| && Step(r.tree, i, name + KindSuffix(kind)) == Round(r.tree, r.current, false)
  {
    hide ChildrenOk;
    UnmarkPart(name);
    MarkedStep(t, i, name, kind);
    var r := Step(t, i, name + KindSuffix(kind));
    if ChildNamed(t, i, name).None? {
      assert ChildrenOk(t, i);
      ChildrenKnown(t, i);
      OnlyChildNamed(r.tree, i, |t|);
    }
  }

  lemma HistoryAgain(t: Tree, i: StateId)
    requires WellFormed(t) && CleanTree(t) && i < |t| && t[i].kind.Composite?
    ensures var r := Step(t, i, HISTORY_NAME);
            WellFormed(r.tree) && i < |r.tree| && Step(r.tree, i, HISTORY_NAME) == Round(r.tree, r.current, false)
  {
    hide ChildrenOk;
    HistoryNameMarks();
    StepWellFormed(t, i, HISTORY_NAME);
    if HistoryOf(t, i).None? {
      ReplacedChildIsFound(t, i, History, HISTORY_NAME);
      assert ChildrenOk(t, i);
      ChildrenKnown(t, i);
      OnlyChildNamed(Step(t, i, HISTORY_NAME).tree, i, |t|);
    } else {
      HistoryIsNamed(t, i);
    }
  }

  lemma LeafAgain(t: Tree, i: StateId, leaf: Leaf)
    requires WellFormed(t) && CleanTree(t) && i < |t| && t[i].kind.Composite? && CleanLeaf(leaf)
    ensures var (u, r) := Descend(t, i, LeafPart(leaf));
            WellFormed(u) && i < |u| && Descend(u, i, LeafPart(leaf)) == (u, r)
  {
    if leaf != NoLeaf {
      var part := LeafPart(leaf)[0];
      assert LeafPart(leaf) == [part] && [part][1..] == [];
      StepWellFormed(t, i, part);
      match leaf
      case HistoryLeaf => HistoryAgain(t, i);
      case StartLeaf(name) => MarkedAgain(t, i, name, Start);
      case EndLeaf(name) => MarkedAgain(t, i, name, End);
      LeafStepFinds(t, i, part);
      DescendOne(t, i, part);
      DescendOne(Step(t, i, part).tree, i, part);
    }
  }

  lemma LeafStepFinds(t: Tree, i: StateId, part: string)
    requires WellFormed(t) && i < |t| && t[i].kind.Composite?
    ensures Step(t, i, part).current.Some?
  {
  }

  lemma DescendOne(t: Tree, i: StateId, part: string)
    requires WellFormed(t) && i < |t| && Step(t, i, part).current.Some?
    ensures Descend(t, i, [part]) == (Step(t, i, part).tree, Step(t, i, part).current)
  {
  }

  /** A second reading of the same address returns the same state and leaves the hierarchy unchanged. */
  lemma {:induction false} DescendAgain(t: Tree, i: StateId, states: seq<string>, leaf: Leaf)
    requires WellFormed(t) && CleanTree(t) && i < |t| && t[i].kind.Composite? && CleanAddress(states, leaf)
    requires Consistent(t, i, states, leaf)
    ensures var (u, r) := Descend(t, i, states + LeafPart(leaf));
            WellFormed(u) && i < |u| && Descend(u, i, states + LeafPart(leaf)) == (u, r)
    decreases |states|
  {
    var parts := states + LeafPart(leaf);
    if states == [] {
      assert parts == LeafPart(leaf);
      LeafAgain(t, i, leaf);
    } else {
      var name := states[0];
      assert parts[0] == name && parts[1..] == states[1..] + LeafPart(leaf);
      StateStep(t, i, name);
      var r := Step(t, i, name);
      var c := r.current.value;
      if ChildNamed(t, i, name).None? { FreshIsConsistent(r.tree, c, states[1..], leaf); }
      DescendAgain(r.tree, c, states[1..], leaf);
      DescendWellFormed(r.tree, c, parts[1..]);
      DescendKeepsEarlier(r.tree, c, parts[1..]);
      StateAgain(t, i, name, Descend(r.tree, c, parts[1..]).0);
    }
  }

  lemma ParseAgain(t: Tree, r: StateId, states: seq<string>, leaf: Leaf)
    requires WellFormed(t) && CleanTree(t) && r < |t| && t[r].parent.None? && CleanAddress(states, leaf)
    requires Consistent(t, r, states, leaf)
    ensures var x := Extract(t, Some(r), Printed(t[r].name, states, leaf));
            && WellFormed(x.0) && r < |x.0| && x.1 == Some(r)
            && Extract(x.0, x.1, Printed(t[r].name, states, leaf)) == x
  {
    assert ParentOk(t, r);
    var parts := states + LeafPart(leaf);
    SplitPrinted(t[r].name, states, leaf);
    assert (["", t[r].name] + parts)[2..] == parts;
    DescendAgain(t, r, states, leaf);
    DescendWellFormed(t, r, parts);
  }

  // ----- states that are there already

  /** Sibling names are distinct, whatever the classes of the siblings. */
  ghost predicate DistinctSiblings(t: Tree)
    requires WellFormed(t)
  {
    forall i: StateId, c: StateId, d: StateId ::
      i < |t| && c in t[i].children && d in t[i].children && c < |t| && d < |t| && t[c].name == t[d].name ==> c == d
  }

  /** The names of the states strictly below `r` down to `p`. */
  ghost function NamesBelow(t: Tree, r: StateId, p: StateId): seq<string>
    requires WellFormed(t) && r < |t| && p < |t| && Attached(t, r, p)
    decreases p
  {
    if p == r then []
    else
      assert ParentOk(t, p);
      NamesBelow(t, r, t[p].parent.value) + [t[p].name]
  }

  /** The address of a state below `r`. */
  ghost function AddressOf(t: Tree, r: StateId, j: StateId): (seq<string>, Leaf)
    requires WellFormed(t) && r < |t| && j < |t| && t[r].kind.Composite? && Attached(t, r, j)
  {
    assert ParentOk(t, j);
    match t[j].kind
    case Composite => (NamesBelow(t, r, j), NoLeaf)
    case Start => (NamesBelow(t, r, t[j].parent.value), StartLeaf(t[j].name))
    case End => (NamesBelow(t, r, t[j].parent.value), EndLeaf(t[j].name))
    case History => (NamesBelow(t, r, t[j].parent.value), HistoryLeaf)
  }

  lemma {:induction false} CleanNamesBelow(t: Tree, r: StateId, p: StateId)
    requires WellFormed(t) && CleanTree(t) && r < |t| && p < |t| && Attached(t, r, p) && t[p].kind.Composite?
    ensures forall k :: 0 <= k < |NamesBelow(t, r, p)| ==> Clean(NamesBelow(t, r, p)[k])
    decreases p
  {
    if p != r {
      assert ParentOk(t, p);
      CleanNamesBelow(t, r, t[p].parent.value);
    }
  }

  lemma {:induction false} NameFromRoot(t: Tree, r: StateId, p: StateId)
    requires WellFormed(t) && r < |t| && p < |t| && Attached(t, r, p) && t[r].parent.None? && t[p].kind.Composite?
    ensures FullName(t, p) == "/" + t[r].name + Join(NamesBelow(t, r, p))
    decreases p
  {
    assert ParentOk(t, r) && ParentOk(t, p);
    if p == r {
      assert "/" + t[r].name + "" == "/" + t[r].name;
    } else {
      var q := t[p].parent.value;
      NameFromRoot(t, r, q);
      NameBelow(t, q, p);
      JoinAppend(NamesBelow(t, r, q), [t[p].name]);
      JoinOne(t[p].name);
      var a, b, c := "/" + t[r].name, Join(NamesBelow(t, r, q)), "/" + t[p].name;
      assert (a + b) + c + "" == a + (b + c);
    }
  }

  lemma LeafPartOf(t: Tree, r: StateId, j: StateId)
    requires WellFormed(t) && CleanTree(t) && r < |t| && j < |t| && Attached(t, r, j) && t[r].kind.Composite? && !t[j].kind.Composite?
    ensures LeafPart(AddressOf(t, r, j).1) == [t[j].name + KindSuffix(t[j].kind)]
  {
    if t[j].kind.History? { assert t[j].name + "" == HISTORY_NAME; }
  }

  lemma PseudoNameIsPrinted(t: Tree, r: StateId, j: StateId)
    requires WellFormed(t) && CleanTree(t) && r < |t| && j < |t| && Attached(t, r, j) && t[r].parent.None? && t[r].kind.Composite?
    requires !t[j].kind.Composite?
    ensures FullName(t, j) == "/" + t[r].name + Join(AddressOf(t, r, j).0 + LeafPart(AddressOf(t, r, j).1))
  {
    assert ParentOk(t, j);
    var (states, leaf) := AddressOf(t, r, j);
    var p := t[j].parent.value;
    NameFromRoot(t, r, p);
    NameBelow(t, p, j);
    JoinAppend(states, LeafPart(leaf));
    LeafPartOf(t, r, j);
    JoinOne(t[j].name + KindSuffix(t[j].kind));
    Regroup(FullName(t, p), t[j].name, KindSuffix(t[j].kind));
    Associate("/" + t[r].name, Join(states), "/" + (t[j].name + KindSuffix(t[j].kind)));
  }

  /** The full name of an attached state is its printed address. */
  lemma FullNameIsPrinted(t: Tree, r: StateId, j: StateId)
    requires WellFormed(t) && CleanTree(t) && r < |t| && j < |t| && Attached(t, r, j) && t[r].parent.None? && t[r].kind.Composite?
    ensures FullName(t, j) == Printed(t[r].name, AddressOf(t, r, j).0, AddressOf(t, r, j).1)
  {
    var (states, leaf) := AddressOf(t, r, j);
    PrintedFromRoot(t[r].name, states, leaf);
    if t[j].kind.Composite? {
      NameFromRoot(t, r, j);
      assert states + [] == states;
    } else {
      PseudoNameIsPrinted(t, r, j);
    }
  }

  lemma {:induction false} DescendJoin(t: Tree, i: StateId, xs: seq<string>, ys: seq<string>, k: StateId)
    requires WellFormed(t) && i < |t| && k < |t| && Descend(t, i, xs) == (t, Some(k))
    ensures Descend(t, i, xs + ys) == Descend(t, k, ys)
    decreases |xs|
  {
    if xs == [] {
      assert xs + ys == ys;
    } else {
      StepWellFormed(t, i, xs[0]);
      var r := Step(t, i, xs[0]);
      assert (xs + ys)[1..] == xs[1..] + ys;
      if !r.done && r.current.Some? {
        DescendWellFormed(r.tree, r.current.value, xs[1..]);
        DescendJoin(t, r.current.value, xs[1..], ys, k);
      }
    }
  }

  lemma {:induction false} FindsState(t: Tree, r: StateId, p: StateId)
    requires WellFormed(t) && CleanTree(t) && DistinctSiblings(t)
    requires r < |t| && p < |t| && Attached(t, r, p) && t[p].kind.Composite?
    ensures Descend(t, r, NamesBelow(t, r, p)) == (t, Some(p))
    decreases p
  {
    if p != r {
      assert ParentOk(t, p);
      var q := t[p].parent.value;
      FindsState(t, r, q);
      DescendJoin(t, r, NamesBelow(t, r, q), [t[p].name], q);
      UnmarkPart(t[p].name);
      assert ChildrenOk(t, q);
      OnlyChildNamed(t, q, p);
      DescendOne(t, q, t[p].name);
    }
  }

  lemma FindsLeaf(t: Tree, q: StateId, j: StateId)
    requires WellFormed(t) && CleanTree(t) && DistinctSiblings(t)
    requires q < |t| && j < |t| && j in t[q].children && !t[j].kind.Composite?
    ensures Descend(t, q, [t[j].name + KindSuffix(t[j].kind)]) == (t, Some(j))
  {
    var part := t[j].name + KindSuffix(t[j].kind);
    assert ChildrenOk(t, q);
    OnlyChildNamed(t, q, j);
    HistoryNameMarks();
    if t[j].kind.History? {
      assert part == HISTORY_NAME && HistoryOf(t, q).Some?;
    } else {
      UnmarkPart(t[j].name);
    }
    DescendOne(t, q, part);
  }

  lemma FindsAddress(t: Tree, r: StateId, j: StateId)
    requires WellFormed(t) && CleanTree(t) && DistinctSiblings(t)
    requires r < |t| && t[r].kind.Composite? && j < |t| && Attached(t, r, j)
    ensures Descend(t, r, AddressOf(t, r, j).0 + LeafPart(AddressOf(t, r, j).1)) == (t, Some(j))
  {
    assert ParentOk(t, j);
    var states := AddressOf(t, r, j).0;
    if t[j].kind.Composite? {
      FindsState(t, r, j);
      assert states + [] == states;
    } else {
      FindsState(t, r, t[j].parent.value);
      FindsLeaf(t, t[j].parent.value, j);
      LeafPartOf(t, r, j);
      DescendJoin(t, r, states, [t[j].name + KindSuffix(t[j].kind)], t[j].parent.value);
    }
  }

  lemma CleanAddressOf(t: Tree, r: StateId, j: StateId)
    requires WellFormed(t) && CleanTree(t) && r < |t| && t[r].kind.Composite? && j < |t| && Attached(t, r, j)
    ensures CleanAddress(AddressOf(t, r, j).0, AddressOf(t, r, j).1)
  {
    assert ParentOk(t, j);
    CleanNamesBelow(t, r, if t[j].kind.Composite? then j else t[j].parent.value);
  }

  /** Every state of a hierarchy with clean and distinct sibling names is found under its own full name, and
      looking it up leaves the hierarchy as it is. */
  lemma FindsEveryState(t: Tree, r: StateId, j: StateId)
    requires WellFormed(t) && CleanTree(t) && DistinctSiblings(t)
    requires r < |t| && t[r].parent.None? && j < |t| && Attached(t, r, j)
    ensures Extract(t, Some(r), FullName(t, j)) == (t, Some(r), Some(j))
  {
    assert ParentOk(t, r);
    FullNameIsPrinted(t, r, j);
    var (states, leaf) := AddressOf(t, r, j);
    CleanAddressOf(t, r, j);
    SplitPrinted(t[r].name, states, leaf);
    FindsAddress(t, r, j);
    assert (["", t[r].name] + (states + LeafPart(leaf)))[2..] == states + LeafPart(leaf);
  }
}

/** extractStateHierarchy inverts getFullName: a printed name leads to a state with exactly that name, reading it
    again changes nothing, and every state already in the hierarchy is found under its own name. */
module NameRoundTrip {
  import opened Options
  import opened PathText
  import opened StateTree
  import opened Lookup
  import opened Hierarchy
  import opened StateNames
  import opened NameParser

  /** The last part of a name, when it is that of a pseudo-state. */
  datatype Leaf = NoLeaf | StartLeaf(name: string) | EndLeaf(name: string) | HistoryLeaf

  function LeafPart(leaf: Leaf): seq<string> {
    match leaf
    case NoLeaf => []
    case StartLeaf(name) => [name + START_SUFFIX]
    case EndLeaf(name) => [name + END_SUFFIX]
    case HistoryLeaf => [HISTORY_NAME]
  }

  ghost predicate CleanLeaf(leaf: Leaf) {
    leaf.StartLeaf? || leaf.EndLeaf? ==> Clean(leaf.name)
  }

  ghost predicate CleanAddress(states: seq<string>, leaf: Leaf) {
    (forall k :: 0 <= k < |states| ==> Clean(states[k])) && CleanLeaf(leaf)
  }

  /** A history state is named "(H)" and no other state has a marker in its name. */
  ghost predicate CleanTree(t: Tree) {
    forall i: StateId :: i < |t| ==> if t[i].kind.History? then t[i].name == HISTORY_NAME else Clean(t[i].name)
  }

  /** The hierarchy below `i` does not use a part of the address for a state of another class. */
  ghost predicate Consistent(t: Tree, i: StateId, states: seq<string>, leaf: Leaf)
    requires WellFormed(t) && i < |t|
    decreases |states|
  {
    if states != [] then
      var c := ChildNamed(t, i, states[0]);
      c.Some? ==> t[c.value].kind.Composite? && Consistent(t, c.value, states[1..], leaf)
    else LeafFits(t, i, leaf)
  }

  ghost predicate LeafFits(t: Tree, i: StateId, leaf: Leaf)
    requires WellFormed(t) && i < |t|
  {
    match leaf
    case StartLeaf(name) => ChildNamed(t, i, name).Some? ==> t[ChildNamed(t, i, name).value].kind.Start?
    case EndLeaf(name) => ChildNamed(t, i, name).Some? ==> t[ChildNamed(t, i, name).value].kind.End?
    case _ => true
  }

  // ----- one part

  lemma HistoryNameMarks()
    ensures FindMark(HISTORY_NAME, 'H') == Some(0)
    ensures FindMark(HISTORY_NAME, 'S').None? && FindMark(HISTORY_NAME, 'E').None?
    ensures !Clean(HISTORY_NAME)
  {
  }

  lemma UnmarkPart(name: string)
    requires Clean(name)
    ensures Unmark(name) == (name, Composite) && FindMark(name, 'H').None?
    ensures Unmark(name + START_SUFFIX) == (name, Start) && FindMark(name + START_SUFFIX, 'H').None?
    ensures Unmark(name + END_SUFFIX) == (name, End) && FindMark(name + END_SUFFIX, 'H').None?
  {
    assert START_SUFFIX == Mark('S') && END_SUFFIX == Mark('E');
    FindAppendedMark(name, 'S', 'S');
    FindAppendedMark(name, 'S', 'E');
    FindAppendedMark(name, 'E', 'E');
    FindAppendedMark(name, 'H', 'S');
    FindAppendedMark(name, 'H', 'E');
  }

  /** The name of a state under a parent. */
  lemma NameBelow(t: Tree, i: StateId, c: StateId)
    requires WellFormed(t) && i < |t| && c < |t| && t[c].parent == Some(i)
    ensures FullName(t, c) == (FullName(t, i) + ("/" + t[c].name)) + KindSuffix(t[c].kind)
  {
  }

  function KindSuffix(kind: Kind): string {
    if kind.Start? then START_SUFFIX else if kind.End? then END_SUFFIX else ""
  }

  /** The suffix tells the classes of pseudo-states apart, and from the states without one. */
  lemma SuffixDecides(base: string, j: Kind, k: Kind)
    ensures base + KindSuffix(j) == base + KindSuffix(k) <==> KindSuffix(j) == KindSuffix(k)
    ensures KindSuffix(j) == START_SUFFIX <==> j.Start?
    ensures KindSuffix(j) == END_SUFFIX <==> j.End?
  {
    var x, y := base + KindSuffix(j), base + KindSuffix(k);
    if x == y { assert x[|base|..] == KindSuffix(j) && y[|base|..] == KindSuffix(k); }
    assert START_SUFFIX[1] != END_SUFFIX[1];
  }

  /** Result of a descent that starts in `i`: a state whose full name is that of `i` and then the parts. */
  ghost predicate Reads(t: Tree, i: StateId, parts: seq<string>)
    requires WellFormed(t) && i < |t|
  {
    DescendWellFormed(t, i, parts);
    var r := Descend(t, i, parts);
    r.1.Some? && FullName(r.0, r.1.value) == FullName(t, i) + Join(parts)
  }

  lemma {:induction false} DescendWellFormed(t: Tree, i: StateId, parts: seq<string>)
    requires WellFormed(t) && i < |t|
    ensures WellFormed(Descend(t, i, parts).0) && Keeps(t, Descend(t, i, parts).0)
    ensures Descend(t, i, parts).1.Some? ==> Descend(t, i, parts).1.value < |Descend(t, i, parts).0|
    decreases |parts|
  {
    if parts != [] {
      StepWellFormed(t, i, parts[0]);
      var r := Step(t, i, parts[0]);
      if !r.done && r.current.Some? { DescendWellFormed(r.tree, r.current.value, parts[1..]); }
    }
  }

  lemma MarkedStep(t: Tree, i: StateId, name: string, kind: Kind)
    requires WellFormed(t) && CleanTree(t) && i < |t| && t[i].kind.Composite? && Clean(name) && (kind.Start? || kind.End?)
    ensures var r := Step(t, i, name + KindSuffix(kind));
            && WellFormed(r.tree) && Keeps(t, r.tree)
            && r.current.Some? && r.current.value < |r.tree|
            && r.tree[r.current.value].name == name && r.tree[r.current.value].parent == Some(i)
            && (ChildNamed(t, i, name).Some? ==> r == Round(t, ChildNamed(t, i, name), false))
            && (ChildNamed(t, i, name).None? ==> r.tree[r.current.value].kind == kind)
  {
    UnmarkPart(name);
    HistoryNameMarks();
    StepWellFormed(t, i, name + KindSuffix(kind));
  }

  lemma OnePartReads(t: Tree, i: StateId, part: string, j: StateId)
    requires WellFormed(t) && i < |t| && Step(t, i, part).current == Some(j)
    ensures WellFormed(Step(t, i, part).tree) && j < |Step(t, i, part).tree|
    ensures Reads(t, i, [part]) <==> FullName(Step(t, i, part).tree, j) == FullName(t, i) + ("/" + part)
  {
    StepWellFormed(t, i, part);
    JoinOne(part);
    assert [part][1..] == [] && Descend(t, i, [part]) == (Step(t, i, part).tree, Some(j));
  }

  lemma Regroup(a: string, b: string, c: string)
    ensures a + ("/" + (b + c)) == (a + ("/" + b)) + c
  {
  }

  lemma MarkedReads(t: Tree, i: StateId, name: string, kind: Kind)
    requires WellFormed(t) && CleanTree(t) && i < |t| && t[i].kind.Composite? && Clean(name) && (kind.Start? || kind.End?)
    ensures Reads(t, i, [name + KindSuffix(kind)])
            <==> (ChildNamed(t, i, name).Some? ==> t[ChildNamed(t, i, name).value].kind == kind)
  {
    var part := name + KindSuffix(kind);
    MarkedStep(t, i, name, kind);
    var u, j := Step(t, i, part).tree, Step(t, i, part).current.value;
    OnePartReads(t, i, part, j);
    KeepsNames(t, u, i);
    NameBelow(u, i, j);
    var base := FullName(t, i) + ("/" + name);
    Regroup(FullName(t, i), name, KindSuffix(kind));
    SuffixDecides(base, u[j].kind, kind);
  }

  /** The leaf is read exactly when it fits. */
  lemma MarkedLeafReads(t: Tree, i: StateId, leaf: Leaf)
    requires WellFormed(t) && CleanTree(t) && i < |t| && t[i].kind.Composite? && CleanLeaf(leaf) && (leaf.StartLeaf? || leaf.EndLeaf?)
    ensures Reads(t, i, LeafPart(leaf)) <==> LeafFits(t, i, leaf)
  {
    MarkedReads(t, i, leaf.name, if leaf.StartLeaf? then Start else End);
  }

  lemma HistoryLeafReads(t: Tree, i: StateId)
    requires WellFormed(t) && CleanTree(t) && i < |t| && t[i].kind.Composite?
    ensures Reads(t, i, [HISTORY_NAME])
  {
    hide FindMark;
    HistoryNameMarks();
    if HistoryOf(t, i).Some? { HistoryIsNamed(t, i); }
    StepWellFormed(t, i, HISTORY_NAME);
    var r := Step(t, i, HISTORY_NAME);
    var j := r.current.value;
    OnePartReads(t, i, HISTORY_NAME, j);
    KeepsNames(t, r.tree, i);
    NameBelow(r.tree, i, j);
    var base := FullName(t, i) + ("/" + HISTORY_NAME);
    assert base + "" == base;
  }

  /** A composite state with a history has a child named "(H)", and that child is a history state. */
  lemma HistoryIsNamed(t: Tree, i: StateId)
    requires WellFormed(t) && CleanTree(t) && i < |t| && HistoryOf(t, i).Some?
    ensures ChildNamed(t, i, HISTORY_NAME).Some? && t[ChildNamed(t, i, HISTORY_NAME).value].kind.History?
  {
  }

  lemma LeafReads(t: Tree, i: StateId, leaf: Leaf)
    requires WellFormed(t) && CleanTree(t) && i < |t| && t[i].kind.Composite? && CleanLeaf(leaf)
    ensures Reads(t, i, LeafPart(leaf)) <==> LeafFits(t, i, leaf)
  {
    match leaf
    case NoLeaf => assert FullName(t, i) + Join([]) == FullName(t, i);
    case HistoryLeaf => HistoryLeafReads(t, i);
    case _ => MarkedLeafReads(t, i, leaf);
  }

  /** A state without children fits every address. */
  lemma {:induction false} FreshIsConsistent(t: Tree, i: StateId, states: seq<string>, leaf: Leaf)
    requires WellFormed(t) && i < |t| && t[i].children == []
    ensures Consistent(t, i, states, leaf)
  {
  }

  lemma StateStep(t: Tree, i: StateId, name: string)
    requires WellFormed(t) && CleanTree(t) && i < |t| && t[i].kind.Composite? && Clean(name)
    ensures var r := Step(t, i, name);
            && WellFormed(r.tree) && CleanTree(r.tree) && Keeps(t, r.tree) && !r.done
            && r.current.Some? && i < r.current.value < |r.tree|
            && r.tree[r.current.value].name == name && r.tree[r.current.value].parent == Some(i)
            && !r.tree[r.current.value].kind.History?
            && (ChildNamed(t, i, name).Some? ==> r.tree == t && r.current == ChildNamed(t, i, name))
            && (ChildNamed(t, i, name).None? ==> r.tree[r.current.value].kind.Composite? && r.tree[r.current.value].children == [])
  {
    StepWellFormed(t, i, name);
    UnmarkPart(name);
    HistoryNameMarks();
  }

  /** Reading an address from a state on: it ends in a state of exactly that name if and only if the hierarchy
      is consistent with the address. */
  lemma {:induction false} ReadsIffConsistent(t: Tree, i: StateId, states: seq<string>, leaf: Leaf)
    requires WellFormed(t) && CleanTree(t) && i < |t| && t[i].kind.Composite? && CleanAddress(states, leaf)
    ensures Reads(t, i, states + LeafPart(leaf)) <==> Consistent(t, i, states, leaf)
    decreases |states|
  {
    if states == [] {
      assert states + LeafPart(leaf) == LeafPart(leaf);
      LeafReads(t, i, leaf);
    } else {
      var name := states[0];
      var parts := states + LeafPart(leaf);
      assert parts[0] == name && parts[1..] == states[1..] + LeafPart(leaf);
      StateStep(t, i, name);
      var r := Step(t, i, name);
      var c := r.current.value;
      if r.tree[c].kind.Composite? {
        ReadsThrough(t, i, parts);
        ReadsIffConsistent(r.tree, c, states[1..], leaf);
        if ChildNamed(t, i, name).None? { FreshIsConsistent(r.tree, c, states[1..], leaf); }
      } else {
        PseudoStateBlocks(t, i, c, name, parts[1..]);
        assert FullName(t, i) + Join(parts) == (FullName(t, i) + ("/" + name)) + Join(parts[1..]);
      }
    }
  }

  /** Reading goes on from the State the first part leads to. */
  lemma ReadsThrough(t: Tree, i: StateId, parts: seq<string>)
    requires WellFormed(t) && CleanTree(t) && i < |t| && t[i].kind.Composite? && parts != [] && Clean(parts[0])
    requires WellFormed(Step(t, i, parts[0]).tree) && Step(t, i, parts[0]).current.Some?
    requires Step(t, i, parts[0]).current.value < |Step(t, i, parts[0]).tree|
    requires Step(t, i, parts[0]).tree[Step(t, i, parts[0]).current.value].kind.Composite?
    ensures Reads(t, i, parts) <==> Reads(Step(t, i, parts[0]).tree, Step(t, i, parts[0]).current.value, parts[1..])
  {
    hide Split, Step, Join, FullName, CleanTree, Clean, Keeps;
    var name := parts[0];
    StateStep(t, i, name);
    var r := Step(t, i, name);
    var c := r.current.value;
    KeepsNames(t, r.tree, i);
    StateNameBelow(r.tree, i, c);
    JoinStep(FullName(t, i), parts);
  }

  lemma StateNameBelow(t: Tree, i: StateId, c: StateId)
    requires WellFormed(t) && i < |t| && c < |t| && t[c].parent == Some(i) && t[c].kind.Composite?
    ensures FullName(t, c) == FullName(t, i) + ("/" + t[c].name)
  {
  }

  lemma JoinStep(base: string, parts: seq<string>)
    requires parts != []
    ensures base + Join(parts) == (base + ("/" + parts[0])) + Join(parts[1..])
  {
  }

  /** A pseudo-state found for a State part is the wrong end of a name, and no way on. */
  lemma PseudoStateBlocks(t: Tree, i: StateId, c: StateId, name: string, rest: seq<string>)
    requires WellFormed(t) && i < |t| && c < |t| && t[c].parent == Some(i) && t[c].name == name
    requires t[c].kind.Start? || t[c].kind.End?
    ensures Descend(t, c, rest).1.Some? ==> FullName(t, c) != (FullName(t, i) + ("/" + name)) + Join(rest)
    ensures Descend(t, c, rest) == if rest == [] then (t, Some(c)) else (t, None)
  {
  }

  // ----- the whole name

  ghost function Printed(root: string, states: seq<string>, leaf: Leaf): string {
    Join([root] + states + LeafPart(leaf))
  }

  lemma SplitPrinted(root: string, states: seq<string>, leaf: Leaf)
    requires Clean(root) && CleanAddress(states, leaf)
    ensures Split(Printed(root, states, leaf)) == ["", root] + (states + LeafPart(leaf))
  {
    hide Split;
    var parts := [root] + states + LeafPart(leaf);
    forall k | 0 <= k < |parts|
      ensures parts[k] != "" && '/' !in parts[k]
    {
      if 0 < k <= |states| { assert parts[k] == states[k - 1]; }
    }
    SplitJoin("", parts);
    assert "" + Join(parts) == Join(parts);
    assert [""] + parts == ["", root] + (states + LeafPart(leaf));
  }

  /** Parsing a printed name from scratch always yields a state of that name. */
  lemma FreshParse(t: Tree, root: string, states: seq<string>, leaf: Leaf)
    requires WellFormed(t) && CleanTree(t) && Clean(root) && CleanAddress(states, leaf)
    ensures var r := Extract(t, None, Printed(root, states, leaf));
            && WellFormed(r.0) && r.1 == Some(|t|) && r.2.Some? && r.2.value < |r.0|
            && FullName(r.0, r.2.value) == Printed(root, states, leaf)
  {
    SplitPrinted(root, states, leaf);
    RootWellFormed(t, root);
    var u := t + [Node(Composite, root, None, [], [], false)];
    var parts := states + LeafPart(leaf);
    assert (["", root] + parts)[2..] == parts;
    assert FullName(u, |t|) == "/" + root;
    FreshIsConsistent(u, |t|, states, leaf);
    ReadsIffConsistent(u, |t|, states, leaf);
    DescendWellFormed(u, |t|, parts);
    PrintedFromRoot(root, states, leaf);
  }

  lemma PrintedFromRoot(root: string, states: seq<string>, leaf: Leaf)
    ensures Printed(root, states, leaf) == "/" + root + Join(states + LeafPart(leaf))
  {
    var parts := states + LeafPart(leaf);
    assert [root] + states + LeafPart(leaf) == [root] + parts;
    assert ([root] + parts)[1..] == parts;
  }

  /** Parsing a printed name into an existing hierarchy yields a state of that name if and only if the root has
      the first part for its name and the hierarchy is consistent with the rest. */
  lemma ParseIffConsistent(t: Tree, r: StateId, root: string, states: seq<string>, leaf: Leaf)
    requires WellFormed(t) && CleanTree(t) && r < |t| && t[r].parent.None? && Clean(root) && CleanAddress(states, leaf)
    ensures var x := Extract(t, Some(r), Printed(root, states, leaf));
            && WellFormed(x.0) && (x.2.Some? ==> x.2.value < |x.0|)
            && ((x.2.Some? && FullName(x.0, x.2.value) == Printed(root, states, leaf))
                <==> t[r].name == root && Consistent(t, r, states, leaf))
  {
    SplitPrinted(root, states, leaf);
    assert ParentOk(t, r);
    var parts := states + LeafPart(leaf);
    assert (["", root] + parts)[2..] == parts;
    if t[r].name == root {
      assert FullName(t, r) == "/" + root;
      ReadsIffConsistent(t, r, states, leaf);
      DescendWellFormed(t, r, parts);
      PrintedFromRoot(root, states, leaf);
    }
  }
}

/** StateMachineWindow::extractStateHierarchy of the state machine viewer
    (src/exe/osStateMachineViewer/src/StateMachineWindow.cpp:371-430): it reads a full state name and grows a
    hierarchy in which that state exists. It is the inverse of AbstractState::getFullName. */
module NameParser {
  import opened Options
  import opened Sequences
  import opened StateTree
  import opened Lookup
  import opened Hierarchy
  import opened StateNames

  /** find_if over the direct children, by name. */
  function FirstNamed(t: Tree, children: seq<StateId>, name: string): (r: Option<StateId>)
    requires forall c <- children :: c < |t|
    ensures r.Some? ==> r.value in children && t[r.value].name == name
    ensures r.None? ==> forall c <- children :: t[c].name != name
  {
    if children == [] then None
    else
      assert children[0] in children && forall c <- children[1..] :: c in children;
      if t[children[0]].name == name then Some(children[0])
      else FirstNamed(t, children[1..], name)
  }

  function ChildNamed(t: Tree, i: StateId, name: string): (r: Option<StateId>)
    requires WellFormed(t) && i < |t|
    ensures r.Some? ==> i < r.value < |t| && t[r.value].name == name && t[r.value].parent == Some(i) && t[i].kind.Composite?
  {
    assert ChildrenOk(t, i);
    FirstNamed(t, t[i].children, name)
  }

  /** The name without its marker, and the class the marker stands for. */
  function Unmark(part: string): (string, Kind) {
    if FindMark(part, 'S').Some? then (part[..FindMark(part, 'S').value], Start)
    else if FindMark(part, 'E').Some? then (part[..FindMark(part, 'E').value], End)
    else (part, Composite)
  }

  /** One round of the loop over the parts: the grown table, the state to go on from (None for a null result)
      and whether the function returns it at once. */
  datatype Round = Round(tree: Tree, current: Option<StateId>, done: bool)

  function Step(t: Tree, i: StateId, part: string): Round
    requires WellFormed(t) && i < |t|
  {
    if !t[i].kind.Composite? then Round(t, None, true)
    else if FindMark(part, 'H').Some? && HistoryOf(t, i).None? then
      Round(ReplaceChild(t, i, History, HISTORY_NAME), Some(|t|), true)
    else
      var (name, kind) := Unmark(part);
      var child := ChildNamed(t, i, name);
      if child.Some? then Round(t, child, false)
      else if kind.Start? then Round(ReplaceChild(t, i, Start, name), Some(|t|), true)
      else if kind.End? then Round(AddChild(t, i, End, name), Some(|t|), true)
      else Round(AddChild(t, i, Composite, name), Some(|t|), false)
  }

  lemma StepWellFormed(t: Tree, i: StateId, part: string)
    requires WellFormed(t) && i < |t|
    ensures WellFormed(Step(t, i, part).tree) && Keeps(t, Step(t, i, part).tree)
    ensures Step(t, i, part).current.Some? ==> i < Step(t, i, part).current.value < |Step(t, i, part).tree|
  {
    var (name, kind) := Unmark(part);
    if t[i].kind.Composite? {
      ReplaceChildWellFormed(t, i, History, HISTORY_NAME);
      ReplaceChildWellFormed(t, i, Start, name);
      AddChildWellFormed(t, i, End, name);
      AddChildWellFormed(t, i, Composite, name);
    }
  }

  /** The loop over the parts after the root name. */
  function Descend(t: Tree, i: StateId, parts: seq<string>): (Tree, Option<StateId>)
    requires WellFormed(t) && i < |t|
    decreases |parts|
  {
    if parts == [] then (t, Some(i))
    else
      StepWellFormed(t, i, parts[0]);
      var r := Step(t, i, parts[0]);
      if r.done || r.current.None? then (r.tree, r.current)
      else Descend(r.tree, r.current.value, parts[1..])
  }

  lemma NothingToSplit()
    ensures Split("") == []
  {
  }

  class Viewer {
    const hierarchy: Hierarchy
    var root: Option<StateId>

    ghost predicate Valid()
      reads this, hierarchy
    {
      hierarchy.Valid() && (root.Some? ==> root.value < |hierarchy.nodes|)
    }

    constructor ()
      ensures Valid() && fresh(hierarchy) && hierarchy.nodes == [] && root == None
    {
      hierarchy := new Hierarchy();
      root := None;
    }

    /** The getline loop. */
    method SplitName(fullName: string) returns (names: seq<string>)
      ensures names == Split(fullName)
    {
      hide Split;
      names := [];
      var rest := fullName;
      NothingToSplit();
      while rest != ""
        invariant names + Split(rest) == Split(fullName)
        decreases |rest|
      {
        var part, left := ReadPart(rest);
        SplitNext(rest);
        Associate(names, [part], Split(left));
        names := names + [part];
        rest := left;
      }
    }

    method DoStep(i: StateId, part: string) returns (current: Option<StateId>, done: bool)
      requires Valid() && i < |hierarchy.nodes|
      modifies hierarchy
      ensures Valid() && Round(hierarchy.nodes, current, done) == Step(old(hierarchy.nodes), i, part)
    {
      var t := hierarchy.nodes;
      StepWellFormed(t, i, part);
      if !t[i].kind.Composite? {
        return None, true;
      }
      if FindMark(part, 'H').Some? && HistoryOf(t, i).None? {
        var h := hierarchy.Replace(i, History, HISTORY_NAME);
        return Some(h), true;
      }
      var (name, kind) := Unmark(part);
      var child := ChildNamed(t, i, name);
      if child.Some? {
        return child, false;
      }
      if kind.Start? {
        var s := hierarchy.Replace(i, Start, name);
        return Some(s), true;
      }
      if kind.End? {
        var e := hierarchy.AddEndState(i, name);
        return Some(e), true;
      }
      var c := hierarchy.Create(i, name);
      return Some(c), false;
    }

    method ExtractStateHierarchy(fullName: string) returns (r: Option<StateId>)
      requires Valid()
      modifies this, hierarchy
      ensures Valid()
      ensures (hierarchy.nodes, root, r) == Extract(old(hierarchy.nodes), old(root), fullName)
    {
      var names := SplitName(fullName);
      if |names| <= 1 {
        return None;
      }
      if root.None? {
        var i := hierarchy.CreateRoot(names[1]);
        root := Some(i);
      } else if hierarchy.nodes[root.value].name != names[1] {
        return None;
      }
      r := DescendFrom(root.value, names[2..]);
    }

    /** The loop over the parts, with its moving current pointer. */
    method DescendFrom(top: StateId, names: seq<string>) returns (r: Option<StateId>)
      requires Valid() && top < |hierarchy.nodes|
      modifies hierarchy
      ensures Valid() && (hierarchy.nodes, r) == Descend(old(hierarchy.nodes), top, names)
    {
      var current: StateId := top;
      var index := 0;
      ghost var t := hierarchy.nodes;
      while index < |names|
        invariant index <= |names| && Valid() && current < |hierarchy.nodes| && top < |t| <= |hierarchy.nodes| && WellFormed(t)
        invariant Descend(t, top, names) == Descend(hierarchy.nodes, current, names[index..])
      {
        StepWellFormed(hierarchy.nodes, current, names[index]);
        assert names[index..][1..] == names[index + 1..];
        var next, done := DoStep(current, names[index]);
        if next.None? || done {
          return next;
        }
        current := next.value;
        index := index + 1;
      }
      r := Some(current);
    }
  }

  function Extract(t: Tree, root: Option<StateId>, fullName: string): (Tree, Option<StateId>, Option<StateId>)
    requires WellFormed(t) && (root.Some? ==> root.value < |t|)
  {
    var names := Split(fullName);
    if |names| <= 1 then (t, root, None)
    else if root.None? then
      RootWellFormed(t, names[1]);
      var r := Descend(t + [Node(Composite, names[1], None, [], [], false)], |t|, names[2..]);
      (r.0, Some(|t|), r.1)
    else if t[root.value].name != names[1] then (t, root, None)
    else
      var r := Descend(t, root.value, names[2..]);
      (r.0, root, r.1)
  }

  // ----- one part of a name, told without the searches

  ghost predicate FirstMarkAt(part: string, c: char, k: nat) {
    MarkAt(part, c, k) && forall j: nat :: j < k ==> !MarkAt(part, c, j)
  }

  ghost predicate HasMark(part: string, c: char) {
    exists k: nat :: MarkAt(part, c, k)
  }

  /** The name and class a part stands for: what precedes the first "(S)", else the first "(E)", else all of it. */
  ghost predicate StandsFor(part: string, name: string, kind: Kind) {
    match kind
    case Start => name <= part && FirstMarkAt(part, 'S', |name|)
    case End => !HasMark(part, 'S') && name <= part && FirstMarkAt(part, 'E', |name|)
    case Composite => !HasMark(part, 'S') && !HasMark(part, 'E') && name == part
    case History => false
  }

  lemma UnmarkIs(part: string, name: string, kind: Kind)
    requires StandsFor(part, name, kind)
    ensures Unmark(part) == (name, kind)
  {
    hide FindMark;
    FindMarkIs(part, 'S');
    FindMarkIs(part, 'E');
    assert kind.Start? ==> FindMark(part, 'S') == Some(|name|) && part[..|name|] == name;
    assert kind.End? ==> FindMark(part, 'E') == Some(|name|) && part[..|name|] == name;
  }

  lemma {:induction false} FirstNamedIs(t: Tree, children: seq<StateId>, name: string, k: nat)
    requires Known(t, children) && (forall c <- children :: c < |t|) && k < |children| && t[children[k]].name == name
    requires forall j :: 0 <= j < k ==> t[children[j]].name != name
    ensures FirstNamed(t, children, name) == Some(children[k])
    decreases k
  {
    if k > 0 {
      assert t[children[0]].name != name && forall c <- children[1..] :: c in children;
      FirstNamedIs(t, children[1..], name, k - 1);
    }
  }

  /** The part asks for a history state: one is made if there is none, and it is the result. */
  lemma StepMakesHistory(t: Tree, i: StateId, part: string)
    requires WellFormed(t) && i < |t| && t[i].kind.Composite? && HasMark(part, 'H')
    requires forall c <- t[i].children :: c < |t| && !t[c].kind.History?
    ensures Step(t, i, part) == Round(ReplaceChild(t, i, History, "(H)"), Some(|t|), true)
  {
    FindMarkIs(part, 'H');
    NoChildOfKind(t, i, History);
  }

  /** Otherwise the first child of that name is where the descent goes on, whatever its class, and nothing is made. */
  lemma StepFindsChild(t: Tree, i: StateId, part: string, name: string, kind: Kind, k: nat)
    requires WellFormed(t) && i < |t| && t[i].kind.Composite? && StandsFor(part, name, kind)
    requires HasMark(part, 'H') ==> HistoryOf(t, i).Some?
    requires Known(t, t[i].children) && k < |t[i].children| && t[t[i].children[k]].name == name
    requires forall j :: 0 <= j < k ==> t[t[i].children[j]].name != name
    ensures Step(t, i, part) == Round(t, Some(t[i].children[k]), false)
  {
    FindMarkIs(part, 'H');
    UnmarkIs(part, name, kind);
    ChildrenInRange(t, i);
    FirstNamedIs(t, t[i].children, name, k);
  }

  /** And if there is no such child it is made: a start or an end state is the result, a State is where the descent goes on. */
  lemma StepMakesChild(t: Tree, i: StateId, part: string, name: string, kind: Kind)
    requires WellFormed(t) && i < |t| && t[i].kind.Composite? && StandsFor(part, name, kind)
    requires HasMark(part, 'H') ==> HistoryOf(t, i).Some?
    requires forall c <- t[i].children :: c < |t| && t[c].name != name
    ensures Step(t, i, part)
         == Round(if kind.Start? then ReplaceChild(t, i, Start, name) else AddChild(t, i, kind, name), Some(|t|), !kind.Composite?)
  {
    FindMarkIs(part, 'H');
    UnmarkIs(part, name, kind);
  }

  /** Below a pseudo-state there is nothing to find. */
  lemma StepBelowPseudo(t: Tree, i: StateId, part: string)
    requires WellFormed(t) && i < |t| && !t[i].kind.Composite?
    ensures Step(t, i, part) == Round(t, None, true)
  {
  }

  /** A part that makes a pseudo-state ends the descent with it, and what follows is not read. A State, found or made, is gone
      on from. Below a pseudo-state that was there before, the rest is refused. */
  lemma DescentOf(t: Tree, i: StateId, part: string, name: string, kind: Kind, rest: seq<string>)
    requires WellFormed(t) && i < |t| && StandsFor(part, name, kind)
    ensures !t[i].kind.Composite? ==> Descend(t, i, [part] + rest) == (t, None)
    ensures t[i].kind.Composite? && HasMark(part, 'H') && (forall c <- t[i].children :: c < |t| && !t[c].kind.History?) ==>
              Descend(t, i, [part] + rest) == (ReplaceChild(t, i, History, "(H)"), Some(|t|))
    ensures t[i].kind.Composite? && !HasMark(part, 'H') && (forall c <- t[i].children :: c < |t| && t[c].name != name) ==>
              if kind.Start? then Descend(t, i, [part] + rest) == (ReplaceChild(t, i, Start, name), Some(|t|))
              else if kind.End? then Descend(t, i, [part] + rest) == (AddChild(t, i, End, name), Some(|t|))
              else
                var u := AddChild(t, i, Composite, name);
                WellFormed(u) && |t| < |u| && Descend(t, i, [part] + rest) == Descend(u, |t|, rest)
  {
    hide Step, Unmark, FindMark, AddChild, ReplaceChild;
    var parts := [part] + rest;
    assert parts[1..] == rest;
    StepWellFormed(t, i, part);
    if !t[i].kind.Composite? {
      StepBelowPseudo(t, i, part);
    } else if HasMark(part, 'H') {
      if forall c <- t[i].children :: c < |t| && !t[c].kind.History? { StepMakesHistory(t, i, part); }
    } else if forall c <- t[i].children :: c < |t| && t[c].name != name {
      StepMakesChild(t, i, part, name, kind);
    }
  }

  /** What precedes the first separator does not matter. */
  lemma BeforeFirstSlash(t: Tree, root: Option<StateId>, a: string, b: string, rest: string)
    requires WellFormed(t) && (root.Some? ==> root.value < |t|) && '/' !in a && '/' !in b
    ensures Extract(t, root, a + "/" + rest) == Extract(t, root, b + "/" + rest)
  {
    hide Split, Descend;
    SplitAtSlash(a, rest);
    SplitAtSlash(b, rest);
    if Split(rest) != [] {
      assert ([a] + Split(rest))[2..] == Split(rest)[1..] && ([b] + Split(rest))[2..] == Split(rest)[1..];
    }
  }

  /** A name without a separator, with nothing after its only separator, or of another root, is refused and changes nothing. */
  lemma Refused(t: Tree, root: Option<StateId>, a: string, rest: string)
    requires WellFormed(t) && (root.Some? ==> root.value < |t|) && '/' !in a
    ensures Extract(t, root, a) == (t, root, None) && Extract(t, root, a + "/") == (t, root, None)
    ensures root.Some? && rest != "" && Split(rest)[0] != t[root.value].name ==> Extract(t, root, a + "/" + rest) == (t, root, None)
  {
    SplitAtSlash(a, rest);
    SplitAtSlash(a, "");
    assert a + "/" + "" == a + "/";
    if a != "" { assert FirstSlash(a).None?; }
  }
}

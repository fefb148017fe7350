/** RapidXmlStream: a document of nodes and a pointer to the current node
    (src/lib/osCoreImpl/src/RapidXmlStream.cpp). The node is given by its path, the child numbers from the document
    down. Operations are functions on a Stream value; the class at the end performs them in place and is proved
    against them. */
module XmlStream {
  import opened Options
  import opened Decimal
  import opened KeyTree

  datatype XNode = XNode(name: string, value: string, children: seq<XNode>)

  datatype Stream = Stream(document: XNode, current: seq<nat>)

  // ----- nodes

  ghost predicate HasPath(n: XNode, path: seq<nat>) {
    path == [] || (path[0] < |n.children| && HasPath(n.children[path[0]], path[1..]))
  }

  /** The node at the end of a path; a path that leaves the tree stops where it does. */
  function At(n: XNode, path: seq<nat>): XNode
    decreases |path|
  {
    if path == [] || path[0] >= |n.children| then n else At(n.children[path[0]], path[1..])
  }

  /** Changing the node at the end of a path in place. */
  function Change(n: XNode, path: seq<nat>, x: XNode): XNode
    decreases |path|
  {
    if path == [] then x
    else if path[0] >= |n.children| then n
    else XNode(n.name, n.value, n.children[path[0] := Change(n.children[path[0]], path[1..], x)])
  }

  function Here(s: Stream): XNode {
    At(s.document, s.current)
  }

  function Replaced(s: Stream, x: XNode): Stream {
    Stream(Change(s.document, s.current, x), s.current)
  }

  function Parent(path: seq<nat>): seq<nat>
    requires path != []
  {
    path[..|path| - 1]
  }

  // ----- array nodes (cpp:280-291)

  /** std::string::rfind: the last place where the pattern starts. */
  function RFind(s: string, pattern: string): (r: Option<nat>)
    ensures r.Some? ==> r.value + |pattern| <= |s|
  {
    RFindFrom(s, pattern, |s|)
  }

  function RFindFrom(s: string, pattern: string, n: nat): (r: Option<nat>)
    requires n <= |s|
    ensures r.Some? ==> r.value + |pattern| <= |s|
    decreases n
  {
    if n + |pattern| <= |s| && s[n..n + |pattern|] == pattern then Some(n)
    else if n == 0 then None
    else RFindFrom(s, pattern, n - 1)
  }

  predicate IsArrayName(name: string) {
    var pos := RFind(name, ARRAY_SUFFIX);
    pos.Some? && name[pos.value..] == ARRAY_SUFFIX
  }

  /** The name of a row: what precedes the suffix of the array. */
  function RowName(name: string): string {
    var pos := RFind(name, ARRAY_SUFFIX);
    if pos.None? then name else name[..pos.value]
  }

  function ParentArray(s: Stream): Option<seq<nat>> {
    if s.current != [] && IsArrayName(At(s.document, Parent(s.current)).name) then Some(Parent(s.current)) else None
  }

  function ArrayOf(s: Stream): Option<seq<nat>> {
    if IsArrayName(Here(s).name) then Some(s.current) else ParentArray(s)
  }

  // ----- values (cpp:53-91, 234-249)

  function GetText(s: Stream, default: string): string {
    Here(s).value
  }

  function SetText(s: Stream, text: string): (Stream, bool) {
    (Replaced(s, Here(s).(value := text)), true)
  }

  function GetInt(s: Stream, default: Int32): Int32 {
    ReadInt(Here(s).value)
  }

  function SetInt(s: Stream, n: Int32): (Stream, bool) {
    SetText(s, IntText(n))
  }

  // ----- keys (cpp:106-157, 251-267)

  /** first_node with a name: the first child that has exactly that name. */
  function FirstNamed(children: seq<XNode>, name: string): (r: Option<nat>)
    ensures r.Some? ==> r.value < |children|
  {
    if children == [] then None
    else if children[0].name == name then Some(0)
    else
      var r := FirstNamed(children[1..], name);
      if r.None? then None else Some(r.value + 1)
  }

  /** first_node as openKey calls it: without a name for the empty key, which finds the first child at all. */
  function FirstNode(children: seq<XNode>, key: string): (r: Option<nat>)
    ensures r.Some? ==> r.value < |children|
  {
    if key != "" then FirstNamed(children, key) else if children == [] then None else Some(0)
  }

  function Appended(n: XNode, child: XNode): XNode {
    n.(children := n.children + [child])
  }

  function OpenOrCreate(s: Stream, key: string, create: bool): (Stream, Option<string>) {
    var n := Here(s);
    var child: Option<nat> := FirstNode(n.children, key);
    if child.Some? then (Stream(s.document, s.current + [child.value]), Some(key))
    else if !create then (s, None)
    else (Stream(Replaced(s, Appended(n, XNode(key, "", []))).document, s.current + [|n.children|]), Some(key))
  }

  function OpenKey(s: Stream, key: string): (Stream, Option<string>) {
    OpenOrCreate(s, key, false)
  }

  function CreateKey(s: Stream, key: string): (Stream, Option<string>) {
    OpenOrCreate(s, key, true)
  }

  /** Closing a row closes the array around it too. */
  function CloseKey(s: Stream): (Stream, bool)
    decreases |s.current|
  {
    if s.current == [] then (s, false)
    else
      var up := Stream(s.document, Parent(s.current));
      (if IsArrayName(Here(up).name) then CloseKey(up).0 else up, true)
  }

  /** Always by name: the empty key exists only as a child without a name. */
  predicate IsKeyExist(s: Stream, key: string) {
    FirstNamed(Here(s).children, key).Some?
  }

  // ----- arrays (cpp:170-232)

  function CreateArray(s: Stream, key: string): (Stream, Option<string>) {
    CreateKey(s, key + ARRAY_SUFFIX)
  }

  function OpenArray(s: Stream, key: string): (Stream, Option<string>) {
    OpenKey(s, key + ARRAY_SUFFIX)
  }

  function CreateRow(s: Stream): (Stream, Option<string>) {
    var a := ArrayOf(s);
    if a.None? then (s, None)
    else
      var n := At(s.document, a.value);
      (Stream(Change(s.document, a.value, Appended(n, XNode(RowName(n.name), "", []))), a.value + [|n.children|]),
       Some(RowName(n.name)))
  }

  function OpenRow(s: Stream, index: nat): (Stream, Option<string>) {
    var a := ArrayOf(s);
    if a.None? || index >= |At(s.document, a.value).children| then (s, None)
    else (Stream(s.document, a.value + [index]), Some(At(s.document, a.value).children[index].name))
  }

  /** The number of rows, read at the array node itself only. */
  function Size(s: Stream): nat {
    if IsArrayName(Here(s).name) then |Here(s).children| else 0
  }

  // ----- paths

  lemma {:induction false} PathExtends(n: XNode, path: seq<nat>, k: nat)
    requires HasPath(n, path)
    ensures HasPath(n, path + [k]) <==> k < |At(n, path).children|
    ensures k < |At(n, path).children| ==> At(n, path + [k]) == At(n, path).children[k]
    decreases |path|
  {
    if path == [] {
      assert (path + [k])[1..] == [];
    } else {
      assert (path + [k])[1..] == path[1..] + [k];
      PathExtends(n.children[path[0]], path[1..], k);
    }
  }

  lemma {:induction false} AtChange(n: XNode, path: seq<nat>, x: XNode)
    requires HasPath(n, path)
    ensures HasPath(Change(n, path, x), path) && At(Change(n, path, x), path) == x
    decreases |path|
  {
    if path != [] { AtChange(n.children[path[0]], path[1..], x); }
  }

  lemma {:induction false} ParentPath(n: XNode, path: seq<nat>)
    requires HasPath(n, path) && path != []
    ensures HasPath(n, Parent(path)) && path[|path| - 1] < |At(n, Parent(path)).children|
    ensures At(n, path) == At(n, Parent(path)).children[path[|path| - 1]]
  {
    ParentPathOf(n, path);
    PathExtends(n, Parent(path), path[|path| - 1]);
    assert Parent(path) + [path[|path| - 1]] == path;
  }

  lemma {:induction false} ParentPathOf(n: XNode, path: seq<nat>)
    requires HasPath(n, path) && path != []
    ensures HasPath(n, Parent(path))
    decreases |path|
  {
    if |path| > 1 {
      ParentPathOf(n.children[path[0]], path[1..]);
      assert Parent(path)[1..] == Parent(path[1..]);
    }
  }

  // ----- the stream itself

  class RapidXmlStream {
    var document: XNode
    var current: seq<nat>

    ghost function State(): Stream
      reads this
    {
      Stream(document, current)
    }

    /** The current node is a node of the document. */
    ghost predicate Valid()
      reads this
    {
      HasPath(document, current)
    }

    constructor ()
      ensures Valid() && State() == Stream(XNode("", "", []), [])
    {
      document, current := XNode("", "", []), [];
    }

    method GetTextValue(default: string) returns (text: string)
      requires Valid()
      ensures text == GetText(State(), default)
    {
      text := At(document, current).value;
    }

    method GetIntValue(default: Int32) returns (n: Int32)
      requires Valid()
      ensures n == GetInt(State(), default)
    {
      n := ReadInt(At(document, current).value);
    }

    method SetTextValue(text: string) returns (done: bool)
      requires Valid()
      modifies this`document
      ensures Valid() && (State(), done) == SetText(old(State()), text)
    {
      var n := At(document, current);
      AtChange(document, current, n.(value := text));
      document := Change(document, current, n.(value := text));
      done := true;
    }

    method SetIntValue(n: Int32) returns (done: bool)
      requires Valid()
      modifies this`document
      ensures Valid() && (State(), done) == SetInt(old(State()), n)
    {
      done := SetTextValue(IntText(n));
    }

    method DoOpenOrCreate(key: string, create: bool) returns (r: Option<string>)
      requires Valid()
      modifies this
      ensures Valid() && (State(), r) == OpenOrCreate(old(State()), key, create)
    {
      var n := At(document, current);
      var child: Option<nat> := FirstNode(n.children, key);
      if child.None? {
        if !create {
          return None;
        }
        child := Some(|n.children|);
        AtChange(document, current, Appended(n, XNode(key, "", [])));
        document := Change(document, current, Appended(n, XNode(key, "", [])));
      }
      PathExtends(document, current, child.value);
      current := current + [child.value];
      r := Some(key);
    }

    method DoCloseKey() returns (done: bool)
      requires Valid()
      modifies this`current
      ensures Valid() && (State(), done) == CloseKey(old(State()))
      decreases |current|
    {
      if current == [] {
        return false;
      }
      ParentPath(document, current);
      current := current[..|current| - 1];
      if IsArrayName(At(document, current).name) {
        var _ := DoCloseKey();
      }
      return true;
    }

    method KeyExists(key: string) returns (exist: bool)
      requires Valid()
      ensures exist == IsKeyExist(State(), key)
    {
      exist := FirstNamed(At(document, current).children, key).Some?;
    }

    method FindArray() returns (a: Option<seq<nat>>)
      requires Valid()
      ensures a == ArrayOf(State()) && (a.Some? ==> HasPath(document, a.value))
    {
      if IsArrayName(At(document, current).name) {
        return Some(current);
      }
      if current == [] {
        return None;
      }
      ParentPath(document, current);
      var up := current[..|current| - 1];
      a := if IsArrayName(At(document, up).name) then Some(up) else None;
    }

    method DoCreateRow() returns (r: Option<string>)
      requires Valid()
      modifies this
      ensures Valid() && (State(), r) == CreateRow(old(State()))
    {
      var a := FindArray();
      if a.None? {
        return None;
      }
      var n := At(document, a.value);
      var row := XNode(RowName(n.name), "", []);
      AtChange(document, a.value, Appended(n, row));
      document := Change(document, a.value, Appended(n, row));
      PathExtends(document, a.value, |n.children|);
      current := a.value + [|n.children|];
      r := Some(row.name);
    }

    /** next_sibling, any name. */
    method NextSibling() returns (found: bool)
      requires Valid() && current != []
      modifies this`current
      ensures Valid()
      ensures var (up, k) := (Parent(old(current)), old(current)[|old(current)| - 1]);
              && found == (k + 1 < |At(document, up).children|)
              && current == if found then up + [k + 1] else old(current)
    {
      var up, k := current[..|current| - 1], current[|current| - 1];
      ParentPath(document, current);
      if k + 1 >= |At(document, up).children| {
        return false;
      }
      PathExtends(document, up, k + 1);
      current := up + [k + 1];
      found := true;
    }

    /** The scope guard puts the current node back when there is no such row. */
    method DoOpenRow(index: nat) returns (r: Option<string>)
      requires Valid()
      modifies this`current
      ensures Valid() && (State(), r) == OpenRow(old(State()), index)
    {
      var a := FindArray();
      if a.None? {
        return None;
      }
      var before := current;
      current := a.value;
      var rows := |At(document, current).children|;
      var open := rows > 0;
      if open {
        PathExtends(document, current, 0);
        current := current + [0];
      }
      var i := 0;
      while i != index && open
        invariant Valid() && rows == |At(document, a.value).children|
        invariant open ==> i < rows && i <= index && current == a.value + [i]
        invariant !open ==> rows <= index
        decreases index - i, open
      {
        i := i + 1;
        open := NextSibling();
      }
      if !open {
        current := before;
        return None;
      }
      PathExtends(document, a.value, index);
      return Some(At(document, current).name);
    }

    /** The loop over the siblings of the first row. */
    method RowCount() returns (n: nat)
      requires Valid()
      ensures n == Size(State())
    {
      var here := At(document, current);
      if !IsArrayName(here.name) {
        return 0;
      }
      n := 0;
      while n < |here.children|
        invariant n <= |here.children|
      {
        n := n + 1;
      }
    }
  }
}

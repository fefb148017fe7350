/** Writing a tree to an XML stream and reading it back. */
module XmlTree {
  import opened Options
  import opened Sequences
  import opened Decimal
  import opened KeyTree
  import opened KeyScript
  import opened XmlStream

  /** The operations of RapidXmlStream that clients of a key stream call. */
  const XML: KeyStream<Stream> :=
    KeyStream(CreateKey, OpenKey, CloseKey, CreateArray, OpenArray, CreateRow, OpenRow, Size, SetText, SetInt, GetText, GetInt)

  // ----- what is stored

  /** The node of a member: an array that is created on its key takes the suffix. */
  function NodeName(key: string, v: Tree, named: bool): string {
    if named && v.Arr? then key + ARRAY_SUFFIX else key
  }

  function Encode(name: string, t: Tree, named: bool): XNode
    decreases t, 1, 0
  {
    match t
    case Str(text) => XNode(name, text, [])
    case Num(n) => XNode(name, IntText(n), [])
    case Obj(members) => XNode(name, "", EncodeMembers(t, |members|, named))
    case Arr(elements) => XNode(name, "", [ArrayNode("", EncodeRows("", t, |elements|, named))])
  }

  function ArrayNode(name: string, rows: seq<XNode>): XNode {
    XNode(name + ARRAY_SUFFIX, "", rows)
  }

  function EncodeMember(key: string, v: Tree, named: bool): XNode
    decreases v, 2, 0
  {
    if named && v.Arr? then ArrayNode(key, EncodeRows(key, v, |v.elements|, named)) else Encode(key, v, named)
  }

  function EncodeMembers(t: Tree, n: nat, named: bool): (r: seq<XNode>)
    requires t.Obj? && n <= |t.members|
    ensures |r| == n
    decreases t, 0, n
  {
    if n == 0 then [] else EncodeMembers(t, n - 1, named) + [EncodeMember(t.members[n - 1].0, t.members[n - 1].1, named)]
  }

  function EncodeRows(name: string, t: Tree, n: nat, named: bool): (r: seq<XNode>)
    requires t.Arr? && n <= |t.elements|
    ensures |r| == n
    decreases t, 0, n
  {
    if n == 0 then [] else EncodeRows(name, t, n - 1, named) + [Encode(name, t.elements[n - 1], named)]
  }

  lemma {:induction false} EncodedMember(t: Tree, n: nat, k: nat, named: bool)
    requires t.Obj? && k < n <= |t.members|
    ensures EncodeMembers(t, n, named)[k] == EncodeMember(t.members[k].0, t.members[k].1, named)
    decreases n
  {
    if k < n - 1 { EncodedMember(t, n - 1, k, named); }
  }

  lemma {:induction false} EncodedRow(name: string, t: Tree, n: nat, k: nat, named: bool)
    requires t.Arr? && k < n <= |t.elements|
    ensures EncodeRows(name, t, n, named)[k] == Encode(name, t.elements[k], named)
    decreases n
  {
    if k < n - 1 { EncodedRow(name, t, n - 1, k, named); }
  }

  // ----- the suffix

  lemma {:induction false} SuffixFound(name: string, n: nat)
    requires |name| <= n <= |name + ARRAY_SUFFIX|
    ensures RFindFrom(name + ARRAY_SUFFIX, ARRAY_SUFFIX, n) == Some(|name|)
    decreases n
  {
    if n > |name| {
      SuffixFound(name, n - 1);
    } else {
      assert (name + ARRAY_SUFFIX)[n..n + |ARRAY_SUFFIX|] == ARRAY_SUFFIX;
    }
  }

  /** A node is an array exactly when its name ends with the suffix; what precedes it names the rows. */
  lemma ArrayNameIff(name: string)
    ensures IsArrayName(name) <==> EndsWith(name, ARRAY_SUFFIX)
    ensures IsArrayName(name + ARRAY_SUFFIX) && RowName(name + ARRAY_SUFFIX) == name
  {
    SuffixFound(name, |name + ARRAY_SUFFIX|);
    assert (name + ARRAY_SUFFIX)[..|name|] == name && (name + ARRAY_SUFFIX)[|name|..] == ARRAY_SUFFIX;
    if EndsWith(name, ARRAY_SUFFIX) {
      var stem := name[..|name| - |ARRAY_SUFFIX|];
      assert stem + ARRAY_SUFFIX == name;
      SuffixFound(stem, |name|);
    }
  }

  // ----- changing one place

  lemma {:induction false} ChangeTwice(n: XNode, path: seq<nat>, x: XNode, y: XNode)
    requires HasPath(n, path)
    ensures Change(Change(n, path, x), path, y) == Change(n, path, y)
    ensures Change(n, path, At(n, path)) == n
    decreases |path|
  {
    if path != [] {
      var k, c := path[0], n.children[path[0]];
      ChangeTwice(c, path[1..], x, y);
      assert n.children[k := Change(c, path[1..], x)][k := Change(c, path[1..], y)] == n.children[k := Change(c, path[1..], y)];
      assert n.children[k := c] == n.children;
    }
  }

  lemma {:induction false} ChangeChild(n: XNode, path: seq<nat>, k: nat, x: XNode)
    requires HasPath(n, path) && k < |At(n, path).children|
    ensures Change(n, path + [k], x) == Change(n, path, WithChild(At(n, path), k, x))
    decreases |path|
  {
    if path == [] {
      assert path + [k] == [k] && [k][1..] == [];
    } else {
      assert (path + [k])[1..] == path[1..] + [k];
      ChangeChild(n.children[path[0]], path[1..], k, x);
    }
  }

  function WithChild(n: XNode, k: nat, x: XNode): XNode
    requires k < |n.children|
  {
    n.(children := n.children[k := x])
  }

  ghost predicate Holds(s: Stream, x: XNode) {
    HasPath(s.document, s.current) && Here(s) == x
  }

  lemma ReplacedHolds(s: Stream, x: XNode, y: XNode)
    requires HasPath(s.document, s.current)
    ensures Holds(Replaced(s, x), x) && Replaced(Replaced(s, x), y) == Replaced(s, y)
    ensures Replaced(s, Here(s)) == s
  {
    AtChange(s.document, s.current, x);
    ChangeTwice(s.document, s.current, x, y);
  }

  /** Adding a child to a node and then changing that child. */
  lemma AppendThenChange(doc: XNode, path: seq<nat>, n: XNode, child: XNode, x: XNode)
    requires HasPath(doc, path) && At(doc, path) == n
    ensures var grown, below := Change(doc, path, Appended(n, child)), path + [|n.children|];
            && HasPath(grown, below) && At(grown, below) == child
            && Change(grown, below, x) == Change(doc, path, Appended(n, x))
  {
    var grown := Change(doc, path, Appended(n, child));
    AtChange(doc, path, Appended(n, child));
    PathExtends(grown, path, |n.children|);
    ChangeChild(grown, path, |n.children|, x);
    assert WithChild(Appended(n, child), |n.children|, x) == Appended(n, x);
    ChangeTwice(doc, path, Appended(n, child), Appended(n, x));
  }

  // ----- a new child

  lemma EnterChild(s: Stream, n: XNode, key: string, x: XNode)
    requires Holds(s, n) && FirstNode(n.children, key).None? && !IsArrayName(n.name)
    ensures Holds(CreateKey(s, key).0, XNode(key, "", []))
    ensures CloseKey(Replaced(CreateKey(s, key).0, x)).0 == Replaced(s, Appended(n, x))
  {
    AppendThenChange(s.document, s.current, n, XNode(key, "", []), x);
    AtChange(s.document, s.current, Appended(n, x));
    assert Parent(s.current + [|n.children|]) == s.current;
  }

  // ----- arrays

  /** The current node is an array node of this content, at this path, or one of its rows. */
  ghost predicate AtRows(s: Stream, p: seq<nat>, name: string, rows: seq<XNode>) {
    && !IsArrayName(name)
    && HasPath(s.document, p) && At(s.document, p) == ArrayNode(name, rows)
    && (s.current == p || (s.current != [] && Parent(s.current) == p && Here(s).name == name))
  }

  lemma FindsArray(s: Stream, p: seq<nat>, name: string, rows: seq<XNode>)
    requires AtRows(s, p, name, rows)
    ensures ArrayOf(s) == Some(p)
  {
    ArrayNameIff(name);
  }

  /** Leaving an array, from the array node or from a row, leads to the node around it. */
  lemma LeaveArray(s: Stream, around: seq<nat>, k: nat, name: string, rows: seq<XNode>)
    requires AtRows(s, around + [k], name, rows) && !IsArrayName(At(s.document, around).name)
    ensures CloseKey(s).0 == Stream(s.document, around)
  {
    var p := around + [k];
    ArrayNameIff(name);
    assert Parent(p) == around;
    if s.current != p { assert CloseKey(s).0 == CloseKey(Stream(s.document, p)).0; }
  }

  lemma EnterRow(s: Stream, p: seq<nat>, name: string, rows: seq<XNode>, x: XNode)
    requires AtRows(s, p, name, rows) && x.name == name
    ensures Holds(CreateRow(s).0, XNode(name, "", []))
    ensures AtRows(Replaced(CreateRow(s).0, x), p, name, rows + [x])
    ensures Replaced(CreateRow(s).0, x).document == Change(s.document, p, ArrayNode(name, rows + [x]))
  {
    ArrayNameIff(name);
    FindsArray(s, p, name, rows);
    AppendThenChange(s.document, p, ArrayNode(name, rows), XNode(name, "", []), x);
    AtChange(s.document, p, ArrayNode(name, rows + [x]));
    ReplacedHolds(CreateRow(s).0, x, x);
    assert Parent(p + [|rows|]) == p;
  }

  /** createArray on a node that has no such array yet. */
  lemma EnterArray(s: Stream, n: XNode, key: string)
    requires Holds(s, n) && FirstNode(n.children, key + ARRAY_SUFFIX).None? && !IsArrayName(n.name) && !IsArrayName(key)
    ensures var a := CreateArray(s, key).0;
            && a.current == s.current + [|n.children|]
            && a.document == Change(s.document, s.current, Appended(n, ArrayNode(key, [])))
            && AtRows(a, a.current, key, [])
  {
    AppendThenChange(s.document, s.current, n, ArrayNode(key, []), ArrayNode(key, []));
  }

  lemma RowsThenLeave(s: Stream, n: XNode, key: string, rows: seq<XNode>, r: Stream)
    requires Holds(s, n) && FirstNode(n.children, key + ARRAY_SUFFIX).None? && !IsArrayName(n.name) && !IsArrayName(key)
    requires var a := CreateArray(s, key).0;
             AtRows(r, a.current, key, rows) && r.document == Change(a.document, a.current, ArrayNode(key, rows))
    ensures CloseKey(r).0 == Replaced(s, Appended(n, ArrayNode(key, rows)))
  {
    EnterArray(s, n, key);
    AppendThenChange(s.document, s.current, n, ArrayNode(key, []), ArrayNode(key, rows));
    AtChange(s.document, s.current, Appended(n, ArrayNode(key, rows)));
    LeaveArray(r, s.current, |n.children|, key, rows);
  }

  // ----- names of the members

  lemma {:induction false} FirstNodeIs(children: seq<XNode>, key: string, k: nat)
    requires key != "" && k <= |children| && forall j :: 0 <= j < k ==> children[j].name != key
    ensures k < |children| && children[k].name == key ==> FirstNode(children, key) == Some(k)
    ensures k == |children| ==> FirstNode(children, key).None?
    decreases |children|
  {
    if k > 0 { FirstNodeIs(children[1..], key, k - 1); }
  }

  lemma NodeNamesDiffer(a: string, v: Tree, b: string, w: Tree, named: bool)
    requires KeyAllowed(a, XmlFormat) && KeyAllowed(b, XmlFormat) && a != b
    ensures NodeName(a, v, named) != NodeName(b, w, named)
  {
    assert (a + ARRAY_SUFFIX)[|a|..] == ARRAY_SUFFIX && (b + ARRAY_SUFFIX)[|b|..] == ARRAY_SUFFIX;
    assert (a + ARRAY_SUFFIX)[..|a|] == a && (b + ARRAY_SUFFIX)[..|b|] == b;
  }

  lemma MemberWritable(t: Tree, i: nat)
    requires t.Obj? && i < |t.members| && Writable(t, XmlFormat)
    ensures KeyAllowed(t.members[i].0, XmlFormat) && Writable(t.members[i].1, XmlFormat)
  {
  }

  /** The node of an earlier member has another name. */
  lemma EarlierDiffers(t: Tree, n: nat, i: nat, k: nat, named: bool)
    requires t.Obj? && k < i < |t.members| && k < n <= |t.members| && Writable(t, XmlFormat)
    ensures EncodeMembers(t, n, named)[k].name != NodeName(t.members[i].0, t.members[i].1, named)
  {
    EncodedMember(t, n, k, named);
    MemberWritable(t, i);
    MemberWritable(t, k);
    NodeNamesDiffer(t.members[k].0, t.members[k].1, t.members[i].0, t.members[i].1, named);
  }

  lemma NewMember(t: Tree, i: nat, named: bool)
    requires t.Obj? && i < |t.members| && Writable(t, XmlFormat)
    ensures FirstNode(EncodeMembers(t, i, named), NodeName(t.members[i].0, t.members[i].1, named)).None?
  {
    var children, key := EncodeMembers(t, i, named), NodeName(t.members[i].0, t.members[i].1, named);
    forall k | 0 <= k < i
      ensures children[k].name != key
    {
      EarlierDiffers(t, i, i, k, named);
    }
    MemberWritable(t, i);
    FirstNodeIs(children, key, i);
  }

  lemma StoredMember(t: Tree, i: nat, named: bool)
    requires t.Obj? && i < |t.members| && Writable(t, XmlFormat)
    ensures var children := EncodeMembers(t, |t.members|, named);
            && FirstNode(children, NodeName(t.members[i].0, t.members[i].1, named)) == Some(i)
            && children[i] == EncodeMember(t.members[i].0, t.members[i].1, named)
  {
    var children, key := EncodeMembers(t, |t.members|, named), NodeName(t.members[i].0, t.members[i].1, named);
    forall k | 0 <= k < i
      ensures children[k].name != key
    {
      EarlierDiffers(t, |t.members|, i, k, named);
    }
    EncodedMember(t, |t.members|, i, named);
    MemberWritable(t, i);
    FirstNodeIs(children, key, i);
  }

  // ----- writing

  lemma {:induction false} WriteMakes(s: Stream, name: string, t: Tree, named: bool)
    requires Holds(s, XNode(name, "", [])) && !IsArrayName(name) && Writable(t, XmlFormat)
    ensures Write(XML, s, t, named) == Replaced(s, Encode(name, t, named))
    decreases t, 1, 0
  {
    match t
    case Str(_) =>
    case Num(_) =>
    case Obj(_) =>
      WriteMembersMakes(s, name, t, 0, named);
    case Arr(elements) =>
      UnnamedArray(s, name, t, named);
  }

  lemma {:induction false} UnnamedArray(s: Stream, name: string, t: Tree, named: bool)
    requires t.Arr? && Holds(s, XNode(name, "", [])) && !IsArrayName(name) && Writable(t, XmlFormat)
    ensures CloseKey(WriteRows(XML, CreateArray(s, "").0, t, 0, named)).0 == Replaced(s, Encode(name, t, named))
    decreases t, 0, |t.elements| + 1
  {
    var n, a := XNode(name, "", []), CreateArray(s, "").0;
    var rows := EncodeRows("", t, |t.elements|, named);
    ArrayNameIff("");
    EnterArray(s, n, "");
    WriteRowsMakes(a, a.current, "", t, 0, named);
    RowsThenLeave(s, n, "", rows, WriteRows(XML, a, t, 0, named));
    assert Appended(n, ArrayNode("", rows)).children == [ArrayNode("", rows)];
  }

  lemma {:induction false} WriteMembersMakes(s: Stream, name: string, t: Tree, i: nat, named: bool)
    requires t.Obj? && i <= |t.members| && Writable(t, XmlFormat) && !IsArrayName(name)
    requires Holds(s, XNode(name, "", EncodeMembers(t, i, named)))
    ensures WriteMembers(XML, s, t, i, named) == Replaced(s, Encode(name, t, named))
    decreases t, 0, |t.members| - i
  {
    hide Change, At, HasPath, EncodeMember;
    if i == |t.members| {
      ReplacedHolds(s, Here(s), Here(s));
    } else {
      var (key, v) := t.members[i];
      var next := XNode(name, "", EncodeMembers(t, i + 1, named));
      WriteMemberMakes(s, name, t, i, named);
      ReplacedHolds(s, next, Encode(name, t, named));
      WriteMembersMakes(Replaced(s, next), name, t, i + 1, named);
    }
  }

  lemma {:induction false} WriteMemberMakes(s: Stream, name: string, t: Tree, i: nat, named: bool)
    requires t.Obj? && i < |t.members| && Writable(t, XmlFormat) && !IsArrayName(name)
    requires Holds(s, XNode(name, "", EncodeMembers(t, i, named)))
    ensures WriteMember(XML, s, t.members[i].0, t.members[i].1, named)
         == Replaced(s, XNode(name, "", EncodeMembers(t, i + 1, named)))
    decreases t, 0, 0
  {
    var (key, v) := t.members[i];
    var n := XNode(name, "", EncodeMembers(t, i, named));
    MemberWritable(t, i);
    ArrayNameIff(key);
    NewMember(t, i, named);
    if named && v.Arr? {
      var a := CreateArray(s, key).0;
      EnterArray(s, n, key);
      WriteRowsMakes(a, a.current, key, v, 0, named);
      RowsThenLeave(s, n, key, EncodeRows(key, v, |v.elements|, named), WriteRows(XML, a, v, 0, named));
    } else {
      EnterChild(s, n, key, Encode(key, v, named));
      WriteMakes(CreateKey(s, key).0, key, v, named);
    }
  }

  /** `r` is `s` with these rows instead, somewhere in the same array. */
  ghost predicate RowsPut(s: Stream, p: seq<nat>, name: string, rows: seq<XNode>, r: Stream) {
    AtRows(r, p, name, rows) && r.document == Change(s.document, p, ArrayNode(name, rows))
  }

  lemma {:induction false} WriteRow(s: Stream, p: seq<nat>, name: string, t: Tree, i: nat, named: bool)
    requires t.Arr? && i < |t.elements| && Writable(t, XmlFormat) && AtRows(s, p, name, EncodeRows(name, t, i, named))
    ensures RowsPut(s, p, name, EncodeRows(name, t, i + 1, named), Write(XML, CreateRow(s).0, t.elements[i], named))
    decreases t, 0, 0
  {
    var x := Encode(name, t.elements[i], named);
    EnterRow(s, p, name, EncodeRows(name, t, i, named), x);
    assert Writable(t.elements[i], XmlFormat);
    WriteMakes(CreateRow(s).0, name, t.elements[i], named);
  }

  lemma RowsPutSame(s: Stream, p: seq<nat>, name: string, rows: seq<XNode>)
    requires AtRows(s, p, name, rows)
    ensures RowsPut(s, p, name, rows, s)
  {
    ChangeTwice(s.document, p, ArrayNode(name, rows), ArrayNode(name, rows));
  }

  lemma RowsPutTwice(s: Stream, p: seq<nat>, name: string, before: seq<XNode>, rows: seq<XNode>, r: Stream, all: seq<XNode>, q: Stream)
    requires AtRows(s, p, name, before) && RowsPut(s, p, name, rows, r) && RowsPut(r, p, name, all, q)
    ensures RowsPut(s, p, name, all, q)
  {
    ChangeTwice(s.document, p, ArrayNode(name, rows), ArrayNode(name, all));
  }

  lemma {:induction false} WriteRowsMakes(s: Stream, p: seq<nat>, name: string, t: Tree, i: nat, named: bool)
    requires t.Arr? && i <= |t.elements| && Writable(t, XmlFormat) && AtRows(s, p, name, EncodeRows(name, t, i, named))
    ensures RowsPut(s, p, name, EncodeRows(name, t, |t.elements|, named), WriteRows(XML, s, t, i, named))
    decreases t, 0, |t.elements| - i
  {
    hide AtRows, EncodeRows;
    var all := EncodeRows(name, t, |t.elements|, named);
    if i == |t.elements| {
      RowsPutSame(s, p, name, all);
    } else {
      var next := Write(XML, CreateRow(s).0, t.elements[i], named);
      WriteRow(s, p, name, t, i, named);
      WriteRowsMakes(next, p, name, t, i + 1, named);
      RowsPutTwice(s, p, name, EncodeRows(name, t, i, named), EncodeRows(name, t, i + 1, named), next, all,
                   WriteRows(XML, next, t, i + 1, named));
    }
  }

  // ----- reading

  /** Opening a stored member leads to its node, and closing that leads back. */
  lemma OpenStored(s: Stream, name: string, t: Tree, i: nat, named: bool)
    requires t.Obj? && i < |t.members| && Writable(t, XmlFormat) && !IsArrayName(name)
    requires Holds(s, Encode(name, t, named))
    ensures var (key, v) := t.members[i];
            var c := Stream(s.document, s.current + [i]);
            && OpenKey(s, NodeName(key, v, named)) == (c, Some(NodeName(key, v, named)))
            && Holds(c, EncodeMember(key, v, named))
            && CloseKey(c).0 == s
  {
    StoredMember(t, i, named);
    PathExtends(s.document, s.current, i);
    assert Parent(s.current + [i]) == s.current;
  }

  lemma OpenStoredRow(s: Stream, p: seq<nat>, name: string, t: Tree, i: nat, named: bool)
    requires t.Arr? && i < |t.elements| && AtRows(s, p, name, EncodeRows(name, t, |t.elements|, named))
    ensures var c := Stream(s.document, p + [i]);
            && OpenRow(s, i) == (c, Some(Encode(name, t.elements[i], named).name))
            && Holds(c, Encode(name, t.elements[i], named))
            && AtRows(c, p, name, EncodeRows(name, t, |t.elements|, named))
  {
    FindsArray(s, p, name, EncodeRows(name, t, |t.elements|, named));
    EncodedRow(name, t, |t.elements|, i, named);
    PathExtends(s.document, p, i);
    assert Parent(p + [i]) == p;
  }

  lemma {:induction false} ReadBack(s: Stream, name: string, t: Tree, sc: Schema, named: bool)
    requires Holds(s, Encode(name, t, named)) && !IsArrayName(name) && Writable(t, XmlFormat) && Conforms(t, sc)
    ensures Read(XML, s, sc, named) == (s, Some(t))
    decreases t, 1, 0
  {
    match t
    case Str(_) =>
    case Num(n) =>
      ReadIntText(n);
    case Obj(_) =>
      ReadMembersBack(s, name, t, sc, 0, named);
      WholeSlice(t.members);
    case Arr(_) =>
      ReadUnnamed(s, name, t, sc, named);
  }

  lemma {:induction false} ReadUnnamed(s: Stream, name: string, t: Tree, sc: Schema, named: bool)
    requires t.Arr? && Holds(s, Encode(name, t, named)) && !IsArrayName(name) && Writable(t, XmlFormat) && Conforms(t, sc)
    ensures ReadArray(XML, OpenArray(s, ""), sc, named) == (s, Some(t))
    decreases t, 0, |t.elements| + 2
  {
    var a := Stream(s.document, s.current + [0]);
    ArrayNameIff("");
    PathExtends(s.document, s.current, 0);
    ReadArrayBack(a, s.current, 0, "", "" + ARRAY_SUFFIX, t, sc, named);
  }

  /** From the opened array node to the node around it. */
  lemma {:induction false} ReadArrayBack(a: Stream, around: seq<nat>, k: nat, name: string, key: string, t: Tree, sc: Schema, named: bool)
    requires t.Arr? && a.current == around + [k] && !IsArrayName(At(a.document, around).name)
    requires AtRows(a, a.current, name, EncodeRows(name, t, |t.elements|, named)) && Writable(t, XmlFormat) && Conforms(t, sc)
    ensures ReadArray(XML, (a, Some(key)), sc, named) == (Stream(a.document, around), Some(t))
    decreases t, 0, |t.elements| + 1
  {
    hide EncodeRows, Writable;
    ArrayNameIff(name);
    ReadRowsBack(a, a.current, name, t, sc, 0, named);
    WholeSlice(t.elements);
    LeaveArray(ReadRows(XML, a, sc, 0, |t.elements|, named).0, around, k, name, EncodeRows(name, t, |t.elements|, named));
  }

  lemma {:induction false} ReadRow(s: Stream, p: seq<nat>, name: string, t: Tree, sc: Schema, i: nat, named: bool)
    requires t.Arr? && i < |t.elements| && AtRows(s, p, name, EncodeRows(name, t, |t.elements|, named))
    requires Writable(t, XmlFormat) && Conforms(t, sc)
    ensures OpenRow(s, i).1.Some?
    ensures Read(XML, OpenRow(s, i).0, RowSchema(sc, i), named) == (Stream(s.document, p + [i]), Some(t.elements[i]))
    ensures AtRows(Stream(s.document, p + [i]), p, name, EncodeRows(name, t, |t.elements|, named))
    decreases t, 0, 0
  {
    OpenStoredRow(s, p, name, t, i, named);
    ReadBack(Stream(s.document, p + [i]), name, t.elements[i], RowSchema(sc, i), named);
  }

  lemma {:induction false} ReadRowsBack(s: Stream, p: seq<nat>, name: string, t: Tree, sc: Schema, i: nat, named: bool)
    requires t.Arr? && i <= |t.elements| && AtRows(s, p, name, EncodeRows(name, t, |t.elements|, named))
    requires Writable(t, XmlFormat) && Conforms(t, sc)
    ensures var r := ReadRows(XML, s, sc, i, |t.elements|, named);
            && r.0.document == s.document && AtRows(r.0, p, name, EncodeRows(name, t, |t.elements|, named))
            && r.1 == Some(t.elements[i..])
    decreases t, 0, |t.elements| - i
  {
    hide AtRows, EncodeRows, Read, OpenRow, Writable, Conforms;
    if i < |t.elements| {
      ReadRow(s, p, name, t, sc, i, named);
      ReadRowsBack(Stream(s.document, p + [i]), p, name, t, sc, i + 1, named);
      SliceCons(t.elements, i);
    } else {
      assert t.elements[i..] == [];
    }
  }

  lemma {:induction false} ReadMembersBack(s: Stream, name: string, t: Tree, sc: Schema, i: nat, named: bool)
    requires t.Obj? && i <= |t.members| && Holds(s, Encode(name, t, named)) && !IsArrayName(name)
    requires Writable(t, XmlFormat) && Conforms(t, sc)
    ensures ReadMembers(XML, s, sc, i, named) == (s, Some(t.members[i..]))
    decreases t, 0, |t.members| - i
  {
    hide Holds, Encode, ReadMember, Writable;
    if i < |t.members| {
      ReadMemberBack(s, name, t, sc, i, named);
      ReadMembersBack(s, name, t, sc, i + 1, named);
      SliceCons(t.members, i);
    } else {
      assert t.members[i..] == [];
    }
  }

  lemma {:induction false} ReadMemberBack(s: Stream, name: string, t: Tree, sc: Schema, i: nat, named: bool)
    requires t.Obj? && i < |t.members| && Holds(s, Encode(name, t, named)) && !IsArrayName(name)
    requires Writable(t, XmlFormat) && Conforms(t, sc)
    ensures ReadMember(XML, s, t.members[i].0, sc.members[i].1, named) == (s, Some(t.members[i].1))
    decreases t, 0, 0
  {
    var (key, v) := t.members[i];
    var c := Stream(s.document, s.current + [i]);
    OpenStored(s, name, t, i, named);
    MemberWritable(t, i);
    ArrayNameIff(key);
    if named && v.Arr? {
      ReadArrayBack(c, s.current, i, key, key + ARRAY_SUFFIX, v, sc.members[i].1, named);
    } else {
      ReadBack(c, key, v, sc.members[i].1, named);
    }
  }

  /** A tree written to a fresh XML stream is read back, with the current node back at the document each time. */
  lemma RoundTrip(t: Tree, sc: Schema, named: bool)
    requires Writable(t, XmlFormat) && Conforms(t, sc)
    ensures var written := Write(XML, Stream(XNode("", "", []), []), t, named);
            written == Stream(Encode("", t, named), []) && Read(XML, written, sc, named) == (written, Some(t))
  {
    ArrayNameIff("");
    WriteMakes(Stream(XNode("", "", []), []), "", t, named);
    ReadBack(Stream(Encode("", t, named), []), "", t, sc, named);
  }

  // ----- opening, creating and storing at any node

  lemma {:induction false} FirstNamedIs(children: seq<XNode>, name: string)
    ensures var r := FirstNamed(children, name);
            if r.Some? then children[r.value].name == name && forall j :: 0 <= j < r.value ==> children[j].name != name
            else forall j :: 0 <= j < |children| ==> children[j].name != name
    decreases |children|
  {
    if children != [] {
      var rest := children[1..];
      FirstNamedIs(rest, name);
      assert forall j :: 0 < j < |children| ==> children[j] == rest[j - 1];
    }
  }

  /** A key exists exactly if a child has that name. A named key opens exactly if it exists, the first such child; the empty
      key opens the first child, named or not. Opening changes no node, and moves nothing when it fails. */
  lemma ExistsIffOpens(s: Stream, key: string)
    requires HasPath(s.document, s.current)
    ensures IsKeyExist(s, key) <==> exists child :: child in Here(s).children && child.name == key
    ensures var (r, found) := OpenKey(s, key);
            && (found.Some? <==> if key == "" then Here(s).children != [] else IsKeyExist(s, key))
            && (found.None? ==> r == s)
            && (found.Some? ==> found.value == key && r.document == s.document && IsFirstChild(s, key, r.current))
  {
    var children := Here(s).children;
    FirstNamedIs(children, key);
    if FirstNode(children, key).Some? { PathExtends(s.document, s.current, FirstNode(children, key).value); }
  }

  /** The path leads to the first child of that name, or the first of all for the empty name. */
  ghost predicate IsFirstChild(s: Stream, key: string, path: seq<nat>) {
    var children := Here(s).children;
    exists k :: 0 <= k < |children| && path == s.current + [k] && At(s.document, path) == children[k]
             && (if key == "" then k == 0 else children[k].name == key && forall j :: 0 <= j < k ==> children[j].name != key)
  }

  /** createKey opens what openKey would open, and otherwise adds an empty child of that name at the end. */
  lemma CreateOpensOrAdds(s: Stream, key: string)
    requires HasPath(s.document, s.current)
    ensures OpenKey(s, key).1.Some? ==> CreateKey(s, key) == OpenKey(s, key)
    ensures OpenKey(s, key).1.None? ==>
              var (r, found) := CreateKey(s, key);
              && found == Some(key) && HasPath(r.document, r.current) && Here(r) == XNode(key, "", [])
              && At(r.document, s.current) == Appended(Here(s), XNode(key, "", []))
              && r.current == s.current + [|Here(s).children|]
  {
    var n, x := Here(s), XNode(key, "", []);
    AtChange(s.document, s.current, Appended(n, x));
    PathExtends(Change(s.document, s.current, Appended(n, x)), s.current, |n.children|);
  }

  /** Changing one node changes the name and the value of no other. */
  lemma {:induction false} ChangeElsewhere(n: XNode, path: seq<nat>, x: XNode, other: seq<nat>)
    requires HasPath(n, path) && HasPath(n, other) && !(path <= other)
    ensures HasPath(Change(n, path, x), other)
    ensures At(Change(n, path, x), other).name == At(n, other).name && At(Change(n, path, x), other).value == At(n, other).value
    decreases |path|
  {
    if other != [] && other[0] == path[0] {
      assert [path[0]] + path[1..] == path && [other[0]] + other[1..] == other;
      ChangeElsewhere(n.children[path[0]], path[1..], x, other[1..]);
    }
  }

  /** A stored text is what is read back, whatever the default; a stored number is read as that number. Nothing else of the
      node changes, and no other node does. */
  lemma SetIsGet(s: Stream, text: string, default: string, number: Int32, n: Int32, other: seq<nat>)
    requires HasPath(s.document, s.current)
    ensures var (r, done) := SetText(s, text);
            done && r.current == s.current && GetText(r, default) == text && Here(r) == Here(s).(value := text)
    ensures SetInt(s, n).1 && GetInt(SetInt(s, n).0, number) == n
    ensures HasPath(s.document, other) && !(s.current <= other) ==>
              At(SetText(s, text).0.document, other).value == At(s.document, other).value
  {
    hide ReadInt;
    ReadIntText(n);
    AtChange(s.document, s.current, Here(s).(value := text));
    AtChange(s.document, s.current, Here(s).(value := IntText(n)));
    if HasPath(s.document, other) && !(s.current <= other) {
      ChangeElsewhere(s.document, s.current, Here(s).(value := text), other);
    }
  }

  /** The cursor is on the array at `p`, or on a row of it that is no array. */
  ghost predicate InArray(s: Stream, p: seq<nat>) {
    && HasPath(s.document, p) && EndsWith(At(s.document, p).name, ARRAY_SUFFIX)
    && (s.current == p || (s.current != [] && Parent(s.current) == p && !EndsWith(Here(s).name, ARRAY_SUFFIX)))
  }

  /** In an array a row opens exactly if there is one of that number, and otherwise nothing moves. A new row is the last one
      and empty, and has the name of the array without the suffix. */
  lemma RowsOpen(s: Stream, p: seq<nat>, i: nat)
    requires InArray(s, p)
    ensures var rows := At(s.document, p).children;
            var (r, found) := OpenRow(s, i);
            if i < |rows| then found == Some(rows[i].name) && r == Stream(s.document, p + [i]) && Here(r) == rows[i]
            else (r, found) == (s, None)
    ensures var n := At(s.document, p);
            var (r, found) := CreateRow(s);
            && found.Some? && n.name == found.value + ARRAY_SUFFIX
            && r.current == p + [|n.children|] && HasPath(r.document, r.current)
            && Here(r) == XNode(found.value, "", []) && At(r.document, p) == Appended(n, Here(r))
  {
    var n := At(s.document, p);
    var key := n.name[..|n.name| - |ARRAY_SUFFIX|];
    ArrayNameIff(n.name);
    ArrayNameIff(Here(s).name);
    ArrayNameIff(key);
    assert n.name == key + ARRAY_SUFFIX;
    PathExtends(s.document, p, i);
    var x := XNode(key, "", []);
    AtChange(s.document, p, Appended(n, x));
    PathExtends(Change(s.document, p, Appended(n, x)), p, |n.children|);
  }

  /** Outside of an array and of its rows there is nothing to count, to add a row to or to open one of. */
  lemma RowsNeedArray(s: Stream, i: nat)
    requires HasPath(s.document, s.current) && !EndsWith(Here(s).name, ARRAY_SUFFIX)
    requires s.current != [] ==> !EndsWith(At(s.document, Parent(s.current)).name, ARRAY_SUFFIX)
    ensures Size(s) == 0 && CreateRow(s) == (s, None) && OpenRow(s, i) == (s, None)
  {
    ArrayNameIff(Here(s).name);
    if s.current != [] { ArrayNameIff(At(s.document, Parent(s.current)).name); }
  }

  // ----- keys that end like an array

  lemma {:induction false} CloseShortens(s: Stream)
    ensures CloseKey(s).0.document == s.document
    ensures s.current != [] ==> |CloseKey(s).0.current| < |s.current|
    ensures CloseKey(s).0.current <= s.current
    decreases |s.current|
  {
    if s.current != [] { CloseShortens(Stream(s.document, Parent(s.current))); }
  }

  /** Closing leads to the nearest node above that is no array, or to the document, where it fails. */
  lemma {:induction false} ClosesToNearest(s: Stream)
    ensures s.current == [] ==> CloseKey(s) == (s, false)
    ensures s.current != [] ==>
              var (r, done) := CloseKey(s);
              && done && r.document == s.document && r.current < s.current
              && (r.current == [] || !IsArrayName(Here(r).name))
              && forall k :: |r.current| < k < |s.current| ==> IsArrayName(At(s.document, s.current[..k]).name)
    decreases |s.current|
  {
    if s.current != [] {
      var up := Stream(s.document, Parent(s.current));
      ClosesToNearest(up);
      assert forall k :: 0 <= k <= |up.current| ==> up.current[..k] == s.current[..k];
    }
  }

  /** Opening or creating a key and closing it leads back if and only if the node it was done in is no array, or is the
      document: below a node whose name ends with the suffix, closeKey climbs too far. */
  lemma CloseReturnsIff(s: Stream, key: string)
    requires HasPath(s.document, s.current)
    ensures CloseKey(CreateKey(s, key).0).0.current == s.current <==> s.current == [] || !IsArrayName(Here(s).name)
  {
    var n := Here(s);
    var c := CreateKey(s, key).0;
    assert Parent(c.current) == s.current;
    AtChange(s.document, s.current, Appended(n, XNode(key, "", [])));
    CloseShortens(Stream(c.document, s.current));
  }

  /** A text under a new key of any name is stored and read back, the cursor restored: nothing is ever created below it. */
  lemma AnyKeyHoldsText(s: Stream, n: XNode, key: string, text: string, named: bool)
    requires Holds(s, n) && !IsArrayName(n.name) && key != "" && FirstNode(n.children, key).None?
    ensures var stored := WriteMember(XML, s, key, Str(text), named);
            && stored == Replaced(s, Appended(n, XNode(key, text, [])))
            && ReadMember(XML, stored, key, SStr, named) == (stored, Some(Str(text)))
  {
    var x := XNode(key, text, []);
    var stored := Replaced(s, Appended(n, x));
    EnterChild(s, n, key, x);
    ReplacedHolds(s, Appended(n, x), n);
    NoneBefore(n.children, key);
    FirstNodeIs(Appended(n, x).children, key, |n.children|);
    PathExtends(stored.document, s.current, |n.children|);
    assert Parent(s.current + [|n.children|]) == s.current;
  }

  lemma {:induction false} NoneBefore(children: seq<XNode>, key: string)
    requires key != "" && FirstNode(children, key).None?
    ensures forall j :: 0 <= j < |children| ==> children[j].name != key
    decreases |children|
  {
    if children != [] {
      NoneBefore(children[1..], key);
      forall j | 0 <= j < |children|
        ensures children[j].name != key
      {
        if j > 0 { assert children[j] == children[1..][j - 1]; }
      }
    }
  }

  /** An object with one text, stored under a new key below the document: the cursor comes back if and only if the key does
      not end with the suffix. */
  lemma ObjectKeyReturnsIff(s: Stream, n: XNode, key: string, inner: string, text: string, named: bool)
    requires Holds(s, n) && !IsArrayName(n.name) && s.current != [] && key != "" && inner != "" && FirstNode(n.children, key).None?
    ensures WriteMember(XML, s, key, Obj([(inner, Str(text))]), named).current == s.current <==> !EndsWith(key, ARRAY_SUFFIX)
  {
    hide IsArrayName, Change, At, HasPath;
    var c := CreateKey(s, key).0;
    ArrayNameIff(key);
    EnterChild(s, n, key, XNode(key, "", []));
    WriteOne(XML, c, inner, Str(text), named);
    var below := WriteMember(XML, c, inner, Str(text), named);
    InnerMember(s, n, key, inner, text, named);
    CloseShortens(Stream(below.document, s.current));
    CloseShortens(below);
  }

  lemma InnerMember(s: Stream, n: XNode, key: string, inner: string, text: string, named: bool)
    requires Holds(s, n) && !IsArrayName(n.name) && s.current != [] && key != "" && inner != "" && FirstNode(n.children, key).None?
    ensures var c := CreateKey(s, key).0;
            var below := WriteMember(XML, c, inner, Str(text), named);
            && c.current == s.current + [|n.children|]
            && below.current == (if IsArrayName(key) then s.current else c.current)
            && HasPath(below.document, s.current) && At(below.document, s.current).name == n.name
  {
    hide IsArrayName, FirstNode;
    var c := CreateKey(s, key).0;
    var empty, leaf := XNode(key, "", []), XNode(inner, text, []);
    var full := Appended(empty, leaf);
    EnterChild(s, n, key, full);
    assert FirstNode(empty.children, inner).None? by { FirstNodeIs([], inner, 0); }
    AppendThenChange(c.document, c.current, empty, XNode(inner, "", []), leaf);
    AppendThenChange(s.document, s.current, n, empty, full);
    AtChange(s.document, s.current, Appended(n, full));
    PathExtends(Change(s.document, s.current, Appended(n, full)), s.current, |n.children|);
    assert Parent(c.current) == s.current && Parent(c.current + [0]) == c.current;
    InnerCloses(c, empty, inner, text, named);
  }

  /** The inner text as it is stored, and the closing of its key. */
  lemma InnerCloses(c: Stream, empty: XNode, inner: string, text: string, named: bool)
    requires Holds(c, empty) && empty.children == [] && inner != "" && FirstNode([], inner).None?
    ensures var doc := Change(c.document, c.current, Appended(empty, XNode(inner, text, [])));
            WriteMember(XML, c, inner, Str(text), named)
            == if IsArrayName(empty.name) then CloseKey(Stream(doc, c.current)).0 else Stream(doc, c.current)
  {
    hide IsArrayName;
    AppendThenChange(c.document, c.current, empty, XNode(inner, "", []), XNode(inner, text, []));
    AtChange(c.document, c.current, Appended(empty, XNode(inner, text, [])));
    assert Parent(c.current + [0]) == c.current;
  }
}

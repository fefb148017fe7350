/** What a client of a key stream does to store a tree and to read it back, written once against the interface
    of StringKeyStream (src/lib/osCore/include/osCore/Serialization/KeyStream.h). */
module KeyScript {
  import opened Options
  import opened Decimal
  import opened KeyTree

  /** The interface: an operation takes a stream and gives the new one, with the key it returns, if any. */
  datatype KeyStream<!S> = KeyStream(
    createKey: (S, string) -> (S, Option<string>),
    openKey: (S, string) -> (S, Option<string>),
    closeKey: S -> (S, bool),
    createArray: (S, string) -> (S, Option<string>),
    openArray: (S, string) -> (S, Option<string>),
    createRow: S -> (S, Option<string>),
    openRow: (S, nat) -> (S, Option<string>),
    size: S -> nat,
    setText: (S, string) -> (S, bool),
    setInt: (S, Int32) -> (S, bool),
    getText: (S, string) -> string,
    getInt: (S, Int32) -> Int32)

  /** Storing a tree at the current value. Arrays below a key are created on that key when `named`, otherwise by
      createArray("") inside it. */
  function Write<S>(api: KeyStream<S>, s: S, t: Tree, named: bool): S
    decreases t, 1, 0
  {
    match t
    case Str(text) => api.setText(s, text).0
    case Num(n) => api.setInt(s, n).0
    case Obj(_) => WriteMembers(api, s, t, 0, named)
    case Arr(_) => api.closeKey(WriteRows(api, api.createArray(s, "").0, t, 0, named)).0
  }

  function WriteMembers<S>(api: KeyStream<S>, s: S, t: Tree, i: nat, named: bool): S
    requires t.Obj? && i <= |t.members|
    decreases t, 0, |t.members| - i
  {
    if i == |t.members| then s
    else
      var (key, v) := t.members[i];
      WriteMembers(api, WriteMember(api, s, key, v, named), t, i + 1, named)
  }

  function WriteMember<S>(api: KeyStream<S>, s: S, key: string, v: Tree, named: bool): S
    decreases v, 2, 0
  {
    if named && v.Arr? then api.closeKey(WriteRows(api, api.createArray(s, key).0, v, 0, named)).0
    else api.closeKey(Write(api, api.createKey(s, key).0, v, named)).0
  }

  function WriteRows<S>(api: KeyStream<S>, s: S, t: Tree, i: nat, named: bool): S
    requires t.Arr? && i <= |t.elements|
    decreases t, 0, |t.elements| - i
  {
    if i == |t.elements| then s
    else WriteRows(api, Write(api, api.createRow(s).0, t.elements[i], named), t, i + 1, named)
  }

  /** Reading a tree of a known schema at the current value; nothing when a key or a row does not open. */
  function Read<S>(api: KeyStream<S>, s: S, sc: Schema, named: bool): (S, Option<Tree>)
    decreases sc, 2, 0
  {
    match sc
    case SStr => (s, Some(Str(api.getText(s, ""))))
    case SNum => (s, Some(Num(api.getInt(s, 0))))
    case SObj(_) =>
      var r := ReadMembers(api, s, sc, 0, named);
      (r.0, if r.1.None? then None else Some(Obj(r.1.value)))
    case SArr(_, _) => ReadArray(api, api.openArray(s, ""), sc, named)
  }

  /** From an opened array to its closing. */
  function ReadArray<S>(api: KeyStream<S>, a: (S, Option<string>), sc: Schema, named: bool): (S, Option<Tree>)
    requires sc.SArr?
    decreases sc, 1, 0
  {
    if a.1.None? then (a.0, None)
    else
      var r := ReadRows(api, a.0, sc, 0, api.size(a.0), named);
      (api.closeKey(r.0).0, if r.1.None? then None else Some(Arr(r.1.value)))
  }

  function ReadRows<S>(api: KeyStream<S>, s: S, sc: Schema, i: nat, n: nat, named: bool): (S, Option<seq<Tree>>)
    requires sc.SArr? && i <= n
    decreases sc, 0, n - i
  {
    if i == n then (s, Some([]))
    else if api.openRow(s, i).1.None? then (s, None)
    else
      var row := Read(api, api.openRow(s, i).0, RowSchema(sc, i), named);
      var rest := ReadRows(api, row.0, sc, i + 1, n, named);
      (rest.0, if row.1.None? || rest.1.None? then None else Some([row.1.value] + rest.1.value))
  }

  function ReadMembers<S>(api: KeyStream<S>, s: S, sc: Schema, i: nat, named: bool): (S, Option<seq<(string, Tree)>>)
    requires sc.SObj? && i <= |sc.members|
    decreases sc, 0, |sc.members| - i
  {
    if i == |sc.members| then (s, Some([]))
    else
      var (key, kind) := sc.members[i];
      var v := ReadMember(api, s, key, kind, named);
      var rest := ReadMembers(api, v.0, sc, i + 1, named);
      (rest.0, if v.1.None? || rest.1.None? then None else Some([(key, v.1.value)] + rest.1.value))
  }

  function ReadMember<S>(api: KeyStream<S>, s: S, key: string, sc: Schema, named: bool): (S, Option<Tree>)
    decreases sc, 3, 0
  {
    if named && sc.SArr? then ReadArray(api, api.openArray(s, key), sc, named)
    else
      var child := api.openKey(s, key);
      if child.1.None? then (s, None)
      else
        var v := Read(api, child.0, sc, named);
        (api.closeKey(v.0).0, v.1)
  }

  // ----- an object with one member

  lemma WriteOne<S>(api: KeyStream<S>, s: S, key: string, v: Tree, named: bool)
    ensures Write(api, s, Obj([(key, v)]), named) == WriteMember(api, s, key, v, named)
  {
    var t, r := Obj([(key, v)]), WriteMember(api, s, key, v, named);
    assert WriteMembers(api, r, t, 1, named) == r;
    assert t.members[0] == (key, v);
  }

  lemma ReadOne<S>(api: KeyStream<S>, s: S, key: string, sc: Schema, named: bool)
    ensures var v := ReadMember(api, s, key, sc, named).1;
            Read(api, s, SObj([(key, sc)]), named).1 == if v.None? then None else Some(Obj([(key, v.value)]))
  {
    var o := SObj([(key, sc)]);
    var v := ReadMember(api, s, key, sc, named);
    assert o.members[0] == (key, sc) && ReadMembers(api, v.0, o, 1, named) == (v.0, Some([]));
    if v.1.Some? { assert [(key, v.1.value)] + [] == [(key, v.1.value)]; }
  }
}

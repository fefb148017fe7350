/** Writing a tree to a JSON stream and reading it back. */
module JsonTree {
  import opened Options
  import opened PathText
  import opened Sequences
  import opened Decimal
  import opened KeyTree
  import opened KeyScript
  import opened JsonPointer
  import opened JsonStream

  /** The operations of RapidJsonStream that clients of a key stream call. */
  const JSON: KeyStream<Stream> :=
    KeyStream(CreateKey, OpenKey, CloseKey, CreateArray, OpenArray, CreateRow, OpenRow, Size, SetText, SetInt, GetText, GetInt)

  // ----- what is stored

  /** An object without members is never made an object: it stays null. */
  function Encode(t: Tree): Json
    decreases t, 1, 0
  {
    match t
    case Str(text) => JStr(text)
    case Num(n) => JNum(n)
    case Obj(members) => Stage(t, |members|)
    case Arr(elements) => JArr(EncodeRows(t, |elements|))
  }

  /** The object after its first `n` members were written. */
  function Stage(t: Tree, n: nat): Json
    requires t.Obj? && n <= |t.members|
    decreases t, 0, n + 1
  {
    if n == 0 then JNull else JObj(EncodeMembers(t, n))
  }

  function EncodeMembers(t: Tree, n: nat): (r: seq<(string, Json)>)
    requires t.Obj? && n <= |t.members|
    ensures |r| == n
    decreases t, 0, n
  {
    if n == 0 then [] else EncodeMembers(t, n - 1) + [(t.members[n - 1].0, Encode(t.members[n - 1].1))]
  }

  function EncodeRows(t: Tree, n: nat): (r: seq<Json>)
    requires t.Arr? && n <= |t.elements|
    ensures |r| == n
    decreases t, 0, n
  {
    if n == 0 then [] else EncodeRows(t, n - 1) + [Encode(t.elements[n - 1])]
  }

  lemma {:induction false} EncodedRow(t: Tree, n: nat, k: nat)
    requires t.Arr? && k < n <= |t.elements|
    ensures EncodeRows(t, n)[k] == Encode(t.elements[k])
    decreases n
  {
    if k < n - 1 { EncodedRow(t, n - 1, k); }
  }

  lemma {:induction false} EncodedMember(t: Tree, n: nat, k: nat)
    requires t.Obj? && k < n <= |t.members|
    ensures EncodeMembers(t, n)[k] == (t.members[k].0, Encode(t.members[k].1))
    decreases n
  {
    if k < n - 1 { EncodedMember(t, n - 1, k); }
  }

  // ----- cursors whose pointer follows the keys

  ghost predicate Good(keys: seq<Key>) {
    forall k :: 0 <= k < |keys| ==> Plain(keys[k].name) && keys[k].index >= -1
  }

  lemma IndexIsPlain(n: int)
    ensures Plain(IntText(n))
  {
  }

  lemma {:induction false} StepsPlain(keys: seq<Key>, withIndex: bool)
    requires forall k :: 0 <= k < |keys| ==> Plain(keys[k].name)
    ensures AllPlain(Steps(keys, withIndex))
    decreases |keys|
  {
    if keys != [] {
      StepsPlain(keys[..|keys| - 1], true);
      IndexIsPlain(keys[|keys| - 1].index);
    }
  }

  lemma {:induction false} NameIsStep(keys: seq<Key>, withIndex: bool, k: nat)
    requires k < |keys| && keys[k].name != ""
    ensures keys[k].name in Steps(keys, withIndex)
    decreases |keys|
  {
    if k == |keys| - 1 {
      assert keys[k].name == KeySteps(keys[k], withIndex)[0];
    } else {
      NameIsStep(keys[..|keys| - 1], true, k);
    }
  }

  /** The rendered pointer stands for the key list exactly when no key holds a '/' or a '~'. */
  lemma PointerFollowsKeysIff(keys: seq<Key>, withIndex: bool)
    ensures Address(keys, withIndex) == Steps(keys, withIndex)
       <==> forall k :: 0 <= k < |keys| ==> Plain(keys[k].name)
  {
    hide Join;
    var steps := Steps(keys, withIndex);
    if keys != [] { TokensOfJoinedIff(steps); }
    if forall k :: 0 <= k < |keys| ==> Plain(keys[k].name) {
      StepsPlain(keys, withIndex);
    } else {
      var k :| 0 <= k < |keys| && !Plain(keys[k].name);
      NameIsStep(keys, withIndex, k);
    }
  }

  lemma StepsPush(keys: seq<Key>, k: Key, withIndex: bool)
    ensures Steps(keys + [k], withIndex) == Steps(keys, true) + KeySteps(k, withIndex)
  {
  }

  lemma StepsPushName(keys: seq<Key>, key: string, index: int, withIndex: bool)
    requires key != "" && (withIndex ==> index == -1)
    ensures Steps(keys + [Key(key, index)], withIndex) == Steps(keys, true) + [key]
  {
  }

  // ----- values at the cursor

  ghost predicate Holds(s: Stream, x: Json) {
    Good(s.keys) && Get(s.doc, Steps(s.keys, true)) == Some(x)
  }

  ghost function Filled(s: Stream, x: Json): Stream {
    Stream(Put(s.doc, Steps(s.keys, true), x), s.keys)
  }

  lemma CurrentHeld(s: Stream, x: Json)
    requires Holds(s, x)
    ensures Address(s.keys, true) == Steps(s.keys, true) && Current(s, true) == Some(x)
  {
    PointerFollowsKeysIff(s.keys, true);
  }

  lemma FilledHolds(s: Stream, x: Json, y: Json, z: Json)
    requires Holds(s, x)
    ensures Holds(Filled(s, y), y) && Filled(Filled(s, y), z) == Filled(s, z) && Filled(s, x) == s
  {
    GetPut(s.doc, Steps(s.keys, true), y);
    PutPut(s.doc, Steps(s.keys, true), y, z);
    PutGet(s.doc, Steps(s.keys, true));
  }

  /** Changing a child of a value that has just been stored. */
  lemma Below(doc: Json, steps: seq<string>, x: Json, token: string, y: Json)
    requires Get(doc, steps).Some? && Child(x, token).Some?
    ensures var k := Child(x, token).value;
            var stored := Put(doc, steps, x);
            && Get(stored, steps + [token]) == Some(ChildAt(x, k))
            && Put(stored, steps + [token], y) == Put(doc, steps, Replace(x, k, y))
  {
    var k := Child(x, token).value;
    var stored := Put(doc, steps, x);
    GetPut(doc, steps, x);
    GetJoin(stored, steps, [token]);
    PutJoin(stored, steps, [token], y);
    assert [token][1..] == [];
    assert Get(x, [token]) == Get(ChildAt(x, k), []);
    assert Put(x, [token], y) == Replace(x, k, Put(ChildAt(x, k), [], y));
    PutPut(doc, steps, x, Replace(x, k, y));
  }

  // ----- a new member

  /** An object, or a null that can become one, without this key. */
  ghost predicate Lacks(v: Json, key: string) {
    v.JNull? || (v.JObj? && FindMember(v.members, key).None?)
  }

  lemma {:induction false} FindAppended(members: seq<(string, Json)>, key: string, x: Json)
    requires FindMember(members, key).None?
    ensures FindMember(members + [(key, x)], key) == Some(|members|)
    decreases |members|
  {
    if members != [] {
      assert (members + [(key, x)])[1..] == members[1..] + [(key, x)];
      FindAppended(members[1..], key, x);
    }
  }

  ghost function WithMember(v: Json, key: string, x: Json): Json {
    JObj(MembersOf(v) + [(key, x)])
  }

  lemma KeyIsNew(s: Stream, v: Json, key: string)
    requires Holds(s, v) && Lacks(v, key) && key != "" && Plain(key)
    ensures OpenKey(s, key).1.None?
    ensures CreateKey(s, key) == (PushKey(Filled(s, WithMember(v, key, JNull)), key, -1), Some(key))
  {
    CurrentHeld(s, v);
    var pushed := PushKey(s, key, -1);
    PointerFollowsKeysIff(pushed.keys, true);
    StepsPushName(s.keys, key, -1, true);
    GetJoin(s.doc, Steps(s.keys, true), [key]);
    assert Get(v, [key]).None?;
  }

  lemma FillNamed(s: Stream, v: Json, key: string, x: Json, y: Json)
    requires Holds(s, v) && Lacks(v, key) && key != "" && Plain(key)
    ensures var stored := Filled(s, WithMember(v, key, x)).doc;
            var steps := Steps(s.keys, true) + [key];
            Get(stored, steps) == Some(x) && Put(stored, steps, y) == Filled(s, WithMember(v, key, y)).doc
  {
    FindAppended(MembersOf(v), key, x);
    Below(s.doc, Steps(s.keys, true), WithMember(v, key, x), key, y);
    assert Replace(WithMember(v, key, x), |MembersOf(v)|, y) == WithMember(v, key, y);
  }

  lemma EnterKey(s: Stream, v: Json, key: string, x: Json)
    requires Holds(s, v) && Lacks(v, key) && key != "" && Plain(key)
    ensures var c := CreateKey(s, key).0;
            Holds(c, JNull) && CloseKey(Filled(c, x)).0 == Filled(s, WithMember(v, key, x))
  {
    KeyIsNew(s, v, key);
    StepsPushName(s.keys, key, -1, true);
    FillNamed(s, v, key, JNull, x);
    assert (s.keys + [Key(key, -1)])[..|s.keys|] == s.keys;
  }

  // ----- a new array

  /** The cursor is in an array with these rows. */
  ghost predicate HoldsRows(s: Stream, rows: seq<Json>) {
    s.keys != [] && Good(s.keys) && Get(s.doc, Steps(s.keys, false)) == Some(JArr(rows))
  }

  /** `r` is `s` with these rows instead; the selected row may differ. */
  ghost predicate RowsPut(s: Stream, rows: seq<Json>, r: Stream) {
    && s.keys != []
    && r.doc == Put(s.doc, Steps(s.keys, false), JArr(rows))
    && |r.keys| == |s.keys|
    && r.keys[..|s.keys| - 1] == s.keys[..|s.keys| - 1]
  }

  /** createArray("") on a null value. */
  lemma EnterUnnamed(s: Stream, rows: seq<Json>, r: Stream)
    requires Holds(s, JNull)
    ensures HoldsRows(CreateArray(s, "").0, [])
    ensures RowsPut(CreateArray(s, "").0, rows, r) ==> CloseKey(r).0 == Filled(s, JArr(rows))
  {
    hide Walked, Put, Join;
    CurrentHeld(s, JNull);
    StepsPush(s.keys, Key("", 0), false);
    assert Steps(s.keys, true) + [] == Steps(s.keys, true);
    FilledHolds(s, JNull, JArr([]), JArr(rows));
    assert (s.keys + [Key("", 0)])[..|s.keys|] == s.keys;
  }

  lemma CreateNamed(s: Stream, v: Json, key: string)
    requires Holds(s, v) && Lacks(v, key) && key != "" && Plain(key)
    ensures CreateArray(s, key).0 == PushKey(Filled(s, WithMember(v, key, JArr([]))), key, 0)
  {
    KeyIsNew(s, v, key);
    EnterKey(s, v, key, JArr([]));
    var c := CreateKey(s, key).0;
    StepsPushName(s.keys, key, -1, true);
    StepsPushName(s.keys, key, -1, false);
    CurrentHeld(c, JNull);
    assert Address(c.keys, false) == Address(c.keys, true);
    assert c.keys[|c.keys| - 1] == Key(key, -1) && c.keys[..|c.keys| - 1] == s.keys;
  }

  lemma EnterNamed(s: Stream, v: Json, key: string)
    requires Holds(s, v) && Lacks(v, key) && key != "" && Plain(key)
    ensures HoldsRows(CreateArray(s, key).0, [])
  {
    hide Walked, Plain;
    CreateNamed(s, v, key);
    StepsPushName(s.keys, key, 0, false);
    FillNamed(s, v, key, JArr([]), JArr([]));
  }

  lemma LeaveNamed(s: Stream, v: Json, key: string, rows: seq<Json>, r: Stream)
    requires Holds(s, v) && Lacks(v, key) && key != "" && Plain(key)
    requires RowsPut(CreateArray(s, key).0, rows, r)
    ensures CloseKey(r).0 == Filled(s, WithMember(v, key, JArr(rows)))
  {
    CreateNamed(s, v, key);
    StepsPushName(s.keys, key, 0, false);
    FillNamed(s, v, key, JArr([]), JArr(rows));
    assert (s.keys + [Key(key, 0)])[..|s.keys|] == s.keys;
  }

  // ----- a new row

  lemma StepsSelect(s: Stream, index: nat)
    requires s.keys != []
    ensures Steps(WithIndex(s, index).keys, false) == Steps(s.keys, false)
    ensures Steps(WithIndex(s, index).keys, true) == Steps(s.keys, false) + [IntText(index)]
    ensures Good(s.keys) ==> Good(WithIndex(s, index).keys)
  {
    hide Steps;
    var n := |s.keys| - 1;
    StepsPush(s.keys[..n], Key(s.keys[n].name, index), true);
    StepsPush(s.keys[..n], Key(s.keys[n].name, index), false);
    StepsPush(s.keys[..n], s.keys[n], false);
    assert s.keys[..n] + [s.keys[n]] == s.keys;
    var name := if s.keys[n].name != "" then [s.keys[n].name] else [];
    assert Steps(s.keys[..n], true) + (name + [IntText(index)]) == Steps(s.keys[..n], true) + (name + []) + [IntText(index)];
  }

  lemma RowsHeld(s: Stream, rows: seq<Json>)
    requires HoldsRows(s, rows)
    ensures Address(s.keys, false) == Steps(s.keys, false) && Current(s, false) == Some(JArr(rows))
  {
    PointerFollowsKeysIff(s.keys, false);
  }

  ghost function Grown(s: Stream, rows: seq<Json>): Stream {
    Stream(Put(s.doc, Steps(s.keys, false), JArr(rows + [JNull])), s.keys)
  }

  lemma RowIsNew(s: Stream, rows: seq<Json>)
    requires HoldsRows(s, rows) && |rows| < INT_MAX
    ensures CreateRow(s).0 == WithIndex(Grown(s, rows), |rows|)
  {
    hide Walked, Plain;
    RowsHeld(s, rows);
    GetPut(s.doc, Steps(s.keys, false), JArr(rows + [JNull]));
    RowsHeld(Grown(s, rows), rows + [JNull]);
  }

  lemma RowBelow(doc: Json, steps: seq<string>, rows: seq<Json>, x: Json)
    requires Get(doc, steps).Some?
    ensures var grown := Put(doc, steps, JArr(rows + [JNull]));
            && Get(grown, steps + [IntText(|rows|)]) == Some(JNull)
            && Put(grown, steps + [IntText(|rows|)], x) == Put(doc, steps, JArr(rows + [x]))
  {
    IndexOfText(|rows|);
    Below(doc, steps, JArr(rows + [JNull]), IntText(|rows|), x);
    assert (rows + [JNull])[|rows| := x] == rows + [x];
  }

  lemma EnterRow(s: Stream, rows: seq<Json>, x: Json)
    requires HoldsRows(s, rows) && |rows| < INT_MAX
    ensures Holds(CreateRow(s).0, JNull)
    ensures Steps(CreateRow(s).0.keys, false) == Steps(s.keys, false)
    ensures RowsPut(s, rows + [x], Filled(CreateRow(s).0, x))
  {
    RowIsNew(s, rows);
    StepsSelect(Grown(s, rows), |rows|);
    RowBelow(s.doc, Steps(s.keys, false), rows, x);
  }

  lemma NextRow(s: Stream, rows: seq<Json>, x: Json)
    requires HoldsRows(s, rows) && |rows| < INT_MAX
    ensures HoldsRows(Filled(CreateRow(s).0, x), rows + [x])
  {
    EnterRow(s, rows, x);
    GetPut(s.doc, Steps(s.keys, false), JArr(rows + [x]));
  }

  // ----- writing

  lemma StageLacks(t: Tree, i: nat)
    requires t.Obj? && i < |t.members| && DistinctNames(t.members)
    ensures Lacks(Stage(t, i), t.members[i].0)
  {
    var key, members := t.members[i].0, EncodeMembers(t, i);
    forall k | 0 <= k < i
      ensures members[k].0 != key
    {
      EncodedMember(t, i, k);
    }
    FindsFirst(members, key, i);
  }

  lemma StageGrows(t: Tree, i: nat)
    requires t.Obj? && i < |t.members|
    ensures WithMember(Stage(t, i), t.members[i].0, Encode(t.members[i].1)) == Stage(t, i + 1)
  {
  }

  lemma MemberWritable(t: Tree, i: nat)
    requires t.Obj? && i < |t.members| && Writable(t, JsonFormat)
    ensures KeyAllowed(t.members[i].0, JsonFormat) && Writable(t.members[i].1, JsonFormat)
  {
  }

  lemma {:induction false} WriteMakes(s: Stream, t: Tree, named: bool)
    requires Holds(s, JNull) && Writable(t, JsonFormat)
    ensures Write(JSON, s, t, named) == Filled(s, Encode(t))
    decreases t, 1, 0
  {
    CurrentHeld(s, JNull);
    match t
    case Str(_) =>
    case Num(_) =>
    case Obj(_) =>
      WriteMembersMakes(s, t, 0, named);
    case Arr(elements) =>
      var a := CreateArray(s, "").0;
      EnterUnnamed(s, EncodeRows(t, |elements|), WriteRows(JSON, a, t, 0, named));
      WriteRowsMakes(a, t, 0, named);
  }

  lemma {:induction false} WriteMembersMakes(s: Stream, t: Tree, i: nat, named: bool)
    requires t.Obj? && i <= |t.members| && Writable(t, JsonFormat) && Holds(s, Stage(t, i))
    ensures WriteMembers(JSON, s, t, i, named) == Filled(s, Encode(t))
    decreases t, 0, |t.members| - i
  {
    hide EncodeMembers, Get, Put;
    if i == |t.members| {
      FilledHolds(s, Encode(t), JNull, JNull);
    } else {
      var (key, v) := t.members[i];
      StageLacks(t, i);
      MemberWritable(t, i);
      WriteMemberMakes(s, Stage(t, i), key, v, named);
      StageGrows(t, i);
      FilledHolds(s, Stage(t, i), Stage(t, i + 1), Encode(t));
      WriteMembersMakes(Filled(s, Stage(t, i + 1)), t, i + 1, named);
    }
  }

  lemma {:induction false} WriteMemberMakes(s: Stream, v: Json, key: string, t: Tree, named: bool)
    requires Holds(s, v) && Lacks(v, key) && KeyAllowed(key, JsonFormat) && Writable(t, JsonFormat)
    ensures WriteMember(JSON, s, key, t, named) == Filled(s, WithMember(v, key, Encode(t)))
    decreases t, 2, 0
  {
    if named && t.Arr? {
      var a := CreateArray(s, key).0;
      EnterNamed(s, v, key);
      WriteRowsMakes(a, t, 0, named);
      LeaveNamed(s, v, key, EncodeRows(t, |t.elements|), WriteRows(JSON, a, t, 0, named));
    } else {
      EnterKey(s, v, key, Encode(t));
      WriteMakes(CreateKey(s, key).0, t, named);
    }
  }

  lemma RowsPutSame(s: Stream, rows: seq<Json>)
    requires HoldsRows(s, rows)
    ensures RowsPut(s, rows, s)
  {
    PutGet(s.doc, Steps(s.keys, false));
  }

  ghost predicate RowWritten(s: Stream, rows: seq<Json>, r: Stream) {
    RowsPut(s, rows, r) && Steps(r.keys, false) == Steps(s.keys, false)
  }

  lemma RowsPutTwice(s: Stream, before: seq<Json>, rows: seq<Json>, r: Stream, all: seq<Json>, q: Stream)
    requires HoldsRows(s, before) && RowWritten(s, rows, r) && RowsPut(r, all, q)
    ensures RowsPut(s, all, q)
  {
    PutPut(s.doc, Steps(s.keys, false), JArr(rows), JArr(all));
  }

  /** One row: created, written, and the array is ready for the next. */
  lemma {:induction false} WriteRow(s: Stream, t: Tree, i: nat, named: bool) returns (next: Stream)
    requires t.Arr? && i < |t.elements| && Writable(t, JsonFormat) && HoldsRows(s, EncodeRows(t, i))
    ensures next == Write(JSON, CreateRow(s).0, t.elements[i], named)
    ensures RowWritten(s, EncodeRows(t, i + 1), next) && HoldsRows(next, EncodeRows(t, i + 1))
    decreases t, 0, 0
  {
    var x := Encode(t.elements[i]);
    next := Write(JSON, CreateRow(s).0, t.elements[i], named);
    EnterRow(s, EncodeRows(t, i), x);
    NextRow(s, EncodeRows(t, i), x);
    assert Writable(t.elements[i], JsonFormat);
    WriteMakes(CreateRow(s).0, t.elements[i], named);
    assert EncodeRows(t, i + 1) == EncodeRows(t, i) + [x];
  }

  lemma {:induction false} WriteRowsMakes(s: Stream, t: Tree, i: nat, named: bool)
    requires t.Arr? && i <= |t.elements| && Writable(t, JsonFormat) && HoldsRows(s, EncodeRows(t, i))
    ensures RowsPut(s, EncodeRows(t, |t.elements|), WriteRows(JSON, s, t, i, named))
    decreases t, 0, |t.elements| - i
  {
    hide HoldsRows, RowsPut, RowWritten, EncodeRows;
    var all := EncodeRows(t, |t.elements|);
    if i == |t.elements| {
      RowsPutSame(s, all);
      return;
    }
    var next := WriteRow(s, t, i, named);
    WriteRowsMakes(next, t, i + 1, named);
    RowsPutTwice(s, EncodeRows(t, i), EncodeRows(t, i + 1), next, all, WriteRows(JSON, next, t, i + 1, named));
    OneMoreRow(s, t, i, named, all);
  }

  lemma OneMoreRow(s: Stream, t: Tree, i: nat, named: bool, rows: seq<Json>)
    requires t.Arr? && i < |t.elements|
    requires RowsPut(s, rows, WriteRows(JSON, Write(JSON, CreateRow(s).0, t.elements[i], named), t, i + 1, named))
    ensures RowsPut(s, rows, WriteRows(JSON, s, t, i, named))
  {
  }

  // ----- reading

  lemma FindEncoded(t: Tree, i: nat)
    requires t.Obj? && i < |t.members| && DistinctNames(t.members)
    ensures FindMember(EncodeMembers(t, |t.members|), t.members[i].0) == Some(i)
    ensures EncodeMembers(t, |t.members|)[i].1 == Encode(t.members[i].1)
  {
    var key, members := t.members[i].0, EncodeMembers(t, |t.members|);
    EncodedMember(t, |members|, i);
    forall k | 0 <= k < i
      ensures members[k].0 != key
    {
      EncodedMember(t, |members|, k);
    }
    FindsFirst(members, key, i);
  }

  lemma GetChild(doc: Json, steps: seq<string>, token: string)
    requires Get(doc, steps).Some? && Child(Get(doc, steps).value, token).Some?
    ensures var x := Get(doc, steps).value;
            Get(doc, steps + [token]) == Some(ChildAt(x, Child(x, token).value))
  {
    GetJoin(doc, steps, [token]);
    assert [token][1..] == [];
  }

  lemma RowStored(doc: Json, steps: seq<string>, rows: seq<Json>, i: nat)
    requires Get(doc, steps) == Some(JArr(rows)) && i < |rows|
    ensures Get(doc, steps + [IntText(i)]) == Some(rows[i])
  {
    IndexOfText(i);
    GetChild(doc, steps, IntText(i));
  }

  lemma MemberStored(doc: Json, steps: seq<string>, t: Tree, i: nat)
    requires t.Obj? && i < |t.members| && Writable(t, JsonFormat) && Get(doc, steps) == Some(Encode(t))
    ensures Get(doc, steps + [t.members[i].0]) == Some(Encode(t.members[i].1))
  {
    hide Get;
    var key := t.members[i].0;
    FindEncoded(t, i);
    assert Child(Encode(t), key) == Some(i) && ChildAt(Encode(t), i) == Encode(t.members[i].1);
    GetChild(doc, steps, key);
  }

  /** Opening the key of a stored member. */
  lemma OpenStored(s: Stream, t: Tree, i: nat)
    requires t.Obj? && i < |t.members| && Writable(t, JsonFormat) && Holds(s, Encode(t))
    ensures var key := t.members[i].0;
            var c := PushKey(s, key, -1);
            && OpenKey(s, key) == (c, Some(key))
            && Holds(c, Encode(t.members[i].1))
            && Address(c.keys, false) == Address(c.keys, true)
            && CloseKey(c).0 == s
  {
    hide Encode, Get, Steps, Writable;
    var key := t.members[i].0;
    MemberWritable(t, i);
    StepsPushName(s.keys, key, -1, true);
    StepsPushName(s.keys, key, -1, false);
    MemberStored(s.doc, Steps(s.keys, true), t, i);
    var c := PushKey(s, key, -1);
    CurrentHeld(c, Encode(t.members[i].1));
    assert (s.keys + [Key(key, -1)])[..|s.keys|] == s.keys;
  }

  /** `r` differs from `s` at most in the selected row. */
  ghost predicate SameArray(s: Stream, r: Stream) {
    s.keys != [] && r.doc == s.doc && |r.keys| == |s.keys| && r.keys[..|s.keys| - 1] == s.keys[..|s.keys| - 1]
  }

  lemma ToIntSmall(n: nat)
    requires n <= INT_MAX
    ensures ToInt(n) == n
  {
  }

  lemma OpenStoredRow(s: Stream, rows: seq<Json>, i: nat)
    requires HoldsRows(s, rows) && i < |rows| <= INT_MAX
    ensures OpenRow(s, i) == (WithIndex(s, i), Some(s.keys[|s.keys| - 1].name))
    ensures Holds(WithIndex(s, i), rows[i]) && HoldsRows(WithIndex(s, i), rows)
  {
    StepsSelect(s, i);
    RowStored(s.doc, Steps(s.keys, false), rows, i);
    CurrentHeld(WithIndex(s, i), rows[i]);
    ToIntSmall(i);
  }

  /** Opening the array that is the current value. */
  lemma OpenUnnamed(s: Stream, t: Tree)
    requires t.Arr? && Holds(s, Encode(t))
    ensures var a := PushKey(s, "", 0);
            && OpenArray(s, "") == (a, Some(""))
            && HoldsRows(a, EncodeRows(t, |t.elements|))
            && CloseKey(a).0 == s
  {
    hide Get, EncodeRows;
    CurrentHeld(s, Encode(t));
    StepsPush(s.keys, Key("", 0), false);
    assert Steps(s.keys, true) + [] == Steps(s.keys, true);
    assert (s.keys + [Key("", 0)])[..|s.keys|] == s.keys;
  }

  /** Opening the array under a key. */
  lemma OpenNamed(s: Stream, t: Tree, i: nat)
    requires t.Obj? && i < |t.members| && t.members[i].1.Arr? && Writable(t, JsonFormat) && Holds(s, Encode(t))
    ensures var (key, v) := t.members[i];
            var a := PushKey(s, key, 0);
            && OpenArray(s, key) == (a, Some(key))
            && HoldsRows(a, EncodeRows(v, |v.elements|))
            && CloseKey(a).0 == s
  {
    hide Get, EncodeRows, Steps, Writable;
    var (key, v) := t.members[i];
    var c, a := PushKey(s, key, -1), PushKey(s, key, 0);
    MemberWritable(t, i);
    OpenStored(s, t, i);
    CurrentHeld(c, Encode(v));
    StepsPushName(s.keys, key, -1, true);
    StepsPushName(s.keys, key, 0, false);
    assert c.keys[..|s.keys|] == s.keys && a.keys[..|s.keys|] == s.keys;
  }

  lemma {:induction false} ReadBack(s: Stream, t: Tree, sc: Schema, named: bool)
    requires Holds(s, Encode(t)) && Writable(t, JsonFormat) && Conforms(t, sc)
    ensures Read(JSON, s, sc, named) == (s, Some(t))
    decreases t, 1, 0
  {
    hide Get, EncodeRows, EncodeMembers;
    CurrentHeld(s, Encode(t));
    match t
    case Str(_) =>
    case Num(_) =>
    case Obj(_) =>
      ReadMembersBack(s, t, sc, 0, named);
      WholeSlice(t.members);
    case Arr(_) =>
      OpenUnnamed(s, t);
      ReadArrayBack(PushKey(s, "", 0), "", t, sc, named);
  }

  lemma {:induction false} ReadArrayBack(a: Stream, key: string, t: Tree, sc: Schema, named: bool)
    requires t.Arr? && HoldsRows(a, EncodeRows(t, |t.elements|)) && Writable(t, JsonFormat) && Conforms(t, sc)
    ensures ReadArray(JSON, (a, Some(key)), sc, named) == (CloseKey(a).0, Some(t))
    decreases t, 0, |t.elements| + 1
  {
    RowsHeld(a, EncodeRows(t, |t.elements|));
    ReadRowsBack(a, t, sc, 0, named);
    WholeSlice(t.elements);
    CloseSame(a, ReadRows(JSON, a, sc, 0, |t.elements|, named).0);
  }

  lemma CloseSame(s: Stream, r: Stream)
    requires SameArray(s, r)
    ensures CloseKey(r) == CloseKey(s)
  {
  }

  lemma ReadRowsStep(s: Stream, sc: Schema, i: nat, n: nat, named: bool, x: Tree)
    requires sc.SArr? && i < n && s.keys != [] && OpenRow(s, i).1.Some?
    requires Read(JSON, OpenRow(s, i).0, RowSchema(sc, i), named) == (WithIndex(s, i), Some(x))
    ensures var rest := ReadRows(JSON, WithIndex(s, i), sc, i + 1, n, named);
            rest.1.Some? ==> ReadRows(JSON, s, sc, i, n, named) == (rest.0, Some([x] + rest.1.value))
  {
  }

  lemma {:induction false} ReadRow(s: Stream, t: Tree, sc: Schema, i: nat, named: bool)
    requires t.Arr? && i < |t.elements| && HoldsRows(s, EncodeRows(t, |t.elements|))
    requires Writable(t, JsonFormat) && Conforms(t, sc)
    ensures OpenRow(s, i).1.Some?
    ensures Read(JSON, OpenRow(s, i).0, RowSchema(sc, i), named) == (WithIndex(s, i), Some(t.elements[i]))
    ensures HoldsRows(WithIndex(s, i), EncodeRows(t, |t.elements|)) && SameArray(s, WithIndex(s, i))
    decreases t, 0, 0
  {
    OpenStoredRow(s, EncodeRows(t, |t.elements|), i);
    EncodedRow(t, |t.elements|, i);
    ReadBack(WithIndex(s, i), t.elements[i], RowSchema(sc, i), named);
  }

  lemma {:induction false} ReadRowsBack(s: Stream, t: Tree, sc: Schema, i: nat, named: bool)
    requires t.Arr? && i <= |t.elements| && HoldsRows(s, EncodeRows(t, |t.elements|))
    requires Writable(t, JsonFormat) && Conforms(t, sc)
    ensures var r := ReadRows(JSON, s, sc, i, |t.elements|, named);
            SameArray(s, r.0) && r.1 == Some(t.elements[i..])
    decreases t, 0, |t.elements| - i
  {
    if i < |t.elements| {
      ReadRow(s, t, sc, i, named);
      ReadRowsBack(WithIndex(s, i), t, sc, i + 1, named);
      ReadRowsStep(s, sc, i, |t.elements|, named, t.elements[i]);
      SliceCons(t.elements, i);
    } else {
      assert t.elements[i..] == [];
    }
  }

  lemma {:induction false} ReadMembersBack(s: Stream, t: Tree, sc: Schema, i: nat, named: bool)
    requires t.Obj? && i <= |t.members| && Holds(s, Encode(t)) && Writable(t, JsonFormat) && Conforms(t, sc)
    ensures ReadMembers(JSON, s, sc, i, named) == (s, Some(t.members[i..]))
    decreases t, 0, |t.members| - i
  {
    if i < |t.members| {
      ReadMemberBack(s, t, sc, i, named);
      ReadMembersBack(s, t, sc, i + 1, named);
      SliceCons(t.members, i);
    } else {
      assert t.members[i..] == [];
    }
  }

  lemma {:induction false} ReadMemberBack(s: Stream, t: Tree, sc: Schema, i: nat, named: bool)
    requires t.Obj? && i < |t.members| && Holds(s, Encode(t)) && Writable(t, JsonFormat) && Conforms(t, sc)
    ensures ReadMember(JSON, s, t.members[i].0, sc.members[i].1, named) == (s, Some(t.members[i].1))
    decreases t, 0, 0
  {
    hide Get, Encode, EncodeRows, Steps;
    var (key, v) := t.members[i];
    var kind := sc.members[i].1;
    MemberWritable(t, i);
    if named && v.Arr? {
      OpenNamed(s, t, i);
      ReadArrayBack(PushKey(s, key, 0), key, v, kind, named);
    } else {
      OpenStored(s, t, i);
      ReadBack(PushKey(s, key, -1), v, kind, named);
    }
  }

  /** A tree written to a fresh JSON stream is read back, with the cursor back at the document each time. */
  lemma RoundTrip(t: Tree, sc: Schema, named: bool)
    requires Writable(t, JsonFormat) && Conforms(t, sc)
    ensures var written := Write(JSON, Stream(JNull, []), t, named);
            written == Stream(Encode(t), []) && Read(JSON, written, sc, named) == (written, Some(t))
  {
    var empty := Stream(JNull, []);
    WriteMakes(empty, t, named);
    ReadBack(Stream(Encode(t), []), t, sc, named);
  }
}

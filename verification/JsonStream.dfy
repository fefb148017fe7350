/** RapidJsonStream: a document and a cursor kept as a list of keys with row numbers
    (src/lib/osCoreImpl/src/RapidJsonStream.cpp). Operations are functions on a Stream value; the class at the end
    performs them in place and is proved against them. */
module JsonStream {
  import opened Options
  import opened PathText
  import opened Decimal
  import opened JsonPointer

  /** One entry of m_keys; the index is -1 when no row is selected. */
  datatype Key = Key(name: string, index: int)

  datatype Stream = Stream(doc: Json, keys: seq<Key>)

  // ----- the pointer (cpp:343-360)

  function KeySteps(k: Key, withIndex: bool): seq<string> {
    (if k.name != "" then [k.name] else []) + (if withIndex && k.index != -1 then [IntText(k.index)] else [])
  }

  /** The tokens a key list stands for; only the last row number is optional. */
  function Steps(keys: seq<Key>, withIndex: bool): seq<string> {
    if keys == [] then [] else
      var init, last := keys[..|keys| - 1], keys[|keys| - 1];
      Steps(init, true) + KeySteps(last, withIndex)
  }

  /** The tokens rapidjson::Pointer::Get walks. A misplaced '~' makes the pointer malformed; it has no tokens then, so it
      stands for the whole document (the library asserts that the pointer is valid; assertions are taken to be switched
      off). */
  function Walked(path: string): seq<string> {
    if Tokens(path).None? then [] else Tokens(path).value
  }

  /** Where the current value is looked for. */
  function Address(keys: seq<Key>, withIndex: bool): seq<string> {
    if keys == [] then [] else Walked(Join(Steps(keys, withIndex)))
  }

  function Current(s: Stream, withIndex: bool): Option<Json> {
    Get(s.doc, Address(s.keys, withIndex))
  }

  /** The stream after overwriting the current value. */
  function Assign(s: Stream, withIndex: bool, x: Json): Stream
    requires Current(s, withIndex).Some?
  {
    Stream(Put(s.doc, Address(s.keys, withIndex), x), s.keys)
  }

  // ----- values (cpp:34-85)

  predicate IsInt(v: Json) {
    v.JNum? && INT_MIN <= v.number <= INT_MAX
  }

  function GetInt(s: Stream, default: Int32): Int32 {
    var v := Current(s, true);
    if v.Some? && IsInt(v.value) then v.value.number else default
  }

  /** A double, or an int as a double. */
  function GetReal(s: Stream, default: real): real {
    var v := Current(s, true);
    if v.Some? && v.value.JReal? then v.value.value
    else if v.Some? && IsInt(v.value) then v.value.number as real
    else default
  }

  function GetBool(s: Stream, default: bool): bool {
    var v := Current(s, true);
    if v.Some? && v.value.JBool? then v.value.flag else default
  }

  function SetInt(s: Stream, n: Int32): (Stream, bool) {
    var v := Current(s, true);
    if v.None? || (!IsInt(v.value) && !v.value.JNull?) then (s, false) else (Assign(s, true, JNum(n)), true)
  }

  function GetText(s: Stream, default: string): string {
    var v := Current(s, true);
    if v.Some? && v.value.JStr? then v.value.text else default
  }

  function SetText(s: Stream, text: string): (Stream, bool) {
    var v := Current(s, true);
    if v.None? || (!v.value.JStr? && !v.value.JNull?) then (s, false) else (Assign(s, true, JStr(text)), true)
  }

  // ----- keys (cpp:106-159, 219-225)

  function PushKey(s: Stream, key: string, index: int): Stream {
    Stream(s.doc, s.keys + [Key(key, index)])
  }

  /** The empty key stands for the first member. */
  function OpenKey(s: Stream, key: string): (r: (Stream, Option<string>))
    ensures r.1.Some? ==> r.0.keys != []
  {
    var v := Current(s, true);
    if key == "" && (v.None? || !v.value.JObj? || v.value.members == []) then (s, None)
    else
      var pushed := PushKey(s, if key == "" then v.value.members[0].0 else key, -1);
      if Current(pushed, true).Some? then (pushed, Some(key)) else (s, None)
  }

  /** The members an object has, and null would have once made an object. */
  function MembersOf(v: Json): seq<(string, Json)> {
    if v.JObj? then v.members else []
  }

  function CreateKey(s: Stream, key: string): (r: (Stream, Option<string>))
    ensures r.1.Some? ==> r.0.keys != []
  {
    var found, v := OpenKey(s, key), Current(s, true);
    if found.1.Some? then found
    else if v.None? || (!v.value.JNull? && !v.value.JObj?) then (s, None)
    else
      (PushKey(Assign(s, true, JObj(MembersOf(v.value) + [(key, JNull)])), key, -1), Some(key))
  }

  function CloseKey(s: Stream): (Stream, bool) {
    if s.keys == [] then (s, false) else (Stream(s.doc, s.keys[..|s.keys| - 1]), true)
  }

  predicate IsKeyExist(s: Stream, key: string) {
    Current(PushKey(s, key, -1), true).Some?
  }

  // ----- arrays (cpp:242-322, 334-341)

  function WithIndex(s: Stream, index: int): Stream
    requires s.keys != []
  {
    var n := |s.keys| - 1;
    Stream(s.doc, s.keys[..n] + [Key(s.keys[n].name, index)])
  }

  /** A failure after the key was found leaves that key open. */
  function CreateArray(s: Stream, key: string): (Stream, Option<string>) {
    if key == "" then
      var found, v := OpenKey(s, key), Current(s, true);
      if found.1.Some? then found
      else if v.None? || (!v.value.JNull? && !v.value.JObj?) then (s, None)
      else (PushKey(if v.value.JNull? then Assign(s, true, JArr([])) else s, key, 0), Some(key))
    else
      var created := CreateKey(s, key);
      var v := Current(created.0, false);
      if created.1.None? then created
      else if v.None? || (!v.value.JArr? && !v.value.JNull?) then (created.0, None)
      else (WithIndex(if v.value.JNull? then Assign(created.0, false, JArr([])) else created.0, 0), created.1)
  }

  function OpenArray(s: Stream, key: string): (Stream, Option<string>) {
    if key == "" then
      var v := Current(s, true);
      if v.None? || !v.value.JArr? then (s, None) else (PushKey(s, key, 0), Some(key))
    else
      var found := OpenKey(s, key);
      var v := Current(found.0, false);
      if found.1.None? then found
      else if v.None? || !v.value.JArr? then (CloseKey(found.0).0, None)
      else (WithIndex(found.0, 0), found.1)
  }

  function Size(s: Stream): nat {
    var v := Current(s, false);
    if v.None? || !v.value.JArr? then 0 else |v.value.elements|
  }

  /** static_cast<int>(size_t). */
  function ToInt(n: nat): int {
    var low := n % 0x1_0000_0000;
    if low <= INT_MAX then low else low - 0x1_0000_0000
  }

  /** Adding a null row and selecting it. Without a key there is nothing to hold the row number. */
  function CreateRow(s: Stream): (Stream, Option<string>) {
    var v := Current(s, false);
    if v.None? || !v.value.JArr? || s.keys == [] then (s, None)
    else
      var grown := Assign(s, false, JArr(v.value.elements + [JNull]));
      (WithIndex(grown, ToInt(Size(grown)) - 1), Some(grown.keys[|grown.keys| - 1].name))
  }

  function OpenRow(s: Stream, index: nat): (Stream, Option<string>) {
    if s.keys == [] then (s, None)
    else
      var moved := WithIndex(s, ToInt(index));
      if Current(moved, true).None? then (s, None) else (moved, Some(s.keys[|s.keys| - 1].name))
  }

  // ----- the stream itself

  class RapidJsonStream {
    var doc: Json
    var keys: seq<Key>

    ghost function State(): Stream
      reads this
    {
      Stream(doc, keys)
    }

    constructor ()
      ensures State() == Stream(JNull, [])
    {
      doc, keys := JNull, [];
    }

    /** The loop that renders the pointer (cpp:351-357). */
    static method Render(keys: seq<Key>, withIndex: bool) returns (path: string)
      ensures path == Join(Steps(keys, withIndex))
    {
      hide KeySteps;
      path := "";
      var i := 0;
      while i < |keys|
        invariant i <= |keys|
        invariant path == Join(Steps(keys[..i], i < |keys| || withIndex))
      {
        var k := keys[i];
        var indexed := i != |keys| - 1 || withIndex;
        RenderedKey(keys, i, indexed);
        if k.name != "" { path := path + "/" + k.name; }
        if indexed && k.index != -1 { path := path + "/" + IntText(k.index); }
        i := i + 1;
      }
      assert keys[..i] == keys;
    }

    method Find(withIndex: bool) returns (address: Option<seq<string>>)
      ensures address == if Current(State(), withIndex).Some? then Some(Address(keys, withIndex)) else None
    {
      if keys == [] { return Some([]); }
      var path := Render(keys, withIndex);
      address := if Get(doc, Walked(path)).None? then None else Some(Walked(path));
    }

    method GetIntValue(default: Int32) returns (n: Int32)
      ensures n == GetInt(State(), default)
    {
      var at := Find(true);
      if at.None? { return default; }
      var v := Get(doc, at.value).value;
      n := if IsInt(v) then v.number else default;
    }

    method GetTextValue(default: string) returns (text: string)
      ensures text == GetText(State(), default)
    {
      var at := Find(true);
      if at.None? { return default; }
      var v := Get(doc, at.value).value;
      text := if v.JStr? then v.text else default;
    }

    method GetRealValue(default: real) returns (x: real)
      ensures x == GetReal(State(), default)
    {
      var at := Find(true);
      if at.None? { return default; }
      var v := Get(doc, at.value).value;
      x := if v.JReal? then v.value else if IsInt(v) then v.number as real else default;
    }

    method GetBoolValue(default: bool) returns (flag: bool)
      ensures flag == GetBool(State(), default)
    {
      var at := Find(true);
      if at.None? { return default; }
      var v := Get(doc, at.value).value;
      flag := if v.JBool? then v.flag else default;
    }

    method SetIntValue(n: Int32) returns (done: bool)
      modifies this
      ensures (State(), done) == SetInt(old(State()), n)
    {
      var at := Find(true);
      if at.None? { return false; }
      var v := Get(doc, at.value).value;
      if !IsInt(v) && !v.JNull? { return false; }
      doc := Put(doc, at.value, JNum(n));
      return true;
    }

    method SetTextValue(text: string) returns (done: bool)
      modifies this
      ensures (State(), done) == SetText(old(State()), text)
    {
      var at := Find(true);
      if at.None? { return false; }
      var v := Get(doc, at.value).value;
      if !v.JStr? && !v.JNull? { return false; }
      doc := Put(doc, at.value, JStr(text));
      return true;
    }

    method DoOpenKey(key: string) returns (r: Option<string>)
      modifies this
      ensures (State(), r) == OpenKey(old(State()), key)
    {
      if key == "" {
        var at := Find(true);
        if at.None? { return None; }
        var v := Get(doc, at.value).value;
        if !v.JObj? || v.members == [] { return None; }
        keys := keys + [Key(v.members[0].0, -1)];
      } else {
        keys := keys + [Key(key, -1)];
      }
      var found := Find(true);
      if found.Some? { return Some(key); }
      keys := keys[..|keys| - 1];
      assert keys == old(keys);
      return None;
    }

    method DoCreateKey(key: string) returns (r: Option<string>)
      modifies this
      ensures (State(), r) == CreateKey(old(State()), key)
    {
      r := DoOpenKey(key);
      if r.Some? { return; }
      var at := Find(true);
      if at.None? { return None; }
      var v := Get(doc, at.value).value;
      if v.JNull? { v := JObj([]); } else if !v.JObj? { return None; }
      doc := Put(doc, at.value, JObj(v.members + [(key, JNull)]));
      keys := keys + [Key(key, -1)];
      return Some(key);
    }

    method DoCloseKey() returns (done: bool)
      modifies this
      ensures (State(), done) == CloseKey(old(State()))
    {
      if keys == [] { return false; }
      keys := keys[..|keys| - 1];
      return true;
    }

    method KeyExists(key: string) returns (exist: bool)
      ensures exist == IsKeyExist(State(), key)
    {
      var path := Render(keys + [Key(key, -1)], true);
      exist := Get(doc, Walked(path)).Some?;
    }

    method SelectRow(index: int)
      requires keys != []
      modifies this`keys
      ensures State() == WithIndex(old(State()), index)
    {
      var n := |keys| - 1;
      keys := keys[..n] + [Key(keys[n].name, index)];
    }

    method DoCreateArray(key: string) returns (r: Option<string>)
      modifies this
      ensures (State(), r) == CreateArray(old(State()), key)
    {
      if key == "" {
        r := DoOpenKey(key);
        if r.Some? { return; }
        var at := Find(true);
        if at.None? { return None; }
        var v := Get(doc, at.value).value;
        if v.JNull? {
          doc := Put(doc, at.value, JArr([]));
        } else if !v.JObj? {
          return None;
        }
        keys := keys + [Key(key, 0)];
        return Some(key);
      }
      r := DoCreateKey(key);
      if r.None? { return; }
      var at := Find(false);
      if at.None? { return None; }
      var v := Get(doc, at.value).value;
      if !v.JArr? && !v.JNull? { return None; }
      if v.JNull? { doc := Put(doc, at.value, JArr([])); }
      SelectRow(0);
    }

    method DoOpenArray(key: string) returns (r: Option<string>)
      modifies this
      ensures (State(), r) == OpenArray(old(State()), key)
    {
      if key == "" {
        var at := Find(true);
        if at.None? || !Get(doc, at.value).value.JArr? { return None; }
        keys := keys + [Key(key, 0)];
        return Some(key);
      }
      r := DoOpenKey(key);
      if r.None? { return; }
      var at := Find(false);
      if at.None? || !Get(doc, at.value).value.JArr? {
        var _ := DoCloseKey();
        return None;
      }
      SelectRow(0);
    }

    method RowCount() returns (n: nat)
      ensures n == Size(State())
    {
      var at := Find(false);
      if at.None? { return 0; }
      var v := Get(doc, at.value).value;
      n := if v.JArr? then |v.elements| else 0;
    }

    method DoCreateRow() returns (r: Option<string>)
      requires keys != []
      modifies this
      ensures (State(), r) == CreateRow(old(State()))
    {
      hide Steps, Walked, Put;
      var at := Find(false);
      if at.None? { return None; }
      var v := Get(doc, at.value).value;
      if !v.JArr? { return None; }
      doc := Put(doc, at.value, JArr(v.elements + [JNull]));
      var n := RowCount();
      SelectRow(ToInt(n) - 1);
      return Some(keys[|keys| - 1].name);
    }

    method DoOpenRow(index: nat) returns (r: Option<string>)
      requires keys != []
      modifies this`keys
      ensures (State(), r) == OpenRow(old(State()), index)
    {
      var previous := keys[|keys| - 1].index;
      SelectRow(ToInt(index));
      var at := Find(true);
      if at.None? {
        SelectRow(previous);
        assert keys == old(keys);
        return None;
      }
      return Some(keys[|keys| - 1].name);
    }
  }

  /** What one more key adds to the pointer. */
  lemma RenderedKey(keys: seq<Key>, i: nat, indexed: bool)
    requires i < |keys|
    ensures Join(Steps(keys[..i + 1], indexed))
         == (if keys[i].name != "" then Join(Steps(keys[..i], true)) + "/" + keys[i].name
             else Join(Steps(keys[..i], true)))
            + (if indexed && keys[i].index != -1 then "/" + IntText(keys[i].index) else "")
  {
    var k, path := keys[i], Join(Steps(keys[..i], true));
    assert keys[..i + 1][..i] == keys[..i] && keys[..i + 1][i] == k;
    JoinAppend(Steps(keys[..i], true), KeySteps(k, indexed));
    RenderedSteps(path, k, indexed);
  }

  lemma RenderedSteps(path: string, k: Key, indexed: bool)
    ensures path + Join(KeySteps(k, indexed))
         == (if k.name != "" then path + "/" + k.name else path)
            + (if indexed && k.index != -1 then "/" + IntText(k.index) else "")
  {
    var named := if k.name != "" then [k.name] else [];
    var rows := if indexed && k.index != -1 then [IntText(k.index)] else [];
    JoinAppend(named, rows);
    JoinOne(k.name);
    JoinOne(IntText(k.index));
    assert path + (Join(named) + Join(rows)) == path + Join(named) + Join(rows);
    assert path + ("/" + k.name) == path + "/" + k.name;
  }
}

/** What a key of the JSON stream addresses when its name is read as part of a pointer
    (src/lib/osCoreImpl/src/RapidJsonStream.cpp:106-145 and 347-360). A name with a '/' leads further down, a name with a
    '~' is unescaped, and a misplaced '~' makes the whole pointer malformed. */
module JsonKeys {
  import opened Decimal
  import opened Options
  import opened PathText
  import opened KeyTree
  import opened KeyScript
  import opened JsonPointer
  import opened JsonStream
  import opened JsonTree

  /** The tokens the name of a key is read as; None when they make the pointer malformed. */
  function KeyTokens(key: string): Option<seq<string>> {
    Tokens(Join([key]))
  }

  lemma {:induction false} FirstPartShort(s: string)
    ensures |SplitTokens(s)[0]| <= |s| && ('/' in s ==> |SplitTokens(s)[0]| < |s|) && ('/' !in s ==> SplitTokens(s) == [s])
  {
    if s != "" {
      FirstPartShort(s[1..]);
      assert s == [s[0]] + s[1..];
    }
  }

  /** The pointer of a key with a '/' or a '~' never selects a member of that name. */
  lemma UnaddressableKey(key: string, tokens: seq<string>)
    requires key != "" && !Plain(key) && Tokens(Join([key])) == Some(tokens)
    ensures tokens != [] && tokens[0] != key
  {
    TokensOfJoinedIff([key]);
    JoinOne(key);
    var split := SplitTokens(key);
    assert ("/" + key)[1..] == key;
    UnescapeAllLength(split);
    FirstPartShort(key);
    UnescapeShortens(split[0]);
    assert !AllPlain([key]) by { assert !Plain([key][0]); }
    assert tokens[0] == Unescape(split[0]).value;
  }

  /** The tokens of a key after plain ones. */
  lemma {:induction false} TokensAfterPlain(steps: seq<string>, key: string)
    requires AllPlain(steps)
    ensures Tokens(Join(steps + [key])) == if KeyTokens(key).None? then None else Some(steps + KeyTokens(key).value)
    decreases |steps|
  {
    if steps == [] {
      assert [] + [key] == [key];
      if KeyTokens(key).Some? { assert [] + KeyTokens(key).value == KeyTokens(key).value; }
    } else {
      var token, rest := steps[0], steps[1..];
      assert Plain(steps[0]) && AllPlain(rest) by { assert forall k :: 0 <= k < |rest| ==> rest[k] == steps[k + 1]; }
      TokensAfterPlain(rest, key);
      assert steps + [key] == [token] + (rest + [key]);
      FirstToken(token, rest + [key]);
      if KeyTokens(key).Some? { assert [token] + (rest + KeyTokens(key).value) == steps + KeyTokens(key).value; }
    }
  }

  lemma FirstToken(token: string, rest: seq<string>)
    requires Plain(token) && rest != []
    ensures Tokens(Join([token] + rest)) == if Tokens(Join(rest)).None? then None else Some([token] + Tokens(Join(rest)).value)
  {
    var r := Join(rest);
    var path := Join([token] + rest);
    assert ([token] + rest)[1..] == rest;
    assert r != "" && r[0] == '/' && r == "/" + r[1..];
    assert path[1..] == token + "/" + r[1..];
    SplitPlain(token, r[1..]);
    UnescapePlain(token);
    assert ([token] + SplitTokens(r[1..]))[1..] == SplitTokens(r[1..]);
  }

  /** What the key addresses at a value `v` of the stream: the document if the pointer is malformed. */
  function Addressed(s: Stream, v: Json, key: string): Option<Json> {
    if KeyTokens(key).None? then Some(s.doc) else Get(v, KeyTokens(key).value)
  }

  lemma KeyAddress(s: Stream, key: string)
    requires Good(s.keys) && key != ""
    ensures Address(PushKey(s, key, -1).keys, true)
         == if KeyTokens(key).None? then [] else Steps(s.keys, true) + KeyTokens(key).value
  {
    hide Tokens, Join;
    StepsPlain(s.keys, true);
    StepsPushName(s.keys, key, -1, true);
    TokensAfterPlain(Steps(s.keys, true), key);
  }

  lemma OpensAddressed(s: Stream, v: Json, key: string)
    requires Holds(s, v) && key != ""
    ensures Current(PushKey(s, key, -1), true) == Addressed(s, v, key)
  {
    hide KeyTokens, Steps, Good;
    KeyAddress(s, key);
    if KeyTokens(key).Some? { GetJoin(s.doc, Steps(s.keys, true), KeyTokens(key).value); }
  }

  /** A new member of that name is not found through a pointer that did not lead anywhere before, unless it is plain. */
  lemma StillNotFound(v: Json, key: string, tokens: seq<string>)
    requires (v.JNull? || v.JObj?) && key != "" && KeyTokens(key) == Some(tokens) && Get(v, tokens).None?
    ensures Get(WithMember(v, key, JNull), tokens) == if Plain(key) then Some(JNull) else None
  {
    if Plain(key) {
      assert tokens == [key] by { TokensOfJoined([key]); }
      assert tokens[1..] == [];
      FindAppended(MembersOf(v), key, JNull);
    } else {
      UnaddressableKey(key, tokens);
      FindAnother(MembersOf(v), key, JNull, tokens[0]);
    }
  }

  lemma {:induction false} FindAnother(members: seq<(string, Json)>, key: string, x: Json, name: string)
    requires name != key
    ensures FindMember(members + [(key, x)], name) == FindMember(members, name)
    decreases |members|
  {
    if members == [] {
      assert (members + [(key, x)])[1..] == [];
    } else {
      assert (members + [(key, x)])[1..] == members[1..] + [(key, x)];
      FindAnother(members[1..], key, x, name);
    }
  }

  /** createKey with any key, at a null or an object: what the key addresses is opened and nothing is added, even if it is
      another value than a member of that name. Otherwise the member is added, and the cursor stands on it if the key is
      plain, and nowhere if it is not. */
  lemma CreateAnyKey(s: Stream, v: Json, key: string)
    requires Holds(s, v) && (v.JNull? || v.JObj?) && key != ""
    ensures var c := CreateKey(s, key);
            var x := Addressed(s, v, key);
            && c.1 == Some(key)
            && c.0 == PushKey(if x.Some? then s else Filled(s, WithMember(v, key, JNull)), key, -1)
            && Current(c.0, true) == (if x.Some? then x else if Plain(key) then Some(JNull) else None)
  {
    hide KeyTokens, Steps, Plain, Walked;
    CurrentHeld(s, v);
    OpensAddressed(s, v, key);
    if Addressed(s, v, key).None? {
      var grown := Filled(s, WithMember(v, key, JNull));
      FilledHolds(s, v, WithMember(v, key, JNull), JNull);
      OpensAddressed(grown, WithMember(v, key, JNull), key);
      StillNotFound(v, key, KeyTokens(key).value);
    }
  }

  /** setValue on a text or a null replaces it, and fails on anything else. */
  predicate TakesText(x: Json) {
    x.JNull? || x.JStr?
  }

  /** A text can be stored under the key. */
  ghost predicate CanHoldText(s: Stream, v: Json, key: string) {
    if Addressed(s, v, key).Some? then TakesText(Addressed(s, v, key).value) else Plain(key)
  }

  /** Where the text goes: with a malformed pointer the document itself is replaced. */
  ghost function WithText(s: Stream, v: Json, key: string, text: string): Json
    requires CanHoldText(s, v, key)
  {
    if KeyTokens(key).None? then JStr(text)
    else
      var grown := if Addressed(s, v, key).Some? then s else Filled(s, WithMember(v, key, JNull));
      Put(grown.doc, Steps(s.keys, true) + KeyTokens(key).value, JStr(text))
  }

  /** createKey and setValue with any key: whether the text is stored, and what it overwrites. */
  lemma SetAnyKey(s: Stream, v: Json, key: string, text: string)
    requires Holds(s, v) && (v.JNull? || v.JObj?) && key != ""
    ensures var c := CreateKey(s, key).0;
            SetText(c, text) == if CanHoldText(s, v, key) then (Stream(WithText(s, v, key, text), c.keys), true) else (c, false)
  {
    hide KeyTokens, Steps, CreateKey, Walked, Plain;
    CreateAnyKey(s, v, key);
    KeyAddress(s, key);
  }

  /** Exactly when a text stored under a key is found again once the key is closed and reopened. */
  lemma KeyKeepsTextIff(s: Stream, v: Json, key: string, text: string)
    requires Holds(s, v) && (v.JNull? || v.JObj?) && key != ""
    ensures var stored := SetText(CreateKey(s, key).0, text);
            var back := OpenKey(CloseKey(stored.0).0, key);
            && (stored.1 <==> CanHoldText(s, v, key))
            && (back.1.Some? && Current(back.0, true) == Some(JStr(text)) <==> CanHoldText(s, v, key))
  {
    hide KeyTokens, Steps, CreateKey, SetText, Plain, Walked, WithText, CanHoldText;
    var c := CreateKey(s, key).0;
    var stored := SetText(c, text);
    CreateAnyKey(s, v, key);
    SetAnyKey(s, v, key, text);
    assert stored.0.keys == s.keys + [Key(key, -1)];
    assert stored.0.keys[..|s.keys|] == s.keys;
    assert PushKey(CloseKey(stored.0).0, key, -1) == stored.0;
    StoredText(s, v, key, text);
  }

  /** What the cursor stands on after the attempt. */
  lemma StoredText(s: Stream, v: Json, key: string, text: string)
    requires Holds(s, v) && (v.JNull? || v.JObj?) && key != ""
    ensures Current(SetText(CreateKey(s, key).0, text).0, true) == Some(JStr(text)) <==> CanHoldText(s, v, key)
  {
    hide KeyTokens, Steps, CreateKey, Walked, Plain, Put, Get;
    var c := CreateKey(s, key).0;
    CreateAnyKey(s, v, key);
    KeyAddress(s, key);
    if Current(c, true).Some? { GetPut(c.doc, Address(c.keys, true), JStr(text)); }
  }

  // ----- the value at the cursor

  /** Storing a text or a number: it succeeds exactly on a null or a value of the same type, is then what is read there, and
      otherwise nothing changes. */
  lemma SetIsGet(s: Stream, v: Json, text: string, n: Int32)
    requires Current(s, true) == Some(v)
    ensures var (r, done) := SetText(s, text);
            && (done <==> v.JNull? || v.JStr?) && (!done ==> r == s)
            && (done ==> r.keys == s.keys && Current(r, true) == Some(JStr(text)) && GetText(r, "") == text)
    ensures var (r, done) := SetInt(s, n);
            && (done <==> v.JNull? || (v.JNum? && -2_147_483_648 <= v.number <= 2_147_483_647)) && (!done ==> r == s)
            && (done ==> r.keys == s.keys && Current(r, true) == Some(JNum(n)) && GetInt(r, 0) == n)
  {
    hide Walked, Steps;
    GetPut(s.doc, Address(s.keys, true), JStr(text));
    GetPut(s.doc, Address(s.keys, true), JNum(n));
  }

  /** Where there is nothing, nothing is stored. */
  lemma SetNowhere(s: Stream, text: string, n: Int32)
    requires Current(s, true).None?
    ensures SetText(s, text) == (s, false) && SetInt(s, n) == (s, false)
  {
  }

  /** What each kind of value is read as, type by type; anything else gives the default. */
  lemma ReadsAre(s: Stream, x: string, n: int, r: real, b: bool, text: string, number: Int32, double: real, flag: bool)
    ensures Current(s, true) == Some(JStr(x)) ==>
              GetText(s, text) == x && GetInt(s, number) == number && GetReal(s, double) == double && GetBool(s, flag) == flag
    ensures Current(s, true) == Some(JNum(n)) && -2_147_483_648 <= n <= 2_147_483_647 ==>
              GetText(s, text) == text && GetInt(s, number) == n && GetReal(s, double) == n as real && GetBool(s, flag) == flag
    ensures Current(s, true) == Some(JReal(r)) ==>
              GetText(s, text) == text && GetInt(s, number) == number && GetReal(s, double) == r && GetBool(s, flag) == flag
    ensures Current(s, true) == Some(JBool(b)) ==>
              GetText(s, text) == text && GetInt(s, number) == number && GetReal(s, double) == double && GetBool(s, flag) == b
    ensures Current(s, true).None? || Current(s, true).value.JNull? || Current(s, true).value.JObj? || Current(s, true).value.JArr? ==>
              GetText(s, text) == text && GetInt(s, number) == number && GetReal(s, double) == double && GetBool(s, flag) == flag
  {
    hide Current;
  }

  // ----- opening

  /** A key exists exactly if opening it succeeds; opening moves the cursor only then. */
  lemma ExistsIffOpens(s: Stream, key: string)
    requires key != ""
    ensures IsKeyExist(s, key) <==> OpenKey(s, key).1.Some?
    ensures OpenKey(s, key) == if IsKeyExist(s, key) then (PushKey(s, key, -1), Some(key)) else (s, None)
    ensures OpenKey(s, key).1.Some? ==> CloseKey(OpenKey(s, key).0) == (s, true)
  {
    hide Current;
    assert (s.keys + [Key(key, -1)])[..|s.keys|] == s.keys;
  }

  /** Closing undoes opening, whatever the key and the row, and fails at the document. */
  lemma CloseUndoesPush(s: Stream, key: string, index: int)
    ensures CloseKey(PushKey(s, key, index)) == (s, true)
    ensures s.keys == [] ==> CloseKey(s) == (s, false)
  {
    assert (s.keys + [Key(key, index)])[..|s.keys|] == s.keys;
  }

  /** The empty key exists wherever there is a value, even one without members to open. */
  lemma EmptyKeyExists(s: Stream)
    ensures IsKeyExist(s, "") <==> Current(s, true).Some?
  {
    hide Walked, Steps;
    StepsPush(s.keys, Key("", -1), true);
    assert Steps(s.keys, true) + [] == Steps(s.keys, true);
    if s.keys == [] { NoKeys(); }
  }

  lemma NoKeys()
    ensures Steps([], true) == [] && Walked(Join([])) == []
  {
  }

  /** The empty key opens the first member of an object, and fails, moving nothing, where there is none. */
  lemma EmptyKeyOpensFirst(s: Stream, v: Json)
    requires Holds(s, v)
    ensures v.JObj? && v.members != [] && v.members[0].0 != "" && Plain(v.members[0].0) ==>
              var r := OpenKey(s, "");
              r.1 == Some("") && r.0.doc == s.doc && Current(r.0, true) == Some(v.members[0].1) && CloseKey(r.0).0 == s
    ensures !v.JObj? || v.members == [] ==> OpenKey(s, "") == (s, None)
  {
    hide Walked, Steps;
    CurrentHeld(s, v);
    if v.JObj? && v.members != [] && v.members[0].0 != "" && Plain(v.members[0].0) {
      var name := v.members[0].0;
      OpensAddressed(s, v, name);
      TokensOfJoined([name]);
      assert [name][1..] == [] && FindMember(v.members, name) == Some(0);
      assert Get(v, [name]) == Get(v.members[0].1, []);
      assert (s.keys + [Key(name, -1)])[..|s.keys|] == s.keys;
    }
  }

  // ----- arrays under any key

  lemma AddressWithRow(s: Stream, key: string, index: int)
    requires key != ""
    ensures Address(PushKey(s, key, index).keys, false) == Address(PushKey(s, key, -1).keys, true)
  {
    StepsPushName(s.keys, key, index, false);
    StepsPushName(s.keys, key, -1, true);
  }

  /** openArray with any key: it succeeds exactly if the key addresses an array, selecting row 0, and leaves nothing open
      otherwise. */
  lemma OpenAnyArray(s: Stream, v: Json, key: string)
    requires Holds(s, v) && key != ""
    ensures var x := Addressed(s, v, key);
            OpenArray(s, key) == if x.Some? && x.value.JArr? then (PushKey(s, key, 0), Some(key)) else (s, None)
  {
    hide KeyTokens, Steps, Walked, Get;
    OpensAddressed(s, v, key);
    AddressWithRow(s, key, -1);
    assert (s.keys + [Key(key, -1)])[..|s.keys|] == s.keys;
  }

  /** createArray with any key: an array it addresses is opened and a null made an array, in both cases at row 0; any other
      value stays, with its key left open although the call fails. Where the key addresses nothing the member is added; it
      becomes an array only under a key that can be addressed. */
  lemma CreateAnyArray(s: Stream, v: Json, key: string)
    requires Holds(s, v) && (v.JNull? || v.JObj?) && key != ""
    ensures var x := Addressed(s, v, key);
            var grown := Filled(s, WithMember(v, key, JNull));
            var r := CreateArray(s, key);
            if x.Some? && x.value.JArr? then r == (PushKey(s, key, 0), Some(key))
            else if x.Some? && x.value.JNull? then
              r == (PushKey(Stream(Put(s.doc, Address(PushKey(s, key, -1).keys, true), JArr([])), s.keys), key, 0), Some(key))
            else if x.Some? then r == (PushKey(s, key, -1), None)
            else if Plain(key) then
              r == (PushKey(Stream(Put(grown.doc, Address(PushKey(s, key, -1).keys, true), JArr([])), s.keys), key, 0), Some(key))
            else r == (PushKey(grown, key, -1), None)
  {
    hide KeyTokens, Steps, Walked, Get, Put, CreateKey, Plain, Addressed, Holds;
    CreateAnyKey(s, v, key);
    AddressWithRow(s, key, -1);
    assert (s.keys + [Key(key, -1)])[..|s.keys|] == s.keys;
  }

  /** createArray without a key at an object makes no array: it opens the first member where there is one, and otherwise
      selects a row of the object itself, to which no row can be added. At a value that is neither null nor an object it
      fails. */
  lemma UnnamedArrayAtObject(s: Stream, v: Json)
    requires Holds(s, v)
    ensures v.JObj? && v.members != [] && v.members[0].0 != "" && Plain(v.members[0].0) ==>
              var r := CreateArray(s, "");
              r.1 == Some("") && r.0.doc == s.doc && Current(r.0, true) == Some(v.members[0].1)
    ensures v.JObj? && v.members == [] ==>
              var r := CreateArray(s, "");
              r == (PushKey(s, "", 0), Some("")) && Size(r.0) == 0 && CreateRow(r.0) == (r.0, None)
    ensures !v.JNull? && !v.JObj? ==> CreateArray(s, "") == (s, None)
  {
    hide Walked, Steps, OpenKey, Holds;
    EmptyKeyOpensFirst(s, v);
    CurrentHeld(s, v);
    if v == JObj([]) {
      SelectsObject(s);
      NoRows(PushKey(s, "", 0));
    }
  }

  lemma SelectsObject(s: Stream)
    ensures Current(PushKey(s, "", 0), false) == Current(s, true)
  {
    hide Walked, Steps;
    StepsPush(s.keys, Key("", 0), false);
    assert Steps(s.keys, true) + [] == Steps(s.keys, true);
    if s.keys == [] { NoKeys(); }
  }

  // ----- rows

  /** A size beyond int wraps around to 32 bits. */
  lemma ToIntIs(n: nat)
    ensures -2_147_483_648 <= ToInt(n) <= 2_147_483_647 && (n - ToInt(n)) % 4_294_967_296 == 0
    ensures n <= 2_147_483_647 ==> ToInt(n) == n
  {
  }

  /** In an array the size is the number of rows, and a row opens exactly if it is below it; the cursor then stands on that
      row, and stays where it was otherwise. */
  lemma RowsOpen(s: Stream, rows: seq<Json>, i: nat)
    requires HoldsRows(s, rows) && i <= INT_MAX
    ensures Size(s) == |rows|
    ensures if i < |rows| then
              OpenRow(s, i) == (WithIndex(s, i), Some(s.keys[|s.keys| - 1].name)) && Current(OpenRow(s, i).0, true) == Some(rows[i])
            else OpenRow(s, i) == (s, None)
  {
    hide Current, HoldsRows, WithIndex;
    RowsHeld(s, rows);
    RowSelected(s, rows, i);
  }

  lemma RowSelected(s: Stream, rows: seq<Json>, i: nat)
    requires HoldsRows(s, rows) && i <= INT_MAX
    ensures s.keys != [] && Current(WithIndex(s, i), true) == if i < |rows| then Some(rows[i]) else None
  {
    hide Walked, Steps, Tokens, Join;
    StepsSelect(s, i);
    PointerFollowsKeysIff(WithIndex(s, i).keys, true);
    GetJoin(s.doc, Steps(s.keys, false), [IntText(i)]);
    IndexOfText(i);
    assert [IntText(i)][1..] == [];
  }

  /** Outside of an array there are no rows to count or to add. */
  lemma NoRows(s: Stream)
    requires Current(s, false).None? || !Current(s, false).value.JArr?
    ensures Size(s) == 0 && CreateRow(s) == (s, None)
  {
  }

  // ----- a member written and read by a client

  lemma WriteText(s: Stream, key: string, text: string, named: bool)
    ensures WriteMember(JSON, s, key, Str(text), named) == CloseKey(SetText(CreateKey(s, key).0, text).0).0
  {
  }

  lemma ReadText(s: Stream, key: string, named: bool)
    ensures ReadMember(JSON, s, key, SStr, named).1
         == if OpenKey(s, key).1.None? then None else Some(Str(GetText(OpenKey(s, key).0, "")))
  {
  }

  /** A string member written and read back, at any null or object of any stream: exactly when it comes back. Where the key
      addresses a value that takes no text, reading gives the empty default. */
  lemma MemberRoundTripsIff(s: Stream, v: Json, key: string, text: string, named: bool)
    requires Holds(s, v) && (v.JNull? || v.JObj?) && key != ""
    ensures ReadMember(JSON, WriteMember(JSON, s, key, Str(text), named), key, SStr, named).1 == Some(Str(text))
       <==> CanHoldText(s, v, key) || (text == "" && Addressed(s, v, key).Some?)
  {
    hide KeyTokens, Steps, CreateKey, SetText, Plain, Walked, CanHoldText, Addressed, Holds, ReadMember, WriteMember;
    WriteText(s, key, text, named);
    ReadText(CloseKey(SetText(CreateKey(s, key).0, text).0).0, key, named);
    ReopenAnyKey(s, v, key, text);
    KeyKeepsTextIff(s, v, key, text);
    CannotHoldIsNoText(s, v, key);
  }

  /** Reopening stands where the attempt to store stood. */
  lemma ReopenAnyKey(s: Stream, v: Json, key: string, text: string)
    requires Holds(s, v) && (v.JNull? || v.JObj?) && key != ""
    ensures var stored := SetText(CreateKey(s, key).0, text);
            var back := OpenKey(CloseKey(stored.0).0, key);
            && (back.1.Some? <==> Addressed(s, v, key).Some? || Plain(key))
            && (back.1.Some? ==> back.0 == stored.0)
            && (back.1.Some? && !CanHoldText(s, v, key) ==> Current(back.0, true) == Addressed(s, v, key))
  {
    hide KeyTokens, Steps, CreateKey, Plain, Walked, Addressed, WithText;
    var c := CreateKey(s, key).0;
    var stored := SetText(c, text);
    CreateAnyKey(s, v, key);
    SetAnyKey(s, v, key, text);
    StoredText(s, v, key, text);
    assert stored.0.keys[..|s.keys|] == s.keys;
    assert PushKey(CloseKey(stored.0).0, key, -1) == stored.0;
  }

  lemma CannotHoldIsNoText(s: Stream, v: Json, key: string)
    ensures Addressed(s, v, key).Some? && !CanHoldText(s, v, key) ==> !Addressed(s, v, key).value.JStr?
  {
  }

  /** An object with one key, written to a fresh stream and read: it comes back if and only if the key holds no '/'
      and no '~', or is no well-formed pointer at all. */
  lemma KeyRoundTripsIff(key: string, text: string, named: bool)
    requires key != ""
    ensures var t, sc := Obj([(key, Str(text))]), SObj([(key, SStr)]);
            Read(JSON, Write(JSON, Stream(JNull, []), t, named), sc, named).1 == Some(t)
            <==> Plain(key) || KeyTokens(key).None?
  {
    hide Write, Read, KeyTokens, Plain, ReadMember, WriteMember;
    var s := Stream(JNull, []);
    FreshAddressed(key);
    WriteOne(JSON, s, key, Str(text), named);
    ReadOne(JSON, WriteMember(JSON, s, key, Str(text), named), key, SStr, named);
    MemberRoundTripsIff(s, JNull, key, text, named);
  }

  /** On a fresh stream a key addresses nothing, or the document if it makes the pointer malformed. */
  lemma FreshAddressed(key: string)
    requires key != ""
    ensures var s := Stream(JNull, []);
            && Holds(s, JNull)
            && Addressed(s, JNull, key) == (if KeyTokens(key).None? then Some(JNull) else None)
            && (CanHoldText(s, JNull, key) <==> Plain(key) || KeyTokens(key).None?)
  {
    if Plain(key) { TokensOfJoined([key]); } else if KeyTokens(key).Some? { UnaddressableKey(key, KeyTokens(key).value); }
  }

  /** What such a write stores on a fresh stream: through a well-formed pointer the member, whose value stays null; through
      a malformed one no member at all, the text taking the place of the document. */
  lemma WriteUnaddressable(key: string, text: string, named: bool)
    requires key != "" && !Plain(key)
    ensures Write(JSON, Stream(JNull, []), Obj([(key, Str(text))]), named)
         == Stream(if KeyTokens(key).None? then JStr(text) else JObj([(key, JNull)]), [])
  {
    hide Write, KeyTokens, Plain, WriteMember, CreateKey, SetText, Addressed, CanHoldText, Holds;
    var s := Stream(JNull, []);
    FreshAddressed(key);
    WriteOne(JSON, s, key, Str(text), named);
    WriteText(s, key, text, named);
    CreateAnyKey(s, JNull, key);
    SetAnyKey(s, JNull, key, text);
    assert [Key(key, -1)][..0] == [];
  }

  lemma SlashTokens(a: string, b: string)
    requires Plain(a) && Plain(b)
    ensures KeyTokens(a + "/" + b) == Some([a, b])
  {
    hide Tokens;
    TokensOfJoined([a, b]);
    assert [a, b][1..] == [b];
    JoinOne(b);
    JoinOne(a + "/" + b);
    assert "/" + a + ("/" + b) == "/" + (a + "/" + b);
  }

  /** A key that overwrites another member's value: at {a: {b: x}} the key a/b adds nothing and leads to the inner text. */
  lemma KeyOverwrites(a: string, b: string, x: string, y: string)
    requires Plain(a) && Plain(b)
    ensures var s, key := Stream(JObj([(a, JObj([(b, JStr(x))]))]), []), a + "/" + b;
            && CreateKey(s, key) == (PushKey(s, key, -1), Some(key))
            && SetText(CreateKey(s, key).0, y) == (PushKey(Stream(JObj([(a, JObj([(b, JStr(y))]))]), []), key, -1), true)
  {
    hide KeyTokens, CreateKey, SetText, Plain;
    var s, key := Stream(JObj([(a, JObj([(b, JStr(x))]))]), []), a + "/" + b;
    SlashTokens(a, b);
    InnerText(a, b, x, y);
    CreateAnyKey(s, s.doc, key);
    SetAnyKey(s, s.doc, key, y);
    assert Steps([], true) + [a, b] == [a, b];
  }

  lemma InnerText(a: string, b: string, x: string, y: string)
    ensures Get(JObj([(a, JObj([(b, JStr(x))]))]), [a, b]) == Some(JStr(x))
    ensures Put(JObj([(a, JObj([(b, JStr(x))]))]), [a, b], JStr(y)) == JObj([(a, JObj([(b, JStr(y))]))])
  {
    assert [a] + [b] == [a, b] && [b] + [] == [b];
    OnlyMember(b, JStr(x), [], JStr(y));
    OnlyMember(a, JObj([(b, JStr(x))]), [b], JStr(y));
  }

  lemma OnlyMember(name: string, x: Json, tokens: seq<string>, y: Json)
    ensures Get(JObj([(name, x)]), [name] + tokens) == Get(x, tokens)
    ensures Put(JObj([(name, x)]), [name] + tokens, y) == JObj([(name, Put(x, tokens, y))])
  {
    assert ([name] + tokens)[1..] == tokens;
    assert [(name, x)][0 := (name, Put(x, tokens, y))] == [(name, Put(x, tokens, y))];
  }

  /** A malformed key stands for the document, where a text cannot replace an object. */
  lemma MalformedAtObject(members: seq<(string, Json)>, key: string, text: string)
    requires key != "" && KeyTokens(key).None?
    ensures var s := Stream(JObj(members), []);
            && CreateKey(s, key) == (PushKey(s, key, -1), Some(key))
            && SetText(CreateKey(s, key).0, text) == (PushKey(s, key, -1), false)
  {
    hide KeyTokens, CreateKey, SetText;
    var s := Stream(JObj(members), []);
    CreateAnyKey(s, s.doc, key);
    SetAnyKey(s, s.doc, key, text);
  }
}

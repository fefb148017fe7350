/** LogViewer::getFieldValue: one field of a log entry, read with a moving cursor that is put back on every path
    (src/exe/osLogViewer/src/logviewer.cpp:245-285). */
module FieldValue {
  import opened Options
  import opened Sequences
  import opened Decimal
  import opened JsonPointer
  import opened JsonStream
  import opened JsonTree
  import opened JsonCursor
  import opened StateNames

  const DEFAULT_VALUE := "defaultValue"

  /** std::to_string of a bool goes through int. */
  function BoolText(flag: bool): string {
    IntText(if flag then 1 else 0)
  }

  /** `digits` is std::to_string of a double. A type other than these four leaves the default. */
  function FieldText(s: Stream, kind: Option<string>, digits: real -> string): string {
    if kind.None? || kind.value == "string" then GetText(s, DEFAULT_VALUE)
    else if kind.value == "int" then IntText(GetInt(s, 0))
    else if kind.value == "double" then digits(GetReal(s, 0.0))
    else if kind.value == "bool" then BoolText(GetBool(s, false))
    else DEFAULT_VALUE
  }

  /** The parts of the field key, without the empty ones. */
  function NonEmpty(parts: seq<string>): seq<string> {
    if parts == [] then []
    else (if parts[0] == "" then [] else [parts[0]]) + NonEmpty(parts[1..])
  }

  /** Opening the keys one after the other. */
  function Field(s: Stream, keys: seq<string>, kind: Option<string>, digits: real -> string): Option<string>
    decreases |keys|
  {
    if keys == [] then Some(FieldText(s, kind, digits))
    else if !IsKeyExist(s, keys[0]) then None
    else Field(PushKey(s, keys[0], -1), keys[1..], kind, digits)
  }

  /** One round of the loop. */
  lemma OnePart(s: Stream, rest: string, kind: Option<string>, digits: real -> string)
    requires rest != ""
    ensures var (part, left) := NextPart(rest);
            Field(s, NonEmpty(Split(rest)), kind, digits) ==
              if part == "" then Field(s, NonEmpty(Split(left)), kind, digits)
              else if !IsKeyExist(s, part) then None
              else Field(OpenKey(s, part).0, NonEmpty(Split(left)), kind, digits)
  {
    hide Field, Split, NonEmpty, IsKeyExist, OpenKey;
    var (part, left) := NextPart(rest);
    SplitOnce(rest);
    FieldOnce(s, part, NonEmpty(Split(left)), kind, digits);
    if part != "" && IsKeyExist(s, part) { OpensExisting(s, part); }
  }

  lemma SplitOnce(rest: string)
    requires rest != ""
    ensures var (part, left) := NextPart(rest);
            NonEmpty(Split(rest)) == if part == "" then NonEmpty(Split(left)) else [part] + NonEmpty(Split(left))
  {
    var (part, left) := NextPart(rest);
    SplitNext(rest);
    assert ([part] + Split(left))[1..] == Split(left);
  }

  lemma FieldOnce(s: Stream, key: string, keys: seq<string>, kind: Option<string>, digits: real -> string)
    ensures Field(s, [key] + keys, kind, digits) == if IsKeyExist(s, key) then Field(PushKey(s, key, -1), keys, kind, digits) else None
  {
    hide IsKeyExist;
    assert ([key] + keys)[1..] == keys;
  }

  lemma NoPart(s: Stream, kind: Option<string>, digits: real -> string)
    ensures Field(s, NonEmpty(Split("")), kind, digits) == Some(FieldText(s, kind, digits))
  {
  }

  lemma OpensExisting(s: Stream, key: string)
    requires key != "" && IsKeyExist(s, key)
    ensures OpenKey(s, key).0 == PushKey(s, key, -1)
  {
  }

  method GetFieldValue(stream: RapidJsonStream, key: string, kind: Option<string>, digits: real -> string) returns (r: Option<string>)
    modifies stream
    ensures stream.State() == old(stream.State())
    ensures r == Field(old(stream.State()), NonEmpty(Split(key)), kind, digits)
  {
    hide Field, NonEmpty, Split, IsKeyExist, OpenKey;
    var nbClose := 0;
    ghost var start := stream.State();
    var rest, missing := key, false;
    while rest != "" && !missing
      invariant stream.doc == start.doc && |stream.keys| == |start.keys| + nbClose && start.keys <= stream.keys
      invariant !missing ==> Field(start, NonEmpty(Split(key)), kind, digits) == Field(stream.State(), NonEmpty(Split(rest)), kind, digits)
      invariant missing ==> Field(start, NonEmpty(Split(key)), kind, digits) == None
      decreases |rest|, !missing
    {
      var part, left := ReadPart(rest);
      OnePart(stream.State(), rest, kind, digits);
      rest := left;
      if part == "" {
        continue;
      }
      var exist := stream.KeyExists(part);
      if !exist {
        missing := true;
        continue;
      }
      OpensExisting(stream.State(), part);
      var _ := stream.DoOpenKey(part);
      nbClose := nbClose + 1;
    }
    NoPart(stream.State(), kind, digits);
    if missing {
      r := None;
    } else if kind.None? || kind.value == "string" {
      var value := stream.GetTextValue(DEFAULT_VALUE);
      r := Some(value);
    } else if kind.value == "int" {
      var number := stream.GetIntValue(0);
      r := Some(IntText(number));
    } else if kind.value == "double" {
      var number := stream.GetRealValue(0.0);
      r := Some(digits(number));
    } else if kind.value == "bool" {
      var flag := stream.GetBoolValue(false);
      r := Some(BoolText(flag));
    } else {
      r := Some(DEFAULT_VALUE);
    }
    while nbClose != 0
      invariant stream.doc == start.doc && |stream.keys| == |start.keys| + nbClose && start.keys <= stream.keys
    {
      var _ := stream.DoCloseKey();
      nbClose := nbClose - 1;
    }
  }

  ghost predicate Names(keys: seq<string>) {
    forall k :: 0 <= k < |keys| ==> keys[k] != "" && Plain(keys[k])
  }

  lemma {:induction false} PartsAreNames(key: string)
    requires '~' !in key
    ensures Names(NonEmpty(Split(key)))
    decreases |key|
  {
    if key != "" {
      var (part, left) := NextPart(key);
      SplitOnce(key);
      forall c <- part
        ensures c in key && c != '/'
      {
      }
      forall c <- left
        ensures c in key
      {
      }
      PartsAreNames(left);
      var parts := NonEmpty(Split(key));
      forall k | 0 <= k < |parts|
        ensures parts[k] != "" && Plain(parts[k])
      {
        if part != "" && k > 0 { assert parts[k] == NonEmpty(Split(left))[k - 1]; }
      }
    }
  }

  /** A value is returned exactly when the document holds something at the end of the walk, and it is the text of
      what is there. */
  lemma {:induction false} FieldIffWalk(s: Stream, keys: seq<string>, kind: Option<string>, digits: real -> string)
    requires Good(s.keys) && Names(keys) && Get(s.doc, Steps(s.keys, true)).Some?
    ensures var found := Get(s.doc, Steps(s.keys, true) + keys);
            && (Field(s, keys, kind, digits).Some? <==> found.Some?)
            && (found.Some? ==> Field(s, keys, kind, digits) == Some(TextOf(found.value, kind, digits)))
    decreases |keys|
  {
    hide Get, Steps, Walked, Plain;
    var steps := Steps(s.keys, true);
    CurrentHeld(s, Get(s.doc, steps).value);
    if keys == [] {
      assert steps + keys == steps;
    } else {
      var next := PushKey(s, keys[0], -1);
      StepsPushName(s.keys, keys[0], -1, true);
      PointerFollowsKeysIff(next.keys, true);
      Associate(steps, [keys[0]], keys[1..]);
      assert [keys[0]] + keys[1..] == keys;
      GetJoin(s.doc, steps + [keys[0]], keys[1..]);
      if IsKeyExist(s, keys[0]) { FieldIffWalk(next, keys[1..], kind, digits); }
    }
  }

  function TextOf(v: Json, kind: Option<string>, digits: real -> string): string {
    if kind.None? || kind.value == "string" then (if v.JStr? then v.text else DEFAULT_VALUE)
    else if kind.value == "int" then IntText(if IsInt(v) then v.number else 0)
    else if kind.value == "double" then digits(if v.JReal? then v.value else if IsInt(v) then v.number as real else 0.0)
    else if kind.value == "bool" then BoolText(v.JBool? && v.flag)
    else DEFAULT_VALUE
  }

  /** For any field key without '~', and a cursor that stands on a value. */
  lemma FieldOfKey(s: Stream, key: string, kind: Option<string>, digits: real -> string)
    requires Good(s.keys) && '~' !in key && Get(s.doc, Steps(s.keys, true)).Some?
    ensures var found := Get(s.doc, Steps(s.keys, true) + NonEmpty(Split(key)));
            Field(s, NonEmpty(Split(key)), kind, digits) == if found.None? then None else Some(TextOf(found.value, kind, digits))
  {
    PartsAreNames(key);
    FieldIffWalk(s, NonEmpty(Split(key)), kind, digits);
  }

  /** The text of each kind of value, type by type: texts and numbers as they are, a bool as 1 or 0; a value of another type
      is read as the default of its type. */
  lemma TextIs(x: string, n: Int32, r: real, b: bool, digits: real -> string)
    ensures TextOf(JStr(x), None, digits) == x && TextOf(JStr(x), Some("string"), digits) == x
    ensures TextOf(JNum(n), Some("int"), digits) == IntText(n) && TextOf(JNum(n), Some("double"), digits) == digits(n as real)
    ensures TextOf(JReal(r), Some("double"), digits) == digits(r)
    ensures TextOf(JBool(b), Some("bool"), digits) == if b then "1" else "0"
    ensures TextOf(JNull, None, digits) == "defaultValue" && TextOf(JNull, Some("int"), digits) == "0"
    ensures TextOf(JNull, Some("double"), digits) == digits(0.0) && TextOf(JNull, Some("bool"), digits) == "0"
    ensures TextOf(JStr(x), Some("date"), digits) == "defaultValue"
  {
  }

  /** The key list after these names were opened one after the other. */
  function Opened(keys: seq<Key>, names: seq<string>): seq<Key>
    decreases |names|
  {
    if names == [] then keys else Opened(keys + [Key(names[0], -1)], names[1..])
  }

  lemma {:induction false} OpenedSteps(keys: seq<Key>, names: seq<string>)
    requires Good(keys) && Names(names)
    ensures Steps(Opened(keys, names), true) == Steps(keys, true) + names
    ensures AllNamesPlain(Opened(keys, names))
    decreases |names|
  {
    hide Steps, Plain;
    if names == [] {
      assert Steps(keys, true) + [] == Steps(keys, true);
    } else {
      var more := keys + [Key(names[0], -1)];
      StepsPushName(keys, names[0], -1, true);
      assert Good(more) && Names(names[1..]) by {
        assert Plain(names[0]);
        forall k | 0 <= k < |names[1..]|
          ensures names[1..][k] != "" && Plain(names[1..][k])
        {
          assert names[1..][k] == names[k + 1];
        }
      }
      OpenedSteps(more, names[1..]);
      Associate(Steps(keys, true), [names[0]], names[1..]);
      assert [names[0]] + names[1..] == names;
    }
  }

  /** Against the walk that follows the keys step by step: where it ends, its end is what is read; where it breaks off,
      something is read exactly if some step strays and the pointer leads on from there. */
  lemma FieldAgainstWalk(s: Stream, key: string, kind: Option<string>, digits: real -> string)
    requires Good(s.keys) && '~' !in key && Get(s.doc, Steps(s.keys, true)).Some?
    ensures var names := NonEmpty(Split(key));
            var field := Field(s, names, kind, digits);
            var walk := Follow(s.doc, Opened(s.keys, names), true);
            && (walk.Some? ==> field == Some(TextOf(walk.value, kind, digits)))
            && (walk.None? ==> (field.Some? <==> Strays(s.doc, Opened(s.keys, names), true)
                                                 && Get(s.doc, Steps(s.keys, true) + names).Some?))
            && (!Strays(s.doc, Opened(s.keys, names), true) ==> (field.Some? <==> walk.Some?))
  {
    hide Get, Steps, Follow, Strays, Field, Split, NonEmpty, Opened;
    var names := NonEmpty(Split(key));
    PartsAreNames(key);
    FieldOfKey(s, key, kind, digits);
    OpenedSteps(s.keys, names);
    var keys := Opened(s.keys, names);
    if Get(s.doc, Steps(keys, true)).Some? { StraysIff(s.doc, keys, true); }
    if Follow(s.doc, keys, true).Some? { FollowedSteps(s.doc, keys, true); }
  }
}

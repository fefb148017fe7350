/** What the key list of a JSON stream points at: names select members, row numbers select elements. */
module JsonCursor {
  import opened Options
  import opened Decimal
  import opened JsonPointer
  import opened JsonStream
  import opened JsonTree

  function MemberNamed(v: Json, name: string): Option<Json> {
    if !v.JObj? || FindMember(v.members, name).None? then None else Some(v.members[FindMember(v.members, name).value].1)
  }

  function ElementAt(v: Json, index: int): Option<Json> {
    if !v.JArr? || index < 0 || index >= |v.elements| then None else Some(v.elements[index])
  }

  /** Following the key list step by step. */
  function Follow(doc: Json, keys: seq<Key>, withIndex: bool): Option<Json>
    decreases |keys|
  {
    if keys == [] then Some(doc)
    else
      var k := keys[|keys| - 1];
      var before := Follow(doc, keys[..|keys| - 1], true);
      var named := if before.None? || k.name == "" then before else MemberNamed(before.value, k.name);
      if named.None? || !withIndex || k.index == -1 then named else ElementAt(named.value, k.index)
  }

  lemma StepInto(v: Json, token: string, doc: Json, steps: seq<string>)
    requires Get(doc, steps) == Some(v)
    ensures Get(doc, steps + [token]) == if Child(v, token).None? then None else Some(ChildAt(v, Child(v, token).value))
  {
    GetJoin(doc, steps, [token]);
    assert [token][1..] == [];
  }

  lemma NameStep(doc: Json, steps: seq<string>, v: Json, k: Key)
    requires Get(doc, steps) == Some(v) && (k.name == "" || MemberNamed(v, k.name).Some?)
    ensures Get(doc, steps + KeySteps(k, false)) == if k.name == "" then Some(v) else MemberNamed(v, k.name)
  {
    if k.name == "" {
      assert KeySteps(k, false) == [] && steps + [] == steps;
    } else {
      assert KeySteps(k, false) == [k.name];
      StepInto(v, k.name, doc, steps);
    }
  }

  lemma IndexStep(doc: Json, steps: seq<string>, v: Json, k: Key)
    requires Get(doc, steps + KeySteps(k, false)) == Some(v) && k.index != -1 && ElementAt(v, k.index).Some?
    ensures Get(doc, steps + KeySteps(k, true)) == ElementAt(v, k.index)
  {
    assert steps + KeySteps(k, true) == (steps + KeySteps(k, false)) + [IntText(k.index)];
    StepInto(v, IntText(k.index), doc, steps + KeySteps(k, false));
    IndexOfText(k.index);
  }

  lemma {:induction false} FollowedSteps(doc: Json, keys: seq<Key>, withIndex: bool)
    requires Follow(doc, keys, withIndex).Some?
    ensures Get(doc, Steps(keys, withIndex)) == Follow(doc, keys, withIndex)
    decreases |keys|
  {
    hide Get;
    if keys == [] {
      EmptyWalk(doc);
    } else {
      var init, k := keys[..|keys| - 1], keys[|keys| - 1];
      FollowedSteps(doc, init, true);
      var v := Follow(doc, init, true).value;
      NameStep(doc, Steps(init, true), v, k);
      if withIndex && k.index != -1 {
        IndexStep(doc, Steps(init, true), if k.name == "" then v else MemberNamed(v, k.name).value, k);
      } else {
        assert KeySteps(k, withIndex) == KeySteps(k, false);
      }
    }
  }

  lemma EmptyWalk(doc: Json)
    ensures Get(doc, []) == Some(doc)
  {
  }

  /** Whenever the step-by-step walk ends at a node, the rendered pointer is resolved to that node. */
  lemma PointerFindsWalk(s: Stream, withIndex: bool)
    requires forall k :: 0 <= k < |s.keys| ==> Plain(s.keys[k].name)
    requires Follow(s.doc, s.keys, withIndex).Some?
    ensures Current(s, withIndex) == Follow(s.doc, s.keys, withIndex)
  {
    PointerFollowsKeysIff(s.keys, withIndex);
    FollowedSteps(s.doc, s.keys, withIndex);
  }

  // ----- where the pointer finds what the walk does not

  /** A key that reads as the number of an element. */
  predicate NumberedName(v: Json, name: string) {
    name != "" && v.JArr? && ArrayIndex(name).Some? && ArrayIndex(name).value < |v.elements|
  }

  /** A row number that reads as the name of a member. */
  predicate NumberedRow(v: Json, index: int) {
    index != -1 && v.JObj? && FindMember(v.members, IntText(index)).Some?
  }

  /** Some step of the key list is taken by the pointer but not by the walk. */
  ghost predicate Strays(doc: Json, keys: seq<Key>, withIndex: bool)
    decreases |keys|
  {
    keys != [] &&
    var init, k := keys[..|keys| - 1], keys[|keys| - 1];
    var before, named := Follow(doc, init, true), Follow(doc, keys, false);
    || Strays(doc, init, true)
    || (before.Some? && NumberedName(before.value, k.name))
    || (withIndex && named.Some? && NumberedRow(named.value, k.index))
  }

  ghost predicate AllNamesPlain(keys: seq<Key>) {
    forall k :: 0 <= k < |keys| ==> Plain(keys[k].name)
  }

  lemma NumberedNameIff(doc: Json, steps: seq<string>, v: Json, k: Key)
    requires Get(doc, steps) == Some(v)
    ensures Get(doc, steps + KeySteps(k, false)) != (if k.name == "" then Some(v) else MemberNamed(v, k.name))
       <==> NumberedName(v, k.name)
  {
    if k.name == "" {
      assert KeySteps(k, false) == [] && steps + [] == steps;
    } else {
      assert KeySteps(k, false) == [k.name];
      StepInto(v, k.name, doc, steps);
    }
  }

  lemma NoIndexOfNegative(index: int)
    requires index < 0
    ensures ArrayIndex(IntText(index)).None?
  {
  }

  lemma NumberedRowIff(doc: Json, steps: seq<string>, w: Json, k: Key)
    requires Get(doc, steps + KeySteps(k, false)) == Some(w)
    ensures Get(doc, steps + KeySteps(k, true)) != (if k.index == -1 then Some(w) else ElementAt(w, k.index))
       <==> NumberedRow(w, k.index)
  {
    if k.index == -1 {
      assert KeySteps(k, true) == KeySteps(k, false);
    } else {
      assert steps + KeySteps(k, true) == (steps + KeySteps(k, false)) + [IntText(k.index)];
      StepInto(w, IntText(k.index), doc, steps + KeySteps(k, false));
      if k.index >= 0 { IndexOfText(k.index); } else { NoIndexOfNegative(k.index); }
    }
  }

  /** A pointer that resolves has resolved before its last steps. */
  lemma ResolvesBefore(doc: Json, keys: seq<Key>, withIndex: bool)
    requires keys != [] && Get(doc, Steps(keys, withIndex)).Some?
    ensures Get(doc, Steps(keys[..|keys| - 1], true)).Some? && Get(doc, Steps(keys, false)).Some?
  {
    hide Get;
    var init, k := keys[..|keys| - 1], keys[|keys| - 1];
    GetJoin(doc, Steps(init, true), KeySteps(k, withIndex));
    if withIndex && k.index != -1 {
      assert Steps(keys, true) == Steps(keys, false) + [IntText(k.index)];
      GetJoin(doc, Steps(keys, false), [IntText(k.index)]);
    } else {
      assert KeySteps(k, withIndex) == KeySteps(k, false);
    }
  }

  /** Where the pointer resolves, the walk breaks off exactly when it strays. */
  lemma {:induction false} StraysIff(doc: Json, keys: seq<Key>, withIndex: bool)
    requires Get(doc, Steps(keys, withIndex)).Some?
    ensures Follow(doc, keys, withIndex).None? <==> Strays(doc, keys, withIndex)
    decreases |keys|
  {
    hide Get, NumberedName, NumberedRow;
    if keys != [] {
      var init, k := keys[..|keys| - 1], keys[|keys| - 1];
      ResolvesBefore(doc, keys, withIndex);
      StraysIff(doc, init, true);
      if Follow(doc, init, true).Some? {
        FollowedSteps(doc, init, true);
        NumberedNameIff(doc, Steps(init, true), Follow(doc, init, true).value, k);
        if Follow(doc, keys, false).Some? {
          FollowedSteps(doc, keys, false);
          NumberedRowIff(doc, Steps(init, true), Follow(doc, keys, false).value, k);
          if Follow(doc, keys, withIndex).Some? { FollowedSteps(doc, keys, withIndex); }
        }
      }
    }
  }

  /** The rendered pointer and the step-by-step walk agree if and only if the pointer finds nothing, or no step of the
      key list strays. */
  lemma PointerIsWalkIff(s: Stream, withIndex: bool)
    requires AllNamesPlain(s.keys)
    ensures Current(s, withIndex) == Follow(s.doc, s.keys, withIndex)
       <==> Current(s, withIndex).None? || !Strays(s.doc, s.keys, withIndex)
  {
    hide Get, Strays, Follow, Steps;
    PointerFollowsKeysIff(s.keys, withIndex);
    if Current(s, withIndex).Some? { StraysIff(s.doc, s.keys, withIndex); }
    if Follow(s.doc, s.keys, withIndex).Some? { PointerFindsWalk(s, withIndex); }
  }

  /** Opening a key at a value parts the two if and only if the value is an array and the key reads as the number of
      one of its elements. */
  lemma PushedKeyStraysIff(s: Stream, v: Json, key: string)
    requires AllNamesPlain(s.keys) && Plain(key) && Follow(s.doc, s.keys, true) == Some(v)
    ensures var pushed := PushKey(s, key, -1);
            Current(pushed, true) != Follow(pushed.doc, pushed.keys, true) <==> NumberedName(v, key)
  {
    hide Get, NumberedName, Plain;
    var pushed, k := PushKey(s, key, -1), Key(key, -1);
    assert pushed.keys[..|pushed.keys| - 1] == s.keys;
    FollowedSteps(s.doc, s.keys, true);
    NumberedNameIff(s.doc, Steps(s.keys, true), v, k);
    PointerFollowsKeysIff(pushed.keys, true);
    assert KeySteps(k, true) == KeySteps(k, false);
  }

  /** Selecting a row of a value parts them if and only if the value is an object with a member whose name is the row
      number. */
  lemma SelectedRowStraysIff(s: Stream, w: Json, index: int)
    requires AllNamesPlain(s.keys) && s.keys != [] && Follow(s.doc, s.keys, false) == Some(w)
    ensures var selected := WithIndex(s, index);
            Current(selected, true) != Follow(selected.doc, selected.keys, true) <==> NumberedRow(w, index)
  {
    hide Get, NumberedRow, Plain;
    var n := |s.keys| - 1;
    var selected, k := WithIndex(s, index), Key(s.keys[n].name, index);
    assert selected.keys[..n] == s.keys[..n] && selected.keys[n] == k;
    FollowedSteps(s.doc, s.keys, false);
    assert KeySteps(s.keys[n], false) == KeySteps(k, false);
    NumberedRowIff(s.doc, Steps(s.keys[..n], true), w, k);
    PointerFollowsKeysIff(selected.keys, true);
  }

  /** A key that enters an array. */
  lemma NumberedKeyEntersArray(x: Json)
    ensures var s := Stream(JArr([x]), [Key("0", -1)]);
            Follow(s.doc, s.keys, true) == None && Current(s, true) == Some(x)
  {
    var s := Stream(JArr([x]), [Key("0", -1)]);
    PointerFollowsKeysIff(s.keys, true);
    assert Steps(s.keys, true) == ["0"] by { assert s.keys == [] + s.keys; StepsPushName([], "0", -1, true); }
    assert s.keys[..0] == [];
    IndexOfText(0);
    assert ToText(0) == "0" && ["0"][1..] == [];
    assert Child(s.doc, "0") == Some(0);
    assert Get(s.doc, ["0"]) == Get(x, []);
  }

  /** A row number that enters an object. */
  lemma NumberedRowEntersObject(x: Json)
    ensures var s := Stream(JObj([("3", x)]), [Key("", 3)]);
            Follow(s.doc, s.keys, true) == None && Current(s, true) == Some(x)
  {
    var s := Stream(JObj([("3", x)]), [Key("", 3)]);
    PointerFollowsKeysIff(s.keys, true);
    assert s.keys[..0] == [] && KeySteps(s.keys[0], true) == [IntText(3)];
    assert IntText(3) == "3" && ["3"][1..] == [];
    assert Steps(s.keys, true) == [] + ["3"] == ["3"];
    assert Get(s.doc, ["3"]) == Get(x, []);
  }
}

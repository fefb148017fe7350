/** JSON values, and the pointers of RFC 6901 with which RapidJsonStream finds its current value
    (src/lib/osCoreImpl/src/RapidJsonStream.cpp:343-360). */
module JsonPointer {
  import opened Options
  import opened PathText
  import opened Decimal

  datatype Json = JNull | JStr(text: string) | JNum(number: int) | JReal(value: real) | JBool(flag: bool)
                | JObj(members: seq<(string, Json)>) | JArr(elements: seq<Json>)

  // ----- values

  /** FindMember: the place of the first member with this name. */
  function FindMember(members: seq<(string, Json)>, name: string): (r: Option<nat>)
    ensures r.Some? ==> r.value < |members|
  {
    if members == [] then None
    else if members[0].0 == name then Some(0)
    else
      var r := FindMember(members[1..], name);
      if r.None? then None else Some(r.value + 1)
  }

  /** FindMember finds the first member of that name, whenever there is one. */
  lemma {:induction false} FindsFirst(members: seq<(string, Json)>, name: string, k: nat)
    requires k <= |members| && forall j :: 0 <= j < k ==> members[j].0 != name
    ensures k < |members| && members[k].0 == name ==> FindMember(members, name) == Some(k)
    ensures k == |members| ==> FindMember(members, name).None?
    decreases |members|
  {
    if k > 0 { FindsFirst(members[1..], name, k - 1); }
  }

  /** An array index as section 4 of RFC 6901 writes it: decimal digits without a leading zero. */
  function ArrayIndex(token: string): Option<nat> {
    if token == "" || !DigitsOnly(token) || (token[0] == '0' && |token| > 1) then None else Some(ToNumber(token))
  }

  predicate DigitsOnly(s: string)
    ensures DigitsOnly(s) <==> AllDigits(s)
  {
    s == "" || (IsDigit(s[0]) && DigitsOnly(s[1..]))
  }

  lemma {:induction false} IndexOfText(n: nat)
    ensures ArrayIndex(ToText(n)) == Some(n)
  {
    NumberOfText(n);
    if n == 0 { assert |ToText(n)| == 1; }
  }

  /** The place of the child a token selects. */
  function Child(v: Json, token: string): (r: Option<nat>)
    ensures r.Some? ==> (v.JObj? && r.value < |v.members|) || (v.JArr? && r.value < |v.elements|)
  {
    match v
    case JObj(members) => FindMember(members, token)
    case JArr(elements) =>
      var k := ArrayIndex(token);
      if k.None? || k.value >= |elements| then None else k
    case _ => None
  }

  function ChildAt(v: Json, k: nat): Json
    requires (v.JObj? && k < |v.members|) || (v.JArr? && k < |v.elements|)
  {
    if v.JObj? then v.members[k].1 else v.elements[k]
  }

  function Replace(v: Json, k: nat, x: Json): Json
    requires (v.JObj? && k < |v.members|) || (v.JArr? && k < |v.elements|)
  {
    if v.JObj? then JObj(v.members[k := (v.members[k].0, x)]) else JArr(v.elements[k := x])
  }

  /** The value at the end of a list of tokens. */
  function Get(v: Json, tokens: seq<string>): Option<Json> {
    if tokens == [] then Some(v)
    else if Child(v, tokens[0]).None? then None
    else Get(ChildAt(v, Child(v, tokens[0]).value), tokens[1..])
  }

  /** Changing the value at the end of a list of tokens in place. */
  function Put(v: Json, tokens: seq<string>, x: Json): Json {
    if tokens == [] then x
    else if Child(v, tokens[0]).None? then v
    else
      var k := Child(v, tokens[0]).value;
      Replace(v, k, Put(ChildAt(v, k), tokens[1..], x))
  }

  // ----- changing one place

  lemma {:induction false} FindAfterUpdate(members: seq<(string, Json)>, k: nat, x: Json, name: string)
    requires k < |members|
    ensures FindMember(members[k := (members[k].0, x)], name) == FindMember(members, name)
    decreases |members|
  {
    if k > 0 && members[0].0 != name {
      assert members[k := (members[k].0, x)][1..] == members[1..][k - 1 := (members[1..][k - 1].0, x)];
      FindAfterUpdate(members[1..], k - 1, x, name);
    } else if k == 0 {
      assert members[0 := (members[0].0, x)][1..] == members[1..];
    }
  }

  lemma ChildAfterReplace(v: Json, k: nat, x: Json, token: string)
    requires (v.JObj? && k < |v.members|) || (v.JArr? && k < |v.elements|)
    ensures Child(Replace(v, k, x), token) == Child(v, token)
    ensures ChildAt(Replace(v, k, x), k) == x
  {
    if v.JObj? { FindAfterUpdate(v.members, k, x, token); }
  }

  lemma {:induction false} GetPut(v: Json, tokens: seq<string>, x: Json)
    requires Get(v, tokens).Some?
    ensures Get(Put(v, tokens, x), tokens) == Some(x)
    decreases |tokens|
  {
    if tokens != [] {
      var k := Child(v, tokens[0]).value;
      GetPut(ChildAt(v, k), tokens[1..], x);
      ChildAfterReplace(v, k, Put(ChildAt(v, k), tokens[1..], x), tokens[0]);
    }
  }

  lemma ReplaceTwice(v: Json, k: nat, x: Json, y: Json)
    requires (v.JObj? && k < |v.members|) || (v.JArr? && k < |v.elements|)
    ensures Replace(Replace(v, k, x), k, y) == Replace(v, k, y)
    ensures Replace(v, k, ChildAt(v, k)) == v
  {
  }

  lemma {:induction false} PutPut(v: Json, tokens: seq<string>, x: Json, y: Json)
    requires Get(v, tokens).Some?
    ensures Put(Put(v, tokens, x), tokens, y) == Put(v, tokens, y)
    decreases |tokens|
  {
    if tokens != [] {
      var k := Child(v, tokens[0]).value;
      var sub := ChildAt(v, k);
      PutPut(sub, tokens[1..], x, y);
      ChildAfterReplace(v, k, Put(sub, tokens[1..], x), tokens[0]);
      ReplaceTwice(v, k, Put(sub, tokens[1..], x), Put(sub, tokens[1..], y));
    }
  }

  lemma {:induction false} PutGet(v: Json, tokens: seq<string>)
    requires Get(v, tokens).Some?
    ensures Put(v, tokens, Get(v, tokens).value) == v
    decreases |tokens|
  {
    if tokens != [] {
      var k := Child(v, tokens[0]).value;
      PutGet(ChildAt(v, k), tokens[1..]);
      ReplaceTwice(v, k, JNull, JNull);
    }
  }

  /** Walking, and changing, in two stages. */
  lemma {:induction false} GetJoin(v: Json, xs: seq<string>, ys: seq<string>)
    ensures Get(v, xs + ys) == if Get(v, xs).None? then None else Get(Get(v, xs).value, ys)
    decreases |xs|
  {
    if xs == [] {
      assert xs + ys == ys;
    } else {
      assert (xs + ys)[1..] == xs[1..] + ys;
      if Child(v, xs[0]).Some? { GetJoin(ChildAt(v, Child(v, xs[0]).value), xs[1..], ys); }
    }
  }

  lemma {:induction false} PutJoin(v: Json, xs: seq<string>, ys: seq<string>, x: Json)
    requires Get(v, xs).Some?
    ensures Put(v, xs + ys, x) == Put(v, xs, Put(Get(v, xs).value, ys, x))
    decreases |xs|
  {
    if xs == [] {
      assert xs + ys == ys;
    } else {
      assert (xs + ys)[1..] == xs[1..] + ys;
      PutJoin(ChildAt(v, Child(v, xs[0]).value), xs[1..], ys, x);
    }
  }

  // ----- the pointer as text

  /** Splitting at every '/', empty tokens included. */
  function SplitTokens(s: string): (r: seq<string>)
    ensures r != []
  {
    if s == "" then [""]
    else if s[0] == '/' then [""] + SplitTokens(s[1..])
    else
      var r := SplitTokens(s[1..]);
      [[s[0]] + r[0]] + r[1..]
  }

  /** "~0" and "~1" stand for '~' and '/'; any other use of '~' is an error. */
  function Unescape(s: string): Option<string> {
    if s == "" then Some("")
    else if s[0] != '~' then
      var r := Unescape(s[1..]);
      if r.None? then None else Some([s[0]] + r.value)
    else if |s| >= 2 && (s[1] == '0' || s[1] == '1') then
      var r := Unescape(s[2..]);
      if r.None? then None else Some([if s[1] == '0' then '~' else '/'] + r.value)
    else None
  }

  function UnescapeAll(tokens: seq<string>): Option<seq<string>> {
    if tokens == [] then Some([])
    else
      var t, r := Unescape(tokens[0]), UnescapeAll(tokens[1..]);
      if t.None? || r.None? then None else Some([t.value] + r.value)
  }

  /** The tokens of a pointer: the empty text is the whole document, any other starts with '/'. */
  function Tokens(path: string): Option<seq<string>> {
    if path == "" then Some([])
    else if path[0] != '/' then None
    else UnescapeAll(SplitTokens(path[1..]))
  }

  /** A token that needs no escape. */
  ghost predicate Plain(token: string) {
    '/' !in token && '~' !in token
  }

  lemma {:induction false} SplitPlain(token: string, rest: string)
    requires '/' !in token
    ensures SplitTokens(token) == [token]
    ensures SplitTokens(token + "/" + rest) == [token] + SplitTokens(rest)
    decreases |token|
  {
    var s := token + "/" + rest;
    if token == "" {
      assert s == "/" + rest && s[1..] == rest;
    } else {
      assert token[0] in token;
      forall c | c in token[1..]
        ensures c in token
      {
      }
      SplitPlain(token[1..], rest);
      assert s[1..] == token[1..] + "/" + rest;
      assert [token[0]] + token[1..] == token;
    }
  }

  lemma {:induction false} UnescapePlain(token: string)
    requires '~' !in token
    ensures Unescape(token) == Some(token)
    decreases |token|
  {
    if token != "" {
      assert token[0] in token;
      UnescapePlain(token[1..]);
      assert [token[0]] + token[1..] == token;
    }
  }

  ghost predicate AllPlain(tokens: seq<string>) {
    forall k :: 0 <= k < |tokens| ==> Plain(tokens[k])
  }

  lemma {:induction false} SplitJoined(tokens: seq<string>)
    requires tokens != [] && forall k :: 0 <= k < |tokens| ==> '/' !in tokens[k]
    ensures Join(tokens) != "" && Join(tokens)[0] == '/' && SplitTokens(Join(tokens)[1..]) == tokens
    decreases |tokens|
  {
    var s := Join(tokens);
    var token := tokens[0];
    if |tokens| == 1 {
      assert Join(tokens[1..]) == "";
      assert s == "/" + token;
      assert s[1..] == token;
      SplitPlain(token, "");
    } else {
      SplitJoined(tokens[1..]);
      var r := Join(tokens[1..]);
      assert s[1..] == token + r && r == "/" + r[1..];
      assert token + r == token + "/" + r[1..];
      SplitPlain(token, r[1..]);
    }
  }

  lemma {:induction false} UnescapeAllPlain(tokens: seq<string>)
    requires AllPlain(tokens)
    ensures UnescapeAll(tokens) == Some(tokens)
    decreases |tokens|
  {
    if tokens != [] {
      assert Plain(tokens[0]);
      UnescapePlain(tokens[0]);
      UnescapeAllPlain(tokens[1..]);
      assert [tokens[0]] + tokens[1..] == tokens;
    }
  }

  /** The tokens of a rendered list of plain tokens are those tokens. */
  lemma TokensOfJoined(tokens: seq<string>)
    requires AllPlain(tokens)
    ensures Tokens(Join(tokens)) == Some(tokens)
  {
    if tokens != [] {
      SplitJoined(tokens);
      UnescapeAllPlain(tokens);
    }
  }

  // ----- exactly which tokens survive being rendered

  ghost function Slashes(s: string): nat {
    if s == "" then 0 else (if s[0] == '/' then 1 else 0) + Slashes(s[1..])
  }

  lemma {:induction false} SlashesJoin(a: string, b: string)
    ensures Slashes(a + b) == Slashes(a) + Slashes(b)
  {
    if a == "" {
      assert a + b == b;
    } else {
      assert (a + b)[1..] == a[1..] + b;
      SlashesJoin(a[1..], b);
    }
  }

  lemma {:induction false} SplitCounts(s: string)
    ensures |SplitTokens(s)| == 1 + Slashes(s)
  {
    if s != "" { SplitCounts(s[1..]); }
  }

  /** A rendered list has at least one '/' a token, and one more wherever a token holds one. */
  lemma {:induction false} JoinedSlashes(tokens: seq<string>, k: nat)
    requires k < |tokens|
    ensures Slashes(Join(tokens)) >= |tokens| + Slashes(tokens[k])
    decreases |tokens|
  {
    var rest := Join(tokens[1..]);
    SlashesJoin("/" + tokens[0], rest);
    SlashesJoin("/", tokens[0]);
    assert Slashes("/") == 1 by { assert "/"[1..] == ""; }
    if |tokens| > 1 { JoinedSlashes(tokens[1..], if k == 0 then 0 else k - 1); }
  }

  lemma {:induction false} NoSlash(s: string)
    requires Slashes(s) == 0
    ensures '/' !in s
  {
    if s != "" {
      NoSlash(s[1..]);
      assert s == [s[0]] + s[1..];
    }
  }

  /** Unescaping shortens a text unless it holds no '~'. */
  lemma {:induction false} UnescapeShortens(s: string)
    requires Unescape(s).Some?
    ensures |Unescape(s).value| <= |s|
    ensures |Unescape(s).value| == |s| ==> '~' !in s
    decreases |s|
  {
    if s != "" {
      if s[0] != '~' {
        UnescapeShortens(s[1..]);
        assert s == [s[0]] + s[1..];
      } else {
        UnescapeShortens(s[2..]);
      }
    }
  }

  lemma {:induction false} UnescapeAllKeeps(tokens: seq<string>, k: nat)
    requires k < |tokens| && UnescapeAll(tokens) == Some(tokens)
    ensures '~' !in tokens[k]
    decreases k
  {
    var t, r := Unescape(tokens[0]), UnescapeAll(tokens[1..]);
    assert tokens == [t.value] + r.value;
    assert r.value == tokens[1..];
    if k == 0 {
      UnescapeShortens(tokens[0]);
    } else {
      UnescapeAllKeeps(tokens[1..], k - 1);
    }
  }

  lemma SameTokensSplit(tokens: seq<string>)
    requires tokens != [] && Tokens(Join(tokens)) == Some(tokens)
    ensures forall k :: 0 <= k < |tokens| ==> '/' !in tokens[k]
  {
    var path := Join(tokens);
    var split := SplitTokens(path[1..]);
    UnescapeAllLength(split);
    SplitCounts(path[1..]);
    assert path[0] == '/';
    forall k | 0 <= k < |tokens|
      ensures '/' !in tokens[k]
    {
      JoinedSlashes(tokens, k);
      NoSlash(tokens[k]);
    }
  }

  lemma {:induction false} UnescapeAllLength(tokens: seq<string>)
    ensures UnescapeAll(tokens).Some? ==> |UnescapeAll(tokens).value| == |tokens|
  {
    if tokens != [] { UnescapeAllLength(tokens[1..]); }
  }

  /** A rendered list of tokens is read as that list exactly when no token holds a '/' or a '~'. */
  lemma TokensOfJoinedIff(tokens: seq<string>)
    ensures Tokens(Join(tokens)) == Some(tokens) <==> AllPlain(tokens)
  {
    if AllPlain(tokens) {
      TokensOfJoined(tokens);
    } else if Tokens(Join(tokens)) == Some(tokens) {
      SameTokensSplit(tokens);
      SplitJoined(tokens);
      forall k | 0 <= k < |tokens|
        ensures '~' !in tokens[k]
      {
        UnescapeAllKeeps(tokens, k);
      }
      assert false;
    }
  }

  // ----- escapes and indices, as sections 3 and 4 of RFC 6901 have them

  function Escape(s: string): string {
    if s == "" then ""
    else (if s[0] == '~' then "~0" else if s[0] == '/' then "~1" else [s[0]]) + Escape(s[1..])
  }

  /** Reading an escaped text gives the text. */
  lemma {:induction false} UnescapeEscape(s: string)
    ensures Unescape(Escape(s)) == Some(s) && '/' !in Escape(s)
    decreases |s|
  {
    if s != "" {
      UnescapeEscape(s[1..]);
      var rest := Escape(s[1..]);
      assert s == [s[0]] + s[1..];
      if s[0] == '~' || s[0] == '/' {
        assert Escape(s)[2..] == rest;
      } else {
        assert Escape(s)[1..] == rest;
      }
    }
  }

  /** A tilde that is followed by neither a 0 nor a 1. */
  ghost predicate BadTilde(s: string, k: nat) {
    k < |s| && s[k] == '~' && (k + 1 == |s| || (s[k + 1] != '0' && s[k + 1] != '1'))
  }

  /** A token is malformed exactly if it has such a tilde. */
  lemma {:induction false} MalformedIff(s: string)
    ensures Unescape(s).None? <==> exists k: nat :: BadTilde(s, k)
    decreases |s|
  {
    if s == "" {
    } else if s[0] == '~' && !BadTilde(s, 0) {
      MalformedIff(s[2..]);
      BadTildeAfter(s, 2);
    } else {
      MalformedIff(s[1..]);
      BadTildeAfter(s, 1);
      assert s[0] == '~' ==> BadTilde(s, 0);
    }
  }

  lemma BadTildeAfter(s: string, n: nat)
    requires n <= |s| && forall k: nat :: k < n ==> !BadTilde(s, k) || k == 0
    ensures (exists k: nat :: BadTilde(s[n..], k)) <==> exists k: nat :: k >= n && BadTilde(s, k)
  {
    if k: nat :| BadTilde(s[n..], k) { assert BadTilde(s, k + n); }
    if k: nat :| k >= n && BadTilde(s, k) { assert BadTilde(s[n..], k - n); }
  }

  /** A token is an array index exactly if it is the decimal text of a number. */
  lemma ArrayIndexIff(token: string, n: nat)
    ensures ArrayIndex(token) == Some(n) <==> token == ToText(n)
  {
    IndexOfText(n);
    if ArrayIndex(token).Some? { TextOfNumber(token); }
  }
}

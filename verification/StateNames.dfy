/** Full state names as text: splitting at the separator, and the markers of the pseudo-states. */
module StateNames {
  import opened Options
  import opened PathText
  import opened StateTree

  // ----- std::getline(iss, part, '/')

  function FirstSlash(s: string): (r: Option<nat>)
    ensures r.Some? ==> r.value < |s| && s[r.value] == '/' && forall k :: 0 <= k < r.value ==> s[k] != '/'
    ensures r.None? ==> '/' !in s
  {
    if s == "" then None
    else if s[0] == '/' then Some(0)
    else
      var r := FirstSlash(s[1..]);
      if r.None? then None else Some(r.value + 1)
  }

  /** The parts the getline loop collects: a separator at the very end starts no further part. */
  function Split(s: string): seq<string>
    decreases |s|
  {
    if s == "" then []
    else
      var k := FirstSlash(s);
      if k.None? then [s] else [s[..k.value]] + Split(s[k.value + 1..])
  }

  /** What getline reads next, and what it leaves. */
  function NextPart(s: string): (string, string) {
    var slash: Option<nat> := FirstSlash(s);
    if slash.None? then (s, "") else (s[..slash.value], s[slash.value + 1..])
  }

  method ReadPart(rest: string) returns (part: string, left: string)
    requires rest != ""
    ensures (part, left) == NextPart(rest) && |left| < |rest|
  {
    var slash: Option<nat> := FirstSlash(rest);
    if slash.None? {
      return rest, "";
    }
    return rest[..slash.value], rest[slash.value + 1..];
  }

  lemma SplitNext(rest: string)
    requires rest != ""
    ensures Split(rest) == [NextPart(rest).0] + Split(NextPart(rest).1)
  {
  }

  lemma SplitAtSlash(p: string, rest: string)
    requires '/' !in p
    ensures Split(p + "/" + rest) == [p] + Split(rest)
  {
    var s := p + "/" + rest;
    var k := FirstSlash(s);
    assert s[|p|] == '/' && forall j :: 0 <= j < |p| ==> s[j] == p[j];
    if k.Some? {
      assert k.value == |p|;
      assert s[..|p|] == p && s[|p| + 1..] == rest;
    }
  }

  lemma JoinFirst(first: string, parts: seq<string>)
    requires parts != []
    ensures first + Join(parts) == first + "/" + (parts[0] + Join(parts[1..]))
  {
  }

  /** Splitting gives back the parts that were joined, after the empty text before the first separator. */
  lemma {:induction false} SplitJoin(first: string, parts: seq<string>)
    requires '/' !in first
    requires forall k :: 0 <= k < |parts| ==> parts[k] != "" && '/' !in parts[k]
    ensures first + Join(parts) != "" ==> Split(first + Join(parts)) == [first] + parts
    decreases |parts|
  {
    if parts == [] {
      assert first + Join(parts) == first;
    } else {
      hide Split;
      var rest := parts[0] + Join(parts[1..]);
      JoinFirst(first, parts);
      SplitAtSlash(first, rest);
      SplitJoin(parts[0], parts[1..]);
      assert parts == [parts[0]] + parts[1..];
    }
  }

  /** Every part followed by a separator. */
  ghost function Terminated(parts: seq<string>): string {
    if parts == [] then "" else parts[0] + "/" + Terminated(parts[1..])
  }

  lemma FirstSlashAt(first: string, rest: string)
    requires '/' !in first
    ensures FirstSlash(first + "/" + rest) == Some(|first|)
  {
    var s := first + "/" + rest;
    assert s[|first|] == '/' && forall j :: 0 <= j < |first| ==> s[j] == first[j];
  }

  /** A text is its first part, or its first part with the separator and the rest. */
  lemma SplitFirst(s: string)
    requires s != ""
    ensures var (first, rest) := NextPart(s);
            && '/' !in first
            && (if FirstSlash(s).None? then first == s && rest == "" && s[|s| - 1] != '/'
                else s == first + "/" + rest && (s[|s| - 1] == '/' <==> rest == "" || rest[|rest| - 1] == '/'))
  {
    hide FirstSlash;
    var k := FirstSlash(s);
    if k.None? { assert s[|s| - 1] in s; } else { AroundSlash(s, k.value); }
  }

  lemma AroundSlash(s: string, k: nat)
    requires k < |s| && s[k] == '/' && forall j :: 0 <= j < k ==> s[j] != '/'
    ensures '/' !in s[..k] && s == s[..k] + "/" + s[k + 1..]
    ensures s[k + 1..] == "" ==> k == |s| - 1
    ensures s[k + 1..] != "" ==> s[k + 1..][|s| - k - 2] == s[|s| - 1]
  {
  }

  lemma TerminatedFirst(first: string, parts: seq<string>)
    ensures Terminated([first] + parts) == first + "/" + Terminated(parts)
  {
    assert ([first] + parts)[1..] == parts;
  }

  /** Splitting, told without the loop: no part holds a separator, and the parts with one after each give back the text, or
      the text and the separator it lacks at its end. */
  lemma {:induction false} SplitIs(s: string)
    ensures forall k :: 0 <= k < |Split(s)| ==> '/' !in Split(s)[k]
    ensures Terminated(Split(s)) == if s == "" || s[|s| - 1] == '/' then s else s + "/"
    decreases |s|
  {
    hide Split, FirstSlash, NextPart, Terminated;
    EmptyTerminated();
    if s != "" {
      var first, rest := NextPart(s).0, NextPart(s).1;
      SplitFirst(s);
      SplitNext(s);
      SplitIs(rest);
      TerminatedFirst(first, Split(rest));
      assert first + "/" + "" == first + "/" && first + "/" + (rest + "/") == (first + "/" + rest) + "/";
    }
  }

  lemma EmptyTerminated()
    ensures Terminated([]) == "" && Split("") == []
  {
  }

  /** Two lists of parts without separators that give the same text are the same. */
  lemma {:induction false} TerminatedIsUnique(xs: seq<string>, ys: seq<string>)
    requires (forall k :: 0 <= k < |xs| ==> '/' !in xs[k]) && (forall k :: 0 <= k < |ys| ==> '/' !in ys[k])
    requires Terminated(xs) == Terminated(ys)
    ensures xs == ys
    decreases |xs|
  {
    if xs != [] && ys != [] {
      var x, y, s := xs[0], ys[0], Terminated(xs);
      assert s == x + "/" + Terminated(xs[1..]) && s == y + "/" + Terminated(ys[1..]);
      FirstSlashAt(x, Terminated(xs[1..]));
      FirstSlashAt(y, Terminated(ys[1..]));
      assert x == s[..|x|] && y == s[..|y|];
      assert Terminated(xs[1..]) == s[|x| + 1..] && Terminated(ys[1..]) == s[|y| + 1..];
      TerminatedIsUnique(xs[1..], ys[1..]);
      assert xs == [x] + xs[1..] && ys == [y] + ys[1..];
    }
  }

  // ----- std::string::find with "(S)", "(E)" and "(H)"

  function Mark(c: char): string {
    ['(', c, ')']
  }

  function FindMark(s: string, c: char): (r: Option<nat>)
    ensures r.Some? ==> r.value <= |s|
  {
    if |s| < 3 then None
    else if s[..3] == Mark(c) then Some(0)
    else
      var r := FindMark(s[1..], c);
      if r.None? then None else Some(r.value + 1)
  }

  ghost predicate MarkAt(s: string, c: char, k: nat) {
    k + 3 <= |s| && s[k] == '(' && s[k + 1] == c && s[k + 2] == ')'
  }

  /** The first place of the marker, if it occurs at all. */
  lemma {:induction false} FindMarkIs(s: string, c: char)
    ensures FindMark(s, c).Some? ==> MarkAt(s, c, FindMark(s, c).value) && forall k: nat :: k < FindMark(s, c).value ==> !MarkAt(s, c, k)
    ensures FindMark(s, c).None? ==> forall k: nat :: !MarkAt(s, c, k)
    decreases |s|
  {
    if |s| >= 3 {
      assert s[..3] == Mark(c) <==> MarkAt(s, c, 0);
      FindMarkIs(s[1..], c);
      forall k: nat | k > 0
        ensures MarkAt(s, c, k) <==> MarkAt(s[1..], c, k - 1)
      {
      }
    }
  }

  /** A marker put after a text free of it is found there, and brings no other marker. */
  lemma {:induction false} FindAppendedMark(s: string, c: char, d: char)
    requires c != '(' && FindMark(s, c).None?
    ensures FindMark(s + Mark(d), c) == if c == d then Some(|s|) else None
    decreases |s|
  {
    var x := s + Mark(d);
    if s == "" {
      assert x == Mark(d) && x[..3] == x;
      assert FindMark(x[1..], c).None?;
    } else {
      assert x[1..] == s[1..] + Mark(d);
      if |s| == 1 { assert x[..3][1] == '('; }
      if |s| == 2 { assert x[..3][2] == '('; }
      if |s| >= 3 { assert x[..3] == s[..3]; }
      FindAppendedMark(s[1..], c, d);
    }
  }

  /** A name the viewer can tell from a marked one. */
  ghost predicate Clean(name: string) {
    && name != "" && '/' !in name
    && FindMark(name, 'S').None? && FindMark(name, 'E').None? && FindMark(name, 'H').None?
  }
}

/** Parsing what was printed: src/lib/osData/src/Uri.cpp:166-240. */
module UriRoundTrip {
  import opened Options
  import opened Sequences
  import opened Decimal
  import opened Uri

  // ----- runs of class characters

  ghost predicate All(cls: CharClass, s: string) {
    Scan(cls, s) == |s|
  }

  lemma {:induction false} ScanTakesAll(cls: CharClass, s: string)
    ensures All(cls, s[..Scan(cls, s)])
    decreases |s|
  {
    hide In;
    var n := Scan(cls, s);
    if s == "" {
    } else if In(cls, s[0]) {
      ScanTakesAll(cls, s[1..]);
      assert s[..n][1..] == s[1..][..n - 1];
    } else if n > 0 {
      ScanTakesAll(cls, s[3..]);
      assert s[..n][3..] == s[3..][..n - 3];
    }
  }

  lemma {:induction false} ScanAppend(cls: CharClass, x: string, y: string)
    requires All(cls, x) && Scan(cls, y) == 0
    ensures Scan(cls, x + y) == |x|
    decreases |x|
  {
    hide In;
    if x == "" {
      assert x + y == y;
    } else if In(cls, x[0]) {
      assert (x + y)[1..] == x[1..] + y;
      ScanAppend(cls, x[1..], y);
    } else {
      assert (x + y)[3..] == x[3..] + y;
      ScanAppend(cls, x[3..], y);
    }
  }

  lemma {:induction false} HostIsUser(s: string)
    requires All(HostChars, s)
    ensures All(UserChars, s)
    decreases |s|
  {
    if s == "" {
    } else if In(HostChars, s[0]) {
      HostIsUser(s[1..]);
    } else {
      assert !In(UserChars, '%');
      HostIsUser(s[3..]);
    }
  }

  lemma {:induction false} AllJoin(cls: CharClass, x: string, y: string)
    requires All(cls, x) && All(cls, y)
    ensures All(cls, x + y)
    decreases |x|
  {
    if x == "" {
      assert x + y == y;
    } else if In(cls, x[0]) {
      assert (x + y)[1..] == x[1..] + y;
      AllJoin(cls, x[1..], y);
    } else {
      assert (x + y)[3..] == x[3..] + y;
      AllJoin(cls, x[3..], y);
    }
  }

  lemma {:induction false} DigitsAreUser(s: string)
    requires AllDigits(s)
    ensures All(UserChars, s)
    decreases |s|
  {
    if s != "" { DigitsAreUser(s[1..]); }
  }

  lemma {:induction false} RunAppend(p: char -> bool, x: string, y: string)
    requires forall k :: 0 <= k < |x| ==> p(x[k])
    requires y == "" || !p(y[0])
    ensures Run(p, x + y) == |x|
    decreases |x|
  {
    if x == "" {
      assert x + y == y;
    } else {
      assert (x + y)[1..] == x[1..] + y;
      RunAppend(p, x[1..], y);
    }
  }

  // ----- the grammar

  ghost predicate SchemeOk(s: string) {
    s != "" && IsAlpha(s[0]) && forall k :: 0 <= k < |s| ==> IsSchemeChar(s[k])
  }

  ghost predicate HostOk(h: string) {
    BracketLength(h) == |h| > 0 || All(HostChars, h)
  }

  ghost predicate Optional(cls: CharClass, part: Option<string>) {
    part.Some? ==> All(cls, part.value)
  }

  ghost predicate DoubleSlash(s: string) {
    |s| >= 2 && s[..2] == "//"
  }

  ghost predicate PathOk(hasAuthority: bool, path: Option<string>) {
    && Optional(PathChars, path)
    && (if hasAuthority then path.Some? ==> StartsWith(path.value, '/') else path.Some? && !DoubleSlash(path.value))
  }

  /** The parts are words of the grammar. */
  ghost predicate WellFormed(m: Scanned)
    requires m.Scanned?
  {
    && SchemeOk(m.scheme)
    && (if m.hasAuthority then Optional(UserChars, m.userInfo) && HostOk(m.host) && (m.port.Some? ==> AllDigits(m.port.value))
        else m.userInfo.None? && m.host == "" && m.port.None?)
    && PathOk(m.hasAuthority, m.path)
    && Optional(QueryChars, m.query)
    && Optional(QueryChars, m.fragment)
  }

  ghost function AfterPath(m: Scanned): string
    requires m.Scanned?
  {
    PrintMarked("?", m.query) + PrintMarked("#", m.fragment)
  }

  ghost function Tail(m: Scanned): string
    requires m.Scanned?
  {
    PrintPath(m.path) + AfterPath(m)
  }

  ghost function Rest(m: Scanned): string
    requires m.Scanned?
  {
    if !m.hasAuthority then Tail(m)
    else "//" + (PrintUserInfo(m.userInfo) + (m.host + (PrintMarked(":", m.port) + Tail(m))))
  }

  /** The string put together from its parts, fragment included. */
  ghost function Recompose(m: Scanned): string
    requires m.Scanned?
  {
    m.scheme + ":" + Rest(m)
  }

  // ----- what matches is a word of the grammar

  lemma TakePathOk(s: string)
    ensures var (path, rest) := TakePathAfterAuthority(s); PathOk(true, path) && PrintPath(path) + rest == s
  {
    if StartsWith(s, '/') { TakePathAloneOk(s); }
  }

  lemma TakePathAloneOk(s: string)
    ensures var (path, rest) := TakePathAlone(s);
            path.Some? && Optional(PathChars, path) && path.value + rest == s && path.value == s[..|path.value|]
            && (StartsWith(s, '/') ==> StartsWith(path.value, '/'))
  {
    var k := if StartsWith(s, '/') then 1 else 0;
    var n := Scan(PathChars, s[k..]);
    ScanTakesAll(PathChars, s[k..]);
    assert s[..k + n][k..] == s[k..][..n];
    assert s[..k + n] + s[k + n..] == s;
  }

  lemma TakeSinglePathOk(s: string)
    requires !DoubleSlash(s)
    ensures var (path, rest) := TakePathAlone(s); PathOk(false, path) && PrintPath(path) + rest == s
  {
    hide Scan;
    TakePathAloneOk(s);
    var path := TakePathAlone(s).0.value;
    if |path| >= 2 { assert path[..2] == s[..2]; }
  }

  lemma TakeHostOk(s: string)
    ensures var (host, rest) := TakeHost(s); HostOk(host) && host + rest == s
  {
    var n := BracketLength(s);
    if n > 0 {
      var h := s[..n];
      assert h[1..] == s[1..][..n - 2] + "]";
      RunAppend(IsBracketChar, s[1..][..n - 2], "]");
    } else {
      ScanTakesAll(HostChars, s);
    }
  }

  lemma TakeUserOk(s: string)
    ensures var (userInfo, rest) := TakeUserInfo(s); Optional(UserChars, userInfo) && PrintUserInfo(userInfo) + rest == s
  {
    ScanTakesAll(UserChars, s);
    var n := Scan(UserChars, s);
    if n < |s| && s[n] == '@' { assert (s[..n] + "@") + s[n + 1..] == s; }
  }

  lemma TakePortOk(s: string)
    ensures var (port, rest) := TakePort(s); (port.Some? ==> AllDigits(port.value)) && PrintMarked(":", port) + rest == s
  {
  }

  lemma TakeMarkedOk(s: string, mark: char)
    ensures var (part, rest) := TakeMarked(s, mark); Optional(QueryChars, part) && PrintMarked([mark], part) + rest == s
  {
    if StartsWith(s, mark) {
      var n := Scan(QueryChars, s[1..]);
      ScanTakesAll(QueryChars, s[1..]);
      assert ([mark] + s[1..][..n]) + s[1..][n..] == s;
    }
  }

  lemma TakeSchemeOk(s: string)
    ensures TakeScheme(s).Some? ==> var (scheme, rest) := TakeScheme(s).value; SchemeOk(scheme) && scheme + ":" + rest == s
  {
  }

  lemma TakeTailOk(s: string)
    ensures var (query, r) := TakeMarked(s, '?');
            var (fragment, end) := TakeMarked(r, '#');
            Optional(QueryChars, query) && Optional(QueryChars, fragment)
            && (end == "" ==> PrintMarked("?", query) + PrintMarked("#", fragment) == s)
  {
    TakeMarkedOk(s, '?');
    var (query, r) := TakeMarked(s, '?');
    TakeMarkedOk(r, '#');
    var (fragment, end) := TakeMarked(r, '#');
    if end == "" { assert PrintMarked("#", fragment) + "" == PrintMarked("#", fragment); }
  }

  lemma MatchedAuthorityOk(rest: string)
    requires DoubleSlash(rest)
    ensures var (userInfo, r1) := TakeUserInfo(rest[2..]);
            var (host, r2) := TakeHost(r1);
            var (port, r3) := TakePort(r2);
            Optional(UserChars, userInfo) && HostOk(host) && (port.Some? ==> AllDigits(port.value))
            && "//" + (PrintUserInfo(userInfo) + (host + (PrintMarked(":", port) + r3))) == rest
  {
    TakeUserOk(rest[2..]);
    var (userInfo, r1) := TakeUserInfo(rest[2..]);
    TakeHostOk(r1);
    TakePortOk(TakeHost(r1).1);
    assert "//" + rest[2..] == rest;
  }

  /** What a match yields is well-formed, and recomposes to the string that was matched. */
  lemma MatchIsWord(s: string)
    ensures Match(s).Scanned? ==> WellFormed(Match(s)) && Recompose(Match(s)) == s
  {
    TakeSchemeOk(s);
    if TakeScheme(s).Some? {
      var rest := TakeScheme(s).value.1;
      if DoubleSlash(rest) {
        MatchedAuthorityOk(rest);
        var r3 := TakePort(TakeHost(TakeUserInfo(rest[2..]).1).1).1;
        TakePathOk(r3);
        TakeTailOk(TakePathAfterAuthority(r3).1);
      } else {
        TakeSinglePathOk(rest);
        TakeTailOk(TakePathAlone(rest).1);
      }
    }
  }

  // ----- every word of the grammar matches, in one way

  lemma ParseMarked(mark: char, part: Option<string>, rest: string)
    requires Optional(QueryChars, part) && Scan(QueryChars, rest) == 0 && !StartsWith(rest, mark)
    ensures TakeMarked(PrintMarked([mark], part) + rest, mark) == (part, rest)
  {
    var s := PrintMarked([mark], part) + rest;
    if part.Some? {
      var q := part.value;
      assert s[1..] == q + rest;
      ScanAppend(QueryChars, q, rest);
      assert (q + rest)[..|q|] == q && (q + rest)[|q|..] == rest;
    } else {
      assert s == rest;
    }
  }

  /** The end of the string, or a character that ends host, port and path. */
  ghost predicate Ends(s: string, marks: string) {
    s == "" || s[0] in marks
  }

  lemma EndsScan(cls: CharClass, s: string)
    ensures Ends(s, "#") ==> Scan(cls, s) == 0
    ensures Ends(s, "?#") && !cls.QueryChars? ==> Scan(cls, s) == 0
    ensures Ends(s, "/?#") && (cls.HostChars? || cls.UserChars?) ==> Scan(cls, s) == 0
    ensures Ends(s, ":/?#") && cls.HostChars? ==> Scan(cls, s) == 0
  {
  }

  lemma ParseAfterPath(m: Scanned)
    requires m.Scanned? && WellFormed(m)
    ensures TakeMarked(AfterPath(m), '?') == (m.query, PrintMarked("#", m.fragment))
    ensures TakeMarked(PrintMarked("#", m.fragment), '#') == (m.fragment, "")
    ensures Ends(AfterPath(m), "?#")
  {
    EndsScan(QueryChars, PrintMarked("#", m.fragment));
    ParseMarked('?', m.query, PrintMarked("#", m.fragment));
    ParseMarked('#', m.fragment, "");
    assert PrintMarked("#", m.fragment) + "" == PrintMarked("#", m.fragment);
  }

  /** A path and what follows it. */
  lemma ParseRootedPath(p: string, q: string)
    requires StartsWith(p, '/') && All(PathChars, p) && Scan(PathChars, q) == 0
    ensures TakePathAfterAuthority(p + q) == (Some(p), q) && TakePathAlone(p + q) == (Some(p), q)
  {
    assert (p + q)[1..] == p[1..] + q;
    ScanAppend(PathChars, p[1..], q);
    assert (p + q)[..|p|] == p && (p + q)[|p|..] == q;
  }

  lemma ParseRootlessPath(p: string, q: string)
    requires !StartsWith(p, '/') && All(PathChars, p) && Scan(PathChars, q) == 0 && !StartsWith(q, '/')
    ensures TakePathAlone(p + q) == (Some(p), q)
  {
    ScanAppend(PathChars, p, q);
    assert (p + q)[0..] == p + q && (p + q)[..|p|] == p && (p + q)[|p|..] == q;
  }

  lemma NotDouble(p: string, q: string)
    requires !DoubleSlash(p) && !StartsWith(q, '/')
    ensures !DoubleSlash(p + q)
  {
    if |p| >= 2 {
      assert (p + q)[..2] == p[..2];
    } else if |p| == 1 {
      if |p + q| >= 2 { assert (p + q)[..2][1] == q[0]; }
    } else {
      assert p + q == q;
      if |q| >= 2 { assert q[..2][0] == q[0]; }
    }
  }

  lemma ParseTail(m: Scanned)
    requires m.Scanned? && WellFormed(m)
    ensures m.hasAuthority ==> TakePathAfterAuthority(Tail(m)) == (m.path, AfterPath(m)) && Ends(Tail(m), "/?#")
    ensures !m.hasAuthority ==> TakePathAlone(Tail(m)) == (m.path, AfterPath(m)) && !DoubleSlash(Tail(m))
  {
    var q := AfterPath(m);
    ParseAfterPath(m);
    EndsScan(PathChars, q);
    if m.path.None? {
      assert Tail(m) == q;
    } else if StartsWith(m.path.value, '/') {
      ParseRootedPath(m.path.value, q);
      if !m.hasAuthority { NotDouble(m.path.value, q); }
    } else {
      ParseRootlessPath(m.path.value, q);
      NotDouble(m.path.value, q);
    }
  }

  lemma ParsePort(port: Option<string>, tail: string)
    requires (port.Some? ==> AllDigits(port.value)) && Ends(tail, "/?#")
    ensures TakePort(PrintMarked(":", port) + tail) == (port, tail)
    ensures Ends(PrintMarked(":", port) + tail, ":/?#")
  {
    var s := PrintMarked(":", port) + tail;
    if port.Some? {
      var d := port.value;
      assert s[1..] == d + tail;
      RunAppend(IsDigit, d, tail);
      assert (d + tail)[..|d|] == d && (d + tail)[|d|..] == tail;
    } else {
      assert s == tail;
    }
  }

  lemma ParseHost(host: string, rest: string)
    requires HostOk(host) && Ends(rest, ":/?#")
    ensures TakeHost(host + rest) == (host, rest)
  {
    var s := host + rest;
    if BracketLength(host) == |host| > 0 {
      var n := |host| - 2;
      var body := host[1..][..n];
      assert s[1..] == body + ("]" + rest);
      RunAppend(IsBracketChar, body, "]" + rest);
      assert s[n + 1] == ']';
    } else {
      EndsScan(HostChars, rest);
      ScanAppend(HostChars, host, rest);
      NoBracketHost(host, rest);
    }
    assert s[..|host|] == host && s[|host|..] == rest;
  }

  lemma NoBracketHost(host: string, rest: string)
    requires All(HostChars, host) && Ends(rest, ":/?#")
    ensures BracketLength(host + rest) == 0
  {
  }

  /** The run of user characters over host and port does not end at an '@'. */
  lemma NoUserInfo(host: string, port: string, tail: string)
    requires HostOk(host) && All(UserChars, port) && Ends(port, ":") && Ends(tail, "/?#")
    ensures TakeUserInfo(host + (port + tail)) == (None, host + (port + tail))
  {
    var s := host + (port + tail);
    if BracketLength(host) == |host| > 0 {
      assert s[0] == '[' && Scan(UserChars, s) == 0;
    } else {
      HostIsUser(host);
      AllJoin(UserChars, host, port);
      EndsScan(UserChars, tail);
      ScanAppend(UserChars, host + port, tail);
      Associate(host, port, tail);
    }
  }

  lemma PortIsUser(port: Option<string>)
    requires port.Some? ==> AllDigits(port.value)
    ensures All(UserChars, PrintMarked(":", port)) && Ends(PrintMarked(":", port), ":")
  {
    if port.Some? {
      assert PrintMarked(":", port)[1..] == port.value;
      DigitsAreUser(port.value);
    }
  }

  lemma ParseUserInfo(userInfo: string, rest: string)
    requires All(UserChars, userInfo)
    ensures TakeUserInfo((userInfo + "@") + rest) == (Some(userInfo), rest)
  {
    var s := (userInfo + "@") + rest;
    Associate(userInfo, "@", rest);
    assert Scan(UserChars, "@" + rest) == 0;
    ScanAppend(UserChars, userInfo, "@" + rest);
    assert s[..|userInfo|] == userInfo && s[|userInfo| + 1..] == rest;
  }

  lemma ParseAuthority(m: Scanned)
    requires m.Scanned? && WellFormed(m) && m.hasAuthority
    ensures var rest := PrintMarked(":", m.port) + Tail(m);
            && TakeUserInfo(PrintUserInfo(m.userInfo) + (m.host + rest)) == (m.userInfo, m.host + rest)
            && TakeHost(m.host + rest) == (m.host, rest)
            && TakePort(rest) == (m.port, Tail(m))
  {
    var rest := PrintMarked(":", m.port) + Tail(m);
    ParseTail(m);
    ParsePort(m.port, Tail(m));
    ParseHost(m.host, rest);
    if m.userInfo.Some? {
      ParseUserInfo(m.userInfo.value, m.host + rest);
    } else {
      PortIsUser(m.port);
      NoUserInfo(m.host, PrintMarked(":", m.port), Tail(m));
      assert "" + (m.host + rest) == m.host + rest;
    }
  }

  lemma ParseScheme(scheme: string, rest: string)
    requires SchemeOk(scheme)
    ensures TakeScheme(scheme + ":" + rest) == Some((scheme, rest))
  {
    var s := scheme + ":" + rest;
    Associate(scheme, ":", rest);
    RunAppend(IsSchemeChar, scheme, ":" + rest);
    assert s[..|scheme|] == scheme && s[|scheme| + 1..] == rest;
  }

  lemma WordMatches(m: Scanned)
    requires m.Scanned? && WellFormed(m)
    ensures Match(Recompose(m)) == m
  {
    ParseScheme(m.scheme, Rest(m));
    ParseTail(m);
    ParseAfterPath(m);
    if m.hasAuthority {
      var inner := PrintUserInfo(m.userInfo) + (m.host + (PrintMarked(":", m.port) + Tail(m)));
      assert ("//" + inner)[..2] == "//" && ("//" + inner)[2..] == inner;
      ParseAuthority(m);
    }
  }

  /** The grammar is unambiguous and the match finds its one reading: a string matches with given parts if and only
      if the parts are well-formed and recompose to the string. */
  lemma MatchIff(s: string, m: Scanned)
    requires m.Scanned?
    ensures Match(s) == m <==> WellFormed(m) && Recompose(m) == s
  {
    MatchIsWord(s);
    if WellFormed(m) { WordMatches(m); }
  }

  // ----- printing

  ghost function PortText(port: Option<nat>): Option<string> {
    if port.None? then None else Some(ToText(port.value))
  }

  /** The parts of a printed Uri: no fragment, and the host mapped. */
  ghost function PartsOf(u: Uri): Scanned {
    if u.authority.None? then Scanned(u.scheme, false, None, "", None, u.path, u.query, None)
    else
      var a := u.authority.value;
      Scanned(u.scheme, true, a.userInfo, MappedHost(a.host), PortText(a.port), u.path, u.query, None)
  }

  lemma PrintRecomposes(u: Uri)
    ensures Print(u) == Recompose(PartsOf(u))
  {
    var m := PartsOf(u);
    assert PrintMarked("?", u.query) + "" == PrintMarked("?", u.query);
    assert Tail(m) == PrintTail(u);
  }

  lemma MappedHostOk(host: string)
    requires HostOk(host)
    ensures HostOk(MappedHost(host))
  {
    hide All;
    if host == LOCALHOST {
      var s := LOOPBACK;
      assert s[0] == '1' && s[1] == '2' && s[2] == '7' && s[3] == '.' && s[4] == '0' && s[5] == '.' && s[6] == '0' && s[7] == '.' && s[8] == '1';
      AllHostChars(s);
    }
  }

  lemma {:induction false} AllHostChars(s: string)
    requires forall k :: 0 <= k < |s| ==> In(HostChars, s[k])
    ensures All(HostChars, s)
    decreases |s|
  {
    if s != "" { AllHostChars(s[1..]); }
  }

  /** The Uri a printed one is read as: no fragment, and the host mapped. */
  function Normal(u: Uri): Uri {
    Uri(u.scheme,
        if u.authority.None? then None
        else Some(Authority(u.authority.value.userInfo, MappedHost(u.authority.value.host), u.authority.value.port)),
        u.path, u.query, None)
  }

  /** A file Uri for localhost prints as 127.0.0.1, which the field check does not accept for files. */
  predicate LosesHost(u: Uri) {
    u.scheme == FILE_SCHEME && u.authority.Some? && u.authority.value.host == LOCALHOST
  }

  lemma PortSurvives(port: nat)
    requires port < 0x1_0000
    ensures PortNumber(ToText(port)) == Some(port)
  {
    NumberOfText(port);
  }

  lemma PartsWellFormed(s: string)
    ensures Parse(s).Ok? ==>
              var u := Parse(s).uri;
              && WellFormed(PartsOf(u)) && FieldsOk(u)
              && (u.authority.Some? && u.authority.value.port.Some? ==> u.authority.value.port.value < 0x1_0000)
  {
    MatchIsWord(s);
    if Match(s).Scanned? && Match(s).hasAuthority { MappedHostOk(Match(s).host); }
  }

  /** Round trip: what an accepted string is parsed to is parsed again from its printed form, without the fragment
      and with localhost mapped, except exactly for a file Uri on localhost, which is then rejected. */
  lemma RoundTrip(s: string)
    ensures Parse(s).Ok? ==>
              var u := Parse(s).uri;
              Parse(Print(u)) == if LosesHost(u) then BadUri else Ok(Normal(u))
  {
    hide Parse;
    PartsWellFormed(s);
    if Parse(s).Ok? { PrintedParses(Parse(s).uri); }
  }

  /** The same for any Uri with well-formed parts, whether parsed or built. */
  lemma PrintedParses(u: Uri)
    requires WellFormed(PartsOf(u)) && FieldsOk(u)
    requires u.authority.Some? && u.authority.value.port.Some? ==> u.authority.value.port.value < 0x1_0000
    ensures Parse(Print(u)) == if LosesHost(u) then BadUri else Ok(Normal(u))
  {
    hide Match, Parse;
    PrintRecomposes(u);
    WordMatches(PartsOf(u));
    ParseOfParts(u, Print(u));
    NormalFieldsOk(u);
  }

  lemma ParseOfParts(u: Uri, s: string)
    requires Match(s) == PartsOf(u)
    requires u.authority.Some? && u.authority.value.port.Some? ==> u.authority.value.port.value < 0x1_0000
    ensures Parse(s) == if FieldsOk(Normal(u)) then Ok(Normal(u)) else BadUri
  {
    if u.authority.Some? && u.authority.value.port.Some? { PortSurvives(u.authority.value.port.value); }
  }

  lemma NormalFieldsOk(u: Uri)
    requires FieldsOk(u)
    ensures FieldsOk(Normal(u)) <==> !LosesHost(u)
  {
  }

  /** Printing after parsing is idempotent. */
  lemma PrintParseIdempotent(s: string)
    ensures Parse(s).Ok? && !LosesHost(Parse(s).uri) ==>
              var t := Print(Parse(s).uri);
              Parse(t).Ok? && Print(Parse(t).uri) == t
  {
    hide Parse, Print;
    RoundTrip(s);
    if Parse(s).Ok? { MapTwice(Parse(s).uri); }
  }

  lemma MapTwice(u: Uri)
    ensures Print(Normal(u)) == Print(u)
  {
  }

  // ----- what is accepted, and what is read

  /** The check of the fields, spelled out. */
  ghost predicate Accepted(m: Scanned)
    requires m.Scanned?
  {
    if m.scheme == "file" then m.hasAuthority ==> m.host == "" || m.host == "localhost"
    else m.hasAuthority && m.host != ""
  }

  /** std::stoul throws: no digits, or a number above the largest unsigned long. */
  ghost predicate BadPortText(port: Option<string>) {
    port.Some? && AllDigits(port.value) && (port.value == "" || ToNumber(port.value) > 0xFFFF_FFFF)
  }

  /** Reading, told by the grammar: a word with these parts is an error of the port exactly if stoul throws on it, else an
      error of the Uri exactly if the fields are not accepted, and otherwise the Uri has the very parts of the word, with
      the port reduced to 16 bits. */
  lemma ParseIs(s: string, m: Scanned)
    requires m.Scanned? && WellFormed(m) && Recompose(m) == s
    ensures BadPortText(m.port) ==> Parse(s) == BadPort
    ensures !BadPortText(m.port) && !Accepted(m) ==> Parse(s) == BadUri
    ensures !BadPortText(m.port) && Accepted(m) ==> Parse(s).Ok?
    ensures Parse(s).Ok? ==>
              var u := Parse(s).uri;
              && u.scheme == m.scheme && u.path == m.path && u.query == m.query && u.fragment == m.fragment
              && (u.authority.Some? <==> m.hasAuthority)
              && (m.hasAuthority ==>
                    && u.authority.value.userInfo == m.userInfo && u.authority.value.host == m.host
                    && (u.authority.value.port.Some? <==> m.port.Some?)
                    && (m.port.Some? ==> AllDigits(m.port.value) && u.authority.value.port == Some(ToNumber(m.port.value) % 65536)))
  {
    hide Match;
    WordMatches(m);
    MatchedPortIsDigits(s);
  }

  /** Anything that is no word of the grammar is refused. */
  lemma NoWordIsBad(s: string)
    requires forall m: Scanned :: m.Scanned? && WellFormed(m) ==> Recompose(m) != s
    ensures Parse(s) == BadUri
  {
    MatchIsWord(s);
  }

  /** The character classes are those of appendix A of RFC 3986. */
  lemma ClassesAre(c: char)
    ensures In(HostChars, c) <==> Unreserved(c) || SubDelim(c)
    ensures In(UserChars, c) <==> Unreserved(c) || SubDelim(c) || c == ':'
    ensures In(PathChars, c) <==> Unreserved(c) || SubDelim(c) || c == ':' || c == '@' || c == '/'
    ensures In(QueryChars, c) <==> Unreserved(c) || SubDelim(c) || c == ':' || c == '@' || c == '/' || c == '?'
  {
  }

  /** One character of the class, or a percent sign with two hexadecimal digits. */
  ghost predicate Piece(cls: CharClass, piece: string) {
    || (|piece| == 1 && In(cls, piece[0]))
    || (|piece| == 3 && piece[0] == '%' && IsHex(piece[1]) && IsHex(piece[2]))
  }

  ghost predicate Pieces(cls: CharClass, pieces: seq<string>) {
    forall k :: 0 <= k < |pieces| ==> Piece(cls, pieces[k])
  }

  /** A run of the class is a text made of such pieces. */
  lemma {:induction false} RunIsPieces(cls: CharClass, s: string) returns (pieces: seq<string>)
    requires All(cls, s)
    ensures Pieces(cls, pieces) && Flatten(pieces) == s
    decreases |s|
  {
    hide In;
    if s == "" {
      pieces := [];
    } else {
      var n := if In(cls, s[0]) then 1 else 3;
      var rest := RunIsPieces(cls, s[n..]);
      pieces := [s[..n]] + rest;
      assert pieces[1..] == rest && s == s[..n] + s[n..];
    }
  }

  lemma {:induction false} PiecesAreRun(cls: CharClass, pieces: seq<string>)
    requires Pieces(cls, pieces)
    ensures All(cls, Flatten(pieces))
    decreases |pieces|
  {
    hide In;
    if pieces != [] {
      var first, rest := pieces[0], Flatten(pieces[1..]);
      assert Pieces(cls, pieces[1..]) by { assert forall k :: 0 <= k < |pieces[1..]| ==> pieces[1..][k] == pieces[k + 1]; }
      PiecesAreRun(cls, pieces[1..]);
      assert Piece(cls, first) && !In(cls, '%') by { PercentIsNoClass(cls); assert Piece(cls, pieces[0]); }
      assert (first + rest)[|first|..] == rest;
    }
  }

  lemma PercentIsNoClass(cls: CharClass)
    ensures !In(cls, '%')
  {
  }

  /** A host in brackets holds at least two hexadecimal digits, colons and dots. */
  lemma BracketsIff(h: string)
    ensures BracketLength(h) == |h| > 0
       <==> |h| >= 4 && h[0] == '[' && h[|h| - 1] == ']' && forall k :: 1 <= k < |h| - 1 ==> IsHex(h[k]) || h[k] == ':' || h[k] == '.'
  {
    if |h| >= 4 && h[0] == '[' && h[|h| - 1] == ']' && forall k :: 1 <= k < |h| - 1 ==> IsHex(h[k]) || h[k] == ':' || h[k] == '.' {
      var x := h[1..|h| - 1];
      assert h[1..] == x + "]";
      assert forall k :: 0 <= k < |x| ==> x[k] == h[k + 1];
      RunAppend(IsBracketChar, x, "]");
    }
  }

  predicate Unreserved(c: char) {
    'a' <= c <= 'z' || 'A' <= c <= 'Z' || '0' <= c <= '9' || c == '-' || c == '.' || c == '_' || c == '~'
  }

  predicate SubDelim(c: char) {
    c in {'!', '$', '&', '\'', '(', ')', '*', '+', ',', ';', '='}
  }

  /** Only the host localhost is printed as another, 127.0.0.1. */
  lemma MappedHostIs(host: string)
    ensures MappedHost("localhost") == "127.0.0.1" && (host != "localhost" ==> MappedHost(host) == host)
  {
  }

  /** The null Uri, and no other, prints as the empty text, and the empty text is no Uri. */
  lemma NullUriIff(u: Option<Uri>)
    ensures Text(u) == "" <==> u.None?
    ensures Parse("") == BadUri
  {
    MatchIsWord("");
  }

  /** Uri::operator== compares the printed forms: two accepted Uris are equal exactly when they agree in everything
      but the fragment, localhost counting as 127.0.0.1. */
  lemma EqualIffSameNormal(s: string, t: string)
    ensures Parse(s).Ok? && Parse(t).Ok? ==>
              (Print(Parse(s).uri) == Print(Parse(t).uri) <==> Normal(Parse(s).uri) == Normal(Parse(t).uri))
  {
    hide Parse;
    PartsWellFormed(s);
    PartsWellFormed(t);
    if Parse(s).Ok? && Parse(t).Ok? { SamePrint(Parse(s).uri, Parse(t).uri); }
  }

  lemma SamePrint(u: Uri, v: Uri)
    requires WellFormed(PartsOf(u)) && WellFormed(PartsOf(v))
    ensures Print(u) == Print(v) <==> Normal(u) == Normal(v)
  {
    hide Match, Print;
    MapTwice(u);
    MapTwice(v);
    if Print(u) == Print(v) {
      PrintRecomposes(u);
      PrintRecomposes(v);
      WordMatches(PartsOf(u));
      WordMatches(PartsOf(v));
      SamePorts(u, v);
    }
  }

  lemma SamePorts(u: Uri, v: Uri)
    requires PartsOf(u) == PartsOf(v)
    ensures Normal(u) == Normal(v)
  {
    if u.authority.Some? {
      var p, q := u.authority.value.port, v.authority.value.port;
      if p.Some? { NumberOfText(p.value); }
      if q.Some? { NumberOfText(q.value); }
    }
  }
}

/** Uri strings: the two converters and the host mapping of src/lib/osData/src/Uri.cpp. The syntax is that of
    section 3 of RFC 3986, and printing follows section 5.3 of RFC 3986 without the fragment. */
module Uri {
  import opened Options
  import opened Sequences
  import opened Decimal

  datatype Authority = Authority(userInfo: Option<string>, host: string, port: Option<nat>)

  datatype Uri = Uri(scheme: string, authority: Option<Authority>, path: Option<string>,
                     query: Option<string>, fragment: Option<string>)

  /** The outcomes of parsing: BadUriException, or an exception of std::stoul on the port. */
  datatype Parsed = Ok(uri: Uri) | BadUri | BadPort

  // ----- the character classes of the regular expression, which ignores case

  predicate IsAlpha(c: char) {
    'a' <= c <= 'z' || 'A' <= c <= 'Z'
  }

  predicate IsHex(c: char) {
    IsDigit(c) || 'a' <= c <= 'f' || 'A' <= c <= 'F'
  }

  predicate IsSchemeChar(c: char) {
    IsAlpha(c) || IsDigit(c) || c in "+.-"
  }

  predicate IsBracketChar(c: char) {
    IsHex(c) || c in ":."
  }

  datatype CharClass = HostChars | UserChars | PathChars | QueryChars

  predicate In(cls: CharClass, c: char) {
    || IsAlpha(c) || IsDigit(c) || c in "-._~!$&'()*+,;="
    || (c == ':' && !cls.HostChars?)
    || (c in "@/" && (cls.PathChars? || cls.QueryChars?))
    || (c == '?' && cls.QueryChars?)
  }

  /** The length of the longest run of class characters and percent-encoded bytes: what the look-ahead group and
      its back reference consume. */
  function Scan(cls: CharClass, s: string): (n: nat)
    ensures n <= |s|
  {
    if s == "" then 0
    else if In(cls, s[0]) then 1 + Scan(cls, s[1..])
    else if |s| >= 3 && s[0] == '%' && IsHex(s[1]) && IsHex(s[2]) then 3 + Scan(cls, s[3..])
    else 0
  }

  function Run(p: char -> bool, s: string): (n: nat)
    ensures n <= |s| && (forall k :: 0 <= k < n ==> p(s[k])) && (n < |s| ==> !p(s[n]))
  {
    if s == "" || !p(s[0]) then 0 else 1 + Run(p, s[1..])
  }

  // ----- the regular expression, group by group
  //
  // No group can match in two ways: the scheme, the port and the bracketed host end where their class does, every
  // other run is possessive, and each optional group starts with a character that cannot follow when it is
  // skipped. So the match, if there is one, takes every optional group that can start.

  predicate StartsWith(s: string, c: char) {
    s != "" && s[0] == c
  }

  function TakeScheme(s: string): Option<(string, string)> {
    if s == "" || !IsAlpha(s[0]) then None
    else
      var n := Run(IsSchemeChar, s);
      if n < |s| && s[n] == ':' then Some((s[..n], s[n + 1..])) else None
  }

  function TakeUserInfo(s: string): (Option<string>, string) {
    var n := Scan(UserChars, s);
    if n < |s| && s[n] == '@' then (Some(s[..n]), s[n + 1..]) else (None, s)
  }

  /** The length of an IP literal in brackets, or 0. */
  function BracketLength(s: string): (n: nat)
    ensures n <= |s|
  {
    if !StartsWith(s, '[') then 0
    else
      var n := Run(IsBracketChar, s[1..]);
      if n >= 2 && n + 1 < |s| && s[n + 1] == ']' then n + 2 else 0
  }

  function TakeHost(s: string): (string, string) {
    var n := if BracketLength(s) > 0 then BracketLength(s) else Scan(HostChars, s);
    (s[..n], s[n..])
  }

  function TakePort(s: string): (Option<string>, string) {
    if !StartsWith(s, ':') then (None, s)
    else
      var n := Run(IsDigit, s[1..]);
      (Some(s[1..][..n]), s[1..][n..])
  }

  function TakePathAfterAuthority(s: string): (Option<string>, string) {
    if !StartsWith(s, '/') then (None, s)
    else
      var n := 1 + Scan(PathChars, s[1..]);
      (Some(s[..n]), s[n..])
  }

  function TakePathAlone(s: string): (Option<string>, string) {
    var k := if StartsWith(s, '/') then 1 else 0;
    var n := k + Scan(PathChars, s[k..]);
    (Some(s[..n]), s[n..])
  }

  function TakeMarked(s: string, mark: char): (Option<string>, string) {
    if !StartsWith(s, mark) then (None, s)
    else
      var n := Scan(QueryChars, s[1..]);
      (Some(s[1..][..n]), s[1..][n..])
  }

  // ----- string to Uri

  const LOCALHOST := "localhost"
  const LOOPBACK := "127.0.0.1"
  const FILE_SCHEME := "file"

  /** The largest unsigned long of the platform the program is built for. */
  const ULONG_MAX: nat := 0xFFFF_FFFF

  /** static_cast<unsigned short>(std::stoul(...)): None for the exceptions of stoul. */
  function PortNumber(digits: string): Option<nat>
    requires AllDigits(digits)
  {
    if digits == "" || ToNumber(digits) > ULONG_MAX then None else Some(ToNumber(digits) % 0x1_0000)
  }

  datatype Scanned = NoMatch | Scanned(scheme: string, hasAuthority: bool, userInfo: Option<string>, host: string,
                                       port: Option<string>, path: Option<string>, query: Option<string>, fragment: Option<string>)

  /** std::regex_match */
  function Match(s: string): Scanned {
    var head := TakeScheme(s);
    if head.None? then NoMatch
    else
      var (scheme, rest) := head.value;
      if |rest| >= 2 && rest[..2] == "//" then
        var (userInfo, r1) := TakeUserInfo(rest[2..]);
        var (host, r2) := TakeHost(r1);
        var (port, r3) := TakePort(r2);
        var (path, r4) := TakePathAfterAuthority(r3);
        var (query, r5) := TakeMarked(r4, '?');
        var (fragment, r6) := TakeMarked(r5, '#');
        if r6 == "" then Scanned(scheme, true, userInfo, host, port, path, query, fragment) else NoMatch
      else
        var (path, r4) := TakePathAlone(rest);
        var (query, r5) := TakeMarked(r4, '?');
        var (fragment, r6) := TakeMarked(r5, '#');
        if r6 == "" then Scanned(scheme, false, None, "", None, path, query, fragment) else NoMatch
  }

  /** The check of the fields: a file needs no host or localhost, any other scheme needs one. */
  predicate FieldsOk(u: Uri) {
    if u.scheme == FILE_SCHEME then u.authority.None? || u.authority.value.host == "" || u.authority.value.host == LOCALHOST
    else u.authority.Some? && u.authority.value.host != ""
  }

  lemma MatchedPortIsDigits(s: string)
    ensures Match(s).Scanned? && Match(s).port.Some? ==> AllDigits(Match(s).port.value)
    ensures Match(s).Scanned? && !Match(s).hasAuthority ==> Match(s).port.None?
  {
  }

  function Parse(s: string): Parsed {
    var m := Match(s);
    if m.NoMatch? then BadUri
    else
      MatchedPortIsDigits(s);
      if m.port.Some? && PortNumber(m.port.value).None? then BadPort
      else
        var port := if m.port.None? then None else PortNumber(m.port.value);
        var authority := if m.hasAuthority then Some(Authority(m.userInfo, m.host, port)) else None;
        var u := Uri(m.scheme, authority, m.path, m.query, m.fragment);
        if FieldsOk(u) then Ok(u) else BadUri
  }

  /** The converter to Uri, which fills the fields of a local Uri one after the other. */
  method Read(s: string) returns (r: Parsed)
    ensures r == Parse(s)
  {
    var m := Match(s);
    if m.NoMatch? {
      return BadUri;
    }
    MatchedPortIsDigits(s);
    var uri := Uri(m.scheme, None, None, None, None);
    if m.hasAuthority {
      var authority := Authority(None, "", None);
      if m.userInfo.Some? {
        authority := authority.(userInfo := m.userInfo);
      }
      authority := authority.(host := m.host);
      if m.port.Some? {
        var port: Option<nat> := PortNumber(m.port.value);
        if port.None? {
          return BadPort;
        }
        authority := authority.(port := port);
      }
      uri := uri.(authority := Some(authority));
    }
    if m.path.Some? {
      uri := uri.(path := m.path);
    }
    if m.query.Some? {
      uri := uri.(query := m.query);
    }
    if m.fragment.Some? {
      uri := uri.(fragment := m.fragment);
    }
    r := if FieldsOk(uri) then Ok(uri) else BadUri;
  }

  // ----- Uri to string

  /** Host::operator std::string */
  function MappedHost(host: string): string {
    if host == LOCALHOST then LOOPBACK else host
  }

  function PrintMarked(mark: string, part: Option<string>): string {
    if part.None? then "" else mark + part.value
  }

  function PrintPort(port: Option<nat>): string {
    if port.None? then "" else ":" + ToText(port.value)
  }

  function PrintUserInfo(userInfo: Option<string>): string {
    if userInfo.None? then "" else userInfo.value + "@"
  }

  function PrintPath(path: Option<string>): string {
    if path.None? then "" else path.value
  }

  function PrintTail(u: Uri): string {
    PrintPath(u.path) + PrintMarked("?", u.query)
  }

  function PrintAuthority(u: Uri): string {
    if u.authority.None? then PrintTail(u)
    else
      var a := u.authority.value;
      "//" + (PrintUserInfo(a.userInfo) + (MappedHost(a.host) + (PrintPort(a.port) + PrintTail(u))))
  }

  function Print(u: Uri): string {
    u.scheme + ":" + PrintAuthority(u)
  }

  /** What type_cast makes of a Uri; None stands for the null Uri. */
  function Text(u: Option<Uri>): string {
    if u.None? then "" else Print(u.value)
  }

  /** Streaming an optional part: its mark is written with it or not at all. */
  method WriteMarked(s: string, mark: string, part: Option<string>) returns (r: string)
    ensures r == s + PrintMarked(mark, part)
  {
    r := s;
    if part.Some? {
      r := r + (mark + part.value);
    }
  }

  method WriteAuthority(s: string, a: Authority) returns (r: string)
    ensures r == s + ("//" + (PrintUserInfo(a.userInfo) + (MappedHost(a.host) + PrintPort(a.port))))
  {
    var user, host, port := PrintUserInfo(a.userInfo), MappedHost(a.host), PrintPort(a.port);
    r := s + "//";
    Associate(s, "//", user + (host + port));
    Associate(s + "//", user, host + port);
    if a.userInfo.Some? {
      r := r + (a.userInfo.value + "@");
    }
    assert r == s + "//" + user;
    r := r + host;
    Associate(s + "//" + user, host, port);
    if a.port.Some? {
      r := r + (":" + ToText(a.port.value));
    }
  }

  /** Scheme and authority as they are streamed. */
  ghost function PrintHead(u: Uri): string {
    if u.authority.None? then u.scheme + ":"
    else
      var a := u.authority.value;
      u.scheme + ":" + ("//" + (PrintUserInfo(a.userInfo) + (MappedHost(a.host) + PrintPort(a.port))))
  }

  lemma HeadThenTail(u: Uri)
    ensures PrintHead(u) + PrintMarked("", u.path) + PrintMarked("?", u.query) == Print(u)
  {
    Associate(PrintHead(u), PrintMarked("", u.path), PrintMarked("?", u.query));
    assert PrintMarked("", u.path) == PrintPath(u.path);
    if u.authority.Some? {
      var a := u.authority.value;
      AuthorityThenTail(u.scheme + ":", PrintUserInfo(a.userInfo), MappedHost(a.host), PrintPort(a.port), PrintTail(u));
    }
  }

  lemma AuthorityThenTail(head: string, user: string, host: string, port: string, tail: string)
    ensures (head + ("//" + (user + (host + port)))) + tail == head + ("//" + (user + (host + (port + tail))))
  {
  }

  /** The converter to string, which writes the parts to a stream one after the other. */
  method Write(uri: Option<Uri>) returns (s: string)
    ensures s == Text(uri)
  {
    hide PrintUserInfo, MappedHost, PrintPort, PrintMarked, Print;
    if uri.None? {
      return "";
    }
    var u := uri.value;
    s := u.scheme + ":";
    if u.authority.Some? {
      s := WriteAuthority(s, u.authority.value);
    }
    assert s == PrintHead(u);
    s := WriteMarked(s, "", u.path);
    s := WriteMarked(s, "?", u.query);
    HeadThenTail(u);
  }
}

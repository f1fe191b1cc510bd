/**
 * The destination URL parser, and the rendering that undoes it (compare section
 * 3 of RFC 3986). Components that are absent and components that are empty are
 * kept apart, as the null pointers of the program do.
 */
module Urls {
  import opened Common

  datatype Url = Url(scheme: string, host: string, port: Option<string>, path: Option<string>,
                     query: Option<string>, fragment: Option<string>,
                     username: Option<string>, password: Option<string>)

  predicate IsSchemeChar(c: char) {
    'a' <= c <= 'z' || 'A' <= c <= 'Z' || c == '+' || c == '-' || c == '.'
  }

  predicate SchemeChars(s: string) {
    forall i :: 0 <= i < |s| ==> IsSchemeChar(s[i])
  }

  // ---------------------------------------------------------------- parsing, stage by stage

  datatype Tail = Tail(path: Option<string>, query: Option<string>, fragment: Option<string>)

  /** `#fragment`, or nothing. */
  function ParseFragment(s: string): Option<string> {
    if s != "" && s[0] == '#' then Some(s[1..]) else None
  }

  /** What follows the path: `?query`, then the fragment. */
  function ParseQuery(s: string): (Option<string>, Option<string>) {
    if s != "" && s[0] == '?' then
      var n := Span(s[1..], {'#'});
      (Some(s[1..][..n]), ParseFragment(s[1..][n..]))
    else (None, ParseFragment(s))
  }

  /** What follows host and port. */
  function ParseTail(s: string): Option<Tail> {
    if s == "" then Some(Tail(None, None, None))
    else if s[0] != '/' then None
    else
      var n := Span(s[1..], {'#', '?'});
      var (query, fragment) := ParseQuery(s[1..][n..]);
      Some(Tail(Some(s[1..][..n]), query, fragment))
  }

  /** A bracketed host reaches through the bracket that closes it, or to the end. */
  function HostLength(s: string): (n: nat)
    ensures n <= |s|
  {
    if s != "" && s[0] == '[' then
      var k := Span(s, {']'});
      if k < |s| then k + 1 else k
    else Span(s, {':', '/'})
  }

  datatype Server = Server(host: string, port: Option<string>, tail: Tail)

  /** Splits off `:port`. */
  function ParsePort(s: string): (Option<string>, string) {
    if s != "" && s[0] == ':' then
      var n := Span(s[1..], {'/'});
      (Some(s[1..][..n]), s[1..][n..])
    else (None, s)
  }

  function ParseServer(s: string): Option<Server> {
    var n := HostLength(s);
    if n == 0 then None
    else
      var (port, rest) := ParsePort(s[n..]);
      match ParseTail(rest)
      case None => None
      case Some(tail) => Some(Server(s[..n], port, tail))
  }

  /** An '@' in front of the first '/' announces a user. */
  predicate HasUser(s: string) {
    var n := Span(s, {'@', '/'});
    n < |s| && s[n] == '@'
  }

  datatype User = NoUser | User(name: string, password: Option<string>)

  /** Splits off `name:password@` or `name@`. */
  function ParseUser(s: string): (User, string) {
    if !HasUser(s) then (NoUser, s)
    else
      var n := Span(s, {':', '@'});
      if n == |s| then (NoUser, s)
      else if s[n] == ':' then
        var m := Span(s[n + 1..], {'@'});
        if m == |s[n + 1..]| then (NoUser, s)
        else (User(s[..n], Some(s[n + 1..][..m])), s[n + 1..][m + 1..])
      else (User(s[..n], None), s[n + 1..])
  }

  function Assemble(scheme: string, user: User, server: Server): Url {
    Url(scheme, server.host, server.port, server.tail.path, server.tail.query, server.tail.fragment,
        if user.User? then Some(user.name) else None, if user.User? then user.password else None)
  }

  function Parse(s: string): Option<Url> {
    var n := Span(s, {':'});
    if n == |s| || !SchemeChars(s[..n]) || !("//" <= s[n + 1..]) then None
    else
      var (user, rest) := ParseUser(s[n + 3..]);
      match ParseServer(rest)
      case None => None
      case Some(server) => Some(Assemble(Lower(s[..n]), user, server))
  }

  // ---------------------------------------------------------------- rendering

  function Prefixed(mark: string, part: Option<string>): string {
    if part.Some? then mark + part.value else ""
  }

  function RenderTail(t: Tail): string {
    Prefixed("/", t.path) + (Prefixed("?", t.query) + Prefixed("#", t.fragment))
  }

  function RenderServer(s: Server): string {
    s.host + (Prefixed(":", s.port) + RenderTail(s.tail))
  }

  function RenderUser(u: User): string {
    if u.NoUser? then "" else u.name + Prefixed(":", u.password) + "@"
  }

  function ServerOf(u: Url): Server {
    Server(u.host, u.port, Tail(u.path, u.query, u.fragment))
  }

  function UserOf(u: Url): User {
    if u.username.Some? then User(u.username.value, u.password) else NoUser
  }

  function Render(u: Url): string {
    u.scheme + "://" + (RenderUser(UserOf(u)) + RenderServer(ServerOf(u)))
  }

  // ---------------------------------------------------------------- well-formed records

  predicate Without(s: Option<string>, stops: set<char>) {
    s.Some? ==> forall i :: 0 <= i < |s.value| ==> s.value[i] !in stops
  }

  predicate TailOk(t: Tail) {
    && (t.path.None? ==> t.query.None? && t.fragment.None?)
    && Without(t.path, {'#', '?'}) && Without(t.query, {'#'})
  }

  /** A host is free of ':' and '/', or it is bracketed: closed by the one ']' at
      its end, or unclosed and the last thing in the URL. */
  predicate ServerOk(s: Server) {
    && TailOk(s.tail) && Without(s.port, {'/'})
    && s.host != ""
    && if s.host[0] == '[' then
         var k := Span(s.host, {']'});
         k == |s.host| - 1 || (k == |s.host| && s.port.None? && s.tail.path.None?)
       else Without(Some(s.host), {':', '/'})
  }

  predicate UserOk(u: User) {
    u.User? ==> Without(Some(u.name), {':', '@', '/'}) && Without(u.password, {'@', '/'})
  }

  predicate WellFormed(u: Url) {
    && SchemeChars(u.scheme) && Lower(u.scheme) == u.scheme
    && (u.username.None? ==> u.password.None? && !HasUser(RenderServer(ServerOf(u))))
    && UserOk(UserOf(u)) && ServerOk(ServerOf(u))
  }

  // ---------------------------------------------------------------- render, then parse

  lemma FragmentBack(f: Option<string>)
    ensures ParseFragment(Prefixed("#", f)) == f
  {
    if f.Some? {
      assert ("#" + f.value)[1..] == f.value;
    }
  }

  lemma Parts(a: string, b: string)
    ensures (a + b)[..|a|] == a && (a + b)[|a|..] == b
  {
  }

  lemma QueryText(q: string, rest: string)
    requires '#' !in q && (rest != "" ==> rest[0] == '#')
    ensures ParseQuery("?" + q + rest) == (Some(q), ParseFragment(rest))
  {
    hide Span, ParseFragment;
    var s := "?" + q + rest;
    assert s[1..] == q + rest;
    SpanOver(q, rest, {'#'});
    Parts(q, rest);
  }

  lemma QueryBack(q: Option<string>, f: Option<string>)
    requires Without(q, {'#'})
    ensures ParseQuery(Prefixed("?", q) + Prefixed("#", f)) == (q, f)
  {
    hide Span;
    FragmentBack(f);
    var rest := Prefixed("#", f);
    if q.Some? {
      hide ParseQuery;
      QueryText(q.value, rest);
    } else {
      assert "" + rest == rest;
    }
  }

  lemma TailBack(t: Tail)
    requires TailOk(t)
    ensures ParseTail(RenderTail(t)) == Some(t)
  {
    hide Span;
    if t.path.Some? {
      var p, more := t.path.value, Prefixed("?", t.query) + Prefixed("#", t.fragment);
      assert RenderTail(t)[1..] == p + more;
      SpanOver(p, more, {'#', '?'});
      assert (p + more)[..|p|] == p && (p + more)[|p|..] == more;
      QueryBack(t.query, t.fragment);
    }
  }

  lemma PortBack(port: Option<string>, t: Tail)
    requires Without(port, {'/'}) && TailOk(t)
    ensures ParsePort(Prefixed(":", port) + RenderTail(t)) == (port, RenderTail(t))
  {
    hide Span;
    var s, more := Prefixed(":", port) + RenderTail(t), RenderTail(t);
    if port.Some? {
      assert s[1..] == port.value + more;
      SpanOver(port.value, more, {'/'});
      assert s[1..][..|port.value|] == port.value && s[1..][|port.value|..] == more;
    } else {
      assert s == more;
    }
  }

  lemma BehindHost(s: Server)
    requires ServerOk(s)
    ensures var more := Prefixed(":", s.port) + RenderTail(s.tail);
            && (more != "" ==> more[0] in {':', '/'})
            && (s.port.None? && s.tail.path.None? ==> more == "")
  {
    hide Span;
  }

  lemma BracketEnds(host: string, more: string)
    requires host != "" && host[0] == '['
    requires var k := Span(host, {']'}); k == |host| - 1 || (k == |host| && more == "")
    ensures HostLength(host + more) == |host|
  {
    hide Span;
    var k := Span(host, {']'});
    assert (host + more)[0] == '[';
    if k == |host| {
      assert host + more == host;
    } else {
      assert host + more == host[..k] + (host[k..] + more);
      assert (host[k..] + more)[0] == ']';
      SpanOver(host[..k], host[k..] + more, {']'});
    }
  }

  lemma HostBack(s: Server)
    requires ServerOk(s)
    ensures HostLength(RenderServer(s)) == |s.host|
  {
    hide Span, RenderTail, TailOk;
    var more := Prefixed(":", s.port) + RenderTail(s.tail);
    BehindHost(s);
    hide Prefixed;
    if s.host[0] == '[' {
      hide HostLength;
      BracketEnds(s.host, more);
    } else {
      SpanOver(s.host, more, {':', '/'});
    }
  }

  lemma ServerBack(s: Server)
    requires ServerOk(s)
    ensures ParseServer(RenderServer(s)) == Some(s)
  {
    hide HostLength, ParsePort, ParseTail, RenderTail;
    var more := Prefixed(":", s.port) + RenderTail(s.tail);
    HostBack(s);
    assert RenderServer(s)[..|s.host|] == s.host && RenderServer(s)[|s.host|..] == more;
    PortBack(s.port, s.tail);
    TailBack(s.tail);
  }

  lemma UserAnnounced(u: User, rest: string)
    requires UserOk(u) && u.User?
    ensures HasUser(RenderUser(u) + rest)
  {
    hide Span;
    var info := u.name + Prefixed(":", u.password);
    assert RenderUser(u) + rest == info + ("@" + rest);
    SpanOver(info, "@" + rest, {'@', '/'});
  }

  lemma NameBack(name: string, rest: string)
    requires UserOk(User(name, None))
    ensures HasUser(name + "@" + rest) ==> ParseUser(name + "@" + rest) == (User(name, None), rest)
  {
    hide Span, HasUser;
    var s := name + "@" + rest;
    assert s == name + ("@" + rest);
    SpanOver(name, "@" + rest, {':', '@'});
    assert s[..|name|] == name && s[|name| + 1..] == rest;
  }

  lemma NamePasswordBack(name: string, p: string, rest: string)
    requires UserOk(User(name, Some(p)))
    ensures var s := name + ":" + (p + ("@" + rest));
            HasUser(s) ==> ParseUser(s) == (User(name, Some(p)), rest)
  {
    hide Span, HasUser;
    var t := p + ("@" + rest);
    var s := name + ":" + t;
    assert s == name + (":" + t);
    SpanOver(name, ":" + t, {':', '@'});
    assert s[..|name|] == name && s[|name| + 1..] == t;
    SpanOver(p, "@" + rest, {'@'});
    assert t[..|p|] == p && t[|p| + 1..] == rest;
  }

  lemma NoUserBack(rest: string)
    requires !HasUser(rest)
    ensures ParseUser(rest) == (NoUser, rest)
  {
  }

  lemma UserText(name: string, p: string, rest: string)
    ensures name + (":" + p) + "@" + rest == name + ":" + (p + ("@" + rest))
    ensures name + (":" + p) + "@" + rest == name + ":" + (p + "@" + rest)
    ensures name + "" + "@" + rest == name + "@" + rest
  {
  }

  lemma UserBack(u: User, rest: string)
    requires UserOk(u) && (u.NoUser? ==> !HasUser(rest))
    ensures ParseUser(RenderUser(u) + rest) == (u, rest)
  {
    hide Span, HasUser, ParseUser, UserOk;
    if u.NoUser? {
      assert RenderUser(u) + rest == rest;
      NoUserBack(rest);
    } else {
      UserAnnounced(u, rest);
      if u.password.Some? {
        var p := u.password.value;
        UserText(u.name, p, rest);
        NamePasswordBack(u.name, p, rest);
      } else {
        UserText(u.name, "", rest);
        NameBack(u.name, rest);
      }
    }
  }

  /** Every well-formed record survives rendering and parsing. */
  lemma RenderThenParse(u: Url)
    requires WellFormed(u)
    ensures Parse(Render(u)) == Some(u)
  {
    hide ParseServer, ParseUser, RenderUser, RenderServer, ServerOk, UserOk, HasUser, Lower;
    var rest := RenderUser(UserOf(u)) + RenderServer(ServerOf(u));
    var s := Render(u);
    assert s == u.scheme + ("://" + rest);
    SpanOver(u.scheme, "://" + rest, {':'});
    assert s[..|u.scheme|] == u.scheme && s[|u.scheme| + 3..] == rest;
    assert s[|u.scheme| + 1..] == "//" + rest;
    UserBack(UserOf(u), RenderServer(ServerOf(u)));
    ServerBack(ServerOf(u));
  }

  // ---------------------------------------------------------------- parse, then render

  lemma FragmentForth(s: string)
    requires s == "" || s[0] == '#'
    ensures Prefixed("#", ParseFragment(s)) == s
  {
  }

  lemma QueryForth(s: string)
    requires s == "" || s[0] in {'#', '?'}
    ensures var (q, f) := ParseQuery(s); Without(q, {'#'}) && Prefixed("?", q) + Prefixed("#", f) == s
  {
    hide Span;
    if s != "" && s[0] == '?' {
      var n := Span(s[1..], {'#'});
      FragmentForth(s[1..][n..]);
      assert s == "?" + (s[1..][..n] + s[1..][n..]);
    } else {
      FragmentForth(s);
    }
  }

  lemma TailForth(s: string)
    requires ParseTail(s).Some?
    ensures TailOk(ParseTail(s).value) && RenderTail(ParseTail(s).value) == s
  {
    hide Span;
    hide ParseQuery;
    if s != "" {
      var n := Span(s[1..], {'#', '?'});
      QueryForth(s[1..][n..]);
      assert s == "/" + s[1..][..n] + s[1..][n..];
    }
  }

  lemma PortForth(s: string)
    ensures var (port, rest) := ParsePort(s);
            Without(port, {'/'}) && Prefixed(":", port) + rest == s
  {
    hide Span;
    if s != "" && s[0] == ':' {
      var n := Span(s[1..], {'/'});
      assert s == ":" + (s[1..][..n] + s[1..][n..]);
    }
  }

  lemma HostForth(s: string)
    requires HostLength(s) > 0
    ensures var n := HostLength(s); var host := s[..n];
            if s[0] == '[' then Span(host, {']'}) == n - 1 || (Span(host, {']'}) == n && n == |s|)
            else Without(Some(host), {':', '/'})
  {
    hide Span;
    if s[0] == '[' {
      var k := Span(s, {']'});
      if k < |s| {
        assert s[..k + 1] == s[..k] + "]";
        SpanOver(s[..k], "]", {']'});
      } else {
        assert s[..k] == s;
      }
    }
  }

  lemma NothingLeft()
    ensures ParsePort("") == (None, "") && ParseTail("") == Some(Tail(None, None, None))
  {
  }

  lemma ServerForth(s: string)
    requires ParseServer(s).Some?
    ensures ServerOk(ParseServer(s).value) && RenderServer(ParseServer(s).value) == s
  {
    hide Span, HostLength, ParseTail, RenderTail, TailOk;
    var n := HostLength(s);
    HostForth(s);
    PortForth(s[n..]);
    TailForth(ParsePort(s[n..]).1);
    if n == |s| {
      NothingLeft();
    }
    assert s == s[..n] + s[n..];
  }

  /** Behind a user mark the name and the password really end. */
  lemma UserMarks(s: string)
    requires HasUser(s)
    ensures var n := Span(s, {':', '@'});
            && n < |s| && Without(Some(s[..n]), {':', '@', '/'})
            && (s[n] == ':' ==>
                  var t := s[n + 1..];
                  var m := Span(t, {'@'});
                  m < |t| && Without(Some(t[..m]), {'@', '/'}))
  {
    hide Span;
    var at, n := Span(s, {'@', '/'}), Span(s, {':', '@'});
    assert n <= at;
    if s[n] == ':' {
      var t := s[n + 1..];
      assert t[at - n - 1] == '@';
      assert forall i :: 0 <= i < at - n - 1 ==> t[i] == s[n + 1 + i];
    }
  }

  lemma UserForth(s: string)
    ensures var (u, rest) := ParseUser(s);
            && UserOk(u) && RenderUser(u) + rest == s
            && (u.NoUser? ==> !HasUser(s))
  {
    hide Span, HasUser;
    if HasUser(s) {
      UserMarks(s);
      var n := Span(s, {':', '@'});
      if s[n] == ':' {
        var t := s[n + 1..];
        var m := Span(t, {'@'});
        assert t == t[..m] + "@" + t[m + 1..];
        assert s == s[..n] + ":" + t;
        UserText(s[..n], t[..m], t[m + 1..]);
      } else {
        UserText(s[..n], "", s[n + 1..]);
        assert s == s[..n] + "@" + s[n + 1..];
      }
    }
  }

  lemma {:induction false} LowerSchemeChars(s: string)
    requires SchemeChars(s)
    ensures SchemeChars(Lower(s)) && Lower(Lower(s)) == Lower(s)
  {
    if s != "" {
      var n := |s| - 1;
      LowerSchemeChars(s[..n]);
      assert Lower(s)[..n] == Lower(s[..n]);
      assert IsSchemeChar(s[n]);
    }
  }

  lemma NoUserText(rest: string)
    ensures RenderUser(NoUser) + rest == rest
  {
  }

  /** An accepted string is the rendering of its record up to the case of the
      scheme, and the record is well-formed. */
  lemma ParseThenRender(s: string)
    requires Parse(s).Some?
    ensures var u := Parse(s).value;
            WellFormed(u) && |u.scheme| <= |s| && Render(u) == Lower(s[..|u.scheme|]) + s[|u.scheme|..]
  {
    hide ParseServer, ParseUser, RenderUser, RenderServer, ServerOk, UserOk, HasUser, Lower;
    var u, n := Parse(s).value, Span(s, {':'});
    var (user, rest) := ParseUser(s[n + 3..]);
    LowerSchemeChars(s[..n]);
    UserForth(s[n + 3..]);
    ServerForth(rest);
    assert UserOf(u) == user && ServerOf(u) == ParseServer(rest).value;
    assert s[n..] == "://" + s[n + 3..];
    if user.NoUser? {
      NoUserText(rest);
    }
  }

  /** The accepted records are exactly the well-formed ones. */
  lemma AcceptedExactly(u: Url)
    ensures WellFormed(u) <==> exists s :: Parse(s) == Some(u)
  {
    hide Parse, WellFormed, Render;
    if WellFormed(u) {
      RenderThenParse(u);
    }
    if exists s :: Parse(s) == Some(u) {
      var s :| Parse(s) == Some(u);
      ParseThenRender(s);
    }
  }

  // ---------------------------------------------------------------- schemes

  /** The scheme of an accepted record is made of small letters, '+', '-' and '.'. */
  lemma SchemeIsLower(s: string, i: nat)
    requires Parse(s).Some? && i < |Parse(s).value.scheme|
    ensures var c := Parse(s).value.scheme[i]; 'a' <= c <= 'z' || c in {'+', '-', '.'}
  {
    hide ParseServer, ParseUser;
    LowerExact(s[..Span(s, {':'})]);
  }

  /** What the parser makes of a text cut at its first colon. */
  lemma ParseAtColon(a: string, b: string)
    requires ':' !in a && b != "" && b[0] == ':'
    ensures var u := ParseUser(if |b| >= 3 then b[3..] else "");
            Parse(a + b) ==
            if !SchemeChars(a) || |b| < 3 || b[1] != '/' || b[2] != '/' then None
            else match ParseServer(u.1)
                 case None => None
                 case Some(server) => Some(Assemble(Lower(a), u.0, server))
  {
    hide ParseServer, ParseUser, Lower, SchemeChars, Assemble;
    SpanOver(a, b, {':'});
    var s, n := a + b, |a|;
    assert s[..n] == a && s[n + 1..] == b[1..];
    if |b| >= 3 {
      assert s[n + 3..] == b[3..];
      assert b[1..][0] == b[1] && b[1..][1] == b[2];
    }
  }

  lemma BareHost(host: string)
    requires host != "" && forall i :: 0 <= i < |host| ==> host[i] !in {':', '/', '@', '[', ']', '?', '#'}
    ensures ParseUser(host) == (NoUser, host) && ParseServer(host).Some?
  {
    NothingLeft();
    assert Span(host, {':', '/'}) == |host| && host[|host|..] == "";
  }

  /** Which schemes are accepted: letters of either case, '+', '-' and '.', or none at
      all; no digits. */
  lemma SchemeExact(scheme: string, host: string)
    requires ':' !in scheme
    requires host != "" && forall i :: 0 <= i < |host| ==> host[i] !in {':', '/', '@', '[', ']', '?', '#'}
    ensures Parse(scheme + "://" + host).Some? <==>
            forall i :: 0 <= i < |scheme| ==>
              'a' <= scheme[i] <= 'z' || 'A' <= scheme[i] <= 'Z' || scheme[i] in {'+', '-', '.'}
  {
    hide ParseServer, ParseUser, Lower, Parse;
    var rest := "://" + host;
    assert scheme + "://" + host == scheme + rest;
    BareHost(host);
    assert rest[3..] == host;
    ParseAtColon(scheme, rest);
  }

  lemma SchemeLength(s: string)
    requires Parse(s).Some?
    ensures |Parse(s).value.scheme| == Span(s, {':'})
  {
  }

  lemma LowerKeepsScheme(a: string)
    ensures SchemeChars(Lower(a)) <==> SchemeChars(a)
  {
    LowerExact(a);
    forall i | 0 <= i < |a|
      ensures IsSchemeChar(Lower(a)[i]) <==> IsSchemeChar(a[i])
    {
      assert 'A' <= a[i] <= 'Z' ==> 'a' <= Lower(a)[i] <= 'z';
    }
  }

  lemma NoColonRefused(s: string)
    requires ':' !in s
    ensures Parse(s) == None
  {
  }

  lemma CaseDoesNotMatter(s: string)
    ensures var n := Span(s, {':'}); Parse(Lower(s[..n]) + s[n..]).Some? <==> Parse(s).Some?
  {
    hide ParseServer, ParseUser, Lower, Parse, SchemeChars;
    var n := Span(s, {':'});
    var a, b := s[..n], s[n..];
    assert s == a + b;
    LowerExact(a);
    LowerKeepsScheme(a);
    if n < |s| {
      ParseAtColon(a, b);
      ParseAtColon(Lower(a), b);
    } else {
      NoColonRefused(a + b);
      NoColonRefused(Lower(a) + b);
    }
  }

  /** Only the case of the scheme is lost: a string is accepted exactly when the same
      string with its scheme in small letters is the rendering of a well-formed
      record. */
  lemma AcceptedStrings(s: string)
    ensures Parse(s).Some? <==>
            exists u :: WellFormed(u) && |u.scheme| <= |s| && |u.scheme| == Span(s, {':'})
                        && Render(u) == Lower(s[..|u.scheme|]) + s[|u.scheme|..]
  {
    hide WellFormed, Render, Lower, ParseServer, ParseUser;
    if Parse(s).Some? {
      ParseThenRender(s);
      SchemeLength(s);
    }
    if u :| WellFormed(u) && |u.scheme| <= |s| && |u.scheme| == Span(s, {':'})
            && Render(u) == Lower(s[..|u.scheme|]) + s[|u.scheme|..] {
      RenderThenParse(u);
      CaseDoesNotMatter(s);
    }
  }

  // ---------------------------------------------------------------- the parser as it runs

  /** Advances a pointer to the next of the `stops`, or to the end of the string. */
  method ScanTo(s: string, from: nat, stops: set<char>) returns (to: nat)
    requires from <= |s|
    ensures to == from + Span(s[from..], stops)
  {
    to := from;
    while to < |s| && s[to] !in stops
      invariant from <= to <= |s|
      invariant to + Span(s[to..], stops) == from + Span(s[from..], stops)
    {
      assert s[to..][1..] == s[to + 1..];
      to := to + 1;
    }
  }

  /** Looks for an '@' in front of the first '/'. */
  method FindUserMark(s: string, from: nat) returns (flag: bool)
    requires from <= |s|
    ensures flag == HasUser(s[from..])
  {
    flag := false;
    var tmp := from;
    while tmp < |s|
      invariant from <= tmp <= |s| && HasUser(s[tmp..]) == HasUser(s[from..]) && !flag
    {
      if s[tmp] == '@' {
        return true;
      } else if s[tmp] == '/' {
        return false;
      }
      assert s[tmp..][1..] == s[tmp + 1..];
      tmp := tmp + 1;
    }
  }

  lemma Slices(s: string, from: nat, n: nat)
    requires from + n <= |s|
    ensures s[from..][..n] == s[from..from + n] && s[from..][n..] == s[from + n..]
  {
  }

  method ReadUser(s: string, from: nat) returns (user: User, cur: nat)
    requires from <= |s|
    ensures cur <= |s| && ParseUser(s[from..]) == (user, s[cur..])
  {
    hide Span, HasUser, Without;
    var flag := FindUserMark(s, from);
    user, cur := NoUser, from;
    if flag {
      var tmp := ScanTo(s, from, {':', '@'});
      Slices(s, from, tmp - from);
      UserMarks(s[from..]);
      Slices(s, from, tmp + 1 - from);
      if s[tmp] == ':' {
        var stop := ScanTo(s, tmp + 1, {'@'});
        Slices(s, tmp + 1, stop - tmp - 1);
        Slices(s, tmp + 1, stop - tmp);
        user, cur := User(s[from..tmp], Some(s[tmp + 1..stop])), stop + 1;
      } else {
        user, cur := User(s[from..tmp], None), tmp + 1;
      }
    }
  }

  method ReadHost(s: string, from: nat) returns (to: nat)
    requires from <= |s|
    ensures to == from + HostLength(s[from..])
  {
    hide Span;
    var bracket := from < |s| && s[from] == '[';
    if bracket {
      to := ScanTo(s, from, {']'});
      if to < |s| {
        to := to + 1;
      }
    } else {
      to := ScanTo(s, from, {':', '/'});
    }
  }

  method ReadQuery(s: string, from: nat) returns (query: Option<string>, fragment: Option<string>)
    requires from <= |s|
    ensures (query, fragment) == ParseQuery(s[from..])
  {
    hide Span;
    var cur := from;
    query, fragment := None, None;
    if cur < |s| && s[cur] == '?' {
      var q := cur + 1;
      var to := ScanTo(s, q, {'#'});
      Slices(s, cur, 1);
      Slices(s, q, to - q);
      query := Some(s[q..to]);
      cur := to;
    }
    if cur < |s| && s[cur] == '#' {
      Slices(s, cur, 1);
      fragment := Some(s[cur + 1..]);
    }
  }

  method ReadTail(s: string, from: nat) returns (t: Option<Tail>)
    requires from <= |s|
    ensures t == ParseTail(s[from..])
  {
    hide Span, ParseQuery;
    var cur := from;
    if cur == |s| {
      return Some(Tail(None, None, None));
    }
    if s[cur] != '/' {
      return None;
    }
    cur := cur + 1;
    assert s[from..][1..] == s[cur..];
    var to := ScanTo(s, cur, {'#', '?'});
    assert s[cur..][..to - cur] == s[cur..to] && s[cur..][to - cur..] == s[to..];
    var path := s[cur..to];
    cur := to;
    var query, fragment := ReadQuery(s, cur);
    return Some(Tail(Some(path), query, fragment));
  }

  method ReadServer(s: string, from: nat) returns (r: Option<Server>)
    requires from <= |s|
    ensures r == ParseServer(s[from..])
  {
    hide Span, ParseTail, HostLength;
    var cur := ReadHost(s, from);
    if cur == from {
      return None;
    }
    var host := s[from..cur];
    assert s[from..][..cur - from] == host && s[from..][cur - from..] == s[cur..];
    var port: Option<string> := None;
    if cur < |s| && s[cur] == ':' {
      var to := ScanTo(s, cur + 1, {'/'});
      assert s[cur..][1..] == s[cur + 1..];
      assert s[cur + 1..][..to - cur - 1] == s[cur + 1..to] && s[cur + 1..][to - cur - 1..] == s[to..];
      port := Some(s[cur + 1..to]);
      cur := to;
    }
    var tail := ReadTail(s, cur);
    if tail == None {
      return None;
    }
    return Some(Server(host, port, tail.value));
  }

  /** Checks and lower-cases the scheme. */
  method ReadScheme(s: string, len: nat) returns (scheme: Option<string>)
    requires len <= |s|
    ensures scheme == if SchemeChars(s[..len]) then Some(Lower(s[..len])) else None
  {
    for i := 0 to len
      invariant SchemeChars(s[..i])
    {
      if !IsSchemeChar(s[i]) {
        assert !IsSchemeChar(s[..len][i]);
        return None;
      }
    }
    var lower := "";
    for i := 0 to len
      invariant lower == Lower(s[..i])
    {
      assert s[..i + 1][..i] == s[..i];
      lower := lower + [ToLower(s[i])];
    }
    return Some(lower);
  }

  method ParseUrl(s: string) returns (r: Option<Url>)
    ensures r == Parse(s)
  {
    hide ParseUser, ParseServer, Lower;
    var len := ScanTo(s, 0, {':'});
    assert s[0..] == s;
    if len == |s| {
      return None;
    }
    var scheme := ReadScheme(s, len);
    if scheme == None {
      return None;
    }
    var cur := len + 1;
    for i := 0 to 2
      invariant cur == len + 1 + i <= |s|
      invariant forall j :: len + 1 <= j < cur ==> s[j] == '/'
    {
      if cur == |s| || s[cur] != '/' {
        assert i < |s[len + 1..]| ==> s[len + 1..][i] == s[cur];
        return None;
      }
      cur := cur + 1;
    }
    assert "//" <= s[len + 1..];
    var user, at := ReadUser(s, cur);
    var server := ReadServer(s, at);
    if server == None {
      return None;
    }
    return Some(Assemble(scheme.value, user, server.value));
  }
}

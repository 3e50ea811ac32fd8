/** What the parsers' cutters see of a link composed from its parts. */
module LinkCuts {
  import opened Common
  import opened Model
  import opened Text
  import opened Parsing
  import opened Renaming
  import opened Queries

  // ---------------------------------------------------------------------------
  // Composed links
  // ---------------------------------------------------------------------------

  /** Host and port as they are written; brackets let the host hold colons. */
  datatype Address = Address(host: string, bracketed: bool, port: Option<string>)

  /** User info may stand in front of the address, behind which slashes may follow. */
  datatype Authority = Authority(signed: bool, user: string, pwd: Option<string>, address: Address, slashes: nat)

  /** Printable and no delimiter. */
  predicate WordChar(c: char) {
    '!' <= c <= '~' && c !in {'@', '/', '?', '#', ':', '[', ']'}
  }

  predicate Word(s: string) {
    forall k | 0 <= k < |s| :: WordChar(s[k])
  }

  /** User info may hold slashes. */
  predicate UserWord(s: string) {
    forall k | 0 <= k < |s| :: WordChar(s[k]) || s[k] == '/'
  }

  predicate HostWord(s: string) {
    forall k | 0 <= k < |s| :: WordChar(s[k]) || s[k] == ':'
  }

  predicate Addressed(a: Address) {
    && (if a.bracketed then HostWord(a.host) else Word(a.host)) && a.host != ""
    && (a.port.Some? ==> Word(a.port.value) && a.port.value != "")
  }

  predicate Composed(a: Authority) {
    && UserWord(a.user) && (a.pwd.Some? ==> UserWord(a.pwd.value)) && Addressed(a.address)
    && (!a.signed ==> a.user == "" && a.pwd.None?)
  }

  function UserInfo(a: Authority): string {
    if a.pwd.Some? then a.user + ":" + a.pwd.value else a.user
  }

  function PasswordText(a: Authority): string {
    if a.pwd.Some? then a.pwd.value else ""
  }

  function HostText(a: Address): string {
    if a.bracketed then "[" + a.host + "]" else a.host
  }

  function AddressText(a: Address): string {
    if a.port.Some? then HostText(a) + ":" + a.port.value else HostText(a)
  }

  function Location(a: Authority): string {
    (if a.signed then UserInfo(a) + "@" else "") + AddressText(a.address)
  }

  /** Where the address starts. */
  function InfoEnd(a: Authority): nat {
    if a.signed then |UserInfo(a)| + 1 else 0
  }

  function Slashes(n: nat): string {
    seq(n, _ => '/')
  }

  /** What a link has between `://` and its query. */
  function Netloc(a: Authority): string {
    Location(a) + Slashes(a.slashes)
  }

  function Link(scheme: string, netloc: string, query: string): string {
    scheme + "://" + netloc + "?" + query
  }

  /** The host in lower case, decoded, and as the canonical text of an address if it is one. */
  function HostRead(lib: UrlLib, host: string): string {
    var h := lib.names.unquote(lib.names.lower(host));
    if ':' in h && lib.names.canonicalIp(h).Some? then lib.names.lower(lib.names.canonicalIp(h).value) else h
  }

  /** The host and the port that an address stands for. */
  ghost predicate Dials(lib: UrlLib, a: Address, defaultPort: int, host: string, port: int) {
    && |a.host| <= 253 && host == HostRead(lib, a.host)
    && (if a.port.Some? then lib.parseInt(a.port.value) == Some(port) else port == defaultPort)
    && 0 < port < 65536
  }

  /** Too long a host, or a port that is no number or out of range. */
  ghost predicate Undialable(lib: UrlLib, a: Address) {
    || |a.host| > 253
    || (a.port.Some? && (lib.parseInt(a.port.value).None? || !(0 < lib.parseInt(a.port.value).value < 65536)))
  }

  // ---------------------------------------------------------------------------
  // Cutting composed links
  // ---------------------------------------------------------------------------

  lemma {:induction false} UpToAll(s: string, stop: char -> bool)
    requires forall k | 0 <= k < |s| :: !stop(s[k])
    ensures UpTo(s, stop) == s
  {
    if s != "" {
      assert forall k | 0 <= k < |s[1..]| :: s[1..][k] == s[k + 1];
      UpToAll(s[1..], stop);
    }
  }

  lemma {:induction false} LastCutJoin(a: string, c: char, b: string)
    requires Free(b, c)
    ensures LastCut(a + [c] + b, c) == |a| + 1
  {
    var s := a + [c] + b;
    if b == "" {
      assert s[|s| - 1] == c;
    } else {
      assert s[|s| - 1] == b[|b| - 1];
      assert s[..|s| - 1] == a + [c] + b[..|b| - 1];
      LastCutJoin(a, c, b[..|b| - 1]);
    }
  }

  lemma LastCutNone(s: string, c: char)
    requires Free(s, c)
    ensures LastCut(s, c) == 0
  {
  }

  lemma {:induction false} FindScheme(scheme: string, rest: string)
    requires Free(scheme, ':')
    ensures Find(scheme + "://" + rest, "://") == Some(|scheme|)
  {
    var s := scheme + "://" + rest;
    if scheme == "" {
      assert s[..3] == "://";
    } else {
      assert s[0] == scheme[0] != ':' && (|s| >= 3 ==> s[..3][0] == s[0]);
      assert s[1..] == scheme[1..] + "://" + rest;
      FindScheme(scheme[1..], rest);
    }
  }

  /** The part between `://` and the query. */
  predicate Placed(n: string) {
    Printable(n) && Free(n, '#') && Free(n, '?')
  }

  lemma NetlocPlaced(a: Authority)
    requires Composed(a)
    ensures Placed(Netloc(a))
  {
    assert forall k | 0 <= k < |Netloc(a)| ::
        WordChar(Netloc(a)[k]) || Netloc(a)[k] in {':', '@', '/', '[', ']'};
  }

  lemma {:induction false} UpToSlash(n: string)
    requires Free(n, '#') && Free(n, '?')
    ensures UpTo(n, NetlocEnd) == Before(n, '/')
  {
    if n != "" && n[0] != '/' {
      assert forall k | 0 <= k < |n[1..]| :: n[1..][k] == n[k + 1];
      UpToSlash(n[1..]);
    }
  }

  lemma FrontOf(scheme: string, n: string)
    requires SchemeText(scheme) && Free(scheme, ':') && Free(n, '?') && Free(n, '#')
    ensures var s := scheme + "://" + n;
            Front(s) == (scheme, Before(n, '/'), n[|Before(n, '/')|..]) && Before(s, ':') == scheme
                && s[|scheme|..] == "://" + n
  {
    var s := scheme + "://" + n;
    FrontIs(s);
    SchemeThen(scheme, n);
    UpToSlash(n);
    SlashesThen(n);
    hide UpTo, Before, Free, Front, Schemed, StartsWith, SchemeText;
  }

  lemma SchemeThen(scheme: string, n: string)
    requires SchemeText(scheme) && Free(scheme, ':')
    ensures var s := scheme + "://" + n;
            Schemed(s) && Before(s, ':') == scheme && s[|scheme| + 1..] == "//" + n && s[|scheme|..] == "://" + n
  {
    var s := scheme + "://" + n;
    assert s[|scheme|] == ':' && s[..|scheme|] == scheme;
    BeforeUnique(s, ':', scheme);
    hide Before;
  }

  lemma SlashesThen(n: string)
    ensures StartsWith("//" + n, "//") && ("//" + n)[2..] == n
    ensures forall k | 0 <= k <= |n| :: ("//" + n)[2 + k..] == n[k..]
  {
  }

  /** What the parsers' cutters see of a composed link. */
  lemma LinkCut(lib: UrlLib, scheme: string, n: string, query: string)
    requires SchemeText(scheme) && Placed(n) && Printable(query) && Free(query, '#') && lib.netlocOk(Before(n, '/'))
    ensures UrlSplit(lib, Link(scheme, n, query))
            == Some(UrlParts(lib.names.lower(scheme), Before(n, '/'), query, ""))
    ensures MainOf(Link(scheme, n, query)) == n
    ensures SchemeOf(lib, Link(scheme, n, query)) == Some(lib.names.lower(scheme))
  {
    var head := scheme + "://" + n;
    assert Free(scheme, ':');
    FrontOf(scheme, n);
    HeadPrintable(scheme, n);
    PrintableKept(query);
    SplitTakesQuery(lib, head, query);
    HeadSplit(lib, scheme, n);
    FindScheme(scheme, n);
    MainIgnores(head, '?', query);
    HeadMain(scheme, n);
    SchemeIgnores(lib, head, '?', query);
    HeadScheme(lib, scheme, n);
    assert head + "?" + query == head + ['?'] + query;
    hide *;
  }

  lemma HeadPrintable(scheme: string, n: string)
    requires SchemeText(scheme) && Placed(n)
    ensures var head := scheme + "://" + n;
            head != "" && head[0] > ' ' && Free(head, '#') && Free(head, '?') && Printable(head)
  {
  }

  lemma HeadSplit(lib: UrlLib, scheme: string, n: string)
    requires SchemeText(scheme) && Placed(n) && lib.netlocOk(Before(n, '/'))
    ensures UrlSplit(lib, scheme + "://" + n) == Some(UrlParts(lib.names.lower(scheme), Before(n, '/'), "", ""))
  {
    var head := scheme + "://" + n;
    HeadPrintable(scheme, n);
    PrintableKept(head);
    assert Cleaned(head) == head;
    assert Free(scheme, ':');
    FrontOf(scheme, n);
    var tail := n[|Before(n, '/')|..];
    assert Free(tail, '#') && Free(tail, '?');
    CutFirst(tail, '#', "");
    CutFirst(tail, '?', "");
    hide Cleaned, Front, Placed, SchemeText, Before;
  }

  lemma HeadMain(scheme: string, n: string)
    requires SchemeText(scheme) && Placed(n)
    ensures MainOf(scheme + "://" + n) == n
  {
    FindScheme(scheme, n);
    UpToAll(n, MainEnd);
    hide Find, UpTo;
    assert (scheme + "://" + n)[|scheme| + 3..] == n;
  }

  lemma HeadScheme(lib: UrlLib, scheme: string, n: string)
    requires SchemeText(scheme) && Placed(n)
    ensures SchemeOf(lib, scheme + "://" + n) == Some(lib.names.lower(scheme))
  {
    assert Free(scheme, ':');
    FrontOf(scheme, n);
    assert ("://" + n)[..3] == "://";
    hide Before;
  }

  lemma LinkTrimmed(lib: UrlLib, scheme: string, n: string, query: string)
    requires Lawful(lib) && SchemeText(scheme) && Placed(n) && Printable(query)
    ensures Trimmed(lib, Link(scheme, n, query)) == Link(scheme, n, query) != ""
  {
    HeadPrintable(scheme, n);
    var link := Link(scheme, n, query);
    assert link[0] == scheme[0] && link[|link| - 1] == if query == "" then '?' else query[|query| - 1];
    StripFix(link, lib.names.space);
  }

  // ---------------------------------------------------------------------------
  // Endpoints
  // ---------------------------------------------------------------------------

  lemma WordTrimmed(lib: UrlLib, s: string)
    requires Lawful(lib) && s != "" && Printable(s)
    ensures Trimmed(lib, s) == s
  {
    StripFix(s, lib.names.space);
  }

  /** The first closing bracket is followed by something else than a colon. */
  ghost predicate JunkAt(n: string, k: nat) {
    k + 1 < |n| && n[k] == ']' && n[k + 1] != ':' && forall j | 0 <= j < k :: n[j] != ']'
  }

  ghost predicate TwoColons(n: string) {
    exists j, k :: 0 <= j < k < |n| && n[j] == ':' && n[k] == ':'
  }

  /** Where no host can be told from a port. */
  ghost predicate Muddled(n: string) {
    if n == "" then true
    else if n[0] == '[' then ']' !in n || exists k: nat :: JunkAt(n, k)
    else TwoColons(n)
  }

  /** A location without host, with an open bracket or text behind a closed one, or with two bare colons has no host. */
  lemma MuddledExactly(n: string)
    ensures HostPort(n).None? <==> Muddled(n)
  {
    if n == "" {
    } else if n[0] == '[' {
      BracketMuddled(n);
    } else {
      ColonsMuddled(n);
    }
  }

  lemma BracketMuddled(n: string)
    requires n != "" && n[0] == '['
    ensures HostPort(n).None? <==> Muddled(n)
  {
    var end := |Before(n, ']')|;
    assert n[..end] == Before(n, ']');
    if ']' in n {
      assert end < |n|;
      assert forall j | 0 <= j < end :: n[j] == n[..end][j];
      assert forall j | 0 <= j < end :: n[j] != ']';
      assert n[end + 1..] != "" ==> n[end + 1..][0] == n[end + 1];
      assert end + 1 < |n| && n[end + 1] != ':' ==> JunkAt(n, end);
      assert forall k: nat | JunkAt(n, k) :: k == end;
    }
    hide Before;
  }

  lemma ColonsMuddled(n: string)
    requires n != "" && n[0] != '['
    ensures HostPort(n).None? <==> Muddled(n)
  {
    var end := |Before(n, ':')|;
    assert n[..end] == Before(n, ':');
    if ':' in n {
      assert end < |n| && After(n, ':') == n[end + 1..];
      if Has(After(n, ':'), ':') {
        var k :| 0 <= k < |n[end + 1..]| && n[end + 1..][k] == ':';
        assert n[end] == ':' && n[end + 1 + k] == ':';
      }
      assert forall j | 0 <= j < end :: n[j] == n[..end][j];
      assert forall j | 0 <= j < end :: n[j] != ':';
      forall j, k | 0 <= j < k < |n| && n[j] == ':' && n[k] == ':' ensures Has(After(n, ':'), ':') {
        assert n[end + 1..][k - end - 1] == ':';
      }
    }
    hide Before, After;
  }

  lemma AddressCut(a: Address)
    requires Addressed(a)
    ensures HostPort(AddressText(a)) == Some((HostText(a), if a.port.Some? then a.port.value else ""))
  {
    var text, port := AddressText(a), if a.port.Some? then a.port.value else "";
    if a.bracketed {
      assert Free("[" + a.host, ']');
      assert text == ("[" + a.host) + [']'] + (if a.port.Some? then ":" + a.port.value else "");
      CutFirst("[" + a.host, ']', if a.port.Some? then ":" + a.port.value else "");
      BracketCut(a.host, if a.port.Some? then ":" + port else "");
    } else {
      assert Free(a.host, ':') && a.host[0] != '[';
      if a.port.Some? {
        assert Free(port, ':');
        assert text == a.host + [':'] + port;
        CutFirst(a.host, ':', port);
        assert text[|a.host|] == ':';
      }
    }
    hide Before, After;
  }

  lemma BracketCut(host: string, rest: string)
    ensures var s := ("[" + host) + [']'] + rest;
            s[..|host| + 2] == "[" + host + "]" && s[|host| + 2..] == rest
  {
  }

  lemma AddressEnds(a: Address)
    requires Addressed(a)
    ensures var s := AddressText(a); Free(s, '@') && Printable(s) && s != "" && s[|s| - 1] != '/'
  {
    assert forall k | 0 <= k < |AddressText(a)| :: WordChar(AddressText(a)[k]) || AddressText(a)[k] in {':', '[', ']'};
  }

  lemma BracketsStripped(host: string, drop: char -> bool)
    requires host != "" && drop('[') && drop(']') && !drop(host[0]) && !drop(host[|host| - 1])
    ensures Strip("[" + host + "]", drop) == host
  {
    var h, rest := "[" + host + "]", host + "]";
    assert h[0] == '[' && h[1..] == rest && rest[0] == host[0];
    assert StripLeft(rest, drop) == rest;
    assert StripLeft(h, drop) == rest;
    assert rest[|rest| - 1] == ']' && rest[..|rest| - 1] == host;
    assert StripRight(host, drop) == host;
  }

  lemma HostStripped(lib: UrlLib, a: Address)
    requires Lawful(lib) && Addressed(a)
    ensures Strip(Trimmed(lib, HostText(a)), c => c == '[' || c == ']') == a.host
    ensures Strip(a.host, lib.names.space) == a.host
  {
    var drop := c => c == '[' || c == ']';
    AddressEnds(a.(port := None));
    WordTrimmed(lib, HostText(a));
    WordTrimmed(lib, a.host);
    if a.bracketed {
      BracketsStripped(a.host, drop);
    } else {
      StripFix(a.host, drop);
    }
  }

  lemma HostCleaned(lib: UrlLib, a: Address)
    requires Strip(a.host, lib.names.space) == a.host
    ensures CleanedHost(lib.names, a.host) == HostRead(lib, a.host)
  {
    hide Strip;
  }

  function PortRead(lib: UrlLib, a: Address, defaultPort: int): Option<int> {
    if a.port.Some? then lib.parseInt(a.port.value) else Some(defaultPort)
  }

  lemma EndpointIs(lib: UrlLib, a: Address, whole: string, defaultPort: int)
    requires Lawful(lib) && Addressed(a) && Trimmed(lib, whole) == whole
             && whole[LastCut(whole, '@')..] == AddressText(a)
    ensures var port := PortRead(lib, a, defaultPort);
            EndpointFromNetloc(lib, whole, defaultPort)
            == if |a.host| > 253 || port.None? || !(0 < port.value < 65536) then Err(Malformed)
               else Ok(Endpoint(HostRead(lib, a.host), port.value, None))
  {
    AddressCut(a);
    HostStripped(lib, a);
    HostCleaned(lib, a);
    hide HostPort, LastCut, Strip, AddressText, HostText, Lawful, CleanedHost, HostRead;
  }

  /** The endpoint of a location that is read as an address; there is none exactly when it cannot be dialled. */
  lemma EndpointMade(lib: UrlLib, a: Address, whole: string, defaultPort: int)
    requires Lawful(lib) && Addressed(a) && Trimmed(lib, whole) == whole
             && whole[LastCut(whole, '@')..] == AddressText(a)
    ensures forall host, port | Dials(lib, a, defaultPort, host, port) ::
              EndpointFromNetloc(lib, whole, defaultPort) == Ok(Endpoint(host, port, None))
    ensures Undialable(lib, a) ==> EndpointFromNetloc(lib, whole, defaultPort) == Err(Malformed)
  {
    EndpointIs(lib, a, whole, defaultPort);
    hide EndpointFromNetloc, LastCut, AddressText, Lawful, HostRead, Trimmed, Addressed;
  }

  lemma InfoCut(a: Authority, rest: string)
    requires Free(rest, '@')
    ensures var n := (if a.signed then UserInfo(a) + "@" else "") + rest;
            && LastCut(n, '@') == InfoEnd(a) && n[InfoEnd(a)..] == rest
            && (a.signed ==> n[..|UserInfo(a)|] == UserInfo(a))
  {
    if a.signed {
      assert UserInfo(a) + "@" + rest == UserInfo(a) + ['@'] + rest;
      LastCutJoin(UserInfo(a), '@', rest);
      CutAt(UserInfo(a), '@', rest);
    } else {
      assert "" + rest == rest;
      LastCutNone(rest, '@');
    }
    hide LastCut, UserInfo;
  }

  /** User info and address of a location, as `rpartition` and `rsplit` cut it. */
  lemma LocationCut(lib: UrlLib, a: Authority)
    requires Lawful(lib) && Composed(a)
    ensures var n := Location(a);
            && Trimmed(lib, n) == n && LastCut(n, '@') == InfoEnd(a)
            && (a.signed ==> n[..|UserInfo(a)|] == UserInfo(a)) && n[InfoEnd(a)..] == AddressText(a.address)
  {
    NetlocPlaced(a.(slashes := 0));
    assert Netloc(a.(slashes := 0)) == Location(a);
    AddressEnds(a.address);
    WordTrimmed(lib, Location(a));
    InfoCut(a, AddressText(a.address));
    hide *;
  }

  lemma {:induction false} SlashesStripped(s: string, n: nat)
    requires s != "" && s[|s| - 1] != '/'
    ensures StripRight(s + Slashes(n), c => c == '/') == s
  {
    if n == 0 {
      assert s + Slashes(0) == s;
    } else {
      var t := s + Slashes(n);
      SlashesStripped(s, n - 1);
      assert t[..|t| - 1] == s + Slashes(n - 1) && t[|t| - 1] == '/';
    }
  }

  /** The same with slashes behind, which are dropped. */
  lemma NetlocCut(lib: UrlLib, a: Authority)
    requires Lawful(lib) && Composed(a)
    ensures var n := Netloc(a);
            && LastCut(n, '@') == InfoEnd(a) && (a.signed ==> n[..|UserInfo(a)|] == UserInfo(a))
            && StripRight(n[InfoEnd(a)..], c => c == '/') == AddressText(a.address)
  {
    var rest := AddressText(a.address) + Slashes(a.slashes);
    AddressEnds(a.address);
    SlashesStripped(AddressText(a.address), a.slashes);
    assert Free(rest, '@');
    assert Netloc(a) == (if a.signed then UserInfo(a) + "@" else "") + rest;
    InfoCut(a, rest);
    hide *;
  }

  lemma BareCut(lib: UrlLib, a: Address)
    requires Lawful(lib) && Addressed(a)
    ensures var s := AddressText(a);
            Trimmed(lib, s) == s && s[LastCut(s, '@')..] == s && StripRight(s, c => c == '/') == s
  {
    AddressEnds(a);
    WordTrimmed(lib, AddressText(a));
    LastCutNone(AddressText(a), '@');
  }

  /** User, password and endpoint as the parsers take them. */
  lemma UserHostOf(lib: UrlLib, link: string, a: Authority, defaultPort: int)
    requires Lawful(lib) && Composed(a) && MainOf(link) == Netloc(a)
    ensures forall host, port | Dials(lib, a.address, defaultPort, host, port) ::
              SplitUserinfoHostport(lib, link, defaultPort)
              == Ok(UserHost(a.user, PasswordText(a), Endpoint(host, port, None)))
    ensures Undialable(lib, a.address) ==> SplitUserinfoHostport(lib, link, defaultPort) == Err(Malformed)
  {
    NetlocCut(lib, a);
    BareCut(lib, a.address);
    UserCut(a);
    SplitIs(lib, link, a, defaultPort);
    EndpointMade(lib, a.address, AddressText(a.address), defaultPort);
    hide *;
  }

  lemma SplitIs(lib: UrlLib, link: string, a: Authority, defaultPort: int)
    requires Lawful(lib) && Composed(a) && MainOf(link) == Netloc(a)
    ensures SplitUserinfoHostport(lib, link, defaultPort)
            == match EndpointFromNetloc(lib, AddressText(a.address), defaultPort) {
                 case Err(e) => Err(e)
                 case Ok(ep) => Ok(UserHost(a.user, PasswordText(a), ep))
               }
  {
    NetlocCut(lib, a);
    BareCut(lib, a.address);
    UserCut(a);
    hide LastCut, StripRight, EndpointFromNetloc, MainOf, Composed, Netloc, UserInfo, AddressText, PasswordText, Lawful;
  }

  lemma CutAt(a: string, c: char, b: string)
    ensures (a + [c] + b)[..|a|] == a && (a + [c] + b)[|a| + 1..] == b
  {
  }

  lemma UserCut(a: Authority)
    requires Composed(a)
    ensures var ui := UserInfo(a);
            var colon := LastCut(ui, ':');
            && (if colon == 0 then ui else ui[..colon - 1]) == a.user
            && (if colon == 0 then "" else ui[colon..]) == PasswordText(a)
            && Before(ui, ':') == a.user && After(ui, ':') == PasswordText(a)
  {
    assert Free(a.user, ':');
    if a.pwd.Some? {
      assert Free(a.pwd.value, ':') && UserInfo(a) == a.user + [':'] + a.pwd.value;
      LastCutJoin(a.user, ':', a.pwd.value);
      CutAt(a.user, ':', a.pwd.value);
      CutFirst(a.user, ':', a.pwd.value);
    } else {
      LastCutNone(a.user, ':');
      CutFirst(a.user, ':', "");
    }
    hide LastCut, Before, After;
  }
}

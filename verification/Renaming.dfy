/** Which parts of a link its parsed node depends on: renaming and reordering keep its identity. */
module Renaming {
  import opened Common
  import opened Model
  import opened Text
  import opened Parsing

  // ---------------------------------------------------------------------------
  // Where the parsers look
  // ---------------------------------------------------------------------------

  predicate Breaks(c: char) {
    c in {'\t', '\r', '\n'}
  }

  function Unbroken(s: string): string {
    Keep(s, c => c !in {'\t', '\r', '\n'})
  }

  lemma CleanedJoin(a: string, c: char, b: string)
    requires a != "" && a[0] > ' ' && c !in {'\t', '\r', '\n'}
    ensures Cleaned(a + [c] + b) == Cleaned(a) + [c] + Unbroken(b)
  {
    var keep := c => c !in {'\t', '\r', '\n'};
    assert StripLeft(a, c => c <= ' ') == a && StripLeft(a + [c] + b, c => c <= ' ') == a + [c] + b;
    KeepAppend(a + [c], b, keep);
    KeepAppend(a, [c], keep);
    assert Keep([c], keep) == [c] by { assert [c][1..] == ""; }
  }

  lemma BeforeJoin(a: string, b: string, c: char)
    ensures Has(a, c) ==> |Before(a, c)| < |a| && Before(a + b, c) == Before(a, c)
    ensures Free(a, c) ==> |Before(a + b, c)| >= |a|
  {
    var r := Before(a, c);
    if Has(a, c) {
      var k :| 0 <= k < |a| && a[k] == c;
      assert forall m | 0 <= m < |r| :: a[m] == r[m] != c;
      assert (a + b)[..|r|] == r;
      BeforeUnique(a + b, c, r);
    } else {
      assert forall k | 0 <= k < |a| :: (a + b)[k] == a[k];
    }
  }

  lemma NotPrefix(t: string, sub: string, k: nat)
    requires k < |sub| && k < |t| && t[k] != sub[k]
    ensures !StartsWith(t, sub)
  {
    assert |sub| <= |t| ==> t[..|sub|][k] == t[k];
  }

  /** The scheme of a text, if it has one. */
  predicate Schemed(s: string) {
    |Before(s, ':')| < |s| && SchemeText(Before(s, ':'))
  }

  lemma SchemedCut(s: string, c: char, y: string)
    requires MainEnd(c)
    ensures Schemed(s + [c] + y) <==> Schemed(s)
    ensures Schemed(s) ==> Before(s + [c] + y, ':') == Before(s, ':')
  {
    var t := s + [c] + y;
    BeforeJoin(s, [c] + y, ':');
    assert t == s + ([c] + y);
    if Has(s, ':') {
    } else {
      assert Free(s, ':') && |Before(s, ':')| == |s|;
      var b := Before(t, ':');
      assert |b| > |s| ==> b[|s|] == t[|s|] == c && !SchemeChar(b[|s|]);
      assert t[|s|] == c;
    }
  }

  /** What follows the scheme. */
  function Rest(s: string): string {
    if Schemed(s) then s[|Before(s, ':')| + 1..] else s
  }

  function Located(rest: string): (string, string) {
    if StartsWith(rest, "//") then
      var netloc := UpTo(rest[2..], NetlocEnd);
      (netloc, rest[2 + |netloc|..])
    else ("", rest)
  }

  lemma FrontIs(s: string)
    ensures Front(s) == (if Schemed(s) then Before(s, ':') else "", Located(Rest(s)).0, Located(Rest(s)).1)
  {
    assert s[..|Before(s, ':')|] == Before(s, ':');
  }

  lemma LocatedCut(rest: string, c: char, y: string)
    requires MainEnd(c)
    ensures Located(rest + [c] + y) == (Located(rest).0, Located(rest).1 + [c] + y)
  {
    RestCut(rest, c, y);
  }

  lemma RestJoin(s: string, c: char, y: string)
    requires MainEnd(c)
    ensures Rest(s + [c] + y) == Rest(s) + [c] + y
  {
    SchemedCut(s, c, y);
    hide Schemed, Before;
    var i := |Before(s, ':')|;
    if Schemed(s) {
      assert i < |s| by { SchemedLength(s); }
      assert (s + [c] + y)[i + 1..] == s[i + 1..] + [c] + y;
    }
  }

  lemma SchemedLength(s: string)
    requires Schemed(s)
    ensures |Before(s, ':')| < |s|
  {
  }

  /** A `?` or `#` after a text leaves its scheme and location alone and stays in the tail. */
  lemma FrontCut(s: string, c: char, y: string)
    requires MainEnd(c)
    ensures Front(s + [c] + y) == (Front(s).0, Front(s).1, Front(s).2 + [c] + y)
  {
    FrontIs(s);
    FrontIs(s + [c] + y);
    SchemedCut(s, c, y);
    RestJoin(s, c, y);
    hide Front, Before, Schemed, Rest, Located;
    LocatedCut(Rest(s), c, y);
  }

  lemma RestCut(rest: string, c: char, y: string)
    requires MainEnd(c)
    ensures StartsWith(rest + [c] + y, "//") <==> StartsWith(rest, "//")
    ensures StartsWith(rest, "//") ==>
              var netloc := UpTo(rest[2..], NetlocEnd);
              && UpTo((rest + [c] + y)[2..], NetlocEnd) == netloc
              && (rest + [c] + y)[2 + |netloc|..] == rest[2 + |netloc|..] + [c] + y
  {
    var t := rest + [c] + y;
    if |rest| >= 2 {
      assert t[..2] == rest[..2];
      assert t[2..] == rest[2..] + [c] + y;
      UpToCut(rest[2..], c, y, NetlocEnd);
    } else {
      NotPrefix(t, "//", |rest|);
    }
  }

  lemma CutFirst(a: string, c: char, b: string)
    requires Free(a, c)
    ensures Before(a + [c] + b, c) == a && After(a + [c] + b, c) == b
    ensures Before(a, c) == a && After(a, c) == ""
  {
    BeforeUnique(a + [c] + b, c, a);
    BeforeUnique(a, c, a);
  }

  lemma CleanedFree(s: string, c: char)
    requires Free(s, c)
    ensures Free(Cleaned(s), c)
  {
    StripLeftEnds(s, c => c <= ' ');
    KeptFree(StripLeft(s, c => c <= ' '), c);
  }

  lemma {:induction false} KeptFree(s: string, c: char)
    requires Free(s, c)
    ensures Free(Unbroken(s), c)
  {
    if s != "" {
      KeptFree(s[1..], c);
    }
  }

  lemma FrontFree(s: string, c: char)
    requires Free(s, c)
    ensures Free(Front(s).2, c)
  {
  }

  /** `urlsplit` sees a fragment only as the fragment. */
  lemma SplitIgnoresFragment(lib: UrlLib, b: string, x: string)
    requires b != "" && b[0] > ' ' && Free(b, '#')
    ensures UrlSplit(lib, b + "#" + x)
            == match UrlSplit(lib, b) { case None => None case Some(p) => Some(p.(fragment := Unbroken(x))) }
    ensures UrlSplit(lib, b).Some? ==> UrlSplit(lib, b).value.fragment == ""
  {
    var s := Cleaned(b);
    CleanedJoin(b, '#', x);
    CleanedFree(b, '#');
    FrontCut(s, '#', Unbroken(x));
    FrontFree(s, '#');
    CutFirst(Front(s).2, '#', Unbroken(x));
    hide Front, Cleaned, Before, After, Unbroken, Keep;
  }

  /** And a query only as the query. */
  lemma SplitTakesQuery(lib: UrlLib, head: string, query: string)
    requires head != "" && head[0] > ' ' && Free(head, '#') && Free(head, '?') && Free(query, '#')
             && Unbroken(query) == query
    ensures UrlSplit(lib, head + "?" + query)
            == match UrlSplit(lib, head) { case None => None case Some(p) => Some(p.(query := query)) }
  {
    var s, mark := Cleaned(head), ['?'];
    assert head + "?" + query == head + mark + query;
    CleanedJoin(head, '?', query);
    CleanedFree(head, '#');
    CleanedFree(head, '?');
    FrontCut(s, '?', query);
    FrontFree(s, '#');
    FrontFree(s, '?');
    QueryTail(Front(s).2, query);
    hide Front, Cleaned, Before, After, Unbroken, Keep, Free;
    assert Front(Cleaned(head + mark + query)) == (Front(s).0, Front(s).1, Front(s).2 + mark + query);
  }

  lemma QueryTail(tail: string, query: string)
    requires Free(tail, '#') && Free(tail, '?') && Free(query, '#')
    ensures After(Before(tail + ['?'] + query, '#'), '?') == query && After(tail + ['?'] + query, '#') == ""
    ensures After(tail, '#') == ""
  {
    var mark := ['?'];
    CutFirst(tail, '?', query);
    CutFirst(tail, '#', "");
    assert Free(tail + mark + query, '#');
    CutFirst(tail + mark + query, '#', "");
  }

  lemma MainIgnores(b: string, c: char, x: string)
    requires MainEnd(c) && Find(b, "://").Some?
    ensures MainOf(b + [c] + x) == MainOf(b)
  {
    CutAgain(b, c, x);
    AfterSchemeJoin(b, [c] + x);
    CutAgain(AfterScheme(b), c, x);
    UpToCut(AfterScheme(b), c, x, MainEnd);
    MainIs(b);
    MainIs(b + [c] + x);
    hide *;
  }

  lemma MainIs(url: string)
    ensures MainOf(url) == UpTo(AfterScheme(url), MainEnd)
  {
  }

  lemma CutAgain(a: string, c: char, x: string)
    ensures a + [c] + x == a + ([c] + x)
  {
  }

  lemma AfterSchemeJoin(b: string, y: string)
    requires Find(b, "://").Some?
    ensures AfterScheme(b + y) == AfterScheme(b) + y
  {
    FindAppend(b, y, "://");
    hide Find;
    DropInto(b, Find(b, "://").value + 3, y);
  }

  lemma DropInto(b: string, k: nat, y: string)
    requires k <= |b|
    ensures (b + y)[k..] == b[k..] + y
  {
  }

  lemma SchemeIgnores(lib: UrlLib, b: string, c: char, x: string)
    requires MainEnd(c)
    ensures SchemeOf(lib, b + [c] + x) == SchemeOf(lib, b)
  {
    var t := b + [c] + x;
    BeforeJoin(b, [c] + x, ':');
    assert t == b + ([c] + x);
    var i := |Before(b, ':')|;
    if Has(b, ':') {
      var rest := b[i..];
      assert t[i..] == rest + [c] + x;
      if |rest| >= 3 {
        assert t[i..][..3] == rest[..3];
      } else {
        NotPrefix(t[i..], "://", |rest|);
      }
    } else {
      assert Free(b, ':') && t[|b|] == c;
      var s := Before(t, ':');
      assert forall m | 0 <= m <= |b| :: t[m] != ':';
      assert s[|b|] == t[|b|] && !SchemeChar(s[|b|]);
    }
  }

  lemma {:induction false} FindPresent(s: string, sub: string, k: nat)
    requires k <= |s| && StartsWith(s[k..], sub)
    ensures Find(s, sub).Some?
  {
    assert s[0..] == s;
    if !StartsWith(s, sub) && s != "" {
      assert s[1..][k - 1..] == s[k..];
      FindPresent(s[1..], sub, k - 1);
    }
  }

  // ---------------------------------------------------------------------------
  // Parsers of links that differ in their fragment
  // ---------------------------------------------------------------------------

  /** Two links that the parsers cannot tell apart except by their text, their fragment and how their query is spelt. */
  ghost predicate Twins(lib: UrlLib, u: string, v: string) {
    && MainOf(u) == MainOf(v)
    && (UrlSplit(lib, u).None? <==> UrlSplit(lib, v).None?)
    && (UrlSplit(lib, u).Some? ==>
          var p, q := UrlSplit(lib, u).value, UrlSplit(lib, v).value;
          p.scheme == q.scheme && p.netloc == q.netloc && ParsedQuery(lib, p.query) == ParsedQuery(lib, q.query))
  }

  /** The same outcome under another text. */
  function Relabelled(r: Result<Node, ParseError>, url: string): Result<Node, ParseError> {
    match r
    case Err(e) => Err(e)
    case Ok(n) => Ok(n.(rawUrl := url))
  }

  lemma VlessRelabelled(lib: UrlLib, u: string, v: string, uuid: string, ep: Endpoint, q: map<string, string>)
    ensures VlessNode(lib, v, uuid, ep, q) == Relabelled(VlessNode(lib, u, uuid, ep, q), v)
  {
    hide CanonicalFields, Unknown, Recorded, RawTransport, TransportFrom, SecurityFrom, SafeStr, Insecure,
         ServiceName, Optional;
  }

  lemma TrojanRelabelled(lib: UrlLib, u: string, v: string, password: string, ep: Endpoint, q: map<string, string>)
    ensures TrojanNode(lib, v, password, ep, q) == Relabelled(TrojanNode(lib, u, password, ep, q), v)
  {
    hide CanonicalFields, Unknown, Recorded, RawTransport, TransportFrom, SecurityFrom, SafeStr, Insecure,
         ServiceName, Optional;
  }

  lemma Hysteria2Relabelled(lib: UrlLib, u: string, v: string, auth: string, ep: Endpoint, q: map<string, string>)
    ensures Hysteria2Node(lib, v, auth, ep, q) == Relabelled(Hysteria2Node(lib, u, auth, ep, q), v)
  {
    hide CanonicalFields, Unknown, Recorded, RawTransport, TransportFrom, SecurityFrom, SafeStr, Insecure,
         ServiceName, Optional;
  }

  lemma SocksRelabelled(lib: UrlLib, u: string, v: string, user: string, pwd: string, ep: Endpoint,
                        q: map<string, string>)
    ensures SocksNode(lib, v, user, pwd, ep, q) == Relabelled(SocksNode(lib, u, user, pwd, ep, q), v)
  {
    hide CanonicalFields, Unknown, Recorded, RawTransport, TransportFrom, SecurityFrom, SafeStr, Insecure,
         ServiceName, Optional;
  }

  lemma SsRelabelled(lib: UrlLib, u: string, v: string, cred: (string, string), ep: Endpoint, q: map<string, string>,
                     sip002: bool)
    ensures SsNode(lib, v, cred, ep, q, "", sip002) == Relabelled(SsNode(lib, u, cred, ep, q, "", sip002), v)
  {
    hide CanonicalFields, Unknown, Recorded, RawTransport, TransportFrom, SecurityFrom, SafeStr, Insecure,
         ServiceName, Optional;
  }

  lemma UserinfoTwins(lib: UrlLib, u: string, v: string, defaultPort: int)
    requires MainOf(u) == MainOf(v)
    ensures SplitUserinfoHostport(lib, u, defaultPort) == SplitUserinfoHostport(lib, v, defaultPort)
  {
  }

  lemma VlessTwins(lib: UrlLib, u: string, v: string)
    requires Twins(lib, u, v)
    ensures ParseVless(lib, v) == Relabelled(ParseVless(lib, u), v)
  {
    UserinfoTwins(lib, u, v, 443);
    hide *;
    VlessSame(lib, u, v);
  }

  lemma VlessSame(lib: UrlLib, u: string, v: string)
    requires Twins(lib, u, v) && SplitUserinfoHostport(lib, u, 443) == SplitUserinfoHostport(lib, v, 443)
    ensures ParseVless(lib, v) == Relabelled(ParseVless(lib, u), v)
  {
    hide UrlSplit, SplitUserinfoHostport, VlessNode, ParsedQuery, MainOf, PercentDecode, Has;
    var p, x := UrlSplit(lib, u), SplitUserinfoHostport(lib, u, 443);
    if p.None? || x.Err? {
      return;
    }
    VlessRelabelled(lib, u, v, PercentDecode(lib, x.value.user), x.value.endpoint, ParsedQuery(lib, p.value.query));
  }

  lemma TrojanTwins(lib: UrlLib, u: string, v: string)
    requires Twins(lib, u, v)
    ensures ParseTrojan(lib, v) == Relabelled(ParseTrojan(lib, u), v)
  {
    UserinfoTwins(lib, u, v, 443);
    hide *;
    TrojanSame(lib, u, v);
  }

  lemma TrojanSame(lib: UrlLib, u: string, v: string)
    requires Twins(lib, u, v) && SplitUserinfoHostport(lib, u, 443) == SplitUserinfoHostport(lib, v, 443)
    ensures ParseTrojan(lib, v) == Relabelled(ParseTrojan(lib, u), v)
  {
    hide UrlSplit, SplitUserinfoHostport, TrojanNode, ParsedQuery, MainOf, PercentDecode, Has;
    var p, x := UrlSplit(lib, u), SplitUserinfoHostport(lib, u, 443);
    if p.None? || x.Err? {
      return;
    }
    var user := PercentDecode(lib, x.value.user);
    var password := if x.value.pwd != "" then user + ":" + PercentDecode(lib, x.value.pwd) else user;
    TrojanRelabelled(lib, u, v, password, x.value.endpoint, ParsedQuery(lib, p.value.query));
  }

  lemma Hysteria2Twins(lib: UrlLib, u: string, v: string)
    requires Twins(lib, u, v)
    ensures ParseHysteria2(lib, v) == Relabelled(ParseHysteria2(lib, u), v)
  {
    UserinfoTwins(lib, u, v, 443);
    hide *;
    Hysteria2Same(lib, u, v);
  }

  lemma Hysteria2Same(lib: UrlLib, u: string, v: string)
    requires Twins(lib, u, v) && SplitUserinfoHostport(lib, u, 443) == SplitUserinfoHostport(lib, v, 443)
    ensures ParseHysteria2(lib, v) == Relabelled(ParseHysteria2(lib, u), v)
  {
    hide UrlSplit, SplitUserinfoHostport, Hysteria2Node, ParsedQuery, MainOf, PercentDecode, Has;
    var p, x := UrlSplit(lib, u), SplitUserinfoHostport(lib, u, 443);
    if p.None? || x.Err? {
      return;
    }
    var user := PercentDecode(lib, x.value.user);
    var auth := if x.value.pwd == "" then user
                else if user != "" then user + ":" + PercentDecode(lib, x.value.pwd)
                else PercentDecode(lib, x.value.pwd);
    Hysteria2Relabelled(lib, u, v, auth, x.value.endpoint, ParsedQuery(lib, p.value.query));
  }

  lemma SocksTwins(lib: UrlLib, u: string, v: string)
    requires Twins(lib, u, v)
    ensures ParseSocks(lib, v) == Relabelled(ParseSocks(lib, u), v)
  {
    UserinfoTwins(lib, u, v, 1080);
    hide *;
    SocksSame(lib, u, v);
  }

  lemma SocksSame(lib: UrlLib, u: string, v: string)
    requires Twins(lib, u, v) && SplitUserinfoHostport(lib, u, 1080) == SplitUserinfoHostport(lib, v, 1080)
    ensures ParseSocks(lib, v) == Relabelled(ParseSocks(lib, u), v)
  {
    hide UrlSplit, SplitUserinfoHostport, SocksNode, ParsedQuery, MainOf, PercentDecode, Has;
    var p, x := UrlSplit(lib, u), SplitUserinfoHostport(lib, u, 1080);
    if p.None? || x.Err? {
      return;
    }
    SocksRelabelled(lib, u, v, PercentDecode(lib, x.value.user), PercentDecode(lib, x.value.pwd), x.value.endpoint,
                    ParsedQuery(lib, p.value.query));
  }

  /** A shadowsocks link in the pre-SIP002 form. */
  ghost predicate LegacySs(lib: UrlLib, u: string) {
    SchemeOf(lib, u) == Some("ss") && UrlSplit(lib, u).Some? && LegacyNetloc(UrlSplit(lib, u).value.netloc)
  }

  lemma SsTwins(lib: UrlLib, u: string, v: string)
    requires Twins(lib, u, v) && (UrlSplit(lib, u).Some? ==> !LegacyNetloc(UrlSplit(lib, u).value.netloc))
    ensures ParseSs(lib, v) == Relabelled(ParseSs(lib, u), v)
  {
    hide UrlSplit, SsNode, ParsedQuery, PercentDecode, EndpointFromNetloc, Sip002Credentials, NetlocUser,
         LegacyNetloc, LegacyPayload;
    var p := UrlSplit(lib, u);
    if p.Some? {
      var (user, pwd) := NetlocUser(p.value.netloc);
      var cred := Sip002Credentials(lib, if user != "" && pwd != "" then user + ":" + pwd else user);
      var ep := EndpointFromNetloc(lib, p.value.netloc, 443);
      if cred.Some? && ep.Ok? {
        SsRelabelled(lib, u, v, cred.value, ep.value, ParsedQuery(lib, p.value.query), true);
      }
    }
  }

  lemma ParsersTwins(lib: UrlLib, scheme: string, u: string, v: string)
    requires Twins(lib, u, v) && scheme != "vmess"
    requires scheme == "ss" && UrlSplit(lib, u).Some? ==> !LegacyNetloc(UrlSplit(lib, u).value.netloc)
    ensures ParseByScheme(lib, scheme, v) == Relabelled(ParseByScheme(lib, scheme, u), v)
  {
    hide ParseVless, ParseTrojan, ParseHysteria2, ParseSocks, ParseSs, Twins, UrlSplit, LegacyNetloc;
    VlessTwins(lib, u, v);
    TrojanTwins(lib, u, v);
    Hysteria2Twins(lib, u, v);
    SocksTwins(lib, u, v);
    if scheme == "ss" {
      SsTwins(lib, u, v);
    }
  }

  lemma FragmentTwins(lib: UrlLib, b: string, x: string)
    requires b != "" && b[0] > ' ' && Free(b, '#') && SchemeOf(lib, b).Some?
    ensures Twins(lib, b, b + "#" + x) && Twins(lib, b + "#" + x, b)
    ensures SchemeOf(lib, b + "#" + x) == SchemeOf(lib, b)
  {
    SplitIgnoresFragment(lib, b, x);
    SchemeIgnores(lib, b, '#', x);
    FindPresent(b, "://", |Before(b, ':')|);
    MainIgnores(b, '#', x);
  }

  // ---------------------------------------------------------------------------
  // Renaming
  // ---------------------------------------------------------------------------

  /** `str.strip` keeps printable ASCII. */
  ghost predicate Lawful(lib: UrlLib) {
    forall c | '!' <= c <= '~' :: !lib.names.space(c)
  }

  predicate Printable(s: string) {
    forall k | 0 <= k < |s| :: '!' <= s[k] <= '~'
  }

  /** A link under a new name: everything before its `#`, and another fragment. */
  function Renamed(url: string, fragment: string): string {
    Before(url, '#') + "#" + fragment
  }

  /** The stripped text of an accepted link, split at its `#`. */
  lemma AcceptedBody(lib: UrlLib, u: string)
    requires SchemeOf(lib, u).Some?
    ensures var b := Before(u, '#'); b != "" && b[0] > ' ' && b[0] <= '~' && b[0] >= '!' && Free(b, '#')
    ensures u == Before(u, '#') || u == Before(u, '#') + "#" + After(u, '#')
  {
    var b := Before(u, '#');
    assert SchemeText(Before(u, ':'));
    assert u[0] == Before(u, ':')[0];
    assert |b| < |u| ==> u == u[..|b|] + [u[|b|]] + u[|b| + 1..];
  }

  lemma BodyTwins(lib: UrlLib, u: string, x: string)
    requires SchemeOf(lib, u).Some?
    ensures Twins(lib, u, Renamed(u, x)) && SchemeOf(lib, Renamed(u, x)) == SchemeOf(lib, u)
    ensures UrlSplit(lib, Renamed(u, x)).Some? ==> UrlSplit(lib, Renamed(u, x)).value.fragment == Unbroken(x)
    ensures UrlSplit(lib, u).Some? ==> UrlSplit(lib, u).value.fragment == Unbroken(After(u, '#'))
  {
    var b := Before(u, '#');
    AcceptedBody(lib, u);
    assert SchemeOf(lib, b).Some? by {
      if u != b {
        SchemeIgnores(lib, b, '#', After(u, '#'));
      }
    }
    FragmentTwins(lib, b, x);
    FragmentTwins(lib, b, After(u, '#'));
    SplitIgnoresFragment(lib, b, x);
    SplitIgnoresFragment(lib, b, After(u, '#'));
    assert u == b ==> After(u, '#') == "" by { CutFirst(b, '#', ""); }
  }

  lemma RenamedStripped(lib: UrlLib, u: string, x: string)
    requires Lawful(lib) && SchemeOf(lib, u).Some? && Printable(x)
    ensures Trimmed(lib, Renamed(u, x)) == Renamed(u, x)
  {
    AcceptedBody(lib, u);
    var r := Renamed(u, x);
    assert r[0] == Before(u, '#')[0];
    assert r[|r| - 1] == if x == "" then '#' else x[|x| - 1];
    StripFix(r, lib.names.space);
  }

  lemma SplitNeeded(lib: UrlLib, scheme: string, u: string)
    requires ParseByScheme(lib, scheme, u).Ok? && scheme != "vmess"
    ensures UrlSplit(lib, u).Some?
  {
    hide UrlSplit, VlessNode, TrojanNode, Hysteria2Node, SocksNode, SsNode, SplitUserinfoHostport, ParsedQuery,
         PercentDecode;
  }

  /** The protocol a link was parsed as tells its scheme apart from vmess. */
  lemma SchemeProtocol(lib: UrlLib, scheme: string, u: string)
    requires ParseByScheme(lib, scheme, u).Ok?
    ensures scheme == "vmess" <==> ParseByScheme(lib, scheme, u).value.protocol == VMESS
  {
    hide UrlSplit, SplitUserinfoHostport, ParsedQuery, PercentDecode, CanonicalFields, Streamed, Unknown, Recorded,
         RawTransport, ServiceName, Optional,
         LegacyPayload, Sip002Credentials, EndpointFromNetloc;
    StreamedProtocol(lib);
  }

  lemma StreamedProtocol(lib: UrlLib)
    ensures forall n, q :: Streamed(lib, n, q).protocol == n.protocol
  {
    hide TransportFrom, SecurityFrom, SafeStr, Insecure;
  }

  /**
   * Renaming keeps the configuration: a link of any protocol but vmess, and of any form
   * but legacy shadowsocks, parses under its new fragment to the same node except for
   * the raw text and the display name.
   */
  lemma RenameKeepsIdentity(lib: UrlLib, url: string, fragment: string)
    requires Lawful(lib) && Printable(fragment)
    requires ParseUrl(lib, url).Ok? && ParseUrl(lib, url).value.protocol != VMESS && !LegacySs(lib, Trimmed(lib, url))
    requires |Renamed(Trimmed(lib, url), fragment)| <= MAX_URL_LEN
    ensures var r := Renamed(Trimmed(lib, url), fragment);
            && ParseUrl(lib, r).Ok?
            && ParseUrl(lib, r).value == ParseUrl(lib, url).value.(rawUrl := r,
                                                                   outputName := ParseUrl(lib, r).value.outputName)
            && KeyOf(ParseUrl(lib, r).value) == KeyOf(ParseUrl(lib, url).value)
  {
    hide ParseByScheme, UrlSplit, FragmentName, SchemeOf, Twins, LegacyNetloc, Strip;
    var u := Trimmed(lib, url);
    var r := Renamed(u, fragment);
    var scheme := SchemeOf(lib, u).value;
    SchemeProtocol(lib, scheme, u);
    BodyTwins(lib, u, fragment);
    RenamedStripped(lib, u, fragment);
    ParsersTwins(lib, scheme, u, r);
    SplitNeeded(lib, scheme, r);
    assert r != "";
    PlainNames(lib, scheme, u);
    PlainNames(lib, scheme, r);
  }

  /** Only vmess links bring a display name of their own. */
  lemma PlainNames(lib: UrlLib, scheme: string, u: string)
    requires ParseByScheme(lib, scheme, u).Ok? && scheme != "vmess"
    ensures ParseByScheme(lib, scheme, u).value.outputName == "" && ParseByScheme(lib, scheme, u).value.rawUrl == u
  {
    hide UrlSplit, SplitUserinfoHostport, ParsedQuery, PercentDecode, CanonicalFields, TransportFrom, SecurityFrom,
         SafeStr, Insecure, Unknown, Recorded,
         RawTransport, ServiceName, Optional, LegacyPayload, Sip002Credentials, EndpointFromNetloc;
  }

  /** The parser is faithful to its input: the node records the stripped line it was read from. */
  lemma ParserFaithful(lib: UrlLib, url: string)
    requires ParseUrl(lib, url).Ok?
    ensures ParseUrl(lib, url).value.rawUrl == Trimmed(lib, url)
  {
    hide ParseVless, ParseTrojan, ParseHysteria2, ParseSocks, ParseSs, UrlSplit, FragmentName, SchemeOf, Strip;
    var u := Trimmed(lib, url);
    var scheme := SchemeOf(lib, u).value;
    if scheme != "vmess" {
      PlainNames(lib, scheme, u);
    }
  }

  /** The parser measures nothing. */
  lemma ParsedUnmeasured(lib: UrlLib, url: string)
    requires ParseUrl(lib, url).Ok?
    ensures Unmeasured(ParseUrl(lib, url).value)
  {
    hide ParseVless, ParseSs, ParseTrojan, ParseHysteria2, ParseSocks, UrlSplit, FragmentName, SchemeOf, Strip;
    var u := Trimmed(lib, url);
    FreshParses(lib, u);
  }

  lemma FreshParses(lib: UrlLib, u: string)
    ensures ParseVless(lib, u).Ok? ==> Unmeasured(ParseVless(lib, u).value)
    ensures ParseTrojan(lib, u).Ok? ==> Unmeasured(ParseTrojan(lib, u).value)
    ensures ParseHysteria2(lib, u).Ok? ==> Unmeasured(ParseHysteria2(lib, u).value)
    ensures ParseSocks(lib, u).Ok? ==> Unmeasured(ParseSocks(lib, u).value)
    ensures ParseSs(lib, u).Ok? ==> Unmeasured(ParseSs(lib, u).value)
  {
    hide UrlSplit, SplitUserinfoHostport, ParsedQuery, PercentDecode, CanonicalFields, TransportFrom, SecurityFrom,
         SafeStr,
         Insecure, Unknown, Recorded, RawTransport, ServiceName, Optional, LegacyPayload, Sip002Credentials,
         EndpointFromNetloc;
  }
}

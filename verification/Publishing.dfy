/** From ranked entries to files: rendered links keep their configuration, and which bundles can be published. */
module Publishing {
  import opened Common
  import opened Model
  import opened Text
  import Sorting
  import Scoring
  import opened Output
  import opened Groups
  import opened Paths
  import opened Writer
  import Encoding
  import Parsing
  import Renaming
  import Queries

  // ---------------------------------------------------------------------------
  // Printer and parser
  // ---------------------------------------------------------------------------

  lemma QuotePrintable(name: string)
    ensures Renaming.Printable(Encoding.Quote(name))
  {
  }

  lemma QuoteNonempty(name: string)
    requires name != ""
    ensures Encoding.Quote(name) != ""
  {
    assert Encoding.Utf8(name) != [];
  }

  /** What the renderer makes of an entry that carries the raw text of a parsed link. */
  lemma RenderedIsRenamed(ulib: Parsing.UrlLib, lib: OutputLib, url: string, e: Entry, p: OutputPolicy)
    requires Parsing.ParseUrl(ulib, url).Ok? && e.node.rawUrl == Parsing.ParseUrl(ulib, url).value.rawUrl
    requires e.node.protocol != VMESS && RenderLink(lib, e, p).Ok?
    ensures RenderLink(lib, e, p).value
            == Renaming.Renamed(Parsing.Trimmed(ulib, url), Encoding.Quote(BrandName(lib, e, p)))
  {
    Renaming.ParserFaithful(ulib, url);
    hide Parsing.ParseUrl, BrandName, Encoding.Quote;
  }

  /**
   * Printer and parser agree: whatever geography, latency and policy shape its name, the
   * link rendered from a parsed node parses back to the same configuration.
   */
  lemma RenderKeepsIdentity(ulib: Parsing.UrlLib, lib: OutputLib, url: string, e: Entry, p: OutputPolicy)
    requires Renaming.Lawful(ulib) && Parsing.ParseUrl(ulib, url).Ok?
             && !Renaming.LegacySs(ulib, Parsing.Trimmed(ulib, url))
    requires var n := Parsing.ParseUrl(ulib, url).value;
             n.protocol != VMESS && e.node.rawUrl == n.rawUrl && e.node.protocol == n.protocol
    requires RenderLink(lib, e, p).Ok? && |RenderLink(lib, e, p).value| <= Parsing.MAX_URL_LEN
    ensures var link := RenderLink(lib, e, p).value;
            Parsing.ParseUrl(ulib, link).Ok?
                && KeyOf(Parsing.ParseUrl(ulib, link).value) == KeyOf(Parsing.ParseUrl(ulib, url).value)
  {
    RenderedIsRenamed(ulib, lib, url, e, p);
    hide Parsing.ParseUrl, BrandName, Encoding.Quote, RenderLink, Renaming.LegacySs;
    QuotePrintable(BrandName(lib, e, p));
    Renaming.RenameKeepsIdentity(ulib, url, Encoding.Quote(BrandName(lib, e, p)));
  }

  /** A legacy shadowsocks link keeps its configuration exactly when its old name already reads as the new one. */
  lemma LegacyRenderExactly(ulib: Parsing.UrlLib, lib: OutputLib, url: string, e: Entry, p: OutputPolicy)
    requires Renaming.Lawful(ulib) && Parsing.ParseUrl(ulib, url).Ok?
             && Renaming.LegacySs(ulib, Parsing.Trimmed(ulib, url))
    requires var n := Parsing.ParseUrl(ulib, url).value;
             n.protocol != VMESS && e.node.rawUrl == n.rawUrl && e.node.protocol == n.protocol
    requires RenderLink(lib, e, p).Ok? && |RenderLink(lib, e, p).value| <= Parsing.MAX_URL_LEN
    ensures var link := RenderLink(lib, e, p).value;
            var former := Parsing.UrlSplit(ulib, Parsing.Trimmed(ulib, url)).value.fragment;
            && Parsing.ParseUrl(ulib, link).Ok?
            && (KeyOf(Parsing.ParseUrl(ulib, link).value) == KeyOf(Parsing.ParseUrl(ulib, url).value)
                <==> former != "" && Parsing.PercentDecode(ulib, former)
                     == Parsing.PercentDecode(ulib, Encoding.Quote(BrandName(lib, e, p))))
  {
    RenderedIsRenamed(ulib, lib, url, e, p);
    hide Parsing.ParseUrl, BrandName, Encoding.Quote, RenderLink, Parsing.PercentDecode;
    QuotePrintable(BrandName(lib, e, p));
    QuoteNonempty(BrandName(lib, e, p));
    Queries.LegacyRenameExactly(ulib, url, Encoding.Quote(BrandName(lib, e, p)));
  }

  // ---------------------------------------------------------------------------
  // Links that parse but cannot be printed
  // ---------------------------------------------------------------------------

  /** An accepted link always has a text before its fragment, so only a control character there refuses it. */
  lemma PrintableExactly(ulib: Parsing.UrlLib, url: string)
    requires Parsing.ParseUrl(ulib, url).Ok?
    ensures LinkBody(Parsing.ParseUrl(ulib, url).value)
            == var body := Before(Parsing.Trimmed(ulib, url), '#');
               if Controlled(body) then Err(UnsafeText) else Ok(body)
  {
    Renaming.ParserFaithful(ulib, url);
    var u := Parsing.Trimmed(ulib, url);
    assert Parsing.SchemeOf(ulib, u).Some? by { hide Parsing.ParseByScheme, Parsing.UrlSplit, Parsing.SchemeOf; }
    hide Parsing.ParseUrl, Controlled;
    Renaming.AcceptedBody(ulib, u);
  }

  /** `urlsplit` drops tabs and line breaks wherever they are. */
  lemma CleanedIgnores(a: string, c: char, b: string)
    requires a != "" && a[0] > ' ' && Renaming.Breaks(c)
    ensures Parsing.Cleaned(a + "?" + [c] + b) == Parsing.Cleaned(a + "?" + b)
  {
    Renaming.CleanedJoin(a, '?', [c] + b);
    Renaming.CleanedJoin(a, '?', b);
    assert ([c] + b)[1..] == b;
    assert a + "?" + [c] + b == a + ['?'] + ([c] + b) && a + "?" + b == a + ['?'] + b;
  }

  lemma BreakTwins(ulib: Parsing.UrlLib, head: string, c: char, query: string)
    requires Queries.LinkHead(head) && Renaming.Breaks(c)
    ensures var u, v := head + "?" + query, head + "?" + [c] + query;
            && Renaming.Twins(ulib, u, v) && Parsing.UrlSplit(ulib, u) == Parsing.UrlSplit(ulib, v)
            && Parsing.SchemeOf(ulib, u) == Parsing.SchemeOf(ulib, v) == Parsing.SchemeOf(ulib, head)
  {
    CleanedIgnores(head, c, query);
    assert head + "?" + [c] + query == head + ['?'] + ([c] + query) && head + "?" + query == head + ['?'] + query;
    Renaming.MainIgnores(head, '?', query);
    Renaming.MainIgnores(head, '?', [c] + query);
    Renaming.SchemeIgnores(ulib, head, '?', query);
    Renaming.SchemeIgnores(ulib, head, '?', [c] + query);
  }

  lemma PrintableStripped(ulib: Parsing.UrlLib, s: string)
    requires Renaming.Lawful(ulib) && s != "" && '!' <= s[0] <= '~' && '!' <= s[|s| - 1] <= '~'
    ensures Parsing.Trimmed(ulib, s) == s
  {
    StripFix(s, ulib.names.space);
  }

  /**
   * One tab (or line break) behind the `?` of an accepted link changes nothing for the parser
   * but the raw text, and then no entry with that raw text can be rendered any more.
   */
  lemma TabbedLinkRefused(ulib: Parsing.UrlLib, lib: OutputLib, head: string, c: char, query: string, e: Entry,
                          p: OutputPolicy)
    requires Renaming.Lawful(ulib) && Queries.LinkHead(head) && Renaming.Breaks(c)
    requires Renaming.Printable(head) && query != "" && Renaming.Printable(query)
    requires var u, v := head + "?" + query, head + "?" + [c] + query;
             && Parsing.ParseUrl(ulib, u).Ok? && Parsing.ParseUrl(ulib, u).value.protocol != VMESS
             && !Renaming.LegacySs(ulib, u) && |v| <= Parsing.MAX_URL_LEN && e.node.rawUrl == v
    ensures var u, v := head + "?" + query, head + "?" + [c] + query;
            && Parsing.ParseUrl(ulib, v) == Ok(Parsing.ParseUrl(ulib, u).value.(rawUrl := v))
            && RenderLink(lib, e, p) == Err(UnsafeText)
  {
    var u, v := head + "?" + query, head + "?" + [c] + query;
    PrintableStripped(ulib, u);
    PrintableStripped(ulib, v);
    BreakTwins(ulib, head, c, query);
    TabbedBody(head, c, query);
    hide Parsing.ParseUrl, RenderLink, Renaming.Twins, Parsing.UrlSplit, Parsing.SchemeOf, Renaming.LegacySs,
         Controlled;
    hide Queries.LinkHead, Renaming.Printable, Parsing.Trimmed;
    TabbedParse(ulib, Parsing.SchemeOf(ulib, head).value, u, v);
    UnsafeRefused(lib, e, p);
  }

  lemma TabbedBody(head: string, c: char, query: string)
    requires Renaming.Breaks(c) && Free(head, '#')
    ensures Controlled(Before(head + "?" + [c] + query, '#'))
  {
    var v := head + "?" + [c] + query;
    assert v[|head| + 1] == c && forall k | 0 <= k < |head| + 2 :: v[k] != '#';
    assert Before(v, '#')[|head| + 1] == c;
  }

  lemma UnsafeRefused(lib: OutputLib, e: Entry, p: OutputPolicy)
    requires Controlled(Before(e.node.rawUrl, '#'))
    ensures RenderLink(lib, e, p) == Err(UnsafeText)
  {
  }

  lemma TabbedParse(ulib: Parsing.UrlLib, scheme: string, u: string, v: string)
    requires Renaming.Twins(ulib, u, v) && Parsing.UrlSplit(ulib, u) == Parsing.UrlSplit(ulib, v)
    requires Parsing.SchemeOf(ulib, u) == Parsing.SchemeOf(ulib, v) == Some(scheme)
    requires Parsing.Trimmed(ulib, u) == u && Parsing.Trimmed(ulib, v) == v && v != "" && |v| <= Parsing.MAX_URL_LEN
    requires Parsing.ParseUrl(ulib, u).Ok? && Parsing.ParseUrl(ulib, u).value.protocol != VMESS
             && !Renaming.LegacySs(ulib, u)
    ensures Parsing.ParseUrl(ulib, v) == Ok(Parsing.ParseUrl(ulib, u).value.(rawUrl := v))
  {
    hide Parsing.ParseByScheme, Parsing.UrlSplit, Parsing.FragmentName, Parsing.SchemeOf, Renaming.Twins,
         Parsing.LegacyNetloc;
    Renaming.SchemeProtocol(ulib, scheme, u);
    Renaming.ParsersTwins(ulib, scheme, u, v);
  }

  /** The vmess parser reads only what is in front of the fragment. */
  ghost predicate VmessLawful(ulib: Parsing.UrlLib) {
    forall b, x | Free(b, '#') :: ulib.vmess(b + "#" + x) == ulib.vmess(b)
  }

  const BROKEN_NAME := "a\nb"

  /**
   * A vmess link that parses but cannot be renamed parses under a name with a line break as
   * well, and is then rendered as two lines.
   */
  lemma FallbackReachable(ulib: Parsing.UrlLib, lib: OutputLib, b: string, o: Scoring.ScoreOutcome, p: OutputPolicy)
    requires Renaming.Lawful(ulib) && VmessLawful(ulib) && Parsing.ParseUrl(ulib, b).Ok?
    requires Parsing.ParseUrl(ulib, b).value.protocol == VMESS && Parsing.Trimmed(ulib, b) == b
    requires Free(b, '#') && !Controlled(b) && |b| + 4 <= Parsing.MAX_URL_LEN
    requires forall name :: VmessRenamed(lib, b, name, p).None?
    ensures var url := b + "#" + BROKEN_NAME;
            && Parsing.ParseUrl(ulib, url).Ok?
            && RenderLink(lib, Entry(Parsing.ParseUrl(ulib, url).value, o), p) == Ok(url) && !OneLine(url)
  {
    var url := b + "#" + BROKEN_NAME;
    VmessNamed(ulib, b, url);
    hide Parsing.ParseUrl, BrandName, Parsing.Trimmed;
    var n := Parsing.ParseUrl(ulib, url).value;
    PrintableExactly(ulib, b);
    FallbackWhole(lib, n, o, p, b);
    assert url[|b| + 2] == '\n';
  }

  lemma VmessNamed(ulib: Parsing.UrlLib, b: string, url: string)
    requires Renaming.Lawful(ulib) && VmessLawful(ulib) && Parsing.ParseUrl(ulib, b).Ok?
    requires Parsing.ParseUrl(ulib, b).value.protocol == VMESS && Parsing.Trimmed(ulib, b) == b
    requires Free(b, '#') && url == b + "#" + BROKEN_NAME && |b| + 4 <= Parsing.MAX_URL_LEN
    ensures Parsing.ParseUrl(ulib, url).Ok?
    ensures Parsing.ParseUrl(ulib, url).value.rawUrl == url && Parsing.ParseUrl(ulib, url).value.protocol == VMESS
  {
    VmessParses(ulib, b);
    VmessParses(ulib, url);
    Renaming.AcceptedBody(ulib, b);
    hide Parsing.ParseUrl, Parsing.UrlSplit, Parsing.SchemeOf, Renaming.Twins;
    BeforeUnique(b, '#', b);
    Renaming.FragmentTwins(ulib, b, BROKEN_NAME);
    Renaming.SplitIgnoresFragment(ulib, b, BROKEN_NAME);
    assert url[0] == b[0] && url[|url| - 1] == 'b';
    PrintableStripped(ulib, url);
  }

  /** When a stripped link is parsed as vmess. */
  lemma VmessParses(ulib: Parsing.UrlLib, url: string)
    requires url != "" && |url| <= Parsing.MAX_URL_LEN
    ensures var r := Parsing.ParseUrl(ulib, url);
            Parsing.Trimmed(ulib, url) == url ==>
              && (r.Ok? && r.value.protocol == VMESS
                  <==> Parsing.SchemeOf(ulib, url) == Some("vmess") && ulib.vmess(url).Some?
                       && Parsing.UrlSplit(ulib, url).Some?)
              && (r.Ok? && r.value.protocol == VMESS ==> r.value.rawUrl == url)
  {
    hide Parsing.ParseVless, Parsing.ParseSs, Parsing.ParseTrojan, Parsing.ParseHysteria2, Parsing.ParseSocks;
    hide Parsing.UrlSplit, Parsing.FragmentName, Parsing.SchemeOf, Parsing.Trimmed;
    var scheme := Parsing.SchemeOf(ulib, url);
    if scheme.Some? && Parsing.ParseByScheme(ulib, scheme.value, url).Ok? {
      Renaming.SchemeProtocol(ulib, scheme.value, url);
    }
  }

  lemma FallbackWhole(lib: OutputLib, n: Node, o: Scoring.ScoreOutcome, p: OutputPolicy, b: string)
    requires n.protocol == VMESS && n.rawUrl == b + "#" + BROKEN_NAME && Free(b, '#') && b != "" && !Controlled(b)
    requires forall name :: VmessRenamed(lib, b, name, p).None?
    ensures RenderLink(lib, Entry(n, o), p) == Ok(n.rawUrl)
  {
    BeforeUnique(n.rawUrl, '#', b);
    hide BrandName, Controlled;
  }

  // ---------------------------------------------------------------------------
  // Artifacts
  // ---------------------------------------------------------------------------

  function GroupArtifacts(files: seq<GroupFile>, kind: Kind): (r: seq<Artifact>)
    ensures |r| == |files| && forall k | 0 <= k < |r| :: r[k] == Artifact(files[k].text, kind, files[k].path)
  {
    seq(|files|, k requires 0 <= k < |files| => Artifact(files[k].text, kind, files[k].path))
  }

  /** `_bundle_artifacts`, in its fixed order. */
  function Artifacts(b: Bundle): seq<Artifact> {
    [Artifact(b.allText, All, "all.txt"), Artifact(b.allBase64, AllBase64, "all_b64.txt")]
    + (GroupArtifacts(b.byProtocol, ByProtocol)
       + (GroupArtifacts(b.byTransport, ByTransport)
          + (GroupArtifacts(b.byCountry, ByCountry)
             + [Artifact(b.ultraFast.text, Tier, b.ultraFast.path), Artifact(b.goodPing.text, Tier, b.goodPing.path)])))
  }

  // ---------------------------------------------------------------------------
  // Case
  // ---------------------------------------------------------------------------

  predicate Ascii(s: string) {
    forall k | 0 <= k < |s| :: s[k] as int < 128
  }

  function AsciiUpper(s: string): (r: string)
    ensures |r| == |s| && forall k | 0 <= k < |s| :: r[k] == if 'a' <= s[k] <= 'z' then s[k] - ' ' else s[k]
  {
    seq(|s|, k requires 0 <= k < |s| => if 'a' <= s[k] <= 'z' then s[k] - ' ' else s[k])
  }

  function AsciiFold(s: string): (r: string)
    ensures |r| == |s| && forall k | 0 <= k < |s| :: r[k] == if 'A' <= s[k] <= 'Z' then s[k] + ' ' else s[k]
  {
    seq(|s|, k requires 0 <= k < |s| => if 'A' <= s[k] <= 'Z' then s[k] + ' ' else s[k])
  }

  lemma {:induction false} UpperIsAscii(casing: Casing, s: string)
    requires casing.Lawful() && Ascii(s)
    ensures casing.Upper(s) == AsciiUpper(s)
  {
    if s != "" {
      UpperIsAscii(casing, s[1..]);
      assert AsciiUpper(s) == [AsciiUpper(s)[0]] + AsciiUpper(s[1..]);
    }
  }

  lemma {:induction false} FoldIsAscii(casing: Casing, s: string)
    requires casing.Lawful() && Ascii(s)
    ensures casing.Fold(s) == AsciiFold(s)
  {
    if s != "" {
      FoldIsAscii(casing, s[1..]);
      assert AsciiFold(s) == [AsciiFold(s)[0]] + AsciiFold(s[1..]);
    }
  }

  lemma {:induction false} FoldJoin(casing: Casing, a: string, b: string)
    ensures casing.Fold(a + b) == casing.Fold(a) + casing.Fold(b)
  {
    if a == "" {
      assert a + b == b;
    } else {
      FoldJoin(casing, a[1..], b);
      assert (a + b)[0] == a[0] && (a + b)[1..] == a[1..] + b;
      assert casing.fold(a[0]) + (casing.Fold(a[1..]) + casing.Fold(b))
             == casing.fold(a[0]) + casing.Fold(a[1..]) + casing.Fold(b);
    }
  }

  // ---------------------------------------------------------------------------
  // Sound paths
  // ---------------------------------------------------------------------------

  predicate Harmless(c: char) {
    c !in {'/', '\\', ':', '.', NUL}
  }

  /** A name that can only be refused for being a device. */
  predicate SafeName(s: string) {
    s != "" && s[|s| - 1] != ' ' && forall k | 0 <= k < |s| :: Harmless(s[k])
  }

  /** A name that may still end in a space, before its extension. */
  predicate SafeStem(s: string) {
    s != "" && forall k | 0 <= k < |s| :: Harmless(s[k])
  }

  lemma SegmentOfFile(casing: Casing, name: string)
    requires SafeStem(name)
    ensures SegmentError(casing, name + ".txt").None? <==> !Reserved(casing, name + ".txt")
  {
    var s := name + ".txt";
    assert s[|s| - 1] == 't' && |s| >= 5;
    assert Free(s, ':');
  }

  lemma DirSound(casing: Casing, dir: string)
    requires SafeName(dir) && !Reserved(casing, dir)
    ensures SegmentError(casing, dir).None?
  {
    assert Free(dir, ':') && Harmless(dir[|dir| - 1]) && Harmless(dir[0]);
  }

  lemma PathParts(dir: string, name: string)
    requires SafeName(dir) && SafeStem(name)
    ensures Segments(PathIn(dir, name)) == [dir, name + ".txt"]
            && Swap(PathIn(dir, name), '\\', '/') == PathIn(dir, name)
    ensures Free(PathIn(dir, name), NUL) && |PathIn(dir, name)| == |dir| + |name| + 5
  {
    var path := PathIn(dir, name);
    var parts := [dir, name + ".txt"];
    assert parts[1..] == [name + ".txt"];
    assert path == Join(parts, "/") by { assert dir + "/" + name + ".txt" == dir + "/" + (name + ".txt"); }
    assert forall k | 0 <= k < |path| :: path[k] != '\\' && path[k] != NUL;
    assert Swap(path, '\\', '/') == path;
    assert forall k | 0 <= k < |parts| :: Free(parts[k], '/');
    SplitJoin(parts, "/");
  }

  /** A file in a sound directory is accepted unless its name is a device. */
  lemma FileAcceptable(casing: Casing, dir: string, name: string)
    requires SafeName(dir) && !Reserved(casing, dir) && SafeStem(name) && |dir| + |name| + 5 <= MAX_RELATIVE_PATH
    ensures Acceptable(casing, PathIn(dir, name)) <==> !Reserved(casing, name + ".txt")
  {
    hide Reserved, SegmentError, PathIn, Segments;
    PathParts(dir, name);
    DirSound(casing, dir);
    SegmentOfFile(casing, name);
    var parts := [dir, name + ".txt"];
    assert parts[0] == dir && parts[1] == name + ".txt";
  }

  // ---------------------------------------------------------------------------
  // Names that are never devices
  // ---------------------------------------------------------------------------

  /** How device names begin. */
  predicate DeviceLike(s: string) {
    |s| >= 2 && s[..2] in {"CO", "PR", "AU", "NU", "LP"}
        && (s[..2] == "CO" ==> |s| >= 3 && s[2] != 'U' && (|s| >= 4 ==> s[3] != 'F'))
  }

  lemma DevicesLook(s: string)
    requires s in RESERVED_DEVICE_NAMES
    ensures DeviceLike(s)
  {
    if s[0] == 'C' && |s| > 4 {
      assert s == "CONIN$" || s == "CONOUT$";
      assert s[..2] == "CO";
    } else if s[0] == 'C' {
      assert s[..2] == "CO";
    } else if s[0] == 'L' {
      assert s[..2] == "LP";
    } else if s[0] == 'P' {
      assert s[..2] == "PR";
    } else if s[0] == 'A' {
      assert s[..2] == "AU";
    } else {
      assert s[..2] == "NU";
    }
  }

  lemma NoDevice(casing: Casing, name: string)
    requires casing.Lawful() && Ascii(name) && SafeStem(name) && !DeviceLike(AsciiUpper(name))
    ensures !Reserved(casing, name) && !Reserved(casing, name + ".txt")
  {
    UpperIsAscii(casing, name);
    BeforeUnique(name, '.', name);
    BeforeUnique(name + ".txt", '.', name);
    if AsciiUpper(name) in RESERVED_DEVICE_NAMES {
      DevicesLook(AsciiUpper(name));
    }
  }

  /** A fixed lower-case name: sound, its own folding, and no device. */
  ghost predicate Fixed(casing: Casing, name: string) {
    SafeStem(name) && |name| <= 16 && casing.Fold(name) == name && !Reserved(casing, name + ".txt")
  }

  lemma FixedName(casing: Casing, name: string)
    requires casing.Lawful() && name != "" && |name| <= 16 && !DeviceLike(AsciiUpper(name))
    requires forall k | 0 <= k < |name| :: 'a' <= name[k] <= 'z' || '0' <= name[k] <= '9' || name[k] == '_'
    ensures Fixed(casing, name)
  {
    assert Ascii(name);
    NoDevice(casing, name);
    FoldIsAscii(casing, name);
    assert AsciiFold(name) == name;
  }

  lemma ProtocolNamesFixed(casing: Casing, e: Entry)
    requires casing.Lawful()
    ensures Fixed(casing, ProtocolFile(e).value)
  {
    var name := ProtocolFile(e).value;
    assert AsciiUpper(name)[..2] !in {"CO", "PR", "AU", "NU", "LP"} by {
      assert AsciiUpper(name)[..2] == [AsciiUpper(name)[0], AsciiUpper(name)[1]];
    }
    hide DeviceLike;
    assert !DeviceLike(AsciiUpper(name)) by { NotLike(AsciiUpper(name)); }
    FixedName(casing, name);
  }

  lemma NotLike(s: string)
    requires |s| >= 2 && s[..2] !in {"CO", "PR", "AU", "NU", "LP"}
    ensures !DeviceLike(s)
  {
  }

  lemma TransportNamesFixed(casing: Casing, e: Entry)
    requires casing.Lawful() && TransportFile(e).Some?
    ensures Fixed(casing, TransportFile(e).value)
  {
    var name := TransportFile(e).value;
    assert AsciiUpper(name)[..2] !in {"CO", "PR", "AU", "NU", "LP"} by {
      assert AsciiUpper(name)[..2] == [AsciiUpper(name)[0], AsciiUpper(name)[1]];
    }
    hide DeviceLike;
    assert !DeviceLike(AsciiUpper(name)) by { NotLike(AsciiUpper(name)); }
    FixedName(casing, name);
  }

  /** A directory of the bundle: sound, no device, and known by how its folding begins. */
  ghost predicate Directory(casing: Casing, dir: string, tag: string) {
    SafeName(dir) && !Reserved(casing, dir) && |dir| <= 16 && |tag| == 3 && |casing.Fold(dir)| >= 3
        && casing.Fold(dir)[..3] == tag
  }

  lemma DirectoryOf(casing: Casing, dir: string, tag: string)
    requires casing.Lawful() && 3 <= |dir| <= 16 && !DeviceLike(AsciiUpper(dir))
    requires forall k | 0 <= k < |dir| :: 'a' <= dir[k] <= 'z' || 'A' <= dir[k] <= 'Z'
    requires |tag| == 3 && forall k | 0 <= k < 3 :: AsciiFold(dir)[k] == tag[k]
    ensures Directory(casing, dir, tag)
  {
    assert Ascii(dir) && Harmless(dir[|dir| - 1]) && dir[|dir| - 1] != ' ';
    NoDevice(casing, dir);
    FoldIsAscii(casing, dir);
    assert AsciiFold(dir)[..3] == tag;
  }

  const DIRECTORIES: set<(string, string)> :=
    {("Config", "con"), ("transports", "tra"), ("Country", "cou"), (TIER_DIR, "sub")}

  /** The directories of a bundle, each with how its folding begins. */
  lemma BundleDirectory(casing: Casing, dir: string, tag: string)
    requires casing.Lawful() && (dir, tag) in DIRECTORIES
    ensures Directory(casing, dir, tag)
  {
    var up, low := AsciiUpper(dir), AsciiFold(dir);
    assert up[..2] == [up[0], up[1]];
    assert low[0] == tag[0] && low[1] == tag[1] && low[2] == tag[2];
    assert !DeviceLike(up);
    hide Directory, Casing.Lawful, DeviceLike;
    DirectoryOf(casing, dir, tag);
  }

  // ---------------------------------------------------------------------------
  // Plans in parts
  // ---------------------------------------------------------------------------

  /** The folded paths all begin like this. */
  ghost predicate Tagged(casing: Casing, artifacts: seq<Artifact>, tags: set<string>) {
    forall k | 0 <= k < |artifacts| ::
      |casing.Fold(Canonical(artifacts[k]))| >= 3 && casing.Fold(Canonical(artifacts[k]))[..3] in tags
  }

  lemma TaggedConcat(casing: Casing, a: seq<Artifact>, b: seq<Artifact>, s: set<string>, t: set<string>)
    requires Tagged(casing, a, s) && Tagged(casing, b, t)
    ensures Tagged(casing, a + b, s + t)
  {
    hide Casing.Fold;
    var c := a + b;
    forall k | 0 <= k < |c|
      ensures |casing.Fold(Canonical(c[k]))| >= 3 && casing.Fold(Canonical(c[k]))[..3] in s + t
    {
      assert c[k] == if k < |a| then a[k] else b[k - |a|];
    }
  }

  /** Parts whose paths begin differently are planned together exactly when each is planned alone. */
  lemma PlannableConcat(casing: Casing, a: seq<Artifact>, b: seq<Artifact>, s: set<string>, t: set<string>)
    requires Tagged(casing, a, s) && Tagged(casing, b, t) && s !! t
    ensures Plannable(casing, a + b) <==> Plannable(casing, a) && Plannable(casing, b)
  {
    hide Casing.Fold, Acceptable, Canonical;
    var c := a + b;
    assert forall k | 0 <= k < |a| :: c[k] == a[k];
    assert forall k | 0 <= k < |b| :: c[k + |a|] == b[k];
    if Plannable(casing, a) && Plannable(casing, b) {
      forall k | 0 <= k < |c| ensures Acceptable(casing, c[k].path) {
        assert c[k] == if k < |a| then a[k] else b[k - |a|];
      }
      forall j, k | 0 <= j < k < |c| ensures casing.Fold(Canonical(c[j])) != casing.Fold(Canonical(c[k])) {
        if k < |a| {
        } else if j < |a| {
          assert casing.Fold(Canonical(a[j]))[..3] in s && casing.Fold(Canonical(b[k - |a|]))[..3] in t;
        } else {
          assert c[j] == b[j - |a|] && c[k] == b[k - |a|];
        }
      }
    }
  }

  /** Files of one directory. */
  ghost predicate FilesIn(files: seq<GroupFile>, dir: string) {
    forall k | 0 <= k < |files| ::
        files[k].path == PathIn(dir, files[k].name) && SafeStem(files[k].name) && |files[k].name| <= 450
  }

  /** No file name is a device, and no two differ only by case. */
  ghost predicate NamesPublishable(casing: Casing, files: seq<GroupFile>) {
    && (forall k | 0 <= k < |files| :: !Reserved(casing, files[k].name + ".txt"))
    && (forall j, k | 0 <= j < k < |files| :: casing.Fold(files[j].name) != casing.Fold(files[k].name))
  }

  lemma FoldedPath(casing: Casing, dir: string, name: string)
    requires casing.Lawful() && SafeName(dir) && SafeStem(name)
    ensures casing.Fold(PathIn(dir, name)) == casing.Fold(dir) + "/" + casing.Fold(name) + ".txt"
  {
    FoldJoin(casing, dir + "/" + name, ".txt");
    FoldJoin(casing, dir + "/", name);
    FoldJoin(casing, dir, "/");
    FoldIsAscii(casing, "/");
    FoldIsAscii(casing, ".txt");
    assert AsciiFold("/") == "/" && AsciiFold(".txt") == ".txt";
  }

  lemma FoldedApart(casing: Casing, dir: string, a: string, b: string)
    requires casing.Lawful() && SafeName(dir) && SafeStem(a) && SafeStem(b)
    ensures casing.Fold(PathIn(dir, a)) == casing.Fold(PathIn(dir, b)) <==> casing.Fold(a) == casing.Fold(b)
  {
    FoldedPath(casing, dir, a);
    FoldedPath(casing, dir, b);
    hide Casing.Fold, PathIn;
    var d, x, y := casing.Fold(dir) + "/", casing.Fold(a), casing.Fold(b);
    var p, q := d + x + ".txt", d + y + ".txt";
    if p == q {
      assert |x| == |y|;
      assert p[|d|..|d| + |x|] == x && q[|d|..|d| + |y|] == y;
    }
  }

  /** The files of one directory are planned exactly when their names are publishable. */
  lemma DirectoryPlannable(casing: Casing, files: seq<GroupFile>, dir: string, tag: string, kind: Kind)
    requires casing.Lawful() && Directory(casing, dir, tag) && FilesIn(files, dir)
    ensures Plannable(casing, GroupArtifacts(files, kind)) <==> NamesPublishable(casing, files)
    ensures Tagged(casing, GroupArtifacts(files, kind), {tag})
  {
    hide Casing.Fold, Acceptable, Reserved, PathIn;
    var l := GroupArtifacts(files, kind);
    forall k | 0 <= k < |l|
      ensures Canonical(l[k]) == files[k].path
      ensures Acceptable(casing, l[k].path) <==> !Reserved(casing, files[k].name + ".txt")
      ensures |casing.Fold(files[k].path)| >= 3 && casing.Fold(files[k].path)[..3] == tag
    {
      PathParts(dir, files[k].name);
      FileAcceptable(casing, dir, files[k].name);
      FoldedPath(casing, dir, files[k].name);
      PrefixKept(casing.Fold(dir), "/" + casing.Fold(files[k].name) + ".txt", tag);
      assert casing.Fold(dir) + "/" + casing.Fold(files[k].name) + ".txt"
             == casing.Fold(dir) + ("/" + casing.Fold(files[k].name) + ".txt");
    }
    forall j, k | 0 <= j < k < |l|
      ensures casing.Fold(files[j].path) == casing.Fold(files[k].path) <==>
              casing.Fold(files[j].name) == casing.Fold(files[k].name)
    {
      FoldedApart(casing, dir, files[j].name, files[k].name);
    }
  }

  lemma PrefixKept(a: string, b: string, tag: string)
    requires |a| >= 3 && a[..3] == tag
    ensures |a + b| >= 3 && (a + b)[..3] == tag
  {
    assert (a + b)[..3] == a[..3];
  }

  // ---------------------------------------------------------------------------
  // Which bundles can be published
  // ---------------------------------------------------------------------------

  lemma NamedByEntry(es: seq<Entry>, key: Entry -> Option<string>, i: nat) returns (e: Entry)
    requires i < |Names(es, key)|
    ensures e in es && key(e) == Some(Names(es, key)[i])
  {
    NotNamed(es, key, Names(es, key)[i]);
    e := Sorting.Select(es, Under(key, Names(es, key)[i]))[0];
  }

  lemma FixedFiles(casing: Casing, files: seq<GroupFile>, dir: string)
    requires forall k | 0 <= k < |files| :: files[k].path == PathIn(dir, files[k].name) && Fixed(casing, files[k].name)
    requires forall j, k | 0 <= j < k < |files| :: files[j].name != files[k].name
    ensures FilesIn(files, dir) && NamesPublishable(casing, files)
  {
  }

  lemma ProtocolFilesPublishable(casing: Casing, lib: OutputLib, p: OutputPolicy, es: seq<Entry>, files: seq<GroupFile>)
    requires casing.Lawful() && FilesOf(lib, p, es, ProtocolFile, "Config", files)
    ensures FilesIn(files, "Config") && NamesPublishable(casing, files)
  {
    NamesDistinct(es, ProtocolFile);
    hide Fixed, Renders, Names;
    forall k | 0 <= k < |files| ensures Fixed(casing, files[k].name) {
      var e := NamedByEntry(es, ProtocolFile, k);
      ProtocolNamesFixed(casing, e);
    }
    FixedFiles(casing, files, "Config");
  }

  lemma TransportFilesPublishable(casing: Casing, lib: OutputLib, p: OutputPolicy, es: seq<Entry>,
                                  files: seq<GroupFile>)
    requires casing.Lawful() && FilesOf(lib, p, es, TransportFile, "transports", files)
    ensures FilesIn(files, "transports") && NamesPublishable(casing, files)
  {
    NamesDistinct(es, TransportFile);
    hide Fixed, Renders, Names;
    forall k | 0 <= k < |files| ensures Fixed(casing, files[k].name) {
      var e := NamedByEntry(es, TransportFile, k);
      TransportNamesFixed(casing, e);
    }
    FixedFiles(casing, files, "transports");
  }

  /** Word characters, spaces and lower-cased alphanumerics never look like parts of a path. */
  ghost predicate OutputLawful(lib: OutputLib) {
    && (forall c | lib.wordOrSpace(c) :: Harmless(c))
    && (forall s | (forall k | 0 <= k < |s| :: lib.isAlnum(s[k])) :: HarmlessLower(lib, s))
  }

  ghost predicate HarmlessLower(lib: OutputLib, s: string) {
    |lib.lower(s)| <= 3 * |s| && forall k | 0 <= k < |lib.lower(s)| :: Harmless(lib.lower(s)[k])
  }

  lemma StripPart(s: string, drop: char -> bool)
    ensures |Strip(s, drop)| <= |s| && forall k | 0 <= k < |Strip(s, drop)| :: Strip(s, drop)[k] in s
  {
    StripLeftEnds(s, drop);
    var l := StripLeft(s, drop);
    StripRightEnds(l, drop);
    var r := StripRight(l, drop);
    forall k | 0 <= k < |r| ensures r[k] in s {
      assert r[k] == l[k] == s[|s| - |l| + k];
    }
  }

  lemma CountryNameSafe(lib: OutputLib, country: string, naming: FileNaming)
    requires OutputLawful(lib) && |country| <= 128
    ensures var name := OrUnknown(CountryFilename(lib, country, naming)); SafeStem(name) && |name| <= 450
  {
    var t := Output.Trimmed(lib, country);
    StripPart(country, lib.space);
    hide Strip, OutputLawful, Keep;
    match naming
    case Sanitized => SanitizedName(lib, t);
    case AlnumLower => LoweredName(lib, t);
  }

  lemma SanitizedName(lib: OutputLib, t: string)
    requires OutputLawful(lib) && |t| <= 128
    ensures var name := Swap(Output.Trimmed(lib, Keep(t, c => lib.wordOrSpace(c) || c == '-')), ' ', '_');
            |name| <= 128 && forall k | 0 <= k < |name| :: Harmless(name[k])
  {
    var kept := Keep(t, c => lib.wordOrSpace(c) || c == '-');
    assert forall k | 0 <= k < |kept| :: Harmless(kept[k]);
    SanitizedSafe(lib, kept);
  }

  lemma LoweredName(lib: OutputLib, t: string)
    requires OutputLawful(lib) && |t| <= 128
    ensures var name := lib.lower(Keep(t, lib.isAlnum));
            |name| <= 384 && forall k | 0 <= k < |name| :: Harmless(name[k])
  {
    assert HarmlessLower(lib, Keep(t, lib.isAlnum));
  }

  lemma SanitizedSafe(lib: OutputLib, kept: string)
    requires forall k | 0 <= k < |kept| :: Harmless(kept[k])
    ensures var name := Swap(Output.Trimmed(lib, kept), ' ', '_');
            |name| <= |kept| && forall k | 0 <= k < |name| :: Harmless(name[k])
  {
    StripPart(kept, lib.space);
    hide Strip;
    var name := Swap(Output.Trimmed(lib, kept), ' ', '_');
    forall k | 0 <= k < |name| ensures Harmless(name[k]) {
      assert Output.Trimmed(lib, kept)[k] in kept;
    }
  }

  lemma CountryFilesIn(lib: OutputLib, p: OutputPolicy, es: seq<Entry>, files: seq<GroupFile>)
    requires OutputLawful(lib) && FilesOf(lib, p, es, CountryFile(lib, p), "Country", files)
    ensures FilesIn(files, "Country")
  {
    hide Renders, Names, OutputLawful, CountryFilename, PathIn;
    forall k | 0 <= k < |files| ensures SafeStem(files[k].name) && |files[k].name| <= 450 {
      var e := NamedByEntry(es, CountryFile(lib, p), k);
      CountryShort(lib, e);
      CountryNameSafe(lib, GeoCountry(lib, e.node), p.countryFilename);
    }
  }

  lemma CountryShort(lib: OutputLib, e: Entry)
    ensures |GeoCountry(lib, e.node)| <= 128
  {
    if e.node.geo.Some? {
      StripPart(e.node.geo.value.country, lib.space);
    }
  }

  lemma TopFile(casing: Casing, name: string)
    requires casing.Lawful() && Fixed(casing, name)
    ensures Acceptable(casing, name + ".txt") && Swap(name + ".txt", '\\', '/') == name + ".txt"
    ensures casing.Fold(name + ".txt") == name + ".txt"
  {
    var path := name + ".txt";
    SegmentOfFile(casing, name);
    assert forall k | 0 <= k < |path| :: path[k] != '\\' && path[k] != NUL && path[k] != '/';
    assert Swap(path, '\\', '/') == path;
    SplitNone(path, "/");
    FoldJoin(casing, name, ".txt");
    FoldIsAscii(casing, ".txt");
    assert AsciiFold(".txt") == ".txt";
  }

  const FIXED_NAMES: set<string> := {"all", "all_b64", ULTRA_FAST, GOOD_PING}

  lemma BundleName(casing: Casing, name: string)
    requires casing.Lawful() && name in FIXED_NAMES
    ensures Fixed(casing, name)
  {
    var up := AsciiUpper(name);
    assert up[0] in {'A', 'U', 'G'} && up[1] in {'L', 'O'} && up[..2] == [up[0], up[1]];
    NotLike(up);
    hide Fixed, DeviceLike;
    FixedName(casing, name);
  }

  lemma TwoAtTop(casing: Casing, x: string, y: string, tag: string, text: string, payload: string)
    requires casing.Lawful() && Fixed(casing, x) && Fixed(casing, y) && x != y
    requires |x| >= 3 && |y| >= 3 && x[..3] == tag && y[..3] == tag
    ensures var l := [Artifact(text, All, x + ".txt"), Artifact(payload, AllBase64, y + ".txt")];
            Plannable(casing, l) && Tagged(casing, l, {tag})
  {
    hide Acceptable, Fixed, Casing.Fold, Casing.Lawful;
    TopFile(casing, x);
    TopFile(casing, y);
    PrefixKept(x, ".txt", tag);
    PrefixKept(y, ".txt", tag);
    var p, q := x + ".txt", y + ".txt";
    assert p[..|p| - 4] == x && q[..|q| - 4] == y;
  }

  lemma TopPlannable(casing: Casing, text: string, payload: string)
    requires casing.Lawful()
    ensures var l := [Artifact(text, All, "all.txt"), Artifact(payload, AllBase64, "all_b64.txt")];
            Plannable(casing, l) && Tagged(casing, l, {"all"})
  {
    BundleName(casing, "all");
    BundleName(casing, "all_b64");
    hide Fixed, Plannable, Tagged, Casing.Lawful;
    var x, y, tag := "all", "all_b64", "all";
    assert x[..3] == tag && y[..3] == tag && |x| != |y|;
    TwoAtTop(casing, x, y, tag, text, payload);
    assert x + ".txt" == "all.txt" && y + ".txt" == "all_b64.txt";
  }

  lemma TwoInDirectory(casing: Casing, dir: string, tag: string, x: GroupFile, y: GroupFile)
    requires casing.Lawful() && Directory(casing, dir, tag) && Fixed(casing, x.name) && Fixed(casing, y.name)
             && x.name != y.name
    requires x.path == PathIn(dir, x.name) && y.path == PathIn(dir, y.name)
    ensures var l := GroupArtifacts([x, y], Tier); Plannable(casing, l) && Tagged(casing, l, {tag})
  {
    hide Fixed, Directory, Plannable, Tagged, Casing.Lawful, PathIn, FilesIn, NamesPublishable, GroupArtifacts;
    var files := [x, y];
    assert files[0] == x && files[1] == y;
    FixedFiles(casing, files, dir);
    DirectoryPlannable(casing, files, dir, tag, Tier);
  }

  lemma TiersPlannable(casing: Casing, ultra: GroupFile, good: GroupFile)
    requires casing.Lawful() && ultra.path == PathIn(TIER_DIR, ULTRA_FAST) && good.path == PathIn(TIER_DIR, GOOD_PING)
    ensures var l := [Artifact(ultra.text, Tier, ultra.path), Artifact(good.text, Tier, good.path)];
            Plannable(casing, l) && Tagged(casing, l, {"sub"})
  {
    hide Fixed, Plannable, Tagged, Casing.Lawful, Directory, PathIn;
    BundleName(casing, ULTRA_FAST);
    BundleName(casing, GOOD_PING);
    BundleDirectory(casing, TIER_DIR, "sub");
    assert |ULTRA_FAST| != |GOOD_PING|;
    var x, y := ultra.(name := ULTRA_FAST), good.(name := GOOD_PING);
    TwoInDirectory(casing, TIER_DIR, "sub", x, y);
    assert GroupArtifacts([x, y], Tier)
           == [Artifact(ultra.text, Tier, ultra.path), Artifact(good.text, Tier, good.path)];
  }

  /** No country is filed under a device's name, and none under two names that differ only by case. */
  ghost predicate CountriesPublishable(casing: Casing, key: Entry -> Option<string>, es: seq<Entry>) {
    && (forall e | e in es && key(e).Some? :: !Reserved(casing, key(e).value + ".txt"))
    && (forall d, e | d in es && e in es && key(d).Some? && key(e).Some? ::
          casing.Fold(key(d).value) == casing.Fold(key(e).value) ==> key(d) == key(e))
  }

  lemma EntryNamed(es: seq<Entry>, key: Entry -> Option<string>, e: Entry) returns (i: nat)
    requires e in es && key(e).Some?
    ensures i < |Names(es, key)| && Names(es, key)[i] == key(e).value
  {
    NotNamed(es, key, key(e).value);
    assert Under(key, key(e).value)(e);
    SelectKeeps(es, Under(key, key(e).value), e);
    i :| 0 <= i < |Names(es, key)| && Names(es, key)[i] == key(e).value;
  }

  lemma {:induction false} SelectKeeps(es: seq<Entry>, q: Entry -> bool, e: Entry)
    requires e in es && q(e)
    ensures e in Sorting.Select(es, q)
  {
    if e != es[0] {
      SelectKeeps(es[1..], q, e);
    }
  }

  lemma NamesOfEntries(casing: Casing, key: Entry -> Option<string>, es: seq<Entry>, files: seq<GroupFile>)
    requires |files| == |Names(es, key)| && forall k | 0 <= k < |files| :: files[k].name == Names(es, key)[k]
    ensures NamesPublishable(casing, files) <==> CountriesPublishable(casing, key, es)
  {
    NamesDistinct(es, key);
    hide Reserved, Casing.Fold, Names;
    if CountriesPublishable(casing, key, es) {
      forall k | 0 <= k < |files| ensures !Reserved(casing, files[k].name + ".txt") {
        var e := NamedByEntry(es, key, k);
      }
      forall j, k | 0 <= j < k < |files| ensures casing.Fold(files[j].name) != casing.Fold(files[k].name) {
        var d := NamedByEntry(es, key, j);
        var e := NamedByEntry(es, key, k);
      }
    }
    if NamesPublishable(casing, files) {
      forall e | e in es && key(e).Some? ensures !Reserved(casing, key(e).value + ".txt") {
        var k := EntryNamed(es, key, e);
        assert files[k].name == key(e).value;
      }
      forall d, e | d in es && e in es && key(d).Some? && key(e).Some?
          && casing.Fold(key(d).value) == casing.Fold(key(e).value)
        ensures key(d) == key(e)
      {
        var j := EntryNamed(es, key, d);
        var k := EntryNamed(es, key, e);
        assert files[j].name == key(d).value && files[k].name == key(e).value;
      }
    }
  }

  /**
   * A bundle is refused only for its countries: it can be published exactly when no
   * country is filed under a device's name and no two file names differ only by case.
   */
  lemma BundlePlannableExactly(casing: Casing, lib: OutputLib, p: OutputPolicy, es: seq<Entry>, b: Bundle)
    requires casing.Lawful() && OutputLawful(lib) && Bundled(lib, p, es, b)
    ensures Plannable(casing, Artifacts(b)) <==> CountriesPublishable(casing, CountryFile(lib, p), es)
  {
    PartsPlannable(casing, lib, p, es, b);
    hide Plannable, Artifacts, OutputLawful, Casing.Lawful, Renders, CountryFile, Names, RenderText, RenderPayload;
    NamesOfEntries(casing, CountryFile(lib, p), es, b.byCountry);
  }

  lemma PartsPlannable(casing: Casing, lib: OutputLib, p: OutputPolicy, es: seq<Entry>, b: Bundle)
    requires casing.Lawful() && OutputLawful(lib) && Bundled(lib, p, es, b)
    ensures Plannable(casing, Artifacts(b)) <==> NamesPublishable(casing, b.byCountry)
  {
    ProtocolFilesPublishable(casing, lib, p, es, b.byProtocol);
    TransportFilesPublishable(casing, lib, p, es, b.byTransport);
    CountryFilesIn(lib, p, es, b.byCountry);
    hide Plannable, Tagged, FilesIn, NamesPublishable, Directory, OutputLawful, FilesOf, Renders, Casing.Lawful;
    hide RenderText, RenderPayload, RenderBase64;
    var top := [Artifact(b.allText, All, "all.txt"), Artifact(b.allBase64, AllBase64, "all_b64.txt")];
    var protocols, transports := GroupArtifacts(b.byProtocol, ByProtocol), GroupArtifacts(b.byTransport, ByTransport);
    var countries := GroupArtifacts(b.byCountry, ByCountry);
    var tiers := [Artifact(b.ultraFast.text, Tier, b.ultraFast.path), Artifact(b.goodPing.text, Tier, b.goodPing.path)];
    TopPlannable(casing, b.allText, b.allBase64);
    TiersPlannable(casing, b.ultraFast, b.goodPing);
    BundleDirectory(casing, "Config", "con");
    BundleDirectory(casing, "transports", "tra");
    BundleDirectory(casing, "Country", "cou");
    DirectoryPlannable(casing, b.byProtocol, "Config", "con", ByProtocol);
    DirectoryPlannable(casing, b.byTransport, "transports", "tra", ByTransport);
    DirectoryPlannable(casing, b.byCountry, "Country", "cou", ByCountry);
    FivePlannable(casing, top, protocols, transports, countries, tiers);
  }

  lemma FivePlannable(casing: Casing, a: seq<Artifact>, b: seq<Artifact>, c: seq<Artifact>, d: seq<Artifact>,
                      e: seq<Artifact>)
    requires Tagged(casing, a, {"all"}) && Tagged(casing, b, {"con"}) && Tagged(casing, c, {"tra"})
             && Tagged(casing, d, {"cou"})
    requires Tagged(casing, e, {"sub"})
    ensures Plannable(casing, a + (b + (c + (d + e))))
            <==> Plannable(casing, a) && Plannable(casing, b) && Plannable(casing, c) && Plannable(casing, d)
                 && Plannable(casing, e)
  {
    hide Plannable, Tagged;
    assert "all"[0] == 'a' && "con"[2] == 'n' && "tra"[0] == 't' && "cou"[2] == 'u' && "sub"[0] == 's';
    TaggedConcat(casing, d, e, {"cou"}, {"sub"});
    TaggedConcat(casing, c, d + e, {"tra"}, {"cou"} + {"sub"});
    TaggedConcat(casing, b, c + (d + e), {"con"}, {"tra"} + ({"cou"} + {"sub"}));
    PlannableConcat(casing, d, e, {"cou"}, {"sub"});
    PlannableConcat(casing, c, d + e, {"tra"}, {"cou"} + {"sub"});
    PlannableConcat(casing, b, c + (d + e), {"con"}, {"tra"} + ({"cou"} + {"sub"}));
    PlannableConcat(casing, a, b + (c + (d + e)), {"all"}, {"con"} + ({"tra"} + ({"cou"} + {"sub"})));
  }

  /** An artifact of a group. */
  ghost predicate GroupArtifact(a: Artifact, files: seq<GroupFile>, kind: Kind) {
    exists f :: f in files && a == Artifact(f.text, kind, f.path)
  }

  lemma GroupArtifactsAre(files: seq<GroupFile>, kind: Kind)
    ensures forall a :: a in GroupArtifacts(files, kind) <==> GroupArtifact(a, files, kind)
  {
    forall a ensures a in GroupArtifacts(files, kind) <==> GroupArtifact(a, files, kind) {
      if GroupArtifact(a, files, kind) {
        var f :| f in files && a == Artifact(f.text, kind, f.path);
        var k :| 0 <= k < |files| && files[k] == f;
        assert GroupArtifacts(files, kind)[k] == a;
      }
    }
  }

  /** The artifacts of a bundle: the list and its base64, every file of every group, and the two tiers. */
  lemma ArtifactsAre(b: Bundle)
    ensures forall a :: a in Artifacts(b) <==>
                        || a == Artifact(b.allText, All, "all.txt")
                           || a == Artifact(b.allBase64, AllBase64, "all_b64.txt")
                        || GroupArtifact(a, b.byProtocol, ByProtocol) || GroupArtifact(a, b.byTransport, ByTransport)
                        || GroupArtifact(a, b.byCountry, ByCountry)
                        || GroupArtifact(a, [b.ultraFast, b.goodPing], Tier)
  {
    GroupArtifactsAre(b.byProtocol, ByProtocol);
    GroupArtifactsAre(b.byTransport, ByTransport);
    GroupArtifactsAre(b.byCountry, ByCountry);
    hide GroupArtifacts;
    forall a ensures GroupArtifact(a, [b.ultraFast, b.goodPing], Tier) <==>
                     a in [Artifact(b.ultraFast.text, Tier, b.ultraFast.path),
                           Artifact(b.goodPing.text, Tier, b.goodPing.path)] {
      assert b.ultraFast in [b.ultraFast, b.goodPing] && b.goodPing in [b.ultraFast, b.goodPing];
    }
    hide GroupArtifact;
  }

  /** A file holds the UTF-8 encoding of a text. */
  ghost predicate Shows(m: map<string, seq<byte>>, path: string, text: string) {
    path in m && m[path] == Encoding.Utf8(text)
  }

  /** What lies on the disk once a bundle is installed: every text at its own path. */
  lemma InstalledSpelled(m: map<string, seq<byte>>, b: Bundle)
    requires Installed(m, Planned(Artifacts(b)))
    ensures Shows(m, "all.txt", b.allText) && Shows(m, "all_b64.txt", b.allBase64)
    ensures forall f | f in b.byProtocol + b.byTransport + b.byCountry + [b.ultraFast, b.goodPing] && '\\' !in f.path ::
              Shows(m, f.path, f.text)
  {
    ArtifactsAre(b);
    hide Artifacts, Encoding.Utf8;
    forall a | a in Artifacts(b) && '\\' !in a.path ensures Shows(m, a.path, a.text) {
      var k :| 0 <= k < |Artifacts(b)| && Artifacts(b)[k] == a;
      assert Planned(Artifacts(b))[k] == PlannedFile(a) && Canonical(a) == a.path;
    }
    hide Installed, Planned;
    assert Artifact(b.allText, All, "all.txt") in Artifacts(b);
    assert Artifact(b.allBase64, AllBase64, "all_b64.txt") in Artifacts(b);
    forall f | f in b.byProtocol + b.byTransport + b.byCountry + [b.ultraFast, b.goodPing] && '\\' !in f.path
      ensures Shows(m, f.path, f.text) {
      FileListed(b, f);
    }
  }

  lemma FileListed(b: Bundle, f: GroupFile)
    requires f in b.byProtocol + b.byTransport + b.byCountry + [b.ultraFast, b.goodPing]
    ensures exists kind :: Artifact(f.text, kind, f.path) in Artifacts(b)
  {
    ArtifactsAre(b);
    hide Artifacts;
    assert f in b.byProtocol ==> GroupArtifact(Artifact(f.text, ByProtocol, f.path), b.byProtocol, ByProtocol);
    assert f in b.byTransport ==> GroupArtifact(Artifact(f.text, ByTransport, f.path), b.byTransport, ByTransport);
    assert f in b.byCountry ==> GroupArtifact(Artifact(f.text, ByCountry, f.path), b.byCountry, ByCountry);
    assert f in [b.ultraFast, b.goodPing] ==>
             GroupArtifact(Artifact(f.text, Tier, f.path), [b.ultraFast, b.goodPing], Tier);
  }

  /**
   * `write_outputs`: nothing is touched unless the whole bundle plans; then the files are
   * those of the first `done` artifacts over the old ones.  With identical files rewritten
   * too, it succeeds exactly when the countries allow it and no operation fails.
   */
  method PublishBundle(casing: Casing, lib: OutputLib, p: OutputPolicy, es: seq<Entry>, b: Bundle, volume: Volume,
                       policy: Policy)
    returns (r: Result<WriteOutcome, PublishError>, done: nat)
    requires volume.Valid() && casing.Lawful() && OutputLawful(lib) && Bundled(lib, p, es, b)
    modifies volume
    ensures volume.Valid() && volume.failures >= old(volume.failures) && done <= |Artifacts(b)|
    ensures volume.files == Publish(old(volume.files), Planned(Artifacts(b)), done)
    ensures (r.Err? && r.error.Unplannable?) <==> !CountriesPublishable(casing, CountryFile(lib, p), es)
    ensures r.Err? && r.error.Unplannable? ==>
              done == 0 && volume.files == old(volume.files) && volume.failures == old(volume.failures)
    ensures r.Err? && r.error.Unwritten? ==> done < |Artifacts(b)| && volume.failures > old(volume.failures)
    ensures r.Ok? ==> done == |Artifacts(b)| && Installed(volume.files, Planned(Artifacts(b)))
    ensures r.Ok? && !policy.skipIdentical ==>
              volume.failures == old(volume.failures) && r.value.written == |Artifacts(b)|
  {
    BundlePlannableExactly(casing, lib, p, es, b);
    hide Bundled, CountriesPublishable, Artifacts, Plannable, OutputLawful, Casing.Lawful, Planned, CountryFile;
    hide Publish, Installed;
    r, done := PublishArtifacts(casing, volume, policy, Artifacts(b));
  }
}

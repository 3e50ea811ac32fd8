/** What a query dictionary holds, that the order of parameters does not matter, and where renaming does. */
module Queries {
  import opened Common
  import opened Model
  import opened Text
  import opened Sorting
  import opened Parsing
  import opened Renaming

  type Pair = (string, string)

  // ---------------------------------------------------------------------------
  // Last and first values
  // ---------------------------------------------------------------------------

  /** How often a name occurs among the first `n` pairs. */
  function Times(lib: UrlLib, pairs: seq<Pair>, n: nat, name: string): nat
    requires n <= |pairs|
  {
    if n == 0 then 0 else Times(lib, pairs, n - 1, name) + (if NameOf(lib, pairs[n - 1]) == name then 1 else 0)
  }

  function FirstValue(lib: UrlLib, pairs: seq<Pair>, n: nat, name: string): string
    requires n <= |pairs| && Times(lib, pairs, n, name) > 0
  {
    if Times(lib, pairs, n - 1, name) > 0 then FirstValue(lib, pairs, n - 1, name) else pairs[n - 1].1
  }

  function LastValue(lib: UrlLib, pairs: seq<Pair>, n: nat, name: string): string
    requires n <= |pairs| && Times(lib, pairs, n, name) > 0
  {
    if NameOf(lib, pairs[n - 1]) == name then pairs[n - 1].1 else LastValue(lib, pairs, n - 1, name)
  }

  /** No parameter is called like the marker of another. */
  ghost predicate NoMarkers(lib: UrlLib, pairs: seq<Pair>) {
    forall i, j | 0 <= i < |pairs| && 0 <= j < |pairs| :: NameOf(lib, pairs[i]) != NameOf(lib, pairs[j]) + "[]"
  }

  /** Once only, the first and the last value are the same. */
  lemma {:induction false} SingleValue(lib: UrlLib, pairs: seq<Pair>, n: nat, name: string)
    requires n <= |pairs| && Times(lib, pairs, n, name) == 1
    ensures FirstValue(lib, pairs, n, name) == LastValue(lib, pairs, n, name)
  {
    if Times(lib, pairs, n - 1, name) > 0 {
      SingleValue(lib, pairs, n - 1, name);
    }
  }

  /**
   * `parse_query` maps each name to its last value, and `name[]` to its first one exactly
   * when the name is repeated.
   */
  lemma {:induction false} QueryMeaning(lib: UrlLib, pairs: seq<Pair>, n: nat, k: nat)
    requires n <= |pairs| && k < |pairs| && NoMarkers(lib, pairs)
    ensures var name, out := NameOf(lib, pairs[k]), QueryOf(lib, pairs, n);
            && (name in out <==> Times(lib, pairs, n, name) >= 1)
            && (name in out ==> out[name] == LastValue(lib, pairs, n, name))
            && (name + "[]" in out <==> Times(lib, pairs, n, name) >= 2)
            && (name + "[]" in out ==> out[name + "[]"] == FirstValue(lib, pairs, n, name))
  {
    hide NameOf;
    if n > 0 {
      QueryMeaning(lib, pairs, n - 1, k);
      var name, last := NameOf(lib, pairs[k]), NameOf(lib, pairs[n - 1]);
      assert name != last + "[]" && last != name + "[]" && last != last + "[]";
      assert name + "[]" == last + "[]" ==>
               name == last by { assert (name + "[]")[..|name|] == name && (last + "[]")[..|last|] == last; }
      if name == last && Times(lib, pairs, n - 1, name) == 1 {
        SingleValue(lib, pairs, n - 1, name);
      }
    }
  }

  /** Pair `i` finds its name taken, and `key` is the marker of that name. */
  ghost predicate Marks(lib: UrlLib, pairs: seq<Pair>, i: nat, key: string) {
    i < |pairs| && NameOf(lib, pairs[i]) + "[]" == key && NameOf(lib, pairs[i]) in QueryOf(lib, pairs, i)
  }

  /** And it is the first one. */
  ghost predicate FirstMark(lib: UrlLib, pairs: seq<Pair>, i: nat, key: string) {
    Marks(lib, pairs, i, key) && forall j: nat | j < i :: !Marks(lib, pairs, j, key)
  }

  /**
   * What any key maps to, for every list of pairs, markers among the names included: a key
   * that is a name maps to its last value; any other key is there exactly when it marks
   * a name found taken, and maps to what that name had the first time this happened.
   */
  lemma {:induction false} QueryExactly(lib: UrlLib, pairs: seq<Pair>, n: nat, key: string)
    requires n <= |pairs|
    ensures var out := QueryOf(lib, pairs, n);
            if Times(lib, pairs, n, key) >= 1 then key in out && out[key] == LastValue(lib, pairs, n, key)
            else
              && (key in out <==> exists i: nat :: i < n && Marks(lib, pairs, i, key))
              && (key in out ==> exists i: nat :: i < n && FirstMark(lib, pairs, i, key)
                                   && out[key] == QueryOf(lib, pairs, i)[NameOf(lib, pairs[i])])
  {
    hide NameOf, QueryOf, Marks, FirstMark;
    if Times(lib, pairs, n, key) >= 1 {
      QueryLast(lib, pairs, n, key);
    } else {
      QueryMarked(lib, pairs, n, key);
    }
  }

  lemma {:induction false} QueryLast(lib: UrlLib, pairs: seq<Pair>, n: nat, key: string)
    requires n <= |pairs| && Times(lib, pairs, n, key) >= 1
    ensures var out := QueryOf(lib, pairs, n); key in out && out[key] == LastValue(lib, pairs, n, key)
  {
    hide NameOf;
    if NameOf(lib, pairs[n - 1]) != key {
      QueryLast(lib, pairs, n - 1, key);
    }
  }

  lemma {:induction false} QueryMarked(lib: UrlLib, pairs: seq<Pair>, n: nat, key: string)
    requires n <= |pairs| && Times(lib, pairs, n, key) == 0
    ensures var out := QueryOf(lib, pairs, n);
            && (key in out <==> exists i: nat :: i < n && Marks(lib, pairs, i, key))
            && (key in out ==> exists i: nat :: i < n && FirstMark(lib, pairs, i, key)
                                 && out[key] == QueryOf(lib, pairs, i)[NameOf(lib, pairs[i])])
  {
    hide NameOf, FirstMark, Marks;
    if n > 0 {
      QueryMarked(lib, pairs, n - 1, key);
      MarkedStep(lib, pairs, n, key);
      hide QueryOf;
      if Marks(lib, pairs, n - 1, key) && key !in QueryOf(lib, pairs, n - 1) {
        FirstHere(lib, pairs, n - 1, key);
      }
    }
  }

  lemma FirstHere(lib: UrlLib, pairs: seq<Pair>, m: nat, key: string)
    requires Marks(lib, pairs, m, key) && forall i: nat | i < m :: !Marks(lib, pairs, i, key)
    ensures FirstMark(lib, pairs, m, key)
  {
    hide Marks;
  }

  /** What one pair does to a key that is not its name. */
  lemma MarkedStep(lib: UrlLib, pairs: seq<Pair>, n: nat, key: string)
    requires 0 < n <= |pairs| && NameOf(lib, pairs[n - 1]) != key
    ensures var before, out := QueryOf(lib, pairs, n - 1), QueryOf(lib, pairs, n);
            && (key in out <==> key in before || Marks(lib, pairs, n - 1, key))
            && (key in before ==> out[key] == before[key])
            && (key !in before && key in out ==> out[key] == before[NameOf(lib, pairs[n - 1])])
  {
    hide NameOf;
    var last := NameOf(lib, pairs[n - 1]);
    assert key == last + "[]" ==> key != last;
  }

  // ---------------------------------------------------------------------------
  // Order of parameters
  // ---------------------------------------------------------------------------

  ghost predicate DistinctNames(lib: UrlLib, pairs: seq<Pair>) {
    forall i, j | 0 <= i < j < |pairs| :: NameOf(lib, pairs[i]) != NameOf(lib, pairs[j])
  }

  /** With distinct names the dictionary is just the pairs. */
  lemma {:induction false} QueryDistinct(lib: UrlLib, pairs: seq<Pair>, n: nat)
    requires n <= |pairs| && DistinctNames(lib, pairs)
    ensures var out := QueryOf(lib, pairs, n);
            && (forall i | 0 <= i < n :: NameOf(lib, pairs[i]) in out && out[NameOf(lib, pairs[i])] == pairs[i].1)
            && (forall k | k in out :: exists i :: 0 <= i < n && NameOf(lib, pairs[i]) == k)
  {
    hide NameOf;
    if n > 0 {
      QueryDistinct(lib, pairs, n - 1);
    }
  }

  lemma NamesPermute(lib: UrlLib, a: seq<Pair>, b: seq<Pair>)
    requires multiset(a) == multiset(b) && DistinctNames(lib, a)
    ensures DistinctNames(lib, b)
  {
    hide NameOf;
    assert forall i, j | 0 <= i < j < |a| :: a[i] != a[j] by {
      forall i, j | 0 <= i < j < |a| ensures a[i] != a[j] {
        assert NameOf(lib, a[i]) != NameOf(lib, a[j]);
      }
    }
    NoRepeats(a);
    SingleOccurrences(b);
    forall i, j | 0 <= i < j < |b| ensures NameOf(lib, b[i]) != NameOf(lib, b[j]) {
      assert b[i] in multiset(b) && b[j] in multiset(b);
      assert b[i] in multiset(a) && b[j] in multiset(a);
      var p :| 0 <= p < |a| && a[p] == b[i];
      var q :| 0 <= q < |a| && a[q] == b[j];
      assert p != q;
      assert p < q ==> NameOf(lib, a[p]) != NameOf(lib, a[q]);
      assert q < p ==> NameOf(lib, a[q]) != NameOf(lib, a[p]);
    }
  }

  ghost predicate Includes<K(!new), V>(p: map<K, V>, q: map<K, V>) {
    forall k | k in p :: k in q && q[k] == p[k]
  }

  lemma QueryIncludes(lib: UrlLib, a: seq<Pair>, b: seq<Pair>)
    requires multiset(a) == multiset(b) && DistinctNames(lib, a) && DistinctNames(lib, b)
    ensures Includes(QueryOf(lib, a, |a|), QueryOf(lib, b, |b|))
  {
    QueryDistinct(lib, a, |a|);
    QueryDistinct(lib, b, |b|);
    hide NameOf, QueryOf;
    var p, q := QueryOf(lib, a, |a|), QueryOf(lib, b, |b|);
    forall k | k in p ensures k in q && q[k] == p[k] {
      var i :| 0 <= i < |a| && NameOf(lib, a[i]) == k;
      assert a[i] in multiset(a) && a[i] in multiset(b);
      var j :| 0 <= j < |b| && b[j] == a[i];
    }
  }

  /** Distinctly named parameters give one dictionary in any order. */
  lemma QueryPermutes(lib: UrlLib, a: seq<Pair>, b: seq<Pair>)
    requires multiset(a) == multiset(b) && DistinctNames(lib, a)
    ensures QueryOf(lib, a, |a|) == QueryOf(lib, b, |b|)
  {
    NamesPermute(lib, a, b);
    QueryIncludes(lib, a, b);
    QueryIncludes(lib, b, a);
    hide QueryOf, DistinctNames, Includes;
    MapsEqual(QueryOf(lib, a, |a|), QueryOf(lib, b, |b|));
  }

  lemma MapsEqual<K(!new), V>(p: map<K, V>, q: map<K, V>)
    requires Includes(p, q) && Includes(q, p)
    ensures p == q
  {
  }

  function LinkWith(head: string, params: seq<string>): string {
    head + "?" + Join(params, "&")
  }

  /** Parameters as links carry them: no separator of their own and no line breaks. */
  ghost predicate WellCut(params: seq<string>) {
    params != [] && forall k | 0 <= k < |params| ::
        Free(params[k], '&') && Free(params[k], '#') && Unbroken(params[k]) == params[k]
  }

  /** A link up to its query. */
  ghost predicate LinkHead(head: string) {
    head != "" && head[0] > ' ' && Free(head, '#') && Free(head, '?') && Find(head, "://").Some?
  }

  lemma {:induction false} JoinedClean(params: seq<string>)
    requires WellCut(params)
    ensures Free(Join(params, "&"), '#') && Unbroken(Join(params, "&")) == Join(params, "&")
  {
    if |params| > 1 {
      var rest := params[1..];
      JoinedClean(rest);
      var keep := c => c !in {'\t', '\r', '\n'};
      KeepAppend(params[0], "&", keep);
      KeepAppend(params[0] + "&", Join(rest, "&"), keep);
      assert Keep("&", keep) == "&" by { assert "&"[1..] == ""; }
    }
  }

  lemma QueryOfLink(lib: UrlLib, head: string, params: seq<string>)
    requires LinkHead(head) && WellCut(params)
    ensures UrlSplit(lib, LinkWith(head, params))
            == match UrlSplit(lib, head) { case None => None case Some(p) => Some(p.(query := Join(params, "&"))) }
    ensures MainOf(LinkWith(head, params)) == MainOf(head)
            && SchemeOf(lib, LinkWith(head, params)) == SchemeOf(lib, head)
    ensures ParseQsl(lib, Join(params, "&")) == PairsOf(lib, params)
  {
    JoinedClean(params);
    SplitTakesQuery(lib, head, Join(params, "&"));
    MainIgnores(head, '?', Join(params, "&"));
    SchemeIgnores(lib, head, '?', Join(params, "&"));
    SplitJoin(params, "&");
  }

  lemma ReorderedTwins(lib: UrlLib, head: string, ps: seq<string>, qs: seq<string>)
    requires LinkHead(head) && WellCut(ps) && WellCut(qs) && multiset(ps) == multiset(qs)
             && DistinctNames(lib, PairsOf(lib, ps))
    ensures Twins(lib, LinkWith(head, ps), LinkWith(head, qs))
  {
    QueryOfLink(lib, head, ps);
    QueryOfLink(lib, head, qs);
    SelectPermutes(ps, qs, Given);
    MapPermutes(Select(ps, Given), Select(qs, Given), ToPair(lib));
    QueryPermutes(lib, PairsOf(lib, ps), PairsOf(lib, qs));
  }

  lemma WellCutPermutes(ps: seq<string>, qs: seq<string>)
    requires WellCut(ps) && multiset(ps) == multiset(qs)
    ensures WellCut(qs)
  {
    hide Unbroken;
    assert |multiset(ps)| == |ps| && |multiset(qs)| == |qs|;
    forall k | 0 <= k < |qs| ensures Free(qs[k], '&') && Free(qs[k], '#') && Unbroken(qs[k]) == qs[k] {
      assert qs[k] in multiset(qs) && qs[k] in multiset(ps);
      var j :| 0 <= j < |ps| && ps[j] == qs[k];
    }
  }

  /**
   * Permuting distinctly named parameters of a link never changes its configuration: the
   * two links are refused alike, or give the same node except for the raw text.
   */
  lemma ReorderKeepsIdentity(lib: UrlLib, head: string, ps: seq<string>, qs: seq<string>)
    requires LinkHead(head) && WellCut(ps) && multiset(ps) == multiset(qs) && DistinctNames(lib, PairsOf(lib, ps))
    requires SchemeOf(lib, head).Some? && SchemeOf(lib, head).value != "vmess"
    requires !LegacySs(lib, LinkWith(head, ps))
    ensures var u, v := LinkWith(head, ps), LinkWith(head, qs);
            var r := ParseByScheme(lib, SchemeOf(lib, head).value, u);
            && ParseByScheme(lib, SchemeOf(lib, head).value, v) == Relabelled(r, v)
            && (r.Ok? ==> KeyOf(Relabelled(r, v).value) == KeyOf(r.value))
  {
    WellCutPermutes(ps, qs);
    ReorderedTwins(lib, head, ps, qs);
    QueryOfLink(lib, head, ps);
    hide LinkWith, Twins, UrlSplit, ParseByScheme, SchemeOf, LegacyNetloc;
    ParsersTwins(lib, SchemeOf(lib, head).value, LinkWith(head, ps), LinkWith(head, qs));
  }

  // ---------------------------------------------------------------------------
  // Where the name is part of the identity
  // ---------------------------------------------------------------------------

  /** The sorted items tell which dictionary they come from. */
  lemma {:induction false} ItemsDetermine(m: map<string, string>, n: map<string, string>)
    requires SortedItems(m) == SortedItems(n)
    ensures m == n
    decreases m.Keys
  {
    if m == map[] || n == map[] {
      assert m == map[] ==> SortedItems(m) == [];
      assert n != map[] ==> SortedItems(n) != [];
      assert m != map[] ==> SortedItems(m) != [];
      assert m == n;
    } else {
      var a, b := SortedItems(m), SortedItems(n);
      var k := a[0].0;
      assert k in m && a == [(k, m[k])] + SortedItems(m - {k});
      assert k in n && b == [(k, n[k])] + SortedItems(n - {k});
      assert a[1..] == b[1..];
      ItemsDetermine(m - {k}, n - {k});
      assert m == (m - {k})[k := m[k]] && n == (n - {k})[k := n[k]];
    }
  }

  lemma PlainKeys(lib: UrlLib, pf: map<string, string>)
    requires forall k | k in pf :: k != "" && Trimmed(lib, k) == k
    ensures CanonicalFields(lib, pf) == Some(SortedItems(pf))
  {
    hide SortedItems, Strip;
    assert KeysTrim(lib, pf);
    var trimmed := TrimmedKeys(lib, pf);
    assert forall k | k in pf :: Trimmed(lib, k) in trimmed && trimmed[Trimmed(lib, k)] == pf[k];
    MapsEqual(trimmed, pf);
  }

  /** The fields of a legacy shadowsocks node: the fragment is one of them. */
  function LegacyFields(lib: UrlLib, cred: (string, string), q: map<string, string>,
                        fragment: string): map<string, string> {
    var base := map["ss.method" := if cred.0 != "" then cred.0 else "unknown", "ss.password" := cred.1];
    var plugin := Recorded(lib, base, q, "plugin", "ss.plugin");
    (if fragment != "" then plugin["fragment" := PercentDecode(lib, fragment)] else plugin) + RawTransport(lib, q)
  }

  const LEGACY_NAMES: set<string> := {"ss.method", "ss.password", "ss.plugin", "fragment", "transport.raw"}

  lemma NameFixed(lib: UrlLib, name: string)
    requires Lawful(lib) && name != "" && '!' <= name[0] <= '~' && '!' <= name[|name| - 1] <= '~'
    ensures Trimmed(lib, name) == name
  {
    StripFix(name, lib.names.space);
  }

  lemma LegacyNamesFixed(lib: UrlLib)
    requires Lawful(lib)
    ensures forall k | k in LEGACY_NAMES :: k != "" && Trimmed(lib, k) == k
  {
    hide Strip, Lawful;
    NameFixed(lib, "ss.method");
    NameFixed(lib, "ss.password");
    NameFixed(lib, "ss.plugin");
    NameFixed(lib, "fragment");
    NameFixed(lib, "transport.raw");
  }

  lemma LegacyKeysPlain(lib: UrlLib, cred: (string, string), q: map<string, string>, fragment: string)
    requires Lawful(lib)
    ensures forall k | k in LegacyFields(lib, cred, q, fragment) :: k != "" && Trimmed(lib, k) == k
    ensures "fragment" in LegacyFields(lib, cred, q, fragment) <==> fragment != ""
    ensures fragment != "" ==> LegacyFields(lib, cred, q, fragment)["fragment"] == PercentDecode(lib, fragment)
  {
    hide SafeStr, RawType, TransportFrom, PercentDecode, Strip, Lawful;
    LegacyNamesFixed(lib);
    assert forall k | k in LegacyFields(lib, cred, q, fragment) :: k in LEGACY_NAMES;
  }

  lemma LegacyFieldsAgree(lib: UrlLib, cred: (string, string), q: map<string, string>, x: string, y: string)
    requires Lawful(lib) && y != ""
    ensures LegacyFields(lib, cred, q, x) == LegacyFields(lib, cred, q, y) <==>
            x != "" && PercentDecode(lib, x) == PercentDecode(lib, y)
  {
    LegacyKeysPlain(lib, cred, q, x);
    LegacyKeysPlain(lib, cred, q, y);
  }

  /** Two legacy nodes that differ in their fragment have one identity exactly when it decodes to the same text. */
  lemma LegacyNodes(lib: UrlLib, u: string, v: string, cred: (string, string), ep: Endpoint, q: map<string, string>,
                    x: string, y: string)
    requires Lawful(lib) && y != ""
    ensures var m, n := SsNode(lib, u, cred, ep, q, x, false), SsNode(lib, v, cred, ep, q, y, false);
            && m.Ok? && n.Ok? && n.value.outputName == m.value.outputName == ""
            && (KeyOf(m.value) == KeyOf(n.value) <==> x != "" && PercentDecode(lib, x) == PercentDecode(lib, y))
  {
    LegacyKeysPlain(lib, cred, q, x);
    LegacyKeysPlain(lib, cred, q, y);
    LegacyFieldsAgree(lib, cred, q, x, y);
    var f, g := LegacyFields(lib, cred, q, x), LegacyFields(lib, cred, q, y);
    PlainKeys(lib, f);
    PlainKeys(lib, g);
    if SortedItems(f) == SortedItems(g) {
      ItemsDetermine(f, g);
    }
    SsFields(lib, u, cred, ep, q, x);
    SsFields(lib, v, cred, ep, q, y);
  }

  lemma SsFields(lib: UrlLib, u: string, cred: (string, string), ep: Endpoint, q: map<string, string>, x: string)
    ensures SsNode(lib, u, cred, ep, q, x, false)
            == WithFields(lib, Streamed(lib, FreshNode(SHADOWSOCKS, ep, u), q).(path := Optional(lib, q, "path")),
                          LegacyFields(lib, cred, q, x))
    ensures Streamed(lib, FreshNode(SHADOWSOCKS, ep, u), q).outputName == ""
    ensures KeyOf(Streamed(lib, FreshNode(SHADOWSOCKS, ep, u), q))
            == KeyOf(Streamed(lib, FreshNode(SHADOWSOCKS, ep, ""), q))
  {
    hide CanonicalFields, Recorded, RawTransport, TransportFrom, SecurityFrom, SafeStr, Insecure, ServiceName;
  }

  lemma {:induction false} PrintableKept(s: string)
    requires Printable(s)
    ensures Unbroken(s) == s
  {
    if s != "" {
      assert forall k | 0 <= k < |s[1..]| :: s[1..][k] == s[k + 1];
      PrintableKept(s[1..]);
      assert s == [s[0]] + s[1..];
    }
  }

  lemma LegacyParse(lib: UrlLib, u: string, v: string)
    requires Lawful(lib) && UrlSplit(lib, u).Some? && UrlSplit(lib, v).Some?
    requires var p, r := UrlSplit(lib, u).value, UrlSplit(lib, v).value;
             && p.scheme == r.scheme && p.netloc == r.netloc && ParsedQuery(lib, p.query) == ParsedQuery(lib, r.query)
             && LegacyNetloc(p.netloc) && r.fragment != ""
    requires ParseSs(lib, u).Ok?
    ensures var x, y := UrlSplit(lib, u).value.fragment, UrlSplit(lib, v).value.fragment;
            && ParseSs(lib, v).Ok?
            && (KeyOf(ParseSs(lib, u).value) == KeyOf(ParseSs(lib, v).value) <==>
                x != "" && PercentDecode(lib, x) == PercentDecode(lib, y))
  {
    hide UrlSplit, SsNode, ParsedQuery, PercentDecode, EndpointFromNetloc, NetlocUser, LegacyNetloc, LegacyPayload,
         Parsing.Credentials;
    var p, r := UrlSplit(lib, u).value, UrlSplit(lib, v).value;
    var payload := LegacyPayload(lib, p.netloc).value;
    LegacyNodes(lib, u, v, Parsing.Credentials(lib, payload.0).value, EndpointFromNetloc(lib, payload.1, 443).value,
                ParsedQuery(lib, p.query), p.fragment, r.fragment);
  }

  /**
   * A legacy shadowsocks link keeps its configuration under a new name exactly when it
   * already had one that decodes to the same text: its parser counts the name as a field.
   */
  lemma LegacyRenameExactly(lib: UrlLib, url: string, fragment: string)
    requires Lawful(lib) && Printable(fragment) && fragment != ""
    requires ParseUrl(lib, url).Ok? && LegacySs(lib, Trimmed(lib, url))
    requires |Renamed(Trimmed(lib, url), fragment)| <= MAX_URL_LEN
    ensures var r := Renamed(Trimmed(lib, url), fragment);
            var name := UrlSplit(lib, Trimmed(lib, url)).value.fragment;
            && ParseUrl(lib, r).Ok?
            && (KeyOf(ParseUrl(lib, r).value) == KeyOf(ParseUrl(lib, url).value)
                <==> name != "" && PercentDecode(lib, name) == PercentDecode(lib, fragment))
  {
    var u := Trimmed(lib, url);
    var r := Renamed(u, fragment);
    BodyTwins(lib, u, fragment);
    RenamedStripped(lib, u, fragment);
    PrintableKept(fragment);
    assert r != "";
    SsParsed(lib, url);
    SsParsed(lib, r);
    hide ParseUrl, ParseSs, UrlSplit, SchemeOf, LegacyNetloc, Strip, ParsedQuery, PercentDecode, Renamed;
    LegacyParse(lib, u, r);
  }

  /** What `parse_url` adds to the shadowsocks parser leaves the configuration alone. */
  lemma SsParsed(lib: UrlLib, url: string)
    ensures ParseUrl(lib, url).Ok? ==> UrlSplit(lib, url).Some? && |url| <= MAX_URL_LEN
    ensures SchemeOf(lib, Trimmed(lib, url)) == Some("ss") && Trimmed(lib, url) != "" ==>
              && (ParseUrl(lib, url).Ok? <==>
                    ParseSs(lib, Trimmed(lib, url)).Ok? && UrlSplit(lib, url).Some? && |url| <= MAX_URL_LEN)
              && (ParseUrl(lib, url).Ok? ==>
                  KeyOf(ParseUrl(lib, url).value) == KeyOf(ParseSs(lib, Trimmed(lib, url)).value))
  {
    hide ParseVless, ParseTrojan, ParseHysteria2, ParseSocks, ParseVmess, ParseSs, UrlSplit, FragmentName, SchemeOf,
         Strip;
  }
}

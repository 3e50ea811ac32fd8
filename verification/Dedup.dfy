/** First-wins deduplication on the configuration key with a canonical host. */
module Dedup {
  import opened Common
  import opened Model
  import opened Text
  import opened Ingest

  datatype HostFacts = HostFacts(space: char -> bool, lower: string -> string)

  function CanonicalHost(f: HostFacts, host: string): string {
    var h := f.lower(Strip(host, f.space));
    var bare := if |h| >= 2 && h[0] == '[' && h[|h| - 1] == ']' then h[1..|h| - 1] else h;
    var cased := if Has(bare, ':') then f.lower(bare) else bare;
    if cased != "" && cased[|cased| - 1] == '.' then cased[..|cased| - 1] else cased
  }

  /** `dedup_key`: the whole configuration key, with only the host's spelling unified. */
  function DedupKey(f: HostFacts, n: Node): ConfigKey {
    KeyOf(n).(host := CanonicalHost(f, KeyOf(n).host))
  }

  datatype DedupOutcome = DedupOutcome(kept: seq<IngestedNode>, dropped: seq<IngestedNode>,
                                       occurrences: map<ConfigKey, nat>)

  // ---------------------------------------------------------------------------
  // What first-wins means
  // ---------------------------------------------------------------------------

  function KeyAt(f: HostFacts, ws: seq<IngestedNode>, i: nat): ConfigKey
    requires i < |ws|
  {
    DedupKey(f, ws[i].node)
  }

  ghost predicate Earlier(f: HostFacts, ws: seq<IngestedNode>, key: ConfigKey, n: nat)
    requires n <= |ws|
  {
    exists j :: 0 <= j < n && KeyAt(f, ws, j) == key
  }

  /** Survivors among the first `n`: those whose key did not occur before. */
  ghost function KeptOf(f: HostFacts, ws: seq<IngestedNode>, n: nat): seq<IngestedNode>
    requires n <= |ws|
  {
    if n == 0 then []
    else KeptOf(f, ws, n - 1) + (if Earlier(f, ws, KeyAt(f, ws, n - 1), n - 1) then [] else [ws[n - 1]])
  }

  ghost function DroppedOf(f: HostFacts, ws: seq<IngestedNode>, n: nat): seq<IngestedNode>
    requires n <= |ws|
  {
    if n == 0 then []
    else DroppedOf(f, ws, n - 1) + (if Earlier(f, ws, KeyAt(f, ws, n - 1), n - 1) then [ws[n - 1]] else [])
  }

  function Occurrences(f: HostFacts, ws: seq<IngestedNode>, n: nat): map<ConfigKey, nat>
    requires n <= |ws|
  {
    if n == 0 then map[]
    else
      var m := Occurrences(f, ws, n - 1);
      var key := KeyAt(f, ws, n - 1);
      m[key := (if key in m then m[key] else 0) + 1]
  }

  ghost function Deduped(f: HostFacts, ws: seq<IngestedNode>): DedupOutcome {
    DedupOutcome(KeptOf(f, ws, |ws|), DroppedOf(f, ws, |ws|), Occurrences(f, ws, |ws|))
  }

  lemma EarlierNext(f: HostFacts, ws: seq<IngestedNode>, i: nat)
    requires i < |ws|
    ensures forall k :: Earlier(f, ws, k, i + 1) <==> Earlier(f, ws, k, i) || k == KeyAt(f, ws, i)
  {
    hide DedupKey;
    forall k ensures Earlier(f, ws, k, i + 1) <==> Earlier(f, ws, k, i) || k == KeyAt(f, ws, i) {
      if k == KeyAt(f, ws, i) {
        assert KeyAt(f, ws, i) == k;
      }
    }
  }

  lemma NothingEarlier(f: HostFacts, ws: seq<IngestedNode>)
    ensures forall k :: !Earlier(f, ws, k, 0)
  {
  }

  /** `dedup_nodes`: one pass with a set of keys seen; any other policy is refused. */
  method DedupNodes(f: HostFacts, ws: seq<IngestedNode>, keep: string) returns (r: Result<DedupOutcome, string>)
    ensures keep == "first" ==> r == Ok(Deduped(f, ws))
    ensures keep != "first" ==> r == Err(keep)
  {
    hide KeyAt, Earlier;
    NothingEarlier(f, ws);
    if keep != "first" {
      return Err(keep);
    }
    var kept: seq<IngestedNode> := [];
    var dropped: seq<IngestedNode> := [];
    var occurrences: map<ConfigKey, nat> := map[];
    var seen: set<ConfigKey> := {};
    for i := 0 to |ws|
      invariant kept == KeptOf(f, ws, i) && dropped == DroppedOf(f, ws, i) && occurrences == Occurrences(f, ws, i)
      invariant forall key :: key in seen <==> Earlier(f, ws, key, i)
    {
      var key := KeyAt(f, ws, i);
      occurrences := occurrences[key := (if key in occurrences then occurrences[key] else 0) + 1];
      if key in seen {
        dropped := dropped + [ws[i]];
      } else {
        seen := seen + {key};
        kept := kept + [ws[i]];
      }
      EarlierNext(f, ws, i);
    }
    return Ok(DedupOutcome(kept, dropped, occurrences));
  }

  // ---------------------------------------------------------------------------
  // Its meaning
  // ---------------------------------------------------------------------------

  /** A survivor is the first occurrence of its key, and survivors keep their order. */
  ghost predicate FirstAt(f: HostFacts, ws: seq<IngestedNode>, i: nat) {
    i < |ws| && !Earlier(f, ws, KeyAt(f, ws, i), i)
  }

  /** Exactly the first occurrences survive. */
  lemma {:induction false} KeptExactly(f: HostFacts, ws: seq<IngestedNode>, n: nat, w: IngestedNode)
    requires n <= |ws|
    ensures w in KeptOf(f, ws, n) <==> exists i :: 0 <= i < n && FirstAt(f, ws, i) && ws[i] == w
  {
    hide DedupKey;
    if n > 0 {
      KeptExactly(f, ws, n - 1, w);
      if ws[n - 1] == w && !Earlier(f, ws, KeyAt(f, ws, n - 1), n - 1) {
        assert FirstAt(f, ws, n - 1);
      }
    }
  }

  /** Exactly the later occurrences of a key are dropped: sharing an endpoint is never enough. */
  lemma {:induction false} DroppedExactly(f: HostFacts, ws: seq<IngestedNode>, n: nat, w: IngestedNode)
    requires n <= |ws|
    ensures w in DroppedOf(f, ws, n) <==>
            exists i, j :: 0 <= j < i < n && ws[i] == w && KeyAt(f, ws, j) == KeyAt(f, ws, i)
  {
    hide DedupKey;
    if n > 0 {
      DroppedExactly(f, ws, n - 1, w);
      if ws[n - 1] == w && Earlier(f, ws, KeyAt(f, ws, n - 1), n - 1) {
        var j :| 0 <= j < n - 1 && KeyAt(f, ws, j) == KeyAt(f, ws, n - 1);
        assert 0 <= j < n - 1 < n && ws[n - 1] == w;
      }
    }
  }

  ghost predicate Conserved(f: HostFacts, ws: seq<IngestedNode>, n: nat)
    requires n <= |ws|
  {
    && multiset(KeptOf(f, ws, n)) + multiset(DroppedOf(f, ws, n)) == multiset(ws[..n])
    && |KeptOf(f, ws, n)| + |DroppedOf(f, ws, n)| == n
  }

  lemma ConservedStep(f: HostFacts, ws: seq<IngestedNode>, n: nat)
    requires n < |ws| && Conserved(f, ws, n)
    ensures Conserved(f, ws, n + 1)
  {
    KeptStep(f, ws, n);
    hide KeptOf, DroppedOf;
    NextPart(KeptOf(f, ws, n), DroppedOf(f, ws, n), KeptOf(f, ws, n + 1), DroppedOf(f, ws, n + 1), ws, n);
  }

  lemma ConservedNone(f: HostFacts, ws: seq<IngestedNode>)
    ensures Conserved(f, ws, 0)
  {
    var none: seq<IngestedNode> := [];
    assert ws[..0] == none && KeptOf(f, ws, 0) == none && DroppedOf(f, ws, 0) == none;
    hide KeptOf, DroppedOf;
    assert multiset(none) == multiset{};
  }

  lemma {:induction false} ConservedUpTo(f: HostFacts, ws: seq<IngestedNode>, n: nat)
    requires n <= |ws|
    ensures Conserved(f, ws, n)
  {
    hide Conserved, KeptOf, DroppedOf;
    if n == 0 {
      ConservedNone(f, ws);
    } else {
      ConservedUpTo(f, ws, n - 1);
      ConservedStep(f, ws, n - 1);
    }
  }

  /** Nothing is lost or invented: survivors and dropped together are the input. */
  lemma DedupConserves(f: HostFacts, ws: seq<IngestedNode>)
    ensures multiset(Deduped(f, ws).kept) + multiset(Deduped(f, ws).dropped) == multiset(ws)
    ensures |Deduped(f, ws).kept| + |Deduped(f, ws).dropped| == |ws|
  {
    ConservedUpTo(f, ws, |ws|);
    assert ws[..|ws|] == ws;
  }

  lemma KeptStep(f: HostFacts, ws: seq<IngestedNode>, i: nat)
    requires i < |ws|
    ensures (KeptOf(f, ws, i + 1) == KeptOf(f, ws, i) && DroppedOf(f, ws, i + 1) == DroppedOf(f, ws, i) + [ws[i]])
            || (KeptOf(f, ws, i + 1) == KeptOf(f, ws, i) + [ws[i]] && DroppedOf(f, ws, i + 1) == DroppedOf(f, ws, i))
  {
    hide Earlier, KeyAt;
  }

  lemma NextPart<T>(k: seq<T>, d: seq<T>, k': seq<T>, d': seq<T>, whole: seq<T>, n: nat)
    requires n < |whole| && multiset(k) + multiset(d) == multiset(whole[..n])
    requires (k' == k && d' == d + [whole[n]]) || (k' == k + [whole[n]] && d' == d)
    ensures multiset(k') + multiset(d') == multiset(whole[..n + 1])
  {
    OneMore(k, d, whole[..n], whole[n]);
    assert whole[..n + 1] == whole[..n] + [whole[n]];
  }

  lemma OneMore<T>(kept: seq<T>, dropped: seq<T>, whole: seq<T>, x: T)
    requires multiset(kept) + multiset(dropped) == multiset(whole)
    ensures multiset(kept + [x]) + multiset(dropped) == multiset(whole + [x])
    ensures multiset(kept) + multiset(dropped + [x]) == multiset(whole + [x])
  {
  }

  /** No two survivors share a key. */
  lemma {:induction false} KeptDistinct(f: HostFacts, ws: seq<IngestedNode>, n: nat)
    requires n <= |ws|
    ensures forall i, j | 0 <= i < j < |KeptOf(f, ws, n)| ::
              DedupKey(f, KeptOf(f, ws, n)[i].node) != DedupKey(f, KeptOf(f, ws, n)[j].node)
  {
    hide DedupKey;
    if n > 0 {
      KeptDistinct(f, ws, n - 1);
      var front := KeptOf(f, ws, n - 1);
      forall i | 0 <= i < |front| ensures Earlier(f, ws, DedupKey(f, front[i].node), n - 1) {
        KeptExactly(f, ws, n - 1, front[i]);
        var k :| 0 <= k < n - 1 && FirstAt(f, ws, k) && ws[k] == front[i];
        assert KeyAt(f, ws, k) == DedupKey(f, front[i].node);
      }
    }
  }

  /** Every input configuration is represented among the survivors. */
  lemma {:induction false} Represented(f: HostFacts, ws: seq<IngestedNode>, i: nat)
    requires i < |ws|
    ensures exists w :: w in KeptOf(f, ws, |ws|) && DedupKey(f, w.node) == KeyAt(f, ws, i)
  {
    hide DedupKey;
    if FirstAt(f, ws, i) {
      KeptExactly(f, ws, |ws|, ws[i]);
    } else {
      var j :| 0 <= j < i && KeyAt(f, ws, j) == KeyAt(f, ws, i);
      Represented(f, ws, j);
    }
  }

  /** The counters of the report: one occurrence group per survivor. */
  lemma {:induction false} GroupsAreSurvivors(f: HostFacts, ws: seq<IngestedNode>, n: nat)
    requires n <= |ws|
    ensures |Occurrences(f, ws, n)| == |KeptOf(f, ws, n)|
    ensures forall key :: key in Occurrences(f, ws, n) <==> Earlier(f, ws, key, n)
    ensures forall key | key in Occurrences(f, ws, n) :: Occurrences(f, ws, n)[key] >= 1
  {
    hide KeyAt, Earlier;
    NothingEarlier(f, ws);
    if n > 0 {
      GroupsAreSurvivors(f, ws, n - 1);
      var key := KeyAt(f, ws, n - 1);
      var m := Occurrences(f, ws, n - 1);
      EarlierNext(f, ws, n - 1);
      SizeAfter(m, key, (if key in m then m[key] else 0) + 1);
    }
  }

  lemma SizeAfter<K, V>(m: map<K, V>, k: K, v: V)
    ensures |m[k := v]| == if k in m then |m| else |m| + 1
  {
    assert m[k := v].Keys == m.Keys + {k};
    assert |m| == |m.Keys| && |m[k := v]| == |m[k := v].Keys|;
  }

  /** Deduplicating the survivors again drops nothing. */
  lemma DedupIdempotent(f: HostFacts, ws: seq<IngestedNode>)
    ensures KeptOf(f, KeptOf(f, ws, |ws|), |KeptOf(f, ws, |ws|)|) == KeptOf(f, ws, |ws|)
  {
    KeptDistinct(f, ws, |ws|);
    var kept := KeptOf(f, ws, |ws|);
    AllKept(f, kept, |kept|);
    assert kept[..|kept|] == kept;
  }

  lemma {:induction false} AllKept(f: HostFacts, ws: seq<IngestedNode>, n: nat)
    requires n <= |ws| && forall i, j | 0 <= i < j < |ws| :: DedupKey(f, ws[i].node) != DedupKey(f, ws[j].node)
    ensures KeptOf(f, ws, n) == ws[..n]
  {
    hide DedupKey;
    if n > 0 {
      AllKept(f, ws, n - 1);
      assert ws[..n] == ws[..n - 1] + [ws[n - 1]];
    }
  }

  // ---------------------------------------------------------------------------
  // What a duplicate is
  // ---------------------------------------------------------------------------

  /** `r` is `s` without its last dot, if it ends in one. */
  predicate Undotted(s: string, r: string) {
    s == r + "." || (s == r && (s == "" || s[|s| - 1] != '.'))
  }

  /** Host texts are compared stripped, in lower case, without the brackets of an address and one trailing dot. */
  lemma CanonicalSpelled(f: HostFacts, host: string, bare: string)
    requires var h := f.lower(Strip(host, f.space));
             h == "[" + bare + "]" || (h == bare && (h == "" || h[0] != '[' || h[|h| - 1] != ']'))
    ensures Undotted(if ':' in bare then f.lower(bare) else bare, CanonicalHost(f, host))
  {
    var h := f.lower(Strip(host, f.space));
    if h == "[" + bare + "]" {
      assert h[1..|h| - 1] == bare;
    }
    hide Strip;
    var cased := if ':' in bare then f.lower(bare) else bare;
    if cased != "" && cased[|cased| - 1] == '.' {
      assert cased == cased[..|cased| - 1] + ".";
    }
  }

  /** Two nodes are duplicates exactly when everything of their configurations agrees, the dialled hosts canonically. */
  lemma DuplicatesExactly(f: HostFacts, m: Node, n: Node)
    ensures DedupKey(f, m) == DedupKey(f, n) <==>
            && CanonicalHost(f, m.endpoint.IdentityHost()) == CanonicalHost(f, n.endpoint.IdentityHost())
            && m.protocol == n.protocol && m.endpoint.port == n.endpoint.port
            && m.uuid == n.uuid && m.password == n.password && m.secret == n.secret
            && m.sni == n.sni && m.hostHeader == n.hostHeader && m.transport == n.transport && m.security == n.security
            && m.path == n.path && m.serviceName == n.serviceName && m.alpn == n.alpn
            && m.fingerprint == n.fingerprint && m.allowInsecure == n.allowInsecure && m.flow == n.flow
            && m.protocolFields == n.protocolFields
  {
    hide CanonicalHost;
  }

  function KeysIn(f: HostFacts, ws: seq<IngestedNode>, n: nat): seq<ConfigKey>
    requires n <= |ws|
  {
    seq(n, i requires 0 <= i < n => KeyAt(f, ws, i))
  }

  /** The counter of a key is how often it occurs. */
  lemma {:induction false} OccurrencesCounted(f: HostFacts, ws: seq<IngestedNode>, n: nat, key: ConfigKey)
    requires n <= |ws|
    ensures (if key in Occurrences(f, ws, n) then Occurrences(f, ws, n)[key] else 0) == multiset(KeysIn(f, ws, n))[key]
  {
    hide KeyAt;
    if n > 0 {
      OccurrencesCounted(f, ws, n - 1, key);
      assert KeysIn(f, ws, n) == KeysIn(f, ws, n - 1) + [KeyAt(f, ws, n - 1)];
    }
  }
}

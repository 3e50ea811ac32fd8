/** The bounded TTL cache and the resolver that fills it from an injected transport. */
module NameResolution {
  import opened Common
  import opened Text
  import opened Sorting

  // ---------------------------------------------------------------------------
  // The cache as a value
  // ---------------------------------------------------------------------------

  datatype Entry<V> = Entry(expires: real, value: V)

  /** An insertion-ordered dictionary of expiring entries. */
  datatype Store<!K, V> = Store(order: seq<K>, data: map<K, Entry<V>>)

  function Dropped<K(!new), V>(s: Store<K, V>, k: K): Store<K, V> {
    Store(Select(s.order, x => x != k), s.data - {k})
  }

  function Inserted<K, V>(s: Store<K, V>, k: K, e: Entry<V>): Store<K, V> {
    Store(if k in s.data then s.order else s.order + [k], s.data[k := e])
  }

  /** `get`: an expired entry is removed. */
  function AfterGet<K(!new), V>(s: Store<K, V>, k: K, now: real): Store<K, V> {
    if k in s.data && now > s.data[k].expires then Dropped(s, k) else s
  }

  function Found<K, V>(s: Store<K, V>, k: K, now: real): Option<V> {
    if k in s.data && now <= s.data[k].expires then Some(s.data[k].value) else None
  }

  /** What a full cache gives up: the entry inserted first. */
  function Evicted<K(!new), V>(s: Store<K, V>, limit: nat): Store<K, V> {
    if |s.order| >= limit && s.order != [] then Dropped(s, s.order[0]) else s
  }

  function AfterPut<K(!new), V>(s: Store<K, V>, limit: nat, ttl: real, k: K, v: V, now: real): Store<K, V> {
    Inserted(Evicted(s, limit), k, Entry(now + ttl, v))
  }

  // ---------------------------------------------------------------------------
  // Runs
  // ---------------------------------------------------------------------------

  datatype Op<K, V> = Asked(key: K, at: real) | Cached(key: K, value: V, at: real)

  /** The cache after a run of operations, starting empty. */
  ghost function Run<K(!new), V>(ops: seq<Op<K, V>>, limit: nat, ttl: real): Store<K, V> {
    if ops == [] then Store([], map[])
    else
      var s := Run(ops[..|ops| - 1], limit, ttl);
      match ops[|ops| - 1]
      case Asked(k, now) => AfterGet(s, k, now)
      case Cached(k, v, now) => AfterPut(s, limit, ttl, k, v, now)
  }

  /** The answer for `k` that was put most recently, and when. */
  ghost function Latest<K, V>(ops: seq<Op<K, V>>, k: K): Option<(V, real)> {
    if ops == [] then None
    else
      var op := ops[|ops| - 1];
      if op.Cached? && op.key == k then Some((op.value, op.at)) else Latest(ops[..|ops| - 1], k)
  }

  ghost predicate Distinct<K>(order: seq<K>) {
    forall i, j | 0 <= i < j < |order| :: order[i] != order[j]
  }

  ghost predicate Coherent<K(!new), V>(s: Store<K, V>) {
    Distinct(s.order) && forall k :: k in s.order <==> k in s.data
  }

  /** Every entry is the most recent answer for its key, expiring one TTL after it was put. */
  ghost predicate Truthful<K(!new), V>(s: Store<K, V>, ops: seq<Op<K, V>>, ttl: real) {
    forall k | k in s.data :: Latest(ops, k).Some?
        && s.data[k] == Entry(Latest(ops, k).value.1 + ttl, Latest(ops, k).value.0)
  }

  lemma {:induction false} SelectOthers<K(!new)>(order: seq<K>, k: K)
    requires Distinct(order)
    ensures var rest := Select(order, x => x != k);
            && Distinct(rest) && (forall x :: x in rest <==> x in order && x != k)
            && |rest| == if k in order then |order| - 1 else |order|
  {
    if order != [] {
      SelectOthers(order[1..], k);
      assert forall x :: x in order <==> x == order[0] || x in order[1..];
    }
  }

  lemma PutCoherent<K(!new), V>(s: Store<K, V>, limit: nat, ttl: real, k: K, v: V, now: real)
    requires Coherent(s) && |s.order| <= limit && limit >= 1
    ensures Coherent(AfterPut(s, limit, ttl, k, v, now)) && |AfterPut(s, limit, ttl, k, v, now).order| <= limit
  {
    hide Select;
    if s.order != [] {
      SelectOthers(s.order, s.order[0]);
    }
  }

  /** Over every run the cache keeps its bound and each entry is the latest answer for its key. */
  lemma {:induction false} RunSound<K(!new), V(!new)>(ops: seq<Op<K, V>>, limit: nat, ttl: real)
    requires limit >= 1
    ensures Coherent(Run(ops, limit, ttl)) && |Run(ops, limit, ttl).order| <= limit
    ensures Truthful(Run(ops, limit, ttl), ops, ttl)
  {
    if ops != [] {
      var before := ops[..|ops| - 1];
      RunSound(before, limit, ttl);
      var s := Run(before, limit, ttl);
      match ops[|ops| - 1] {
        case Asked(k, now) => SelectOthers(s.order, k);
        case Cached(k, v, now) =>
          PutCoherent(s, limit, ttl, k, v, now);
          assert forall x | x != k :: Latest(ops, x) == Latest(before, x);
      }
    }
  }

  /** A hit is the most recently cached answer for that key, no older than the TTL. */
  lemma HitIsLatest<K(!new), V(!new)>(ops: seq<Op<K, V>>, limit: nat, ttl: real, k: K, now: real)
    requires limit >= 1 && Found(Run(ops, limit, ttl), k, now).Some?
    ensures Latest(ops, k).Some? && Found(Run(ops, limit, ttl), k, now) == Some(Latest(ops, k).value.0)
    ensures now <= Latest(ops, k).value.1 + ttl
  {
    RunSound(ops, limit, ttl);
  }

  // ---------------------------------------------------------------------------
  // Insertion order and expiry order
  // ---------------------------------------------------------------------------

  ghost predicate ByExpiry<K(!new), V>(s: Store<K, V>)
    requires Coherent(s)
  {
    forall i, j | 0 <= i < j < |s.order| :: s.data[s.order[i]].expires <= s.data[s.order[j]].expires
  }

  /** The clock never goes back, and a key is only put while it is absent. */
  ghost predicate Disciplined<K(!new), V>(ops: seq<Op<K, V>>, limit: nat, ttl: real) {
    ops == [] ||
    var before := ops[..|ops| - 1];
    var op := ops[|ops| - 1];
    && Disciplined(before, limit, ttl)
    && (before != [] ==> before[|before| - 1].at <= op.at)
    && (op.Cached? ==> op.key !in Run(before, limit, ttl).data)
  }

  lemma DisciplinedSnoc<K(!new), V(!new)>(ops: seq<Op<K, V>>, op: Op<K, V>, limit: nat, ttl: real)
    requires Disciplined(ops, limit, ttl) && (ops != [] ==> ops[|ops| - 1].at <= op.at)
    requires op.Cached? ==> op.key !in Run(ops, limit, ttl).data
    ensures Disciplined(ops + [op], limit, ttl)
  {
    assert (ops + [op])[..|ops|] == ops;
  }

  lemma {:induction false} SelectKeepsOrder<K(!new)>(order: seq<K>, k: K, i: nat, j: nat)
    requires Distinct(order)
    requires var rest := Select(order, x => x != k); i < j < |rest|
    ensures var rest := Select(order, x => x != k);
            exists p, q :: 0 <= p < q < |order| && order[p] == rest[i] && order[q] == rest[j]
  {
    var rest := Select(order, x => x != k);
    var inner := Select(order[1..], x => x != k);
    if order[0] == k {
      SelectKeepsOrder(order[1..], k, i, j);
      var p, q :| 0 <= p < q < |order[1..]| && order[1..][p] == inner[i] && order[1..][q] == inner[j];
      assert order[p + 1] == rest[i] && order[q + 1] == rest[j];
    } else if i > 0 {
      SelectKeepsOrder(order[1..], k, i - 1, j - 1);
      var p, q :| 0 <= p < q < |order[1..]| && order[1..][p] == inner[i - 1] && order[1..][q] == inner[j - 1];
      assert order[p + 1] == rest[i] && order[q + 1] == rest[j];
    } else {
      assert rest[j] in order[1..];
      var q :| 0 <= q < |order[1..]| && order[1..][q] == rest[j];
      assert order[0] == rest[i] && order[q + 1] == rest[j];
    }
  }

  lemma DropKeepsExpiry<K(!new), V>(s: Store<K, V>, k: K)
    requires Coherent(s) && ByExpiry(s)
    ensures Coherent(Dropped(s, k)) && ByExpiry(Dropped(s, k))
  {
    SelectOthers(s.order, k);
    var rest := Select(s.order, x => x != k);
    forall i, j | 0 <= i < j < |rest| ensures s.data[rest[i]].expires <= s.data[rest[j]].expires {
      SelectKeepsOrder(s.order, k, i, j);
    }
  }

  /** Under a monotone clock, as the resolver uses the cache, insertion order is expiry order. */
  lemma {:induction false} OrderIsExpiry<K(!new), V(!new)>(ops: seq<Op<K, V>>, limit: nat, ttl: real)
    requires limit >= 1 && Disciplined(ops, limit, ttl)
    ensures Coherent(Run(ops, limit, ttl)) && ByExpiry(Run(ops, limit, ttl))
    ensures ops != [] ==> forall k | k in Run(ops, limit, ttl).data ::
              Run(ops, limit, ttl).data[k].expires <= ops[|ops| - 1].at + ttl
  {
    RunSound(ops, limit, ttl);
    if ops != [] {
      var before := ops[..|ops| - 1];
      OrderIsExpiry(before, limit, ttl);
      RunSound(before, limit, ttl);
      var s := Run(before, limit, ttl);
      match ops[|ops| - 1] {
        case Asked(k, now) => DropKeepsExpiry(s, k);
        case Cached(k, v, now) =>
          if s.order != [] {
            DropKeepsExpiry(s, s.order[0]);
          }
          PutLast(Evicted(s, limit), k, Entry(now + ttl, v));
      }
    }
  }

  lemma PutLast<K(!new), V>(s: Store<K, V>, k: K, e: Entry<V>)
    requires Coherent(s) && ByExpiry(s) && k !in s.data && forall x | x in s.data :: s.data[x].expires <= e.expires
    ensures Coherent(Inserted(s, k, e)) && ByExpiry(Inserted(s, k, e))
  {
  }

  /** So what eviction removes is an entry nearest its expiry. */
  lemma EvictionIsNearestExpiry<K(!new), V(!new)>(ops: seq<Op<K, V>>, limit: nat, ttl: real, k: K)
    requires limit >= 1 && Disciplined(ops, limit, ttl)
    requires var s := Run(ops, limit, ttl); |s.order| >= limit && k in s.data
    ensures var s := Run(ops, limit, ttl);
            && s.order != [] && s.order[0] in s.data && s.order[0] !in Evicted(s, limit).data
            && s.data[s.order[0]].expires <= s.data[k].expires
  {
    OrderIsExpiry(ops, limit, ttl);
    var s := Run(ops, limit, ttl);
    var j :| 0 <= j < |s.order| && s.order[j] == k;
  }

  /**
   * Exactly when a put keeps the order: the key is absent (after an eviction), or every
   * entry inserted after it expires at the very same moment.
   */
  lemma PutKeepsOrderExactly<K(!new), V>(s: Store<K, V>, k: K, e: Entry<V>)
    requires Coherent(s) && ByExpiry(s) && forall x | x in s.data :: s.data[x].expires <= e.expires
    ensures Coherent(Inserted(s, k, e))
    ensures ByExpiry(Inserted(s, k, e)) <==>
              k !in s.data
              || forall i, j | 0 <= i < j < |s.order| && s.order[i] == k :: s.data[s.order[j]].expires == e.expires
  {
    var t := Inserted(s, k, e);
    if k !in s.data {
      PutLast(s, k, e);
    } else {
      assert t.order == s.order;
      assert forall x | x in s.data && x != k :: t.data[x] == s.data[x];
      if ByExpiry(t) {
        forall i, j | 0 <= i < j < |s.order| && s.order[i] == k ensures s.data[s.order[j]].expires == e.expires {
          assert t.data[t.order[i]].expires <= t.data[t.order[j]].expires;
        }
      }
    }
  }

  lemma RunPut<K(!new), V(!new)>(ops: seq<Op<K, V>>, k: K, v: V, now: real, limit: nat, ttl: real)
    ensures Run(ops + [Cached(k, v, now)], limit, ttl) == AfterPut(Run(ops, limit, ttl), limit, ttl, k, v, now)
  {
    assert (ops + [Cached(k, v, now)])[..|ops|] == ops;
  }

  /** Refreshing a key in place makes the cache evict an entry that would have lived longest. */
  lemma RefreshBreaksOrder<K(!new), V(!new)>(a: K, b: K, v: V, ttl: real)
    requires a != b
    ensures var s := Run([Cached(a, v, 0.0), Cached(b, v, 1.0), Cached(a, v, 2.0)], 3, ttl);
            Coherent(s) && s.order == [a, b] && !ByExpiry(s)
  {
    var none: seq<Op<K, V>> := [];
    var one, two := none + [Cached(a, v, 0.0)], none + [Cached(a, v, 0.0)] + [Cached(b, v, 1.0)];
    var ops := two + [Cached(a, v, 2.0)];
    assert ops == [Cached(a, v, 0.0), Cached(b, v, 1.0), Cached(a, v, 2.0)];
    RunPut(none, a, v, 0.0, 3, ttl);
    RunPut(one, b, v, 1.0, 3, ttl);
    RunPut(two, a, v, 2.0, 3, ttl);
    RunSound(ops, 3, ttl);
    assert Run(one, 3, ttl) == Store([a], map[a := Entry(ttl, v)]);
    assert Run(two, 3, ttl).order == [a, b];
    var s := Run(ops, 3, ttl);
    assert s.data[s.order[0]].expires == 2.0 + ttl && s.data[s.order[1]].expires == 1.0 + ttl;
  }

  // ---------------------------------------------------------------------------
  // The cache as an object
  // ---------------------------------------------------------------------------

  class TTLCache<K(==,!new), V(!new)> {
    const maxEntries: nat
    const ttl: real
    var order: seq<K>
    var data: map<K, Entry<V>>
    /** Everything that was asked of this cache so far. */
    ghost var ops: seq<Op<K, V>>

    function State(): Store<K, V>
      reads this
    {
      Store(order, data)
    }

    ghost predicate Valid()
      reads this
    {
      maxEntries >= 1 && State() == Run(ops, maxEntries, ttl)
    }

    constructor (maxEntries: int, ttl: real)
      ensures Valid() && ops == [] && order == [] && this.ttl == ttl
      ensures this.maxEntries == if maxEntries >= 1 then maxEntries else 1
    {
      this.maxEntries := if maxEntries >= 1 then maxEntries else 1;
      this.ttl := ttl;
      order, data, ops := [], map[], [];
    }

    method Get(k: K, now: real) returns (r: Option<V>)
      requires Valid()
      modifies this
      ensures Valid() && ops == old(ops) + [Asked(k, now)]
      ensures r == Found(old(State()), k, now)
      ensures State() == AfterGet(old(State()), k, now)
    {
      ops := ops + [Asked(k, now)];
      assert ops[..|ops| - 1] == old(ops);
      if k !in data {
        return None;
      }
      var item := data[k];
      if now > item.expires {
        order, data := Select(order, x => x != k), data - {k};
        return None;
      }
      return Some(item.value);
    }

    method Put(k: K, v: V, now: real)
      requires Valid()
      modifies this
      ensures Valid() && ops == old(ops) + [Cached(k, v, now)]
      ensures State() == AfterPut(old(State()), maxEntries, ttl, k, v, now)
      ensures |order| <= maxEntries
    {
      RunSound(ops, maxEntries, ttl);
      PutCoherent(State(), maxEntries, ttl, k, v, now);
      RunPut(ops, k, v, now, maxEntries, ttl);
      hide Run, Truthful, Coherent, Select;
      ops := ops + [Cached(k, v, now)];
      if |order| >= maxEntries {
        var oldest := order[0];
        order, data := Select(order, x => x != oldest), data - {oldest};
      }
      if k !in data {
        order := order + [k];
      }
      data := data[k := Entry(now + ttl, v)];
    }
  }

  // ---------------------------------------------------------------------------
  // The resolver
  // ---------------------------------------------------------------------------

  datatype Ip = Ip(value: string, v4: bool)

  /** Library facts: `str.strip`/`str.lower` and the `ipaddress` parser. */
  datatype NameFacts = NameFacts(space: char -> bool, lower: string -> string, isLiteral: string -> bool,
                                 classify: string -> Option<Ip>)

  datatype Status = OK | NXDOMAIN | TIMEOUT | TEMP_FAIL | INVALID

  datatype Resolved = Resolved(host: string, status: Status, ipv4: seq<string>, ipv6: seq<string>, error: string)

  /** The families of `gaierror`. */
  datatype NameFailure = HostNotFound | TryAgain | NameTimeout | Unexplained

  /** What the transport may answer: address rows (`None` for a malformed one) or one of its failures. */
  datatype Answer =
    | Rows(rows: seq<Option<string>>)
    | NameError(failure: NameFailure)
    | TimedOut | SystemError | BadInput | OtherError

  /** `_classify_gaierror`: the status and the short error of each family. */
  function Classified(failure: NameFailure): (Status, string) {
    match failure
    case HostNotFound => (NXDOMAIN, "nxdomain")
    case TryAgain => (TEMP_FAIL, "temp_fail")
    case NameTimeout => (TIMEOUT, "timeout")
    case Unexplained => (TEMP_FAIL, "resolve_error")
  }

  const MAX_ADDRS_PER_HOST := 64

  function NoAddress(host: string, status: Status, error: string): Resolved {
    Resolved(host, status, [], [], error)
  }

  function CleanHost(f: NameFacts, host: string): string {
    f.lower(Strip(Strip(host, f.space), c => c == '.'))
  }

  function Bare(host: string): string {
    Strip(host, c => c == '[' || c == ']')
  }

  /** Answered without asking anyone: an empty name, or an address literal. */
  function Direct(f: NameFacts, host: string): Option<Resolved> {
    if host == "" then Some(NoAddress("", INVALID, "empty_host"))
    else if !f.isLiteral(Bare(host)) then None
    else
      match f.classify(Bare(host))
      case None => Some(NoAddress(host, INVALID, "bad_literal"))
      case Some(ip) =>
        Some(Resolved(host, OK, if ip.v4 then [Bare(host)] else [], if ip.v4 then [] else [Bare(host)], ""))
  }

  /** Addresses of one version among the first `n` rows: each raw text counts once, in first-seen order. */
  function Addresses(f: NameFacts, rows: seq<Option<string>>, n: nat, v4: bool): seq<string>
    requires n <= |rows|
  {
    if n == 0 then []
    else
      Addresses(f, rows, n - 1, v4)
      + (if rows[n - 1].Some? && rows[n - 1] !in rows[..n - 1] && f.classify(rows[n - 1].value).Some?
            && f.classify(rows[n - 1].value).value.v4 == v4
         then [f.classify(rows[n - 1].value).value.value] else [])
  }

  /** An address is retained exactly when some well-formed row says it. */
  lemma {:induction false} AddressesExactly(f: NameFacts, rows: seq<Option<string>>, n: nat, v4: bool, address: string)
    requires n <= |rows|
    ensures address in Addresses(f, rows, n, v4) <==>
              exists k :: 0 <= k < n && rows[k].Some? && f.classify(rows[k].value) == Some(Ip(address, v4))
  {
    if n > 0 {
      AddressesExactly(f, rows, n - 1, v4, address);
      if rows[n - 1] in rows[..n - 1] {
        var k :| 0 <= k < n - 1 && rows[..n - 1][k] == rows[n - 1];
        assert rows[k] == rows[n - 1];
      }
    }
  }

  function Capped(s: seq<string>): seq<string> {
    if |s| > MAX_ADDRS_PER_HOST then s[..MAX_ADDRS_PER_HOST] else s
  }

  /** The record an answer stands for. */
  function Interpret(f: NameFacts, host: string, answer: Answer): Resolved {
    match answer
    case NameError(failure) => NoAddress(host, Classified(failure).0, Classified(failure).1)
    case TimedOut => NoAddress(host, TIMEOUT, "timeout")
    case SystemError => NoAddress(host, TEMP_FAIL, "os_error")
    case BadInput => NoAddress(host, INVALID, "bad_input")
    case OtherError => NoAddress(host, TEMP_FAIL, "resolver_error")
    case Rows(rows) =>
      var v4, v6 := Addresses(f, rows, |rows|, true), Addresses(f, rows, |rows|, false);
      if v4 == [] && v6 == [] then NoAddress(host, INVALID, "malformed_result")
      else Resolved(host, OK, Capped(v4), Capped(v6), "")
  }

  /** Some row of the answer is an address. */
  ghost predicate HasAddress(f: NameFacts, answer: Answer) {
    answer.Rows? && exists k :: 0 <= k < |answer.rows| && answer.rows[k].Some? && f.classify(answer.rows[k].value).Some?
  }

  /** `address` is what some row of the answer says. */
  ghost predicate Said(f: NameFacts, answer: Answer, address: string, v4: bool) {
    answer.Rows? && exists k ::
      0 <= k < |answer.rows| && answer.rows[k].Some? && f.classify(answer.rows[k].value) == Some(Ip(address, v4))
  }

  /**
   * What a caller can rely on, whatever the transport did: a record is OK exactly when some
   * row was an address; it holds at most 64 addresses of each family, all of them said by
   * the transport and all it said below that cap; and a record that is not OK holds none
   * and gives a reason.
   */
  lemma AnswerMeans(f: NameFacts, host: string, answer: Answer)
    ensures var r := Interpret(f, host, answer);
            && r.host == host
            && (r.status == OK <==> HasAddress(f, answer))
            && (r.status == OK <==> r.ipv4 != [] || r.ipv6 != [])
            && (r.status == OK <==> r.error == "")
            && |r.ipv4| <= 64 && |r.ipv6| <= 64
    ensures forall a | a in Interpret(f, host, answer).ipv4 :: Said(f, answer, a, true)
    ensures forall a | a in Interpret(f, host, answer).ipv6 :: Said(f, answer, a, false)
    ensures |Interpret(f, host, answer).ipv4| < 64 ==>
              forall a | Said(f, answer, a, true) :: a in Interpret(f, host, answer).ipv4
    ensures |Interpret(f, host, answer).ipv6| < 64 ==>
              forall a | Said(f, answer, a, false) :: a in Interpret(f, host, answer).ipv6
  {
    if answer.Rows? {
      forall a ensures Said(f, answer, a, true) <==> a in Addresses(f, answer.rows, |answer.rows|, true) {
        AddressesExactly(f, answer.rows, |answer.rows|, true, a);
      }
      forall a ensures Said(f, answer, a, false) <==> a in Addresses(f, answer.rows, |answer.rows|, false) {
        AddressesExactly(f, answer.rows, |answer.rows|, false, a);
      }
      hide Addresses;
      AddressFound(f, answer);
    }
  }

  /** What an answer without a usable address is called, and that the addresses kept are the first ones said. */
  lemma AnswersNamed(f: NameFacts, host: string, answer: Answer)
    ensures var r := Interpret(f, host, answer);
            && (answer == NameError(HostNotFound) ==> r == Resolved(host, NXDOMAIN, [], [], "nxdomain"))
            && (answer == NameError(TryAgain) ==> r == Resolved(host, TEMP_FAIL, [], [], "temp_fail"))
            && (answer == NameError(NameTimeout) ==> r == Resolved(host, TIMEOUT, [], [], "timeout"))
            && (answer == NameError(Unexplained) ==> r == Resolved(host, TEMP_FAIL, [], [], "resolve_error"))
            && (answer == TimedOut ==> r == Resolved(host, TIMEOUT, [], [], "timeout"))
            && (answer == SystemError ==> r == Resolved(host, TEMP_FAIL, [], [], "os_error"))
            && (answer == BadInput ==> r == Resolved(host, INVALID, [], [], "bad_input"))
            && (answer == OtherError ==> r == Resolved(host, TEMP_FAIL, [], [], "resolver_error"))
            && (answer.Rows? && r.status != OK ==> r == Resolved(host, INVALID, [], [], "malformed_result"))
            && (answer.Rows? && r.status == OK ==>
                  && r.ipv4 <= Addresses(f, answer.rows, |answer.rows|, true)
                  && r.ipv6 <= Addresses(f, answer.rows, |answer.rows|, false))
  {
    hide Addresses;
  }

  /**
   * Names are asked for in lower case, without surrounding white space and dots; an empty
   * one is invalid, an address in brackets or without is its own answer in its own family.
   */
  lemma DirectExactly(f: NameFacts, host: string)
    ensures CleanHost(f, host) == f.lower(Strip(Strip(host, f.space), c => c == '.'))
    ensures var bare := Strip(host, c => c == '[' || c == ']');
            if host == "" then Direct(f, host) == Some(Resolved("", INVALID, [], [], "empty_host"))
            else if !f.isLiteral(bare) then Direct(f, host) == None
            else if f.classify(bare).None? then Direct(f, host) == Some(Resolved(host, INVALID, [], [], "bad_literal"))
            else if f.classify(bare).value.v4 then Direct(f, host) == Some(Resolved(host, OK, [bare], [], ""))
            else Direct(f, host) == Some(Resolved(host, OK, [], [bare], ""))
  {
    hide Strip;
  }

  /** There is an address at all exactly when there is one of some family. */
  lemma AddressFound(f: NameFacts, answer: Answer)
    requires answer.Rows?
    requires forall a :: Said(f, answer, a, true) <==> a in Addresses(f, answer.rows, |answer.rows|, true)
    requires forall a :: Said(f, answer, a, false) <==> a in Addresses(f, answer.rows, |answer.rows|, false)
    ensures HasAddress(f, answer)
            <==> Addresses(f, answer.rows, |answer.rows|, true) != []
                 || Addresses(f, answer.rows, |answer.rows|, false) != []
  {
    var v4, v6 := Addresses(f, answer.rows, |answer.rows|, true), Addresses(f, answer.rows, |answer.rows|, false);
    hide Addresses;
    if HasAddress(f, answer) {
      var k :| 0 <= k < |answer.rows| && answer.rows[k].Some? && f.classify(answer.rows[k].value).Some?;
      var ip := f.classify(answer.rows[k].value).value;
      assert Said(f, answer, ip.value, ip.v4);
    }
    if v4 != [] {
      assert Said(f, answer, v4[0], true);
    }
    if v6 != [] {
      assert Said(f, answer, v6[0], false);
    }
  }

  method Collect(f: NameFacts, rows: seq<Option<string>>) returns (v4: seq<string>, v6: seq<string>)
    ensures v4 == Addresses(f, rows, |rows|, true) && v6 == Addresses(f, rows, |rows|, false)
  {
    v4, v6 := [], [];
    var seen: set<string> := {};
    for i := 0 to |rows|
      invariant v4 == Addresses(f, rows, i, true) && v6 == Addresses(f, rows, i, false)
      invariant forall ip :: ip in seen <==> Some(ip) in rows[..i]
    {
      assert rows[..i + 1] == rows[..i] + [rows[i]];
      if rows[i].None? || rows[i].value in seen {
        continue;
      }
      var ip := rows[i].value;
      seen := seen + {ip};
      var c := f.classify(ip);
      if c.None? {
        continue;
      }
      if c.value.v4 {
        v4 := v4 + [c.value.value];
      } else {
        v6 := v6 + [c.value.value];
      }
    }
  }

  type HostPort = (string, int)

  class Resolver {
    const cache: TTLCache<HostPort, Resolved>

    ghost predicate Valid()
      reads this, cache
    {
      cache.Valid() && Disciplined(cache.ops, cache.maxEntries, cache.ttl)
    }

    /** No operation so far happened after `now`. */
    ghost predicate NotBefore(now: real)
      reads this, cache
    {
      cache.ops == [] || cache.ops[|cache.ops| - 1].at <= now
    }

    constructor (cacheEntries: int, cacheTtl: real)
      ensures Valid() && fresh(cache) && cache.ops == []
    {
      cache := new TTLCache(cacheEntries, cacheTtl);
    }

    /**
     * `resolve`: literals and empty names need no transport; otherwise the cached record,
     * or what the transport answers, which is then cached unless it was a malformed name.
     */
    method Resolve(f: NameFacts, host: string, port: int, answer: Answer, asked: real, answered: real)
      returns (r: Resolved)
      requires Valid() && NotBefore(asked) && asked <= answered
      modifies cache
      ensures Valid() && NotBefore(answered)
      ensures var name := CleanHost(f, host);
        var key := (name, port);
        match Direct(f, name) {
          case Some(direct) => r == direct && cache.ops == old(cache.ops)
          case None =>
            match Found(old(cache.State()), key, asked) {
              case Some(hit) =>
                && r == hit && cache.ops == old(cache.ops) + [Asked(key, asked)]
                && Latest(old(cache.ops), key).Some? && r == Latest(old(cache.ops), key).value.0
                && asked <= Latest(old(cache.ops), key).value.1 + cache.ttl
              case None =>
                && r == Interpret(f, name, answer)
                && cache.ops == old(cache.ops) + [Asked(key, asked)]
                   + (if answer.BadInput? then [] else [Cached(key, r, answered)])
            }
        }
    {
      hide CleanHost, Interpret, Direct, Run, Disciplined, Latest;
      var name := CleanHost(f, host);
      var direct := Direct(f, name);
      if direct.Some? {
        return direct.value;
      }
      var key := (name, port);
      ghost var before := cache.ops;
      RunSound(before, cache.maxEntries, cache.ttl);
      var hit := cache.Get(key, asked);
      DisciplinedSnoc(before, Asked(key, asked), cache.maxEntries, cache.ttl);
      if hit.Some? {
        HitIsLatest(before, cache.maxEntries, cache.ttl, key, asked);
        return hit.value;
      }
      assert cache.ops + [] == cache.ops;
      r := Ask(f, name, answer);
      if !answer.BadInput? {
        MissIsAbsent(cache.State(), old(cache.State()), key, asked);
        ghost var between := cache.ops;
        cache.Put(key, r, answered);
        DisciplinedSnoc(between, Cached(key, r, answered), cache.maxEntries, cache.ttl);
      }
    }

    /** One question to the transport, with every failure contained; `AnswerMeans` says what the record holds. */
    method Ask(f: NameFacts, name: string, answer: Answer) returns (r: Resolved)
      ensures r == Interpret(f, name, answer)
    {
      match answer
      case Rows(rows) =>
        var v4, v6 := Collect(f, rows);
        if v4 == [] && v6 == [] {
          return NoAddress(name, INVALID, "malformed_result");
        }
        return Resolved(name, OK, Capped(v4), Capped(v6), "");
      case NameError(failure) =>
        var (status, error) := Classified(failure);
        return NoAddress(name, status, error);
      case TimedOut => return NoAddress(name, TIMEOUT, "timeout");
      case SystemError => return NoAddress(name, TEMP_FAIL, "os_error");
      case BadInput => return NoAddress(name, INVALID, "bad_input");
      case OtherError => return NoAddress(name, TEMP_FAIL, "resolver_error");
    }
  }

  lemma MissIsAbsent<K(!new), V>(after: Store<K, V>, s: Store<K, V>, k: K, now: real)
    requires Found(s, k, now).None? && after == AfterGet(s, k, now)
    ensures k !in after.data
  {
  }
}

/**
 * Python's `list.sort`/`sorted`: the stable ascending arrangement, which is unique,
 * here computed by insertion.
 */
module Sorting {
  ghost predicate Preorder<T(!new)>(le: (T, T) -> bool) {
    && (forall x, y :: le(x, y) || le(y, x))
    && (forall x, y, z :: le(x, y) && le(y, z) ==> le(x, z))
  }

  ghost predicate TotalOrder<T(!new)>(le: (T, T) -> bool) {
    Preorder(le) && forall x, y :: le(x, y) && le(y, x) ==> x == y
  }

  ghost predicate Ascending<T>(s: seq<T>, le: (T, T) -> bool) {
    forall i, j | 0 <= i < j < |s| :: le(s[i], s[j])
  }

  function Insert<T>(x: T, s: seq<T>, le: (T, T) -> bool): seq<T> {
    if s == [] || le(x, s[0]) then [x] + s else [s[0]] + Insert(x, s[1..], le)
  }

  function Sort<T>(s: seq<T>, le: (T, T) -> bool): seq<T> {
    if s == [] then [] else Insert(s[0], Sort(s[1..], le), le)
  }

  lemma {:induction false} InsertPermutes<T>(x: T, s: seq<T>, le: (T, T) -> bool)
    ensures multiset(Insert(x, s, le)) == multiset{x} + multiset(s)
  {
    if s != [] && !le(x, s[0]) {
      InsertPermutes(x, s[1..], le);
      assert s == [s[0]] + s[1..];
    }
  }

  lemma {:induction false} SortPermutes<T>(s: seq<T>, le: (T, T) -> bool)
    ensures multiset(Sort(s, le)) == multiset(s)
    ensures |Sort(s, le)| == |s|
  {
    if s != [] {
      SortPermutes(s[1..], le);
      InsertPermutes(s[0], Sort(s[1..], le), le);
      assert s == [s[0]] + s[1..];
    }
    assert |multiset(Sort(s, le))| == |multiset(s)|;
  }

  lemma {:induction false} InsertAscends<T(!new)>(x: T, s: seq<T>, le: (T, T) -> bool)
    requires Preorder(le) && Ascending(s, le)
    ensures Ascending(Insert(x, s, le), le)
  {
    var r := Insert(x, s, le);
    if s == [] {
    } else if le(x, s[0]) {
      forall i, j | 0 <= i < j < |r| ensures le(r[i], r[j]) {
        assert le(s[0], s[j - 1]) || j == 1;
      }
    } else {
      InsertAscends(x, s[1..], le);
      InsertPermutes(x, s[1..], le);
      forall j | 0 < j < |r| ensures le(s[0], r[j]) {
        assert r[j] == r[1..][j - 1] && r[j] in multiset(Insert(x, s[1..], le));
        assert r[j] == x || r[j] in s[1..];
      }
      assert r[1..] == Insert(x, s[1..], le);
    }
  }

  lemma {:induction false} SortAscends<T(!new)>(s: seq<T>, le: (T, T) -> bool)
    requires Preorder(le)
    ensures Ascending(Sort(s, le), le)
  {
    if s != [] {
      SortAscends(s[1..], le);
      InsertAscends(s[0], Sort(s[1..], le), le);
    }
  }

  function Map<T, U>(s: seq<T>, f: T -> U): (r: seq<U>)
    ensures |r| == |s| && forall i | 0 <= i < |s| :: r[i] == f(s[i])
  {
    seq(|s|, i requires 0 <= i < |s| => f(s[i]))
  }

  /** `key=`: rows are compared by their keys. */
  function ByKey<T, U>(key: T -> U, le: (U, U) -> bool): (T, T) -> bool {
    (x, y) => le(key(x), key(y))
  }

  lemma ByKeyPreordered<T(!new), U(!new)>(key: T -> U, le: (U, U) -> bool)
    requires Preorder(le)
    ensures Preorder(ByKey(key, le))
  {
    var f := ByKey(key, le);
    assert forall x, y :: f(x, y) <==> le(key(x), key(y));
  }

  /** Sorting rows by a key sorts the keys. */
  lemma {:induction false} SortMapsKeys<T, U>(s: seq<T>, key: T -> U, le: (U, U) -> bool)
    ensures Map(Sort(s, ByKey(key, le)), key) == Sort(Map(s, key), le)
  {
    if s != [] {
      SortMapsKeys(s[1..], key, le);
      assert Map(s, key)[1..] == Map(s[1..], key);
      InsertMapsKeys(s[0], Sort(s[1..], ByKey(key, le)), key, le);
    }
  }

  lemma {:induction false} InsertMapsKeys<T, U>(x: T, s: seq<T>, key: T -> U, le: (U, U) -> bool)
    ensures Map(Insert(x, s, ByKey(key, le)), key) == Insert(key(x), Map(s, key), le)
  {
    var f := ByKey(key, le);
    if s == [] || le(key(x), key(s[0])) {
    } else {
      InsertMapsKeys(x, s[1..], key, le);
      assert Map(s, key)[1..] == Map(s[1..], key);
      assert Insert(x, s, f) == [s[0]] + Insert(x, s[1..], f);
      assert Map(Insert(x, s, f), key)[1..] == Map(Insert(x, s[1..], f), key);
    }
  }

  /** The elements that satisfy `p`, in order. */
  function Select<T>(s: seq<T>, p: T -> bool): (r: seq<T>)
    ensures |r| <= |s| && forall x | x in r :: x in s && p(x)
  {
    if s == [] then [] else (if p(s[0]) then [s[0]] else []) + Select(s[1..], p)
  }

  lemma {:induction false} SelectAppend<T>(a: seq<T>, b: seq<T>, p: T -> bool)
    ensures Select(a + b, p) == Select(a, p) + Select(b, p)
  {
    if a == [] {
      assert a + b == b;
    } else {
      SelectAppend(a[1..], b, p);
      assert (a + b)[1..] == a[1..] + b && (a + b)[0] == a[0];
      var head := if p(a[0]) then [a[0]] else [];
      assert Select(a, p) == head + Select(a[1..], p);
      assert head + (Select(a[1..], p) + Select(b, p)) == head + Select(a[1..], p) + Select(b, p);
    }
  }

  lemma {:induction false} SelectCounts<T>(s: seq<T>, p: T -> bool)
    ensures forall x :: multiset(Select(s, p))[x] == if p(x) then multiset(s)[x] else 0
  {
    if s != [] {
      SelectCounts(s[1..], p);
      assert s == [s[0]] + s[1..];
      assert multiset(s) == multiset{s[0]} + multiset(s[1..]);
    }
  }

  /** Selecting commutes with rearranging. */
  lemma SelectPermutes<T>(a: seq<T>, b: seq<T>, p: T -> bool)
    requires multiset(a) == multiset(b)
    ensures multiset(Select(a, p)) == multiset(Select(b, p))
  {
    SelectCounts(a, p);
    SelectCounts(b, p);
    hide Select;
    assert multiset(Select(a, p)) == multiset(Select(b, p));
  }

  /** Selecting from a list without repeats gives a list without repeats. */
  lemma SelectOnce<T>(s: seq<T>, p: T -> bool)
    requires forall i, j | 0 <= i < j < |s| :: s[i] != s[j]
    ensures forall x :: multiset(Select(s, p))[x] <= 1
  {
    NoRepeats(s);
    SelectCounts(s, p);
  }

  function Without<T>(s: seq<T>, i: nat): seq<T>
    requires i < |s|
  {
    s[..i] + s[i + 1..]
  }

  lemma WithoutCounts<T>(s: seq<T>, i: nat)
    requires i < |s|
    ensures multiset(s) == multiset{s[i]} + multiset(Without(s, i))
  {
    assert s == s[..i] + [s[i]] + s[i + 1..];
  }

  lemma {:induction false} NoRepeats<T>(s: seq<T>)
    requires forall i, j | 0 <= i < j < |s| :: s[i] != s[j]
    ensures forall x :: multiset(s)[x] <= 1
  {
    if s != [] {
      var front, last := s[..|s| - 1], s[|s| - 1];
      NoRepeats(front);
      assert s == front + [last];
      assert last !in front;
    }
  }

  lemma Repeats<T>(s: seq<T>, i: nat, j: nat)
    requires i < j < |s| && s[i] == s[j]
    ensures multiset(s)[s[i]] >= 2
  {
    assert s == s[..j] + [s[j]] + s[j + 1..];
    assert s[i] in s[..j];
    assert multiset(s) == multiset(s[..j]) + multiset{s[j]} + multiset(s[j + 1..]);
  }

  lemma SingleOccurrences<T>(s: seq<T>)
    requires forall x :: multiset(s)[x] <= 1
    ensures forall i, j | 0 <= i < j < |s| :: s[i] != s[j]
  {
    forall i, j | 0 <= i < j < |s| ensures s[i] != s[j] {
      if s[i] == s[j] {
        Repeats(s, i, j);
      }
    }
  }

  /** Taking the same element out of two arrangements leaves two arrangements of the rest. */
  lemma RestsPermute<T>(a: seq<T>, b: seq<T>, i: nat)
    requires multiset(a) == multiset(b) && a != [] && i < |b| && b[i] == a[0]
    ensures multiset(a[1..]) == multiset(Without(b, i))
  {
    assert a == [a[0]] + a[1..];
    WithoutCounts(b, i);
    var whole, one := multiset(b), multiset{a[0]};
    assert multiset(a[1..]) == whole - one;
    assert multiset(Without(b, i)) == whole - one;
  }

  lemma Member<T>(a: seq<T>, b: seq<T>) returns (i: nat)
    requires multiset(a) == multiset(b) && a != []
    ensures i < |b| && b[i] == a[0]
  {
    assert a[0] in multiset(a);
    assert a[0] in multiset(b);
    i :| i < |b| && b[i] == a[0];
  }

  lemma MapWithout<T, U>(b: seq<T>, i: nat, f: T -> U)
    requires i < |b|
    ensures multiset(Map(b, f)) == multiset{f(b[i])} + multiset(Map(Without(b, i), f))
  {
    WithoutCounts(Map(b, f), i);
    assert Without(Map(b, f), i) == Map(Without(b, i), f);
  }

  /** So does applying a function to each element. */
  lemma {:induction false} MapPermutes<T, U>(a: seq<T>, b: seq<T>, f: T -> U)
    requires multiset(a) == multiset(b)
    ensures multiset(Map(a, f)) == multiset(Map(b, f))
    decreases |a|
  {
    if a == [] {
      assert |multiset(b)| == |b|;
    } else {
      var i := Member(a, b);
      RestsPermute(a, b, i);
      MapPermutes(a[1..], Without(b, i), f);
      MapWithout(b, i, f);
      MapWithout(a, 0, f);
      assert Without(a, 0) == a[1..];
    }
  }

  /** Insertion keeps elements that tie in the order they came. */
  lemma {:induction false} InsertStable<T(!new)>(x: T, s: seq<T>, le: (T, T) -> bool, p: T -> bool)
    requires Preorder(le) && forall y, z :: p(y) && p(z) ==> le(y, z)
    ensures Select(Insert(x, s, le), p) == Select([x] + s, p)
  {
    if s == [] || le(x, s[0]) {
    } else {
      InsertStable(x, s[1..], le, p);
      assert ([s[0]] + Insert(x, s[1..], le))[1..] == Insert(x, s[1..], le);
      assert ([x] + s[1..])[1..] == s[1..] && ([x] + s)[1..] == s;
      assert !(p(x) && p(s[0]));
    }
  }

  /** The sort is stable: the elements of any one tie class keep their order. */
  lemma {:induction false} SortStable<T(!new)>(s: seq<T>, le: (T, T) -> bool, p: T -> bool)
    requires Preorder(le) && forall y, z :: p(y) && p(z) ==> le(y, z)
    ensures Select(Sort(s, le), p) == Select(s, p)
  {
    if s != [] {
      SortStable(s[1..], le, p);
      InsertStable(s[0], Sort(s[1..], le), le, p);
      assert ([s[0]] + Sort(s[1..], le))[1..] == Sort(s[1..], le);
    }
  }

  /** Elements that tie are equal. */
  ghost predicate NoTies<T>(s: seq<T>, le: (T, T) -> bool) {
    forall x, y | x in s && y in s && le(x, y) && le(y, x) :: x == y
  }

  lemma HeadsEqual<T(!new)>(a: seq<T>, b: seq<T>, le: (T, T) -> bool)
    requires Preorder(le) && NoTies(a, le) && Ascending(a, le) && Ascending(b, le) && multiset(a) == multiset(b)
             && a != []
    ensures b != [] && a[0] == b[0]
  {
    var i := Member(a, b);
    var j := Member(b, a);
    assert le(a[0], a[0]) && le(b[0], b[0]);
    assert le(b[0], b[i]) && le(a[0], a[j]);
  }

  lemma {:induction false} AscendingWithoutTies<T(!new)>(a: seq<T>, b: seq<T>, le: (T, T) -> bool)
    requires Preorder(le) && NoTies(a, le) && Ascending(a, le) && Ascending(b, le) && multiset(a) == multiset(b)
    ensures a == b
  {
    hide Preorder;
    if a == [] {
      assert |multiset(b)| == |b|;
    } else {
      HeadsEqual(a, b, le);
      RestsPermute(a, b, 0);
      assert Without(b, 0) == b[1..];
      AscendingWithoutTies(a[1..], b[1..], le);
      assert a == [a[0]] + a[1..] && b == [b[0]] + b[1..];
    }
  }

  lemma SortWithoutTies<T(!new)>(a: seq<T>, b: seq<T>, le: (T, T) -> bool)
    requires Preorder(le) && NoTies(a, le) && multiset(a) == multiset(b)
    ensures Sort(a, le) == Sort(b, le)
  {
    SortPermutes(a, le);
    SortPermutes(b, le);
    SortAscends(a, le);
    SortAscends(b, le);
    forall x | x in Sort(a, le) ensures x in a {
      assert x in multiset(Sort(a, le));
    }
    AscendingWithoutTies(Sort(a, le), Sort(b, le), le);
  }

  /** Under a total order the sorted list depends only on which elements there are. */
  lemma SortCanonical<T(!new)>(a: seq<T>, b: seq<T>, le: (T, T) -> bool)
    requires TotalOrder(le) && multiset(a) == multiset(b)
    ensures Sort(a, le) == Sort(b, le)
  {
    SortWithoutTies(a, b, le);
  }

  /** Two elements brought to the front. */
  lemma BringForward<T>(s: seq<T>, i: nat, j: nat) returns (rest: seq<T>)
    requires i < |s| && j < |s| && s[i] != s[j]
    ensures multiset(s) == multiset([s[i], s[j]] + rest) == multiset([s[j], s[i]] + rest)
  {
    WithoutCounts(s, i);
    var once := Without(s, i);
    assert s[j] in multiset(s) && s[j] in multiset(once);
    var k :| 0 <= k < |once| && once[k] == s[j];
    WithoutCounts(once, k);
    rest := Without(once, k);
  }

  lemma SelectFirst<T>(x: T, s: seq<T>, p: T -> bool)
    requires p(x)
    ensures Select([x] + s, p) == [x] + Select(s, p)
  {
    assert ([x] + s)[1..] == s;
  }

  lemma TieDiffers<T(!new)>(x: T, y: T, rest: seq<T>, le: (T, T) -> bool, tie: T -> bool)
    requires Preorder(le) && x != y && tie(x) && tie(y) && forall u, v :: tie(u) && tie(v) ==> le(u, v)
    ensures Sort([x, y] + rest, le) != Sort([y, x] + rest, le)
  {
    hide Preorder, Sort, Select;
    var t, u := [x, y] + rest, [y, x] + rest;
    SortStable(t, le, tie);
    SortStable(u, le, tie);
    assert t == [x] + ([y] + rest) && u == [y] + ([x] + rest);
    SelectFirst(x, [y] + rest, tie);
    SelectFirst(y, [x] + rest, tie);
    assert Select(t, tie)[0] == x && Select(u, tie)[0] == y;
  }

  lemma TieClass<T(!new)>(x: T, le: (T, T) -> bool) returns (tie: T -> bool)
    requires Preorder(le)
    ensures forall z :: tie(z) <==> le(x, z) && le(z, x)
    ensures forall u, v :: tie(u) && tie(v) ==> le(u, v)
  {
    tie := z => le(x, z) && le(z, x);
  }

  /** Two different elements that tie can be swapped to change the sorted list. */
  lemma TieMatters<T(!new)>(s: seq<T>, le: (T, T) -> bool, i: nat, j: nat)
    requires Preorder(le) && i < |s| && j < |s| && s[i] != s[j] && le(s[i], s[j]) && le(s[j], s[i])
    ensures exists t :: multiset(t) == multiset(s) && Sort(t, le) != Sort(s, le)
  {
    hide Sort;
    var rest := BringForward(s, i, j);
    var tie := TieClass(s[i], le);
    assert le(s[i], s[i]);
    TieDiffers(s[i], s[j], rest, le, tie);
    var t, u := [s[i], s[j]] + rest, [s[j], s[i]] + rest;
    if Sort(t, le) != Sort(s, le) {
      assert multiset(t) == multiset(s);
    } else {
      assert multiset(u) == multiset(s);
    }
  }

  /** The order of the input is irrelevant exactly when only equal elements tie. */
  lemma OrderIrrelevantExactly<T(!new)>(s: seq<T>, le: (T, T) -> bool)
    requires Preorder(le)
    ensures (forall t | multiset(t) == multiset(s) :: Sort(t, le) == Sort(s, le)) <==> NoTies(s, le)
  {
    if NoTies(s, le) {
      forall t | multiset(t) == multiset(s) ensures Sort(t, le) == Sort(s, le) {
        SortWithoutTies(s, t, le);
      }
    } else {
      var x, y :| x in s && y in s && le(x, y) && le(y, x) && x != y;
      var i :| 0 <= i < |s| && s[i] == x;
      var j :| 0 <= j < |s| && s[j] == y;
      TieMatters(s, le, i, j);
    }
  }
}

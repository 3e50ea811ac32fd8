/** Text helpers with the meaning of the Python string methods the program uses. */
module Text {
  import opened Common

  /** Does `sep` occur in `s` at position 0? */
  predicate StartsWith(s: string, sep: string) {
    |sep| <= |s| && s[..|sep|] == sep
  }

  /** `sep.join(parts)`. */
  function Join(parts: seq<string>, sep: string): string {
    if parts == [] then ""
    else if |parts| == 1 then parts[0]
    else parts[0] + sep + Join(parts[1..], sep)
  }

  /** `s.split(sep)`: leftmost, non-overlapping. */
  function Split(s: string, sep: string): (parts: seq<string>)
    requires sep != ""
    ensures parts != []
    decreases |s|
  {
    if s == "" then [""]
    else if StartsWith(s, sep) then [""] + Split(s[|sep|..], sep)
    else
      var rest := Split(s[1..], sep);
      [[s[0]] + rest[0]] + rest[1..]
  }

  /** Some place of `s` shows `sub`. */
  ghost predicate Shows(s: string, sub: string) {
    exists p, r :: s == p + sub + r
  }

  predicate Free(s: string, c: char) {
    forall k | 0 <= k < |s| :: s[k] != c
  }

  lemma {:induction false} SplitHead(p: string, sep: string, rest: string)
    requires sep != "" && Free(p, sep[0])
    ensures Split(p + sep + rest, sep) == [p] + Split(rest, sep)
  {
    var s := p + sep + rest;
    if p == "" {
      assert s == sep + rest;
      assert s[..|sep|] == sep && s[|sep|..] == rest;
    } else {
      SplitHead(p[1..], sep, rest);
      assert s[1..] == p[1..] + sep + rest;
      assert s[0] == p[0] && s[..|sep|][0] == p[0];
      assert [p[0]] + p[1..] == p;
    }
  }

  lemma {:induction false} SplitNone(p: string, sep: string)
    requires sep != "" && Free(p, sep[0])
    ensures Split(p, sep) == [p]
  {
    if p != "" {
      SplitNone(p[1..], sep);
      assert [p[0]] + p[1..] == p;
    }
  }

  /** Joining and splitting are inverse when no part contains the separator's first character. */
  lemma {:induction false} SplitJoin(parts: seq<string>, sep: string)
    requires sep != "" && parts != [] && (forall k | 0 <= k < |parts| :: Free(parts[k], sep[0]))
    ensures Split(Join(parts, sep), sep) == parts
  {
    if |parts| == 1 {
      SplitNone(parts[0], sep);
    } else {
      SplitHead(parts[0], sep, Join(parts[1..], sep));
      SplitJoin(parts[1..], sep);
    }
  }

  lemma {:induction false} JoinSplit(s: string, sep: string)
    requires sep != ""
    ensures Join(Split(s, sep), sep) == s
    decreases |s|
  {
    if s == "" {
    } else if StartsWith(s, sep) {
      JoinSplit(s[|sep|..], sep);
      assert s == "" + sep + s[|sep|..];
      assert ([""] + Split(s[|sep|..], sep))[1..] == Split(s[|sep|..], sep);
    } else {
      JoinSplit(s[1..], sep);
      JoinPrepend(s[0], Split(s[1..], sep), sep);
      assert s == [s[0]] + s[1..];
    }
  }

  lemma JoinPrepend(c: char, parts: seq<string>, sep: string)
    requires parts != []
    ensures Join([[c] + parts[0]] + parts[1..], sep) == [c] + Join(parts, sep)
  {
    var more := [[c] + parts[0]] + parts[1..];
    assert more[1..] == parts[1..];
    if |parts| > 1 {
      assert [c] + parts[0] + sep + Join(parts[1..], sep) == [c] + (parts[0] + sep + Join(parts[1..], sep));
    }
  }

  /** No piece of a split contains a one-character separator. */
  lemma {:induction false} SplitFree(s: string, c: char)
    ensures forall k | 0 <= k < |Split(s, [c])| :: Free(Split(s, [c])[k], c)
    decreases |s|
  {
    if s == "" {
    } else if StartsWith(s, [c]) {
      SplitFree(s[1..], c);
    } else {
      SplitFree(s[1..], c);
      assert s[..1] == [s[0]];
    }
  }

  /** `s.split(c, 1)[0]`: everything before the first `c`, or all of `s`. */
  function Before(s: string, c: char): (r: string)
    ensures |r| <= |s| && s[..|r|] == r && Free(r, c)
    ensures |r| < |s| ==> s[|r|] == c
  {
    if s == "" || s[0] == c then "" else [s[0]] + Before(s[1..], c)
  }

  lemma BeforeUnique(s: string, c: char, r: string)
    requires |r| <= |s| && s[..|r|] == r && Free(r, c) && (|r| < |s| ==> s[|r|] == c)
    ensures Before(s, c) == r
  {
    var b := Before(s, c);
    assert forall k | 0 <= k < |r| :: s[k] == r[k];
    assert forall k | 0 <= k < |b| :: s[k] == b[k];
    assert |b| == |r|;
  }

  /** The part after the first `c`; empty when there is none (see `Has`). */
  function After(s: string, c: char): string {
    var r := Before(s, c);
    if |r| < |s| then s[|r| + 1..] else ""
  }

  /** Position of the last `c` plus one, or 0: where `rpartition`/`rsplit(c, 1)` cuts. */
  function LastCut(s: string, c: char): (n: nat)
    ensures n <= |s| && (n > 0 ==> s[n - 1] == c) && Free(s[n..], c)
  {
    if s == "" then 0
    else if s[|s| - 1] == c then |s|
    else
      var n := LastCut(s[..|s| - 1], c);
      assert forall k | n <= k < |s| - 1 :: s[k] == s[..|s| - 1][n..][k - n];
      n
  }

  /** `c in s`. */
  predicate Has(s: string, c: char) {
    c in s
  }

  // ---------------------------------------------------------------------------
  // Stripping
  // ---------------------------------------------------------------------------

  function StripLeft(s: string, drop: char -> bool): string {
    if s != "" && drop(s[0]) then StripLeft(s[1..], drop) else s
  }

  function StripRight(s: string, drop: char -> bool): string {
    if s != "" && drop(s[|s| - 1]) then StripRight(s[..|s| - 1], drop) else s
  }

  /** `s.strip()` for a given set of characters. */
  function Strip(s: string, drop: char -> bool): string {
    StripRight(StripLeft(s, drop), drop)
  }

  predicate Stripped(s: string, drop: char -> bool) {
    s == "" || (!drop(s[0]) && !drop(s[|s| - 1]))
  }

  lemma {:induction false} StripRightEnds(s: string, drop: char -> bool)
    ensures var r := StripRight(s, drop); |r| <= |s| && r == s[..|r|] && (r == "" || !drop(r[|r| - 1]))
  {
    if s != "" && drop(s[|s| - 1]) {
      StripRightEnds(s[..|s| - 1], drop);
      assert s[..|s| - 1][..|StripRight(s, drop)|] == s[..|StripRight(s, drop)|];
    }
  }

  lemma {:induction false} StripLeftEnds(s: string, drop: char -> bool)
    ensures var r := StripLeft(s, drop); |r| <= |s| && r == s[|s| - |r|..] && (r == "" || !drop(r[0]))
  {
    if s != "" && drop(s[0]) {
      StripLeftEnds(s[1..], drop);
    }
  }

  /** Stripping leaves no droppable character at either end. */
  lemma StripEnds(s: string, drop: char -> bool)
    ensures Stripped(Strip(s, drop), drop)
  {
    StripLeftEnds(s, drop);
    StripRightEnds(StripLeft(s, drop), drop);
  }

  ghost predicate Only(s: string, p: char -> bool) {
    forall k | 0 <= k < |s| :: p(s[k])
  }

  lemma {:induction false} StripRightDrops(s: string, drop: char -> bool)
    ensures var r := StripRight(s, drop); |r| <= |s| && r == s[..|r|] && Only(s[|r|..], drop)
  {
    if s != "" && drop(s[|s| - 1]) {
      var t := s[..|s| - 1];
      StripRightDrops(t, drop);
      var r := StripRight(t, drop);
      assert t[..|r|] == s[..|r|] && s[|r|..] == t[|r|..] + [s[|s| - 1]];
    }
  }

  lemma {:induction false} StripLeftDrops(s: string, drop: char -> bool)
    ensures var r := StripLeft(s, drop); |r| <= |s| && r == s[|s| - |r|..] && Only(s[..|s| - |r|], drop)
  {
    if s != "" && drop(s[0]) {
      StripLeftDrops(s[1..], drop);
      var r := StripLeft(s[1..], drop);
      assert s[..|s| - |r|] == [s[0]] + s[1..][..|s| - 1 - |r|];
    }
  }

  /** Stripping takes droppable characters off both ends, all of them and nothing else. */
  lemma StripExactly(s: string, drop: char -> bool)
    ensures exists a, b :: s == a + Strip(s, drop) + b && Only(a, drop) && Only(b, drop)
    ensures Stripped(Strip(s, drop), drop)
  {
    StripEnds(s, drop);
    StripLeftDrops(s, drop);
    var l := StripLeft(s, drop);
    StripRightDrops(l, drop);
    var r := StripRight(l, drop);
    hide StripLeft, StripRight, Only;
    var a, b := s[..|s| - |l|], l[|r|..];
    assert s == a + l && l == r + b;
    assert s == a + r + b;
  }

  lemma StripFix(s: string, drop: char -> bool)
    requires Stripped(s, drop)
    ensures Strip(s, drop) == s
  {
  }

  /** Characters of `s` that satisfy `keep`, in order. */
  function Keep(s: string, keep: char -> bool): (r: string)
    ensures forall k | 0 <= k < |r| :: keep(r[k])
    ensures |r| <= |s|
  {
    if s == "" then "" else (if keep(s[0]) then [s[0]] else "") + Keep(s[1..], keep)
  }

  lemma {:induction false} KeepAppend(a: string, b: string, keep: char -> bool)
    ensures Keep(a + b, keep) == Keep(a, keep) + Keep(b, keep)
  {
    if a == "" {
      assert a + b == b;
    } else {
      KeepAppend(a[1..], b, keep);
      assert (a + b)[1..] == a[1..] + b && (a + b)[0] == a[0];
      var head := if keep(a[0]) then [a[0]] else "";
      assert Keep(a, keep) == head + Keep(a[1..], keep);
      assert head + (Keep(a[1..], keep) + Keep(b, keep)) == head + Keep(a[1..], keep) + Keep(b, keep);
    }
  }

  /** `s.replace(a, b)` for single characters. */
  function Swap(s: string, a: char, b: char): (r: string)
    ensures |r| == |s| && forall k | 0 <= k < |s| :: r[k] == (if s[k] == a then b else s[k])
  {
    seq(|s|, i requires 0 <= i < |s| => if s[i] == a then b else s[i])
  }

  // ---------------------------------------------------------------------------
  // Lexicographic order, by code point
  // ---------------------------------------------------------------------------

  predicate TextLe(a: string, b: string) {
    if a == "" then true
    else if b == "" then false
    else if a[0] != b[0] then a[0] < b[0]
    else TextLe(a[1..], b[1..])
  }

  lemma {:induction false} TextLeTotal(a: string, b: string)
    ensures TextLe(a, b) || TextLe(b, a)
    ensures TextLe(a, b) && TextLe(b, a) ==> a == b
  {
    if a != "" && b != "" && a[0] == b[0] {
      TextLeTotal(a[1..], b[1..]);
      assert a == [a[0]] + a[1..] && b == [b[0]] + b[1..];
    }
  }

  lemma {:induction false} TextLeTrans(a: string, b: string, c: string)
    requires TextLe(a, b) && TextLe(b, c)
    ensures TextLe(a, c)
  {
    if a != "" && b != "" && c != "" && a[0] == b[0] == c[0] {
      TextLeTrans(a[1..], b[1..], c[1..]);
    }
  }

  // ---------------------------------------------------------------------------
  // Decimal numerals
  // ---------------------------------------------------------------------------

  predicate IsDigit(c: char) {
    '0' <= c <= '9'
  }

  function Decimal(n: nat): (s: string)
    ensures s != "" && forall k | 0 <= k < |s| :: IsDigit(s[k])
  {
    var last := ['0' + (n % 10) as char];
    if n < 10 then last else Decimal(n / 10) + last
  }

  /** Reading a numeral back: decimal printing is injective. */
  function DecimalValue(s: string): nat
    requires forall k | 0 <= k < |s| :: IsDigit(s[k])
  {
    if s == "" then 0
    else
      var d := s[|s| - 1];
      assert IsDigit(d);
      10 * DecimalValue(s[..|s| - 1]) + (d - '0') as nat
  }

  lemma {:induction false} DecimalReads(n: nat)
    ensures DecimalValue(Decimal(n)) == n
  {
    var last := ['0' + (n % 10) as char];
    if n >= 10 {
      DecimalReads(n / 10);
      assert Decimal(n)[..|Decimal(n)| - 1] == Decimal(n / 10);
    } else {
      assert Decimal(n)[..0] == "";
    }
  }

  function Integer(n: int): string {
    if n < 0 then "-" + Decimal(-n) else Decimal(n)
  }

  lemma IntegerInjective(m: int, n: int)
    requires Integer(m) == Integer(n)
    ensures m == n
  {
    if m >= 0 { DecimalReads(m); assert IsDigit(Decimal(m)[0]); }
    else { DecimalReads(-m); assert Integer(m)[1..] == Decimal(-m); }
    if n >= 0 { DecimalReads(n); assert IsDigit(Decimal(n)[0]); }
    else { DecimalReads(-n); assert Integer(n)[1..] == Decimal(-n); }
  }
}

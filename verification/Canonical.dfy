/**
 * `_canonical_repr`, the printer behind the last two levels of the ranking order,
 * and when it can be read back without ambiguity.  It does not escape strings.
 */
module Canonical {
  import opened Common
  import opened Numbers
  import opened Model
  import opened Sorting
  import opened Text

  /** The values the printer distinguishes; tuples and lists are both `SeqOf`. */
  datatype Value =
    | NoneOf
    | BoolOf(b: bool)
    | EnumOf(enum: string, member: string)
    | FloatOf(f: Float)
    | IntOf(i: int)
    | StrOf(s: string)
    | MapOf(keys: seq<Value>, values: seq<Value>)
    | SetOf(members: seq<Value>)
    | SeqOf(items: seq<Value>)
    | RecOf(record: string, names: seq<string>, fields: seq<Value>)
    | OpaqueOf(mod: string, qualname: string)

  /** `repr` of a float: it tells numbers that can be written down apart, and avoids the closing characters. */
  ghost predicate GoodRepr(repr: Float -> string) {
    && (forall a, b | Rational(a) && Rational(b) && repr(a) == repr(b) :: a == b)
    && (forall a | Rational(a) :: Plain(repr(a)))
  }

  predicate Closing(c: char) {
    c == ',' || c == ')' || c == ']' || c == '}'
  }

  /** No character of `s` could be taken for the end of a value. */
  predicate Plain(s: string) {
    forall k | 0 <= k < |s| :: !Closing(s[k])
  }

  function Entries(keys: seq<string>, values: seq<string>): seq<(string, string)> {
    if keys == [] || values == [] then [] else [(keys[0], values[0])] + Entries(keys[1..], values[1..])
  }

  function Equations(entries: seq<(string, string)>): seq<string> {
    if entries == [] then [] else [entries[0].0 + "=" + entries[0].1] + Equations(entries[1..])
  }

  function Render(repr: Float -> string, v: Value): string
    decreases v, 1
  {
    match v
    case NoneOf => "none"
    case BoolOf(b) => if b then "bool:1" else "bool:0"
    case EnumOf(e, m) => "enum:" + e + "." + m
    case FloatOf(f) => "float:" + repr(f)
    case IntOf(i) => "int:" + Integer(i)
    case StrOf(s) => "str:" + s
    case MapOf(keys, values) =>
      var entries := Entries(RenderAll(repr, keys), RenderAll(repr, values));
      "map{" + Join(Equations(Sort(entries, (x: (string, string), y: (string, string)) => TextLe(x.0, y.0))), ",") + "}"
    case SetOf(members) => "set{" + Join(Sort(RenderAll(repr, members), TextLe), ",") + "}"
    case SeqOf(items) => "seq[" + Join(RenderAll(repr, items), ",") + "]"
    case RecOf(record, names, fields) =>
      "rec(" + record + ":" + Join(Equations(Entries(names, RenderAll(repr, fields))), ",") + ")"
    case OpaqueOf(mod, qualname) => "opaque:" + mod + "." + qualname
  }

  function RenderAll(repr: Float -> string, vs: seq<Value>): (r: seq<string>)
    ensures |r| == |vs|
    decreases vs, 0
  {
    if vs == [] then [] else [Render(repr, vs[0])] + RenderAll(repr, vs[1..])
  }

  // ---------------------------------------------------------------------------
  // A good printer of floats
  // ---------------------------------------------------------------------------

  /** One way to write numbers down: as a quotient. */
  ghost function QuotientText(f: Float): string {
    match f
    case PosInf => "inf"
    case NegInf => "-inf"
    case NaN => "nan"
    case Fin(r) =>
      if Rational(f) then
        var p: int, q: nat :| Quotient(p, q) == r;
        Fraction(p, q)
      else "irrational"
  }

  function Fraction(p: int, q: nat): string {
    Decimal(q) + "/" + Integer(p)
  }

  lemma FractionReads(p: int, q: nat, p': int, q': nat)
    requires Fraction(p, q) == Fraction(p', q')
    ensures p == p' && q == q'
  {
    assert Free(Decimal(q), '/') && Free(Decimal(q'), '/');
    assert Fraction(p, q) == Decimal(q) + ['/'] + Integer(p) && Fraction(p', q') == Decimal(q') + ['/'] + Integer(p');
    SplitAtFirst('/', Decimal(q), Decimal(q'), Integer(p), Integer(p'));
    DecimalReads(q);
    DecimalReads(q');
    IntegerInjective(p, p');
  }

  lemma FractionPlain(p: int, q: nat)
    ensures Plain(Fraction(p, q)) && IsDigit(Fraction(p, q)[0])
  {
    IntegerPlain(p);
    assert forall k | 0 <= k < |Decimal(q)| :: IsDigit(Decimal(q)[k]);
  }

  lemma QuotientIs(f: Float) returns (p: int, q: nat)
    requires f.Fin? && Rational(f)
    ensures Quotient(p, q) == f.r && QuotientText(f) == Fraction(p, q)
  {
    p, q :| Quotient(p, q) == f.r && QuotientText(f) == Fraction(p, q);
  }

  lemma QuotientsApart(a: Float, b: Float)
    requires Rational(a) && Rational(b) && QuotientText(a) == QuotientText(b)
    ensures a == b
  {
    if a.Fin? {
      var p, q := QuotientIs(a);
      FractionPlain(p, q);
      if b.Fin? {
        var p', q' := QuotientIs(b);
        FractionReads(p, q, p', q');
      }
    } else if b.Fin? {
      var p', q' := QuotientIs(b);
      FractionPlain(p', q');
    }
  }

  /** The law asks nothing impossible: writing quotients down meets it. */
  lemma GoodReprExists()
    ensures GoodRepr(QuotientText)
  {
    forall a, b | Rational(a) && Rational(b) && QuotientText(a) == QuotientText(b) ensures a == b {
      QuotientsApart(a, b);
    }
    forall a | Rational(a) ensures Plain(QuotientText(a)) {
      if a.Fin? {
        var p, q := QuotientIs(a);
        FractionPlain(p, q);
      }
    }
  }

  // ---------------------------------------------------------------------------
  // Unique readability
  // ---------------------------------------------------------------------------

  ghost predicate GoodNames(names: seq<string>) {
    forall k | 0 <= k < |names| :: Plain(names[k]) && Free(names[k], '=')
  }

  /** The value forms a node holds, with writable numbers and strings that avoid the closing characters. */
  ghost predicate Readable(v: Value)
    decreases v, 1
  {
    && (v.EnumOf? ==> Plain(v.enum) && Plain(v.member) && Free(v.enum, '.'))
    && (v.StrOf? ==> Plain(v.s))
    && (v.FloatOf? ==> Rational(v.f))
    && (v.SeqOf? ==> AllReadable(v.items))
    && (v.RecOf? ==>
          && Plain(v.record) && Free(v.record, ':') && |v.names| == |v.fields|
          && GoodNames(v.names) && AllReadable(v.fields))
    && !v.MapOf? && !v.SetOf? && !v.OpaqueOf?
  }

  ghost predicate AllReadable(vs: seq<Value>)
    decreases vs, 0
  {
    vs == [] || (Readable(vs[0]) && AllReadable(vs[1..]))
  }

  /** What follows a value: nothing, or a closing character. */
  predicate Follows(rest: string) {
    rest == "" || Closing(rest[0])
  }

  function Tag(v: Value): string {
    match v
    case NoneOf => "non" case BoolOf(_) => "boo" case EnumOf(_, _) => "enu" case FloatOf(_) => "flo"
    case IntOf(_) => "int" case StrOf(_) => "str" case MapOf(_, _) => "map" case SetOf(_) => "set"
    case SeqOf(_) => "seq" case RecOf(_, _, _) => "rec" case OpaqueOf(_, _) => "opa"
  }

  /** The first three characters tell the form. */
  lemma TagFirst(repr: Float -> string, v: Value)
    ensures |Render(repr, v)| >= 3 && Render(repr, v)[..3] == Tag(v)
  {
  }

  predicate IsLeaf(v: Value) {
    !v.MapOf? && !v.SetOf? && !v.SeqOf? && !v.RecOf?
  }

  lemma IntegerPlain(i: int)
    ensures Plain(Integer(i))
  {
    var d := Decimal(if i < 0 then -i else i);
    assert forall k | 0 <= k < |d| :: IsDigit(d[k]);
  }

  lemma LeafPlain(repr: Float -> string, v: Value)
    requires GoodRepr(repr) && Readable(v) && IsLeaf(v)
    ensures Plain(Render(repr, v))
  {
    if v.IntOf? {
      IntegerPlain(v.i);
    }
  }

  /** Two tokens before closing characters are equal. */
  lemma TokenEnds(a: string, b: string, x: string, y: string)
    requires Plain(a) && Plain(b) && Follows(x) && Follows(y) && a + x == b + y
    ensures a == b && x == y
  {
    var s := a + x;
    assert forall k | 0 <= k < |a| :: !Closing(s[k]);
    assert forall k | 0 <= k < |b| :: !Closing(s[k]);
    assert |a| < |s| ==> Closing(s[|a|]);
    assert |b| < |s| ==> Closing(s[|b|]);
    assert |a| == |b|;
    assert (a + x)[|a|..] == x && (b + y)[|b|..] == y;
    assert (a + x)[..|a|] == a && (b + y)[..|b|] == b;
  }

  lemma SplitAtFirst(c: char, a: string, b: string, x: string, y: string)
    requires Free(a, c) && Free(b, c) && a + [c] + x == b + [c] + y
    ensures a == b && x == y
  {
    var s := a + [c] + x;
    assert s[..|a|] == a && s[|a|] == c && s == b + [c] + y && s[..|b|] == b && s[|b|] == c;
    BeforeUnique(s, c, a);
    BeforeUnique(s, c, b);
    assert s[|a| + 1..] == x && s[|b| + 1..] == y;
  }

  lemma LeavesRead(repr: Float -> string, a: Value, b: Value)
    requires GoodRepr(repr) && Readable(a) && Readable(b) && IsLeaf(a) && IsLeaf(b)
             && Render(repr, a) == Render(repr, b)
    ensures a == b
  {
    TagFirst(repr, a);
    TagFirst(repr, b);
    var r := Render(repr, a);
    match a {
      case EnumOf(e, m) =>
        assert r[5..] == e + "." + m && r[5..] == b.enum + "." + b.member;
        SplitAtFirst('.', e, b.enum, m, b.member);
      case FloatOf(f) => assert r[6..] == repr(f) == repr(b.f);
      case IntOf(i) =>
        assert r[4..] == Integer(i) == Integer(b.i);
        IntegerInjective(i, b.i);
      case StrOf(s) => assert r[4..] == s == b.s;
      case BoolOf(x) => assert r[5] == if x then '1' else '0';
      case _ =>
    }
  }

  lemma LeafReads(repr: Float -> string, a: Value, b: Value, x: string, y: string)
    requires GoodRepr(repr) && Readable(a) && Readable(b) && Follows(x) && Follows(y) && IsLeaf(a) && IsLeaf(b)
    requires Render(repr, a) + x == Render(repr, b) + y
    ensures a == b && x == y
  {
    LeafPlain(repr, a);
    LeafPlain(repr, b);
    TokenEnds(Render(repr, a), Render(repr, b), x, y);
    LeavesRead(repr, a, b);
  }

  lemma SeqText(repr: Float -> string, v: Value, x: string)
    requires v.SeqOf?
    ensures (Render(repr, v) + x)[4..] == Join(RenderAll(repr, v.items), ",") + ("]" + x)
  {
  }

  lemma RecRender(repr: Float -> string, record: string, names: seq<string>, fields: seq<Value>)
    ensures Render(repr, RecOf(record, names, fields))
            == "rec(" + record + ":" + Join(Equations(Entries(names, RenderAll(repr, fields))), ",") + ")"
  {
  }

  lemma RecText(repr: Float -> string, v: Value, x: string)
    requires v.RecOf?
    ensures (Render(repr, v) + x)[4..]
            == v.record + ":" + (Join(Equations(Entries(v.names, RenderAll(repr, v.fields))), ",") + (")" + x))
  {
  }

  /** Texts that start with two printed values start with the same form. */
  lemma SameForm(repr: Float -> string, a: Value, b: Value, x: string, y: string)
    requires Render(repr, a) + x == Render(repr, b) + y
    ensures Tag(a) == Tag(b)
  {
    TagFirst(repr, a);
    TagFirst(repr, b);
    assert (Render(repr, a) + x)[..3] == Tag(a) && (Render(repr, b) + y)[..3] == Tag(b);
  }

  /** A printed value can be read off the front of a text in one way only. */
  lemma {:induction false} ValueReads(repr: Float -> string, a: Value, b: Value, x: string, y: string)
    requires GoodRepr(repr) && Readable(a) && Readable(b) && Follows(x) && Follows(y)
    requires Render(repr, a) + x == Render(repr, b) + y
    ensures a == b && x == y
    decreases a, 1
  {
    SameForm(repr, a, b, x, y);
    if IsLeaf(a) {
      LeafReads(repr, a, b, x, y);
    } else {
      hide Render, Join, Entries, Equations;
      if a.SeqOf? {
        SeqText(repr, a, x);
        SeqText(repr, b, y);
        ItemsRead(repr, a.items, b.items, x, y);
      } else {
        RecText(repr, a, x);
        RecText(repr, b, y);
        SplitAtFirst(':', a.record, b.record,
          Join(Equations(Entries(a.names, RenderAll(repr, a.fields))), ",") + (")" + x),
          Join(Equations(Entries(b.names, RenderAll(repr, b.fields))), ",") + (")" + y));
        FieldsRead(repr, a.names, b.names, a.fields, b.fields, x, y);
      }
    }
  }

  lemma {:induction false} ItemsRead(repr: Float -> string, us: seq<Value>, vs: seq<Value>, x: string, y: string)
    requires GoodRepr(repr) && AllReadable(us) && AllReadable(vs)
    requires Join(RenderAll(repr, us), ",") + ("]" + x) == Join(RenderAll(repr, vs), ",") + ("]" + y)
    ensures us == vs && x == y
    decreases us, 0
  {
    if us == [] || vs == [] {
      JoinedStart(repr, us, "]" + x);
      JoinedStart(repr, vs, "]" + y);
      assert us == vs;
      assert ("]" + x)[1..] == x && ("]" + y)[1..] == y;
    } else {
      var mx := More(RenderAll(repr, us[1..]), "]" + x);
      var my := More(RenderAll(repr, vs[1..]), "]" + y);
      JoinMore(Render(repr, us[0]), RenderAll(repr, us[1..]), "]" + x);
      JoinMore(Render(repr, vs[0]), RenderAll(repr, vs[1..]), "]" + y);
      ValueReads(repr, us[0], vs[0], mx, my);
      if us[1..] == [] || vs[1..] == [] {
        assert mx[0] == my[0];
        assert mx[1..] == my[1..];
      } else {
        assert mx[1..] == my[1..];
        ItemsRead(repr, us[1..], vs[1..], x, y);
      }
      assert us == [us[0]] + us[1..] && vs == [vs[0]] + vs[1..];
    }
  }

  /** A joined list starts with a letter, or is empty and starts with what follows it. */
  lemma JoinedStart(repr: Float -> string, vs: seq<Value>, rest: string)
    requires rest != ""
    ensures var t := Join(RenderAll(repr, vs), ",") + rest;
            if vs == [] then t == rest else t != "" && !Closing(t[0])
  {
    if vs != [] {
      TagFirst(repr, vs[0]);
      JoinMore(Render(repr, vs[0]), RenderAll(repr, vs[1..]), rest);
      assert Render(repr, vs[0])[0] == Tag(vs[0])[0];
    }
  }

  lemma FieldsStart(repr: Float -> string, names: seq<string>, vs: seq<Value>, rest: string)
    requires rest != "" && |names| == |vs| && GoodNames(names)
    ensures var t := Join(Equations(Entries(names, RenderAll(repr, vs))), ",") + rest;
            if vs == [] then t == rest else t != "" && !Closing(t[0])
  {
    if vs != [] {
      var head := names[0] + "=" + Render(repr, vs[0]);
      var more := Equations(Entries(names[1..], RenderAll(repr, vs)[1..]));
      assert Entries(names, RenderAll(repr, vs))[1..] == Entries(names[1..], RenderAll(repr, vs)[1..]);
      JoinMore(head, more, rest);
      assert head[0] == if names[0] == "" then '=' else names[0][0];
    }
  }

  /** What follows the first of several joined parts. */
  function More(parts: seq<string>, rest: string): string {
    if parts == [] then rest else "," + (Join(parts, ",") + rest)
  }

  lemma JoinMore(p: string, parts: seq<string>, rest: string)
    ensures Join([p] + parts, ",") + rest == p + More(parts, rest)
  {
    assert ([p] + parts)[1..] == parts;
    if parts != [] {
      assert p + "," + Join(parts, ",") + rest == p + ("," + (Join(parts, ",") + rest));
    }
  }

  /** The first field of a joined list of fields, and what comes after it. */
  lemma FieldText(repr: Float -> string, names: seq<string>, vs: seq<Value>, rest: string)
    requires |names| == |vs| && vs != []
    ensures Join(Equations(Entries(names, RenderAll(repr, vs))), ",") + rest
            == names[0] + "=" + (Render(repr, vs[0])
                                 + More(Equations(Entries(names[1..], RenderAll(repr, vs[1..]))), rest))
  {
    var more := Equations(Entries(names[1..], RenderAll(repr, vs[1..])));
    FieldHead(names, RenderAll(repr, vs));
    hide Join, Entries, Equations;
    assert RenderAll(repr, vs)[1..] == RenderAll(repr, vs[1..]) && RenderAll(repr, vs)[0] == Render(repr, vs[0]);
    JoinMore(names[0] + "=" + Render(repr, vs[0]), more, rest);
    Reassociate(names[0], "=", Render(repr, vs[0]), More(more, rest));
  }

  lemma FieldHead(names: seq<string>, texts: seq<string>)
    requires names != [] && texts != []
    ensures Equations(Entries(names, texts)) == [names[0] + "=" + texts[0]] + Equations(Entries(names[1..], texts[1..]))
  {
    assert Entries(names, texts)[1..] == Entries(names[1..], texts[1..]);
  }

  lemma Reassociate(a: string, b: string, c: string, d: string)
    ensures a + b + c + d == a + b + (c + d)
  {
  }

  lemma {:induction false} FieldsRead(repr: Float -> string, ma: seq<string>, mb: seq<string>, us: seq<Value>,
                                      vs: seq<Value>, x: string, y: string)
    requires GoodRepr(repr) && AllReadable(us) && AllReadable(vs)
    requires |ma| == |us| && |mb| == |vs| && GoodNames(ma) && GoodNames(mb)
    requires Join(Equations(Entries(ma, RenderAll(repr, us))), ",") + (")" + x)
             == Join(Equations(Entries(mb, RenderAll(repr, vs))), ",") + (")" + y)
    ensures ma == mb && us == vs && x == y
    decreases us, 0
  {
    if us == [] || vs == [] {
      hide Equations, Entries, Render, Join;
      FieldsStart(repr, ma, us, ")" + x);
      FieldsStart(repr, mb, vs, ")" + y);
      assert us == vs;
      assert (")" + x)[1..] == x && (")" + y)[1..] == y;
    } else {
      var mx := More(Equations(Entries(ma[1..], RenderAll(repr, us[1..]))), ")" + x);
      var my := More(Equations(Entries(mb[1..], RenderAll(repr, vs[1..]))), ")" + y);
      FieldText(repr, ma, us, ")" + x);
      FieldText(repr, mb, vs, ")" + y);
      SplitAtFirst('=', ma[0], mb[0], Render(repr, us[0]) + mx, Render(repr, vs[0]) + my);
      ValueReads(repr, us[0], vs[0], mx, my);
      if us[1..] == [] || vs[1..] == [] {
        assert mx[0] == my[0];
        assert mx[1..] == my[1..];
      } else {
        assert mx[1..] == my[1..];
        FieldsRead(repr, ma[1..], mb[1..], us[1..], vs[1..], x, y);
      }
      assert us == [us[0]] + us[1..] && vs == [vs[0]] + vs[1..];
      assert ma == [ma[0]] + ma[1..] && mb == [mb[0]] + mb[1..];
    }
  }
}

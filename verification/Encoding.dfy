/**
 * The encodings between text and bytes: UTF-8, base64 (section 4 of RFC 4648), its
 * tolerant decoder, and percent-encoding (section 2.1 of RFC 3986).
 */
module Encoding {
  import opened Common
  import opened Text

  // ---------------------------------------------------------------------------
  // UTF-8
  // ---------------------------------------------------------------------------

  function Utf8Char(c: char): (r: seq<byte>)
    ensures 1 <= |r| <= 4
  {
    var v := c as int;
    var q := v / 64;
    var r := q / 64;
    if v < 0x80 then [v]
    else if v < 0x800 then [0xC0 + q, 0x80 + v % 64]
    else if v < 0x10000 then [0xE0 + r, 0x80 + q % 64, 0x80 + v % 64]
    else [0xF0 + r / 64, 0x80 + r % 64, 0x80 + q % 64, 0x80 + v % 64]
  }

  /** `text.encode("utf-8")`. */
  function Utf8(text: string): seq<byte> {
    if text == "" then [] else Utf8Char(text[0]) + Utf8(text[1..])
  }

  predicate Scalar(v: int) {
    0 <= v < 0xD800 || 0xE000 <= v < 0x11_0000
  }

  /** The first code point of `b` and how many bytes it takes. */
  function Utf8Head(b: seq<byte>): Option<(int, nat)>
    requires b != []
  {
    var b0: int := b[0];
    if b0 < 0x80 then Some((b0, 1))
    else if 0xC0 <= b0 < 0xE0 && |b| >= 2 then Some(((b0 - 0xC0) * 64 + Tail(b, 1), 2))
    else if 0xE0 <= b0 < 0xF0 && |b| >= 3 then Some(((b0 - 0xE0) * 4096 + Tail(b, 1) * 64 + Tail(b, 2), 3))
    else if 0xF0 <= b0 && |b| >= 4 then
      Some(((b0 - 0xF0) * 262144 + Tail(b, 1) * 4096 + Tail(b, 2) * 64 + Tail(b, 3), 4))
    else None
  }

  /** The payload of a continuation byte. */
  function Tail(b: seq<byte>, k: nat): int
    requires k < |b|
  {
    b[k] as int - 0x80
  }

  /** Decoding, defined on everything `Utf8` produces. */
  function Utf8Decode(b: seq<byte>): Option<string> {
    if b == [] then Some("")
    else
      match Utf8Head(b)
      case None => None
      case Some(head) =>
        if !Scalar(head.0) || head.1 == 0 || head.1 > |b| then None
        else
          match Utf8Decode(b[head.1..])
          case None => None
          case Some(rest) => Some([head.0 as char] + rest)
  }

  lemma Utf8HeadReads(c: char, rest: seq<byte>)
    ensures Utf8Head(Utf8Char(c) + rest) == Some((c as int, |Utf8Char(c)|))
  {
    var head := Utf8Char(c);
    var b := head + rest;
    assert forall k | 0 <= k < |head| :: b[k] == head[k];
  }

  lemma {:induction false} Utf8RoundTrip(text: string)
    ensures Utf8Decode(Utf8(text)) == Some(text)
  {
    if text != "" {
      var head := Utf8Char(text[0]);
      Utf8HeadReads(text[0], Utf8(text[1..]));
      assert Utf8(text)[|head|..] == Utf8(text[1..]);
      Utf8RoundTrip(text[1..]);
      assert [text[0]] + text[1..] == text;
    }
  }

  // ---------------------------------------------------------------------------
  // Base64
  // ---------------------------------------------------------------------------

  type sextet = x: int | 0 <= x < 64

  function Letter(v: sextet): char {
    if v < 26 then 'A' + v as char
    else if v < 52 then 'a' + (v - 26) as char
    else if v < 62 then '0' + (v - 52) as char
    else if v == 62 then '+' else '/'
  }

  function LetterValue(c: char): Option<sextet> {
    if 'A' <= c <= 'Z' then Some((c - 'A') as int)
    else if 'a' <= c <= 'z' then Some((c - 'a') as int + 26)
    else if '0' <= c <= '9' then Some((c - '0') as int + 52)
    else if c == '+' then Some(62)
    else if c == '/' then Some(63)
    else None
  }

  /** The letters of an encoding, without padding. */
  function Letters(data: seq<byte>): string {
    if data == [] then ""
    else if |data| == 1 then [Letter(data[0] / 4), Letter(data[0] % 4 * 16)]
    else if |data| == 2 then
      [Letter(data[0] / 4), Letter(data[0] % 4 * 16 + data[1] / 16), Letter(data[1] % 16 * 4)]
    else
      [Letter(data[0] / 4), Letter(data[0] % 4 * 16 + data[1] / 16),
       Letter(data[1] % 16 * 4 + data[2] / 64), Letter(data[2] % 64)] + Letters(data[3..])
  }

  function Repeat(c: char, n: nat): (r: string)
    ensures |r| == n && forall k | 0 <= k < n :: r[k] == c
  {
    seq(n, _ => c)
  }

  /** `"=" * (-len(s) % 4)`. */
  function Padded(s: string): string {
    s + Repeat('=', (4 - |s| % 4) % 4)
  }

  /** `base64.b64encode`. */
  function Base64(data: seq<byte>): string {
    Padded(Letters(data))
  }

  /** Bytes of a run of letters; the unused low bits of a short last group are ignored. */
  function FromLetters(s: string): Option<seq<byte>> {
    if s == "" then Some([])
    else if |s| == 1 then None
    else
      var v0 := LetterValue(s[0]);
      var v1 := LetterValue(s[1]);
      if v0.None? || v1.None? then None
      else
        var b0 := v0.value * 4 + v1.value / 16;
        if |s| == 2 then Some([b0])
        else
          var v2 := LetterValue(s[2]);
          if v2.None? then None
          else
            var b1 := v1.value % 16 * 16 + v2.value / 4;
            if |s| == 3 then Some([b0, b1])
            else
              var v3 := LetterValue(s[3]);
              if v3.None? then None
              else
                match FromLetters(s[4..])
                case None => None
                case Some(rest) => Some([b0, b1, v2.value % 4 * 64 + v3.value] + rest)
  }

  /** `s.rstrip("=")`. */
  function Unpadded(s: string): string {
    StripRight(s, c => c == '=')
  }

  /** `base64.b64decode(s, validate=True)`, for text whose length is a multiple of four. */
  function StrictDecode(s: string): Option<seq<byte>> {
    var core := Unpadded(s);
    if |s| - |core| > 2 || |s| % 4 != 0 then None else FromLetters(core)
  }

  lemma LetterReads(v: sextet)
    ensures LetterValue(Letter(v)) == Some(v) && Letter(v) != '='
  {
  }

  /** The four sextets of three bytes, and back. */
  lemma Regroup(b0: byte, b1: byte, b2: byte)
    ensures b0 / 4 * 4 + (b0 % 4 * 16 + b1 / 16) / 16 == b0
    ensures (b0 % 4 * 16 + b1 / 16) % 16 * 16 + (b1 % 16 * 4 + b2 / 64) / 4 == b1
    ensures (b1 % 16 * 4 + b2 / 64) % 4 * 64 + b2 % 64 == b2
  {
  }

  lemma ShortGroupsRead(b0: byte, b1: byte)
    ensures FromLetters([Letter(b0 / 4), Letter(b0 % 4 * 16)]) == Some([b0])
    ensures FromLetters([Letter(b0 / 4), Letter(b0 % 4 * 16 + b1 / 16), Letter(b1 % 16 * 4)]) == Some([b0, b1])
  {
    Regroup(b0, b1, 0);
    LetterReads(b0 / 4);
    LetterReads(b0 % 4 * 16);
    LetterReads(b0 % 4 * 16 + b1 / 16);
    LetterReads(b1 % 16 * 4);
  }

  lemma {:induction false} LettersRead(data: seq<byte>)
    ensures FromLetters(Letters(data)) == Some(data)
  {
    if |data| == 1 {
      ShortGroupsRead(data[0], 0);
      assert data == [data[0]];
    } else if |data| == 2 {
      ShortGroupsRead(data[0], data[1]);
      assert data == [data[0], data[1]];
    } else if |data| > 2 {
      LettersRead(data[3..]);
      GroupReads(data[0], data[1], data[2], Letters(data[3..]), data[3..]);
      assert data == [data[0], data[1], data[2]] + data[3..];
    }
  }

  lemma GroupReads(b0: byte, b1: byte, b2: byte, s: string, rest: seq<byte>)
    requires FromLetters(s) == Some(rest)
    ensures FromLetters([Letter(b0 / 4), Letter(b0 % 4 * 16 + b1 / 16), Letter(b1 % 16 * 4 + b2 / 64),
                         Letter(b2 % 64)] + s)
            == Some([b0, b1, b2] + rest)
  {
    var t := [Letter(b0 / 4), Letter(b0 % 4 * 16 + b1 / 16), Letter(b1 % 16 * 4 + b2 / 64), Letter(b2 % 64)] + s;
    Regroup(b0, b1, b2);
    LetterReads(b0 / 4);
    LetterReads(b0 % 4 * 16 + b1 / 16);
    LetterReads(b1 % 16 * 4 + b2 / 64);
    LetterReads(b2 % 64);
    assert t[4..] == s;
  }

  predicate Alphabet(s: string) {
    forall k | 0 <= k < |s| :: LetterValue(s[k]).Some?
  }

  lemma GroupAlphabet(b0: byte, b1: byte, b2: byte)
    ensures Alphabet([Letter(b0 / 4), Letter(b0 % 4 * 16)])
    ensures Alphabet([Letter(b0 / 4), Letter(b0 % 4 * 16 + b1 / 16), Letter(b1 % 16 * 4)])
    ensures Alphabet([Letter(b0 / 4), Letter(b0 % 4 * 16 + b1 / 16), Letter(b1 % 16 * 4 + b2 / 64), Letter(b2 % 64)])
  {
    LetterReads(b0 / 4);
    LetterReads(b0 % 4 * 16);
    LetterReads(b0 % 4 * 16 + b1 / 16);
    LetterReads(b1 % 16 * 4);
    LetterReads(b1 % 16 * 4 + b2 / 64);
    LetterReads(b2 % 64);
  }

  lemma {:induction false} LettersLength(data: seq<byte>)
    ensures |Letters(data)| % 4 != 1 && (data != [] ==> Letters(data) != "")
  {
    hide Letter;
    if |data| > 2 {
      LettersLength(data[3..]);
      assert |Letters(data)| == 4 + |Letters(data[3..])|;
      hide Letters;
    }
  }

  lemma {:induction false} LettersAlphabet(data: seq<byte>)
    ensures Alphabet(Letters(data))
  {
    if |data| == 1 {
      GroupAlphabet(data[0], 0, 0);
    } else if |data| == 2 {
      GroupAlphabet(data[0], data[1], 0);
    } else if |data| > 2 {
      GroupAlphabet(data[0], data[1], data[2]);
      LettersAlphabet(data[3..]);
      AlphabetAppend(Letters(data)[..4], Letters(data[3..]));
      assert Letters(data) == Letters(data)[..4] + Letters(data[3..]);
    }
  }

  lemma AlphabetAppend(s: string, t: string)
    requires Alphabet(s) && Alphabet(t)
    ensures Alphabet(s + t)
  {
  }

  lemma {:induction false} UnpadRepeat(core: string, n: nat)
    requires core == "" || core[|core| - 1] != '='
    ensures Unpadded(core + Repeat('=', n)) == core
  {
    var s := core + Repeat('=', n);
    if n > 0 {
      UnpadRepeat(core, n - 1);
      assert s[..|s| - 1] == core + Repeat('=', n - 1);
    } else {
      assert s == core;
    }
  }

  lemma PaddedShape(core: string)
    requires |core| % 4 != 1 && (core == "" || core[|core| - 1] != '=')
    ensures Unpadded(Padded(core)) == core && |Padded(core)| - |core| <= 2 && |Padded(core)| % 4 == 0
  {
    UnpadRepeat(core, (4 - |core| % 4) % 4);
  }

  /** Decoding a base64 artifact gives back the bytes. */
  lemma Base64RoundTrip(data: seq<byte>)
    ensures StrictDecode(Base64(data)) == Some(data)
  {
    LettersLength(data);
    LettersAlphabet(data);
    LettersRead(data);
    PaddedShape(Letters(data));
  }

  /** Base64 text has no line break: every character is a letter of the alphabet or `=`. */
  lemma Base64OneLine(data: seq<byte>)
    ensures forall k | 0 <= k < |Base64(data)| :: LetterValue(Base64(data)[k]).Some? || Base64(data)[k] == '='
  {
    LettersAlphabet(data);
  }

  // ---------------------------------------------------------------------------
  // The tolerant decoder
  // ---------------------------------------------------------------------------

  const MAX_PAYLOAD_LEN := 65536

  predicate IsAscii(s: string) {
    forall k | 0 <= k < |s| :: s[k] as int < 128
  }

  /** `b64_decode_flexible`; `space` says which characters `str.split` drops. */
  function FlexibleDecode(text: string, space: char -> bool): Option<seq<byte>> {
    if text == "" || |text| > MAX_PAYLOAD_LEN then None
    else
      var stripped := Keep(text, c => !space(c));
      if stripped == "" then None
      else
        var core := Unpadded(Swap(Swap(stripped, '-', '+'), '_', '/'));
        if core == "" then None
        else
          var normalized := Padded(core);
          if !IsAscii(normalized) then None
          else
            match StrictDecode(normalized)
            case Some(bytes) => Some(bytes)
            case None => StrictDecode(Swap(Swap(normalized, '+', '-'), '/', '_'))
  }

  /** `c` is how some base64 dialect writes letter `l`. */
  predicate Dialect(c: char, l: char) {
    c == l || (l == '+' && c == '-') || (l == '/' && c == '_')
  }

  /**
   * `text` is an encoding of `data` as feeds carry it: letters in either alphabet,
   * any amount of padding, whitespace anywhere.
   */
  ghost predicate EncodingOf(text: string, data: seq<byte>, space: char -> bool) {
    var kept := Keep(text, c => !space(c));
    && |kept| >= |Letters(data)|
    && (forall k | 0 <= k < |Letters(data)| :: Dialect(kept[k], Letters(data)[k]))
    && (forall k | |Letters(data)| <= k < |kept| :: kept[k] == '=')
  }

  lemma Undialect(kept: string, core: string)
    requires |kept| >= |core|
    requires Alphabet(core) && forall k | 0 <= k < |core| :: Dialect(kept[k], core[k])
    requires forall k | |core| <= k < |kept| :: kept[k] == '='
    ensures Unpadded(Swap(Swap(kept, '-', '+'), '_', '/')) == core
  {
    assert Swap(Swap(kept, '-', '+'), '_', '/') == core + Repeat('=', |kept| - |core|);
    assert core == "" || LetterValue(core[|core| - 1]).Some?;
    UnpadRepeat(core, |kept| - |core|);
  }

  lemma PaddedAscii(core: string)
    requires Alphabet(core)
    ensures IsAscii(Padded(core))
  {
    forall k | 0 <= k < |core| ensures core[k] as int < 128 {
      assert LetterValue(core[k]).Some?;
    }
  }

  /** Whatever dialect a nonempty payload is written in, within the cap it is recovered exactly. */
  lemma FlexibleRecovers(text: string, data: seq<byte>, space: char -> bool)
    requires data != [] && |text| <= 65536 && EncodingOf(text, data, space)
    ensures FlexibleDecode(text, space) == Some(data)
  {
    var core := Letters(data);
    LettersLength(data);
    LettersAlphabet(data);
    LettersRead(data);
    var kept := Keep(text, c => !space(c));
    Undialect(kept, core);
    PaddedShape(core);
    PaddedAscii(core);
    assert kept != "" && text != "";
    assert StrictDecode(Padded(core)) == FromLetters(core);
  }

  lemma {:induction false} ReadLetters(s: string)
    requires FromLetters(s).Some?
    ensures Alphabet(s) && |s| % 4 != 1
  {
    if |s| > 3 {
      ReadLetters(s[4..]);
      hide FromLetters, LetterValue;
      assert forall k | 4 <= k < |s| :: s[k] == s[4..][k - 4];
      assert forall k | 4 <= k < |s| :: LetterValue(s[k]).Some?;
    }
  }

  lemma PlaceOf(s: string, n: nat, k: nat)
    requires n <= |s| && k < |s|
    ensures k < n ==> s[..n][k] == s[k]
    ensures k >= n ==> s[n..][k - n] == s[k]
  {
  }

  lemma {:induction false} KeptAll(text: string, keep: char -> bool)
    ensures forall c | c in text && keep(c) :: c in Keep(text, keep)
  {
    if text != "" {
      KeptAll(text[1..], keep);
      assert forall c :: c in text ==> c == text[0] || c in text[1..];
    }
  }

  lemma StrictLetters(core: string, s: string)
    requires (core == "" || core[|core| - 1] != '=') && |s| >= |core| && s == core + Repeat('=', |s| - |core|)
    requires StrictDecode(s).Some?
    ensures Alphabet(core)
  {
    UnpadRepeat(core, |s| - |core|);
    ReadLetters(core);
    hide Unpadded, FromLetters;
  }

  /** Either attempt at decoding needs letters of the standard alphabet under the padding. */
  lemma DecodedLetters(core: string)
    requires core != "" && core[|core| - 1] != '='
    requires var s := Padded(core); StrictDecode(s).Some? || StrictDecode(Swap(Swap(s, '+', '-'), '/', '_')).Some?
    ensures Alphabet(core)
  {
    var s := Padded(core);
    if StrictDecode(s).Some? {
      StrictLetters(core, s);
    } else {
      var t, other := Swap(Swap(core, '+', '-'), '/', '_'), Swap(Swap(s, '+', '-'), '/', '_');
      assert other == t + Repeat('=', |other| - |t|);
      StrictLetters(t, other);
      assert forall k | 0 <= k < |core| :: LetterValue(t[k]).Some? ==> t[k] == core[k];
    }
    hide StrictDecode, LetterValue;
  }

  /**
   * What is decoded at all is short enough, and letters of one alphabet or the other under its
   * white space and padding.
   */
  lemma FlexibleRefuses(text: string, space: char -> bool)
    requires FlexibleDecode(text, space).Some?
    ensures 0 < |text| <= 65536
    ensures forall c | c in text :: space(c) || c in {'=', '-', '_'} || LetterValue(c).Some?
  {
    var keep := c => !space(c);
    var stripped := Keep(text, keep);
    var swapped := Swap(Swap(stripped, '-', '+'), '_', '/');
    var core := Unpadded(swapped);
    StripRightDrops(swapped, c => c == '=');
    StripRightEnds(swapped, c => c == '=');
    DecodedLetters(core);
    KeptAll(text, keep);
    hide StrictDecode, LetterValue, Unpadded, Padded, Keep;
    forall c | c in text && !space(c) && c !in {'=', '-', '_'} ensures LetterValue(c).Some? {
      assert keep(c);
      var k :| 0 <= k < |stripped| && stripped[k] == c;
      assert swapped[k] == c;
      assert swapped[..|core|] == core && Only(swapped[|core|..], c => c == '=');
      PlaceOf(swapped, |core|, k);
    }
  }

  // ---------------------------------------------------------------------------
  // Percent-encoding
  // ---------------------------------------------------------------------------

  function HexDigit(v: int): (c: char)
    requires 0 <= v < 16
  {
    if v < 10 then '0' + v as char else 'A' + (v - 10) as char
  }

  function HexValue(c: char): Option<int> {
    if '0' <= c <= '9' then Some((c - '0') as int)
    else if 'A' <= c <= 'F' then Some((c - 'A') as int + 10)
    else if 'a' <= c <= 'f' then Some((c - 'a') as int + 10)
    else None
  }

  /** Characters `quote(..., safe="/")` leaves alone. */
  predicate Unreserved(v: int) {
    || 'A' as int <= v <= 'Z' as int || 'a' as int <= v <= 'z' as int || '0' as int <= v <= '9' as int
    || v == '_' as int || v == '.' as int || v == '-' as int || v == '~' as int || v == '/' as int
  }

  function QuoteByte(b: byte): (s: string)
    ensures s != "" && forall k | 0 <= k < |s| :: '%' <= s[k] <= '~'
  {
    if Unreserved(b) then [b as char] else ['%', HexDigit(b / 16), HexDigit(b % 16)]
  }

  function QuoteBytes(b: seq<byte>): (s: string)
    ensures forall k | 0 <= k < |s| :: '%' <= s[k] <= '~'
    ensures b != [] ==> s != ""
  {
    if b == [] then "" else QuoteByte(b[0]) + QuoteBytes(b[1..])
  }

  /** `quote(name, safe="/")`: printable ASCII, without `#`, space or control characters. */
  function Quote(name: string): (s: string)
    ensures forall k | 0 <= k < |s| :: '%' <= s[k] <= '~'
  {
    QuoteBytes(Utf8(name))
  }

  /** Percent-decoding to bytes; a `%` without two hexadecimal digits stands for itself. */
  function UnquoteBytes(s: string): seq<byte>
    requires IsAscii(s)
  {
    if s == "" then []
    else if s[0] == '%' && |s| >= 3 && HexValue(s[1]).Some? && HexValue(s[2]).Some? then
      [HexValue(s[1]).value * 16 + HexValue(s[2]).value] + UnquoteBytes(s[3..])
    else [s[0] as int] + UnquoteBytes(s[1..])
  }

  lemma QuoteByteReads(b: byte, rest: string)
    requires IsAscii(rest) && IsAscii(QuoteByte(b) + rest)
    ensures UnquoteBytes(QuoteByte(b) + rest) == [b] + UnquoteBytes(rest)
  {
    var s := QuoteByte(b) + rest;
    if Unreserved(b) {
      assert s[1..] == rest;
    } else {
      assert s[3..] == rest && s[0] == '%' && s[1] == HexDigit(b / 16) && s[2] == HexDigit(b % 16);
    }
  }

  lemma {:induction false} QuoteRoundTrip(b: seq<byte>)
    ensures UnquoteBytes(QuoteBytes(b)) == b
  {
    if b != [] {
      QuoteRoundTrip(b[1..]);
      QuoteByteReads(b[0], QuoteBytes(b[1..]));
    }
  }

  /** The fragment of a rendered link decodes to exactly the name that was quoted. */
  lemma FragmentDecodes(name: string)
    ensures Utf8Decode(UnquoteBytes(Quote(name))) == Some(name)
  {
    QuoteRoundTrip(Utf8(name));
    Utf8RoundTrip(name);
  }

  // ---------------------------------------------------------------------------
  // The standards' own terms
  // ---------------------------------------------------------------------------

  function ByteAt(data: seq<byte>, i: nat): int {
    if i < |data| then data[i] else 0
  }

  /** Section 3 of RFC 3629: the lead byte tells the length, and the bits add up to the code point. */
  lemma Utf8Spelled(c: char)
    ensures var v, n := c as int, |Utf8Char(c)|;
            var b0, b1, b2, b3 := ByteAt(Utf8Char(c), 0), ByteAt(Utf8Char(c), 1), ByteAt(Utf8Char(c), 2),
                                  ByteAt(Utf8Char(c), 3);
            if v < 0x80 then n == 1 && b0 == v
            else if v < 0x800 then
              n == 2 && 0xC2 <= b0 <= 0xDF && 0x80 <= b1 <= 0xBF && (b0 - 0xC0) * 64 + b1 - 0x80 == v
            else if v < 0x10000 then
              && n == 3 && 0xE0 <= b0 <= 0xEF && 0x80 <= b1 <= 0xBF && 0x80 <= b2 <= 0xBF
              && (b0 - 0xE0) * 4096 + (b1 - 0x80) * 64 + b2 - 0x80 == v
            else
              && n == 4 && 0xF0 <= b0 <= 0xF4 && 0x80 <= b1 <= 0xBF && 0x80 <= b2 <= 0xBF && 0x80 <= b3 <= 0xBF
              && (b0 - 0xF0) * 262144 + (b1 - 0x80) * 4096 + (b2 - 0x80) * 64 + b3 - 0x80 == v
  {
  }

  lemma ShortLetters(a: byte, b: byte)
    ensures Letters([a]) == [Letter(a / 4), Letter(a % 4 * 16)]
    ensures Letters([a, b]) == [Letter(a / 4), Letter(a % 4 * 16 + b / 16), Letter(b % 16 * 4)]
  {
    hide Letter;
  }

  lemma ThreeLetters(a: byte, b: byte, c: byte, rest: seq<byte>)
    ensures Letters([a, b, c] + rest)
            == [Letter(a / 4), Letter(a % 4 * 16 + b / 16), Letter(b % 16 * 4 + c / 64), Letter(c % 64)] + Letters(rest)
  {
    assert ([a, b, c] + rest)[3..] == rest;
    hide Letter;
  }

  /** Section 10 of RFC 4648: encodings that need padding. */
  lemma Base64Padded()
    ensures Base64([]) == "" && Base64([102]) == "Zg==" && Base64([102, 111]) == "Zm8="
  {
    ShortLetters(102, 111);
    hide Letters;
  }

  /** Section 4 of RFC 4648: the two letters that set the standard alphabet apart. */
  lemma Base64Standard()
    ensures Base64([251, 240]) == "+/A="
  {
    ShortLetters(251, 240);
    hide Letters;
  }

  lemma WholeGroups()
    ensures [Letter(102 / 4), Letter(102 % 4 * 16 + 111 / 16), Letter(111 % 16 * 4 + 111 / 64), Letter(111 % 64)]
            == "Zm9v"
    ensures [Letter(98 / 4), Letter(98 % 4 * 16 + 97 / 16), Letter(97 % 16 * 4 + 114 / 64), Letter(114 % 64)] == "YmFy"
  {
  }

  /** Section 10 of RFC 4648: whole groups of three. */
  lemma Base64Vectors()
    ensures Base64([102, 111, 111]) == "Zm9v" && Base64([102, 111, 111] + [98, 97, 114]) == "Zm9vYmFy"
  {
    ThreeLetters(102, 111, 111, []);
    ThreeLetters(102, 111, 111, [98, 97, 114]);
    ThreeLetters(98, 97, 114, []);
    WholeGroups();
    assert Letters([]) == "";
    hide Letters, Letter;
    assert [102, 111, 111] + [] == [102, 111, 111] && [98, 97, 114] + [] == [98, 97, 114];
    assert "Zm9v" + "YmFy" == "Zm9vYmFy";
  }

  const HEX: string := "0123456789ABCDEF"

  /**
   * Section 2.1 of RFC 3986: a byte is itself if it is a letter, a digit or one of five marks,
   * and else `%` and two digits.
   */
  lemma QuoteByteSpelled(b: byte)
    ensures var c := b as char;
            if 'A' <= c <= 'Z' || 'a' <= c <= 'z' || '0' <= c <= '9' || c in {'_', '.', '-', '~', '/'}
            then QuoteByte(b) == [c] else QuoteByte(b) == ['%', HEX[b / 16], HEX[b % 16]]
  {
    assert HexDigit(b / 16) == HEX[b / 16] && HexDigit(b % 16) == HEX[b % 16];
  }
}

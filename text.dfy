/**
  Text and byte encodings the blob store relies on: Python's `str.join` and
  `str.split` with a one-character separator, decimal formatting, the
  lower-case hexadecimal form of digests, UTF-8 (`str.encode("utf-8")`),
  the percent-encoding of `urllib.parse.quote`, and ASCII lower-casing.
  Every encoder here comes with its decoder or another independent
  characterisation, and a lemma connecting the two.
*/
module Text {
  import opened Results

  type Byte = b: int | 0 <= b < 256
  type Bytes = seq<Byte>

  /** Python's `s.startswith(prefix)`. */
  predicate StartsWith(s: string, prefix: string)
  {
    |prefix| <= |s| && s[..|prefix|] == prefix
  }

  // ---------------------------------------------------------------------
  // Join and split
  // ---------------------------------------------------------------------

  /** Python's `sep.join(parts)` for a one-character separator. */
  function Join(parts: seq<string>, sep: char): string
  {
    if |parts| == 0 then ""
    else if |parts| == 1 then parts[0]
    else parts[0] + [sep] + Join(parts[1..], sep)
  }

  /** Python's `s.split(sep)` for a one-character separator: never an empty list. */
  function Split(s: string, sep: char): (r: seq<string>)
    ensures |r| >= 1
  {
    if |s| == 0 then [""]
    else
      var rest := Split(s[1..], sep);
      if s[0] == sep then [""] + rest
      else [[s[0]] + rest[0]] + rest[1..]
  }

  /** No part contains the separator. */
  predicate SeparatorFree(parts: seq<string>, sep: char)
  {
    forall i :: 0 <= i < |parts| ==> sep !in parts[i]
  }

  lemma {:induction false} SplitWithoutSeparator(s: string, sep: char)
    requires sep !in s
    ensures Split(s, sep) == [s]
  {
    if |s| > 0 {
      SplitWithoutSeparator(s[1..], sep);
      assert [s[0]] + s[1..] == s;
    }
  }

  lemma {:induction false} SplitAfterField(a: string, sep: char, rest: string)
    requires sep !in a
    ensures Split(a + [sep] + rest, sep) == [a] + Split(rest, sep)
  {
    var s := a + [sep] + rest;
    if |a| == 0 {
      assert s == [sep] + rest;
      assert s[1..] == rest;
    } else {
      assert s[0] == a[0];
      assert s[1..] == a[1..] + [sep] + rest;
      SplitAfterField(a[1..], sep, rest);
      assert [a[0]] + a[1..] == a;
    }
  }

  /** Splitting a join recovers the parts when no part holds the separator. */
  lemma {:induction false} SplitJoin(parts: seq<string>, sep: char)
    requires |parts| >= 1
    requires SeparatorFree(parts, sep)
    ensures Split(Join(parts, sep), sep) == parts
  {
    if |parts| == 1 {
      SplitWithoutSeparator(parts[0], sep);
    } else {
      SplitAfterField(parts[0], sep, Join(parts[1..], sep));
      SplitJoin(parts[1..], sep);
      assert [parts[0]] + parts[1..] == parts;
    }
  }

  /** Joining two non-empty lists is joining each and putting one separator between them. */
  lemma {:induction false} JoinAppend(a: seq<string>, b: seq<string>, sep: char)
    requires |a| >= 1 && |b| >= 1
    ensures Join(a + b, sep) == Join(a, sep) + [sep] + Join(b, sep)
    decreases |a|
  {
    if |a| == 1 {
      assert (a + b)[1..] == b;
    } else {
      assert (a + b)[1..] == a[1..] + b;
      JoinAppend(a[1..], b, sep);
    }
  }

  /** Python's `s.split(sep, 1)`: the text before the first separator and, if there is one, the text after it. */
  function SplitOnce(s: string, sep: char): (r: seq<string>)
    ensures 1 <= |r| <= 2
    ensures |r| == 1 <==> sep !in s
    ensures |r| == 1 ==> r[0] == s
    ensures |r| == 2 ==> s == r[0] + [sep] + r[1] && sep !in r[0]
  {
    if |s| == 0 then [s]
    else if s[0] == sep then ["", s[1..]]
    else
      var rest := SplitOnce(s[1..], sep);
      if |rest| == 1 then [s] else [[s[0]] + rest[0], rest[1]]
  }

  // ---------------------------------------------------------------------
  // Decimal digits
  // ---------------------------------------------------------------------

  predicate IsDigit(c: char)
  {
    '0' <= c <= '9'
  }

  predicate AllDigits(s: string)
  {
    forall i :: 0 <= i < |s| ==> IsDigit(s[i])
  }

  function DigitChar(d: nat): (c: char)
    requires d < 10
    ensures IsDigit(c) && c as int - '0' as int == d
  {
    (48 + d) as char
  }

  function Pow10(k: nat): nat
  {
    if k == 0 then 1 else 10 * Pow10(k - 1)
  }

  /** The value of a string of decimal digits, most significant first. */
  function ParseDigits(s: string): nat
    requires AllDigits(s)
  {
    if |s| == 0 then 0
    else 10 * ParseDigits(s[..|s| - 1]) + (s[|s| - 1] as int - '0' as int)
  }

  /** The low `width` decimal digits of `n`, zero-padded: strftime's `%Y` (width 4) and `%m`, `%d`, `%H`, `%M`, `%S` (width 2). */
  function PadDigits(n: nat, width: nat): (r: string)
    ensures |r| == width && AllDigits(r)
  {
    if width == 0 then "" else PadDigits(n / 10, width - 1) + [DigitChar(n % 10)]
  }

  /** Reading back a zero-padded field gives the number, when it fits the width. */
  lemma {:induction false} ParsePadDigits(n: nat, width: nat)
    requires n < Pow10(width)
    ensures ParseDigits(PadDigits(n, width)) == n
  {
    if width > 0 {
      assert n / 10 < Pow10(width - 1);
      ParsePadDigits(n / 10, width - 1);
      var s := PadDigits(n, width);
      assert s[..|s| - 1] == PadDigits(n / 10, width - 1);
    }
  }

  /** Python's `str(n)` for a natural number: no leading zero. */
  function Decimal(n: nat): (r: string)
    ensures |r| >= 1 && AllDigits(r)
    ensures r[0] == '0' ==> n == 0
  {
    if n < 10 then [DigitChar(n)] else Decimal(n / 10) + [DigitChar(n % 10)]
  }

  lemma {:induction false} ParseDecimal(n: nat)
    ensures ParseDigits(Decimal(n)) == n
  {
    if n >= 10 {
      ParseDecimal(n / 10);
      var s := Decimal(n);
      assert s[..|s| - 1] == Decimal(n / 10);
    } else {
      var s := Decimal(n);
      assert s[..|s| - 1] == "";
    }
  }

  /** Python's `str(i)` for any integer. */
  function IntToString(i: int): (r: string)
    ensures i < 0 <==> (|r| > 0 && r[0] == '-')
  {
    if i < 0 then "-" + Decimal(-i) else Decimal(i)
  }

  // ---------------------------------------------------------------------
  // Hexadecimal
  // ---------------------------------------------------------------------

  const LowerHexDigits: string := "0123456789abcdef"
  const UpperHexDigits: string := "0123456789ABCDEF"

  predicate IsHexDigit(c: char)
  {
    IsDigit(c) || 'a' <= c <= 'f' || 'A' <= c <= 'F'
  }

  predicate IsLowerHexDigit(c: char)
  {
    IsDigit(c) || 'a' <= c <= 'f'
  }

  predicate IsUpperHexDigit(c: char)
  {
    IsDigit(c) || 'A' <= c <= 'F'
  }

  /** The value of a hexadecimal digit of either case. */
  function HexValue(c: char): (v: nat)
    requires IsHexDigit(c)
    ensures v < 16
  {
    if IsDigit(c) then c as int - '0' as int
    else if 'a' <= c <= 'f' then c as int - 'a' as int + 10
    else c as int - 'A' as int + 10
  }

  lemma HexDigitsValue(d: nat)
    requires d < 16
    ensures IsLowerHexDigit(LowerHexDigits[d]) && IsHexDigit(LowerHexDigits[d]) && HexValue(LowerHexDigits[d]) == d
    ensures IsUpperHexDigit(UpperHexDigits[d]) && IsHexDigit(UpperHexDigits[d]) && HexValue(UpperHexDigits[d]) == d
  {
  }

  /** An upper-case hexadecimal digit is fixed by its value. */
  lemma UpperHexDigitInjective(c: char, d: char)
    requires IsUpperHexDigit(c) && IsUpperHexDigit(d) && HexValue(c) == HexValue(d)
    ensures c == d
  {
  }

  /** The two lower-case hexadecimal digits of one byte. */
  function HexByte(b: Byte): string
  {
    [LowerHexDigits[b / 16], LowerHexDigits[b % 16]]
  }

  /** `hexdigest()` / `bytes.hex()`: two lower-case hexadecimal digits per byte. */
  function HexLower(bs: Bytes): (r: string)
    ensures |r| == 2 * |bs|
    ensures forall i :: 0 <= i < |r| ==> IsLowerHexDigit(r[i])
  {
    if |bs| == 0 then "" else HexByte(bs[0]) + HexLower(bs[1..])
  }

  /** `bytes.fromhex(s)` restricted to digit pairs without spaces: the inverse of `HexLower`. */
  function HexDecode(s: string): Option<Bytes>
  {
    if |s| == 0 then Some([])
    else if |s| == 1 || !IsHexDigit(s[0]) || !IsHexDigit(s[1]) then None
    else
      match HexDecode(s[2..])
      case None => None
      case Some(rest) => Some([16 * HexValue(s[0]) + HexValue(s[1])] + rest)
  }

  lemma HexDecodePair(hi: char, lo: char, t: string)
    requires IsHexDigit(hi) && IsHexDigit(lo)
    ensures HexDecode([hi, lo] + t)
         == match HexDecode(t) case None => None case Some(rest) => Some([16 * HexValue(hi) + HexValue(lo)] + rest)
  {
    assert ([hi, lo] + t)[2..] == t;
  }

  lemma {:induction false} HexRoundTrip(bs: Bytes)
    ensures HexDecode(HexLower(bs)) == Some(bs)
  {
    if |bs| > 0 {
      var b := bs[0];
      var hi, lo := LowerHexDigits[b / 16], LowerHexDigits[b % 16];
      HexDigitsValue(b / 16);
      HexDigitsValue(b % 16);
      assert HexLower(bs) == [hi, lo] + HexLower(bs[1..]);
      HexDecodePair(hi, lo, HexLower(bs[1..]));
      HexRoundTrip(bs[1..]);
      assert [b] + bs[1..] == bs;
    }
  }

  /** Different byte strings have different hexadecimal forms. */
  lemma HexInjective(a: Bytes, b: Bytes)
    requires HexLower(a) == HexLower(b)
    ensures a == b
  {
    HexRoundTrip(a);
    HexRoundTrip(b);
  }

  // ---------------------------------------------------------------------
  // UTF-8
  // ---------------------------------------------------------------------

  /** The UTF-8 bytes of one Unicode scalar value. */
  function Utf8Char(c: char): (r: Bytes)
    ensures 1 <= |r| <= 4
  {
    var n := c as int;
    if n < 0x80 then [n]
    else if n < 0x800 then [0xC0 + n / 0x40, 0x80 + n % 0x40]
    else if n < 0x1_0000 then [0xE0 + n / 0x1000, 0x80 + (n / 0x40) % 0x40, 0x80 + n % 0x40]
    else [0xF0 + n / 0x4_0000, 0x80 + (n / 0x1000) % 0x40, 0x80 + (n / 0x40) % 0x40, 0x80 + n % 0x40]
  }

  /** Python's `s.encode("utf-8")`. */
  function Utf8(s: string): (r: Bytes)
    ensures |r| >= |s|
    ensures |s| > 0 ==> |r| > 0
  {
    if |s| == 0 then [] else Utf8Char(s[0]) + Utf8(s[1..])
  }

  /** The number of bytes of a UTF-8 sequence, read from its lead byte. */
  function SequenceLength(lead: Byte): nat
  {
    if lead < 0x80 then 1 else if lead < 0xE0 then 2 else if lead < 0xF0 then 3 else 4
  }

  /** The scalar value carried by one well-formed UTF-8 sequence. */
  function ScalarValue(bs: Bytes): int
    requires 1 <= |bs| <= 4
  {
    var b0: int := bs[0];
    if |bs| == 1 then b0
    else if |bs| == 2 then (b0 - 0xC0) * 0x40 + (bs[1] as int - 0x80)
    else if |bs| == 3 then (b0 - 0xE0) * 0x1000 + (bs[1] as int - 0x80) * 0x40 + (bs[2] as int - 0x80)
    else (b0 - 0xF0) * 0x4_0000 + (bs[1] as int - 0x80) * 0x1000 + (bs[2] as int - 0x80) * 0x40 + (bs[3] as int - 0x80)
  }

  /** A character's encoding announces its own length and decodes back to the character. */
  lemma Utf8CharDecodes(c: char)
    ensures |Utf8Char(c)| == SequenceLength(Utf8Char(c)[0])
    ensures ScalarValue(Utf8Char(c)) == c as int
  {
    var n := c as int;
    if n >= 0x1_0000 {
      assert n == (n / 0x4_0000) * 0x4_0000 + ((n / 0x1000) % 0x40) * 0x1000 + ((n / 0x40) % 0x40) * 0x40 + n % 0x40;
    } else if n >= 0x800 {
      assert n == (n / 0x1000) * 0x1000 + ((n / 0x40) % 0x40) * 0x40 + n % 0x40;
    }
  }

  /** Different strings have different UTF-8 encodings. */
  lemma {:induction false} Utf8Injective(a: string, b: string)
    requires Utf8(a) == Utf8(b)
    ensures a == b
  {
    if |a| > 0 && |b| > 0 {
      var ea, eb := Utf8Char(a[0]), Utf8Char(b[0]);
      Utf8CharDecodes(a[0]);
      Utf8CharDecodes(b[0]);
      assert Utf8(a)[0] == ea[0] && Utf8(b)[0] == eb[0];
      assert |ea| == |eb|;
      assert ea == Utf8(a)[..|ea|] && eb == Utf8(b)[..|eb|];
      assert a[0] as int == b[0] as int;
      assert Utf8(a[1..]) == Utf8(a)[|ea|..] == Utf8(b)[|eb|..] == Utf8(b[1..]);
      Utf8Injective(a[1..], b[1..]);
      assert a == [a[0]] + a[1..] && b == [b[0]] + b[1..];
    }
  }

  /** An ASCII string encodes to its own character codes, one byte each. */
  lemma {:induction false} Utf8Ascii(s: string)
    requires forall i :: 0 <= i < |s| ==> s[i] as int < 0x80
    ensures |Utf8(s)| == |s|
    ensures forall i :: 0 <= i < |s| ==> Utf8(s)[i] == s[i] as int
  {
    if |s| > 0 {
      Utf8Ascii(s[1..]);
    }
  }

  // ---------------------------------------------------------------------
  // Percent-encoding (urllib.parse.quote)
  // ---------------------------------------------------------------------

  /** The unreserved characters of section 2.3 of RFC 3986, as bytes: letters, digits, `-`, `.`, `_`, `~`. */
  predicate Unreserved(b: Byte)
  {
    ('A' as int <= b <= 'Z' as int) || ('a' as int <= b <= 'z' as int) || ('0' as int <= b <= '9' as int)
    || b == '-' as int || b == '.' as int || b == '_' as int || b == '~' as int
  }

  /** A byte left literal by `quote`: unreserved, or `/` when the path flavour keeps it. */
  predicate KeptLiteral(b: Byte, keepSlash: bool)
  {
    Unreserved(b) || (keepSlash && b == '/' as int)
  }

  /** A character that may appear in `quote`'s output. */
  predicate QuotedChar(c: char, keepSlash: bool)
  {
    c == '%' || (c as int < 0x80 && KeptLiteral(c as int, keepSlash))
  }

  /** One byte as `quote` writes it: itself, or `%XX` with upper-case hexadecimal digits (section 2.1 of RFC 3986). */
  function PercentByte(b: Byte, keepSlash: bool): string
  {
    if KeptLiteral(b, keepSlash) then [b as char]
    else ['%', UpperHexDigits[b / 16], UpperHexDigits[b % 16]]
  }

  /**
    The form `quote` writes: every byte that is kept literal appears as its
    character, and every other byte as `%` and two upper-case hexadecimal
    digits (section 2.1 of RFC 3986).
  */
  predicate Canonical(s: string, keepSlash: bool)
    decreases |s|
  {
    if |s| == 0 then true
    else if s[0] == '%' then
      && |s| >= 3 && IsUpperHexDigit(s[1]) && IsUpperHexDigit(s[2])
      && !KeptLiteral(16 * HexValue(s[1]) + HexValue(s[2]), keepSlash)
      && Canonical(s[3..], keepSlash)
    else s[0] as int < 0x80 && KeptLiteral(s[0] as int, keepSlash) && Canonical(s[1..], keepSlash)
  }

  lemma CanonicalCons(b: Byte, keepSlash: bool, tail: string)
    requires Canonical(tail, keepSlash)
    ensures Canonical(PercentByte(b, keepSlash) + tail, keepSlash)
  {
    var s := PercentByte(b, keepSlash) + tail;
    if KeptLiteral(b, keepSlash) {
      assert s[1..] == tail;
    } else {
      HexDigitsValue(b / 16);
      HexDigitsValue(b % 16);
      assert s[3..] == tail;
    }
  }

  /** `quote_from_bytes(bs, safe)`; `keepSlash` is `safe='/-_.~'` (the path), otherwise `safe='~'`. */
  function PercentEncode(bs: Bytes, keepSlash: bool): (r: string)
    ensures forall i :: 0 <= i < |r| ==> QuotedChar(r[i], keepSlash)
    ensures Canonical(r, keepSlash)
  {
    if |bs| == 0 then ""
    else
      var tail := PercentEncode(bs[1..], keepSlash);
      CanonicalCons(bs[0], keepSlash, tail);
      PercentByte(bs[0], keepSlash) + tail
  }

  /** `quote(s, safe)`: the string is encoded as UTF-8 and then percent-encoded, in canonical form. */
  function Quote(s: string, keepSlash: bool): (r: string)
    ensures Canonical(r, keepSlash)
  {
    PercentEncode(Utf8(s), keepSlash)
  }

  /** Percent-decoding of an ASCII string: `%XX` in either case is one byte, any other ASCII character stands for itself. */
  function PercentDecode(s: string): Option<Bytes>
  {
    if |s| == 0 then Some([])
    else if s[0] == '%' then
      if |s| < 3 || !IsHexDigit(s[1]) || !IsHexDigit(s[2]) then None
      else
        match PercentDecode(s[3..])
        case None => None
        case Some(rest) => Some([16 * HexValue(s[1]) + HexValue(s[2])] + rest)
    else if s[0] as int < 0x80 then
      match PercentDecode(s[1..])
      case None => None
      case Some(rest) => Some([s[0] as int] + rest)
    else None
  }

  lemma PercentDecodeEscape(hi: char, lo: char, t: string)
    requires IsHexDigit(hi) && IsHexDigit(lo)
    ensures PercentDecode(['%', hi, lo] + t)
         == match PercentDecode(t) case None => None case Some(rest) => Some([16 * HexValue(hi) + HexValue(lo)] + rest)
  {
    assert (['%', hi, lo] + t)[3..] == t;
  }

  lemma PercentDecodeLiteral(c: char, t: string)
    requires c != '%' && c as int < 0x80
    ensures PercentDecode([c] + t)
         == match PercentDecode(t) case None => None case Some(rest) => Some([c as int] + rest)
  {
    assert ([c] + t)[1..] == t;
  }

  lemma {:induction false} PercentRoundTrip(bs: Bytes, keepSlash: bool)
    ensures PercentDecode(PercentEncode(bs, keepSlash)) == Some(bs)
  {
    if |bs| > 0 {
      var tail := PercentEncode(bs[1..], keepSlash);
      assert PercentEncode(bs, keepSlash) == PercentByte(bs[0], keepSlash) + tail;
      PercentRoundTrip(bs[1..], keepSlash);
      PercentByteDecodes(bs[0], keepSlash, tail);
      assert [bs[0]] + bs[1..] == bs;
    }
  }

  /** Decoding one encoded byte in front of a text gives the byte in front of that text's decoding. */
  lemma PercentByteDecodes(b: Byte, keepSlash: bool, tail: string)
    ensures PercentDecode(PercentByte(b, keepSlash) + tail)
         == match PercentDecode(tail) case None => None case Some(rest) => Some([b] + rest)
  {
    if KeptLiteral(b, keepSlash) {
      PercentDecodeLiteral(b as char, tail);
    } else {
      var hi, lo := UpperHexDigits[b / 16], UpperHexDigits[b % 16];
      HexDigitsValue(b / 16);
      HexDigitsValue(b % 16);
      PercentDecodeEscape(hi, lo, tail);
    }
  }

  /**
    There is one canonical text per byte sequence: two canonical texts that
    decode to the same bytes are the same text. With `PercentRoundTrip`, the
    encoder's output is the one canonical text that decodes to its input.
  */
  lemma {:induction false} CanonicalUnique(s: string, t: string, keepSlash: bool)
    requires Canonical(s, keepSlash) && Canonical(t, keepSlash)
    requires PercentDecode(s).Some? && PercentDecode(s) == PercentDecode(t)
    ensures s == t
    decreases |s|
  {
    if |s| > 0 {
      var bs := PercentDecode(s).value;
      if s[0] == '%' {
        var b := 16 * HexValue(s[1]) + HexValue(s[2]);
        assert bs[0] == b && PercentDecode(s[3..]) == Some(bs[1..]);
        assert t[0] == '%';
        var c := 16 * HexValue(t[1]) + HexValue(t[2]);
        assert PercentDecode(t).value[0] == c && PercentDecode(t[3..]) == Some(bs[1..]);
        assert HexValue(s[1]) == HexValue(t[1]) && HexValue(s[2]) == HexValue(t[2]);
        UpperHexDigitInjective(s[1], t[1]);
        UpperHexDigitInjective(s[2], t[2]);
        CanonicalUnique(s[3..], t[3..], keepSlash);
        assert s == s[..3] + s[3..] && t == t[..3] + t[3..];
      } else {
        assert bs[0] == s[0] as int && PercentDecode(s[1..]) == Some(bs[1..]);
        assert t[0] != '%';
        assert t[0] == s[0];
        assert PercentDecode(t[1..]) == Some(bs[1..]);
        CanonicalUnique(s[1..], t[1..], keepSlash);
        assert s == [s[0]] + s[1..] && t == [t[0]] + t[1..];
      }
    } else {
      assert |t| == 0;
    }
  }

  /** `quote` loses nothing: the UTF-8 bytes of the input are recovered by decoding. */
  lemma QuoteRoundTrip(s: string, keepSlash: bool)
    ensures PercentDecode(Quote(s, keepSlash)) == Some(Utf8(s))
  {
    PercentRoundTrip(Utf8(s), keepSlash);
  }

  /** Every character of the string is one `quote` leaves literal. */
  predicate AllKept(s: string, keepSlash: bool)
  {
    forall i :: 0 <= i < |s| ==> s[i] as int < 0x80 && KeptLiteral(s[i] as int, keepSlash)
  }

  /** A string of characters `quote` keeps is left exactly as it is. */
  lemma {:induction false} QuoteKeepsLiterals(s: string, keepSlash: bool)
    ensures AllKept(s, keepSlash) ==> Quote(s, keepSlash) == s
  {
    if |s| > 0 && AllKept(s, keepSlash) {
      assert AllKept(s[1..], keepSlash);
      QuoteKeepsLiterals(s[1..], keepSlash);
      assert [s[0]] + s[1..] == s;
    }
  }

  // ---------------------------------------------------------------------
  // ASCII lower-casing
  // ---------------------------------------------------------------------

  function LowerChar(c: char): char
  {
    if 'A' <= c <= 'Z' then (c as int + 32) as char else c
  }

  /** `str.lower()` restricted to the ASCII letters. */
  function AsciiLower(s: string): (r: string)
    ensures |r| == |s|
    ensures forall i :: 0 <= i < |s| ==> r[i] == LowerChar(s[i])
  {
    if |s| == 0 then "" else [LowerChar(s[0])] + AsciiLower(s[1..])
  }

  /** Lower-casing leaves no upper-case ASCII letter and is idempotent. */
  lemma AsciiLowerIdempotent(s: string)
    ensures forall i :: 0 <= i < |s| ==> !('A' <= AsciiLower(s)[i] <= 'Z')
    ensures AsciiLower(AsciiLower(s)) == AsciiLower(s)
  {
  }
}

/** `urllib.parse.unquote(s)` with its defaults (UTF-8, errors="replace"):
    percent-encoding as in section 2.1 of RFC 3986, decoded to code points.
    The string is cut into maximal runs of ASCII characters, which are
    percent-decoded to bytes and then UTF-8 decoded, and non-ASCII
    characters, which are kept as they are. `Quote` is the encoder that the
    decoder undoes. */
module PercentDecoding {

  type byte = b: int | 0 <= b < 0x100

  /** U+FFFD, which the "replace" error handler puts for each ill-formed part. */
  const Replacement: char := '�'

  predicate IsAscii(c: char) {
    (c as int) < 0x80
  }

  predicate AllAscii(s: string) {
    forall i :: 0 <= i < |s| ==> IsAscii(s[i])
  }

  predicate IsHexDigit(c: char) {
    '0' <= c <= '9' || 'a' <= c <= 'f' || 'A' <= c <= 'F'
  }

  function HexValue(c: char): (v: nat)
    requires IsHexDigit(c)
    ensures v < 16
  {
    if '0' <= c <= '9' then (c as int) - ('0' as int)
    else if 'a' <= c <= 'f' then (c as int) - ('a' as int) + 10
    else (c as int) - ('A' as int) + 10
  }

  /** The upper-case hexadecimal digit that `quote` writes for `v`. */
  function HexDigit(v: nat): (c: char)
    requires v < 16
    ensures IsHexDigit(c) && HexValue(c) == v && IsAscii(c) && c != '%'
  {
    if v < 10 then ((v + '0' as int) as char) else ((v - 10 + 'A' as int) as char)
  }

  /** The codes of an ASCII string, as bytes. */
  function Codes(s: string): (b: seq<byte>)
    requires AllAscii(s)
    ensures |b| == |s| && forall i :: 0 <= i < |s| ==> b[i] == s[i] as int
  {
    if s == [] then [] else [s[0] as int] + Codes(s[1..])
  }

  /** `unquote_to_bytes` on an ASCII run: "%XX" with two hexadecimal digits
      (either case) becomes the byte XX; any other character, a '%' that
      does not start such a triple included, stands for its own code. */
  function UnquoteToBytes(s: string): (b: seq<byte>)
    requires AllAscii(s)
    ensures |b| <= |s|
    decreases |s|
  {
    if s == [] then []
    else
      var (first, width) :=
        if s[0] == '%' && |s| >= 3 && IsHexDigit(s[1]) && IsHexDigit(s[2])
        then (16 * HexValue(s[1]) + HexValue(s[2]), 3)
        else (s[0] as int, 1);
      [first] + UnquoteToBytes(s[width..])
  }

  predicate IsContinuation(b: int) {
    0x80 <= b <= 0xBF
  }

  /** Decodes the first code point of `b` and says how many bytes it used.
      An ill-formed sequence gives one U+FFFD for its maximal well-formed
      prefix (at least its first byte), which is what CPython's decoder does. */
  function DecodeOne(b: seq<byte>): (r: (char, nat))
    requires |b| > 0
    ensures 1 <= r.1 <= |b| && r.1 <= 4
  {
    var b0: int := b[0];
    var b1: int := if |b| >= 2 then b[1] else 0;
    var b2: int := if |b| >= 3 then b[2] else 0;
    var b3: int := if |b| >= 4 then b[3] else 0;
    if b0 < 0x80 then
      (b0 as char, 1)
    else if 0xC2 <= b0 <= 0xDF then
      if |b| >= 2 && IsContinuation(b1) then
        (((b0 - 0xC0) * 64 + (b1 - 0x80)) as char, 2)
      else (Replacement, 1)
    else if 0xE0 <= b0 <= 0xEF then
      // E0 excludes overlong forms, ED excludes the surrogates
      var lo := if b0 == 0xE0 then 0xA0 else 0x80;
      var hi := if b0 == 0xED then 0x9F else 0xBF;
      if |b| >= 2 && lo <= b1 <= hi then
        if |b| >= 3 && IsContinuation(b2) then
          (((b0 - 0xE0) * 4096 + (b1 - 0x80) * 64 + (b2 - 0x80)) as char, 3)
        else (Replacement, 2)
      else (Replacement, 1)
    else if 0xF0 <= b0 <= 0xF4 then
      // F0 excludes overlong forms, F4 code points above U+10FFFF
      var lo := if b0 == 0xF0 then 0x90 else 0x80;
      var hi := if b0 == 0xF4 then 0x8F else 0xBF;
      if |b| >= 2 && lo <= b1 <= hi then
        if |b| >= 3 && IsContinuation(b2) then
          if |b| >= 4 && IsContinuation(b3) then
            (((b0 - 0xF0) * 0x40000 + (b1 - 0x80) * 4096 + (b2 - 0x80) * 64 + (b3 - 0x80)) as char, 4)
          else (Replacement, 3)
        else (Replacement, 2)
      else (Replacement, 1)
    else
      (Replacement, 1)
  }

  /** `bytes.decode("utf-8", "replace")`. */
  function Utf8Decode(b: seq<byte>): (s: string)
    ensures |s| <= |b|
    decreases |b|
  {
    if b == [] then []
    else
      var (c, n) := DecodeOne(b);
      [c] + Utf8Decode(b[n..])
  }

  /** Length of the run of ASCII characters that starts `s`. */
  function AsciiRunLength(s: string): (n: nat)
    ensures n <= |s|
    ensures forall i :: 0 <= i < n ==> IsAscii(s[i])
    ensures n < |s| ==> !IsAscii(s[n])
  {
    if s == [] || !IsAscii(s[0]) then 0 else 1 + AsciiRunLength(s[1..])
  }

  /** The general path of `unquote`: every maximal ASCII run is decoded,
      every non-ASCII character is kept. */
  function DecodeRuns(s: string): string
    decreases |s|
  {
    if s == [] then []
    else
      var n := AsciiRunLength(s);
      assert AllAscii(s[..n]);
      var (piece, width) := if n == 0 then ([s[0]], 1) else (Utf8Decode(UnquoteToBytes(s[..n])), n);
      piece + DecodeRuns(s[width..])
  }

  /** `urllib.parse.unquote(s)`; a string without '%' is returned as it is. */
  function Unquote(s: string): string {
    if '%' !in s then s else DecodeRuns(s)
  }

  // ---------------------------------------------------------------------
  // The encoder: `urllib.parse.quote(s)` with its default safe="/".

  /** The UTF-8 encoding of one code point. */
  function EncodeChar(c: char): (b: seq<byte>)
    ensures 1 <= |b| <= 4
  {
    var v := c as int;
    if v < 0x80 then [v]
    else if v < 0x800 then [0xC0 + v / 64, 0x80 + v % 64]
    else if v < 0x10000 then [0xE0 + v / 4096, 0x80 + (v / 64) % 64, 0x80 + v % 64]
    else [0xF0 + v / 0x40000, 0x80 + (v / 4096) % 64, 0x80 + (v / 64) % 64, 0x80 + v % 64]
  }

  function Utf8Encode(s: string): seq<byte> {
    if s == [] then [] else EncodeChar(s[0]) + Utf8Encode(s[1..])
  }

  /** Bytes that `quote` leaves as they are: the unreserved characters of
      section 2.3 of RFC 3986 and '/'. */
  predicate IsSafe(b: byte) {
    ('A' as int <= b <= 'Z' as int) || ('a' as int <= b <= 'z' as int)
      || ('0' as int <= b <= '9' as int)
      || b == '_' as int || b == '.' as int || b == '-' as int || b == '~' as int || b == '/' as int
  }

  function EncodeByte(b: byte): (s: string)
    ensures AllAscii(s)
  {
    if IsSafe(b) then [b as char] else ['%', HexDigit(b / 16), HexDigit(b % 16)]
  }

  function PercentEncode(b: seq<byte>): (s: string)
    ensures AllAscii(s)
  {
    if b == [] then [] else EncodeByte(b[0]) + PercentEncode(b[1..])
  }

  function Quote(s: string): string {
    PercentEncode(Utf8Encode(s))
  }

  // ---------------------------------------------------------------------
  // Properties.

  /** Percent-decoding undoes percent-encoding, byte for byte. */
  lemma {:induction false} UnquoteToBytesOfPercentEncode(b: seq<byte>)
    ensures UnquoteToBytes(PercentEncode(b)) == b
  {
    if b != [] {
      var head, tail := EncodeByte(b[0]), PercentEncode(b[1..]);
      var s := head + tail;
      assert PercentEncode(b) == s;
      UnquoteToBytesOfPercentEncode(b[1..]);
      if IsSafe(b[0]) {
        assert s[0] != '%' && s[1..] == tail;
      } else {
        assert s[0] == '%' && IsHexDigit(s[1]) && IsHexDigit(s[2]);
        assert s[3..] == tail;
        assert 16 * HexValue(s[1]) + HexValue(s[2]) == b[0];
      }
    }
  }

  /** UTF-8 decoding reads back the code point that `EncodeChar` wrote. */
  lemma DecodeOneOfEncodeChar(c: char, rest: seq<byte>)
    ensures DecodeOne(EncodeChar(c) + rest) == (c, |EncodeChar(c)|)
  {
    var v := c as int;
    if v < 0x80 {
    } else if v < 0x800 {
      DecodeTwoBytes(c, rest);
    } else if v < 0x10000 {
      DecodeThreeBytes(c, rest);
    } else {
      DecodeFourBytes(c, rest);
    }
  }

  lemma DecodeTwoBytes(c: char, rest: seq<byte>)
    requires 0x80 <= c as int < 0x800
    ensures DecodeOne(EncodeChar(c) + rest) == (c, 2)
  {
    var v := c as int;
    var b := EncodeChar(c) + rest;
    assert b[0] == 0xC0 + v / 64 && b[1] == 0x80 + v % 64;
    assert (v / 64) * 64 + v % 64 == v;
  }

  lemma DecodeThreeBytes(c: char, rest: seq<byte>)
    requires 0x800 <= c as int < 0x10000
    ensures DecodeOne(EncodeChar(c) + rest) == (c, 3)
  {
    var v := c as int;
    var b := EncodeChar(c) + rest;
    var h, q, m := v / 4096, v / 64, v % 64;
    assert v == q * 64 + m;
    assert q == h * 64 + q % 64;
    assert b[0] == 0xE0 + h && b[1] == 0x80 + q % 64 && b[2] == 0x80 + m;
    assert h == 0 ==> q % 64 >= 0x20;
    assert h == 0xD ==> q % 64 < 0x20;
    assert h * 4096 + (q % 64) * 64 + m == v;
  }

  lemma DecodeFourBytes(c: char, rest: seq<byte>)
    requires 0x10000 <= c as int
    ensures DecodeOne(EncodeChar(c) + rest) == (c, 4)
  {
    var v := c as int;
    var b := EncodeChar(c) + rest;
    var h, q2, q, m := v / 0x40000, v / 4096, v / 64, v % 64;
    assert v == q * 64 + m;
    assert q == q2 * 64 + q % 64;
    assert q2 == h * 64 + q2 % 64;
    assert b[0] == 0xF0 + h && b[1] == 0x80 + q2 % 64;
    assert b[2] == 0x80 + q % 64 && b[3] == 0x80 + m;
    assert h == 0 ==> q2 % 64 >= 0x10;
    assert h == 4 ==> q2 % 64 < 0x10;
    assert h * 0x40000 + (q2 % 64) * 4096 + (q % 64) * 64 + m == v;
  }

  /** UTF-8 decoding undoes UTF-8 encoding. */
  lemma {:induction false} Utf8DecodeOfEncode(s: string)
    ensures Utf8Decode(Utf8Encode(s)) == s
  {
    if s != [] {
      var e, tail := EncodeChar(s[0]), Utf8Encode(s[1..]);
      DecodeOneOfEncodeChar(s[0], tail);
      assert Utf8Encode(s) == e + tail;
      assert (e + tail)[|e|..] == tail;
      Utf8DecodeOfEncode(s[1..]);
    }
  }

  /** ASCII bytes decode to themselves. */
  lemma {:induction false} Utf8DecodeOfCodes(s: string)
    requires AllAscii(s)
    ensures Utf8Decode(Codes(s)) == s
  {
    if s != [] {
      assert Codes(s)[1..] == Codes(s[1..]);
      Utf8DecodeOfCodes(s[1..]);
    }
  }

  /** Without '%', percent-decoding reads every character as its own code. */
  lemma {:induction false} UnquoteToBytesWithoutPercent(s: string)
    requires AllAscii(s) && '%' !in s
    ensures UnquoteToBytes(s) == Codes(s)
  {
    if s != [] {
      assert s[0] != '%';
      assert '%' !in s[1..];
      UnquoteToBytesWithoutPercent(s[1..]);
    }
  }

  /** The early return of `unquote` agrees with its general path: a string
      without '%' decodes to itself. */
  lemma {:induction false} DecodeRunsWithoutPercent(s: string)
    requires '%' !in s
    ensures DecodeRuns(s) == s
    decreases |s|
  {
    if s != [] {
      var n := AsciiRunLength(s);
      var width := if n == 0 then 1 else n;
      assert '%' !in s[..width] && '%' !in s[width..];
      if n > 0 {
        assert AllAscii(s[..n]);
        AsciiRunWithoutPercent(s[..n]);
      }
      DecodeRunsWithoutPercent(s[width..]);
      assert s[..width] + s[width..] == s;
    }
  }

  /** A run of ASCII characters without '%' decodes to itself. */
  lemma AsciiRunWithoutPercent(t: string)
    requires AllAscii(t) && '%' !in t
    ensures Utf8Decode(UnquoteToBytes(t)) == t
  {
    UnquoteToBytesWithoutPercent(t);
    Utf8DecodeOfCodes(t);
  }

  lemma UnquoteIsDecodeRuns(s: string)
    ensures Unquote(s) == DecodeRuns(s)
  {
    if '%' !in s {
      DecodeRunsWithoutPercent(s);
    }
  }

  /** An ASCII string is a single run. */
  lemma DecodeRunsOfAscii(s: string)
    requires AllAscii(s)
    ensures DecodeRuns(s) == Utf8Decode(UnquoteToBytes(s))
  {
    if s != [] {
      assert AsciiRunLength(s) == |s|;
      assert s[..|s|] == s;
      assert s[|s|..] == [];
    }
  }

  /** Round trip: decoding what `Quote` encoded gives the string back. */
  lemma UnquoteOfQuote(s: string)
    ensures Unquote(Quote(s)) == s
  {
    var q := Quote(s);
    UnquoteIsDecodeRuns(q);
    DecodeRunsOfAscii(q);
    UnquoteToBytesOfPercentEncode(Utf8Encode(s));
    Utf8DecodeOfEncode(s);
  }

  lemma {:induction false} Utf8EncodeAppend(a: string, b: string)
    ensures Utf8Encode(a + b) == Utf8Encode(a) + Utf8Encode(b)
  {
    if a != [] {
      assert (a + b)[0] == a[0] && (a + b)[1..] == a[1..] + b;
      Utf8EncodeAppend(a[1..], b);
      assert Utf8Encode(a + b) == EncodeChar(a[0]) + (Utf8Encode(a[1..]) + Utf8Encode(b));
    } else {
      assert a + b == b;
    }
  }

  lemma {:induction false} PercentEncodeAppend(a: seq<byte>, b: seq<byte>)
    ensures PercentEncode(a + b) == PercentEncode(a) + PercentEncode(b)
  {
    if a != [] {
      assert (a + b)[0] == a[0] && (a + b)[1..] == a[1..] + b;
      PercentEncodeAppend(a[1..], b);
      assert PercentEncode(a + b) == EncodeByte(a[0]) + (PercentEncode(a[1..]) + PercentEncode(b));
    } else {
      assert a + b == b;
    }
  }

  /** Encoding works piece by piece. */
  lemma QuoteAppend(a: string, b: string)
    ensures Quote(a + b) == Quote(a) + Quote(b)
  {
    Utf8EncodeAppend(a, b);
    PercentEncodeAppend(Utf8Encode(a), Utf8Encode(b));
  }

  predicate IsSafeChar(c: char) {
    IsAscii(c) && IsSafe(c as int)
  }

  /** Text made of unreserved characters is its own encoding. */
  lemma {:induction false} QuoteOfSafe(s: string)
    requires forall i :: 0 <= i < |s| ==> IsSafeChar(s[i])
    ensures Quote(s) == s
  {
    if s != [] {
      QuoteAppend([s[0]], s[1..]);
      assert [s[0]] + s[1..] == s;
      QuoteOfSafe(s[1..]);
    }
  }
  /** Encoding brings in a '/' only where the text has one. */
  lemma {:induction false} QuoteWithoutSlash(s: string)
    requires '/' !in s
    ensures '/' !in Quote(s)
  {
    if s != [] {
      QuoteAppend([s[0]], s[1..]);
      assert [s[0]] + s[1..] == s;
      QuoteWithoutSlash(s[1..]);
      assert Utf8Encode([s[0]]) == EncodeChar(s[0]) + [];
      PercentEncodeWithoutSlash(EncodeChar(s[0]) + []);
    }
  }

  lemma {:induction false} PercentEncodeWithoutSlash(b: seq<byte>)
    requires '/' as int !in b
    ensures '/' !in PercentEncode(b)
  {
    if b != [] {
      PercentEncodeWithoutSlash(b[1..]);
    }
  }
}

/**
  `decodeURIComponent`, section 19.2.6.2 of ECMA-262, and the percent-encoding of section
  2.1 of RFC 3986 over UTF-8 that it undoes.  Strings are sequences of code points.
 */
module PercentCoding {
  import opened Wrappers

  type Byte = b: int | 0 <= b < 256

  // ---- Hexadecimal digits and escaped bytes -----------------------------------------

  function HexDigit(d: int): (c: char)
    requires 0 <= d < 16
  {
    if d < 10 then '0' + d as char else 'A' + (d - 10) as char
  }

  function HexValue(c: char): (d: int)
    ensures -1 <= d < 16
  {
    if '0' <= c <= '9' then c as int - '0' as int
    else if 'A' <= c <= 'F' then c as int - 'A' as int + 10
    else if 'a' <= c <= 'f' then c as int - 'a' as int + 10
    else -1
  }

  function Escaped(b: Byte): (s: string)
    ensures |s| == 3
  {
    ['%', HexDigit(b / 16), HexDigit(b % 16)]
  }

  /** The byte an escape at the head of `s` stands for, or -1. */
  function Octet(s: string): (b: int)
    ensures -1 <= b < 256
    ensures b >= 0 ==> |s| >= 3
  {
    if |s| >= 3 && s[0] == '%' && HexValue(s[1]) >= 0 && HexValue(s[2]) >= 0 then
      HexValue(s[1]) * 16 + HexValue(s[2])
    else -1
  }

  lemma OctetOfEscaped(b: Byte, rest: string)
    ensures Octet(Escaped(b) + rest) == b && (Escaped(b) + rest)[3..] == rest
  {
    assert HexValue(HexDigit(b / 16)) == b / 16;
    assert HexValue(HexDigit(b % 16)) == b % 16;
  }

  // ---- UTF-8 ------------------------------------------------------------------------

  /** The continuation byte with the last six bits of `n`. */
  function Sextet(n: nat): Byte {
    0x80 + n % 0x40
  }

  function Utf8(c: char): seq<Byte> {
    var n := c as int;
    if n < 0x80 then [n]
    else if n < 0x800 then [0xC0 + n / 0x40, Sextet(n)]
    else if n < 0x1_0000 then [0xE0 + n / 0x40 / 0x40, Sextet(n / 0x40), Sextet(n)]
    else [0xF0 + n / 0x40 / 0x40 / 0x40, Sextet(n / 0x40 / 0x40), Sextet(n / 0x40), Sextet(n)]
  }

  /** How many continuation bytes follow this one; -1 for a byte that cannot come first. */
  function Continuations(b: Byte): int {
    if b < 0x80 then 0
    else if b < 0xC0 then -1
    else if b < 0xE0 then 1
    else if b < 0xF0 then 2
    else if b < 0xF8 then 3
    else -1
  }

  /** The payload bits of a first byte. */
  function Leading(b: Byte): int
    requires 0 <= Continuations(b)
  {
    if b < 0x80 then b else if b < 0xE0 then b - 0xC0 else if b < 0xF0 then b - 0xE0 else b - 0xF0
  }

  /** A code point in its shortest form, and not a surrogate. */
  predicate Acceptable(code: int, continuations: int) {
    && (continuations == 1 ==> 0x80 <= code)
    && (continuations == 2 ==> 0x800 <= code)
    && (continuations == 3 ==> 0x1_0000 <= code)
    && (0 <= code < 0xD800 || 0xE000 <= code < 0x11_0000)
  }

  // ---- Decoding and encoding --------------------------------------------------------

  /** Adds `k` escaped continuation bytes at the head of `s` to `code`. */
  function Continue(code: int, k: int, s: string): (r: Option<(int, string)>)
    requires 0 <= k
    ensures r.Some? ==> |r.value.1| <= |s|
    decreases k
  {
    if k == 0 then Some((code, s))
    else
      var b := Octet(s);
      if 0x80 <= b < 0xC0 then Continue(code * 0x40 + (b - 0x80), k - 1, s[3..]) else None
  }

  /** `None` where `decodeURIComponent` throws a URIError. */
  function Decode(s: string): Option<string>
    decreases |s|
  {
    if s == "" then Some("")
    else if s[0] != '%' then Behind(s[0], Decode(s[1..]))
    else
      var b := Octet(s);
      if b < 0 || Continuations(b) < 0 then None
      else
        match Continue(Leading(b), Continuations(b), s[3..])
        case None => None
        case Some((code, rest)) =>
          if Acceptable(code, Continuations(b)) then Behind(code as char, Decode(rest)) else None
  }

  function Behind(c: char, rest: Option<string>): Option<string> {
    if rest.Some? then Some([c] + rest.value) else None
  }

  /** What `encodeURIComponent` leaves as it is. */
  predicate IsUnescaped(c: char) {
    'a' <= c <= 'z' || 'A' <= c <= 'Z' || '0' <= c <= '9' || c in "-_.!~*'()"
  }

  function EscapedBytes(bytes: seq<Byte>): string {
    if bytes == [] then "" else Escaped(bytes[0]) + EscapedBytes(bytes[1..])
  }

  function EncodeChar(c: char): string {
    if IsUnescaped(c) then [c] else EscapedBytes(Utf8(c))
  }

  function Encode(s: string): string {
    if s == "" then "" else EncodeChar(s[0]) + Encode(s[1..])
  }

  lemma {:induction false} EscapedBytesAssoc(b: Byte, bytes: seq<Byte>, rest: string)
    ensures EscapedBytes([b] + bytes) + rest == Escaped(b) + (EscapedBytes(bytes) + rest)
  {
    assert ([b] + bytes)[1..] == bytes;
  }

  /** A continuation byte is read back as the six bits it was made of. */
  lemma {:induction false} ReadsSextet(n: nat, k: int, bytes: seq<Byte>, rest: string)
    requires 0 < k
    ensures Continue(n / 0x40, k, EscapedBytes([Sextet(n)] + bytes) + rest)
      == Continue(n, k - 1, EscapedBytes(bytes) + rest)
  {
    EscapedBytesAssoc(Sextet(n), bytes, rest);
    OctetOfEscaped(Sextet(n), EscapedBytes(bytes) + rest);
    assert n / 0x40 * 0x40 + n % 0x40 == n;
  }

  lemma {:induction false} TwoBytes(n: int, rest: string)
    requires 0x80 <= n < 0x800
    ensures Continue(n / 0x40, 1, EscapedBytes([Sextet(n)]) + rest) == Some((n, rest))
  {
    ReadsSextet(n, 1, [], rest);
    assert [Sextet(n)] + [] == [Sextet(n)] && EscapedBytes([]) + rest == rest;
  }

  lemma {:induction false} ThreeBytes(n: int, rest: string)
    requires 0x800 <= n < 0x1_0000
    ensures Continue(n / 0x40 / 0x40, 2, EscapedBytes([Sextet(n / 0x40), Sextet(n)]) + rest) == Some((n, rest))
  {
    ReadsSextet(n / 0x40, 2, [Sextet(n)], rest);
    assert [Sextet(n / 0x40)] + [Sextet(n)] == [Sextet(n / 0x40), Sextet(n)];
    ReadsSextet(n, 1, [], rest);
    assert [Sextet(n)] + [] == [Sextet(n)] && EscapedBytes([]) + rest == rest;
  }

  lemma {:induction false} FourBytes(n: int, rest: string)
    requires 0x1_0000 <= n < 0x11_0000
    ensures Continue(
        n / 0x40 / 0x40 / 0x40, 3, EscapedBytes([Sextet(n / 0x40 / 0x40), Sextet(n / 0x40), Sextet(n)]) + rest)
      == Some((n, rest))
  {
    ReadsSextet(n / 0x40 / 0x40, 3, [Sextet(n / 0x40), Sextet(n)], rest);
    assert [Sextet(n / 0x40 / 0x40)] + [Sextet(n / 0x40), Sextet(n)] ==
      [Sextet(n / 0x40 / 0x40), Sextet(n / 0x40), Sextet(n)];
    ReadsSextet(n / 0x40, 2, [Sextet(n)], rest);
    assert [Sextet(n / 0x40)] + [Sextet(n)] == [Sextet(n / 0x40), Sextet(n)];
    ReadsSextet(n, 1, [], rest);
    assert [Sextet(n)] + [] == [Sextet(n)] && EscapedBytes([]) + rest == rest;
  }

  /** The bytes behind the first one complete its code point. */
  lemma {:induction false} TailCompletes(c: char, rest: string)
    ensures var bytes := Utf8(c);
      && 0 <= Continuations(bytes[0]) && Acceptable(c as int, Continuations(bytes[0]))
      && Continue(Leading(bytes[0]), Continuations(bytes[0]), EscapedBytes(bytes[1..]) + rest) == Some((c as int, rest))
  {
    var n := c as int;
    var bytes := Utf8(c);
    if n < 0x80 {
      assert EscapedBytes(bytes[1..]) + rest == rest;
    } else if n < 0x800 {
      assert bytes[1..] == [Sextet(n)];
      TwoBytes(n, rest);
    } else if n < 0x1_0000 {
      assert bytes[1..] == [Sextet(n / 0x40), Sextet(n)];
      ThreeBytes(n, rest);
    } else {
      assert bytes[1..] == [Sextet(n / 0x40 / 0x40), Sextet(n / 0x40), Sextet(n)];
      FourBytes(n, rest);
    }
  }

  /** The escaped bytes of one code point at the head of a string are decoded to it. */
  lemma {:induction false} BytesRoundTrip(c: char, rest: string)
    ensures Decode(EscapedBytes(Utf8(c)) + rest) == Behind(c, Decode(rest))
  {
    var bytes := Utf8(c);
    var tail := EscapedBytes(bytes[1..]) + rest;
    assert [bytes[0]] + bytes[1..] == bytes;
    EscapedBytesAssoc(bytes[0], bytes[1..], rest);
    OctetOfEscaped(bytes[0], tail);
    TailCompletes(c, rest);
  }

  lemma {:induction false} CharRoundTrip(c: char, rest: string)
    ensures Decode(EncodeChar(c) + rest) == Behind(c, Decode(rest))
  {
    if IsUnescaped(c) {
      assert (EncodeChar(c) + rest)[1..] == rest;
    } else {
      BytesRoundTrip(c, rest);
    }
  }

  lemma {:induction false} RoundTrip(s: string)
    ensures Decode(Encode(s)) == Some(s)
    decreases |s|
  {
    if s != "" {
      RoundTrip(s[1..]);
      CharRoundTrip(s[0], Encode(s[1..]));
      assert [s[0]] + s[1..] == s;
    }
  }

  /** What encoding yields fits anywhere in a cookie. */
  predicate IsPlain(c: char) {
    IsUnescaped(c) || c == '%'
  }

  lemma {:induction false} EscapedIsPlain(bytes: seq<Byte>)
    ensures forall c :: c in EscapedBytes(bytes) ==> IsPlain(c)
    decreases |bytes|
  {
    if bytes != [] {
      EscapedIsPlain(bytes[1..]);
      assert IsPlain(HexDigit(bytes[0] / 16)) && IsPlain(HexDigit(bytes[0] % 16));
    }
  }

  lemma {:induction false} EncodedIsPlain(s: string)
    ensures forall c :: c in Encode(s) ==> IsPlain(c)
    decreases |s|
  {
    if s != "" {
      EscapedIsPlain(Utf8(s[0]));
      EncodedIsPlain(s[1..]);
    }
  }

  // ---- Whole strings as bytes ---------------------------------------------------------

  /** The UTF-8 bytes of a whole string. */
  function EncodeUtf8(s: string): seq<Byte> {
    if s == "" then [] else Utf8(s[0]) + EncodeUtf8(s[1..])
  }

  lemma {:induction false} EscapedBytesConcat(a: seq<Byte>, b: seq<Byte>)
    ensures EscapedBytes(a + b) == EscapedBytes(a) + EscapedBytes(b)
    decreases |a|
  {
    if a == [] {
      assert a + b == b;
    } else {
      assert (a + b)[1..] == a[1..] + b;
      EscapedBytesConcat(a[1..], b);
    }
  }

  lemma {:induction false} Utf8RoundTrip(s: string)
    ensures Decode(EscapedBytes(EncodeUtf8(s))) == Some(s)
    decreases |s|
  {
    if s != "" {
      Utf8RoundTrip(s[1..]);
      EscapedBytesConcat(Utf8(s[0]), EncodeUtf8(s[1..]));
      BytesRoundTrip(s[0], EscapedBytes(EncodeUtf8(s[1..])));
      assert [s[0]] + s[1..] == s;
    }
  }

  /** Different strings have different bytes. */
  lemma {:induction false} Utf8IsInjective(a: string, b: string)
    requires EncodeUtf8(a) == EncodeUtf8(b)
    ensures a == b
  {
    Utf8RoundTrip(a);
    Utf8RoundTrip(b);
  }

  // ---- Nothing else is accepted -------------------------------------------------------

  /** The bytes a text stands for: escapes as they are, everything else in UTF-8; `None` for a broken escape. */
  function Unescape(s: string): Option<seq<Byte>>
    decreases |s|
  {
    if s == "" then Some([])
    else if s[0] != '%' then Prepend(Utf8(s[0]), Unescape(s[1..]))
    else if Octet(s) < 0 then None
    else Prepend([Octet(s)], Unescape(s[3..]))
  }

  function Prepend(bytes: seq<Byte>, rest: Option<seq<Byte>>): Option<seq<Byte>> {
    if rest.Some? then Some(bytes + rest.value) else None
  }

  lemma PrependConcat(a: seq<Byte>, b: seq<Byte>, rest: Option<seq<Byte>>)
    ensures Prepend(a + b, rest) == Prepend(a, Prepend(b, rest))
  {
    if rest.Some? {
      assert a + b + rest.value == a + (b + rest.value);
    }
  }

  /** The six payload bits of a continuation byte. */
  function Low(b: int): int {
    b - 0x80
  }

  predicate IsContinuation(b: Byte) {
    0x80 <= b < 0xC0
  }

  /** The code point put together from continuation bytes. */
  function Gather(code: int, bytes: seq<Byte>): int
    decreases |bytes|
  {
    if bytes == [] then code else Gather(code * 0x40 + Low(bytes[0]), bytes[1..])
  }

  lemma {:induction false} ContinueReadsBytes(code: int, k: int, s: string) returns (bytes: seq<Byte>)
    requires 0 <= k && Continue(code, k, s).Some?
    ensures |bytes| == k && forall b :: b in bytes ==> IsContinuation(b)
    ensures var (c, rest) := Continue(code, k, s).value;
      c == Gather(code, bytes) && Unescape(s) == Prepend(bytes, Unescape(rest))
    decreases k
  {
    if k == 0 {
      bytes := [];
      if Unescape(s).Some? {
        assert [] + Unescape(s).value == Unescape(s).value;
      }
    } else {
      var b: Byte := Octet(s);
      var tail := ContinueReadsBytes(code * 0x40 + Low(b), k - 1, s[3..]);
      bytes := [b] + tail;
      assert bytes[1..] == tail;
      PrependConcat([b], tail, Unescape(Continue(code, k, s).value.1));
    }
  }

  lemma {:induction false} GatherCons(code: int, b: Byte, rest: seq<Byte>)
    ensures Gather(code, [b] + rest) == Gather(code * 0x40 + Low(b), rest)
  {
    assert ([b] + rest)[1..] == rest;
  }

  lemma Splits(n: int, b: Byte)
    requires 0 <= n && IsContinuation(b)
    ensures (n * 0x40 + Low(b)) / 0x40 == n && Sextet(n * 0x40 + Low(b)) == b
  {
  }

  lemma AcceptedThree(b: Byte, b1: Byte, b2: Byte)
    requires Continuations(b) == 2 && IsContinuation(b1) && IsContinuation(b2)
    requires Acceptable((Leading(b) * 0x40 + Low(b1)) * 0x40 + Low(b2), 2)
    ensures Utf8(((Leading(b) * 0x40 + Low(b1)) * 0x40 + Low(b2)) as char) == [b, b1, b2]
  {
    Splits(Leading(b), b1);
    Splits(Leading(b) * 0x40 + Low(b1), b2);
  }

  lemma AcceptedFour(b: Byte, b1: Byte, b2: Byte, b3: Byte)
    requires Continuations(b) == 3 && IsContinuation(b1) && IsContinuation(b2) && IsContinuation(b3)
    requires Acceptable(((Leading(b) * 0x40 + Low(b1)) * 0x40 + Low(b2)) * 0x40 + Low(b3), 3)
    ensures Utf8((((Leading(b) * 0x40 + Low(b1)) * 0x40 + Low(b2)) * 0x40 + Low(b3)) as char) == [b, b1, b2, b3]
  {
    Splits(Leading(b), b1);
    Splits(Leading(b) * 0x40 + Low(b1), b2);
    Splits((Leading(b) * 0x40 + Low(b1)) * 0x40 + Low(b2), b3);
  }

  lemma {:induction false} GatherOne(code: int, b1: Byte)
    ensures Gather(code, [b1]) == code * 0x40 + Low(b1)
  {
    assert [b1] == [b1] + [];
    GatherCons(code, b1, []);
  }

  lemma {:induction false} GatherTwo(code: int, b1: Byte, b2: Byte)
    ensures Gather(code, [b1, b2]) == (code * 0x40 + Low(b1)) * 0x40 + Low(b2)
  {
    assert [b1, b2] == [b1] + [b2];
    GatherCons(code, b1, [b2]);
    GatherOne(code * 0x40 + Low(b1), b2);
  }

  lemma {:induction false} GatherThree(code: int, b1: Byte, b2: Byte, b3: Byte)
    ensures Gather(code, [b1, b2, b3]) == ((code * 0x40 + Low(b1)) * 0x40 + Low(b2)) * 0x40 + Low(b3)
  {
    assert [b1, b2, b3] == [b1] + [b2, b3];
    GatherCons(code, b1, [b2, b3]);
    GatherTwo(code * 0x40 + Low(b1), b2, b3);
  }

  /** A first byte, its continuation bytes and the code point they stand for. */
  ghost predicate Accepts(b: Byte, bytes: seq<Byte>, code: int) {
    && 0 <= Continuations(b) == |bytes| && (forall x :: x in bytes ==> IsContinuation(x))
    && code == Gather(Leading(b), bytes) && Acceptable(code, Continuations(b))
  }

  lemma AcceptsTwo(b: Byte, bytes: seq<Byte>, code: int)
    requires Accepts(b, bytes, code) && |bytes| == 1
    ensures Utf8(code as char) == [b, bytes[0]]
  {
    assert bytes == [bytes[0]] && bytes[0] in bytes;
    GatherOne(Leading(b), bytes[0]);
  }

  lemma AcceptsThree(b: Byte, bytes: seq<Byte>, code: int)
    requires Accepts(b, bytes, code) && |bytes| == 2
    ensures Utf8(code as char) == [b, bytes[0], bytes[1]]
  {
    assert bytes == [bytes[0], bytes[1]] && bytes[0] in bytes && bytes[1] in bytes;
    GatherTwo(Leading(b), bytes[0], bytes[1]);
    AcceptedThree(b, bytes[0], bytes[1]);
  }

  lemma AcceptsFour(b: Byte, bytes: seq<Byte>, code: int)
    requires Accepts(b, bytes, code) && |bytes| == 3
    ensures Utf8(code as char) == [b, bytes[0], bytes[1], bytes[2]]
  {
    assert bytes == [bytes[0], bytes[1], bytes[2]];
    assert bytes[0] in bytes && bytes[1] in bytes && bytes[2] in bytes;
    GatherThree(Leading(b), bytes[0], bytes[1], bytes[2]);
    AcceptedFour(b, bytes[0], bytes[1], bytes[2]);
  }

  /** A code point accepted from a first byte and its continuation bytes has exactly these bytes in UTF-8. */
  lemma AcceptedIsUtf8(b: Byte, bytes: seq<Byte>, code: int)
    requires Accepts(b, bytes, code)
    ensures Utf8(code as char) == [b] + bytes
  {
    match |bytes|
    case 1 => AcceptsTwo(b, bytes, code);
    case 2 => AcceptsThree(b, bytes, code);
    case 3 => AcceptsFour(b, bytes, code);
    case _ =>
  }

  /** Whatever decodes decodes to the string whose UTF-8 bytes the text stands for. */
  lemma {:induction false} DecodesOnlyUtf8(s: string)
    requires Decode(s).Some?
    ensures Unescape(s) == Some(EncodeUtf8(Decode(s).value))
    decreases |s|
  {
    if s == "" {
    } else if s[0] != '%' {
      DecodesOnlyUtf8(s[1..]);
      assert Decode(s).value[1..] == Decode(s[1..]).value;
    } else {
      var b: Byte := Octet(s);
      var bytes := ContinueReadsBytes(Leading(b), Continuations(b), s[3..]);
      var (code, rest) := Continue(Leading(b), Continuations(b), s[3..]).value;
      AcceptedIsUtf8(b, bytes, code);
      DecodesOnlyUtf8(rest);
      assert Decode(s).value[1..] == Decode(rest).value;
      PrependConcat([b], bytes, Unescape(rest));
    }
  }
}

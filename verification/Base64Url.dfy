/**
  `btoa` and the rewriting that turns its result into the unpadded base64url of
  section 5 of RFC 4648.
 */
module Base64Url {
  import opened PercentCoding

  type SixBits = d: int | 0 <= d < 64

  /** Three bytes are four sextets; a last group of one or two bytes is filled up with zero bits. */
  function Sextets(bytes: seq<Byte>): seq<SixBits> {
    if bytes == [] then []
    else if |bytes| == 1 then [bytes[0] / 4, bytes[0] % 4 * 16]
    else if |bytes| == 2 then [bytes[0] / 4, bytes[0] % 4 * 16 + bytes[1] / 16, bytes[1] % 16 * 4]
    else
      [bytes[0] / 4, bytes[0] % 4 * 16 + bytes[1] / 16, bytes[1] % 16 * 4 + bytes[2] / 64, bytes[2] % 64]
      + Sextets(bytes[3..])
  }

  /** The alphabet of section 4 of RFC 4648. */
  function Letter(d: SixBits): char {
    if d < 26 then 'A' + d as char
    else if d < 52 then 'a' + (d - 26) as char
    else if d < 62 then '0' + (d - 52) as char
    else if d == 62 then '+'
    else '/'
  }

  function Letters(ds: seq<SixBits>): (s: string)
    ensures |s| == |ds|
  {
    seq(|ds|, i requires 0 <= i < |ds| => Letter(ds[i]))
  }

  /** The standard base64 of the bytes, padded to whole groups of four. */
  function Btoa(bytes: seq<Byte>): string {
    Letters(Sextets(bytes)) + (if |bytes| % 3 == 1 then "==" else if |bytes| % 3 == 2 then "=" else "")
  }

  function ReplaceAll(s: string, from: char, to: char): (r: string)
    ensures |r| == |s|
  {
    seq(|s|, i requires 0 <= i < |s| => if s[i] == from then to else s[i])
  }

  function RemoveAll(s: string, c: char): string {
    if s == "" then "" else (if s[0] == c then "" else [s[0]]) + RemoveAll(s[1..], c)
  }

  function Encode64(bytes: seq<Byte>): string {
    RemoveAll(ReplaceAll(ReplaceAll(Btoa(bytes), '+', '-'), '/', '_'), '=')
  }

  // ---- What the rewriting yields ------------------------------------------------------

  /** The URL-safe alphabet of section 5 of RFC 4648. */
  function UrlLetter(d: SixBits): char {
    if d == 62 then '-' else if d == 63 then '_' else Letter(d)
  }

  predicate IsUrlLetter(c: char) {
    'A' <= c <= 'Z' || 'a' <= c <= 'z' || '0' <= c <= '9' || c == '-' || c == '_'
  }

  function UrlLetters(ds: seq<SixBits>): (s: string)
    ensures |s| == |ds|
  {
    seq(|ds|, i requires 0 <= i < |ds| => UrlLetter(ds[i]))
  }

  lemma {:induction false} RemoveFromEnd(s: string, pad: string, c: char)
    requires c !in s && forall x :: x in pad ==> x == c
    ensures RemoveAll(s + pad, c) == s
    decreases |s|, |pad|
  {
    if s == "" {
      assert s + pad == pad;
      if pad != "" {
        assert pad[0] in pad && s + pad[1..] == pad[1..] && forall x :: x in pad[1..] ==> x in pad;
        RemoveFromEnd(s, pad[1..], c);
      }
    } else {
      assert (s + pad)[1..] == s[1..] + pad;
      RemoveFromEnd(s[1..], pad, c);
    }
  }

  lemma UrlLetterIs(d: SixBits)
    ensures IsUrlLetter(UrlLetter(d)) && UrlLetter(d) != '='
    ensures UrlLetter(d) == if Letter(d) == '+' then '-' else if Letter(d) == '/' then '_' else Letter(d)
  {
  }

  predicate IsPadding(pad: string) {
    forall c :: c in pad ==> c == '='
  }

  lemma RewritesLetters(ds: seq<SixBits>, pad: string)
    requires IsPadding(pad)
    ensures ReplaceAll(ReplaceAll(Letters(ds) + pad, '+', '-'), '/', '_') == UrlLetters(ds) + pad
    ensures '=' !in UrlLetters(ds)
  {
    var rewritten := ReplaceAll(ReplaceAll(Letters(ds) + pad, '+', '-'), '/', '_');
    forall i | 0 <= i < |rewritten|
      ensures rewritten[i] == (UrlLetters(ds) + pad)[i] && (i < |ds| ==> UrlLetters(ds)[i] != '=')
    {
      if i < |ds| {
        UrlLetterIs(ds[i]);
      } else {
        assert pad[i - |ds|] in pad;
      }
    }
  }

  /** The rewriting yields the letters of the URL-safe alphabet and no padding. */
  lemma {:induction false} EncodesUnpadded(bytes: seq<Byte>)
    ensures Encode64(bytes) == UrlLetters(Sextets(bytes))
  {
    var ds := Sextets(bytes);
    var pad := if |bytes| % 3 == 1 then "==" else if |bytes| % 3 == 2 then "=" else "";
    RewritesLetters(ds, pad);
    RemoveFromEnd(UrlLetters(ds), pad, '=');
  }

  // ---- Reading it back ----------------------------------------------------------------

  function Digit(c: char): SixBits {
    if 'A' <= c <= 'Z' then c as int - 'A' as int
    else if 'a' <= c <= 'z' then c as int - 'a' as int + 26
    else if '0' <= c <= '9' then c as int - '0' as int + 52
    else if c == '-' then 62
    else 63
  }

  function First(d0: int, d1: int): int {
    d0 * 4 + d1 / 16
  }

  function Second(d1: int, d2: int): int {
    d1 % 16 * 16 + d2 / 4
  }

  function Third(d2: int, d3: int): int {
    d2 % 4 * 64 + d3
  }

  function Bytes(ds: seq<SixBits>): seq<Byte> {
    if |ds| < 2 then []
    else if |ds| == 2 then [First(ds[0], ds[1])]
    else if |ds| == 3 then [First(ds[0], ds[1]), Second(ds[1], ds[2])]
    else [First(ds[0], ds[1]), Second(ds[1], ds[2]), Third(ds[2], ds[3])] + Bytes(ds[4..])
  }

  function Decode64(s: string): seq<Byte> {
    Bytes(seq(|s|, i requires 0 <= i < |s| => Digit(s[i])))
  }

  lemma FirstByte(b0: Byte, b1: Byte)
    ensures First(b0 / 4, b0 % 4 * 16 + b1 / 16) == b0
  {
    assert (b0 % 4 * 16 + b1 / 16) / 16 == b0 % 4;
  }

  lemma SecondByte(b0: Byte, b1: Byte, b2: Byte)
    ensures Second(b0 % 4 * 16 + b1 / 16, b1 % 16 * 4 + b2 / 64) == b1
  {
    assert (b0 % 4 * 16 + b1 / 16) % 16 == b1 / 16;
    assert (b1 % 16 * 4 + b2 / 64) / 4 == b1 % 16;
  }

  lemma ThirdByte(b1: Byte, b2: Byte)
    ensures Third(b1 % 16 * 4 + b2 / 64, b2 % 64) == b2
  {
    assert (b1 % 16 * 4 + b2 / 64) % 4 == b2 / 64;
  }

  lemma {:induction false} SextetsRoundTrip(bytes: seq<Byte>)
    ensures Bytes(Sextets(bytes)) == bytes
    decreases |bytes|
  {
    if |bytes| == 1 {
      FirstByte(bytes[0], 0);
    } else if |bytes| == 2 {
      FirstByte(bytes[0], bytes[1]);
      SecondByte(bytes[0], bytes[1], 0);
    } else if |bytes| > 2 {
      FirstByte(bytes[0], bytes[1]);
      SecondByte(bytes[0], bytes[1], bytes[2]);
      ThirdByte(bytes[1], bytes[2]);
      SextetsRoundTrip(bytes[3..]);
      assert Sextets(bytes)[4..] == Sextets(bytes[3..]);
      assert bytes == [bytes[0], bytes[1], bytes[2]] + bytes[3..];
    }
  }

  /** The encoding loses nothing. */
  lemma RoundTrip64(bytes: seq<Byte>)
    ensures Decode64(Encode64(bytes)) == bytes
  {
    EncodesUnpadded(bytes);
    var ds := Sextets(bytes);
    var s := UrlLetters(ds);
    assert seq(|s|, i requires 0 <= i < |s| => Digit(s[i])) == ds;
    SextetsRoundTrip(bytes);
  }

  lemma {:induction false} SextetCount(bytes: seq<Byte>)
    ensures |Sextets(bytes)| == (|bytes| * 4 + 2) / 3
    decreases |bytes|
  {
    if |bytes| > 2 {
      SextetCount(bytes[3..]);
    }
  }

  /** Only letters of the URL-safe alphabet, so no dot; four letters for three bytes, rounded up. */
  lemma EncodedShape(bytes: seq<Byte>)
    ensures forall c :: c in Encode64(bytes) ==> IsUrlLetter(c)
    ensures |Encode64(bytes)| == (|bytes| * 4 + 2) / 3
  {
    EncodesUnpadded(bytes);
    SextetCount(bytes);
    forall c | c in Encode64(bytes)
      ensures IsUrlLetter(c)
    {
      var i :| 0 <= i < |Sextets(bytes)| && UrlLetter(Sextets(bytes)[i]) == c;
      UrlLetterIs(Sextets(bytes)[i]);
    }
  }
}

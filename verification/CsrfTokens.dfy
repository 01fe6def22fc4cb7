/**
  The CSRF token service: a random nonce, a dot, and a signature over the subject and the
  nonce.  The MAC is a function of key and message bytes; nothing else is known of it.
 */
module CsrfTokens {
  import opened PercentCoding
  import opened Base64Url

  type Mac = (seq<Byte>, seq<Byte>) -> seq<Byte>

  const NONCE_BYTES := 32

  function Signature(mac: Mac, secret: string, subject: string, nonce: string): string {
    Encode64(mac(EncodeUtf8(secret), EncodeUtf8(subject + "." + nonce)))
  }

  /** A non-empty nonce without a dot, and the non-empty signature of subject and nonce. */
  ghost predicate IsTokenOf(mac: Mac, secret: string, token: string, subject: string) {
    exists nonce :: nonce != "" && '.' !in nonce && Signature(mac, secret, subject, nonce) != ""
      && token == nonce + "." + Signature(mac, secret, subject, nonce)
  }

  function IndexOf(s: string, c: char): (i: int)
    ensures -1 <= i < |s|
    ensures i >= 0 ==> s[i] == c && c !in s[..i]
    ensures i < 0 ==> c !in s
  {
    if s == "" then -1
    else if s[0] == c then 0
    else
      var i := IndexOf(s[1..], c);
      assert s == [s[0]] + s[1..];
      assert i >= 0 ==> s[..i + 1] == [s[0]] + s[1..][..i];
      if i < 0 then -1 else i + 1
  }

  // ---- The crypto service ---------------------------------------------------------------

  /** The bit pattern of a byte. */
  function Bits(n: Byte): (b: bv8)
    ensures b as int == n
  {
    if n == 0 then 0 else Bits(n - 1) + 1
  }

  /** The bytes of a buffer. */
  ghost predicate Holds(buffer: array<bv8>, bytes: seq<Byte>)
    reads buffer
  {
    buffer.Length == |bytes| && forall i :: 0 <= i < buffer.Length ==> buffer[i] as int == bytes[i]
  }

  /** A fresh buffer with the text in UTF-8. */
  method EncodeText(s: string) returns (buffer: array<bv8>)
    ensures fresh(buffer) && Holds(buffer, EncodeUtf8(s))
  {
    var bytes := EncodeUtf8(s);
    buffer := new bv8[|bytes|];
    var i := 0;
    while i < |bytes|
      invariant 0 <= i <= |bytes|
      invariant forall j :: 0 <= j < i ==> buffer[j] as int == bytes[j]
    {
      buffer[i] := Bits(bytes[i]);
      i := i + 1;
    }
  }

  /** Every byte is looked at; the accumulated differences are zero exactly if there are none. */
  method TimingSafeEqual(a: array<bv8>, b: array<bv8>) returns (equal: bool)
    ensures equal <==> a[..] == b[..]
  {
    if a.Length != b.Length {
      return false;
    }
    var mismatch: bv8 := 0;
    var i := 0;
    while i < a.Length
      invariant 0 <= i <= a.Length
      invariant mismatch == 0 <==> a[..i] == b[..i]
    {
      mismatch := mismatch | (a[i] ^ b[i]);
      i := i + 1;
    }
    assert a[..a.Length] == a[..] && b[..b.Length] == b[..];
    equal := mismatch == 0;
  }

  lemma {:induction false} EqualBuffers(a: array<bv8>, b: array<bv8>, x: string, y: string)
    requires Holds(a, EncodeUtf8(x)) && Holds(b, EncodeUtf8(y))
    ensures a[..] == b[..] <==> x == y
  {
    if a[..] == b[..] {
      forall i | 0 <= i < a.Length
        ensures EncodeUtf8(x)[i] == EncodeUtf8(y)[i]
      {
        assert a[..][i] == a[i] && b[..][i] == b[i];
      }
      assert EncodeUtf8(x) == EncodeUtf8(y);
      Utf8IsInjective(x, y);
    }
    if x == y {
      assert forall i :: 0 <= i < a.Length ==> a[i] as int == b[i] as int;
    }
  }

  // ---- The token service ------------------------------------------------------------------

  class CsrfTokenService {
    const secret: string
    const mac: Mac

    constructor (secret: string, mac: Mac)
      ensures this.secret == secret && this.mac == mac
    {
      this.secret, this.mac := secret, mac;
    }

    /** The random bytes are a parameter. */
    method Generate(subject: string, random: seq<Byte>) returns (token: string)
      requires |random| == NONCE_BYTES
      ensures token == Encode64(random) + "." + Signature(mac, secret, subject, Encode64(random))
      ensures |random| == 32 && |Encode64(random)| == 43
      ensures IsTokenOf(mac, secret, token, subject) <==> mac(EncodeUtf8(secret), Message(token, subject)) != []
    {
      var nonce := Encode64(random);
      var signature := Signature(mac, secret, subject, nonce);
      token := nonce + "." + signature;
      GeneratedIff(mac, secret, subject, random);
      EncodedShape(random);
    }

    method Validate(token: string, subject: string) returns (valid: bool)
      ensures valid <==> IsTokenOf(mac, secret, token, subject)
    {
      var separatorIndex := IndexOf(token, '.');
      TokenParts(mac, secret, token, subject);
      if separatorIndex <= 0 {
        return false;
      }
      var nonce, signature := token[..separatorIndex], token[separatorIndex + 1..];
      if nonce == "" || signature == "" {
        return false;
      }
      var expected := Signature(mac, secret, subject, nonce);
      var actualBuffer := EncodeText(signature);
      var expectedBuffer := EncodeText(expected);
      EqualBuffers(actualBuffer, expectedBuffer, signature, expected);
      if actualBuffer.Length != expectedBuffer.Length {
        assert actualBuffer[..] != expectedBuffer[..];
        return false;
      }
      valid := TimingSafeEqual(actualBuffer, expectedBuffer);
    }
  }

  lemma {:induction false} FirstDot(nonce: string, rest: string)
    requires '.' !in nonce
    ensures IndexOf(nonce + "." + rest, '.') == |nonce|
    decreases |nonce|
  {
    var s := nonce + "." + rest;
    if nonce != "" {
      assert s[0] == nonce[0] && s[1..] == nonce[1..] + "." + rest;
      FirstDot(nonce[1..], rest);
    }
  }

  /** A token's nonce is what stands before its first dot. */
  lemma {:induction false} TokenParts(mac: Mac, secret: string, token: string, subject: string)
    ensures var i := IndexOf(token, '.');
      IsTokenOf(mac, secret, token, subject) <==>
        && i > 0 && token[i + 1..] != "" && token[i + 1..] == Signature(mac, secret, subject, token[..i])
  {
    var i := IndexOf(token, '.');
    if IsTokenOf(mac, secret, token, subject) {
      PartsOfToken(mac, secret, token, subject);
    } else if i > 0 && token[i + 1..] != "" && token[i + 1..] == Signature(mac, secret, subject, token[..i]) {
      IsCutAtDot(token, i);
    }
  }

  lemma IsCutAtDot(token: string, i: nat)
    requires i < |token| && token[i] == '.'
    ensures token == token[..i] + "." + token[i + 1..]
  {
  }

  lemma {:induction false} PartsOfToken(mac: Mac, secret: string, token: string, subject: string)
    requires IsTokenOf(mac, secret, token, subject)
    ensures var i := IndexOf(token, '.');
      i > 0 && token[i + 1..] != "" && token[i + 1..] == Signature(mac, secret, subject, token[..i])
  {
    var nonce :| nonce != "" && '.' !in nonce && Signature(mac, secret, subject, nonce) != ""
      && token == nonce + "." + Signature(mac, secret, subject, nonce);
    DotParts(nonce, Signature(mac, secret, subject, nonce));
  }

  lemma DotParts(nonce: string, rest: string)
    requires '.' !in nonce
    ensures var token := nonce + "." + rest;
      var i := IndexOf(token, '.');
      i == |nonce| && token[..i] == nonce && token[i + 1..] == rest
  {
    FirstDot(nonce, rest);
  }

  /** The message the MAC is taken of, for the nonce of a token. */
  function Message(token: string, subject: string): seq<Byte> {
    var i := IndexOf(token, '.');
    EncodeUtf8(subject + "." + if i > 0 then token[..i] else "")
  }

  /** What is generated for a subject is valid for it exactly if the MAC is not empty, whatever the random bytes. */
  lemma {:induction false} GeneratedIff(mac: Mac, secret: string, subject: string, random: seq<Byte>)
    requires |random| == NONCE_BYTES
    ensures var token := Encode64(random) + "." + Signature(mac, secret, subject, Encode64(random));
      IsTokenOf(mac, secret, token, subject) <==> mac(EncodeUtf8(secret), Message(token, subject)) != []
  {
    var nonce := Encode64(random);
    var signature := Signature(mac, secret, subject, nonce);
    EncodedShape(random);
    assert '.' !in nonce && nonce != "";
    DotParts(nonce, signature);
    TokenParts(mac, secret, nonce + "." + signature, subject);
    EncodedShape(mac(EncodeUtf8(secret), EncodeUtf8(subject + "." + nonce)));
  }

  /** What is generated for a subject is valid for it, for every MAC that never is empty. */
  lemma GeneratedIsValid(mac: Mac, secret: string, subject: string, random: seq<Byte>)
    requires |random| == NONCE_BYTES && forall key, data :: mac(key, data) != []
    ensures IsTokenOf(mac, secret, Encode64(random) + "." + Signature(mac, secret, subject, Encode64(random)), subject)
  {
    GeneratedIff(mac, secret, subject, random);
  }

  lemma {:induction false} SignaturesAgree(mac: Mac, secret: string, token: string, s: string, s': string)
    requires IndexOf(token, '.') > 0
    ensures var nonce := token[..IndexOf(token, '.')];
      Signature(mac, secret, s, nonce) == Signature(mac, secret, s', nonce) <==>
        mac(EncodeUtf8(secret), Message(token, s)) == mac(EncodeUtf8(secret), Message(token, s'))
  {
    RoundTrip64(mac(EncodeUtf8(secret), Message(token, s)));
    RoundTrip64(mac(EncodeUtf8(secret), Message(token, s')));
  }

  lemma MessagesDiffer(token: string, s: string, s': string)
    requires Message(token, s) == Message(token, s')
    ensures s == s'
  {
    var i := IndexOf(token, '.');
    var tail := if i > 0 then token[..i] else "";
    Utf8IsInjective(s + "." + tail, s' + "." + tail);
    assert s == (s + "." + tail)[..|s|] && s' == (s' + "." + tail)[..|s'|];
  }

  /**
    A token valid for one subject is valid for another exactly if the MAC collides on the
    two messages; if the MAC never does, it is valid for no other subject.
   */
  lemma {:induction false} TokenIsBoundToSubject(mac: Mac, secret: string, token: string, s: string, s': string)
    requires IsTokenOf(mac, secret, token, s) && s != s'
    ensures Message(token, s) != Message(token, s')
    ensures IsTokenOf(mac, secret, token, s') <==>
      mac(EncodeUtf8(secret), Message(token, s)) == mac(EncodeUtf8(secret), Message(token, s'))
  {
    TokenParts(mac, secret, token, s);
    TokenParts(mac, secret, token, s');
    SignaturesAgree(mac, secret, token, s, s');
    if Message(token, s) == Message(token, s') {
      MessagesDiffer(token, s, s');
    }
  }

  /** Subject and nonce can be read off the message: it is cut at its last dot. */
  lemma {:induction false} MessageDetermines(s: string, n: string, s': string, n': string)
    requires '.' !in n && '.' !in n'
    ensures EncodeUtf8(s + "." + n) == EncodeUtf8(s' + "." + n') <==> s == s' && n == n'
  {
    if EncodeUtf8(s + "." + n) == EncodeUtf8(s' + "." + n') {
      Utf8IsInjective(s + "." + n, s' + "." + n');
      if |n| <= |n'| {
        LastDotIsUnique(s, n, s', n');
      } else {
        LastDotIsUnique(s', n', s, n);
      }
    }
  }

  lemma LastDotIsUnique(s: string, n: string, s': string, n': string)
    requires '.' !in n' && |n| <= |n'| && s + "." + n == s' + "." + n'
    ensures s == s' && n == n'
  {
    var text, text' := s + "." + n, s' + "." + n';
    assert forall i :: |s'| < i < |text'| ==> text'[i] == n'[i - |s'| - 1];
    assert text[|s|] == '.';
    assert |s| == |s'|;
    assert s == text[..|s|] && s' == text'[..|s'|];
    assert n == text[|s| + 1..] && n' == text'[|s'| + 1..];
  }

  /**
    A signature made for one subject and nonce serves another pair exactly if the MAC gives
    the same non-empty result on the two messages, which are different ones.
   */
  lemma {:induction false} SignatureServesOnePair(
    mac: Mac, secret: string, s: string, n: string, s': string, n': string)
    requires '.' !in n && '.' !in n' && n' != "" && (s != s' || n != n')
    ensures EncodeUtf8(s + "." + n) != EncodeUtf8(s' + "." + n')
    ensures IsTokenOf(mac, secret, n' + "." + Signature(mac, secret, s, n), s') <==>
      mac(EncodeUtf8(secret), EncodeUtf8(s + "." + n)) == mac(EncodeUtf8(secret), EncodeUtf8(s' + "." + n')) != []
  {
    MessageDetermines(s, n, s', n');
    var made := mac(EncodeUtf8(secret), EncodeUtf8(s + "." + n));
    var due := mac(EncodeUtf8(secret), EncodeUtf8(s' + "." + n'));
    DotParts(n', Signature(mac, secret, s, n));
    TokenParts(mac, secret, n' + "." + Signature(mac, secret, s, n), s');
    RoundTrip64(made);
    RoundTrip64(due);
    EncodedShape(made);
  }

  /** Different random bytes make different tokens. */
  lemma TokensDiffer(mac: Mac, secret: string, subject: string, r: seq<Byte>, r': seq<Byte>)
    requires r != r'
    ensures Encode64(r) + "." + Signature(mac, secret, subject, Encode64(r)) !=
      Encode64(r') + "." + Signature(mac, secret, subject, Encode64(r'))
  {
    RoundTrip64(r);
    RoundTrip64(r');
    EncodedShape(r);
    EncodedShape(r');
    FirstDot(Encode64(r), Signature(mac, secret, subject, Encode64(r)));
    FirstDot(Encode64(r'), Signature(mac, secret, subject, Encode64(r')));
    var t := Encode64(r) + "." + Signature(mac, secret, subject, Encode64(r));
    var t' := Encode64(r') + "." + Signature(mac, secret, subject, Encode64(r'));
    assert t[..|Encode64(r)|] == Encode64(r) && t'[..|Encode64(r')|] == Encode64(r');
  }
}

/**
  Exactly which texts decode and to what: the bytes a text stands for, escapes in either case
  and everything else in UTF-8, must be those of a string.
 */
module PercentDecoding {
  import opened Wrappers
  import opened PercentCoding

  /** The bytes of a character put its code point together again. */
  lemma GatherUtf8(c: char)
    requires 0 <= Continuations(Utf8(c)[0])
    ensures Gather(Leading(Utf8(c)[0]), Utf8(c)[1..]) == c as int
  {
    var n := c as int;
    var bytes := Utf8(c);
    if n < 0x80 {
    } else if n < 0x800 {
      assert bytes[1..] == [Sextet(n)];
      GatherOne(n / 0x40, Sextet(n));
    } else if n < 0x1_0000 {
      assert bytes[1..] == [Sextet(n / 0x40), Sextet(n)];
      GatherTwo(n / 0x40 / 0x40, Sextet(n / 0x40), Sextet(n));
    } else {
      assert bytes[1..] == [Sextet(n / 0x40 / 0x40), Sextet(n / 0x40), Sextet(n)];
      GatherThree(n / 0x40 / 0x40 / 0x40, Sextet(n / 0x40 / 0x40), Sextet(n / 0x40), Sextet(n));
    }
  }

  lemma TailContinues(c: char)
    ensures forall b :: b in Utf8(c)[1..] ==> IsContinuation(b)
  {
  }

  lemma HeadIsNoContinuation(c: char)
    ensures Utf8(c) != [] && !IsContinuation(Utf8(c)[0])
  {
    TailCompletes(c, "");
  }

  lemma {:induction false} PlainHeadStarts(s: string)
    requires s != "" && s[0] != '%' && Unescape(s).Some?
    ensures Unescape(s).value != [] && !IsContinuation(Unescape(s).value[0])
  {
    HeadIsNoContinuation(s[0]);
  }

  /** Continuation bytes can only come from escapes. */
  lemma {:induction false} ContinueFollows(code: int, k: int, s: string, bytes: seq<Byte>, more: seq<Byte>)
    returns (rest: string)
    requires k == |bytes| && forall b :: b in bytes ==> IsContinuation(b)
    requires Unescape(s) == Some(bytes + more)
    ensures Continue(code, k, s) == Some((Gather(code, bytes), rest)) && Unescape(rest) == Some(more)
    decreases k
  {
    if k == 0 {
      rest := s;
      assert bytes + more == more;
    } else {
      assert (bytes + more)[0] == bytes[0] && bytes[0] in bytes;
      if s != "" && s[0] != '%' {
        PlainHeadStarts(s);
      }
      assert Unescape(s).value[1..] == Unescape(s[3..]).value;
      assert (bytes + more)[1..] == bytes[1..] + more;
      rest := ContinueFollows(code * 0x40 + Low(bytes[0]), k - 1, s[3..], bytes[1..], more);
    }
  }

  /** No character's bytes begin another one's. */
  lemma Utf8IsPrefixFree(a: char, x: seq<Byte>, b: char, y: seq<Byte>)
    requires Utf8(a) + x == Utf8(b) + y
    ensures a == b && x == y
  {
    HeadIsNoContinuation(a);
    HeadIsNoContinuation(b);
    assert Utf8(a)[0] == (Utf8(a) + x)[0] && Utf8(b)[0] == (Utf8(b) + y)[0];
    LengthByHead(a);
    LengthByHead(b);
    var n := |Utf8(a)|;
    assert Utf8(a) == (Utf8(a) + x)[..n] && Utf8(b) == (Utf8(b) + y)[..n];
    assert x == (Utf8(a) + x)[n..] && y == (Utf8(b) + y)[n..];
    assert EncodeUtf8([a]) == Utf8(a) + EncodeUtf8("") && EncodeUtf8([b]) == Utf8(b) + EncodeUtf8("");
    Utf8IsInjective([a], [b]);
    assert [a][0] == [b][0];
  }

  lemma LengthByHead(c: char)
    ensures |Utf8(c)| == 1 + Continuations(Utf8(c)[0])
  {
  }

  /** An escape at the head begins the bytes of the first character. */
  lemma EscapeDecodes(s: string, t: string) returns (rest: string)
    requires s != "" && s[0] == '%' && Unescape(s) == Some(EncodeUtf8(t))
    ensures t != "" && |rest| < |s| && Unescape(rest) == Some(EncodeUtf8(t[1..]))
    ensures Decode(s) == Behind(t[0], Decode(rest))
  {
    var bytes, more := Utf8(t[0]), EncodeUtf8(t[1..]);
    assert (bytes + more)[0] == bytes[0] && (bytes + more)[1..] == bytes[1..] + more;
    assert Unescape(s).value[0] == Octet(s) && Unescape(s).value[1..] == Unescape(s[3..]).value;
    TailCompletes(t[0], "");
    LengthByHead(t[0]);
    GatherUtf8(t[0]);
    TailContinues(t[0]);
    rest := ContinueFollows(Leading(bytes[0]), Continuations(bytes[0]), s[3..], bytes[1..], more);
  }

  lemma {:induction false} SomethingHasBytes(t: string)
    ensures t == "" <==> EncodeUtf8(t) == []
  {
    if t != "" {
      HeadIsNoContinuation(t[0]);
      assert (Utf8(t[0]) + EncodeUtf8(t[1..]))[0] == Utf8(t[0])[0];
    }
  }

  lemma {:induction false} DecodesAllUtf8(s: string, t: string)
    requires Unescape(s) == Some(EncodeUtf8(t))
    ensures Decode(s) == Some(t)
    decreases |s|
  {
    if s == "" {
      SomethingHasBytes(t);
    } else if s[0] != '%' {
      var first := Utf8(s[0]);
      assert first + Unescape(s[1..]).value != [];
      Utf8IsPrefixFree(s[0], Unescape(s[1..]).value, t[0], EncodeUtf8(t[1..]));
      DecodesAllUtf8(s[1..], t[1..]);
      assert t == [t[0]] + t[1..];
    } else {
      var rest := EscapeDecodes(s, t);
      DecodesAllUtf8(rest, t[1..]);
      assert t == [t[0]] + t[1..];
    }
  }

  /** A text decodes to a string exactly if the bytes it stands for are that string in UTF-8. */
  lemma {:induction false} DecodesExactly(s: string, t: string)
    ensures Decode(s) == Some(t) <==> Unescape(s) == Some(EncodeUtf8(t))
  {
    if Decode(s) == Some(t) {
      DecodesOnlyUtf8(s);
    } else if Unescape(s) == Some(EncodeUtf8(t)) {
      DecodesAllUtf8(s, t);
    }
  }

  // ---- Hexadecimal digits in either case ---------------------------------------------

  /** Sixteen digits, the letters among them in either case. */
  lemma DigitsInEitherCase(c: char, d: nat)
    requires d < 16
    ensures HexValue(c) == d <==> c == "0123456789ABCDEF"[d] || c == "0123456789abcdef"[d]
    ensures HexValue(c) >= 0 <==> c in "0123456789ABCDEFabcdef"
  {
  }

  function ToUpper(c: char): char {
    if 'a' <= c <= 'f' then (c as int - 0x20) as char else c
  }

  /** The two characters behind every percent sign in upper case. */
  function UpperEscapes(s: string): (r: string)
    ensures |r| == |s|
  {
    if s == "" then ""
    else if s[0] == '%' && |s| >= 3 then
      ['%', ToUpper(s[1]), ToUpper(s[2])] + UpperEscapes(s[3..])
    else [s[0]] + UpperEscapes(s[1..])
  }

  lemma {:induction false} UnescapesAlike(s: string)
    ensures Unescape(UpperEscapes(s)) == Unescape(s)
    decreases |s|
  {
    if s != "" {
      var r := UpperEscapes(s);
      if s[0] == '%' && |s| >= 3 {
        assert r[3..] == UpperEscapes(s[3..]);
        UnescapesAlike(s[3..]);
        assert HexValue(ToUpper(s[1])) == HexValue(s[1]) && HexValue(ToUpper(s[2])) == HexValue(s[2]);
      } else {
        assert r[1..] == UpperEscapes(s[1..]);
        if s[0] != '%' {
          UnescapesAlike(s[1..]);
        }
      }
    }
  }

  /** The case of the digits in an escape makes no difference. */
  lemma {:induction false} CaseOfEscapesIsIgnored(s: string)
    ensures Decode(UpperEscapes(s)) == Decode(s)
  {
    UnescapesAlike(s);
    if Decode(s).Some? {
      DecodesExactly(s, Decode(s).value);
      DecodesExactly(UpperEscapes(s), Decode(s).value);
    } else if Decode(UpperEscapes(s)).Some? {
      DecodesExactly(s, Decode(UpperEscapes(s)).value);
      DecodesExactly(UpperEscapes(s), Decode(UpperEscapes(s)).value);
    }
  }
}

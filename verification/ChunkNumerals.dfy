/** The numbers of the token's chunks: decimal numerals, leading zeros allowed. */
module ChunkNumerals {
  import opened Wrappers
  import opened SsrTokens

  function Digit(d: nat): char
    requires d < 10
  {
    '0' + d as char
  }

  /** The number in decimal digits, without leading zeros. */
  function Decimal(n: nat): string {
    if n < 10 then [Digit(n)] else Decimal(n / 10) + [Digit(n % 10)]
  }

  predicate AllZero(s: string) {
    forall c :: c in s ==> c == '0'
  }

  lemma {:induction false} ZerosAreNothing(zeros: string)
    requires AllZero(zeros)
    ensures IsDigits(zeros) && Value(zeros) == 0
    decreases |zeros|
  {
    if zeros != "" {
      var init := zeros[..|zeros| - 1];
      assert zeros[|zeros| - 1] in zeros && forall c :: c in init ==> c in zeros;
      ZerosAreNothing(init);
    }
  }

  lemma {:induction false} ValueOfSnoc(s: string, d: nat)
    requires IsDigits(s) && d < 10
    ensures IsDigits(s + [Digit(d)]) && Value(s + [Digit(d)]) == Value(s) * 10 + d
  {
    var r := s + [Digit(d)];
    assert r[..|r| - 1] == s;
  }

  lemma {:induction false} DecimalIsRead(zeros: string, n: nat)
    requires AllZero(zeros)
    ensures IsNumeral(zeros + Decimal(n)) && Value(zeros + Decimal(n)) == n
    decreases n
  {
    if n < 10 {
      ZerosAreNothing(zeros);
      ValueOfSnoc(zeros, n);
      assert Decimal(n) == [Digit(n)];
    } else {
      DecimalIsRead(zeros, n / 10);
      ValueOfSnoc(zeros + Decimal(n / 10), n % 10);
      assert zeros + Decimal(n) == zeros + Decimal(n / 10) + [Digit(n % 10)];
    }
  }

  /** Every numeral is some zeros and the decimal digits of its value. */
  lemma {:induction false} NumeralIsDecimal(s: string) returns (zeros: string)
    requires IsNumeral(s)
    ensures AllZero(zeros) && s == zeros + Decimal(Value(s))
    decreases |s|
  {
    var init, d := s[..|s| - 1], s[|s| - 1] as int - '0' as int;
    assert s == init + [Digit(d)];
    ValueOfSnoc(init, d);
    if init == "" {
      zeros := "";
      assert Decimal(Value(s)) == [Digit(d)];
    } else {
      zeros := NumeralIsDecimal(init);
      if Value(init) == 0 {
        zeros := zeros + "0";
        assert Decimal(Value(s)) == [Digit(d)] && Decimal(0) == "0";
      } else {
        DecimalGrows(Value(init), d);
        assert zeros + Decimal(Value(init)) + [Digit(d)] == zeros + (Decimal(Value(init)) + [Digit(d)]);
      }
    }
  }

  lemma DecimalGrows(n: nat, d: nat)
    requires 0 < n && d < 10
    ensures Decimal(n * 10 + d) == Decimal(n) + [Digit(d)]
  {
    assert (n * 10 + d) / 10 == n && (n * 10 + d) % 10 == d;
  }

  lemma WholeNames(name: string)
    ensures Kind(name) == Unchunked <==> exists ref :: IsRef(ref) && name == TokenName(ref)
  {
    TokenNames(name);
  }

  /**
    A cookie is the whole token's by its name alone, and chunk `i`'s exactly if a dot, perhaps
    zeros, and `i` in decimal follow that name.
   */
  lemma {:induction false} ChunksAreNumbered(name: string, i: nat)
    ensures Kind(name) == Chunk(i) <==>
      exists ref, zeros ::
        IsRef(ref) && AllZero(zeros) && name == "sb-" + ref + "-auth-token" + "." + (zeros + Decimal(i))
    ensures Kind(name) == Unchunked <==> exists ref :: IsRef(ref) && name == "sb-" + ref + "-auth-token"
  {
    ChunkNames(name, i);
    WholeNames(name);
    assert forall ref :: TokenName(ref) == "sb-" + ref + "-auth-token";
    if Kind(name) == Chunk(i) {
      var ref, digits :| IsRef(ref) && IsNumeral(digits) && Value(digits) == i
        && name == TokenName(ref) + "." + digits;
      var zeros := NumeralIsDecimal(digits);
    }
    forall ref, zeros | IsRef(ref) && AllZero(zeros) && name == TokenName(ref) + "." + (zeros + Decimal(i))
      ensures Kind(name) == Chunk(i)
    {
      DecimalIsRead(zeros, i);
    }
  }
}

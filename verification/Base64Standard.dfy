/**
 * The encoder read off RFC 4648: section 4 for the cutting of twenty-four bits into four
 * groups of six, section 5 for the letters.
 */
module Base64Standard {
  import opened Base64Url

  /** The element at `i`, zeros completing the last group. */
  function At(xs: seq<int>, i: nat): int {
    if i < |xs| then xs[i] else 0
  }

  /** Group `g` of three bytes as one number of twenty-four bits. */
  function GroupOfBytes(bytes: seq<Byte>, g: nat): int {
    0x1_0000 * At(bytes, 3 * g) + 0x100 * At(bytes, 3 * g + 1) + At(bytes, 3 * g + 2)
  }

  /** Group `g` of four sextets as one number of twenty-four bits. */
  function GroupOfSextets(sextets: seq<Sextet>, g: nat): int {
    0x4_0000 * At(sextets, 4 * g) + 0x1000 * At(sextets, 4 * g + 1)
    + 0x40 * At(sextets, 4 * g + 2) + At(sextets, 4 * g + 3)
  }

  lemma Recombine(a1: int, a0: int, b1: int, b0: int, c1: int, c0: int)
    ensures 0x4_0000 * a1 + 0x1000 * (a0 * 16 + b1) + 0x40 * (b0 * 4 + c1) + c0 ==
            0x1_0000 * (4 * a1 + a0) + 0x100 * (16 * b1 + b0) + (64 * c1 + c0)
  {
  }

  lemma SameTwentyFourBits(a: Byte, b: Byte, c: Byte)
    ensures 0x4_0000 * Sextet0(a) + 0x1000 * Sextet1(a, b) + 0x40 * Sextet2(b, c) + Sextet3(c) ==
            0x1_0000 * a + 0x100 * b + c
  {
    Recombine(a / 4, a % 4, b / 16, b % 16, c / 64, c % 64);
    assert a == 4 * (a / 4) + a % 4;
    assert b == 16 * (b / 16) + b % 16;
    assert c == 64 * (c / 64) + c % 64;
  }

  lemma SameEightBits(a: Byte)
    ensures 0x4_0000 * Sextet0(a) + 0x1000 * Sextet1(a, 0) == 0x1_0000 * a
  {
    assert a == 4 * (a / 4) + a % 4;
  }

  lemma SameSixteenBits(a: Byte, b: Byte)
    ensures 0x4_0000 * Sextet0(a) + 0x1000 * Sextet1(a, b) + 0x40 * Sextet2(b, 0) == 0x1_0000 * a + 0x100 * b
  {
    assert a == 4 * (a / 4) + a % 4;
    assert b == 16 * (b / 16) + b % 16;
  }

  /** A last group that is short is completed with zeros on both sides. */
  lemma FirstGroup(bytes: seq<Byte>)
    ensures GroupOfSextets(Sextets(bytes), 0) == GroupOfBytes(bytes, 0)
  {
    if |bytes| == 1 {
      SextetsOfOne(bytes[0]);
      SameEightBits(bytes[0]);
      assert bytes == [bytes[0]];
    } else if |bytes| == 2 {
      SextetsOfPair(bytes[0], bytes[1]);
      SameSixteenBits(bytes[0], bytes[1]);
      assert bytes == [bytes[0], bytes[1]];
    } else if |bytes| >= 3 {
      SextetsOfGroup(bytes[0], bytes[1], bytes[2], bytes[3..]);
      SameTwentyFourBits(bytes[0], bytes[1], bytes[2]);
      assert bytes == [bytes[0], bytes[1], bytes[2]] + bytes[3..];
    }
  }

  lemma AtLater(xs: seq<int>, d: nat, i: nat)
    requires d <= |xs|
    ensures At(xs, i + d) == At(xs[d..], i)
  {
  }

  lemma LaterBytes(bytes: seq<Byte>, g: nat)
    requires |bytes| >= 3
    ensures GroupOfBytes(bytes, g + 1) == GroupOfBytes(bytes[3..], g)
  {
    AtLater(bytes, 3, 3 * g);
    AtLater(bytes, 3, 3 * g + 1);
    AtLater(bytes, 3, 3 * g + 2);
  }

  lemma LaterSextets(sextets: seq<Sextet>, g: nat)
    requires |sextets| >= 4
    ensures GroupOfSextets(sextets, g + 1) == GroupOfSextets(sextets[4..], g)
  {
    AtLater(sextets, 4, 4 * g);
    AtLater(sextets, 4, 4 * g + 1);
    AtLater(sextets, 4, 4 * g + 2);
    AtLater(sextets, 4, 4 * g + 3);
  }

  lemma SextetsOfRest(bytes: seq<Byte>)
    requires |bytes| >= 3
    ensures |Sextets(bytes)| >= 4 && Sextets(bytes)[4..] == Sextets(bytes[3..])
  {
  }

  lemma FewSextets(bytes: seq<Byte>)
    requires |bytes| < 3
    ensures |Sextets(bytes)| < 4
  {
  }

  lemma NothingFurther(bytes: seq<Byte>, g: nat)
    requires |bytes| < 3 && g > 0
    ensures GroupOfSextets(Sextets(bytes), g) == 0 == GroupOfBytes(bytes, g)
  {
    FewSextets(bytes);
  }

  lemma LaterGroup(bytes: seq<Byte>, g: nat)
    requires |bytes| >= 3
    ensures GroupOfBytes(bytes, g + 1) == GroupOfBytes(bytes[3..], g)
    ensures GroupOfSextets(Sextets(bytes), g + 1) == GroupOfSextets(Sextets(bytes[3..]), g)
  {
    SextetsOfRest(bytes);
    LaterBytes(bytes, g);
    LaterSextets(Sextets(bytes), g);
  }

  /** Each group of sextets is the number that its group of bytes is. */
  lemma {:induction false} GroupsAgree(bytes: seq<Byte>, g: nat)
    ensures GroupOfSextets(Sextets(bytes), g) == GroupOfBytes(bytes, g)
  {
    if g == 0 {
      FirstGroup(bytes);
    } else if |bytes| >= 3 {
      GroupsAgree(bytes[3..], g - 1);
      LaterGroup(bytes, g - 1);
    } else {
      NothingFurther(bytes, g);
    }
  }

  /** No sextet more than the bits need. */
  lemma {:induction false} SextetsLength(bytes: seq<Byte>)
    ensures |Sextets(bytes)| == (8 * |bytes| + 5) / 6
  {
    if |bytes| >= 3 {
      SextetsLength(bytes[3..]);
    }
  }

  const UPPER := "ABCDEFGHIJKLMNOPQRSTUVWXYZ"
  const LOWER := "abcdefghijklmnopqrstuvwxyz"
  const OTHERS := "0123456789-_"

  /** Table 2: the letter of a value. */
  function Letter(i: Sextet): char {
    if i < 26 then UPPER[i] else if i < 52 then LOWER[i - 26] else OTHERS[i - 52]
  }

  lemma UpperOfValue(i: nat)
    requires i < 26
    ensures UPPER[i] as int == 'A' as int + i
  {
  }

  lemma LowerOfValue(i: nat)
    requires i < 26
    ensures LOWER[i] as int == 'a' as int + i
  {
  }

  lemma DigitOfValue(i: nat)
    requires i < 10
    ensures OTHERS[i] as int == '0' as int + i
  {
  }

  lemma LetterOfValue(i: Sextet)
    ensures Letter(i) == if i == 62 then '-' else if i == 63 then '_' else StdChar(i)
  {
    if i < 26 {
      UpperOfValue(i);
    } else if i < 52 {
      LowerOfValue(i - 26);
    } else if i < 62 {
      DigitOfValue(i - 52);
    }
  }

  /** The text is the sextets in the letters of the table, without padding. */
  lemma EncodesInLetters(bytes: seq<Byte>)
    ensures |Encode(bytes)| == |Sextets(bytes)|
    ensures forall i :: 0 <= i < |Encode(bytes)| ==> Encode(bytes)[i] == Letter(Sextets(bytes)[i])
  {
    EncodeIsSextets(bytes);
    forall i | 0 <= i < |Encode(bytes)|
      ensures Encode(bytes)[i] == Letter(Sextets(bytes)[i])
    {
      LetterOfValue(Sextets(bytes)[i]);
    }
  }

  /**
   * The encoder is the standard's: it writes, in the letters of Table 2 and with no padding, as
   * many values as the bits need, and each four of them are the number that three bytes are.
   */
  lemma EncodesByTheStandard(bytes: seq<Byte>, values: seq<Sextet>)
    requires |values| == |Encode(bytes)|
    requires forall i :: 0 <= i < |values| ==> Encode(bytes)[i] == Letter(values[i])
    ensures |values| == (8 * |bytes| + 5) / 6
    ensures forall g :: 0 <= g ==> GroupOfSextets(values, g) == GroupOfBytes(bytes, g)
  {
    EncodesInLetters(bytes);
    SextetsLength(bytes);
    forall i | 0 <= i < |values|
      ensures values[i] == Sextets(bytes)[i]
    {
      LettersDiffer(values[i], Sextets(bytes)[i]);
    }
    assert values == Sextets(bytes);
    forall g | 0 <= g
      ensures GroupOfSextets(values, g) == GroupOfBytes(bytes, g)
    {
      GroupsAgree(bytes, g);
    }
  }

  lemma LettersDiffer(i: Sextet, j: Sextet)
    requires Letter(i) == Letter(j)
    ensures i == j
  {
    LetterOfValue(i);
    LetterOfValue(j);
    StdValueOfChar(i);
    StdValueOfChar(j);
  }
}

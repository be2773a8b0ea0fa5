/** Letters and digits. */
module Alphabets {
  // The ASCII letters and digits, written out, and the byte ranges in which they stand.

  import opened Bytes

  const LOWERS: seq<Byte> := Ascii("abcdefghijklmnopqrstuvwxyz")
  const UPPERS: seq<Byte> := Ascii("ABCDEFGHIJKLMNOPQRSTUVWXYZ")
  const DIGITS: seq<Byte> := Ascii("0123456789")

  lemma LowersAre(i: nat)
    requires i < 26
    ensures |LOWERS| == 26 && LOWERS[i] == 97 + i
  {
  }

  lemma UppersAre(i: nat)
    requires i < 26
    ensures |UPPERS| == 26 && UPPERS[i] == 65 + i
  {
  }

  lemma DigitsAre(i: nat)
    requires i < 10
    ensures |DIGITS| == 10 && DIGITS[i] == 48 + i
  {
  }

  /** Consecutive bytes that are those of a range. */
  lemma RangeHas(s: seq<Byte>, first: nat, b: Byte)
    requires forall i | 0 <= i < |s| :: s[i] == first + i
    ensures b in s <==> first <= b < first + |s|
  {
    if first <= b < first + |s| {
      assert s[b - first] == b;
    }
  }

  lemma LettersAndDigits(b: Byte)
    ensures b in LOWERS <==> 97 <= b <= 122
    ensures b in UPPERS <==> 65 <= b <= 90
    ensures b in DIGITS <==> 48 <= b <= 57
    ensures b in LOWERS[..6] <==> 97 <= b <= 102
    ensures b in UPPERS[..6] <==> 65 <= b <= 70
  {
    LowersAre(0);
    UppersAre(0);
    DigitsAre(0);
    hide LOWERS, UPPERS, DIGITS;
    forall i: nat | i < 26
      ensures LOWERS[i] == 97 + i && UPPERS[i] == 65 + i
    {
      LowersAre(i);
      UppersAre(i);
    }
    forall i: nat | i < 10
      ensures DIGITS[i] == 48 + i
    {
      DigitsAre(i);
    }
    RangeHas(LOWERS, 97, b);
    RangeHas(UPPERS, 65, b);
    RangeHas(DIGITS, 48, b);
    RangeHas(LOWERS[..6], 97, b);
    RangeHas(UPPERS[..6], 65, b);
  }
}

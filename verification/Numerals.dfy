/** What words and numerals amount to, in unbounded integers. */
module Numerals {
  import opened Words
  import opened Bitwise
  import opened EnumSpec

  // ----- words -----

  const LOW63: Bits := 0x7fff_ffff_ffff_ffff

  /** Bits further up do not matter. */
  lemma {:induction false} MaskedBelow(b: Bits, m: Bits, n: nat, k: nat)
    requires Ones(m, n) && k <= n
    ensures Number(Meet(b, m), k) == Number(b, k)
    decreases k
  {
    hide LowBit, Half, Meet;
    if k > 0 {
      MeetStep(b, m);
      MaskedBelow(Half(b), Half(m), n - 1, k - 1);
    }
  }

  lemma LowMask()
    ensures Ones(LOW63, 63)
  {
    LowMaskShifts();
    SevenOnes();
    OnesByteOnTop(0x7fff, 15);
    OnesByteOnTop(0x7f_ffff, 23);
    OnesByteOnTop(0x7fff_ffff, 31);
    OnesByteOnTop(0x7f_ffff_ffff, 39);
    OnesByteOnTop(0x7fff_ffff_ffff, 47);
    OnesByteOnTop(0x7f_ffff_ffff_ffff, 55);
    OnesByteOnTop(LOW63, 63);
  }

  lemma LowMaskShifts()
    ensures (0x7fff as Bits) >> 8 == 0x7f && (0x7f_ffff as Bits) >> 8 == 0x7fff
    ensures (0x7fff_ffff as Bits) >> 8 == 0x7f_ffff && (0x7f_ffff_ffff as Bits) >> 8 == 0x7fff_ffff
    ensures (0x7fff_ffff_ffff as Bits) >> 8 == 0x7f_ffff_ffff
    ensures (0x7f_ffff_ffff_ffff as Bits) >> 8 == 0x7fff_ffff_ffff && LOW63 >> 8 == 0x7f_ffff_ffff_ffff
    ensures (0x7fff as Bits) & 0xff == 0xff && (0x7f_ffff as Bits) & 0xff == 0xff
    ensures (0x7fff_ffff as Bits) & 0xff == 0xff && (0x7f_ffff_ffff as Bits) & 0xff == 0xff
    ensures (0x7fff_ffff_ffff as Bits) & 0xff == 0xff && (0x7f_ffff_ffff_ffff as Bits) & 0xff == 0xff
    ensures LOW63 & 0xff == 0xff
  {
  }

  lemma SevenOnes()
    ensures Ones(0x7f, 7)
  {
    assert Half(0x7f) == 0x3f && Half(0x3f) == 0x1f && Half(0x1f) == 0xf && Half(0xf) == 7 && Half(7) == 3
           && Half(3) == 1 && Half(1) == 0;
    assert LowBit(0x7f) == LowBit(0x3f) == LowBit(0x1f) == LowBit(0xf) == LowBit(7) == LowBit(3) == LowBit(1) == 1;
    assert Ones(3, 2) && Ones(0xf, 4) && Ones(0x3f, 6);
  }

  lemma ShiftedInOne(b: Bits)
    ensures LowBit(Join(1, Double(b))) == 1
    ensures Half(Join(1, Double(b))) == Meet(b, LOW63)
  {
  }

  lemma ShiftedInZero(b: Bits)
    ensures LowBit(Join(0, Double(b))) == 0
    ensures Half(Join(0, Double(b))) == Meet(b, LOW63)
  {
  }

  lemma LowWordStep(n: nat, size: nat)
    requires size > 0
    ensures LowBit(LowWord(n, size)) == n % 2 && Half(LowWord(n, size)) == Meet(LowWord(n / 2, size - 1), LOW63)
  {
    hide LowBit, Half, Double, Join, Meet;
    if n % 2 == 1 {
      ShiftedInOne(LowWord(n / 2, size - 1));
    } else {
      ShiftedInZero(LowWord(n / 2, size - 1));
    }
  }

  /** The word for a number has the number's lowest bits. */
  lemma {:induction false} WordIsRemainder(n: nat, size: nat)
    requires size <= 64
    ensures Number(LowWord(n, size), size) == n % Power(size)
    decreases size
  {
    hide LowBit, Half, Meet, LowWord, Ones;
    if size > 0 {
      LowWordStep(n, size);
      LowMask();
      MaskedBelow(LowWord(n / 2, size - 1), LOW63, 63, size - 1);
      WordIsRemainder(n / 2, size - 1);
      DoubleRemainder(n % 2, n / 2, Power(size - 1));
    }
  }

  // ----- numerals -----

  /** The number that a row of decimal digits stands for, the last one counting ones. */
  function DigitsNumber(s: string): int {
    if s == "" then 0 else 10 * DigitsNumber(s[..|s| - 1]) + (s[|s| - 1] as int - '0' as int)
  }

  predicate AllDigits(s: string) {
    forall i :: 0 <= i < |s| ==> '0' <= s[i] <= '9'
  }

  function TenTo(n: nat): nat {
    if n == 0 then 1 else 10 * TenTo(n - 1)
  }

  lemma {:induction false} DigitsSplit(c: char, s: string)
    ensures DigitsNumber([c] + s) == (c as int - '0' as int) * TenTo(|s|) + DigitsNumber(s)
    decreases |s|
  {
    if s == "" {
      assert [c] + s == [c] && [c][..0] == "";
    } else {
      var front := s[..|s| - 1];
      assert ([c] + s)[..|s|] == [c] + front;
      DigitsSplit(c, front);
    }
  }

  lemma {:induction false} DecimalIsDigits(digits: string, rest: string, n: nat)
    requires AllDigits(digits) && (rest == "" || !('0' <= rest[0] <= '9'))
    ensures Decimal(digits + rest, n) == n * TenTo(|digits|) + DigitsNumber(digits)
    decreases |digits|
  {
    var s := digits + rest;
    if digits == "" {
      assert s == rest;
    } else {
      var d := digits[0] as int - '0' as int;
      assert s[1..] == digits[1..] + rest;
      DecimalIsDigits(digits[1..], rest, n * 10 + d);
      assert digits == [digits[0]] + digits[1..];
      DigitsSplit(digits[0], digits[1..]);
      Spread(n, d, TenTo(|digits| - 1));
    }
  }

  lemma Spread(n: int, d: int, p: int)
    ensures (n * 10 + d) * p == n * (10 * p) + d * p
  {
  }

  /** A number at the beginning of a string is read as the number that its digits stand for,
      up to the first character that is none, modulo 2^64. */
  lemma NumbersAreRead(digits: string, rest: string)
    requires AllDigits(digits) && (rest == "" || !('0' <= rest[0] <= '9'))
    ensures Amount(DecimalWord(digits + rest)) == DigitsNumber(digits) % TWO64
  {
    hide LowWord, Number, Power;
    PowersOfTwo();
    DecimalIsDigits(digits, rest, 0);
    WordIsRemainder(Decimal(digits + rest, 0), 64);
  }

  /** What a hexadecimal digit stands for. */
  function HexDigit(c: char): int {
    if '0' <= c <= '9' then c as int - '0' as int else c as int - 'a' as int + 10
  }

  function HexNumber(s: string): int {
    if s == "" then 0 else 16 * HexNumber(s[..|s| - 1]) + HexDigit(s[|s| - 1])
  }

  lemma LowFourBits(b: Bits)
    ensures Half(Half(Half(Half(b)))) == Sixteenth(b)
    ensures LowBit(b) == LowBit(LowFour(b)) && LowBit(Half(b)) == LowBit(Half(LowFour(b)))
    ensures LowBit(Half(Half(b))) == LowBit(Half(Half(LowFour(b))))
    ensures LowBit(Half(Half(Half(b)))) == LowBit(Half(Half(Half(LowFour(b)))))
  {
  }

  lemma FourAndMore(b: Bits, size: nat)
    requires size >= 4
    ensures Number(b, size) == LowBit(b) + 2 * LowBit(Half(b)) + 4 * LowBit(Half(Half(b)))
                               + 8 * LowBit(Half(Half(Half(b)))) + 16 * Number(Half(Half(Half(Half(b)))), size - 4)
  {
    hide LowBit, Half;
    assert Number(Half(b), size - 1) == LowBit(Half(b)) + 2 * Number(Half(Half(b)), size - 2);
    var c := Half(Half(b));
    assert Number(c, size - 2) == LowBit(c) + 2 * Number(Half(c), size - 3);
    assert Number(Half(c), size - 3) == LowBit(Half(c)) + 2 * Number(Half(Half(c)), size - 4);
  }

  lemma NibbleIsDigit(b: Bits)
    ensures HexDigit(Nibble(LowFour(b)))
         == LowBit(b) + 2 * LowBit(Half(b)) + 4 * LowBit(Half(Half(b))) + 8 * LowBit(Half(Half(Half(b))))
  {
  }

  lemma {:induction false} HexDigitsAreNumber(b: Bits, most: nat)
    ensures HexNumber(HexDigits(b, most)) == Number(b, 4 * most)
    decreases most
  {
    hide LowBit, Half, LowFour, Sixteenth, HexDigit, Nibble;
    if most > 0 {
      if b == 0 {
        NumberOfNothing(4 * most);
      } else {
        var front := HexDigits(Sixteenth(b), most - 1);
        assert (front + [Nibble(LowFour(b))])[..|front|] == front;
        HexDigitsAreNumber(Sixteenth(b), most - 1);
        FourAndMore(b, 4 * most);
        NibbleIsDigit(b);
        LowFourBits(b);
      }
    }
  }

  /** Nothing is left of the word after so many digits. */
  predicate Spent(b: Bits, most: nat)
    decreases most
  {
    if most == 0 then b == 0 else Spent(Sixteenth(b), most - 1)
  }

  function Quarter(b: Bits): Bits {
    b >> 16
  }

  lemma FourSixteenths(b: Bits)
    ensures Sixteenth(Sixteenth(Sixteenth(Sixteenth(b)))) == Quarter(b)
    ensures Quarter(Quarter(Quarter(Quarter(b)))) == 0
  {
  }

  lemma FourDigitsSpend(b: Bits, most: nat)
    requires most >= 4 && Spent(Quarter(b), most - 4)
    ensures Spent(b, most)
  {
    FourSixteenths(b);
    hide Sixteenth, Quarter;
    var c := Sixteenth(Sixteenth(b));
    assert Spent(Sixteenth(c), most - 3);
    assert Spent(c, most - 2);
    assert Spent(Sixteenth(b), most - 1);
  }

  lemma SixteenDigitsSpend(b: Bits)
    ensures Spent(b, 16)
  {
    hide Sixteenth, Quarter;
    FourSixteenths(b);
    FourDigitsSpend(Quarter(Quarter(Quarter(b))), 4);
    FourDigitsSpend(Quarter(Quarter(b)), 8);
    FourDigitsSpend(Quarter(b), 12);
    FourDigitsSpend(b, 16);
  }

  lemma LeadingDigit(b: Bits)
    requires Sixteenth(b) == 0 && b != 0
    ensures Nibble(LowFour(b)) != '0'
  {
  }

  predicate IsHexDigit(c: char) {
    '0' <= c <= '9' || 'a' <= c <= 'f'
  }

  lemma NibbleIsHexDigit(b: Bits)
    ensures IsHexDigit(Nibble(b))
  {
  }

  lemma {:induction false} HexDigitsLead(b: Bits, most: nat)
    requires Spent(b, most)
    ensures var s := HexDigits(b, most);
      (b != 0 ==> s != "" && s[0] != '0') && forall i :: 0 <= i < |s| ==> IsHexDigit(s[i])
    decreases most
  {
    hide LowFour, Sixteenth, Nibble, IsHexDigit;
    if most > 0 && b != 0 {
      var front := HexDigits(Sixteenth(b), most - 1);
      HexDigitsLead(Sixteenth(b), most - 1);
      NibbleIsHexDigit(LowFour(b));
      if Sixteenth(b) == 0 {
        LeadingDigit(b);
      }
    }
  }

  /** The text is "0" for nothing, and otherwise "0x" and the number in lower-case hexadecimal,
      without zeros in front. */
  predicate Spells(s: string, n: nat) {
    if n == 0 then s == "0"
    else
      && "0x" <= s && |s| > 2 && s[2] != '0'
      && (forall i :: 2 <= i < |s| ==> IsHexDigit(s[i]))
      && HexNumber(s[2..]) == n
  }

  lemma {:induction false} NothingIfNumberIsZero(b: Bits, most: nat)
    requires Spent(b, most)
    ensures Number(b, 4 * most) == 0 ==> b == 0
    decreases most
  {
    hide LowBit, Half, LowFour, Sixteenth;
    if most > 0 {
      FourAndMore(b, 4 * most);
      LowFourBits(b);
      NothingIfNumberIsZero(Sixteenth(b), most - 1);
      if Number(b, 4 * most) == 0 {
        NothingInFour(b);
      }
    }
  }

  lemma NothingInFour(b: Bits)
    requires LowBit(b) == 0 && LowBit(Half(b)) == 0 && LowBit(Half(Half(b))) == 0 && LowBit(Half(Half(Half(b)))) == 0
    requires Sixteenth(b) == 0
    ensures b == 0
  {
  }

  lemma HexSpells(b: Bits)
    requires b != 0
    ensures Spells(Hex(b), Amount(b)) && Amount(b) > 0
  {
    hide HexDigits, Number, HexNumber, Spent;
    SixteenDigitsSpend(b);
    HexDigitsLead(b, 16);
    HexDigitsAreNumber(b, 16);
    NothingIfNumberIsZero(b, 16);
    var s := Hex(b);
    assert s[2..] == HexDigits(b, 16);
    assert forall i :: 2 <= i < |s| ==> s[i] == HexDigits(b, 16)[i - 2];
  }

  lemma FourBitsAndMore(a: Bits, b: Bits)
    requires LowBit(a) == LowBit(b) && LowBit(Half(a)) == LowBit(Half(b))
    requires LowBit(Half(Half(a))) == LowBit(Half(Half(b)))
    requires LowBit(Half(Half(Half(a)))) == LowBit(Half(Half(Half(b)))) && Sixteenth(a) == Sixteenth(b)
    ensures a == b
  {
  }

  lemma SameParts(a: Bits, b: Bits, size: nat)
    requires Number(a, size + 4) == Number(b, size + 4)
    ensures LowBit(a) == LowBit(b) && LowBit(Half(a)) == LowBit(Half(b))
    ensures LowBit(Half(Half(a))) == LowBit(Half(Half(b)))
    ensures LowBit(Half(Half(Half(a)))) == LowBit(Half(Half(Half(b))))
    ensures Number(Sixteenth(a), size) == Number(Sixteenth(b), size)
  {
    hide LowBit, Half, LowFour, Sixteenth, Number;
    FourAndMore(a, size + 4);
    FourAndMore(b, size + 4);
    LowFourBits(a);
    LowFourBits(b);
    FourLowBits(a);
    FourLowBits(b);
    SameDigits(LowBit(a), LowBit(Half(a)), LowBit(Half(Half(a))), LowBit(Half(Half(Half(a)))),
               LowBit(b), LowBit(Half(b)), LowBit(Half(Half(b))), LowBit(Half(Half(Half(b)))),
               Number(Sixteenth(a), size), Number(Sixteenth(b), size));
  }

  lemma {:induction false} SameNumber(a: Bits, b: Bits, most: nat)
    requires Spent(a, most) && Spent(b, most) && Number(a, 4 * most) == Number(b, 4 * most)
    ensures a == b
    decreases most
  {
    hide LowBit, Half, LowFour, Sixteenth, Number;
    if most > 0 {
      SameParts(a, b, 4 * (most - 1));
      SameNumber(Sixteenth(a), Sixteenth(b), most - 1);
      FourBitsAndMore(a, b);
    }
  }

  lemma SameDigits(a0: nat, a1: nat, a2: nat, a3: nat, b0: nat, b1: nat, b2: nat, b3: nat, a: nat, b: nat)
    requires a0 < 2 && a1 < 2 && a2 < 2 && a3 < 2 && b0 < 2 && b1 < 2 && b2 < 2 && b3 < 2
    requires a0 + 2 * a1 + 4 * a2 + 8 * a3 + 16 * a == b0 + 2 * b1 + 4 * b2 + 8 * b3 + 16 * b
    ensures a0 == b0 && a1 == b1 && a2 == b2 && a3 == b3 && a == b
  {
  }

  lemma FourLowBits(b: Bits)
    ensures LowBit(b) < 2 && LowBit(Half(b)) < 2 && LowBit(Half(Half(b))) < 2 && LowBit(Half(Half(Half(b)))) < 2
  {
    hide Half;
  }

  /** A word is known by its number. */
  lemma AmountIsFaithful(a: Bits, b: Bits)
    ensures Amount(a) == Amount(b) <==> a == b
  {
    hide Number, Spent;
    SixteenDigitsSpend(a);
    SixteenDigitsSpend(b);
    if Amount(a) == Amount(b) {
      SameNumber(a, b, 16);
    }
  }

  lemma {:induction false} SameBitsSameNumber(a: Bits, b: Bits, size: nat)
    requires forall i :: 0 <= i < size ==> LowBit(Shifted(a, i)) == LowBit(Shifted(b, i))
    ensures Number(a, size) == Number(b, size)
    decreases size
  {
    hide LowBit, Half;
    if size > 0 {
      assert Shifted(a, 0) == a && Shifted(b, 0) == b;
      forall i | 0 <= i < size - 1
        ensures LowBit(Shifted(Half(a), i)) == LowBit(Shifted(Half(b), i))
      {
        assert Shifted(a, i + 1) == Shifted(Half(a), i) && Shifted(b, i + 1) == Shifted(Half(b), i);
      }
      SameBitsSameNumber(Half(a), Half(b), size - 1);
    }
  }

  /** A word is known by its bits. */
  lemma SameBits(a: Bits, b: Bits)
    requires forall i :: 0 <= i < 64 ==> (Bit(a, i) <==> Bit(b, i))
    ensures a == b
  {
    hide LowBit, Shifted, Number, Bit;
    forall i | 0 <= i < 64
      ensures LowBit(Shifted(a, i)) == LowBit(Shifted(b, i))
    {
      BitIsShifted(a, i);
      BitIsShifted(b, i);
      LowBitIsBit(Shifted(a, i));
      LowBitIsBit(Shifted(b, i));
    }
    SameBitsSameNumber(a, b, 64);
    AmountIsFaithful(a, b);
  }

  /** A word is within another exactly if all its bits are. */
  lemma WithinIff(a: Bits, b: Bits)
    ensures Within(a, b) <==> forall i :: 0 <= i < 64 && Bit(a, i) ==> Bit(b, i)
  {
    hide Bit, Meet;
    WithinIsMeetIff(a, b);
    forall i | 0 <= i < 64
      ensures Bit(Meet(b, a), i) <==> Bit(b, i) && Bit(a, i)
    {
      BitLaws(b, a, i);
    }
    hide Within;
    if forall i :: 0 <= i < 64 && Bit(a, i) ==> Bit(b, i) {
      SameBits(Meet(b, a), a);
    }
  }

  lemma WithinIsMeetIff(a: Bits, b: Bits)
    ensures Within(a, b) <==> Meet(b, a) == a
  {
  }

  // ----- constants -----

  /** How many numbers there are in 1, 2, 4 and 8 bytes. */
  function Bound(width: Width): nat {
    match width
    case One => 0x100
    case Two => 0x1_0000
    case Four => 0x1_0000_0000
    case Eight => 0x1_0000_0000_0000_0000
  }

  /** The value of a row is the number that its bytes have, without a sign: the constant modulo
      2 to the number of its bits. */
  lemma ValueIsRemainder(row: Row, width: Width)
    ensures Amount(Value(row, width)) == Amount(row.constant) % Bound(width)
  {
    hide Number, Meet, Ones, Power;
    PowersOfTwo();
    ByteMasks();
    NumberFits(row.constant, 64);
    match width
    case One => MaskIsRemainder(row.constant, 0xff, 8, 64);
    case Two => MaskIsRemainder(row.constant, 0xffff, 16, 64);
    case Four => MaskIsRemainder(row.constant, 0xffff_ffff, 32, 64);
    case Eight =>
  }

  lemma PowersOfTwo()
    ensures Power(8) == 0x100 && Power(16) == 0x1_0000 && Power(32) == TWO32 && Power(64) == TWO64
  {
    assert Power(4) == 16;
    PowerAdds(4, 4);
    PowerAdds(8, 8);
    PowerAdds(16, 16);
    PowerAdds(32, 32);
  }

  lemma {:induction false} PowerAdds(a: nat, b: nat)
    ensures Power(a + b) == Power(a) * Power(b)
    decreases a
  {
    if a > 0 {
      PowerAdds(a - 1, b);
      assert Power(a + b) == 2 * (Power(a - 1) * Power(b));
    }
  }
}

/** Sets of bits in a 64-bit word. */
module Bitwise {
  import opened Words

  type Bits = bv64

  function Join(a: Bits, b: Bits): Bits {
    a | b
  }

  function Meet(a: Bits, b: Bits): Bits {
    a & b
  }

  function Without(a: Bits, b: Bits): Bits {
    a & !b
  }

  /** The number that the lowest bits of a word stand for. */
  function Number(b: Bits, size: nat): nat
    decreases size
  {
    if size == 0 then 0 else LowBit(b) + 2 * Number(Half(b), size - 1)
  }

  function Half(b: Bits): Bits {
    b >> 1
  }

  function LowBit(b: Bits): nat {
    if b & 1 == 1 then 1 else 0
  }

  /** The number that a word stands for. */
  function Amount(b: Bits): nat {
    Number(b, 64)
  }

  function Double(b: Bits): Bits {
    b << 1
  }

  /** The lowest hexadecimal digit. */
  function LowFour(b: Bits): Bits {
    b & 0xf
  }

  function Sixteenth(b: Bits): Bits {
    b >> 4
  }

  /** The lowest bits of a number, as a word. */
  function LowWord(n: nat, size: nat): Bits
    decreases size
  {
    if size == 0 then 0 else Join(if n % 2 == 1 then 1 else 0, Double(LowWord(n / 2, size - 1)))
  }

  predicate Within(a: Bits, b: Bits) {
    b & a == a
  }

  lemma JoinLaws(a: Bits, b: Bits, c: Bits)
    ensures Join(Join(a, b), c) == Join(a, Join(b, c)) && Join(a, Join(b, c)) == Join(b, Join(a, c))
    ensures Join(a, b) == Join(b, a) && Join(a, a) == a && Join(0, a) == a && Join(a, 0) == a
  {
    hide Join;
    JoinIsAssociative(a, b, c);
    JoinIsAssociative(b, a, c);
    JoinIsCommutative(a, b);
    JoinIsCommutative(b, a);
    JoinIsCommutative(0, a);
  }

  lemma JoinIsAssociative(a: Bits, b: Bits, c: Bits)
    ensures Join(Join(a, b), c) == Join(a, Join(b, c))
  {
  }

  lemma JoinIsCommutative(a: Bits, b: Bits)
    ensures Join(a, b) == Join(b, a) && Join(a, a) == a && Join(0, a) == a && Join(a, 0) == a
  {
  }

  lemma WithinTrans(a: Bits, b: Bits, c: Bits)
    requires Within(a, b) && Within(b, c)
    ensures Within(a, c)
  {
  }

  lemma WithoutIsWithin(a: Bits, b: Bits)
    ensures Within(Without(a, b), a) && Meet(Without(a, b), b) == 0 && Meet(b, Without(a, b)) == 0
  {
  }

  /** What is taken out and what is left make up the whole. */
  lemma WithoutAndBack(a: Bits, b: Bits)
    requires Within(b, a)
    ensures Join(b, Without(a, b)) == a
  {
  }

  lemma HalvesOfJoin(a: Bits, b: Bits)
    ensures Half(Join(a, b)) == Join(Half(a), Half(b))
  {
  }

  lemma HalvesOfMeet(a: Bits, b: Bits)
    ensures Meet(Half(a), Half(b)) == Half(Meet(a, b))
  {
  }

  lemma HalfOfNothing()
    ensures Half(0) == 0
  {
  }

  lemma DisjointLowBits(a: Bits, b: Bits)
    requires Meet(a, b) == 0
    ensures LowBit(Join(a, b)) == LowBit(a) + LowBit(b)
  {
  }

  /** Words without common bits are added by joining them. */
  lemma {:induction false} JoinAdds(a: Bits, b: Bits, size: nat)
    requires Meet(a, b) == 0
    ensures Number(Join(a, b), size) == Number(a, size) + Number(b, size)
    decreases size
  {
    hide Meet, Join, LowBit, Half;
    if size > 0 {
      HalvesOfJoin(a, b);
      HalvesOfMeet(a, b);
      HalfOfNothing();
      DisjointLowBits(a, b);
      JoinAdds(Half(a), Half(b), size - 1);
    }
  }

  lemma MeetSwaps(a: Bits, b: Bits)
    ensures Meet(a, b) == Meet(b, a)
  {
  }

  lemma MeetTwice(a: Bits, b: Bits)
    ensures Meet(Meet(a, b), b) == Meet(a, b)
  {
  }

  lemma WithinIsDisjoint(a: Bits, b: Bits, c: Bits)
    requires Within(a, b) && Meet(b, c) == 0
    ensures Meet(a, c) == 0 && Meet(c, a) == 0
  {
  }

  lemma WithinSelf(a: Bits)
    ensures Within(a, a) && Meet(a, a) == a && Within(0, a) && Without(a, 0) == a && Without(a, a) == 0
  {
  }

  lemma JoinIsUpper(a: Bits, b: Bits)
    ensures Within(a, Join(a, b)) && Within(b, Join(a, b))
  {
  }

  // ----- bit by bit -----

  function Power(n: nat): (p: nat)
    ensures p > 0
  {
    if n == 0 then 1 else 2 * Power(n - 1)
  }

  /** Whether a word has bit `i`, counted from the lowest. */
  predicate Bit(b: Bits, i: nat) {
    Amount(b) / Power(i) % 2 == 1
  }

  /** The lowest bit after `i` shifts. */
  function Shifted(b: Bits, i: nat): Bits
    decreases i
  {
    if i == 0 then b else Shifted(Half(b), i - 1)
  }

  lemma HalfOfDouble(n: nat, low: nat, p: nat)
    requires low < 2 && p > 0
    ensures (low + 2 * n) / (2 * p) == n / p && (low + 2 * n) % 2 == low
  {
    var q, r := n / p, n % p;
    assert low + 2 * n == (2 * p) * q + (low + 2 * r);
    QuotientIs(low + 2 * n, 2 * p, q, low + 2 * r);
  }

  lemma {:induction false} NumberAt(b: Bits, size: nat, i: nat)
    requires i < size
    ensures Number(b, size) / Power(i) % 2 == LowBit(Shifted(b, i))
    decreases i
  {
    hide LowBit, Half;
    LowBitIsBit(b);
    HalfOfDouble(Number(Half(b), size - 1), LowBit(b), if i == 0 then 1 else Power(i - 1));
    if i > 0 {
      NumberAt(Half(b), size - 1, i - 1);
    }
  }

  lemma BitIsShifted(b: Bits, i: nat)
    requires i < 64
    ensures Bit(b, i) <==> LowBit(Shifted(b, i)) == 1
  {
    hide LowBit, Half, Number;
    NumberAt(b, 64, i);
  }

  lemma LowBitOfMeet(a: Bits, b: Bits)
    ensures LowBit(Meet(a, b)) == 1 <==> LowBit(a) == 1 && LowBit(b) == 1
  {
  }

  lemma LowBitOfJoin(a: Bits, b: Bits)
    ensures LowBit(Join(a, b)) == 1 <==> LowBit(a) == 1 || LowBit(b) == 1
  {
  }

  lemma {:induction false} ShiftedBits(a: Bits, b: Bits, i: nat)
    ensures LowBit(Shifted(Meet(a, b), i)) == 1 <==> LowBit(Shifted(a, i)) == 1 && LowBit(Shifted(b, i)) == 1
    ensures LowBit(Shifted(Join(a, b), i)) == 1 <==> LowBit(Shifted(a, i)) == 1 || LowBit(Shifted(b, i)) == 1
    decreases i
  {
    hide LowBit, Half, Meet, Join;
    if i == 0 {
      LowBitOfMeet(a, b);
      LowBitOfJoin(a, b);
    } else {
      HalvesOfMeet(a, b);
      HalvesOfJoin(a, b);
      ShiftedBits(Half(a), Half(b), i - 1);
    }
  }

  lemma BitsOfBoth(a: Bits, b: Bits, i: nat)
    requires i < 64
    ensures Bit(Join(a, b), i) <==> Bit(a, i) || Bit(b, i)
    ensures Bit(Meet(a, b), i) <==> Bit(a, i) && Bit(b, i)
  {
    hide LowBit, Half, Join, Meet, Shifted, Bit;
    ShiftedBits(a, b, i);
    BitIsShifted(a, i);
    BitIsShifted(b, i);
    BitIsShifted(Join(a, b), i);
    BitIsShifted(Meet(a, b), i);
  }

  lemma NothingHasNoBit(i: nat)
    ensures !Bit(0, i)
  {
    NumberOfNothing(64);
    assert 0 / Power(i) == 0;
  }

  lemma WithoutLaws(a: Bits, b: Bits)
    ensures Join(Meet(a, b), Without(a, b)) == a
  {
  }

  lemma WithinIsMeet(a: Bits, b: Bits)
    requires Within(a, b)
    ensures Meet(b, a) == a
  {
  }

  /** What the operations on words do to their bits. */
  lemma BitLaws(a: Bits, b: Bits, i: nat)
    requires i < 64
    ensures Bit(Join(a, b), i) <==> Bit(a, i) || Bit(b, i)
    ensures Bit(Meet(a, b), i) <==> Bit(a, i) && Bit(b, i)
    ensures Bit(Without(a, b), i) <==> Bit(a, i) && !Bit(b, i)
  {
    hide Join, Meet, Without, Bit, Within;
    WithoutLaws(a, b);
    WithoutIsWithin(a, b);
    WithinIsMeet(Without(a, b), a);
    NothingHasNoBit(i);
    BitsOfBoth(a, b, i);
    BitsOfBoth(Meet(a, b), Without(a, b), i);
    BitsOfBoth(a, Without(a, b), i);
    BitsOfBoth(Without(a, b), b, i);
  }

  lemma LowBitIsBit(b: Bits)
    ensures LowBit(b) < 2
  {
  }

  // ----- low parts -----

  lemma {:induction false} NumberFits(b: Bits, size: nat)
    ensures Number(b, size) < Power(size)
    decreases size
  {
    hide LowBit, Half;
    if size > 0 {
      LowBitIsBit(b);
      NumberFits(Half(b), size - 1);
    }
  }

  /** The lowest `k` bits are set and no other. */
  predicate Ones(m: Bits, k: nat)
    decreases k
  {
    if k == 0 then m == 0 else LowBit(m) == 1 && Ones(Half(m), k - 1)
  }

  lemma {:induction false} NumberOfNothing(size: nat)
    ensures Number(0, size) == 0
    decreases size
  {
    if size > 0 {
      HalfOfNothing();
      NumberOfNothing(size - 1);
    }
  }

  lemma MeetNothing(b: Bits)
    ensures Meet(b, 0) == 0
  {
  }

  lemma MeetStep(b: Bits, m: Bits)
    ensures Half(Meet(b, m)) == Meet(Half(b), Half(m))
    ensures LowBit(m) == 1 ==> LowBit(Meet(b, m)) == LowBit(b)
  {
  }

  lemma DoubleRemainder(low: nat, n: nat, p: nat)
    requires low < 2 && p > 0
    ensures (low + 2 * n) % (2 * p) == low + 2 * (n % p)
  {
    assert low + 2 * n == (2 * p) * (n / p) + (low + 2 * (n % p));
    QuotientIs(low + 2 * n, 2 * p, n / p, low + 2 * (n % p));
  }

  /** Masking with the lowest `k` bits leaves the remainder modulo 2 to the power of `k`. */
  lemma {:induction false} MaskIsRemainder(b: Bits, m: Bits, k: nat, size: nat)
    requires Ones(m, k) && k <= size
    ensures Number(Meet(b, m), size) == Number(b, size) % Power(k)
    decreases k
  {
    hide LowBit, Half, Meet;
    if k == 0 {
      MeetNothing(b);
      NumberOfNothing(size);
    } else {
      MeetStep(b, m);
      LowBitIsBit(b);
      MaskIsRemainder(Half(b), Half(m), k - 1, size - 1);
      DoubleRemainder(LowBit(b), Number(Half(b), size - 1), Power(k - 1));
    }
  }

  lemma OneMoreOne(m: Bits, k: nat)
    requires k > 0 && LowBit(m) == 1 && Ones(Half(m), k - 1)
    ensures Ones(m, k)
  {
  }

  lemma OnesByteOnTop(m: Bits, k: nat)
    requires k >= 8 && m & 0xff == 0xff && Ones(m >> 8, k - 8)
    ensures Ones(m, k)
  {
    FourShifts(m);
    FourShifts(m >> 4);
    EightShifts(m);
    FourOnes(m >> 4, k - 4);
    FourOnes(m, k);
  }

  lemma TwoOnes(m: Bits, k: nat)
    requires k >= 2 && LowBit(m) == 1 && LowBit(Half(m)) == 1 && Ones(Half(Half(m)), k - 2)
    ensures Ones(m, k)
  {
    hide LowBit, Half, Ones;
    OneMoreOne(Half(m), k - 1);
    OneMoreOne(m, k);
  }

  lemma FourOnes(m: Bits, k: nat)
    requires k >= 4 && m & 0xf == 0xf && Ones(m >> 4, k - 4)
    ensures Ones(m, k)
  {
    FourShifts(m);
    hide LowBit, Half, Ones;
    TwoOnes(Half(Half(m)), k - 2);
    TwoOnes(m, k);
  }

  lemma FourShifts(m: Bits)
    ensures Half(Half(Half(Half(m)))) == m >> 4
    ensures m & 0xf == 0xf ==>
      LowBit(m) == 1 && LowBit(Half(m)) == 1 && LowBit(Half(Half(m))) == 1 && LowBit(Half(Half(Half(m)))) == 1
  {
  }

  lemma EightShifts(m: Bits)
    ensures m >> 4 >> 4 == m >> 8
    ensures m & 0xff == 0xff ==> m & 0xf == 0xf && (m >> 4) & 0xf == 0xf
  {
  }

  lemma ByteMasks()
    ensures Ones(0xff, 8) && Ones(0xffff, 16) && Ones(0xffff_ffff, 32)
  {
    MaskShifts();
    OnesByteOnTop(0xff, 8);
    OnesByteOnTop(0xffff, 16);
    OnesByteOnTop(0xff_ffff, 24);
    OnesByteOnTop(0xffff_ffff, 32);
  }

  lemma MaskShifts()
    ensures (0xff as Bits) >> 8 == 0 && (0xffff as Bits) >> 8 == 0xff
    ensures (0xff_ffff as Bits) >> 8 == 0xffff && (0xffff_ffff as Bits) >> 8 == 0xff_ffff
    ensures (0xff as Bits) & 0xff == 0xff && (0xffff as Bits) & 0xff == 0xff
    ensures (0xff_ffff as Bits) & 0xff == 0xff && (0xffff_ffff as Bits) & 0xff == 0xff
  {
  }
}

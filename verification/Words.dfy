/** Object addresses, and machine words of the 64-bit target: NSUInteger and `unsigned int`. */
module Words {
  datatype Option<T> = None | Some(value: T)

  /** An object address; 0 is nil. */
  type Id = nat
  const NIL: Id := 0

  /** The object at an address: nothing, if it is nil. */
  function Entry(x: Id): seq<Id> {
    if x == NIL then [] else [x]
  }

  const TWO32: nat := 0x1_0000_0000
  const TWO64: nat := 0x1_0000_0000_0000_0000

  /** An NSUInteger. */
  type Word = n: int | 0 <= n < TWO64

  /** The NSUInteger that C arithmetic leaves for an unbounded result. */
  function Wrap(n: int): Word {
    n % TWO64
  }

  lemma WrapFits(n: int)
    ensures 0 <= n < TWO64 ==> Wrap(n) == n
  {
  }

  /** The `unsigned int` that C arithmetic leaves for an unbounded result. */
  function Wrap32(n: int): (r: nat)
    ensures r < TWO32
  {
    n % TWO32
  }

  /** Wrapping at every step of a sum is wrapping once at the end. */
  lemma Wrap32Step(sum: int, d: int)
    ensures Wrap32(Wrap32(sum) + d) == Wrap32(sum + d)
  {
  }

  lemma {:induction false} WrapMultiple(n: int, k: nat)
    ensures Wrap32(n + TWO32 * k) == Wrap32(n) == Wrap32(n - TWO32 * k)
  {
    if k > 0 {
      WrapMultiple(n, k - 1);
      assert TWO32 * k == TWO32 * (k - 1) + TWO32;
      WrapPeriod(n + TWO32 * (k - 1));
      WrapPeriod(n - TWO32 * k);
    }
  }

  lemma WrapPeriod(n: int)
    ensures Wrap32(n + TWO32) == Wrap32(n)
  {
  }

  /** Taking `b` from `a` shows `a` again exactly if `a` fits and `b` is a full turn. */
  lemma WrapDifference(a: nat, b: nat)
    ensures Wrap32(a - b) == a <==> a < TWO32 && b % TWO32 == 0
  {
    if Wrap32(a - b) == a {
      var k := (a - b) / TWO32;
      assert b == TWO32 * -k;
      WrapMultiple(0, -k);
    }
    if a < TWO32 && b % TWO32 == 0 {
      WrapMultiple(a, b / TWO32);
    }
  }

  lemma WrapTwice(n: int, d: int)
    ensures Wrap(Wrap(n) - d) == Wrap(n - d)
  {
  }

  lemma WrapSum(n: int, d: int)
    ensures Wrap(Wrap(n) + d) == Wrap(n + d)
  {
  }

  /** Two words less than a full turn apart are the same only if they are not apart at all. */
  lemma WrapShift(n: int, d: nat)
    requires d < TWO64
    ensures Wrap(n - d) == Wrap(n) <==> d == 0
  {
  }

  lemma WrapTurn(n: int)
    ensures Wrap(n - TWO64) == Wrap(n)
  {
  }

  lemma {:induction false} WrapTurns(n: int, k: nat)
    ensures Wrap(n - TWO64 * k) == Wrap(n)
  {
    if k > 0 {
      WrapTurns(n, k - 1);
      assert n - TWO64 * k == n - TWO64 * (k - 1) - TWO64;
      WrapTurn(n - TWO64 * (k - 1));
    }
  }

  /** The 64-bit form of WrapDifference. */
  lemma WordDifference(a: Word, b: nat)
    ensures Wrap(a - b) == a <==> b % TWO64 == 0
  {
    if Wrap(a - b) == a {
      var k := (a - b) / TWO64;
      assert b == TWO64 * -k;
      assert b % TWO64 == 0 by { MultipleOfTurn(b, -k); }
    }
    if b % TWO64 == 0 {
      WrapTurns(a, b / TWO64);
      WrapFits(a);
    }
  }

  lemma {:induction false} MultipleOfTurn(n: int, k: nat)
    requires n == TWO64 * k
    ensures n % TWO64 == 0
  {
    WrapTurns(n, k);
  }

  /** The low half of a word forgets what the word has forgotten. */
  lemma HalfOfWord(n: int, d: int)
    ensures Wrap32(Wrap(n) + d) == Wrap32(n + d)
  {
    var k := n / TWO64;
    assert Wrap(n) == n - TWO64 * k;
    assert TWO64 * k == TWO32 * (TWO32 * k);
    if k >= 0 {
      WrapMultiple(n + d, TWO32 * k);
    } else {
      assert TWO32 * (TWO32 * k) == -(TWO32 * (TWO32 * -k));
      WrapMultiple(n + d, TWO32 * -k);
    }
  }

  lemma SmallMultiple(d: int, k: int)
    requires d > 0 && k != 0
    ensures d * k >= d || d * k <= -d
  {
  }

  lemma QuotientIs(n: nat, d: nat, q: nat, r: nat)
    requires d > 0 && n == d * q + r && r < d
    ensures n / d == q && n % d == r
  {
    var k: int := n / d - q;
    assert d * k == r - n % d;
    if k != 0 {
      SmallMultiple(d, k);
    }
  }
}

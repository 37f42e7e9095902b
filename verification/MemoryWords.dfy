/** Addresses in memory, byte by byte. */
module MemoryWords {
  import opened Words
  import opened PoolSpec

  /** A number as bytes, lowest first. */
  function Bytes(n: nat, size: nat): seq<nat>
    decreases size
  {
    if size == 0 then [] else [n % 0x100] + Bytes(n / 0x100, size - 1)
  }

  lemma {:induction false} NumberOfBytes(n: nat, size: nat)
    ensures |Bytes(n, size)| == size && Number(Bytes(n, size)) == n % Bound(size)
    decreases size
  {
    if size > 0 {
      NumberOfBytes(n / 0x100, size - 1);
      assert Bytes(n, size)[1..] == Bytes(n / 0x100, size - 1);
      RemainderOfBytes(n, Bound(size - 1));
    }
  }

  function Bound(size: nat): (b: nat)
    ensures b > 0
  {
    if size == 0 then 1 else 0x100 * Bound(size - 1)
  }

  lemma RemainderOfBytes(n: nat, p: nat)
    requires p > 0
    ensures n % 0x100 + 0x100 * (n / 0x100 % p) == n % (0x100 * p)
  {
    var q, r := n / 0x100 / p, n / 0x100 % p;
    assert n / 0x100 == p * q + r;
    assert n == 0x100 * (n / 0x100) + n % 0x100;
    assert n == (0x100 * p) * q + (n % 0x100 + 0x100 * r);
    QuotientIs(n, 0x100 * p, q, n % 0x100 + 0x100 * r);
  }

  /** Reading a word gives back the address that was written there. */
  lemma ReadUndoesWrite(memory: Memory, pos: nat, p: Id)
    requires pos + WORD <= |memory| && p < TWO64
    ensures var written := memory[..pos] + Bytes(p, WORD) + memory[pos + WORD..];
      |written| == |memory| && Read(written, pos) == p
  {
    NumberOfBytes(p, WORD);
    EightBytes();
    hide Bytes, Number, Bound;
    var written := memory[..pos] + Bytes(p, WORD) + memory[pos + WORD..];
    assert written[pos..pos + WORD] == Bytes(p, WORD);
  }

  lemma EightBytes()
    ensures Bound(WORD) == TWO64
  {
    assert Bound(4) == 0x1_0000_0000;
    assert Bound(8) == 0x100 * (0x100 * (0x100 * (0x100 * Bound(4))));
  }
}

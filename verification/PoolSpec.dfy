/** What an autorelease pool holds, as plain values, and what its operations do to it.

    A chunk is viewed as the slots below `used`; a chain lists its chunks from the newest
    (the one `_storage` points to) to the oldest. Everything here is specification: the
    classes in PointerArray and AutoreleasePool are proved against it. */
module PoolSpec {
  import opened Words

  /** Slots per chunk: two pages less the pool header, less two words, in words. */
  const CAPACITY: nat := ((4096 * 2 - 4 * 8) - 2 * 8) / 8

  /** `missing` is bookkeeping of the proof: the slots that the block copy filled, and the holes
      that a removal counted off. */
  datatype Chunk = Chunk(slots: seq<Id>, count: Word, missing: nat)

  type Chain = seq<Chunk>

  // ----- order -----

  function NonNil(s: seq<Id>): seq<Id> {
    if s == [] then [] else Entry(s[0]) + NonNil(s[1..])
  }

  function Reversed(s: seq<Id>): seq<Id> {
    if s == [] then [] else Reversed(s[1..]) + [s[0]]
  }

  /** The live entries of a chain, oldest first. */
  function Inserted(c: Chain): seq<Id> {
    if c == [] then [] else Inserted(c[1..]) + NonNil(c[0].slots)
  }

  /** The live entries of a chain, with multiplicity. */
  function Live(c: Chain): multiset<Id> {
    multiset(Inserted(c))
  }

  /** The entries of one chunk in the order in which wiping visits them. */
  function WipeSlots(s: seq<Id>): seq<Id> {
    if s == [] then [] else Entry(s[|s| - 1]) + WipeSlots(s[..|s| - 1])
  }

  function WipeChain(c: Chain): seq<Id> {
    if c == [] then [] else WipeSlots(c[0].slots) + WipeChain(c[1..])
  }

  /** One turn of the wiping loop, seen from what is done and from what is left to do. */
  lemma WipeStep(s: seq<Id>, i: nat, done: seq<Id>, rest: seq<Id>)
    requires 0 < i <= |s|
    ensures done + WipeSlots(s[..i]) == (done + Entry(s[i - 1])) + WipeSlots(s[..i - 1])
    ensures WipeSlots(s[..i]) + rest == Entry(s[i - 1]) + (WipeSlots(s[..i - 1]) + rest)
    ensures s[i - 1] == NIL ==> done + Entry(s[i - 1]) == done
    ensures s[i - 1] == NIL ==> WipeSlots(s[..i]) + rest == WipeSlots(s[..i - 1]) + rest
  {
    assert s[..i][..i - 1] == s[..i - 1];
  }

  lemma WipeEnd(s: seq<Id>, done: seq<Id>, rest: seq<Id>)
    ensures WipeSlots(s[..0]) == [] && done + [] == done && [] + rest == rest
  {
  }

  lemma WipeChainEnd(c: Chain, done: seq<Id>)
    ensures WipeChain(c[|c|..]) == [] && done + WipeChain(c[|c|..]) == done
    ensures c[0..] == c
  {
  }

  lemma WipeChainStep(c: Chain, k: nat, done: seq<Id>)
    requires k < |c|
    ensures WipeChain(c[k..]) == WipeSlots(c[k].slots) + WipeChain(c[k + 1..])
    ensures done + WipeChain(c[k..]) == (done + WipeSlots(c[k].slots)) + WipeChain(c[k + 1..])
  {
    assert c[k..][1..] == c[k + 1..];
  }

  lemma ReversedHead(s: seq<Id>, rest: seq<Id>)
    requires s != [] && s[1..] == rest
    ensures Reversed(s) == Reversed(rest) + [s[0]]
  {
  }

  lemma {:induction false} ReversedAppend(a: seq<Id>, b: seq<Id>)
    ensures Reversed(a + b) == Reversed(b) + Reversed(a)
  {
    if a == [] {
      assert a + b == b;
    } else {
      ReversedAppend(a[1..], b);
      ReversedHead(a + b, a[1..] + b);
      ReversedHead(a, a[1..]);
      hide Reversed;
      ConcatIsAssociative(Reversed(b), Reversed(a[1..]), [a[0]]);
    }
  }

  lemma NonNilSnoc(s: seq<Id>)
    requires s != []
    ensures NonNil(s) == NonNil(s[..|s| - 1]) + Entry(s[|s| - 1])
  {
    var init, last := s[..|s| - 1], s[|s| - 1];
    NonNilAppend(init, [last]);
    assert s == init + [last];
    assert NonNil([last]) == Entry(last);
  }

  lemma {:induction false} WipeSlotsReverses(s: seq<Id>)
    ensures WipeSlots(s) == Reversed(NonNil(s))
  {
    if s != [] {
      WipeSlotsReverses(s[..|s| - 1]);
      NonNilSnoc(s);
      ReversedAppend(NonNil(s[..|s| - 1]), Entry(s[|s| - 1]));
      assert Reversed(Entry(s[|s| - 1])) == Entry(s[|s| - 1]);
    }
  }

  /** Wiping visits the live entries of the whole chain in exact reverse of insertion. */
  lemma {:induction false} WipeChainReverses(c: Chain)
    ensures WipeChain(c) == Reversed(Inserted(c))
  {
    if c != [] {
      WipeChainReverses(c[1..]);
      WipeSlotsReverses(c[0].slots);
      ReversedAppend(Inserted(c[1..]), NonNil(c[0].slots));
    }
  }

  lemma {:induction false} ReversedMultiset(s: seq<Id>)
    ensures multiset(Reversed(s)) == multiset(s)
  {
    if s != [] {
      ReversedMultiset(s[1..]);
      assert s == [s[0]] + s[1..];
    }
  }

  lemma WipeChainReleasesLive(c: Chain)
    ensures multiset(WipeChain(c)) == Live(c)
  {
    WipeChainReverses(c);
    ReversedMultiset(Inserted(c));
  }

  lemma LiveMatchesWipe(c: Chain, others: multiset<Id>)
    ensures multiset([]) + (Live(c) + others) == multiset(WipeChain(c)) + others
    ensures multiset([]) + others == others
    ensures c == [] ==> Live(c) + others == others && WipeChain(c) == []
  {
    WipeChainReleasesLive(c);
  }

  lemma ConcatIsAssociative(a: seq<Id>, b: seq<Id>, c: seq<Id>)
    ensures (a + b) + c == a + (b + c)
  {
  }

  lemma NonNilHead(s: seq<Id>, rest: seq<Id>)
    requires s != [] && s[1..] == rest
    ensures NonNil(s) == Entry(s[0]) + NonNil(rest)
  {
  }

  lemma {:induction false} NonNilAppend(a: seq<Id>, b: seq<Id>)
    ensures NonNil(a + b) == NonNil(a) + NonNil(b)
  {
    if a == [] {
      assert a + b == b;
    } else {
      NonNilAppend(a[1..], b);
      NonNilHead(a + b, a[1..] + b);
      NonNilHead(a, a[1..]);
      hide Entry, NonNil;
      ConcatIsAssociative(Entry(a[0]), NonNil(a[1..]), NonNil(b));
    }
  }

  lemma {:induction false} NonNilOfLive(s: seq<Id>)
    requires NIL !in s
    ensures NonNil(s) == s
  {
    if s != [] {
      NonNilOfLive(s[1..]);
    }
  }

  lemma {:induction false} NonNilSize(s: seq<Id>)
    ensures |NonNil(s)| <= |s|
    ensures forall x :: multiset(NonNil(s))[x] == if x == NIL then 0 else multiset(s)[x]
  {
    if s != [] {
      NonNilSize(s[1..]);
      assert s == [s[0]] + s[1..];
    }
  }

  // ----- adding -----

  predicate CanAdd(c: Chain) {
    c != [] && |c[0].slots| < CAPACITY
  }

  /** What autoreleasing one object does to the chain of the innermost pool. */
  function AddOne(c: Chain, p: Id): Chain {
    if CanAdd(c) then
      [Chunk(c[0].slots + [p], Wrap(c[0].count + 1), c[0].missing)] + c[1..]
    else
      [Chunk([p], 1, 0)] + c
  }

  /** The chain with room for at least one more object. */
  function WithRoom(c: Chain): (r: Chain)
    ensures CanAdd(r)
  {
    if CanAdd(c) then c else [Chunk([], 0, 0)] + c
  }

  lemma AddOneWithRoom(c: Chain, p: Id)
    ensures AddOne(WithRoom(c), p) == AddOne(c, p)
  {
    if !CanAdd(c) {
      FreshChunkIsNeutral(c, [p]);
    }
  }

  function AddEach(c: Chain, objects: seq<Id>): Chain
    decreases |objects|
  {
    if objects == [] then c else AddEach(AddOne(c, objects[0]), objects[1..])
  }

  /** What the block copy does: whole runs at a time, and no word about `count`. */
  function AddBlock(c: Chain, objects: seq<Id>): Chain
    decreases |objects|, if CanAdd(c) then 0 else 1
  {
    if objects == [] then c
    else if !CanAdd(c) then AddBlock([Chunk([], 0, 0)] + c, objects)
    else
      var n := RunLength(c, objects);
      AddBlock(CopyRun(c, objects[..n]), objects[n..])
  }

  /** One run of the block copy, into the newest chunk. */
  function CopyRun(c: Chain, run: seq<Id>): Chain
    requires c != []
  {
    [Chunk(c[0].slots + run, c[0].count, c[0].missing + |run|)] + c[1..]
  }

  lemma AddOneInserts(c: Chain, p: Id)
    requires p != NIL
    ensures Inserted(AddOne(c, p)) == Inserted(c) + [p]
  {
    NonNilOfLive([p]);
    if CanAdd(c) {
      NonNilAppend(c[0].slots, [p]);
      assert AddOne(c, p)[1..] == c[1..];
    } else {
      assert AddOne(c, p)[1..] == c;
    }
  }

  lemma {:induction false} AddEachInserts(c: Chain, objects: seq<Id>)
    requires NIL !in objects
    ensures Inserted(AddEach(c, objects)) == Inserted(c) + objects
    decreases |objects|
  {
    if objects != [] {
      AddOneInserts(c, objects[0]);
      AddEachInserts(AddOne(c, objects[0]), objects[1..]);
    }
  }

  /** Two chains hold the same slots chunk by chunk; their counters may differ. */
  predicate SameLayout(a: Chain, b: Chain) {
    |a| == |b| && forall i :: 0 <= i < |a| ==> a[i].slots == b[i].slots
  }

  lemma {:induction false} InsertedByLayout(a: Chain, b: Chain)
    requires SameLayout(a, b)
    ensures Inserted(a) == Inserted(b)
  {
    if a != [] {
      InsertedByLayout(a[1..], b[1..]);
    }
  }

  lemma {:induction false} AddEachByLayout(a: Chain, b: Chain, objects: seq<Id>)
    requires SameLayout(a, b)
    ensures SameLayout(AddEach(a, objects), AddEach(b, objects))
    decreases |objects|
  {
    if objects != [] {
      AddEachByLayout(AddOne(a, objects[0]), AddOne(b, objects[0]), objects[1..]);
    }
  }

  lemma {:induction false} AddEachAppend(c: Chain, a: seq<Id>, b: seq<Id>)
    ensures AddEach(c, a + b) == AddEach(AddEach(c, a), b)
    decreases |a|
  {
    if a == [] {
      assert a + b == b;
    } else {
      AddEachAppend(AddOne(c, a[0]), a[1..], b);
      assert (a + b)[1..] == a[1..] + b;
    }
  }

  /** A run that fits lands where one-by-one adding would have put it. */
  lemma {:induction false} CopyRunIsAddEach(c: Chain, run: seq<Id>)
    requires c != [] && |c[0].slots| + |run| <= CAPACITY
    ensures var each := AddEach(c, run);
      each != [] && each[0].slots == c[0].slots + run && each[1..] == c[1..]
    decreases |run|
  {
    if run == [] {
      assert c[0].slots + run == c[0].slots;
    } else {
      AddOneWithSpace(c, run[0]);
      hide AddOne;
      var one := AddOne(c, run[0]);
      assert c[0].slots + run == one[0].slots + run[1..];
      CopyRunIsAddEach(one, run[1..]);
    }
  }

  lemma AddOneWithSpace(c: Chain, p: Id)
    requires CanAdd(c)
    ensures var one := AddOne(c, p); one != [] && one[0].slots == c[0].slots + [p] && one[1..] == c[1..]
  {
  }

  lemma AddBlockEnds(c: Chain, objects: seq<Id>)
    requires objects == []
    ensures AddBlock(c, objects) == c
  {
  }

  /** One turn of the block copy. */
  lemma AddBlockStep(c: Chain, objects: seq<Id>, n: nat)
    requires objects != [] && n == RunLength(WithRoom(c), objects)
    ensures AddBlock(c, objects) == AddBlock(CopyRun(WithRoom(c), objects[..n]), objects[n..])
  {
    if !CanAdd(c) {
      assert AddBlock(c, objects) == AddBlock(WithRoom(c), objects);
    }
  }

  /** An empty chunk in front changes nothing for what is added next. */
  lemma FreshChunkIsNeutral(c: Chain, objects: seq<Id>)
    requires !CanAdd(c) && objects != []
    ensures AddEach([Chunk([], 0, 0)] + c, objects) == AddEach(c, objects)
    ensures AddOne([Chunk([], 0, 0)] + c, objects[0]) == AddOne(c, objects[0])
  {
    var grown := [Chunk([], 0, 0)] + c;
    assert CanAdd(grown);
    assert [] + [objects[0]] == [objects[0]];
    assert grown[1..] == c;
    assert AddOne(grown, objects[0]) == [Chunk([objects[0]], 1, 0)] + c == AddOne(c, objects[0]);
    assert AddEach(grown, objects) == AddEach(AddOne(grown, objects[0]), objects[1..]);
  }

  /** Every chunk stays within its fixed size. */
  predicate Bounded(c: Chain) {
    forall k :: 0 <= k < |c| ==> |c[k].slots| <= CAPACITY
  }

  /** How much of a request the newest chunk takes in one run. */
  function RunLength(c: Chain, objects: seq<Id>): (n: nat)
    requires CanAdd(c) && objects != []
    ensures 0 < n <= |objects| && |c[0].slots| + n <= CAPACITY
  {
    var space := CAPACITY - |c[0].slots|;
    if |objects| < space then |objects| else space
  }

  lemma SameLayoutByParts(a: Chain, b: Chain)
    requires a != [] && b != [] && a[0].slots == b[0].slots && a[1..] == b[1..]
    ensures SameLayout(a, b)
  {
    forall i | 0 < i < |a|
      ensures a[i].slots == b[i].slots
    {
      assert a[1..][i - 1] == b[1..][i - 1];
    }
  }

  lemma OneRunRefinesAddEach(c: Chain, run: seq<Id>, rest: seq<Id>)
    requires c != [] && |c[0].slots| + |run| <= CAPACITY
    ensures SameLayout(AddEach(CopyRun(c, run), rest), AddEach(c, run + rest))
  {
    var copied, each := CopyRun(c, run), AddEach(c, run);
    assert SameLayout(copied, each) by {
      CopyRunIsAddEach(c, run);
      SameLayoutByParts(copied, each);
    }
    AddEachByLayout(copied, each, rest);
    AddEachAppend(c, run, rest);
  }

  /** The fast form refines the simple one: the block copy puts every object exactly where
      adding them one by one would, on every chain and for every request. */
  lemma {:induction false} AddBlockRefinesAddEach(c: Chain, objects: seq<Id>)
    requires Bounded(c)
    ensures SameLayout(AddBlock(c, objects), AddEach(c, objects))
    decreases |objects|
  {
    hide AddBlock, AddEach, SameLayout, CopyRun, WithRoom, Bounded, RunLength;
    if objects == [] {
      AddBlockEnds(c, objects);
      AddEachEnds(c, objects);
    } else {
      var roomy := WithRoom(c);
      var n := RunLength(roomy, objects);
      AddBlockStep(c, objects, n);
      RoomIsNeutral(c, objects);
      var copied := CopyRun(roomy, objects[..n]);
      CopiedIsBounded(roomy, objects[..n]);
      AddBlockRefinesAddEach(copied, objects[n..]);
      OneRunRefinesAddEach(roomy, objects[..n], objects[n..]);
      assert objects == objects[..n] + objects[n..];
      SameLayoutOn(AddBlock(c, objects), AddEach(copied, objects[n..]), AddEach(c, objects));
    }
  }

  lemma AddEachEnds(c: Chain, objects: seq<Id>)
    requires objects == []
    ensures AddEach(c, objects) == c && SameLayout(c, c)
  {
  }

  lemma RoomIsNeutral(c: Chain, objects: seq<Id>)
    requires objects != []
    ensures AddEach(WithRoom(c), objects) == AddEach(c, objects)
    ensures Bounded(c) ==> Bounded(WithRoom(c))
  {
    if !CanAdd(c) {
      FreshChunkIsNeutral(c, objects);
    }
  }

  lemma CopiedIsBounded(c: Chain, run: seq<Id>)
    requires Bounded(c) && c != [] && |c[0].slots| + |run| <= CAPACITY
    ensures Bounded(CopyRun(c, run))
  {
  }

  lemma SameLayoutOn(a: Chain, b: Chain, c: Chain)
    requires SameLayout(a, b) && SameLayout(b, c)
    ensures SameLayout(a, c)
  {
  }

  lemma AddBlockInserts(c: Chain, objects: seq<Id>)
    requires NIL !in objects
    requires Bounded(c)
    ensures Inserted(AddBlock(c, objects)) == Inserted(c) + objects
  {
    AddBlockRefinesAddEach(c, objects);
    InsertedByLayout(AddBlock(c, objects), AddEach(c, objects));
    AddEachInserts(c, objects);
  }

  // ----- interleaved buffers -----

  /** Memory, byte by byte. */
  type Memory = seq<nat>

  /** The address of an object takes this many bytes. */
  const WORD: nat := 8

  /** The address that is stored at a position, lowest byte first. */
  function Read(memory: Memory, pos: nat): Id
    requires pos + WORD <= |memory|
  {
    Number(memory[pos..pos + WORD])
  }

  function Number(bytes: seq<nat>): nat {
    if bytes == [] then 0 else bytes[0] + 0x100 * Number(bytes[1..])
  }

  /** The objects in a buffer of structs: `count` of them, `step` bytes apart. */
  function Gather(memory: Memory, pos: nat, count: nat, step: nat): (r: seq<Id>)
    requires InBuffer(memory, pos, count, step)
    ensures |r| == count
    decreases count
  {
    if count == 0 then [] else [Read(memory, pos)] + Gather(memory, pos + step, count - 1, step)
  }

  predicate InBuffer(memory: Memory, pos: nat, count: nat, step: nat)
    decreases count
  {
    count == 0 || (pos + WORD <= |memory| && InBuffer(memory, pos + step, count - 1, step))
  }

  /** The position `count` objects further on. */
  function Skip(pos: nat, count: nat, step: nat): nat
    decreases count
  {
    if count == 0 then pos else Skip(pos + step, count - 1, step)
  }

  lemma TakeAndDrop(head: Id, tail: seq<Id>, n: nat)
    requires 0 < n <= |tail| + 1
    ensures ([head] + tail)[..n] == [head] + tail[..n - 1] && ([head] + tail)[n..] == tail[n - 1..]
  {
  }

  /** One object of a buffer. */
  lemma GatherHead(memory: Memory, pos: nat, count: nat, step: nat)
    requires count > 0
    ensures InBuffer(memory, pos, count, step)
       <==> pos + WORD <= |memory| && InBuffer(memory, pos + step, count - 1, step)
    ensures Skip(pos, count, step) == Skip(pos + step, count - 1, step)
    ensures InBuffer(memory, pos, count, step)
        ==> Gather(memory, pos, count, step) == [Read(memory, pos)] + Gather(memory, pos + step, count - 1, step)
  {
    hide Read;
  }

  lemma GatherNone(memory: Memory, pos: nat, step: nat)
    ensures InBuffer(memory, pos, 0, step) && Skip(pos, 0, step) == pos && Gather(memory, pos, 0, step) == []
  {
  }

  lemma {:induction false} GatherSplits(memory: Memory, pos: nat, count: nat, step: nat, n: nat)
    requires InBuffer(memory, pos, count, step) && n <= count
    ensures InBuffer(memory, pos, n, step) && InBuffer(memory, Skip(pos, n, step), count - n, step)
    ensures Gather(memory, pos, count, step)[..n] == Gather(memory, pos, n, step)
    ensures Gather(memory, pos, count, step)[n..] == Gather(memory, Skip(pos, n, step), count - n, step)
    decreases n
  {
    hide InBuffer, Gather, Skip, Read;
    GatherNone(memory, pos, step);
    if n > 0 {
      GatherHead(memory, pos, count, step);
      GatherHead(memory, pos, n, step);
      GatherSplits(memory, pos + step, count - 1, step, n - 1);
      TakeAndDrop(Read(memory, pos), Gather(memory, pos + step, count - 1, step), n);
    }
  }

  /** What is gathered, position by position. */
  lemma {:induction false} GatherAt(memory: Memory, pos: nat, count: nat, step: nat, i: nat)
    requires InBuffer(memory, pos, count, step) && i < count
    ensures pos + i * step + WORD <= |memory|
    ensures Gather(memory, pos, count, step)[i] == Read(memory, pos + i * step)
    decreases count
  {
    hide Read;
    if i > 0 {
      assert i * step == (i - 1) * step + step;
      GatherAt(memory, pos + step, count - 1, step, i - 1);
    }
  }

  /** A buffer whose objects do not overlap has room for as many words in a row. */
  lemma {:induction false} WordsFit(memory: Memory, pos: nat, at: nat, count: nat, step: nat)
    requires InBuffer(memory, pos, count, step) && step >= WORD && at <= pos
    ensures InBuffer(memory, at, count, WORD)
    decreases count
  {
    if count > 0 {
      WordsFit(memory, pos + step, at + WORD, count - 1, step);
    }
  }

  // ----- selective removal -----

  /** The slots of a chunk after every requested object has been replaced by nil. */
  function Clear(s: seq<Id>, request: seq<Id>): (r: seq<Id>)
    ensures |r| == |s|
    ensures forall i :: 0 <= i < |s| ==> r[i] == ClearSlot(s[i], request)
  {
    if s == [] then [] else [ClearSlot(s[0], request)] + Clear(s[1..], request)
  }

  function ClearSlot(x: Id, request: seq<Id>): Id {
    if x in request then NIL else x
  }

  /** Slots that the removal loop, going down, has cleared from `q` on. */
  predicate ClearedFrom(now: seq<Id>, s: seq<Id>, request: seq<Id>, q: nat) {
    && |now| == |s|
    && forall j :: 0 <= j < |s| ==> now[j] == if q <= j then ClearSlot(s[j], request) else s[j]
  }

  lemma ClearedFromStep(now: seq<Id>, s: seq<Id>, request: seq<Id>, q: nat)
    requires 0 < q <= |s| && ClearedFrom(now, s, request, q)
    ensures |now| == |s| && now[q - 1] == s[q - 1]
    ensures ClearedFrom(now[q - 1 := ClearSlot(s[q - 1], request)], s, request, q - 1)
  {
  }

  lemma ClearedFromEnds(now: seq<Id>, s: seq<Id>, request: seq<Id>)
    ensures ClearedFrom(s, s, request, |s|)
    ensures ClearedFrom(now, s, request, 0) ==> now == Clear(s, request)
  {
  }

  /** What removal takes out of one slot. */
  function Pick(x: Id, request: seq<Id>): seq<Id> {
    if x in request then [x] else []
  }

  /** The slot contents removal hands to release, in the order in which it does. */
  function Taken(s: seq<Id>, request: seq<Id>): seq<Id> {
    if s == [] then [] else Pick(s[|s| - 1], request) + Taken(s[..|s| - 1], request)
  }

  lemma TakenSnoc(s: seq<Id>, i: nat, request: seq<Id>)
    requires 0 < i <= |s|
    ensures Taken(s[..i], request) == Pick(s[i - 1], request) + Taken(s[..i - 1], request)
  {
    hide Pick;
    assert s[..i][..i - 1] == s[..i - 1];
  }

  /** One turn of the removal loop, seen from what is done and from what is left to do. */
  lemma TakenStep(s: seq<Id>, i: nat, request: seq<Id>, done: seq<Id>, rest: seq<Id>)
    requires 0 < i <= |s|
    ensures done + NonNil(Taken(s[..i], request))
         == (done + NonNil(Pick(s[i - 1], request))) + NonNil(Taken(s[..i - 1], request))
    ensures Taken(s[..i], request) + rest == Pick(s[i - 1], request) + (Taken(s[..i - 1], request) + rest)
    ensures |Taken(s[..i], request)| == |Pick(s[i - 1], request)| + |Taken(s[..i - 1], request)|
    ensures Nils(Taken(s[..i], request)) == Nils(Pick(s[i - 1], request)) + Nils(Taken(s[..i - 1], request))
  {
    TakenSnoc(s, i, request);
    hide Pick, Taken, NonNil;
    var pick, more := Pick(s[i - 1], request), Taken(s[..i - 1], request);
    NonNilAppend(pick, more);
    ConcatIsAssociative(done, NonNil(pick), NonNil(more));
    ConcatIsAssociative(pick, more, rest);
  }

  lemma TakenEnd(s: seq<Id>, request: seq<Id>, done: seq<Id>, rest: seq<Id>)
    ensures Taken(s[..0], request) == [] && [] + rest == rest && done + NonNil([]) == done && Nils([]) == 0
  {
  }

  lemma TakenChainEnd(c: Chain, request: seq<Id>, done: seq<Id>)
    ensures TakenChain(c[|c|..], request) == [] && done + NonNil(TakenChain(c[|c|..], request)) == done
    ensures c[0..] == c
  {
  }

  lemma TakenChainStep(c: Chain, k: nat, request: seq<Id>, done: seq<Id>)
    requires k < |c|
    ensures TakenChain(c[k..], request) == Taken(c[k].slots, request) + TakenChain(c[k + 1..], request)
    ensures done + NonNil(TakenChain(c[k..], request))
         == (done + NonNil(Taken(c[k].slots, request))) + NonNil(TakenChain(c[k + 1..], request))
  {
    hide Taken;
    assert c[k..][1..] == c[k + 1..];
    var taken, more := Taken(c[k].slots, request), TakenChain(c[k + 1..], request);
    NonNilAppend(taken, more);
    ConcatIsAssociative(done, NonNil(taken), NonNil(more));
  }

  /** How many of these slots are holes. */
  function Nils(s: seq<Id>): nat {
    multiset(s)[NIL]
  }

  /** A chunk after removal: every slot that was taken has been counted off, even a hole. */
  function ClearChunk(k: Chunk, request: seq<Id>): Chunk {
    var taken := Taken(k.slots, request);
    Chunk(Clear(k.slots, request), Wrap(k.count - |taken|), k.missing + Nils(taken))
  }

  function ClearChain(c: Chain, request: seq<Id>): (r: Chain)
    ensures |r| == |c|
    ensures forall i :: 0 <= i < |c| ==> r[i] == ClearChunk(c[i], request)
  {
    seq(|c|, i requires 0 <= i < |c| => ClearChunk(c[i], request))
  }

  function TakenChain(c: Chain, request: seq<Id>): seq<Id> {
    if c == [] then [] else Taken(c[0].slots, request) + TakenChain(c[1..], request)
  }

  lemma NothingToTake(c: Chain, request: seq<Id>, done: seq<Id>)
    ensures c == [] ==> ClearChain(c, request) == c && TakenChain(c, request) == [] && done + NonNil([]) == done
  {
  }

  lemma {:induction false} TakenIsRequested(s: seq<Id>, request: seq<Id>)
    ensures forall x :: multiset(Taken(s, request))[x] == if x in request then multiset(s)[x] else 0
  {
    if s != [] {
      TakenIsRequested(s[..|s| - 1], request);
      assert s == s[..|s| - 1] + [s[|s| - 1]];
    }
  }

  /** One slot either keeps its entry or gives it up. */
  lemma SlotConserves(x: Id, request: seq<Id>)
    ensures multiset(Entry(x)) == multiset(Entry(ClearSlot(x, request))) + multiset(NonNil(Pick(x, request)))
  {
    assert Pick(x, request) != [] ==> NonNil(Pick(x, request)) == Entry(x) + NonNil([]);
  }

  lemma ClearSnoc(s: seq<Id>, request: seq<Id>)
    requires s != []
    ensures Clear(s, request) != [] && |Clear(s, request)| == |s|
    ensures Clear(s, request)[..|s| - 1] == Clear(s[..|s| - 1], request)
    ensures Clear(s, request)[|s| - 1] == ClearSlot(s[|s| - 1], request)
    ensures Taken(s, request) == Pick(s[|s| - 1], request) + Taken(s[..|s| - 1], request)
  {
    hide ClearSlot, Pick;
  }

  lemma {:induction false} ClearConserves(s: seq<Id>, request: seq<Id>)
    ensures multiset(NonNil(s)) == multiset(NonNil(Clear(s, request))) + multiset(NonNil(Taken(s, request)))
  {
    if s != [] {
      hide Clear, Taken, NonNil, ClearSlot, Pick, Entry;
      ClearConserves(s[..|s| - 1], request);
      SlotConserves(s[|s| - 1], request);
      NonNilSnoc(s);
      ClearSnoc(s, request);
      NonNilSnoc(Clear(s, request));
      NonNilAppend(Pick(s[|s| - 1], request), Taken(s[..|s| - 1], request));
    }
  }

  /** What a removal takes out and what it leaves make up what was there. */
  lemma {:induction false} RemovalConserves(c: Chain, request: seq<Id>)
    ensures Live(c) == Live(ClearChain(c, request)) + multiset(NonNil(TakenChain(c, request)))
  {
    if c != [] {
      RemovalConserves(c[1..], request);
      ClearConserves(c[0].slots, request);
      assert ClearChain(c, request)[1..] == ClearChain(c[1..], request);
      hide Clear, Taken, NonNil;
      NonNilAppend(Taken(c[0].slots, request), TakenChain(c[1..], request));
    }
  }

  /** A removal leaves no requested object behind, releases each one exactly as often as
      it occurred, and touches nothing else. */
  lemma RemovalIsExact(c: Chain, request: seq<Id>)
    ensures forall x :: multiset(NonNil(TakenChain(c, request)))[x] == if x in request then Live(c)[x] else 0
    ensures forall x :: Live(ClearChain(c, request))[x] == if x in request then 0 else Live(c)[x]
  {
    RemovalConserves(c, request);
    TakenChainIsRequested(c, request);
    NonNilSize(TakenChain(c, request));
    LiveHasNoNil(c);
  }

  lemma {:induction false} LiveHasNoNil(c: Chain)
    ensures NIL !in Live(c)
  {
    if c != [] {
      LiveHasNoNil(c[1..]);
      NonNilSize(c[0].slots);
    }
  }

  lemma {:induction false} TakenChainIsRequested(c: Chain, request: seq<Id>)
    ensures forall x :: x != NIL ==> multiset(TakenChain(c, request))[x] == if x in request then Live(c)[x] else 0
  {
    if c != [] {
      TakenChainIsRequested(c[1..], request);
      TakenIsRequested(c[0].slots, request);
      NonNilSize(c[0].slots);
    }
  }

  /** Unless nil is asked for, or there are no holes, a removal takes objects only. */
  lemma {:induction false} TakesNoHoles(s: seq<Id>, request: seq<Id>)
    ensures Nils(Taken(s, request)) == if NIL in request then Nils(s) else 0
  {
    TakenIsRequested(s, request);
  }

  // ----- wiping while deallocation autoreleases -----

  /** What wiping a pool releases if the objects that are released in one pass autorelease
      `turns[0]` while they are deallocated, those in the next pass `turns[1]`, and so on. */
  function Drain(c: Chain, turns: seq<seq<Id>>): seq<Id> {
    if c == [] then [] else WipeChain(c) + Later(turns)
  }

  /** What the passes after the first one release. */
  function Later(turns: seq<seq<Id>>): seq<Id>
    decreases |turns|
  {
    if turns == [] || turns[0] == [] then [] else Reversed(turns[0]) + Later(turns[1..])
  }

  /** What arrives in the pool while it is wiped. */
  function Arriving(turns: seq<seq<Id>>): seq<Id>
    decreases |turns|
  {
    if turns == [] || turns[0] == [] then [] else turns[0] + Arriving(turns[1..])
  }

  function Arrived(c: Chain, turns: seq<seq<Id>>): seq<Id> {
    if c == [] then [] else Arriving(turns)
  }

  predicate NilFree(turns: seq<seq<Id>>) {
    forall i :: 0 <= i < |turns| ==> NIL !in turns[i]
  }

  lemma {:induction false} LaterReleasesArriving(turns: seq<seq<Id>>)
    ensures multiset(Later(turns)) == multiset(Arriving(turns))
    decreases |turns|
  {
    if turns != [] && turns[0] != [] {
      LaterReleasesArriving(turns[1..]);
      ReversedMultiset(turns[0]);
    }
  }

  /** Wiping until nothing is left releases what was there and all that arrived meanwhile. */
  lemma DrainReleasesAll(c: Chain, turns: seq<seq<Id>>)
    ensures multiset(Drain(c, turns)) == Live(c) + multiset(Arrived(c, turns))
  {
    WipeChainReleasesLive(c);
    LaterReleasesArriving(turns);
  }

  /** One more pass: what arrived in the emptied pool is wiped next, the last one first. */
  lemma DrainStep(turns: seq<seq<Id>>)
    requires turns != [] && NIL !in turns[0]
    ensures Later(turns) == Drain(AddEach([], turns[0]), turns[1..])
    ensures turns[0] != [] ==> AddEach([], turns[0]) != []
  {
    var c := AddEach([], turns[0]);
    if turns[0] != [] {
      AddEachInserts([], turns[0]);
      assert Inserted([]) + turns[0] == turns[0];
      WipeChainReverses(c);
    }
  }
}

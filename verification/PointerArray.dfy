/** The chunks an autorelease pool keeps its objects in, updated in place. */
module PointerArrays {
  import opened Words
  import opened PoolSpec
  import opened PoolLedger
  import opened PoolStack

  /** The map, if there is one, after counting each of `xs` once. */
  function Counted(m: Option<ObjectCounts>, xs: seq<Id>): Option<ObjectCounts> {
    if m.None? then None else Some(NoteEach(m.value, xs))
  }

  lemma CountedNothing(m: Option<ObjectCounts>)
    ensures Counted(m, []) == m
    ensures forall xs: seq<Id> :: xs[..0] == []
  {
  }

  lemma NoteHead(m: ObjectCounts, x: Id, xs: seq<Id>)
    ensures NoteEach(m, [x] + xs) == NoteEach(m[x := Lookup(m, x) + 1], xs)
  {
    assert ([x] + xs)[1..] == xs;
  }

  /** The map, if there is one, counts what is still to be released and `others`. */
  ghost predicate Counts(m: Option<ObjectCounts>, todo: seq<Id>, others: multiset<Id>) {
    m.Some? ==> Represents(m.value, multiset(todo) + others)
  }

  /** What the operations on chunks reach outside them: the debugging aid that counts, for
      each object, its autoreleases in all pools, and the order in which release is called. */
  class Ledger {
    /** None if counting is off, which is the null map of the source. */
    var objectMap: Option<ObjectCounts>
    ghost var released: seq<Id>

    constructor (counting: bool)
      ensures objectMap == (if counting then Some(map[]) else None) && released == []
    {
      objectMap := if counting then Some(map[]) else None;
      released := [];
    }

    method Increment(obj: Id)
      modifies this`objectMap
      ensures objectMap == Counted(old(objectMap), [obj])
    {
      if objectMap.Some? {
        var value := Lookup(objectMap.value, obj) + 1;
        assert [obj][1..] == [];
        assert NoteEach(Note(objectMap.value, obj), []) == Note(objectMap.value, obj);
        objectMap := Some(objectMap.value[obj := value]);
      }
    }

    /** The counting loop in front of the block copy: it goes word by word. */
    method IncrementEach(memory: Memory, count: nat)
      requires InBuffer(memory, 0, count, WORD)
      modifies this`objectMap
      ensures objectMap == Counted(old(objectMap), Gather(memory, 0, count, WORD))
    {
      hide Read;
      if objectMap.Some? {
        ghost var goal := NoteEach(objectMap.value, Gather(memory, 0, count, WORD));
        var p: nat, i := 0, 0;
        while i < count
          invariant i <= count && objectMap.Some? && InBuffer(memory, p, count - i, WORD)
          invariant NoteEach(objectMap.value, Gather(memory, p, count - i, WORD)) == goal
        {
          GatherHead(memory, p, count - i, WORD);
          var obj := Read(memory, p);
          NoteHead(objectMap.value, obj, Gather(memory, p + WORD, count - i - 1, WORD));
          var value := Lookup(objectMap.value, obj) + 1;
          objectMap := Some(objectMap.value[obj := value]);
          p := p + WORD;
          i := i + 1;
        }
      }
    }

    /** Messaging nil does nothing. */
    method CallRelease(obj: Id)
      modifies this`released
      ensures released == old(released) + Entry(obj)
    {
      released := released + Entry(obj);
    }

    /** `todo` is what is still to be taken off the map after `opfer`. */
    method MapReleaseAndFree(opfer: Id, ghost todo: seq<Id>, ghost others: multiset<Id>)
      requires objectMap.Some? && Counts(objectMap, [opfer] + todo, others)
      modifies this`objectMap
      ensures Lookup(old(objectMap).value, opfer) > 0 && objectMap == Some(Forget(old(objectMap).value, opfer))
      ensures Counts(objectMap, todo, others)
    {
      assert multiset([opfer] + todo) + others == multiset(todo) + others + multiset{opfer};
      ForgetRepresents(objectMap.value, multiset(todo) + others, opfer);
      var value := Lookup(objectMap.value, opfer);
      assert value != 0;  // object appeared in pool out of nowhere
      value := value - 1;
      if value == 0 {
        objectMap := Some(objectMap.value - {opfer});
      } else {
        objectMap := Some(objectMap.value[opfer := value]);
      }
    }

    /** What wiping does with the content of one slot. */
    method ReleaseEntry(opfer: Id, ghost todo: seq<Id>, ghost others: multiset<Id>)
      requires Counts(objectMap, Entry(opfer) + todo, others)
      modifies this
      ensures objectMap.Some? == old(objectMap.Some?)
      ensures released == old(released) + Entry(opfer)
      ensures Counts(objectMap, todo, others)
    {
      if objectMap.Some? {
        if opfer != NIL {
          assert Entry(opfer) == [opfer];
          MapReleaseAndFree(opfer, todo, others);
          CallRelease(opfer);
        } else {
          assert Entry(opfer) + todo == todo;
        }
      } else {
        CallRelease(opfer);
      }
    }
  }

  class PointerArray {
    var previous: PointerArray?
    var used: nat
    var count: Word
    const objects: array<Id>
    /** How many slots were filled by block copy, and how many holes were counted off. */
    ghost var missing: nat
    /** Whether the memory has been given back. */
    ghost var freed: bool

    ghost predicate Valid()
      reads this`used, this`freed
    {
      !freed && objects.Length == CAPACITY && used <= CAPACITY
    }

    ghost function View(): Chunk
      requires Valid()
      reads this, objects
    {
      Chunk(objects[..used], count, missing)
    }

    /** Allocation; the slots stay uninitialised. */
    constructor Create(previous: PointerArray?)
      ensures Valid() && fresh(this) && fresh(objects)
      ensures this.previous == previous && View() == Chunk([], 0, 0)
    {
      this.previous := previous;
      used, count := 0, 0;
      objects := new Id[CAPACITY];
      missing, freed := 0, false;
    }

    method IsFull() returns (full: bool)
      requires Valid()
      ensures full <==> |View().slots| == CAPACITY
    {
      full := used >= CAPACITY;
    }

    method Add(p: Id)
      requires Valid() && used < CAPACITY && p != NIL
      modifies this`used, this`count, objects
      ensures Valid()
      ensures View() == Chunk(old(View()).slots + [p], Wrap(old(count) + 1), old(missing))
    {
      objects[used] := p;
      used := used + 1;
      count := Wrap(count + 1);
    }

    /** Gives the memory back. Nothing is known about the chunk afterwards, so no proof
        can survive a read of it. */
    method Free()
      requires !freed
      modifies this, objects
      ensures freed
    {
      freed := true;
    }
  }

  /** `end` heads a chain of valid, distinct chunks, newest first. */
  ghost predicate IsChain(end: PointerArray?, chain: seq<PointerArray>)
    reads chain
  {
    Linked(end, chain) && AllValid(chain) && AllApart(chain)
  }

  ghost predicate Linked(end: PointerArray?, chain: seq<PointerArray>)
    reads chain`previous
  {
    && end == Nth(chain, 0)
    && forall i {:trigger chain[i].previous} :: 0 <= i < |chain| ==> chain[i].previous == Nth(chain, i + 1)
  }

  ghost predicate AllValid(chain: seq<PointerArray>)
    reads chain`used, chain`freed
  {
    forall i :: 0 <= i < |chain| ==> chain[i].Valid()
  }

  ghost predicate AllApart(chain: seq<PointerArray>) {
    forall k :: 0 <= k < |chain| ==> Apart(chain, k)
  }

  /** Chunk `k` shares nothing with the others. */
  ghost predicate Apart(chain: seq<PointerArray>, k: nat)
    requires k < |chain|
  {
    forall i :: 0 <= i < |chain| && i != k ==> chain[i] != chain[k] && chain[i].objects != chain[k].objects
  }

  function Nth(chain: seq<PointerArray>, i: nat): PointerArray? {
    if i < |chain| then chain[i] else null
  }

  function Stores(chain: seq<PointerArray>): set<object> {
    set a | a in chain :: a.objects
  }

  ghost function Views(chain: seq<PointerArray>): (c: Chain)
    requires AllValid(chain)
    reads chain, Stores(chain)
    ensures |c| == |chain|
    ensures forall i :: 0 <= i < |chain| ==> c[i] == chain[i].View()
  {
    if chain == [] then [] else [chain[0].View()] + Views(chain[1..])
  }

  /** A valid chunk linked to the head of a chain, and sharing nothing with it, extends it. */
  lemma ChainGrows(a: PointerArray, end: PointerArray?, chain: seq<PointerArray>)
    requires IsChain(end, chain) && a.Valid() && a.previous == end
    requires a !in chain && a.objects !in Stores(chain)
    ensures IsChain(a, [a] + chain) && Views([a] + chain) == [a.View()] + Views(chain)
  {
    var grown := [a] + chain;
    forall k | 0 <= k < |grown|
      ensures Apart(grown, k)
    {
      if k > 0 {
        assert Apart(chain, k - 1);
        assert grown[k].objects in Stores(chain);
      }
      forall i | 0 <= i < |grown| && i != k
        ensures grown[i] != grown[k] && grown[i].objects != grown[k].objects
      {
        assert i > 0 ==> grown[i] == chain[i - 1] && grown[i].objects in Stores(chain);
      }
    }
    assert grown[1..] == chain;
  }

  lemma HeadOfChain(a: PointerArray?, chain: seq<PointerArray>)
    requires IsChain(a, chain)
    ensures if a == null then chain == [] else
              chain != [] && a == chain[0] && a.Valid() && Apart(chain, 0) && Views(chain)[0] == a.View()
    ensures a != null ==> a in chain && a.objects in Stores(chain)
  {
  }

  /** Adding to a chain with room in its newest chunk. */
  method AddToHead(a: PointerArray, p: Id, ghost chain: seq<PointerArray>)
    requires IsChain(a, chain) && CanAdd(Views(chain)) && p != NIL
    modifies a`used, a`count, a.objects
    ensures IsChain(a, chain) && Views(chain) == AddOne(old(Views(chain)), p)
  {
    hide Views, Linked, AllApart;
    ghost var views := Views(chain);
    HeadOfChain(a, chain);
    a.Add(p);
    assert forall i :: 0 < i < |chain| ==> chain[i].View() == views[i];
    assert Views(chain) == [a.View()] + views[1..];
  }

  method CanAddTo(a: PointerArray?, ghost chain: seq<PointerArray>) returns (can: bool)
    requires IsChain(a, chain)
    ensures can <==> CanAdd(Views(chain))
  {
    HeadOfChain(a, chain);
    if a == null {
      return false;
    }
    var full := a.IsFull();
    can := !full;
  }

  method SpaceLeft(a: PointerArray?, ghost chain: seq<PointerArray>) returns (n: nat)
    requires IsChain(a, chain)
    ensures if CanAdd(Views(chain)) then n == CAPACITY - |Views(chain)[0].slots| else n == 0
  {
    HeadOfChain(a, chain);
    n := if a == null then 0 else CAPACITY - a.used;
  }

  /** The copying loop of the block copy, and its one word to the chunk: `used`. */
  method CopyWords(a: PointerArray, memory: Memory, pos: nat, amount: nat, step: nat) returns (next: nat)
    requires a.Valid() && a.used + amount <= CAPACITY && InBuffer(memory, pos, amount, step)
    modifies a`used, a`missing, a.objects
    ensures a.Valid() && next == Skip(pos, amount, step)
    ensures a.View()
         == Chunk(old(a.View()).slots + Gather(memory, pos, amount, step), old(a.count), old(a.missing) + amount)
  {
    hide Read;
    ghost var goal := a.View().slots + Gather(memory, pos, amount, step);
    next := pos;
    var i := 0;
    assert a.View().slots == a.objects[..a.used];
    while i < amount
      invariant i <= amount && a.Valid() && a.used == old(a.used) && a.missing == old(a.missing)
      invariant InBuffer(memory, next, amount - i, step)
      invariant Skip(next, amount - i, step) == Skip(pos, amount, step)
      invariant a.objects[..a.used + i] + Gather(memory, next, amount - i, step) == goal
    {
      ghost var rest := Gather(memory, next + step, amount - i - 1, step);
      ghost var before := a.objects[..a.used + i];
      var obj := Read(memory, next);
      a.objects[a.used + i] := obj;
      assert a.objects[..a.used + i + 1] == before + [obj];
      assert (before + [obj]) + rest == before + ([obj] + rest);
      next := next + step;
      i := i + 1;
    }
    a.used := a.used + amount;
    a.missing := a.missing + amount;
    assert a.objects[..a.used] + [] == a.objects[..a.used];
  }

  /** The block copy of one run into the newest chunk. */
  method CopyToHead(a: PointerArray, memory: Memory, pos: nat, amount: nat, step: nat,
                    ghost chain: seq<PointerArray>) returns (next: nat)
    requires IsChain(a, chain) && Views(chain) != [] && |Views(chain)[0].slots| + amount <= CAPACITY
    requires InBuffer(memory, pos, amount, step)
    modifies a`used, a`missing, a.objects
    ensures next == Skip(pos, amount, step)
    ensures IsChain(a, chain) && Views(chain) == CopyRun(old(Views(chain)), Gather(memory, pos, amount, step))
  {
    hide Views, Linked, AllApart, Gather, InBuffer, Skip;
    ghost var views := Views(chain);
    HeadOfChain(a, chain);
    next := CopyWords(a, memory, pos, amount, step);
    assert forall i :: 0 < i < |chain| ==> chain[i].View() == views[i];
    assert Views(chain) == [a.View()] + views[1..];
  }

  /** The inner loop of Contains. */
  method ContainedIn(a: PointerArray, p: Id) returns (found: bool)
    requires a.Valid()
    ensures found <==> p in a.View().slots
  {
    ghost var slots := a.View().slots;
    var q: nat := a.used;
    while q > 0
      invariant q <= a.used
      invariant p !in slots[q..]
    {
      q := q - 1;
      if a.objects[q] == p {
        assert slots[q] == p;
        return true;
      }
    }
    assert slots[0..] == slots;
    return false;
  }

  lemma HoldingStep(views: Chain, k: nat, p: Id)
    requires k < |views|
    ensures SlotsHolding(views[k..], p) == multiset(views[k].slots)[p] + SlotsHolding(views[k + 1..], p)
    ensures p in views[k].slots <==> multiset(views[k].slots)[p] > 0
  {
    assert views[k..][1..] == views[k + 1..];
  }

  lemma HoldingEnds(views: Chain, p: Id)
    ensures views[0..] == views && SlotsHolding(views[|views|..], p) == 0
  {
  }

  /** Whether some slot of the chain holds `p`. Asking for nil finds a hole. */
  method Contains(head: PointerArray, p: Id, ghost chain: seq<PointerArray>) returns (found: bool)
    requires IsChain(head, chain)
    ensures found <==> SlotsHolding(Views(chain), p) > 0
  {
    hide SlotsHolding;
    ghost var views := Views(chain);
    var a: PointerArray? := head;
    ghost var k := 0;
    HoldingEnds(views, p);
    while a != null
      invariant 0 <= k <= |chain| && a == Nth(chain, k)
      invariant SlotsHolding(views, p) == SlotsHolding(views[k..], p)
      decreases |chain| - k
    {
      HoldingStep(views, k, p);
      var here := ContainedIn(a, p);
      if here {
        assert SlotsHolding(views, p) > 0 && views == Views(chain);
        return true;
      }
      a := a.previous;
      k := k + 1;
    }
    assert k == |views| && views == Views(chain);
    return false;
  }

  /** The inner loop of CountObject: one chunk's slots, counted on from `start`. */
  method CountSlots(a: PointerArray, p: Id, start: nat, ghost before: nat) returns (count: nat, ghost after: nat)
    requires a.Valid() && start == Wrap32(before)
    ensures after == before + multiset(a.View().slots)[p] && count == Wrap32(after)
  {
    ghost var slots := a.View().slots;
    var q: nat := a.used;
    count, after := start, before;
    assert slots[..q] == slots;
    while q > 0
      invariant q <= a.used
      invariant count == Wrap32(after) && after + multiset(slots[..q])[p] == before + multiset(slots)[p]
    {
      assert slots[..q] == slots[..q - 1] + [slots[q - 1]];
      q := q - 1;
      if a.objects[q] == p {
        Wrap32Step(after, 1);
        count, after := Wrap32(count + 1), after + 1;
      }
    }
  }

  /** How often the chain's slots hold `p`, in an `unsigned int`. */
  method CountObject(head: PointerArray, p: Id, ghost chain: seq<PointerArray>) returns (count: nat)
    requires IsChain(head, chain)
    ensures count == Wrap32(SlotsHolding(Views(chain), p))
  {
    ghost var views := Views(chain);
    var a: PointerArray? := head;
    count := 0;
    ghost var k: nat, exact: nat := 0, 0;
    while a != null
      invariant 0 <= k <= |chain| && a == Nth(chain, k)
      invariant count == Wrap32(exact) && exact + SlotsHolding(views[k..], p) == SlotsHolding(views, p)
      decreases |chain| - k
    {
      HoldingStep(views, k, p);
      count, exact := CountSlots(a, p, count, exact);
      a := a.previous;
      k := k + 1;
    }
    assert views == Views(chain);
  }

  /** The number of autoreleases as the chunks' counters have it. */
  method CountAll(head: PointerArray?, ghost chain: seq<PointerArray>) returns (count: nat)
    requires IsChain(head, chain)
    ensures count == CountTotal(Views(chain))
  {
    ghost var views := Views(chain);
    var a := head;
    count := 0;
    ghost var k, exact := 0, 0;
    while a != null
      invariant 0 <= k <= |chain| && a == Nth(chain, k)
      invariant count == Wrap32(exact) && exact + CountSum(views[k..]) == CountSum(views)
      decreases |chain| - k
    {
      assert views[k..][1..] == views[k + 1..];
      Wrap32Step(exact, a.count);
      count, exact := Wrap32(count + a.count), exact + a.count;
      a := a.previous;
      k := k + 1;
    }
    assert views == Views(chain);
  }

  /** The inner loop of ReleaseAndFree: one chunk's objects, last one first. */
  method ReleaseSlots(p: PointerArray, ledger: Ledger, ghost rest: seq<Id>, ghost others: multiset<Id>)
    requires p.Valid() && Counts(ledger.objectMap, WipeSlots(p.View().slots) + rest, others)
    modifies ledger
    ensures ledger.objectMap.Some? == old(ledger.objectMap.Some?)
    ensures ledger.released == old(ledger.released) + WipeSlots(p.View().slots)
    ensures Counts(ledger.objectMap, rest, others)
  {
    hide WipeSlots, Counts;
    ghost var slots := p.View().slots;
    var i: nat := p.used;
    assert slots[..i] == slots;
    while i > 0
      invariant i <= p.used && ledger.objectMap.Some? == old(ledger.objectMap.Some?)
      invariant ledger.released + WipeSlots(slots[..i]) == old(ledger.released) + WipeSlots(slots)
      invariant Counts(ledger.objectMap, WipeSlots(slots[..i]) + rest, others)
    {
      WipeStep(slots, i, ledger.released, rest);
      i := i - 1;
      assert p.objects[i] == slots[i];
      ledger.ReleaseEntry(p.objects[i], WipeSlots(slots[..i]) + rest, others);
    }
    WipeEnd(slots, ledger.released, rest);
  }

  /** Of a chain that is being wiped: from chunk `k` on it is as it was. */
  ghost predicate Pending(chain: seq<PointerArray>, views: Chain, k: nat)
    reads chain, Stores(chain)
  {
    && |views| == |chain|
    && (forall i :: k <= i < |chain| ==> chain[i].Valid() && chain[i].View() == views[i])
    && (forall i {:trigger chain[i].previous} :: k <= i < |chain| ==> chain[i].previous == Nth(chain, i + 1))
  }

  /** The first `k` chunks are given back, but for the one inside the pool. */
  ghost predicate GivenBack(chain: seq<PointerArray>, staticStorage: PointerArray, k: nat)
    requires k <= |chain|
    reads chain
  {
    forall i :: 0 <= i < k ==> (chain[i].freed <==> chain[i] != staticStorage)
  }

  /** The body of the loop of ReleaseAndFree. */
  method WipeOne(p: PointerArray, staticStorage: PointerArray, ledger: Ledger, ghost chain: seq<PointerArray>,
                 ghost views: Chain, ghost k: nat, ghost others: multiset<Id>) returns (q: PointerArray?)
    requires k < |chain| && p == chain[k] && Pending(chain, views, k)
    requires GivenBack(chain, staticStorage, k)
    requires Apart(chain, k)
    requires Counts(ledger.objectMap, WipeChain(views[k..]), others)
    modifies p, p.objects, ledger
    ensures q == Nth(chain, k + 1)
    ensures Pending(chain, views, k + 1) && GivenBack(chain, staticStorage, k + 1)
    ensures ledger.objectMap.Some? == old(ledger.objectMap.Some?)
    ensures ledger.released + WipeChain(views[k + 1..]) == old(ledger.released) + WipeChain(views[k..])
    ensures Counts(ledger.objectMap, WipeChain(views[k + 1..]), others)
  {
    hide WipeChain, WipeSlots, Counts;
    WipeChainStep(views, k, ledger.released);
    q := p.previous;
    p.previous := null;
    ReleaseSlots(p, ledger, WipeChain(views[k + 1..]), others);
    if p != staticStorage {
      p.Free();
    }
  }

  /** Wipes a pool: every live object of the chain is released, the last one inserted first,
      and every chunk but the one inside the pool is given back. */
  method ReleaseAndFree(end: PointerArray?, staticStorage: PointerArray, ledger: Ledger,
                        ghost chain: seq<PointerArray>, ghost others: multiset<Id>)
    requires IsChain(end, chain) && Counts(ledger.objectMap, WipeChain(Views(chain)), others)
    modifies chain, Stores(chain), ledger
    ensures ledger.objectMap.Some? == old(ledger.objectMap.Some?)
    ensures ledger.released == old(ledger.released) + WipeChain(old(Views(chain)))
    ensures GivenBack(chain, staticStorage, |chain|)
    ensures Counts(ledger.objectMap, [], others)
  {
    hide WipeChain, Counts;
    ghost var views := Views(chain);
    WipeChainEnd(views, ledger.released);
    var p := end;
    ghost var k := 0;
    while p != null
      invariant 0 <= k <= |chain| && p == Nth(chain, k)
      invariant Pending(chain, views, k) && GivenBack(chain, staticStorage, k)
      invariant ledger.objectMap.Some? == old(ledger.objectMap.Some?)
      invariant ledger.released + WipeChain(views[k..]) == old(ledger.released) + WipeChain(views)
      invariant Counts(ledger.objectMap, WipeChain(views[k..]), others)
      decreases |chain| - k
    {
      p := WipeOne(p, staticStorage, ledger, chain, views, k, others);
      k := k + 1;
    }
    WipeChainEnd(views, ledger.released);
  }

  /** What a hit does before the object is released; if that is nil, the release may never
      come back. */
  method ClearHit(a: PointerArray, i: nat, ledger: Ledger, ghost todo: seq<Id>, ghost others: multiset<Id>)
    requires a.Valid() && i < a.used
    requires Counts(ledger.objectMap, [a.objects[i]] + todo, others)
    modifies a`count, a`missing, a.objects, ledger`objectMap
    ensures a.View().slots == old(a.View()).slots[i := NIL]
    ensures a.count == Wrap(old(a.count) - 1) && a.missing == old(a.missing) + Nils([old(a.objects[i])])
    ensures ledger.objectMap.Some? == old(ledger.objectMap.Some?)
    ensures Counts(ledger.objectMap, todo, others)
  {
    hide Counts, Nils;
    var obj := a.objects[i];
    a.objects[i] := NIL;
    a.count := Wrap(a.count - 1);
    a.missing := a.missing + Nils([obj]);
    if ledger.objectMap.Some? {
      ledger.MapReleaseAndFree(obj, todo, others);
    } else {
      NothingCounted(ledger.objectMap, todo, others);
    }
  }

  /** The search through the request for the content of one slot, and what a hit does. A hole
      is a hit if the request has a nil. */
  method TakeSlot(a: PointerArray, i: nat, request: seq<Id>, ledger: Ledger,
                  ghost todo: seq<Id>, ghost others: multiset<Id>)
    requires a.Valid() && i < a.used
    requires Counts(ledger.objectMap, Pick(a.objects[i], request) + todo, others)
    modifies a`count, a`missing, a.objects, ledger
    ensures a.View().slots == old(a.View()).slots[i := ClearSlot(old(a.objects[i]), request)]
    ensures a.count == Wrap(old(a.count) - |Pick(old(a.objects[i]), request)|)
    ensures a.missing == old(a.missing) + Nils(Pick(old(a.objects[i]), request))
    ensures ledger.objectMap.Some? == old(ledger.objectMap.Some?)
    ensures ledger.released == old(ledger.released) + NonNil(Pick(old(a.objects[i]), request))
    ensures Counts(ledger.objectMap, todo, others)
  {
    hide Counts, NonNil;
    var obj := a.objects[i];
    PickParts(obj, request, todo, ledger.released);
    var p := 0;
    while p < |request|
      invariant p <= |request| && obj !in request[..p]
      invariant unchanged(a) && unchanged(a.objects) && unchanged(ledger)
    {
      if request[p] == obj {
        ClearHit(a, i, ledger, todo, others);
        ledger.CallRelease(obj);
        return;
      }
      p := p + 1;
    }
    assert request[..p] == request;
    assert a.View().slots == a.View().slots[i := obj];
  }

  lemma NothingCounted(m: Option<ObjectCounts>, todo: seq<Id>, others: multiset<Id>)
    ensures m.None? ==> Counts(m, todo, others)
  {
  }

  lemma PickParts(x: Id, request: seq<Id>, todo: seq<Id>, done: seq<Id>)
    ensures x in request ==> Pick(x, request) == [x] && NonNil([x]) == Entry(x)
    ensures x !in request ==> Pick(x, request) == [] && [] + todo == todo && done + NonNil([]) == done && Nils([]) == 0
  {
    assert [x][1..] == [];
  }

  /** The slot loop of ReleaseObjects, over one chunk. */
  method TakeSlots(a: PointerArray, request: seq<Id>, ledger: Ledger, ghost rest: seq<Id>, ghost others: multiset<Id>)
    requires a.Valid()
    requires Counts(ledger.objectMap, Taken(a.View().slots, request) + rest, others)
    modifies a`count, a`missing, a.objects, ledger
    ensures a.View() == ClearChunk(old(a.View()), request)
    ensures ledger.objectMap.Some? == old(ledger.objectMap.Some?)
    ensures ledger.released == old(ledger.released) + NonNil(Taken(old(a.View()).slots, request))
    ensures Counts(ledger.objectMap, rest, others)
  {
    hide Taken, ClearedFrom, Counts, NonNil, Nils, Pick, ClearSlot, Clear;
    ghost var slots := a.View().slots;
    ghost var all, nils := |Taken(slots, request)|, Nils(Taken(slots, request));
    var q: nat := a.used;
    assert slots[..q] == slots;
    ClearedFromEnds(slots, slots, request);
    while q > 0
      invariant q <= a.used && ledger.objectMap.Some? == old(ledger.objectMap.Some?)
      invariant ClearedFrom(a.View().slots, slots, request, q)
      invariant a.count == Wrap(old(a.count) - (all - |Taken(slots[..q], request)|))
      invariant a.missing == old(a.missing) + (nils - Nils(Taken(slots[..q], request)))
      invariant ledger.released + NonNil(Taken(slots[..q], request))
             == old(ledger.released) + NonNil(Taken(slots, request))
      invariant Counts(ledger.objectMap, Taken(slots[..q], request) + rest, others)
    {
      TakenStep(slots, q, request, ledger.released, rest);
      ClearedFromStep(a.View().slots, slots, request, q);
      WrapTwice(old(a.count) - (all - |Taken(slots[..q], request)|), |Pick(slots[q - 1], request)|);
      q := q - 1;
      assert a.objects[q] == a.View().slots[q];
      TakeSlot(a, q, request, ledger, Taken(slots[..q], request) + rest, others);
    }
    ClearedFromEnds(a.View().slots, slots, request);
    TakenEnd(slots, request, ledger.released, rest);
  }

  /** Of a chain from which requested objects are being removed: up to chunk `k` they are
      gone, from there on the chunks are as they were. */
  ghost predicate Cleared(chain: seq<PointerArray>, views: Chain, request: seq<Id>, k: nat)
    reads chain, Stores(chain)
  {
    && |views| == |chain|
    && AllValid(chain)
    && (forall i :: 0 <= i < |chain| ==>
          chain[i].View() == if i < k then ClearChunk(views[i], request) else views[i])
  }

  lemma ClearedBounds(chain: seq<PointerArray>, views: Chain, request: seq<Id>)
    ensures AllValid(chain) ==> Cleared(chain, Views(chain), request, 0)
    ensures Cleared(chain, views, request, |chain|) ==> AllValid(chain) && Views(chain) == ClearChain(views, request)
  {
    hide ClearChunk;
  }

  /** The body of the chunk loop of ReleaseObjects. */
  method TakeChunk(a: PointerArray, request: seq<Id>, ledger: Ledger, ghost chain: seq<PointerArray>,
                   ghost views: Chain, ghost k: nat, ghost others: multiset<Id>)
    requires k < |chain| && a == chain[k]
    requires Cleared(chain, views, request, k) && Apart(chain, k)
    requires Counts(ledger.objectMap, TakenChain(views[k..], request), others)
    modifies a`count, a`missing, a.objects, ledger
    ensures Cleared(chain, views, request, k + 1)
    ensures ledger.objectMap.Some? == old(ledger.objectMap.Some?)
    ensures ledger.released + NonNil(TakenChain(views[k + 1..], request))
         == old(ledger.released) + NonNil(TakenChain(views[k..], request))
    ensures Counts(ledger.objectMap, TakenChain(views[k + 1..], request), others)
  {
    hide ClearChunk, Taken, TakenChain, NonNil, Counts;
    TakenChainStep(views, k, request, ledger.released);
    TakeSlots(a, request, ledger, TakenChain(views[k + 1..], request), others);
  }

  /** Takes everything requested out of the chain, leaving holes, and releases it as often as it
      was there. The map must hold what is taken; `others` is what else it holds. */
  method ReleaseObjects(head: PointerArray, request: seq<Id>, ledger: Ledger,
                        ghost chain: seq<PointerArray>, ghost others: multiset<Id>)
    requires IsChain(head, chain)
    requires Counts(ledger.objectMap, TakenChain(Views(chain), request), others)
    modifies chain`count, chain`missing, Stores(chain), ledger
    ensures IsChain(head, chain) && Views(chain) == ClearChain(old(Views(chain)), request)
    ensures ledger.objectMap.Some? == old(ledger.objectMap.Some?)
    ensures ledger.released == old(ledger.released) + NonNil(TakenChain(old(Views(chain)), request))
    ensures Counts(ledger.objectMap, [], others)
  {
    hide TakenChain, Cleared, Views, Counts, ClearChain, NonNil;
    ghost var views := Views(chain);
    TakenChainEnd(views, request, ledger.released);
    ClearedBounds(chain, views, request);
    var a: PointerArray? := head;
    ghost var k := 0;
    while a != null
      invariant 0 <= k <= |chain| && a == Nth(chain, k)
      invariant Linked(head, chain) && Cleared(chain, views, request, k)
      invariant ledger.objectMap.Some? == old(ledger.objectMap.Some?)
      invariant ledger.released + NonNil(TakenChain(views[k..], request))
             == old(ledger.released) + NonNil(TakenChain(views, request))
      invariant Counts(ledger.objectMap, TakenChain(views[k..], request), others)
      decreases |chain| - k
    {
      TakeChunk(a, request, ledger, chain, views, k, others);
      a := a.previous;
      k := k + 1;
    }
    TakenChainEnd(views, request, ledger.released);
    ClearedBounds(chain, views, request);
  }
}

/** Autorelease pools and the stack of them that each thread has. */
module AutoreleasePools {
  import opened Words
  import opened PoolSpec
  import opened PoolLedger
  import opened PoolStack
  import opened PointerArrays

  ghost predicate Within(chain: seq<PointerArray>, repr: set<object>) {
    forall a :: a in chain ==> a in repr && a.objects in repr
  }

  class AutoreleasePool {
    var owner: AutoreleasePool?
    /** The newest chunk, or null once the pool has been wiped. */
    var storage: PointerArray?
    /** The chunk that lives inside the pool object. */
    const staticStorage: PointerArray
    ghost var chain: seq<PointerArray>
    /** What the chunks hold. */
    ghost var contents: Chain
    /** Every chunk that the pool has ever had. */
    ghost var history: set<PointerArray>
    /** The pool, its chunks and their slots. */
    ghost var repr: set<object>
    /** Whether the memory has been given back. */
    ghost var freed: bool

    ghost predicate Valid()
      reads this, repr
    {
      && !freed && Owns() && OthersGivenBack()
      && IsChain(storage, chain)
      && contents == Views(chain)
    }

    ghost predicate Owns()
      reads this`chain, this`history, this`repr
    {
      && this in repr && Within(chain, repr)
      && (forall a :: a in chain ==> a in history)
      && (forall a :: a in history ==> a in repr)
    }

    lemma OwnsChain()
      requires Owns()
      ensures this in repr && Stores(chain) <= repr && forall a :: a in chain ==> a in repr && a.objects in repr
    {
    }

    /** Chunks that are no longer in the chain have been given back, but for the one inside the
        pool, which is part of it. */
    ghost predicate OthersGivenBack()
      reads this`chain, this`history, history`freed
    {
      forall a :: a in history && a !in chain ==> (a.freed <==> a != staticStorage)
    }

    /** Every chunk that the pool has ever had has been given back, but for the one inside. */
    ghost predicate AllGivenBack()
      reads this`history, history`freed
    {
      forall a :: a in history ==> (a.freed <==> a != staticStorage)
    }

    /** The chunks that have come into the chain are new ones. */
    twostate predicate OnlyNew()
      reads this
    {
      old(history) <= history && forall a :: a in chain ==> a in old(chain) || a !in old(history)
    }

    constructor Create(owner: AutoreleasePool?)
      ensures Valid() && fresh(repr) && contents == [Chunk([], 0, 0)]
      ensures this.owner == owner
    {
      var chunk := new PointerArray.Create(null);
      this.owner := owner;
      storage, staticStorage := chunk, chunk;
      chain := [chunk];
      contents := [Chunk([], 0, 0)];
      history := {chunk};
      repr := {this, chunk, chunk.objects};
      freed := false;
    }

    /** A new chunk in front of the chain. */
    method Grow()
      requires Valid()
      modifies this`storage, this`chain, this`contents, this`history, this`repr
      ensures Valid() && fresh(repr - old(repr)) && OnlyNew()
      ensures storage != null && contents == [Chunk([], 0, 0)] + old(contents)
    {
      hide IsChain, Views;
      var chunk := new PointerArray.Create(storage);
      ChainGrows(chunk, storage, chain);
      storage := chunk;
      chain, contents := [chunk] + chain, [Chunk([], 0, 0)] + contents;
      history := history + {chunk};
      repr := repr + {chunk, chunk.objects};
    }

    /** Sees to it that the newest chunk can take an object. */
    method MakeRoom()
      requires Valid()
      modifies this`storage, this`chain, this`contents, this`history, this`repr
      ensures Valid() && fresh(repr - old(repr)) && OnlyNew()
      ensures storage != null && contents == WithRoom(old(contents))
    {
      var can := CanAddTo(storage, chain);
      if !can {
        Grow();
      }
    }

    method AddObject(p: Id)
      requires Valid() && p != NIL
      modifies repr
      ensures Valid() && fresh(repr - old(repr)) && OnlyNew()
      ensures owner == old(owner) && contents == AddOne(old(contents), p)
    {
      hide Views, IsChain, AddOne, OthersGivenBack, WithRoom;
      AddOneWithRoom(contents, p);
      MakeRoom();
      Append(p);
    }

    /** Puts an object into the newest chunk, which has room. */
    method Append(p: Id)
      requires Valid() && CanAdd(contents) && p != NIL
      modifies repr
      ensures Valid() && repr == old(repr) && chain == old(chain) && history == old(history)
      ensures owner == old(owner) && contents == AddOne(old(contents), p)
    {
      hide Views, IsChain, AddOne, OthersGivenBack, Owns;
      OwnsChain();
      HeadOfChain(storage, chain);
      contents := AddOne(contents, p);
      AddToHead(storage, p, chain);
    }

    /** Copies a run that fits into the newest chunk. */
    method CopyInto(memory: Memory, pos: nat, run: nat, step: nat) returns (next: nat)
      requires Valid() && InBuffer(memory, pos, run, step)
      requires contents != [] && |contents[0].slots| + run <= CAPACITY
      modifies repr
      ensures Valid() && repr == old(repr) && history == old(history) && chain == old(chain) && owner == old(owner)
      ensures next == Skip(pos, run, step) && contents == CopyRun(old(contents), Gather(memory, pos, run, step))
    {
      hide Views, IsChain, Gather, Skip, InBuffer, OthersGivenBack, Owns;
      OwnsChain();
      HeadOfChain(storage, chain);
      contents := CopyRun(contents, Gather(memory, pos, run, step));
      next := CopyToHead(storage, memory, pos, run, step, chain);
    }

    /** One turn of the block copy: a new chunk if need be, and the run that fits. */
    method AddRun(memory: Memory, pos: nat, count: nat, step: nat) returns (next: nat, rest: nat)
      requires Valid() && count > 0 && InBuffer(memory, pos, count, step)
      modifies repr
      ensures Valid() && fresh(repr - old(repr)) && OnlyNew() && owner == old(owner)
      ensures rest < count && InBuffer(memory, next, rest, step)
      ensures AddBlock(contents, Gather(memory, next, rest, step))
           == AddBlock(old(contents), Gather(memory, pos, count, step))
    {
      hide Views, IsChain, Within, AddBlock, CopyRun, Gather, Skip, InBuffer, WithRoom, OthersGivenBack;
      MakeRoom();
      var run := SpaceLeft(storage, chain);
      if count < run {
        run := count;
      }
      GatherSplits(memory, pos, count, step, run);
      AddBlockStep(old(contents), Gather(memory, pos, count, step), run);
      rest := count - run;
      next := CopyInto(memory, pos, run, step);
    }

    /** Copies the request run by run, chunk after chunk. */
    method AddObjects(memory: Memory, amount: nat, step: nat)
      requires Valid() && InBuffer(memory, 0, amount, step)
      modifies repr
      ensures Valid() && fresh(repr - old(repr)) && OnlyNew() && owner == old(owner)
      ensures contents == AddBlock(old(contents), Gather(memory, 0, amount, step))
    {
      hide Views, IsChain, AddBlock, Gather, InBuffer;
      var pos, count := 0, amount;
      while count > 0
        invariant Valid() && fresh(repr - old(repr)) && OnlyNew() && owner == old(owner)
        invariant InBuffer(memory, pos, count, step)
        invariant AddBlock(contents, Gather(memory, pos, count, step))
               == AddBlock(old(contents), Gather(memory, 0, amount, step))
      {
        pos, count := AddRun(memory, pos, count, step);
      }
      AddBlockEnds(contents, Gather(memory, pos, count, step));
    }

    /** Takes everything requested out of this pool, if it has any storage. The map must hold
        what is taken; `others` is what else it holds. */
    method TakeObjects(request: seq<Id>, ledger: Ledger, ghost others: multiset<Id>)
      requires Valid() && Counts(ledger.objectMap, TakenChain(contents, request), others)
      modifies repr, ledger
      ensures Valid() && repr == old(repr) && history == old(history) && chain == old(chain) && owner == old(owner)
      ensures contents == ClearChain(old(contents), request)
      ensures ledger.objectMap.Some? == old(ledger.objectMap.Some?)
      ensures ledger.released == old(ledger.released) + NonNil(TakenChain(old(contents), request))
      ensures Counts(ledger.objectMap, [], others)
    {
      hide IsChain, Views, ClearChain, TakenChain, NonNil, Counts, OthersGivenBack, Owns;
      HeadOfChain(storage, chain);
      NothingToTake(contents, request, ledger.released);
      if storage != null {
        TakeStored(request, ledger, others);
      }
    }

    method TakeStored(request: seq<Id>, ledger: Ledger, ghost others: multiset<Id>)
      requires Valid() && storage != null && Counts(ledger.objectMap, TakenChain(contents, request), others)
      modifies repr, ledger
      ensures Valid() && repr == old(repr) && history == old(history) && chain == old(chain) && owner == old(owner)
      ensures contents == ClearChain(old(contents), request)
      ensures ledger.objectMap.Some? == old(ledger.objectMap.Some?)
      ensures ledger.released == old(ledger.released) + NonNil(TakenChain(old(contents), request))
      ensures Counts(ledger.objectMap, [], others)
    {
      hide IsChain, Views, ClearChain, TakenChain, NonNil, Counts, OthersGivenBack, Owns;
      OwnsChain();
      contents := ClearChain(contents, request);
      ReleaseObjects(storage, request, ledger, chain, others);
    }

    method ContainsObject(p: Id) returns (found: bool)
      requires Valid()
      ensures found <==> SlotsHolding(contents, p) > 0
    {
      HeadOfChain(storage, chain);
      if storage == null {
        return false;
      }
      found := Contains(storage, p, chain);
    }

    method CountObject(p: Id) returns (count: nat)
      requires Valid()
      ensures count == Wrap32(SlotsHolding(contents, p))
    {
      HeadOfChain(storage, chain);
      if storage == null {
        return 0;
      }
      count := PointerArrays.CountObject(storage, p, chain);
    }

    /** The number of autoreleases in this pool, as its chunks count them. */
    method Count() returns (count: nat)
      requires Valid()
      ensures count == CountTotal(contents)
    {
      count := CountAll(storage, chain);
      assert contents == Views(chain);
    }

    /** The storage is detached before it is wiped. */
    method WipeStorage(ledger: Ledger, ghost others: multiset<Id>)
      requires Valid() && storage != null && Counts(ledger.objectMap, [], Live(contents) + others)
      modifies repr, ledger
      ensures Valid() && contents == [] && owner == old(owner) && repr == old(repr) && history == old(history)
      ensures ledger.objectMap.Some? == old(ledger.objectMap.Some?)
      ensures ledger.released == old(ledger.released) + WipeChain(old(contents))
      ensures AllGivenBack()
      ensures Counts(ledger.objectMap, [], others)
    {
      hide Live, WipeChain, Counts, IsChain, Views;
      WipingStarts(ledger.objectMap, contents, others);
      NoChunks();
      var wiped := storage;
      ghost var was := chain;
      storage := null;
      chain, contents := [], [];
      ReleaseAndFree(wiped, staticStorage, ledger, was, others);
      AllBack(was);
    }

    /** The chunks that were wiped last are given back like the others before them. */
    lemma AllBack(wiped: seq<PointerArray>)
      requires GivenBack(wiped, staticStorage, |wiped|)
      requires forall a :: a in history && a !in wiped ==> (a.freed <==> a != staticStorage)
      ensures AllGivenBack()
    {
      forall a | a in history
        ensures a.freed <==> a != staticStorage
      {
        if a in wiped {
          var i :| 0 <= i < |wiped| && wiped[i] == a;
        }
      }
    }

    /** What the objects that are being released autorelease into this pool. */
    method Arrive(objects: seq<Id>, ledger: Ledger, ghost others: multiset<Id>)
      requires Valid() && ledger !in repr && NIL !in objects && Counts(ledger.objectMap, [], Live(contents) + others)
      modifies repr, ledger`objectMap
      ensures Valid() && fresh(repr - old(repr)) && OnlyNew() && owner == old(owner)
      ensures contents == AddEach(old(contents), objects) && (objects == [] ==> repr == old(repr))
      ensures ledger.objectMap.Some? == old(ledger.objectMap.Some?)
      ensures Counts(ledger.objectMap, [], Live(contents) + others)
    {
      hide AddEach, AddOne, Live, Counts, Counted, IsChain, Views, Within;
      ghost var goal := AddEach(contents, objects);
      var i := 0;
      while i < |objects|
        invariant i <= |objects| && Valid() && fresh(repr - old(repr)) && OnlyNew()
        invariant owner == old(owner) && ledger !in repr
        invariant AddEach(contents, objects[i..]) == goal && (i == 0 ==> repr == old(repr))
        invariant ledger.objectMap.Some? == old(ledger.objectMap.Some?)
        invariant Counts(ledger.objectMap, [], Live(contents) + others)
      {
        AddEachStep(contents, objects, i);
        OneMoreIsCounted(ledger.objectMap, contents, objects[i], others);
        ledger.Increment(objects[i]);
        AddObject(objects[i]);
        i := i + 1;
      }
      AddEachDone(contents, objects);
    }

    /** The body of the loop of ReleaseAll. */
    method WipePass(turn: seq<Id>, ledger: Ledger, ghost others: multiset<Id>)
      requires Valid() && storage != null && ledger !in repr && NIL !in turn
      requires Counts(ledger.objectMap, [], Live(contents) + others)
      modifies repr, ledger
      ensures Valid() && fresh(repr - old(repr)) && owner == old(owner) && ledger !in repr
      ensures contents == AddEach([], turn) && (turn == [] ==> repr == old(repr))
      ensures ledger.objectMap.Some? == old(ledger.objectMap.Some?)
      ensures ledger.released == old(ledger.released) + WipeChain(old(contents))
      ensures old(history) <= history && forall a :: a in old(history) ==> (a.freed <==> a != staticStorage)
      ensures Counts(ledger.objectMap, [], Live(contents) + others)
    {
      hide Live, WipeChain, Counts, AddEach, IsChain, Views, Within;
      WipeStorage(ledger, others);
      NothingLive(ledger.objectMap, others);
      Arrive(turn, ledger, others);
    }

    /** Wipes the pool, again and again until nothing is left of it. In pass `i` the objects
        that are released autorelease `turns[i]`. */
    method ReleaseAll(turns: Turns, ledger: Ledger, ghost others: multiset<Id>)
      requires Valid() && ledger !in repr && NilFree(turns)
      requires Counts(ledger.objectMap, [], Live(contents) + others)
      modifies repr, ledger
      ensures Valid() && fresh(repr - old(repr)) && contents == [] && owner == old(owner)
      ensures turns == [] ==> repr == old(repr)
      ensures ledger.objectMap.Some? == old(ledger.objectMap.Some?)
      ensures ledger.released == old(ledger.released) + Drain(old(contents), turns)
      ensures old(history) <= history && AllGivenBack()
      ensures Counts(ledger.objectMap, [], others)
    {
      hide Live, Counts, AddEach, IsChain, Views, Drain, Within;
      var i: nat := 0;
      while storage != null
        invariant i <= |turns| && Valid() && fresh(repr - old(repr)) && owner == old(owner) && ledger !in repr
        invariant old(history) <= history && (turns == [] ==> repr == old(repr))
        invariant ledger.objectMap.Some? == old(ledger.objectMap.Some?)
        invariant ledger.released + Drain(contents, turns[i..]) == old(ledger.released) + Drain(old(contents), turns)
        invariant Counts(ledger.objectMap, [], Live(contents) + others)
        decreases |turns| - i + if storage == null then 0 else 1
      {
        StorageHolds();
        DrainPass(contents, turns, i, ledger.released);
        var turn := if i < |turns| then turns[i] else [];
        WipePass(turn, ledger, others);
        if i < |turns| {
          i := i + 1;
        } else {
          NothingArrives();
          StorageHolds();
        }
      }
      StorageHolds();
      DrainEnds(turns[i..], ledger.released);
      NothingLive(ledger.objectMap, others);
    }

    /** A pool has storage exactly if it has chunks. */
    lemma StorageHolds()
      requires Valid()
      ensures storage == null <==> contents == []
      ensures storage == null <==> chain == []
    {
      hide Owns, OthersGivenBack;
    }

    /** The pool object itself goes. */
    method Free()
      requires !freed
      modifies this`freed
      ensures freed
    {
      freed := true;
    }
  }

  /** What is live before a pool is wiped is what wiping takes off the map. */
  lemma WipingStarts(m: Option<ObjectCounts>, c: Chain, others: multiset<Id>)
    requires Counts(m, [], Live(c) + others)
    ensures Counts(m, WipeChain(c), others)
  {
    hide Live, WipeChain, Represents;
    LiveMatchesWipe(c, others);
  }

  lemma NoChunks()
    ensures IsChain(null, []) && Views([]) == []
  {
  }

  lemma AddEachStep(c: Chain, objects: seq<Id>, i: nat)
    requires i < |objects|
    ensures AddEach(c, objects[i..]) == AddEach(AddOne(c, objects[i]), objects[i + 1..])
  {
    hide AddOne;
    assert objects[i..][1..] == objects[i + 1..];
  }

  lemma AddEachDone(c: Chain, objects: seq<Id>)
    ensures AddEach(c, objects[|objects|..]) == c
  {
  }

  lemma OneMoreIsCounted(m: Option<ObjectCounts>, c: Chain, p: Id, others: multiset<Id>)
    requires Counts(m, [], Live(c) + others) && p != NIL
    ensures Counts(Counted(m, [p]), [], Live(AddOne(c, p)) + others) && Counted(m, [p]).Some? == m.Some?
  {
    hide AddOne, Represents, NoteEach, Inserted;
    if m.Some? {
      AddOneInserts(c, p);
      NoteEachRepresents(m.value, multiset([]) + (Live(c) + others), [p]);
      assert multiset([]) + (Live(AddOne(c, p)) + others) == multiset([]) + (Live(c) + others) + multiset([p]);
    }
  }

  lemma NothingLive(m: Option<ObjectCounts>, others: multiset<Id>)
    ensures Counts(m, [], Live([]) + others) <==> Counts(m, [], others)
  {
    assert Live([]) + others == others;
  }

  lemma NothingArrives()
    ensures AddEach([], []) == []
  {
  }

  /** One pass of many. */
  lemma DrainPass(c: Chain, turns: Turns, i: nat, done: seq<Id>)
    requires c != [] && i <= |turns| && NilFree(turns)
    ensures var turn := if i < |turns| then turns[i] else [];
      done + Drain(c, turns[i..])
      == (done + WipeChain(c)) + Drain(AddEach([], turn), turns[if i < |turns| then i + 1 else i..])
  {
    hide AddEach, WipeChain, Later;
    var rest := turns[i..];
    ConcatIsAssociative(done, WipeChain(c), Later(rest));
    if i < |turns| {
      assert rest[1..] == turns[i + 1..];
      DrainStep(rest);
    } else {
      assert rest == [];
      NothingArrives();
      NoTurnsLater();
    }
  }

  lemma NoTurnsLater()
    ensures Later([]) == []
  {
  }

  lemma DrainEnds(turns: Turns, done: seq<Id>)
    ensures done + Drain([], turns) == done
  {
  }

  function NthPool(pools: seq<AutoreleasePool>, i: nat): AutoreleasePool? {
    if i < |pools| then pools[i] else null
  }

  /** `tail` heads the pools, innermost first. */
  ghost predicate Owned(tail: AutoreleasePool?, pools: seq<AutoreleasePool>)
    reads pools`owner
  {
    && tail == NthPool(pools, 0)
    && forall i {:trigger pools[i].owner} :: 0 <= i < |pools| ==> pools[i].owner == NthPool(pools, i + 1)
  }

  /** The pools share nothing with each other. */
  ghost predicate Separate(pools: seq<AutoreleasePool>)
    reads pools`repr
  {
    forall i, k :: 0 <= i < k < |pools| ==> pools[i].repr !! pools[k].repr
  }

  /** A stack of valid pools that lies within `repr`. */
  ghost predicate IsStack(tail: AutoreleasePool?, pools: seq<AutoreleasePool>, repr: set<object>)
    reads repr
  {
    && (forall p :: p in pools ==> p in repr && p.repr <= repr && p.Valid())
    && Separate(pools) && Owned(tail, pools)
  }

  /** What the pools hold, innermost first. */
  ghost function Contents(pools: seq<AutoreleasePool>): (v: seq<Chain>)
    reads pools`contents
    ensures |v| == |pools|
    ensures forall i :: 0 <= i < |pools| ==> v[i] == pools[i].contents
  {
    if pools == [] then [] else [pools[0].contents] + Contents(pools[1..])
  }

  /** The pool has been given back, and with it every chunk that it ever had. */
  ghost predicate Gone(pool: AutoreleasePool)
    reads pool, pool.history
  {
    pool.freed && pool.AllGivenBack()
  }

  /** Every chunk that one of these pools has ever had. */
  ghost function Histories(pools: seq<AutoreleasePool>): set<object>
    reads pools`history
  {
    set p, a | p in pools && a in p.history :: a
  }

  ghost predicate AllGone(pools: seq<AutoreleasePool>)
    reads pools, Histories(pools)
  {
    forall p :: p in pools ==> (forall a :: a in p.history ==> a in Histories(pools)) && Gone(p)
  }

  lemma OneMoreGone(pools: seq<AutoreleasePool>, n: nat)
    requires n < |pools| && AllGone(pools[..n]) && Gone(pools[n])
    ensures AllGone(pools[..n + 1])
  {
    hide Gone;
    assert pools[..n + 1] == pools[..n] + [pools[n]];
  }

  ghost function Reprs(pools: seq<AutoreleasePool>): set<object>
    reads pools`repr
  {
    set p, o | p in pools && o in p.repr :: o
  }

  /** A stack is its innermost pool and the stack below, which share nothing. */
  lemma StackSplits(tail: AutoreleasePool?, pools: seq<AutoreleasePool>, repr: set<object>)
    requires IsStack(tail, pools, repr)
    ensures tail == null <==> pools == []
    ensures tail != null ==>
      && pools == [tail] + pools[1..] && tail in repr && tail.repr <= repr && tail.Valid()
      && IsStack(tail.owner, pools[1..], Reprs(pools[1..]))
      && (forall p :: p in pools[1..] ==> p in Reprs(pools[1..]))
      && tail.repr !! Reprs(pools[1..]) && Reprs(pools[1..]) <= repr
      && Contents(pools) != [] && Contents(pools)[0] == tail.contents
      && Contents(pools)[1..] == Contents(pools[1..])
  {
    hide AutoreleasePool.Valid;
    if pools != [] {
      OuterIsStack(tail, pools, repr);
    }
  }

  lemma OuterIsStack(tail: AutoreleasePool?, pools: seq<AutoreleasePool>, repr: set<object>)
    requires pools != [] && IsStack(tail, pools, repr)
    ensures IsStack(tail.owner, pools[1..], Reprs(pools[1..]))
    ensures forall p :: p in pools[1..] ==> p in Reprs(pools[1..])
    ensures tail.repr !! Reprs(pools[1..]) && Reprs(pools[1..]) <= repr
  {
    hide AutoreleasePool.Valid, Owned;
    var outer := pools[1..];
    OuterIsOwned(tail, pools);
    forall p | p in outer
      ensures p in pools && p in p.repr && p.repr !! tail.repr
    {
      ValidIsWithin(p);
    }
  }

  lemma OuterIsOwned(tail: AutoreleasePool?, pools: seq<AutoreleasePool>)
    requires pools != [] && Owned(tail, pools)
    ensures tail == pools[0] && Owned(tail.owner, pools[1..])
  {
    assert pools[0].owner == NthPool(pools, 1);
    forall i {:trigger pools[1..][i].owner} | 0 <= i < |pools[1..]|
      ensures pools[1..][i].owner == NthPool(pools[1..], i + 1)
    {
      assert pools[i + 1].owner == NthPool(pools, i + 2);
    }
  }

  /** One pool of a stack and the others. */
  lemma StackApart(tail: AutoreleasePool?, pools: seq<AutoreleasePool>, repr: set<object>, k: nat)
    requires IsStack(tail, pools, repr) && k < |pools|
    ensures forall i :: 0 <= i < |pools| && i != k ==> pools[i].repr !! pools[k].repr && pools[i] !in pools[k].repr
  {
    hide AutoreleasePool.Valid, Owned;
    forall i | 0 <= i < |pools| && i != k
      ensures pools[i].repr !! pools[k].repr && pools[i] !in pools[k].repr
    {
      ValidIsWithin(pools[i]);
    }
  }

  lemma ValidIsWithin(p: AutoreleasePool)
    ensures p.Valid() ==> p in p.repr && p.history <= p.repr
  {
  }

  lemma ValidIsBounded(p: AutoreleasePool)
    ensures p.Valid() ==> Bounded(p.contents)
  {
  }

  lemma StackJoins(tail: AutoreleasePool, outer: seq<AutoreleasePool>, outerRepr: set<object>, repr: set<object>)
    requires tail.Valid() && IsStack(tail.owner, outer, outerRepr)
    requires tail.repr !! outerRepr && tail.repr + outerRepr <= repr
    ensures IsStack(tail, [tail] + outer, repr)
    ensures Contents([tail] + outer) == [tail.contents] + Contents(outer)
  {
    ValidIsWithin(tail);
    hide AutoreleasePool.Valid;
    var pools := [tail] + outer;
    assert pools[1..] == outer;
    forall i {:trigger pools[i].owner} | 0 <= i < |pools|
      ensures pools[i].owner == NthPool(pools, i + 1)
    {
      assert i > 0 ==> outer[i - 1].owner == NthPool(outer, i);
    }
  }
}

/** The stack of autorelease pools of one thread, updated in place. */
module PoolConfigurations {
  import opened Words
  import opened PoolSpec
  import opened PoolLedger
  import opened PoolStack
  import opened PointerArrays
  import opened AutoreleasePools

  class PoolConfiguration {
    /** The innermost pool. */
    var tail: AutoreleasePool?
    var releasing: bool
    const ledger: Ledger
    /** Objects whose retain count is pinned: they are never put into a pool. */
    const constants: set<Id>
    ghost var pools: seq<AutoreleasePool>
    /** All the pools, their chunks and slots. */
    ghost var repr: set<object>
    /** What the map holds besides, once it has counted what was not autoreleased. */
    ghost var surplus: multiset<Id>

    ghost predicate Structured()
      reads this, repr
    {
      IsStack(tail, pools, repr) && this !in repr && ledger !in repr
    }

    /** The map, if there is one, holds the number of live autoreleases of every object, and
        the surplus. */
    ghost predicate Valid()
      reads this, repr, ledger
    {
      Structured() && Counts(ledger.objectMap, [], LiveAll(Contents(pools)) + surplus)
    }

    ghost function View(): State
      reads this, pools, ledger
    {
      State(Contents(pools), ledger.released)
    }

    constructor (counting: bool, constants: set<Id>)
      ensures Valid() && repr == {} && fresh(ledger) && View() == State([], []) && surplus == multiset{}
      ensures this.constants == constants && ledger.objectMap.Some? == counting
    {
      tail, releasing := null, false;
      ledger := new Ledger(counting);
      this.constants := constants;
      pools, repr, surplus := [], {}, multiset{};
    }

    method Push()
      requires Valid()
      modifies this
      ensures Valid() && Leads(old(View()), Command.Push, constants, View())
      ensures fresh(repr - old(repr)) && fresh(tail) && pools == [tail] + old(pools) && surplus == old(surplus)
    {
      hide AutoreleasePool.Valid, IsStack, Contents, Live, LiveAll, Counts;
      PushedLive(Contents(pools));
      var pool := new AutoreleasePool.Create(tail);
      StackJoins(pool, pools, repr, repr + pool.repr);
      tail, releasing := pool, false;
      pools, repr := [pool] + pools, repr + pool.repr;
    }

    /** Adds to the innermost pool. */
    method AddObject(p: Id)
      requires Structured() && tail != null && p != NIL
      modifies this`repr, repr
      ensures Structured() && fresh(repr - old(repr)) && Contents(pools) != []
      ensures Contents(pools) == [AddOne(old(Contents(pools))[0], p)] + old(Contents(pools))[1..]
    {
      hide AutoreleasePool.Valid, IsStack, Contents, AddOne;
      StackSplits(tail, pools, repr);
      ghost var outer := pools[1..];
      ghost var outerRepr := Reprs(outer);
      tail.AddObject(p);
      StackJoins(tail, outer, outerRepr, repr + tail.repr);
      repr := repr + tail.repr;
    }

    /** Adds a buffer of objects to the innermost pool. */
    method AddObjects(memory: Memory, count: nat, step: nat)
      requires Structured() && tail != null && InBuffer(memory, 0, count, step)
      modifies this`repr, repr
      ensures Structured() && fresh(repr - old(repr))
      ensures Contents(pools)
           == [AddBlock(old(Contents(pools))[0], Gather(memory, 0, count, step))] + old(Contents(pools))[1..]
    {
      hide AutoreleasePool.Valid, IsStack, Contents, AddBlock, Gather, InBuffer;
      StackSplits(tail, pools, repr);
      ghost var outer := pools[1..];
      ghost var outerRepr := Reprs(outer);
      tail.AddObjects(memory, count, step);
      StackJoins(tail, outer, outerRepr, repr + tail.repr);
      repr := repr + tail.repr;
    }

    lemma StackSize()
      requires Valid()
      ensures |View().pools| == |pools| && (tail == null <==> pools == [])
    {
      hide AutoreleasePool.Valid, IsStack, Contents, Counts;
      StackSplits(tail, pools, repr);
    }

    lemma InnermostIsBounded()
      requires Valid() && tail != null
      ensures Contents(pools) != [] && Bounded(Contents(pools)[0])
    {
      hide AutoreleasePool.Valid, IsStack, Contents, Counts, Bounded;
      StackSplits(tail, pools, repr);
      ValidIsBounded(tail);
    }

    /** Autoreleasing one object. */
    method Autorelease(p: Id)
      requires Valid() && p != NIL
      modifies this`repr, repr, ledger
      ensures Valid() && Leads(old(View()), Command.Autorelease(p), constants, View())
      ensures fresh(repr - old(repr)) && ledger.objectMap.Some? == old(ledger.objectMap.Some?)
    {
      hide IsStack, Contents, Live, LiveAll, Counts, Counted, AddOne, Leads, Inserted;
      StackSize();
      ghost var was := View();
      AutoreleaseLeads(was, p, constants);
      if p in constants {
        return;
      }
      if tail == null {
        return;
      }
      ghost var views := Contents(pools);
      ledger.Increment(p);
      AddObject(p);
      AddOneInserts(views[0], p);
      CountsGrow(old(ledger.objectMap), ledger.objectMap, views, AddOne(views[0], p), [p], [p], surplus, surplus);
      assert View() == State([AddOne(was.pools[0], p)] + was.pools[1..], was.released);
    }

    /** Autoreleasing a buffer of objects, which may lie `step` bytes apart. The map counts the
        words at the beginning of the buffer, whatever the step. It will do as long as it holds
        at least what is live. */
    method AutoreleaseMany(memory: Memory, count: nat, step: nat)
      requires Valid() && step >= WORD && InBuffer(memory, 0, count, step)
      requires NIL !in Gather(memory, 0, count, step)
      modifies this`repr, this`surplus, repr, ledger
      ensures Structured() && fresh(repr - old(repr)) && tail == old(tail) && pools == old(pools)
      ensures Leads(old(View()), Command.AutoreleaseMany(Gather(memory, 0, count, step)), constants, View())
      ensures ledger.objectMap
           == Counted(old(ledger.objectMap), if tail == null then [] else CountedWords(memory, count, step))
      ensures tail == null
              || multiset(Gather(memory, 0, count, step)) <= old(surplus) + multiset(CountedWords(memory, count, step))
          ==> Valid()
      ensures tail == null || CountedRight(memory, count, step) ==> surplus == old(surplus)
    {
      hide IsStack, Contents, Live, LiveAll, Counts, AddBlock, Gather, InBuffer, Counted, Leads,
           CountedWords, Inserted, Bounded, CountedRight;
      StackSize();
      ghost var objects, counted, was := Gather(memory, 0, count, step), CountedWords(memory, count, step), View();
      AutoreleaseManyLeads(was, objects, constants);
      CountedNothing(ledger.objectMap);
      WordsCounted(memory, count, step);
      assert |objects| == count && was.pools == Contents(pools);
      if count == 0 {
        return;
      }
      if tail == null {
        return;
      }
      InnermostIsBounded();
      ledger.IncrementEach(memory, count);
      AddObjects(memory, count, step);
      assert View() == State([AddBlock(was.pools[0], objects)] + was.pools[1..], was.released);
      surplus := surplus + multiset(counted) - multiset(objects);
      assert multiset(counted) == multiset(objects) ==> surplus == old(surplus);
      if multiset(objects) <= old(surplus) + multiset(counted) {
        AddBlockInserts(was.pools[0], objects);
        assert multiset(objects) + surplus == old(surplus) + multiset(counted);
        CountsGrow(old(ledger.objectMap), ledger.objectMap, was.pools, AddBlock(was.pools[0], objects),
                   objects, counted, old(surplus), surplus);
      }
    }

    /** Takes what is requested out of the innermost pool. With the map on, it must have counted
        as many nils as there are holes that pass for one. */
    method TakeFromInnermost(request: seq<Id>)
      requires Valid()
      requires ledger.objectMap.Some? && pools != []
        ==> Nils(TakenChain(Contents(pools)[0], request)) <= Lookup(ledger.objectMap.value, NIL)
      modifies this`surplus, repr, ledger
      ensures Valid() && Leads(old(View()), Command.TakeFromInnermost(request), constants, View())
      ensures ledger.objectMap.Some? == old(ledger.objectMap.Some?)
      ensures surplus
           == old(surplus) - if pools == [] then multiset{} else NilsOf(TakenChain(old(Contents(pools))[0], request))
    {
      hide AutoreleasePool.Valid, IsStack, Contents, Live, LiveAll, Counts, ClearChain, TakenChain, NonNil,
           Nils, NilsOf, Lookup;
      StackSplits(tail, pools, repr);
      if tail == null {
        return;
      }
      ghost var outer, views := pools[1..], Contents(pools);
      ghost var outerRepr, nils := Reprs(outer), NilsOf(TakenChain(views[0], request));
      HeadAndRest(views, views[0], surplus);
      HeadAndRest(views, ClearChain(views[0], request), surplus - nils);
      NilIsSurplus(ledger.objectMap, views, surplus);
      LiveAllHasNoNil(views[1..]);
      RemovalStarts(ledger.objectMap, views[0], request, LiveAll(views[1..]), surplus);
      tail.TakeObjects(request, ledger, Live(ClearChain(views[0], request)) + (LiveAll(views[1..]) + (surplus - nils)));
      assert Contents(outer) == views[1..];
      StackJoins(tail, outer, outerRepr, repr);
      surplus := surplus - nils;
    }

    /** The body of the loop of TakeFromAll. */
    method TakeFromPool(pool: AutoreleasePool, request: seq<Id>, ghost k: nat)
      requires Valid() && k < |pools| && pool == pools[k]
      requires ledger.objectMap.Some? ==> Nils(TakenChain(Contents(pools)[k], request)) <= surplus[NIL]
      modifies this`surplus, repr, ledger
      ensures Valid() && tail == old(tail) && pool.owner == old(pool.owner)
      ensures Contents(pools) == old(Contents(pools))[k := ClearChain(old(Contents(pools))[k], request)]
      ensures ledger.objectMap.Some? == old(ledger.objectMap.Some?)
      ensures ledger.released == old(ledger.released) + NonNil(TakenChain(old(Contents(pools))[k], request))
      ensures surplus == old(surplus) - NilsOf(TakenChain(old(Contents(pools))[k], request))
    {
      hide AutoreleasePool.Valid, Contents, Live, LiveAll, Counts, ClearChain, TakenChain, NonNil, Nils, NilsOf;
      ghost var views := Contents(pools);
      ghost var others, nils := LiveAll(views[..k]) + LiveAll(views[k + 1..]), NilsOf(TakenChain(views[k], request));
      OneOfMany(views, k, views[k], surplus);
      OneOfMany(views, k, ClearChain(views[k], request), surplus - nils);
      StackApart(tail, pools, repr, k);
      LiveAllHasNoNil(views[..k]);
      LiveAllHasNoNil(views[k + 1..]);
      RemovalStarts(ledger.objectMap, views[k], request, others, surplus);
      pool.TakeObjects(request, ledger, Live(ClearChain(views[k], request)) + (others + (surplus - nils)));
      assert Contents(pools) == views[k := ClearChain(views[k], request)];
      surplus := surplus - nils;
    }

    /** Takes what is requested out of all pools, under the same condition. */
    method TakeFromAll(request: seq<Id>)
      requires Valid()
      requires ledger.objectMap.Some?
        ==> Nils(TakenPools(Contents(pools), request)) <= Lookup(ledger.objectMap.value, NIL)
      modifies this`surplus, repr, ledger
      ensures Valid() && Leads(old(View()), Command.TakeFromAll(request), constants, View())
      ensures ledger.objectMap.Some? == old(ledger.objectMap.Some?)
      ensures surplus == old(surplus) - NilsOf(TakenPools(old(Contents(pools)), request))
    {
      hide AutoreleasePool.Valid, Contents, LiveAll, Counts, Separate, Swept, Leads, ClearChain, TakenChain, TakenPools,
           NonNil, Nils, NilsOf, Lookup;
      ghost var start, before := View(), surplus;
      SweptEnds(start, request, constants);
      NilIsSurplus(ledger.objectMap, start.pools, surplus);
      HolesEnd(start.pools, request, surplus);
      var pool := tail;
      ghost var k := 0;
      while pool != null
        invariant 0 <= k <= |pools| == |start.pools| && pool == NthPool(pools, k)
        invariant Valid() && View() == Swept(start, request, k)
        invariant ledger.objectMap.Some? == old(ledger.objectMap.Some?)
        invariant ledger.objectMap.Some? ==> Nils(TakenPools(start.pools[k..], request)) <= surplus[NIL]
        invariant surplus == before - NilsOf(TakenPools(start.pools[..k], request))
        decreases |pools| - k
      {
        SweptStep(start, request, k);
        HolesStep(start.pools, request, k, before);
        TakeFromPool(pool, request, k);
        pool := pool.owner;
        k := k + 1;
      }
      assert k == |start.pools| && View() == Swept(start, request, |start.pools|);
    }

    /** Empties the innermost pool, which stays in place. In pass `i` the objects that are
        released autorelease `turns[i]`, which goes into this pool. */
    method ReleaseAllInnermost(turns: Turns)
      requires Valid() && tail != null && NilFree(turns)
      modifies this`repr, tail.repr, ledger
      ensures Valid() && tail.owner == old(tail.owner) && fresh(repr - old(repr))
      ensures old(Contents(pools)) != [] && Contents(pools) == [[]] + old(Contents(pools))[1..]
      ensures ledger.released == old(ledger.released) + Drain(old(Contents(pools))[0], turns)
      ensures ledger.objectMap.Some? == old(ledger.objectMap.Some?)
      ensures old(tail.history) <= tail.history && tail.AllGivenBack()
      ensures pools != [] && old(pools) != []
      ensures Reprs(pools[1..]) == old(Reprs(pools[1..]))
      ensures forall p :: p in pools[1..] ==> p.history == old(p.history)
    {
      hide AutoreleasePool.Valid, IsStack, Contents, Reprs, Live, LiveAll, Counts, Drain, AutoreleasePool.AllGivenBack;
      StackSplits(tail, pools, repr);
      ghost var outer, views := pools[1..], Contents(pools);
      ghost var outerRepr := Reprs(outer);
      HeadAndRest(views, views[0], surplus);
      EmptyInnermost(views);
      tail.ReleaseAll(turns, ledger, LiveAll(views[1..]) + surplus);
      assert Contents(outer) == views[1..];
      StackJoins(tail, outer, outerRepr, repr + tail.repr);
      repr := repr + tail.repr;
    }

    /** Empties a pool further out. */
    method ReleaseAllOuter(pool: AutoreleasePool, ghost k: nat)
      requires Valid() && 0 < k < |pools| && pool == pools[k]
      modifies pool.repr, ledger
      ensures Structured() && tail == old(tail)
      ensures Contents(pools) == old(Contents(pools))[k := []]
      ensures ledger.released == old(ledger.released) + WipeChain(old(Contents(pools))[k])
      ensures ledger.objectMap.Some? == old(ledger.objectMap.Some?)
      ensures Counts(ledger.objectMap, [], LiveAll(Contents(pools)) + surplus)
      ensures old(pool.history) <= pool.history && pool.AllGivenBack() && pool.history <= pool.repr
    {
      hide AutoreleasePool.Valid, Contents, Live, LiveAll, Counts, WipeChain, Later, AutoreleasePool.AllGivenBack;
      ghost var views := Contents(pools);
      ghost var others := LiveAll(views[..k]) + LiveAll(views[k + 1..]) + surplus;
      OneOfMany(views, k, views[k], surplus);
      OneOfMany(views, k, [], surplus);
      StackApart(tail, pools, repr, k);
      OnePass(views[k]);
      pool.ReleaseAll([], ledger, others);
      ValidIsWithin(pool);
      assert Contents(pools) == views[k := []];
    }

    /** What arrives in the innermost pool while another one is wiped. */
    method ArriveInnermost(objects: seq<Id>)
      requires Valid() && tail != null && NIL !in objects
      modifies this`repr, tail.repr, ledger`objectMap
      ensures Valid() && tail == old(tail) && fresh(repr - old(repr))
      ensures old(Contents(pools)) != []
      ensures Contents(pools) == [AddEach(old(Contents(pools))[0], objects)] + old(Contents(pools))[1..]
      ensures ledger.objectMap.Some? == old(ledger.objectMap.Some?)
    {
      hide AutoreleasePool.Valid, IsStack, Contents, Reprs, Live, LiveAll, Counts, AddEach;
      StackSplits(tail, pools, repr);
      ghost var outer, views := pools[1..], Contents(pools);
      ghost var outerRepr := Reprs(outer);
      HeadAndRest(views, views[0], surplus);
      HeadAndRest(views, AddEach(views[0], objects), surplus);
      tail.Arrive(objects, ledger, LiveAll(views[1..]) + surplus);
      assert Contents(outer) == views[1..];
      StackJoins(tail, outer, outerRepr, repr + tail.repr);
      repr := repr + tail.repr;
    }

    /** Wipes a pool of the stack, which stays in place. */
    method ReleaseAllPoolObjects(pool: AutoreleasePool, ghost k: nat, turns: Turns)
      requires Valid() && k < |pools| && pool == pools[k] && NilFree(turns)
      modifies this`repr, repr, ledger
      ensures Valid() && Leads(old(View()), Command.Wipe(k, turns), constants, View())
      ensures ledger.objectMap.Some? == old(ledger.objectMap.Some?)
      ensures old(pool.history) <= pool.history && pool.AllGivenBack()
    {
      hide AutoreleasePool.Valid, Contents, Live, LiveAll, Counts, WipeChain, Drain, AddEach, Leads;
      ghost var was := View();
      WipeLeads(was, k, turns, constants);
      TailIsFirst(tail, pools, repr, k);
      if pool == tail {
        ReleaseAllInnermost(turns);
        assert View() == Wiped(was, k, turns);
        return;
      }
      StorageIsContents(pool);
      var stored := pool.storage != null;
      ReleaseAllOuter(pool, k);
      assert tail.repr == old(tail.repr);
      var objects := if stored && |turns| > 0 then turns[0] else [];
      ArriveInnermost(objects);
      assert View() == Wiped(was, k, turns);
    }

    /** The stack below the innermost pool becomes the whole stack. */
    method Unlink(ghost outer: seq<AutoreleasePool>, ghost outerRepr: set<object>)
      requires tail != null && IsStack(tail.owner, outer, outerRepr) && this !in outerRepr && ledger !in outerRepr
      requires Counts(ledger.objectMap, [], LiveAll(Contents(outer)) + surplus)
      modifies this
      ensures Valid() && tail == old(tail.owner) && pools == outer && repr == outerRepr && surplus == old(surplus)
      ensures Contents(pools) == old(Contents(outer))
      ensures releasing == (tail == null)
    {
      hide IsStack, Contents, LiveAll, Counts;
      tail, pools, repr, releasing := tail.owner, outer, outerRepr, tail.owner == null;
    }

    /** The emptied innermost pool leaves the stack and is given back. */
    method LeavePool()
      requires Valid() && tail != null
      requires Contents(pools) != [] && Contents(pools)[0] == []
      modifies this, tail`freed
      ensures Valid() && pools == old(pools)[1..] && repr == old(Reprs(pools[1..])) && surplus == old(surplus)
      ensures Contents(pools) == old(Contents(pools))[1..]
      ensures old(tail).freed && releasing == (tail == null)
    {
      hide AutoreleasePool.Valid, IsStack, Contents, Reprs, Live, LiveAll, Counts;
      StackSplits(tail, pools, repr);
      HeadAndRest(Contents(pools), [], surplus);
      EmptyInnermost(Contents(pools));
      var pool := tail;
      ValidIsAlive(pool);
      ValidIsWithin(pool);
      Unlink(pools[1..], Reprs(pools[1..]));
      pool.Free();
    }

    /** The body of the loop of Pop: the innermost pool is wiped and leaves the stack, and is
        given back with every chunk that it ever had. */
    method PopOne(turns: Turns)
      requires Valid() && tail != null && NilFree(turns)
      modifies this, repr, ledger
      ensures Valid() && old(pools) != [] && pools == old(pools)[1..] && surplus == old(surplus)
      ensures Leads(old(View()), Command.Pop(0, [turns]), constants, View())
      ensures ledger.objectMap.Some? == old(ledger.objectMap.Some?)
      ensures repr == old(Reprs(pools[1..])) && forall p :: p in pools ==> p.history == old(p.history)
      ensures Gone(old(tail)) && old(tail.history) <= old(tail).history && LeftBehind([old(tail)], repr)
    {
      hide AutoreleasePool.Valid, AutoreleasePool.AllGivenBack, IsStack, Contents, Reprs, Live, LiveAll, Counts,
           Drain, Leads;
      var pool := tail;
      StackSplits(tail, pools, repr);
      PopInnermost(View(), turns, constants);
      releasing := true;
      ReleaseAllInnermost(turns);
      StackSplits(tail, pools, repr);
      ValidIsWithin(pool);
      LeavePool();
      LeftBehindOne(pool, repr);
    }

    /** One turn of the popping loop, `n` pools into the stack it started with. */
    method PopNext(ghost all: seq<AutoreleasePool>, ghost start: State, each: seq<Turns>, n: nat)
        returns (pool: AutoreleasePool)
      requires Valid() && tail != null && n < |all| == |start.pools| && Allowed(start, Command.Pop(n, each))
      requires pools == all[n..] && View() == Popped(start, each, n)
      requires AllGone(all[..n]) && LeftBehind(all[..n], repr)
      modifies this, repr, ledger
      ensures Valid() && pools == all[n + 1..] && repr <= old(repr)
      ensures View() == Popped(start, each, n + 1) && Leads(start, Command.Pop(n, each), constants, View())
      ensures pool == all[n] && surplus == old(surplus) && ledger.objectMap.Some? == old(ledger.objectMap.Some?)
      ensures AllGone(all[..n + 1]) && LeftBehind(all[..n + 1], repr)
      ensures forall p :: p in all ==> old(p.history) <= p.history
    {
      hide AutoreleasePool.Valid, IsStack, Contents, Reprs, LiveAll, Counts, DrainPools, Popped, Leads, AllGone, Gone;
      StackSplits(tail, pools, repr);
      PoppedStep(start, each, n, constants);
      DropOneMore(all, n);
      assert tail == all[n];
      pool := tail;
      PopOne(Passes(each, n));
      assert AllGone(all[..n]);
      OneMoreGone(all, n);
      LeftBehindMore(all, n, repr);
    }

    /** Pops all pools from the innermost one down to and including `aPool`; `each[i]` is what
        arrives in pool `i` while it is wiped. If there is no such pool, all are popped before
        the program is aborted, which is `ok` false. */
    method Pop(aPool: AutoreleasePool, each: seq<Turns>) returns (ok: bool, depth: nat)
      requires Valid() && forall i :: 0 <= i < |each| ==> NilFree(each[i])
      modifies this, repr, ledger
      ensures Valid() && ledger.objectMap.Some? == old(ledger.objectMap.Some?) && depth <= |old(pools)|
      ensures ok ==> depth < |old(pools)| && old(pools)[depth] == aPool && pools == old(pools)[depth + 1..]
                     && Leads(old(View()), Command.Pop(depth, each), constants, View())
      ensures !ok ==> pools == [] && depth == |old(pools)| && Emptied(old(View()), each, View())
      ensures !ok ==> forall i :: 0 <= i < |old(pools)| ==> old(pools)[i] != aPool
      ensures AllGone(old(pools)[..if ok then depth + 1 else depth])
      ensures forall p :: p in old(pools) ==> old(p.history) <= p.history
    {
      hide *;
      ghost var start, all := View(), pools;
      var n := 0;
      PoppedEnds(start, each);
      NothingGone(all, repr);
      StackSize();
      while true
        invariant n <= |all| == |start.pools|
        invariant pools == all[n..] && repr <= old(repr)
        invariant Valid() && ledger.objectMap.Some? == old(ledger.objectMap.Some?)
        invariant View() == Popped(start, each, n)
        invariant AllGone(all[..n]) && LeftBehind(all[..n], repr)
        invariant forall p :: p in all ==> old(p.history) <= p.history
        invariant forall i :: 0 <= i < n ==> all[i] != aPool
        decreases |all| - n
      {
        StackSize();
        if tail == null {
          assert n == |all|;
          return false, n;
        }
        PopIsAllowed(start, each, n);
        var pool := PopNext(all, start, each, n);
        n := n + 1;
        if pool == aPool {
          return true, n - 1;
        }
      }
    }

    /** How often `p` is autoreleased in this thread, all pools together, and what the map holds
        besides. */
    method CountObject(p: Id) returns (count: nat)
      requires Valid()
      ensures count == if ledger.objectMap.Some? then LiveAll(Contents(pools))[p] + surplus[p]
                       else Wrap(ScanSum(Contents(pools), p))
    {
      hide AutoreleasePool.Valid, Contents, LiveAll, ScanSum, SlotsHolding;
      if ledger.objectMap.Some? {
        count := Lookup(ledger.objectMap.value, p);
        return;
      }
      ghost var views := Contents(pools);
      var pool := tail;
      ghost var k, sum := 0, 0;
      count := 0;
      ScanEnds(views, p);
      while pool != null
        invariant 0 <= k <= |pools| && pool == NthPool(pools, k)
        invariant count == Wrap(sum) && sum + ScanSum(views[k..], p) == ScanSum(views, p)
        decreases |pools| - k
      {
        ScanStep(views, k, p);
        var n := pool.CountObject(p);
        WrapSum(sum, AsInt(n));
        count, sum := Wrap(count + AsInt(n)), sum + AsInt(n);
        pool := pool.owner;
        k := k + 1;
      }
      ScanEnds(views, p);
    }

    /** Whether `p` is in some pool of this thread. */
    method ContainsObject(p: Id) returns (found: bool)
      requires Valid()
      ensures found <==> if ledger.objectMap.Some? then p in LiveAll(Contents(pools)) + surplus
                         else exists i :: 0 <= i < |pools| && SlotsHolding(pools[i].contents, p) > 0
    {
      hide AutoreleasePool.Valid, Contents, LiveAll, SlotsHolding;
      if ledger.objectMap.Some? {
        found := Lookup(ledger.objectMap.value, p) != 0;
        return;
      }
      var pool := tail;
      ghost var k := 0;
      while pool != null
        invariant 0 <= k <= |pools| && pool == NthPool(pools, k)
        invariant forall i :: 0 <= i < k ==> SlotsHolding(pools[i].contents, p) == 0
        decreases |pools| - k
      {
        var here := pool.ContainsObject(p);
        if here {
          return true;
        }
        pool := pool.owner;
        k := k + 1;
      }
      return false;
    }
  }

  /** What has been counted are the words that were looked at. */
  lemma WordsCounted(memory: Memory, count: nat, step: nat)
    requires InBuffer(memory, 0, count, step) && step >= WORD
    ensures InBuffer(memory, 0, count, WORD) && CountedWords(memory, count, step) == Gather(memory, 0, count, WORD)
    ensures CountedRight(memory, count, step)
       <==> multiset(CountedWords(memory, count, step)) == multiset(Gather(memory, 0, count, step))
  {
    WordsFit(memory, 0, 0, count, step);
  }

  /** What the map holds before a removal is what the removal takes and what it leaves; holes
      that are taken come off the surplus. */
  lemma RemovalStarts(m: Option<ObjectCounts>, c: Chain, request: seq<Id>, rest: multiset<Id>, surplus: multiset<Id>)
    requires Counts(m, [], Live(c) + (rest + surplus)) && NIL !in rest
    requires m.Some? ==> Nils(TakenChain(c, request)) <= surplus[NIL]
    ensures var taken := TakenChain(c, request);
      Counts(m, taken, Live(ClearChain(c, request)) + (rest + (surplus - NilsOf(taken))))
  {
    hide Live, TakenChain, ClearChain, Represents, NonNil, NilsOf, Nils;
    var taken := TakenChain(c, request);
    if m.Some? {
      RemovalConserves(c, request);
      NilsAndOthers(taken);
      NilsFit(taken, surplus);
      var left, live, nils := Live(ClearChain(c, request)), multiset(NonNil(taken)), NilsOf(taken);
      assert multiset([]) + ((left + live) + (rest + surplus)) == (live + nils) + (left + (rest + (surplus - nils)));
    }
  }

  lemma NilsFit(taken: seq<Id>, surplus: multiset<Id>)
    requires Nils(taken) <= surplus[NIL]
    ensures NilsOf(taken) <= surplus
  {
  }

  lemma {:induction false} LiveAllHasNoNil(pools: seq<Chain>)
    ensures NIL !in LiveAll(pools)
  {
    if pools != [] {
      LiveHasNoNil(pools[0]);
      LiveAllHasNoNil(pools[1..]);
    }
  }

  /** The nils in the map are surplus. */
  lemma NilIsSurplus(m: Option<ObjectCounts>, views: seq<Chain>, surplus: multiset<Id>)
    requires Counts(m, [], LiveAll(views) + surplus)
    ensures m.Some? ==> Lookup(m.value, NIL) == surplus[NIL]
  {
    LiveAllHasNoNil(views);
    if m.Some? {
      RepresentsLookup(m.value, multiset([]) + (LiveAll(views) + surplus), NIL);
    }
  }

  lemma HolesStep(views: seq<Chain>, request: seq<Id>, k: nat, surplus: multiset<Id>)
    requires k < |views|
    ensures Nils(TakenPools(views[k..], request))
         == Nils(TakenChain(views[k], request)) + Nils(TakenPools(views[k + 1..], request))
    ensures surplus - NilsOf(TakenPools(views[..k + 1], request))
         == (surplus - NilsOf(TakenPools(views[..k], request))) - NilsOf(TakenChain(views[k], request))
    ensures forall s: multiset<Id> :: (s - NilsOf(TakenChain(views[k], request)))[NIL]
                                   >= s[NIL] - Nils(TakenChain(views[k], request))
  {
    hide TakenChain;
    assert views[k..][1..] == views[k + 1..];
    assert views[..k + 1] == views[..k] + [views[k]];
    TakenPoolsSnoc(views[..k], views[k], request);
  }

  lemma HolesEnd(views: seq<Chain>, request: seq<Id>, surplus: multiset<Id>)
    ensures views[0..] == views && views[..|views|] == views
    ensures surplus - NilsOf(TakenPools(views[..0], request)) == surplus
  {
  }

  lemma OnePass(c: Chain)
    ensures Drain(c, []) == WipeChain(c) && NilFree([])
  {
    hide WipeChain;
    assert WipeChain(c) + [] == WipeChain(c);
    NothingToWipe();
  }

  lemma NothingToWipe()
    ensures WipeChain([]) == [] && Later([]) == []
  {
  }

  /** The live entries of one pool and of all the others. */
  lemma OneOfMany(views: seq<Chain>, k: nat, c: Chain, surplus: multiset<Id>)
    requires k < |views|
    ensures LiveAll(views[k := c]) + surplus == Live(c) + (LiveAll(views[..k]) + LiveAll(views[k + 1..]) + surplus)
    ensures views[k := views[k]] == views
    ensures c == [] ==> LiveAll(views[k := c]) + surplus == LiveAll(views[..k]) + LiveAll(views[k + 1..]) + surplus
  {
    LiveAllAt(views, k, c);
    EmptyIsDead();
    hide Live, LiveAll;
    UnionIsAssociative(Live(c), LiveAll(views[..k]) + LiveAll(views[k + 1..]), surplus);
  }

  lemma TailIsFirst(tail: AutoreleasePool?, pools: seq<AutoreleasePool>, repr: set<object>, k: nat)
    requires IsStack(tail, pools, repr) && k < |pools|
    ensures tail != null && pools[0] == tail && (pools[k] == tail <==> k == 0)
    ensures k > 0 ==> tail !in pools[k].repr && pools[k] !in tail.repr && pools[k].repr !! tail.repr
  {
    hide AutoreleasePool.Valid;
    ValidIsWithin(pools[0]);
    ValidIsWithin(pools[k]);
    if k > 0 {
      StackApart(tail, pools, repr, k);
    }
  }

  lemma ValidIsAlive(pool: AutoreleasePool)
    ensures pool.Valid() ==> !pool.freed
  {
  }

  lemma StorageIsContents(pool: AutoreleasePool)
    ensures pool.Valid() ==> (pool.storage == null <==> pool.contents == [])
  {
  }

  lemma DropOneMore<T>(s: seq<T>, n: nat)
    requires n < |s|
    ensures s[n..][1..] == s[n + 1..] && s[..n + 1] == s[..n] + [s[n]] && s[n..][0] == s[n]
  {
  }

  lemma PopIsAllowed(s: State, each: seq<Turns>, n: nat)
    requires n < |s.pools| && forall i :: 0 <= i < |each| ==> NilFree(each[i])
    ensures Allowed(s, Command.Pop(n, each))
  {
  }

  /** The popped pools and their chunks are no part of the stack. */
  ghost predicate LeftBehind(popped: seq<AutoreleasePool>, repr: set<object>)
    reads popped`history
  {
    (forall p :: p in popped ==> p !in repr) && Histories(popped) !! repr
  }

  lemma LeftBehindOne(p: AutoreleasePool, repr: set<object>)
    requires p !in repr && forall a :: a in p.history ==> a !in repr
    ensures LeftBehind([p], repr)
  {
  }

  lemma LeftBehindMore(all: seq<AutoreleasePool>, n: nat, repr: set<object>)
    requires n < |all| && LeftBehind(all[..n], repr) && LeftBehind([all[n]], repr)
    ensures LeftBehind(all[..n + 1], repr)
  {
    DropOneMore(all, n);
    forall p, a | p in all[..n + 1] && a in p.history
      ensures a !in repr
    {
      assert if p in all[..n] then a in Histories(all[..n]) else a in Histories([all[n]]);
    }
  }

  lemma NothingGone(all: seq<AutoreleasePool>, repr: set<object>)
    ensures AllGone(all[..0]) && LeftBehind(all[..0], repr)
    ensures all[0..] == all
  {
  }

  lemma PushedLive(pools: seq<Chain>)
    ensures LiveAll([[Chunk([], 0, 0)]] + pools) == LiveAll(pools)
  {
    HeadLive(pools, [Chunk([], 0, 0)]);
    assert Live([Chunk([], 0, 0)]) + LiveAll(pools) == LiveAll(pools);
  }

  lemma HeadAndRest(views: seq<Chain>, c: Chain, surplus: multiset<Id>)
    requires views != []
    ensures views == [views[0]] + views[1..]
    ensures LiveAll([c] + views[1..]) + surplus == Live(c) + (LiveAll(views[1..]) + surplus)
  {
    HeadLive(views, c);
    hide Live, LiveAll;
    UnionIsAssociative(Live(c), LiveAll(views[1..]), surplus);
  }

  lemma EmptyInnermost(views: seq<Chain>)
    requires views != []
    ensures LiveAll([[]] + views[1..]) == LiveAll(views[1..])
    ensures multiset([]) + LiveAll(views[1..]) == LiveAll(views[1..])
    ensures ([[]] + views[1..])[1..] == views[1..]
  {
    HeadLive(views, []);
    assert Live([]) + LiveAll(views[1..]) == LiveAll(views[1..]);
  }

  lemma ScanStep(views: seq<Chain>, k: nat, p: Id)
    requires k < |views|
    ensures ScanSum(views[k..], p) == AsInt(Wrap32(SlotsHolding(views[k], p))) + ScanSum(views[k + 1..], p)
  {
    assert views[k..][1..] == views[k + 1..];
  }

  lemma ScanEnds(views: seq<Chain>, p: Id)
    ensures views[0..] == views && ScanSum(views[|views|..], p) == 0
  {
  }

  /** The map keeps up with what the innermost pool gains, if it counts at least that. */
  lemma CountsGrow(was: Option<ObjectCounts>, now: Option<ObjectCounts>, views: seq<Chain>, c: Chain,
                   objects: seq<Id>, counted: seq<Id>, before: multiset<Id>, surplus: multiset<Id>)
    requires views != [] && Inserted(c) == Inserted(views[0]) + objects
    requires multiset(objects) + surplus == before + multiset(counted)
    requires Counts(was, [], LiveAll(views) + before) && now == Counted(was, counted)
    ensures Counts(now, [], LiveAll([c] + views[1..]) + surplus) && now.Some? == was.Some?
  {
    hide Inserted, Represents, NoteEach;
    if was.Some? {
      NoteEachRepresents(was.value, multiset([]) + (LiveAll(views) + before), counted);
      HeadLive(views, c);
      assert Live(c) == Live(views[0]) + multiset(objects);
      SumsAgree(Live(views[0]), LiveAll(views[1..]), multiset(objects), multiset(counted), before, surplus);
    }
  }

  lemma SumsAgree(live: multiset<Id>, rest: multiset<Id>, objects: multiset<Id>, counted: multiset<Id>,
                  before: multiset<Id>, surplus: multiset<Id>)
    requires objects + surplus == before + counted
    ensures multiset([]) + (((live + objects) + rest) + surplus) == multiset([]) + ((live + rest) + before) + counted
  {
    forall x: Id
      ensures (((live + objects) + rest) + surplus)[x] == (((live + rest) + before) + counted)[x]
    {
      assert (objects + surplus)[x] == (before + counted)[x];
    }
  }
}

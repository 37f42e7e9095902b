/** What each operation on the stack of pools does, in terms of the live objects of the pools in
    the order in which they were inserted. */
module PoolEffects {
  import opened Words
  import opened PoolSpec
  import opened PoolLedger
  import opened PoolStack

  // ----- removal keeps the order -----

  /** The requested entries, in order. */
  function Only(s: seq<Id>, request: seq<Id>): seq<Id> {
    if s == [] then [] else (if s[0] in request then [s[0]] else []) + Only(s[1..], request)
  }

  /** The entries that are not requested, in order. */
  function Except(s: seq<Id>, request: seq<Id>): seq<Id> {
    if s == [] then [] else (if s[0] in request then [] else [s[0]]) + Except(s[1..], request)
  }

  lemma {:induction false} PartsAppend(a: seq<Id>, b: seq<Id>, request: seq<Id>)
    ensures Only(a + b, request) == Only(a, request) + Only(b, request)
    ensures Except(a + b, request) == Except(a, request) + Except(b, request)
  {
    if a == [] {
      assert a + b == b;
    } else {
      PartsAppend(a[1..], b, request);
      assert (a + b)[1..] == a[1..] + b && (a + b)[0] == a[0];
      var only, except := if a[0] in request then [a[0]] else [], if a[0] in request then [] else [a[0]];
      ConcatIsAssociative(only, Only(a[1..], request), Only(b, request));
      ConcatIsAssociative(except, Except(a[1..], request), Except(b, request));
    }
  }

  lemma {:induction false} PartsCount(s: seq<Id>, request: seq<Id>)
    ensures forall x :: multiset(Only(s, request))[x] == if x in request then multiset(s)[x] else 0
    ensures forall x :: multiset(Except(s, request))[x] == if x in request then 0 else multiset(s)[x]
  {
    if s != [] {
      PartsCount(s[1..], request);
      assert s == [s[0]] + s[1..];
    }
  }

  lemma PartsOfOne(x: Id, request: seq<Id>)
    ensures Except(Entry(x), request) == Entry(ClearSlot(x, request))
    ensures Reversed(Only(Entry(x), request)) == NonNil(Pick(x, request))
  {
    if x != NIL {
      assert [x][1..] == [];
      assert NonNil([x]) == [x] && Reversed([x]) == [x] && Only([x], request) == (if x in request then [x] else []);
    } else {
      assert NonNil([x]) == [];
    }
  }

  lemma {:induction false} SlotsKeepOrder(s: seq<Id>, request: seq<Id>)
    ensures NonNil(Clear(s, request)) == Except(NonNil(s), request)
    ensures NonNil(Taken(s, request)) == Reversed(Only(NonNil(s), request))
  {
    if s != [] {
      var front, x := s[..|s| - 1], s[|s| - 1];
      SlotsKeepOrder(front, request);
      NonNilSnoc(s);
      ClearSnoc(s, request);
      NonNilSnoc(Clear(s, request));
      PartsOfOne(x, request);
      hide NonNil, Clear, Taken, Only, Except, Reversed, ClearSlot, Pick, Entry;
      PartsAppend(NonNil(front), Entry(x), request);
      NonNilAppend(Pick(x, request), Taken(front, request));
      ReversedAppend(Only(NonNil(front), request), Only(Entry(x), request));
    }
  }

  /** Removal leaves the other objects in their order, and releases what it takes in reverse of
      the order of insertion. */
  lemma {:induction false} RemovalKeepsOrder(c: Chain, request: seq<Id>)
    ensures Inserted(ClearChain(c, request)) == Except(Inserted(c), request)
    ensures NonNil(TakenChain(c, request)) == Reversed(Only(Inserted(c), request))
  {
    if c != [] {
      RemovalKeepsOrder(c[1..], request);
      SlotsKeepOrder(c[0].slots, request);
      assert ClearChain(c, request)[1..] == ClearChain(c[1..], request);
      hide NonNil, Clear, Taken, Only, Except, Reversed;
      PartsAppend(Inserted(c[1..]), NonNil(c[0].slots), request);
      NonNilAppend(Taken(c[0].slots, request), TakenChain(c[1..], request));
      ReversedAppend(Only(Inserted(c[1..]), request), Only(NonNil(c[0].slots), request));
    }
  }

  // ----- removal -----

  /** Removing from the innermost pool takes every requested object out of it and releases it as
      often as it was live there, the last one first; all other objects of the pool stay in
      their order, and the other pools are untouched. Without a pool nothing happens. */
  lemma TakingFromInnermost(s: State, request: seq<Id>, constants: set<Id>)
    ensures var t := Step(s, TakeFromInnermost(request), constants);
      if s.pools == [] then t == s
      else
        && t.pools != [] && t.pools[1..] == s.pools[1..]
        && Inserted(t.pools[0]) == Except(Inserted(s.pools[0]), request)
        && t.released == s.released + Reversed(Only(Inserted(s.pools[0]), request))
        && forall x ::
             && Live(t.pools[0])[x] == (if x in request then 0 else Live(s.pools[0])[x])
             && multiset(t.released)[x] == multiset(s.released)[x] + if x in request then Live(s.pools[0])[x] else 0
  {
    hide ClearChain, TakenChain, Inserted, Only, Except, NonNil, Reversed;
    if s.pools != [] {
      RemovalKeepsOrder(s.pools[0], request);
      PartsCount(Inserted(s.pools[0]), request);
      ReversedMultiset(Only(Inserted(s.pools[0]), request));
    }
  }

  /** What removal from the first `n` pools releases. */
  function OnlyOfPools(pools: seq<Chain>, request: seq<Id>, n: nat): seq<Id>
    requires n <= |pools|
  {
    if n == 0 then [] else OnlyOfPools(pools, request, n - 1) + Reversed(Only(Inserted(pools[n - 1]), request))
  }

  lemma {:induction false} PoolsRelease(pools: seq<Chain>, request: seq<Id>, n: nat)
    requires n <= |pools|
    ensures NonNil(TakenPools(pools[..n], request)) == OnlyOfPools(pools, request, n)
    decreases n
  {
    hide TakenChain, Inserted, Only, NonNil, Reversed;
    if n == 0 {
      NothingToTakeAnywhere(request);
      NothingToTake([], request, []);
      assert [] + NonNil([]) == NonNil([]);
    } else {
      PoolsRelease(pools, request, n - 1);
      assert pools[..n] == pools[..n - 1] + [pools[n - 1]];
      TakenPoolsSnoc(pools[..n - 1], pools[n - 1], request);
      NonNilAppend(TakenPools(pools[..n - 1], request), TakenChain(pools[n - 1], request));
      RemovalKeepsOrder(pools[n - 1], request);
    }
  }

  lemma {:induction false} PoolsCount(pools: seq<Chain>, request: seq<Id>, x: Id)
    ensures LiveAll(ClearPools(pools, request))[x] == if x in request then 0 else LiveAll(pools)[x]
    decreases |pools|
  {
    hide Inserted, Except, ClearChain;
    if pools != [] {
      PoolsHead(pools, request);
      PoolsCount(pools[1..], request, x);
      RemovalKeepsOrder(pools[0], request);
      PartsCount(Inserted(pools[0]), request);
    }
  }

  /** The same for removing from all pools, innermost pool first. */
  lemma TakingFromAll(s: State, request: seq<Id>, constants: set<Id>)
    ensures var t := Step(s, TakeFromAll(request), constants);
      && |t.pools| == |s.pools|
      && (forall i :: 0 <= i < |s.pools| ==> Inserted(t.pools[i]) == Except(Inserted(s.pools[i]), request))
      && t.released == s.released + OnlyOfPools(s.pools, request, |s.pools|)
      && forall x ::
           && LiveAll(t.pools)[x] == (if x in request then 0 else LiveAll(s.pools)[x])
           && multiset(t.released)[x] == multiset(s.released)[x] + if x in request then LiveAll(s.pools)[x] else 0
  {
    hide ClearChain, TakenPools, Inserted, Only, Except, NonNil, Reversed, LiveAll, OnlyOfPools;
    var t := Step(s, TakeFromAll(request), constants);
    assert s.pools[..|s.pools|] == s.pools;
    PoolsRelease(s.pools, request, |s.pools|);
    forall i | 0 <= i < |s.pools|
      ensures Inserted(t.pools[i]) == Except(Inserted(s.pools[i]), request)
    {
      RemovalKeepsOrder(s.pools[i], request);
    }
    TakePoolsConserves(s.pools, request);
    forall x
      ensures LiveAll(t.pools)[x] == (if x in request then 0 else LiveAll(s.pools)[x])
    {
      PoolsCount(s.pools, request, x);
    }
  }

  // ----- adding -----

  /** An object goes into the innermost pool, behind all others, unless it is a constant or there
      is no pool. */
  lemma Autoreleasing(s: State, p: Id, constants: set<Id>)
    requires p != NIL
    ensures var t := Step(s, Autorelease(p), constants);
      if p in constants || s.pools == [] then t == s
      else
        && t.released == s.released && t.pools != [] && t.pools[1..] == s.pools[1..]
        && Inserted(t.pools[0]) == Inserted(s.pools[0]) + [p]
  {
    hide Inserted, AddOne;
    if s.pools != [] {
      AddOneInserts(s.pools[0], p);
    }
  }

  /** So does a block, in its order, constants or not. */
  lemma AutoreleasingMany(s: State, objects: seq<Id>, constants: set<Id>)
    requires NIL !in objects && (s.pools != [] ==> Bounded(s.pools[0]))
    ensures var t := Step(s, AutoreleaseMany(objects), constants);
      if s.pools == [] then t == s
      else
        && t.released == s.released && t.pools != [] && t.pools[1..] == s.pools[1..]
        && Inserted(t.pools[0]) == Inserted(s.pools[0]) + objects
  {
    hide Inserted, AddBlock, Bounded;
    if s.pools != [] {
      AddBlockInserts(s.pools[0], objects);
    }
  }

  lemma Pushing(s: State, constants: set<Id>)
    ensures var t := Step(s, Push, constants);
      t.released == s.released && t.pools != [] && t.pools[1..] == s.pools && Inserted(t.pools[0]) == []
  {
  }

  // ----- wiping -----

  /** What wiping a pool releases: what is in it, the last one first, and what arrives
      meanwhile, pass by pass. */
  function Wiping(c: Chain, turns: Turns): seq<Id> {
    if c == [] then [] else Reversed(Inserted(c)) + Later(turns)
  }

  /** Without arrivals nothing is released but what was there; every turn of arrivals is
      released in reverse before the next, and the first empty one is the last. */
  lemma LaterIs(turns: Turns)
    ensures turns == [] || turns[0] == [] ==> Later(turns) == []
    ensures turns != [] && turns[0] != [] ==> Later(turns) == Reversed(turns[0]) + Later(turns[1..])
  {
  }

  lemma DrainIsWiping(c: Chain, turns: Turns)
    ensures Drain(c, turns) == Wiping(c, turns)
  {
    WipeChainReverses(c);
  }

  /** Wiping the innermost pool in place empties it and leaves the others alone. */
  lemma WipingInnermost(s: State, turns: Turns, constants: set<Id>)
    requires s.pools != [] && NilFree(turns)
    ensures var t := Step(s, Wipe(0, turns), constants);
      t.pools == [[]] + s.pools[1..] && t.released == s.released + Wiping(s.pools[0], turns)
  {
    hide Drain;
    DrainIsWiping(s.pools[0], turns);
  }

  /** Wiping a pool further out empties it and releases what was in it, the last one first. What
      its objects autorelease goes into the innermost pool, behind all others. */
  lemma WipingOuter(s: State, depth: nat, turns: Turns, constants: set<Id>)
    requires 0 < depth < |s.pools| && NilFree(turns)
    ensures var t := Step(s, Wipe(depth, turns), constants);
      && |t.pools| == |s.pools| && t.pools[depth] == []
      && (forall i :: 0 < i < |s.pools| && i != depth ==> t.pools[i] == s.pools[i])
      && Inserted(t.pools[0])
         == Inserted(s.pools[0]) + (if s.pools[depth] == [] || turns == [] then [] else turns[0])
      && t.released == s.released + Reversed(Inserted(s.pools[depth]))
  {
    hide Inserted, AddEach, WipeChain, Reversed;
    WipeChainReverses(s.pools[depth]);
    AddEachInserts(s.pools[0], if s.pools[depth] == [] || turns == [] then [] else turns[0]);
  }

  // ----- popping -----

  /** What popping the first `n` pools releases. */
  function WipingPools(pools: seq<Chain>, each: seq<Turns>, n: nat): seq<Id>
    requires n <= |pools|
  {
    if n == 0 then []
    else WipingPools(pools, each, n - 1) + Wiping(pools[n - 1], if n - 1 < |each| then each[n - 1] else [])
  }

  lemma {:induction false} DrainPoolsIsWiping(pools: seq<Chain>, each: seq<Turns>, n: nat)
    requires n <= |pools|
    ensures DrainPools(pools[..n], each) == WipingPools(pools, each, n)
    decreases n
  {
    hide Drain, Wiping;
    if n > 0 {
      DrainPoolsIsWiping(pools, each, n - 1);
      assert pools[..n] == pools[..n - 1] + [pools[n - 1]];
      DrainPoolsSnoc(pools[..n - 1], each, pools[n - 1]);
      DrainIsWiping(pools[n - 1], Passes(each, n - 1));
    }
  }

  /** Popping wipes the pools from the innermost one to the one at `depth`, and the pools further
      out stay. */
  lemma Popping(s: State, depth: nat, each: seq<Turns>, constants: set<Id>)
    requires Allowed(s, Pop(depth, each))
    ensures var t := Step(s, Pop(depth, each), constants);
      t.pools == s.pools[depth + 1..] && t.released == s.released + WipingPools(s.pools, each, depth + 1)
  {
    hide DrainPools, WipingPools;
    DrainPoolsIsWiping(s.pools, each, depth + 1);
  }

  // ----- chunks -----

  /** A new chunk is opened exactly if there is none, or the newest one has no free slot, and it
      has 1018 of them. */
  lemma AddingOpensIff(c: Chain, p: Id)
    requires Bounded(c)
    ensures if c == [] || |c[0].slots| == 1018 then AddOne(c, p) == [Chunk([p], 1, 0)] + c
            else |AddOne(c, p)| == |c| && AddOne(c, p)[1..] == c[1..] && AddOne(c, p)[0].slots == c[0].slots + [p]
  {
  }
}

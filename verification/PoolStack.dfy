/** The stack of autorelease pools of one thread, as values: what every operation does to it,
    and what holds over whole runs of operations. */
module PoolStack {
  import opened Words
  import opened PoolSpec
  import opened PoolLedger

  /** `pools` has the innermost pool first; `released` is every release so far, in order. */
  datatype State = State(pools: seq<Chain>, released: seq<Id>)

  /** What the objects that a pool releases autorelease while they are deallocated: `turns[i]`
      in pass `i` over the pool. */
  type Turns = seq<seq<Id>>

  datatype Command =
    | Push
    | Autorelease(p: Id)
    | AutoreleaseMany(objects: seq<Id>)
    | TakeFromInnermost(request: seq<Id>)
    | TakeFromAll(request: seq<Id>)
    | Wipe(depth: nat, turns: Turns)
    | Pop(depth: nat, each: seq<Turns>)

  /** The callers' side: objects handed over are not nil, and a pool that is named exists. */
  predicate Allowed(s: State, c: Command) {
    match c
    case Push => true
    case Autorelease(p) => p != NIL
    case AutoreleaseMany(objects) => NIL !in objects
    case TakeFromInnermost(request) => true
    case TakeFromAll(request) => true
    case Wipe(depth, turns) => depth < |s.pools| && NilFree(turns)
    case Pop(depth, turns) => depth < |s.pools| && forall i :: 0 <= i < |turns| ==> NilFree(turns[i])
  }

  /** All live entries of a stack of pools, with multiplicity. */
  function LiveAll(pools: seq<Chain>): multiset<Id> {
    if pools == [] then multiset{} else Live(pools[0]) + LiveAll(pools[1..])
  }

  function ClearPools(pools: seq<Chain>, request: seq<Id>): (r: seq<Chain>)
    ensures |r| == |pools|
    ensures forall i :: 0 <= i < |pools| ==> r[i] == ClearChain(pools[i], request)
  {
    seq(|pools|, i requires 0 <= i < |pools| => ClearChain(pools[i], request))
  }

  function TakenPools(pools: seq<Chain>, request: seq<Id>): seq<Id> {
    if pools == [] then [] else TakenChain(pools[0], request) + TakenPools(pools[1..], request)
  }

  /** The passes over pool `i`. */
  function Passes(turns: seq<Turns>, i: nat): Turns {
    if i < |turns| then turns[i] else []
  }

  function Tail(turns: seq<Turns>): seq<Turns> {
    if turns == [] then [] else turns[1..]
  }

  /** What popping these pools releases, innermost pool first. */
  function DrainPools(pools: seq<Chain>, turns: seq<Turns>): seq<Id> {
    if pools == [] then [] else Drain(pools[0], Passes(turns, 0)) + DrainPools(pools[1..], Tail(turns))
  }

  /** What arrives in these pools while they are popped. */
  function ArrivedPools(pools: seq<Chain>, turns: seq<Turns>): seq<Id> {
    if pools == [] then [] else Arrived(pools[0], Passes(turns, 0)) + ArrivedPools(pools[1..], Tail(turns))
  }

  /** What wiping a pool in place brings to the innermost pool, if that is another one. */
  function Elsewhere(s: State, depth: nat, turns: Turns): seq<Id>
    requires depth < |s.pools|
  {
    if s.pools[depth] == [] || turns == [] then [] else turns[0]
  }

  /** Wiping a pool in place. What is autoreleased meanwhile goes into the innermost pool, so
      only that one is wiped more than once. */
  function Wiped(s: State, depth: nat, turns: Turns): State
    requires depth < |s.pools|
  {
    if depth == 0 then State([[]] + s.pools[1..], s.released + Drain(s.pools[0], turns))
    else
      var emptied := s.pools[depth := []];
      State([AddEach(emptied[0], Elsewhere(s, depth, turns))] + emptied[1..], s.released + WipeChain(s.pools[depth]))
  }

  /** With no pool in place, or for a constant object, autoreleasing does nothing. */
  function Step(s: State, c: Command, constants: set<Id>): State
    requires Allowed(s, c)
  {
    match c
    case Push => State([[Chunk([], 0, 0)]] + s.pools, s.released)
    case Autorelease(p) =>
      if p in constants || s.pools == [] then s
      else State([AddOne(s.pools[0], p)] + s.pools[1..], s.released)
    case AutoreleaseMany(objects) =>
      if objects == [] || s.pools == [] then s
      else State([AddBlock(s.pools[0], objects)] + s.pools[1..], s.released)
    case TakeFromInnermost(request) =>
      if s.pools == [] then s
      else State([ClearChain(s.pools[0], request)] + s.pools[1..], s.released + NonNil(TakenChain(s.pools[0], request)))
    case TakeFromAll(request) =>
      State(ClearPools(s.pools, request), s.released + NonNil(TakenPools(s.pools, request)))
    case Wipe(depth, turns) => Wiped(s, depth, turns)
    case Pop(depth, turns) =>
      State(s.pools[depth + 1..], s.released + DrainPools(s.pools[..depth + 1], turns))
  }

  /** The command is allowed in `s` and leads to `t`. */
  predicate Leads(s: State, c: Command, constants: set<Id>, t: State) {
    Allowed(s, c) && t == Step(s, c, constants)
  }

  lemma AutoreleaseLeads(s: State, p: Id, constants: set<Id>)
    requires p != NIL
    ensures p in constants || s.pools == [] ==> Leads(s, Autorelease(p), constants, s)
    ensures p !in constants && s.pools != [] ==>
      Leads(s, Autorelease(p), constants, State([AddOne(s.pools[0], p)] + s.pools[1..], s.released))
  {
  }

  lemma AutoreleaseManyLeads(s: State, objects: seq<Id>, constants: set<Id>)
    requires NIL !in objects
    ensures objects == [] || s.pools == [] ==> Leads(s, AutoreleaseMany(objects), constants, s)
    ensures objects != [] && s.pools != [] ==>
      Leads(s, AutoreleaseMany(objects), constants, State([AddBlock(s.pools[0], objects)] + s.pools[1..], s.released))
  {
  }

  lemma WipeLeads(s: State, depth: nat, turns: Turns, constants: set<Id>)
    requires depth < |s.pools| && NilFree(turns)
    ensures Leads(s, Wipe(depth, turns), constants, Wiped(s, depth, turns))
  {
    hide Wiped;
  }

  /** What a command hands over to a pool, or what arrives there because of it. */
  function Accepted(s: State, c: Command, constants: set<Id>): seq<Id> {
    match c
    case Autorelease(p) => if p in constants || s.pools == [] then [] else [p]
    case AutoreleaseMany(objects) => if s.pools == [] then [] else objects
    case Wipe(depth, turns) =>
      if depth >= |s.pools| then [] else if depth == 0 then Arrived(s.pools[0], turns) else Elsewhere(s, depth, turns)
    case Pop(depth, turns) => if depth >= |s.pools| then [] else ArrivedPools(s.pools[..depth + 1], turns)
    case _ => []
  }

  predicate AllowedRun(s: State, run: seq<Command>, constants: set<Id>)
    decreases |run|
  {
    run == [] || (Allowed(s, run[0]) && AllowedRun(Step(s, run[0], constants), run[1..], constants))
  }

  function Run(s: State, run: seq<Command>, constants: set<Id>): State
    requires AllowedRun(s, run, constants)
    decreases |run|
  {
    if run == [] then s else Run(Step(s, run[0], constants), run[1..], constants)
  }

  function AcceptedRun(s: State, run: seq<Command>, constants: set<Id>): seq<Id>
    requires AllowedRun(s, run, constants)
    decreases |run|
  {
    if run == [] then []
    else Accepted(s, run[0], constants) + AcceptedRun(Step(s, run[0], constants), run[1..], constants)
  }

  /** Every chunk of every pool keeps its counter in step. */
  predicate CountsOkAll(pools: seq<Chain>) {
    forall i :: 0 <= i < |pools| ==> CountsOk(pools[i])
  }

  // ----- one step -----

  lemma UnionIsAssociative(a: multiset<Id>, b: multiset<Id>, c: multiset<Id>)
    ensures (a + b) + c == a + (b + c)
  {
  }

  lemma {:induction false} LiveAllSplits(a: seq<Chain>, b: seq<Chain>)
    ensures LiveAll(a + b) == LiveAll(a) + LiveAll(b)
  {
    hide Live;
    if a == [] {
      assert a + b == b;
    } else {
      LiveAllSplits(a[1..], b);
      assert a + b == [a[0]] + (a[1..] + b);
      HeadLive(a[1..] + b, a[0]);
      HeadLive(a, a[0]);
      assert [a[0]] + a[1..] == a;
      UnionIsAssociative(Live(a[0]), LiveAll(a[1..]), LiveAll(b));
    }
  }

  lemma {:induction false} DrainPoolsReleasesAll(pools: seq<Chain>, turns: seq<Turns>)
    ensures multiset(DrainPools(pools, turns)) == LiveAll(pools) + multiset(ArrivedPools(pools, turns))
    decreases |pools|
  {
    hide Drain, Arrived, Live;
    if pools != [] {
      DrainReleasesAll(pools[0], Passes(turns, 0));
      DrainPoolsReleasesAll(pools[1..], Tail(turns));
    }
  }

  lemma PoolsHead(pools: seq<Chain>, request: seq<Id>)
    requires pools != []
    ensures LiveAll(pools) == Live(pools[0]) + LiveAll(pools[1..])
    ensures LiveAll(ClearPools(pools, request))
         == Live(ClearChain(pools[0], request)) + LiveAll(ClearPools(pools[1..], request))
    ensures NonNil(TakenPools(pools, request))
         == NonNil(TakenChain(pools[0], request)) + NonNil(TakenPools(pools[1..], request))
  {
    hide Live, ClearChain, TakenChain, NonNil;
    assert ClearPools(pools, request)[1..] == ClearPools(pools[1..], request);
    NonNilAppend(TakenChain(pools[0], request), TakenPools(pools[1..], request));
  }

  lemma {:induction false} TakePoolsConserves(pools: seq<Chain>, request: seq<Id>)
    ensures LiveAll(pools) == LiveAll(ClearPools(pools, request)) + multiset(NonNil(TakenPools(pools, request)))
  {
    if pools != [] {
      PoolsHead(pools, request);
      hide LiveAll, ClearPools, TakenPools, Live, ClearChain, TakenChain, NonNil;
      RemovalConserves(pools[0], request);
      TakePoolsConserves(pools[1..], request);
    }
  }

  /** The assertion about objects out of nowhere holds throughout a removal exactly if the map
      holds as many nils as there are holes to take. */
  lemma RemovalIsAnsweredIff(m: ObjectCounts, pools: seq<Chain>, request: seq<Id>, surplus: multiset<Id>)
    requires Represents(m, LiveAll(pools) + surplus)
    ensures ForgetEach(m, TakenPools(pools, request)).Some? <==> Nils(TakenPools(pools, request)) <= Lookup(m, NIL)
  {
    hide LiveAll, TakenPools, ClearPools, NonNil, ForgetEach, Represents, Lookup, Nils;
    TakePoolsConserves(pools, request);
    var left, taken := LiveAll(ClearPools(pools, request)), TakenPools(pools, request);
    assert LiveAll(pools) + surplus == multiset(NonNil(taken)) + (left + surplus);
    HolesAreAnsweredIff(m, taken, left + surplus);
  }

  /** Handed over plus there before is still there plus released: nothing is lost, nothing is
      released twice. */
  predicate Conserves(s: State, t: State, accepted: seq<Id>) {
    multiset(accepted) + LiveAll(s.pools) + multiset(s.released) == LiveAll(t.pools) + multiset(t.released)
  }

  lemma HeadLive(pools: seq<Chain>, c: Chain)
    ensures pools != [] ==> LiveAll([c] + pools[1..]) == Live(c) + LiveAll(pools[1..])
    ensures LiveAll([c] + pools) == Live(c) + LiveAll(pools)
  {
    assert ([c] + pools)[1..] == pools;
    if pools != [] {
      assert ([c] + pools[1..])[1..] == pools[1..];
    }
  }

  lemma AddConserves(s: State, c: Chain, accepted: seq<Id>)
    requires s.pools != [] && Inserted(c) == Inserted(s.pools[0]) + accepted
    ensures Conserves(s, State([c] + s.pools[1..], s.released), accepted)
  {
    hide Inserted;
    HeadLive(s.pools, c);
    assert Live(c) == Live(s.pools[0]) + multiset(accepted);
  }

  lemma TakeConserves(s: State, request: seq<Id>)
    requires s.pools != []
    ensures Conserves(s, Step(s, TakeFromInnermost(request), {}), [])
  {
    hide Live, ClearChain, TakenChain, NonNil;
    HeadLive(s.pools, ClearChain(s.pools[0], request));
    RemovalConserves(s.pools[0], request);
  }

  lemma PopConserves(s: State, depth: nat, turns: seq<Turns>)
    requires Allowed(s, Pop(depth, turns))
    ensures Conserves(s, Step(s, Pop(depth, turns), {}), Accepted(s, Pop(depth, turns), {}))
  {
    hide LiveAll, DrainPools, ArrivedPools;
    assert s.pools == s.pools[..depth + 1] + s.pools[depth + 1..];
    LiveAllSplits(s.pools[..depth + 1], s.pools[depth + 1..]);
    DrainPoolsReleasesAll(s.pools[..depth + 1], turns);
  }

  lemma WipeConserves(s: State, turns: Turns)
    requires Allowed(s, Wipe(0, turns))
    ensures Conserves(s, Step(s, Wipe(0, turns), {}), Accepted(s, Wipe(0, turns), {}))
  {
    hide Live, Drain, Arrived;
    HeadLive(s.pools, []);
    HeadLive(s.pools, s.pools[0]);
    assert [s.pools[0]] + s.pools[1..] == s.pools;
    EmptyIsDead();
    DrainReleasesAll(s.pools[0], turns);
  }

  lemma EmptyIsDead()
    ensures Live([]) == multiset{} && WipeChain([]) == []
  {
  }

  /** A pool further out is emptied. */
  lemma EmptyingConserves(s: State, depth: nat)
    requires depth < |s.pools|
    ensures Conserves(s, State(s.pools[depth := []], s.released + WipeChain(s.pools[depth])), [])
  {
    LiveAllAt(s.pools, depth, []);
    LiveAllAt(s.pools, depth, s.pools[depth]);
    assert s.pools[depth := s.pools[depth]] == s.pools;
    EmptyIsDead();
    WipeChainReleasesLive(s.pools[depth]);
    hide Live, LiveAll, WipeChain;
    EmptiedConserves(s, s.pools[depth := []], WipeChain(s.pools[depth]), Live(s.pools[depth]),
                     LiveAll(s.pools[..depth]) + LiveAll(s.pools[depth + 1..]));
  }

  lemma EmptiedConserves(s: State, pools: seq<Chain>, gone: seq<Id>, live: multiset<Id>, rest: multiset<Id>)
    requires LiveAll(s.pools) == live + rest && LiveAll(pools) == multiset{} + rest && multiset(gone) == live
    ensures Conserves(s, State(pools, s.released + gone), [])
  {
    hide LiveAll;
  }

  /** What is autoreleased while a pool further out is wiped goes to the innermost one. */
  lemma WipeOuterConserves(s: State, depth: nat, turns: Turns)
    requires 0 < depth && Allowed(s, Wipe(depth, turns))
    ensures Conserves(s, Step(s, Wipe(depth, turns), {}), Accepted(s, Wipe(depth, turns), {}))
  {
    var objects := Elsewhere(s, depth, turns);
    var emptied := State(s.pools[depth := []], s.released + WipeChain(s.pools[depth]));
    assert NIL !in objects;
    hide AddEach, LiveAll, Inserted, WipeChain, Conserves, Elsewhere;
    EmptyingConserves(s, depth);
    AddEachInserts(emptied.pools[0], objects);
    AddConserves(emptied, AddEach(emptied.pools[0], objects), objects);
    ConservesTwice(s, emptied, Wiped(s, depth, turns), [], objects);
    assert [] + objects == objects;
  }

  lemma StepConserves(s: State, c: Command, constants: set<Id>)
    requires Allowed(s, c) && CountsOkAll(s.pools)
    ensures Conserves(s, Step(s, c, constants), Accepted(s, c, constants))
  {
    hide Live, AddOne, AddBlock, ClearChain, ClearPools, TakenChain, TakenPools, LiveAll, DrainPools, Conserves,
         NonNil, Wiped;
    match c
    case Push =>
      PushConserves(s);
    case Autorelease(p) =>
      if p !in constants && s.pools != [] {
        AddOneInserts(s.pools[0], p);
        AddConserves(s, AddOne(s.pools[0], p), [p]);
      } else {
        NothingConserves(s);
      }
    case AutoreleaseMany(objects) =>
      if objects != [] && s.pools != [] {
        AddBlockInserts(s.pools[0], objects);
        AddConserves(s, AddBlock(s.pools[0], objects), objects);
      } else {
        NothingConserves(s);
      }
    case TakeFromInnermost(request) =>
      if s.pools != [] {
        TakeConserves(s, request);
      } else {
        NothingConserves(s);
      }
    case TakeFromAll(request) =>
      TakeAllConserves(s, request);
    case Wipe(depth, turns) =>
      if depth == 0 {
        WipeConserves(s, turns);
      } else {
        WipeOuterConserves(s, depth, turns);
      }
    case Pop(depth, turns) =>
      PopConserves(s, depth, turns);
  }

  lemma ConservesTwice(s: State, t: State, u: State, a: seq<Id>, b: seq<Id>)
    requires Conserves(s, t, a) && Conserves(t, u, b)
    ensures Conserves(s, u, a + b)
  {
    hide LiveAll;
    assert multiset(a + b) == multiset(a) + multiset(b);
    forall x
      ensures (multiset(a + b) + LiveAll(s.pools) + multiset(s.released))[x]
           == (LiveAll(u.pools) + multiset(u.released))[x]
    {
      assert (multiset(a) + LiveAll(s.pools) + multiset(s.released))[x] == (LiveAll(t.pools) + multiset(t.released))[x];
      assert (multiset(b) + LiveAll(t.pools) + multiset(t.released))[x] == (LiveAll(u.pools) + multiset(u.released))[x];
    }
  }

  lemma NothingConserves(s: State)
    ensures Conserves(s, s, [])
  {
  }

  lemma PushConserves(s: State)
    ensures Conserves(s, Step(s, Push, {}), [])
  {
    HeadLive(s.pools, [Chunk([], 0, 0)]);
  }

  lemma TakeAllConserves(s: State, request: seq<Id>)
    ensures Conserves(s, Step(s, TakeFromAll(request), {}), [])
  {
    hide LiveAll, ClearPools, TakenPools, NonNil;
    TakePoolsConserves(s.pools, request);
  }

  lemma {:induction false} AddEachKeepsCounts(c: Chain, objects: seq<Id>)
    requires CountsOk(c) && NIL !in objects
    ensures CountsOk(AddEach(c, objects))
    decreases |objects|
  {
    hide CountsOk, AddOne;
    if objects != [] {
      AddOneKeepsCounts(c, objects[0]);
      AddEachKeepsCounts(AddOne(c, objects[0]), objects[1..]);
    }
  }

  lemma StepKeepsCounts(s: State, c: Command, constants: set<Id>)
    requires Allowed(s, c) && CountsOkAll(s.pools)
    ensures CountsOkAll(Step(s, c, constants).pools)
  {
    hide CountOk, AddEach, AddOne, AddBlock;
    match c
    case Push =>
      NewChunkIsCounted();
    case Autorelease(p) =>
      if p !in constants && s.pools != [] {
        AddOneKeepsCounts(s.pools[0], p);
      }
    case AutoreleaseMany(objects) =>
      if objects != [] && s.pools != [] {
        AddBlockKeepsCounts(s.pools[0], objects);
      }
    case TakeFromInnermost(request) =>
      if s.pools != [] {
        ClearChainKeepsCounts(s.pools[0], request);
      }
    case TakeFromAll(request) =>
      forall i | 0 <= i < |s.pools|
        ensures CountsOk(ClearPools(s.pools, request)[i])
      {
        ClearChainKeepsCounts(s.pools[i], request);
      }
    case Wipe(depth, turns) =>
      if depth > 0 {
        var emptied := s.pools[depth := []];
        assert NIL !in Elsewhere(s, depth, turns);
        AddEachKeepsCounts(emptied[0], Elsewhere(s, depth, turns));
      }
    case Pop(depth, turns) =>
  }

  lemma NewChunkIsCounted()
    ensures CountOk(Chunk([], 0, 0))
  {
  }

  /** The live entries of a stack with one pool exchanged. */
  lemma LiveAllAt(pools: seq<Chain>, k: nat, c: Chain)
    requires k < |pools|
    ensures LiveAll(pools[k := c]) == Live(c) + (LiveAll(pools[..k]) + LiveAll(pools[k + 1..]))
  {
    hide Live, LiveAll;
    var front, back := pools[..k], pools[k + 1..];
    assert pools[k := c] == front + ([c] + back);
    LiveAllSplits(front, [c] + back);
    HeadLive(back, c);
    UnionIsAssociative(Live(c), LiveAll(front), LiveAll(back));
    UnionIsAssociative(LiveAll(front), Live(c), LiveAll(back));
    assert Live(c) + LiveAll(front) == LiveAll(front) + Live(c);
  }

  lemma {:induction false} DrainPoolsSnoc(pools: seq<Chain>, turns: seq<Turns>, c: Chain)
    ensures DrainPools(pools + [c], turns) == DrainPools(pools, turns) + Drain(c, Passes(turns, |pools|))
    decreases |pools|
  {
    hide Drain;
    if pools == [] {
      assert (pools + [c])[1..] == [];
      assert [] + Drain(c, Passes(turns, 0)) == Drain(c, Passes(turns, 0)) + [];
    } else {
      DrainPoolsSnoc(pools[1..], Tail(turns), c);
      assert (pools + [c])[1..] == pools[1..] + [c];
      assert Passes(Tail(turns), |pools| - 1) == Passes(turns, |pools|);
      ConcatIsAssociative(Drain(pools[0], Passes(turns, 0)), DrainPools(pools[1..], Tail(turns)),
                          Drain(c, Passes(turns, |pools|)));
    }
  }

  /** What popping the `n` innermost pools leaves. */
  function Popped(s: State, turns: seq<Turns>, n: nat): State
    requires n <= |s.pools|
  {
    State(s.pools[n..], s.released + DrainPools(s.pools[..n], turns))
  }

  /** All pools have been popped, innermost first. */
  predicate Emptied(s: State, turns: seq<Turns>, t: State) {
    t == State([], s.released + DrainPools(s.pools, turns))
  }

  /** Popping pool after pool is popping them in one go. */
  lemma PoppedStep(s: State, turns: seq<Turns>, n: nat, constants: set<Id>)
    requires n < |s.pools| && Allowed(s, Pop(n, turns))
    ensures forall t :: Leads(Popped(s, turns, n), Pop(0, [Passes(turns, n)]), constants, t)
                    ==> t == Popped(s, turns, n + 1)
    ensures Leads(s, Pop(n, turns), constants, Popped(s, turns, n + 1))
  {
    PopInnermost(Popped(s, turns, n), Passes(turns, n), constants);
    hide Drain, DrainPools;
    assert s.pools[..n + 1] == s.pools[..n] + [s.pools[n]];
    DrainPoolsSnoc(s.pools[..n], turns, s.pools[n]);
    ConcatIsAssociative(s.released, DrainPools(s.pools[..n], turns), Drain(s.pools[n], Passes(turns, n)));
    assert s.pools[n..][1..] == s.pools[n + 1..];
  }

  lemma PoppedEnds(s: State, turns: seq<Turns>)
    ensures Popped(s, turns, 0) == s
    ensures Emptied(s, turns, Popped(s, turns, |s.pools|))
  {
    assert s.pools[..|s.pools|] == s.pools;
  }

  lemma PopInnermost(s: State, turns: Turns, constants: set<Id>)
    requires s.pools != [] && NilFree(turns)
    ensures forall t :: Leads(s, Pop(0, [turns]), constants, t)
                   <==> t == State(s.pools[1..], s.released + Drain(s.pools[0], turns))
  {
    hide Drain;
    assert s.pools[..1] == [s.pools[0]];
    assert DrainPools([s.pools[0]], [turns]) == Drain(s.pools[0], turns) + [];
  }

  lemma {:induction false} TakenPoolsSnoc(pools: seq<Chain>, c: Chain, request: seq<Id>)
    ensures TakenPools(pools + [c], request) == TakenPools(pools, request) + TakenChain(c, request)
  {
    hide TakenChain;
    if pools == [] {
      assert (pools + [c])[1..] == [];
      assert [] + TakenChain(c, request) == TakenChain(c, request) + [];
    } else {
      TakenPoolsSnoc(pools[1..], c, request);
      assert (pools + [c])[1..] == pools[1..] + [c];
      ConcatIsAssociative(TakenChain(pools[0], request), TakenPools(pools[1..], request), TakenChain(c, request));
    }
  }

  /** Up to pool `k` the requested objects have been taken out. */
  function Swept(s: State, request: seq<Id>, k: nat): State
    requires k <= |s.pools|
  {
    State(ClearPools(s.pools[..k], request) + s.pools[k..], s.released + NonNil(TakenPools(s.pools[..k], request)))
  }

  lemma SweptStep(s: State, request: seq<Id>, k: nat)
    requires k < |s.pools|
    ensures var t, u := Swept(s, request, k), Swept(s, request, k + 1);
      && |t.pools| == |s.pools| && t.pools[k] == s.pools[k]
      && u.pools == t.pools[k := ClearChain(s.pools[k], request)]
      && u.released == t.released + NonNil(TakenChain(s.pools[k], request))
  {
    hide ClearChain, TakenChain, TakenPools, NonNil;
    assert s.pools[..k + 1] == s.pools[..k] + [s.pools[k]];
    TakenPoolsSnoc(s.pools[..k], s.pools[k], request);
    var before, more := TakenPools(s.pools[..k], request), TakenChain(s.pools[k], request);
    NonNilAppend(before, more);
    ConcatIsAssociative(s.released, NonNil(before), NonNil(more));
  }

  lemma SweptEnds(s: State, request: seq<Id>, constants: set<Id>)
    ensures Swept(s, request, 0) == s
    ensures Leads(s, TakeFromAll(request), constants, Swept(s, request, |s.pools|))
  {
    hide ClearChain, TakenPools;
    assert s.pools[..|s.pools|] == s.pools;
    assert TakenPools([], request) == [] by { NothingToTakeAnywhere(request); }
  }

  lemma NothingToTakeAnywhere(request: seq<Id>)
    ensures TakenPools([], request) == []
  {
  }

  // ----- asking for an object -----

  /** An `unsigned int` returned as an `int` and widened again. */
  function AsInt(n: nat): (r: int)
    requires n < TWO32
    ensures -(TWO32 / 2) <= r < TWO32 / 2 && Wrap32(r) == n
  {
    if n < TWO32 / 2 then n else n - TWO32
  }

  /** How often the slots of a chain hold `p`. */
  function SlotsHolding(c: Chain, p: Id): nat {
    if c == [] then 0 else multiset(c[0].slots)[p] + SlotsHolding(c[1..], p)
  }

  /** What scanning the pools for `p` adds up to. */
  function ScanSum(pools: seq<Chain>, p: Id): int {
    if pools == [] then 0 else AsInt(Wrap32(SlotsHolding(pools[0], p))) + ScanSum(pools[1..], p)
  }

  lemma {:induction false} SlotsHoldingIsMultiplicity(c: Chain, p: Id)
    requires p != NIL
    ensures SlotsHolding(c, p) == Live(c)[p]
  {
    if c != [] {
      SlotsHoldingIsMultiplicity(c[1..], p);
      NonNilSize(c[0].slots);
    }
  }

  /** Without a map the scan finds the same number, as long as no single pool has so many
      autoreleases of one object that an `int` goes negative. */
  lemma {:induction false} ScanFindsLive(pools: seq<Chain>, p: Id)
    requires p != NIL && forall i :: 0 <= i < |pools| ==> Live(pools[i])[p] < TWO32 / 2
    ensures ScanSum(pools, p) == LiveAll(pools)[p]
  {
    hide Live, SlotsHolding;
    if pools != [] {
      assert Live(pools[0])[p] < TWO32 / 2;
      SlotsHoldingIsMultiplicity(pools[0], p);
      ScanFindsLive(pools[1..], p);
    }
  }

  // ----- whole runs -----

  /** Over any run of operations, nothing is lost, nothing is released twice, and every
      chunk's counter misses exactly what the block copy brought in. */
  lemma {:induction false} RunConserves(s: State, run: seq<Command>, constants: set<Id>)
    requires AllowedRun(s, run, constants) && CountsOkAll(s.pools)
    ensures Conserves(s, Run(s, run, constants), AcceptedRun(s, run, constants))
    ensures CountsOkAll(Run(s, run, constants).pools)
    decreases |run|
  {
    hide Step, Accepted, LiveAll, CountsOkAll, Conserves;
    if run == [] {
      NothingConserves(s);
    } else {
      var t := Step(s, run[0], constants);
      StepConserves(s, run[0], constants);
      StepKeepsCounts(s, run[0], constants);
      RunConserves(t, run[1..], constants);
      ConservesTwice(s, t, Run(s, run, constants), Accepted(s, run[0], constants), AcceptedRun(t, run[1..], constants));
    }
  }

  /** A thread that has popped all its pools has released exactly what it autoreleased, each
      object once per autorelease. */
  lemma DrainedThreadHasReleasedAll(run: seq<Command>, constants: set<Id>)
    requires AllowedRun(State([], []), run, constants)
    requires Run(State([], []), run, constants).pools == []
    ensures multiset(Run(State([], []), run, constants).released)
         == multiset(AcceptedRun(State([], []), run, constants))
  {
    hide Step, Accepted;
    RunConserves(State([], []), run, constants);
    var t, accepted := Run(State([], []), run, constants), AcceptedRun(State([], []), run, constants);
    var none: multiset<Id> := multiset{};
    assert multiset(accepted) + none + multiset([]) == multiset(accepted);
    assert none + multiset(t.released) == multiset(t.released);
  }

  /** What is pooled without a test for constants: blocks, and what arrives. */
  function Untested(s: State, c: Command, constants: set<Id>): seq<Id> {
    if c.Autorelease? then [] else Accepted(s, c, constants)
  }

  function UntestedRun(s: State, run: seq<Command>, constants: set<Id>): seq<Id>
    requires AllowedRun(s, run, constants)
    decreases |run|
  {
    if run == [] then []
    else Untested(s, run[0], constants) + UntestedRun(Step(s, run[0], constants), run[1..], constants)
  }

  lemma {:induction false} ConstantsAreUntested(s: State, run: seq<Command>, constants: set<Id>, x: Id)
    requires AllowedRun(s, run, constants) && x in constants
    ensures multiset(AcceptedRun(s, run, constants))[x] == multiset(UntestedRun(s, run, constants))[x]
    decreases |run|
  {
    if run != [] {
      ConstantIsUntested(s, run[0], constants, x);
      hide Step, Allowed, Accepted, Untested;
      ConstantsAreUntested(Step(s, run[0], constants), run[1..], constants, x);
    }
  }

  lemma ConstantIsUntested(s: State, c: Command, constants: set<Id>, x: Id)
    requires x in constants
    ensures multiset(Accepted(s, c, constants))[x] == multiset(Untested(s, c, constants))[x]
  {
  }

  /** In every run, a constant has been pooled, and is live or has been released, just as often
      as it came in through a block or an arrival: only single autoreleases test for it. */
  lemma ConstantsComeInBlocks(run: seq<Command>, constants: set<Id>, x: Id)
    requires AllowedRun(State([], []), run, constants) && x in constants
    ensures var t := Run(State([], []), run, constants);
      LiveAll(t.pools)[x] + multiset(t.released)[x] == multiset(UntestedRun(State([], []), run, constants))[x]
  {
    hide Step, Accepted, Untested, Run, AllowedRun, UntestedRun, AcceptedRun;
    var none, t := State([], []), Run(State([], []), run, constants);
    RunConserves(none, run, constants);
    ConstantsAreUntested(none, run, constants, x);
    var pooled: multiset<Id> := multiset(AcceptedRun(none, run, constants));
    assert pooled + LiveAll(none.pools) + multiset(none.released) == pooled;
    assert (LiveAll(t.pools) + multiset(t.released))[x] == LiveAll(t.pools)[x] + multiset(t.released)[x];
  }

  /** The smallest case: a constant that is a block of one is pooled and released, where on its
      own it would have been left alone. */
  lemma BlocksPoolConstants(s: State, x: Id)
    requires s.pools != [] && x != NIL && Bounded(s.pools[0])
    ensures Allowed(s, AutoreleaseMany([x])) && Step(s, Autorelease(x), {x}) == s
    ensures Inserted(Step(s, AutoreleaseMany([x]), {x}).pools[0]) == Inserted(s.pools[0]) + [x]
  {
    AddBlockInserts(s.pools[0], [x]);
  }

  /** No blocks are autoreleased, and nobody asks for nil. */
  predicate Plain(run: seq<Command>) {
    forall i :: 0 <= i < |run| ==>
      match run[i]
      case AutoreleaseMany(objects) => false
      case TakeFromInnermost(request) => NIL !in request
      case TakeFromAll(request) => NIL !in request
      case _ => true
  }

  predicate NothingMissing(c: Chain) {
    forall k :: 0 <= k < |c| ==> c[k].missing == 0
  }

  predicate NothingMissingInAny(pools: seq<Chain>) {
    forall i :: 0 <= i < |pools| ==> NothingMissing(pools[i])
  }

  lemma {:induction false} AddEachMissesNothing(c: Chain, objects: seq<Id>)
    requires NothingMissing(c)
    ensures NothingMissing(AddEach(c, objects))
    decreases |objects|
  {
    if objects != [] {
      AddEachMissesNothing(AddOne(c, objects[0]), objects[1..]);
    }
  }

  lemma ClearMissesNothing(c: Chain, request: seq<Id>)
    requires NothingMissing(c) && NIL !in request
    ensures NothingMissing(ClearChain(c, request))
  {
    forall k | 0 <= k < |c|
      ensures ClearChain(c, request)[k].missing == 0
    {
      TakesNoHoles(c[k].slots, request);
    }
  }

  lemma StepMissesNothing(s: State, c: Command, constants: set<Id>)
    requires Allowed(s, c) && Plain([c]) && NothingMissingInAny(s.pools)
    ensures NothingMissingInAny(Step(s, c, constants).pools)
  {
    hide TakenChain, TakenPools, DrainPools, Drain, ClearChain, AddEach, NonNil;
    assert [c][0] == c;
    match c
    case TakeFromInnermost(request) =>
      if s.pools != [] {
        ClearMissesNothing(s.pools[0], request);
      }
    case TakeFromAll(request) =>
      forall i | 0 <= i < |s.pools|
        ensures NothingMissing(ClearPools(s.pools, request)[i])
      {
        ClearMissesNothing(s.pools[i], request);
      }
    case Wipe(depth, turns) =>
      if depth > 0 {
        var emptied := s.pools[depth := []];
        AddEachMissesNothing(emptied[0], Elsewhere(s, depth, turns));
      }
    case _ =>
  }

  lemma {:induction false} RunMissesNothing(s: State, run: seq<Command>, constants: set<Id>)
    requires AllowedRun(s, run, constants) && Plain(run) && NothingMissingInAny(s.pools)
    ensures NothingMissingInAny(Run(s, run, constants).pools)
    decreases |run|
  {
    hide Step, Allowed, NothingMissingInAny;
    if run != [] {
      assert [run[0]][0] == run[0];
      StepMissesNothing(s, run[0], constants);
      RunMissesNothing(Step(s, run[0], constants), run[1..], constants);
    }
  }

  lemma {:induction false} NothingMissingInTotal(c: Chain)
    requires NothingMissing(c)
    ensures MissingTotal(c) == 0
  {
    if c != [] {
      NothingMissingInTotal(c[1..]);
    }
  }

  /** In a thread that never autoreleases blocks and never asks for nil, every chunk's `count` is
      the number of its live slots, and the total that is reported for a pool is its number of
      live autoreleases as far as 32 bits go. */
  lemma PlainRunsCountLive(run: seq<Command>, constants: set<Id>, i: nat)
    requires AllowedRun(State([], []), run, constants) && Plain(run)
    requires i < |Run(State([], []), run, constants).pools|
    ensures var pool := Run(State([], []), run, constants).pools[i];
      && (forall k :: 0 <= k < |pool| ==> pool[k].count == |NonNil(pool[k].slots)| <= |pool[k].slots| <= CAPACITY)
      && CountTotal(pool) == Wrap32(|Inserted(pool)|)
  {
    hide Step, Allowed, Accepted, NonNil, Inserted, MissingTotal, Wrap32, CountSum, Plain;
    RunConserves(State([], []), run, constants);
    RunMissesNothing(State([], []), run, constants);
    var pool := Run(State([], []), run, constants).pools[i];
    assert CountsOk(pool) && NothingMissing(pool);
    forall k | 0 <= k < |pool|
      ensures pool[k].count == |NonNil(pool[k].slots)| <= |pool[k].slots| <= CAPACITY
    {
      assert CountOk(pool[k]);
      CountIsLiveIff(pool[k]);
      NonNilSize(pool[k].slots);
    }
    NothingMissingInTotal(pool);
    CountTotalMisses(pool, 0);
  }

  /** An object has been added to a chunk of a new pool, and then removed. */
  function Holding(x: Id): State {
    State([[Chunk([x], 1, 0)]], [])
  }

  function Miscounted(x: Id): State {
    State([[Chunk([NIL], TWO64 - 1, 1)]], [x])
  }

  /** Removing an object and then nil. */
  function RemoveTwice(x: Id): seq<Command> {
    [TakeFromInnermost([x])] + [TakeFromInnermost([NIL])]
  }

  lemma RemovingTwice(x: Id)
    requires x != NIL
    ensures AllowedRun(Holding(x), RemoveTwice(x), {}) && Run(Holding(x), RemoveTwice(x), {}) == Miscounted(x)
  {
    TakingSteps(x);
    var emptied := State([[Chunk([NIL], 0, 0)]], [x]);
    hide Step, Allowed, Run, AllowedRun;
    RunOne(emptied, TakeFromInnermost([NIL]), {});
    RunStarts(Holding(x), TakeFromInnermost([x]), [TakeFromInnermost([NIL])], {});
  }

  /** The smallest failure with nil: an object is added and removed, and then nil is removed.
      The pool is empty, and by the time the hole is handed to release its chunk counts
      2^64 - 1. */
  lemma RemovingNilMiscounts(x: Id)
    requires x != NIL
    ensures var run := [Push] + ([Autorelease(x)] + RemoveTwice(x));
      AllowedRun(State([], []), run, {}) && Run(State([], []), run, {}) == Miscounted(x)
  {
    AddingToNew(x);
    PushingFirst();
    RemovingTwice(x);
    hide Step, Allowed, Run, AllowedRun, RemoveTwice, Miscounted;
    RunStarts(State([[Chunk([], 0, 0)]], []), Autorelease(x), RemoveTwice(x), {});
    RunStarts(State([], []), Push, [Autorelease(x)] + RemoveTwice(x), {});
  }

  lemma PushingFirst()
    ensures Allowed(State([], []), Push) && Step(State([], []), Push, {}) == State([[Chunk([], 0, 0)]], [])
  {
  }

  lemma RunStarts(s: State, c: Command, rest: seq<Command>, constants: set<Id>)
    requires Allowed(s, c) && AllowedRun(Step(s, c, constants), rest, constants)
    ensures AllowedRun(s, [c] + rest, constants)
    ensures Run(s, [c] + rest, constants) == Run(Step(s, c, constants), rest, constants)
  {
    hide Step, Allowed;
    assert ([c] + rest)[1..] == rest;
  }

  lemma AddingToNew(x: Id)
    requires x != NIL
    ensures Allowed(State([[Chunk([], 0, 0)]], []), Autorelease(x))
    ensures Step(State([[Chunk([], 0, 0)]], []), Autorelease(x), {}) == State([[Chunk([x], 1, 0)]], [])
  {
    assert [] + [x] == [x] && Wrap(1) == 1;
    assert AddOne([Chunk([], 0, 0)], x) == [Chunk([x], 1, 0)];
  }

  lemma TakingSteps(x: Id)
    requires x != NIL
    ensures var s := State([[Chunk([x], 1, 0)]], []);
      Allowed(s, TakeFromInnermost([x])) && Step(s, TakeFromInnermost([x]), {}) == State([[Chunk([NIL], 0, 0)]], [x])
    ensures var s := State([[Chunk([NIL], 0, 0)]], [x]);
      Allowed(s, TakeFromInnermost([NIL]))
      && Step(s, TakeFromInnermost([NIL]), {}) == State([[Chunk([NIL], TWO64 - 1, 1)]], [x])
  {
    hide ClearChain, TakenChain, NonNil;
    TakingOne(x, x, []);
    TakingOne(NIL, x, [x]);
  }

  /** Taking the one thing a chunk holds out of it. */
  lemma TakingOne(y: Id, x: Id, released: seq<Id>)
    requires x != NIL && (y == x || y == NIL)
    ensures ClearChain([Chunk([y], if y == x then 1 else 0, 0)], [y])
         == [Chunk([NIL], if y == x then 0 else TWO64 - 1, if y == x then 0 else 1)]
    ensures released + NonNil(TakenChain([Chunk([y], if y == x then 1 else 0, 0)], [y])) == released + Entry(y)
  {
    var k := Chunk([y], if y == x then 1 else 0, 0);
    assert Taken([y], [y]) == [y] by {
      assert [y][..0] == [];
      assert Pick(y, [y]) == [y];
    }
    assert Clear([y], [y]) == [NIL];
    assert [k][1..] == [] && TakenChain([k], [y]) == [y];
    assert NonNil([y]) == Entry(y);
    assert Wrap(0) == 0 && Wrap(-1) == TWO64 - 1;
  }

  predicate OnlyAdds(run: seq<Command>) {
    forall i :: 0 <= i < |run| ==> run[i].Autorelease? || run[i].AutoreleaseMany?
  }

  /** Adding touches the innermost pool only. */
  lemma {:induction false} AddsGoToInnermost(s: State, run: seq<Command>, constants: set<Id>)
    requires AllowedRun(s, run, constants) && OnlyAdds(run) && s.pools != [] && CountsOkAll(s.pools)
    ensures var t := Run(s, run, constants);
      && t.released == s.released && t.pools != [] && t.pools[1..] == s.pools[1..]
      && (s.pools[0] != [] ==> t.pools[0] != [])
      && Inserted(t.pools[0]) == Inserted(s.pools[0]) + AcceptedRun(s, run, constants)
    decreases |run|
  {
    hide Inserted, AddOne, AddBlock;
    if run != [] {
      StepKeepsCounts(s, run[0], constants);
      AddGoesToInnermost(s, run[0], constants);
      AddsGoToInnermost(Step(s, run[0], constants), run[1..], constants);
    }
  }

  lemma AddGoesToInnermost(s: State, c: Command, constants: set<Id>)
    requires Allowed(s, c) && (c.Autorelease? || c.AutoreleaseMany?) && s.pools != [] && CountsOkAll(s.pools)
    ensures var t := Step(s, c, constants);
      && t.released == s.released && t.pools != [] && t.pools[1..] == s.pools[1..]
      && (s.pools[0] != [] ==> t.pools[0] != [])
      && Inserted(t.pools[0]) == Inserted(s.pools[0]) + Accepted(s, c, constants)
  {
    hide Inserted, AddOne, AddBlock;
    match c
    case Autorelease(p) =>
      AddOneInserts(s.pools[0], p);
      if s.pools[0] != [] {
        AddingLeavesChunks(s.pools[0], [p]);
      }
    case AutoreleaseMany(objects) =>
      AddBlockInserts(s.pools[0], objects);
      if s.pools[0] != [] {
        AddingLeavesChunks(s.pools[0], objects);
      }
  }

  /** How many objects come in blocks. */
  function Copied(run: seq<Command>): nat {
    if run == [] then 0 else (if run[0].AutoreleaseMany? then |run[0].objects| else 0) + Copied(run[1..])
  }

  predicate NoBlocks(run: seq<Command>) {
    forall i :: 0 <= i < |run| && run[i].AutoreleaseMany? ==> run[i].objects == []
  }

  lemma {:induction false} NothingCopiedIff(run: seq<Command>)
    ensures Copied(run) == 0 <==> NoBlocks(run)
  {
    if run != [] {
      NothingCopiedIff(run[1..]);
      assert forall i :: 0 < i < |run| ==> run[i] == run[1..][i - 1];
    }
  }

  lemma {:induction false} AddsMiss(s: State, run: seq<Command>, constants: set<Id>)
    requires AllowedRun(s, run, constants) && OnlyAdds(run) && s.pools != []
    ensures var t := Run(s, run, constants);
      && t.pools != [] && MissingTotal(t.pools[0]) == MissingTotal(s.pools[0]) + Copied(run)
      && Copied(run) <= |AcceptedRun(s, run, constants)|
    decreases |run|
  {
    hide AddOne, AddBlock, MissingTotal;
    if run != [] {
      var t := Step(s, run[0], constants);
      match run[0] {
        case Autorelease(p) => AddOneMisses(s.pools[0], p);
        case AutoreleaseMany(objects) =>
          AddBlockMisses(s.pools[0], objects);
        case _ =>
      }
      AddsMiss(t, run[1..], constants);
    }
  }

  /** Whatever is autoreleased, the total that is reported for the innermost pool stays right
      exactly as long as it fits 32 bits and there are no blocks. */
  lemma AddsAreCountedIff(s: State, run: seq<Command>, constants: set<Id>)
    requires AllowedRun(s, run, constants) && OnlyAdds(run) && s.pools != [] && CountsOkAll(s.pools)
    requires CountTotal(s.pools[0]) == |Inserted(s.pools[0])|
    ensures var t := Run(s, run, constants);
      && t.pools != []
      && (CountTotal(t.pools[0]) == |Inserted(t.pools[0])| <==> |Inserted(t.pools[0])| < TWO32 && NoBlocks(run))
  {
    hide Step, Allowed, Inserted, CountTotal, MissingTotal, CountsOk;
    var t := Run(s, run, constants);
    AddsGoToInnermost(s, run, constants);
    RunConserves(s, run, constants);
    AddsMiss(s, run, constants);
    NothingCopiedIff(run);
    CountTotalIsLiveIff(s.pools[0]);
    CountTotalIsLiveIff(t.pools[0]);
    if |Inserted(t.pools[0])| < TWO32 {
      FullTurns(MissingTotal(s.pools[0]), Copied(run));
    }
  }

  lemma {:induction false} AddingLeavesChunks(c: Chain, objects: seq<Id>)
    requires c != []
    ensures AddBlock(c, objects) != [] && (objects != [] ==> AddOne(c, objects[0]) != [])
    decreases |objects|
  {
    if objects != [] {
      var n := RunLength(WithRoom(c), objects);
      AddBlockStep(c, objects, n);
      AddingLeavesChunks(CopyRun(WithRoom(c), objects[..n]), objects[n..]);
    }
  }

  lemma {:induction false} AllowedRunAppend(s: State, a: seq<Command>, b: seq<Command>, constants: set<Id>)
    requires AllowedRun(s, a, constants) && AllowedRun(Run(s, a, constants), b, constants)
    ensures AllowedRun(s, a + b, constants)
    ensures Run(s, a + b, constants) == Run(Run(s, a, constants), b, constants)
    decreases |a|
  {
    hide Step, Allowed;
    if a == [] {
      assert a + b == b;
    } else {
      AllowedRunAppend(Step(s, a[0], constants), a[1..], b, constants);
      assert (a + b)[1..] == a[1..] + b;
    }
  }

  /** A pool scope: push, autorelease, pop. The stack is as before, and exactly what went into
      the scope has been released, the last one first, and after that what its deallocation
      brought in, pass by pass. */
  lemma ScopeReleasesInReverse(s: State, body: seq<Command>, turns: Turns, constants: set<Id>)
    requires CountsOkAll(s.pools) && OnlyAdds(body) && NilFree(turns)
    requires AllowedRun(Step(s, Push, constants), body, constants)
    ensures var run := [Push] + body + [Pop(0, [turns])];
      && AllowedRun(s, run, constants)
      && Run(s, run, constants)
         == State(s.pools,
                  s.released + (Reversed(AcceptedRun(Step(s, Push, constants), body, constants)) + Later(turns)))
  {
    hide Inserted, CountsOkAll, Accepted, Later, Drain, DrainPools;
    var pushed := Step(s, Push, constants);
    var filled := Run(pushed, body, constants);
    PushKeepsCounts(s);
    AddsGoToInnermost(pushed, body, constants);
    PoppingOne(filled, s, AcceptedRun(pushed, body, constants), turns, constants);
    RunOne(filled, Pop(0, [turns]), constants);
    AllowedRunAppend(pushed, body, [Pop(0, [turns])], constants);
    RunOne(s, Push, constants);
    AllowedRunAppend(s, [Push], body + [Pop(0, [turns])], constants);
    assert [Push] + body + [Pop(0, [turns])] == [Push] + (body + [Pop(0, [turns])]);
  }

  lemma PushKeepsCounts(s: State)
    requires CountsOkAll(s.pools)
    ensures CountsOkAll(Step(s, Push, {}).pools)
    ensures Step(s, Push, {}).pools[0] != [] && Inserted(Step(s, Push, {}).pools[0]) == []
  {
  }

  lemma RunOne(s: State, c: Command, constants: set<Id>)
    requires Allowed(s, c)
    ensures AllowedRun(s, [c], constants) && Run(s, [c], constants) == Step(s, c, constants)
  {
    hide Step, Allowed;
    assert [c][1..] == [];
  }

  lemma PoppingOne(filled: State, s: State, objects: seq<Id>, turns: Turns, constants: set<Id>)
    requires filled.pools != [] && filled.pools[1..] == s.pools && filled.released == s.released
    requires filled.pools[0] != [] && Inserted(filled.pools[0]) == objects && NilFree(turns)
    ensures Allowed(filled, Pop(0, [turns]))
    ensures Step(filled, Pop(0, [turns]), constants) == State(s.pools, s.released + (Reversed(objects) + Later(turns)))
  {
    hide Inserted, Reversed, Later, DrainPools;
    WipeChainReverses(filled.pools[0]);
    PopInnermost(filled, turns, constants);
    assert Leads(filled, Pop(0, [turns]), constants, Step(filled, Pop(0, [turns]), constants));
  }
}

/** The two counters kept beside the slots: each chunk's `count`, and the optional map from
    object to number of autoreleases. */
module PoolLedger {
  import opened Words
  import opened PoolSpec

  // ----- count -----

  /** `count` falls short of the live slots by `missing`, modulo 2^64. */
  predicate CountOk(k: Chunk) {
    && |k.slots| <= CAPACITY
    && k.count == Wrap(|NonNil(k.slots)| - k.missing)
  }

  predicate CountsOk(c: Chain) {
    forall i :: 0 <= i < |c| ==> CountOk(c[i])
  }

  lemma AddOneKeepsCounts(c: Chain, p: Id)
    requires CountsOk(c) && p != NIL
    ensures CountsOk(AddOne(c, p))
  {
    AddOneKeepsHead(c, p);
    hide CountOk;
    assert forall i :: 0 < i < |AddOne(c, p)| ==> AddOne(c, p)[i] == if CanAdd(c) then c[i] else c[i - 1];
  }

  lemma AddOneKeepsHead(c: Chain, p: Id)
    requires CountsOk(c) && p != NIL
    ensures CountOk(AddOne(c, p)[0])
  {
    hide NonNil, Wrap;
    NonNilOfLive([p]);
    CountOneMore(1, 0);
    if CanAdd(c) {
      NonNilAppend(c[0].slots, [p]);
      CountOneMore(|NonNil(c[0].slots)|, c[0].missing);
    }
  }

  lemma CountOneMore(n: nat, missing: nat)
    ensures Wrap(Wrap(n - missing) + 1) == Wrap(n + 1 - missing)
    ensures Wrap(1) == 1
  {
  }

  lemma CopyRunKeepsCounts(c: Chain, run: seq<Id>)
    requires CountsOk(c) && c != [] && |c[0].slots| + |run| <= CAPACITY && NIL !in run
    ensures CountsOk(CopyRun(c, run))
  {
    NonNilOfLive(run);
    NonNilAppend(c[0].slots, run);
  }

  lemma {:induction false} AddBlockKeepsCounts(c: Chain, objects: seq<Id>)
    requires CountsOk(c) && NIL !in objects
    ensures CountsOk(AddBlock(c, objects))
    decreases |objects|, if CanAdd(c) then 0 else 1
  {
    if objects == [] {
    } else if !CanAdd(c) {
      AddBlockKeepsCounts([Chunk([], 0, 0)] + c, objects);
    } else {
      var n := RunLength(c, objects);
      CopyRunKeepsCounts(c, objects[..n]);
      AddBlockKeepsCounts(CopyRun(c, objects[..n]), objects[n..]);
    }
  }

  /** What removal counts: the objects it takes, and with nil in the request the holes too. */
  lemma {:induction false} TakenSize(s: seq<Id>, request: seq<Id>)
    ensures |Taken(s, request)| + |NonNil(Clear(s, request))| == |NonNil(s)| + if NIL in request then Nils(s) else 0
  {
    if s != [] {
      var init, last := s[..|s| - 1], s[|s| - 1];
      assert s == init + [last];
      TakenSize(init, request);
      ClearSnoc(s, request);
      NonNilSnoc(s);
      NonNilSnoc(Clear(s, request));
      hide Clear, Taken, NonNil;
    }
  }

  lemma CountAfterClear(k: Chunk, request: seq<Id>)
    requires CountOk(k)
    ensures ClearChunk(k, request).count
         == Wrap(|NonNil(Clear(k.slots, request))| - k.missing - Nils(Taken(k.slots, request)))
  {
    var taken := Taken(k.slots, request);
    TakenSize(k.slots, request);
    TakesNoHoles(k.slots, request);
    hide Clear, Taken, NonNil, Wrap, Nils;
    WrapTwice(|NonNil(k.slots)| - k.missing, |taken|);
  }

  lemma ClearKeepsCount(k: Chunk, request: seq<Id>)
    requires CountOk(k)
    ensures CountOk(ClearChunk(k, request))
  {
    CountAfterClear(k, request);
    hide Clear, Taken, NonNil, Wrap, Nils;
  }

  /** Removal leaves `count` as far off as it was exactly if nil is not asked for, or there is
      no hole that would pass for it. */
  lemma ClearKeepsCountIff(k: Chunk, request: seq<Id>)
    requires CountOk(k)
    ensures ClearChunk(k, request).count == Wrap(|NonNil(Clear(k.slots, request))| - k.missing)
       <==> NIL !in request || NIL !in k.slots
  {
    hide *;
    CountAfterClear(k, request);
    HolesTakenIff(k.slots, request);
    CountBounds(k);
    WrapShift(|NonNil(Clear(k.slots, request))| - k.missing, Nils(Taken(k.slots, request)));
  }

  lemma CountBounds(k: Chunk)
    requires CountOk(k)
    ensures |k.slots| < TWO64
  {
  }

  lemma HolesTakenIff(s: seq<Id>, request: seq<Id>)
    ensures Nils(Taken(s, request)) <= |s|
    ensures Nils(Taken(s, request)) == 0 <==> NIL !in request || NIL !in s
  {
    TakesNoHoles(s, request);
    FewNils(s);
  }

  lemma FewNils(s: seq<Id>)
    ensures Nils(s) <= |s| && (Nils(s) == 0 <==> NIL !in s)
  {
    assert |multiset(s)| == |s|;
    assert multiset(s)[NIL] <= |multiset(s)| by {
      assert multiset(s) == multiset(s)[NIL := 0] + (multiset{}[NIL := multiset(s)[NIL]]);
    }
  }

  lemma ClearChainKeepsCounts(c: Chain, request: seq<Id>)
    requires CountsOk(c)
    ensures CountsOk(ClearChain(c, request))
  {
    forall i | 0 <= i < |c|
      ensures CountOk(ClearChain(c, request)[i])
    {
      ClearKeepsCount(c[i], request);
    }
  }

  /** A chunk's `count` is its number of live slots exactly when nothing is missing, in up to
      2^64 slots copied and holes counted off. */
  lemma CountIsLiveIff(k: Chunk)
    requires CountOk(k)
    ensures k.count == |NonNil(k.slots)| <==> k.missing % TWO64 == 0
  {
    NonNilSize(k.slots);
    WordDifference(|NonNil(k.slots)|, k.missing);
  }

  /** A chunk whose `count` was right is right after a run has been copied into it exactly if
      the run is empty. */
  lemma RunIsMissedIff(c: Chain, run: seq<Id>)
    requires CountsOk(c) && c != [] && |c[0].slots| + |run| <= CAPACITY && NIL !in run
    requires c[0].count == |NonNil(c[0].slots)|
    ensures var k := CopyRun(c, run)[0]; k.count == |NonNil(k.slots)| <==> run == []
  {
    NonNilAppend(c[0].slots, run);
    NonNilOfLive(run);
  }

  function MissingTotal(c: Chain): nat {
    if c == [] then 0 else c[0].missing + MissingTotal(c[1..])
  }

  function CountSum(c: Chain): nat {
    if c == [] then 0 else c[0].count + CountSum(c[1..])
  }

  /** What the debug helper reports, in an `unsigned int`. */
  function CountTotal(c: Chain): nat {
    Wrap32(CountSum(c))
  }

  lemma {:induction false} CountTotalMisses(c: Chain, d: int)
    requires CountsOk(c)
    ensures Wrap32(CountSum(c) + d) == Wrap32(|Inserted(c)| - MissingTotal(c) + d)
    decreases |c|
  {
    hide Wrap32, Wrap;
    if c != [] {
      var n := |NonNil(c[0].slots)| - c[0].missing;
      assert CountOk(c[0]);
      HalfOfWord(n, CountSum(c[1..]) + d);
      CountTotalMisses(c[1..], n + d);
    }
  }

  /** The reported number of autoreleases is right exactly when it fits 32 bits and what is
      missing from the counters is a multiple of 2^32, in practice nothing. */
  lemma CountTotalIsLiveIff(c: Chain)
    requires CountsOk(c)
    ensures CountTotal(c) == |Inserted(c)| <==> |Inserted(c)| < TWO32 && MissingTotal(c) % TWO32 == 0
  {
    CountTotalMisses(c, 0);
    WrapDifference(|Inserted(c)|, MissingTotal(c));
  }

  /** What the counters miss after a block copy. */
  lemma {:induction false} AddBlockMisses(c: Chain, objects: seq<Id>)
    ensures MissingTotal(AddBlock(c, objects)) == MissingTotal(c) + |objects|
    decreases |objects|, if CanAdd(c) then 0 else 1
  {
    if objects == [] {
    } else if !CanAdd(c) {
      AddBlockMisses([Chunk([], 0, 0)] + c, objects);
    } else {
      var n := RunLength(c, objects);
      AddBlockMisses(CopyRun(c, objects[..n]), objects[n..]);
    }
  }

  lemma AddOneMisses(c: Chain, p: Id)
    ensures MissingTotal(AddOne(c, p)) == MissingTotal(c)
  {
  }

  /** The holes of a chain. */
  function Holes(c: Chain): nat {
    if c == [] then 0 else Nils(c[0].slots) + Holes(c[1..])
  }

  lemma {:induction false} ClearMisses(c: Chain, request: seq<Id>)
    ensures MissingTotal(ClearChain(c, request)) == MissingTotal(c) + if NIL in request then Holes(c) else 0
  {
    if c != [] {
      ClearMisses(c[1..], request);
      TakesNoHoles(c[0].slots, request);
      hide Nils, Taken, Clear;
      assert ClearChain(c, request)[1..] == ClearChain(c[1..], request);
    }
  }

  /** A total that was right before a block is right afterwards exactly if the block is empty. */
  lemma BlockIsMissedIff(c: Chain, objects: seq<Id>)
    requires CountsOk(c) && NIL !in objects && CountTotal(c) == |Inserted(c)|
    ensures CountTotal(AddBlock(c, objects)) == |Inserted(AddBlock(c, objects))| <==> objects == []
  {
    hide CountTotal, AddBlock, Inserted, MissingTotal;
    CountTotalIsLiveIff(c);
    AddBlockKeepsCounts(c, objects);
    AddBlockInserts(c, objects);
    AddBlockMisses(c, objects);
    CountTotalIsLiveIff(AddBlock(c, objects));
    if |objects| < TWO32 {
      FullTurns(MissingTotal(c), |objects|);
    }
  }

  /** Less than a turn added to full turns is full turns only if it is nothing. */
  lemma FullTurns(turns: nat, d: nat)
    requires turns % TWO32 == 0
    ensures (turns + d) % TWO32 == d % TWO32
    ensures d < TWO32 ==> d % TWO32 == d
  {
  }

  lemma ClearLeavesFewer(c: Chain, request: seq<Id>)
    ensures |Inserted(ClearChain(c, request))| <= |Inserted(c)|
  {
    RemovalConserves(c, request);
    hide Inserted, ClearChain, TakenChain, NonNil;
    assert |Live(c)| == |Live(ClearChain(c, request))| + |multiset(NonNil(TakenChain(c, request)))|;
  }

  /** A total that was right before a removal is right afterwards exactly if nil is not asked
      for, or there is no hole (or 2^32 of them, or a multiple of that). */
  lemma RemovalIsMissedIff(c: Chain, request: seq<Id>)
    requires CountsOk(c) && CountTotal(c) == |Inserted(c)|
    ensures CountTotal(ClearChain(c, request)) == |Inserted(ClearChain(c, request))|
       <==> NIL !in request || Holes(c) % TWO32 == 0
  {
    hide CountTotal, Inserted, MissingTotal, ClearChain, Holes, CountsOk;
    CountTotalIsLiveIff(c);
    ClearChainKeepsCounts(c, request);
    ClearMisses(c, request);
    ClearLeavesFewer(c, request);
    CountTotalIsLiveIff(ClearChain(c, request));
    FullTurns(MissingTotal(c), Holes(c));
  }

  /** The smallest failure: one object added as a block of one is live and not counted. */
  lemma BlockCopyIsNotCounted(p: Id)
    requires p != NIL
    ensures Inserted(AddBlock([], [p])) == [p] && CountTotal(AddBlock([], [p])) == 0
    ensures CountTotal(AddOne([], p)) == 1
  {
    AddBlockOfOne(p);
    AddBlockInserts([], [p]);
    hide AddBlock, Inserted;
    OneChunkTotal(Chunk([p], 0, 1));
    OneChunkTotal(Chunk([p], 1, 0));
  }

  lemma AddBlockOfOne(p: Id)
    ensures AddBlock([], [p]) == [Chunk([p], 0, 1)] && AddOne([], p) == [Chunk([p], 1, 0)]
  {
    AddBlockStep([], [p], 1);
    AddBlockEnds([Chunk([p], 0, 1)], []);
    assert [p][..1] == [p] && [p][1..] == [] && [] + [p] == [p];
  }

  lemma OneChunkTotal(k: Chunk)
    ensures k.count < TWO32 ==> CountTotal([k]) == k.count
  {
    assert CountSum([k]) == k.count + CountSum([]);
  }

  // ----- the map -----

  type ObjectCounts = map<Id, nat>

  /** The map holds the multiplicity of every object in `live`, and no key besides. */
  ghost predicate Represents(m: ObjectCounts, live: multiset<Id>) {
    forall x :: (x in m <==> x in live) && (x in m ==> m[x] == live[x])
  }

  function Lookup(m: ObjectCounts, x: Id): nat {
    if x in m then m[x] else 0
  }

  function Note(m: ObjectCounts, x: Id): ObjectCounts {
    m[x := Lookup(m, x) + 1]
  }

  function NoteEach(m: ObjectCounts, xs: seq<Id>): ObjectCounts
    decreases |xs|
  {
    if xs == [] then m else NoteEach(Note(m, xs[0]), xs[1..])
  }

  function Forget(m: ObjectCounts, x: Id): ObjectCounts
    requires Lookup(m, x) > 0
  {
    if m[x] == 1 then m - {x} else m[x := m[x] - 1]
  }

  lemma NoteRepresents(m: ObjectCounts, live: multiset<Id>, x: Id)
    requires Represents(m, live)
    ensures Represents(Note(m, x), live + multiset{x})
  {
  }

  lemma {:induction false} NoteEachRepresents(m: ObjectCounts, live: multiset<Id>, xs: seq<Id>)
    requires Represents(m, live)
    ensures Represents(NoteEach(m, xs), live + multiset(xs))
    decreases |xs|
  {
    if xs == [] {
      assert live + multiset(xs) == live;
    } else {
      NoteRepresents(m, live, xs[0]);
      NoteEachRepresents(Note(m, xs[0]), live + multiset{xs[0]}, xs[1..]);
      assert xs == [xs[0]] + xs[1..];
      assert live + multiset(xs) == live + multiset{xs[0]} + multiset(xs[1..]);
    }
  }

  /** Forgetting a live object never meets a zero, and drops the key with the last one. */
  lemma ForgetRepresents(m: ObjectCounts, live: multiset<Id>, x: Id)
    requires Represents(m, live + multiset{x})
    ensures Lookup(m, x) > 0 && Represents(Forget(m, x), live)
  {
    assert x in m && m[x] == live[x] + 1;
  }

  /** The map after objects have been taken off it one by one, or nothing if one of them
      appeared out of nowhere. */
  function ForgetEach(m: ObjectCounts, xs: seq<Id>): Option<ObjectCounts>
    decreases |xs|
  {
    if xs == [] then Some(m)
    else if Lookup(m, xs[0]) == 0 then None
    else ForgetEach(Forget(m, xs[0]), xs[1..])
  }

  lemma LookupForget(m: ObjectCounts, x: Id, y: Id)
    requires Lookup(m, x) > 0
    ensures Lookup(Forget(m, x), y) == if x == y then Lookup(m, x) - 1 else Lookup(m, y)
  {
  }

  /** Objects can be taken off the map exactly if it holds at least as many of each. */
  lemma {:induction false} ForgetEachIff(m: ObjectCounts, xs: seq<Id>)
    ensures ForgetEach(m, xs).Some? <==> forall x :: multiset(xs)[x] <= Lookup(m, x)
    decreases |xs|
  {
    if xs != [] {
      hide Lookup, Forget;
      assert xs == [xs[0]] + xs[1..];
      assert multiset(xs) == multiset{xs[0]} + multiset(xs[1..]);
      if Lookup(m, xs[0]) == 0 {
        assert multiset(xs)[xs[0]] > Lookup(m, xs[0]);
      } else {
        var n := Forget(m, xs[0]);
        ForgetEachIff(n, xs[1..]);
        forall x
          ensures multiset(xs)[x] <= Lookup(m, x) <==> multiset(xs[1..])[x] <= Lookup(n, x)
        {
          LookupForget(m, xs[0], x);
        }
      }
    }
  }

  /** The map never holds a zero. */
  predicate NoZeros(m: ObjectCounts) {
    forall x :: x in m ==> m[x] > 0
  }

  ghost function Held(m: ObjectCounts): multiset<Id>
    decreases |m|
  {
    if m == map[] then multiset{}
    else
      var x :| x in m;
      Held(m - {x})[x := m[x]]
  }

  lemma {:induction false} HeldIsLookup(m: ObjectCounts, x: Id)
    ensures Held(m)[x] == Lookup(m, x)
    decreases |m|
  {
    if m != map[] {
      var y :| y in m && Held(m) == Held(m - {y})[y := m[y]];
      HeldIsLookup(m - {y}, x);
    }
  }

  /** The exact condition under which a map will do for live objects, whatever else it holds:
      it is at least their multiplicity for each of them. The rest is a surplus. */
  lemma SurplusIff(m: ObjectCounts, live: multiset<Id>)
    requires NoZeros(m)
    ensures (exists surplus :: Represents(m, live + surplus)) <==> forall x :: live[x] <= Lookup(m, x)
  {
    if forall x :: live[x] <= Lookup(m, x) {
      var surplus := Held(m) - live;
      forall x
        ensures (live + surplus)[x] == Lookup(m, x)
      {
        HeldIsLookup(m, x);
      }
      assert Represents(m, live + surplus);
    }
  }

  /** A map that holds live objects and nothing else does not know nil: taking a hole off it
      trips the assertion. */
  lemma NilIsOutOfNowhere(m: ObjectCounts, c: Chain, others: multiset<Id>, xs: seq<Id>)
    requires Represents(m, Live(c) + others) && NIL !in others && NIL in xs
    ensures Lookup(m, NIL) == 0 && ForgetEach(m, xs).None?
  {
    LiveHasNoNil(c);
    assert NIL !in Live(c) + others;
    ForgetEachIff(m, xs);
    assert multiset(xs)[NIL] > 0;
  }

  /** The nils among some slots. */
  function NilsOf(taken: seq<Id>): multiset<Id> {
    multiset{}[NIL := Nils(taken)]
  }

  lemma NilsAndOthers(taken: seq<Id>)
    ensures multiset(taken) == multiset(NonNil(taken)) + NilsOf(taken)
    ensures NIL !in taken ==> Nils(taken) == 0 && NilsOf(taken) == multiset{}
  {
    NonNilSize(taken);
  }

  /** Objects that the map holds can be taken off it, together with some holes, exactly if it
      holds as many nils. */
  lemma HolesAreAnsweredIff(m: ObjectCounts, taken: seq<Id>, others: multiset<Id>)
    requires Represents(m, multiset(NonNil(taken)) + others)
    ensures ForgetEach(m, taken).Some? <==> Nils(taken) <= Lookup(m, NIL)
  {
    hide NonNil, ForgetEach, Represents, Lookup;
    NilsAndOthers(taken);
    ForgetEachIff(m, taken);
    forall x
      ensures multiset(taken)[x] <= Lookup(m, x) <==> x != NIL || Nils(taken) <= Lookup(m, NIL)
    {
      RepresentsLookup(m, multiset(NonNil(taken)) + others, x);
      NonNilSize(taken);
    }
  }

  // ----- counting blocks -----

  /** The words that the counting loop in front of the block copy looks at: one behind the
      other, whatever the distance between the objects. */
  function CountedWords(memory: Memory, count: nat, step: nat): seq<Id>
    requires InBuffer(memory, 0, count, step) && step >= WORD
  {
    WordsFit(memory, 0, 0, count, step);
    Gather(memory, 0, count, WORD)
  }

  predicate CountedRight(memory: Memory, count: nat, step: nat)
    requires InBuffer(memory, 0, count, step) && step >= WORD
  {
    multiset(CountedWords(memory, count, step)) == multiset(Gather(memory, 0, count, step))
  }

  /** After a block has been autoreleased the map is right exactly if the words it counted are
      the objects that went into the pool. */
  lemma BlockIsCountedIff(m: ObjectCounts, live: multiset<Id>, memory: Memory, count: nat, step: nat)
    requires Represents(m, live) && InBuffer(memory, 0, count, step) && step >= WORD
    ensures Represents(NoteEach(m, CountedWords(memory, count, step)), live + multiset(Gather(memory, 0, count, step)))
       <==> CountedRight(memory, count, step)
  {
    hide NoteEach, Gather, CountedWords;
    var words, objects := CountedWords(memory, count, step), Gather(memory, 0, count, step);
    var n, counted, added := NoteEach(m, words), multiset(words), multiset(objects);
    NoteEachRepresents(m, live, words);
    if Represents(n, live + added) {
      forall x
        ensures counted[x] == added[x]
      {
        assert x in live + counted <==> x in live + added;
        assert (live + counted)[x] == (live + added)[x];
      }
    }
  }

  /** After a block, releasing everything that is live never meets an object out of nowhere
      exactly if the objects of the block are among the counted words and what the map held
      too much before. */
  lemma BlockSurvivesIff(m: ObjectCounts, live: multiset<Id>, surplus: multiset<Id>, counted: seq<Id>, objects: seq<Id>,
                         released: seq<Id>)
    requires Represents(m, live + surplus) && multiset(released) == live + multiset(objects)
    ensures ForgetEach(NoteEach(m, counted), released).Some? <==> multiset(objects) <= surplus + multiset(counted)
  {
    var n, held := NoteEach(m, counted), live + surplus + multiset(counted);
    NoteEachRepresents(m, live + surplus, counted);
    ForgetEachIff(n, released);
    hide NoteEach, ForgetEach;
    forall x
      ensures multiset(released)[x] <= Lookup(n, x) <==> multiset(objects)[x] <= (surplus + multiset(counted))[x]
    {
      RepresentsLookup(n, held, x);
    }
  }

  lemma RepresentsLookup(m: ObjectCounts, live: multiset<Id>, x: Id)
    requires Represents(m, live)
    ensures Lookup(m, x) == live[x]
  {
  }

  /** The counting loop goes word by word, so only dense buffers and buffers of one object
      are sure to be counted right. */
  lemma StepIsCountedIff(count: nat, step: nat)
    requires step >= WORD
    ensures (forall memory :: InBuffer(memory, 0, count, step) && NIL !in Gather(memory, 0, count, step)
                              ==> CountedRight(memory, count, step))
       <==> step == WORD || count <= 1
  {
    hide Gather, InBuffer;
    if step == WORD || count <= 1 {
      forall memory | InBuffer(memory, 0, count, step)
        ensures CountedRight(memory, count, step)
      {
        if step != WORD {
          GatherOne(memory, count, step);
        }
      }
    } else {
      StepMiscounts(count, step);
    }
  }

  lemma GatherOne(memory: Memory, count: nat, step: nat)
    requires count <= 1 && InBuffer(memory, 0, count, step)
    ensures InBuffer(memory, 0, count, WORD) && Gather(memory, 0, count, step) == Gather(memory, 0, count, WORD)
  {
    hide Read;
  }

  /** Memory full of ones, but for the byte behind the first word. */
  function OneOdd(size: nat): (memory: Memory)
    ensures |memory| == size
    ensures forall i :: 0 <= i < size ==> memory[i] == if i == WORD then 2 else 1
  {
    seq(size, i requires 0 <= i < size => if i == WORD then 2 else 1)
  }

  const ONES: seq<nat> := [1, 1, 1, 1, 1, 1, 1, 1]
  const ODD: seq<nat> := [2, 1, 1, 1, 1, 1, 1, 1]

  lemma OddIsOther()
    ensures Number(ODD) == Number(ONES) + 1 && Number(ONES) > 0
  {
    assert ODD[1..] == ONES[1..];
  }

  /** A buffer that is miscounted: the second word lies between the objects. */
  lemma StepMiscounts(count: nat, step: nat)
    requires count > 1 && step > WORD
    ensures exists memory :: InBuffer(memory, 0, count, step) && NIL !in Gather(memory, 0, count, step)
                             && !CountedRight(memory, count, step)
  {
    hide Gather, InBuffer, Number;
    var memory := OneOdd(count * step + WORD);
    OddIsOther();
    OnesAreGathered(memory, 0, count, step);
    WordsFit(memory, 0, 0, count, step);
    GatherAt(memory, 0, count, WORD, 1);
    assert memory[WORD..2 * WORD] == ODD;
    var words, objects := CountedWords(memory, count, step), Gather(memory, 0, count, step);
    assert words[1] == Number(ODD) && Number(ODD) !in objects;
    assert Number(ODD) in multiset(words) && Number(ODD) !in multiset(objects);
  }

  lemma {:induction false} OnesAreGathered(memory: Memory, pos: nat, count: nat, step: nat)
    requires memory == OneOdd(|memory|) && pos + count * step + WORD <= |memory| && step > WORD
    requires pos == 0 || pos > WORD
    ensures InBuffer(memory, pos, count, step)
    ensures forall x :: x in Gather(memory, pos, count, step) ==> x == Number(ONES)
    decreases count
  {
    hide Number;
    if count > 0 {
      assert count * step == (count - 1) * step + step;
      assert count * step >= step;
      OnesAreGathered(memory, pos + step, count - 1, step);
      assert memory[pos..pos + WORD] == ONES;
    }
  }
}

/** Handing objects from thread to thread through one shared pointer: any number of threads
    that recycle and acquire in any interleaving. */
module Handovers {
  import opened Words

  /** Where a thread is in the function it is executing. `since` and `stamp` are lengths of the
      log: when the function was called, and when `value` was last seen in the slot. `at` is the
      position of the call's own event, `retries` the number of compare-and-swaps of an acquire that
      have failed. */
  datatype Pc =
    | Idle
    | Storing(obj: Id, since: nat)
    | Refused(obj: Id, since: nat, at: nat)
    | Looking(since: nat)
    | Trying(value: Id, since: nat, stamp: nat, retries: nat)
    | Gaining(obj: Id, since: nat, at: nat, retries: nat)

  /** What a call has returned: a recycle of nil passes without touching the slot. */
  datatype Result =
    | Passed
    | Acquired(obj: Id, since: nat, at: nat, finish: nat, retries: nat)
    | Recycled(obj: Id, ok: bool, since: nat, at: nat, finish: nat)

  /** `held` is what the thread has access to, `results` what its calls have returned so far. */
  datatype Thread = Thread(pc: Pc, held: multiset<Id>, results: seq<Result>)

  datatype Affinity = Of(thread: nat) | NoThread

  /** What a call does to the slot, once and for all. */
  datatype Event = Put(who: nat, obj: Id, ok: bool) | Took(who: nat, obj: Id)

  /** The strategies of the `fixed` objects leave the affinity alone. */
  datatype State = State(slot: Id, threads: seq<Thread>, affinity: map<Id, Affinity>, fixed: set<Id>, log: seq<Event>)

  /** `Go` is the next atomic step of the function the thread is executing. */
  datatype Action =
    | Create(t: nat, obj: Id, fix: bool)
    | Recycle(t: nat, obj: Id)
    | Acquire(t: nat)
    | Go(t: nat)

  /** Any number of threads, no objects yet. */
  function Start(threads: nat): State {
    State(NIL, seq(threads, _ => Thread(Idle, multiset{}, [])), map[], {}, [])
  }

  predicate Can(s: State, a: Action) {
    a.t < |s.threads| &&
    match a
    case Create(t, obj, fix) => obj != NIL && obj !in s.affinity
    case Recycle(t, obj) => s.threads[t].pc.Idle? && (obj == NIL || obj in s.threads[t].held)
    case Acquire(t) => s.threads[t].pc.Idle?
    case Go(t) => !s.threads[t].pc.Idle?
  }

  function With(s: State, t: nat, thread: Thread): State
    requires t < |s.threads|
  {
    s.(threads := s.threads[t := thread])
  }

  /** The thread's call is over. */
  function Ended(thread: Thread, result: Result): Thread {
    thread.(pc := Idle, results := thread.results + [result])
  }

  function Log(s: State, e: Event): State {
    s.(log := s.log + [e])
  }

  function Affine(s: State, obj: Id, affinity: Affinity): State {
    if obj in s.fixed then s else s.(affinity := s.affinity[obj := affinity])
  }

  /** Relinquishing access: the object has no thread any more. */
  function Relinquish(s: State, t: nat, obj: Id): State
    requires t < |s.threads|
  {
    var thread := s.threads[t].(pc := Storing(obj, |s.log|), held := s.threads[t].held - multiset{obj});
    Affine(With(s, t, thread), obj, NoThread)
  }

  /** Gaining access: the object belongs to the thread. */
  function Gain(s: State, t: nat, obj: Id, result: Result): State
    requires t < |s.threads|
  {
    Affine(With(s, t, Ended(s.threads[t].(held := s.threads[t].held + multiset{obj}), result)), obj, Of(t))
  }

  /** The compare-and-swap of a recycle, from NULL to the object. */
  function TryStore(s: State, t: nat): State
    requires t < |s.threads| && s.threads[t].pc.Storing?
  {
    var pc := s.threads[t].pc;
    if s.slot == NIL then
      var result := Recycled(pc.obj, true, pc.since, |s.log|, |s.log| + 1);
      Log(With(s, t, Ended(s.threads[t], result)).(slot := pc.obj), Put(t, pc.obj, true))
    else Log(With(s, t, s.threads[t].(pc := Refused(pc.obj, pc.since, |s.log|))), Put(t, pc.obj, false))
  }

  function FoundEmpty(s: State, t: nat, since: nat, retries: nat): State
    requires t < |s.threads|
  {
    Log(With(s, t, Ended(s.threads[t], Acquired(NIL, since, |s.log|, |s.log| + 1, retries))), Took(t, NIL))
  }

  /** The compare-and-swap of an acquire, from the value last seen to NULL; if it fails, it
      shows what is there instead. */
  function TryTake(s: State, t: nat): State
    requires t < |s.threads| && s.threads[t].pc.Trying?
  {
    var pc := s.threads[t].pc;
    if s.slot == NIL then FoundEmpty(s, t, pc.since, pc.retries + 1)
    else if s.slot == pc.value then
      var thread := s.threads[t].(pc := Gaining(pc.value, pc.since, |s.log|, pc.retries));
      Log(With(s, t, thread).(slot := NIL), Took(t, pc.value))
    else With(s, t, s.threads[t].(pc := Trying(s.slot, pc.since, |s.log|, pc.retries + 1)))
  }

  /** The result of a call that is about to gain access to an object. */
  function ResultOf(pc: Pc, finish: nat): Result
    requires pc.Refused? || pc.Gaining?
  {
    if pc.Refused? then Recycled(pc.obj, false, pc.since, pc.at, finish)
    else Acquired(pc.obj, pc.since, pc.at, finish, pc.retries)
  }

  function Next(s: State, a: Action): State
    requires Can(s, a)
  {
    match a
    case Create(t, obj, fix) =>
      With(s, t, s.threads[t].(held := s.threads[t].held + multiset{obj}))
      .(affinity := s.affinity[obj := Of(t)], fixed := if fix then s.fixed + {obj} else s.fixed)
    case Recycle(t, obj) =>
      if obj == NIL then With(s, t, Ended(s.threads[t], Passed)) else Relinquish(s, t, obj)
    case Acquire(t) => With(s, t, s.threads[t].(pc := Looking(|s.log|)))
    case Go(t) =>
      var pc := s.threads[t].pc;
      match pc
      case Idle => s
      case Storing(obj, since) => TryStore(s, t)
      case Refused(obj, since, at) => Gain(s, t, obj, ResultOf(pc, |s.log|))
      case Looking(since) =>
        if s.slot == NIL then FoundEmpty(s, t, since, 0)
        else With(s, t, s.threads[t].(pc := Trying(s.slot, since, |s.log|, 0)))
      case Trying(value, since, stamp, retries) => TryTake(s, t)
      case Gaining(obj, since, at, retries) => Gain(s, t, obj, ResultOf(pc, |s.log|))
  }

  predicate CanRun(s: State, run: seq<Action>)
    decreases |run|
  {
    run == [] || (Can(s, run[0]) && CanRun(Next(s, run[0]), run[1..]))
  }

  function After(s: State, run: seq<Action>): State
    requires CanRun(s, run)
    decreases |run|
  {
    if run == [] then s else After(Next(s, run[0]), run[1..])
  }

  lemma {:induction false} RunOneMore(s: State, run: seq<Action>, a: Action)
    requires CanRun(s, run) && Can(After(s, run), a)
    ensures CanRun(s, run + [a]) && After(s, run + [a]) == Next(After(s, run), a)
    decreases |run|
  {
    hide Next, Can;
    if run == [] {
      assert [a][1..] == [] && [] + [a] == [a];
    } else {
      RunOneMore(Next(s, run[0]), run[1..], a);
      assert (run + [a])[1..] == run[1..] + [a];
    }
  }

  // ----- every object is in one place -----

  /** The object that a thread has taken out of the slot or is about to put there. */
  function Carried(pc: Pc): Id {
    match pc
    case Storing(obj, since) => obj
    case Refused(obj, since, at) => obj
    case Gaining(obj, since, at, retries) => obj
    case _ => NIL
  }

  function InTransit(thread: Thread, x: Id): nat {
    if Carried(thread.pc) == x then 1 else 0
  }

  /** In how many of these threads' hands `x` is, held or in transit. */
  function InHands(threads: seq<Thread>, x: Id): nat {
    if threads == [] then 0 else threads[0].held[x] + InTransit(threads[0], x) + InHands(threads[1..], x)
  }

  /** In how many places `x` is. */
  function Places(s: State, x: Id): nat {
    InHands(s.threads, x) + if s.slot == x then 1 else 0
  }

  lemma {:induction false} InHandsChanges(threads: seq<Thread>, t: nat, thread: Thread, x: Id)
    requires t < |threads|
    ensures InHands(threads[t := thread], x) + threads[t].held[x] + InTransit(threads[t], x)
         == InHands(threads, x) + thread.held[x] + InTransit(thread, x)
    decreases |threads|
  {
    hide InTransit;
    if t == 0 {
      assert threads[0 := thread][1..] == threads[1..];
    } else {
      InHandsChanges(threads[1..], t - 1, thread, x);
      assert threads[t := thread][1..] == threads[1..][t - 1 := thread];
    }
  }

  lemma {:induction false} InHandsHas(threads: seq<Thread>, t: nat, x: Id)
    requires t < |threads|
    ensures threads[t].held[x] + InTransit(threads[t], x) <= InHands(threads, x)
    decreases |threads|
  {
    hide InTransit;
    if t > 0 {
      InHandsHas(threads[1..], t - 1, x);
    }
  }

  lemma {:induction false} InTwoHands(threads: seq<Thread>, t: nat, u: nat, x: Id)
    requires t < u < |threads|
    ensures threads[t].held[x] + InTransit(threads[t], x) + threads[u].held[x] + InTransit(threads[u], x)
         <= InHands(threads, x)
    decreases |threads|
  {
    hide InTransit;
    if t > 0 {
      InTwoHands(threads[1..], t - 1, u - 1, x);
    } else {
      InHandsHas(threads[1..], u - 1, x);
    }
  }

  /** The affinity of an object says who has access to it. */
  predicate AffinityOk(s: State, x: Id) {
    x in s.affinity && x !in s.fixed ==>
      match s.affinity[x]
      case Of(t) => t < |s.threads| && s.threads[t].held[x] == 1
      case NoThread => forall t :: 0 <= t < |s.threads| ==> s.threads[t].held[x] == 0
  }

  predicate ObjectOk(s: State, x: Id) {
    && (x != NIL ==> Places(s, x) == if x in s.affinity then 1 else 0)
    && AffinityOk(s, x)
  }

  predicate NilFree(thread: Thread) {
    && thread.held[NIL] == 0
    && (thread.pc.Storing? || thread.pc.Refused? || thread.pc.Gaining? ==> thread.pc.obj != NIL)
    && (thread.pc.Trying? ==> thread.pc.value != NIL)
  }

  predicate NilOk(s: State) {
    && NIL !in s.affinity
    && forall t :: 0 <= t < |s.threads| ==> NilFree(s.threads[t])
  }

  /** What one thread and the slot have of `x` between them. */
  function Here(s: State, t: nat, x: Id): nat
    requires t < |s.threads|
  {
    s.threads[t].held[x] + InTransit(s.threads[t], x) + if s.slot == x then 1 else 0
  }

  lemma PlacesChange(s: State, u: State, t: nat, x: Id)
    requires t < |s.threads| && |u.threads| == |s.threads| && u.threads == s.threads[t := u.threads[t]]
    ensures Places(u, x) + Here(s, t, x) == Places(s, x) + Here(u, t, x)
  {
    hide InTransit, InHands;
    InHandsChanges(s.threads, t, u.threads[t], x);
  }

  lemma OnlyOneThreadMoves(s: State, a: Action)
    requires Can(s, a)
    ensures |Next(s, a).threads| == |s.threads| && Next(s, a).threads == s.threads[a.t := Next(s, a).threads[a.t]]
  {
  }

  /** A step passes objects around between its thread and the slot, and creates one at most. */
  lemma StepPassesOn(s: State, a: Action, x: Id)
    requires Can(s, a) && NilOk(s) && x != NIL
    ensures Here(Next(s, a), a.t, x) == Here(s, a.t, x) + if a.Create? && a.obj == x then 1 else 0
  {
    if a.Go? {
      GoPassesOn(s, a.t, x);
    } else {
      assert NilFree(s.threads[a.t]);
    }
  }

  lemma GoPassesOn(s: State, t: nat, x: Id)
    requires Can(s, Go(t)) && NilOk(s) && x != NIL
    ensures Here(Next(s, Go(t)), t, x) == Here(s, t, x)
  {
    var thread := s.threads[t];
    assert NilFree(thread);
    if thread.pc.Storing? {
      assert Here(TryStore(s, t), t, x) == Here(s, t, x);
    } else if thread.pc.Trying? {
      assert Here(TryTake(s, t), t, x) == Here(s, t, x);
    } else if thread.pc.Refused? || thread.pc.Gaining? {
      GainPassesOn(s, t, thread.pc.obj, ResultOf(thread.pc, |s.log|), x);
    }
  }

  lemma GainPassesOn(s: State, t: nat, obj: Id, result: Result, x: Id)
    requires t < |s.threads| && Carried(s.threads[t].pc) == obj && x != NIL
    ensures Here(Gain(s, t, obj, result), t, x) == Here(s, t, x)
  {
  }

  lemma NextKeepsPlaces(s: State, a: Action, x: Id)
    requires Can(s, a) && NilOk(s) && x != NIL
    ensures Places(Next(s, a), x) == Places(s, x) + if a.Create? && a.obj == x then 1 else 0
  {
    hide Next, Here, Places;
    OnlyOneThreadMoves(s, a);
    StepPassesOn(s, a, x);
    PlacesChange(s, Next(s, a), a.t, x);
  }

  lemma NextKeepsNil(s: State, a: Action)
    requires Can(s, a) && NilOk(s)
    ensures NilOk(Next(s, a))
  {
    NextIsNilFree(s, a);
    OnlyOneThreadMoves(s, a);
    hide Next, NilFree, Can;
  }

  lemma NextIsNilFree(s: State, a: Action)
    requires Can(s, a) && NilOk(s)
    ensures a.t < |Next(s, a).threads| && NilFree(Next(s, a).threads[a.t]) && NIL !in Next(s, a).affinity
  {
    assert NilFree(s.threads[a.t]);
    if a.Go? {
      var pc := s.threads[a.t].pc;
      if pc.Refused? || pc.Gaining? {
        GainIsNilFree(s, a.t, pc.obj, ResultOf(pc, |s.log|));
      }
    }
  }

  lemma GainIsNilFree(s: State, t: nat, obj: Id, result: Result)
    requires t < |s.threads| && NilFree(s.threads[t]) && obj != NIL && NIL !in s.affinity
    ensures var u := Gain(s, t, obj, result); t < |u.threads| && NilFree(u.threads[t]) && NIL !in u.affinity
  {
  }

  /** An object in the hands of one thread is not in those of another. */
  lemma InOneHand(s: State, t: nat, x: Id)
    requires t < |s.threads| && Places(s, x) <= 1
    requires s.threads[t].held[x] + InTransit(s.threads[t], x) > 0
    ensures s.threads[t].held[x] + InTransit(s.threads[t], x) == 1
    ensures forall u :: 0 <= u < |s.threads| && u != t ==> s.threads[u].held[x] == 0 && InTransit(s.threads[u], x) == 0
    ensures s.slot != x && Places(s, x) == 1
  {
    hide InTransit, InHands;
    InHandsHas(s.threads, t, x);
    forall u | 0 <= u < |s.threads| && u != t
      ensures s.threads[u].held[x] == 0 && InTransit(s.threads[u], x) == 0
    {
      InTwoHands(s.threads, if t < u then t else u, if t < u then u else t, x);
    }
  }

  lemma InNoHand(s: State, x: Id)
    requires Places(s, x) == 0
    ensures forall u :: 0 <= u < |s.threads| ==> s.threads[u].held[x] == 0
  {
    hide InTransit, InHands;
    forall u | 0 <= u < |s.threads|
      ensures s.threads[u].held[x] == 0
    {
      InHandsHas(s.threads, u, x);
    }
  }

  lemma RelinquishKeepsAffinity(s: State, t: nat, obj: Id, x: Id)
    requires t < |s.threads| && AffinityOk(s, x)
    requires s.threads[t].held[obj] == 1 && forall u :: 0 <= u < |s.threads| && u != t ==> s.threads[u].held[obj] == 0
    ensures AffinityOk(Relinquish(s, t, obj), x)
  {
  }

  lemma GainKeepsAffinity(s: State, t: nat, obj: Id, result: Result, x: Id)
    requires t < |s.threads| && AffinityOk(s, x)
    requires s.threads[t].held[obj] == 0
    ensures AffinityOk(Gain(s, t, obj, result), x)
  {
  }

  /** Only these steps touch held objects and their affinity. */
  lemma OtherStepsKeepAffinity(s: State, a: Action, x: Id)
    requires Can(s, a) && (a.Acquire? || (a.Recycle? && a.obj == NIL) || (a.Go? && Carried(s.threads[a.t].pc) == NIL)
                           || (a.Go? && s.threads[a.t].pc.Storing?))
    requires NilOk(s) && AffinityOk(s, x)
    ensures AffinityOk(Next(s, a), x)
  {
  }

  /** Affinity follows the object out of one thread and into another. */
  lemma NextKeepsAffinity(s: State, a: Action, x: Id)
    requires Can(s, a) && Ok(s)
    ensures AffinityOk(Next(s, a), x)
  {
    hide Places, AffinityOk, InTransit, Relinquish, Gain;
    assert ObjectOk(s, x);
    match a
    case Create(t, obj, fix) =>
      assert ObjectOk(s, obj);
      CreateKeepsAffinity(s, t, obj, fix, x);
    case Recycle(t, obj) =>
      if obj == NIL {
        OtherStepsKeepAffinity(s, a, x);
      } else {
        assert ObjectOk(s, obj);
        InOneHand(s, t, obj);
        RelinquishKeepsAffinity(s, t, obj, x);
      }
    case Acquire(t) =>
      OtherStepsKeepAffinity(s, a, x);
    case Go(t) =>
      var pc := s.threads[t].pc;
      if pc.Refused? || pc.Gaining? {
        assert ObjectOk(s, pc.obj);
        CarriedIsInTransit(s, t);
        InOneHand(s, t, pc.obj);
        GainKeepsAffinity(s, t, pc.obj, ResultOf(pc, |s.log|), x);
      } else {
        OtherStepsKeepAffinity(s, a, x);
      }
  }

  lemma CarriedIsInTransit(s: State, t: nat)
    requires t < |s.threads|
    ensures InTransit(s.threads[t], Carried(s.threads[t].pc)) == 1
  {
  }

  lemma CreateKeepsAffinity(s: State, t: nat, obj: Id, fix: bool, x: Id)
    requires Can(s, Create(t, obj, fix)) && ObjectOk(s, obj) && AffinityOk(s, x)
    ensures AffinityOk(Next(s, Create(t, obj, fix)), x)
  {
    hide Places;
    InNoHand(s, obj);
  }

  ghost predicate Ok(s: State) {
    NilOk(s) && forall x :: ObjectOk(s, x)
  }

  lemma NextKeepsOk(s: State, a: Action)
    requires Can(s, a) && Ok(s)
    ensures Ok(Next(s, a))
  {
    NextKeepsNil(s, a);
    hide NilOk, AffinityOk, Places, Next;
    forall x
      ensures ObjectOk(Next(s, a), x)
    {
      assert ObjectOk(s, x);
      NextKeepsAffinity(s, a, x);
      if x != NIL {
        NextKeepsPlaces(s, a, x);
        NextKeepsObjects(s, a, x);
      }
    }
  }

  lemma NextKeepsObjects(s: State, a: Action, x: Id)
    requires Can(s, a) && NilOk(s) && x != NIL && ObjectOk(s, x)
    ensures x in Next(s, a).affinity <==> x in s.affinity || (a.Create? && a.obj == x)
  {
    hide Places;
    if a.Recycle? && a.obj == x {
      InOneHand(s, a.t, x);
    } else if a.Go? && Carried(s.threads[a.t].pc) == x {
      InOneHand(s, a.t, x);
    }
  }

  lemma {:induction false} RunKeepsOk(s: State, run: seq<Action>)
    requires Ok(s) && CanRun(s, run)
    ensures Ok(After(s, run))
    decreases |run|
  {
    hide Ok, Next, Can;
    if run != [] {
      NextKeepsOk(s, run[0]);
      RunKeepsOk(Next(s, run[0]), run[1..]);
    }
  }

  lemma {:induction false} NobodyHolds(threads: nat, x: Id)
    requires x != NIL
    ensures InHands(seq(threads, _ => Thread(Idle, multiset{}, [])), x) == 0
    decreases threads
  {
    var none := seq(threads, _ => Thread(Idle, multiset{}, []));
    if threads > 0 {
      NobodyHolds(threads - 1, x);
      assert none[1..] == seq(threads - 1, _ => Thread(Idle, multiset{}, []));
    }
  }

  lemma StartIsOk(threads: nat)
    ensures Ok(Start(threads))
  {
    forall x
      ensures ObjectOk(Start(threads), x)
    {
      if x != NIL {
        NobodyHolds(threads, x);
      }
    }
  }

  // ----- strategies that leave the affinity alone -----

  /** Objects that are there in `s` keep their strategy, and the fixed ones their affinity. */
  predicate KeepsFixed(s: State, u: State) {
    && (forall x :: x in s.affinity ==> x in u.affinity && (x in u.fixed <==> x in s.fixed))
    && (forall x :: x in s.affinity && x in s.fixed ==> u.affinity[x] == s.affinity[x])
  }

  lemma StepKeepsFixed(s: State, a: Action)
    requires Can(s, a)
    ensures KeepsFixed(s, Next(s, a))
  {
  }

  lemma FixedTwice(s: State, u: State, v: State)
    requires KeepsFixed(s, u) && KeepsFixed(u, v)
    ensures KeepsFixed(s, v)
  {
  }

  lemma {:induction false} RunKeepsFixed(s: State, run: seq<Action>)
    requires CanRun(s, run)
    ensures KeepsFixed(s, After(s, run))
    decreases |run|
  {
    hide Next, Can, KeepsFixed;
    if run == [] {
      NothingChanges(s);
    } else {
      StepKeepsFixed(s, run[0]);
      RunKeepsFixed(Next(s, run[0]), run[1..]);
      FixedTwice(s, Next(s, run[0]), After(s, run));
    }
  }

  /** Only objects that are there are fixed. */
  lemma {:induction false} RunKnowsFixed(s: State, run: seq<Action>)
    requires CanRun(s, run) && forall x :: x in s.fixed ==> x in s.affinity
    ensures forall x :: x in After(s, run).fixed ==> x in After(s, run).affinity
    decreases |run|
  {
    if run != [] {
      StepKnowsFixed(s, run[0]);
      hide Next, Can;
      RunKnowsFixed(Next(s, run[0]), run[1..]);
    }
  }

  lemma StepKnowsFixed(s: State, a: Action)
    requires Can(s, a) && forall x :: x in s.fixed ==> x in s.affinity
    ensures forall x :: x in Next(s, a).fixed ==> x in Next(s, a).affinity
  {
  }

  lemma NothingChanges(s: State)
    ensures KeepsFixed(s, s)
  {
  }

  /** Whatever happens to an object after it has been created, whoever hands it over or acquires
      it: if its strategy leaves the affinity alone, it stays with the thread that created it.
      Only what is created that way is ever left alone. */
  lemma FixedAffinityStays(threads: nat, before: seq<Action>, t: nat, obj: Id, fix: bool, after: seq<Action>)
    requires CanRun(Start(threads), before) && Can(After(Start(threads), before), Create(t, obj, fix))
    requires CanRun(Next(After(Start(threads), before), Create(t, obj, fix)), after)
    ensures var s := After(Next(After(Start(threads), before), Create(t, obj, fix)), after);
      && obj in s.affinity && (obj in s.fixed <==> fix)
      && (fix ==> s.affinity[obj] == Of(t))
  {
    hide CanRun, After;
    RunKnowsFixed(Start(threads), before);
    RunKeepsFixed(Next(After(Start(threads), before), Create(t, obj, fix)), after);
  }

  // ----- the slot is a buffer for one object -----

  /** What a buffer for one object holds after these operations, one after the other. */
  function Content(log: seq<Event>): Id
    decreases |log|
  {
    if log == [] then NIL
    else
      match log[|log| - 1]
      case Put(who, obj, ok) => if ok then obj else Content(log[..|log| - 1])
      case Took(who, obj) => NIL
  }

  /** Such a buffer takes an object exactly if it is empty, and gives out what it holds. */
  predicate Fits(log: seq<Event>, e: Event) {
    match e
    case Put(who, obj, ok) => obj != NIL && (ok <==> Content(log) == NIL)
    case Took(who, obj) => obj == Content(log)
  }

  predicate Legal(log: seq<Event>)
    decreases |log|
  {
    log == [] ||
    var front := log[..|log| - 1];
    Legal(front) && Fits(front, log[|log| - 1])
  }

  predicate Changes(e: Event) {
    match e
    case Put(who, obj, ok) => ok
    case Took(who, obj) => obj != NIL
  }

  function ChangeCount(log: seq<Event>): nat
    decreases |log|
  {
    if log == [] then 0 else ChangeCount(log[..|log| - 1]) + if Changes(log[|log| - 1]) then 1 else 0
  }

  lemma {:induction false} ChangesGrow(log: seq<Event>, at: nat)
    requires at <= |log|
    ensures ChangeCount(log[..at]) <= ChangeCount(log)
    decreases |log|
  {
    if at == |log| {
      assert log[..at] == log;
    } else {
      ChangesGrow(log[..|log| - 1], at);
      assert log[..|log| - 1][..at] == log[..at];
    }
  }

  lemma LogGrows(log: seq<Event>, e: Event)
    ensures (log + [e])[..|log|] == log
    ensures ChangeCount(log + [e]) == ChangeCount(log) + if Changes(e) then 1 else 0
    ensures forall at :: 0 <= at <= |log| ==> (log + [e])[..at] == log[..at]
  {
    assert (log + [e])[..|log|] == log;
  }

  predicate NoneBy(log: seq<Event>, t: nat, since: nat) {
    forall k :: since <= k < |log| ==> log[k].who != t
  }

  /** The slot changes that other threads made from log position `since` on. */
  function ChangesByOthers(log: seq<Event>, since: nat, t: nat): nat
    requires since <= |log|
    decreases |log|
  {
    if |log| == since then 0
    else
      var last := log[|log| - 1];
      ChangesByOthers(log[..|log| - 1], since, t) + if Changes(last) && last.who != t then 1 else 0
  }

  lemma {:induction false} ChangesAreByOthers(log: seq<Event>, since: nat, t: nat)
    requires since <= |log| && NoneBy(log, t, since)
    ensures ChangeCount(log) - ChangeCount(log[..since]) == ChangesByOthers(log, since, t)
    decreases |log|
  {
    hide Changes;
    if |log| == since {
      assert log[..since] == log;
    } else {
      var front := log[..|log| - 1];
      ChangesAreByOthers(front, since, t);
      assert front[..since] == log[..since];
    }
  }

  /** The call of thread `t` is in the log at its position, between `since` and `finish`, and
      the compare-and-swaps that failed before are accounted for. */
  predicate ResultOk(log: seq<Event>, t: nat, result: Result) {
    match result
    case Passed => true
    case Acquired(obj, since, at, finish, retries) =>
      since <= at < finish <= |log| && log[at] == Took(t, obj) && retries <= ChangesByOthers(log[..at], since, t)
    case Recycled(obj, ok, since, at, finish) => since <= at < finish <= |log| && log[at] == Put(t, obj, ok)
  }

  /** A call under way has done nothing yet, or just one thing; and an acquire has retried at
      most as often as the slot has changed. */
  predicate CallOk(slot: Id, log: seq<Event>, t: nat, pc: Pc) {
    match pc
    case Idle => true
    case Storing(obj, since) => since <= |log| && NoneBy(log, t, since)
    case Refused(obj, since, at) => since <= at < |log| && log[at] == Put(t, obj, false)
    case Looking(since) => since <= |log| && NoneBy(log, t, since)
    case Trying(value, since, stamp, retries) =>
      && since <= stamp <= |log| && NoneBy(log, t, since)
      && retries <= ChangeCount(log[..stamp]) - ChangeCount(log[..since])
      && (ChangeCount(log) == ChangeCount(log[..stamp]) ==> slot == value)
    case Gaining(obj, since, at, retries) =>
      since <= at < |log| && log[at] == Took(t, obj) && retries <= ChangesByOthers(log[..at], since, t)
  }

  /** Where the log has events of thread `t`. */
  function Positions(log: seq<Event>, t: nat): seq<nat>
    decreases |log|
  {
    if log == [] then []
    else Positions(log[..|log| - 1], t) + if log[|log| - 1].who == t then [|log| - 1] else []
  }

  /** Where the results say that they are in the log. */
  function Ats(results: seq<Result>): seq<nat>
    decreases |results|
  {
    if results == [] then []
    else
      var last := results[|results| - 1];
      Ats(results[..|results| - 1]) + if last.Passed? then [] else [last.at]
  }

  function Current(pc: Pc): seq<nat> {
    if pc.Refused? || pc.Gaining? then [pc.at] else []
  }

  predicate ResultsOk(log: seq<Event>, t: nat, results: seq<Result>) {
    forall k :: 0 <= k < |results| ==> ResultOk(log, t, results[k])
  }

  /** The thread's events are exactly those of its finished calls and of the one under way. */
  predicate ThreadOk(slot: Id, log: seq<Event>, t: nat, thread: Thread) {
    && CallOk(slot, log, t, thread.pc)
    && ResultsOk(log, t, thread.results)
    && Positions(log, t) == Ats(thread.results) + Current(thread.pc)
  }

  predicate LogOk(s: State) {
    && Legal(s.log) && s.slot == Content(s.log)
    && forall t :: 0 <= t < |s.threads| ==> ThreadOk(s.slot, s.log, t, s.threads[t])
  }

  lemma PositionsGrow(log: seq<Event>, e: Event, t: nat)
    ensures Positions(log + [e], t) == Positions(log, t) + if e.who == t then [|log|] else []
  {
    assert (log + [e])[..|log|] == log;
  }

  lemma AtsGrow(results: seq<Result>, r: Result)
    ensures Ats(results + [r]) == Ats(results) + if r.Passed? then [] else [r.at]
  {
    assert (results + [r])[..|results|] == results;
  }

  lemma ResultsStayOk(log: seq<Event>, t: nat, results: seq<Result>, e: Event)
    requires ResultsOk(log, t, results)
    ensures ResultsOk(log + [e], t, results)
  {
    hide ChangesByOthers;
    LogGrows(log, e);
  }

  /** A thread does not mind the events of another. */
  lemma OthersStayOk(slot: Id, log: seq<Event>, t: nat, thread: Thread, e: Event, after: Id)
    requires ThreadOk(slot, log, t, thread) && e.who != t && (!Changes(e) ==> after == slot)
    ensures ThreadOk(after, log + [e], t, thread)
  {
    LogGrows(log, e);
    PositionsGrow(log, e, t);
    ResultsStayOk(log, t, thread.results, e);
    hide Positions, Ats, ResultsOk, Changes, ChangeCount;
    if thread.pc.Trying? {
      ChangesGrow(log, thread.pc.stamp);
    }
  }

  /** A call that is over, with its event just logged or logged before. */
  lemma EndingIsOk(slot: Id, log: seq<Event>, t: nat, thread: Thread, r: Result)
    requires ResultsOk(log, t, thread.results) && ResultOk(log, t, r)
    requires Positions(log, t) == Ats(thread.results) + if r.Passed? then [] else [r.at]
    ensures ThreadOk(slot, log, t, Ended(thread, r))
  {
    hide Positions, ResultOk, Ats;
    AtsGrow(thread.results, r);
    assert Ats(thread.results + [r]) + [] == Ats(thread.results + [r]);
    ResultsOkGrow(log, t, thread.results, r);
    hide ResultsOk;
  }

  lemma ResultsOkGrow(log: seq<Event>, t: nat, results: seq<Result>, r: Result)
    requires ResultsOk(log, t, results) && ResultOk(log, t, r)
    ensures ResultsOk(log, t, results + [r])
  {
    hide ResultOk;
  }

  /** A step without an event. */
  lemma QuietIsOk(s: State, a: Action)
    requires Can(s, a) && LogOk(s) && Next(s, a).log == s.log
    ensures ThreadOk(Next(s, a).slot, s.log, a.t, Next(s, a).threads[a.t])
    ensures Next(s, a).slot == s.slot
  {
    hide Legal, Content, ChangeCount, Positions, Ats, ResultsOk, ResultOk;
    var thread := s.threads[a.t];
    assert ThreadOk(s.slot, s.log, a.t, thread);
    assert s.log[..|s.log|] == s.log;
    if a.Recycle? && a.obj == NIL {
      assert Ats(thread.results) + [] == Ats(thread.results);
      PassedIsOk(s.log, a.t);
      EndingIsOk(s.slot, s.log, a.t, thread, Passed);
    } else if a.Go? && (thread.pc.Refused? || thread.pc.Gaining?) {
      var r := ResultOf(thread.pc, |s.log|);
      GainedIsOk(s.log, a.t, thread.pc);
      EndingIsOk(s.slot, s.log, a.t, thread.(held := thread.held + multiset{thread.pc.obj}), r);
    } else if a.Go? && thread.pc.Trying? {
      ChangesGrow(s.log, thread.pc.stamp);
    } else if a.Go? && thread.pc.Looking? {
      ChangesGrow(s.log, thread.pc.since);
    }
  }

  lemma PassedIsOk(log: seq<Event>, t: nat)
    ensures ResultOk(log, t, Passed)
  {
  }

  lemma GainedIsOk(log: seq<Event>, t: nat, pc: Pc)
    requires pc.Refused? || pc.Gaining?
    requires pc.since <= pc.at < |log| && log[pc.at] == if pc.Refused? then Put(t, pc.obj, false) else Took(t, pc.obj)
    requires pc.Gaining? ==> pc.retries <= ChangesByOthers(log[..pc.at], pc.since, t)
    ensures ResultOk(log, t, ResultOf(pc, |log|)) && ResultOf(pc, |log|).at == pc.at && !ResultOf(pc, |log|).Passed?
  {
  }

  /** The slot has changed once more if it does not show what it showed last. */
  lemma FailuresAreChanges(s: State, t: nat)
    requires LogOk(s) && t < |s.threads| && s.threads[t].pc.Trying?
    ensures var pc := s.threads[t].pc;
      pc.since <= |s.log| && pc.retries + (if s.slot == pc.value then 0 else 1) <= ChangesByOthers(s.log, pc.since, t)
  {
    hide Legal, Content, ChangeCount, Positions, Ats, ResultsOk;
    var pc := s.threads[t].pc;
    assert ThreadOk(s.slot, s.log, t, s.threads[t]);
    ChangesAreByOthers(s.log, pc.since, t);
    ChangesGrow(s.log, pc.stamp);
  }

  /** The thread whose step logs an event. */
  lemma LoggingIsOk(s: State, a: Action, e: Event)
    requires Can(s, a) && LogOk(s) && NilOk(s) && Next(s, a).log == s.log + [e]
    ensures e.who == a.t && ThreadOk(Next(s, a).slot, s.log + [e], a.t, Next(s, a).threads[a.t])
  {
    hide Legal, Content, ChangeCount, Positions, Ats, ResultsOk;
    var thread, t, log := s.threads[a.t], a.t, s.log + [e];
    assert ThreadOk(s.slot, s.log, t, thread);
    assert Next(s, a).log[|s.log|] == e;
    assert Ats(thread.results) + [] == Ats(thread.results);
    PositionsGrow(s.log, e, t);
    ResultsStayOk(s.log, t, thread.results, e);
    var since := thread.pc.since;
    LogGrows(s.log, e);
    if thread.pc.Trying? {
      FailuresAreChanges(s, t);
    }
    if thread.pc.Storing? && s.slot == NIL {
      EndingIsOk(thread.pc.obj, log, t, thread, Recycled(thread.pc.obj, true, since, |s.log|, |s.log| + 1));
    } else if !thread.pc.Storing? && s.slot == NIL {
      var retries := if thread.pc.Trying? then thread.pc.retries + 1 else 0;
      EndingIsOk(NIL, log, t, thread, Acquired(NIL, since, |s.log|, |s.log| + 1, retries));
    }
  }

  lemma EventIsLegal(s: State, a: Action, e: Event)
    requires Can(s, a) && Legal(s.log) && s.slot == Content(s.log) && NilOk(s) && Next(s, a).log == s.log + [e]
    ensures Legal(s.log + [e]) && Next(s, a).slot == Content(s.log + [e])
    ensures !Changes(e) ==> Next(s, a).slot == s.slot
  {
    assert (s.log + [e])[|s.log|] == e && (s.log + [e])[..|s.log|] == s.log;
    assert Next(s, a).log[|s.log|] == e;
    EventFits(s, a);
    assert Legal(s.log + [e]) <==> Legal(s.log) && Fits(s.log, e);
    hide Next, Legal;
  }

  lemma EventFits(s: State, a: Action)
    requires Can(s, a) && s.slot == Content(s.log) && NilOk(s) && |Next(s, a).log| > |s.log|
    ensures var e := Next(s, a).log[|s.log|];
      && Fits(s.log, e) && (!Changes(e) ==> Next(s, a).slot == s.slot)
      && Next(s, a).slot == match e
                            case Put(who, obj, ok) => if ok then obj else s.slot
                            case Took(who, obj) => NIL
  {
    hide Content;
    assert NilFree(s.threads[a.t]);
  }

  lemma LoggedAssembles(s: State, u: State, t: nat, e: Event)
    requires LogOk(s) && t < |s.threads| == |u.threads| && u.threads == s.threads[t := u.threads[t]]
    requires u.log == s.log + [e] && e.who == t && ThreadOk(u.slot, u.log, t, u.threads[t])
    requires Legal(u.log) && u.slot == Content(u.log) && (!Changes(e) ==> u.slot == s.slot)
    ensures LogOk(u)
  {
    hide ThreadOk, Legal, Content, Changes;
    forall i | 0 <= i < |s.threads|
      ensures ThreadOk(u.slot, u.log, i, u.threads[i])
    {
      if i != t {
        OthersStayOk(s.slot, s.log, i, s.threads[i], e, u.slot);
      }
    }
  }

  lemma QuietAssembles(s: State, u: State, t: nat)
    requires LogOk(s) && t < |s.threads| == |u.threads| && u.threads == s.threads[t := u.threads[t]]
    requires u.log == s.log && u.slot == s.slot && ThreadOk(u.slot, u.log, t, u.threads[t])
    ensures LogOk(u)
  {
    hide ThreadOk, Legal, Content;
  }

  lemma NextKeepsLog(s: State, a: Action)
    requires Can(s, a) && LogOk(s) && NilOk(s)
    ensures LogOk(Next(s, a))
  {
    var u := Next(s, a);
    OnlyOneThreadMoves(s, a);
    LogsOnce(s, a);
    SlotIsContent(s);
    hide Next, LogOk, NilOk, Legal, Content, ThreadOk, Changes;
    if |u.log| > |s.log| {
      var e := u.log[|s.log|];
      LoggingIsOk(s, a, e);
      EventIsLegal(s, a, e);
      LoggedAssembles(s, u, a.t, e);
    } else {
      QuietIsOk(s, a);
      QuietAssembles(s, u, a.t);
    }
  }

  lemma SlotIsContent(s: State)
    requires LogOk(s)
    ensures Legal(s.log) && s.slot == Content(s.log)
  {
  }

  /** A step logs one event at most. */
  lemma LogsOnce(s: State, a: Action)
    requires Can(s, a)
    ensures var log := Next(s, a).log; log == s.log || (|log| > |s.log| && log == s.log + [log[|s.log|]])
  {
  }

  lemma {:induction false} RunKeepsLog(s: State, run: seq<Action>)
    requires Ok(s) && LogOk(s) && CanRun(s, run)
    ensures LogOk(After(s, run))
    decreases |run|
  {
    hide NilOk, ObjectOk, LogOk, Next, Can;
    if run != [] {
      NextKeepsOk(s, run[0]);
      NextKeepsLog(s, run[0]);
      RunKeepsLog(Next(s, run[0]), run[1..]);
    }
  }

  // ----- what follows for every run -----

  lemma {:induction false} SomeHand(threads: seq<Thread>, x: Id)
    requires InHands(threads, x) > 0
    ensures exists t :: 0 <= t < |threads| && threads[t].held[x] + InTransit(threads[t], x) > 0
    decreases |threads|
  {
    hide InTransit;
    if threads[0].held[x] + InTransit(threads[0], x) == 0 {
      SomeHand(threads[1..], x);
      var t :| 0 <= t < |threads[1..]| && threads[1..][t].held[x] + InTransit(threads[1..][t], x) > 0;
      assert threads[t + 1] == threads[1..][t];
    }
  }

  predicate NobodyBut(threads: seq<Thread>, t: int, x: Id) {
    forall u :: 0 <= u < |threads| && u != t ==> threads[u].held[x] == 0 && Carried(threads[u].pc) != x
  }

  predicate HeldBy(s: State, t: int, x: Id) {
    && 0 <= t < |s.threads| && s.threads[t].held[x] == 1 && Carried(s.threads[t].pc) != x
    && NobodyBut(s.threads, t, x) && s.slot != x
  }

  predicate CarriedBy(s: State, t: int, x: Id) {
    && 0 <= t < |s.threads| && s.threads[t].held[x] == 0 && Carried(s.threads[t].pc) == x
    && NobodyBut(s.threads, t, x) && s.slot != x
  }

  predicate InSlot(s: State, x: Id) {
    s.slot == x && NobodyBut(s.threads, -1, x)
  }

  /** The object is in one place. */
  ghost predicate InOnePlace(s: State, x: Id) {
    InSlot(s, x) || (exists t :: HeldBy(s, t, x)) || (exists t :: CarriedBy(s, t, x))
  }

  /** In every interleaving every object is in one place: accessible to one thread, in transit in
      one thread, or in the slot; no two threads ever have access to it. The affinity names the
      thread that has access, and nobody otherwise, unless the object's strategy leaves the
      affinity alone. */
  lemma EveryObjectIsInOnePlace(threads: nat, run: seq<Action>, x: Id)
    requires CanRun(Start(threads), run) && x in After(Start(threads), run).affinity
    ensures var s := After(Start(threads), run);
      && InOnePlace(s, x)
      && (x !in s.fixed ==>
            match s.affinity[x]
            case Of(t) => HeldBy(s, t, x)
            case NoThread => InSlot(s, x) || exists t :: CarriedBy(s, t, x))
  {
    StartIsOk(threads);
    RunKeepsOk(Start(threads), run);
    var s := After(Start(threads), run);
    assert ObjectOk(s, x) && NilOk(s);
    hide CanRun, After, InHands, NilOk;
    if s.slot == x {
      NotInHands(s, x);
    } else {
      SomeHand(s.threads, x);
      var t :| 0 <= t < |s.threads| && s.threads[t].held[x] + InTransit(s.threads[t], x) > 0;
      InOneHand(s, t, x);
      assert HeldBy(s, t, x) || CarriedBy(s, t, x);
    }
  }

  /** The checks of the owner that gaining and relinquishing access make always pass: a thread
      relinquishes what is its own, and gains what has no thread. */
  lemma OwnerChecksPass(threads: nat, run: seq<Action>, t: nat, x: Id)
    requires CanRun(Start(threads), run) && t < |After(Start(threads), run).threads| && x != NIL
    requires x !in After(Start(threads), run).fixed
    ensures var s := After(Start(threads), run);
      && (x in s.threads[t].held ==> x in s.affinity && s.affinity[x] == Of(t))
      && (Carried(s.threads[t].pc) == x ==> x in s.affinity && s.affinity[x] == NoThread)
  {
    StartIsOk(threads);
    RunKeepsOk(Start(threads), run);
    var s := After(Start(threads), run);
    assert ObjectOk(s, x);
    hide CanRun, After, InHands, NilOk;
    if x in s.threads[t].held || Carried(s.threads[t].pc) == x {
      InHandsHas(s.threads, t, x);
      InOneHand(s, t, x);
    }
  }

  /** In every interleaving, an object that was refused is still with the thread that tried to
      hand it over and with nobody else, and that thread's next step gives it back to it. */
  lemma RefusedComesBack(threads: nat, run: seq<Action>, t: nat)
    requires CanRun(Start(threads), run)
    requires var s := After(Start(threads), run); t < |s.threads| && s.threads[t].pc.Refused?
    ensures var s := After(Start(threads), run);
      var obj := s.threads[t].pc.obj;
      && CarriedBy(s, t, obj) && Can(s, Go(t))
      && var u := Next(s, Go(t));
         && t < |u.threads| && u.threads[t].pc.Idle?
         && u.threads[t].results == s.threads[t].results + [ResultOf(s.threads[t].pc, |s.log|)]
         && HeldBy(u, t, obj) && obj in u.affinity && (obj !in u.fixed ==> u.affinity[obj] == Of(t))
  {
    StartIsOk(threads);
    RunKeepsOk(Start(threads), run);
    var s := After(Start(threads), run);
    var obj := s.threads[t].pc.obj;
    assert ObjectOk(s, obj) && NilFree(s.threads[t]);
    hide CanRun, After, InHands, NilOk;
    CarriedIsInTransit(s, t);
    InOneHand(s, t, obj);
  }

  lemma NotInHands(s: State, x: Id)
    requires Places(s, x) == 1 && s.slot == x
    ensures NobodyBut(s.threads, -1, x)
  {
    hide InHands;
    forall u | 0 <= u < |s.threads|
      ensures s.threads[u].held[x] == 0 && Carried(s.threads[u].pc) != x
    {
      InHandsHas(s.threads, u, x);
    }
  }

  /** The objects that were put into the slot, and those that were taken out. */
  function Puts(log: seq<Event>): seq<Id>
    decreases |log|
  {
    if log == [] then []
    else Puts(log[..|log| - 1]) + if log[|log| - 1].Put? && log[|log| - 1].ok then [log[|log| - 1].obj] else []
  }

  function Takes(log: seq<Event>): seq<Id>
    decreases |log|
  {
    if log == [] then [] else Takes(log[..|log| - 1]) + if log[|log| - 1].Took? then Entry(log[|log| - 1].obj) else []
  }

  lemma {:induction false} PutsAreTakes(log: seq<Event>)
    requires Legal(log)
    ensures Puts(log) == Takes(log) + Entry(Content(log))
    decreases |log|
  {
    if log != [] {
      PutsAreTakes(log[..|log| - 1]);
    }
  }

  lemma StartIsLogged(threads: nat)
    ensures LogOk(Start(threads))
  {
  }

  /** In every interleaving the calls behave like those on a buffer for one object: a recycle
      fails only when the buffer is full, an acquire comes back empty only when it is empty,
      and the objects come out in the order in which they went in, each once, but for the one
      that is still there. */
  lemma TheSlotIsABuffer(threads: nat, run: seq<Action>)
    requires CanRun(Start(threads), run)
    ensures var s := After(Start(threads), run);
      && Legal(s.log) && s.slot == Content(s.log)
      && Puts(s.log) == Takes(s.log) + Entry(s.slot)
  {
    hide Ok, Next, Can;
    StartIsOk(threads);
    StartIsLogged(threads);
    RunKeepsLog(Start(threads), run);
    PutsAreTakes(After(Start(threads), run).log);
  }

  lemma {:induction false} LegalAt(log: seq<Event>, at: nat)
    requires Legal(log) && at < |log|
    ensures match log[at]
            case Put(who, obj, ok) => ok <==> Content(log[..at]) == NIL
            case Took(who, obj) => obj == Content(log[..at])
    decreases |log|
  {
    hide Content;
    var front := log[..|log| - 1];
    if at < |front| {
      LegalAt(front, at);
      assert front[..at] == log[..at];
    }
  }

  /** In every interleaving every finished call is in the log once, between the moment it was
      made and the moment it returned, and it returned what a buffer would have answered there;
      besides, a thread has logged only what its call under way has just done. */
  lemma EveryResultIsLogged(threads: nat, run: seq<Action>, t: nat)
    requires CanRun(Start(threads), run) && t < |After(Start(threads), run).threads|
    ensures var s := After(Start(threads), run);
      var results := s.threads[t].results;
      && ResultsOk(s.log, t, results)
      && Positions(s.log, t) == Ats(results) + Current(s.threads[t].pc)
      && (forall k :: 0 <= k < |results| && results[k].Acquired? ==> results[k].obj == Content(s.log[..results[k].at]))
      && (forall k :: 0 <= k < |results| && results[k].Recycled? ==>
            (results[k].ok <==> Content(s.log[..results[k].at]) == NIL))
  {
    hide Ok, Next, Can, Positions, Ats;
    StartIsOk(threads);
    StartIsLogged(threads);
    RunKeepsLog(Start(threads), run);
    var s := After(Start(threads), run);
    var results := s.threads[t].results;
    assert ThreadOk(s.slot, s.log, t, s.threads[t]);
    forall k | 0 <= k < |results| && !results[k].Passed?
      ensures results[k].Acquired? ==> results[k].obj == Content(s.log[..results[k].at])
      ensures results[k].Recycled? ==> (results[k].ok <==> Content(s.log[..results[k].at]) == NIL)
    {
      assert ResultOk(s.log, t, results[k]);
      LegalAt(s.log, results[k].at);
    }
  }

  /** The results of the thread from number `n` on, and its call under way, are of calls made
      when the log was at least `length` long. */
  predicate CalledLater(thread: Thread, n: nat, length: nat) {
    && n <= |thread.results|
    && (forall k :: n <= k < |thread.results| && !thread.results[k].Passed? ==> thread.results[k].since >= length)
    && (!thread.pc.Idle? ==> thread.pc.since >= length)
  }

  lemma {:induction false} RunCallsLater(s: State, run: seq<Action>, t: nat, n: nat, length: nat)
    requires CanRun(s, run) && t < |s.threads| && CalledLater(s.threads[t], n, length) && |s.log| >= length
    ensures var u := After(s, run); t < |u.threads| && CalledLater(u.threads[t], n, length)
    ensures s.threads[t].results <= After(s, run).threads[t].results
    decreases |run|
  {
    if run != [] {
      StepCallsLater(s, run[0], t, n, length);
      hide Next, Can, CalledLater;
      RunCallsLater(Next(s, run[0]), run[1..], t, n, length);
    }
  }

  lemma StepCallsLater(s: State, a: Action, t: nat, n: nat, length: nat)
    requires Can(s, a) && t < |s.threads| && CalledLater(s.threads[t], n, length) && |s.log| >= length
    ensures var u := Next(s, a);
      t < |u.threads| && CalledLater(u.threads[t], n, length) && |u.log| >= length
      && s.threads[t].results <= u.threads[t].results
  {
    var u := Next(s, a);
    OnlyOneThreadMoves(s, a);
    LogsOnce(s, a);
    if t == a.t {
      ThreadMovesLater(s.threads[t], u.threads[t], |s.log|, n, length) by {
        ThreadMoves(s, a);
      }
    }
    hide Next, CalledLater;
  }

  /** A step of a thread: its call goes on, ends, or begins. */
  predicate Moves(thread: Thread, after: Thread, now: nat) {
    || (after.results == thread.results
        && (after.pc.Idle? ==> thread.pc.Idle?)
        && (!after.pc.Idle? ==> if thread.pc.Idle? then after.pc.since == now else after.pc.since == thread.pc.since))
    || (after.pc.Idle? && |after.results| == |thread.results| + 1 && thread.results == after.results[..|thread.results|]
        && var r := after.results[|thread.results|]; r.Passed? || (!thread.pc.Idle? && r.since == thread.pc.since))
  }

  lemma ThreadMoves(s: State, a: Action)
    requires Can(s, a)
    ensures Moves(s.threads[a.t], Next(s, a).threads[a.t], |s.log|)
  {
    var thread, after := s.threads[a.t], Next(s, a).threads[a.t];
    assert after.results == thread.results || after.results[..|thread.results|] == thread.results;
  }

  lemma ThreadMovesLater(thread: Thread, after: Thread, now: nat, n: nat, length: nat)
    requires Moves(thread, after, now) && CalledLater(thread, n, length) && now >= length
    ensures CalledLater(after, n, length) && thread.results <= after.results
  {
    forall k | n <= k < |after.results| && !after.results[k].Passed?
      ensures after.results[k].since >= length
    {
      assert k < |thread.results| ==> after.results[k] == thread.results[k];
    }
  }

  /** The order of events respects real time: a call that has returned before another thread's
      call is made comes before it in the log. */
  lemma EventsRespectRealTime(threads: nat, before: seq<Action>, after: seq<Action>, t: nat, j: nat, u: nat, k: nat)
    requires CanRun(Start(threads), before) && CanRun(After(Start(threads), before), after)
    requires var s := After(Start(threads), before);
      && t < |s.threads| && j < |s.threads[t].results| && !s.threads[t].results[j].Passed?
      && u < |s.threads| && s.threads[u].pc.Idle? && k >= |s.threads[u].results|
    requires var v := After(After(Start(threads), before), after);
      u < |v.threads| && k < |v.threads[u].results| && !v.threads[u].results[k].Passed?
    ensures var s, v := After(Start(threads), before), After(After(Start(threads), before), after);
      s.threads[t].results[j].at < v.threads[u].results[k].at
  {
    hide Ok, Next, Can, Positions, Ats, Legal, Content;
    var s, v := After(Start(threads), before), After(After(Start(threads), before), after);
    StartIsOk(threads);
    StartIsLogged(threads);
    RunKeepsLog(Start(threads), before);
    RunKeepsOk(Start(threads), before);
    RunKeepsLog(s, after);
    assert ThreadOk(s.slot, s.log, t, s.threads[t]) && ResultOk(s.log, t, s.threads[t].results[j]);
    RunCallsLater(s, after, u, |s.threads[u].results|, |s.log|);
    assert ThreadOk(v.slot, v.log, u, v.threads[u]) && ResultOk(v.log, u, v.threads[u].results[k]);
  }

  /** How many compare-and-swaps of a thread's acquires fail in a run. */
  function FailedTakes(s: State, run: seq<Action>, t: nat): nat
    requires CanRun(s, run)
    decreases |run|
  {
    if run == [] then 0 else FailsNow(s, run[0], t) + FailedTakes(Next(s, run[0]), run[1..], t)
  }

  function FailsNow(s: State, a: Action, t: nat): nat
    requires Can(s, a)
  {
    if a == Go(t) && s.threads[t].pc.Trying? && s.slot != s.threads[t].pc.value then 1 else 0
  }

  function RetriesOf(results: seq<Result>): nat
    decreases |results|
  {
    if results == [] then 0
    else
      var last := results[|results| - 1];
      RetriesOf(results[..|results| - 1]) + if last.Acquired? then last.retries else 0
  }

  /** The failures of all acquires of a thread, the one under way included. */
  function AllRetries(s: State, t: nat): nat {
    if t < |s.threads| then RetriesSoFar(s.threads[t]) else 0
  }

  function RetriesSoFar(thread: Thread): nat {
    RetriesOf(thread.results) + if thread.pc.Trying? || thread.pc.Gaining? then thread.pc.retries else 0
  }

  lemma RetriesGrow(results: seq<Result>, r: Result)
    ensures RetriesOf(results + [r]) == RetriesOf(results) + if r.Acquired? then r.retries else 0
  {
    assert (results + [r])[..|results|] == results;
  }

  lemma StepCountsRetries(s: State, a: Action, t: nat)
    requires Can(s, a) && NilOk(s)
    ensures AllRetries(Next(s, a), t) == AllRetries(s, t) + FailsNow(s, a, t)
  {
    OnlyOneThreadMoves(s, a);
    if t < |s.threads| && a.t == t {
      assert NilFree(s.threads[t]);
      if a.Go? {
        GoCountsRetries(s, t);
      } else {
        RetriesGrow(s.threads[t].results, Passed);
      }
    }
    hide Next, Can, RetriesSoFar;
  }

  lemma GoCountsRetries(s: State, t: nat)
    requires Can(s, Go(t)) && NilFree(s.threads[t])
    ensures var u := Next(s, Go(t));
      && t < |u.threads|
      && RetriesSoFar(u.threads[t]) == RetriesSoFar(s.threads[t]) + FailsNow(s, Go(t), t)
  {
    var thread := s.threads[t];
    hide RetriesOf, TryTake, Gain;
    match thread.pc
    case Storing(obj, since) =>
      RetriesGrow(thread.results, Recycled(obj, true, since, |s.log|, |s.log| + 1));
    case Looking(since) =>
      RetriesGrow(thread.results, Acquired(NIL, since, |s.log|, |s.log| + 1, 0));
    case Trying(value, since, stamp, retries) =>
      TryCountsRetries(s, t);
    case Refused(obj, since, at) =>
      GainCountsRetries(s, t);
    case Gaining(obj, since, at, retries) =>
      GainCountsRetries(s, t);
    case Idle =>
  }

  lemma TryCountsRetries(s: State, t: nat)
    requires Can(s, Go(t)) && s.threads[t].pc.Trying? && NilFree(s.threads[t])
    ensures var u := TryTake(s, t);
      && t < |u.threads|
      && RetriesSoFar(u.threads[t]) == RetriesSoFar(s.threads[t]) + FailsNow(s, Go(t), t)
  {
    hide RetriesOf;
    var thread := s.threads[t];
    RetriesGrow(thread.results, Acquired(NIL, thread.pc.since, |s.log|, |s.log| + 1, thread.pc.retries + 1));
  }

  lemma GainCountsRetries(s: State, t: nat)
    requires t < |s.threads| && (s.threads[t].pc.Refused? || s.threads[t].pc.Gaining?)
    ensures var thread := s.threads[t];
      var u := Gain(s, t, thread.pc.obj, ResultOf(thread.pc, |s.log|));
      t < |u.threads| && RetriesSoFar(u.threads[t]) == RetriesSoFar(thread)
  {
    hide RetriesOf;
    RetriesGrow(s.threads[t].results, ResultOf(s.threads[t].pc, |s.log|));
  }

  /** The retries in the results are those that were made. */
  lemma {:induction false} RetriesAreCounted(s: State, run: seq<Action>, t: nat)
    requires CanRun(s, run) && Ok(s)
    ensures AllRetries(After(s, run), t) == AllRetries(s, t) + FailedTakes(s, run, t)
    decreases |run|
  {
    hide Next, Can, AllRetries, FailsNow, ObjectOk, NilOk;
    if run != [] {
      StepCountsRetries(s, run[0], t);
      NextKeepsOk(s, run[0]);
      RetriesAreCounted(Next(s, run[0]), run[1..], t);
    }
  }

  /** Lock-freedom with a bound: the compare-and-swaps of an acquire fail at most as often as
      other threads have put an object into the slot or taken one out since it was called, and
      before it took effect, if it has. */
  lemma RetriesAreOthersProgress(threads: nat, run: seq<Action>, t: nat)
    requires CanRun(Start(threads), run) && t < threads
    ensures var s := After(Start(threads), run);
      && t < |s.threads|
      && var pc, results := s.threads[t].pc, s.threads[t].results;
         && (pc.Trying? ==> pc.since <= |s.log| && pc.retries <= ChangesByOthers(s.log, pc.since, t))
         && (pc.Gaining? ==> pc.since <= pc.at < |s.log|
                             && pc.retries <= ChangesByOthers(s.log[..pc.at], pc.since, t))
         && AllRetries(s, t) == FailedTakes(Start(threads), run, t)
         && forall k :: 0 <= k < |results| && results[k].Acquired? ==>
              var r := results[k];
              r.since <= r.at < r.finish <= |s.log| && r.retries <= ChangesByOthers(s.log[..r.at], r.since, t)
  {
    hide Ok, Next, Can, Legal, Content, Positions, Ats, ChangesByOthers, ChangeCount;
    StartIsOk(threads);
    RetriesAreCounted(Start(threads), run, t);
    StartIsLogged(threads);
    RunKeepsLog(Start(threads), run);
    RunKeepsThreads(Start(threads), run);
    var s := After(Start(threads), run);
    assert ThreadOk(s.slot, s.log, t, s.threads[t]);
    if s.threads[t].pc.Trying? {
      FailuresAreChanges(s, t);
    }
    forall k | 0 <= k < |s.threads[t].results|
      ensures ResultOk(s.log, t, s.threads[t].results[k])
    {
    }
  }

  lemma {:induction false} RunKeepsThreads(s: State, run: seq<Action>)
    requires CanRun(s, run)
    ensures |After(s, run).threads| == |s.threads|
    decreases |run|
  {
    hide Next, Can;
    if run != [] {
      OnlyOneThreadMoves(s, run[0]);
      RunKeepsThreads(Next(s, run[0]), run[1..]);
    }
  }
}

/** Recycling and acquiring, run against any interference by other threads. */
module HandoverSlots {
  import opened Words
  import opened Handovers

  type Turn = seq<Action>

  class HandoverSlot {
    /** The shared pointer, and what all the threads are doing. */
    var state: State
    /** Every step so far. */
    ghost var trace: seq<Action>
    const threads: nat

    ghost predicate Valid()
      reads this
    {
      && CanRun(Start(threads), trace) && state == After(Start(threads), trace)
      && Ok(state) && |state.threads| == threads
    }

    constructor (threads: nat)
      ensures Valid() && state == Start(threads) && this.threads == threads
    {
      this.threads := threads;
      state, trace := Start(threads), [];
      StartIsOk(threads);
    }

    method Take(a: Action)
      requires Valid() && Can(state, a)
      modifies this
      ensures Valid() && state == Next(old(state), a) && trace == old(trace) + [a]
    {
      hide Next, Can, Ok;
      RunOneMore(Start(threads), trace, a);
      NextKeepsOk(state, a);
      OnlyOneThreadMoves(state, a);
      state := Next(state, a);
      trace := trace + [a];
    }

    /** Other threads make their steps; what cannot happen is skipped. */
    method Interfere(turn: Turn, t: nat)
      requires Valid() && t < threads
      modifies this
      ensures Valid() && old(trace) <= trace && state.threads[t] == old(state.threads[t])
    {
      hide CanRun, After, Can, Ok, Next;
      var i := 0;
      while i < |turn|
        invariant i <= |turn| && Valid() && old(trace) <= trace && state.threads[t] == old(state.threads[t])
      {
        var a := turn[i];
        if Can(state, a) && a.t != t {
          OnlyOneThreadMoves(state, a);
          Take(a);
        }
        i := i + 1;
      }
    }

    /** The next turn of the others, if they take another one. */
    method Others(turns: seq<Turn>, i: nat, t: nat) returns (next: nat)
      requires Valid() && i <= |turns| && t < threads
      modifies this
      ensures Valid() && old(trace) <= trace && state.threads[t] == old(state.threads[t])
      ensures i <= next <= |turns| && (next == i ==> i == |turns| && state == old(state))
    {
      if i == |turns| {
        return i;
      }
      Interfere(turns[i], t);
      next := i + 1;
    }

    /** What the thread's calls have returned, but for the first `n`. */
    function Since(t: nat, n: nat): seq<Result>
      requires t < |state.threads| && n <= |state.threads[t].results|
      reads this
    {
      state.threads[t].results[n..]
    }

    /** Puts `obj` into the slot if the slot is empty at the right moment. Otherwise the thread
        has access to the object as before. */
    method RecycleObject(t: nat, obj: Id, turns: seq<Turn>) returns (ok: bool)
      requires Valid() && t < |state.threads| && state.threads[t].pc.Idle?
      requires obj == NIL || obj in state.threads[t].held
      modifies this
      ensures Valid() && old(trace) <= trace && state.threads[t].pc == Idle
      ensures KeepsFixed(old(state), state)
      ensures old(state.threads[t].results) <= state.threads[t].results
      ensures var more := Since(t, |old(state).threads[t].results|);
        && |more| == 1
        && if obj == NIL then more[0] == Passed else more[0].Recycled? && more[0].obj == obj && more[0].ok == ok
      ensures obj == NIL ==> ok && state.slot == old(state.slot)
      ensures obj != NIL && ok ==>
        && state.slot == obj && obj in state.affinity && (obj !in state.fixed ==> state.affinity[obj] == NoThread)
        && state.threads[t].held == old(state.threads[t].held) - multiset{obj}
      ensures obj != NIL && !ok ==>
        && obj in state.affinity && (obj !in state.fixed ==> state.affinity[obj] == Of(t))
        && state.threads[t].held == old(state.threads[t].held)
    {
      hide CanRun, After, Ok, KeepsFixed;
      Take(Recycle(t, obj));
      if obj == NIL {
        TraceKeepsFixed(threads, old(trace), trace);
        return true;
      }
      var i := Others(turns, 0, t);
      ok := state.slot == NIL;
      CarriedHasNoThread(state, t);
      Take(Go(t));
      if !ok {
        i := Others(turns, i, t);
        CarriedHasNoThread(state, t);
        Take(Go(t));
      }
      TraceKeepsFixed(threads, old(trace), trace);
    }

    /** Takes the object out of the slot and gains access to it, or finds the slot empty. */
    method AcquireObject(t: nat, turns: seq<Turn>) returns (obj: Id)
      requires Valid() && t < |state.threads| && state.threads[t].pc.Idle?
      modifies this
      ensures Valid() && old(trace) <= trace && state.threads[t].pc == Idle
      ensures KeepsFixed(old(state), state)
      ensures old(state.threads[t].results) <= state.threads[t].results
      ensures var more := Since(t, |old(state).threads[t].results|);
        |more| == 1 && more[0].Acquired? && more[0].obj == obj
      ensures obj == NIL ==> state.slot == NIL && state.threads[t].held == old(state.threads[t].held)
      ensures obj != NIL ==>
        && obj in state.affinity && (obj !in state.fixed ==> state.affinity[obj] == Of(t))
        && state.threads[t].held == old(state.threads[t].held) + multiset{obj}
    {
      hide CanRun, After, Ok, KeepsFixed;
      Take(Acquire(t));
      var i := Others(turns, 0, t);
      var value := state.slot;
      Take(Go(t));
      if value == NIL {
        TraceKeepsFixed(threads, old(trace), trace);
        return NIL;
      }
      while true
        invariant Valid() && old(trace) <= trace && i <= |turns|
        invariant state.threads[t].pc.Trying? && state.threads[t].pc.value == value
        invariant state.threads[t].held == old(state.threads[t].held)
        invariant state.threads[t].results == old(state.threads[t].results)
        invariant value != NIL
        invariant i == |turns| ==> state.slot == value
        decreases |turns| - i
      {
        i := Others(turns, i, t);
        var actual := state.slot;
        Take(Go(t));
        if actual == NIL {
          TraceKeepsFixed(threads, old(trace), trace);
          return NIL;
        }
        if actual == value {
          i := Others(turns, i, t);
          CarriedHasNoThread(state, t);
          Take(Go(t));
          TraceKeepsFixed(threads, old(trace), trace);
          return value;
        }
        value := actual;
      }
    }
  }

  /** Between two moments objects keep their strategy, and the fixed ones their affinity. */
  lemma TraceKeepsFixed(threads: nat, before: seq<Action>, now: seq<Action>)
    requires CanRun(Start(threads), now) && before <= now
    ensures CanRun(Start(threads), before)
    ensures KeepsFixed(After(Start(threads), before), After(Start(threads), now))
  {
    var more := now[|before|..];
    assert now == before + more;
    RunSplits(Start(threads), before, more);
    RunKeepsFixed(After(Start(threads), before), more);
  }

  lemma {:induction false} RunSplits(s: State, a: seq<Action>, b: seq<Action>)
    requires CanRun(s, a + b)
    ensures CanRun(s, a) && CanRun(After(s, a), b) && After(s, a + b) == After(After(s, a), b)
    decreases |a|
  {
    hide Next, Can;
    if a == [] {
      assert a + b == b;
    } else {
      assert (a + b)[1..] == a[1..] + b;
      RunSplits(Next(s, a[0]), a[1..], b);
    }
  }

  lemma CarriedHasNoThread(s: State, t: nat)
    requires Ok(s) && t < |s.threads|
    requires var pc := s.threads[t].pc; pc.Storing? || pc.Refused? || pc.Gaining?
    ensures var obj := s.threads[t].pc.obj;
      obj != NIL && obj in s.affinity && (obj !in s.fixed ==> s.affinity[obj] == NoThread)
  {
    var obj := s.threads[t].pc.obj;
    assert NilFree(s.threads[t]) && ObjectOk(s, obj);
    InOneHand(s, t, obj);
  }
}

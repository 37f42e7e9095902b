/** NSUIntegerAtomic and its retry loops, run against any interference by other calls. */
module AtomicWords {
  import opened Bitwise
  import opened AtomicRegister

  /** Steps that others take in one go between two steps of this call. */
  type Turn = seq<Action>

  lemma EachBit(op: Op, seen: Bits)
    ensures forall i :: 0 <= i < 64 ==> SetsBit(op, seen, Apply(op, seen), i)
  {
    hide Apply, SetsBit;
    forall i | 0 <= i < 64
      ensures SetsBit(op, seen, Apply(op, seen), i)
    {
      ApplySetsBits(op, seen, i);
    }
  }

  method MaskedOrOf(seen: Bits, mask: Bits, bits: Bits) returns (value: Bits)
    ensures value == Apply(MaskedOr(mask, bits), seen)
    ensures forall i :: 0 <= i < 64 ==> SetsBit(MaskedOr(mask, bits), seen, value, i)
  {
    value := (seen & mask) | bits;
    assert value == Apply(MaskedOr(mask, bits), seen);
    hide Apply, SetsBit;
    EachBit(MaskedOr(mask, bits), seen);
  }

  method OrOf(seen: Bits, bits: Bits) returns (value: Bits)
    ensures value == Apply(Or(bits), seen)
    ensures forall i :: 0 <= i < 64 ==> SetsBit(Or(bits), seen, value, i)
  {
    value := seen | bits;
    assert value == Apply(Or(bits), seen);
    hide Apply, SetsBit;
    EachBit(Or(bits), seen);
  }

  class AtomicWord {
    /** The shared word, and where all the calls on it are. */
    var state: State
    ghost const init: Bits
    /** Every step so far. */
    ghost var trace: seq<Action>

    /** What has happened is a run of the register. */
    ghost predicate Valid()
      reads this
    {
      AllowedRun(Initial(init), trace) && state == Run(Initial(init), trace)
    }

    constructor (value: Bits)
      ensures Valid() && state == Initial(value) && init == value
    {
      state, init, trace := Initial(value), value, [];
    }

    method Take(a: Action)
      requires Valid() && Allowed(state, a)
      modifies this
      ensures Valid() && state == Step(old(state), a) && trace == old(trace) + [a]
    {
      hide Step, Allowed;
      ghost var s := state;
      assert [a][1..] == [];
      RunAppend(Initial(init), trace, [a]);
      state := Step(state, a);
      trace := trace + [a];
    }

    /** Other calls make their steps; what cannot happen is skipped. */
    method Interfere(turn: Turn, call: nat)
      requires Valid() && call < |state.calls|
      modifies this
      ensures Valid() && old(trace) <= trace
      ensures call < |state.calls| && state.calls[call] == old(state.calls[call])
    {
      hide AllowedRun, Run;
      var i := 0;
      while i < |turn|
        invariant i <= |turn| && Valid() && old(trace) <= trace
        invariant call < |state.calls| && state.calls[call] == old(state.calls[call])
      {
        var a := turn[i];
        if Allowed(state, a) && (a.Invoke? || a.call != call) {
          Take(a);
        }
        i := i + 1;
      }
    }

    /** The next turn of the others, if they take another one. */
    method Others(turns: seq<Turn>, i: nat, call: nat) returns (next: nat)
      requires Valid() && i <= |turns| && call < |state.calls|
      modifies this
      ensures Valid() && old(trace) <= trace
      ensures i <= next <= |turns| && (next == i ==> state == old(state))
      ensures call < |state.calls| && state.calls[call] == old(state.calls[call])
    {
      if i == |turns| {
        return i;
      }
      Interfere(turns[i], call);
      next := i + 1;
    }

    method Invoke(op: Op) returns (call: nat)
      requires Valid()
      modifies this
      ensures Valid() && old(trace) <= trace
      ensures call == |old(state).calls| < |state.calls| && state.calls[call].op == op
      ensures state.calls[call].phase == Reading
    {
      hide AllowedRun, Run;
      call := |state.calls|;
      Take(Action.Invoke(op));
    }

    /** An atomic read of the word by a call. */
    method Read(call: nat) returns (seen: Bits)
      requires Valid() && call < |state.calls| && state.calls[call].phase.Reading?
      modifies this
      ensures Valid() && old(trace) <= trace
      ensures call < |state.calls| && state.calls[call].op == old(state.calls[call].op) && seen == old(state.slot)
      ensures state.slot == seen
      ensures if seen == Apply(state.calls[call].op, seen)
              then state.calls[call].phase.Returning? && state.calls[call].phase.seen == seen
              else state.calls[call].phase.Comparing? && state.calls[call].phase.seen == seen
    {
      hide AllowedRun, Run, Apply;
      seen := state.slot;
      Take(Action.Read(call));
    }

    /** An atomic compare-and-swap of the word by a call. */
    method CompareAndSwap(call: nat, value: Bits, expected: Bits) returns (ok: bool)
      requires Valid() && call < |state.calls|
      requires state.calls[call].phase.Comparing? && state.calls[call].phase.seen == expected
      requires value == Apply(state.calls[call].op, expected)
      modifies this
      ensures Valid() && old(trace) <= trace
      ensures call < |state.calls| && state.calls[call].op == old(state.calls[call].op)
      ensures ok == (old(state.slot) == expected)
      ensures if ok then state.slot == value
                         && state.calls[call].phase.Returning? && state.calls[call].phase.seen == expected
              else state.slot == old(state.slot) && state.calls[call].phase.Reading?
    {
      hide AllowedRun, Run, Apply;
      ok := state.slot == expected;
      Take(Action.Compare(call));
    }

    method Return(call: nat)
      requires Valid() && call < |state.calls| && state.calls[call].phase.Returning?
      modifies this
      ensures Valid() && old(trace) <= trace
      ensures call < |state.calls| && state.calls[call].op == old(state.calls[call].op)
      ensures Completed(state.calls[call]) && state.calls[call].phase.seen == old(state.calls[call].phase.seen)
    {
      hide AllowedRun, Run, Apply;
      Take(Action.Return(call));
    }

    /** `seen` is what the register says this call returns. */
    ghost predicate Returns(call: nat, op: Op, seen: Bits)
      reads this
    {
      call < |state.calls| && state.calls[call].op == op
      && Completed(state.calls[call]) && state.calls[call].phase.seen == seen
    }

    method GetValue() returns (seen: Bits)
      requires Valid()
      modifies this
      ensures Valid() && old(trace) <= trace && Returns(|old(state).calls|, Get, seen)
    {
      hide AllowedRun, Run;
      var call := Invoke(Get);
      seen := Read(call);
      Return(call);
    }

    /** Stores `value`, whatever the others do in the meantime, and returns what it replaced. */
    method UpdateValue(value: Bits, turns: seq<Turn>) returns (seen: Bits)
      requires Valid()
      modifies this
      ensures Valid() && old(trace) <= trace && Returns(|old(state).calls|, Update(value), seen)
    {
      hide AllowedRun, Run;
      var i: nat := 0;
      var call := Invoke(Update(value));
      while true
        invariant Valid() && old(trace) <= trace && i <= |turns|
        invariant call == |old(state).calls| < |state.calls|
        invariant state.calls[call].op == Update(value) && state.calls[call].phase == Reading
        decreases |turns| - i
      {
        i := Others(turns, i, call);
        seen := Read(call);
        if seen == value {
          i := Others(turns, i, call);
          Return(call);
          return;
        }
        i := Others(turns, i, call);
        var ok := CompareAndSwap(call, value, seen);
        if ok {
          i := Others(turns, i, call);
          Return(call);
          return;
        }
      }
    }

    method MaskedOrValue(mask: Bits, bits: Bits, turns: seq<Turn>) returns (seen: Bits)
      requires Valid()
      modifies this
      ensures Valid() && old(trace) <= trace && Returns(|old(state).calls|, MaskedOr(mask, bits), seen)
    {
      hide AllowedRun, Run, Apply;
      var i: nat := 0;
      var call := Invoke(MaskedOr(mask, bits));
      while true
        invariant Valid() && old(trace) <= trace && i <= |turns|
        invariant call == |old(state).calls| < |state.calls|
        invariant state.calls[call].op == MaskedOr(mask, bits) && state.calls[call].phase == Reading
        decreases |turns| - i
      {
        i := Others(turns, i, call);
        seen := Read(call);
        var value := MaskedOrOf(seen, mask, bits);
        if seen == value {
          i := Others(turns, i, call);
          Return(call);
          return;
        }
        i := Others(turns, i, call);
        var ok := CompareAndSwap(call, value, seen);
        if ok {
          i := Others(turns, i, call);
          Return(call);
          return;
        }
      }
    }

    method OrValue(bits: Bits, turns: seq<Turn>) returns (seen: Bits)
      requires Valid()
      modifies this
      ensures Valid() && old(trace) <= trace && Returns(|old(state).calls|, Or(bits), seen)
    {
      hide AllowedRun, Run, Apply;
      var i: nat := 0;
      var call := Invoke(Or(bits));
      while true
        invariant Valid() && old(trace) <= trace && i <= |turns|
        invariant call == |old(state).calls| < |state.calls|
        invariant state.calls[call].op == Or(bits) && state.calls[call].phase == Reading
        decreases |turns| - i
      {
        i := Others(turns, i, call);
        seen := Read(call);
        var value := OrOf(seen, bits);
        if seen == value {
          i := Others(turns, i, call);
          Return(call);
          return;
        }
        i := Others(turns, i, call);
        var ok := CompareAndSwap(call, value, seen);
        if ok {
          i := Others(turns, i, call);
          Return(call);
          return;
        }
      }
    }
  }
}

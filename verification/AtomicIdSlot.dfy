/** The two functions on an atomic object slot, run against any interference by other calls and
    by the rest of the program. */
module AtomicIdSlots {
  import opened AtomicRegister
  import opened AtomicIds

  type Turn = seq<SlotAction>

  class AtomicIdSlot {
    /** The shared slot, the retain counts, and where all the calls are. */
    var state: Slot
    /** Every step so far. */
    ghost var trace: seq<SlotAction>
    const mode: Mode

    ghost predicate Valid()
      reads this
    {
      && CanRun(Empty(mode), trace) && state == After(Empty(mode), trace)
      && state.mode == mode && OnlyUpdates(state) && |state.kinds| == |state.reg.calls|
    }

    constructor (mode: Mode)
      ensures Valid() && state == Empty(mode) && this.mode == mode
    {
      this.mode := mode;
      state, trace := Empty(mode), [];
    }

    method Take(a: SlotAction)
      requires Valid() && Can(state, a)
      modifies this
      ensures Valid() && state == Next(old(state), a) && trace == old(trace) + [a]
    {
      hide Next, Can;
      RunOneMore(Empty(mode), trace, a);
      NextKeepsShape(state, a);
      state := Next(state, a);
      trace := trace + [a];
    }

    /** Whether the action is a step of this call. */
    predicate Mine(a: SlotAction, call: nat) {
      a.Move? && !a.a.Invoke? && a.a.call == call
    }

    method TakeOther(a: SlotAction, call: nat)
      requires Valid() && Can(state, a) && !Mine(a, call) && call < |state.reg.calls|
      modifies this
      ensures Valid() && old(trace) <= trace
      ensures call < |state.reg.calls| && state.reg.calls[call] == old(state.reg.calls[call])
      ensures state.kinds[call] == old(state.kinds[call])
    {
      hide CanRun, After, Displaced, Ref;
      Take(a);
    }

    /** Others make their steps; what cannot happen is skipped. */
    method Interfere(turn: Turn, call: nat)
      requires Valid() && call < |state.reg.calls|
      modifies this
      ensures Valid() && old(trace) <= trace
      ensures call < |state.reg.calls| && state.reg.calls[call] == old(state.reg.calls[call])
      ensures state.kinds[call] == old(state.kinds[call])
    {
      hide CanRun, After, Can, OnlyUpdates, Mine;
      var i := 0;
      while i < |turn|
        invariant i <= |turn| && Valid() && old(trace) <= trace
        invariant call < |state.reg.calls| && state.reg.calls[call] == old(state.reg.calls[call])
        invariant state.kinds[call] == old(state.kinds[call])
      {
        if Can(state, turn[i]) && !Mine(turn[i], call) {
          TakeOther(turn[i], call);
        }
        i := i + 1;
      }
    }

    /** The next turn of the others, if they take another one. */
    method Others(turns: seq<Turn>, i: nat, call: nat) returns (next: nat)
      requires Valid() && i <= |turns| && call < |state.reg.calls|
      modifies this
      ensures Valid() && old(trace) <= trace
      ensures i <= next <= |turns| && (next == i ==> state == old(state))
      ensures call < |state.reg.calls| && state.reg.calls[call] == old(state.reg.calls[call])
      ensures state.kinds[call] == old(state.kinds[call])
    {
      if i == |turns| {
        return i;
      }
      Interfere(turns[i], call);
      next := i + 1;
    }

    /** The call is at `phase` of storing `stored`. */
    ghost predicate At(call: nat, kind: Kind, stored: Address, phase: Phase)
      reads this
    {
      call < |state.reg.calls| && call < |state.kinds| && state.kinds[call] == kind
      && state.reg.calls[call].op == Op.Update(stored) && state.reg.calls[call].phase == phase
    }

    /** The callers' side: an object to be retained is alive, and nil copies to nil. */
    predicate Storable(value: Address, copied: Address)
      reads this
    {
      match mode
      case Retain => value == NIL || Count(state, Object.At(value)) > 0
      case Copy => value == NIL ==> copied == NIL
      case Assign => true
    }

    /** What comes before the loop of an update: `value` is retained, or copied to `copied`. */
    method Begin(value: Address, copied: Address) returns (call: nat, stored: Address)
      requires Valid() && Storable(value, copied)
      modifies this
      ensures Valid() && old(trace) <= trace
      ensures stored == (if mode.Copy? then copied else value)
      ensures call == |old(state).reg.calls| && At(call, Updating, stored, Reading)
    {
      hide CanRun, After;
      call, stored := |state.reg.calls|, if mode.Copy? then copied else value;
      Take(Store(value, stored));
    }

    /** The others do not touch this call. */
    method LetOthers(turns: seq<Turn>, i: nat, call: nat, ghost kind: Kind, ghost stored: Address, ghost phase: Phase)
        returns (next: nat)
      requires Valid() && i <= |turns| && At(call, kind, stored, phase)
      modifies this
      ensures Valid() && old(trace) <= trace && At(call, kind, stored, phase)
      ensures i <= next <= |turns| && (next == i ==> state == old(state))
    {
      hide CanRun, After;
      next := Others(turns, i, call);
    }

    /** An atomic read of the slot by a call. */
    method Read(call: nat, ghost kind: Kind, stored: Address) returns (seen: Address)
      requires Valid() && At(call, kind, stored, Reading)
      modifies this
      ensures Valid() && old(trace) <= trace && seen == old(state.reg.slot)
      ensures state.reg.slot == old(state.reg.slot)
      ensures var at := |old(state).reg.log|;
        At(call, kind, stored, if seen == stored then Returning(seen, at) else Comparing(seen, at))
    {
      hide CanRun, After;
      seen := state.reg.slot;
      Take(Move(AtomicRegister.Read(call)));
    }

    /** An atomic compare-and-swap of the slot by a call. */
    method CompareAndSwap(call: nat, ghost kind: Kind, stored: Address, expected: Address, ghost at: nat)
        returns (ok: bool)
      requires Valid() && At(call, kind, stored, Comparing(expected, at))
      modifies this
      ensures Valid() && old(trace) <= trace && ok == (old(state.reg.slot) == expected)
      ensures state.reg.slot == if ok then stored else old(state.reg.slot)
      ensures At(call, kind, stored, if ok then Returning(expected, |old(state).reg.log|) else Reading)
    {
      hide CanRun, After;
      ok := state.reg.slot == expected;
      Take(Move(Compare(call)));
    }

    /** What comes after the loop: what has been displaced is autoreleased by an update and
        released by a release. */
    method Finish(call: nat, ghost kind: Kind, stored: Address, ghost seen: Address, ghost at: nat)
      requires Valid() && At(call, kind, stored, Returning(seen, at))
      modifies this
      ensures Valid() && old(trace) <= trace
      ensures At(call, kind, stored, Returned(seen, at, |state.reg.log|))
      ensures var back := if seen == stored then multiset{} else Ref(mode, seen);
        && state.handedBack == old(state.handedBack) + back
        && state.pooled == old(state.pooled) + (if kind.Updating? then back else multiset{})
        && state.released
           == old(state.released) + (if kind.Updating? || seen == stored then multiset{} else Ref(Retain, seen))
    {
      hide CanRun, After, Ref;
      Take(Move(Return(call)));
    }

    /** Stores `value` by the rules of the slot's mode, whatever the others do meanwhile, and
        returns what it displaced. */
    method Update(value: Address, copied: Address, turns: seq<Turn>) returns (seen: Address)
      requires Valid() && Storable(value, copied)
      modifies this
      ensures Valid() && old(trace) <= trace
      ensures exists at, finish ::
        At(|old(state).reg.calls|, Updating, if mode.Copy? then copied else value, Returned(seen, at, finish))
    {
      hide *;
      var i: nat := 0;
      var call, stored := Begin(value, copied);
      while true
        invariant Valid() && old(trace) <= trace && i <= |turns|
        invariant At(call, Updating, stored, Reading)
        decreases |turns| - i
      {
        i := LetOthers(turns, i, call, Updating, stored, Reading);
        ghost var at := |state.reg.log|;
        seen := Read(call, Updating, stored);
        if seen == stored {
          i := LetOthers(turns, i, call, Updating, stored, Returning(seen, at));
          Finish(call, Updating, stored, seen, at);
          return;
        }
        i := LetOthers(turns, i, call, Updating, stored, Comparing(seen, at));
        ghost var now := |state.reg.log|;
        var ok := CompareAndSwap(call, Updating, stored, seen, at);
        if ok {
          i := LetOthers(turns, i, call, Updating, stored, Returning(seen, now));
          Finish(call, Updating, stored, seen, now);
          return;
        }
      }
    }

    /** Empties the slot and releases what was in it. */
    method Release(turns: seq<Turn>)
      requires Valid()
      modifies this
      ensures Valid() && old(trace) <= trace
      ensures exists seen, at, finish :: At(|old(state).reg.calls|, Releasing, NIL, Returned(seen, at, finish))
    {
      hide *;
      var i: nat := 0;
      var call := BeginRelease();
      while true
        invariant Valid() && old(trace) <= trace && i <= |turns|
        invariant At(call, Releasing, NIL, Reading)
        decreases |turns| - i
      {
        i := LetOthers(turns, i, call, Releasing, NIL, Reading);
        ghost var at := |state.reg.log|;
        var value := Read(call, Releasing, NIL);
        if value == NIL {
          i := LetOthers(turns, i, call, Releasing, NIL, Returning(value, at));
          Finish(call, Releasing, NIL, value, at);
          return;
        }
        i := LetOthers(turns, i, call, Releasing, NIL, Comparing(value, at));
        ghost var now := |state.reg.log|;
        var ok := CompareAndSwap(call, Releasing, NIL, value, at);
        if ok {
          i := LetOthers(turns, i, call, Releasing, NIL, Returning(value, now));
          Finish(call, Releasing, NIL, value, now);
          return;
        }
      }
    }

    method BeginRelease() returns (call: nat)
      requires Valid()
      modifies this
      ensures Valid() && old(trace) <= trace
      ensures call == |old(state).reg.calls| && At(call, Releasing, NIL, Reading)
    {
      hide CanRun, After;
      call := |state.reg.calls|;
      Take(Clear);
    }
  }
}

/** Atomic object slots with reference counting: updates and releases of one slot by any
    number of concurrent calls, and what they do to the retain counts. The slot itself is an
    AtomicRegister whose words are object addresses. */
module AtomicIds {
  import opened Bitwise
  import opened AtomicRegister
  import Register = AtomicRegister

  /** The address of an object, or nil. */
  type Address = Bits
  const NIL: Address := 0

  datatype Object = At(address: Address)

  /** How the slot owns its content; every update of a slot uses the same mode. */
  datatype Mode = Retain | Copy | Assign

  datatype Kind = Updating | Releasing

  /** `retained` and `released` have every reference to an object that has been made and given
      up, `owners` the references held outside the slot, and `pooled` the pending autoreleases.
      `handedBack` has every reference that a finished call has given up, and `unheld` every one
      that it has given up without having it. `kinds` tells for each call of the register which
      function it is in. */
  datatype Slot = Slot(
    mode: Mode, reg: Register.State, kinds: seq<Kind>,
    retained: multiset<Object>, released: multiset<Object>, owners: multiset<Object>, pooled: multiset<Object>,
    handedBack: multiset<Object>, unheld: multiset<Object>)

  /** The retain count of an object. It is gone when that is zero. */
  function Count(s: Slot, x: Object): int {
    s.retained[x] as int - s.released[x] as int
  }

  /** `Store` is a call of the update function up to its loop: `stored` is `value` retained,
      copied, or as it is. The last five are made by the rest of the program. */
  datatype SlotAction =
    | Store(value: Address, stored: Address)
    | Clear
    | Move(a: Register.Action)
    | Create(x: Object)
    | RetainOutside(x: Object)
    | ReleaseOutside(x: Object)
    | AutoreleaseOutside(x: Object)
    | Drain(x: Object)

  /** The reference that goes with an address in a slot of this mode. */
  function Ref(mode: Mode, word: Address): multiset<Object> {
    if mode.Assign? || word == NIL then multiset{} else multiset{At(word)}
  }

  function Empty(mode: Mode): Slot {
    Slot(mode, Register.Initial(NIL), [], multiset{}, multiset{}, multiset{}, multiset{}, multiset{}, multiset{})
  }

  predicate Can(s: Slot, a: SlotAction) {
    match a
    case Store(value, stored) =>
      if s.mode.Copy? then value == NIL ==> stored == NIL
      else stored == value && (s.mode.Assign? || value == NIL || Count(s, At(value)) > 0)
    case Clear => true
    case Move(move) => !move.Invoke? && Register.Allowed(s.reg, move) && move.call < |s.kinds|
    case Create(x) => x.address != NIL && Count(s, x) <= 0
    case RetainOutside(x) => Count(s, x) > 0
    case ReleaseOutside(x) => x in s.owners
    case AutoreleaseOutside(x) => x in s.owners
    case Drain(x) => x in s.pooled
  }

  function Begin(s: Slot, kind: Kind, stored: Address): Slot {
    s.(reg := Register.Step(s.reg, Invoke(Update(stored))), kinds := s.kinds + [kind])
  }

  /** The displaced content, if the call's compare-and-swap displaced any. */
  function Displaced(mode: Mode, call: Register.Call): multiset<Object>
    requires TookEffect(call)
  {
    if call.op == Update(call.phase.seen) then multiset{} else Ref(mode, call.phase.seen)
  }

  /** Before it returns, an update autoreleases what it displaced, and a release releases it,
      whatever the mode of the slot. */
  function HandBack(s: Slot, c: nat): Slot
    requires c < |s.reg.calls| && c < |s.kinds| && s.reg.calls[c].phase.Returning?
  {
    var back := Displaced(s.mode, s.reg.calls[c]);
    var t := s.(reg := Register.Step(s.reg, Return(c)), handedBack := s.handedBack + back);
    if s.kinds[c].Updating? then t.(pooled := s.pooled + back)
    else
      var found := Displaced(Retain, s.reg.calls[c]);
      t.(released := s.released + found, unheld := s.unheld + (found - back))
  }

  function Next(s: Slot, a: SlotAction): Slot
    requires Can(s, a)
  {
    match a
    case Store(value, stored) =>
      Begin(s, Updating, stored).(retained := s.retained + Ref(s.mode, stored))
    case Clear => Begin(s, Releasing, NIL)
    case Move(move) =>
      if move.Return? then HandBack(s, move.call) else s.(reg := Register.Step(s.reg, move))
    case Create(x) => s.(retained := s.retained + multiset{x}, owners := s.owners + multiset{x})
    case RetainOutside(x) => s.(retained := s.retained + multiset{x}, owners := s.owners + multiset{x})
    case ReleaseOutside(x) => s.(released := s.released + multiset{x}, owners := s.owners - multiset{x})
    case AutoreleaseOutside(x) => s.(owners := s.owners - multiset{x}, pooled := s.pooled + multiset{x})
    case Drain(x) => s.(released := s.released + multiset{x}, pooled := s.pooled - multiset{x})
  }

  predicate CanRun(s: Slot, run: seq<SlotAction>)
    decreases |run|
  {
    run == [] || (Can(s, run[0]) && CanRun(Next(s, run[0]), run[1..]))
  }

  function After(s: Slot, run: seq<SlotAction>): Slot
    requires CanRun(s, run)
    decreases |run|
  {
    if run == [] then s else After(Next(s, run[0]), run[1..])
  }

  // ----- who holds references -----

  datatype Role = InFlight | Owed | Leaked | Given

  /** The references of a call. On its way to the slot it holds the one it is about to store;
      once it has displaced the content it owes that reference until it hands it back; if it
      found its value already in the slot, it never gives back the reference it took. */
  function Part(role: Role, mode: Mode, call: Register.Call): multiset<Object> {
    match role
    case InFlight => if call.op.Update? && !TookEffect(call) then Ref(mode, call.op.value) else multiset{}
    case Owed => if call.phase.Returning? then Displaced(mode, call) else multiset{}
    case Leaked =>
      if TookEffect(call) && call.op == Update(call.phase.seen) then Ref(mode, call.phase.seen) else multiset{}
    case Given => if call.phase.Returned? then Displaced(mode, call) else multiset{}
  }

  /** How many references to `x` the calls have in this role. */
  function Sum(role: Role, mode: Mode, calls: seq<Register.Call>, x: Object): nat {
    if calls == [] then 0 else Part(role, mode, calls[0])[x] + Sum(role, mode, calls[1..], x)
  }

  lemma {:induction false} SumChanges(role: Role, mode: Mode, calls: seq<Register.Call>, c: nat,
                                     call: Register.Call, x: Object)
    requires c < |calls|
    ensures Sum(role, mode, calls[c := call], x) + Part(role, mode, calls[c])[x]
         == Sum(role, mode, calls, x) + Part(role, mode, call)[x]
    decreases |calls|
  {
    hide Part;
    if c == 0 {
      assert calls[0 := call][1..] == calls[1..];
    } else {
      SumChanges(role, mode, calls[1..], c - 1, call, x);
      assert calls[c := call][1..] == calls[1..][c - 1 := call];
    }
  }

  lemma {:induction false} SumGrows(role: Role, mode: Mode, calls: seq<Register.Call>, call: Register.Call, x: Object)
    ensures Sum(role, mode, calls + [call], x) == Sum(role, mode, calls, x) + Part(role, mode, call)[x]
  {
    hide Part;
    if calls == [] {
      assert (calls + [call])[1..] == [];
    } else {
      SumGrows(role, mode, calls[1..], call, x);
      assert (calls + [call])[1..] == calls[1..] + [call];
    }
  }

  lemma {:induction false} SumHas(role: Role, mode: Mode, calls: seq<Register.Call>, c: nat, x: Object)
    requires c < |calls|
    ensures Part(role, mode, calls[c])[x] <= Sum(role, mode, calls, x)
    decreases |calls|
  {
    hide Part;
    if c > 0 {
      SumHas(role, mode, calls[1..], c - 1, x);
    }
  }

  /** How many references to `x` the slot and the calls on it hold. */
  function Held(mode: Mode, reg: Register.State, x: Object): nat {
    Ref(mode, reg.slot)[x] + Sum(InFlight, mode, reg.calls, x) + Sum(Owed, mode, reg.calls, x)
    + Sum(Leaked, mode, reg.calls, x)
  }

  /** The retain count of `x` is the number of references to it that somebody holds, less those
      that were given up by one who had none; every displaced one is handed back once. */
  predicate BalancedAt(s: Slot, x: Object) {
    && Count(s, x) + s.unheld[x] == s.owners[x] + s.pooled[x] + Held(s.mode, s.reg, x)
    && (!s.mode.Assign? ==> s.unheld[x] == 0)
    && s.handedBack[x] == Sum(Given, s.mode, s.reg.calls, x)
  }

  ghost predicate Balanced(s: Slot) {
    forall x :: BalancedAt(s, x)
  }

  predicate OnlyUpdates(s: Slot) {
    && |s.kinds| == |s.reg.calls|
    && forall c :: 0 <= c < |s.reg.calls| ==> s.reg.calls[c].op.Update?
  }

  /** What one call and the slot hold together. */
  function Share(mode: Mode, slot: Address, call: Register.Call, x: Object): nat {
    Ref(mode, slot)[x] + Part(InFlight, mode, call)[x] + Part(Owed, mode, call)[x] + Part(Leaked, mode, call)[x]
  }

  lemma HeldChanges(mode: Mode, reg: Register.State, t: Register.State, c: nat, x: Object)
    requires c < |reg.calls| && |t.calls| == |reg.calls| && t.calls == reg.calls[c := t.calls[c]]
    ensures Held(mode, t, x) + Share(mode, reg.slot, reg.calls[c], x)
         == Held(mode, reg, x) + Share(mode, t.slot, t.calls[c], x)
    ensures Sum(Given, mode, t.calls, x) + Part(Given, mode, reg.calls[c])[x]
         == Sum(Given, mode, reg.calls, x) + Part(Given, mode, t.calls[c])[x]
  {
    hide Part, Ref, Sum;
    SumChanges(InFlight, mode, reg.calls, c, t.calls[c], x);
    SumChanges(Owed, mode, reg.calls, c, t.calls[c], x);
    SumChanges(Leaked, mode, reg.calls, c, t.calls[c], x);
    SumChanges(Given, mode, reg.calls, c, t.calls[c], x);
  }

  lemma HeldGrows(mode: Mode, reg: Register.State, stored: Address, x: Object)
    ensures var t := Register.Step(reg, Invoke(Update(stored)));
      && Held(mode, t, x) == Held(mode, reg, x) + Ref(mode, stored)[x]
      && Sum(Given, mode, t.calls, x) == Sum(Given, mode, reg.calls, x)
  {
    hide Sum;
    var call := Call(Update(stored), |reg.log|, 0, Reading);
    SumGrows(InFlight, mode, reg.calls, call, x);
    SumGrows(Owed, mode, reg.calls, call, x);
    SumGrows(Leaked, mode, reg.calls, call, x);
    SumGrows(Given, mode, reg.calls, call, x);
  }

  lemma UpdateStores(value: Bits, seen: Bits)
    ensures Apply(Update(value), seen) == value
  {
  }

  lemma ReadPassesOn(mode: Mode, reg: Register.State, c: nat)
    requires c < |reg.calls| && reg.calls[c].phase.Reading? && reg.calls[c].op.Update?
    ensures var t := Register.Step(reg, Read(c));
      t.calls == reg.calls[c := t.calls[c]] && Part(Given, mode, t.calls[c]) == Part(Given, mode, reg.calls[c])
      && forall x :: Share(mode, t.slot, t.calls[c], x) == Share(mode, reg.slot, reg.calls[c], x)
  {
    hide Apply, Ref, Share, Part;
    var call, t := reg.calls[c], Register.Step(reg, Read(c));
    UpdateStores(call.op.value, reg.slot);
    if reg.slot == call.op.value {
      FindPassesOn(mode, call, |reg.log|);
    } else {
      LoadPassesOn(mode, call, reg.slot, |reg.log|);
    }
  }

  lemma FindPassesOn(mode: Mode, call: Register.Call, at: nat)
    requires call.phase.Reading? && call.op.Update?
    ensures var after := call.(phase := Returning(call.op.value, at));
      && Part(Given, mode, after) == Part(Given, mode, call)
      && forall x :: Share(mode, call.op.value, after, x) == Share(mode, call.op.value, call, x)
  {
    hide Ref;
  }

  lemma LoadPassesOn(mode: Mode, call: Register.Call, slot: Address, at: nat)
    requires call.phase.Reading? && call.op.Update?
    ensures var after := call.(phase := Comparing(slot, at));
      && Part(Given, mode, after) == Part(Given, mode, call)
      && forall x :: Share(mode, slot, after, x) == Share(mode, slot, call, x)
  {
    hide Ref;
  }

  lemma ComparePassesOn(mode: Mode, reg: Register.State, c: nat)
    requires c < |reg.calls| && reg.calls[c].phase.Comparing? && reg.calls[c].op.Update?
    ensures var t := Register.Step(reg, Compare(c));
      t.calls == reg.calls[c := t.calls[c]] && Part(Given, mode, t.calls[c]) == Part(Given, mode, reg.calls[c])
      && forall x :: Share(mode, t.slot, t.calls[c], x) == Share(mode, reg.slot, reg.calls[c], x)
  {
    hide Apply, Ref, Share, Part;
    var call, t := reg.calls[c], Register.Step(reg, Compare(c));
    UpdateStores(call.op.value, reg.slot);
    if reg.slot == call.phase.seen {
      SwapPassesOn(mode, call, reg.slot, |reg.log|);
    } else {
      RetryPassesOn(mode, call, reg.slot);
    }
  }

  lemma SwapPassesOn(mode: Mode, call: Register.Call, slot: Address, at: nat)
    requires call.phase.Comparing? && call.op.Update?
    ensures var after := call.(phase := Returning(slot, at));
      && Part(Given, mode, after) == Part(Given, mode, call)
      && forall x :: Share(mode, call.op.value, after, x) == Share(mode, slot, call, x)
  {
    hide Ref;
  }

  lemma RetryPassesOn(mode: Mode, call: Register.Call, slot: Address)
    requires call.phase.Comparing? && call.op.Update?
    ensures var after := call.(phase := Reading, failures := call.failures + 1);
      && Part(Given, mode, after) == Part(Given, mode, call)
      && forall x :: Share(mode, slot, after, x) == Share(mode, slot, call, x)
  {
  }

  /** Reading and comparing pass references around between the call and the slot. */
  lemma MovePassesOn(mode: Mode, reg: Register.State, move: Register.Action, x: Object)
    requires Register.Allowed(reg, move) && (move.Read? || move.Compare?) && reg.calls[move.call].op.Update?
    ensures var t := Register.Step(reg, move);
      && Held(mode, t, x) == Held(mode, reg, x) && Sum(Given, mode, t.calls, x) == Sum(Given, mode, reg.calls, x)
  {
    hide Sum, Held, Share, Part, Register.Step;
    var c, t := move.call, Register.Step(reg, move);
    if move.Read? {
      ReadPassesOn(mode, reg, c);
    } else {
      ComparePassesOn(mode, reg, c);
    }
    HeldChanges(mode, reg, t, c, x);
  }

  lemma ReturnPaysOff(mode: Mode, reg: Register.State, c: nat, x: Object)
    requires c < |reg.calls| && reg.calls[c].phase.Returning? && reg.calls[c].op.Update?
    ensures var t, back := Register.Step(reg, Return(c)), Displaced(mode, reg.calls[c])[x];
      && Held(mode, t, x) + back == Held(mode, reg, x)
      && Sum(Given, mode, t.calls, x) == Sum(Given, mode, reg.calls, x) + back
  {
    hide Sum, Held;
    var t, back := Register.Step(reg, Return(c)), Displaced(mode, reg.calls[c])[x];
    assert Share(mode, reg.slot, reg.calls[c], x) == Share(mode, t.slot, t.calls[c], x) + back;
    assert t.calls == reg.calls[c := t.calls[c]];
    HeldChanges(mode, reg, t, c, x);
  }

  /** What has been displaced is held, unless the slot merely assigns. */
  lemma ModesDisplace(mode: Mode, call: Register.Call)
    requires TookEffect(call)
    ensures Displaced(mode, call) <= Displaced(Retain, call)
    ensures !mode.Assign? ==> Displaced(mode, call) == Displaced(Retain, call)
  {
  }

  lemma NothingHeld(mode: Mode)
    ensures Ref(mode, NIL) == multiset{}
  {
  }

  lemma CallKeepsBalance(s: Slot, a: SlotAction, x: Object)
    requires BalancedAt(s, x) && OnlyUpdates(s) && Can(s, a) && (a.Store? || a.Clear? || a.Move?)
    ensures BalancedAt(Next(s, a), x)
  {
    hide Held, Sum, Part, Ref, Displaced, Register.Step;
    match a
    case Store(value, stored) =>
      HeldGrows(s.mode, s.reg, stored, x);
    case Clear =>
      HeldGrows(s.mode, s.reg, NIL, x);
      NothingHeld(s.mode);
    case Move(move) =>
      if move.Return? {
        ReturnPaysOff(s.mode, s.reg, move.call, x);
        ModesDisplace(s.mode, s.reg.calls[move.call]);
      } else {
        MovePassesOn(s.mode, s.reg, move, x);
      }
  }

  lemma NextKeepsBalance(s: Slot, a: SlotAction, x: Object)
    requires BalancedAt(s, x) && OnlyUpdates(s) && Can(s, a)
    ensures BalancedAt(Next(s, a), x)
  {
    hide Held, Sum, HandBack, Begin;
    if a.Store? || a.Clear? || a.Move? {
      CallKeepsBalance(s, a, x);
    }
  }

  lemma MoveKeepsOps(reg: Register.State, move: Register.Action)
    requires Register.Allowed(reg, move) && !move.Invoke?
    ensures |Register.Step(reg, move).calls| == |reg.calls|
    ensures forall c :: 0 <= c < |reg.calls| ==> Register.Step(reg, move).calls[c].op == reg.calls[c].op
  {
    hide Apply;
  }

  lemma NextKeepsShape(s: Slot, a: SlotAction)
    requires OnlyUpdates(s) && Can(s, a)
    ensures OnlyUpdates(Next(s, a)) && Next(s, a).mode == s.mode
  {
    hide Displaced, Ref;
    if a.Move? {
      hide Register.Step;
      MoveKeepsOps(s.reg, a.a);
    }
  }

  lemma {:induction false} RunKeepsBalance(s: Slot, run: seq<SlotAction>)
    requires Balanced(s) && OnlyUpdates(s) && CanRun(s, run)
    ensures Balanced(After(s, run)) && OnlyUpdates(After(s, run)) && After(s, run).mode == s.mode
    decreases |run|
  {
    hide Next, Can, BalancedAt, OnlyUpdates;
    if run != [] {
      forall x
        ensures BalancedAt(Next(s, run[0]), x)
      {
        NextKeepsBalance(s, run[0], x);
      }
      NextKeepsShape(s, run[0]);
      RunKeepsBalance(Next(s, run[0]), run[1..]);
    }
  }

  // ----- what follows for every run -----

  /** In every interleaving, the retain count of every object is exactly its owners outside the
      slot, its pending autoreleases, the slot, the updates on their way, the displaced
      references not yet handed back, and the surplus of updates that found their own value. */
  lemma RetainCountsBalance(mode: Mode, run: seq<SlotAction>, x: Object)
    requires CanRun(Empty(mode), run)
    ensures var s := After(Empty(mode), run);
      && s.mode == mode
      && Count(s, x) + s.unheld[x]
         == s.owners[x] + s.pooled[x] + Ref(mode, s.reg.slot)[x] + Sum(InFlight, mode, s.reg.calls, x)
            + Sum(Owed, mode, s.reg.calls, x) + Sum(Leaked, mode, s.reg.calls, x)
      && (!mode.Assign? ==> s.unheld[x] == 0)
      && s.handedBack[x] == Sum(Given, mode, s.reg.calls, x)
  {
    hide Sum, Part;
    EmptyIsBalanced(mode);
    RunKeepsBalance(Empty(mode), run);
    hide Ref;
    assert BalancedAt(After(Empty(mode), run), x);
  }

  lemma EmptyIsBalanced(mode: Mode)
    ensures Balanced(Empty(mode)) && OnlyUpdates(Empty(mode))
  {
    forall x
      ensures BalancedAt(Empty(mode), x)
    {
      assert forall role :: Sum(role, mode, [], x) == 0;
    }
  }

  /** The call is about to store `x`, or about to give it back. */
  predicate Carries(call: Register.Call, x: Object) {
    || (call.op == Update(x.address) && !TookEffect(call))
    || (call.phase.Returning? && call.phase.seen == x.address)
  }

  lemma CarriedIsHeld(mode: Mode, call: Register.Call, x: Object)
    requires !mode.Assign? && x.address != NIL && Carries(call, x)
    ensures Part(InFlight, mode, call)[x] + Part(Owed, mode, call)[x] + Part(Leaked, mode, call)[x] > 0
  {
    assert Ref(mode, x.address) == multiset{x};
  }

  /** Whoever holds an address on the slot's behalf holds it alive: the slot, a call about to
      store it, and a call about to give it back. */
  lemma HeldObjectsAreAlive(mode: Mode, run: seq<SlotAction>, x: Object)
    requires CanRun(Empty(mode), run) && !mode.Assign? && x.address != NIL
    ensures var s := After(Empty(mode), run);
      && (s.reg.slot == x.address ==> Count(s, x) > 0)
      && (forall c :: 0 <= c < |s.reg.calls| && Carries(s.reg.calls[c], x) ==> Count(s, x) > 0)
  {
    hide Sum, Part, Carries;
    RetainCountsBalance(mode, run, x);
    var s := After(Empty(mode), run);
    forall c | 0 <= c < |s.reg.calls| && Carries(s.reg.calls[c], x)
      ensures Count(s, x) > 0
    {
      CarriedIsHeld(mode, s.reg.calls[c], x);
      SumHas(InFlight, mode, s.reg.calls, c, x);
      SumHas(Owed, mode, s.reg.calls, c, x);
      SumHas(Leaked, mode, s.reg.calls, c, x);
    }
  }

  /** A call that released what it found in a slot that merely assigns. */
  predicate DropsUnheld(mode: Mode, kind: Kind, call: Register.Call, x: Object) {
    && mode.Assign? && kind.Releasing? && call.phase.Returned?
    && x.address != NIL && call.phase.seen == x.address && call.op != Update(x.address)
  }

  /** No call has given up a reference to `x` that it did not have. */
  predicate NothingDropped(s: Slot, x: Object)
    requires OnlyUpdates(s)
  {
    forall c :: 0 <= c < |s.kinds| ==> !DropsUnheld(s.mode, s.kinds[c], s.reg.calls[c], x)
  }

  lemma MoveKeepsOthers(reg: Register.State, move: Register.Action)
    requires Register.Allowed(reg, move) && !move.Invoke?
    ensures var t := Register.Step(reg, move);
      && move.call < |t.calls| && t.calls == reg.calls[move.call := t.calls[move.call]]
      && !reg.calls[move.call].phase.Returned? && (t.calls[move.call].phase.Returned? ==> move.Return?)
  {
    hide Apply;
  }

  lemma NextKeepsDropped(s: Slot, a: SlotAction, x: Object)
    requires OnlyUpdates(s) && Can(s, a) && (s.unheld[x] == 0 <==> NothingDropped(s, x))
    ensures OnlyUpdates(Next(s, a))
    ensures Next(s, a).unheld[x] == 0 <==> NothingDropped(Next(s, a), x)
  {
    NextKeepsShape(s, a);
    hide DropsUnheld, HandBack;
    if a.Store? || a.Clear? {
      BeginDropsNothing(s, a, x);
    } else if a.Move? {
      MoveKeepsDropped(s, a.a, x);
    }
  }

  lemma BeginDropsNothing(s: Slot, a: SlotAction, x: Object)
    requires OnlyUpdates(s) && Can(s, a) && (a.Store? || a.Clear?)
    ensures var t := Next(s, a);
      OnlyUpdates(t) && t.unheld == s.unheld && (NothingDropped(t, x) <==> NothingDropped(s, x))
  {
    hide Ref;
    var t := Next(s, a);
    assert forall c :: 0 <= c < |s.kinds| ==> t.kinds[c] == s.kinds[c] && t.reg.calls[c] == s.reg.calls[c];
    assert !DropsUnheld(t.mode, t.kinds[|s.kinds|], t.reg.calls[|s.kinds|], x);
  }

  lemma MoveKeepsDropped(s: Slot, move: Register.Action, x: Object)
    requires OnlyUpdates(s) && Can(s, Move(move)) && (s.unheld[x] == 0 <==> NothingDropped(s, x))
    ensures var t := Next(s, Move(move)); OnlyUpdates(t) && (t.unheld[x] == 0 <==> NothingDropped(t, x))
  {
    NextKeepsShape(s, Move(move));
    MoveKeepsOthers(s.reg, move);
    var t, c := Next(s, Move(move)), move.call;
    assert t.reg == Register.Step(s.reg, move) && t.kinds == s.kinds && t.mode == s.mode;
    if move.Return? {
      ReturnDrops(s, c, x);
    } else {
      assert t.unheld == s.unheld;
    }
    assert !DropsUnheld(s.mode, s.kinds[c], s.reg.calls[c], x);
    assert !move.Return? ==> !DropsUnheld(t.mode, t.kinds[c], t.reg.calls[c], x);
    hide DropsUnheld, HandBack, Next, Register.Step, Register.Allowed;
    OneCallDrops(s, t, c, x);
  }

  lemma OneCallDrops(s: Slot, t: Slot, c: nat, x: Object)
    requires OnlyUpdates(s) && OnlyUpdates(t) && c < |s.kinds| && t.kinds == s.kinds && t.mode == s.mode
    requires t.reg.calls == s.reg.calls[c := t.reg.calls[c]] && !DropsUnheld(s.mode, s.kinds[c], s.reg.calls[c], x)
    ensures NothingDropped(t, x)
       <==> NothingDropped(s, x) && !DropsUnheld(t.mode, t.kinds[c], t.reg.calls[c], x)
  {
    hide DropsUnheld;
    assert forall i :: 0 <= i < |s.kinds| && i != c ==> t.reg.calls[i] == s.reg.calls[i];
  }

  lemma ReturnDrops(s: Slot, c: nat, x: Object)
    requires OnlyUpdates(s) && c < |s.reg.calls| && s.reg.calls[c].phase.Returning?
    ensures var t := HandBack(s, c);
      && t.kinds == s.kinds && c < |t.reg.calls|
      && t.unheld[x] == s.unheld[x] + if DropsUnheld(s.mode, s.kinds[c], t.reg.calls[c], x) then 1 else 0
  {
  }

  lemma {:induction false} RunKeepsDropped(s: Slot, run: seq<SlotAction>, x: Object)
    requires OnlyUpdates(s) && CanRun(s, run) && (s.unheld[x] == 0 <==> NothingDropped(s, x))
    ensures OnlyUpdates(After(s, run)) && (After(s, run).unheld[x] == 0 <==> NothingDropped(After(s, run), x))
    decreases |run|
  {
    hide Next, Can, OnlyUpdates, NothingDropped;
    if run != [] {
      NextKeepsDropped(s, run[0], x);
      RunKeepsDropped(Next(s, run[0]), run[1..], x);
    }
  }

  /** A slot that merely assigns has no part in the retain count of an object, exactly as long
      as no release finds the object there. */
  lemma AssignHoldsNothing(run: seq<SlotAction>, x: Object)
    requires CanRun(Empty(Assign), run)
    ensures var s := After(Empty(Assign), run);
      && OnlyUpdates(s)
      && Count(s, x) + s.unheld[x] == s.owners[x] + s.pooled[x] && s.handedBack[x] == 0
      && (Count(s, x) == s.owners[x] + s.pooled[x] <==> NothingDropped(s, x))
  {
    hide NothingDropped, Sum;
    RetainCountsBalance(Assign, run, x);
    NothingDroppedYet(Assign, x);
    RunKeepsDropped(Empty(Assign), run, x);
    var calls := After(Empty(Assign), run).reg.calls;
    AssignSum(InFlight, calls, x);
    AssignSum(Owed, calls, x);
    AssignSum(Leaked, calls, x);
    AssignSum(Given, calls, x);
  }

  lemma NothingDroppedYet(mode: Mode, x: Object)
    ensures OnlyUpdates(Empty(mode)) && NothingDropped(Empty(mode), x)
  {
  }

  lemma {:induction false} AssignSum(role: Role, calls: seq<Register.Call>, x: Object)
    ensures Sum(role, Assign, calls, x) == 0
  {
    if calls != [] {
      AssignSum(role, calls[1..], x);
    }
  }

  /** The call found its own value in the slot. */
  predicate FoundItsValue(call: Register.Call, x: Object) {
    TookEffect(call) && call.op == Update(x.address) && call.phase.seen == x.address
  }

  lemma LeakedPart(mode: Mode, call: Register.Call, x: Object)
    requires !mode.Assign? && x.address != NIL
    ensures Part(Leaked, mode, call)[x] == if FoundItsValue(call, x) then 1 else 0
  {
    if TookEffect(call) {
      assert Ref(mode, call.phase.seen)[x] == if call.phase.seen == x.address then 1 else 0;
    }
  }

  lemma {:induction false} LeakedIff(mode: Mode, calls: seq<Register.Call>, x: Object)
    requires !mode.Assign? && x.address != NIL
    ensures Sum(Leaked, mode, calls, x) == 0 <==> forall c :: 0 <= c < |calls| ==> !FoundItsValue(calls[c], x)
  {
    hide Part, FoundItsValue;
    if calls != [] {
      LeakedIff(mode, calls[1..], x);
      LeakedPart(mode, calls[0], x);
      assert forall c :: 0 < c < |calls| ==> calls[c] == calls[1..][c - 1];
    }
  }

  predicate NoSurplus(s: Slot, x: Object) {
    Count(s, x) == s.owners[x] + s.pooled[x] + Ref(s.mode, s.reg.slot)[x]
                   + Sum(InFlight, s.mode, s.reg.calls, x) + Sum(Owed, s.mode, s.reg.calls, x)
  }

  /** An object has no surplus reference exactly if no update was asked to store it while the
      slot held it already. */
  lemma NoSurplusIff(mode: Mode, run: seq<SlotAction>, x: Object)
    requires CanRun(Empty(mode), run) && !mode.Assign? && x.address != NIL
    ensures var s := After(Empty(mode), run);
      NoSurplus(s, x) <==> forall c :: 0 <= c < |s.reg.calls| ==> !FoundItsValue(s.reg.calls[c], x)
  {
    hide Sum, Part;
    RetainCountsBalance(mode, run, x);
    LeakedIff(mode, After(Empty(mode), run).reg.calls, x);
  }

  lemma NextKeepsSurplus(s: Slot, a: SlotAction, x: Object)
    requires OnlyUpdates(s) && Can(s, a)
    ensures Sum(Leaked, s.mode, Next(s, a).reg.calls, x) >= Sum(Leaked, s.mode, s.reg.calls, x)
  {
    hide Sum, Part, Ref, Displaced;
    match a
    case Store(value, stored) =>
      SumGrows(Leaked, s.mode, s.reg.calls, Call(Update(stored), |s.reg.log|, 0, Reading), x);
    case Clear =>
      SumGrows(Leaked, s.mode, s.reg.calls, Call(Update(NIL), |s.reg.log|, 0, Reading), x);
    case Move(move) =>
      MoveKeepsSurplus(s.mode, s.reg, move);
      SumChanges(Leaked, s.mode, s.reg.calls, move.call, Register.Step(s.reg, move).calls[move.call], x);
    case _ =>
  }

  lemma MoveKeepsSurplus(mode: Mode, reg: Register.State, move: Register.Action)
    requires Register.Allowed(reg, move) && !move.Invoke? && reg.calls[move.call].op.Update?
    ensures var t := Register.Step(reg, move);
      && move.call < |t.calls| && t.calls == reg.calls[move.call := t.calls[move.call]]
      && Part(Leaked, mode, reg.calls[move.call]) <= Part(Leaked, mode, t.calls[move.call])
  {
    hide Ref, Apply, Part;
    PhaseKeepsSurplus(mode, reg.calls[move.call], Register.Step(reg, move).calls[move.call]);
  }

  lemma PhaseKeepsSurplus(mode: Mode, call: Register.Call, after: Register.Call)
    requires after.op == call.op
    requires TookEffect(call) ==> TookEffect(after) && after.phase.seen == call.phase.seen
    ensures Part(Leaked, mode, call) <= Part(Leaked, mode, after)
  {
    hide Ref;
  }

  /** A surplus reference is never given back: such an object lives for ever. */
  lemma {:induction false} SurplusIsForever(s: Slot, run: seq<SlotAction>, x: Object)
    requires Balanced(s) && OnlyUpdates(s) && CanRun(s, run) && Sum(Leaked, s.mode, s.reg.calls, x) > 0
    ensures Count(After(s, run), x) > 0
    decreases |run|
  {
    hide Next, Can, OnlyUpdates, Sum;
    if run == [] {
      if s.mode.Assign? {
        AssignSum(Leaked, s.reg.calls, x);
      }
      assert BalancedAt(s, x) && Count(s, x) > 0;
    } else {
      forall y
        ensures BalancedAt(Next(s, run[0]), y)
      {
        NextKeepsBalance(s, run[0], y);
      }
      NextKeepsShape(s, run[0]);
      NextKeepsSurplus(s, run[0], x);
      SurplusIsForever(Next(s, run[0]), run[1..], x);
    }
  }

  /** The steps that reach the register. */
  function OnRegister(a: SlotAction): seq<Register.Action> {
    match a
    case Store(value, stored) => [Invoke(Update(stored))]
    case Clear => [Invoke(Update(NIL))]
    case Move(move) => [move]
    case _ => []
  }

  function RegisterRun(run: seq<SlotAction>): seq<Register.Action> {
    if run == [] then [] else OnRegister(run[0]) + RegisterRun(run[1..])
  }

  lemma NextIsRegisterStep(s: Slot, a: SlotAction)
    requires Can(s, a)
    ensures Register.AllowedRun(s.reg, OnRegister(a)) && Register.Run(s.reg, OnRegister(a)) == Next(s, a).reg
  {
    hide Apply, Displaced, Ref;
    assert forall move: Register.Action :: [move][1..] == [];
  }

  /** Seen from the slot, every run is a run of the register: its calls take effect one at a
      time in real-time order, and a call retries only when another got through. */
  lemma {:induction false} EveryRunIsARegisterRun(s: Slot, run: seq<SlotAction>)
    requires CanRun(s, run)
    ensures Register.AllowedRun(s.reg, RegisterRun(run))
    ensures Register.Run(s.reg, RegisterRun(run)) == After(s, run).reg
    decreases |run|
  {
    hide Next, Can, Register.Step, Register.Allowed, OnRegister;
    if run != [] {
      NextIsRegisterStep(s, run[0]);
      EveryRunIsARegisterRun(Next(s, run[0]), run[1..]);
      RunAppend(s.reg, OnRegister(run[0]), RegisterRun(run[1..]));
    }
  }

  lemma {:induction false} RunOneMore(s: Slot, run: seq<SlotAction>, a: SlotAction)
    requires CanRun(s, run) && Can(After(s, run), a)
    ensures CanRun(s, run + [a]) && After(s, run + [a]) == Next(After(s, run), a)
    decreases |run|
  {
    hide Next, Can;
    if run == [] {
      assert [a][1..] == [] && [] + [a] == [a];
    } else {
      RunOneMore(Next(s, run[0]), run[1..], a);
      assert (run + [a])[1..] == run[1..] + [a];
    }
  }

  /** An object that has been created, and then stored once. */
  function StoredOnce(x: Object): Slot {
    Slot(Retain, Register.State(x.address, [Call(Update(x.address), 0, 0, Returned(NIL, 0, 1))],
                                [Effect(0, Update(x.address), NIL)]),
         [Updating], multiset{x, x}, multiset{}, multiset{x}, multiset{}, multiset{}, multiset{})
  }

  /** Creating an object and storing it. */
  function CreateAndStore(x: Object): seq<SlotAction> {
    [Create(x), Store(x.address, x.address), Move(Read(0)), Move(Compare(0)), Move(Return(0))]
  }

  function StoreAgain(x: Object): seq<SlotAction> {
    [Store(x.address, x.address), Move(Read(1)), Move(Return(1))]
  }

  /** The object is created and about to be stored. */
  function StoreBegun(x: Object): Slot {
    Slot(Retain, Register.State(NIL, [Call(Update(x.address), 0, 0, Reading)], []),
         [Updating], multiset{x, x}, multiset{}, multiset{x}, multiset{}, multiset{}, multiset{})
  }

  lemma StoringBegins(x: Object)
    requires x.address != NIL
    ensures var run := [] + [Create(x)] + [Store(x.address, x.address)];
      CanRun(Empty(Retain), run) && After(Empty(Retain), run) == StoreBegun(x)
  {
    Creating(x);
    hide Next, Can;
    RunOneMore(Empty(Retain), [], Create(x));
    hide CanRun, After;
    StoringCreated(x);
    RunOneMore(Empty(Retain), [] + [Create(x)], Store(x.address, x.address));
  }

  /** The object is created. */
  function Created(mode: Mode, x: Object): Slot {
    Empty(mode).(retained := multiset{x}, owners := multiset{x})
  }

  lemma Creating(x: Object)
    requires x.address != NIL
    ensures forall mode :: Can(Empty(mode), Create(x)) && Next(Empty(mode), Create(x)) == Created(mode, x)
  {
  }

  lemma StoringCreated(x: Object)
    requires x.address != NIL
    ensures var s := Created(Retain, x);
      Can(s, Store(x.address, x.address)) && Next(s, Store(x.address, x.address)) == StoreBegun(x)
  {
  }

  lemma StoringOnce(x: Object)
    requires x.address != NIL
    ensures CanRun(Empty(Retain), CreateAndStore(x)) && After(Empty(Retain), CreateAndStore(x)) == StoredOnce(x)
  {
    hide CanRun, After;
    var e, r2 := Empty(Retain), [] + [Create(x)] + [Store(x.address, x.address)];
    StoringBegins(x);
    RunOneMore(e, r2, Move(Read(0)));
    var r3 := r2 + [Move(Read(0))];
    RunOneMore(e, r3, Move(Compare(0)));
    RunOneMore(e, r3 + [Move(Compare(0))], Move(Return(0)));
    assert r3 + [Move(Compare(0))] + [Move(Return(0))] == CreateAndStore(x);
  }

  /** The smallest surplus: an object stored twice. It has one owner and is in the slot, both
      calls are over, nothing is pending, and its retain count is three. */
  lemma StoringTwiceLeaves(x: Object)
    requires x.address != NIL
    ensures var run := CreateAndStore(x) + StoreAgain(x);
      && CanRun(Empty(Retain), run)
      && var s := After(Empty(Retain), run);
         && Count(s, x) == 3 && s.owners == multiset{x} && s.pooled == multiset{} && s.reg.slot == x.address
         && forall c :: 0 <= c < |s.reg.calls| ==> Completed(s.reg.calls[c])
  {
    hide CanRun, After;
    var e, value, r5 := Empty(Retain), x.address, CreateAndStore(x);
    StoringOnce(x);
    RunOneMore(e, r5, Store(value, value));
    var r6 := r5 + [Store(value, value)];
    RunOneMore(e, r6, Move(Read(1)));
    RunOneMore(e, r6 + [Move(Read(1))], Move(Return(1)));
    assert r6 + [Move(Read(1))] + [Move(Return(1))] == r5 + StoreAgain(x);
  }

  /** An object that has one owner has been assigned to a slot. */
  function AssignedOnce(x: Object): Slot {
    Created(Assign, x).(
    reg := Register.State(x.address, [Call(Update(x.address), 0, 0, Returned(NIL, 0, 1))],
                          [Effect(0, Update(x.address), NIL)]),
    kinds := [Updating])
  }

  lemma AssigningOnce(x: Object)
    requires x.address != NIL
    ensures CanRun(Empty(Assign), CreateAndStore(x)) && After(Empty(Assign), CreateAndStore(x)) == AssignedOnce(x)
  {
    Creating(x);
    var e, value, r1 := Empty(Assign), x.address, [] + [Create(x)];
    AssigningBegins(x);
    hide CanRun, After;
    var r2 := r1 + [Store(value, value)];
    RunOneMore(e, r2, Move(Read(0)));
    var r3 := r2 + [Move(Read(0))];
    RunOneMore(e, r3, Move(Compare(0)));
    RunOneMore(e, r3 + [Move(Compare(0))], Move(Return(0)));
    assert r3 + [Move(Compare(0))] + [Move(Return(0))] == CreateAndStore(x);
  }

  function AssignBegun(x: Object): Slot {
    Created(Assign, x).(reg := Register.State(NIL, [Call(Update(x.address), 0, 0, Reading)], []), kinds := [Updating])
  }

  lemma AssigningBegins(x: Object)
    requires x.address != NIL
    ensures var run := [] + [Create(x)] + [Store(x.address, x.address)];
      CanRun(Empty(Assign), run) && After(Empty(Assign), run) == AssignBegun(x)
  {
    Creating(x);
    hide Next, Can;
    RunOneMore(Empty(Assign), [], Create(x));
    hide CanRun, After;
    AssigningCreated(x);
    RunOneMore(Empty(Assign), [] + [Create(x)], Store(x.address, x.address));
  }

  lemma AssigningCreated(x: Object)
    requires x.address != NIL
    ensures var s := Created(Assign, x);
      Can(s, Store(x.address, x.address)) && Next(s, Store(x.address, x.address)) == AssignBegun(x)
  {
  }

  function ReleaseIt(): seq<SlotAction> {
    [Clear, Move(Read(1)), Move(Compare(1)), Move(Return(1))]
  }

  /** The object is about to be taken out of the slot. */
  function ReleaseRead(x: Object): Slot {
    AssignedOnce(x).(
    reg := Register.State(x.address, [Call(Update(x.address), 0, 0, Returned(NIL, 0, 1)),
                                      Call(Update(NIL), 1, 0, Comparing(x.address, 1))],
                          [Effect(0, Update(x.address), NIL)]),
    kinds := [Updating, Releasing])
  }

  lemma ReleaseReads(x: Object)
    requires x.address != NIL
    ensures var run := CreateAndStore(x) + [Clear] + [Move(Read(1))];
      CanRun(Empty(Assign), run) && After(Empty(Assign), run) == ReleaseRead(x)
  {
    AssigningOnce(x);
    hide CanRun, After, CreateAndStore;
    RunOneMore(Empty(Assign), CreateAndStore(x), Clear);
    RunOneMore(Empty(Assign), CreateAndStore(x) + [Clear], Move(Read(1)));
  }

  /** The object has been taken out of the slot, and is about to be released. */
  function ReleaseTook(x: Object): Slot {
    AssignedOnce(x).(
    reg := Register.State(NIL, [Call(Update(x.address), 0, 0, Returned(NIL, 0, 1)),
                                Call(Update(NIL), 1, 0, Returning(x.address, 1))],
                          [Effect(0, Update(x.address), NIL), Effect(1, Update(NIL), x.address)]),
    kinds := [Updating, Releasing])
  }

  lemma ReleaseTakes(x: Object)
    requires x.address != NIL
    ensures Can(ReleaseRead(x), Move(Compare(1))) && Next(ReleaseRead(x), Move(Compare(1))) == ReleaseTook(x)
  {
  }

  lemma ReleaseGivesUp(x: Object)
    requires x.address != NIL
    ensures Can(ReleaseTook(x), Move(Return(1)))
    ensures var s := Next(ReleaseTook(x), Move(Return(1)));
      Count(s, x) == 0 && s.owners == multiset{x} && s.unheld == multiset{x}
  {
  }

  /** The smallest reference given up by one who had none: an object is assigned to a slot, and
      the slot is released. Its owner still has it, and its retain count is zero. */
  lemma ReleasingAssignedDrops(x: Object)
    requires x.address != NIL
    ensures var run := CreateAndStore(x) + ReleaseIt();
      && CanRun(Empty(Assign), run)
      && var s := After(Empty(Assign), run);
         Count(s, x) == 0 && s.owners == multiset{x} && s.unheld == multiset{x}
  {
    ReleaseReads(x);
    ReleaseTakes(x);
    ReleaseGivesUp(x);
    hide CanRun, After, CreateAndStore, Next, Can, ReleaseRead, ReleaseTook;
    var e, r7 := Empty(Assign), CreateAndStore(x) + [Clear] + [Move(Read(1))];
    RunOneMore(e, r7, Move(Compare(1)));
    RunOneMore(e, r7 + [Move(Compare(1))], Move(Return(1)));
    assert r7 + [Move(Compare(1))] + [Move(Return(1))] == CreateAndStore(x) + ReleaseIt();
  }
}

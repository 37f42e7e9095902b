/** The lock-free operations on one shared machine word, as steps that any number of concurrent
    calls take in any order. Every call has its own program counter; a thread that makes one
    call after the other is a special case. Reads and compare-and-swaps are single steps. */
module AtomicRegister {
  import opened Bitwise

  datatype Op =
    | Get
    | Update(value: Bits)
    | MaskedOr(mask: Bits, bits: Bits)
    | Or(bits: Bits)

  /** The value an operation wants to leave in the slot. */
  function Apply(op: Op, seen: Bits): Bits {
    match op
    case Get => seen
    case Update(value) => value
    case MaskedOr(mask, bits) => (seen & mask) | bits
    case Or(bits) => seen | bits
  }

  /** The program counter and local variables of a call. `at` is a position in the log: of the
      read while comparing, of the call's own effect afterwards. */
  datatype Phase =
    | Reading
    | Comparing(seen: Bits, at: nat)
    | Returning(seen: Bits, at: nat)
    | Returned(seen: Bits, at: nat, finish: nat)

  /** `start` and `finish` are the lengths of the log when the call is made and when it
      returns; `failures` counts its failed compare-and-swaps. */
  datatype Call = Call(op: Op, start: nat, failures: nat, phase: Phase)

  datatype Effect = Effect(call: nat, op: Op, seen: Bits)

  /** `log` lists the calls in the order in which they take effect. */
  datatype State = State(slot: Bits, calls: seq<Call>, log: seq<Effect>)

  datatype Action =
    | Invoke(op: Op)
    | Read(call: nat)
    | Compare(call: nat)
    | Return(call: nat)

  function Initial(value: Bits): State {
    State(value, [], [])
  }

  predicate Allowed(s: State, a: Action) {
    match a
    case Invoke(op) => true
    case Read(c) => c < |s.calls| && s.calls[c].phase.Reading?
    case Compare(c) => c < |s.calls| && s.calls[c].phase.Comparing?
    case Return(c) => c < |s.calls| && s.calls[c].phase.Returning?
  }

  function WithPhase(s: State, c: nat, phase: Phase): State
    requires c < |s.calls|
  {
    s.(calls := s.calls[c := s.calls[c].(phase := phase)])
  }

  /** Call `c` is over but for its return: it saw `seen` and leaves `slot`. */
  function TakeEffect(s: State, c: nat, slot: Bits): State
    requires c < |s.calls|
  {
    WithPhase(s, c, Returning(s.slot, |s.log|)).(slot := slot, log := s.log + [Effect(c, s.calls[c].op, s.slot)])
  }

  /** One turn of the retry loop is a read and a compare-and-swap. A call that finds the value
      it wants returns from the read. */
  function Step(s: State, a: Action): State
    requires Allowed(s, a)
  {
    match a
    case Invoke(op) => s.(calls := s.calls + [Call(op, |s.log|, 0, Reading)])
    case Read(c) =>
      if s.slot == Apply(s.calls[c].op, s.slot) then TakeEffect(s, c, s.slot)
      else WithPhase(s, c, Comparing(s.slot, |s.log|))
    case Compare(c) =>
      var call := s.calls[c];
      if s.slot == call.phase.seen then TakeEffect(s, c, Apply(call.op, call.phase.seen))
      else s.(calls := s.calls[c := call.(phase := Reading, failures := call.failures + 1)])
    case Return(c) =>
      var phase := s.calls[c].phase;
      WithPhase(s, c, Returned(phase.seen, phase.at, |s.log|))
  }

  predicate AllowedRun(s: State, run: seq<Action>)
    decreases |run|
  {
    run == [] || (Allowed(s, run[0]) && AllowedRun(Step(s, run[0]), run[1..]))
  }

  function Run(s: State, run: seq<Action>): State
    requires AllowedRun(s, run)
    decreases |run|
  {
    if run == [] then s else Run(Step(s, run[0]), run[1..])
  }

  lemma {:induction false} RunAppend(s: State, a: seq<Action>, b: seq<Action>)
    requires AllowedRun(s, a) && AllowedRun(Run(s, a), b)
    ensures AllowedRun(s, a + b) && Run(s, a + b) == Run(Run(s, a), b)
    decreases |a|
  {
    hide Step, Allowed;
    if a == [] {
      assert a + b == b;
    } else {
      RunAppend(Step(s, a[0]), a[1..], b);
      assert (a + b)[1..] == a[1..] + b;
    }
  }

  // ----- the invariant -----

  /** Taken one after the other, the logged operations turn `init` into `slot`, and each saw
      exactly what its predecessor left. */
  predicate Legal(init: Bits, log: seq<Effect>, slot: Bits)
    decreases |log|
  {
    if log == [] then slot == init
    else
      var last := log[|log| - 1];
      slot == Apply(last.op, last.seen) && Legal(init, log[..|log| - 1], last.seen)
  }

  predicate Changes(e: Effect) {
    Apply(e.op, e.seen) != e.seen
  }

  /** How many of the logged operations changed the slot. */
  function ChangeCount(log: seq<Effect>): nat
    decreases |log|
  {
    if log == [] then 0
    else ChangeCount(log[..|log| - 1]) + if Changes(log[|log| - 1]) then 1 else 0
  }

  /** The slot changes since a call was made, and those before the position `at`. */
  function ChangesBetween(log: seq<Effect>, start: nat, at: nat): int
    requires start <= |log| && at <= |log|
  {
    ChangeCount(log[..at]) - ChangeCount(log[..start])
  }

  /** Call `c` is in the log at position `at` and nowhere else. */
  predicate LoggedAt(log: seq<Effect>, c: nat, op: Op, seen: Bits, at: nat) {
    at < |log| && log[at] == Effect(c, op, seen) && forall k :: 0 <= k < |log| && log[k].call == c ==> k == at
  }

  predicate Unlogged(log: seq<Effect>, c: nat) {
    forall k :: 0 <= k < |log| ==> log[k].call != c
  }

  predicate CallOk(slot: Bits, log: seq<Effect>, c: nat, call: Call) {
    call.start <= |log| &&
    match call.phase
    case Reading =>
      Unlogged(log, c) && call.failures <= ChangesBetween(log, call.start, |log|)
    case Comparing(seen, at) =>
      && Unlogged(log, c) && call.start <= at <= |log|
      && call.failures <= ChangesBetween(log, call.start, at)
      && (ChangeCount(log) == ChangeCount(log[..at]) ==> slot == seen)
    case Returning(seen, at) =>
      && call.start <= at && LoggedAt(log, c, call.op, seen, at)
      && call.failures <= ChangesBetween(log, call.start, at)
    case Returned(seen, at, finish) =>
      && call.start <= at < finish <= |log| && LoggedAt(log, c, call.op, seen, at)
      && call.failures <= ChangesBetween(log, call.start, at)
  }

  predicate Inv(init: Bits, s: State) {
    && Legal(init, s.log, s.slot)
    && (forall k :: 0 <= k < |s.log| ==> s.log[k].call < |s.calls|)
    && (forall c :: 0 <= c < |s.calls| ==> CallOk(s.slot, s.log, c, s.calls[c]))
  }

  lemma LogGrows(init: Bits, log: seq<Effect>, slot: Bits, e: Effect)
    requires Legal(init, log, slot) && e.seen == slot
    ensures Legal(init, log + [e], Apply(e.op, e.seen))
    ensures ChangeCount(log + [e]) == ChangeCount(log) + if Changes(e) then 1 else 0
    ensures log[..|log|] == log
  {
    assert (log + [e])[..|log|] == log;
  }

  lemma {:induction false} ChangesGrow(log: seq<Effect>, at: nat)
    requires at <= |log|
    ensures ChangeCount(log[..at]) <= ChangeCount(log)
    decreases |log|
  {
    if at == |log| {
      assert log[..at] == log;
    } else {
      ChangesGrow(log[..|log| - 1], at);
      assert log[..|log| - 1][..at] == log[..at];
    }
  }

  /** A call does not mind the effect of another. */
  lemma OthersStayOk(slot: Bits, log: seq<Effect>, c: nat, call: Call, e: Effect)
    requires CallOk(slot, log, c, call) && e.call != c && e.seen == slot
    ensures CallOk(Apply(e.op, e.seen), log + [e], c, call)
  {
    hide Apply;
    var grown := log + [e];
    assert grown[..|log|] == log && grown[..|grown|] == grown && log[..|log|] == log;
    assert forall i :: 0 <= i <= |log| ==> grown[..i] == log[..i];
    if call.phase.Comparing? {
      ChangesGrow(log, call.phase.at);
    }
  }

  lemma EffectIsOk(init: Bits, s: State, c: nat, slot: Bits)
    requires Inv(init, s) && c < |s.calls|
    requires s.calls[c].phase.Reading? || (s.calls[c].phase.Comparing? && s.slot == s.calls[c].phase.seen)
    requires slot == Apply(s.calls[c].op, s.slot)
    ensures Inv(init, TakeEffect(s, c, slot))
  {
    hide Apply, Legal, ChangeCount;
    var call := s.calls[c];
    var e := Effect(c, call.op, s.slot);
    LogGrows(init, s.log, s.slot, e);
    var grown := s.log + [e];
    assert grown[..|s.log|] == s.log && grown[..call.start] == s.log[..call.start];
    if call.phase.Comparing? {
      ChangesGrow(s.log, call.phase.at);
    }
    forall d | 0 <= d < |s.calls| && d != c
      ensures CallOk(slot, grown, d, s.calls[d])
    {
      OthersStayOk(s.slot, s.log, d, s.calls[d], e);
    }
  }

  lemma InitialIsOk(init: Bits)
    ensures Inv(init, Initial(init))
  {
  }

  lemma StepKeepsInv(init: Bits, s: State, a: Action)
    requires Inv(init, s) && Allowed(s, a)
    ensures Inv(init, Step(s, a))
  {
    hide Apply, Legal, ChangeCount;
    assert s.log[..|s.log|] == s.log;
    match a
    case Invoke(op) =>
    case Read(c) =>
      if s.slot == Apply(s.calls[c].op, s.slot) {
        EffectIsOk(init, s, c, s.slot);
      }
    case Compare(c) =>
      if s.slot == s.calls[c].phase.seen {
        EffectIsOk(init, s, c, Apply(s.calls[c].op, s.slot));
      } else {
        ChangesGrow(s.log, s.calls[c].phase.at);
      }
    case Return(c) =>
  }

  lemma {:induction false} RunKeepsInv(init: Bits, s: State, run: seq<Action>)
    requires Inv(init, s) && AllowedRun(s, run)
    ensures Inv(init, Run(s, run))
    decreases |run|
  {
    hide Inv, Step, Allowed;
    if run != [] {
      StepKeepsInv(init, s, run[0]);
      RunKeepsInv(init, Step(s, run[0]), run[1..]);
    }
  }

  // ----- what follows for every run -----

  /** A plain register that executes operations one after the other. */
  function Serial(init: Bits, log: seq<Effect>): Bits
    decreases |log|
  {
    if log == [] then init else Apply(log[|log| - 1].op, Serial(init, log[..|log| - 1]))
  }

  lemma {:induction false} LegalIsSerial(init: Bits, log: seq<Effect>, slot: Bits)
    requires Legal(init, log, slot)
    ensures slot == Serial(init, log)
    ensures forall k :: 0 <= k < |log| ==> log[k].seen == Serial(init, log[..k])
    decreases |log|
  {
    hide Apply;
    if log != [] {
      var front := log[..|log| - 1];
      LegalIsSerial(init, front, log[|log| - 1].seen);
      forall k | 0 <= k < |log|
        ensures log[k].seen == Serial(init, log[..k])
      {
        assert k < |front| ==> front[..k] == log[..k];
      }
    }
  }

  /** What each operation does to each bit. A masked-or leaves a bit set exactly if it is among
      the bits to be set, or was set and the mask has it. */
  predicate SetsBit(op: Op, seen: Bits, left: Bits, i: nat) {
    match op
    case Get => Bit(left, i) <==> Bit(seen, i)
    case Update(value) => Bit(left, i) <==> Bit(value, i)
    case MaskedOr(mask, bits) => Bit(left, i) <==> Bit(bits, i) || (Bit(mask, i) && Bit(seen, i))
    case Or(bits) => Bit(left, i) <==> Bit(bits, i) || Bit(seen, i)
  }

  lemma ApplySetsBits(op: Op, seen: Bits, i: nat)
    requires i < 64
    ensures SetsBit(op, seen, Apply(op, seen), i)
  {
    hide Bit;
    match op
    case Get =>
    case Update(value) =>
    case MaskedOr(mask, bits) =>
      MaskedOrIs(mask, bits, seen);
      hide Join, Meet, Apply;
      BitLaws(Meet(seen, mask), bits, i);
      BitLaws(seen, mask, i);
    case Or(bits) =>
      OrIsJoin(bits, seen);
      hide Join, Apply;
      BitLaws(seen, bits, i);
  }

  lemma MaskedOrIs(mask: Bits, bits: Bits, seen: Bits)
    ensures Apply(MaskedOr(mask, bits), seen) == Join(Meet(seen, mask), bits)
  {
  }

  /** What the slot held after the effect number `k`. */
  function LeftBy(s: State, k: nat): Bits
    requires k < |s.log|
  {
    if k + 1 < |s.log| then s.log[k + 1].seen else s.slot
  }

  /** In every interleaving, every effect in the log leaves in the slot, bit by bit, what its
      operation makes of what it has seen. */
  lemma EffectsSetBits(init: Bits, run: seq<Action>, k: nat, i: nat)
    requires AllowedRun(Initial(init), run) && k < |Run(Initial(init), run).log| && i < 64
    ensures var s := Run(Initial(init), run);
      SetsBit(s.log[k].op, s.log[k].seen, LeftBy(s, k), i) && (k == 0 ==> s.log[k].seen == init)
  {
    hide Step, Allowed, Apply, SetsBit, ChangeCount;
    InitialIsOk(init);
    RunKeepsInv(init, Initial(init), run);
    var s := Run(Initial(init), run);
    LegalIsSerial(init, s.log, s.slot);
    assert s.log[..k + 1][..k] == s.log[..k] && s.log[..|s.log|] == s.log;
    assert LeftBy(s, k) == Serial(init, s.log[..k + 1]) == Apply(s.log[k].op, s.log[k].seen);
    ApplySetsBits(s.log[k].op, s.log[k].seen, i);
  }

  predicate Completed(call: Call) {
    call.phase.Returned?
  }

  predicate TookEffect(call: Call) {
    call.phase.Returning? || call.phase.Returned?
  }

  /** In every interleaving the calls take effect one at a time, each once, between its
      invocation and its return, and each returns what a plain register executing the calls in
      that order would have held; the slot holds what that register holds now. */
  lemma EveryRunIsSerial(init: Bits, run: seq<Action>)
    requires AllowedRun(Initial(init), run)
    ensures var s := Run(Initial(init), run);
      && s.slot == Serial(init, s.log)
      && (forall c :: 0 <= c < |s.calls| && TookEffect(s.calls[c]) ==>
            var call := s.calls[c];
            && call.start <= call.phase.at && LoggedAt(s.log, c, call.op, call.phase.seen, call.phase.at)
            && call.phase.seen == Serial(init, s.log[..call.phase.at])
            && (Completed(call) ==> call.phase.at < call.phase.finish))
      && (forall c :: 0 <= c < |s.calls| && !TookEffect(s.calls[c]) ==> Unlogged(s.log, c))
  {
    hide Apply, Step, Allowed;
    InitialIsOk(init);
    RunKeepsInv(init, Initial(init), run);
    var s := Run(Initial(init), run);
    LegalIsSerial(init, s.log, s.slot);
    forall c | 0 <= c < |s.calls|
      ensures CallOk(s.slot, s.log, c, s.calls[c])
    {
    }
  }

  /** What later steps cannot undo. */
  predicate Follows(s: State, t: State) {
    && |s.calls| <= |t.calls| && |s.log| <= |t.log|
    && (forall c :: 0 <= c < |s.calls| ==> t.calls[c].start == s.calls[c].start)
    && (forall c :: 0 <= c < |s.calls| && Completed(s.calls[c]) ==> t.calls[c] == s.calls[c])
    && (forall c :: |s.calls| <= c < |t.calls| ==> t.calls[c].start >= |s.log|)
  }

  lemma StepFollows(s: State, a: Action)
    requires Allowed(s, a)
    ensures Follows(s, Step(s, a))
  {
    hide Apply;
  }

  lemma FollowsOn(s: State, t: State, u: State)
    requires Follows(s, t) && Follows(t, u)
    ensures Follows(s, u)
  {
    forall c | 0 <= c < |s.calls| && Completed(s.calls[c])
      ensures u.calls[c] == s.calls[c]
    {
      assert t.calls[c] == s.calls[c];
    }
  }

  lemma {:induction false} RunFollows(s: State, run: seq<Action>)
    requires AllowedRun(s, run)
    ensures Follows(s, Run(s, run))
    decreases |run|
  {
    hide Step, Allowed;
    if run != [] {
      StepFollows(s, run[0]);
      RunFollows(Step(s, run[0]), run[1..]);
      FollowsOn(s, Step(s, run[0]), Run(s, run));
    }
  }

  /** The order of effects respects real time: a call that has returned before another is made
      also takes effect before it. */
  lemma EffectsRespectRealTime(init: Bits, before: seq<Action>, after: seq<Action>, a: nat, b: nat)
    requires AllowedRun(Initial(init), before) && AllowedRun(Run(Initial(init), before), after)
    requires var s := Run(Initial(init), before); a < |s.calls| <= b && Completed(s.calls[a])
    requires var t := Run(Run(Initial(init), before), after); b < |t.calls| && TookEffect(t.calls[b])
    ensures var t := Run(Run(Initial(init), before), after);
      a < |t.calls| && TookEffect(t.calls[a]) && t.calls[a].phase.at < t.calls[b].phase.at
  {
    hide Step, Allowed, Apply, Legal, ChangeCount;
    var s := Run(Initial(init), before);
    InitialIsOk(init);
    RunKeepsInv(init, Initial(init), before);
    RunKeepsInv(init, s, after);
    RunFollows(s, after);
    var t := Run(s, after);
    assert CallOk(s.slot, s.log, a, s.calls[a]) && CallOk(t.slot, t.log, b, t.calls[b]);
  }

  /** The slot changes that calls other than `c` made from log position `start` on. */
  function ChangesByOthers(log: seq<Effect>, start: nat, c: nat): nat
    requires start <= |log|
    decreases |log|
  {
    if |log| == start then 0
    else
      var last := log[|log| - 1];
      ChangesByOthers(log[..|log| - 1], start, c) + if Changes(last) && last.call != c then 1 else 0
  }

  lemma {:induction false} ChangesAreByOthers(log: seq<Effect>, start: nat, c: nat)
    requires start <= |log|
    requires forall k :: start <= k < |log| ==> log[k].call != c
    ensures ChangeCount(log) - ChangeCount(log[..start]) == ChangesByOthers(log, start, c)
    decreases |log|
  {
    hide Changes;
    if |log| == start {
      assert log[..start] == log;
    } else {
      var front := log[..|log| - 1];
      assert log[..start] == front[..start];
      ChangesAreByOthers(front, start, c);
    }
  }

  /** How far the log had come when the call last looked at the slot, or took effect. */
  function LastLook(s: State, c: nat): nat
    requires c < |s.calls|
  {
    if s.calls[c].phase.Reading? then |s.log| else s.calls[c].phase.at
  }

  /** How many of a call's compare-and-swaps fail in a run. */
  function FailedCompares(s: State, run: seq<Action>, c: nat): nat
    requires AllowedRun(s, run)
    decreases |run|
  {
    if run == [] then 0
    else
      (if run[0] == Compare(c) && s.slot != s.calls[c].phase.seen then 1 else 0)
      + FailedCompares(Step(s, run[0]), run[1..], c)
  }

  function Failures(s: State, c: nat): nat {
    if c < |s.calls| then s.calls[c].failures else 0
  }

  lemma StepCountsFailure(s: State, a: Action, c: nat)
    requires Allowed(s, a)
    ensures Failures(Step(s, a), c)
         == Failures(s, c) + if a == Compare(c) && s.slot != s.calls[c].phase.seen then 1 else 0
  {
    hide Apply;
  }

  lemma {:induction false} FailuresAreCounted(s: State, run: seq<Action>, c: nat)
    requires AllowedRun(s, run)
    ensures Failures(Run(s, run), c) == Failures(s, c) + FailedCompares(s, run, c)
    decreases |run|
  {
    hide Step, Allowed, Failures;
    if run != [] {
      StepCountsFailure(s, run[0], c);
      FailuresAreCounted(Step(s, run[0]), run[1..], c);
    }
  }

  /** Lock-freedom with a bound: a call's compare-and-swap fails at most as often as other
      calls have changed the slot after the call was made and before it takes effect, which is
      before it returns. */
  lemma FailuresAreOthersProgress(init: Bits, run: seq<Action>, c: nat)
    requires AllowedRun(Initial(init), run) && c < |Run(Initial(init), run).calls|
    ensures var s := Run(Initial(init), run);
      && s.calls[c].start <= LastLook(s, c) <= |s.log|
      && (Completed(s.calls[c]) ==> LastLook(s, c) < s.calls[c].phase.finish)
      && FailedCompares(Initial(init), run, c) <= ChangesByOthers(s.log[..LastLook(s, c)], s.calls[c].start, c)
  {
    FailuresAreCounted(Initial(init), run, c);
    hide Apply, Step, Allowed, Legal, ChangeCount;
    InitialIsOk(init);
    RunKeepsInv(init, Initial(init), run);
    var s := Run(Initial(init), run);
    var call, end := s.calls[c], LastLook(s, c);
    assert CallOk(s.slot, s.log, c, call);
    assert s.log[..end][..call.start] == s.log[..call.start];
    ChangesAreByOthers(s.log[..end], call.start, c);
  }

  // ----- or -----

  predicate OnlyOrs(calls: seq<Call>) {
    forall c :: 0 <= c < |calls| ==> calls[c].op.Or?
  }

  /** What a call has contributed to the slot so far. */
  function BitsOf(call: Call): Bits {
    if TookEffect(call) && call.op.Or? then call.op.bits else 0
  }

  /** The bits of the calls that have taken effect. */
  function EffectiveBits(calls: seq<Call>): Bits {
    if calls == [] then 0 else Join(BitsOf(calls[0]), EffectiveBits(calls[1..]))
  }

  lemma {:induction false} EffectiveBitsUpdate(calls: seq<Call>, c: nat, call: Call)
    requires c < |calls| && (BitsOf(calls[c]) == 0 || BitsOf(calls[c]) == BitsOf(call))
    ensures EffectiveBits(calls[c := call]) == Join(EffectiveBits(calls), BitsOf(call))
    decreases |calls|
  {
    hide BitsOf, Join;
    var head, rest := BitsOf(calls[0]), EffectiveBits(calls[1..]);
    if c == 0 {
      assert calls[0 := call][1..] == calls[1..];
      JoinLaws(head, rest, BitsOf(call));
      JoinLaws(rest, BitsOf(call), 0);
      JoinLaws(BitsOf(call), BitsOf(call), rest);
    } else {
      EffectiveBitsUpdate(calls[1..], c - 1, call);
      assert calls[c := call][1..] == calls[1..][c - 1 := call];
      JoinLaws(head, rest, BitsOf(call));
    }
  }

  lemma {:induction false} EffectiveBitsAppend(calls: seq<Call>, call: Call)
    requires BitsOf(call) == 0
    ensures EffectiveBits(calls + [call]) == EffectiveBits(calls)
  {
    hide BitsOf, Join;
    if calls == [] {
      assert (calls + [call])[1..] == [];
      JoinLaws(0, 0, 0);
    } else {
      EffectiveBitsAppend(calls[1..], call);
      assert (calls + [call])[1..] == calls[1..] + [call];
    }
  }

  lemma {:induction false} EffectiveBitsHas(calls: seq<Call>, c: nat)
    requires c < |calls|
    ensures Join(EffectiveBits(calls), BitsOf(calls[c])) == EffectiveBits(calls)
  {
    assert calls[c := calls[c]] == calls;
    EffectiveBitsUpdate(calls, c, calls[c]);
  }

  predicate OrOk(init: Bits, s: State) {
    OnlyOrs(s.calls) && s.slot == Join(init, EffectiveBits(s.calls))
  }

  lemma OrStep(init: Bits, s: State, a: Action)
    requires OrOk(init, s) && Allowed(s, a) && (a.Invoke? ==> a.op.Or?)
    ensures OrOk(init, Step(s, a))
  {
    hide Join, EffectiveBits, Apply, BitsOf;
    if a.Invoke? {
      var call := Call(a.op, |s.log|, 0, Reading);
      NothingYet(call);
      EffectiveBitsAppend(s.calls, call);
    } else {
      var c, t := a.call, Step(s, a);
      OrSlot(s, a);
      hide Step;
      assert OnlyOrs(t.calls);
      EffectiveBitsHas(s.calls, c);
      EffectiveBitsUpdate(s.calls, c, t.calls[c]);
      OrArithmetic(init, EffectiveBits(s.calls), BitsOf(s.calls[c]), BitsOf(t.calls[c]));
    }
  }

  /** What adding the bits of a call does to the sum, where `before` are those it had added. */
  lemma OrArithmetic(init: Bits, sum: Bits, before: Bits, bits: Bits)
    requires Join(sum, before) == sum && (before == 0 || before == bits)
    ensures Join(init, Join(sum, bits)) == if before == 0 then Join(Join(init, sum), bits) else Join(init, sum)
  {
    hide Join;
    JoinLaws(init, sum, bits);
  }

  lemma NothingYet(call: Call)
    ensures !TookEffect(call) ==> BitsOf(call) == 0
  {
  }

  /** What one step does to the slot of a register that is only or-ed into. */
  predicate OrMoves(s: State, t: State, c: nat) {
    && c < |s.calls| && c < |t.calls| && t.calls == s.calls[c := t.calls[c]]
    && t.calls[c].op == s.calls[c].op
    && (BitsOf(s.calls[c]) == 0 || BitsOf(s.calls[c]) == BitsOf(t.calls[c]))
    && t.slot == if BitsOf(s.calls[c]) == 0 then Join(s.slot, BitsOf(t.calls[c])) else s.slot
  }

  lemma OrSlot(s: State, a: Action)
    requires Allowed(s, a) && !a.Invoke? && s.calls[a.call].op.Or?
    ensures OrMoves(s, Step(s, a), a.call)
  {
    hide Step, OrMoves;
    if a.Return? {
      OrReturns(s, a.call);
    } else if a.Read? {
      OrReads(s, a.call);
    } else {
      OrCompares(s, a.call);
    }
  }

  lemma OrReturns(s: State, c: nat)
    requires Allowed(s, Return(c)) && s.calls[c].op.Or?
    ensures OrMoves(s, Step(s, Return(c)), c)
  {
    hide Apply, Join, BitsOf;
    BitsStay(s.calls[c], Step(s, Return(c)).calls[c]);
    JoinIsCommutative(s.slot, 0);
  }

  lemma OrReads(s: State, c: nat)
    requires Allowed(s, Read(c)) && s.calls[c].op.Or?
    ensures OrMoves(s, Step(s, Read(c)), c)
  {
    hide Apply, Join, BitsOf;
    var t := Step(s, Read(c));
    NothingYet(s.calls[c]);
    OrIsJoin(s.calls[c].op.bits, s.slot);
    if TookEffect(t.calls[c]) {
      BitsArrive(t.calls[c]);
    } else {
      NothingYet(t.calls[c]);
    }
  }

  lemma OrCompares(s: State, c: nat)
    requires Allowed(s, Compare(c)) && s.calls[c].op.Or?
    ensures OrMoves(s, Step(s, Compare(c)), c)
  {
    hide Apply, Join, BitsOf;
    var t := Step(s, Compare(c));
    NothingYet(s.calls[c]);
    OrIsJoin(s.calls[c].op.bits, s.slot);
    if TookEffect(t.calls[c]) {
      BitsArrive(t.calls[c]);
    } else {
      NothingYet(t.calls[c]);
    }
  }

  lemma BitsStay(call: Call, after: Call)
    requires TookEffect(call) && TookEffect(after) && call.op == after.op
    ensures BitsOf(call) == BitsOf(after)
  {
  }

  lemma BitsArrive(call: Call)
    requires TookEffect(call) && call.op.Or?
    ensures BitsOf(call) == call.op.bits
  {
  }

  lemma OrIsJoin(bits: Bits, seen: Bits)
    ensures Apply(Or(bits), seen) == Join(seen, bits) && Join(seen, 0) == seen
  {
  }

  predicate OnlyInvokesOr(run: seq<Action>) {
    forall i :: 0 <= i < |run| && run[i].Invoke? ==> run[i].op.Or?
  }

  lemma {:induction false} OrRun(init: Bits, s: State, run: seq<Action>)
    requires OrOk(init, s) && AllowedRun(s, run) && OnlyInvokesOr(run)
    ensures OrOk(init, Run(s, run))
    decreases |run|
  {
    hide OrOk, Step, Allowed;
    if run != [] {
      OrStep(init, s, run[0]);
      OrRun(init, Step(s, run[0]), run[1..]);
    }
  }

  lemma OrStarts(init: Bits)
    ensures OrOk(init, Initial(init))
  {
    assert EffectiveBits([]) == 0;
    JoinLaws(init, 0, 0);
  }

  /** Whatever the interleaving of concurrent or calls, the slot holds the initial bits and the
      bits of exactly those calls that have taken effect: no concurrent or is lost. */
  lemma NoOrIsLost(init: Bits, run: seq<Action>)
    requires AllowedRun(Initial(init), run) && OnlyInvokesOr(run)
    ensures var s := Run(Initial(init), run);
      && s.slot == Join(init, EffectiveBits(s.calls))
      && forall c :: 0 <= c < |s.calls| ==> Join(s.slot, BitsOf(s.calls[c])) == s.slot
  {
    hide Step, Allowed, EffectiveBits, Join, BitsOf;
    OrStarts(init);
    OrRun(init, Initial(init), run);
    var s := Run(Initial(init), run);
    forall c | 0 <= c < |s.calls|
      ensures Join(s.slot, BitsOf(s.calls[c])) == s.slot
    {
      EffectiveBitsHas(s.calls, c);
      JoinLaws(init, EffectiveBits(s.calls), BitsOf(s.calls[c]));
    }
  }
}

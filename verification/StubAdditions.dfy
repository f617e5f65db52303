/**
The documented order of additions over whole runs: the exact condition, which every run meets in
which nothing live after one addition is gone at the next, and a run that does not.
*/
module StubAdditions {
  import opened Options
  import opened StubTable
  import opened StubInvariant
  import opened StubMemory
  import opened StubOrder
  import opened StubEffects
  import opened StubCalls
  import opened StubCodes

  /** The entry an operation adds to the documented lists, if it adds one. */
  function Added(op: Op): Option<Entry> {
    match op
    case OpSetDeferred(key, count, retcode) =>
      if count > 0 then Some(Entry(DeferredRc, key, false, Rc(count, retcode))) else None
    case OpSetBuffer(key, source, size, copy, block) =>
      if source.Some? && size > 0
      then Some(Entry(DataBuffer, key, copy, Buff(if copy then block else source.value, size, 0))) else None
    case _ => None
  }

  predicate AddsTo(op: Op, kind: Kind, key: Key) {
    Added(op).Some? && Holds(Added(op).value, kind, key)
  }

  predicate Listed(kind: Kind) {
    kind == DeferredRc || kind == DataBuffer
  }

  /** An addition goes into the first unused slot of its probe sequence. */
  lemma StepAdds(s: State, op: Op) returns (d: nat)
    requires Inv(s) && BuffersOk(s) && Enabled(s, op) && Step(s, op).Some? && Added(op).Some?
    ensures var e := Added(op).value;
            && FreeAt(s.slots, e.key, d) && FirstFree(s.slots, e.key) == Some(d)
            && Step(s, op).value.slots == s.slots[Slot(e.key, d) := e]
  {
    FirstFreeIsFirst(s.slots, s.high, op.key);
    d := FirstFree(s.slots, op.key).value;
  }

  // ----- other operations add nothing -----

  predicate NoNew(t: Table, t': Table, kind: Kind, key: Key) {
    forall i | 0 <= i < SLOTS && Holds(t'[i], kind, key) :: Holds(t[i], kind, key)
  }

  lemma LocalElsewhere(t: Table, t': Table, kind0: Kind, key0: Key, kind: Kind, key: Key)
    requires Local(t, t', kind0, key0) && (kind0, key0) != (kind, key) && kind != Unused
    ensures NoNew(t, t', kind, key)
  {
    if t' != t {
      var i: nat :| TouchesSlot(t, t', kind0, key0, i);
      forall j | 0 <= j < SLOTS && Holds(t'[j], kind, key) ensures Holds(t[j], kind, key) {
        assert j != i ==> t'[j] == t[j];
      }
    }
  }

  lemma CheckDeferredNoNew(s: State, key0: Key, kind: Kind, key: Key)
    requires kind != Unused
    ensures NoNew(s.slots, CheckDeferred(s, key0).0.slots, kind, key)
  {
    if Find(s, DeferredRc, key0).Some? {
      FindHolds(s, DeferredRc, key0);
    }
  }

  lemma AdvanceNoNew(s: State, i: nat, n: nat, kind: Kind, key: Key)
    requires i < SLOTS && s.slots[i].data.Buff? && kind != Unused
    ensures NoNew(s.slots, Advance(s, i, n).slots, kind, key)
  {
  }

  lemma CopyToLocalNoNew(s: State, key0: Key, max: nat, kind: Kind, key: Key)
    requires BuffersOk(s) && kind != Unused
    ensures NoNew(s.slots, CopyToLocal(s, key0, max).0.slots, kind, key)
  {
    if Find(s, DataBuffer, key0).Some? {
      var i := Find(s, DataBuffer, key0).value;
      FindHolds(s, DataBuffer, key0);
      assert BufferOk(s, s.slots[i]);
      AdvanceNoNew(s, i, Amount(s.slots[i].data, max), kind, key);
    }
  }

  lemma CopyFromLocalNoNew(s: State, key0: Key, bytes: seq<bv8>, kind: Kind, key: Key)
    requires BuffersOk(s) && kind != Unused
    ensures NoNew(s.slots, CopyFromLocal(s, key0, bytes).0.slots, kind, key)
  {
    if Find(s, DataBuffer, key0).Some? {
      var i := Find(s, DataBuffer, key0).value;
      FindHolds(s, DataBuffer, key0);
      var d := s.slots[i].data;
      assert BufferOk(s, s.slots[i]);
      AdvanceNoNew(Overwritten(s, d, bytes), i, Amount(d, |bytes|), kind, key);
    }
  }

  lemma NoNewChains(t: Table, t': Table, t'': Table, kind: Kind, key: Key)
    requires NoNew(t, t', kind, key) && NoNew(t', t'', kind, key)
    ensures NoNew(t, t'', kind, key)
  {
  }

  lemma CallNoNew(s: State, key0: Key, defaultRc: int, hookResult: int, kind: Kind, key: Key)
    requires Inv(s) && Call(s, key0, defaultRc, hookResult).Done? && Listed(kind)
    ensures NoNew(s.slots, Call(s, key0, defaultRc, hookResult).state.slots, kind, key)
  {
    var sa := CheckDeferred(s, key0).0;
    CheckDeferredNoNew(s, key0, kind, key);
    var sb := CheckDefault(sa, key0).0;
    CheckDefaultIsLocal(sa, key0);
    LocalElsewhere(sa.slots, sb.slots, ForceFail, key0, kind, key);
    NoNewChains(s.slots, sa.slots, sb.slots, kind, key);
    var (s1, code) := ChooseCode(s, key0, defaultRc);
    ChooseCodeKeeps(s, key0, defaultRc);
    CountAndDropNoNew(s1, key0, code, kind, key);
    NoNewChains(s.slots, s1.slots, DropContext(CountCall(s1, key0, code).value, key0).slots, kind, key);
  }

  lemma CountAndDropNoNew(s: State, key0: Key, code: int, kind: Kind, key: Key)
    requires Inv(s) && CountCall(s, key0, code).Some? && Listed(kind)
    ensures NoNew(s.slots, DropContext(CountCall(s, key0, code).value, key0).slots, kind, key)
  {
    var s2 := CountCall(s, key0, code).value;
    CountCallIsLocal(s, key0, code);
    LocalElsewhere(s.slots, s2.slots, Counter, key0, kind, key);
    DropContextIsLocal(s2, key0);
    LocalElsewhere(s2.slots, DropContext(s2, key0).slots, Context, key0, kind, key);
    NoNewChains(s.slots, s2.slots, DropContext(s2, key0).slots, kind, key);
  }

  lemma StepNoNew(s: State, op: Op, kind: Kind, key: Key)
    requires Inv(s) && BuffersOk(s) && Enabled(s, op) && Step(s, op).Some?
    requires Listed(kind) && !AddsTo(op, kind, key)
    ensures NoNew(s.slots, Step(s, op).value.slots, kind, key)
  {
    var t, t' := s.slots, Step(s, op).value.slots;
    match op
    case OpReset(k) =>
    case OpCallOnce(k) => CallOnceIsLocal(s, k); LocalElsewhere(t, t', CallOnce, k, kind, key);
    case OpSetDeferred(k, count, retcode) =>
      if count > 0 {
        ClaimIsLocal(s, DeferredRc, k, Entry(DeferredRc, k, false, Rc(count, retcode)));
        LocalElsewhere(t, t', DeferredRc, k, kind, key);
      }
    case OpClearDeferred(k) =>
    case OpCheckDeferred(k) => CheckDeferredNoNew(s, k, kind, key);
    case OpSetDefault(k, value) => SetDefaultIsLocal(s, k, value); LocalElsewhere(t, t', ForceFail, k, kind, key);
    case OpClearDefault(k) =>
      if Find(s, ForceFail, k).Some? {
        ClearFoundIsLocal(s, ForceFail, k);
        LocalElsewhere(t, t', ForceFail, k, kind, key);
      }
    case OpCheckDefault(k) => CheckDefaultIsLocal(s, k); LocalElsewhere(t, t', ForceFail, k, kind, key);
    case OpSetBuffer(k, source, size, copy, block) =>
      if source.Some? && size > 0 {
        SetBufferIsLocal(s, k, source, size, copy, block);
        LocalElsewhere(t, t', DataBuffer, k, kind, key);
      }
    case OpCopyToLocal(k, max) => CopyToLocalNoNew(s, k, max, kind, key);
    case OpCopyFromLocal(k, bytes) => CopyFromLocalNoNew(s, k, bytes, kind, key);
    case OpSetHook(k, hook) => SetHookIsLocal(s, k, hook); LocalElsewhere(t, t', Hook, k, kind, key);
    case OpRegisterContext(k, arg) => RegisterContextIsLocal(s, k, arg); LocalElsewhere(t, t', Context, k, kind, key);
    case OpCall(k, defaultRc, hookResult) => CallNoNew(s, k, defaultRc, hookResult, kind, key);
    case OpCallerWrites(address, bytes) =>
  }

  lemma NoNewShrinks(t: Table, t': Table, kind: Kind, key: Key)
    requires NoNew(t, t', kind, key)
    ensures forall d | d in Live(t', kind, key) :: d in Live(t, kind, key)
  {
    forall d | d in Live(t', kind, key) ensures d in Live(t, kind, key) {
      ChainIsComplete(t, key, kind, key, 0, |t|, d);
    }
  }

  // ----- runs -----

  /** Whenever the run adds to (kind, key), every slot in use after the previous addition still is. */
  predicate Undisturbed(s: State, ops: seq<Op>, kind: Kind, key: Key, last: Table)
    requires Legal(s, ops)
    decreases |ops|
  {
    ops == [] ||
    var s' := Step(s, ops[0]).value;
    if AddsTo(ops[0], kind, key)
    then Grows(last, s.slots) && Undisturbed(s', ops[1..], kind, key, s'.slots)
    else Undisturbed(s', ops[1..], kind, key, last)
  }

  /** Every addition of the run to (kind, key) is met after everything added before it. */
  predicate AddsInOrder(s: State, ops: seq<Op>, kind: Kind, key: Key)
    requires Legal(s, ops)
    decreases |ops|
  {
    ops == [] ||
    var s' := Step(s, ops[0]).value;
    && (AddsTo(ops[0], kind, key) ==> View(s'.slots, kind, key) == View(s.slots, kind, key) + [Added(ops[0]).value])
    && AddsInOrder(s', ops[1..], kind, key)
  }

  lemma AdditionInOrder(s: State, op: Op, kind: Kind, key: Key, last: Table)
    requires Inv(s) && BuffersOk(s) && Enabled(s, op) && Step(s, op).Some? && AddsTo(op, kind, key)
    requires Packed(last, kind, key) && NoNew(last, s.slots, kind, key) && Grows(last, s.slots)
    ensures View(Step(s, op).value.slots, kind, key) == View(s.slots, kind, key) + [Added(op).value]
    ensures Packed(Step(s, op).value.slots, kind, key)
  {
    NoNewShrinks(last, s.slots, kind, key);
    PackedSurvives(last, s.slots, kind, key);
    var d := StepAdds(s, op);
    AddToPacked(s.slots, Added(op).value, d);
  }

  /** The documented order, for every run in which nothing live at one addition is gone at the next. */
  lemma {:induction false} UndisturbedRunsAddInOrder(s: State, ops: seq<Op>, kind: Kind, key: Key, last: Table)
    requires Valid(s) && Legal(s, ops) && Listed(kind) && Undisturbed(s, ops, kind, key, last)
    requires Packed(last, kind, key) && NoNew(last, s.slots, kind, key)
    ensures AddsInOrder(s, ops, kind, key)
    decreases |ops|
  {
    if ops != [] {
      var s' := Step(s, ops[0]).value;
      StepKeepsValid(s, ops[0]);
      if AddsTo(ops[0], kind, key) {
        AdditionInOrder(s, ops[0], kind, key, last);
        UndisturbedRunsAddInOrder(s', ops[1..], kind, key, s'.slots);
      } else {
        StepNoNew(s, ops[0], kind, key);
        NoNewChains(last, s.slots, s'.slots, kind, key);
        UndisturbedRunsAddInOrder(s', ops[1..], kind, key, last);
      }
    }
  }

  // ----- exactly when -----

  /** Every entry of the same kind and key that has an unused slot before it is equal to this one. */
  predicate Harmless(t: Table, e: Entry) {
    forall x, k | x in Live(t, e.kind, e.key) && 0 <= k < x && t[Slot(e.key, k)].kind == Unused ::
        t[Slot(e.key, x)] == e
  }

  /** The entries along a part of a probe sequence. */
  function Along(t: Table, key: Key, c: seq<nat>): (v: seq<Entry>)
    requires forall j | 0 <= j < |c| :: c[j] < SLOTS
    ensures |v| == |c| && forall j | 0 <= j < |c| :: v[j] == t[Slot(key, c[j])]
  {
    seq(|c|, j requires 0 <= j < |c| => t[Slot(key, c[j])])
  }

  lemma AlongAppend(t: Table, key: Key, a: seq<nat>, b: seq<nat>)
    requires (forall j | 0 <= j < |a| :: a[j] < SLOTS) && forall j | 0 <= j < |b| :: b[j] < SLOTS
    ensures Along(t, key, a + b) == Along(t, key, a) + Along(t, key, b)
  {
  }

  lemma AlongElsewhere(t: Table, key: Key, c: seq<nat>, d: nat, e: Entry)
    requires d < SLOTS && forall j | 0 <= j < |c| :: c[j] < SLOTS && c[j] != d
    ensures Along(t[Slot(key, d) := e], key, c) == Along(t, key, c)
  {
    forall j | 0 <= j < |c| ensures Slot(key, c[j]) != Slot(key, d) { SlotsDiffer(key, c[j], d); }
  }

  lemma ViewIsAlong(t: Table, kind: Kind, key: Key, a: seq<nat>, b: seq<nat>)
    requires Live(t, kind, key) == a + b
    requires (forall j | 0 <= j < |a| :: a[j] < SLOTS) && forall j | 0 <= j < |b| :: b[j] < SLOTS
    ensures View(t, kind, key) == Along(t, key, a) + Along(t, key, b)
  {
    AlongAppend(t, key, a, b);
    assert View(t, kind, key) == Along(t, key, a + b);
  }

  /** The view before an addition, around its slot. */
  lemma ViewBeforeAddition(t: Table, e: Entry, d: nat)
    requires e.kind != Unused && FreeAt(t, e.key, d)
    ensures View(t, e.kind, e.key) == Along(t, e.key, Chain(t, e.key, e.kind, e.key, 0, d))
                                      + Along(t, e.key, Chain(t, e.key, e.kind, e.key, d + 1, |t|))
  {
    LiveSkips(t, e.kind, e.key, d);
    ViewIsAlong(t, e.kind, e.key, Chain(t, e.key, e.kind, e.key, 0, d), Chain(t, e.key, e.kind, e.key, d + 1, |t|));
  }

  /** And after it. */
  lemma ViewAfterAddition(t: Table, e: Entry, d: nat, a: seq<nat>, b: seq<nat>)
    requires e.kind != Unused && FreeAt(t, e.key, d)
    requires a == Chain(t, e.key, e.kind, e.key, 0, d) && b == Chain(t, e.key, e.kind, e.key, d + 1, |t|)
    ensures View(t[Slot(e.key, d) := e], e.kind, e.key) == Along(t, e.key, a) + [e] + Along(t, e.key, b)
  {
    var t' := t[Slot(e.key, d) := e];
    LiveGains(t, e, d);
    ViewIsAlong(t', e.kind, e.key, a + [d], b);
    AlongAppend(t', e.key, a, [d]);
    assert Along(t', e.key, [d]) == [e];
    AlongElsewhere(t, e.key, a, d, e);
    AlongElsewhere(t, e.key, b, d, e);
  }

  lemma {:induction false} AllTheSame<T>(q: seq<T>, e: T, j: nat)
    requires [e] + q == q + [e] && j < |q|
    ensures q[j] == e
  {
    assert ([e] + q)[j] == (q + [e])[j];
    if j > 0 { AllTheSame(q, e, j - 1); }
  }

  /** Moving past some elements changes nothing exactly when they are all the same as the moved one. */
  lemma MovedPast<T>(a: seq<T>, e: T, q: seq<T>)
    ensures a + [e] + q == a + q + [e] <==> forall j | 0 <= j < |q| :: q[j] == e
  {
    if a + [e] + q == a + q + [e] {
      assert [e] + q == (a + [e] + q)[|a|..] == (a + q + [e])[|a|..] == q + [e];
      forall j | 0 <= j < |q| ensures q[j] == e { AllTheSame(q, e, j); }
    }
  }

  lemma HarmlessIsLaterSame(t: Table, e: Entry, d: nat, j: nat)
    requires e.kind != Unused && FreeAt(t, e.key, d) && Harmless(t, e)
    requires j < |Chain(t, e.key, e.kind, e.key, d + 1, |t|)|
    ensures t[Slot(e.key, Chain(t, e.key, e.kind, e.key, d + 1, |t|)[j])] == e
  {
    var x := Chain(t, e.key, e.kind, e.key, d + 1, |t|)[j];
    LiveSkips(t, e.kind, e.key, d);
    assert x in Live(t, e.kind, e.key) && d < x;
  }

  lemma LaterSameIsHarmless(t: Table, e: Entry, d: nat, x: nat, k: nat)
    requires e.kind != Unused && FreeAt(t, e.key, d)
    requires forall y | y in Chain(t, e.key, e.kind, e.key, d + 1, |t|) :: y < SLOTS && t[Slot(e.key, y)] == e
    requires x in Live(t, e.kind, e.key) && k < x && t[Slot(e.key, k)].kind == Unused
    ensures t[Slot(e.key, x)] == e
  {
    LiveSkips(t, e.kind, e.key, d);
    assert d <= k;
  }

  lemma HarmlessIffLaterSame(t: Table, e: Entry, d: nat)
    requires e.kind != Unused && FreeAt(t, e.key, d)
    ensures var later := Along(t, e.key, Chain(t, e.key, e.kind, e.key, d + 1, |t|));
            Harmless(t, e) <==> forall j | 0 <= j < |later| :: later[j] == e
  {
    var b := Chain(t, e.key, e.kind, e.key, d + 1, |t|);
    if Harmless(t, e) {
      forall j | 0 <= j < |b| ensures Along(t, e.key, b)[j] == e { HarmlessIsLaterSame(t, e, d, j); }
    }
    if forall j | 0 <= j < |b| :: Along(t, e.key, b)[j] == e {
      forall y | y in b ensures y < SLOTS && t[Slot(e.key, y)] == e {
        var j :| 0 <= j < |b| && b[j] == y;
        assert Along(t, e.key, b)[j] == e;
      }
      forall x, k | x in Live(t, e.kind, e.key) && 0 <= k < x && t[Slot(e.key, k)].kind == Unused
        ensures t[Slot(e.key, x)] == e
      {
        LaterSameIsHarmless(t, e, d, x, k);
      }
    }
  }

  /** An addition is met after all that is there exactly when whatever lies behind an unused slot equals it. */
  lemma AddsLastIffHarmless(t: Table, e: Entry, d: nat)
    requires e.kind != Unused && FreeAt(t, e.key, d)
    ensures View(t[Slot(e.key, d) := e], e.kind, e.key) == View(t, e.kind, e.key) + [e] <==> Harmless(t, e)
  {
    var a, b := Chain(t, e.key, e.kind, e.key, 0, d), Chain(t, e.key, e.kind, e.key, d + 1, |t|);
    ViewBeforeAddition(t, e, d);
    ViewAfterAddition(t, e, d, a, b);
    MovedPast(Along(t, e.key, a), e, Along(t, e.key, b));
    HarmlessIffLaterSame(t, e, d);
  }

  predicate AllHarmless(s: State, ops: seq<Op>, kind: Kind, key: Key)
    requires Legal(s, ops)
    decreases |ops|
  {
    ops == [] ||
    ((AddsTo(ops[0], kind, key) ==> Harmless(s.slots, Added(ops[0]).value))
     && AllHarmless(Step(s, ops[0]).value, ops[1..], kind, key))
  }

  /** The documented order, of codes and of buffers: every addition of a run is met after all that is there if
      and only if each finds nothing else behind an unused slot. */
  lemma {:induction false} AddsInOrderIff(s: State, ops: seq<Op>, kind: Kind, key: Key)
    requires Valid(s) && Legal(s, ops)
    ensures AddsInOrder(s, ops, kind, key) <==> AllHarmless(s, ops, kind, key)
    decreases |ops|
  {
    if ops != [] {
      StepKeepsValid(s, ops[0]);
      if AddsTo(ops[0], kind, key) {
        var d := StepAdds(s, ops[0]);
        AddsLastIffHarmless(s.slots, Added(ops[0]).value, d);
      }
      AddsInOrderIff(Step(s, ops[0]).value, ops[1..], kind, key);
    }
  }

  // ----- deferred codes, from their setting to their return -----

  function CodeSet(op: Op, key: Key): seq<(nat, int)> {
    if AddsTo(op, DeferredRc, key) then [(op.count as nat, op.retcode)] else []
  }

  /** The codes that a run sets for a key. */
  function CodesSet(ops: seq<Op>, key: Key): seq<(nat, int)> {
    if ops == [] then [] else CodeSet(ops[0], key) + CodesSet(ops[1..], key)
  }

  /** Operations that leave the codes of a key alone, or add to them. */
  predicate SetsUp(op: Op, key: Key) {
    AddsTo(op, DeferredRc, key) || !Concerns(op, DeferredRc, key)
  }

  lemma CodesOfAppend(v: seq<Entry>, e: Entry)
    ensures CodesOf(v + [e]) == CodesOf(v) + [(RcCount(e.data), RcValue(e.data))]
  {
  }

  lemma SetupStep(s: State, op: Op, key: Key)
    requires Inv(s) && BuffersOk(s) && Enabled(s, op) && Step(s, op).Some? && SetsUp(op, key)
    requires AddsTo(op, DeferredRc, key) ==>
               View(Step(s, op).value.slots, DeferredRc, key) == View(s.slots, DeferredRc, key) + [Added(op).value]
    ensures Codes(Step(s, op).value, key) == Codes(s, key) + CodeSet(op, key)
  {
    if AddsTo(op, DeferredRc, key) {
      CodesOfAppend(View(s.slots, DeferredRc, key), Added(op).value);
    } else {
      StepFrame(s, op, DeferredRc, key);
    }
  }

  lemma AppendAssoc(a: seq<(nat, int)>, b: seq<(nat, int)>, c: seq<(nat, int)>)
    ensures (a + b) + c == a + (b + c)
    ensures a + [] == a
  {
  }

  lemma {:induction false} CodesSetInOrder(s: State, ops: seq<Op>, key: Key)
    requires Valid(s) && Legal(s, ops) && AddsInOrder(s, ops, DeferredRc, key)
    requires forall op | op in ops :: SetsUp(op, key)
    ensures Codes(Run(s, ops), key) == Codes(s, key) + CodesSet(ops, key)
    decreases |ops|
  {
    if ops == [] {
      AppendAssoc(Codes(s, key), [], []);
    } else {
      var s' := Step(s, ops[0]).value;
      assert SetsUp(ops[0], key);
      SetupStep(s, ops[0], key);
      StepKeepsValid(s, ops[0]);
      CodesSetInOrder(s', ops[1..], key);
      AppendAssoc(Codes(s, key), CodeSet(ops[0], key), CodesSet(ops[1..], key));
    }
  }

  lemma SetupYieldsCodes(s: State, setup: seq<Op>, key: Key)
    requires Valid(s) && Legal(s, setup) && Codes(s, key) == []
    requires AllHarmless(s, setup, DeferredRc, key) && forall op | op in setup :: SetsUp(op, key)
    ensures Codes(Run(s, setup), key) == CodesSet(setup, key)
  {
    AddsInOrderIff(s, setup, DeferredRc, key);
    CodesSetInOrder(s, setup, key);
  }

  /** Codes set for an idle key, none of them before an earlier one, come due at the running sums of
      their counts, in the order they were set, over any later run of calls. */
  lemma CountdownInOrder(s: State, setup: seq<Op>, calls: seq<Op>, key: Key)
    requires Valid(s) && Legal(s, setup) && Codes(s, key) == []
    requires AllHarmless(s, setup, DeferredRc, key) && forall op | op in setup :: SetsUp(op, key)
    requires Legal(Run(s, setup), calls) && forall op | op in calls :: !Alters(op, key)
    ensures CallCodes(Run(s, setup), calls, key)
            == Scheduled(CodesSet(setup, key), Sticky(Run(s, setup), key), calls, key, 1)
  {
    SetupYieldsCodes(s, setup, key);
    RunKeepsValid(s, setup);
    RunFollowsSchedule(Run(s, setup), calls, key);
  }

  // ----- where the documented order fails -----

  lemma FreeAtIsFirstFree(t: Table, high: nat, key: Key, d: nat)
    requires TableInv(t, high) && FreeAt(t, key, d)
    ensures FirstFree(t, key) == Some(d)
  {
    assert SlotOk(t, high, Slot(key, d));
    ChainHeadIsFirst(t, key, Unused, 0, 0, |t|, d);
    FirstFreeIsFirst(t, high, key);
  }

  function HookEntry(): Entry {
    Entry(Hook, 200, false, Cb(0))
  }

  function CodeEntry(code: int): Entry {
    Entry(DeferredRc, 1, false, Rc(1, code))
  }

  lemma OvertakeClaim(s: State, key: Key, d: nat)
    requires Inv(s) && FreeAt(s.slots, key, d)
    ensures Claim(s, key) == Some((s.(high := Max(s.high, d + 1)), Slot(key, d)))
  {
    FreeAtIsFirstFree(s.slots, s.high, key, d);
  }

  lemma NoHookYet(s: State)
    requires Inv(s) && s.slots == Fresh()
    ensures Find(s, Hook, 200) == None
  {
    BoundedSearchIsComplete(s, Hook, 200);
  }

  lemma OvertakeHook(s: State)
    requires Inv(s) && s.slots == Fresh()
    ensures SetHook(s, 200, Some(0)).Done? && SetHook(s, 200, Some(0)).state.slots == Fresh()[1 := HookEntry()]
  {
    assert Slot(200, 0) == 1;
    OvertakeClaim(s, 200, 0);
    NoHookYet(s);
  }

  lemma OvertakeFirst(s: State, first: int)
    requires Inv(s) && s.slots == Fresh()[1 := HookEntry()]
    ensures SetDeferred(s, 1, 1, first).Done?
    ensures SetDeferred(s, 1, 1, first).state.slots == Fresh()[1 := HookEntry()][2 := CodeEntry(first)]
  {
    assert Slot(1, 0) == 1 && Slot(1, 1) == 2;
    OvertakeClaim(s, 1, 1);
  }

  lemma OvertakeUnhook(s: State, first: int)
    requires Inv(s) && s.slots == Fresh()[1 := HookEntry()][2 := CodeEntry(first)]
    ensures SetHook(s, 200, None).Done? && SetHook(s, 200, None).state.slots == Fresh()[2 := CodeEntry(first)]
  {
    BoundedSearchIsComplete(s, Hook, 200);
    assert Holds(s.slots[1], Hook, 200);
    FindHolds(s, Hook, 200);
  }

  lemma OvertakeSecond(s: State, first: int, second: int)
    requires Inv(s) && s.slots == Fresh()[2 := CodeEntry(first)]
    ensures SetDeferred(s, 1, 1, second).Done?
    ensures SetDeferred(s, 1, 1, second).state.slots == Fresh()[2 := CodeEntry(first)][1 := CodeEntry(second)]
  {
    assert Slot(1, 0) == 1;
    OvertakeClaim(s, 1, 0);
  }

  lemma LiveOfOne(t: Table, e: Entry, d: nat)
    requires d < SLOTS && e.kind != Unused && !Present(t, e.kind, e.key)
    ensures Live(t[Slot(e.key, d) := e], e.kind, e.key) == [d]
  {
    LiveIffPresent(t, e.kind, e.key);
    LiveSkips(t, e.kind, e.key, d);
    LiveGains(t, e, d);
  }

  lemma LiveOfTwo(t: Table, e: Entry, d: nat, later: nat)
    requires d < later < SLOTS && Live(t, e.kind, e.key) == [later] && !Holds(t[Slot(e.key, d)], e.kind, e.key)
    ensures Live(t[Slot(e.key, d) := e], e.kind, e.key) == [d, later]
  {
    LiveSkips(t, e.kind, e.key, d);
    LiveGains(t, e, d);
    SplitOfOne(Chain(t, e.key, e.kind, e.key, 0, d), Chain(t, e.key, e.kind, e.key, d + 1, |t|), d, later);
  }

  lemma SplitOfOne(a: seq<nat>, b: seq<nat>, d: nat, later: nat)
    requires a + b == [later] && d < later && forall j | 0 <= j < |a| :: a[j] < d
    ensures a == [] && b == [later]
  {
    assert (a + b)[0] == later;
  }

  lemma OvertakenOrder(first: int, second: int)
    ensures CodesOf(View(Fresh()[2 := CodeEntry(first)][1 := CodeEntry(second)], DeferredRc, 1)) ==
            [(1, second), (1, first)]
  {
    assert Slot(1, 0) == 1 && Slot(1, 1) == 2;
    LiveOfOne(Fresh(), CodeEntry(first), 1);
    LiveOfTwo(Fresh()[2 := CodeEntry(first)], CodeEntry(second), 0, 1);
  }

  lemma RunCons(s: State, op: Op, rest: seq<Op>)
    requires BuffersOk(s) && Enabled(s, op) && Step(s, op).Some? && Legal(Step(s, op).value, rest)
    ensures Legal(s, [op] + rest) && Run(s, [op] + rest) == Run(Step(s, op).value, rest)
  {
    assert ([op] + rest)[1..] == rest;
  }

  /** A later addition overtakes an earlier one: a slot is freed in front of the first code, and the
      second code takes it. Keys 1 and 200 share a start. */
  lemma LaterCodeOvertakes(s: State, first: int, second: int)
    requires Valid(s) && s.slots == Fresh()
    ensures var ops := [OpSetHook(200, Some(0))] + ([OpSetDeferred(1, 1, first)]
                       + ([OpSetHook(200, None)] + ([OpSetDeferred(1, 1, second)] + [])));
            Legal(s, ops) && Codes(Run(s, ops), 1) == [(1, second), (1, first)]
  {
    var o1, o2 := OpSetHook(200, Some(0)), OpSetDeferred(1, 1, first);
    var o3, o4 := OpSetHook(200, None), OpSetDeferred(1, 1, second);
    MemInvBuffers(s);
    OvertakeHook(s);
    var s1 := OvertakeNext(s, o1);
    OvertakeFirst(s1, first);
    var s2 := OvertakeNext(s1, o2);
    OvertakeUnhook(s2, first);
    var s3 := OvertakeNext(s2, o3);
    OvertakeSecond(s3, first, second);
    var s4 := OvertakeNext(s3, o4);
    OvertakenOrder(first, second);
    RunCons(s3, o4, []);
    RunCons(s2, o3, [o4] + []);
    RunCons(s1, o2, [o3] + ([o4] + []));
    RunCons(s, o1, [o2] + ([o3] + ([o4] + [])));
  }

  lemma OvertakeNext(s: State, op: Op) returns (s': State)
    requires Valid(s) && BuffersOk(s) && Enabled(s, op) && Step(s, op).Some?
    ensures s' == Step(s, op).value && Valid(s') && BuffersOk(s')
  {
    s' := Step(s, op).value;
    StepKeepsValid(s, op);
    MemInvBuffers(s');
  }
}

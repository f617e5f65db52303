/**
When a put finds the chain of its queue without a hole, told from the table before the call. Entering
OS_QueuePut registers a context, uses up a deferred code that is due, counts the call, in a new entry
the first time, and drops every context; whatever is unused after that is a hole.
*/
module QueueHoles {
  import opened Options
  import opened StubTable
  import opened StubInvariant
  import opened StubMemory
  import opened StubOrder
  import opened StubEffects
  import opened StubAdditions
  import opened StubCalls
  import opened StubCodes
  import opened StubBuffers
  import opened QueueStubs
  import opened QueueRuns
  import opened QueueOrder

  // ----- the table before the call -----

  /** The stub has no entry of this kind, and the slot is where a new one goes. */
  predicate Lands(t: Table, kind: Kind, key: Key, i: nat) {
    !Present(t, kind, key) && exists d | 0 <= d < SLOTS :: FreeAt(t, key, d) && i == Slot(key, d)
  }

  /** The slot has the first deferred code of the stub, and the next call uses it up. */
  predicate Due(t: Table, key: Key, i: nat)
    requires i < SLOTS
  {
    var c := Live(t, DeferredRc, key);
    c != [] && i == Slot(key, c[0]) && RcCount(t[i].data) <= 1
  }

  /** The slot is unused when the call is counted. */
  predicate Open(t: Table, key: Key, i: nat)
    requires i < SLOTS
  {
    Due(t, key, i) || (t[i].kind == Unused && !Lands(t, Context, key, i))
  }

  predicate OpenAt(t: Table, key: Key, d: nat) {
    d < SLOTS && Open(t, key, Slot(key, d)) && forall k | 0 <= k < d :: !Open(t, key, Slot(key, k))
  }

  /** The stub is called for the first time, and this is where its counter goes. */
  predicate CounterLands(t: Table, key: Key, i: nat) {
    !Present(t, Counter, key) && exists d | 0 <= d < SLOTS :: OpenAt(t, key, d) && i == Slot(key, d)
  }

  /** The slot is used after the stub was entered. */
  predicate StaysUsed(t: Table, key: Key, i: nat)
    requires i < SLOTS
  {
    || (t[i].kind != Unused && !Holds(t[i], Context, key) && !Due(t, key, i))
    || CounterLands(t, key, i)
  }

  // ----- the steps of the call, slot by slot -----

  predicate Same(e: Entry, f: Entry) {
    e.kind == f.kind && e.key == f.key
  }

  /** Deferred codes are as they were, and other entries have their kind and key. */
  predicate Alone(e: Entry, f: Entry) {
    Same(e, f) && (e.kind == DeferredRc ==> e == f)
  }

  /** An entry of this kind is in the table, where it was or where a new one goes. */
  predicate Placed(t: Table, t': Table, kind: Kind, key: Key) {
    forall i | 0 <= i < SLOTS :: if Lands(t, kind, key, i) then Holds(t'[i], kind, key) else Alone(t[i], t'[i])
  }

  predicate Rewritten(t: Table, t': Table) {
    forall i | 0 <= i < SLOTS :: Alone(t[i], t'[i])
  }

  predicate Spent(t: Table, t': Table, key: Key) {
    forall i | 0 <= i < SLOTS :: if Due(t, key, i) then t'[i].kind == Unused else Same(t[i], t'[i])
  }

  predicate Dropped(t: Table, t': Table, key: Key) {
    forall i | 0 <= i < SLOTS :: if Holds(t[i], Context, key) then t'[i].kind == Unused else Same(t[i], t'[i])
  }

  /** A new entry goes to the first unused slot of its probe sequence, and to no other. */
  lemma LandsIsFirst(t: Table, high: nat, kind: Kind, key: Key, i: nat)
    requires TableInv(t, high) && !Present(t, kind, key) && FirstFree(t, key).Some?
    ensures Lands(t, kind, key, i) <==> i == Slot(key, FirstFree(t, key).value)
  {
    var f := FirstFree(t, key).value;
    FirstFreeIsFirst(t, high, key);
    if i == Slot(key, f) {
      assert FreeAt(t, key, f);
    } else if Lands(t, kind, key, i) {
      var d :| 0 <= d < SLOTS && FreeAt(t, key, d) && i == Slot(key, d);
      FreeAtIsFirstFree(t, high, key, d);
    }
  }

  lemma PlacedNew(t: Table, high: nat, kind: Kind, key: Key, e: Entry)
    requires TableInv(t, high) && !Present(t, kind, key) && FirstFree(t, key).Some? && Holds(e, kind, key)
    ensures Placed(t, t[Slot(key, FirstFree(t, key).value) := e], kind, key)
  {
    var f := Slot(key, FirstFree(t, key).value);
    forall i | 0 <= i < SLOTS ensures Lands(t, kind, key, i) <==> i == f { LandsIsFirst(t, high, kind, key, i); }
  }

  lemma PlacedAgain(t: Table, i: nat, kind: Kind, key: Key, e: Entry)
    requires i < SLOTS && Holds(t[i], kind, key) && Holds(e, kind, key) && kind != DeferredRc
    ensures Placed(t, t[i := e], kind, key)
  {
    assert Present(t, kind, key);
  }

  lemma SetSlots(s: State, kind: Kind, key: Key, e: Entry)
    requires Inv(s) && Searched(kind) && kind != DeferredRc && FindOrClaim(s, kind, key).Some? && Holds(e, kind, key)
    ensures var (s1, i) := FindOrClaim(s, kind, key).value;
            i < SLOTS && Placed(s.slots, s1.slots[i := e], kind, key) && Present(s1.slots[i := e], kind, key)
  {
    var (s1, i) := FindOrClaim(s, kind, key).value;
    BoundedSearchIsComplete(s, kind, key);
    if Find(s, kind, key).Some? {
      FindHolds(s, kind, key);
      PlacedAgain(s.slots, i, kind, key, e);
    } else {
      PlacedNew(s.slots, s.high, kind, key, e);
    }
    assert Holds(s1.slots[i := e][i], kind, key);
  }

  lemma RegisterSlots(s: State, key: Key, arg: nat)
    requires Inv(s) && RegisterContext(s, key, arg).Done?
    ensures var t' := RegisterContext(s, key, arg).state.slots;
            Placed(s.slots, t', Context, key) && Present(t', Context, key)
  {
    var (s1, i) := FindOrClaim(s, Context, key).value;
    FoundEntry(s, Context, key);
    SetSlots(s, Context, key, RegisterContext(s, key, arg).state.slots[i]);
  }

  lemma NoneLands(t: Table, t': Table, key: Key)
    requires Placed(t, t', Context, key) && Present(t, Context, key)
    ensures Rewritten(t, t')
  {
  }

  lemma PlacedChains(t: Table, t': Table, t'': Table, key: Key)
    requires Placed(t, t', Context, key) && Rewritten(t', t'')
    ensures Placed(t, t'', Context, key)
  {
  }

  lemma {:induction false} ArgumentSlots(s: State, key: Key, n: nat)
    requires Valid(s) && n > 0 && Legal(s, Arguments(key, n))
    ensures Placed(s.slots, Run(s, Arguments(key, n)).slots, Context, key)
    ensures Present(Run(s, Arguments(key, n)).slots, Context, key)
    decreases n
  {
    var op, rest := OpRegisterContext(key, n), Arguments(key, n - 1);
    assert ([op] + rest)[0] == op && ([op] + rest)[1..] == rest;
    var s' := Step(s, op).value;
    RegisterSlots(s, key, n);
    if n > 1 {
      StepKeepsValid(s, op);
      ArgumentSlots(s', key, n - 1);
      NoneLands(s'.slots, Run(s', rest).slots, key);
      PlacedChains(s.slots, s'.slots, Run(s', rest).slots, key);
    }
  }

  lemma DeferredSlots(s: State, key: Key)
    requires Inv(s)
    ensures Spent(s.slots, CheckDeferred(s, key).0.slots, key)
  {
    BoundedSearchIsComplete(s, DeferredRc, key);
    if Find(s, DeferredRc, key).Some? { FindHolds(s, DeferredRc, key); }
  }

  lemma DefaultSlots(s: State, key: Key, i: nat)
    requires i < SLOTS
    ensures Same(s.slots[i], CheckDefault(s, key).0.slots[i])
  {
    if Find(s, ForceFail, key).Some? { FindHolds(s, ForceFail, key); }
  }

  lemma ChooseSlots(s: State, key: Key)
    requires Inv(s)
    ensures Spent(s.slots, ChooseCode(s, key, OS_SUCCESS).0.slots, key)
  {
    var s1 := CheckDeferred(s, key).0;
    DeferredSlots(s, key);
    forall i | 0 <= i < SLOTS ensures Same(s1.slots[i], CheckDefault(s1, key).0.slots[i]) { DefaultSlots(s1, key, i); }
  }

  lemma CountSlots(s: State, key: Key, code: int)
    requires Inv(s) && CountCall(s, key, code).Some?
    ensures Placed(s.slots, CountCall(s, key, code).value.slots, Counter, key)
  {
    var (s1, i) := FindOrClaim(s, Counter, key).value;
    FoundEntry(s, Counter, key);
    SetSlots(s, Counter, key, CountCall(s, key, code).value.slots[i]);
  }

  lemma DropSlots(s: State, key: Key)
    requires Inv(s)
    ensures Dropped(s.slots, DropContext(s, key).slots, key)
  {
    var t := s.slots;
    BoundedSearchIsComplete(s, Context, key);
    if Find(s, Context, key).Some? {
      var f := Find(s, Context, key).value;
      FindHolds(s, Context, key);
      forall i | 0 <= i < SLOTS && Holds(t[i], Context, key) ensures i == f {
        assert i < f ==> !Alike(t[i], t[f]);
        assert f < i ==> !Alike(t[f], t[i]);
      }
    }
  }

  // ----- together -----

  lemma LandsUnused(t: Table, kind: Kind, key: Key, i: nat)
    requires i < SLOTS && Lands(t, kind, key, i)
    ensures t[i].kind == Unused
  {
  }

  lemma CodeStays(t: Table, t': Table, key: Key, i: nat)
    requires Placed(t, t', Context, key) && i < SLOTS
    ensures Holds(t[i], DeferredRc, key) <==> Holds(t'[i], DeferredRc, key)
    ensures Holds(t[i], DeferredRc, key) ==> t[i] == t'[i]
  {
    if Lands(t, Context, key, i) { LandsUnused(t, Context, key, i); }
  }

  /** The arguments change nothing about which code is due. */
  lemma DueAfterArguments(t: Table, t': Table, key: Key, i: nat)
    requires Placed(t, t', Context, key) && i < SLOTS
    ensures Due(t', key, i) <==> Due(t, key, i)
  {
    forall d | 0 <= d < SLOTS
      ensures Holds(t[Slot(key, d)], DeferredRc, key) <==> Holds(t'[Slot(key, d)], DeferredRc, key)
    {
      CodeStays(t, t', key, Slot(key, d));
    }
    ChainFrame(t, t', key, DeferredRc, key, 0, |t|);
    CodeStays(t, t', key, i);
  }

  /** Registered and with the code used up: t to t2. */
  predicate Ready(t: Table, t2: Table, key: Key) {
    forall i | 0 <= i < SLOTS ::
      if Due(t, key, i) then t2[i].kind == Unused
      else if Lands(t, Context, key, i) then Holds(t2[i], Context, key)
      else Same(t[i], t2[i])
  }

  lemma ReadyAfter(t: Table, t1: Table, t2: Table, key: Key)
    requires Placed(t, t1, Context, key) && Spent(t1, t2, key)
    ensures Ready(t, t2, key)
  {
    forall i | 0 <= i < SLOTS ensures Due(t1, key, i) <==> Due(t, key, i) { DueAfterArguments(t, t1, key, i); }
  }

  lemma UnusedWhenCounted(t: Table, t2: Table, key: Key, i: nat)
    requires Ready(t, t2, key) && i < SLOTS
    ensures t2[i].kind == Unused <==> Open(t, key, i)
    ensures Holds(t2[i], Counter, key) <==> Holds(t[i], Counter, key)
  {
    if Lands(t, Context, key, i) { LandsUnused(t, Context, key, i); }
  }

  lemma OpenAtIsFree(t: Table, t2: Table, key: Key, d: nat)
    requires Ready(t, t2, key) && d < SLOTS
    ensures FreeAt(t2, key, d) <==> OpenAt(t, key, d)
  {
    forall k | 0 <= k <= d ensures t2[Slot(key, k)].kind == Unused <==> Open(t, key, Slot(key, k)) {
      UnusedWhenCounted(t, t2, key, Slot(key, k));
    }
  }

  lemma CounterLandsThere(t: Table, t2: Table, key: Key, i: nat)
    requires Ready(t, t2, key)
    ensures Lands(t2, Counter, key, i) <==> CounterLands(t, key, i)
  {
    forall j | 0 <= j < SLOTS ensures Holds(t2[j], Counter, key) <==> Holds(t[j], Counter, key) {
      UnusedWhenCounted(t, t2, key, j);
    }
    forall d | 0 <= d < SLOTS ensures FreeAt(t2, key, d) <==> OpenAt(t, key, d) { OpenAtIsFree(t, t2, key, d); }
  }

  lemma UsedAfterCall(t: Table, t2: Table, t3: Table, t4: Table, key: Key, i: nat)
    requires Ready(t, t2, key) && Placed(t2, t3, Counter, key) && Dropped(t3, t4, key) && i < SLOTS
    ensures t4[i].kind != Unused <==> StaysUsed(t, key, i)
  {
    CounterLandsThere(t, t2, key, i);
    UnusedWhenCounted(t, t2, key, i);
    if Lands(t, Context, key, i) { LandsUnused(t, Context, key, i); }
    if Lands(t2, Counter, key, i) {
      assert Holds(t3[i], Counter, key);
    } else {
      assert Same(t2[i], t3[i]);
    }
  }

  lemma MessageAfterCall(t: Table, t2: Table, t3: Table, t4: Table, key: Key, i: nat, id: Key)
    requires Ready(t, t2, key) && Placed(t2, t3, Counter, key) && Dropped(t3, t4, key) && i < SLOTS
    ensures Holds(t4[i], DataBuffer, id) <==> Holds(t[i], DataBuffer, id)
  {
    if Lands(t, Context, key, i) { LandsUnused(t, Context, key, i); }
    if Lands(t2, Counter, key, i) {
      LandsUnused(t2, Counter, key, i);
      UnusedWhenCounted(t, t2, key, i);
    } else {
      assert Same(t2[i], t3[i]);
    }
  }

  /** A slot is used after a stub was entered exactly as the table before tells, and has a message exactly
      when it had one. */
  lemma UsedAfterEnter(s: State, key: Key, args: nat, hookResult: int, i: nat, id: Key)
    requires Valid(s) && args > 0 && Enter(s, key, args, hookResult).Done? && i < SLOTS
    ensures var e := Enter(s, key, args, hookResult).state.slots[i];
            && (e.kind != Unused <==> StaysUsed(s.slots, key, i))
            && (Holds(e, DataBuffer, id) <==> Holds(s.slots[i], DataBuffer, id))
  {
    var s1 := Run(s, Arguments(key, args));
    var (s2, code) := ChooseCode(s1, key, OS_SUCCESS);
    var s3 := CountCall(s2, key, code).value;
    ArgumentSlots(s, key, args);
    RunKeepsValid(s, Arguments(key, args));
    ChooseSlots(s1, key);
    ChooseCodeKeeps(s1, key, OS_SUCCESS);
    CountSlots(s2, key, code);
    CountCallKeeps(s2, key, code);
    DropSlots(s3, key);
    ReadyAfter(s.slots, s1.slots, s2.slots, key);
    UsedAfterCall(s.slots, s2.slots, s3.slots, DropContext(s3, key).slots, key, i);
    MessageAfterCall(s.slots, s2.slots, s3.slots, DropContext(s3, key).slots, key, i, id);
  }

  // ----- puts -----

  /** Every slot before a message of the queue is used after OS_QueuePut was entered. */
  predicate StaysPacked(t: Table, key: Key, id: Key) {
    forall d, k | d in Live(t, DataBuffer, id) && 0 <= k < d :: StaysUsed(t, key, Slot(id, k))
  }

  lemma EnterLeavesMessages(s: State, key: Key, args: nat, hookResult: int, id: Key)
    requires Valid(s) && args > 0 && Enter(s, key, args, hookResult).Done?
    ensures Live(Enter(s, key, args, hookResult).state.slots, DataBuffer, id) == Live(s.slots, DataBuffer, id)
  {
    var t, t' := s.slots, Enter(s, key, args, hookResult).state.slots;
    forall d | 0 <= d < SLOTS
      ensures Holds(t[Slot(id, d)], DataBuffer, id) <==> Holds(t'[Slot(id, d)], DataBuffer, id)
    {
      UsedAfterEnter(s, key, args, hookResult, Slot(id, d), id);
    }
    ChainFrame(t, t', id, DataBuffer, id, 0, |t|);
  }

  /** A put that stores goes to the end of its queue if and only if, in the table before the call, every slot
      before a message of the queue is used, has no context of OS_QueuePut and no code of it that is due, or
      gets its counter. */
  lemma PutIsLastIff(s: State, keys: Keys, op: QOp, id: Key)
    requires Valid(s) && QEnabled(s, op) && PutBy(s, keys, op, id) != []
    ensures PutIsLast(s, keys, op, id) <==> StaysPacked(s.slots, keys.put, id)
  {
    var t' := Enter(s, keys.put, PUT_ARGS, op.hookResult).state.slots;
    EnterLeavesMessages(s, keys.put, PUT_ARGS, op.hookResult, id);
    forall i | 0 <= i < SLOTS ensures t'[i].kind != Unused <==> StaysUsed(s.slots, keys.put, i) {
      UsedAfterEnter(s, keys.put, PUT_ARGS, op.hookResult, i, id);
    }
  }

  /** When OS_QueuePut was called before and is idle: if and only if the queue has no hole. */
  lemma IdlePutIsLastIff(s: State, keys: Keys, op: QOp, id: Key)
    requires Valid(s) && QEnabled(s, op) && PutBy(s, keys, op, id) != []
    requires Idle(s, keys.put) && Present(s.slots, Counter, keys.put)
    ensures PutIsLast(s, keys, op, id) <==> Packed(s.slots, DataBuffer, id)
  {
    PutIsLastIff(s, keys, op, id);
    LiveIffPresent(s.slots, DeferredRc, keys.put);
    NoCodes(s, keys.put);
    BoundedSearchIsComplete(s, DeferredRc, keys.put);
  }
}

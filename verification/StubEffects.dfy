/**
What each operation does to the views: nothing to the entries of other kinds and keys, and
a stated change to its own.
*/
module StubEffects {
  import opened Options
  import opened StubTable
  import opened StubInvariant
  import opened StubMemory
  import opened StubOrder

  // ----- an operation touches one slot, of its own kind and key -----

  predicate TouchesSlot(t: Table, t': Table, kind: Kind, key: Key, i: nat) {
    && i < SLOTS
    && t' == t[i := t'[i]]
    && (t[i].kind == Unused || Holds(t[i], kind, key))
    && (t'[i] == Zero() || Holds(t'[i], kind, key))
  }

  ghost predicate Local(t: Table, t': Table, kind: Kind, key: Key) {
    t' == t || exists i: nat :: TouchesSlot(t, t', kind, key, i)
  }

  lemma LocalFrame(t: Table, t': Table, kind: Kind, key: Key, kind': Kind, key': Key)
    requires Local(t, t', kind, key) && kind' != Unused && (kind', key') != (kind, key)
    ensures View(t', kind', key') == View(t, kind', key') && Live(t', kind', key') == Live(t, kind', key')
  {
    if t' != t {
      var i: nat :| TouchesSlot(t, t', kind, key, i);
      ViewFrame(t, i, t'[i], kind', key');
    }
  }

  lemma StoreIsLocal(t: Table, i: nat, e: Entry, kind: Kind, key: Key)
    requires i < SLOTS && (t[i].kind == Unused || Holds(t[i], kind, key)) && (e == Zero() || Holds(e, kind, key))
    ensures Local(t, t[i := e], kind, key)
  {
    assert TouchesSlot(t, t[i := e], kind, key, i);
  }

  lemma ClearFoundIsLocal(s: State, kind: Kind, key: Key)
    requires Find(s, kind, key).Some?
    ensures Local(s.slots, Clear(s, Find(s, kind, key).value).slots, kind, key)
  {
    FindHolds(s, kind, key);
    StoreIsLocal(s.slots, Find(s, kind, key).value, Zero(), kind, key);
  }

  lemma CheckDeferredIsLocal(s: State, key: Key)
    ensures Local(s.slots, CheckDeferred(s, key).0.slots, DeferredRc, key)
  {
    if Find(s, DeferredRc, key).Some? {
      var i := Find(s, DeferredRc, key).value;
      FindHolds(s, DeferredRc, key);
      if RcCount(s.slots[i].data) <= 1 {
        ClearFoundIsLocal(s, DeferredRc, key);
      } else {
        StoreIsLocal(s.slots, i, CountedDown(s.slots[i]), DeferredRc, key);
      }
    }
  }

  lemma CheckDefaultIsLocal(s: State, key: Key)
    ensures Local(s.slots, CheckDefault(s, key).0.slots, ForceFail, key)
  {
    if Find(s, ForceFail, key).Some? {
      var i := Find(s, ForceFail, key).value;
      FindHolds(s, ForceFail, key);
      var e := s.slots[i];
      StoreIsLocal(s.slots, i, e.(data := Rc(Plus1(RcCount(e.data)), RcValue(e.data))), ForceFail, key);
    }
  }

  lemma FindOrClaimIsLocal(s: State, kind: Kind, key: Key, e: Entry)
    requires Inv(s) && Searched(kind) && FindOrClaim(s, kind, key).Some? && Holds(e, kind, key)
    ensures var (s1, i) := FindOrClaim(s, kind, key).value;
            i < SLOTS && s1.slots == s.slots && Local(s.slots, Store(s1, i, e).slots, kind, key)
  {
    FoundShape(s, kind, key);
    if Find(s, kind, key).None? { ClaimIsUnused(s, key); }
    var (s1, i) := FindOrClaim(s, kind, key).value;
    StoreIsLocal(s.slots, i, e, kind, key);
  }

  lemma ClaimIsLocal(s: State, kind: Kind, key: Key, e: Entry)
    requires Inv(s) && Claim(s, key).Some? && Holds(e, kind, key)
    ensures var (s1, i) := Claim(s, key).value;
            i < SLOTS && s1.slots == s.slots && Local(s.slots, Store(s1, i, e).slots, kind, key)
  {
    ClaimIsUnused(s, key);
    var (s1, i) := Claim(s, key).value;
    StoreIsLocal(s.slots, i, e, kind, key);
  }

  lemma CountCallIsLocal(s: State, key: Key, code: int)
    requires Inv(s) && CountCall(s, key, code).Some?
    ensures Local(s.slots, CountCall(s, key, code).value.slots, Counter, key)
  {
    var (s1, i) := FindOrClaim(s, Counter, key).value;
    var e := s1.slots[i];
    FindOrClaimIsLocal(s, Counter, key, Entry(Counter, key, e.allocFlag, Rc(Plus1(RcCount(e.data)), code)));
  }

  lemma DropContextIsLocal(s: State, key: Key)
    ensures Local(s.slots, DropContext(s, key).slots, Context, key)
  {
    if Find(s, Context, key).Some? { ClearFoundIsLocal(s, Context, key); }
  }

  lemma SetDefaultIsLocal(s: State, key: Key, value: int)
    requires Inv(s) && SetDefault(s, key, value).Done?
    ensures Local(s.slots, SetDefault(s, key, value).state.slots, ForceFail, key)
  {
    var (s1, i) := FindOrClaim(s, ForceFail, key).value;
    var e := s1.slots[i];
    FindOrClaimIsLocal(s, ForceFail, key, Entry(ForceFail, key, e.allocFlag, Rc(RcCount(e.data), value)));
  }

  lemma RegisterContextIsLocal(s: State, key: Key, arg: nat)
    requires Inv(s) && RegisterContext(s, key, arg).Done?
    ensures Local(s.slots, RegisterContext(s, key, arg).state.slots, Context, key)
  {
    var (s1, i) := FindOrClaim(s, Context, key).value;
    var e := s1.slots[i];
    var args := ArgList(e.data);
    var args' := if |args| < MAX_ARGS then args + [arg] else args;
    FindOrClaimIsLocal(s, Context, key, Entry(Context, key, e.allocFlag, Args(args')));
  }

  lemma SetHookIsLocal(s: State, key: Key, hook: Option<nat>)
    requires Inv(s) && SetHook(s, key, hook).Done?
    ensures Local(s.slots, SetHook(s, key, hook).state.slots, Hook, key)
  {
    if Find(s, Hook, key).Some? {
      var i := Find(s, Hook, key).value;
      FindHolds(s, Hook, key);
      if hook.None? {
        ClearFoundIsLocal(s, Hook, key);
      } else {
        StoreIsLocal(s.slots, i, s.slots[i].(data := Cb(hook.value)), Hook, key);
      }
    } else if hook.Some? {
      ClaimIsLocal(s, Hook, key, Entry(Hook, key, false, Cb(hook.value)));
    }
  }

  lemma SetBufferIsLocal(s: State, key: Key, source: Option<Address>, size: nat, copy: bool, block: Address)
    requires Inv(s) && Readable(s, source, size) && SetBuffer(s, key, source, size, copy, block).Done?
    ensures Local(s.slots, SetBuffer(s, key, source, size, copy, block).state.slots, DataBuffer, key)
  {
    if source.Some? && size > 0 {
      if copy {
        ClaimIsLocal(s, DataBuffer, key, Entry(DataBuffer, key, true, Buff(block, size, 0)));
      } else {
        ClaimIsLocal(s, DataBuffer, key, Entry(DataBuffer, key, false, Buff(source.value, size, 0)));
      }
    }
  }

  lemma AdvanceIsLocal(s: State, i: nat, n: nat, key: Key)
    requires i < SLOTS && Holds(s.slots[i], DataBuffer, key) && s.slots[i].data.Buff?
    ensures Local(s.slots, Advance(s, i, n).slots, DataBuffer, key)
  {
    var e := s.slots[i];
    StoreIsLocal(s.slots, i, Zero(), DataBuffer, key);
    StoreIsLocal(s.slots, i, e.(data := e.data.(position := e.data.position + n)), DataBuffer, key);
  }

  lemma CopyToLocalIsLocal(s: State, key: Key, max: nat)
    requires BuffersOk(s)
    ensures Local(s.slots, CopyToLocal(s, key, max).0.slots, DataBuffer, key)
  {
    if Find(s, DataBuffer, key).Some? {
      var i := Find(s, DataBuffer, key).value;
      FindHolds(s, DataBuffer, key);
      assert BufferOk(s, s.slots[i]);
      AdvanceIsLocal(s, i, Amount(s.slots[i].data, max), key);
    }
  }

  lemma CopyFromLocalIsLocal(s: State, key: Key, bytes: seq<bv8>)
    requires BuffersOk(s)
    ensures Local(s.slots, CopyFromLocal(s, key, bytes).0.slots, DataBuffer, key)
  {
    if Find(s, DataBuffer, key).Some? {
      var i := Find(s, DataBuffer, key).value;
      FindHolds(s, DataBuffer, key);
      var d := s.slots[i].data;
      assert BufferOk(s, s.slots[i]);
      AdvanceIsLocal(Overwritten(s, d, bytes), i, Amount(d, |bytes|), key);
    }
  }

  lemma CallOnceIsLocal(s: State, key: Key)
    requires CallOnceOp(s, key).Done?
    ensures Local(s.slots, CallOnceOp(s, key).state.slots, CallOnce, key)
  {
    if CallOnceOp(s, key).value {
      StoreIsLocal(s.slots, Lowest(s.slots, Unused, None, 0).value, Entry(CallOnce, key, false, Blank), CallOnce, key);
    }
  }

  /** Sweeping away other entries does not show. */
  lemma SweepFrame(t: Table, t': Table, kind: Kind, key: Key)
    requires forall i | 0 <= i < SLOTS :: t'[i] == t[i] || (t'[i] == Zero() && !Holds(t[i], kind, key))
    requires kind != Unused
    ensures View(t', kind, key) == View(t, kind, key) && Live(t', kind, key) == Live(t, kind, key)
  {
    ChainFrame(t, t', key, kind, key, 0, |t|);
    var c := Live(t, kind, key);
    forall j | 0 <= j < |c| ensures t[Slot(key, c[j])] == t'[Slot(key, c[j])] {
      assert Holds(t[Slot(key, c[j])], kind, key);
    }
    SameEntriesSameView(t, t', kind, key, 0, 0, c, c);
    assert View(t, kind, key)[0..] == View(t, kind, key) && View(t', kind, key)[0..] == View(t', kind, key);
  }

  // ----- calls -----

  /** A stub call shows in nothing but the key's own codes, sticky value, counter and context. */
  lemma CallFrame(s: State, key: Key, defaultRc: int, hookResult: int, kind': Kind, key': Key)
    requires Inv(s) && Call(s, key, defaultRc, hookResult).Done? && kind' != Unused
    requires key' != key || (kind' != DeferredRc && kind' != ForceFail && kind' != Counter && kind' != Context)
    ensures View(Call(s, key, defaultRc, hookResult).state.slots, kind', key') == View(s.slots, kind', key')
  {
    var sa := CheckDeferred(s, key).0;
    CheckDeferredKeeps(s, key);
    CheckDeferredIsLocal(s, key);
    LocalFrame(s.slots, sa.slots, DeferredRc, key, kind', key');
    var sb := CheckDefault(sa, key).0;
    CheckDefaultKeeps(sa, key);
    CheckDefaultIsLocal(sa, key);
    LocalFrame(sa.slots, sb.slots, ForceFail, key, kind', key');
    var (s1, code) := ChooseCode(s, key, defaultRc);
    CountAndDropFrame(s1, key, code, kind', key');
  }

  lemma CountAndDropFrame(s: State, key: Key, code: int, kind': Kind, key': Key)
    requires Inv(s) && CountCall(s, key, code).Some? && kind' != Unused
    requires key' != key || (kind' != Counter && kind' != Context)
    ensures View(DropContext(CountCall(s, key, code).value, key).slots, kind', key') == View(s.slots, kind', key')
  {
    var s2 := CountCall(s, key, code).value;
    CountCallIsLocal(s, key, code);
    LocalFrame(s.slots, s2.slots, Counter, key, kind', key');
    DropContextIsLocal(s2, key);
    LocalFrame(s2.slots, DropContext(s2, key).slots, Context, key, kind', key');
  }

  /** The entries an operation is about. */
  predicate Concerns(op: Op, kind: Kind, key: Key) {
    match op
    case OpReset(k) => k == 0 || k == key
    case OpCallOnce(k) => kind == CallOnce && k == key
    case OpSetDeferred(k, _, _) => kind == DeferredRc && k == key
    case OpClearDeferred(k) => kind == DeferredRc && k == key
    case OpCheckDeferred(k) => kind == DeferredRc && k == key
    case OpSetDefault(k, _) => kind == ForceFail && k == key
    case OpClearDefault(k) => kind == ForceFail && k == key
    case OpCheckDefault(k) => kind == ForceFail && k == key
    case OpSetBuffer(k, _, _, _, _) => kind == DataBuffer && k == key
    case OpCopyToLocal(k, _) => kind == DataBuffer && k == key
    case OpCopyFromLocal(k, _) => kind == DataBuffer && k == key
    case OpSetHook(k, _) => kind == Hook && k == key
    case OpRegisterContext(k, _) => kind == Context && k == key
    case OpCall(k, _, _) => k == key && (kind == DeferredRc || kind == ForceFail || kind == Counter || kind == Context)
    case OpCallerWrites(_, _) => false
  }

  /** An operation shows only in the entries it is about. */
  lemma StepFrame(s: State, op: Op, kind: Kind, key: Key)
    requires Inv(s) && BuffersOk(s) && Enabled(s, op) && Step(s, op).Some?
    requires kind != Unused && !Concerns(op, kind, key)
    ensures View(Step(s, op).value.slots, kind, key) == View(s.slots, kind, key)
  {
    var t, t' := s.slots, Step(s, op).value.slots;
    match op
    case OpReset(k) => SweepFrame(t, t', kind, key);
    case OpCallOnce(k) => CallOnceIsLocal(s, k); LocalFrame(t, t', CallOnce, k, kind, key);
    case OpSetDeferred(k, count, retcode) =>
      if count > 0 {
        ClaimIsLocal(s, DeferredRc, k, Entry(DeferredRc, k, false, Rc(count, retcode)));
        LocalFrame(t, t', DeferredRc, k, kind, key);
      }
    case OpClearDeferred(k) => SweepFrame(t, t', kind, key);
    case OpCheckDeferred(k) => CheckDeferredIsLocal(s, k); LocalFrame(t, t', DeferredRc, k, kind, key);
    case OpSetDefault(k, value) => SetDefaultIsLocal(s, k, value); LocalFrame(t, t', ForceFail, k, kind, key);
    case OpClearDefault(k) =>
      if Find(s, ForceFail, k).Some? { ClearFoundIsLocal(s, ForceFail, k); LocalFrame(t, t', ForceFail, k, kind, key); }
    case OpCheckDefault(k) => CheckDefaultIsLocal(s, k); LocalFrame(t, t', ForceFail, k, kind, key);
    case OpSetBuffer(k, source, size, copy, block) =>
      SetBufferIsLocal(s, k, source, size, copy, block); LocalFrame(t, t', DataBuffer, k, kind, key);
    case OpCopyToLocal(k, max) => CopyToLocalIsLocal(s, k, max); LocalFrame(t, t', DataBuffer, k, kind, key);
    case OpCopyFromLocal(k, bytes) => CopyFromLocalIsLocal(s, k, bytes); LocalFrame(t, t', DataBuffer, k, kind, key);
    case OpSetHook(k, hook) => SetHookIsLocal(s, k, hook); LocalFrame(t, t', Hook, k, kind, key);
    case OpRegisterContext(k, arg) => RegisterContextIsLocal(s, k, arg); LocalFrame(t, t', Context, k, kind, key);
    case OpCall(k, defaultRc, hookResult) => CallFrame(s, k, defaultRc, hookResult, kind, key);
    case OpCallerWrites(address, bytes) =>
  }
}

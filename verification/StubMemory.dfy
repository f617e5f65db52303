/**
Ownership of the buffers behind the stub table: the outstanding allocations are exactly
the buffers of entries flagged as allocated, each is freed once, and live buffers are
always partly unread. Together with the table invariant this holds in every reachable state.
*/
module StubMemory {
  import opened Options
  import opened StubTable
  import opened StubInvariant

  /** The buffers that the table would free. */
  function OwnedBases(t: Table): set<Address> {
    set i | 0 <= i < SLOTS && Frees(t[i]) :: t[i].data.base
  }

  predicate SlotOwnership(s: State, i: nat)
    requires i < SLOTS
  {
    s.slots[i].kind == DataBuffer ==>
      BufferOk(s, s.slots[i]) && (s.slots[i].allocFlag <==> s.slots[i].data.base in s.owned)
  }

  predicate SameBlock(e: Entry, f: Entry) {
    Frees(e) && Frees(f) && e.data.base == f.data.base
  }

  predicate MemInv(s: State) {
    && s.owned <= s.memory.Keys
    && s.owned == OwnedBases(s.slots)
    && (forall i | 0 <= i < SLOTS :: SlotOwnership(s, i))
    && (forall i, j {:trigger SameBlock(s.slots[i], s.slots[j])} | 0 <= i < j < SLOTS ::
        !SameBlock(s.slots[i], s.slots[j]))
  }

  lemma MemInvBuffers(s: State)
    requires MemInv(s)
    ensures BuffersOk(s)
  {
    forall i | 0 <= i < SLOTS && s.slots[i].kind == DataBuffer ensures BufferOk(s, s.slots[i]) {
      assert SlotOwnership(s, i);
    }
  }

  /** Whatever an operation frees is an outstanding allocation, and no other entry refers to it. */
  lemma FreeIsLegal(s: State, i: nat)
    requires MemInv(s) && i < SLOTS && Frees(s.slots[i])
    ensures s.slots[i].data.base in s.owned && s.slots[i].data.base in s.memory
    ensures forall j | 0 <= j < SLOTS && j != i && s.slots[j].kind == DataBuffer ::
              s.slots[j].data.Buff? && s.slots[j].data.base != s.slots[i].data.base
  {
    assert SlotOwnership(s, i);
    forall j | 0 <= j < SLOTS && j != i && s.slots[j].kind == DataBuffer
      ensures s.slots[j].data.Buff? && s.slots[j].data.base != s.slots[i].data.base
    {
      assert SlotOwnership(s, j);
      if i < j { assert !SameBlock(s.slots[i], s.slots[j]); } else { assert !SameBlock(s.slots[j], s.slots[i]); }
    }
  }

  lemma OwnedAfterClear(s: State, i: nat)
    requires MemInv(s) && i < SLOTS
    ensures Clear(s, i).owned == OwnedBases(Clear(s, i).slots)
  {
    var t' := Clear(s, i).slots;
    if Frees(s.slots[i]) {
      var b := s.slots[i].data.base;
      FreeIsLegal(s, i);
      forall a ensures a in OwnedBases(t') <==> a in OwnedBases(s.slots) && a != b {
        if a in OwnedBases(t') {
          var j :| 0 <= j < SLOTS && Frees(t'[j]) && t'[j].data.base == a;
          assert Frees(s.slots[j]);
        }
        if a in OwnedBases(s.slots) && a != b {
          var j :| 0 <= j < SLOTS && Frees(s.slots[j]) && s.slots[j].data.base == a;
          assert Frees(t'[j]);
        }
      }
    } else {
      SameOwners(s.slots, t');
    }
  }

  /** Tables whose freeing entries agree slot by slot own the same buffers. */
  lemma SameOwners(t: Table, t': Table)
    requires forall i | 0 <= i < SLOTS :: Frees(t[i]) <==> Frees(t'[i])
    requires forall i | 0 <= i < SLOTS && Frees(t[i]) && Frees(t'[i]) :: t[i].data.base == t'[i].data.base
    ensures OwnedBases(t) == OwnedBases(t')
  {
    forall a ensures a in OwnedBases(t) <==> a in OwnedBases(t') {
      if a in OwnedBases(t) {
        var j :| 0 <= j < SLOTS && Frees(t[j]) && t[j].data.base == a;
        assert Frees(t'[j]);
      }
      if a in OwnedBases(t') {
        var j :| 0 <= j < SLOTS && Frees(t'[j]) && t'[j].data.base == a;
        assert Frees(t[j]);
      }
    }
  }

  lemma ClearKeepsMemory(s: State, i: nat)
    requires MemInv(s) && i < SLOTS
    ensures MemInv(Clear(s, i))
  {
    var s' := Clear(s, i);
    OwnedAfterClear(s, i);
    if Frees(s.slots[i]) { FreeIsLegal(s, i); }
    forall j | 0 <= j < SLOTS ensures SlotOwnership(s', j) {
      assert SlotOwnership(s, j);
    }
    forall j, k | 0 <= j < k < SLOTS ensures !SameBlock(s'.slots[j], s'.slots[k]) {
      assert !SameBlock(s.slots[j], s.slots[k]);
    }
  }

  /** Changes that leave every buffer entry where it is, up to its position. */
  lemma RewriteKeepsMemory(s: State, high: nat, i: nat, e: Entry)
    requires MemInv(s) && i < SLOTS
    requires e.kind == DataBuffer ==>
               && s.slots[i].kind == DataBuffer && e.data.Buff? && e.allocFlag == s.slots[i].allocFlag
               && s.slots[i].data.Buff? && e.data.base == s.slots[i].data.base && e.data.total == s.slots[i].data.total
               && e.data.position < e.data.total
    requires e.kind != DataBuffer ==> s.slots[i].kind != DataBuffer
    ensures MemInv(Store(s.(high := high), i, e))
  {
    var s' := Store(s.(high := high), i, e);
    assert SlotOwnership(s, i);
    SameOwners(s.slots, s'.slots);
    forall j | 0 <= j < SLOTS ensures SlotOwnership(s', j) {
      assert SlotOwnership(s, j);
    }
    forall j, k | 0 <= j < k < SLOTS ensures !SameBlock(s'.slots[j], s'.slots[k]) {
      assert !SameBlock(s.slots[j], s.slots[k]);
    }
  }

  lemma OwnedAfterReset(s: State, key: Key)
    requires MemInv(s)
    ensures Reset(s, key).owned == OwnedBases(Reset(s, key).slots)
  {
    var t, t', gone := s.slots, Reset(s, key).slots, FreedBases(s.slots, key);
    forall a ensures a in OwnedBases(t') <==> a in OwnedBases(t) && a !in gone {
      if a in OwnedBases(t') {
        var j :| 0 <= j < SLOTS && Frees(t'[j]) && t'[j].data.base == a;
        assert Frees(t[j]);
        KeptIsNotFreed(s, key, j);
      }
      if a in OwnedBases(t) && a !in gone {
        var j :| 0 <= j < SLOTS && Frees(t[j]) && t[j].data.base == a;
        assert Frees(t'[j]);
      }
    }
  }

  /** No buffer that survives a reset is freed by it. */
  lemma KeptIsNotFreed(s: State, key: Key, j: nat)
    requires MemInv(s) && j < SLOTS && s.slots[j].kind == DataBuffer && !IsSwept(s.slots[j], key)
    ensures s.slots[j].data.Buff? && s.slots[j].data.base !in FreedBases(s.slots, key)
  {
    assert SlotOwnership(s, j);
    forall i | 0 <= i < SLOTS && IsSwept(s.slots[i], key) && Frees(s.slots[i])
      ensures s.slots[i].data.base != s.slots[j].data.base
    {
      FreeIsLegal(s, i);
    }
  }

  lemma ResetKeepsMemory(s: State, key: Key)
    requires MemInv(s)
    ensures MemInv(Reset(s, key))
  {
    var s' := Reset(s, key);
    OwnedAfterReset(s, key);
    forall j | 0 <= j < SLOTS ensures SlotOwnership(s', j) {
      assert SlotOwnership(s, j);
      if s'.slots[j].kind == DataBuffer { KeptIsNotFreed(s, key, j); }
    }
    forall j, k | 0 <= j < k < SLOTS ensures !SameBlock(s'.slots[j], s'.slots[k]) {
      assert !SameBlock(s.slots[j], s.slots[k]);
    }
  }

  lemma ClearDeferredKeepsMemory(s: State, key: Key)
    requires MemInv(s)
    ensures MemInv(ClearDeferred(s, key))
  {
    var s' := ClearDeferred(s, key);
    SameOwners(s.slots, s'.slots);
    forall j | 0 <= j < SLOTS ensures SlotOwnership(s', j) {
      assert SlotOwnership(s, j);
    }
    forall j, k | 0 <= j < k < SLOTS ensures !SameBlock(s'.slots[j], s'.slots[k]) {
      assert !SameBlock(s.slots[j], s.slots[k]);
    }
  }

  lemma OwnedAfterAdd(t: Table, i: nat, e: Entry)
    requires i < SLOTS && !Frees(t[i]) && e.data.Buff?
    ensures OwnedBases(t[i := e]) == if Frees(e) then OwnedBases(t) + {e.data.base} else OwnedBases(t)
  {
    var t' := t[i := e];
    forall a ensures a in OwnedBases(t') <==> a in OwnedBases(t) || (Frees(e) && a == e.data.base) {
      if a in OwnedBases(t) {
        var j :| 0 <= j < SLOTS && Frees(t[j]) && t[j].data.base == a;
        assert Frees(t'[j]);
      }
      if Frees(e) && a == e.data.base {
        assert Frees(t'[i]);
      }
    }
  }

  lemma AddCopyKeepsMemory(s: State, high: nat, i: nat, key: Key, block: Address, bytes: seq<bv8>)
    requires MemInv(s) && i < SLOTS && s.slots[i].kind == Unused && block !in s.memory && bytes != []
    ensures MemInv(State(s.slots[i := Entry(DataBuffer, key, true, Buff(block, |bytes|, 0))], high,
                         s.memory[block := bytes], s.owned + {block}))
  {
    var e := Entry(DataBuffer, key, true, Buff(block, |bytes|, 0));
    var s' := State(s.slots[i := e], high, s.memory[block := bytes], s.owned + {block});
    OwnedAfterAdd(s.slots, i, e);
    forall j | 0 <= j < SLOTS ensures SlotOwnership(s', j) {
      assert SlotOwnership(s, j);
    }
    forall j, k | 0 <= j < k < SLOTS ensures !SameBlock(s'.slots[j], s'.slots[k]) {
      assert !SameBlock(s.slots[j], s.slots[k]);
      assert SlotOwnership(s, j) && SlotOwnership(s, k);
    }
  }

  lemma AddCallerBufferKeepsMemory(s: State, high: nat, i: nat, key: Key, source: Address, size: nat)
    requires MemInv(s) && i < SLOTS && s.slots[i].kind == Unused
    requires source in s.memory && source !in s.owned && 0 < size <= |s.memory[source]|
    ensures MemInv(Store(s.(high := high), i, Entry(DataBuffer, key, false, Buff(source, size, 0))))
  {
    var e := Entry(DataBuffer, key, false, Buff(source, size, 0));
    var s' := Store(s.(high := high), i, e);
    OwnedAfterAdd(s.slots, i, e);
    forall j | 0 <= j < SLOTS ensures SlotOwnership(s', j) {
      assert SlotOwnership(s, j);
    }
    forall j, k | 0 <= j < k < SLOTS ensures !SameBlock(s'.slots[j], s'.slots[k]) {
      assert !SameBlock(s.slots[j], s.slots[k]);
    }
  }

  lemma SetBufferKeepsMemory(s: State, key: Key, source: Option<Address>, size: nat, copy: bool, block: Address)
    requires Inv(s) && MemInv(s) && Enabled(s, OpSetBuffer(key, source, size, copy, block))
    requires SetBuffer(s, key, source, size, copy, block).Done?
    ensures MemInv(SetBuffer(s, key, source, size, copy, block).state)
  {
    if source.Some? && size > 0 {
      ClaimIsUnused(s, key);
      var (s1, i) := Claim(s, key).value;
      if copy {
        AddCopyKeepsMemory(s, s1.high, i, key, block, s.memory[source.value][..size]);
      } else {
        AddCallerBufferKeepsMemory(s, s1.high, i, key, source.value, size);
      }
    }
  }

  /** Changing the contents of a buffer, but not its size. */
  lemma WriteKeepsMemory(s: State, address: Address, bytes: seq<bv8>)
    requires MemInv(s) && address in s.memory && |bytes| == |s.memory[address]|
    ensures MemInv(s.(memory := s.memory[address := bytes]))
  {
    var s' := s.(memory := s.memory[address := bytes]);
    assert s'.memory.Keys == s.memory.Keys;
    forall j | 0 <= j < SLOTS ensures SlotOwnership(s', j) {
      assert SlotOwnership(s, j);
    }
  }

  lemma AdvanceKeepsMemory(s: State, i: nat, n: nat)
    requires MemInv(s) && i < SLOTS && s.slots[i].kind == DataBuffer && s.slots[i].data.Buff?
    ensures MemInv(Advance(s, i, n))
  {
    var e := s.slots[i];
    if e.data.position + n >= e.data.total {
      ClearKeepsMemory(s, i);
    } else {
      RewriteKeepsMemory(s, s.high, i, e.(data := e.data.(position := e.data.position + n)));
    }
  }

  lemma CopyToLocalKeepsMemory(s: State, key: Key, max: nat)
    requires MemInv(s) && BuffersOk(s)
    ensures MemInv(CopyToLocal(s, key, max).0)
  {
    if Find(s, DataBuffer, key).Some? {
      var i := Find(s, DataBuffer, key).value;
      FindHolds(s, DataBuffer, key);
      assert BufferOk(s, s.slots[i]);
      AdvanceKeepsMemory(s, i, Amount(s.slots[i].data, max));
    }
  }

  lemma CopyFromLocalKeepsMemory(s: State, key: Key, bytes: seq<bv8>)
    requires MemInv(s) && BuffersOk(s)
    ensures MemInv(CopyFromLocal(s, key, bytes).0)
  {
    if Find(s, DataBuffer, key).Some? {
      var i := Find(s, DataBuffer, key).value;
      FindHolds(s, DataBuffer, key);
      var d := s.slots[i].data;
      assert BufferOk(s, s.slots[i]);
      var s1 := Overwritten(s, d, bytes);
      WriteKeepsMemory(s, d.base, s1.memory[d.base]);
      AdvanceKeepsMemory(s1, i, Amount(d, |bytes|));
    }
  }

  /** Operations on entries other than data buffers leave the memory alone. */
  lemma SetOtherKeepsMemory(s: State, kind: Kind, key: Key, e: Entry)
    requires Inv(s) && MemInv(s) && Searched(kind) && kind != DataBuffer && e.kind == kind
    requires FindOrClaim(s, kind, key).Some?
    ensures var (s1, i) := FindOrClaim(s, kind, key).value; i < SLOTS && MemInv(Store(s1, i, e))
  {
    FoundShape(s, kind, key);
    var (s1, i) := FindOrClaim(s, kind, key).value;
    RewriteKeepsMemory(s, s1.high, i, e);
  }

  lemma ClaimOtherKeepsMemory(s: State, key: Key, e: Entry)
    requires Inv(s) && MemInv(s) && e.kind != DataBuffer && Claim(s, key).Some?
    ensures var (s1, i) := Claim(s, key).value; i < SLOTS && MemInv(Store(s1, i, e))
  {
    ClaimIsUnused(s, key);
    var (s1, i) := Claim(s, key).value;
    RewriteKeepsMemory(s, s1.high, i, e);
  }

  lemma RewriteOtherKeepsMemory(s: State, i: nat, e: Entry)
    requires MemInv(s) && i < SLOTS && s.slots[i].kind != DataBuffer && e.kind != DataBuffer
    ensures MemInv(Store(s, i, e))
  {
    RewriteKeepsMemory(s, s.high, i, e);
  }

  lemma CheckDeferredKeepsMemory(s: State, key: Key)
    requires MemInv(s)
    ensures MemInv(CheckDeferred(s, key).0)
  {
    if Find(s, DeferredRc, key).Some? {
      var i := Find(s, DeferredRc, key).value;
      FindHolds(s, DeferredRc, key);
      if RcCount(s.slots[i].data) <= 1 {
        ClearKeepsMemory(s, i);
      } else {
        RewriteOtherKeepsMemory(s, i, CountedDown(s.slots[i]));
      }
    }
  }

  lemma CheckDefaultKeepsMemory(s: State, key: Key)
    requires MemInv(s)
    ensures MemInv(CheckDefault(s, key).0)
  {
    if Find(s, ForceFail, key).Some? {
      var i := Find(s, ForceFail, key).value;
      FindHolds(s, ForceFail, key);
      RewriteOtherKeepsMemory(s, i, s.slots[i].(data := Rc(Plus1(RcCount(s.slots[i].data)), RcValue(s.slots[i].data))));
    }
  }

  lemma SetHookKeepsMemory(s: State, key: Key, hook: Option<nat>)
    requires Inv(s) && MemInv(s) && SetHook(s, key, hook).Done?
    ensures MemInv(SetHook(s, key, hook).state)
  {
    if Find(s, Hook, key).Some? {
      var i := Find(s, Hook, key).value;
      FindHolds(s, Hook, key);
      if hook.None? {
        ClearKeepsMemory(s, i);
      } else {
        RewriteOtherKeepsMemory(s, i, s.slots[i].(data := Cb(hook.value)));
      }
    } else if hook.Some? {
      ClaimOtherKeepsMemory(s, key, Entry(Hook, key, false, Cb(hook.value)));
    }
  }

  lemma ClearFoundKeepsMemory(s: State, kind: Kind, key: Key)
    requires MemInv(s) && Find(s, kind, key).Some?
    ensures MemInv(Clear(s, Find(s, kind, key).value))
  {
    FindHolds(s, kind, key);
    ClearKeepsMemory(s, Find(s, kind, key).value);
  }

  lemma CountCallKeepsMemory(s: State, key: Key, code: int)
    requires Inv(s) && MemInv(s) && CountCall(s, key, code).Some?
    ensures MemInv(CountCall(s, key, code).value)
  {
    var (s1, i) := FindOrClaim(s, Counter, key).value;
    var e := s1.slots[i];
    SetOtherKeepsMemory(s, Counter, key, Entry(Counter, key, e.allocFlag, Rc(Plus1(RcCount(e.data)), code)));
  }

  lemma CallKeepsMemory(s: State, key: Key, defaultRc: int, hookResult: int)
    requires Inv(s) && MemInv(s) && Call(s, key, defaultRc, hookResult).Done?
    ensures MemInv(Call(s, key, defaultRc, hookResult).state)
  {
    CheckDeferredKeeps(s, key);
    CheckDeferredKeepsMemory(s, key);
    CheckDefaultKeeps(CheckDeferred(s, key).0, key);
    CheckDefaultKeepsMemory(CheckDeferred(s, key).0, key);
    var (s1, code) := ChooseCode(s, key, defaultRc);
    CountCallKeepsMemory(s1, key, code);
    var s2 := CountCall(s1, key, code).value;
    if Find(s2, Context, key).Some? { ClearFoundKeepsMemory(s2, Context, key); }
  }

  lemma SetDefaultKeepsMemory(s: State, key: Key, value: int)
    requires Inv(s) && MemInv(s) && SetDefault(s, key, value).Done?
    ensures MemInv(SetDefault(s, key, value).state)
  {
    var (s1, i) := FindOrClaim(s, ForceFail, key).value;
    var e := s1.slots[i];
    SetOtherKeepsMemory(s, ForceFail, key, Entry(ForceFail, key, e.allocFlag, Rc(RcCount(e.data), value)));
  }

  lemma RegisterContextKeepsMemory(s: State, key: Key, arg: nat)
    requires Inv(s) && MemInv(s) && RegisterContext(s, key, arg).Done?
    ensures MemInv(RegisterContext(s, key, arg).state)
  {
    var (s1, i) := FindOrClaim(s, Context, key).value;
    var e := s1.slots[i];
    var args := ArgList(e.data);
    var args' := if |args| < MAX_ARGS then args + [arg] else args;
    SetOtherKeepsMemory(s, Context, key, Entry(Context, key, e.allocFlag, Args(args')));
  }

  lemma CallOnceKeepsMemory(s: State, key: Key)
    requires MemInv(s) && CallOnceOp(s, key).Done?
    ensures MemInv(CallOnceOp(s, key).state)
  {
    if CallOnceOp(s, key).value {
      var i := Lowest(s.slots, Unused, None, 0).value;
      RewriteOtherKeepsMemory(s, i, Entry(CallOnce, key, false, Blank));
    }
  }

  lemma StepKeepsMemory(s: State, op: Op)
    requires Inv(s) && MemInv(s) && BuffersOk(s) && Enabled(s, op) && Step(s, op).Some?
    ensures MemInv(Step(s, op).value)
  {
    match op
    case OpReset(key) => ResetKeepsMemory(s, key);
    case OpCallOnce(key) => CallOnceKeepsMemory(s, key);
    case OpSetDeferred(key, count, retcode) =>
      if count > 0 { ClaimOtherKeepsMemory(s, key, Entry(DeferredRc, key, false, Rc(count, retcode))); }
    case OpClearDeferred(key) => ClearDeferredKeepsMemory(s, key);
    case OpCheckDeferred(key) => CheckDeferredKeepsMemory(s, key);
    case OpSetDefault(key, value) => SetDefaultKeepsMemory(s, key, value);
    case OpClearDefault(key) => if Find(s, ForceFail, key).Some? { ClearFoundKeepsMemory(s, ForceFail, key); }
    case OpCheckDefault(key) => CheckDefaultKeepsMemory(s, key);
    case OpSetBuffer(key, source, size, copy, block) => SetBufferKeepsMemory(s, key, source, size, copy, block);
    case OpCopyToLocal(key, max) => CopyToLocalKeepsMemory(s, key, max);
    case OpCopyFromLocal(key, bytes) => CopyFromLocalKeepsMemory(s, key, bytes);
    case OpSetHook(key, hook) => SetHookKeepsMemory(s, key, hook);
    case OpRegisterContext(key, arg) => RegisterContextKeepsMemory(s, key, arg);
    case OpCall(key, defaultRc, hookResult) => CallKeepsMemory(s, key, defaultRc, hookResult);
    case OpCallerWrites(address, bytes) => WriteKeepsMemory(s, address, bytes);
  }

  // ----- whole runs -----

  predicate Valid(s: State) {
    Inv(s) && MemInv(s)
  }

  /** A run the caller is entitled to and that does not abort. */
  predicate Legal(s: State, ops: seq<Op>)
    decreases |ops|
  {
    ops == [] ||
    (BuffersOk(s) && Enabled(s, ops[0]) && Step(s, ops[0]).Some? && Legal(Step(s, ops[0]).value, ops[1..]))
  }

  function Run(s: State, ops: seq<Op>): State
    requires Legal(s, ops)
    decreases |ops|
  {
    if ops == [] then s else Run(Step(s, ops[0]).value, ops[1..])
  }

  /** The state in which the framework starts: an empty table over the caller's memory. */
  function Initial(memory: map<Address, seq<bv8>>): State {
    State(Fresh(), 0, memory, {})
  }

  lemma InitialIsValid(memory: map<Address, seq<bv8>>)
    ensures Valid(Initial(memory))
  {
    var t := Fresh();
    assert forall i | 0 <= i < SLOTS :: SlotOk(t, 0, i);
    assert OwnedBases(t) == {};
  }

  /** A reset of all keys is a new start: the table is empty, and all memory is the caller's. */
  lemma ResetAllStartsOver(s: State)
    requires Valid(s)
    ensures Reset(s, 0) == Initial(s.memory - s.owned)
  {
    assert FreedBases(s.slots, 0) == OwnedBases(s.slots);
    assert Reset(s, 0).slots == Fresh();
  }

  lemma StepKeepsValid(s: State, op: Op)
    requires Valid(s) && BuffersOk(s) && Enabled(s, op) && Step(s, op).Some?
    ensures Valid(Step(s, op).value)
  {
    StepKeeps(s, op);
    StepKeepsMemory(s, op);
  }

  lemma {:induction false} RunKeepsValid(s: State, ops: seq<Op>)
    requires Valid(s) && Legal(s, ops)
    ensures Valid(Run(s, ops))
    decreases |ops|
  {
    if ops != [] {
      StepKeepsValid(s, ops[0]);
      RunKeepsValid(Step(s, ops[0]).value, ops[1..]);
    }
  }

  /** In every reachable state the bounded search answers as the full scan would. */
  lemma ReachableSearchIsComplete(memory: map<Address, seq<bv8>>, ops: seq<Op>, kind: Kind, key: Key)
    requires Legal(Initial(memory), ops) && Searched(kind)
    ensures var s := Run(Initial(memory), ops);
            Find(s, kind, key).None? <==> !Present(s.slots, kind, key)
  {
    InitialIsValid(memory);
    RunKeepsValid(Initial(memory), ops);
    BoundedSearchIsComplete(Run(Initial(memory), ops), kind, key);
  }
}

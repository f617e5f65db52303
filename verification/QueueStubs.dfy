/**
The message queue emulation: OS_QueuePut and OS_QueueGet on the data buffers of the stub
table, where each call also registers and drops a context entry in the same table.
*/
module QueueStubs {
  import opened Options
  import opened StubTable
  import opened StubInvariant
  import opened StubMemory
  import opened StubOrder
  import opened StubEffects
  import opened StubCalls
  import opened StubCodes
  import opened StubAdditions
  import opened StubBuffers

  const OS_SUCCESS := 0
  const OS_QUEUE_EMPTY := -8
  const PUT_ARGS := 4
  const GET_ARGS := 5

  /** The keys of the two stubs: the addresses of different functions. */
  datatype Keys = Keys(put: Key, get: Key)

  // ----- the common beginning of a stub: register the arguments, then the default call -----

  function Arguments(key: Key, args: nat): (ops: seq<Op>)
    ensures forall op | op in ops :: op.OpRegisterContext? && op.key == key
  {
    if args == 0 then [] else [OpRegisterContext(key, args)] + Arguments(key, args - 1)
  }

  function Enter(s: State, key: Key, args: nat, hookResult: int): Outcome<int> {
    var ops := Arguments(key, args);
    if !Legal(s, ops) then Abort else Call(Run(s, ops), key, OS_SUCCESS, hookResult)
  }

  /** Nothing that a call of this stub would clear: no deferred code and no stale context. */
  predicate Idle(s: State, key: Key) {
    Codes(s, key) == [] && !Present(s.slots, Context, key)
  }

  /** Every entry keeps its slot, kind and key. */
  predicate Stays(t: Table, t': Table) {
    forall i | 0 <= i < SLOTS && t[i].kind != Unused :: t'[i].kind == t[i].kind && t'[i].key == t[i].key
  }

  lemma StaysChains(t: Table, t': Table, t'': Table)
    requires Stays(t, t') && Stays(t', t'')
    ensures Stays(t, t'')
  {
  }

  lemma SetStays(s: State, kind: Kind, key: Key, e: Entry)
    requires Inv(s) && Searched(kind) && FindOrClaim(s, kind, key).Some? && Holds(e, kind, key)
    ensures var (s1, i) := FindOrClaim(s, kind, key).value; i < SLOTS && Stays(s.slots, Store(s1, i, e).slots)
  {
    FoundEntry(s, kind, key);
    FoundShape(s, kind, key);
  }

  lemma RegisterStays(s: State, key: Key, arg: nat)
    requires Inv(s) && RegisterContext(s, key, arg).Done?
    ensures Stays(s.slots, RegisterContext(s, key, arg).state.slots)
  {
    var (s1, i) := FindOrClaim(s, Context, key).value;
    var args := ArgList(s1.slots[i].data);
    var args' := if |args| < MAX_ARGS then args + [arg] else args;
    SetStays(s, Context, key, Entry(Context, key, s1.slots[i].allocFlag, Args(args')));
  }

  lemma StepStays(s: State, op: Op)
    requires Inv(s) && op.OpRegisterContext? && BuffersOk(s) && Enabled(s, op) && Step(s, op).Some?
    ensures Stays(s.slots, Step(s, op).value.slots)
  {
    RegisterStays(s, op.key, op.arg);
  }

  lemma {:induction false} RunStays(s: State, ops: seq<Op>)
    requires Valid(s) && Legal(s, ops) && forall op | op in ops :: op.OpRegisterContext?
    ensures Stays(s.slots, Run(s, ops).slots)
    decreases |ops|
  {
    if ops != [] {
      var s' := Step(s, ops[0]).value;
      StepStays(s, ops[0]);
      StepKeepsValid(s, ops[0]);
      RunStays(s', ops[1..]);
      StaysChains(s.slots, s'.slots, Run(s', ops[1..]).slots);
    }
  }

  lemma {:induction false} RunFrame(s: State, ops: seq<Op>, kind: Kind, key: Key)
    requires Valid(s) && Legal(s, ops) && kind != Unused && forall op | op in ops :: !Concerns(op, kind, key)
    ensures View(Run(s, ops).slots, kind, key) == View(s.slots, kind, key)
    decreases |ops|
  {
    if ops != [] {
      StepFrame(s, ops[0], kind, key);
      StepKeepsValid(s, ops[0]);
      RunFrame(Step(s, ops[0]).value, ops[1..], kind, key);
    }
  }

  lemma {:induction false} RunLeavesMemory(s: State, ops: seq<Op>)
    requires Valid(s) && Legal(s, ops) && forall op | op in ops :: op.OpRegisterContext?
    ensures Run(s, ops).memory == s.memory
    decreases |ops|
  {
    if ops != [] {
      assert ops[0].OpRegisterContext?;
      OthersLeaveMemory(s, ops[0]);
      StepKeepsValid(s, ops[0]);
      RunLeavesMemory(Step(s, ops[0]).value, ops[1..]);
    }
  }

  // ----- what the call part keeps in place -----

  lemma CheckDefaultStays(s: State, key: Key)
    ensures Stays(s.slots, CheckDefault(s, key).0.slots)
  {
    if Find(s, ForceFail, key).Some? { FindHolds(s, ForceFail, key); }
  }

  lemma CountCallStays(s: State, key: Key, code: int)
    requires Inv(s) && CountCall(s, key, code).Some?
    ensures Stays(s.slots, CountCall(s, key, code).value.slots)
  {
    var (s1, i) := FindOrClaim(s, Counter, key).value;
    var e := s1.slots[i];
    SetStays(s, Counter, key, Entry(Counter, key, e.allocFlag, Rc(Plus1(RcCount(e.data)), code)));
  }

  lemma DropContextStays(t: Table, s: State, key: Key)
    requires Stays(t, s.slots) && !Present(t, Context, key)
    ensures Stays(t, DropContext(s, key).slots)
  {
    if Find(s, Context, key).Some? {
      var i := Find(s, Context, key).value;
      FindHolds(s, Context, key);
      assert !Holds(t[i], Context, key);
    }
  }

  lemma ChooseCodeStays(s: State, key: Key)
    requires Inv(s) && Codes(s, key) == []
    ensures Stays(s.slots, ChooseCode(s, key, OS_SUCCESS).0.slots)
  {
    NoCodes(s, key);
    CheckDefaultStays(s, key);
  }

  /** An idle stub's call drops only the context it registered itself. */
  lemma CallStays(t: Table, s: State, key: Key, hookResult: int)
    requires Inv(s) && Call(s, key, OS_SUCCESS, hookResult).Done?
    requires Stays(t, s.slots) && Codes(s, key) == [] && !Present(t, Context, key)
    ensures Stays(t, Call(s, key, OS_SUCCESS, hookResult).state.slots)
  {
    var (s1, code) := ChooseCode(s, key, OS_SUCCESS);
    ChooseCodeStays(s, key);
    ChooseCodeKeeps(s, key, OS_SUCCESS);
    StaysChains(t, s.slots, s1.slots);
    CountCallStays(s1, key, code);
    var s2 := CountCall(s1, key, code).value;
    StaysChains(t, s1.slots, s2.slots);
    DropContextStays(t, s2, key);
  }

  lemma ArgumentsKeepCodes(s: State, key: Key, args: nat)
    requires Valid(s) && Legal(s, Arguments(key, args))
    ensures Valid(Run(s, Arguments(key, args))) && Codes(Run(s, Arguments(key, args)), key) == Codes(s, key)
  {
    RunKeepsValid(s, Arguments(key, args));
    RunFrame(s, Arguments(key, args), DeferredRc, key);
  }

  /** Entering an idle stub moves no entry. */
  lemma EnterStays(s: State, key: Key, args: nat, hookResult: int)
    requires Valid(s) && Enter(s, key, args, hookResult).Done? && Idle(s, key)
    ensures Stays(s.slots, Enter(s, key, args, hookResult).state.slots)
  {
    ArgumentsKeepCodes(s, key, args);
    RunStays(s, Arguments(key, args));
    CallStays(s.slots, Run(s, Arguments(key, args)), key, hookResult);
  }

  /** A stub without deferred codes is idle after a call. */
  lemma EnterLeavesIdle(s: State, key: Key, args: nat, hookResult: int)
    requires Valid(s) && Enter(s, key, args, hookResult).Done? && Codes(s, key) == []
    ensures Idle(Enter(s, key, args, hookResult).state, key)
  {
    var s1 := Run(s, Arguments(key, args));
    ArgumentsKeepCodes(s, key, args);
    CallEffect(s1, key, OS_SUCCESS, hookResult);
    CallDropsContext(s1, key, OS_SUCCESS, hookResult);
  }

  /** Entering a stub, idle or not, shows in no data buffer and leaves the memory alone. */
  lemma EnterEffect(s: State, key: Key, args: nat, hookResult: int, kind': Kind, key': Key)
    requires Valid(s) && Enter(s, key, args, hookResult).Done? && kind' != Unused
    requires key' != key || (kind' != DeferredRc && kind' != ForceFail && kind' != Counter && kind' != Context)
    ensures var s' := Enter(s, key, args, hookResult).state;
            Valid(s') && s'.memory == s.memory && View(s'.slots, kind', key') == View(s.slots, kind', key')
  {
    var ops := Arguments(key, args);
    var s1 := Run(s, ops);
    RunKeepsValid(s, ops);
    RunLeavesMemory(s, ops);
    RunFrame(s, ops, kind', key');
    CallKeeps(s1, key, OS_SUCCESS, hookResult);
    CallKeepsMemory(s1, key, OS_SUCCESS, hookResult);
    CallLeavesMemory(s1, key, OS_SUCCESS, hookResult);
    CallFrame(s1, key, OS_SUCCESS, hookResult, kind', key');
  }

  lemma EnterKeepsPending(s: State, key: Key, args: nat, hookResult: int, id: Key)
    requires Valid(s) && BuffersOk(s) && Enter(s, key, args, hookResult).Done?
    ensures var s' := Enter(s, key, args, hookResult).state;
            Valid(s') && BuffersOk(s') && s'.memory == s.memory && Pending(s', id) == Pending(s, id)
  {
    var s' := Enter(s, key, args, hookResult).state;
    EnterEffect(s, key, args, hookResult, DataBuffer, id);
    MemInvBuffers(s');
  }

  // ----- the queue operations -----

  lemma EnterReadable(s: State, key: Key, args: nat, hookResult: int, source: Option<Address>, size: nat)
    requires Valid(s) && Enter(s, key, args, hookResult).Done? && Readable(s, source, size)
    ensures Readable(Enter(s, key, args, hookResult).state, source, size)
  {
    EnterEffect(s, key, args, hookResult, DataBuffer, 0);
  }

  lemma EnterBuffersOk(s: State, key: Key, args: nat, hookResult: int)
    requires Valid(s) && Enter(s, key, args, hookResult).Done?
    ensures BuffersOk(Enter(s, key, args, hookResult).state)
  {
    EnterEffect(s, key, args, hookResult, DataBuffer, 0);
    MemInvBuffers(Enter(s, key, args, hookResult).state);
  }

  /** OS_QueuePut: the message is copied into a data buffer under the queue's ID. */
  function QueuePut(s: State, keys: Keys, id: Key, source: Option<Address>, size: nat, hookResult: int,
                    block: Address): Outcome<int>
    requires Valid(s) && Readable(s, source, size)
  {
    match Enter(s, keys.put, PUT_ARGS, hookResult)
    case Abort => Abort
    case Done(s1, status) =>
      if status != OS_SUCCESS then Done(s1, status)
      else
        EnterReadable(s, keys.put, PUT_ARGS, hookResult, source, size);
        match SetBuffer(s1, id, source, size, true, block)
        case Abort => Abort
        case Done(s2, _) => Done(s2, OS_SUCCESS)
  }

  /** OS_QueueGet: the status and the bytes delivered. */
  function QueueGet(s: State, keys: Keys, id: Key, max: nat, hookResult: int): Outcome<(int, seq<bv8>)>
    requires Valid(s)
  {
    match Enter(s, keys.get, GET_ARGS, hookResult)
    case Abort => Abort
    case Done(s1, status) =>
      if status != OS_SUCCESS then Done(s1, (status, []))
      else
        EnterBuffersOk(s, keys.get, GET_ARGS, hookResult);
        var (s2, bytes) := CopyToLocal(s1, id, max);
        Done(s2, (if bytes == [] then OS_QUEUE_EMPTY else OS_SUCCESS, bytes))
  }

  /** A get succeeds exactly when the stub call does and the queue holds something to deliver; it
      then takes from the front of that queue and from no other. */
  lemma GetEffect(s: State, keys: Keys, id: Key, max: nat, hookResult: int, other: Key)
    requires Valid(s) && BuffersOk(s) && QueueGet(s, keys, id, max, hookResult).Done?
    ensures var s' := QueueGet(s, keys, id, max, hookResult).state;
            var (status, bytes) := QueueGet(s, keys, id, max, hookResult).value;
            var called := Enter(s, keys.get, GET_ARGS, hookResult).value == OS_SUCCESS;
            && Valid(s') && BuffersOk(s')
            && (called ==> bytes == Delivery(Pending(s, id), max) && Pending(s', id) == Taken(Pending(s, id), max))
            && (!called ==> bytes == [] && Pending(s', id) == Pending(s, id))
            && (status == OS_SUCCESS <==> called && bytes != [])
            && (other != id ==> Pending(s', other) == Pending(s, other))
  {
    var s1 := Enter(s, keys.get, GET_ARGS, hookResult).state;
    EnterKeepsPending(s, keys.get, GET_ARGS, hookResult, id);
    EnterKeepsPending(s, keys.get, GET_ARGS, hookResult, other);
    if Enter(s, keys.get, GET_ARGS, hookResult).value == OS_SUCCESS {
      TransferEffect(s1, id, max, other);
    }
  }

  lemma TransferEffect(s: State, id: Key, max: nat, other: Key)
    requires Valid(s) && BuffersOk(s)
    ensures var (s', bytes) := CopyToLocal(s, id, max);
            && Valid(s') && BuffersOk(s')
            && bytes == Delivery(Pending(s, id), max) && Pending(s', id) == Taken(Pending(s, id), max)
            && (other != id ==> Pending(s', other) == Pending(s, other))
  {
    CopyToLocalEffect(s, id, max);
    CopyToLocalKeeps(s, id, max);
    CopyToLocalKeepsMemory(s, id, max);
    if other != id { PendingFrame(s, OpCopyToLocal(id, max), other); }
  }

  // ----- puts -----

  predicate Stores(status: int, source: Option<Address>, size: nat) {
    status == OS_SUCCESS && source.Some? && size > 0
  }

  function Message(s: State, source: Option<Address>, size: nat): seq<bv8>
    requires Readable(s, source, size)
  {
    if source.Some? then s.memory[source.value][..size] else []
  }

  lemma StoreEffect(s: State, id: Key, source: Address, size: nat, block: Address, other: Key) returns (k: nat)
    requires Valid(s) && BuffersOk(s) && Readable(s, Some(source), size) && size > 0 && block !in s.memory
    requires SetBuffer(s, id, Some(source), size, true, block).Done?
    ensures var s' := SetBuffer(s, id, Some(source), size, true, block).state;
            && Valid(s') && BuffersOk(s') && k <= |Pending(s, id)|
            && Pending(s', id) == Pending(s, id)[..k] + [Message(s, Some(source), size)] + Pending(s, id)[k..]
            && (k == |Pending(s, id)| <==> Packed(s.slots, DataBuffer, id))
            && FirstFree(s.slots, id).Some? && k == Ahead(s.slots, DataBuffer, id)
            && (other != id ==> Pending(s', other) == Pending(s, other))
  {
    var op := OpSetBuffer(id, Some(source), size, true, block);
    StepKeepsValid(s, op);
    k := SetBufferEffect(s, op);
    if other != id { PendingFrame(s, op, other); }
  }

  /** A put that stores adds its message, unchanged, to its own queue and to no other; any other put
      changes no queue. The message goes to the end exactly when the queue's chain is packed by then. */
  lemma PutEffect(s: State, keys: Keys, id: Key, source: Option<Address>, size: nat, hookResult: int, block: Address,
                  other: Key)
    returns (k: nat)
    requires Valid(s) && BuffersOk(s) && Readable(s, source, size) && block !in s.memory
    requires QueuePut(s, keys, id, source, size, hookResult, block).Done?
    ensures var s', status := QueuePut(s, keys, id, source, size, hookResult, block).state,
                              QueuePut(s, keys, id, source, size, hookResult, block).value;
            var s1 := Enter(s, keys.put, PUT_ARGS, hookResult).state;
            && Valid(s') && BuffersOk(s') && k <= |Pending(s, id)|
            && (Stores(status, source, size) ==>
                  Pending(s', id) == Pending(s, id)[..k] + [Message(s, source, size)] + Pending(s, id)[k..])
            && (Stores(status, source, size) ==>
                  && (k == |Pending(s, id)| <==> Packed(s1.slots, DataBuffer, id))
                  && FirstFree(s1.slots, id).Some? && k == Ahead(s1.slots, DataBuffer, id))
            && (!Stores(status, source, size) ==> Pending(s', id) == Pending(s, id))
            && (other != id ==> Pending(s', other) == Pending(s, other))
  {
    var s1 := Enter(s, keys.put, PUT_ARGS, hookResult).state;
    EnterKeepsPending(s, keys.put, PUT_ARGS, hookResult, id);
    EnterKeepsPending(s, keys.put, PUT_ARGS, hookResult, other);
    k := 0;
    if Stores(Enter(s, keys.put, PUT_ARGS, hookResult).value, source, size) {
      k := StoreEffect(s1, id, source.value, size, block, other);
    }
  }
}

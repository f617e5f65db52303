/**
What the calls of the queue emulation return, said by what was set for their stubs: the hook, the
deferred and the sticky code, and what is waiting in the queue.
*/
module QueueStatus {
  import opened Options
  import opened StubTable
  import opened StubInvariant
  import opened StubMemory
  import opened StubOrder
  import opened StubCodes
  import opened StubCalls
  import opened StubBuffers
  import opened QueueStubs
  import R = StubReturns

  /** The status that is set for the next call of a stub. */
  function StatusSet(s: State, key: Key, hookResult: int): int {
    if R.HookOf(s, key).Some? then hookResult else Pick(Due(Codes(s, key), 1), Sticky(s, key), 0)
  }

  /** Registering the arguments leaves the settings and the count alone. */
  lemma ArgumentsLeave(s: State, key: Key, args: nat)
    requires Valid(s) && Legal(s, Arguments(key, args))
    ensures var s' := Run(s, Arguments(key, args));
            && Valid(s') && R.HookOf(s', key) == R.HookOf(s, key) && Codes(s', key) == Codes(s, key)
            && Sticky(s', key) == Sticky(s, key) && StubCount(s', key) == StubCount(s, key)
  {
    var ops := Arguments(key, args);
    RunKeepsValid(s, ops);
    RunFrame(s, ops, Hook, key);
    RunFrame(s, ops, DeferredRc, key);
    RunFrame(s, ops, ForceFail, key);
    RunFrame(s, ops, Counter, key);
    StubCountIsView(s, key);
    StubCountIsView(Run(s, ops), key);
  }

  /** Entering a stub gives the status that is set, and counts the call. */
  lemma EnterReturns(s: State, key: Key, args: nat, hookResult: int)
    requires Valid(s) && Enter(s, key, args, hookResult).Done?
    ensures Enter(s, key, args, hookResult).value == StatusSet(s, key, hookResult)
    ensures StubCount(Enter(s, key, args, hookResult).state, key) == Plus1(StubCount(s, key))
  {
    ArgumentsLeave(s, key, args);
    R.CallReturns(Run(s, Arguments(key, args)), key, OS_SUCCESS, hookResult);
    CallCounts(Run(s, Arguments(key, args)), key, OS_SUCCESS, hookResult);
  }

  /** A put returns the status that is set for it. */
  lemma PutReturns(s: State, keys: Keys, id: Key, source: Option<Address>, size: nat, hookResult: int, block: Address)
    requires Valid(s) && Readable(s, source, size) && QueuePut(s, keys, id, source, size, hookResult, block).Done?
    ensures QueuePut(s, keys, id, source, size, hookResult, block).value == StatusSet(s, keys.put, hookResult)
  {
    EnterReturns(s, keys.put, PUT_ARGS, hookResult);
  }

  lemma PendingIsNotEmpty(s: State, id: Key)
    requires Inv(s) && BuffersOk(s) && Pending(s, id) != []
    ensures Pending(s, id)[0] != []
  {
    HeadAmount(s, id);
  }

  /** A get returns the status that is set for it, if that is not success; else success if there is something to
      deliver, and the code for an empty queue if there is not. */
  lemma GetReturns(s: State, keys: Keys, id: Key, max: nat, hookResult: int)
    requires Valid(s) && BuffersOk(s) && QueueGet(s, keys, id, max, hookResult).Done?
    ensures QueueGet(s, keys, id, max, hookResult).value.0 ==
            if StatusSet(s, keys.get, hookResult) != 0 then StatusSet(s, keys.get, hookResult)
            else if Pending(s, id) == [] || max == 0 then -8 else 0
  {
    EnterReturns(s, keys.get, GET_ARGS, hookResult);
    GetEffect(s, keys, id, max, hookResult, id);
    if Pending(s, id) != [] { PendingIsNotEmpty(s, id); }
  }
}

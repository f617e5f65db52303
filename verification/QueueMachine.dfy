/**
OS_QueuePut and OS_QueueGet as they run on the table in place: each registers its arguments one
by one, makes the default call, and then moves a message into or out of the table.
*/
module QueueMachine {
  import opened Options
  import opened StubTable
  import opened StubInvariant
  import opened StubMemory
  import opened StubMachine
  import opened QueueStubs

  /** The registration of a stub's arguments, in order; false when the table is full. */
  method RegisterAll(m: Machine, ops: seq<Op>) returns (ok: bool)
    requires m.Ok() && forall op | op in ops :: op.OpRegisterContext?
    modifies m, m.slots
    ensures ok <==> Legal(old(m.Now()), ops)
    ensures ok ==> m.Ok() && m.Now() == Run(old(m.Now()), ops)
    decreases |ops|
  {
    if ops == [] {
      return true;
    }
    MemInvBuffers(m.Now());
    assert ops[0].OpRegisterContext?;
    ok := Perform(m, ops[0]);
    if ok {
      ok := RegisterAll(m, ops[1..]);
    }
  }

  method EnterStub(m: Machine, key: Key, args: nat, hookResult: int) returns (ok: bool, status: int)
    requires m.Ok()
    modifies m, m.slots
    ensures ok <==> Enter(old(m.Now()), key, args, hookResult).Done?
    ensures ok ==> m.Ok() && Enter(old(m.Now()), key, args, hookResult) == Done(m.Now(), status)
  {
    status := OS_SUCCESS;
    ok := RegisterAll(m, Arguments(key, args));
    if ok {
      ok, status := m.DefaultStubImpl(key, OS_SUCCESS, hookResult);
    }
  }

  method OSQueuePut(m: Machine, keys: Keys, id: Key, source: Option<Address>, size: nat, hookResult: int,
                    block: Address)
    returns (ok: bool, status: int)
    requires m.Ok() && Readable(m.Now(), source, size) && block !in m.memory
    modifies m, m.slots
    ensures ok <==> QueuePut(old(m.Now()), keys, id, source, size, hookResult, block).Done?
    ensures ok ==> m.Ok() && QueuePut(old(m.Now()), keys, id, source, size, hookResult, block) == Done(m.Now(), status)
  {
    ghost var s := m.Now();
    ok, status := EnterStub(m, keys.put, PUT_ARGS, hookResult);
    if ok && status == OS_SUCCESS {
      EnterReadable(s, keys.put, PUT_ARGS, hookResult, source, size);
      EnterEffect(s, keys.put, PUT_ARGS, hookResult, DataBuffer, id);
      ok := m.SetDataBuffer(id, source, size, true, block);
    }
  }

  method OSQueueGet(m: Machine, keys: Keys, id: Key, max: nat, hookResult: int)
    returns (ok: bool, status: int, bytes: seq<bv8>)
    requires m.Ok()
    modifies m, m.slots
    ensures ok <==> QueueGet(old(m.Now()), keys, id, max, hookResult).Done?
    ensures ok ==> m.Ok() && QueueGet(old(m.Now()), keys, id, max, hookResult) == Done(m.Now(), (status, bytes))
  {
    ghost var s := m.Now();
    bytes := [];
    ok, status := EnterStub(m, keys.get, GET_ARGS, hookResult);
    if ok && status == OS_SUCCESS {
      EnterBuffersOk(s, keys.get, GET_ARGS, hookResult);
      bytes := m.StubCopyToLocal(id, max);
      if |bytes| == 0 {
        status := OS_QUEUE_EMPTY;
      }
    }
  }
}

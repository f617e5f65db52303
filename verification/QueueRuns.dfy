/**
Whole runs of the queue emulation: every message put is got once or still waiting, whatever the
interleaving.
*/
module QueueRuns {
  import opened Options
  import opened StubTable
  import opened StubInvariant
  import opened StubMemory
  import opened StubOrder
  import opened StubEffects
  import opened StubAdditions
  import opened StubCodes
  import opened StubBuffers
  import opened StubConservation
  import opened QueueStubs

  datatype QOp =
    | Put(id: Key, source: Option<Address>, size: nat, hookResult: int, block: Address)
    | Get(id: Key, max: nat, hookResult: int)
    | Other(op: Op)

  predicate QEnabled(s: State, op: QOp) {
    match op
    case Put(id, source, size, hookResult, block) => Readable(s, source, size) && block !in s.memory
    case Get(id, max, hookResult) => true
    case Other(o) => Enabled(s, o)
  }

  /** One queue operation, or anything else that a test may do with the table and with memory of its
      own; None when the test is aborted. */
  function QStep(s: State, keys: Keys, op: QOp): Option<State>
    requires Valid(s) && QEnabled(s, op)
  {
    match op
    case Put(id, source, size, hookResult, block) => StateOf(QueuePut(s, keys, id, source, size, hookResult, block))
    case Get(id, max, hookResult) => StateOf(QueueGet(s, keys, id, max, hookResult))
    case Other(o) => MemInvBuffers(s); Step(s, o)
  }

  function Got(r: Outcome<(int, seq<bv8>)>): seq<seq<bv8>> {
    if r.Done? && r.value.0 == OS_SUCCESS then [r.value.1] else []
  }

  function Accepted(r: Outcome<int>, s: State, source: Option<Address>, size: nat): seq<seq<bv8>>
    requires Readable(s, source, size)
  {
    if r.Done? && Stores(r.value, source, size) then [Message(s, source, size)] else []
  }

  /** The message an operation puts on a queue. */
  function PutBy(s: State, keys: Keys, op: QOp, id: Key): seq<seq<bv8>>
    requires Valid(s) && QEnabled(s, op)
  {
    if op.Put? && op.id == id
    then Accepted(QueuePut(s, keys, id, op.source, op.size, op.hookResult, op.block), s, op.source, op.size) else []
  }

  /** The message an operation gets from a queue. */
  function GotBy(s: State, keys: Keys, op: QOp, id: Key): seq<seq<bv8>>
    requires Valid(s)
  {
    if op.Get? && op.id == id then Got(QueueGet(s, keys, id, op.max, op.hookResult)) else []
  }

  /** A get asks for at least the length of the message it would be given. */
  predicate Roomy(s: State, op: QOp)
    requires BuffersOk(s)
  {
    op.Get? && Pending(s, op.id) != [] ==> op.max >= |Pending(s, op.id)[0]|
  }

  predicate AllOwned(v: seq<Entry>) {
    forall j | 0 <= j < |v| :: v[j].allocFlag
  }

  /** Every buffer of the queue is a copy that the table owns. */
  predicate Private(s: State, id: Key) {
    AllOwned(View(s.slots, DataBuffer, id))
  }

  /** The operation is not about the buffers of the queue. */
  predicate Apart(op: QOp, id: Key) {
    op.Other? ==> !Concerns(op.op, DataBuffer, id)
  }

  lemma PrivateIsSpared(s: State, id: Key, op: Op)
    requires Valid(s) && BuffersOk(s) && Private(s, id) && Enabled(s, op) && !Concerns(op, DataBuffer, id)
    ensures Spares(s, op, id)
  {
    if WrittenTo(s, op).Some? {
      forall j | 0 <= j < SLOTS && Holds(s.slots[j], DataBuffer, id)
        ensures s.slots[j].data.Buff? && s.slots[j].data.base != WrittenTo(s, op).value
      {
        assert SlotOwnership(s, j);
        InView(s.slots, DataBuffer, id, j);
        FreeIsLegal(s, j);
        if op.OpCopyFromLocal? { FindHolds(s, DataBuffer, op.key); }
      }
    }
  }

  lemma InView(t: Table, kind: Kind, key: Key, i: nat)
    requires i < SLOTS && Holds(t[i], kind, key)
    ensures exists j :: 0 <= j < |View(t, kind, key)| && View(t, kind, key)[j] == t[i]
  {
    var c := Live(t, kind, key);
    ChainIsComplete(t, key, kind, key, 0, |t|, Distance(key, i));
    var j :| 0 <= j < |c| && c[j] == Distance(key, i);
    assert View(t, kind, key)[j] == t[i];
  }

  lemma OtherEffect(s: State, op: Op, id: Key)
    requires Valid(s) && BuffersOk(s) && Private(s, id) && Enabled(s, op) && !Concerns(op, DataBuffer, id)
    requires Step(s, op).Some?
    ensures var s' := Step(s, op).value;
            Valid(s') && BuffersOk(s') && Private(s', id) && Pending(s', id) == Pending(s, id)
  {
    PrivateIsSpared(s, id, op);
    StepKeepsValid(s, op);
    PendingFrame(s, op, id);
    StepFrame(s, op, DataBuffer, id);
  }

  predicate QLegal(s: State, keys: Keys, ops: seq<QOp>)
    decreases |ops|
  {
    ops == [] ||
    (Valid(s) && QEnabled(s, ops[0]) && QStep(s, keys, ops[0]).Some?
     && QLegal(QStep(s, keys, ops[0]).value, keys, ops[1..]))
  }

  function QRun(s: State, keys: Keys, ops: seq<QOp>): State
    requires QLegal(s, keys, ops)
    decreases |ops|
  {
    if ops == [] then s else QRun(QStep(s, keys, ops[0]).value, keys, ops[1..])
  }

  /** The messages a run puts on a queue, in order. */
  function AllPut(s: State, keys: Keys, ops: seq<QOp>, id: Key): seq<seq<bv8>>
    requires QLegal(s, keys, ops)
    decreases |ops|
  {
    if ops == [] then []
    else PutBy(s, keys, ops[0], id) + AllPut(QStep(s, keys, ops[0]).value, keys, ops[1..], id)
  }

  /** The messages a run gets from a queue, in order. */
  function AllGot(s: State, keys: Keys, ops: seq<QOp>, id: Key): seq<seq<bv8>>
    requires QLegal(s, keys, ops)
    decreases |ops|
  {
    if ops == [] then []
    else GotBy(s, keys, ops[0], id) + AllGot(QStep(s, keys, ops[0]).value, keys, ops[1..], id)
  }

  /** Every get of the run asks for enough. */
  predicate AllRoomy(s: State, keys: Keys, ops: seq<QOp>)
    requires QLegal(s, keys, ops)
    decreases |ops|
  {
    ops == [] ||
    (BuffersOk(s) && Roomy(s, ops[0]) && AllRoomy(QStep(s, keys, ops[0]).value, keys, ops[1..]))
  }

  // ----- one step -----

  /** Every waiting message has at least one byte. */
  lemma WaitingIsNotEmpty(s: State, id: Key)
    requires Valid(s) && BuffersOk(s) && Pending(s, id) != []
    ensures Pending(s, id)[0] != []
  {
    HeadAmount(s, id);
  }

  lemma WholeMessage(p: seq<seq<bv8>>, max: nat)
    requires p != [] ==> p[0] != [] && max >= |p[0]|
    ensures (if Delivery(p, max) != [] then [Delivery(p, max)] else []) + Taken(p, max) == p
  {
    if p != [] { assert Delivery(p, max) == p[0]; }
  }

  lemma GetOwn(s: State, keys: Keys, id: Key, max: nat, hookResult: int)
    requires Valid(s) && BuffersOk(s) && QueueGet(s, keys, id, max, hookResult).Done?
    requires Pending(s, id) != [] ==> max >= |Pending(s, id)[0]|
    ensures var r := QueueGet(s, keys, id, max, hookResult);
            BuffersOk(r.state) && Got(r) + Pending(r.state, id) == Pending(s, id)
  {
    GetEffect(s, keys, id, max, hookResult, id);
    if Pending(s, id) != [] { WaitingIsNotEmpty(s, id); }
    WholeMessage(Pending(s, id), max);
  }

  lemma PutOwn(s: State, keys: Keys, id: Key, source: Option<Address>, size: nat, hookResult: int,
               block: Address) returns (k: nat)
    requires Valid(s) && BuffersOk(s) && Readable(s, source, size) && block !in s.memory
    requires QueuePut(s, keys, id, source, size, hookResult, block).Done?
    ensures var r := QueuePut(s, keys, id, source, size, hookResult, block);
            && BuffersOk(r.state) && k <= |Pending(s, id)|
            && Pending(r.state, id) == Pending(s, id)[..k] + Accepted(r, s, source, size) + Pending(s, id)[k..]
  {
    k := PutEffect(s, keys, id, source, size, hookResult, block, id);
    InsertNothing(Pending(s, id), k);
  }

  lemma InsertNothing(p: seq<seq<bv8>>, k: nat)
    requires k <= |p|
    ensures p[..k] + [] + p[k..] == p
  {
  }

  lemma OwnedInsert(v: seq<Entry>, k: nat, e: Entry)
    requires k <= |v| && AllOwned(v) && e.allocFlag
    ensures AllOwned(v[..k] + [e] + v[k..])
  {
  }

  lemma AddStaysPrivate(s: State, op: Op)
    requires Valid(s) && BuffersOk(s) && op.OpSetBuffer? && op.copy && Enabled(s, op) && Step(s, op).Some?
    requires Added(op).Some? && Private(s, op.key)
    ensures Private(Step(s, op).value, op.key)
  {
    var k := AddedView(s, op);
    OwnedInsert(View(s.slots, DataBuffer, op.key), k, Added(op).value);
  }

  /** The memory a queue uses is its own, so callers cannot reach into it: kept by puts and gets. */
  lemma PutStaysPrivate(s: State, op: Op, other: Key)
    requires Valid(s) && BuffersOk(s) && op.OpSetBuffer? && op.copy && Enabled(s, op) && Step(s, op).Some?
    requires Private(s, other)
    ensures Private(Step(s, op).value, other)
  {
    if other != op.key {
      StepFrame(s, op, DataBuffer, other);
    } else if Added(op).Some? {
      AddStaysPrivate(s, op);
    }
  }

  lemma OwnedTail(v: seq<Entry>, e: Entry)
    requires v != [] && AllOwned(v)
    ensures AllOwned(v[1..]) && (e.allocFlag ==> AllOwned([e] + v[1..]))
  {
  }

  lemma DrainStaysPrivate(s: State, id: Key, max: nat)
    requires Valid(s) && BuffersOk(s) && Private(s, id) && View(s.slots, DataBuffer, id) != []
    requires |Pending(s, id)[0]| <= max
    ensures Private(CopyToLocal(s, id, max).0, id)
  {
    var v := View(s.slots, DataBuffer, id);
    CopiesAll(s, id, max);
    ViewOfClearedHead(s.slots, DataBuffer, id);
    OwnedTail(v, v[0]);
  }

  lemma SipStaysPrivate(s: State, id: Key, max: nat)
    requires Valid(s) && BuffersOk(s) && Private(s, id) && View(s.slots, DataBuffer, id) != []
    requires |Pending(s, id)[0]| > max
    ensures Private(CopyToLocal(s, id, max).0, id)
  {
    var v := View(s.slots, DataBuffer, id);
    CopiesSome(s, id, max);
    FoundBuffer(s, id);
    ViewOfRewrittenHead(s.slots, DataBuffer, id, Moved(v[0], max));
    OwnedTail(v, Moved(v[0], max));
  }

  lemma GetStaysPrivate(s: State, op: Op, other: Key)
    requires Valid(s) && BuffersOk(s) && Private(s, other) && op.OpCopyToLocal?
    ensures Private(CopyToLocal(s, op.key, op.max).0, other)
  {
    if other != op.key {
      StepFrame(s, op, DataBuffer, other);
    } else if View(s.slots, DataBuffer, other) == [] {
      NothingPending(s, other, op.max);
    } else {
      if |Pending(s, other)[0]| <= op.max {
        DrainStaysPrivate(s, other, op.max);
      } else {
        SipStaysPrivate(s, other, op.max);
      }
    }
  }

  lemma PutKeepsPrivate(s: State, keys: Keys, id: Key, source: Option<Address>, size: nat, hookResult: int,
                        block: Address, other: Key)
    requires Valid(s) && BuffersOk(s) && Readable(s, source, size) && block !in s.memory && Private(s, other)
    requires QueuePut(s, keys, id, source, size, hookResult, block).Done?
    ensures Private(QueuePut(s, keys, id, source, size, hookResult, block).state, other)
  {
    EnterEffect(s, keys.put, PUT_ARGS, hookResult, DataBuffer, other);
    EnterBuffersOk(s, keys.put, PUT_ARGS, hookResult);
    if Enter(s, keys.put, PUT_ARGS, hookResult).value == OS_SUCCESS {
      PutStaysPrivate(Enter(s, keys.put, PUT_ARGS, hookResult).state, OpSetBuffer(id, source, size, true, block),
                      other);
    }
  }

  lemma GetKeepsPrivate(s: State, keys: Keys, id: Key, max: nat, hookResult: int, other: Key)
    requires Valid(s) && BuffersOk(s) && Private(s, other) && QueueGet(s, keys, id, max, hookResult).Done?
    ensures Private(QueueGet(s, keys, id, max, hookResult).state, other)
  {
    EnterEffect(s, keys.get, GET_ARGS, hookResult, DataBuffer, other);
    EnterBuffersOk(s, keys.get, GET_ARGS, hookResult);
    if Enter(s, keys.get, GET_ARGS, hookResult).value == OS_SUCCESS {
      GetStaysPrivate(Enter(s, keys.get, GET_ARGS, hookResult).state, OpCopyToLocal(id, max), other);
    }
  }

  predicate QInv(s: State, id: Key) {
    Valid(s) && BuffersOk(s) && Private(s, id)
  }

  lemma QStepKeeps(s: State, keys: Keys, op: QOp, id: Key)
    requires QInv(s, id) && QEnabled(s, op) && QStep(s, keys, op).Some? && Apart(op, id)
    ensures QInv(QStep(s, keys, op).value, id)
  {
    match op
    case Put(q, source, size, hookResult, block) =>
      var k := PutEffect(s, keys, q, source, size, hookResult, block, id);
      PutKeepsPrivate(s, keys, q, source, size, hookResult, block, id);
    case Get(q, max, hookResult) =>
      GetEffect(s, keys, q, max, hookResult, id);
      GetKeepsPrivate(s, keys, q, max, hookResult, id);
    case Other(o) =>
      OtherEffect(s, o, id);
  }

  // ----- bags -----

  lemma BagInsert<T>(p: seq<T>, k: nat, m: seq<T>)
    requires k <= |p|
    ensures multiset(p[..k] + m + p[k..]) == multiset(p) + multiset(m)
  {
    assert p == p[..k] + p[k..];
  }

  lemma BagSplit<T>(d: seq<T>, p: seq<T>, q: seq<T>)
    requires d + p == q
    ensures multiset(d) + multiset(p) == multiset(q)
  {
  }

  ghost predicate Balanced<T>(got: seq<T>, after: seq<T>, before: seq<T>, put: seq<T>) {
    multiset(got) + multiset(after) == multiset(before) + multiset(put)
  }

  lemma BalancedPut<T>(before: seq<T>, k: nat, put: seq<T>, after: seq<T>)
    requires k <= |before| && after == before[..k] + put + before[k..]
    ensures Balanced([], after, before, put)
  {
    BagInsert(before, k, put);
  }

  lemma BalancedGet<T>(got: seq<T>, before: seq<T>, after: seq<T>)
    requires got + after == before
    ensures Balanced(got, after, before, [])
  {
    BagSplit(got, after, before);
  }

  lemma PutBalances(s: State, keys: Keys, op: QOp, id: Key)
    requires QInv(s, id) && QEnabled(s, op) && QStep(s, keys, op).Some? && op.Put?
             && BuffersOk(QStep(s, keys, op).value)
    ensures Balanced([], Pending(QStep(s, keys, op).value, id), Pending(s, id), PutBy(s, keys, op, id))
  {
    if op.id == id {
      var k := PutOwn(s, keys, id, op.source, op.size, op.hookResult, op.block);
      BalancedPut(Pending(s, id), k, PutBy(s, keys, op, id), Pending(QStep(s, keys, op).value, id));
    } else {
      var k := PutEffect(s, keys, op.id, op.source, op.size, op.hookResult, op.block, id);
    }
  }

  lemma GetBalances(s: State, keys: Keys, op: QOp, id: Key)
    requires QInv(s, id) && QEnabled(s, op) && QStep(s, keys, op).Some? && op.Get? && Roomy(s, op)
    requires BuffersOk(QStep(s, keys, op).value)
    ensures GotBy(s, keys, op, id) + Pending(QStep(s, keys, op).value, id) == Pending(s, id)
  {
    if op.id == id {
      GetOwn(s, keys, id, op.max, op.hookResult);
    } else {
      GetEffect(s, keys, op.id, op.max, op.hookResult, id);
    }
  }

  lemma QStepBalances(s: State, keys: Keys, op: QOp, id: Key)
    requires QInv(s, id) && QEnabled(s, op) && QStep(s, keys, op).Some? && Roomy(s, op) && Apart(op, id)
    ensures QInv(QStep(s, keys, op).value, id)
    ensures Balanced(GotBy(s, keys, op, id), Pending(QStep(s, keys, op).value, id), Pending(s, id),
                     PutBy(s, keys, op, id))
  {
    QStepKeeps(s, keys, op, id);
    if op.Put? {
      PutBalances(s, keys, op, id);
    } else if op.Get? {
      GetBalances(s, keys, op, id);
      BalancedGet(GotBy(s, keys, op, id), Pending(s, id), Pending(QStep(s, keys, op).value, id));
    } else {
      OtherEffect(s, op.op, id);
    }
  }

  predicate AllApart(ops: seq<QOp>, id: Key) {
    forall op | op in ops :: Apart(op, id)
  }

  /** Whatever the interleaving of puts and gets, on this queue and others, and of anything else that is
      not about the buffers of this queue: every message put on the queue is got exactly once,
      unchanged, or is still waiting. */
  lemma {:induction false} QueueIsABag(s: State, keys: Keys, ops: seq<QOp>, id: Key)
    requires QInv(s, id) && QLegal(s, keys, ops) && AllRoomy(s, keys, ops) && AllApart(ops, id)
    ensures QInv(QRun(s, keys, ops), id)
    ensures Balanced(AllGot(s, keys, ops, id), Pending(QRun(s, keys, ops), id), Pending(s, id),
                     AllPut(s, keys, ops, id))
    decreases |ops|
  {
    if ops != [] {
      var s' := QStep(s, keys, ops[0]).value;
      assert Apart(ops[0], id);
      QStepBalances(s, keys, ops[0], id);
      QueueIsABag(s', keys, ops[1..], id);
      BagChain(GotBy(s, keys, ops[0], id), AllGot(s', keys, ops[1..], id), Pending(s, id), Pending(s', id),
               Pending(QRun(s', keys, ops[1..]), id), PutBy(s, keys, ops[0], id), AllPut(s', keys, ops[1..], id));
    }
  }
}

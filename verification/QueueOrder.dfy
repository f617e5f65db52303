/**
The order of a queue's messages. Over any run they come out in the order they were put exactly when
every put finds the chain of its queue without a hole; examples show the two ways in which it does not.
*/
module QueueOrder {
  import opened Options
  import opened StubTable
  import opened StubInvariant
  import opened StubMemory
  import opened StubOrder
  import opened StubEffects
  import opened StubAdditions
  import opened StubCalls
  import opened StubCodes
  import opened StubBuffers
  import opened QueueStubs
  import opened QueueRuns

  // ----- the order of a run -----

  /** A put that stores finds the chain of its queue without a hole once the stub is entered. */
  predicate PutIsLast(s: State, keys: Keys, op: QOp, id: Key)
    requires Valid(s) && QEnabled(s, op)
  {
    PutBy(s, keys, op, id) != [] ==> Packed(Enter(s, keys.put, PUT_ARGS, op.hookResult).state.slots, DataBuffer, id)
  }

  predicate AllLast(s: State, keys: Keys, ops: seq<QOp>, id: Key)
    requires QLegal(s, keys, ops)
    decreases |ops|
  {
    ops == [] || (PutIsLast(s, keys, ops[0], id) && AllLast(QStep(s, keys, ops[0]).value, keys, ops[1..], id))
  }

  /** The messages of a queue in the order in which they come out: those got, then those waiting. */
  function Out(s: State, keys: Keys, ops: seq<QOp>, id: Key): seq<seq<bv8>>
    requires QLegal(s, keys, ops) && BuffersOk(QRun(s, keys, ops))
  {
    AllGot(s, keys, ops, id) + Pending(QRun(s, keys, ops), id)
  }

  predicate Different<T(==)>(q: seq<T>) {
    forall i, j | 0 <= i < j < |q| :: q[i] != q[j]
  }

  predicate Before<T(==)>(q: seq<T>, x: T, y: T) {
    exists i, j :: 0 <= i < j < |q| && q[i] == x && q[j] == y
  }

  lemma BeforeInsert<T>(q: seq<T>, k: nat, m: seq<T>, x: T, y: T)
    requires k <= |q| && Before(q, x, y)
    ensures Before(q[..k] + m + q[k..], x, y)
  {
    var r := q[..k] + m + q[k..];
    var i, j :| 0 <= i < j < |q| && q[i] == x && q[j] == y;
    var i', j' := if i < k then i else i + |m|, if j < k then j else j + |m|;
    assert r[i'] == x && r[j'] == y;
  }

  lemma BeforePrefix<T>(g: seq<T>, q: seq<T>, x: T, y: T)
    requires Before(q, x, y)
    ensures Before(g + q, x, y)
  {
    var i, j :| 0 <= i < j < |q| && q[i] == x && q[j] == y;
    assert (g + q)[|g| + i] == x && (g + q)[|g| + j] == y;
  }

  lemma BeforeAcross<T>(g: seq<T>, q: seq<T>, x: T, y: T)
    requires x in g && y in q
    ensures Before(g + q, x, y)
  {
    var i, j :| 0 <= i < |g| && 0 <= j < |q| && g[i] == x && q[j] == y;
    assert (g + q)[i] == x && (g + q)[|g| + j] == y;
  }

  lemma OneWay<T>(q: seq<T>, x: T, y: T)
    requires Different(q) && Before(q, x, y)
    ensures !Before(q, y, x)
  {
    var i, j :| 0 <= i < j < |q| && q[i] == x && q[j] == y;
    assert forall k | 0 <= k < |q| && q[k] == x :: k == i;
    assert forall k | 0 <= k < |q| && q[k] == y :: k == j;
  }

  lemma InsertNothing<T>(q: seq<T>, k: nat)
    requires k <= |q|
    ensures q[..k] + [] + q[k..] == q
  {
  }

  /** What a step does to the messages of a queue: those got leave at the front, and one put joins at k. */
  predicate Inserts(before: seq<seq<bv8>>, got: seq<seq<bv8>>, after: seq<seq<bv8>>, put: seq<seq<bv8>>, k: nat) {
    && k <= |before| && got + after == before[..k] + put + before[k..]
    && |got| <= 1 && |put| <= 1 && (put != [] ==> got == [])
  }

  lemma InsertsFront(before: seq<seq<bv8>>, got: seq<seq<bv8>>, after: seq<seq<bv8>>)
    requires got + after == before && |got| <= 1
    ensures Inserts(before, got, after, [], 0)
  {
    InsertNothing(before, 0);
  }

  predicate PutsOn(op: QOp, id: Key) {
    op.Put? && op.id == id
  }

  lemma OwnPutInserts(s: State, keys: Keys, op: QOp, id: Key) returns (k: nat)
    requires QInv(s, id) && QEnabled(s, op) && QStep(s, keys, op).Some? && PutsOn(op, id)
    requires BuffersOk(QStep(s, keys, op).value)
    ensures Inserts(Pending(s, id), [], Pending(QStep(s, keys, op).value, id), PutBy(s, keys, op, id), k)
    ensures PutBy(s, keys, op, id) != [] ==> (k == |Pending(s, id)| <==> PutIsLast(s, keys, op, id))
  {
    k := PutEffect(s, keys, id, op.source, op.size, op.hookResult, op.block, id);
    if PutBy(s, keys, op, id) == [] { InsertNothing(Pending(s, id), k); }
  }

  lemma OtherInserts(s: State, keys: Keys, op: QOp, id: Key)
    requires QInv(s, id) && QEnabled(s, op) && QStep(s, keys, op).Some? && Roomy(s, op) && Apart(op, id)
    requires !PutsOn(op, id)
    requires BuffersOk(QStep(s, keys, op).value)
    ensures PutBy(s, keys, op, id) == []
    ensures Inserts(Pending(s, id), GotBy(s, keys, op, id), Pending(QStep(s, keys, op).value, id), [], 0)
  {
    var s' := QStep(s, keys, op).value;
    match op {
      case Put(q, source, size, hookResult, block) =>
        var k := PutEffect(s, keys, q, source, size, hookResult, block, id);
      case Get(q, max, hookResult) =>
        GetBalances(s, keys, op, id);
      case Other(o) =>
        OtherEffect(s, o, id);
    }
    InsertsFront(Pending(s, id), GotBy(s, keys, op, id), Pending(s', id));
  }

  /** One step: a put joins last exactly when the chain of its queue has no hole. */
  lemma StepInserts(s: State, keys: Keys, op: QOp, id: Key) returns (k: nat)
    requires QInv(s, id) && QEnabled(s, op) && QStep(s, keys, op).Some? && Roomy(s, op) && Apart(op, id)
    ensures QInv(QStep(s, keys, op).value, id)
    ensures Inserts(Pending(s, id), GotBy(s, keys, op, id), Pending(QStep(s, keys, op).value, id),
                    PutBy(s, keys, op, id), k)
    ensures PutBy(s, keys, op, id) != [] ==> (k == |Pending(s, id)| <==> PutIsLast(s, keys, op, id))
  {
    QStepKeeps(s, keys, op, id);
    if PutsOn(op, id) {
      k := OwnPutInserts(s, keys, op, id);
    } else {
      k := 0;
      OtherInserts(s, keys, op, id);
    }
  }

  lemma RunKeeps(s: State, keys: Keys, ops: seq<QOp>, id: Key)
    requires QInv(s, id) && QLegal(s, keys, ops) && AllRoomy(s, keys, ops) && AllApart(ops, id)
    ensures QInv(QRun(s, keys, ops), id)
  {
    QueueIsABag(s, keys, ops, id);
  }

  lemma NextApart(ops: seq<QOp>, id: Key)
    requires ops != [] && AllApart(ops, id)
    ensures Apart(ops[0], id) && AllApart(ops[1..], id)
  {
  }

  lemma OutStep(s: State, keys: Keys, ops: seq<QOp>, id: Key)
    requires QLegal(s, keys, ops) && BuffersOk(QRun(s, keys, ops)) && ops != []
    ensures Out(s, keys, ops, id) == GotBy(s, keys, ops[0], id) + Out(QStep(s, keys, ops[0]).value, keys, ops[1..], id)
  {
    var s' := QStep(s, keys, ops[0]).value;
    Assoc(GotBy(s, keys, ops[0], id), AllGot(s', keys, ops[1..], id), Pending(QRun(s', keys, ops[1..]), id));
  }

  lemma StillThere(s: State, keys: Keys, ops: seq<QOp>, id: Key, x: seq<bv8>)
    requires QInv(s, id) && QLegal(s, keys, ops) && AllRoomy(s, keys, ops) && AllApart(ops, id) && x in Pending(s, id)
    ensures QInv(QRun(s, keys, ops), id) && x in Out(s, keys, ops, id)
  {
    QueueIsABag(s, keys, ops, id);
    InBag(AllGot(s, keys, ops, id), Pending(QRun(s, keys, ops), id), Pending(s, id), AllPut(s, keys, ops, id), x);
  }

  lemma InBag<T>(got: seq<T>, after: seq<T>, before: seq<T>, put: seq<T>, x: T)
    requires Balanced(got, after, before, put) && x in before
    ensures x in got + after
  {
    assert x in multiset(before) + multiset(put);
    assert x in multiset(got) + multiset(after);
  }

  /** Two waiting messages come out in the order in which they wait. */
  lemma {:induction false} OrderIsKept(s: State, keys: Keys, ops: seq<QOp>, id: Key, x: seq<bv8>, y: seq<bv8>)
    requires QInv(s, id) && QLegal(s, keys, ops) && AllRoomy(s, keys, ops) && AllApart(ops, id)
    requires Before(Pending(s, id), x, y)
    ensures QInv(QRun(s, keys, ops), id) && Before(Out(s, keys, ops, id), x, y)
    decreases |ops|, 0
  {
    RunKeeps(s, keys, ops, id);
    if ops == [] {
      BeforePrefix([], Pending(s, id), x, y);
    } else {
      NextApart(ops, id);
      var k := StepInserts(s, keys, ops[0], id);
      var s', g := QStep(s, keys, ops[0]).value, GotBy(s, keys, ops[0], id);
      BeforeInsert(Pending(s, id), k, PutBy(s, keys, ops[0], id), x, y);
      OutStep(s, keys, ops, id);
      OrderPastFront(s', keys, ops[1..], id, g, x, y);
    }
  }

  lemma BeforeParts<T>(g: seq<T>, p: seq<T>, x: T, y: T)
    requires |g| <= 1 && Before(g + p, x, y)
    ensures y in p && (Before(p, x, y) || x in g)
  {
    var q := g + p;
    var i, j :| 0 <= i < j < |q| && q[i] == x && q[j] == y;
    assert p[j - |g|] == y;
    if i >= |g| { assert p[i - |g|] == x; }
  }

  lemma BeforeOnward<T>(g: seq<T>, p: seq<T>, out: seq<T>, x: T, y: T)
    requires |g| <= 1 && Before(g + p, x, y) && (y in p ==> y in out) && (Before(p, x, y) ==> Before(out, x, y))
    ensures Before(g + out, x, y)
  {
    BeforeParts(g, p, x, y);
    if Before(p, x, y) { BeforePrefix(g, out, x, y); } else { BeforeAcross(g, out, x, y); }
  }

  lemma {:induction false} OrderPastFront(s: State, keys: Keys, ops: seq<QOp>, id: Key, g: seq<seq<bv8>>,
                                          x: seq<bv8>, y: seq<bv8>)
    requires QInv(s, id) && QLegal(s, keys, ops) && AllRoomy(s, keys, ops) && AllApart(ops, id)
    requires |g| <= 1 && Before(g + Pending(s, id), x, y)
    ensures QInv(QRun(s, keys, ops), id) && Before(g + Out(s, keys, ops, id), x, y)
    decreases |ops|, 1
  {
    var p := Pending(s, id);
    BeforeParts(g, p, x, y);
    StillThere(s, keys, ops, id, y);
    if Before(p, x, y) { OrderIsKept(s, keys, ops, id, x, y); }
    BeforeOnward(g, p, Out(s, keys, ops, id), x, y);
  }

  /** A message that joins before the end stays before those that it has overtaken. */
  lemma OvertakingShows(s: State, keys: Keys, ops: seq<QOp>, id: Key, p: seq<seq<bv8>>, k: nat, m: seq<bv8>,
                        later: seq<seq<bv8>>)
    requires QInv(s, id) && QLegal(s, keys, ops) && AllRoomy(s, keys, ops) && AllApart(ops, id)
    requires k < |p| && Pending(s, id) == p[..k] + [m] + p[k..] && Different(p + ([m] + later))
    ensures QInv(QRun(s, keys, ops), id) && Out(s, keys, ops, id) != p + ([m] + later)
  {
    var q := Pending(s, id);
    assert q[k] == m && q[k + 1] == p[k];
    assert Before(q, m, p[k]);
    OrderIsKept(s, keys, ops, id, m, p[k]);
    var r := p + ([m] + later);
    assert r[k] == p[k] && r[|p|] == m;
    assert Before(r, p[k], m);
    OneWay(r, p[k], m);
  }

  lemma Cancel<T>(g: seq<T>, a: seq<T>, b: seq<T>)
    ensures g + a == g + b <==> a == b
  {
    if g + a == g + b { assert (g + a)[|g|..] == a && (g + b)[|g|..] == b; }
  }

  lemma Assoc<T>(a: seq<T>, b: seq<T>, c: seq<T>)
    ensures (a + b) + c == a + (b + c)
  {
  }

  lemma DifferentTail<T>(g: seq<T>, q: seq<T>)
    requires Different(g + q)
    ensures Different(q)
  {
    forall i, j | 0 <= i < j < |q| ensures q[i] != q[j] {
      assert (g + q)[|g| + i] == q[i] && (g + q)[|g| + j] == q[j];
    }
  }

  lemma InsertLast<T>(p: seq<T>, k: nat, m: seq<T>)
    requires k == |p|
    ensures p[..k] + m + p[k..] == p + m
  {
  }

  /** A step that inserts last, seen from the whole. */
  lemma LastStep(p: seq<seq<bv8>>, g: seq<seq<bv8>>, p': seq<seq<bv8>>, m: seq<seq<bv8>>, k: nat, puts: seq<seq<bv8>>)
    requires Inserts(p, g, p', m, k) && (m != [] ==> k == |p|)
    ensures p + (m + puts) == g + (p' + puts)
  {
    if m == [] { InsertNothing(p, k); } else { InsertLast(p, k, m); }
    Assoc(g, p', puts);
    Assoc(p, m, puts);
    assert p + m == g + p';
  }

  /** Without holes, everything comes out in the order in which it waited and was put. */
  lemma {:induction false} FifoIfPacked(s: State, keys: Keys, ops: seq<QOp>, id: Key)
    requires QInv(s, id) && QLegal(s, keys, ops) && AllRoomy(s, keys, ops) && AllApart(ops, id)
    requires AllLast(s, keys, ops, id)
    ensures QInv(QRun(s, keys, ops), id) && Out(s, keys, ops, id) == Pending(s, id) + AllPut(s, keys, ops, id)
    decreases |ops|
  {
    if ops == [] {
      assert [] + Pending(s, id) == Pending(s, id) + [];
    } else {
      NextApart(ops, id);
      var k := StepInserts(s, keys, ops[0], id);
      var s' := QStep(s, keys, ops[0]).value;
      FifoIfPacked(s', keys, ops[1..], id);
      OutStep(s, keys, ops, id);
      LastStep(Pending(s, id), GotBy(s, keys, ops[0], id), Pending(s', id), PutBy(s, keys, ops[0], id), k,
               AllPut(s', keys, ops[1..], id));
    }
  }

  lemma {:induction false} FifoStep(s: State, keys: Keys, ops: seq<QOp>, id: Key, p: seq<seq<bv8>>, g: seq<seq<bv8>>,
                                    m: seq<seq<bv8>>, k: nat)
    requires QInv(s, id) && QLegal(s, keys, ops) && AllRoomy(s, keys, ops) && AllApart(ops, id)
    requires Inserts(p, g, Pending(s, id), m, k) && Different(p + (m + AllPut(s, keys, ops, id)))
    ensures QInv(QRun(s, keys, ops), id)
    ensures g + Out(s, keys, ops, id) == p + (m + AllPut(s, keys, ops, id)) <==>
            (m != [] ==> k == |p|) && AllLast(s, keys, ops, id)
    decreases |ops|, 1
  {
    var puts := AllPut(s, keys, ops, id);
    if m != [] && k < |p| {
      assert m == [m[0]] && g + Pending(s, id) == Pending(s, id);
      OvertakingShows(s, keys, ops, id, p, k, m[0], puts);
      assert g + Out(s, keys, ops, id) == Out(s, keys, ops, id);
    } else {
      LastStep(p, g, Pending(s, id), m, k, puts);
      DifferentTail(g, Pending(s, id) + puts);
      FifoIffPacked(s, keys, ops, id);
      Cancel(g, Out(s, keys, ops, id), Pending(s, id) + puts);
    }
  }

  /** First in, first out: over any run, for messages that are told apart, they come out in the order
      in which they waited and were put if and only if every put found its chain without a hole. */
  lemma {:induction false} FifoIffPacked(s: State, keys: Keys, ops: seq<QOp>, id: Key)
    requires QInv(s, id) && QLegal(s, keys, ops) && AllRoomy(s, keys, ops) && AllApart(ops, id)
    requires Different(Pending(s, id) + AllPut(s, keys, ops, id))
    ensures QInv(QRun(s, keys, ops), id)
    ensures Out(s, keys, ops, id) == Pending(s, id) + AllPut(s, keys, ops, id) <==> AllLast(s, keys, ops, id)
    decreases |ops|, 0
  {
    if ops == [] {
      assert [] + Pending(s, id) == Pending(s, id) + [];
    } else {
      NextApart(ops, id);
      var k := StepInserts(s, keys, ops[0], id);
      var s' := QStep(s, keys, ops[0]).value;
      FifoStep(s', keys, ops[1..], id, Pending(s, id), GotBy(s, keys, ops[0], id), PutBy(s, keys, ops[0], id), k);
      OutStep(s, keys, ops, id);
    }
  }

  // ----- puts before the gets -----

  lemma {:induction false} RunNoNew(s: State, ops: seq<Op>, kind: Kind, key: Key)
    requires Valid(s) && Legal(s, ops) && Listed(kind) && forall op | op in ops :: op.OpRegisterContext?
    ensures NoNew(s.slots, Run(s, ops).slots, kind, key)
    decreases |ops|
  {
    if ops != [] {
      assert ops[0].OpRegisterContext?;
      var s' := Step(s, ops[0]).value;
      StepNoNew(s, ops[0], kind, key);
      StepKeepsValid(s, ops[0]);
      RunNoNew(s', ops[1..], kind, key);
      NoNewChains(s.slots, s'.slots, Run(s', ops[1..]).slots, kind, key);
    }
  }

  lemma EnterNoNew(s: State, key0: Key, args: nat, hookResult: int, kind: Kind, key: Key)
    requires Valid(s) && Enter(s, key0, args, hookResult).Done? && Listed(kind)
    ensures NoNew(s.slots, Enter(s, key0, args, hookResult).state.slots, kind, key)
  {
    var s1 := Run(s, Arguments(key0, args));
    RunKeepsValid(s, Arguments(key0, args));
    RunNoNew(s, Arguments(key0, args), kind, key);
    CallNoNew(s1, key0, OS_SUCCESS, hookResult, kind, key);
    NoNewChains(s.slots, s1.slots, Call(s1, key0, OS_SUCCESS, hookResult).state.slots, kind, key);
  }

  /** What the order of puts rests on: the put stub is idle and the queue's chain has no hole. */
  predicate Ordered(s: State, keys: Keys, id: Key) {
    Idle(s, keys.put) && Packed(s.slots, DataBuffer, id)
  }

  /** No deferred code for the put stub, and nothing waiting or the order kept so far. */
  predicate Filling(s: State, keys: Keys, id: Key) {
    Codes(s, keys.put) == [] && (!Present(s.slots, DataBuffer, id) || Ordered(s, keys, id))
  }

  lemma EnterOrders(s: State, keys: Keys, args: nat, hookResult: int, id: Key)
    requires Valid(s) && Enter(s, keys.put, args, hookResult).Done? && Filling(s, keys, id)
    ensures Ordered(Enter(s, keys.put, args, hookResult).state, keys, id)
  {
    var s' := Enter(s, keys.put, args, hookResult).state;
    EnterLeavesIdle(s, keys.put, args, hookResult);
    if !Present(s.slots, DataBuffer, id) {
      EnterEffect(s, keys.put, args, hookResult, DataBuffer, id);
      LiveIffPresent(s.slots, DataBuffer, id);
      LiveIffPresent(s'.slots, DataBuffer, id);
      EmptyIsPacked(s'.slots, DataBuffer, id);
    } else {
      EnterStays(s, keys.put, args, hookResult);
      EnterNoNew(s, keys.put, args, hookResult, DataBuffer, id);
      NoNewShrinks(s.slots, s'.slots, DataBuffer, id);
      PackedSurvives(s.slots, s'.slots, DataBuffer, id);
    }
  }

  lemma StoreStaysPacked(s: State, op: Op, id: Key)
    requires Valid(s) && BuffersOk(s) && op.OpSetBuffer? && Enabled(s, op) && Step(s, op).Some? && Added(op).Some?
    requires Packed(s.slots, DataBuffer, id)
    ensures Packed(Step(s, op).value.slots, DataBuffer, id)
  {
    var s' := Step(s, op).value;
    var d := StepAdds(s, op);
    if op.key == id {
      AddToPacked(s.slots, Added(op).value, d);
    } else {
      StepNoNew(s, op, DataBuffer, id);
      NoNewShrinks(s.slots, s'.slots, DataBuffer, id);
      PackedSurvives(s.slots, s'.slots, DataBuffer, id);
    }
  }

  lemma StoreStaysIdle(s: State, op: Op, key: Key)
    requires Valid(s) && BuffersOk(s) && op.OpSetBuffer? && Enabled(s, op) && Step(s, op).Some? && Idle(s, key)
    ensures Idle(Step(s, op).value, key)
  {
    StepFrame(s, op, DeferredRc, key);
    StepFrame(s, op, Context, key);
    LiveIffPresent(s.slots, Context, key);
    LiveIffPresent(Step(s, op).value.slots, Context, key);
  }

  lemma StoreStaysOrdered(s: State, keys: Keys, op: Op, id: Key)
    requires Valid(s) && BuffersOk(s) && op.OpSetBuffer? && Enabled(s, op) && Step(s, op).Some? && Ordered(s, keys, id)
    ensures Ordered(Step(s, op).value, keys, id)
  {
    StoreStaysIdle(s, op, keys.put);
    if Added(op).Some? { StoreStaysPacked(s, op, id); }
  }

  lemma PutKeepsFilling(s: State, keys: Keys, q: Key, source: Option<Address>, size: nat, hookResult: int,
                        block: Address, id: Key)
    requires Valid(s) && BuffersOk(s) && Readable(s, source, size) && block !in s.memory && Filling(s, keys, id)
    requires QueuePut(s, keys, q, source, size, hookResult, block).Done?
    ensures Filling(QueuePut(s, keys, q, source, size, hookResult, block).state, keys, id)
    ensures Packed(Enter(s, keys.put, PUT_ARGS, hookResult).state.slots, DataBuffer, id)
  {
    var s1 := Enter(s, keys.put, PUT_ARGS, hookResult).state;
    EnterOrders(s, keys, PUT_ARGS, hookResult, id);
    EnterKeepsPending(s, keys.put, PUT_ARGS, hookResult, id);
    if Enter(s, keys.put, PUT_ARGS, hookResult).value == OS_SUCCESS {
      StoreStaysOrdered(s1, keys, OpSetBuffer(q, source, size, true, block), id);
    }
  }

  /** What a test does before the gets: puts, and writes to its own memory. */
  predicate Fills(op: QOp) {
    op.Put? || (op.Other? && op.op.OpCallerWrites?)
  }

  lemma FillsStep(s: State, keys: Keys, op: QOp, id: Key)
    requires QInv(s, id) && QEnabled(s, op) && QStep(s, keys, op).Some? && Fills(op) && Filling(s, keys, id)
    ensures QInv(QStep(s, keys, op).value, id) && Filling(QStep(s, keys, op).value, keys, id)
    ensures PutIsLast(s, keys, op, id) && GotBy(s, keys, op, id) == [] && Roomy(s, op) && Apart(op, id)
  {
    QStepKeeps(s, keys, op, id);
    if op.Put? { PutKeepsFilling(s, keys, op.id, op.source, op.size, op.hookResult, op.block, id); }
  }

  lemma {:induction false} FillsInOrder(s: State, keys: Keys, ops: seq<QOp>, id: Key)
    requires QInv(s, id) && QLegal(s, keys, ops) && Filling(s, keys, id) && forall op | op in ops :: Fills(op)
    ensures QInv(QRun(s, keys, ops), id) && AllLast(s, keys, ops, id) && AllRoomy(s, keys, ops) && AllApart(ops, id)
    ensures AllGot(s, keys, ops, id) == []
    decreases |ops|
  {
    if ops != [] {
      assert Fills(ops[0]);
      FillsStep(s, keys, ops[0], id);
      FillsInOrder(QStep(s, keys, ops[0]).value, keys, ops[1..], id);
    }
  }

  /** Gets find no holes to fill. */
  lemma {:induction false} NoPutsAllLast(s: State, keys: Keys, ops: seq<QOp>, id: Key)
    requires QLegal(s, keys, ops) && forall op | op in ops :: !PutsOn(op, id)
    ensures AllLast(s, keys, ops, id) && AllPut(s, keys, ops, id) == []
    decreases |ops|
  {
    if ops != [] {
      assert !PutsOn(ops[0], id);
      NoPutsAllLast(QStep(s, keys, ops[0]).value, keys, ops[1..], id);
    }
  }

  lemma FilledQueue(s: State, keys: Keys, puts: seq<QOp>, id: Key)
    requires QInv(s, id) && QLegal(s, keys, puts) && forall op | op in puts :: Fills(op)
    requires !Present(s.slots, DataBuffer, id) && Codes(s, keys.put) == []
    ensures QInv(QRun(s, keys, puts), id) && Pending(QRun(s, keys, puts), id) == AllPut(s, keys, puts, id)
  {
    FillsInOrder(s, keys, puts, id);
    FifoIfPacked(s, keys, puts, id);
    EmptyIsPacked(s.slots, DataBuffer, id);
    assert [] + Pending(QRun(s, keys, puts), id) == Pending(QRun(s, keys, puts), id);
    assert [] + AllPut(s, keys, puts, id) == AllPut(s, keys, puts, id);
  }

  /** Messages put on an empty queue while none is got, with no deferred code set for OS_QueuePut, come
      out in the order they were put, whatever is put meanwhile on other queues. */
  lemma QueueIsFifo(s: State, keys: Keys, puts: seq<QOp>, gets: seq<QOp>, id: Key)
    requires QInv(s, id) && QLegal(s, keys, puts) && forall op | op in puts :: Fills(op)
    requires !Present(s.slots, DataBuffer, id) && Codes(s, keys.put) == []
    requires var s1 := QRun(s, keys, puts); QLegal(s1, keys, gets) && AllRoomy(s1, keys, gets) && AllApart(gets, id)
    requires forall op | op in gets :: !PutsOn(op, id)
    ensures var s1 := QRun(s, keys, puts);
            && QInv(QRun(s1, keys, gets), id)
            && AllGot(s1, keys, gets, id) + Pending(QRun(s1, keys, gets), id) == AllPut(s, keys, puts, id)
  {
    var s1 := QRun(s, keys, puts);
    FilledQueue(s, keys, puts, id);
    NoPutsAllLast(s1, keys, gets, id);
    FifoIfPacked(s1, keys, gets, id);
    assert Pending(s1, id) + [] == Pending(s1, id);
  }
}

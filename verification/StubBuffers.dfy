/**
Data buffers as queues of unread bytes: what a transfer delivers, what other operations leave
alone, and that over any run no byte is lost or made up.
*/
module StubBuffers {
  import opened Options
  import opened StubTable
  import opened StubInvariant
  import opened StubMemory
  import opened StubOrder
  import opened StubEffects
  import opened StubCalls
  import opened StubCodes
  import opened StubAdditions

  function Unread(s: State, e: Entry): seq<bv8>
    requires BufferOk(s, e)
  {
    s.memory[e.data.base][e.data.position..e.data.total]
  }

  predicate AllOk(s: State, v: seq<Entry>) {
    forall j | 0 <= j < |v| :: BufferOk(s, v[j])
  }

  function PendingOf(s: State, v: seq<Entry>): (p: seq<seq<bv8>>)
    requires AllOk(s, v)
    ensures |p| == |v|
    ensures forall j | 0 <= j < |v| :: p[j] == Unread(s, v[j])
  {
    seq(|v|, j requires 0 <= j < |v| && AllOk(s, v) => Unread(s, v[j]))
  }

  lemma ViewIsOk(s: State, key: Key)
    requires BuffersOk(s)
    ensures AllOk(s, View(s.slots, DataBuffer, key))
  {
    var v := View(s.slots, DataBuffer, key);
    forall j | 0 <= j < |v| ensures BufferOk(s, v[j]) {
      assert v[j] == s.slots[Slot(key, Live(s.slots, DataBuffer, key)[j])];
    }
  }

  /** The unread parts of a key's buffers, in the order a search meets them. */
  function Pending(s: State, key: Key): seq<seq<bv8>>
    requires BuffersOk(s)
  {
    ViewIsOk(s, key);
    PendingOf(s, View(s.slots, DataBuffer, key))
  }

  // ----- memory under the buffers of a key -----

  predicate SameBytes(s: State, s': State, a: Address) {
    a in s.memory && a in s'.memory && s'.memory[a] == s.memory[a]
  }

  lemma SamePending(s: State, s': State, v: seq<Entry>)
    requires AllOk(s, v) && forall j | 0 <= j < |v| :: SameBytes(s, s', v[j].data.base)
    ensures AllOk(s', v) && PendingOf(s', v) == PendingOf(s, v)
  {
    forall j | 0 <= j < |v| ensures BufferOk(s', v[j]) && Unread(s', v[j]) == Unread(s, v[j]) {
      assert BufferOk(s, v[j]) && SameBytes(s, s', v[j].data.base);
    }
  }

  /** Freeing one buffer leaves the bytes of every other. */
  lemma ClearKeepsBytes(s: State, i: nat, j: nat)
    requires MemInv(s) && i < SLOTS && j < SLOTS && i != j && s.slots[j].kind == DataBuffer
    ensures s.slots[j].data.Buff? && SameBytes(s, Clear(s, i), s.slots[j].data.base)
  {
    assert SlotOwnership(s, j);
    if Frees(s.slots[i]) { FreeIsLegal(s, i); }
  }

  // ----- what a transfer delivers -----

  function Min(a: nat, b: nat): nat {
    if a < b then a else b
  }

  /** The queue after the first max bytes of its head are taken. */
  function Taken(p: seq<seq<bv8>>, max: nat): seq<seq<bv8>> {
    if p == [] then []
    else if max >= |p[0]| then p[1..]
    else [p[0][max..]] + p[1..]
  }

  function Delivery(p: seq<seq<bv8>>, max: nat): seq<bv8> {
    if p == [] then [] else p[0][..Min(max, |p[0]|)]
  }

  lemma NothingPending(s: State, key: Key, max: nat)
    requires Inv(s) && BuffersOk(s) && View(s.slots, DataBuffer, key) == []
    ensures CopyToLocal(s, key, max) == (s, [])
  {
    BoundedSearchIsComplete(s, DataBuffer, key);
  }

  lemma FoundBuffer(s: State, key: Key)
    requires Inv(s) && BuffersOk(s) && View(s.slots, DataBuffer, key) != []
    ensures Find(s, DataBuffer, key) == Some(HeadSlot(s.slots, DataBuffer, key))
    ensures BufferOk(s, s.slots[HeadSlot(s.slots, DataBuffer, key)])
    ensures View(s.slots, DataBuffer, key)[0] == s.slots[HeadSlot(s.slots, DataBuffer, key)]
  {
    BoundedSearchIsComplete(s, DataBuffer, key);
  }

  /** The bytes of the entries after the head are not the ones a cleared head frees. */
  lemma TailKeepsBytes(s: State, key: Key)
    requires Inv(s) && MemInv(s) && View(s.slots, DataBuffer, key) != []
    ensures var i, v := HeadSlot(s.slots, DataBuffer, key), View(s.slots, DataBuffer, key);
            forall j | 0 <= j < |v[1..]| :: v[1..][j].data.Buff? && SameBytes(s, Clear(s, i), v[1..][j].data.base)
  {
    var c, i, v := Live(s.slots, DataBuffer, key), HeadSlot(s.slots, DataBuffer, key), View(s.slots, DataBuffer, key);
    forall j | 0 <= j < |v[1..]| ensures v[1..][j].data.Buff? && SameBytes(s, Clear(s, i), v[1..][j].data.base) {
      TailIsElsewhere(s.slots, DataBuffer, key, j + 1);
      ClearKeepsBytes(s, i, Slot(key, c[j + 1]));
    }
  }

  lemma PendingTail(s: State, v: seq<Entry>)
    requires AllOk(s, v) && v != []
    ensures AllOk(s, v[1..]) && PendingOf(s, v[1..]) == PendingOf(s, v)[1..]
  {
  }

  /** A used-up buffer leaves the queue. */
  lemma HeadUsedUp(s: State, key: Key)
    requires Valid(s) && BuffersOk(s) && View(s.slots, DataBuffer, key) != []
    ensures var s' := Clear(s, HeadSlot(s.slots, DataBuffer, key));
            BuffersOk(s') && Pending(s', key) == Pending(s, key)[1..]
  {
    var i, v := HeadSlot(s.slots, DataBuffer, key), View(s.slots, DataBuffer, key);
    var s' := Clear(s, i);
    ClearKeepsMemory(s, i);
    MemInvBuffers(s');
    ViewOfClearedHead(s.slots, DataBuffer, key);
    TailKeepsBytes(s, key);
    ViewIsOk(s, key);
    PendingTail(s, v);
    SamePending(s, s', v[1..]);
  }

  lemma PendingHead(s: State, e: Entry, v: seq<Entry>)
    requires BufferOk(s, e) && AllOk(s, v)
    ensures AllOk(s, [e] + v) && PendingOf(s, [e] + v) == [Unread(s, e)] + PendingOf(s, v)
  {
  }

  function Moved(e: Entry, n: nat): Entry
    requires e.data.Buff?
  {
    e.(data := e.data.(position := e.data.position + n))
  }

  /** A partly read buffer keeps its place with the rest of its bytes. */
  lemma HeadPartlyRead(s: State, key: Key, n: nat)
    requires Valid(s) && BuffersOk(s) && View(s.slots, DataBuffer, key) != []
    requires var e := View(s.slots, DataBuffer, key)[0]; e.data.Buff? && e.data.position + n < e.data.total
    ensures var i, e := HeadSlot(s.slots, DataBuffer, key), View(s.slots, DataBuffer, key)[0];
            var s' := Store(s, i, Moved(e, n));
            && BuffersOk(s') && n <= |Pending(s, key)[0]|
            && Pending(s', key) == [Pending(s, key)[0][n..]] + Pending(s, key)[1..]
  {
    var i, v := HeadSlot(s.slots, DataBuffer, key), View(s.slots, DataBuffer, key);
    var e := Moved(v[0], n);
    var s' := Store(s, i, e);
    FoundBuffer(s, key);
    ViewIsOk(s, key);
    RewriteKeepsMemory(s, s.high, i, e);
    MemInvBuffers(s');
    ViewOfRewrittenHead(s.slots, DataBuffer, key, e);
    PendingTail(s, v);
    SamePending(s, s', v[1..]);
    PendingHead(s', e, v[1..]);
    MovedUnread(s, v[0], n);
  }

  lemma MovedUnread(s: State, e: Entry, n: nat)
    requires BufferOk(s, e) && e.data.position + n < e.data.total
    ensures BufferOk(s, Moved(e, n)) && n <= |Unread(s, e)| && Unread(s, Moved(e, n)) == Unread(s, e)[n..]
  {
  }

  lemma HeadAmount(s: State, key: Key)
    requires Inv(s) && BuffersOk(s) && View(s.slots, DataBuffer, key) != []
    ensures var d := View(s.slots, DataBuffer, key)[0].data;
            && d.Buff? && d.base in s.memory && d.position < d.total <= |s.memory[d.base]|
            && Pending(s, key)[0] == s.memory[d.base][d.position..d.total]
  {
    FoundBuffer(s, key);
  }

  lemma CopyForm(s: State, key: Key, max: nat)
    requires Inv(s) && BuffersOk(s) && View(s.slots, DataBuffer, key) != []
    ensures var i, d := HeadSlot(s.slots, DataBuffer, key), View(s.slots, DataBuffer, key)[0].data;
            && d.Buff? && d.base in s.memory && d.position < d.total <= |s.memory[d.base]| && s.slots[i].data == d
            && CopyToLocal(s, key, max).0 == Advance(s, i, Amount(d, max))
            && CopyToLocal(s, key, max).1 == s.memory[d.base][d.position..d.position + Amount(d, max)]
  {
    FoundBuffer(s, key);
  }

  lemma Subrange(m: seq<bv8>, p: nat, n: nat, t: nat)
    requires p + n <= t <= |m|
    ensures m[p..p + n] == m[p..t][..n]
  {
  }

  lemma CopiesAll(s: State, key: Key, max: nat)
    requires Inv(s) && BuffersOk(s) && View(s.slots, DataBuffer, key) != [] && |Pending(s, key)[0]| <= max
    ensures CopyToLocal(s, key, max).0 == Clear(s, HeadSlot(s.slots, DataBuffer, key))
    ensures CopyToLocal(s, key, max).1 == Pending(s, key)[0]
  {
    HeadAmount(s, key);
    CopyForm(s, key, max);
  }

  lemma CopiesSome(s: State, key: Key, max: nat)
    requires Inv(s) && BuffersOk(s) && View(s.slots, DataBuffer, key) != [] && max < |Pending(s, key)[0]|
    ensures var e := View(s.slots, DataBuffer, key)[0];
            && e.data.Buff? && e.data.position + max < e.data.total
            && CopyToLocal(s, key, max).0 == Store(s, HeadSlot(s.slots, DataBuffer, key), Moved(e, max))
            && CopyToLocal(s, key, max).1 == Pending(s, key)[0][..max]
  {
    HeadAmount(s, key);
    CopyForm(s, key, max);
    var e := View(s.slots, DataBuffer, key)[0];
    AmountOfSome(e.data, max, s.memory[e.data.base], Pending(s, key)[0]);
  }

  lemma AmountOfSome(d: Data, max: nat, m: seq<bv8>, unread: seq<bv8>)
    requires d.Buff? && d.position < d.total <= |m| && unread == m[d.position..d.total] && max < |unread|
    ensures Amount(d, max) == max && m[d.position..d.position + max] == unread[..max]
  {
    Subrange(m, d.position, max, d.total);
  }

  /** UT_Stub_CopyToLocal takes the front of the first buffer: all of it, or as much as is asked. */
  lemma CopyToLocalEffect(s: State, key: Key, max: nat)
    requires Valid(s) && BuffersOk(s)
    ensures BuffersOk(CopyToLocal(s, key, max).0)
    ensures CopyToLocal(s, key, max).1 == Delivery(Pending(s, key), max)
    ensures Pending(CopyToLocal(s, key, max).0, key) == Taken(Pending(s, key), max)
  {
    if View(s.slots, DataBuffer, key) == [] {
      NothingPending(s, key, max);
    } else if |Pending(s, key)[0]| <= max {
      CopiesAll(s, key, max);
      HeadUsedUp(s, key);
    } else {
      CopiesSome(s, key, max);
      HeadPartlyRead(s, key, max);
    }
  }

  // ----- what an addition adds -----

  /** A new entry appears in the view after those met before its slot, and nothing else changes. */
  lemma AddView(t: Table, e: Entry, d: nat) returns (k: nat)
    requires e.kind != Unused && FreeAt(t, e.key, d)
    ensures k == |Chain(t, e.key, e.kind, e.key, 0, d)| <= |View(t, e.kind, e.key)|
    ensures View(t[Slot(e.key, d) := e], e.kind, e.key) == View(t, e.kind, e.key)[..k] + [e]
            + View(t, e.kind, e.key)[k..]
    ensures k == |View(t, e.kind, e.key)| <==> Packed(t, e.kind, e.key)
  {
    var t' := t[Slot(e.key, d) := e];
    var a, b := Chain(t, e.key, e.kind, e.key, 0, d), Chain(t, e.key, e.kind, e.key, d + 1, |t|);
    LiveSkips(t, e.kind, e.key, d);
    LiveGains(t, e, d);
    PackedIffNoneLater(t, e.kind, e.key, d);
    k := |a|;
    forall j | 0 <= j < |a| ensures t'[Slot(e.key, a[j])] == t[Slot(e.key, a[j])] {
      SlotsDiffer(e.key, d, a[j]);
    }
    forall j | 0 <= j < |b| ensures t'[Slot(e.key, b[j])] == t[Slot(e.key, b[j])] {
      SlotsDiffer(e.key, d, b[j]);
    }
    InsertedView(t, t', e, d, a, b);
  }

  lemma InsertedView(t: Table, t': Table, e: Entry, d: nat, a: seq<nat>, b: seq<nat>)
    requires d < SLOTS && t'[Slot(e.key, d)] == e
    requires Live(t, e.kind, e.key) == a + b && Live(t', e.kind, e.key) == a + [d] + b
    requires forall j | 0 <= j < |a| :: a[j] < SLOTS && t'[Slot(e.key, a[j])] == t[Slot(e.key, a[j])]
    requires forall j | 0 <= j < |b| :: b[j] < SLOTS && t'[Slot(e.key, b[j])] == t[Slot(e.key, b[j])]
    ensures View(t', e.kind, e.key) == View(t, e.kind, e.key)[..|a|] + [e] + View(t, e.kind, e.key)[|a|..]
  {
    var v, v' := View(t, e.kind, e.key), View(t', e.kind, e.key);
    forall j | 0 <= j < |v'| ensures v'[j] == (v[..|a|] + [e] + v[|a|..])[j] {
      if j < |a| {
        assert (a + [d] + b)[j] == a[j] && (a + b)[j] == a[j];
      } else if j > |a| {
        assert (a + [d] + b)[j] == b[j - |a| - 1] && (a + b)[j - 1] == b[j - |a| - 1];
      }
    }
  }

  lemma PendingInsert(s: State, v: seq<Entry>, k: nat, e: Entry)
    requires k <= |v| && AllOk(s, v) && BufferOk(s, e)
    ensures AllOk(s, v[..k] + [e] + v[k..])
    ensures PendingOf(s, v[..k] + [e] + v[k..]) == PendingOf(s, v)[..k] + [Unread(s, e)] + PendingOf(s, v)[k..]
  {
  }

  /** The bytes a call of UT_SetDataBuffer queues. */
  function QueuedBytes(s: State, op: Op): seq<bv8>
    requires op.OpSetBuffer? && Readable(s, op.source, op.size)
  {
    if op.source.Some? then s.memory[op.source.value][..op.size] else []
  }

  lemma AddedBuffer(s: State, op: Op)
    requires Valid(s) && BuffersOk(s) && op.OpSetBuffer? && Enabled(s, op) && Step(s, op).Some? && Added(op).Some?
    ensures var s' := Step(s, op).value;
            && BufferOk(s', Added(op).value) && Unread(s', Added(op).value) == QueuedBytes(s, op)
            && forall a | a in s.memory :: SameBytes(s, s', a)
  {
  }

  lemma AddedView(s: State, op: Op) returns (k: nat)
    requires Inv(s) && BuffersOk(s) && Enabled(s, op) && Step(s, op).Some? && Added(op).Some?
    ensures var e := Added(op).value;
            var v := View(s.slots, e.kind, e.key);
            && FirstFree(s.slots, e.key).Some? && k == Ahead(s.slots, e.kind, e.key) <= |v|
            && View(Step(s, op).value.slots, e.kind, e.key) == v[..k] + [e] + v[k..]
            && (k == |v| <==> Packed(s.slots, e.kind, e.key))
  {
    var d := StepAdds(s, op);
    k := AddView(s.slots, Added(op).value, d);
  }

  lemma PendingAfterAdd(s: State, s': State, key: Key, k: nat, e: Entry)
    requires BuffersOk(s) && BuffersOk(s') && k <= |View(s.slots, DataBuffer, key)|
    requires View(s'.slots, DataBuffer, key) == View(s.slots, DataBuffer, key)[..k] + [e]
             + View(s.slots, DataBuffer, key)[k..]
    requires BufferOk(s', e) && forall a | a in s.memory :: SameBytes(s, s', a)
    ensures Pending(s', key) == Pending(s, key)[..k] + [Unread(s', e)] + Pending(s, key)[k..]
  {
    var v := View(s.slots, DataBuffer, key);
    ViewIsOk(s, key);
    SamePending(s, s', v);
    PendingInsert(s', v, k, e);
  }

  /** A queued buffer joins the pending ones after those ahead of the first unused slot of the probe
      sequence: last among them exactly when the chain is packed. */
  lemma SetBufferEffect(s: State, op: Op) returns (k: nat)
    requires Valid(s) && BuffersOk(s) && op.OpSetBuffer? && Enabled(s, op) && Step(s, op).Some? && Added(op).Some?
    ensures BuffersOk(Step(s, op).value) && FirstFree(s.slots, op.key).Some?
    ensures k == Ahead(s.slots, DataBuffer, op.key) <= |Pending(s, op.key)|
    ensures Pending(Step(s, op).value, op.key)
            == Pending(s, op.key)[..k] + [QueuedBytes(s, op)] + Pending(s, op.key)[k..]
    ensures k == |Pending(s, op.key)| <==> Packed(s.slots, DataBuffer, op.key)
  {
    StepKeepsValid(s, op);
    MemInvBuffers(Step(s, op).value);
    k := AddedView(s, op);
    AddedBuffer(s, op);
    PendingAfterAdd(s, Step(s, op).value, op.key, k, Added(op).value);
  }

  lemma ClearedHeadIsAhead(t: Table, kind: Kind, key: Key)
    requires Live(t, kind, key) != [] && kind != Unused
    requires FirstFree(t[HeadSlot(t, kind, key) := Zero()], key).Some?
    ensures var t' := t[HeadSlot(t, kind, key) := Zero()]; Ahead(t', kind, key) == 0
  {
    var t' := t[HeadSlot(t, kind, key) := Zero()];
    var c, d := Live(t, kind, key), FirstFree(t', key).value;
    ChainHeadIsFirst(t', key, Unused, 0, 0, |t'|, c[0]);
    forall k | 0 <= k < d ensures t'[Slot(key, k)] == t[Slot(key, k)] {
      SlotsDiffer(key, c[0], k);
    }
    ChainFrame(t, t', key, kind, key, 0, d);
    HeadSplits(t, kind, key);
    ChainSplit(t, key, kind, key, 0, d, c[0]);
  }

  lemma InsertFirst(p: seq<seq<bv8>>, k: nat, m: seq<bv8>)
    requires k == 0
    ensures p[..k] + [m] + p[k..] == [m] + p
  {
  }

  lemma FirstIsAhead(t: Table, s: State, key: Key)
    requires Live(t, DataBuffer, key) != [] && s.slots == t[HeadSlot(t, DataBuffer, key) := Zero()]
    ensures FirstFree(s.slots, key).Some? ==> Ahead(s.slots, DataBuffer, key) == 0
  {
    if FirstFree(s.slots, key).Some? { ClearedHeadIsAhead(t, DataBuffer, key); }
  }

  lemma AddInFront(t: Table, s: State, op: Op)
    requires Valid(s) && BuffersOk(s) && op.OpSetBuffer? && Enabled(s, op) && Step(s, op).Some? && Added(op).Some?
    requires Live(t, DataBuffer, op.key) != [] && s.slots == t[HeadSlot(t, DataBuffer, op.key) := Zero()]
    ensures BuffersOk(Step(s, op).value)
    ensures Pending(Step(s, op).value, op.key) == [QueuedBytes(s, op)] + Pending(s, op.key)
  {
    var k := SetBufferEffect(s, op);
    FirstIsAhead(t, s, op.key);
    InsertFirst(Pending(s, op.key), k, QueuedBytes(s, op));
  }

  lemma UseUp(s: State, key: Key, max: nat)
    requires Valid(s) && BuffersOk(s) && Pending(s, key) != [] && max >= |Pending(s, key)[0]|
    ensures var s1 := CopyToLocal(s, key, max).0;
            && Valid(s1) && BuffersOk(s1) && Pending(s1, key) == Pending(s, key)[1..]
            && s1.slots == s.slots[HeadSlot(s.slots, DataBuffer, key) := Zero()]
  {
    CopiesAll(s, key, max);
    HeadUsedUp(s, key);
    CopyToLocalKeeps(s, key, max);
    CopyToLocalKeepsMemory(s, key, max);
  }

  /** The order of queueing is not the order of delivery: a buffer queued right after another was
      used up is delivered before every one that was waiting. */
  lemma RefillOvertakes(s: State, key: Key, max: nat, op: Op)
    requires Valid(s) && BuffersOk(s) && Pending(s, key) != [] && max >= |Pending(s, key)[0]|
    requires op.OpSetBuffer? && op.key == key && Added(op).Some?
    requires var s1 := CopyToLocal(s, key, max).0; Enabled(s1, op) && BuffersOk(s1) && Step(s1, op).Some?
    ensures var s1 := CopyToLocal(s, key, max).0;
            && BuffersOk(Step(s1, op).value)
            && Pending(Step(s1, op).value, key) == [QueuedBytes(s1, op)] + Pending(s, key)[1..]
  {
    UseUp(s, key, max);
    AddInFront(s.slots, CopyToLocal(s, key, max).0, op);
  }

  // ----- what other operations leave alone -----

  /** The buffer an operation writes into, if any. */
  function WrittenTo(s: State, op: Op): Option<Address>
    requires BuffersOk(s)
  {
    match op
    case OpCallerWrites(address, bytes) => Some(address)
    case OpCopyFromLocal(key, bytes) =>
      (match Find(s, DataBuffer, key)
       case None => None
       case Some(i) => assert BufferOk(s, s.slots[i]); Some(s.slots[i].data.base))
    case _ => None
  }

  /** The operation does not write into a buffer queued for the key. */
  predicate Spares(s: State, op: Op, key: Key)
    requires BuffersOk(s)
  {
    WrittenTo(s, op).Some? ==>
      forall j | 0 <= j < SLOTS && Holds(s.slots[j], DataBuffer, key) ::
        s.slots[j].data.Buff? && s.slots[j].data.base != WrittenTo(s, op).value
  }

  predicate KeepsBytes(s: State, s': State, key: Key) {
    forall j | 0 <= j < SLOTS && Holds(s.slots[j], DataBuffer, key) ::
      s.slots[j].data.Buff? && SameBytes(s, s', s.slots[j].data.base)
  }

  lemma SameMemoryKeepsBytes(s: State, s': State, key: Key)
    requires BuffersOk(s) && s'.memory == s.memory
    ensures KeepsBytes(s, s', key)
  {
    forall j | 0 <= j < SLOTS && Holds(s.slots[j], DataBuffer, key)
      ensures s.slots[j].data.Buff? && SameBytes(s, s', s.slots[j].data.base)
    {
      assert BufferOk(s, s.slots[j]);
    }
  }

  lemma ResetKeepsBytes(s: State, swept: Key, key: Key)
    requires MemInv(s) && swept != 0 && swept != key
    ensures KeepsBytes(s, Reset(s, swept), key)
  {
    forall j | 0 <= j < SLOTS && Holds(s.slots[j], DataBuffer, key)
      ensures s.slots[j].data.Buff? && SameBytes(s, Reset(s, swept), s.slots[j].data.base)
    {
      assert SlotOwnership(s, j);
      KeptIsNotFreed(s, swept, j);
    }
  }

  lemma AdvanceKeepsBytes(s: State, i: nat, n: nat, key: Key)
    requires MemInv(s) && i < SLOTS && s.slots[i].kind == DataBuffer && s.slots[i].data.Buff? && s.slots[i].key != key
    ensures KeepsBytes(s, Advance(s, i, n), key)
  {
    forall j | 0 <= j < SLOTS && Holds(s.slots[j], DataBuffer, key)
      ensures s.slots[j].data.Buff? && SameBytes(s, Advance(s, i, n), s.slots[j].data.base)
    {
      assert SlotOwnership(s, j);
      ClearKeepsBytes(s, i, j);
    }
  }

  lemma CopyToLocalKeepsBytes(s: State, key0: Key, max: nat, key: Key)
    requires MemInv(s) && BuffersOk(s) && key0 != key
    ensures KeepsBytes(s, CopyToLocal(s, key0, max).0, key)
  {
    if Find(s, DataBuffer, key0).None? {
      SameMemoryKeepsBytes(s, s, key);
    } else {
      var i := Find(s, DataBuffer, key0).value;
      FindHolds(s, DataBuffer, key0);
      assert BufferOk(s, s.slots[i]);
      AdvanceKeepsBytes(s, i, Amount(s.slots[i].data, max), key);
    }
  }

  lemma CopyFromLocalKeepsBytes(s: State, key0: Key, bytes: seq<bv8>, key: Key)
    requires MemInv(s) && BuffersOk(s) && key0 != key && Spares(s, OpCopyFromLocal(key0, bytes), key)
    ensures KeepsBytes(s, CopyFromLocal(s, key0, bytes).0, key)
  {
    if Find(s, DataBuffer, key0).None? {
      SameMemoryKeepsBytes(s, s, key);
    } else {
      var i := Find(s, DataBuffer, key0).value;
      FindHolds(s, DataBuffer, key0);
      var d := s.slots[i].data;
      assert BufferOk(s, s.slots[i]);
      var s1 := Overwritten(s, d, bytes);
      WriteKeepsMemory(s, d.base, s1.memory[d.base]);
      AdvanceKeepsBytes(s1, i, Amount(d, |bytes|), key);
      forall j | 0 <= j < SLOTS && Holds(s.slots[j], DataBuffer, key)
        ensures s.slots[j].data.Buff? && SameBytes(s, CopyFromLocal(s, key0, bytes).0, s.slots[j].data.base)
      {
        assert BufferOk(s, s.slots[j]);
        assert SameBytes(s1, CopyFromLocal(s, key0, bytes).0, s.slots[j].data.base);
      }
    }
  }

  lemma OthersLeaveMemory(s: State, op: Op)
    requires Inv(s) && BuffersOk(s) && Enabled(s, op) && Step(s, op).Some?
    requires !op.OpReset? && !op.OpSetBuffer? && !op.OpCopyToLocal? && !op.OpCopyFromLocal? && !op.OpCallerWrites?
    ensures Step(s, op).value.memory == s.memory
  {
    match op
    case OpCallOnce(k) =>
    case OpSetDeferred(k, count, retcode) => if count > 0 { ClaimIsUnused(s, k); }
    case OpClearDeferred(k) =>
    case OpCheckDeferred(k) => CheckDeferredLeavesMemory(s, k);
    case OpSetDefault(k, value) => if Find(s, ForceFail, k).None? { ClaimIsUnused(s, k); }
    case OpClearDefault(k) => if Find(s, ForceFail, k).Some? { FindHolds(s, ForceFail, k); }
    case OpCheckDefault(k) =>
    case OpSetHook(k, hook) => SetHookLeavesMemory(s, k, hook);
    case OpRegisterContext(k, arg) => if Find(s, Context, k).None? { ClaimIsUnused(s, k); }
    case OpCall(k, defaultRc, hookResult) => CallLeavesMemory(s, k, defaultRc, hookResult);
  }

  lemma CheckDeferredLeavesMemory(s: State, key: Key)
    ensures CheckDeferred(s, key).0.memory == s.memory
  {
    if Find(s, DeferredRc, key).Some? { FindHolds(s, DeferredRc, key); }
  }

  lemma SetHookLeavesMemory(s: State, key: Key, hook: Option<nat>)
    requires Inv(s) && SetHook(s, key, hook).Done?
    ensures SetHook(s, key, hook).state.memory == s.memory
  {
    if Find(s, Hook, key).Some? {
      FindHolds(s, Hook, key);
    } else if hook.Some? {
      ClaimIsUnused(s, key);
    }
  }

  lemma CallLeavesMemory(s: State, key: Key, defaultRc: int, hookResult: int)
    requires Inv(s) && Call(s, key, defaultRc, hookResult).Done?
    ensures Call(s, key, defaultRc, hookResult).state.memory == s.memory
  {
    CheckDeferredLeavesMemory(s, key);
    ChooseCodeKeeps(s, key, defaultRc);
    var (s1, code) := ChooseCode(s, key, defaultRc);
    if Find(s1, Counter, key).None? { ClaimIsUnused(s1, key); }
    var s2 := CountCall(s1, key, code).value;
    if Find(s2, Context, key).Some? { FindHolds(s2, Context, key); }
  }

  lemma SetBufferKeepsBytes(s: State, op: Op, key: Key)
    requires Valid(s) && BuffersOk(s) && op.OpSetBuffer? && Enabled(s, op) && Step(s, op).Some?
    ensures KeepsBytes(s, Step(s, op).value, key)
  {
    if Added(op).Some? {
      AddedBuffer(s, op);
    } else {
      SameMemoryKeepsBytes(s, s, key);
    }
    forall j | 0 <= j < SLOTS && Holds(s.slots[j], DataBuffer, key)
      ensures s.slots[j].data.Buff? && SameBytes(s, Step(s, op).value, s.slots[j].data.base)
    {
      assert BufferOk(s, s.slots[j]);
    }
  }

  lemma StepKeepsBytes(s: State, op: Op, key: Key)
    requires Valid(s) && BuffersOk(s) && Enabled(s, op) && Step(s, op).Some?
    requires !Concerns(op, DataBuffer, key) && Spares(s, op, key)
    ensures KeepsBytes(s, Step(s, op).value, key)
  {
    match op
    case OpReset(k) => ResetKeepsBytes(s, k, key);
    case OpSetBuffer(k, source, size, copy, block) => SetBufferKeepsBytes(s, op, key);
    case OpCopyToLocal(k, max) => CopyToLocalKeepsBytes(s, k, max, key);
    case OpCopyFromLocal(k, bytes) => CopyFromLocalKeepsBytes(s, k, bytes, key);
    case OpCallerWrites(address, bytes) =>
      forall j | 0 <= j < SLOTS && Holds(s.slots[j], DataBuffer, key)
        ensures s.slots[j].data.Buff? && SameBytes(s, Step(s, op).value, s.slots[j].data.base)
      {
        assert BufferOk(s, s.slots[j]);
      }
    case _ =>
      OthersLeaveMemory(s, op);
      SameMemoryKeepsBytes(s, Step(s, op).value, key);
  }

  lemma KeptBytesOfView(s: State, s': State, key: Key)
    requires KeepsBytes(s, s', key)
    ensures var v := View(s.slots, DataBuffer, key);
            forall j | 0 <= j < |v| :: v[j].data.Buff? && SameBytes(s, s', v[j].data.base)
  {
    var v := View(s.slots, DataBuffer, key);
    forall j | 0 <= j < |v| ensures v[j].data.Buff? && SameBytes(s, s', v[j].data.base) {
      assert Holds(s.slots[Slot(key, Live(s.slots, DataBuffer, key)[j])], DataBuffer, key);
    }
  }

  /** What is pending for a key changes only by operations on its buffers. */
  lemma PendingFrame(s: State, op: Op, key: Key)
    requires Valid(s) && BuffersOk(s) && Enabled(s, op) && Step(s, op).Some?
    requires !Concerns(op, DataBuffer, key) && Spares(s, op, key)
    ensures BuffersOk(Step(s, op).value) && Pending(Step(s, op).value, key) == Pending(s, key)
  {
    var s' := Step(s, op).value;
    StepKeepsValid(s, op);
    MemInvBuffers(s');
    StepFrame(s, op, DataBuffer, key);
    StepKeepsBytes(s, op, key);
    KeptBytesOfView(s, s', key);
    ViewIsOk(s, key);
    SamePending(s, s', View(s.slots, DataBuffer, key));
  }
}

/**
Over any run of operations, the bytes that leave a key's buffers together with those still unread
are exactly the bytes that were queued; and the bytes leave in order.
*/
module StubConservation {
  import opened Options
  import opened StubTable
  import opened StubInvariant
  import opened StubMemory
  import opened StubOrder
  import opened StubEffects
  import opened StubCalls
  import opened StubAdditions
  import opened StubBuffers

  function Flat<T>(p: seq<seq<T>>): seq<T> {
    if p == [] then [] else p[0] + Flat(p[1..])
  }

  lemma {:induction false} FlatAppend<T>(a: seq<seq<T>>, b: seq<seq<T>>)
    ensures Flat(a + b) == Flat(a) + Flat(b)
    decreases |a|
  {
    if a == [] {
      assert a + b == b;
    } else {
      assert (a + b)[1..] == a[1..] + b;
      FlatAppend(a[1..], b);
    }
  }

  lemma FlatOne<T>(m: seq<T>)
    ensures Flat([m]) == m
  {
    assert [m][1..] == [];
  }

  lemma FlatThree<T>(a: seq<seq<T>>, m: seq<T>, b: seq<seq<T>>)
    ensures Flat(a + [m] + b) == Flat(a) + m + Flat(b)
  {
    FlatAppend(a + [m], b);
    FlatAppend(a, [m]);
    FlatOne(m);
  }

  lemma BagOfThree<T>(a: seq<T>, m: seq<T>, b: seq<T>)
    ensures multiset(a + m + b) == multiset(a + b) + multiset(m)
  {
  }

  lemma FlatSplit<T>(p: seq<seq<T>>, k: nat)
    requires k <= |p|
    ensures Flat(p) == Flat(p[..k]) + Flat(p[k..])
  {
    assert p == p[..k] + p[k..];
    FlatAppend(p[..k], p[k..]);
  }

  lemma FlatInsert<T>(p: seq<seq<T>>, k: nat, m: seq<T>)
    requires k <= |p|
    ensures multiset(Flat(p[..k] + [m] + p[k..])) == multiset(Flat(p)) + multiset(m)
  {
    FlatThree(p[..k], m, p[k..]);
    FlatSplit(p, k);
    BagOfThree(Flat(p[..k]), m, Flat(p[k..]));
  }

  lemma FlatCons<T>(m: seq<T>, p: seq<seq<T>>)
    ensures Flat([m] + p) == m + Flat(p)
  {
    assert ([m] + p)[1..] == p;
  }

  lemma SplitAt<T>(m: seq<T>, k: nat, rest: seq<T>)
    requires k <= |m|
    ensures m[..k] + (m[k..] + rest) == m + rest
  {
  }

  /** A delivery and what is left after it make up what was there. */
  lemma DeliveryPlusRest(p: seq<seq<bv8>>, max: nat)
    ensures Delivery(p, max) + Flat(Taken(p, max)) == Flat(p)
  {
    if p != [] && max < |p[0]| {
      FlatCons(p[0][max..], p[1..]);
      SplitAt(p[0], max, Flat(p[1..]));
    }
  }

  // ----- overwriting a buffer from the front -----

  /** No other buffer of the key lies in the memory of the first one. */
  predicate Sole(s: State, key: Key) {
    var v := View(s.slots, DataBuffer, key);
    forall j | 1 <= j < |v| :: v[j].data.Buff? && v[0].data.Buff? && v[j].data.base != v[0].data.base
  }

  /** Copying in is overwriting and then taking out. */
  lemma CopyInForm(s: State, key: Key, bytes: seq<bv8>) returns (s1: State)
    requires Valid(s) && BuffersOk(s) && View(s.slots, DataBuffer, key) != []
    ensures var d := View(s.slots, DataBuffer, key)[0].data;
            && d.Buff? && d.base in s.memory && d.position < d.total <= |s.memory[d.base]|
            && s1 == Overwritten(s, d, bytes) && Valid(s1) && BuffersOk(s1)
            && CopyFromLocal(s, key, bytes).0 == CopyToLocal(s1, key, |bytes|).0
  {
    FoundBuffer(s, key);
    var d := View(s.slots, DataBuffer, key)[0].data;
    s1 := Overwritten(s, d, bytes);
    WriteKeepsMemory(s, d.base, s1.memory[d.base]);
    MemInvBuffers(s1);
    FoundBuffer(s1, key);
  }

  lemma OverwrittenFront(m: seq<bv8>, p: nat, t: nat, bytes: seq<bv8>, n: nat)
    requires p < t <= |m| && n <= |bytes| && p + n <= t
    ensures (m[..p] + bytes[..n] + m[p + n..])[p..t][n..] == m[p..t][n..]
  {
    var front, tail := m[..p] + bytes[..n], m[p + n..];
    assert (front + tail)[p + n..] == tail;
    assert (front + tail)[p..t][n..] == (front + tail)[p + n..t] == tail[..t - (p + n)] == m[p + n..t] == m[p..t][n..];
  }

  lemma OverwrittenBehind(s: State, s1: State, v: seq<Entry>, bytes: seq<bv8>)
    requires AllOk(s, v) && AllOk(s1, v) && v != [] && s1 == Overwritten(s, v[0].data, bytes)
    requires forall j | 1 <= j < |v| :: v[j].data.Buff? && v[j].data.base != v[0].data.base
    ensures PendingOf(s1, v)[1..] == PendingOf(s, v)[1..]
  {
    forall j | 1 <= j < |v| ensures PendingOf(s1, v)[j] == PendingOf(s, v)[j] {
      assert BufferOk(s, v[j]) && BufferOk(s1, v[j]);
    }
  }

  lemma OverwrittenFirst(s: State, s1: State, e: Entry, bytes: seq<bv8>)
    requires BufferOk(s, e) && BufferOk(s1, e) && s1 == Overwritten(s, e.data, bytes)
    ensures var n := Amount(e.data, |bytes|);
            |Unread(s1, e)| == |Unread(s, e)| && n <= |Unread(s, e)| && Unread(s1, e)[n..] == Unread(s, e)[n..]
  {
    var d := e.data;
    OverwrittenFront(s.memory[d.base], d.position, d.total, bytes, Amount(d, |bytes|));
  }

  lemma SameTaken(p: seq<seq<bv8>>, q: seq<seq<bv8>>, max: nat, n: nat)
    requires p != [] && q != [] && p[1..] == q[1..] && |p[0]| == |q[0]|
    requires n == Min(max, |p[0]|) && p[0][n..] == q[0][n..]
    ensures Taken(p, max) == Taken(q, max)
  {
  }

  lemma OverwrittenPending(s: State, s1: State, v: seq<Entry>, bytes: seq<bv8>)
    requires AllOk(s, v) && AllOk(s1, v) && v != [] && s1 == Overwritten(s, v[0].data, bytes)
    requires forall j | 1 <= j < |v| :: v[j].data.Buff? && v[j].data.base != v[0].data.base
    ensures Taken(PendingOf(s1, v), |bytes|) == Taken(PendingOf(s, v), |bytes|)
  {
    assert BufferOk(s, v[0]) && BufferOk(s1, v[0]);
    OverwrittenBehind(s, s1, v, bytes);
    OverwrittenFirst(s, s1, v[0], bytes);
    SameTaken(PendingOf(s1, v), PendingOf(s, v), |bytes|, Amount(v[0].data, |bytes|));
  }

  /** The memory after n of the bytes were written at the position of a buffer; a block of the table's own
      that is filled up is freed. */
  function Filled(s: State, e: Entry, bytes: seq<bv8>, n: nat): map<Address, seq<bv8>>
    requires BufferOk(s, e) && n <= |bytes| && n <= e.data.total - e.data.position
  {
    var d, m := e.data, s.memory[e.data.base];
    if e.allocFlag && d.position + n == d.total then s.memory - {d.base}
    else s.memory[d.base := m[..d.position] + bytes[..n] + m[d.position + n..]]
  }

  lemma CopyInMemory(s: State, key: Key, bytes: seq<bv8>)
    requires Valid(s) && BuffersOk(s) && View(s.slots, DataBuffer, key) != []
    ensures var e, n := View(s.slots, DataBuffer, key)[0], CopyFromLocal(s, key, bytes).1;
            && BufferOk(s, e) && n == Min(|bytes|, |Pending(s, key)[0]|) == Min(|bytes|, e.data.total - e.data.position)
            && CopyFromLocal(s, key, bytes).0.memory == Filled(s, e, bytes, n)
  {
    FoundBuffer(s, key);
    HeadAmount(s, key);
    var i, e := HeadSlot(s.slots, DataBuffer, key), View(s.slots, DataBuffer, key)[0];
    FilledMemory(s, Overwritten(s, e.data, bytes), i, e, bytes, CopyFromLocal(s, key, bytes).1);
  }

  lemma DroppedAfterWrite<K, V>(m: map<K, V>, a: K, x: V)
    ensures m[a := x] - {a} == m - {a}
  {
  }

  lemma FilledMemory(s: State, s1: State, i: nat, e: Entry, bytes: seq<bv8>, n: nat)
    requires i < SLOTS && s.slots[i] == e && e.kind == DataBuffer && BufferOk(s, e)
    requires n == Amount(e.data, |bytes|) && s1 == Overwritten(s, e.data, bytes)
    ensures Advance(s1, i, n).memory == Filled(s, e, bytes, n)
  {
    var d, m := e.data, s.memory[e.data.base];
    DroppedAfterWrite(s.memory, d.base, m[..d.position] + bytes[..n] + m[d.position + n..]);
  }

  /** UT_Stub_CopyFromLocal: as many bytes as it is given leave the front of the first buffer; these bytes are
      there instead, their number is returned, and nothing else is written. */
  lemma CopyFromLocalEffect(s: State, key: Key, bytes: seq<bv8>)
    requires Valid(s) && BuffersOk(s) && Sole(s, key)
    ensures var (s', n) := CopyFromLocal(s, key, bytes);
            && BuffersOk(s') && Pending(s', key) == Taken(Pending(s, key), |bytes|)
            && n == |Delivery(Pending(s, key), |bytes|)|
            && (Pending(s, key) == [] ==> s' == s)
            && (Pending(s, key) != [] ==>
                  var e := View(s.slots, DataBuffer, key)[0]; BufferOk(s, e) && s'.memory == Filled(s, e, bytes, n))
  {
    if View(s.slots, DataBuffer, key) == [] {
      BoundedSearchIsComplete(s, DataBuffer, key);
    } else {
      CopyInMemory(s, key, bytes);
      var s1 := CopyInForm(s, key, bytes);
      CopyToLocalEffect(s1, key, |bytes|);
      ViewIsOk(s, key);
      ViewIsOk(s1, key);
      OverwrittenPending(s, s1, View(s.slots, DataBuffer, key), bytes);
    }
  }

  // ----- what leaves the buffers of a key -----

  predicate ReadsFrom(op: Op, key: Key) {
    op.OpCopyToLocal? && op.key == key
  }

  predicate Resets(op: Op, key: Key) {
    op.OpReset? && (op.key == 0 || op.key == key)
  }

  predicate Overwrites(op: Op, key: Key) {
    op.OpCopyFromLocal? && op.key == key
  }

  function DeliveredBy(s: State, op: Op, key: Key): seq<bv8>
    requires BuffersOk(s)
  {
    if ReadsFrom(op, key) then CopyToLocal(s, key, op.max).1 else []
  }

  /** The unread bytes that an operation throws away or overwrites. */
  function DroppedBy(s: State, op: Op, key: Key): seq<bv8>
    requires BuffersOk(s)
  {
    if Resets(op, key) then Flat(Pending(s, key))
    else if Overwrites(op, key) then Delivery(Pending(s, key), |op.bytes|)
    else []
  }

  function QueuedBy(s: State, op: Op, key: Key): seq<bv8>
    requires Enabled(s, op)
  {
    if AddsTo(op, DataBuffer, key) then QueuedBytes(s, op) else []
  }

  /** The bytes that a run delivers from the buffers of a key. */
  function Delivered(s: State, ops: seq<Op>, key: Key): seq<bv8>
    requires Legal(s, ops)
    decreases |ops|
  {
    if ops == [] then []
    else DeliveredBy(s, ops[0], key) + Delivered(Step(s, ops[0]).value, ops[1..], key)
  }

  /** The bytes that a run throws away or overwrites in the buffers of a key. */
  function Dropped(s: State, ops: seq<Op>, key: Key): seq<bv8>
    requires Legal(s, ops)
    decreases |ops|
  {
    if ops == [] then []
    else DroppedBy(s, ops[0], key) + Dropped(Step(s, ops[0]).value, ops[1..], key)
  }

  function GoneBy(s: State, op: Op, key: Key): seq<bv8>
    requires BuffersOk(s)
  {
    DeliveredBy(s, op, key) + DroppedBy(s, op, key)
  }

  /** All bytes that leave the buffers of a key, in order. */
  function Gone(s: State, ops: seq<Op>, key: Key): seq<bv8>
    requires Legal(s, ops)
    decreases |ops|
  {
    if ops == [] then []
    else GoneBy(s, ops[0], key) + Gone(Step(s, ops[0]).value, ops[1..], key)
  }

  /** The bytes that a run queues for a key. */
  function Queued(s: State, ops: seq<Op>, key: Key): seq<bv8>
    requires Legal(s, ops)
    decreases |ops|
  {
    if ops == [] then []
    else QueuedBy(s, ops[0], key) + Queued(Step(s, ops[0]).value, ops[1..], key)
  }

  /** Nothing writes behind the back of the key's buffers: neither the caller nor a copy for another
      key into their memory, nor one for this key into memory that backs two of them. */
  predicate Tidy(s: State, op: Op, key: Key)
    requires BuffersOk(s)
  {
    if Overwrites(op, key) then Sole(s, key) else Spares(s, op, key)
  }

  predicate AllTidy(s: State, ops: seq<Op>, key: Key)
    requires Legal(s, ops)
    decreases |ops|
  {
    ops == [] || (Tidy(s, ops[0], key) && AllTidy(Step(s, ops[0]).value, ops[1..], key))
  }

  lemma ResetDrops(s: State, op: Op, key: Key)
    requires Valid(s) && BuffersOk(s) && Enabled(s, op) && Step(s, op).Some? && Resets(op, key)
    ensures BuffersOk(Step(s, op).value) && Pending(Step(s, op).value, key) == []
  {
    StepKeepsValid(s, op);
    MemInvBuffers(Step(s, op).value);
    ResetEmpties(s, op.key, DataBuffer, key);
  }

  /** What one step does to the unread bytes of a key when it adds none: some leave at the front. */
  lemma StepStreams(s: State, op: Op, key: Key)
    requires Valid(s) && BuffersOk(s) && Enabled(s, op) && Step(s, op).Some? && Tidy(s, op, key)
    requires !AddsTo(op, DataBuffer, key)
    ensures BuffersOk(Step(s, op).value)
    ensures GoneBy(s, op, key) + Flat(Pending(Step(s, op).value, key)) == Flat(Pending(s, key))
  {
    if ReadsFrom(op, key) {
      CopyToLocalEffect(s, key, op.max);
      FrontLeaves(s, Step(s, op).value, key, op.max, GoneBy(s, op, key));
    } else if Resets(op, key) {
      ResetDrops(s, op, key);
      AllLeave(Flat(Pending(s, key)));
    } else if Overwrites(op, key) {
      CopyFromLocalEffect(s, key, op.bytes);
      FrontLeaves(s, Step(s, op).value, key, |op.bytes|, GoneBy(s, op, key));
    } else {
      NoneLeave(s, op, key);
    }
  }

  lemma FrontLeaves(s: State, s': State, key: Key, max: nat, gone: seq<bv8>)
    requires BuffersOk(s) && BuffersOk(s') && Pending(s', key) == Taken(Pending(s, key), max)
    requires gone == Delivery(Pending(s, key), max)
    ensures gone + Flat(Pending(s', key)) == Flat(Pending(s, key))
  {
    DeliveryPlusRest(Pending(s, key), max);
  }

  lemma AllLeave(all: seq<bv8>)
    ensures ([] + all) + Flat<bv8>([]) == all
  {
  }

  lemma NoneLeave(s: State, op: Op, key: Key)
    requires Valid(s) && BuffersOk(s) && Enabled(s, op) && Step(s, op).Some? && Tidy(s, op, key)
    requires !AddsTo(op, DataBuffer, key) && !ReadsFrom(op, key) && !Resets(op, key) && !Overwrites(op, key)
    ensures BuffersOk(Step(s, op).value) && GoneBy(s, op, key) == []
    ensures Pending(Step(s, op).value, key) == Pending(s, key)
  {
    if op.OpSetBuffer? && op.key == key {
      assert Step(s, op).value == s;
    } else {
      PendingFrame(s, op, key);
    }
  }

  lemma BagOfParts<T>(d: seq<T>, e: seq<T>, b: seq<T>, a: seq<T>)
    requires (d + e) + b == a
    ensures multiset(d) + multiset(e) + multiset(b) == multiset(a)
  {
  }

  /** What one step does to the unread bytes of a key, as a bag. */
  lemma StepConserves(s: State, op: Op, key: Key)
    requires Valid(s) && BuffersOk(s) && Enabled(s, op) && Step(s, op).Some? && Tidy(s, op, key)
    ensures BuffersOk(Step(s, op).value)
    ensures Conserved(DeliveredBy(s, op, key), DroppedBy(s, op, key), Flat(Pending(Step(s, op).value, key)),
                      Flat(Pending(s, key)), QueuedBy(s, op, key))
  {
    if AddsTo(op, DataBuffer, key) {
      var k := SetBufferEffect(s, op);
      FlatInsert(Pending(s, key), k, QueuedBytes(s, op));
    } else {
      StepStreams(s, op, key);
      BagOfParts(DeliveredBy(s, op, key), DroppedBy(s, op, key), Flat(Pending(Step(s, op).value, key)),
                 Flat(Pending(s, key)));
    }
  }

  /** Delivered, dropped and still unread bytes together are those that were there and were queued. */
  ghost predicate Conserved<T>(delivered: seq<T>, dropped: seq<T>, after: seq<T>, before: seq<T>, queued: seq<T>) {
    multiset(delivered) + multiset(dropped) + multiset(after) == multiset(before) + multiset(queued)
  }

  lemma BagSum<T>(d: multiset<T>, dd: multiset<T>, a: multiset<T>, b: multiset<T>, c: multiset<T>,
                  q: multiset<T>, qq: multiset<T>)
    requires d + b == a + q && dd + c == b + qq
    ensures (d + dd) + c == a + (q + qq)
  {
    forall x ensures ((d + dd) + c)[x] == (a + (q + qq))[x] {
      assert (d + b)[x] == (a + q)[x] && (dd + c)[x] == (b + qq)[x];
    }
  }

  lemma BagChain<T>(d: seq<T>, dd: seq<T>, a: seq<T>, b: seq<T>, c: seq<T>, q: seq<T>, qq: seq<T>)
    requires multiset(d) + multiset(b) == multiset(a) + multiset(q)
    requires multiset(dd) + multiset(c) == multiset(b) + multiset(qq)
    ensures multiset(d + dd) + multiset(c) == multiset(a) + multiset(q + qq)
  {
    BagSum(multiset(d), multiset(dd), multiset(a), multiset(b), multiset(c), multiset(q), multiset(qq));
  }

  lemma ConservedChains<T>(d: seq<T>, e: seq<T>, dd: seq<T>, ee: seq<T>, a: seq<T>, b: seq<T>, c: seq<T>, q: seq<T>,
                           qq: seq<T>)
    requires Conserved(d, e, b, a, q) && Conserved(dd, ee, c, b, qq)
    ensures Conserved(d + dd, e + ee, c, a, q + qq)
  {
    BagSum(multiset(d) + multiset(e), multiset(dd) + multiset(ee), multiset(a), multiset(b), multiset(c),
           multiset(q), multiset(qq));
    assert multiset(d + dd) + multiset(e + ee) == (multiset(d) + multiset(e)) + (multiset(dd) + multiset(ee));
  }

  /** Conservation over every run: what was delivered, what was thrown away or overwritten and what is
      still unread are together what was there and what was queued. */
  lemma {:induction false} RunConserves(s: State, ops: seq<Op>, key: Key)
    requires Valid(s) && BuffersOk(s) && Legal(s, ops) && AllTidy(s, ops, key)
    ensures BuffersOk(Run(s, ops))
    ensures Conserved(Delivered(s, ops, key), Dropped(s, ops, key), Flat(Pending(Run(s, ops), key)),
                      Flat(Pending(s, key)), Queued(s, ops, key))
    decreases |ops|
  {
    if ops != [] {
      StepConserves(s, ops[0], key);
      StepKeepsValid(s, ops[0]);
      var s' := Step(s, ops[0]).value;
      RunConserves(s', ops[1..], key);
      ConservedChains(DeliveredBy(s, ops[0], key), DroppedBy(s, ops[0], key), Delivered(s', ops[1..], key),
                      Dropped(s', ops[1..], key), Flat(Pending(s, key)), Flat(Pending(s', key)),
                      Flat(Pending(Run(s', ops[1..]), key)), QueuedBy(s, ops[0], key), Queued(s', ops[1..], key));
    }
  }

  lemma StreamChains<T>(g: seq<T>, gg: seq<T>, a: seq<T>, b: seq<T>, c: seq<T>)
    requires g + b == a && gg + c == b
    ensures (g + gg) + c == a
  {
  }

  lemma {:induction false} RunLets(s: State, ops: seq<Op>, key: Key)
    requires Valid(s) && BuffersOk(s) && Legal(s, ops) && AllTidy(s, ops, key)
    requires forall op | op in ops :: !AddsTo(op, DataBuffer, key)
    ensures BuffersOk(Run(s, ops))
    ensures Gone(s, ops, key) + Flat(Pending(Run(s, ops), key)) == Flat(Pending(s, key))
    decreases |ops|
  {
    if ops != [] {
      assert !AddsTo(ops[0], DataBuffer, key);
      var s' := Step(s, ops[0]).value;
      StepStreams(s, ops[0], key);
      StepKeepsValid(s, ops[0]);
      RunLets(s', ops[1..], key);
      StreamChains(GoneBy(s, ops[0], key), Gone(s', ops[1..], key),
                   Flat(Pending(s, key)), Flat(Pending(s', key)), Flat(Pending(Run(s', ops[1..]), key)));
    }
  }

  /** The run neither resets the key nor copies into its buffers. */
  predicate OnlyReads(ops: seq<Op>, key: Key) {
    forall op | op in ops :: !Resets(op, key) && !Overwrites(op, key)
  }

  lemma {:induction false} GoneIsDelivered(s: State, ops: seq<Op>, key: Key)
    requires Legal(s, ops) && OnlyReads(ops, key)
    ensures Gone(s, ops, key) == Delivered(s, ops, key)
    decreases |ops|
  {
    if ops != [] {
      assert !Resets(ops[0], key) && !Overwrites(ops[0], key);
      GoneIsDelivered(Step(s, ops[0]).value, ops[1..], key);
    }
  }

  /** With nothing queued meanwhile, the bytes leave in order, whatever the sizes asked for; and what leaves is
      what is delivered, unless the run resets the key or copies into its buffers. */
  lemma {:induction false} RunStreams(s: State, ops: seq<Op>, key: Key)
    requires Valid(s) && BuffersOk(s) && Legal(s, ops) && AllTidy(s, ops, key)
    requires forall op | op in ops :: !AddsTo(op, DataBuffer, key)
    ensures BuffersOk(Run(s, ops))
    ensures Gone(s, ops, key) + Flat(Pending(Run(s, ops), key)) == Flat(Pending(s, key))
    ensures OnlyReads(ops, key) ==> Delivered(s, ops, key) + Flat(Pending(Run(s, ops), key)) == Flat(Pending(s, key))
  {
    RunLets(s, ops, key);
    if OnlyReads(ops, key) { GoneIsDelivered(s, ops, key); }
  }
}

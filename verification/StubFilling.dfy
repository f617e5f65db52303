/**
Copies into a caller's buffer, over whole runs: successive calls of UT_Stub_CopyFromLocal fill a buffer
that was queued without a copy consecutively, however the bytes are divided among the calls.
*/
module StubFilling {
  import opened Options
  import opened StubTable
  import opened StubInvariant
  import opened StubMemory
  import opened StubOrder
  import opened StubEffects
  import opened StubBuffers
  import opened StubConservation

  // ----- a run of copies -----

  /** The bytes that a run hands to UT_Stub_CopyFromLocal for a key. */
  function Handed(ops: seq<Op>, key: Key): seq<bv8> {
    if ops == [] then [] else (if Overwrites(ops[0], key) then ops[0].bytes else []) + Handed(ops[1..], key)
  }

  /** How many of them the calls say they have copied, together. */
  function Copied(s: State, ops: seq<Op>, key: Key): nat
    requires Legal(s, ops)
    decreases |ops|
  {
    if ops == [] then 0
    else
      (if Overwrites(ops[0], key) then CopyFromLocal(s, key, ops[0].bytes).1 else 0)
      + Copied(Step(s, ops[0]).value, ops[1..], key)
  }

  /** Whatever else happens leaves the buffers of the key and the memory alone. */
  predicate Quiet(s: State, ops: seq<Op>, key: Key, a: Address)
    requires Legal(s, ops)
    decreases |ops|
  {
    ops == [] ||
    (var s' := Step(s, ops[0]).value;
     && (Overwrites(ops[0], key) || (!Concerns(ops[0], DataBuffer, key) && SameBytes(s, s', a)))
     && Quiet(s', ops[1..], key, a))
  }

  /** The one buffer of the key: the caller's own memory, with the first p of its total bytes filled. */
  predicate Filling(s: State, key: Key, a: Address, total: nat, p: nat) {
    && View(s.slots, DataBuffer, key) == [Entry(DataBuffer, key, false, Buff(a, total, p))]
    && a in s.memory && p < total <= |s.memory[a]|
  }

  function Put(m: seq<bv8>, p: nat, bytes: seq<bv8>): (r: seq<bv8>)
    requires p + |bytes| <= |m|
    ensures |r| == |m|
  {
    m[..p] + bytes + m[p + |bytes|..]
  }

  // ----- one copy -----

  lemma FilledPlace(s: State, e: Entry, bytes: seq<bv8>, n: nat)
    requires BufferOk(s, e) && n <= |bytes| && n <= e.data.total - e.data.position && !e.allocFlag
    ensures var a, m := e.data.base, Filled(s, e, bytes, n);
            a in m && m[a] == Put(s.memory[a], e.data.position, bytes[..n])
  {
  }

  lemma CopyWrites(s: State, key: Key, bytes: seq<bv8>, e: Entry)
    requires Valid(s) && BuffersOk(s) && View(s.slots, DataBuffer, key) == [e] && BufferOk(s, e) && !e.allocFlag
    ensures var (s', n), a := CopyFromLocal(s, key, bytes), e.data.base;
            && n == Min(|bytes|, e.data.total - e.data.position)
            && a in s'.memory && s'.memory[a] == Put(s.memory[a], e.data.position, bytes[..n])
  {
    CopyInMemory(s, key, bytes);
    FilledPlace(s, e, bytes, CopyFromLocal(s, key, bytes).1);
  }

  lemma AdvancedSlots(s: State, i: nat, n: nat, e: Entry)
    requires i < SLOTS && s.slots[i] == e && e.data.Buff?
    ensures Advance(s, i, n).slots == s.slots[i := if e.data.position + n >= e.data.total then Zero() else Moved(e, n)]
  {
  }

  lemma CopyAdvances(s: State, key: Key, bytes: seq<bv8>, e: Entry)
    requires Valid(s) && BuffersOk(s) && View(s.slots, DataBuffer, key) == [e] && e.data.Buff? && !e.allocFlag
    requires e.data.position < e.data.total
    ensures var n, i := Amount(e.data, |bytes|), HeadSlot(s.slots, DataBuffer, key);
            CopyFromLocal(s, key, bytes).0.slots ==
            s.slots[i := if e.data.position + n >= e.data.total then Zero() else Moved(e, n)]
  {
    var n, i := Amount(e.data, |bytes|), HeadSlot(s.slots, DataBuffer, key);
    FoundBuffer(s, key);
    var s1 := Overwritten(s, e.data, bytes);
    assert CopyFromLocal(s, key, bytes).0 == Advance(s1, i, n);
    AdvancedSlots(s1, i, n, e);
  }

  lemma CopyMovesOn(s: State, key: Key, bytes: seq<bv8>, e: Entry)
    requires Valid(s) && BuffersOk(s) && View(s.slots, DataBuffer, key) == [e] && e.data.Buff? && !e.allocFlag
    requires e.data.position < e.data.total && Holds(e, DataBuffer, key)
    ensures var n := Amount(e.data, |bytes|);
            View(CopyFromLocal(s, key, bytes).0.slots, DataBuffer, key) ==
            if e.data.position + n >= e.data.total then [] else [Moved(e, n)]
  {
    CopyAdvances(s, key, bytes, e);
    if e.data.position + Amount(e.data, |bytes|) >= e.data.total {
      ViewOfClearedHead(s.slots, DataBuffer, key);
    } else {
      ViewOfRewrittenHead(s.slots, DataBuffer, key, Moved(e, Amount(e.data, |bytes|)));
    }
  }

  lemma CopyFillsUp(s: State, s': State, key: Key, bytes: seq<bv8>, a: Address, total: nat, p: nat)
    requires Valid(s) && BuffersOk(s) && Filling(s, key, a, total, p) && |bytes| >= total - p
    requires s' == CopyFromLocal(s, key, bytes).0
    ensures CopyFromLocal(s, key, bytes).1 == total - p && View(s'.slots, DataBuffer, key) == []
    ensures a in s'.memory && s'.memory[a] == Put(s.memory[a], p, bytes[..total - p])
  {
    var e := Entry(DataBuffer, key, false, Buff(a, total, p));
    CopyWrites(s, key, bytes, e);
    CopyMovesOn(s, key, bytes, e);
  }

  lemma CopyFillsOn(s: State, s': State, key: Key, bytes: seq<bv8>, a: Address, total: nat, p: nat)
    requires Valid(s) && BuffersOk(s) && Filling(s, key, a, total, p) && |bytes| < total - p
    requires s' == CopyFromLocal(s, key, bytes).0
    ensures CopyFromLocal(s, key, bytes).1 == |bytes| && Filling(s', key, a, total, p + |bytes|)
    ensures s'.memory[a] == Put(s.memory[a], p, bytes)
  {
    var e := Entry(DataBuffer, key, false, Buff(a, total, p));
    assert bytes[..|bytes|] == bytes && Amount(e.data, |bytes|) == |bytes|;
    assert Moved(e, |bytes|) == Entry(DataBuffer, key, false, Buff(a, total, p + |bytes|));
    CopyWrites(s, key, bytes, e);
    CopyMovesOn(s, key, bytes, e);
  }

  /** What one copy has done to the memory, and what is left of the buffer. */
  predicate FirstCopied(s': State, m: seq<bv8>, bytes: seq<bv8>, n: nat, key: Key, a: Address, total: nat, p: nat)
    requires p < total <= |m|
  {
    if |bytes| >= total - p then
      && n == total - p && View(s'.slots, DataBuffer, key) == []
      && a in s'.memory && s'.memory[a] == Put(m, p, bytes[..total - p])
    else
      n == |bytes| && Filling(s', key, a, total, p + |bytes|) && s'.memory[a] == Put(m, p, bytes)
  }

  lemma CopyFills(s: State, s': State, key: Key, bytes: seq<bv8>, a: Address, total: nat, p: nat)
    requires Valid(s) && BuffersOk(s) && Filling(s, key, a, total, p) && s' == CopyFromLocal(s, key, bytes).0
    ensures FirstCopied(s', s.memory[a], bytes, CopyFromLocal(s, key, bytes).1, key, a, total, p)
  {
    if |bytes| >= total - p {
      CopyFillsUp(s, s', key, bytes, a, total, p);
    } else {
      CopyFillsOn(s, s', key, bytes, a, total, p);
    }
  }

  lemma CopyIntoNothing(s: State, key: Key, bytes: seq<bv8>)
    requires Inv(s) && BuffersOk(s) && View(s.slots, DataBuffer, key) == []
    ensures CopyFromLocal(s, key, bytes) == (s, 0)
  {
    BoundedSearchIsComplete(s, DataBuffer, key);
  }

  lemma OtherStays(s: State, op: Op, key: Key, a: Address)
    requires Valid(s) && BuffersOk(s) && Enabled(s, op) && Step(s, op).Some?
    requires !Concerns(op, DataBuffer, key) && SameBytes(s, Step(s, op).value, a)
    ensures View(Step(s, op).value.slots, DataBuffer, key) == View(s.slots, DataBuffer, key)
  {
    StepFrame(s, op, DataBuffer, key);
  }

  // ----- the run -----

  /** Bytes fill memory from p on, as many of them as there is room for up to the total, and the count is how many. */
  predicate Fills(m: seq<bv8>, m': seq<bv8>, p: nat, total: nat, bytes: seq<bv8>, count: nat) {
    p < total <= |m| && count == Min(|bytes|, total - p) && m' == Put(m, p, bytes[..count])
  }

  lemma FillsNone(m: seq<bv8>, p: nat, total: nat)
    requires p < total <= |m|
    ensures Fills(m, m, p, total, [], 0)
  {
  }

  /** The buffer is filled up by the first of the bytes. */
  lemma FillsUp(m: seq<bv8>, m1: seq<bv8>, p: nat, total: nat, bytes: seq<bv8>, rest: seq<bv8>, count: nat)
    requires p < total <= |m| && |bytes| >= total - p == count && m1 == Put(m, p, bytes[..total - p])
    ensures Fills(m, m1, p, total, bytes + rest, count)
  {
    assert (bytes + rest)[..total - p] == bytes[..total - p];
  }

  lemma PutTwice(m: seq<bv8>, p: nat, a: seq<bv8>, b: seq<bv8>)
    requires p + |a| + |b| <= |m|
    ensures Put(Put(m, p, a), p + |a|, b) == Put(m, p, a + b)
  {
  }

  /** Or there is room for the rest behind them. */
  lemma FillsOn(m: seq<bv8>, m1: seq<bv8>, m2: seq<bv8>, p: nat, total: nat, bytes: seq<bv8>, n: nat, rest: seq<bv8>,
                k: nat)
    requires p + |bytes| < total <= |m| && n == |bytes|
    requires m1 == Put(m, p, bytes) && Fills(m1, m2, p + |bytes|, total, rest, k)
    ensures Fills(m, m2, p, total, bytes + rest, n + k)
  {
    assert (bytes + rest)[..|bytes| + k] == bytes + rest[..k];
    PutTwice(m, p, bytes, rest[..k]);
  }

  lemma {:induction false} NothingFills(s: State, ops: seq<Op>, key: Key, a: Address)
    requires Valid(s) && Legal(s, ops) && Quiet(s, ops, key, a) && View(s.slots, DataBuffer, key) == [] && a in s.memory
    ensures SameBytes(s, Run(s, ops), a) && Copied(s, ops, key) == 0
    decreases |ops|
  {
    if ops != [] {
      if Overwrites(ops[0], key) {
        CopyIntoNothing(s, key, ops[0].bytes);
      } else {
        OtherStays(s, ops[0], key, a);
      }
      StepKeepsValid(s, ops[0]);
      NothingFills(Step(s, ops[0]).value, ops[1..], key, a);
    }
  }

  /** Over any run that leaves the buffer alone otherwise, the bytes handed in are in the buffer one after the
      other, as many as there is room for, and their number is what the calls return together. */
  lemma {:induction false} CopiesFill(s: State, ops: seq<Op>, key: Key, a: Address, total: nat, p: nat)
    requires Valid(s) && Legal(s, ops) && Quiet(s, ops, key, a) && Filling(s, key, a, total, p)
    ensures a in Run(s, ops).memory
    ensures Fills(s.memory[a], Run(s, ops).memory[a], p, total, Handed(ops, key), Copied(s, ops, key))
    decreases |ops|, 0
  {
    if ops == [] {
      FillsNone(s.memory[a], p, total);
    } else {
      var s' := Step(s, ops[0]).value;
      StepKeepsValid(s, ops[0]);
      if Overwrites(ops[0], key) {
        CopyFills(s, s', key, ops[0].bytes, a, total, p);
        RestFills(s', s.memory[a], ops[0].bytes, CopyFromLocal(s, key, ops[0].bytes).1, ops[1..], key, a, total, p);
      } else {
        OtherStays(s, ops[0], key, a);
        CopiesFill(s', ops[1..], key, a, total, p);
        assert [] + Handed(ops[1..], key) == Handed(ops[1..], key);
      }
    }
  }

  /** The rest of a run after the first bytes were copied. */
  lemma {:induction false} RestFills(s': State, m: seq<bv8>, bytes: seq<bv8>, n: nat, ops: seq<Op>, key: Key,
                                     a: Address, total: nat, p: nat)
    requires p < total <= |m| && FirstCopied(s', m, bytes, n, key, a, total, p)
    requires Valid(s') && Legal(s', ops) && Quiet(s', ops, key, a)
    ensures a in Run(s', ops).memory
    ensures Fills(m, Run(s', ops).memory[a], p, total, bytes + Handed(ops, key), n + Copied(s', ops, key))
    decreases |ops|, 2
  {
    if |bytes| >= total - p {
      RestAfterFull(s', m, bytes, n, ops, key, a, total, p);
    } else {
      RestAfterPart(s', m, bytes, n, ops, key, a, total, p);
    }
  }

  lemma {:induction false} RestAfterFull(s': State, m: seq<bv8>, bytes: seq<bv8>, n: nat, ops: seq<Op>, key: Key,
                                         a: Address, total: nat, p: nat)
    requires Valid(s') && Legal(s', ops) && Quiet(s', ops, key, a) && View(s'.slots, DataBuffer, key) == []
    requires p < total <= |m| && |bytes| >= total - p == n
    requires a in s'.memory && s'.memory[a] == Put(m, p, bytes[..total - p])
    ensures a in Run(s', ops).memory
    ensures Fills(m, Run(s', ops).memory[a], p, total, bytes + Handed(ops, key), n + Copied(s', ops, key))
  {
    NothingFills(s', ops, key, a);
    FillsUp(m, Run(s', ops).memory[a], p, total, bytes, Handed(ops, key), n + Copied(s', ops, key));
  }

  lemma {:induction false} RestAfterPart(s': State, m: seq<bv8>, bytes: seq<bv8>, n: nat, ops: seq<Op>, key: Key,
                                         a: Address, total: nat, p: nat)
    requires Valid(s') && Legal(s', ops) && Quiet(s', ops, key, a) && Filling(s', key, a, total, p + |bytes|)
    requires p + |bytes| < total <= |m| && |bytes| == n && s'.memory[a] == Put(m, p, bytes)
    ensures a in Run(s', ops).memory
    ensures Fills(m, Run(s', ops).memory[a], p, total, bytes + Handed(ops, key), n + Copied(s', ops, key))
    decreases |ops|, 1
  {
    CopiesFill(s', ops, key, a, total, p + |bytes|);
    FillsOn(m, s'.memory[a], Run(s', ops).memory[a], p, total, bytes, n, Handed(ops, key), Copied(s', ops, key));
  }
}

/**
The fake object IDs of the operating system stubs: an index and a type packed into one word, and
for each type a counter of issued indexes with a bitmap of those in use. All of them are cleared by
the first allocation or deletion after a reset of the stub table.
*/
module ObjIds {
  import opened Options
  import StubTable
  import opened StubInvariant
  import M = StubMemory
  import StubCalls
  import opened StubMachine

  const TYPES := 16
  const BYTES := 16
  const BITS := 128

  // ----- packing -----

  function Compose(index: bv32, objType: bv32): bv32 {
    index | ((0x4000 | objType) << 16)
  }

  function Decompose(id: bv32): (bv32, bv32) {
    (id & 0xFFFF, (id >> 16) ^ 0x4000)
  }

  lemma UnpackedIndex(index: bv32, high: bv32)
    ensures (index | (high << 16)) & 0xFFFF == index <==> index & 0xFFFF0000 == 0
  {
  }

  lemma UnpackedHigh(index: bv32, high: bv32)
    requires index & 0xFFFF0000 == 0
    ensures (index | (high << 16)) >> 16 == high & 0xFFFF
  {
  }

  lemma UnpackedType(objType: bv32)
    ensures ((0x4000 | objType) & 0xFFFF) ^ 0x4000 == objType <==> objType & 0xFFFF4000 == 0
  {
  }

  /** Unpacking gives back what was packed exactly for 16-bit indexes and 16-bit types without the marker bit. */
  lemma DecomposeCompose(index: bv32, objType: bv32)
    ensures Decompose(Compose(index, objType)) == (index, objType) <==>
            index & 0xFFFF0000 == 0 && objType & 0xFFFF4000 == 0
  {
    var high := 0x4000 | objType;
    UnpackedIndex(index, high);
    if index & 0xFFFF0000 == 0 {
      UnpackedHigh(index, high);
      UnpackedType(objType);
    }
  }

  /** Packing gives back exactly the IDs that carry the marker bit. */
  lemma ComposeDecompose(id: bv32)
    ensures Compose(Decompose(id).0, Decompose(id).1) == id <==> id & 0x40000000 != 0
  {
  }

  lemma DifferentIds(i: bv32, j: bv32, s: bv32, t: bv32)
    requires i & 0xFFFF0000 == 0 && j & 0xFFFF0000 == 0 && s & 0xFFFF4000 == 0 && t & 0xFFFF4000 == 0
    ensures Compose(i, s) == Compose(j, t) <==> i == j && s == t
  {
    DecomposeCompose(i, s);
    DecomposeCompose(j, t);
  }

  // ----- one type: the reference -----

  /** The last index issued and those in use. */
  datatype Pool = Pool(last: nat, live: set<nat>)

  datatype Op = Alloc | Delete(index: nat)

  function NextIndex(p: Pool): nat {
    if p.last < BITS - 1 then p.last + 1 else p.last
  }

  function Step(p: Pool, op: Op): Pool {
    match op
    case Alloc => Pool(NextIndex(p), p.live + {NextIndex(p)})
    case Delete(index) => p.(live := p.live - {index})
  }

  /** The indexes that a run issues, in order, each with whether it was reported as still in use. */
  function Issued(p: Pool, ops: seq<Op>): seq<(nat, bool)>
    decreases |ops|
  {
    if ops == [] then []
    else (if ops[0].Alloc? then [(NextIndex(p), NextIndex(p) in p.live)] else []) + Issued(Step(p, ops[0]), ops[1..])
  }

  predicate Sound(p: Pool) {
    p.last < BITS && forall i | i in p.live :: 0 < i <= p.last
  }

  function Capped(n: nat): nat {
    if n < BITS - 1 then n else BITS - 1
  }

  /** The n-th index issued is n, up to the last one, which is issued ever after; an index is reported
      as in use only when it is that last one issued again. */
  lemma {:induction false} IssuedInTurn(p: Pool, ops: seq<Op>, n: nat)
    requires Sound(p) && n < |Issued(p, ops)|
    ensures Issued(p, ops)[n].0 == Capped(p.last + 1 + n)
    ensures Issued(p, ops)[n].1 ==> p.last + 1 + n >= BITS
    decreases |ops|
  {
    var p' := Step(p, ops[0]);
    if ops[0].Alloc? {
      if n > 0 { IssuedInTurn(p', ops[1..], n - 1); }
    } else {
      IssuedInTurn(p', ops[1..], n);
    }
  }

  /** From a cleared pool: the first 127 indexes issued are all different, and only 127 is ever reused. */
  lemma ReusedOnlyAtTheEnd(ops: seq<Op>, i: nat, j: nat)
    requires var issued := Issued(Pool(0, {}), ops); i < j < |issued|
    ensures var issued := Issued(Pool(0, {}), ops);
            issued[i].0 == issued[j].0 <==> i >= BITS - 2
  {
    IssuedInTurn(Pool(0, {}), ops, i);
    IssuedInTurn(Pool(0, {}), ops, j);
  }

  // ----- what is in use -----

  /** What has happened to the indexes of a type, in order. */
  datatype Mark = Issue(index: nat) | Drop(index: nat)

  /** An index was issued, and not deleted since. */
  predicate InUse(log: seq<Mark>, i: nat) {
    exists k | 0 <= k < |log| :: log[k] == Issue(i) && forall j | k < j < |log| :: log[j] != Drop(i)
  }

  lemma InUseAfterIssue(log: seq<Mark>, j: nat, i: nat)
    ensures InUse(log + [Issue(j)], i) <==> i == j || InUse(log, i)
  {
    var log' := log + [Issue(j)];
    if k :| 0 <= k < |log| && log[k] == Issue(i) && forall m | k < m < |log| :: log[m] != Drop(i) {
      assert log'[k] == Issue(i);
    }
    if i == j { assert log'[|log|] == Issue(i); }
    if k :| 0 <= k < |log'| && log'[k] == Issue(i) && forall m | k < m < |log'| :: log'[m] != Drop(i) {
      if k < |log| { assert log[k] == Issue(i) && forall m | k < m < |log| :: log[m] == log'[m]; }
    }
  }

  lemma InUseAfterDrop(log: seq<Mark>, j: nat, i: nat)
    ensures InUse(log + [Drop(j)], i) <==> i != j && InUse(log, i)
  {
    var log' := log + [Drop(j)];
    if i != j {
      if k :| 0 <= k < |log| && log[k] == Issue(i) && forall m | k < m < |log| :: log[m] != Drop(i) {
        assert log'[k] == Issue(i);
      }
    }
    if k :| 0 <= k < |log'| && log'[k] == Issue(i) && forall m | k < m < |log'| :: log'[m] != Drop(i) {
      assert k < |log| && log[k] == Issue(i) && forall m | k < m < |log| :: log[m] == log'[m];
      assert log'[|log|] == Drop(j);
    }
  }

  /** A pool has exactly what is in use. */
  ghost predicate Keeps(p: Pool, log: seq<Mark>) {
    forall i: nat :: i in p.live <==> InUse(log, i)
  }

  lemma StepKeeps(p: Pool, op: Op, log: seq<Mark>)
    requires Keeps(p, log)
    ensures Keeps(Step(p, op), log + [if op.Alloc? then Issue(NextIndex(p)) else Drop(op.index)])
  {
    forall i: nat
      ensures i in Step(p, op).live <==>
              InUse(log + [if op.Alloc? then Issue(NextIndex(p)) else Drop(op.index)], i)
    {
      match op
      case Alloc => InUseAfterIssue(log, NextIndex(p), i);
      case Delete(index) => InUseAfterDrop(log, index, i);
    }
  }

  /** What has happened to the indexes before the n-th one is issued. */
  function MarksBefore(p: Pool, ops: seq<Op>, n: nat, log: seq<Mark>): seq<Mark>
    decreases |ops|
  {
    if ops == [] then log
    else match ops[0]
      case Alloc => if n == 0 then log else MarksBefore(Step(p, ops[0]), ops[1..], n - 1, log + [Issue(NextIndex(p))])
      case Delete(index) => MarksBefore(Step(p, ops[0]), ops[1..], n, log + [Drop(index)])
  }

  /** An index is reported as still in use if and only if it was issued before and not deleted since. */
  lemma {:induction false} ReuseIsReported(p: Pool, ops: seq<Op>, n: nat, log: seq<Mark>)
    requires Keeps(p, log) && n < |Issued(p, ops)|
    ensures Issued(p, ops)[n].1 <==> InUse(MarksBefore(p, ops, n, log), Issued(p, ops)[n].0)
    decreases |ops|
  {
    var p' := Step(p, ops[0]);
    StepKeeps(p, ops[0], log);
    match ops[0]
    case Alloc => if n > 0 { ReuseIsReported(p', ops[1..], n - 1, log + [Issue(NextIndex(p))]); }
    case Delete(index) => ReuseIsReported(p', ops[1..], n, log + [Drop(index)]);
  }

  // ----- all types, and the clearing after a reset -----

  /** The stub table, with its record of functions called once, and the pools of all types. */
  datatype Fakes = Fakes(table: StubTable.State, pools: seq<Pool>)

  /** What a test does: allocations and deletions, each naming a type, and other use of the stub table. */
  datatype IdOp = AllocId(objType: nat) | DeleteId(objType: nat, index: nat) | Other(op: StubTable.Op)

  function Cleared(): (pools: seq<Pool>)
    ensures |pools| == TYPES && forall t | 0 <= t < TYPES :: pools[t] == Pool(0, {})
  {
    seq(TYPES, t => Pool(0, {}))
  }

  /** UT_Stub_CallOnce with UT_ClearAllStubObjects, whose address is the key; None when the table is full. */
  function Begin(f: Fakes, key: StubTable.Key): Option<Fakes> {
    match StubTable.CallOnceOp(f.table, key)
    case Abort => None
    case Done(table, run) => Some(Fakes(table, if run then Cleared() else f.pools))
  }

  function PoolStep(f: Fakes, t: nat, op: Op): Fakes
    requires t < |f.pools|
  {
    f.(pools := f.pools[t := Step(f.pools[t], op)])
  }

  predicate IdEnabled(f: Fakes, op: IdOp) {
    && M.Valid(f.table) && |f.pools| == TYPES
    && (op.Other? ==> StubTable.Enabled(f.table, op.op)) && (op.DeleteId? ==> op.objType < TYPES)
  }

  /** One step; None when the test is aborted, as it is for an allocation of an unknown type. */
  function IdStep(f: Fakes, key: StubTable.Key, op: IdOp): (r: Option<Fakes>)
    requires IdEnabled(f, op)
  {
    match op
    case AllocId(t) =>
      if Begin(f, key).None? || t == 0 || t >= TYPES then None else Some(PoolStep(Begin(f, key).value, t, Alloc))
    case DeleteId(t, index) =>
      if Begin(f, key).None? then None else Some(PoolStep(Begin(f, key).value, t, Delete(index)))
    case Other(o) =>
      M.MemInvBuffers(f.table);
      if o == StubTable.OpCallOnce(key) then Begin(f, key)
      else if StubTable.Step(f.table, o).None? then None
      else Some(f.(table := StubTable.Step(f.table, o).value))
  }

  predicate IdLegal(f: Fakes, key: StubTable.Key, ops: seq<IdOp>)
    decreases |ops|
  {
    ops == [] ||
    (IdEnabled(f, ops[0]) && IdStep(f, key, ops[0]).Some? && IdLegal(IdStep(f, key, ops[0]).value, key, ops[1..]))
  }

  predicate Resets(op: IdOp, key: StubTable.Key) {
    op.Other? && op.op.OpReset? && (op.op.key == 0 || op.op.key == key)
  }

  /** The indexes of a type issued since the last reset, given those before the step. */
  function IssuedAfter(f: Fakes, key: StubTable.Key, op: IdOp, t: nat, before: seq<nat>): seq<nat>
    requires IdEnabled(f, op) && t < TYPES
  {
    if Resets(op, key) then []
    else if op == AllocId(t) && Begin(f, key).Some? && |Begin(f, key).value.pools| == TYPES
    then before + [NextIndex(Begin(f, key).value.pools[t])]
    else before
  }

  function IssuedSince(f: Fakes, key: StubTable.Key, ops: seq<IdOp>, t: nat, before: seq<nat>): seq<nat>
    requires IdLegal(f, key, ops) && t < TYPES
    decreases |ops|
  {
    if ops == [] then before
    else IssuedSince(IdStep(f, key, ops[0]).value, key, ops[1..], t, IssuedAfter(f, key, ops[0], t, before))
  }

  /** In turn from one, up to the last index, which is issued ever after. */
  predicate InTurn(issued: seq<nat>) {
    forall i | 0 <= i < |issued| :: issued[i] == Capped(i + 1)
  }

  predicate Recorded(f: Fakes, key: StubTable.Key) {
    Present(f.table.slots, StubTable.CallOnce, key)
  }

  /** Since the last reset nothing was issued, or the pool counts what was. */
  predicate Counts(f: Fakes, key: StubTable.Key, t: nat, issued: seq<nat>) {
    && M.Valid(f.table) && |f.pools| == TYPES && t < TYPES && InTurn(issued)
    && (if Recorded(f, key) then f.pools[t].last == Capped(|issued|) else issued == [])
  }

  lemma BeginCounts(f: Fakes, key: StubTable.Key, t: nat, issued: seq<nat>)
    requires key != 0 && Counts(f, key, t, issued) && Begin(f, key).Some?
    ensures Counts(Begin(f, key).value, key, t, issued) && Recorded(Begin(f, key).value, key)
  {
    M.MemInvBuffers(f.table);
    StubCalls.CallOnceRunsIffAbsent(f.table, key);
    M.StepKeepsValid(f.table, StubTable.OpCallOnce(key));
  }

  lemma OtherCounts(f: Fakes, key: StubTable.Key, op: StubTable.Op, t: nat, issued: seq<nat>)
    requires key != 0 && Counts(f, key, t, issued) && IdEnabled(f, Other(op)) && IdStep(f, key, Other(op)).Some?
    requires op != StubTable.OpCallOnce(key)
    ensures Counts(IdStep(f, key, Other(op)).value, key, t, if Resets(Other(op), key) then [] else issued)
  {
    M.MemInvBuffers(f.table);
    StubCalls.StepCallsOnce(f.table, op, key);
    M.StepKeepsValid(f.table, op);
    assert [op][1..] == [];
  }

  lemma StepCounts(f: Fakes, key: StubTable.Key, op: IdOp, t: nat, issued: seq<nat>)
    requires key != 0 && Counts(f, key, t, issued) && IdEnabled(f, op) && IdStep(f, key, op).Some?
    ensures Counts(IdStep(f, key, op).value, key, t, IssuedAfter(f, key, op, t, issued))
  {
    if op.Other? && op.op != StubTable.OpCallOnce(key) {
      OtherCounts(f, key, op.op, t, issued);
    } else {
      BeginCounts(f, key, t, issued);
    }
  }

  /** Over any run, the indexes of a type issued since the last reset are issued in turn. */
  lemma {:induction false} IssuedSinceReset(f: Fakes, key: StubTable.Key, ops: seq<IdOp>, t: nat, before: seq<nat>)
    requires key != 0 && Counts(f, key, t, before) && IdLegal(f, key, ops)
    ensures InTurn(IssuedSince(f, key, ops, t, before))
    decreases |ops|
  {
    if ops != [] {
      StepCounts(f, key, ops[0], t, before);
      IssuedSinceReset(IdStep(f, key, ops[0]).value, key, ops[1..], t, IssuedAfter(f, key, ops[0], t, before));
    }
  }

  /** Between resets two issued indexes of a type are equal if and only if both are the last one, so the
      first 127 are all different. */
  lemma DistinctBetweenResets(f: Fakes, key: StubTable.Key, ops: seq<IdOp>, t: nat, i: nat, j: nat)
    requires key != 0 && M.Valid(f.table) && |f.pools| == TYPES && t < TYPES && !Recorded(f, key)
             && IdLegal(f, key, ops)
    requires i < j < |IssuedSince(f, key, ops, t, [])|
    ensures var issued := IssuedSince(f, key, ops, t, []); issued[i] == issued[j] <==> i >= BITS - 2
  {
    IssuedSinceReset(f, key, ops, t, []);
  }

  // ----- what is in use since a reset -----

  /** What has happened to the indexes of a type since the last reset, given that before the step. */
  function MarksAfter(f: Fakes, key: StubTable.Key, op: IdOp, t: nat, log: seq<Mark>): seq<Mark>
    requires IdEnabled(f, op) && t < TYPES
  {
    if Resets(op, key) then []
    else if op == AllocId(t) && Begin(f, key).Some? && |Begin(f, key).value.pools| == TYPES
    then log + [Issue(NextIndex(Begin(f, key).value.pools[t]))]
    else if op.DeleteId? && op.objType == t then log + [Drop(op.index)]
    else log
  }

  function MarksSince(f: Fakes, key: StubTable.Key, ops: seq<IdOp>, t: nat, log: seq<Mark>): seq<Mark>
    requires IdLegal(f, key, ops) && t < TYPES
    decreases |ops|
  {
    if ops == [] then log
    else MarksSince(IdStep(f, key, ops[0]).value, key, ops[1..], t, MarksAfter(f, key, ops[0], t, log))
  }

  function IdRun(f: Fakes, key: StubTable.Key, ops: seq<IdOp>): Fakes
    requires IdLegal(f, key, ops)
    decreases |ops|
  {
    if ops == [] then f else IdRun(IdStep(f, key, ops[0]).value, key, ops[1..])
  }

  /** Since the last reset nothing has happened, or the pool of the type has exactly what is in use. */
  ghost predicate Tracks(f: Fakes, key: StubTable.Key, t: nat, log: seq<Mark>) {
    && M.Valid(f.table) && |f.pools| == TYPES && t < TYPES
    && (if Recorded(f, key) then Keeps(f.pools[t], log) else log == [])
  }

  /** The pools as the next allocation or deletion finds them. */
  lemma BeginTracks(f: Fakes, key: StubTable.Key, t: nat, log: seq<Mark>)
    requires key != 0 && Tracks(f, key, t, log) && Begin(f, key).Some?
    ensures var b := Begin(f, key).value; Recorded(b, key) && Tracks(b, key, t, log) && Keeps(b.pools[t], log)
  {
    M.MemInvBuffers(f.table);
    StubCalls.CallOnceRunsIffAbsent(f.table, key);
    M.StepKeepsValid(f.table, StubTable.OpCallOnce(key));
  }

  lemma OtherTracks(f: Fakes, key: StubTable.Key, op: StubTable.Op, t: nat, log: seq<Mark>)
    requires key != 0 && Tracks(f, key, t, log) && IdEnabled(f, Other(op)) && IdStep(f, key, Other(op)).Some?
    requires op != StubTable.OpCallOnce(key)
    ensures Tracks(IdStep(f, key, Other(op)).value, key, t, if Resets(Other(op), key) then [] else log)
  {
    M.MemInvBuffers(f.table);
    StubCalls.StepCallsOnce(f.table, op, key);
    M.StepKeepsValid(f.table, op);
    assert [op][1..] == [];
  }

  lemma StepTracks(f: Fakes, key: StubTable.Key, op: IdOp, t: nat, log: seq<Mark>)
    requires key != 0 && Tracks(f, key, t, log) && IdEnabled(f, op) && IdStep(f, key, op).Some?
    ensures Tracks(IdStep(f, key, op).value, key, t, MarksAfter(f, key, op, t, log))
  {
    if op.Other? && op.op != StubTable.OpCallOnce(key) {
      OtherTracks(f, key, op.op, t, log);
    } else {
      BeginTracks(f, key, t, log);
      var pool := Begin(f, key).value.pools[t];
      if op == AllocId(t) { StepKeeps(pool, Alloc, log); }
      if op.DeleteId? && op.objType == t { StepKeeps(pool, Delete(op.index), log); }
    }
  }

  lemma {:induction false} RunTracks(f: Fakes, key: StubTable.Key, ops: seq<IdOp>, t: nat, log: seq<Mark>)
    requires key != 0 && Tracks(f, key, t, log) && IdLegal(f, key, ops)
    ensures Tracks(IdRun(f, key, ops), key, t, MarksSince(f, key, ops, t, log))
    decreases |ops|
  {
    if ops != [] {
      StepTracks(f, key, ops[0], t, log);
      RunTracks(IdStep(f, key, ops[0]).value, key, ops[1..], t, MarksAfter(f, key, ops[0], t, log));
    }
  }

  /** Over any run, an index of a type is in use, as the next call finds it, if and only if it was issued since
      the last reset and not deleted since it was last issued. */
  lemma InUseSinceReset(f: Fakes, key: StubTable.Key, ops: seq<IdOp>, t: nat, i: nat)
    requires key != 0 && M.Valid(f.table) && |f.pools| == TYPES && t < TYPES && !Recorded(f, key)
    requires IdLegal(f, key, ops) && Begin(IdRun(f, key, ops), key).Some?
    ensures var b := Begin(IdRun(f, key, ops), key).value;
            && |b.pools| == TYPES
            && (i in b.pools[t].live <==> InUse(MarksSince(f, key, ops, t, []), i))
  {
    RunTracks(f, key, ops, t, []);
    BeginTracks(IdRun(f, key, ops), key, t, MarksSince(f, key, ops, t, []));
  }

  /** So the first deletion of an ID that was issued finds it, and a second one does not. */
  lemma DeletedOnce(f: Fakes, key: StubTable.Key, t: nat, log: seq<Mark>)
    requires key != 0 && Tracks(f, key, t, log) && IdEnabled(f, AllocId(t)) && IdStep(f, key, AllocId(t)).Some?
    ensures var i, f1 := NextIndex(Begin(f, key).value.pools[t]), IdStep(f, key, AllocId(t)).value;
            && IdEnabled(f1, DeleteId(t, i)) && IdStep(f1, key, DeleteId(t, i)).Some?
            && Begin(f1, key).Some? && |Begin(f1, key).value.pools| == TYPES
            && i in Begin(f1, key).value.pools[t].live
            && var f2 := IdStep(f1, key, DeleteId(t, i)).value;
               Begin(f2, key).Some? && |Begin(f2, key).value.pools| == TYPES
               && i !in Begin(f2, key).value.pools[t].live
  {
    BeginTracks(f, key, t, log);
    var f1 := IdStep(f, key, AllocId(t)).value;
    var i := NextIndex(Begin(f, key).value.pools[t]);
    RecordedBegins(f1, key);
    RecordedBegins(IdStep(f1, key, DeleteId(t, i)).value, key);
  }

  lemma RecordedBegins(f: Fakes, key: StubTable.Key)
    requires key != 0 && Recorded(f, key)
    ensures Begin(f, key) == Some(f)
  {
    StubCalls.CallOnceRunsIffAbsent(f.table, key);
  }

  // ----- the bitmap -----

  function Mask(k: nat): bv8
    requires k < 8
  {
    if k == 0 then 0x01 else if k == 1 then 0x02 else if k == 2 then 0x04 else if k == 3 then 0x08
    else if k == 4 then 0x10 else if k == 5 then 0x20 else if k == 6 then 0x40 else 0x80
  }

  lemma MaskIsShift(k: nat)
    requires k < 8
    ensures Mask(k) == (1 as bv8) << k
  {
  }

  predicate Bit(b: bv8, k: nat)
    requires k < 8
  {
    b & Mask(k) != 0
  }

  lemma SetBit(b: bv8, k: nat, j: nat)
    requires k < 8 && j < 8
    ensures Bit(b | Mask(k), j) <==> j == k || Bit(b, j)
  {
    DisjointMasks(b, Mask(k), Mask(j), k, j);
  }

  lemma ClearBit(b: bv8, k: nat, j: nat)
    requires k < 8 && j < 8
    ensures Bit(b & !Mask(k), j) <==> j != k && Bit(b, j)
  {
    DisjointMasks(b, Mask(k), Mask(j), k, j);
  }

  lemma DisjointMasks(b: bv8, m: bv8, n: bv8, k: nat, j: nat)
    requires k < 8 && j < 8 && m == Mask(k) && n == Mask(j)
    ensures k != j ==> m & n == 0
    ensures k == j ==> m == n != 0
  {
  }

  /** The indexes whose bits are set in the bytes of one type. */
  ghost function BitSet(bytes: seq<bv8>): set<nat>
    requires |bytes| == BYTES
  {
    set i: nat | i < BITS && Bit(bytes[i / 8], i % 8)
  }

  lemma InBitSet(bytes: seq<bv8>, i: nat, b: bv8)
    requires |bytes| == BYTES && i < BITS && b == bytes[i / 8]
    ensures i in BitSet(bytes) <==> b & Mask(i % 8) != 0
  {
  }

  lemma BitSetAfterSet(bytes: seq<bv8>, i: nat)
    requires |bytes| == BYTES && i < BITS
    ensures BitSet(bytes[i / 8 := bytes[i / 8] | Mask(i % 8)]) == BitSet(bytes) + {i}
  {
    var bytes' := bytes[i / 8 := bytes[i / 8] | Mask(i % 8)];
    forall j: nat | j < BITS ensures Bit(bytes'[j / 8], j % 8) <==> j == i || Bit(bytes[j / 8], j % 8) {
      if j / 8 == i / 8 { SetBit(bytes[i / 8], i % 8, j % 8); }
    }
  }

  lemma BitSetAfterClear(bytes: seq<bv8>, i: nat)
    requires |bytes| == BYTES && i < BITS
    ensures BitSet(bytes[i / 8 := bytes[i / 8] & !Mask(i % 8)]) == BitSet(bytes) - {i}
  {
    var bytes' := bytes[i / 8 := bytes[i / 8] & !Mask(i % 8)];
    forall j: nat | j < BITS ensures Bit(bytes'[j / 8], j % 8) <==> j != i && Bit(bytes[j / 8], j % 8) {
      if j / 8 == i / 8 { ClearBit(bytes[i / 8], i % 8, j % 8); }
    }
  }

  // ----- the state in place -----

  /** The bit of an index in its byte. */
  method ObjMask(index: nat) returns (mask: bv8)
    ensures mask == Mask(index % 8)
  {
    MaskIsShift(index % 8);
    mask := 1 << (index % 8);
  }

  class Objects {
    const last: array<nat>
    const valid: array2<bv8>

    ghost predicate Ok()
      reads last
    {
      && last.Length == TYPES && valid.Length0 == TYPES && valid.Length1 == BYTES
      && forall t | 0 <= t < TYPES :: last[t] < BITS
    }

    ghost function Bytes(t: nat): (b: seq<bv8>)
      requires valid.Length0 == TYPES && valid.Length1 == BYTES && t < TYPES
      reads valid
      ensures |b| == BYTES && forall i | 0 <= i < BYTES :: b[i] == valid[t, i]
    {
      seq(BYTES, i requires 0 <= i < BYTES reads valid => valid[t, i])
    }

    /** The pool of one type that the words stand for. */
    ghost function PoolOf(t: nat): Pool
      requires Ok() && t < TYPES
      reads last, valid
    {
      Pool(last[t], BitSet(Bytes(t)))
    }

    ghost function Pools(): (r: seq<Pool>)
      requires Ok()
      reads last, valid
      ensures |r| == TYPES && forall t | 0 <= t < TYPES :: r[t] == PoolOf(t)
    {
      seq(TYPES, t requires 0 <= t < TYPES && Ok() reads last, valid => PoolOf(t))
    }

    constructor ()
      ensures Ok() && forall t | 0 <= t < TYPES :: PoolOf(t) == Pool(0, {})
    {
      last := new nat[TYPES](i => 0);
      valid := new bv8[TYPES, BYTES]((i, j) => 0);
      new;
      forall t | 0 <= t < TYPES ensures PoolOf(t) == Pool(0, {}) {
        NothingSet(Bytes(t));
      }
    }

    /** UT_ClearAllStubObjects. */
    method ClearAll()
      requires Ok()
      modifies last, valid
      ensures Ok() && forall t | 0 <= t < TYPES :: PoolOf(t) == Pool(0, {})
    {
      forall t | 0 <= t < TYPES { last[t] := 0; }
      forall t, i | 0 <= t < TYPES && 0 <= i < BYTES { valid[t, i] := 0; }
      forall t | 0 <= t < TYPES ensures PoolOf(t) == Pool(0, {}) {
        NothingSet(Bytes(t));
      }
    }

    /** Writes one byte of one type's bitmap. */
    method WriteByte(t: nat, i: nat, b: bv8)
      requires Ok() && t < TYPES && i < BYTES
      modifies valid
      ensures Bytes(t) == old(Bytes(t))[i := b]
      ensures forall u | 0 <= u < TYPES && u != t :: Bytes(u) == old(Bytes(u))
    {
      ghost var before := Bytes(t);
      valid[t, i] := b;
      assert Bytes(t) == before[i := b];
      forall u | 0 <= u < TYPES && u != t ensures Bytes(u) == old(Bytes(u)) {
      }
    }

    method IsUsed(t: nat, index: nat) returns (used: bool)
      requires Ok() && t < TYPES && index < BITS
      ensures used <==> index in BitSet(Bytes(t))
    {
      var mask := ObjMask(index);
      InBitSet(Bytes(t), index, valid[t, index / 8]);
      used := valid[t, index / 8] & mask != 0;
    }

    method MarkUsed(t: nat, index: nat)
      requires Ok() && t < TYPES && index < BITS
      modifies valid
      ensures BitSet(Bytes(t)) == old(BitSet(Bytes(t))) + {index}
      ensures forall u | 0 <= u < TYPES && u != t :: Bytes(u) == old(Bytes(u))
    {
      var mask := ObjMask(index);
      BitSetAfterSet(Bytes(t), index);
      WriteByte(t, index / 8, valid[t, index / 8] | mask);
    }

    method MarkUnused(t: nat, index: nat)
      requires Ok() && t < TYPES && index < BITS
      modifies valid
      ensures BitSet(Bytes(t)) == old(BitSet(Bytes(t))) - {index}
      ensures forall u | 0 <= u < TYPES && u != t :: Bytes(u) == old(Bytes(u))
    {
      var mask := ObjMask(index);
      BitSetAfterClear(Bytes(t), index);
      WriteByte(t, index / 8, valid[t, index / 8] & !mask);
    }

    /** Clears all pools when this is the first use since a reset; false when the table is full. */
    method BeginUse(m: Machine, key: StubTable.Key) returns (ok: bool)
      requires Ok() && m.Ok()
      modifies m.slots, last, valid
      ensures ok <==> Begin(Fakes(old(m.Now()), old(Pools())), key).Some?
      ensures ok ==> Ok() && m.Ok() && Begin(Fakes(old(m.Now()), old(Pools())), key) == Some(Fakes(m.Now(), Pools()))
    {
      ghost var before := Pools();
      var run;
      ok, run := m.StubCallOnce(key);
      if ok {
        if run {
          ClearAll();
          assert Pools() == Cleared();
        } else {
          assert Pools() == before;
        }
      }
    }

    /** The next index of a type that is in range; `reissued` when it was still in use. */
    method IssueIndex(t: nat) returns (index: nat, reissued: bool)
      requires Ok() && t < TYPES
      modifies last, valid
      ensures Ok() && PoolOf(t) == Step(old(PoolOf(t)), Alloc)
      ensures index == NextIndex(old(PoolOf(t))) < BITS && (reissued <==> index in old(PoolOf(t)).live)
      ensures forall u | 0 <= u < TYPES && u != t :: PoolOf(u) == old(PoolOf(u))
    {
      if last[t] < 8 * BYTES - 1 {
        last[t] := last[t] + 1;
      }
      index := last[t];
      reissued := IsUsed(t, index);
      MarkUsed(t, index);
    }

    /** UT_AllocStubObjId: the ID of the next index of a type; `reissued` when it was still in use. A full
        table or a type out of range stops the test (`ok` is false). */
    method AllocStubObjId(m: Machine, key: StubTable.Key, t: nat)
      returns (ok: bool, index: nat, id: bv32, reissued: bool)
      requires Ok() && m.Ok()
      modifies m.slots, last, valid
      ensures ok <==> IdStep(Fakes(old(m.Now()), old(Pools())), key, AllocId(t)).Some?
      ensures ok ==> Ok() && m.Ok()
      ensures ok ==> IdStep(Fakes(old(m.Now()), old(Pools())), key, AllocId(t)) == Some(Fakes(m.Now(), Pools()))
      ensures ok ==> var pool := Begin(Fakes(old(m.Now()), old(Pools())), key).value.pools[t];
                     index == NextIndex(pool) < BITS && (reissued <==> index in pool.live)
      ensures ok ==> index in PoolOf(t).live
      ensures ok ==> id == Compose(index as bv32, t as bv32)
    {
      index, id, reissued := 0, 0, false;
      ok := BeginUse(m, key);
      if !ok || t == 0 || t >= TYPES {
        return false, 0, 0, false;
      }
      ghost var begun := Pools();
      index, reissued := IssueIndex(t);
      assert Pools() == begun[t := Step(begun[t], Alloc)];
      id := Compose(index as bv32, t as bv32);
    }

    /** The index leaves the pool of a type; `known` when it was in use. */
    method DropIndex(t: nat, index: nat) returns (known: bool)
      requires Ok() && t < TYPES && index < BITS
      modifies valid
      ensures Ok() && PoolOf(t) == Step(old(PoolOf(t)), Delete(index)) && (known <==> index in old(PoolOf(t)).live)
      ensures forall u | 0 <= u < TYPES && u != t :: PoolOf(u) == old(PoolOf(u))
    {
      known := IsUsed(t, index);
      if known {
        MarkUnused(t, index);
      }
    }

    /** Likewise for an index that may be out of range, of which the bitmap has no bit. */
    method DropAnyIndex(t: nat, index: nat) returns (known: bool)
      requires Ok() && t < TYPES
      modifies valid
      ensures Ok() && PoolOf(t) == Step(old(PoolOf(t)), Delete(index)) && (known <==> index in old(PoolOf(t)).live)
      ensures forall u | 0 <= u < TYPES && u != t :: PoolOf(u) == old(PoolOf(u))
      ensures known ==> index < BITS
    {
      known := false;
      if index < BITS {
        known := DropIndex(t, index);
      } else {
        assert index !in BitSet(Bytes(t));
      }
    }

    method DeleteIndex(m: Machine, key: StubTable.Key, t: nat, index: nat) returns (ok: bool, known: bool)
      requires Ok() && m.Ok() && t < TYPES
      modifies m.slots, last, valid
      ensures ok <==> IdStep(Fakes(old(m.Now()), old(Pools())), key, DeleteId(t, index)).Some?
      ensures ok ==> Ok() && m.Ok()
      ensures ok ==> IdStep(Fakes(old(m.Now()), old(Pools())), key, DeleteId(t, index)) == Some(Fakes(m.Now(), Pools()))
      ensures ok ==> (known <==> index in Begin(Fakes(old(m.Now()), old(Pools())), key).value.pools[t].live)
      ensures known ==> index < BITS
    {
      known := false;
      ok := BeginUse(m, key);
      if ok {
        ghost var begun := Pools();
        known := DropAnyIndex(t, index);
        assert Pools() == begun[t := Step(begun[t], Delete(index))];
      }
    }

    /** UT_DeleteStubObjId: the index of the ID leaves the pool of the type; failures are due when the ID is
        of another type, its index is out of range or was not in use. A full table stops the test. */
    method DeleteStubObjId(m: Machine, key: StubTable.Key, t: nat, id: bv32)
      returns (ok: bool, rightType: bool, inRange: bool, known: bool)
      requires Ok() && m.Ok() && t < TYPES
      modifies m.slots, last, valid
      ensures var f, op := Fakes(old(m.Now()), old(Pools())), DeleteId(t, Decompose(id).0 as nat);
              && (ok <==> IdStep(f, key, op).Some?)
              && (ok ==> Ok() && m.Ok() && IdStep(f, key, op) == Some(Fakes(m.Now(), Pools())))
              && (ok ==> (known <==> op.index in Begin(f, key).value.pools[t].live))
      ensures rightType <==> Decompose(id).1 == t as bv32
      ensures inRange <==> Decompose(id).0 as nat < 8 * BYTES
      ensures known ==> inRange
    {
      var index, objType := Decompose(id).0 as nat, Decompose(id).1;
      rightType, inRange := objType == t as bv32, index < BITS;
      ok, known := DeleteIndex(m, key, t, index);
    }
  }

  lemma NothingSet(bytes: seq<bv8>)
    requires |bytes| == BYTES && forall i | 0 <= i < BYTES :: bytes[i] == 0
    ensures BitSet(bytes) == {}
  {
  }
}

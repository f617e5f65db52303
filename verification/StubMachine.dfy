/**
The stub table as the library keeps it: one array updated in place and a high-water mark, with
the loops that probe, sweep and clear it. Every method is proved to do to the abstract state what
the corresponding function of StubTable says, to keep the invariant of reachable states, and to
free only blocks that are outstanding.
*/
module StubMachine {
  import opened Options
  import opened StubTable
  import opened StubInvariant
  import opened StubMemory
  import opened StubOrder

  // ----- what the loops have established -----

  lemma FoundAt(t: Table, from: Key, kind: Kind, key: Key, d: nat)
    requires d < SLOTS && Chain(t, from, kind, key, 0, d) == [] && Holds(t[Slot(from, d)], kind, key)
    ensures Chain(t, from, kind, key, 0, |t|) != [] && Chain(t, from, kind, key, 0, |t|)[0] == d
  {
    ChainSplit(t, from, kind, key, 0, d, |t|);
    ChainSplit(t, from, kind, key, d, d + 1, |t|);
    ChainOfOne(t, from, kind, key, d);
  }

  lemma NotFoundBelow(t: Table, from: Key, kind: Kind, key: Key, limit: nat)
    requires limit <= SLOTS && Chain(t, from, kind, key, 0, limit) == []
    ensures var c := Chain(t, from, kind, key, 0, |t|); c == [] || c[0] >= limit
    ensures limit == SLOTS ==> Chain(t, from, kind, key, 0, |t|) == []
  {
    ChainSplit(t, from, kind, key, 0, limit, |t|);
  }

  lemma NextProbe(t: Table, from: Key, kind: Kind, key: Key, d: nat)
    requires d < SLOTS && Chain(t, from, kind, key, 0, d) == [] && !Holds(t[Slot(from, d)], kind, key)
    ensures Chain(t, from, kind, key, 0, d + 1) == []
    ensures d + 1 < SLOTS ==> Slot(from, d + 1) == if Slot(from, d) + 1 < SLOTS then Slot(from, d) + 1 else 0
  {
  }

  /** What UT_GetStubEntry answers: a slot, or none, and the mark it leaves behind. */
  ghost predicate Answers(s: State, key: Key, kind: Kind, r: Option<nat>, high': nat) {
    if kind != Unused then high' == s.high && r == Find(s, kind, key)
    else match Claim(s, key)
      case None => r == None
      case Some((s', i)) => high' == s'.high && r == Some(i)
  }

  lemma SearchFound(s: State, key: Key, kind: Kind, d: nat)
    requires d < SLOTS && (kind != Unused ==> d < s.high)
    requires var k := if kind == Unused then 0 else key;
             Chain(s.slots, key, kind, k, 0, d) == [] && Holds(s.slots[Slot(key, d)], kind, k)
    ensures Answers(s, key, kind, Some(Slot(key, d)), Max(s.high, d + 1))
  {
    FoundAt(s.slots, key, kind, if kind == Unused then 0 else key, d);
  }

  lemma SearchFailed(s: State, key: Key, kind: Kind)
    requires s.high <= SLOTS
    requires if kind == Unused then Chain(s.slots, key, Unused, 0, 0, |s.slots|) == []
             else Chain(s.slots, key, kind, key, 0, s.high) == []
    ensures Answers(s, key, kind, None, if kind == Unused then SLOTS else s.high)
  {
    if kind != Unused { NotFoundBelow(s.slots, key, kind, key, s.high); }
  }

  /** The state after the sweep of UT_ResetState has passed the first i slots. */
  ghost function SweptTo(s: State, key: Key, i: nat): State
    requires i <= SLOTS
  {
    if i == 0 then s
    else
      var s' := SweptTo(s, key, i - 1);
      if IsSwept(s'.slots[i - 1], key) then Clear(s', i - 1) else s'
  }

  ghost function FreedBelow(t: Table, key: Key, i: nat): set<Address>
    requires i <= SLOTS
  {
    set j | 0 <= j < i && IsSwept(t[j], key) && Frees(t[j]) :: t[j].data.base
  }

  lemma FreedBelowNext(t: Table, key: Key, i: nat)
    requires i < SLOTS
    ensures FreedBelow(t, key, i + 1)
            == FreedBelow(t, key, i) + if IsSwept(t[i], key) && Frees(t[i]) then {t[i].data.base} else {}
  {
  }

  lemma {:induction false} SweptToSlots(s: State, key: Key, i: nat)
    requires i <= SLOTS
    ensures var s' := SweptTo(s, key, i);
            s'.high == s.high && forall j | 0 <= j < SLOTS ::
              s'.slots[j] == if j < i && IsSwept(s.slots[j], key) then Zero() else s.slots[j]
  {
    if i > 0 { SweptToSlots(s, key, i - 1); }
  }

  lemma {:induction false} SweptToMemory(s: State, key: Key, i: nat)
    requires i <= SLOTS
    ensures var s', gone := SweptTo(s, key, i), FreedBelow(s.slots, key, i);
            s'.memory == s.memory - gone && s'.owned == s.owned - gone
  {
    if i == 0 {
      assert FreedBelow(s.slots, key, 0) == {};
    } else {
      SweptToSlots(s, key, i - 1);
      SweptToMemory(s, key, i - 1);
      FreedBelowNext(s.slots, key, i - 1);
    }
  }

  lemma SweptIsReset(s: State, key: Key, i: nat)
    requires i == SLOTS
    ensures var s' := SweptTo(s, key, i); Reset(s, key) == if key == 0 then s'.(high := 0) else s'
  {
    SweptToSlots(s, key, i);
    SweptToMemory(s, key, i);
    assert FreedBelow(s.slots, key, i) == FreedBases(s.slots, key);
    assert SweptTo(s, key, i).slots == Swept(s.slots, key);
  }

  lemma {:induction false} LowestSkips(t: Table, kind: Kind, key: Option<Key>, i: nat)
    requires i <= SLOTS
    requires forall j | 0 <= j < i :: !(t[j].kind == kind && (key.Some? ==> t[j].key == key.value))
    ensures Lowest(t, kind, key, 0) == Lowest(t, kind, key, i)
  {
    if i > 0 { LowestSkips(t, kind, key, i - 1); }
  }

  /** Clearing one deferred code of a key leaves the others to be cleared, and one fewer of them. */
  lemma ClearOneDeferred(s: State, key: Key)
    requires Valid(s) && Find(s, DeferredRc, key).Some?
    ensures var s' := Clear(s, Find(s, DeferredRc, key).value);
            && Valid(s') && ClearDeferred(s', key) == ClearDeferred(s, key)
            && |Live(s'.slots, DeferredRc, key)| < |Live(s.slots, DeferredRc, key)|
  {
    var i := Find(s, DeferredRc, key).value;
    FindHolds(s, DeferredRc, key);
    BoundedSearchIsComplete(s, DeferredRc, key);
    LiveOfClearedHead(s.slots, DeferredRc, key);
    ClearStateKeeps(s, i);
    ClearKeepsMemory(s, i);
    assert Without(Clear(s, i).slots, DeferredRc, key) == Without(s.slots, DeferredRc, key);
  }

  lemma NoneDeferred(s: State, key: Key)
    requires Valid(s) && Find(s, DeferredRc, key).None?
    ensures ClearDeferred(s, key) == s
  {
    BoundedSearchIsComplete(s, DeferredRc, key);
    assert Without(s.slots, DeferredRc, key) == s.slots;
  }

  lemma ReadOf(s: State, key: Key, i: nat, max: nat)
    requires BuffersOk(s) && Find(s, DataBuffer, key) == Some(i)
    ensures i < SLOTS && BufferOk(s, s.slots[i])
    ensures var d := s.slots[i].data;
            CopyToLocal(s, key, max) ==
                (Advance(s, i, Amount(d, max)), s.memory[d.base][d.position..d.position + Amount(d, max)])
  {
    FindHolds(s, DataBuffer, key);
  }

  lemma WriteOf(s: State, key: Key, i: nat, bytes: seq<bv8>)
    requires BuffersOk(s) && Find(s, DataBuffer, key) == Some(i)
    ensures i < SLOTS && BufferOk(s, s.slots[i])
    ensures var d := s.slots[i].data;
            CopyFromLocal(s, key, bytes) ==
                (Advance(Overwritten(s, d, bytes), i, Amount(d, |bytes|)), Amount(d, |bytes|))
  {
    FindHolds(s, DataBuffer, key);
  }

  lemma OverwriteKeepsMemory(s: State, i: nat, bytes: seq<bv8>)
    requires MemInv(s) && i < SLOTS && BufferOk(s, s.slots[i])
    ensures MemInv(Overwritten(s, s.slots[i].data, bytes))
  {
    var s' := Overwritten(s, s.slots[i].data, bytes);
    forall j | 0 <= j < SLOTS ensures SlotOwnership(s', j) {
      assert SlotOwnership(s, j);
    }
  }

  lemma ClaimedIsZero(s: State, key: Key)
    requires Inv(s)
    ensures Claim(s, key).Some? ==> s.slots[Claim(s, key).value.1] == Zero()
  {
    if Claim(s, key).Some? { ClaimIsUnused(s, key); }
  }

  lemma Kept(s: State, op: Op, s': State)
    requires Valid(s) && BuffersOk(s) && Enabled(s, op) && Step(s, op) == Some(s')
    ensures Valid(s')
  {
    StepKeepsValid(s, op);
  }

  class Machine {
    const slots: array<Entry>
    var high: nat
    var memory: map<Address, seq<bv8>>
    var owned: set<Address>

    ghost function Now(): State
      requires slots.Length == SLOTS
      reads this, slots
    {
      State(slots[..], high, memory, owned)
    }

    ghost predicate Ok()
      reads this, slots
    {
      slots.Length == SLOTS && Valid(Now())
    }

    /** The table at program start: all zero, in memory that belongs to the caller. */
    constructor (callerMemory: map<Address, seq<bv8>>)
      ensures Ok() && Now() == State(Fresh(), 0, callerMemory, {})
      ensures fresh(slots)
    {
      slots := new Entry[SLOTS](i => Zero());
      high, memory, owned := 0, callerMemory, {};
      new;
      assert slots[..] == Fresh();
      InitialIsValid(callerMemory);
    }

    /** free(): only a block that is allocated and not yet freed may be passed. */
    method Free(a: Address)
      requires a in owned && a in memory
      modifies this`memory, this`owned
      ensures memory == old(memory) - {a} && owned == old(owned) - {a}
    {
      memory, owned := memory - {a}, owned - {a};
    }

    method ClearStubEntry(i: nat)
      requires slots.Length == SLOTS && MemInv(Now()) && i < SLOTS
      modifies this`memory, this`owned, slots
      ensures Now() == Clear(old(Now()), i) && MemInv(Now())
    {
      ghost var s := Now();
      ClearKeepsMemory(s, i);
      var e := slots[i];
      if e.kind == DataBuffer && e.data.Buff? && e.allocFlag {
        FreeIsLegal(s, i);
        Free(e.data.base);
      }
      slots[i] := Zero();
      assert slots[..] == s.slots[i := Zero()];
    }

    /** The probe loop. For a kind in use: the first match within the high-water mark, which stays as
        it is. For an unused slot: the first one anywhere, and the mark grows to cover it. */
    method GetStubEntry(key: Key, kind: Kind) returns (r: Option<nat>)
      requires slots.Length == SLOTS && high <= SLOTS
      modifies this`high
      ensures Answers(old(Now()), key, kind, r, high)
    {
      ghost var s := Now();
      var index, searched := key % MODULUS, 0;
      var limit, searchKey := high, key;
      if kind == Unused {
        limit, searchKey := SLOTS, 0;
      }
      r := None;
      while searched < limit
        invariant searched <= limit <= SLOTS && index < SLOTS && high == s.high
        invariant searched < SLOTS ==> index == Slot(key, searched)
        invariant Chain(s.slots, key, kind, searchKey, 0, searched) == []
      {
        searched := searched + 1;
        if slots[index].kind == kind && slots[index].key == searchKey {
          SearchFound(s, key, kind, searched - 1);
          if searched > high { high := searched; }
          return Some(index);
        }
        NextProbe(s.slots, key, kind, searchKey, searched - 1);
        index := index + 1;
        if index >= SLOTS { index := 0; }
      }
      SearchFailed(s, key, kind);
      if searched > high { high := searched; }
    }
  
    method ResetState(key: Key)
      requires Ok()
      modifies this, slots
      ensures Ok() && Now() == Reset(old(Now()), key)
    {
      ghost var s := Now();
      var i := 0;
      while i < SLOTS
        invariant i <= SLOTS && Now() == SweptTo(s, key, i) && MemInv(Now())
      {
        if key == 0 || slots[i].key == key {
          ClearStubEntry(i);
        }
        i := i + 1;
      }
      SweptIsReset(s, key, i);
      if key == 0 {
        high := 0;
      }
      MemInvBuffers(s);
      Kept(s, OpReset(key), Now());
    }

    /** `run` says that the function is to be called now; `ok` is false when the test is aborted. */
    method StubCallOnce(key: Key) returns (ok: bool, run: bool)
      requires Ok()
      modifies slots
      ensures ok <==> CallOnceOp(old(Now()), key).Done?
      ensures ok ==> Ok() && Now() == CallOnceOp(old(Now()), key).state && run == CallOnceOp(old(Now()), key).value
    {
      ghost var s := Now();
      if key == 0 {
        return true, false;
      }
      var once: Option<nat> := None;
      var i := 0;
      while i < SLOTS
        invariant i <= SLOTS && slots[..] == s.slots
        invariant forall j | 0 <= j < i :: !(s.slots[j].kind == CallOnce && s.slots[j].key == key)
        invariant once.None? ==> forall j | 0 <= j < i :: s.slots[j].kind != Unused
        invariant once.Some? ==> Lowest(s.slots, Unused, None, 0) == once
      {
        if slots[i].kind == Unused && once.None? {
          LowestSkips(s.slots, Unused, None, i);
          once := Some(i);
        } else if slots[i].kind == CallOnce && slots[i].key == key {
          LowestSkips(s.slots, CallOnce, Some(key), i);
          return true, false;
        }
        i := i + 1;
      }
      LowestSkips(s.slots, CallOnce, Some(key), i);
      if once.None? {
        LowestSkips(s.slots, Unused, None, i);
        return false, false;
      }
      slots[once.value] := Entry(CallOnce, key, false, Blank);
      assert slots[..] == s.slots[once.value := Entry(CallOnce, key, false, Blank)];
      MemInvBuffers(s);
      Kept(s, OpCallOnce(key), Now());
      return true, true;
    }

    method ClearDeferredRetcode(key: Key)
      requires Ok()
      modifies this, slots
      ensures Ok() && Now() == ClearDeferred(old(Now()), key)
    {
      ghost var s := Now();
      var r := GetStubEntry(key, DeferredRc);
      while r.Some?
        invariant Ok() && ClearDeferred(Now(), key) == ClearDeferred(s, key) && r == Find(Now(), DeferredRc, key)
        decreases |Live(Now().slots, DeferredRc, key)|
      {
        ClearOneDeferred(Now(), key);
        ClearStubEntry(r.value);
        r := GetStubEntry(key, DeferredRc);
      }
      NoneDeferred(Now(), key);
    }
  
    method Put(i: nat, e: Entry)
      requires slots.Length == SLOTS && i < SLOTS
      modifies slots
      ensures Now() == Store(old(Now()), i, e)
    {
      ghost var t := slots[..];
      slots[i] := e;
      assert slots[..] == t[i := e];
    }

    method SetDeferredRetcode(key: Key, count: int, retcode: int) returns (ok: bool)
      requires Ok()
      modifies this`high, slots
      ensures ok <==> SetDeferred(old(Now()), key, count, retcode).Done?
      ensures ok ==> Ok() && Now() == SetDeferred(old(Now()), key, count, retcode).state
    {
      ghost var s := Now();
      if count > 0 {
        var r := GetStubEntry(key, Unused);
        if r.None? {
          return false;
        }
        Put(r.value, Entry(DeferredRc, key, false, Rc(count, retcode)));
      }
      MemInvBuffers(s);
      Kept(s, OpSetDeferred(key, count, retcode), Now());
      return true;
    }

    method CheckDeferredRetcode(key: Key) returns (r: Option<int>)
      requires Ok()
      modifies this, slots
      ensures Ok() && (Now(), r) == CheckDeferred(old(Now()), key)
    {
      ghost var s := Now();
      r := None;
      var found := GetStubEntry(key, DeferredRc);
      if found.Some? {
        var e := slots[found.value];
        var left := if RcCount(e.data) > 0 then RcCount(e.data) - 1 else 0;
        if left == 0 {
          r := Some(RcValue(e.data));
          ClearStubEntry(found.value);
        } else {
          Put(found.value, e.(data := Rc(left, RcValue(e.data))));
        }
      }
      MemInvBuffers(s);
      Kept(s, OpCheckDeferred(key), Now());
    }

    method FindOrClaimEntry(kind: Kind, key: Key) returns (r: Option<nat>)
      requires Ok() && kind != Unused
      modifies this`high
      ensures match FindOrClaim(old(Now()), kind, key)
              case None => r == None
              case Some((s, i)) => Now() == s && r == Some(i)
    {
      r := GetStubEntry(key, kind);
      if r.None? {
        r := GetStubEntry(key, Unused);
      }
    }

    method SetDefaultReturnValue(key: Key, value: int) returns (ok: bool)
      requires Ok()
      modifies this`high, slots
      ensures ok <==> SetDefault(old(Now()), key, value).Done?
      ensures ok ==> Ok() && Now() == SetDefault(old(Now()), key, value).state
    {
      ghost var s := Now();
      var r := FindOrClaimEntry(ForceFail, key);
      if r.None? {
        return false;
      }
      var e := slots[r.value];
      Put(r.value, Entry(ForceFail, key, e.allocFlag, Rc(RcCount(e.data), value)));
      MemInvBuffers(s);
      Kept(s, OpSetDefault(key, value), Now());
      return true;
    }

    method ClearDefaultReturnValue(key: Key)
      requires Ok()
      modifies this, slots
      ensures Ok() && Now() == ClearDefault(old(Now()), key)
    {
      ghost var s := Now();
      var r := GetStubEntry(key, ForceFail);
      if r.Some? {
        ClearStubEntry(r.value);
      }
      MemInvBuffers(s);
      Kept(s, OpClearDefault(key), Now());
    }

    method CheckDefaultReturnValue(key: Key) returns (r: Option<int>)
      requires Ok()
      modifies this`high, slots
      ensures Ok() && (Now(), r) == CheckDefault(old(Now()), key)
    {
      ghost var s := Now();
      r := None;
      var found := GetStubEntry(key, ForceFail);
      if found.Some? {
        var e := slots[found.value];
        Put(found.value, e.(data := Rc(Plus1(RcCount(e.data)), RcValue(e.data))));
        r := Some(RcValue(e.data));
      }
      MemInvBuffers(s);
      Kept(s, OpCheckDefault(key), Now());
    }

    method GetStubCount(key: Key) returns (count: nat)
      requires Ok()
      modifies this`high
      ensures Now() == old(Now()) && count == StubCount(Now(), key)
    {
      var r := GetStubEntry(key, Counter);
      count := 0;
      if r.Some? {
        count := RcCount(slots[r.value].data);
      }
    }
  
    /** UT_GetStubRetcodeAndCount. */
    method GetStubRetcodeAndCount(key: Key) returns (r: Option<(int, int)>)
      requires Ok()
      modifies this`high
      ensures Now() == old(Now()) && (r.Some? <==> RecordedCode(Now(), key).Some?)
      ensures r.Some? ==> r.value == (RecordedCode(Now(), key).value, Signed(StubCount(Now(), key)))
    {
      var e := GetStubEntry(key, Counter);
      r := None;
      if e.Some? {
        r := Some((RcValue(slots[e.value].data), Signed(RcCount(slots[e.value].data))));
      }
    }

    /** `block` is the address that malloc() answers when a copy is made. */
    method SetDataBuffer(key: Key, source: Option<Address>, size: nat, copy: bool, block: Address) returns (ok: bool)
      requires Ok() && Enabled(Now(), OpSetBuffer(key, source, size, copy, block))
      modifies this, slots
      ensures ok <==> SetBuffer(old(Now()), key, source, size, copy, block).Done?
      ensures ok ==> Ok() && Now() == SetBuffer(old(Now()), key, source, size, copy, block).state
    {
      ghost var s := Now();
      if source.Some? && size > 0 {
        var r := GetStubEntry(key, Unused);
        if r.None? {
          return false;
        }
        if copy {
          memory, owned := memory[block := memory[source.value][..size]], owned + {block};
          Put(r.value, Entry(DataBuffer, key, true, Buff(block, size, 0)));
        } else {
          Put(r.value, Entry(DataBuffer, key, false, Buff(source.value, size, 0)));
        }
      }
      MemInvBuffers(s);
      Kept(s, OpSetBuffer(key, source, size, copy, block), Now());
      return true;
    }

    /** Moves the position of the buffer in slot i on by n, and drops the entry once it is used up. */
    method AdvanceBuffer(i: nat, n: nat)
      requires slots.Length == SLOTS && MemInv(Now()) && i < SLOTS && slots[i].data.Buff?
      modifies this, slots
      ensures Now() == Advance(old(Now()), i, n)
    {
      var e := slots[i];
      var position := e.data.position + n;
      if position >= e.data.total {
        ClearStubEntry(i);
      } else {
        Put(i, e.(data := e.data.(position := position)));
      }
    }

    method StubCopyToLocal(key: Key, max: nat) returns (bytes: seq<bv8>)
      requires Ok() && BuffersOk(Now())
      modifies this, slots
      ensures Ok() && (Now(), bytes) == CopyToLocal(old(Now()), key, max)
    {
      ghost var s := Now();
      CopyToLocalKeeps(s, key, max);
      CopyToLocalKeepsMemory(s, key, max);
      bytes := [];
      var r := GetStubEntry(key, DataBuffer);
      if r.Some? {
        ReadOf(s, key, r.value, max);
        var d := slots[r.value].data;
        var n := d.total - d.position;
        if max < n { n := max; }
        bytes := memory[d.base][d.position..d.position + n];
        AdvanceBuffer(r.value, n);
      }
    }

    /** The copy into the unread part of the buffer in slot i, as much as fits. */
    method WriteBuffer(i: nat, bytes: seq<bv8>) returns (n: nat)
      requires slots.Length == SLOTS && MemInv(Now()) && i < SLOTS && BufferOk(Now(), slots[i])
      modifies this`memory
      ensures Now() == Overwritten(old(Now()), slots[i].data, bytes) && MemInv(Now())
      ensures n == Amount(slots[i].data, |bytes|)
    {
      OverwriteKeepsMemory(Now(), i, bytes);
      var d := slots[i].data;
      n := d.total - d.position;
      if |bytes| < n {
        n := |bytes|;
      }
      var block := memory[d.base];
      memory := memory[d.base := block[..d.position] + bytes[..n] + block[d.position + n..]];
    }

    method StubCopyFromLocal(key: Key, bytes: seq<bv8>) returns (n: nat)
      requires Ok() && BuffersOk(Now())
      modifies this, slots
      ensures Ok() && (Now(), n) == CopyFromLocal(old(Now()), key, bytes)
    {
      ghost var s := Now();
      CopyFromLocalKeeps(s, key, bytes);
      CopyFromLocalKeepsMemory(s, key, bytes);
      n := 0;
      var r := GetStubEntry(key, DataBuffer);
      if r.Some? {
        WriteOf(s, key, r.value, bytes);
        n := WriteBuffer(r.value, bytes);
        AdvanceBuffer(r.value, n);
      }
    }

    method SetHookFunction(key: Key, hook: Option<nat>) returns (ok: bool)
      requires Ok()
      modifies this, slots
      ensures ok <==> SetHook(old(Now()), key, hook).Done?
      ensures ok ==> Ok() && Now() == SetHook(old(Now()), key, hook).state
    {
      ghost var s := Now();
      var r := GetStubEntry(key, Hook);
      if r.None? && hook.Some? {
        r := GetStubEntry(key, Unused);
        if r.None? {
          return false;
        }
      }
      if hook.None? && r.Some? {
        ClearStubEntry(r.value);
      } else if r.Some? && hook.Some? {
        Put(r.value, slots[r.value].(kind := Hook, key := key, data := Cb(hook.value)));
      }
      MemInvBuffers(s);
      ClaimedIsZero(s, key);
      Kept(s, OpSetHook(key, hook), Now());
      return true;
    }

    method StubRegisterContext(key: Key, arg: nat) returns (ok: bool)
      requires Ok()
      modifies this`high, slots
      ensures ok <==> RegisterContext(old(Now()), key, arg).Done?
      ensures ok ==> Ok() && Now() == RegisterContext(old(Now()), key, arg).state
    {
      ghost var s := Now();
      var r := FindOrClaimEntry(Context, key);
      if r.None? {
        return false;
      }
      var e := slots[r.value];
      var args := ArgList(e.data);
      if |args| < MAX_ARGS {
        args := args + [arg];
      }
      Put(r.value, Entry(Context, key, e.allocFlag, Args(args)));
      MemInvBuffers(s);
      Kept(s, OpRegisterContext(key, arg), Now());
      return true;
    }
  
    method CountStubCall(key: Key, code: int) returns (ok: bool)
      requires Ok()
      modifies this`high, slots
      ensures ok <==> CountCall(old(Now()), key, code).Some?
      ensures ok ==> Ok() && Now() == CountCall(old(Now()), key, code).value
    {
      ghost var s := Now();
      var r := FindOrClaimEntry(Counter, key);
      if r.None? {
        return false;
      }
      var e := slots[r.value];
      Put(r.value, Entry(Counter, key, e.allocFlag, Rc(Plus1(RcCount(e.data)), code)));
      CountCallKeeps(s, key, code);
      CountCallKeepsMemory(s, key, code);
      return true;
    }

    method ChooseReturnCode(key: Key, defaultRc: int) returns (code: int)
      requires Ok()
      modifies this, slots
      ensures Ok() && (Now(), code) == ChooseCode(old(Now()), key, defaultRc)
    {
      var chosen := CheckDeferredRetcode(key);
      if chosen.None? {
        chosen := CheckDefaultReturnValue(key);
      }
      code := if chosen.Some? then chosen.value else defaultRc;
    }

    /** The second half of a call: run the hook, if one is installed, and drop the call's context. */
    method FinishCall(key: Key, code: int, hookResult: int) returns (result: int)
      requires Ok()
      modifies this, slots
      ensures Ok() && Now() == DropContext(old(Now()), key)
      ensures result == if Find(old(Now()), Hook, key).Some? then hookResult else code
    {
      result := code;
      var context := GetStubEntry(key, Context);
      var hook := GetStubEntry(key, Hook);
      if hook.Some? {
        result := hookResult;
      }
      if context.Some? {
        ClearStateKeeps(Now(), context.value);
        ClearStubEntry(context.value);
      }
    }

    /** `hookResult` is what the hook returns if one is installed; hooks do not touch the table. */
    method DefaultStubImpl(key: Key, defaultRc: int, hookResult: int) returns (ok: bool, code: int)
      requires Ok()
      modifies this, slots
      ensures ok <==> Call(old(Now()), key, defaultRc, hookResult).Done?
      ensures ok ==> Ok() && Call(old(Now()), key, defaultRc, hookResult) == Done(Now(), code)
    {
      code := ChooseReturnCode(key, defaultRc);
      ok := CountStubCall(key, code);
      if ok {
        code := FinishCall(key, code, hookResult);
      }
    }
  }

  /** One operation of a run, performed in place; false when the test is aborted. */
  method Perform(m: Machine, op: Op) returns (ok: bool)
    requires m.Ok() && BuffersOk(m.Now()) && Enabled(m.Now(), op)
    modifies m, m.slots
    ensures ok <==> Step(old(m.Now()), op).Some?
    ensures ok ==> m.Ok() && m.Now() == Step(old(m.Now()), op).value
  {
    ok := true;
    match op
    case OpReset(key) => m.ResetState(key);
    case OpCallOnce(key) => var run; ok, run := m.StubCallOnce(key);
    case OpSetDeferred(key, count, retcode) => ok := m.SetDeferredRetcode(key, count, retcode);
    case OpClearDeferred(key) => m.ClearDeferredRetcode(key);
    case OpCheckDeferred(key) => var r := m.CheckDeferredRetcode(key);
    case OpSetDefault(key, value) => ok := m.SetDefaultReturnValue(key, value);
    case OpClearDefault(key) => m.ClearDefaultReturnValue(key);
    case OpCheckDefault(key) => var r := m.CheckDefaultReturnValue(key);
    case OpSetBuffer(key, source, size, copy, block) => ok := m.SetDataBuffer(key, source, size, copy, block);
    case OpCopyToLocal(key, max) => var bytes := m.StubCopyToLocal(key, max);
    case OpCopyFromLocal(key, bytes) => var n := m.StubCopyFromLocal(key, bytes);
    case OpSetHook(key, hook) => ok := m.SetHookFunction(key, hook);
    case OpRegisterContext(key, arg) => ok := m.StubRegisterContext(key, arg);
    case OpCall(key, defaultRc, hookResult) => var code; ok, code := m.DefaultStubImpl(key, defaultRc, hookResult);
    case OpCallerWrites(address, bytes) =>
      Kept(m.Now(), op, m.Now().(memory := m.memory[address := bytes]));
      m.memory := m.memory[address := bytes];
  }
}

/**
What every operation on the stub table keeps, and the main consequence: the bounded
search agrees with a scan of the whole table in every reachable state.
*/
module StubInvariant {
  import opened Options
  import opened StubTable

  /** The kinds of which a key has at most one entry. */
  predicate Single(kind: Kind) {
    kind == Counter || kind == ForceFail || kind == Hook || kind == Context || kind == CallOnce
  }

  /** The kinds that UT_GetStubEntry looks up. */
  predicate Searched(kind: Kind) {
    kind != Unused && kind != CallOnce
  }

  /** The shape of an entry; an unused slot is zero in every byte. */
  predicate EntryOk(e: Entry) {
    && (e.allocFlag ==> e.kind == DataBuffer)
    && match e.kind
       case Unused => e == Zero()
       case Counter => e.data.Rc? && e.data.count < TWO32
       case ForceFail => e.data.Rc? && e.data.count < TWO32
       case DeferredRc => e.data.Rc? && e.data.count > 0
       case DataBuffer => e.data.Buff? && e.data.position < e.data.total
       case Hook => e.data.Cb?
       case Context => e.data.Args? && 0 < |e.data.args| <= MAX_ARGS
       case CallOnce => e.key != 0 && e.data.Blank?
  }

  predicate SlotOk(t: Table, high: nat, i: nat)
    requires i < SLOTS
  {
    EntryOk(t[i]) && (Searched(t[i].kind) ==> Distance(t[i].key, i) < high)
  }

  predicate Alike(e: Entry, f: Entry) {
    Single(e.kind) && e.kind == f.kind && e.key == f.key
  }

  predicate TableInv(t: Table, high: nat) {
    && high <= SLOTS
    && (forall i | 0 <= i < SLOTS :: SlotOk(t, high, i))
    && (forall i, j {:trigger Alike(t[i], t[j])} | 0 <= i < j < SLOTS :: !Alike(t[i], t[j]))
  }

  predicate Inv(s: State) {
    TableInv(s.slots, s.high)
  }

  // ----- the search -----

  /** The full scan: some slot of the table holds (kind, key). */
  predicate Present(t: Table, kind: Kind, key: Key) {
    exists i | 0 <= i < SLOTS :: Holds(t[i], kind, key)
  }

  lemma LiveIffPresent(t: Table, kind: Kind, key: Key)
    ensures Live(t, kind, key) != [] <==> Present(t, kind, key)
  {
    var c := Live(t, kind, key);
    if c != [] {
      assert Holds(t[Slot(key, c[0])], kind, key);
    }
    if Present(t, kind, key) {
      var i :| 0 <= i < SLOTS && Holds(t[i], kind, key);
      ChainIsComplete(t, key, kind, key, 0, |t|, Distance(key, i));
    }
  }

  /** In every state that keeps the invariant the bounded search finds an entry exactly when a
      scan of all two hundred slots would, and then the first one in probe order. */
  lemma BoundedSearchIsComplete(s: State, kind: Kind, key: Key)
    requires Inv(s) && Searched(kind)
    ensures Find(s, kind, key).None? <==> !Present(s.slots, kind, key)
    ensures Find(s, kind, key) == if Live(s.slots, kind, key) == [] then None
                                  else Some(Slot(key, Live(s.slots, kind, key)[0]))
  {
    var c := Live(s.slots, kind, key);
    LiveIffPresent(s.slots, kind, key);
    if c != [] {
      var i := Slot(key, c[0]);
      assert SlotOk(s.slots, s.high, i);
      SlotDistance(key, c[0]);
    }
  }

  lemma FindHolds(s: State, kind: Kind, key: Key)
    requires Find(s, kind, key).Some?
    ensures Find(s, kind, key).value < SLOTS
    ensures Holds(s.slots[Find(s, kind, key).value], kind, key)
  {
  }

  // ----- the primitive changes keep the invariant -----

  lemma ClearKeeps(t: Table, high: nat, i: nat)
    requires TableInv(t, high) && i < SLOTS
    ensures TableInv(t[i := Zero()], high)
  {
    var t' := t[i := Zero()];
    forall j | 0 <= j < SLOTS ensures SlotOk(t', high, j) {
      assert SlotOk(t, high, j);
    }
    forall j, k | 0 <= j < k < SLOTS ensures !Alike(t'[j], t'[k]) {
      assert !Alike(t[j], t[k]);
    }
  }

  /** An entry may be rewritten in place if it keeps its kind and key. */
  lemma RewriteKeeps(t: Table, high: nat, i: nat, e: Entry)
    requires TableInv(t, high) && i < SLOTS
    requires EntryOk(e) && e.kind == t[i].kind && e.key == t[i].key
    ensures TableInv(t[i := e], high)
  {
    var t' := t[i := e];
    forall j | 0 <= j < SLOTS ensures SlotOk(t', high, j) {
      assert SlotOk(t, high, j);
    }
    forall j, k | 0 <= j < k < SLOTS ensures !Alike(t'[j], t'[k]) {
      assert !Alike(t[j], t[k]);
    }
  }

  lemma ClaimIsUnused(s: State, key: Key)
    requires Inv(s) && Claim(s, key).Some?
    ensures var (s1, i) := Claim(s, key).value;
            && i < SLOTS && s1.slots == s.slots && s1.slots[i] == Zero()
            && Distance(key, i) < s1.high && s.high <= s1.high <= SLOTS
            && s1.memory == s.memory && s1.owned == s.owned
  {
    var d := FirstFree(s.slots, key).value;
    SlotDistance(key, d);
    assert SlotOk(s.slots, s.high, Slot(key, d));
  }

  /** A new entry may go into an unused slot near enough to its start, and raise the mark. */
  lemma PlaceKeeps(t: Table, high: nat, high': nat, i: nat, e: Entry)
    requires TableInv(t, high) && high <= high' <= SLOTS
    requires i < SLOTS && t[i].kind == Unused
    requires EntryOk(e) && e.kind != Unused && (Searched(e.kind) ==> Distance(e.key, i) < high')
    requires Single(e.kind) ==> !Present(t, e.kind, e.key)
    ensures TableInv(t[i := e], high')
  {
    var t' := t[i := e];
    forall j | 0 <= j < SLOTS ensures SlotOk(t', high', j) {
      assert SlotOk(t, high, j);
    }
    forall j, k | 0 <= j < k < SLOTS ensures !Alike(t'[j], t'[k]) {
      assert !Alike(t[j], t[k]);
      if Single(e.kind) {
        assert !Holds(t[j], e.kind, e.key) && !Holds(t[k], e.kind, e.key);
      }
    }
  }

  /** Zeroing any number of entries is safe. */
  lemma ZeroingKeeps(t: Table, t': Table, high: nat)
    requires TableInv(t, high)
    requires forall i | 0 <= i < SLOTS :: t'[i] == t[i] || t'[i] == Zero()
    ensures TableInv(t', high)
  {
    forall j | 0 <= j < SLOTS ensures SlotOk(t', high, j) {
      assert SlotOk(t, high, j);
    }
    forall j, k | 0 <= j < k < SLOTS ensures !Alike(t'[j], t'[k]) {
      assert !Alike(t[j], t[k]);
    }
  }

  // ----- every operation keeps the invariant -----

  lemma StoreNewKeeps(s: State, e: Entry)
    requires Inv(s) && Claim(s, e.key).Some?
    requires EntryOk(e) && Searched(e.kind) && (Single(e.kind) ==> !Present(s.slots, e.kind, e.key))
    ensures Inv(Store(Claim(s, e.key).value.0, Claim(s, e.key).value.1, e))
  {
    ClaimIsUnused(s, e.key);
    var (s1, i) := Claim(s, e.key).value;
    PlaceKeeps(s.slots, s.high, s1.high, i, e);
  }

  lemma ClearStateKeeps(s: State, i: nat)
    requires Inv(s) && i < SLOTS
    ensures Inv(Clear(s, i))
  {
    ClearKeeps(s.slots, s.high, i);
  }

  lemma RewriteFoundKeeps(s: State, i: nat, e: Entry)
    requires Inv(s) && i < SLOTS && EntryOk(e) && e.kind == s.slots[i].kind && e.key == s.slots[i].key
    ensures Inv(Store(s, i, e))
  {
    RewriteKeeps(s.slots, s.high, i, e);
  }

  /** Setting the one entry of a key, new or existing. */
  lemma SetSingleKeeps(s: State, e: Entry)
    requires Inv(s) && EntryOk(e) && Searched(e.kind) && Single(e.kind)
    requires FindOrClaim(s, e.kind, e.key).Some?
    ensures var (s1, i) := FindOrClaim(s, e.kind, e.key).value; i < SLOTS && Inv(Store(s1, i, e))
  {
    BoundedSearchIsComplete(s, e.kind, e.key);
    if Find(s, e.kind, e.key).Some? {
      FindHolds(s, e.kind, e.key);
      RewriteFoundKeeps(s, Find(s, e.kind, e.key).value, e);
    } else {
      ClaimIsUnused(s, e.key);
      StoreNewKeeps(s, e);
    }
  }

  /** The entry found or claimed for a kind has that kind's shape, or is still zero. */
  lemma FoundShape(s: State, kind: Kind, key: Key)
    requires Inv(s) && Searched(kind) && FindOrClaim(s, kind, key).Some?
    ensures var (s1, i) := FindOrClaim(s, kind, key).value;
            i < SLOTS && EntryOk(s1.slots[i]) && (s1.slots[i] == Zero() || Holds(s1.slots[i], kind, key))
  {
    if Find(s, kind, key).Some? {
      FindHolds(s, kind, key);
      assert SlotOk(s.slots, s.high, Find(s, kind, key).value);
    } else {
      ClaimIsUnused(s, key);
    }
  }

  lemma ResetKeeps(s: State, key: Key)
    requires Inv(s)
    ensures Inv(Reset(s, key))
  {
    if key == 0 {
      var t := Swept(s.slots, 0);
      assert forall i | 0 <= i < SLOTS :: t[i] == Zero();
      assert forall i | 0 <= i < SLOTS :: SlotOk(t, 0, i);
    } else {
      ZeroingKeeps(s.slots, Swept(s.slots, key), s.high);
    }
  }

  lemma CallOnceKeeps(s: State, key: Key)
    requires Inv(s) && CallOnceOp(s, key).Done?
    ensures Inv(CallOnceOp(s, key).state)
  {
    if CallOnceOp(s, key).value {
      var i := Lowest(s.slots, Unused, None, 0).value;
      PlaceKeeps(s.slots, s.high, s.high, i, Entry(CallOnce, key, false, Blank));
    }
  }

  lemma CountDownKeeps(s: State, i: nat)
    requires Inv(s) && i < SLOTS && s.slots[i].kind == DeferredRc && RcCount(s.slots[i].data) > 1
    ensures Inv(Store(s, i, CountedDown(s.slots[i])))
  {
    assert SlotOk(s.slots, s.high, i);
    RewriteFoundKeeps(s, i, CountedDown(s.slots[i]));
  }

  lemma CheckDeferredKeeps(s: State, key: Key)
    requires Inv(s)
    ensures Inv(CheckDeferred(s, key).0)
  {
    if Find(s, DeferredRc, key).Some? {
      var i := Find(s, DeferredRc, key).value;
      FindHolds(s, DeferredRc, key);
      if RcCount(s.slots[i].data) <= 1 { ClearStateKeeps(s, i); } else { CountDownKeeps(s, i); }
    }
  }

  lemma CheckDefaultKeeps(s: State, key: Key)
    requires Inv(s)
    ensures Inv(CheckDefault(s, key).0)
  {
    if Find(s, ForceFail, key).Some? {
      var i := Find(s, ForceFail, key).value;
      FindHolds(s, ForceFail, key);
      var e := s.slots[i];
      assert SlotOk(s.slots, s.high, i);
      RewriteFoundKeeps(s, i, e.(data := Rc(Plus1(RcCount(e.data)), RcValue(e.data))));
    }
  }

  lemma SetDefaultKeeps(s: State, key: Key, value: int)
    requires Inv(s) && SetDefault(s, key, value).Done?
    ensures Inv(SetDefault(s, key, value).state)
  {
    FoundShape(s, ForceFail, key);
    var (s1, i) := FindOrClaim(s, ForceFail, key).value;
    var e := s1.slots[i];
    SetSingleKeeps(s, Entry(ForceFail, key, e.allocFlag, Rc(RcCount(e.data), value)));
  }

  lemma RegisterContextKeeps(s: State, key: Key, arg: nat)
    requires Inv(s) && RegisterContext(s, key, arg).Done?
    ensures Inv(RegisterContext(s, key, arg).state)
  {
    FoundShape(s, Context, key);
    var (s1, i) := FindOrClaim(s, Context, key).value;
    var e := s1.slots[i];
    var args := ArgList(e.data);
    var args' := if |args| < MAX_ARGS then args + [arg] else args;
    SetSingleKeeps(s, Entry(Context, key, e.allocFlag, Args(args')));
  }

  lemma CountCallKeeps(s: State, key: Key, code: int)
    requires Inv(s) && CountCall(s, key, code).Some?
    ensures Inv(CountCall(s, key, code).value)
  {
    FoundShape(s, Counter, key);
    var (s1, i) := FindOrClaim(s, Counter, key).value;
    var e := s1.slots[i];
    SetSingleKeeps(s, Entry(Counter, key, e.allocFlag, Rc(Plus1(RcCount(e.data)), code)));
  }

  lemma SetHookKeeps(s: State, key: Key, hook: Option<nat>)
    requires Inv(s) && SetHook(s, key, hook).Done?
    ensures Inv(SetHook(s, key, hook).state)
  {
    BoundedSearchIsComplete(s, Hook, key);
    if Find(s, Hook, key).Some? {
      var i := Find(s, Hook, key).value;
      FindHolds(s, Hook, key);
      if hook.None? {
        ClearStateKeeps(s, i);
      } else {
        assert SlotOk(s.slots, s.high, i);
        RewriteFoundKeeps(s, i, s.slots[i].(data := Cb(hook.value)));
      }
    } else if hook.Some? {
      StoreNewKeeps(s, Entry(Hook, key, false, Cb(hook.value)));
    }
  }

  lemma AdvanceKeeps(s: State, i: nat, n: nat)
    requires Inv(s) && i < SLOTS && s.slots[i].kind == DataBuffer && s.slots[i].data.Buff?
    ensures Inv(Advance(s, i, n))
  {
    var e := s.slots[i];
    assert SlotOk(s.slots, s.high, i);
    if e.data.position + n >= e.data.total {
      ClearStateKeeps(s, i);
    } else {
      RewriteFoundKeeps(s, i, e.(data := e.data.(position := e.data.position + n)));
    }
  }

  lemma SetBufferKeeps(s: State, key: Key, source: Option<Address>, size: nat, copy: bool, block: Address)
    requires Inv(s) && Readable(s, source, size) && SetBuffer(s, key, source, size, copy, block).Done?
    ensures Inv(SetBuffer(s, key, source, size, copy, block).state)
  {
    if source.Some? && size > 0 {
      if copy {
        StoreNewKeeps(s, Entry(DataBuffer, key, true, Buff(block, size, 0)));
      } else {
        StoreNewKeeps(s, Entry(DataBuffer, key, false, Buff(source.value, size, 0)));
      }
    }
  }

  lemma ClearFoundKeeps(s: State, kind: Kind, key: Key)
    requires Inv(s) && Find(s, kind, key).Some?
    ensures Inv(Clear(s, Find(s, kind, key).value))
  {
    FindHolds(s, kind, key);
    ClearStateKeeps(s, Find(s, kind, key).value);
  }

  lemma CallKeeps(s: State, key: Key, defaultRc: int, hookResult: int)
    requires Inv(s) && Call(s, key, defaultRc, hookResult).Done?
    ensures Inv(Call(s, key, defaultRc, hookResult).state)
  {
    CheckDeferredKeeps(s, key);
    CheckDefaultKeeps(CheckDeferred(s, key).0, key);
    var (s1, code) := ChooseCode(s, key, defaultRc);
    CountCallKeeps(s1, key, code);
    var s2 := CountCall(s1, key, code).value;
    if Find(s2, Context, key).Some? { ClearFoundKeeps(s2, Context, key); }
  }

  lemma CopyToLocalKeeps(s: State, key: Key, max: nat)
    requires Inv(s) && BuffersOk(s)
    ensures Inv(CopyToLocal(s, key, max).0)
  {
    if Find(s, DataBuffer, key).Some? {
      var i := Find(s, DataBuffer, key).value;
      FindHolds(s, DataBuffer, key);
      assert BufferOk(s, s.slots[i]);
      AdvanceKeeps(s, i, Amount(s.slots[i].data, max));
    }
  }

  lemma CopyFromLocalKeeps(s: State, key: Key, bytes: seq<bv8>)
    requires Inv(s) && BuffersOk(s)
    ensures Inv(CopyFromLocal(s, key, bytes).0)
  {
    if Find(s, DataBuffer, key).Some? {
      var i := Find(s, DataBuffer, key).value;
      FindHolds(s, DataBuffer, key);
      var d := s.slots[i].data;
      assert BufferOk(s, s.slots[i]);
      AdvanceKeeps(Overwritten(s, d, bytes), i, Amount(d, |bytes|));
    }
  }

  /** No interleaving of the operations leaves the invariant. */
  lemma StepKeeps(s: State, op: Op)
    requires Inv(s) && BuffersOk(s) && Enabled(s, op) && Step(s, op).Some?
    ensures Inv(Step(s, op).value)
  {
    match op
    case OpReset(key) => ResetKeeps(s, key);
    case OpCallOnce(key) => CallOnceKeeps(s, key);
    case OpSetDeferred(key, count, retcode) =>
      if count > 0 { StoreNewKeeps(s, Entry(DeferredRc, key, false, Rc(count, retcode))); }
    case OpClearDeferred(key) => ZeroingKeeps(s.slots, Without(s.slots, DeferredRc, key), s.high);
    case OpCheckDeferred(key) => CheckDeferredKeeps(s, key);
    case OpSetDefault(key, value) => SetDefaultKeeps(s, key, value);
    case OpClearDefault(key) => if Find(s, ForceFail, key).Some? { ClearFoundKeeps(s, ForceFail, key); }
    case OpCheckDefault(key) => CheckDefaultKeeps(s, key);
    case OpSetBuffer(key, source, size, copy, block) => SetBufferKeeps(s, key, source, size, copy, block);
    case OpCopyToLocal(key, max) => CopyToLocalKeeps(s, key, max);
    case OpCopyFromLocal(key, bytes) => CopyFromLocalKeeps(s, key, bytes);
    case OpSetHook(key, hook) => SetHookKeeps(s, key, hook);
    case OpRegisterContext(key, arg) => RegisterContextKeeps(s, key, arg);
    case OpCall(key, defaultRc, hookResult) => CallKeeps(s, key, defaultRc, hookResult);
    case OpCallerWrites(address, bytes) =>
  }
}

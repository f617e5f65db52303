/**
How the order of a queue breaks: a put after a get takes the slot that the get has freed, and so does
a put after a deferred code of OS_QueuePut has come due.
*/
module QueueOvertakes {
  import opened Options
  import opened StubTable
  import opened StubInvariant
  import opened StubMemory
  import opened StubOrder
  import opened StubEffects
  import opened StubAdditions
  import opened StubCalls
  import opened StubCodes
  import opened StubBuffers
  import opened QueueStubs
  import opened QueueRuns
  import opened QueueOrder

  // ----- entering a stub fills no hole for good -----

  /** What is used, apart from the context of a stub, was used before. */
  predicate Shrinks(t: Table, t': Table, key: Key) {
    forall i | 0 <= i < SLOTS && t'[i].kind != Unused && !Holds(t'[i], Context, key) ::
      t[i].kind != Unused && !Holds(t[i], Context, key)
  }

  lemma ShrinksChains(t: Table, t': Table, t'': Table, key: Key)
    requires Shrinks(t, t', key) && Shrinks(t', t'', key)
    ensures Shrinks(t, t'', key)
  {
  }

  lemma RegisterShrinks(s: State, op: Op)
    requires Inv(s) && op.OpRegisterContext? && BuffersOk(s) && Enabled(s, op) && Step(s, op).Some?
    ensures Shrinks(s.slots, Step(s, op).value.slots, op.key)
  {
    FoundEntry(s, Context, op.key);
  }

  lemma {:induction false} ArgumentsShrink(s: State, ops: seq<Op>, key: Key)
    requires Valid(s) && Legal(s, ops) && forall op | op in ops :: op.OpRegisterContext? && op.key == key
    ensures Shrinks(s.slots, Run(s, ops).slots, key)
    decreases |ops|
  {
    if ops != [] {
      assert ops[0].OpRegisterContext? && ops[0].key == key;
      var s' := Step(s, ops[0]).value;
      RegisterShrinks(s, ops[0]);
      StepKeepsValid(s, ops[0]);
      ArgumentsShrink(s', ops[1..], key);
      ShrinksChains(s.slots, s'.slots, Run(s', ops[1..]).slots, key);
    }
  }

  lemma CheckDeferredShrinks(s: State, key: Key)
    ensures Shrinks(s.slots, CheckDeferred(s, key).0.slots, key)
  {
    if Find(s, DeferredRc, key).Some? { FindHolds(s, DeferredRc, key); }
  }

  lemma CheckDefaultShrinks(s: State, key: Key)
    ensures Shrinks(s.slots, CheckDefault(s, key).0.slots, key)
  {
    if Find(s, ForceFail, key).Some? { FindHolds(s, ForceFail, key); }
  }

  lemma ChooseShrinks(s: State, key: Key)
    ensures Shrinks(s.slots, ChooseCode(s, key, OS_SUCCESS).0.slots, key)
  {
    var s1 := CheckDeferred(s, key).0;
    CheckDeferredShrinks(s, key);
    CheckDefaultShrinks(s1, key);
    ShrinksChains(s.slots, s1.slots, CheckDefault(s1, key).0.slots, key);
  }

  lemma CountShrinks(s: State, key: Key, code: int)
    requires Inv(s) && Present(s.slots, Counter, key) && CountCall(s, key, code).Some?
    ensures Shrinks(s.slots, CountCall(s, key, code).value.slots, key)
  {
    BoundedSearchIsComplete(s, Counter, key);
    FindHolds(s, Counter, key);
  }

  lemma DropShrinks(s: State, key: Key)
    ensures Shrinks(s.slots, DropContext(s, key).slots, key)
  {
  }

  lemma CallShrinks(s: State, key: Key, hookResult: int)
    requires Inv(s) && Present(s.slots, Counter, key) && Call(s, key, OS_SUCCESS, hookResult).Done?
    ensures Shrinks(s.slots, Call(s, key, OS_SUCCESS, hookResult).state.slots, key)
  {
    var (s1, code) := ChooseCode(s, key, OS_SUCCESS);
    var s2 := CountCall(s1, key, code).value;
    ChooseShrinks(s, key);
    ChooseCodeKeeps(s, key, OS_SUCCESS);
    ChooseCodeFrame(s, key, OS_SUCCESS, Counter, key);
    LiveIffPresent(s.slots, Counter, key);
    LiveIffPresent(s1.slots, Counter, key);
    CountShrinks(s1, key, code);
    ShrinksChains(s.slots, s1.slots, s2.slots, key);
    DropShrinks(s2, key);
    ShrinksChains(s.slots, s2.slots, DropContext(s2, key).slots, key);
  }

  lemma CounterAfterArguments(s: State, ops: seq<Op>, key: Key)
    requires Valid(s) && Legal(s, ops) && Present(s.slots, Counter, key)
    requires forall op | op in ops :: op.OpRegisterContext? && op.key == key
    ensures Valid(Run(s, ops)) && Present(Run(s, ops).slots, Counter, key)
  {
    RunKeepsValid(s, ops);
    RunFrame(s, ops, Counter, key);
    LiveIffPresent(s.slots, Counter, key);
    LiveIffPresent(Run(s, ops).slots, Counter, key);
  }

  lemma EnterShrinks(s: State, key: Key, args: nat, hookResult: int)
    requires Valid(s) && Enter(s, key, args, hookResult).Done? && Present(s.slots, Counter, key)
    ensures Shrinks(s.slots, Enter(s, key, args, hookResult).state.slots, key)
    ensures !Present(Enter(s, key, args, hookResult).state.slots, Context, key)
  {
    var ops := Arguments(key, args);
    var s1 := Run(s, ops);
    CounterAfterArguments(s, ops, key);
    ArgumentsShrink(s, ops, key);
    CallShrinks(s1, key, hookResult);
    CallDropsContext(s1, key, OS_SUCCESS, hookResult);
    ShrinksChains(s.slots, s1.slots, Call(s1, key, OS_SUCCESS, hookResult).state.slots, key);
  }

  lemma HoleStays(t: Table, t': Table, key: Key, i: nat)
    requires Shrinks(t, t', key) && !Present(t', Context, key) && i < SLOTS && t[i].kind == Unused
    ensures t'[i].kind == Unused
  {
    assert !Holds(t'[i], Context, key);
  }

  /** A stub that was called before, entered again, leaves every unused slot unused. */
  lemma EnterFillsNoHole(s: State, key: Key, args: nat, hookResult: int, i: nat)
    requires Valid(s) && Enter(s, key, args, hookResult).Done? && Present(s.slots, Counter, key)
    requires i < SLOTS && s.slots[i].kind == Unused
    ensures Enter(s, key, args, hookResult).state.slots[i].kind == Unused
  {
    EnterShrinks(s, key, args, hookResult);
    HoleStays(s.slots, Enter(s, key, args, hookResult).state.slots, key, i);
  }

  // ----- a put after a get -----

  lemma {:induction false} NothingThere(t: Table, id: Key, n: nat)
    requires n <= SLOTS && forall k | 0 <= k < n :: !Holds(t[Slot(id, k)], DataBuffer, id)
    ensures Chain(t, id, DataBuffer, id, 0, n) == []
  {
    if n > 0 { NothingThere(t, id, n - 1); }
  }

  /** Nothing of the queue lies before a hole that lies before all of it. */
  lemma NoneBeforeHole(t: Table, high: nat, id: Key, d: nat)
    requires TableInv(t, high) && d < SLOTS && t[Slot(id, d)].kind == Unused && FirstFree(t, id).Some?
    requires forall k | 0 <= k < d :: !Holds(t[Slot(id, k)], DataBuffer, id)
    ensures Ahead(t, DataBuffer, id) == 0
  {
    var f := FirstFree(t, id).value;
    assert SlotOk(t, high, Slot(id, d));
    ChainHeadIsFirst(t, id, Unused, 0, 0, |t|, d);
    NothingThere(t, id, f);
  }

  /** No message of the queue is met before the first one. */
  lemma NoneBeforeHead(t: Table, id: Key, k: nat)
    requires Live(t, DataBuffer, id) != [] && k < Live(t, DataBuffer, id)[0]
    ensures !Holds(t[Slot(id, k)], DataBuffer, id)
  {
    if Holds(t[Slot(id, k)], DataBuffer, id) { ChainHeadIsFirst(t, id, DataBuffer, id, 0, |t|, k); }
  }

  lemma FreedHeadStays(t: Table, s: State, keys: Keys, hookResult: int, id: Key)
    requires Valid(s) && Enter(s, keys.put, PUT_ARGS, hookResult).Done? && Present(s.slots, Counter, keys.put)
    requires Live(t, DataBuffer, id) != [] && s.slots == t[HeadSlot(t, DataBuffer, id) := Zero()]
    ensures var t' := Enter(s, keys.put, PUT_ARGS, hookResult).state.slots;
            FirstFree(t', id).Some? ==> Ahead(t', DataBuffer, id) == 0
  {
    var d, s' := Live(t, DataBuffer, id)[0], Enter(s, keys.put, PUT_ARGS, hookResult).state;
    EnterEffect(s, keys.put, PUT_ARGS, hookResult, DataBuffer, id);
    EnterFillsNoHole(s, keys.put, PUT_ARGS, hookResult, Slot(id, d));
    EnterNoNew(s, keys.put, PUT_ARGS, hookResult, DataBuffer, id);
    forall k | 0 <= k < d ensures !Holds(s'.slots[Slot(id, k)], DataBuffer, id) {
      NoneBeforeHead(t, id, k);
      SlotsDiffer(id, d, k);
      assert !Holds(s.slots[Slot(id, k)], DataBuffer, id);
    }
    if FirstFree(s'.slots, id).Some? { NoneBeforeHole(s'.slots, s'.high, id, d); }
  }

  /** The get and the put on a queue, as far as the table is concerned. */
  lemma GetFreesHead(s: State, keys: Keys, id: Key, max: nat, hookResult: int)
    requires Valid(s) && BuffersOk(s) && Pending(s, id) != [] && max >= |Pending(s, id)[0]|
    requires QueueGet(s, keys, id, max, hookResult).Done?
             && QueueGet(s, keys, id, max, hookResult).value.0 == OS_SUCCESS
    ensures var e, s1 := Enter(s, keys.get, GET_ARGS, hookResult).state, QueueGet(s, keys, id, max, hookResult).state;
            && Live(e.slots, DataBuffer, id) != [] && s1.slots == e.slots[HeadSlot(e.slots, DataBuffer, id) := Zero()]
            && Valid(s1) && BuffersOk(s1) && Pending(s1, id) == Pending(s, id)[1..]
  {
    var e := Enter(s, keys.get, GET_ARGS, hookResult).state;
    EnterKeepsPending(s, keys.get, GET_ARGS, hookResult, id);
    UseUp(e, id, max);
  }

  lemma CounterStays(s: State, keys: Keys, id: Key, max: nat, hookResult: int)
    requires Valid(s) && BuffersOk(s) && keys.put != keys.get && Present(s.slots, Counter, keys.put)
    requires QueueGet(s, keys, id, max, hookResult).Done?
    ensures Present(QueueGet(s, keys, id, max, hookResult).state.slots, Counter, keys.put)
  {
    var e, s1 := Enter(s, keys.get, GET_ARGS, hookResult).state, QueueGet(s, keys, id, max, hookResult).state;
    EnterEffect(s, keys.get, GET_ARGS, hookResult, Counter, keys.put);
    EnterBuffersOk(s, keys.get, GET_ARGS, hookResult);
    LiveIffPresent(s.slots, Counter, keys.put);
    LiveIffPresent(e.slots, Counter, keys.put);
    if Enter(s, keys.get, GET_ARGS, hookResult).value == OS_SUCCESS {
      StepFrame(e, OpCopyToLocal(id, max), Counter, keys.put);
      LiveIffPresent(s1.slots, Counter, keys.put);
    }
  }

  /** A get that takes a whole message and then a put, on a queue to which OS_QueuePut was called before:
      the new message comes out before all that were waiting. */
  lemma PutAfterGetOvertakes(s: State, keys: Keys, id: Key, max: nat, hook1: int, source: Option<Address>, size: nat,
                             hook2: int, block: Address)
    requires Valid(s) && BuffersOk(s) && Pending(s, id) != [] && max >= |Pending(s, id)[0]|
    requires keys.put != keys.get && Present(s.slots, Counter, keys.put)
    requires QueueGet(s, keys, id, max, hook1).Done? && QueueGet(s, keys, id, max, hook1).value.0 == OS_SUCCESS
    requires var s1 := QueueGet(s, keys, id, max, hook1).state;
             && Valid(s1) && Readable(s1, source, size) && block !in s1.memory
             && QueuePut(s1, keys, id, source, size, hook2, block).Done?
             && Stores(QueuePut(s1, keys, id, source, size, hook2, block).value, source, size)
    ensures var s1 := QueueGet(s, keys, id, max, hook1).state;
            var s2 := QueuePut(s1, keys, id, source, size, hook2, block).state;
            BuffersOk(s2) && Pending(s2, id) == [Message(s1, source, size)] + Pending(s, id)[1..]
  {
    var e, s1 := Enter(s, keys.get, GET_ARGS, hook1).state, QueueGet(s, keys, id, max, hook1).state;
    GetFreesHead(s, keys, id, max, hook1);
    CounterStays(s, keys, id, max, hook1);
    FreedHeadStays(e.slots, s1, keys, hook2, id);
    var k := PutEffect(s1, keys, id, source, size, hook2, block, id);
    InsertFirst(Pending(s1, id), k, Message(s1, source, size));
  }

  // ----- a deferred code of OS_QueuePut -----

  lemma FindIs(s: State, kind: Kind, key: Key, i: nat)
    requires Inv(s) && Searched(kind) && i < SLOTS && Holds(s.slots[i], kind, key)
    requires forall j | 0 <= j < SLOTS && Holds(s.slots[j], kind, key) :: j == i
    ensures Find(s, kind, key) == Some(i)
  {
    BoundedSearchIsComplete(s, kind, key);
    FindHolds(s, kind, key);
  }

  lemma FindIsSingle(s: State, kind: Kind, key: Key, i: nat)
    requires Inv(s) && Searched(kind) && Single(kind) && i < SLOTS && Holds(s.slots[i], kind, key)
    ensures Find(s, kind, key) == Some(i)
  {
    forall j | 0 <= j < SLOTS && Holds(s.slots[j], kind, key) ensures j == i {
      assert !Alike(s.slots[i], s.slots[j]) || i >= j;
      assert !Alike(s.slots[j], s.slots[i]) || j >= i;
    }
    FindIs(s, kind, key, i);
  }

  function ContextEntry(key: Key, args: seq<nat>): Entry {
    Entry(Context, key, false, Args(args))
  }

  /** The registered arguments, as the emulation numbers them. */
  function Down(n: nat): (r: seq<nat>)
    ensures |r| == n
  {
    if n == 0 then [] else [n] + Down(n - 1)
  }

  lemma JoinsContext(s: State, key: Key, arg: nat, i: nat, args: seq<nat>)
    requires Inv(s) && i < SLOTS && s.slots[i] == ContextEntry(key, args) && |args| < MAX_ARGS
    ensures RegisterContext(s, key, arg) == Done(s.(slots := s.slots[i := ContextEntry(key, args + [arg])]), ())
  {
    FindIsSingle(s, Context, key, i);
  }

  lemma OpensContext(s: State, key: Key, arg: nat, d: nat)
    requires Inv(s) && !Present(s.slots, Context, key) && FreeAt(s.slots, key, d)
    ensures RegisterContext(s, key, arg).Done?
    ensures RegisterContext(s, key, arg).state.slots == s.slots[Slot(key, d) := ContextEntry(key, [arg])]
  {
    BoundedSearchIsComplete(s, Context, key);
    OvertakeClaim(s, key, d);
    assert SlotOk(s.slots, s.high, Slot(key, d));
    assert [] + [arg] == [arg];
  }

  lemma ArgumentsFirst(key: Key, n: nat)
    requires n > 0
    ensures Arguments(key, n) == [OpRegisterContext(key, n)] + Arguments(key, n - 1)
  {
  }

  lemma DownAppend(args: seq<nat>, n: nat)
    requires n > 0
    ensures (args + [n]) + Down(n - 1) == args + Down(n)
  {
  }

  /** The arguments are registered one after the other. */
  lemma RegisteredNext(s: State, key: Key, n: nat) returns (s': State)
    requires Valid(s) && BuffersOk(s) && n > 0 && RegisterContext(s, key, n).Done?
    ensures s' == RegisterContext(s, key, n).state && Valid(s') && BuffersOk(s')
    ensures Legal(s', Arguments(key, n - 1)) ==>
              Legal(s, Arguments(key, n)) && Run(s, Arguments(key, n)) == Run(s', Arguments(key, n - 1))
  {
    var op := OpRegisterContext(key, n);
    s' := OvertakeNext(s, op);
    ArgumentsFirst(key, n);
    if Legal(s', Arguments(key, n - 1)) { RunCons(s, op, Arguments(key, n - 1)); }
  }

  lemma JoinedNext(s: State, key: Key, n: nat, i: nat, args: seq<nat>) returns (s': State)
    requires Valid(s) && BuffersOk(s) && i < SLOTS && s.slots[i] == ContextEntry(key, args) && |args| < MAX_ARGS
             && n > 0
    ensures Valid(s') && BuffersOk(s') && s'.slots == s.slots[i := ContextEntry(key, args + [n])]
    ensures Legal(s', Arguments(key, n - 1)) ==>
              Legal(s, Arguments(key, n)) && Run(s, Arguments(key, n)) == Run(s', Arguments(key, n - 1))
  {
    JoinsContext(s, key, n, i, args);
    s' := RegisteredNext(s, key, n);
  }

  lemma {:induction false} MoreArguments(s: State, key: Key, n: nat, i: nat, args: seq<nat>)
    requires Valid(s) && BuffersOk(s) && i < SLOTS && s.slots[i] == ContextEntry(key, args) && |args| + n <= MAX_ARGS
    ensures Legal(s, Arguments(key, n))
    ensures Run(s, Arguments(key, n)).slots == s.slots[i := ContextEntry(key, args + Down(n))]
    decreases n
  {
    if n == 0 {
      assert args + [] == args;
      Rewritten(s.slots, i, s.slots[i], ContextEntry(key, args));
    } else {
      var s' := JoinedNext(s, key, n, i, args);
      MoreArguments(s', key, n - 1, i, args + [n]);
      DownAppend(args, n);
      Rewritten(s.slots, i, ContextEntry(key, args + [n]), ContextEntry(key, args + Down(n)));
    }
  }

  lemma DownIs(n: nat)
    requires n > 0
    ensures [n] + Down(n - 1) == Down(n)
  {
  }

  lemma Rewritten(t: Table, c: nat, x: Entry, y: Entry)
    requires c < SLOTS
    ensures t[c := x][c := y] == t[c := y]
  {
  }

  lemma JoinedArguments(s: State, t: Table, key: Key, n: nat, i: nat)
    requires Valid(s) && BuffersOk(s) && i < SLOTS && 0 < n <= MAX_ARGS && s.slots == t[i := ContextEntry(key, [n])]
    ensures Legal(s, Arguments(key, n - 1)) && Run(s, Arguments(key, n - 1)).slots == t[i := ContextEntry(key, Down(n))]
  {
    MoreArguments(s, key, n - 1, i, [n]);
    DownIs(n);
    Rewritten(t, i, ContextEntry(key, [n]), ContextEntry(key, Down(n)));
  }

  /** The first argument takes the first unused slot, and the others join it. */
  lemma RegisteredAt(s: State, key: Key, n: nat, d: nat)
    requires Valid(s) && !Present(s.slots, Context, key) && FreeAt(s.slots, key, d) && 0 < n <= MAX_ARGS
    ensures Legal(s, Arguments(key, n)) && Valid(Run(s, Arguments(key, n)))
    ensures Run(s, Arguments(key, n)).slots == s.slots[Slot(key, d) := ContextEntry(key, Down(n))]
  {
    MemInvBuffers(s);
    OpensContext(s, key, n, d);
    var s' := RegisteredNext(s, key, n);
    JoinedArguments(s', s.slots, key, n, Slot(key, d));
    RunKeepsValid(s, Arguments(key, n));
  }

  function CounterEntry(key: Key, count: nat, code: int): Entry {
    Entry(Counter, key, false, Rc(count, code))
  }

  /** No sticky code and no hook. */
  predicate Plain(t: Table, key: Key) {
    !Present(t, ForceFail, key) && !Present(t, Hook, key)
  }

  lemma PlainAfter(t: Table, t': Table, key: Key)
    requires Plain(t, key)
             && forall i | 0 <= i < SLOTS :: t'[i].kind == ForceFail || t'[i].kind == Hook ==> t'[i] == t[i]
    ensures Plain(t', key)
  {
    forall i | 0 <= i < SLOTS ensures !Holds(t'[i], ForceFail, key) && !Holds(t'[i], Hook, key) {
      assert !Holds(t[i], ForceFail, key) && !Holds(t[i], Hook, key);
    }
  }

  /** The end of a call: it is counted where the counter is, and the context goes. */
  lemma CountedAt(s: State, key: Key, code: int, c: nat, j: nat)
    requires Inv(s) && c < SLOTS && j < SLOTS && Holds(s.slots[c], Context, key) && Holds(s.slots[j], Counter, key)
    ensures CountCall(s, key, code).Some?
    ensures DropContext(CountCall(s, key, code).value, key).slots
            == s.slots[j := CounterEntry(key, Plus1(RcCount(s.slots[j].data)), code)][c := Zero()]
    ensures Find(CountCall(s, key, code).value, Hook, key) == Find(s, Hook, key)
  {
    FindIsSingle(s, Counter, key, j);
    assert SlotOk(s.slots, s.high, j) && SlotOk(s.slots, s.high, c);
    CountCallKeeps(s, key, code);
    var s2 := CountCall(s, key, code).value;
    FindIsSingle(s2, Context, key, c);
    ViewFrame(s.slots, j, s2.slots[j], Hook, key);
  }

  /** The end of a first call: the counter takes an unused slot. */
  lemma CountedNewAt(s: State, key: Key, code: int, c: nat, e: nat)
    requires Inv(s) && c < SLOTS && Holds(s.slots[c], Context, key) && !Present(s.slots, Counter, key)
    requires FreeAt(s.slots, key, e)
    ensures CountCall(s, key, code).Some?
    ensures DropContext(CountCall(s, key, code).value, key).slots
            == s.slots[Slot(key, e) := CounterEntry(key, 1, code)][c := Zero()]
    ensures Find(s, Hook, key).None? ==> Find(CountCall(s, key, code).value, Hook, key).None?
  {
    BoundedSearchIsComplete(s, Counter, key);
    OvertakeClaim(s, key, e);
    assert SlotOk(s.slots, s.high, Slot(key, e)) && SlotOk(s.slots, s.high, c);
    CountCallKeeps(s, key, code);
    var s2 := CountCall(s, key, code).value;
    FindIsSingle(s2, Context, key, c);
    BoundedSearchIsComplete(s, Hook, key);
    BoundedSearchIsComplete(s2, Hook, key);
    ViewFrame(s.slots, Slot(key, e), s2.slots[Slot(key, e)], Hook, key);
    LiveIffPresent(s.slots, Hook, key);
    LiveIffPresent(s2.slots, Hook, key);
  }

  /** What a deferred code at slot i does when the stub is called: it counts down, or it comes due. */
  lemma DeferredAt(s: State, key: Key, i: nat)
    requires Inv(s) && i < SLOTS && Holds(s.slots[i], DeferredRc, key) && Plain(s.slots, key)
    requires forall j | 0 <= j < SLOTS && Holds(s.slots[j], DeferredRc, key) :: j == i
    ensures var (s1, code) := ChooseCode(s, key, OS_SUCCESS); var e := s.slots[i];
            && (RcCount(e.data) > 1 ==> s1 == s.(slots := s.slots[i := CountedDown(e)]) && code == OS_SUCCESS)
            && (RcCount(e.data) == 1 ==> s1.slots == s.slots[i := Zero()] && code == RcValue(e.data))
  {
    FindIs(s, DeferredRc, key, i);
    var s1 := CheckDeferred(s, key).0;
    CheckDeferredKeeps(s, key);
    PlainAfter(s.slots, s1.slots, key);
    BoundedSearchIsComplete(s1, ForceFail, key);
  }

  lemma NoneDeferred(s: State, key: Key)
    requires Inv(s) && !Present(s.slots, DeferredRc, key) && Plain(s.slots, key)
    ensures ChooseCode(s, key, OS_SUCCESS) == (s, OS_SUCCESS)
  {
    BoundedSearchIsComplete(s, DeferredRc, key);
    BoundedSearchIsComplete(s, ForceFail, key);
  }

  // ----- a stub entered in three situations -----

  lemma CallIs(s: State, key: Key, hookResult: int, s1: State, code: int)
    requires ChooseCode(s, key, OS_SUCCESS) == (s1, code) && CountCall(s1, key, code).Some?
    requires Find(CountCall(s1, key, code).value, Hook, key).None?
    ensures Call(s, key, OS_SUCCESS, hookResult) == Done(DropContext(CountCall(s1, key, code).value, key), code)
  {
  }

  /** Only an unused slot, the one of the context, was changed. */
  lemma EntersPlain(s: State, key: Key, n: nat, d: nat, s1: State)
    requires Valid(s) && FreeAt(s.slots, key, d) && Plain(s.slots, key)
    requires s1.slots == s.slots[Slot(key, d) := ContextEntry(key, Down(n))] && Inv(s1)
    ensures Plain(s1.slots, key) && s.slots[Slot(key, d)] == Zero() && Find(s1, Hook, key).None?
  {
    PlainAfter(s.slots, s1.slots, key);
    assert SlotOk(s.slots, s.high, Slot(key, d));
    BoundedSearchIsComplete(s1, Hook, key);
  }

  lemma HookAfterChoice(s: State, key: Key)
    requires Inv(s) && Plain(s.slots, key)
    ensures Inv(ChooseCode(s, key, OS_SUCCESS).0) && Find(ChooseCode(s, key, OS_SUCCESS).0, Hook, key).None?
  {
    var s1 := ChooseCode(s, key, OS_SUCCESS).0;
    ChooseCodeKeeps(s, key, OS_SUCCESS);
    ChooseCodeFrame(s, key, OS_SUCCESS, Hook, key);
    LiveIffPresent(s.slots, Hook, key);
    LiveIffPresent(s1.slots, Hook, key);
    BoundedSearchIsComplete(s1, Hook, key);
  }

  /** A call with nothing deferred. */
  lemma CallPlain(s: State, key: Key, hookResult: int, c: nat, j: nat)
    requires Inv(s) && Plain(s.slots, key) && !Present(s.slots, DeferredRc, key)
    requires c < SLOTS && j < SLOTS && Holds(s.slots[c], Context, key) && Holds(s.slots[j], Counter, key)
    ensures var r := Call(s, key, OS_SUCCESS, hookResult);
            && r.Done? && r.value == OS_SUCCESS
            && r.state.slots ==
               s.slots[j := CounterEntry(key, Plus1(RcCount(s.slots[j].data)), OS_SUCCESS)][c := Zero()]
  {
    NoneDeferred(s, key);
    HookAfterChoice(s, key);
    CountedAt(s, key, OS_SUCCESS, c, j);
    CallIs(s, key, hookResult, s, OS_SUCCESS);
  }

  /** A call on which a deferred code comes due. */
  lemma CallDue(s: State, key: Key, hookResult: int, c: nat, j: nat, i: nat)
    requires Inv(s) && Plain(s.slots, key) && i < SLOTS && Holds(s.slots[i], DeferredRc, key)
    requires RcCount(s.slots[i].data) == 1
    requires forall k | 0 <= k < SLOTS && Holds(s.slots[k], DeferredRc, key) :: k == i
    requires c < SLOTS && j < SLOTS && Holds(s.slots[c], Context, key) && Holds(s.slots[j], Counter, key)
    ensures var r, code := Call(s, key, OS_SUCCESS, hookResult), RcValue(s.slots[i].data);
            && r.Done? && r.value == code
            && r.state.slots
               == s.slots[i := Zero()][j := CounterEntry(key, Plus1(RcCount(s.slots[j].data)), code)][c := Zero()]
  {
    var (s1, code) := ChooseCode(s, key, OS_SUCCESS);
    DeferredAt(s, key, i);
    HookAfterChoice(s, key);
    CountedAt(s1, key, code, c, j);
    CallIs(s, key, hookResult, s1, code);
  }

  /** A first call on which a deferred code counts down. */
  lemma CallCounting(s: State, key: Key, hookResult: int, c: nat, i: nat, e: nat)
    requires Inv(s) && Plain(s.slots, key) && i < SLOTS && Holds(s.slots[i], DeferredRc, key)
    requires RcCount(s.slots[i].data) > 1
    requires forall k | 0 <= k < SLOTS && Holds(s.slots[k], DeferredRc, key) :: k == i
    requires c < SLOTS && Holds(s.slots[c], Context, key) && !Present(s.slots, Counter, key) && FreeAt(s.slots, key, e)
    ensures var r := Call(s, key, OS_SUCCESS, hookResult);
            && r.Done? && r.value == OS_SUCCESS
            && r.state.slots
               == s.slots[i := CountedDown(s.slots[i])][Slot(key, e) := CounterEntry(key, 1, OS_SUCCESS)][c := Zero()]
  {
    var (s1, code) := ChooseCode(s, key, OS_SUCCESS);
    DeferredAt(s, key, i);
    HookAfterChoice(s, key);
    forall k | 0 <= k < SLOTS ensures !Holds(s1.slots[k], Counter, key) {
      assert !Holds(s.slots[k], Counter, key);
    }
    CountedNewAt(s1, key, code, c, e);
    CallIs(s, key, hookResult, s1, code);
  }

  lemma Restored(t: Table, c: nat, x: Entry, i: nat, e: Entry, j: nat, f: Entry)
    requires c < SLOTS && i < SLOTS && j < SLOTS && t[c] == Zero() && c != i && c != j
    ensures t[c := x][i := e][j := f][c := Zero()] == t[i := e][j := f]
  {
  }

  lemma EnterPlain(s: State, key: Key, n: nat, hookResult: int, d: nat, j: nat)
    requires Valid(s) && !Present(s.slots, Context, key) && FreeAt(s.slots, key, d) && 0 < n <= MAX_ARGS
    requires Plain(s.slots, key) && !Present(s.slots, DeferredRc, key) && j < SLOTS && Holds(s.slots[j], Counter, key)
    ensures var r := Enter(s, key, n, hookResult);
            && r.Done? && r.value == OS_SUCCESS
            && r.state.slots == s.slots[j := CounterEntry(key, Plus1(RcCount(s.slots[j].data)), OS_SUCCESS)]
  {
    RegisteredAt(s, key, n, d);
    var s1, c, x := Run(s, Arguments(key, n)), Slot(key, d), ContextEntry(key, Down(n));
    EntersPlain(s, key, n, d, s1);
    var t := s.slots;
    assert s1.slots == t[c := x] && c != j;
    StillAbsent(t, c, x, DeferredRc, key);
    CallPlain(s1, key, hookResult, c, j);
    var f := CounterEntry(key, Plus1(RcCount(t[j].data)), OS_SUCCESS);
    Restored(t, c, x, j, f, j, f);
    Rewritten(t[c := x], j, f, f);
    Rewritten(t, j, f, f);
  }

  lemma EnterDue(s: State, key: Key, n: nat, hookResult: int, d: nat, j: nat, i: nat)
    requires Valid(s) && !Present(s.slots, Context, key) && FreeAt(s.slots, key, d) && 0 < n <= MAX_ARGS
    requires Plain(s.slots, key) && i < SLOTS && Holds(s.slots[i], DeferredRc, key) && RcCount(s.slots[i].data) == 1
    requires forall k | 0 <= k < SLOTS && Holds(s.slots[k], DeferredRc, key) :: k == i
    requires j < SLOTS && Holds(s.slots[j], Counter, key)
    ensures var r, code := Enter(s, key, n, hookResult), RcValue(s.slots[i].data);
            && r.Done? && r.value == code
            && r.state.slots == s.slots[i := Zero()][j := CounterEntry(key, Plus1(RcCount(s.slots[j].data)), code)]
  {
    RegisteredAt(s, key, n, d);
    var s1, c, x := Run(s, Arguments(key, n)), Slot(key, d), ContextEntry(key, Down(n));
    EntersPlain(s, key, n, d, s1);
    var t := s.slots;
    assert s1.slots == t[c := x] && c != i && c != j;
    CallDue(s1, key, hookResult, c, j, i);
    Restored(t, c, x, i, Zero(), j, CounterEntry(key, Plus1(RcCount(t[j].data)), RcValue(t[i].data)));
  }

  lemma EnterCounting(s: State, key: Key, n: nat, hookResult: int, d: nat, i: nat, e: nat)
    requires Valid(s) && !Present(s.slots, Context, key) && FreeAt(s.slots, key, d) && 0 < n <= MAX_ARGS
    requires Plain(s.slots, key) && i < SLOTS && Holds(s.slots[i], DeferredRc, key) && RcCount(s.slots[i].data) > 1
    requires forall k | 0 <= k < SLOTS && Holds(s.slots[k], DeferredRc, key) :: k == i
    requires !Present(s.slots, Counter, key) && d < e
    requires FreeAt(s.slots[Slot(key, d) := ContextEntry(key, Down(n))], key, e)
    ensures var r := Enter(s, key, n, hookResult);
            && r.Done? && r.value == OS_SUCCESS
            && r.state.slots == s.slots[i := CountedDown(s.slots[i])][Slot(key, e) := CounterEntry(key, 1, OS_SUCCESS)]
  {
    RegisteredAt(s, key, n, d);
    var s1, c, x := Run(s, Arguments(key, n)), Slot(key, d), ContextEntry(key, Down(n));
    EntersPlain(s, key, n, d, s1);
    SlotsDiffer(key, d, e);
    var t := s.slots;
    assert s1.slots == t[c := x] && c != i;
    StillAbsent(t, c, x, Counter, key);
    CallCounting(s1, key, hookResult, c, i, e);
    Restored(t, c, x, i, CountedDown(t[i]), Slot(key, e), CounterEntry(key, 1, OS_SUCCESS));
  }

  lemma StillAbsent(t: Table, c: nat, x: Entry, kind: Kind, key: Key)
    requires c < SLOTS && !Present(t, kind, key) && !Holds(x, kind, key)
    ensures !Present(t[c := x], kind, key)
  {
    var t' := t[c := x];
    forall k | 0 <= k < SLOTS ensures !Holds(t'[k], kind, key) {
      assert !Holds(t[k], kind, key);
    }
  }

  // ----- the run -----

  const PUT := 10
  const QUEUE := 209

  function Deferred(count: nat): Entry {
    Entry(DeferredRc, PUT, false, Rc(count, -1))
  }

  function Waiting(block: Address, size: nat): Entry {
    Entry(DataBuffer, QUEUE, true, Buff(block, size, 0))
  }

  lemma QRunCons(s: State, keys: Keys, op: QOp, rest: seq<QOp>)
    requires Valid(s) && QEnabled(s, op) && QStep(s, keys, op).Some? && QLegal(QStep(s, keys, op).value, keys, rest)
    ensures QLegal(s, keys, [op] + rest) && QRun(s, keys, [op] + rest) == QRun(QStep(s, keys, op).value, keys, rest)
    ensures forall id :: AllPut(s, keys, [op] + rest, id)
                         == PutBy(s, keys, op, id) + AllPut(QStep(s, keys, op).value, keys, rest, id)
  {
    assert ([op] + rest)[1..] == rest;
  }

  /** The tables of the run: the code is set; a message waits behind it; the code has come due. */
  function CodeSet(): (t: Table) {
    Fresh()[10 := Deferred(2)]
  }

  function MessageBehind(block: Address, size: nat): (t: Table) {
    Fresh()[10 := Deferred(1)][12 := CounterEntry(PUT, 1, OS_SUCCESS)][11 := Waiting(block, size)]
  }

  function CodeGone(block: Address, size: nat): (t: Table) {
    Fresh()[12 := CounterEntry(PUT, 2, -1)][11 := Waiting(block, size)]
  }

  /** What OS_QueuePut finds when it stores its first and its last message. */
  function Counting(): (t: Table) {
    Fresh()[10 := Deferred(1)][12 := CounterEntry(PUT, 1, OS_SUCCESS)]
  }

  function HoleBefore(block: Address, size: nat): (t: Table) {
    Fresh()[12 := CounterEntry(PUT, 3, OS_SUCCESS)][11 := Waiting(block, size)]
  }

  lemma StoringTables(block: Address, size: nat)
    ensures FreeAt(Counting(), QUEUE, 1) && Slot(QUEUE, 1) == 11 && FreeAt(HoleBefore(block, size), QUEUE, 0)
    ensures !Packed(HoleBefore(block, size), DataBuffer, QUEUE)
  {
    var t := HoleBefore(block, size);
    assert Slot(QUEUE, 0) == 10 && Slot(QUEUE, 1) == 11;
    assert t[10].kind == Unused && Holds(t[11], DataBuffer, QUEUE);
    HoleInFront(t, QUEUE, 0, 1);
  }

  lemma SetsCode(s: State)
    requires Valid(s) && s.slots == Fresh()
    ensures SetDeferred(s, PUT, 2, -1).Done? && SetDeferred(s, PUT, 2, -1).state.slots == CodeSet()
    ensures SetDeferred(s, PUT, 2, -1).state.memory == s.memory
  {
    assert Slot(PUT, 0) == 10;
    OvertakeClaim(s, PUT, 0);
  }

  lemma CodeSetTable()
    ensures var t := CodeSet();
            && FreeAt(t, PUT, 1) && FreeAt(t[Slot(PUT, 1) := ContextEntry(PUT, Down(PUT_ARGS))], PUT, 2)
            && !Present(t, Context, PUT) && Plain(t, PUT) && !Present(t, Counter, PUT) && !Present(t, DataBuffer, QUEUE)
            && Holds(t[10], DeferredRc, PUT) && RcCount(t[10].data) == 2
            && (forall k | 0 <= k < SLOTS && Holds(t[k], DeferredRc, PUT) :: k == 10)
            && t[10 := CountedDown(t[10])][Slot(PUT, 2) := CounterEntry(PUT, 1, OS_SUCCESS)] == Counting()
  {
    var t := CodeSet()[11 := ContextEntry(PUT, Down(PUT_ARGS))];
    assert Slot(PUT, 0) == 10 && Slot(PUT, 1) == 11 && Slot(PUT, 2) == 12;
    assert t[10].kind != Unused && t[11].kind != Unused && t[12].kind == Unused;
    Rewritten(Fresh(), 10, Deferred(2), Deferred(1));
  }

  lemma FirstEnter(s: State, hookResult: int)
    requires Valid(s) && s.slots == CodeSet()
    ensures var r := Enter(s, PUT, PUT_ARGS, hookResult);
            r.Done? && r.value == OS_SUCCESS && r.state.slots == Counting()
  {
    CodeSetTable();
    EnterCounting(s, PUT, PUT_ARGS, hookResult, 1, 10, 2);
  }

  lemma MessageBehindTable(block: Address, size: nat)
    ensures var t := MessageBehind(block, size); FreeAt(t, PUT, 3) && !Present(t, Context, PUT) && Plain(t, PUT)
    ensures MessageBehind(block, size)[10 := Zero()][12 := CounterEntry(PUT, 2, -1)] == CodeGone(block, size)
  {
    assert Slot(PUT, 0) == 10 && Slot(PUT, 1) == 11 && Slot(PUT, 2) == 12 && Slot(PUT, 3) == 13;
  }

  lemma SecondEnter(s: State, hookResult: int, block: Address, size: nat)
    requires Valid(s) && s.slots == MessageBehind(block, size)
    ensures var r := Enter(s, PUT, PUT_ARGS, hookResult);
            r.Done? && r.value == -1 && r.state.slots == CodeGone(block, size)
  {
    MessageBehindTable(block, size);
    EnterDue(s, PUT, PUT_ARGS, hookResult, 3, 12, 10);
  }

  lemma CodeGoneTable(block: Address, size: nat)
    ensures var t := CodeGone(block, size);
            FreeAt(t, PUT, 0) && !Present(t, Context, PUT) && Plain(t, PUT) && !Present(t, DeferredRc, PUT)
    ensures CodeGone(block, size)[12 := CounterEntry(PUT, 3, OS_SUCCESS)] == HoleBefore(block, size)
  {
    assert Slot(PUT, 0) == 10;
  }

  lemma ThirdEnter(s: State, hookResult: int, block: Address, size: nat)
    requires Valid(s) && s.slots == CodeGone(block, size)
    ensures var r := Enter(s, PUT, PUT_ARGS, hookResult);
            r.Done? && r.value == OS_SUCCESS && r.state.slots == HoleBefore(block, size)
  {
    CodeGoneTable(block, size);
    EnterPlain(s, PUT, PUT_ARGS, hookResult, 0, 12);
  }

  lemma NothingWaits(s: State)
    requires Valid(s) && BuffersOk(s) && !Present(s.slots, DataBuffer, QUEUE)
    ensures Pending(s, QUEUE) == []
  {
    EmptyIsPacked(s.slots, DataBuffer, QUEUE);
  }

  lemma StoresAt(s: State, a: Address, n: nat, block: Address, d: nat)
    requires Valid(s) && Readable(s, Some(a), n) && n > 0 && FreeAt(s.slots, QUEUE, d)
    ensures SetBuffer(s, QUEUE, Some(a), n, true, block).Done?
    ensures SetBuffer(s, QUEUE, Some(a), n, true, block).state.slots == s.slots[Slot(QUEUE, d) := Waiting(block, n)]
    ensures SetBuffer(s, QUEUE, Some(a), n, true, block).state.memory == s.memory[block := Message(s, Some(a), n)]
  {
    OvertakeClaim(s, QUEUE, d);
  }

  lemma PutIs(s: State, keys: Keys, a: Address, n: nat, hookResult: int, block: Address, d: nat)
    requires Valid(s) && Readable(s, Some(a), n) && n > 0 && block !in s.memory && keys.put == PUT
    requires var r := Enter(s, PUT, PUT_ARGS, hookResult);
             r.Done? && r.value == OS_SUCCESS && FreeAt(r.state.slots, QUEUE, d)
    ensures var r := QueuePut(s, keys, QUEUE, Some(a), n, hookResult, block);
            && r.Done? && r.value == OS_SUCCESS
            && r.state.slots == Enter(s, PUT, PUT_ARGS, hookResult).state.slots[Slot(QUEUE, d) := Waiting(block, n)]
            && r.state.memory == s.memory[block := Message(s, Some(a), n)]
  {
    var e := Enter(s, PUT, PUT_ARGS, hookResult).state;
    EnterReadable(s, PUT, PUT_ARGS, hookResult, Some(a), n);
    EnterEffect(s, PUT, PUT_ARGS, hookResult, DataBuffer, QUEUE);
    StoresAt(e, a, n, block, d);
  }

  lemma PutOnEmpty(s: State, keys: Keys, a: Address, n: nat, hookResult: int, block: Address)
    requires Valid(s) && BuffersOk(s) && Pending(s, QUEUE) == [] && Readable(s, Some(a), n) && n > 0
             && block !in s.memory
    requires var r := QueuePut(s, keys, QUEUE, Some(a), n, hookResult, block); r.Done? && r.value == OS_SUCCESS
    ensures var r := QueuePut(s, keys, QUEUE, Some(a), n, hookResult, block);
            Valid(r.state) && BuffersOk(r.state) && Pending(r.state, QUEUE) == [Message(s, Some(a), n)]
  {
    var k := PutEffect(s, keys, QUEUE, Some(a), n, hookResult, block, QUEUE);
    InsertFirst([], k, Message(s, Some(a), n));
  }

  lemma FirstPut(s: State, keys: Keys, a: Address, n: nat, hookResult: int, block: Address)
    requires Valid(s) && BuffersOk(s) && s.slots == CodeSet() && keys.put == PUT
    requires Readable(s, Some(a), n) && n > 0 && block !in s.memory
    ensures var r := QueuePut(s, keys, QUEUE, Some(a), n, hookResult, block);
            && r.Done? && r.value == OS_SUCCESS && r.state.slots == MessageBehind(block, n) && Valid(r.state)
            && r.state.memory == s.memory[block := Message(s, Some(a), n)]
            && BuffersOk(r.state) && Pending(r.state, QUEUE) == [Message(s, Some(a), n)]
  {
    FirstEnter(s, hookResult);
    StoringTables(block, n);
    CodeSetTable();
    PutIs(s, keys, a, n, hookResult, block, 1);
    NothingWaits(s);
    PutOnEmpty(s, keys, a, n, hookResult, block);
  }

  lemma SecondPut(s: State, keys: Keys, a: Address, n: nat, hookResult: int, block: Address, b1: Address, n1: nat)
    requires Valid(s) && BuffersOk(s) && s.slots == MessageBehind(b1, n1) && keys.put == PUT
    requires Readable(s, Some(a), n) && block !in s.memory
    ensures var r := QueuePut(s, keys, QUEUE, Some(a), n, hookResult, block);
            && r.Done? && r.value == -1 && r.state.slots == CodeGone(b1, n1)
            && r.state.memory == s.memory && Valid(r.state)
            && BuffersOk(r.state) && Pending(r.state, QUEUE) == Pending(s, QUEUE)
  {
    SecondEnter(s, hookResult, b1, n1);
    EnterEffect(s, PUT, PUT_ARGS, hookResult, DataBuffer, QUEUE);
    var k := PutEffect(s, keys, QUEUE, Some(a), n, hookResult, block, QUEUE);
  }

  lemma HoleInFront(t: Table, id: Key, k: nat, d: nat)
    requires k < d < SLOTS && t[Slot(id, k)].kind == Unused && Holds(t[Slot(id, d)], DataBuffer, id)
    ensures !Packed(t, DataBuffer, id)
  {
    ChainIsComplete(t, id, DataBuffer, id, 0, |t|, d);
    assert d in Live(t, DataBuffer, id);
  }

  /** A put that finds a hole in front of the one message goes before it. */
  lemma PutInFront(s: State, keys: Keys, a: Address, n: nat, hookResult: int, block: Address, m: seq<bv8>)
    requires Valid(s) && BuffersOk(s) && Pending(s, QUEUE) == [m] && Readable(s, Some(a), n) && n > 0
    requires block !in s.memory
    requires var r := QueuePut(s, keys, QUEUE, Some(a), n, hookResult, block); r.Done? && r.value == OS_SUCCESS
    requires !Packed(Enter(s, keys.put, PUT_ARGS, hookResult).state.slots, DataBuffer, QUEUE)
    ensures var r := QueuePut(s, keys, QUEUE, Some(a), n, hookResult, block);
            BuffersOk(r.state) && Pending(r.state, QUEUE) == [Message(s, Some(a), n), m]
  {
    var k := PutEffect(s, keys, QUEUE, Some(a), n, hookResult, block, QUEUE);
    InsertFirst([m], k, Message(s, Some(a), n));
  }

  lemma ThirdPut(s: State, keys: Keys, a: Address, n: nat, hookResult: int, block: Address, b1: Address, n1: nat,
                 m: seq<bv8>)
    requires Valid(s) && BuffersOk(s) && s.slots == CodeGone(b1, n1) && keys.put == PUT && Pending(s, QUEUE) == [m]
    requires Readable(s, Some(a), n) && n > 0 && block !in s.memory
    ensures var r := QueuePut(s, keys, QUEUE, Some(a), n, hookResult, block);
            && r.Done? && r.value == OS_SUCCESS
            && BuffersOk(r.state) && Pending(r.state, QUEUE) == [Message(s, Some(a), n), m]
  {
    ThirdEnter(s, hookResult, b1, n1);
    StoringTables(b1, n1);
    PutIs(s, keys, a, n, hookResult, block, 0);
    PutInFront(s, keys, a, n, hookResult, block, m);
  }

  /** What the test does: a code for the second call of OS_QueuePut, then three puts. */
  function Overtaking(a1: Address, n1: nat, a3: Address, n3: nat, b1: Address, b2: Address, b3: Address): seq<QOp> {
    [Other(OpSetDeferred(PUT, 2, -1))] + ([PutOp(a1, n1, b1)] + ([PutOp(a1, n1, b2)] + [PutOp(a3, n3, b3)]))
  }

  function PutOp(a: Address, n: nat, block: Address): QOp {
    Put(QUEUE, Some(a), n, 0, block)
  }

  lemma FirstStep(s: State, keys: Keys, a: Address, n: nat, block: Address) returns (s': State)
    requires Valid(s) && BuffersOk(s) && s.slots == CodeSet() && keys.put == PUT
    requires Readable(s, Some(a), n) && n > 0 && block !in s.memory
    ensures QEnabled(s, PutOp(a, n, block)) && QStep(s, keys, PutOp(a, n, block)) == Some(s')
    ensures PutBy(s, keys, PutOp(a, n, block), QUEUE) == [Message(s, Some(a), n)]
    ensures Valid(s') && BuffersOk(s') && s'.slots == MessageBehind(block, n)
    ensures s'.memory == s.memory[block := Message(s, Some(a), n)] && Pending(s', QUEUE) == [Message(s, Some(a), n)]
  {
    FirstPut(s, keys, a, n, 0, block);
    s' := QStep(s, keys, PutOp(a, n, block)).value;
  }

  lemma SecondStep(s: State, keys: Keys, a: Address, n: nat, block: Address, b1: Address, n1: nat) returns (s': State)
    requires Valid(s) && BuffersOk(s) && s.slots == MessageBehind(b1, n1) && keys.put == PUT
    requires Readable(s, Some(a), n) && block !in s.memory
    ensures QEnabled(s, PutOp(a, n, block)) && QStep(s, keys, PutOp(a, n, block)) == Some(s')
    ensures PutBy(s, keys, PutOp(a, n, block), QUEUE) == []
    ensures Valid(s') && BuffersOk(s') && s'.slots == CodeGone(b1, n1)
    ensures s'.memory == s.memory && Pending(s', QUEUE) == Pending(s, QUEUE)
  {
    SecondPut(s, keys, a, n, 0, block, b1, n1);
    s' := QStep(s, keys, PutOp(a, n, block)).value;
  }

  lemma ThirdStep(s: State, keys: Keys, a: Address, n: nat, block: Address, b1: Address, n1: nat,
                  m: seq<bv8>) returns (s': State)
    requires Valid(s) && BuffersOk(s) && s.slots == CodeGone(b1, n1) && keys.put == PUT && Pending(s, QUEUE) == [m]
    requires Readable(s, Some(a), n) && n > 0 && block !in s.memory
    ensures QEnabled(s, PutOp(a, n, block)) && QStep(s, keys, PutOp(a, n, block)) == Some(s')
    ensures PutBy(s, keys, PutOp(a, n, block), QUEUE) == [Message(s, Some(a), n)]
    ensures BuffersOk(s') && Pending(s', QUEUE) == [Message(s, Some(a), n), m]
  {
    ThirdPut(s, keys, a, n, 0, block, b1, n1, m);
    s' := QStep(s, keys, PutOp(a, n, block)).value;
  }

  lemma MessageKept(s: State, s': State, a: Address, n: nat, block: Address, bytes: seq<bv8>)
    requires Readable(s, Some(a), n) && block !in s.memory && s'.memory == s.memory[block := bytes]
    ensures Readable(s', Some(a), n) && Message(s', Some(a), n) == Message(s, Some(a), n)
  {
  }

  lemma LastPut(s: State, keys: Keys, op: QOp, s': State)
    requires Valid(s) && QEnabled(s, op) && QStep(s, keys, op) == Some(s')
    ensures QLegal(s, keys, [op]) && QRun(s, keys, [op]) == s'
    ensures AllPut(s, keys, [op], QUEUE) == PutBy(s, keys, op, QUEUE)
  {
    QRunCons(s, keys, op, []);
    assert [op] + [] == [op] && PutBy(s, keys, op, QUEUE) + [] == PutBy(s, keys, op, QUEUE);
  }

  /** The three puts. */
  lemma ThreePuts(s: State, keys: Keys, a1: Address, n1: nat, a3: Address, n3: nat, b1: Address, b2: Address,
                  b3: Address)
    requires Valid(s) && BuffersOk(s) && s.slots == CodeSet() && keys.put == PUT && n1 > 0 && n3 > 0
    requires Readable(s, Some(a1), n1) && Readable(s, Some(a3), n3)
    requires b1 !in s.memory && b2 !in s.memory && b3 !in s.memory && b1 != b2 && b1 != b3
    ensures var ops := [PutOp(a1, n1, b1)] + ([PutOp(a1, n1, b2)] + [PutOp(a3, n3, b3)]);
            var m1, m3 := Message(s, Some(a1), n1), Message(s, Some(a3), n3);
            && QLegal(s, keys, ops) && AllPut(s, keys, ops, QUEUE) == [m1] + ([] + [m3])
            && BuffersOk(QRun(s, keys, ops)) && Pending(QRun(s, keys, ops), QUEUE) == [m3, m1]
  {
    var o1, o2, o3 := PutOp(a1, n1, b1), PutOp(a1, n1, b2), PutOp(a3, n3, b3);
    var m1 := Message(s, Some(a1), n1);
    var s1 := FirstStep(s, keys, a1, n1, b1);
    MessageKept(s, s1, a1, n1, b1, m1);
    MessageKept(s, s1, a3, n3, b1, m1);
    var s2 := SecondStep(s1, keys, a1, n1, b2, b1, n1);
    var s3 := ThirdStep(s2, keys, a3, n3, b3, b1, n1, m1);
    LastPut(s2, keys, o3, s3);
    QRunCons(s1, keys, o2, [o3]);
    QRunCons(s, keys, o1, [o2] + [o3]);
  }

  /** Puts alone, on a queue that starts empty, and still not first in, first out: the code of the second
      put frees the slot in front of the first message, and the third message takes it. */
  lemma DeferredCodeOvertakes(s: State, keys: Keys, a1: Address, n1: nat, a3: Address, n3: nat,
                              b1: Address, b2: Address, b3: Address)
    requires Valid(s) && s.slots == Fresh() && keys.put == PUT && n1 > 0 && n3 > 0
    requires Readable(s, Some(a1), n1) && Readable(s, Some(a3), n3)
    requires b1 !in s.memory && b2 !in s.memory && b3 !in s.memory && b1 != b2 && b1 != b3
    ensures var ops := Overtaking(a1, n1, a3, n3, b1, b2, b3);
            var m1, m3 := Message(s, Some(a1), n1), Message(s, Some(a3), n3);
            && QLegal(s, keys, ops) && AllPut(s, keys, ops, QUEUE) == [m1, m3]
            && BuffersOk(QRun(s, keys, ops)) && Pending(QRun(s, keys, ops), QUEUE) == [m3, m1]
  {
    var o := OpSetDeferred(PUT, 2, -1);
    var puts := [PutOp(a1, n1, b1)] + ([PutOp(a1, n1, b2)] + [PutOp(a3, n3, b3)]);
    MemInvBuffers(s);
    SetsCode(s);
    var s1 := OvertakeNext(s, o);
    ThreePuts(s1, keys, a1, n1, a3, n3, b1, b2, b3);
    QRunCons(s, keys, Other(o), puts);
  }
}

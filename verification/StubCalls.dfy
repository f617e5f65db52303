/**
Stub calls over whole runs: how calls are counted, that no context outlives a call, and that
a call-once function runs once between resets.
*/
module StubCalls {
  import opened Options
  import opened StubTable
  import opened StubInvariant
  import opened StubMemory
  import opened StubOrder
  import opened StubEffects

  // ----- entries of which a key has at most one -----

  lemma AtMostOne(t: Table, high: nat, kind: Kind, key: Key, i: nat, j: nat)
    requires TableInv(t, high) && Single(kind)
    requires i < SLOTS && j < SLOTS && Holds(t[i], kind, key) && Holds(t[j], kind, key)
    ensures i == j
  {
    assert Alike(t[i], t[j]) && Alike(t[j], t[i]);
  }

  lemma SingleView(t: Table, high: nat, kind: Kind, key: Key)
    requires TableInv(t, high) && Single(kind)
    ensures |View(t, kind, key)| <= 1
  {
    var c := Live(t, kind, key);
    if |c| > 1 {
      AtMostOne(t, high, kind, key, Slot(key, c[0]), Slot(key, c[1]));
      SlotDistance(key, c[0]);
      SlotDistance(key, c[1]);
      ChainIsSorted(t, key, kind, key, 0, |t|, 0, 1);
    }
  }

  /** The entry found or claimed is the one of the view, or a blank one if the view is empty. */
  lemma FoundEntry(s: State, kind: Kind, key: Key)
    requires Inv(s) && Searched(kind) && FindOrClaim(s, kind, key).Some?
    ensures var (s1, i) := FindOrClaim(s, kind, key).value;
            && i < SLOTS && s1.slots == s.slots
            && s1.slots[i] == if View(s.slots, kind, key) == [] then Zero() else View(s.slots, kind, key)[0]
  {
    BoundedSearchIsComplete(s, kind, key);
    if Find(s, kind, key).None? { ClaimIsUnused(s, key); }
  }

  lemma ClaimedView(s: State, e: Entry)
    requires Inv(s) && Searched(e.kind) && Claim(s, e.key).Some? && Packed(s.slots, e.kind, e.key)
    ensures var (s1, i) := Claim(s, e.key).value;
            && i < SLOTS && s1.slots == s.slots
            && View(Store(s1, i, e).slots, e.kind, e.key) == View(s.slots, e.kind, e.key) + [e]
            && Packed(Store(s1, i, e).slots, e.kind, e.key)
  {
    FirstFreeIsFirst(s.slots, s.high, e.key);
    AddToPacked(s.slots, e, FirstFree(s.slots, e.key).value);
  }

  /** After setting the one entry of a kind and key, it is the whole view. */
  lemma SetSingleView(s: State, e: Entry)
    requires Inv(s) && Searched(e.kind) && Single(e.kind) && FindOrClaim(s, e.kind, e.key).Some?
    ensures var (s1, i) := FindOrClaim(s, e.kind, e.key).value;
            i < SLOTS && View(Store(s1, i, e).slots, e.kind, e.key) == [e]
  {
    FoundEntry(s, e.kind, e.key);
    SingleView(s.slots, s.high, e.kind, e.key);
    BoundedSearchIsComplete(s, e.kind, e.key);
    if View(s.slots, e.kind, e.key) == [] {
      LiveIffPresent(s.slots, e.kind, e.key);
      EmptyIsPacked(s.slots, e.kind, e.key);
      ClaimedView(s, e);
    } else {
      ViewOfRewrittenHead(s.slots, e.kind, e.key, e);
    }
  }

  // ----- counting calls -----

  function CountIn(v: seq<Entry>): nat {
    if v == [] then 0 else RcCount(v[0].data)
  }

  lemma StubCountIsView(s: State, key: Key)
    requires Inv(s)
    ensures StubCount(s, key) == CountIn(View(s.slots, Counter, key)) < TWO32
  {
    BoundedSearchIsComplete(s, Counter, key);
    if Find(s, Counter, key).Some? {
      assert SlotOk(s.slots, s.high, Find(s, Counter, key).value);
      FindHolds(s, Counter, key);
    }
  }

  lemma CountCallEffect(s: State, key: Key, code: int)
    requires Inv(s) && CountCall(s, key, code).Some?
    ensures CountIn(View(CountCall(s, key, code).value.slots, Counter, key)) ==
            Plus1(CountIn(View(s.slots, Counter, key)))
  {
    FoundEntry(s, Counter, key);
    var (s1, i) := FindOrClaim(s, Counter, key).value;
    var e := s1.slots[i];
    SetSingleView(s, Entry(Counter, key, e.allocFlag, Rc(Plus1(RcCount(e.data)), code)));
  }

  lemma ChooseCodeKeeps(s: State, key: Key, defaultRc: int)
    requires Inv(s)
    ensures Inv(ChooseCode(s, key, defaultRc).0)
  {
    CheckDeferredKeeps(s, key);
    CheckDefaultKeeps(CheckDeferred(s, key).0, key);
  }

  lemma ChooseCodeFrame(s: State, key: Key, defaultRc: int, kind': Kind, key': Key)
    requires kind' != Unused && (key' != key || (kind' != DeferredRc && kind' != ForceFail))
    ensures View(ChooseCode(s, key, defaultRc).0.slots, kind', key') == View(s.slots, kind', key')
  {
    var sa := CheckDeferred(s, key).0;
    CheckDeferredIsLocal(s, key);
    LocalFrame(s.slots, sa.slots, DeferredRc, key, kind', key');
    CheckDefaultIsLocal(sa, key);
    LocalFrame(sa.slots, CheckDefault(sa, key).0.slots, ForceFail, key, kind', key');
  }

  lemma CallCounts(s: State, key: Key, defaultRc: int, hookResult: int)
    requires Inv(s) && Call(s, key, defaultRc, hookResult).Done?
    ensures StubCount(Call(s, key, defaultRc, hookResult).state, key) == Plus1(StubCount(s, key))
  {
    var (s1, code) := ChooseCode(s, key, defaultRc);
    ChooseCodeKeeps(s, key, defaultRc);
    ChooseCodeFrame(s, key, defaultRc, Counter, key);
    CountCallEffect(s1, key, code);
    var s2 := CountCall(s1, key, code).value;
    DropContextIsLocal(s2, key);
    LocalFrame(s2.slots, DropContext(s2, key).slots, Context, key, Counter, key);
    CallKeeps(s, key, defaultRc, hookResult);
    StubCountIsView(s, key);
    StubCountIsView(Call(s, key, defaultRc, hookResult).state, key);
  }

  function NextCount(n: nat, op: Op, key: Key): nat {
    match op
    case OpCall(k, _, _) => if k == key then Plus1(n) else n
    case OpReset(k) => if k == 0 || k == key then 0 else n
    case _ => n
  }

  /** The calls since the last reset, counted over a run in 32 bits. */
  function CallsSince(n: nat, ops: seq<Op>, key: Key): nat
    decreases |ops|
  {
    if ops == [] then n else CallsSince(NextCount(n, ops[0], key), ops[1..], key)
  }

  /** With no reset in the run, that is how many calls it holds. */
  function CallsIn(ops: seq<Op>, key: Key): nat {
    if ops == [] then 0 else (if ops[0].OpCall? && ops[0].key == key then 1 else 0) + CallsIn(ops[1..], key)
  }

  predicate Resets(op: Op, key: Key) {
    op.OpReset? && (op.key == 0 || op.key == key)
  }

  lemma WrapsOn(n: nat, k: nat)
    requires n < TWO32
    ensures (Plus1(n) + k) % TWO32 == (n + (1 + k)) % TWO32
  {
    if n + 1 == TWO32 { assert (n + (1 + k)) % TWO32 == (TWO32 + k) % TWO32 == k % TWO32; }
  }

  lemma {:induction false} CallsSinceIsCalls(n: nat, ops: seq<Op>, key: Key)
    requires n < TWO32 && forall op | op in ops :: !Resets(op, key)
    ensures CallsSince(n, ops, key) == (n + CallsIn(ops, key)) % TWO32
    decreases |ops|
  {
    if ops != [] {
      assert !Resets(ops[0], key);
      WrapsOn(n, CallsIn(ops[1..], key));
      CallsSinceIsCalls(NextCount(n, ops[0], key), ops[1..], key);
    }
  }

  lemma ResetEmpties(s: State, swept: Key, kind: Kind, key: Key)
    requires kind != Unused && (swept == 0 || swept == key)
    ensures View(Reset(s, swept).slots, kind, key) == [] && !Present(Reset(s, swept).slots, kind, key)
  {
    LiveIffPresent(Reset(s, swept).slots, kind, key);
  }

  lemma StepCounts(s: State, op: Op, key: Key)
    requires Inv(s) && BuffersOk(s) && Enabled(s, op) && Step(s, op).Some?
    ensures StubCount(Step(s, op).value, key) == NextCount(StubCount(s, key), op, key)
  {
    if Concerns(op, Counter, key) {
      match op
      case OpReset(k) => ResetCounts(s, k, key);
      case OpCall(k, defaultRc, hookResult) => CallCounts(s, k, defaultRc, hookResult);
    } else {
      StepKeeps(s, op);
      StepFrame(s, op, Counter, key);
      StubCountIsView(s, key);
      StubCountIsView(Step(s, op).value, key);
    }
  }

  lemma ResetCounts(s: State, swept: Key, key: Key)
    requires Inv(s) && (swept == 0 || swept == key)
    ensures StubCount(Reset(s, swept), key) == 0
  {
    ResetEmpties(s, swept, Counter, key);
    ResetKeeps(s, swept);
    StubCountIsView(Reset(s, swept), key);
  }

  /** After any run the count is the number of calls since the key's last reset, in 32 bits. */
  lemma {:induction false} RunCounts(s: State, ops: seq<Op>, key: Key)
    requires Valid(s) && Legal(s, ops)
    ensures StubCount(Run(s, ops), key) == CallsSince(StubCount(s, key), ops, key)
    decreases |ops|
  {
    if ops != [] {
      StepCounts(s, ops[0], key);
      StepKeepsValid(s, ops[0]);
      RunCounts(Step(s, ops[0]).value, ops[1..], key);
    }
  }

  /** Without a reset of the key, a count of n goes up by the number of calls. */
  lemma {:induction false} RunCountsCalls(s: State, ops: seq<Op>, key: Key, n: nat)
    requires Valid(s) && Legal(s, ops) && n == StubCount(s, key) && forall op | op in ops :: !Resets(op, key)
    ensures StubCount(Run(s, ops), key) == (n + CallsIn(ops, key)) % TWO32
  {
    CountIsWord(s, key);
    RunCounts(s, ops, key);
    CallsSinceIsCalls(n, ops, key);
  }

  lemma CountIsWord(s: State, key: Key)
    requires Valid(s)
    ensures StubCount(s, key) < TWO32
  {
    match Find(s, Counter, key)
    case None =>
    case Some(i) => assert SlotOk(s.slots, s.high, i);
  }

  // ----- contexts -----

  /** No context survives the call it was registered for. */
  lemma CallDropsContext(s: State, key: Key, defaultRc: int, hookResult: int)
    requires Inv(s) && Call(s, key, defaultRc, hookResult).Done?
    ensures !Present(Call(s, key, defaultRc, hookResult).state.slots, Context, key)
  {
    var (s1, code) := ChooseCode(s, key, defaultRc);
    ChooseCodeKeeps(s, key, defaultRc);
    CountCallKeeps(s1, key, code);
    DropContextEmpties(CountCall(s1, key, code).value, key);
  }

  lemma DropContextEmpties(s: State, key: Key)
    requires Inv(s)
    ensures !Present(DropContext(s, key).slots, Context, key)
  {
    BoundedSearchIsComplete(s, Context, key);
    LiveIffPresent(DropContext(s, key).slots, Context, key);
    SingleView(s.slots, s.high, Context, key);
    if Find(s, Context, key).Some? {
      ViewOfClearedHead(s.slots, Context, key);
    }
  }

  // ----- call once -----

  /** Whether the function has been called since its last reset. */
  function CalledSince(b: bool, ops: seq<Op>, key: Key): bool
    decreases |ops|
  {
    if ops == [] then b
    else
      var b' := match ops[0]
                case OpCallOnce(k) => b || k == key
                case OpReset(k) => b && !(k == 0 || k == key)
                case _ => b;
      CalledSince(b', ops[1..], key)
  }

  /** The function runs exactly when it is not recorded. */
  lemma CallOnceRunsIffAbsent(s: State, key: Key)
    requires key != 0 && CallOnceOp(s, key).Done?
    ensures CallOnceOp(s, key).value <==> !Present(s.slots, CallOnce, key)
    ensures Present(CallOnceOp(s, key).state.slots, CallOnce, key)
  {
    if CallOnceOp(s, key).value {
      var i := Lowest(s.slots, Unused, None, 0).value;
      assert Holds(CallOnceOp(s, key).state.slots[i], CallOnce, key);
    } else {
      var i := Lowest(s.slots, CallOnce, Some(key), 0).value;
      assert Holds(s.slots[i], CallOnce, key);
    }
  }

  lemma StepCallsOnce(s: State, op: Op, key: Key)
    requires key != 0 && Valid(s) && BuffersOk(s) && Enabled(s, op) && Step(s, op).Some?
    ensures Present(Step(s, op).value.slots, CallOnce, key) == CalledSince(Present(s.slots, CallOnce, key), [op], key)
  {
    assert [op][1..] == [];
    if Concerns(op, CallOnce, key) {
      match op
      case OpReset(k) => ResetEmpties(s, k, CallOnce, key);
      case OpCallOnce(k) => CallOnceRunsIffAbsent(s, k);
    } else {
      StepFrame(s, op, CallOnce, key);
      LiveIffPresent(s.slots, CallOnce, key);
      LiveIffPresent(Step(s, op).value.slots, CallOnce, key);
    }
  }

  /** How often the function has been run since its last reset, n times before the run of operations. */
  function RunsSince(s: State, ops: seq<Op>, key: Key, n: nat): nat
    requires Legal(s, ops)
    decreases |ops|
  {
    if ops == [] then n else RunsSince(Step(s, ops[0]).value, ops[1..], key, RunsAfter(s, ops[0], key, n))
  }

  function RunsAfter(s: State, op: Op, key: Key, n: nat): nat {
    match op
    case OpCallOnce(k) => if k == key && CallOnceOp(s, k).Done? && CallOnceOp(s, k).value then n + 1 else n
    case OpReset(k) => if k == 0 || k == key then 0 else n
    case _ => n
  }

  lemma StepRunsOnce(s: State, op: Op, key: Key, n: nat)
    requires key != 0 && Valid(s) && BuffersOk(s) && Enabled(s, op) && Step(s, op).Some?
    requires n == if Present(s.slots, CallOnce, key) then 1 else 0
    ensures RunsAfter(s, op, key, n) == if Present(Step(s, op).value.slots, CallOnce, key) then 1 else 0
  {
    StepCallsOnce(s, op, key);
    assert [op][1..] == [];
    if op.OpCallOnce? && op.key == key { CallOnceRunsIffAbsent(s, key); }
  }

  /** Over any run, a function that is called at all between two resets is run exactly once there. */
  lemma {:induction false} RunsExactlyOnce(s: State, ops: seq<Op>, key: Key, n: nat)
    requires key != 0 && Valid(s) && Legal(s, ops) && n == if Present(s.slots, CallOnce, key) then 1 else 0
    ensures RunsSince(s, ops, key, n) == if CalledSince(Present(s.slots, CallOnce, key), ops, key) then 1 else 0
    decreases |ops|
  {
    if ops != [] {
      var s' := Step(s, ops[0]).value;
      StepRunsOnce(s, ops[0], key, n);
      StepCallsOnce(s, ops[0], key);
      StepKeepsValid(s, ops[0]);
      RunsExactlyOnce(s', ops[1..], key, RunsAfter(s, ops[0], key, n));
      assert [ops[0]][1..] == [];
    }
  }
}

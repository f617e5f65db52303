/**
What a stub call returns, over whole runs: the result of the hook that was last set, else the deferred
code that is due, else the sticky code that was last set, else the default. Also what else a call leaves
or finds: the code it has recorded, and the arguments registered for it.
*/
module StubReturns {
  import opened Options
  import opened StubTable
  import opened StubInvariant
  import opened StubMemory
  import opened StubOrder
  import opened StubEffects
  import opened StubCalls
  import opened StubCodes
  import opened StubAdditions

  // ----- the sticky code -----

  predicate Sweeps(op: Op, key: Key) {
    op.OpReset? && (op.key == 0 || op.key == key)
  }

  /** The sticky code of a key after an operation: a setting sets it, a clearing or a reset removes it. */
  function NextSticky(sticky: Option<int>, op: Op, key: Key): Option<int> {
    if op.OpSetDefault? && op.key == key then Some(op.value)
    else if Sweeps(op, key) || (op.OpClearDefault? && op.key == key) then None
    else sticky
  }

  function StickyAfter(sticky: Option<int>, ops: seq<Op>, key: Key): Option<int>
    decreases |ops|
  {
    if ops == [] then sticky else StickyAfter(NextSticky(sticky, ops[0], key), ops[1..], key)
  }

  lemma SetDefaultEffect(s: State, key: Key, value: int)
    requires Inv(s) && SetDefault(s, key, value).Done?
    ensures Sticky(SetDefault(s, key, value).state, key) == Some(value)
  {
    FoundEntry(s, ForceFail, key);
    var (s1, i) := FindOrClaim(s, ForceFail, key).value;
    var e := s1.slots[i];
    SetSingleView(s, Entry(ForceFail, key, e.allocFlag, Rc(RcCount(e.data), value)));
  }

  lemma ClearedSingle(s: State, kind: Kind, key: Key)
    requires Inv(s) && Searched(kind) && Single(kind)
    ensures Find(s, kind, key).Some? ==> View(Clear(s, Find(s, kind, key).value).slots, kind, key) == []
    ensures Find(s, kind, key).None? ==> View(s.slots, kind, key) == []
  {
    BoundedSearchIsComplete(s, kind, key);
    SingleView(s.slots, s.high, kind, key);
    if Find(s, kind, key).Some? { ViewOfClearedHead(s.slots, kind, key); }
  }

  lemma StepSticky(s: State, op: Op, key: Key)
    requires Inv(s) && BuffersOk(s) && Enabled(s, op) && Step(s, op).Some?
    ensures Sticky(Step(s, op).value, key) == NextSticky(Sticky(s, key), op, key)
  {
    if Concerns(op, ForceFail, key) {
      match op
      case OpReset(k) => ResetEmpties(s, k, ForceFail, key);
      case OpSetDefault(k, value) => SetDefaultEffect(s, k, value);
      case OpClearDefault(k) => ClearedSingle(s, ForceFail, k);
      case OpCheckDefault(k) => CheckDefaultEffect(s, k);
      case OpCall(k, defaultRc, hookResult) => CallEffect(s, k, defaultRc, hookResult);
    } else {
      StepFrame(s, op, ForceFail, key);
    }
  }

  /** Over any run the sticky code of a key is the one last set, unless it was cleared or reset since. */
  lemma {:induction false} RunSticky(s: State, ops: seq<Op>, key: Key)
    requires Valid(s) && Legal(s, ops)
    ensures Sticky(Run(s, ops), key) == StickyAfter(Sticky(s, key), ops, key)
    decreases |ops|
  {
    if ops != [] {
      StepSticky(s, ops[0], key);
      StepKeepsValid(s, ops[0]);
      RunSticky(Step(s, ops[0]).value, ops[1..], key);
    }
  }

  // ----- the hook -----

  function HookOf(s: State, key: Key): Option<nat> {
    var v := View(s.slots, Hook, key);
    if v == [] || !v[0].data.Cb? then None else Some(v[0].data.hook)
  }

  /** The hook of a key after an operation: a setting sets or removes it, a reset removes it. */
  function NextHook(hook: Option<nat>, op: Op, key: Key): Option<nat> {
    if op.OpSetHook? && op.key == key then op.hook else if Sweeps(op, key) then None else hook
  }

  function HookAfter(hook: Option<nat>, ops: seq<Op>, key: Key): Option<nat>
    decreases |ops|
  {
    if ops == [] then hook else HookAfter(NextHook(hook, ops[0], key), ops[1..], key)
  }

  lemma SetHookEffect(s: State, key: Key, hook: Option<nat>)
    requires Inv(s) && SetHook(s, key, hook).Done?
    ensures HookOf(SetHook(s, key, hook).state, key) == hook
  {
    BoundedSearchIsComplete(s, Hook, key);
    if hook.None? {
      ClearedSingle(s, Hook, key);
    } else if Find(s, Hook, key).Some? {
      ViewOfRewrittenHead(s.slots, Hook, key, View(s.slots, Hook, key)[0].(data := Cb(hook.value)));
    } else {
      SetSingleView(s, Entry(Hook, key, false, Cb(hook.value)));
    }
  }

  lemma StepHook(s: State, op: Op, key: Key)
    requires Inv(s) && BuffersOk(s) && Enabled(s, op) && Step(s, op).Some?
    ensures HookOf(Step(s, op).value, key) == NextHook(HookOf(s, key), op, key)
  {
    if Concerns(op, Hook, key) {
      match op
      case OpReset(k) => ResetEmpties(s, k, Hook, key);
      case OpSetHook(k, hook) => SetHookEffect(s, k, hook);
    } else {
      StepFrame(s, op, Hook, key);
    }
  }

  /** Over any run the hook of a key is the one last set, unless it was removed or reset since. */
  lemma {:induction false} RunHook(s: State, ops: seq<Op>, key: Key)
    requires Valid(s) && Legal(s, ops)
    ensures HookOf(Run(s, ops), key) == HookAfter(HookOf(s, key), ops, key)
    decreases |ops|
  {
    if ops != [] {
      StepHook(s, ops[0], key);
      StepKeepsValid(s, ops[0]);
      RunHook(Step(s, ops[0]).value, ops[1..], key);
    }
  }

  // ----- what a call returns -----

  lemma HookIsFound(s: State, key: Key)
    requires Inv(s)
    ensures Find(s, Hook, key).Some? <==> HookOf(s, key).Some?
  {
    BoundedSearchIsComplete(s, Hook, key);
    if Find(s, Hook, key).Some? {
      FindHolds(s, Hook, key);
      assert SlotOk(s.slots, s.high, Find(s, Hook, key).value);
    }
  }

  lemma CountLeavesHook(s: State, key: Key, code: int)
    requires Inv(s) && CountCall(s, key, code).Some?
    ensures Find(CountCall(s, key, code).value, Hook, key).Some? <==> HookOf(s, key).Some?
  {
    var s2 := CountCall(s, key, code).value;
    CountCallIsLocal(s, key, code);
    LocalFrame(s.slots, s2.slots, Counter, key, Hook, key);
    CountCallKeeps(s, key, code);
    HookIsFound(s2, key);
  }

  /** One call: the hook's result if there is a hook, else the code due now, else the sticky code, else the default. */
  lemma CallReturns(s: State, key: Key, defaultRc: int, hookResult: int)
    requires Inv(s) && Call(s, key, defaultRc, hookResult).Done?
    ensures Call(s, key, defaultRc, hookResult).value ==
            if HookOf(s, key).Some? then hookResult else Pick(Due(Codes(s, key), 1), Sticky(s, key), defaultRc)
  {
    var (s1, code) := ChooseCode(s, key, defaultRc);
    ChooseCodeEffect(s, key, defaultRc);
    ChooseCodeKeeps(s, key, defaultRc);
    ChooseCodeFrame(s, key, defaultRc, Hook, key);
    CountLeavesHook(s1, key, code);
  }

  /** What a call returns after any run: by the hook and the sticky code that were last set. */
  lemma CallAfterRun(s: State, ops: seq<Op>, key: Key, defaultRc: int, hookResult: int)
    requires Valid(s) && Legal(s, ops) && Call(Run(s, ops), key, defaultRc, hookResult).Done?
    ensures Call(Run(s, ops), key, defaultRc, hookResult).value ==
            if HookAfter(HookOf(s, key), ops, key).Some? then hookResult
            else Pick(Due(Codes(Run(s, ops), key), 1), StickyAfter(Sticky(s, key), ops, key), defaultRc)
  {
    RunKeepsValid(s, ops);
    RunSticky(s, ops, key);
    RunHook(s, ops, key);
    CallReturns(Run(s, ops), key, defaultRc, hookResult);
  }

  // ----- all the calls of a run -----

  /** What a test has set for a key. */
  datatype Settings = Settings(codes: seq<(nat, int)>, sticky: Option<int>, hook: Option<nat>)

  function SettingsOf(s: State, key: Key): Settings {
    Settings(Codes(s, key), Sticky(s, key), HookOf(s, key))
  }

  /** The codes that are left when one more call is made. */
  function OneLess(codes: seq<(nat, int)>): seq<(nat, int)> {
    if codes == [] then []
    else if codes[0].0 <= 1 then codes[1..]
    else [(codes[0].0 - 1, codes[0].1)] + codes[1..]
  }

  /** The deferred codes of a key after an operation: a setting adds one at the end. */
  function NextCodes(codes: seq<(nat, int)>, op: Op, key: Key): seq<(nat, int)> {
    if Sweeps(op, key) then []
    else if op.OpSetDeferred? && op.key == key && op.count > 0 then codes + [(op.count, op.retcode)]
    else if op.OpClearDeferred? && op.key == key then []
    else if (op.OpCheckDeferred? || op.OpCall?) && op.key == key then OneLess(codes)
    else codes
  }

  function NextSettings(x: Settings, op: Op, key: Key): Settings {
    Settings(NextCodes(x.codes, op, key), NextSticky(x.sticky, op, key), NextHook(x.hook, op, key))
  }

  /** What a call is to return. */
  function Answer(x: Settings, defaultRc: int, hookResult: int): int {
    if x.hook.Some? then hookResult
    else if x.codes != [] && x.codes[0].0 <= 1 then x.codes[0].1
    else if x.sticky.Some? then x.sticky.value
    else defaultRc
  }

  function Given(o: Outcome<int>): seq<int> {
    if o.Done? then [o.value] else []
  }

  /** What the calls of a key return in a run. */
  function Returned(s: State, ops: seq<Op>, key: Key): seq<int>
    requires Legal(s, ops)
    decreases |ops|
  {
    if ops == [] then []
    else
      (if CallsStub(ops[0], key) then Given(Call(s, key, ops[0].defaultRc, ops[0].hookResult)) else [])
      + Returned(Step(s, ops[0]).value, ops[1..], key)
  }

  /** What they are to return. */
  function Answers(x: Settings, ops: seq<Op>, key: Key): seq<int>
    decreases |ops|
  {
    if ops == [] then []
    else
      (if CallsStub(ops[0], key) then [Answer(x, ops[0].defaultRc, ops[0].hookResult)] else [])
      + Answers(NextSettings(x, ops[0], key), ops[1..], key)
  }

  lemma ClearDeferredEffect(s: State, key: Key)
    ensures View(ClearDeferred(s, key).slots, DeferredRc, key) == []
  {
    LiveIffPresent(ClearDeferred(s, key).slots, DeferredRc, key);
  }

  lemma SetDeferredEffect(s: State, op: Op, key: Key)
    requires Inv(s) && BuffersOk(s) && Enabled(s, op) && Step(s, op).Some? && AddsTo(op, DeferredRc, key)
    requires Harmless(s.slots, Added(op).value)
    ensures Codes(Step(s, op).value, key) == Codes(s, key) + [(op.count as nat, op.retcode)]
  {
    var d := StepAdds(s, op);
    AddsLastIffHarmless(s.slots, Added(op).value, d);
    CodesOfAppend(View(s.slots, DeferredRc, key), Added(op).value);
  }

  lemma StepOwnCodes(s: State, op: Op, key: Key, s': State)
    requires Inv(s) && BuffersOk(s) && Enabled(s, op) && Step(s, op) == Some(s')
    requires Concerns(op, DeferredRc, key) && !op.OpCall?
    requires AddsTo(op, DeferredRc, key) ==> Harmless(s.slots, Added(op).value)
    ensures Codes(s', key) == NextCodes(Codes(s, key), op, key)
  {
    match op
    case OpReset(k) => ResetEmpties(s, k, DeferredRc, key);
    case OpSetDeferred(k, count, retcode) => if count > 0 { SetDeferredEffect(s, op, key); }
    case OpClearDeferred(k) => ClearDeferredEffect(s, k);
    case OpCheckDeferred(k) => CheckDeferredEffect(s, k);
  }

  lemma StepCodes(s: State, op: Op, key: Key, s': State)
    requires Inv(s) && BuffersOk(s) && Enabled(s, op) && Step(s, op) == Some(s')
    requires AddsTo(op, DeferredRc, key) ==> Harmless(s.slots, Added(op).value)
    ensures Codes(s', key) == NextCodes(Codes(s, key), op, key)
  {
    if !Concerns(op, DeferredRc, key) {
      StepFrame(s, op, DeferredRc, key);
    } else if op.OpCall? {
      CallEffect(s, key, op.defaultRc, op.hookResult);
    } else {
      StepOwnCodes(s, op, key, s');
    }
  }

  /** In every run in which each deferred code is added at the end, all calls of a key return what was set for
      it: the hook's result, the code that is due, the sticky code or the default. */
  lemma {:induction false} RunReturns(s: State, ops: seq<Op>, key: Key)
    requires Valid(s) && Legal(s, ops) && AllHarmless(s, ops, DeferredRc, key)
    ensures Returned(s, ops, key) == Answers(SettingsOf(s, key), ops, key)
    decreases |ops|
  {
    if ops != [] {
      var op := ops[0];
      StepKeepsValid(s, op);
      StepCodes(s, op, key, Step(s, op).value);
      StepSticky(s, op, key);
      StepHook(s, op, key);
      RunReturns(Step(s, op).value, ops[1..], key);
      if CallsStub(op, key) {
        CodesArePositive(s, key);
        CallReturns(s, key, op.defaultRc, op.hookResult);
      }
    }
  }

  // ----- how often the sticky code is used -----

  function UsesOf(s: State, key: Key): nat {
    CountIn(View(s.slots, ForceFail, key))
  }

  /** The uses in 32 bits, after one more operation: the sticky code is used by a check, and by a call for which no
      deferred code is due; setting it again does not begin anew. */
  function NextUses(sticky: Option<int>, due: Option<int>, op: Op, key: Key, n: nat): nat {
    if Sweeps(op, key) || op == OpClearDefault(key) then 0
    else if sticky.Some? && (op == OpCheckDefault(key) || (CallsStub(op, key) && due.None?)) then Plus1(n)
    else n
  }

  function UsesAfter(s: State, ops: seq<Op>, key: Key, n: nat): nat
    requires Legal(s, ops)
    decreases |ops|
  {
    if ops == [] then n
    else UsesAfter(Step(s, ops[0]).value, ops[1..], key,
                   NextUses(Sticky(s, key), Due(Codes(s, key), 1), ops[0], key, n))
  }

  lemma CheckCounts(s: State, key: Key)
    requires Inv(s)
    ensures UsesOf(CheckDefault(s, key).0, key) ==
            if Sticky(s, key).Some? then Plus1(UsesOf(s, key)) else UsesOf(s, key)
  {
    BoundedSearchIsComplete(s, ForceFail, key);
    var v := View(s.slots, ForceFail, key);
    if v != [] {
      ViewOfRewrittenHead(s.slots, ForceFail, key, v[0].(data := Rc(Plus1(RcCount(v[0].data)), RcValue(v[0].data))));
    }
  }

  lemma SetKeepsCount(s: State, key: Key, value: int)
    requires Inv(s) && SetDefault(s, key, value).Done?
    ensures UsesOf(SetDefault(s, key, value).state, key) == UsesOf(s, key)
  {
    BoundedSearchIsComplete(s, ForceFail, key);
    FoundEntry(s, ForceFail, key);
    var (s1, i) := FindOrClaim(s, ForceFail, key).value;
    if Find(s, ForceFail, key).None? { ClaimIsUnused(s, key); }
    SetSingleView(s, Entry(ForceFail, key, s1.slots[i].allocFlag, Rc(RcCount(s1.slots[i].data), value)));
  }

  lemma ChooseCounts(s: State, key: Key, defaultRc: int)
    requires Inv(s)
    ensures UsesOf(ChooseCode(s, key, defaultRc).0, key) ==
            if Due(Codes(s, key), 1).None? && Sticky(s, key).Some? then Plus1(UsesOf(s, key)) else UsesOf(s, key)
  {
    var s1 := CheckDeferred(s, key).0;
    CheckDeferredKeeps(s, key);
    CheckDeferredEffect(s, key);
    CheckDeferredIsLocal(s, key);
    LocalFrame(s.slots, s1.slots, DeferredRc, key, ForceFail, key);
    CheckCounts(s1, key);
  }

  lemma CallUses(s: State, key: Key, defaultRc: int, hookResult: int)
    requires Inv(s) && Call(s, key, defaultRc, hookResult).Done?
    ensures UsesOf(Call(s, key, defaultRc, hookResult).state, key) ==
            if Due(Codes(s, key), 1).None? && Sticky(s, key).Some? then Plus1(UsesOf(s, key)) else UsesOf(s, key)
  {
    var (s1, code) := ChooseCode(s, key, defaultRc);
    ChooseCodeKeeps(s, key, defaultRc);
    ChooseCounts(s, key, defaultRc);
    CountAndDropFrame(s1, key, code, ForceFail, key);
  }

  lemma StepOwnUses(s: State, op: Op, key: Key, s': State)
    requires Inv(s) && BuffersOk(s) && Enabled(s, op) && Step(s, op) == Some(s')
    requires Concerns(op, ForceFail, key) && !op.OpCall?
    ensures UsesOf(s', key) == NextUses(Sticky(s, key), Due(Codes(s, key), 1), op, key, UsesOf(s, key))
  {
    match op
    case OpReset(k) => ResetEmpties(s, k, ForceFail, key);
    case OpSetDefault(k, value) => SetKeepsCount(s, k, value);
    case OpClearDefault(k) => ClearedSingle(s, ForceFail, k);
    case OpCheckDefault(k) => CheckCounts(s, k);
  }

  lemma UsedOnlyByOwn(sticky: Option<int>, due: Option<int>, op: Op, key: Key, n: nat)
    requires !Concerns(op, ForceFail, key)
    ensures NextUses(sticky, due, op, key, n) == n
  {
  }

  lemma UsedByCall(sticky: Option<int>, due: Option<int>, op: Op, key: Key, n: nat)
    requires op.OpCall? && op.key == key
    ensures NextUses(sticky, due, op, key, n) == if due.None? && sticky.Some? then Plus1(n) else n
  {
  }

  lemma StepUses(s: State, op: Op, key: Key, s': State)
    requires Inv(s) && BuffersOk(s) && Enabled(s, op) && Step(s, op) == Some(s')
    ensures UsesOf(s', key) == NextUses(Sticky(s, key), Due(Codes(s, key), 1), op, key, UsesOf(s, key))
  {
    if !Concerns(op, ForceFail, key) {
      StepFrame(s, op, ForceFail, key);
      UsedOnlyByOwn(Sticky(s, key), Due(Codes(s, key), 1), op, key, UsesOf(s, key));
    } else if op.OpCall? {
      CallUses(s, key, op.defaultRc, op.hookResult);
      UsedByCall(Sticky(s, key), Due(Codes(s, key), 1), op, key, UsesOf(s, key));
    } else {
      StepOwnUses(s, op, key, s');
    }
  }

  /** Over any run the count of the sticky code is the number of times it was used. */
  lemma {:induction false} RunUses(s: State, ops: seq<Op>, key: Key)
    requires Valid(s) && Legal(s, ops)
    ensures UsesOf(Run(s, ops), key) == UsesAfter(s, ops, key, UsesOf(s, key))
    decreases |ops|
  {
    if ops != [] {
      StepUses(s, ops[0], key, Step(s, ops[0]).value);
      StepKeepsValid(s, ops[0]);
      RunUses(Step(s, ops[0]).value, ops[1..], key);
    }
  }

  // ----- the code that a call records -----

  lemma RecordedIsView(s: State, key: Key)
    requires Inv(s)
    ensures var v := View(s.slots, Counter, key);
            RecordedCode(s, key) == if v == [] then None else Some(RcValue(v[0].data))
  {
    BoundedSearchIsComplete(s, Counter, key);
  }

  lemma CallRecords(s: State, key: Key, defaultRc: int, hookResult: int)
    requires Inv(s) && Call(s, key, defaultRc, hookResult).Done?
    ensures RecordedCode(Call(s, key, defaultRc, hookResult).state, key) ==
            Some(Pick(Due(Codes(s, key), 1), Sticky(s, key), defaultRc))
  {
    var (s1, code) := ChooseCode(s, key, defaultRc);
    ChooseCodeEffect(s, key, defaultRc);
    ChooseCodeKeeps(s, key, defaultRc);
    FoundEntry(s1, Counter, key);
    var (s', i) := FindOrClaim(s1, Counter, key).value;
    var e := s'.slots[i];
    SetSingleView(s1, Entry(Counter, key, e.allocFlag, Rc(Plus1(RcCount(e.data)), code)));
    var s2 := CountCall(s1, key, code).value;
    DropContextIsLocal(s2, key);
    LocalFrame(s2.slots, DropContext(s2, key).slots, Context, key, Counter, key);
    CallKeeps(s, key, defaultRc, hookResult);
    RecordedIsView(Call(s, key, defaultRc, hookResult).state, key);
  }

  /** The code recorded for a key after a run: that of its last call since its last reset. */
  function RecordedAfter(s: State, ops: seq<Op>, key: Key, code: Option<int>): Option<int>
    requires Legal(s, ops)
    decreases |ops|
  {
    if ops == [] then code
    else
      RecordedAfter(Step(s, ops[0]).value, ops[1..], key,
                    if CallsStub(ops[0], key)
                    then Some(Pick(Due(Codes(s, key), 1), Sticky(s, key), ops[0].defaultRc))
                    else if Sweeps(ops[0], key) then None else code)
  }

  lemma {:induction false} RunRecords(s: State, ops: seq<Op>, key: Key)
    requires Valid(s) && Legal(s, ops)
    ensures RecordedCode(Run(s, ops), key) == RecordedAfter(s, ops, key, RecordedCode(s, key))
    decreases |ops|
  {
    if ops != [] {
      var op, s' := ops[0], Step(s, ops[0]).value;
      StepKeepsValid(s, op);
      RunRecords(s', ops[1..], key);
      if CallsStub(op, key) {
        CallRecords(s, key, op.defaultRc, op.hookResult);
      } else {
        RecordedIsView(s, key);
        RecordedIsView(s', key);
        if Sweeps(op, key) { ResetEmpties(s, op.key, Counter, key); } else { StepFrame(s, op, Counter, key); }
      }
    }
  }

  // ----- the arguments that a call finds -----

  function ArgsOf(s: State, key: Key): seq<nat> {
    var v := View(s.slots, Context, key);
    if v == [] then [] else ArgList(v[0].data)
  }

  /** The arguments registered for a key: up to eight since its last call or reset. */
  function NextArgs(args: seq<nat>, op: Op, key: Key): seq<nat> {
    if Sweeps(op, key) || CallsStub(op, key) then []
    else if op.OpRegisterContext? && op.key == key && |args| < 8 then args + [op.arg]
    else args
  }

  function ArgsAfter(args: seq<nat>, ops: seq<Op>, key: Key): seq<nat>
    decreases |ops|
  {
    if ops == [] then args else ArgsAfter(NextArgs(args, ops[0], key), ops[1..], key)
  }

  lemma RegisterEffect(s: State, key: Key, arg: nat)
    requires Inv(s) && RegisterContext(s, key, arg).Done?
    ensures ArgsOf(RegisterContext(s, key, arg).state, key) ==
            if |ArgsOf(s, key)| < 8 then ArgsOf(s, key) + [arg] else ArgsOf(s, key)
  {
    BoundedSearchIsComplete(s, Context, key);
    FoundEntry(s, Context, key);
    var (s1, i) := FindOrClaim(s, Context, key).value;
    var args := ArgList(s1.slots[i].data);
    if Find(s, Context, key).None? { ClaimIsUnused(s, key); }
    assert args == ArgsOf(s, key);
    SetSingleView(s, Entry(Context, key, s1.slots[i].allocFlag,
                           Args(if |args| < MAX_ARGS then args + [arg] else args)));
  }

  lemma CallLeavesNoArgs(s: State, key: Key, defaultRc: int, hookResult: int)
    requires Inv(s) && Call(s, key, defaultRc, hookResult).Done?
    ensures ArgsOf(Call(s, key, defaultRc, hookResult).state, key) == []
  {
    CallDropsContext(s, key, defaultRc, hookResult);
    LiveIffPresent(Call(s, key, defaultRc, hookResult).state.slots, Context, key);
  }

  lemma StepArgs(s: State, op: Op, key: Key, s': State)
    requires Inv(s) && BuffersOk(s) && Enabled(s, op) && Step(s, op) == Some(s')
    ensures ArgsOf(s', key) == NextArgs(ArgsOf(s, key), op, key)
  {
    if !Concerns(op, Context, key) {
      StepFrame(s, op, Context, key);
    } else if op.OpCall? {
      CallLeavesNoArgs(s, key, op.defaultRc, op.hookResult);
    } else if op.OpReset? {
      ResetEmpties(s, op.key, Context, key);
    } else {
      RegisterEffect(s, key, op.arg);
    }
  }

  /** Over any run the arguments that a call will find are those registered since the call before, in order. */
  lemma {:induction false} RunArgs(s: State, ops: seq<Op>, key: Key)
    requires Valid(s) && Legal(s, ops)
    ensures ArgsOf(Run(s, ops), key) == ArgsAfter(ArgsOf(s, key), ops, key)
    decreases |ops|
  {
    if ops != [] {
      StepArgs(s, ops[0], key, Step(s, ops[0]).value);
      StepKeepsValid(s, ops[0]);
      RunArgs(Step(s, ops[0]).value, ops[1..], key);
    }
  }
}

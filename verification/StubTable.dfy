/**
The stub table as a value: two hundred slots searched by open addressing, the high-water
mark that bounds every search, and the memory behind the data buffers. Each operation of
the table is a function on this state; the class in StubMachine runs them in place.
*/
module StubTable {
  import opened Options

  const SLOTS := 200
  const MODULUS := 199
  const MAX_ARGS := 8
  const TWO32 := 0x1_0000_0000

  type Key = nat
  type Address = nat

  datatype Kind = Unused | Counter | ForceFail | DeferredRc | DataBuffer | Hook | Context | CallOnce

  /** The union of per-kind data; Blank is the all-zero block. */
  datatype Data =
    | Blank
    | Rc(count: nat, value: int)
    | Buff(base: Address, total: nat, position: nat)
    | Cb(hook: nat)
    | Args(args: seq<nat>)

  datatype Entry = Entry(kind: Kind, key: Key, allocFlag: bool, data: Data)

  function Zero(): Entry {
    Entry(Unused, 0, false, Blank)
  }

  function Fresh(): (t: seq<Entry>)
    ensures |t| == SLOTS
    ensures forall i | 0 <= i < SLOTS :: t[i] == Zero()
  {
    seq(SLOTS, i => Zero())
  }

  type Table = t: seq<Entry> | |t| == SLOTS witness Fresh()

  /** The memory maps each live buffer to its bytes; the owned ones came from malloc(). */
  datatype State = State(slots: Table, high: nat, memory: map<Address, seq<bv8>>, owned: set<Address>)

  // ----- probing -----

  function Hash(key: Key): (h: nat)
    ensures h < MODULUS
  {
    key % MODULUS
  }

  /** The slot at probe distance d from a key's start. */
  function Slot(key: Key, d: nat): (i: nat)
    requires d < SLOTS
    ensures i < SLOTS
  {
    if Hash(key) + d < SLOTS then Hash(key) + d else Hash(key) + d - SLOTS
  }

  /** The probe distance of a slot from a key's start. */
  function Distance(key: Key, i: nat): (d: nat)
    requires i < SLOTS
    ensures d < SLOTS && Slot(key, d) == i
  {
    if Hash(key) <= i then i - Hash(key) else i + SLOTS - Hash(key)
  }

  lemma SlotDistance(key: Key, d: nat)
    requires d < SLOTS
    ensures Distance(key, Slot(key, d)) == d
  {
  }

  predicate Holds(e: Entry, kind: Kind, key: Key) {
    e.kind == kind && e.key == key
  }

  /** The probe distances from `from`'s start, between lo and hi, of the slots holding (kind, key). */
  function Chain(t: Table, from: Key, kind: Kind, key: Key, lo: nat, hi: nat): (c: seq<nat>)
    requires lo <= hi <= SLOTS
    ensures forall j | 0 <= j < |c| :: lo <= c[j] < hi && Holds(t[Slot(from, c[j])], kind, key)
    decreases hi - lo
  {
    if lo == hi then []
    else
      var c := Chain(t, from, kind, key, lo, hi - 1);
      if Holds(t[Slot(from, hi - 1)], kind, key) then c + [hi - 1] else c
  }

  lemma {:induction false} ChainIsSorted(t: Table, from: Key, kind: Kind, key: Key, lo: nat, hi: nat, j: nat, k: nat)
    requires lo <= hi <= SLOTS && j < k < |Chain(t, from, kind, key, lo, hi)|
    ensures Chain(t, from, kind, key, lo, hi)[j] < Chain(t, from, kind, key, lo, hi)[k]
    decreases hi - lo
  {
    if k < |Chain(t, from, kind, key, lo, hi - 1)| { ChainIsSorted(t, from, kind, key, lo, hi - 1, j, k); }
  }

  lemma {:induction false} ChainIsComplete(t: Table, from: Key, kind: Kind, key: Key, lo: nat, hi: nat, d: nat)
    requires lo <= d < hi <= SLOTS && Holds(t[Slot(from, d)], kind, key)
    ensures d in Chain(t, from, kind, key, lo, hi)
    decreases hi - lo
  {
    if d < hi - 1 { ChainIsComplete(t, from, kind, key, lo, hi - 1, d); }
  }

  /** The first element of a chain is the least distance at which the slot matches. */
  lemma ChainHeadIsFirst(t: Table, from: Key, kind: Kind, key: Key, lo: nat, hi: nat, d: nat)
    requires lo <= d < hi <= SLOTS && Holds(t[Slot(from, d)], kind, key)
    ensures Chain(t, from, kind, key, lo, hi) != [] && Chain(t, from, kind, key, lo, hi)[0] <= d
  {
    var c := Chain(t, from, kind, key, lo, hi);
    ChainIsComplete(t, from, kind, key, lo, hi, d);
    var k :| 0 <= k < |c| && c[k] == d;
    if k > 0 { ChainIsSorted(t, from, kind, key, lo, hi, 0, k); }
  }

  /** The live entries of (kind, key), in the order a search meets them. */
  function Live(t: Table, kind: Kind, key: Key): seq<nat> {
    Chain(t, key, kind, key, 0, |t|)
  }

  function FirstFree(t: Table, key: Key): Option<nat> {
    var c := Chain(t, key, Unused, 0, 0, |t|);
    if c == [] then None else Some(c[0])
  }

  /** UT_GetStubEntry for a used kind: the first match within the high-water mark. */
  function Find(s: State, kind: Kind, key: Key): Option<nat> {
    var c := Live(s.slots, kind, key);
    if c == [] || c[0] >= s.high then None else Some(Slot(key, c[0]))
  }

  function Max(a: nat, b: nat): nat {
    if a < b then b else a
  }

  // ----- the two primitive changes -----

  predicate Frees(e: Entry) {
    e.kind == DataBuffer && e.data.Buff? && e.allocFlag
  }

  /** UT_ClearStubEntry. */
  function Clear(s: State, i: nat): State
    requires i < SLOTS
  {
    var e := s.slots[i];
    var s' := s.(slots := s.slots[i := Zero()]);
    if Frees(e) then s'.(memory := s.memory - {e.data.base}, owned := s.owned - {e.data.base}) else s'
  }

  /** The search for an unused slot, with the high-water mark it leaves. */
  function Claim(s: State, key: Key): Option<(State, nat)> {
    match FirstFree(s.slots, key)
    case None => None
    case Some(d) => Some((s.(high := Max(s.high, d + 1)), Slot(key, d)))
  }

  function Store(s: State, i: nat, e: Entry): State
    requires i < SLOTS
  {
    s.(slots := s.slots[i := e])
  }

  // ----- the operations -----

  /** What an operation leaves behind; Abort when the table is full and the test is stopped. */
  datatype Outcome<+T> = Abort | Done(state: State, value: T)

  function Plus1(n: nat): nat {
    (n + 1) % TWO32
  }

  function RcCount(d: Data): nat {
    if d.Rc? then d.count else 0
  }

  function RcValue(d: Data): int {
    if d.Rc? then d.value else 0
  }

  function ArgList(d: Data): seq<nat> {
    if d.Args? then d.args else []
  }

  predicate IsSwept(e: Entry, key: Key) {
    key == 0 || e.key == key
  }

  function Swept(t: Table, key: Key): (r: Table)
    ensures forall i | 0 <= i < SLOTS :: r[i] == if IsSwept(t[i], key) then Zero() else t[i]
  {
    seq(SLOTS, i requires 0 <= i < SLOTS => if IsSwept(t[i], key) then Zero() else t[i])
  }

  function FreedBases(t: Table, key: Key): set<Address> {
    set i | 0 <= i < SLOTS && IsSwept(t[i], key) && Frees(t[i]) :: t[i].data.base
  }

  /** UT_ResetState: clears every entry of a key, or of all keys when the key is zero. */
  function Reset(s: State, key: Key): State {
    var gone := FreedBases(s.slots, key);
    State(Swept(s.slots, key), if key == 0 then 0 else s.high, s.memory - gone, s.owned - gone)
  }

  /** The lowest slot from i on that holds a kind, for one key or for any. */
  function Lowest(t: Table, kind: Kind, key: Option<Key>, i: nat): (r: Option<nat>)
    requires i <= SLOTS
    ensures r.Some? ==> i <= r.value < SLOTS && t[r.value].kind == kind && (key.Some? ==> t[r.value].key == key.value)
    ensures r.None? ==> forall j | i <= j < SLOTS :: !(t[j].kind == kind && (key.Some? ==> t[j].key == key.value))
    decreases SLOTS - i
  {
    if i == SLOTS then None
    else if t[i].kind == kind && (key.Some? ==> t[i].key == key.value) then Some(i)
    else Lowest(t, kind, key, i + 1)
  }

  /** UT_Stub_CallOnce: whether the function is to be run now. */
  function CallOnceOp(s: State, key: Key): Outcome<bool> {
    if key == 0 || Lowest(s.slots, CallOnce, Some(key), 0).Some? then Done(s, false)
    else match Lowest(s.slots, Unused, None, 0)
      case None => Abort
      case Some(i) => Done(Store(s, i, Entry(CallOnce, key, false, Blank)), true)
  }

  /** UT_SetDeferredRetcode. */
  function SetDeferred(s: State, key: Key, count: int, retcode: int): Outcome<()> {
    if count <= 0 then Done(s, ())
    else match Claim(s, key)
      case None => Abort
      case Some((s1, i)) => Done(Store(s1, i, Entry(DeferredRc, key, false, Rc(count, retcode))), ())
  }

  function CountedDown(e: Entry): Entry
    requires RcCount(e.data) > 0
  {
    e.(data := Rc(RcCount(e.data) - 1, RcValue(e.data)))
  }

  /** UT_Stub_CheckDeferredRetcode. */
  function CheckDeferred(s: State, key: Key): (State, Option<int>) {
    match Find(s, DeferredRc, key)
    case None => (s, None)
    case Some(i) =>
      var e := s.slots[i];
      if RcCount(e.data) <= 1 then (Clear(s, i), Some(RcValue(e.data)))
      else (Store(s, i, CountedDown(e)), None)
  }

  function Without(t: Table, kind: Kind, key: Key): (r: Table)
    ensures forall i | 0 <= i < SLOTS :: r[i] == if Holds(t[i], kind, key) then Zero() else t[i]
  {
    seq(SLOTS, i requires 0 <= i < SLOTS => if Holds(t[i], kind, key) then Zero() else t[i])
  }

  /** UT_ClearDeferredRetcode: every deferred code of the key is gone. */
  function ClearDeferred(s: State, key: Key): State {
    s.(slots := Without(s.slots, DeferredRc, key))
  }

  /** The entry of (kind, key) if there is one, else an unused slot for it. */
  function FindOrClaim(s: State, kind: Kind, key: Key): Option<(State, nat)> {
    match Find(s, kind, key)
    case Some(i) => Some((s, i))
    case None => Claim(s, key)
  }

  /** UT_SetDefaultReturnValue. */
  function SetDefault(s: State, key: Key, value: int): Outcome<()> {
    match FindOrClaim(s, ForceFail, key)
    case None => Abort
    case Some((s1, i)) =>
      var e := s1.slots[i];
      Done(Store(s1, i, Entry(ForceFail, key, e.allocFlag, Rc(RcCount(e.data), value))), ())
  }

  /** UT_ClearDefaultReturnValue. */
  function ClearDefault(s: State, key: Key): State {
    match Find(s, ForceFail, key)
    case None => s
    case Some(i) => Clear(s, i)
  }

  /** UT_Stub_CheckDefaultReturnValue. */
  function CheckDefault(s: State, key: Key): (State, Option<int>) {
    match Find(s, ForceFail, key)
    case None => (s, None)
    case Some(i) =>
      var e := s.slots[i];
      (Store(s, i, e.(data := Rc(Plus1(RcCount(e.data)), RcValue(e.data)))), Some(RcValue(e.data)))
  }

  /** UT_GetStubCount. */
  function StubCount(s: State, key: Key): nat {
    match Find(s, Counter, key)
    case None => 0
    case Some(i) => RcCount(s.slots[i].data)
  }

  /** The code of the last call of a stub, before its hook. */
  function RecordedCode(s: State, key: Key): Option<int> {
    match Find(s, Counter, key)
    case None => None
    case Some(i) => Some(RcValue(s.slots[i].data))
  }

  /** A 32-bit word as a signed number. */
  function Signed(n: nat): int {
    if n < TWO32 / 2 then n else n - TWO32
  }

  /** What the memory must provide for the buffers the table refers to. */
  predicate BufferOk(s: State, e: Entry) {
    && e.data.Buff?
    && e.data.base in s.memory
    && e.data.position < e.data.total <= |s.memory[e.data.base]|
  }

  predicate BuffersOk(s: State) {
    forall i | 0 <= i < SLOTS && s.slots[i].kind == DataBuffer :: BufferOk(s, s.slots[i])
  }

  /** The caller's side of UT_SetDataBuffer: a pointer to readable memory. */
  predicate Readable(s: State, source: Option<Address>, size: nat) {
    source.Some? ==> source.value in s.memory && size <= |s.memory[source.value]|
  }

  /** UT_SetDataBuffer. A null pointer is None; malloc() answers `block`. */
  function SetBuffer(s: State, key: Key, source: Option<Address>, size: nat, copy: bool, block: Address): Outcome<()>
    requires Readable(s, source, size)
  {
    if source.None? || size == 0 then Done(s, ())
    else match Claim(s, key)
      case None => Abort
      case Some((s1, i)) =>
        if copy then
          var s2 := s1.(memory := s1.memory[block := s1.memory[source.value][..size]], owned := s1.owned + {block});
          Done(Store(s2, i, Entry(DataBuffer, key, true, Buff(block, size, 0))), ())
        else
          Done(Store(s1, i, Entry(DataBuffer, key, false, Buff(source.value, size, 0))), ())
  }

  /** How much of a buffer a transfer of at most max bytes takes. */
  function Amount(d: Data, max: nat): nat
    requires d.Buff? && d.position <= d.total
  {
    if max < d.total - d.position then max else d.total - d.position
  }

  /** Advances a buffer by n bytes, dropping the entry once it is used up. */
  function Advance(s: State, i: nat, n: nat): State
    requires i < SLOTS && s.slots[i].data.Buff?
  {
    var e := s.slots[i];
    if e.data.position + n >= e.data.total then Clear(s, i)
    else Store(s, i, e.(data := e.data.(position := e.data.position + n)))
  }

  /** UT_Stub_CopyToLocal: the bytes delivered. */
  function CopyToLocal(s: State, key: Key, max: nat): (State, seq<bv8>)
    requires BuffersOk(s)
  {
    match Find(s, DataBuffer, key)
    case None => (s, [])
    case Some(i) =>
      var d := s.slots[i].data;
      assert BufferOk(s, s.slots[i]);
      var n := Amount(d, max);
      (Advance(s, i, n), s.memory[d.base][d.position..d.position + n])
  }

  /** The state after a buffer's unread bytes are overwritten from the front. */
  function Overwritten(s: State, d: Data, bytes: seq<bv8>): State
    requires d.Buff? && d.base in s.memory && d.position <= d.total <= |s.memory[d.base]|
  {
    var n := Amount(d, |bytes|);
    var before := s.memory[d.base];
    s.(memory := s.memory[d.base := before[..d.position] + bytes[..n] + before[d.position + n..]])
  }

  /** UT_Stub_CopyFromLocal: how many of the bytes were taken. */
  function CopyFromLocal(s: State, key: Key, bytes: seq<bv8>): (State, nat)
    requires BuffersOk(s)
  {
    match Find(s, DataBuffer, key)
    case None => (s, 0)
    case Some(i) =>
      var d := s.slots[i].data;
      assert BufferOk(s, s.slots[i]);
      (Advance(Overwritten(s, d, bytes), i, Amount(d, |bytes|)), Amount(d, |bytes|))
  }

  /** UT_DoSetHookFunction; a null function is None and deletes. */
  function SetHook(s: State, key: Key, hook: Option<nat>): Outcome<()> {
    match (Find(s, Hook, key), hook)
    case (None, None) => Done(s, ())
    case (Some(i), None) => Done(Clear(s, i), ())
    case (Some(i), Some(h)) => Done(Store(s, i, s.slots[i].(data := Cb(h))), ())
    case (None, Some(h)) =>
      match Claim(s, key)
      case None => Abort
      case Some((s1, i)) => Done(Store(s1, i, Entry(Hook, key, false, Cb(h))), ())
  }

  /** UT_Stub_RegisterContextWithMetaData. */
  function RegisterContext(s: State, key: Key, arg: nat): Outcome<()> {
    match FindOrClaim(s, Context, key)
    case None => Abort
    case Some((s1, i)) =>
      var e := s1.slots[i];
      var args := ArgList(e.data);
      var args' := if |args| < MAX_ARGS then args + [arg] else args;
      Done(Store(s1, i, Entry(Context, key, e.allocFlag, Args(args'))), ())
  }

  /** The return code of a stub before its hook: a deferred code, else the sticky one, else the default. */
  function ChooseCode(s: State, key: Key, defaultRc: int): (State, int) {
    var (s1, deferred) := CheckDeferred(s, key);
    if deferred.Some? then (s1, deferred.value)
    else
      var (s2, sticky) := CheckDefault(s1, key);
      (s2, if sticky.Some? then sticky.value else defaultRc)
  }

  function CountCall(s: State, key: Key, code: int): Option<State> {
    match FindOrClaim(s, Counter, key)
    case None => None
    case Some((s1, i)) =>
      var e := s1.slots[i];
      Some(Store(s1, i, Entry(Counter, key, e.allocFlag, Rc(Plus1(RcCount(e.data)), code))))
  }

  function DropContext(s: State, key: Key): State {
    match Find(s, Context, key)
    case None => s
    case Some(i) => Clear(s, i)
  }

  /** UT_DefaultStubImplWithArgs; hookResult is what an installed hook would return. */
  function Call(s: State, key: Key, defaultRc: int, hookResult: int): Outcome<int> {
    var (s1, code) := ChooseCode(s, key, defaultRc);
    match CountCall(s1, key, code)
    case None => Abort
    case Some(s2) => Done(DropContext(s2, key), if Find(s2, Hook, key).Some? then hookResult else code)
  }

  // ----- runs -----

  datatype Op =
    | OpReset(key: Key)
    | OpCallOnce(key: Key)
    | OpSetDeferred(key: Key, count: int, retcode: int)
    | OpClearDeferred(key: Key)
    | OpCheckDeferred(key: Key)
    | OpSetDefault(key: Key, value: int)
    | OpClearDefault(key: Key)
    | OpCheckDefault(key: Key)
    | OpSetBuffer(key: Key, source: Option<Address>, size: nat, copy: bool, block: Address)
    | OpCopyToLocal(key: Key, max: nat)
    | OpCopyFromLocal(key: Key, bytes: seq<bv8>)
    | OpSetHook(key: Key, hook: Option<nat>)
    | OpRegisterContext(key: Key, arg: nat)
    | OpCall(key: Key, defaultRc: int, hookResult: int)
    | OpCallerWrites(address: Address, bytes: seq<bv8>)

  /** What the caller and malloc() owe an operation. */
  predicate Enabled(s: State, op: Op) {
    match op
    case OpSetBuffer(key, source, size, copy, block) =>
      && Readable(s, source, size)
      && block !in s.memory
      && (source.Some? && !copy ==> source.value !in s.owned)
    case OpCallerWrites(address, bytes) =>
      address in s.memory && address !in s.owned && |bytes| == |s.memory[address]|
    case _ => true
  }

  function StateOf<T>(o: Outcome<T>): Option<State> {
    if o.Abort? then None else Some(o.state)
  }

  /** One step of a run; None when the test is aborted. */
  function Step(s: State, op: Op): Option<State>
    requires BuffersOk(s) && Enabled(s, op)
  {
    match op
    case OpReset(key) => Some(Reset(s, key))
    case OpCallOnce(key) => StateOf(CallOnceOp(s, key))
    case OpSetDeferred(key, count, retcode) => StateOf(SetDeferred(s, key, count, retcode))
    case OpClearDeferred(key) => Some(ClearDeferred(s, key))
    case OpCheckDeferred(key) => Some(CheckDeferred(s, key).0)
    case OpSetDefault(key, value) => StateOf(SetDefault(s, key, value))
    case OpClearDefault(key) => Some(ClearDefault(s, key))
    case OpCheckDefault(key) => Some(CheckDefault(s, key).0)
    case OpSetBuffer(key, source, size, copy, block) => StateOf(SetBuffer(s, key, source, size, copy, block))
    case OpCopyToLocal(key, max) => Some(CopyToLocal(s, key, max).0)
    case OpCopyFromLocal(key, bytes) => Some(CopyFromLocal(s, key, bytes).0)
    case OpSetHook(key, hook) => StateOf(SetHook(s, key, hook))
    case OpRegisterContext(key, arg) => StateOf(RegisterContext(s, key, arg))
    case OpCall(key, defaultRc, hookResult) => StateOf(Call(s, key, defaultRc, hookResult))
    case OpCallerWrites(address, bytes) => Some(s.(memory := s.memory[address := bytes]))
  }
}

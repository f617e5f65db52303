/**
Countdown return codes: every call of a stub gets the code that its number is due, and the
codes are due at the running sums of their counts.
*/
module StubCodes {
  import opened Options
  import opened StubTable
  import opened StubInvariant
  import opened StubMemory
  import opened StubOrder
  import opened StubEffects
  import opened StubCalls

  /** The (count, code) pairs of a view of deferred entries. */
  function CodesOf(v: seq<Entry>): (c: seq<(nat, int)>)
    ensures |c| == |v|
    ensures forall j | 0 <= j < |v| :: c[j] == (RcCount(v[j].data), RcValue(v[j].data))
  {
    seq(|v|, j requires 0 <= j < |v| => (RcCount(v[j].data), RcValue(v[j].data)))
  }

  function Codes(s: State, key: Key): seq<(nat, int)> {
    CodesOf(View(s.slots, DeferredRc, key))
  }

  function Sticky(s: State, key: Key): Option<int> {
    var v := View(s.slots, ForceFail, key);
    if v == [] then None else Some(RcValue(v[0].data))
  }

  predicate Positive(codes: seq<(nat, int)>) {
    forall j | 0 <= j < |codes| :: codes[j].0 > 0
  }

  lemma CodesArePositive(s: State, key: Key)
    requires Inv(s)
    ensures Positive(Codes(s, key))
  {
    forall j | 0 <= j < |Codes(s, key)| ensures Codes(s, key)[j].0 > 0 {
      assert SlotOk(s.slots, s.high, Slot(key, Live(s.slots, DeferredRc, key)[j]));
    }
  }

  /** The code due at call number m, counting from one: the i-th code is due at call c1 + ... + ci. */
  function Due(codes: seq<(nat, int)>, m: nat): Option<int> {
    if codes == [] then None
    else if m < codes[0].0 then None
    else if m == codes[0].0 then Some(codes[0].1)
    else Due(codes[1..], m - codes[0].0)
  }

  /** The codes left after one call. */
  function Ticked(codes: seq<(nat, int)>): seq<(nat, int)>
    requires Positive(codes)
  {
    if codes == [] then [] else if codes[0].0 == 1 then codes[1..] else [(codes[0].0 - 1, codes[0].1)] + codes[1..]
  }

  lemma TickMovesDue(codes: seq<(nat, int)>, m: nat)
    requires Positive(codes) && m > 0
    ensures Due(Ticked(codes), m) == Due(codes, m + 1)
  {
    if codes != [] && codes[0].0 > 1 { assert Ticked(codes)[1..] == codes[1..]; }
  }

  function Total(codes: seq<(nat, int)>): nat {
    if codes == [] then 0 else codes[0].0 + Total(codes[1..])
  }

  /** Code i is due exactly at the sum of the first i counts. */
  lemma {:induction false} DueAtPrefixSum(codes: seq<(nat, int)>, i: nat)
    requires Positive(codes) && i < |codes|
    ensures Due(codes, Total(codes[..i + 1])) == Some(codes[i].1)
    decreases |codes|
  {
    assert codes[..i + 1][1..] == codes[1..][..i];
    if i > 0 {
      DueAtPrefixSum(codes[1..], i - 1);
      assert codes[1..][..i][0] == codes[1];
    } else {
      assert codes[..1][1..] == [];
    }
  }

  /** Nothing is due at any other call. */
  lemma {:induction false} DueOnlyAtPrefixSums(codes: seq<(nat, int)>, m: nat) returns (i: nat)
    requires Due(codes, m).Some?
    ensures i < |codes| && m == Total(codes[..i + 1]) && Due(codes, m).value == codes[i].1
    decreases |codes|
  {
    if m == codes[0].0 {
      i := 0;
      assert codes[..1][1..] == [];
    } else {
      var j := DueOnlyAtPrefixSums(codes[1..], m - codes[0].0);
      i := j + 1;
      assert codes[..i + 1][1..] == codes[1..][..j + 1];
    }
  }

  lemma ClearedCodes(v: seq<Entry>)
    requires v != []
    ensures CodesOf(v[1..]) == CodesOf(v)[1..]
  {
  }

  lemma CountedDownCodes(v: seq<Entry>)
    requires v != [] && RcCount(v[0].data) > 0
    ensures CodesOf([CountedDown(v[0])] + v[1..]) == [(RcCount(v[0].data) - 1, RcValue(v[0].data))] + CodesOf(v)[1..]
  {
  }

  lemma NoCodes(s: State, key: Key)
    requires Inv(s) && View(s.slots, DeferredRc, key) == []
    ensures CheckDeferred(s, key) == (s, None)
  {
    BoundedSearchIsComplete(s, DeferredRc, key);
  }

  lemma FoundCode(s: State, key: Key)
    requires Inv(s) && View(s.slots, DeferredRc, key) != []
    ensures Find(s, DeferredRc, key) == Some(HeadSlot(s.slots, DeferredRc, key))
    ensures RcCount(View(s.slots, DeferredRc, key)[0].data) > 0
  {
    BoundedSearchIsComplete(s, DeferredRc, key);
    assert SlotOk(s.slots, s.high, HeadSlot(s.slots, DeferredRc, key));
  }

  lemma CodeExpires(s: State, key: Key)
    requires Inv(s) && View(s.slots, DeferredRc, key) != [] && RcCount(View(s.slots, DeferredRc, key)[0].data) == 1
    ensures CheckDeferred(s, key).1 == Some(RcValue(View(s.slots, DeferredRc, key)[0].data))
    ensures View(CheckDeferred(s, key).0.slots, DeferredRc, key) == View(s.slots, DeferredRc, key)[1..]
  {
    FoundCode(s, key);
    ViewOfClearedHead(s.slots, DeferredRc, key);
  }

  lemma CodeCountsDown(s: State, key: Key)
    requires Inv(s) && View(s.slots, DeferredRc, key) != [] && RcCount(View(s.slots, DeferredRc, key)[0].data) > 1
    ensures CheckDeferred(s, key).1 == None
    ensures View(CheckDeferred(s, key).0.slots, DeferredRc, key)
            == [CountedDown(View(s.slots, DeferredRc, key)[0])] + View(s.slots, DeferredRc, key)[1..]
  {
    FoundCode(s, key);
    ViewOfRewrittenHead(s.slots, DeferredRc, key, CountedDown(View(s.slots, DeferredRc, key)[0]));
  }

  /** Checking the deferred codes yields the one due now, if any, and counts down the rest. */
  lemma CheckDeferredEffect(s: State, key: Key)
    requires Inv(s)
    ensures Positive(Codes(s, key))
    ensures CheckDeferred(s, key).1 == Due(Codes(s, key), 1)
    ensures Codes(CheckDeferred(s, key).0, key) == Ticked(Codes(s, key))
  {
    CodesArePositive(s, key);
    var v := View(s.slots, DeferredRc, key);
    if v == [] {
      NoCodes(s, key);
    } else if RcCount(v[0].data) == 1 {
      CodeExpires(s, key);
      ClearedCodes(v);
    } else {
      FoundCode(s, key);
      CodeCountsDown(s, key);
      CountedDownCodes(v);
    }
  }

  lemma CheckDefaultEffect(s: State, key: Key)
    requires Inv(s)
    ensures CheckDefault(s, key).1 == Sticky(s, key)
    ensures Sticky(CheckDefault(s, key).0, key) == Sticky(s, key)
  {
    BoundedSearchIsComplete(s, ForceFail, key);
    var v := View(s.slots, ForceFail, key);
    if v != [] {
      ViewOfRewrittenHead(s.slots, ForceFail, key, v[0].(data := Rc(Plus1(RcCount(v[0].data)), RcValue(v[0].data))));
    }
  }

  function Pick(due: Option<int>, sticky: Option<int>, defaultRc: int): int {
    if due.Some? then due.value else if sticky.Some? then sticky.value else defaultRc
  }

  /** What a call does to the codes, the sticky value, and with them its own return code. */
  lemma ChooseCodeEffect(s: State, key: Key, defaultRc: int)
    requires Inv(s)
    ensures Positive(Codes(s, key))
    ensures ChooseCode(s, key, defaultRc).1 == Pick(Due(Codes(s, key), 1), Sticky(s, key), defaultRc)
    ensures Codes(ChooseCode(s, key, defaultRc).0, key) == Ticked(Codes(s, key))
    ensures Sticky(ChooseCode(s, key, defaultRc).0, key) == Sticky(s, key)
  {
    var s1 := CheckDeferred(s, key).0;
    CheckDeferredKeeps(s, key);
    CheckDeferredEffect(s, key);
    CheckDeferredIsLocal(s, key);
    LocalFrame(s.slots, s1.slots, DeferredRc, key, ForceFail, key);
    var s2 := CheckDefault(s1, key).0;
    CheckDefaultEffect(s1, key);
    CheckDefaultIsLocal(s1, key);
    LocalFrame(s1.slots, s2.slots, ForceFail, key, DeferredRc, key);
  }

  lemma CallEffect(s: State, key: Key, defaultRc: int, hookResult: int)
    requires Inv(s) && Call(s, key, defaultRc, hookResult).Done?
    ensures Positive(Codes(s, key))
    ensures Codes(Call(s, key, defaultRc, hookResult).state, key) == Ticked(Codes(s, key))
    ensures Sticky(Call(s, key, defaultRc, hookResult).state, key) == Sticky(s, key)
  {
    var (s1, code) := ChooseCode(s, key, defaultRc);
    ChooseCodeEffect(s, key, defaultRc);
    ChooseCodeKeeps(s, key, defaultRc);
    CountAndDropFrame(s1, key, code, DeferredRc, key);
    CountAndDropFrame(s1, key, code, ForceFail, key);
  }

  // ----- over a run -----

  /** Operations that change which codes a key has coming, other than its calls. */
  predicate Alters(op: Op, key: Key) {
    || (op.OpReset? && (op.key == 0 || op.key == key))
    || ((op.OpSetDeferred? || op.OpClearDeferred? || op.OpCheckDeferred? || op.OpSetDefault? || op.OpClearDefault?)
        && op.key == key)
  }

  predicate CallsStub(op: Op, key: Key) {
    op.OpCall? && op.key == key
  }

  /** The codes, before hooks, of the calls of a key in a run. */
  function CallCodes(s: State, ops: seq<Op>, key: Key): seq<int>
    requires Legal(s, ops)
    decreases |ops|
  {
    if ops == [] then []
    else
      (if CallsStub(ops[0], key) then [ChooseCode(s, key, ops[0].defaultRc).1] else [])
      + CallCodes(Step(s, ops[0]).value, ops[1..], key)
  }

  /** The schedule: call m gets the code due at m, else the sticky value, else its own default. */
  function Scheduled(codes: seq<(nat, int)>, sticky: Option<int>, ops: seq<Op>, key: Key, m: nat): seq<int>
    decreases |ops|
  {
    if ops == [] then []
    else if CallsStub(ops[0], key) then
      [Pick(Due(codes, m), sticky, ops[0].defaultRc)] + Scheduled(codes, sticky, ops[1..], key, m + 1)
    else Scheduled(codes, sticky, ops[1..], key, m)
  }

  lemma {:induction false} TickMovesSchedule(codes: seq<(nat, int)>, sticky: Option<int>, ops: seq<Op>, key: Key,
                                             m: nat)
    requires Positive(codes) && m > 0
    ensures Scheduled(Ticked(codes), sticky, ops, key, m) == Scheduled(codes, sticky, ops, key, m + 1)
    decreases |ops|
  {
    if ops != [] {
      TickMovesDue(codes, m);
      TickMovesSchedule(codes, sticky, ops[1..], key, m);
      TickMovesSchedule(codes, sticky, ops[1..], key, m + 1);
    }
  }

  lemma CheckDefaultKeepsSticky(s: State, op: Op, key: Key)
    requires Inv(s) && BuffersOk(s) && Enabled(s, op) && Step(s, op).Some?
    requires !Alters(op, key) && !CallsStub(op, key)
    ensures Sticky(Step(s, op).value, key) == Sticky(s, key)
  {
    if op.OpCheckDefault? && op.key == key {
      CheckDefaultEffect(s, key);
    } else {
      StepFrame(s, op, ForceFail, key);
    }
  }

  /** Every call of a run gets the code its number is due. */
  lemma {:induction false} RunFollowsSchedule(s: State, ops: seq<Op>, key: Key)
    requires Valid(s) && Legal(s, ops) && forall op | op in ops :: !Alters(op, key)
    ensures CallCodes(s, ops, key) == Scheduled(Codes(s, key), Sticky(s, key), ops, key, 1)
    decreases |ops|
  {
    if ops != [] {
      var op := ops[0];
      var s' := Step(s, op).value;
      StepKeepsValid(s, op);
      RunFollowsSchedule(s', ops[1..], key);
      assert !Alters(op, key);
      if CallsStub(op, key) {
        ChooseCodeEffect(s, key, op.defaultRc);
        CallEffect(s, key, op.defaultRc, op.hookResult);
        TickMovesSchedule(Codes(s, key), Sticky(s, key), ops[1..], key, 1);
      } else {
        StepFrame(s, op, DeferredRc, key);
        CheckDefaultKeepsSticky(s, op, key);
      }
    }
  }
}

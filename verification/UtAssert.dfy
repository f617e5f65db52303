/**
The counters behind the assertions of a test program: one set for the open segment, added to the
totals when the segment ends, both kept in 32-bit words; the exit code drawn from the totals; and
the messages that stop the program before it gets there.
*/
module UtAssert {

  const TWO32 := 0x1_0000_0000
  const ABORT := 1
  const FAILURE := 2
  const TSF := 3
  const TTF := 4
  const PASS := 10
  const MAX_TYPES := 12

  /** What a test program does with the counters; a type is the number of an enumerator, or any
      other number that was cast to one. */
  datatype Op =
    | BeginTest
    | EndTest
    | SetContext(context: nat)
    | Assert(passed: bool)
    | AssertEx(passed: bool, caseType: nat)
    | Message(messageType: nat)

  datatype Count = Count(total: nat, cases: seq<nat>)

  datatype State = State(segment: Count, segments: nat, totals: Count, context: nat)

  function Zeros(): (z: seq<nat>)
    ensures |z| == MAX_TYPES && forall i | 0 <= i < |z| :: z[i] == 0
  {
    seq(MAX_TYPES, i => 0)
  }

  function Empty(): Count {
    Count(0, Zeros())
  }

  function Initial(): State {
    State(Empty(), 0, Empty(), FAILURE)
  }

  predicate Sized(s: State) {
    |s.segment.cases| == MAX_TYPES && |s.totals.cases| == MAX_TYPES
  }

  function Add32(a: nat, b: nat): nat {
    (a + b) % TWO32
  }

  function Sums(a: seq<nat>, b: seq<nat>): (r: seq<nat>)
    requires |a| == |b|
    ensures |r| == |a| && forall i | 0 <= i < |r| :: r[i] == Add32(a[i], b[i])
  {
    seq(|a|, i requires 0 <= i < |a| => Add32(a[i], b[i]))
  }

  /** UtAssertEx: a passed assertion is a PASS whatever type it was given. */
  function Category(passed: bool, caseType: nat): nat {
    if passed then PASS else caseType
  }

  function Counted(c: Count, category: nat): Count
    requires |c.cases| == MAX_TYPES
  {
    Count(Add32(c.total, 1), if category < MAX_TYPES then c.cases[category := Add32(c.cases[category], 1)] else c.cases)
  }

  function Step(s: State, op: Op): (s': State)
    requires Sized(s)
    ensures Sized(s')
  {
    match op
    case BeginTest => s.(segment := Empty())
    case EndTest =>
      if s.segment.total > 0 then
        State(Empty(), Add32(s.segments, 1),
              Count(Add32(s.totals.total, s.segment.total), Sums(s.totals.cases, s.segment.cases)), s.context)
      else s.(segment := Empty())
    case SetContext(context) => s.(context := context)
    case Assert(passed) => s.(segment := Counted(s.segment, Category(passed, s.context)))
    case AssertEx(passed, caseType) => s.(segment := Counted(s.segment, Category(passed, caseType)))
    case Message(messageType) => s
  }

  function Run(s: State, ops: seq<Op>): (s': State)
    requires Sized(s)
    ensures Sized(s')
    decreases |ops|
  {
    if ops == [] then s else Run(Step(s, ops[0]), ops[1..])
  }

  lemma {:induction false} RunAppend(s: State, a: seq<Op>, b: seq<Op>)
    requires Sized(s)
    ensures Run(s, a + b) == Run(Run(s, a), b)
    decreases |a|
  {
    if a == [] {
      assert a + b == b;
    } else {
      assert (a + b)[1..] == a[1..] + b;
      RunAppend(Step(s, a[0]), a[1..], b);
    }
  }

  // ----- where a program stops -----

  /** UT_BSP_DoText takes the type of a message as one byte, and does not return from an ABORT. */
  predicate Fells(messageType: nat) {
    messageType % 256 == ABORT
  }

  /** Every assertion is reported, a failed one under its type. */
  predicate Aborts(op: Op, context: nat) {
    match op
    case Assert(passed) => !passed && Fells(context)
    case AssertEx(passed, caseType) => !passed && Fells(caseType)
    case Message(messageType) => Fells(messageType)
    case _ => false
  }

  function NextContext(op: Op, context: nat): nat {
    if op.SetContext? then op.context else context
  }

  function ContextAfter(ops: seq<Op>, context: nat): nat
    decreases |ops|
  {
    if ops == [] then context else ContextAfter(ops[1..], NextContext(ops[0], context))
  }

  /** A program that means to make these operations gets through all of them. */
  predicate Completes(ops: seq<Op>, context: nat)
    decreases |ops|
  {
    ops == [] || (!Aborts(ops[0], context) && Completes(ops[1..], NextContext(ops[0], context)))
  }

  /** The operations that it does make: up to the one that stops it. */
  function Reached(ops: seq<Op>, context: nat): (r: seq<Op>)
    decreases |ops|
  {
    if ops == [] then []
    else if Aborts(ops[0], context) then [ops[0]]
    else [ops[0]] + Reached(ops[1..], NextContext(ops[0], context))
  }

  lemma {:induction false} ReachedIsPrefix(ops: seq<Op>, context: nat)
    ensures Reached(ops, context) <= ops && (Completes(ops, context) <==> Completes(Reached(ops, context), context))
    ensures Completes(ops, context) ==> Reached(ops, context) == ops
    decreases |ops|
  {
    if ops != [] && !Aborts(ops[0], context) { ReachedIsPrefix(ops[1..], NextContext(ops[0], context)); }
  }

  lemma {:induction false} CompletesAppend(a: seq<Op>, b: seq<Op>, context: nat)
    ensures ContextAfter(a + b, context) == ContextAfter(b, ContextAfter(a, context))
    ensures Completes(a + b, context) <==> Completes(a, context) && Completes(b, ContextAfter(a, context))
    decreases |a|
  {
    if a == [] {
      assert a + b == b;
    } else {
      assert (a + b)[1..] == a[1..] + b;
      CompletesAppend(a[1..], b, NextContext(a[0], context));
    }
  }

  lemma {:induction false} ReachedPast(a: seq<Op>, b: seq<Op>, context: nat)
    requires Completes(a, context)
    ensures Reached(a + b, context) == a + Reached(b, ContextAfter(a, context))
    decreases |a|
  {
    if a == [] {
      assert a + b == b;
      assert [] + Reached(b, context) == Reached(b, context);
    } else {
      assert (a + b)[1..] == a[1..] + b && (a + b)[0] == a[0];
      ReachedPast(a[1..], b, NextContext(a[0], context));
      Regroup(a, Reached(b, ContextAfter(a, context)));
    }
  }

  lemma Regroup(a: seq<Op>, r: seq<Op>)
    requires a != []
    ensures [a[0]] + (a[1..] + r) == a + r
  {
  }

  lemma {:induction false} ReachedWithin(a: seq<Op>, b: seq<Op>, context: nat)
    requires !Completes(a, context)
    ensures Reached(a + b, context) == Reached(a, context)
    decreases |a|
  {
    assert (a + b)[1..] == a[1..] + b && (a + b)[0] == a[0];
    if !Aborts(a[0], context) { ReachedWithin(a[1..], b, NextContext(a[0], context)); }
  }

  lemma {:induction false} RunContext(s: State, ops: seq<Op>)
    requires Sized(s)
    ensures Run(s, ops).context == ContextAfter(ops, s.context)
    decreases |ops|
  {
    if ops != [] { RunContext(Step(s, ops[0]), ops[1..]); }
  }

  /** UT_BSP_EndTest: whether the program exits with an error. */
  predicate ExitsWithError(s: State)
    requires Sized(s)
  {
    s.totals.cases[FAILURE] > 0 || s.totals.cases[TSF] > 0 || s.totals.cases[TTF] > 0
  }

  // ----- the reference: what was asserted -----

  /** The categories of the assertions: in all segments that have ended; in those of them that the
      program adds to its totals; and since the last border. */
  datatype History = History(closed: seq<nat>, added: seq<nat>, open: seq<nat>, segments: nat, context: nat)

  function Note(h: History, op: Op): History {
    match op
    case BeginTest => h.(open := [])
    case EndTest => Ended(h)
    case SetContext(context) => h.(context := context)
    case Assert(passed) => Asserted(h, if passed then PASS else h.context)
    case AssertEx(passed, caseType) => Asserted(h, if passed then PASS else caseType)
    case Message(messageType) => h
  }

  function Asserted(h: History, category: nat): History {
    h.(open := h.open + [category])
  }

  /** A segment of a multiple of 2^32 assertions looks as if it had none, and is not added. */
  function Ended(h: History): History {
    if |h.open| % TWO32 > 0
    then h.(closed := h.closed + h.open, added := h.added + h.open, open := [], segments := h.segments + 1)
    else h.(closed := h.closed + h.open, open := [])
  }

  function Told(h: History, ops: seq<Op>): History
    decreases |ops|
  {
    if ops == [] then h else Told(Note(h, ops[0]), ops[1..])
  }

  lemma {:induction false} ToldAppend(h: History, a: seq<Op>, b: seq<Op>)
    ensures Told(h, a + b) == Told(Told(h, a), b)
    decreases |a|
  {
    if a == [] {
      assert a + b == b;
    } else {
      assert (a + b)[1..] == a[1..] + b;
      ToldAppend(Note(h, a[0]), a[1..], b);
    }
  }

  function Tally(log: seq<nat>, category: nat): nat {
    if log == [] then 0 else Tally(log[..|log| - 1], category) + if log[|log| - 1] == category then 1 else 0
  }

  lemma {:induction false} TallyAppend(a: seq<nat>, b: seq<nat>, category: nat)
    ensures Tally(a + b, category) == Tally(a, category) + Tally(b, category)
    decreases |b|
  {
    if b == [] {
      assert a + b == a;
    } else {
      assert (a + b)[..|a + b| - 1] == a + b[..|b| - 1];
      TallyAppend(a, b[..|b| - 1], category);
    }
  }

  lemma TallyOne(log: seq<nat>, x: nat, category: nat)
    ensures Tally(log + [x], category) == Tally(log, category) + if x == category then 1 else 0
  {
    assert (log + [x])[..|log|] == log;
  }

  predicate CountsOf(c: Count, log: seq<nat>) {
    && |c.cases| == MAX_TYPES && c.total == |log| % TWO32
    && forall t | 0 <= t < MAX_TYPES :: c.cases[t] == Tally(log, t) % TWO32
  }

  predicate Matches(s: State, h: History) {
    && CountsOf(s.segment, h.open) && CountsOf(s.totals, h.added)
    && s.segments == h.segments % TWO32 && s.context == h.context
  }

  lemma EmptyCounts()
    ensures CountsOf(Empty(), [])
  {
  }

  lemma Add32Of(a: nat, b: nat)
    ensures Add32(a % TWO32, b % TWO32) == (a + b) % TWO32
    ensures Add32(a % TWO32, 1) == (a + 1) % TWO32
  {
  }

  lemma CountedCounts(c: Count, log: seq<nat>, category: nat)
    requires CountsOf(c, log)
    ensures CountsOf(Counted(c, category), log + [category])
  {
    forall t | 0 <= t < MAX_TYPES ensures Counted(c, category).cases[t] == Tally(log + [category], t) % TWO32 {
      TallyOne(log, category, t);
      Add32Of(Tally(log, t), 1);
    }
    Add32Of(|log|, 1);
  }

  lemma SumCounts(c: Count, a: seq<nat>, d: Count, b: seq<nat>)
    requires CountsOf(c, a) && CountsOf(d, b)
    ensures CountsOf(Count(Add32(c.total, d.total), Sums(c.cases, d.cases)), a + b)
  {
    forall t | 0 <= t < MAX_TYPES ensures Sums(c.cases, d.cases)[t] == Tally(a + b, t) % TWO32 {
      TallyAppend(a, b, t);
      Add32Of(Tally(a, t), Tally(b, t));
    }
    Add32Of(|a|, |b|);
  }

  lemma StepMatches(s: State, h: History, op: Op)
    requires Matches(s, h)
    ensures Matches(Step(s, op), Note(h, op))
  {
    EmptyCounts();
    match op
    case BeginTest =>
    case EndTest => SumCounts(s.totals, h.added, s.segment, h.open);
    case SetContext(context) =>
    case Assert(passed) => CountedCounts(s.segment, h.open, Category(passed, s.context));
    case AssertEx(passed, caseType) => CountedCounts(s.segment, h.open, Category(passed, caseType));
    case Message(messageType) =>
  }

  lemma {:induction false} RunMatches(s: State, h: History, ops: seq<Op>)
    requires Matches(s, h)
    ensures Matches(Run(s, ops), Told(h, ops))
    decreases |ops|
  {
    if ops != [] {
      StepMatches(s, h, ops[0]);
      RunMatches(Step(s, ops[0]), Note(h, ops[0]), ops[1..]);
    }
  }

  // ----- what the totals say -----

  function Start(): History {
    History([], [], [], 0, FAILURE)
  }

  /** How many assertions a run makes. */
  function Asserts(ops: seq<Op>): nat {
    if ops == [] then 0 else Asserts(ops[1..]) + if ops[0].Assert? || ops[0].AssertEx? then 1 else 0
  }

  /** With fewer than 2^32 assertions, every segment that ends is added. */
  lemma {:induction false} AllAdded(h: History, ops: seq<Op>)
    requires h.added == h.closed && |h.closed| + |h.open| + Asserts(ops) < TWO32
    ensures Told(h, ops).added == Told(h, ops).closed && |Told(h, ops).closed| < TWO32
    decreases |ops|
  {
    if ops != [] { AllAdded(Note(h, ops[0]), ops[1..]); }
  }

  /** How many of a log fall into the first n categories. */
  function Within(log: seq<nat>, n: nat): nat {
    if n == 0 then 0 else Within(log, n - 1) + Tally(log, n - 1)
  }

  lemma {:induction false} WithinOne(log: seq<nat>, x: nat, n: nat)
    ensures Within(log + [x], n) == Within(log, n) + if x < n then 1 else 0
  {
    if n > 0 {
      WithinOne(log, x, n - 1);
      TallyOne(log, x, n - 1);
    }
  }

  /** How many of a log are in none of the categories. */
  function Strays(log: seq<nat>): nat {
    if log == [] then 0 else Strays(log[..|log| - 1]) + if log[|log| - 1] < MAX_TYPES then 0 else 1
  }

  /** Every assertion is in one category or in none. */
  lemma {:induction false} CategoriesPartition(log: seq<nat>)
    ensures Within(log, MAX_TYPES) + Strays(log) == |log|
    decreases |log|
  {
    if log == [] {
      WithinNothing(MAX_TYPES);
    } else {
      var rest, x := log[..|log| - 1], log[|log| - 1];
      assert log == rest + [x];
      CategoriesPartition(rest);
      WithinOne(rest, x, MAX_TYPES);
    }
  }

  lemma {:induction false} StraysBound(log: seq<nat>)
    ensures Strays(log) <= |log|
    ensures Strays(log) == 0 <==> forall c | c in log :: c < MAX_TYPES
    decreases |log|
  {
    if log != [] {
      var rest := log[..|log| - 1];
      assert log == rest + [log[|log| - 1]];
      StraysBound(rest);
      assert log[|log| - 1] in log && forall c | c in rest :: c in log;
    }
  }

  lemma {:induction false} WithinNothing(n: nat)
    ensures Within([], n) == 0
  {
    if n > 0 { WithinNothing(n - 1); }
  }

  function CaseSum(cases: seq<nat>, n: nat): nat
    requires n <= |cases|
  {
    if n == 0 then 0 else CaseSum(cases, n - 1) + cases[n - 1]
  }

  lemma SumOf32(a: nat, b: nat, c: nat, d: nat)
    requires a % TWO32 == c % TWO32 && b == d % TWO32
    ensures (a + b) % TWO32 == (c + d) % TWO32
  {
    Add32Of(a, b);
    Add32Of(c, d);
  }

  lemma {:induction false} CaseSumIsWithin(c: Count, log: seq<nat>, n: nat)
    requires CountsOf(c, log) && n <= MAX_TYPES
    ensures CaseSum(c.cases, n) % TWO32 == Within(log, n) % TWO32
  {
    if n > 0 {
      CaseSumIsWithin(c, log, n - 1);
      SumOf32(CaseSum(c.cases, n - 1), c.cases[n - 1], Within(log, n - 1), Tally(log, n - 1));
    }
  }

  lemma SmallMod(n: nat)
    requires n < TWO32
    ensures n % TWO32 == n
  {
  }

  lemma SumIsTotal(sum: nat, strays: nat, n: nat)
    requires sum % TWO32 == (n - strays) % TWO32 && strays <= n
    ensures (sum + strays) % TWO32 == n % TWO32
    ensures sum % TWO32 == n % TWO32 <==> strays % TWO32 == 0
  {
    SumOf32(sum, strays % TWO32, n - strays, strays);
    Add32Of(sum, strays);
    Add32Of(n - strays, strays);
  }

  lemma CountAddsUp(c: Count, log: seq<nat>)
    requires CountsOf(c, log)
    ensures (CaseSum(c.cases, |c.cases|) + Strays(log)) % TWO32 == c.total
    ensures CaseSum(c.cases, |c.cases|) % TWO32 == c.total <==> Strays(log) % TWO32 == 0
  {
    CaseSumIsWithin(c, log, |c.cases|);
    CategoriesPartition(log);
    SumIsTotal(CaseSum(c.cases, |c.cases|), Strays(log), |log|);
  }

  /** Over any whole run, the case totals and the assertions of no category add up to the total; so
      the case totals alone do exactly when those of no category are none, counted in 32 bits. */
  lemma TotalsAddUp(ops: seq<Op>)
    ensures var s, strays := Run(Initial(), ops), Strays(Told(Start(), ops).added);
            && (CaseSum(s.totals.cases, |s.totals.cases|) + strays) % TWO32 == s.totals.total
            && (CaseSum(s.totals.cases, |s.totals.cases|) % TWO32 == s.totals.total <==> strays % TWO32 == 0)
  {
    RunMatches(Initial(), Start(), ops);
    CountAddsUp(Run(Initial(), ops).totals, Told(Start(), ops).added);
  }

  /** With fewer than 2^32 assertions: exactly when every case type is a real one. */
  lemma TotalsAddUpIffReal(ops: seq<Op>)
    requires Asserts(ops) < TWO32
    ensures var s := Run(Initial(), ops);
            CaseSum(s.totals.cases, |s.totals.cases|) % TWO32 == s.totals.total <==>
            forall c | c in Told(Start(), ops).closed :: c < MAX_TYPES
  {
    var log := Told(Start(), ops).closed;
    TotalsAddUp(ops);
    AllAdded(Start(), ops);
    StraysBound(log);
    SmallMod(Strays(log));
  }

  predicate Fatal(category: nat) {
    category == FAILURE || category == TSF || category == TTF
  }

  lemma {:induction false} TallyBound(log: seq<nat>, category: nat)
    ensures Tally(log, category) <= |log|
    ensures Tally(log, category) > 0 <==> category in log
    decreases |log|
  {
    if log != [] {
      var rest := log[..|log| - 1];
      assert log == rest + [log[|log| - 1]];
      TallyBound(rest, category);
    }
  }

  /** The exit code over any run at all: what it says is whether the 32-bit counts are zero. */
  lemma ExitCode(ops: seq<Op>)
    ensures var log := Told(Start(), ops).added;
            ExitsWithError(Run(Initial(), ops)) <==>
            Tally(log, FAILURE) % TWO32 > 0 || Tally(log, TSF) % TWO32 > 0 || Tally(log, TTF) % TWO32 > 0
  {
    RunMatches(Initial(), Start(), ops);
  }

  /** Some assertion of a segment that has ended failed as FAILURE, TSF or TTF. */
  predicate SomeFatal(h: History) {
    exists c | c in h.closed :: Fatal(c)
  }

  /** With fewer than 2^32 assertions the totals tell whether one of them failed. */
  lemma TotalsTellFailures(ops: seq<Op>)
    requires Asserts(ops) < TWO32
    ensures ExitsWithError(Run(Initial(), ops)) <==> SomeFatal(Told(Start(), ops))
  {
    var log := Told(Start(), ops).closed;
    AllAdded(Start(), ops);
    ExitCode(ops);
    TallyBound(log, FAILURE);
    TallyBound(log, TSF);
    TallyBound(log, TTF);
  }

  // ----- the same in plain terms: places in a run, and what stands there -----

  /** The context at a place: the last one set before it, or the one at the beginning. */
  predicate InForce(ops: seq<Op>, context: nat, i: nat, c: nat)
    requires i <= |ops|
  {
    || (c == context && forall k | 0 <= k < i :: !ops[k].SetContext?)
    || exists k | 0 <= k < i :: ops[k] == SetContext(c) && forall j | k < j < i :: !ops[j].SetContext?
  }

  /** At this place an assertion fails as a type: the one it was given, or the context in force. */
  predicate FailsAt(ops: seq<Op>, context: nat, i: nat, t: nat)
    requires i < |ops|
  {
    ops[i] == AssertEx(false, t) || (ops[i] == Assert(false) && InForce(ops, context, i, t))
  }

  /** What is open at this place is in a segment that ends: the next border is an EndTest. */
  predicate EndsFrom(ops: seq<Op>, i: nat)
    requires i <= |ops|
  {
    exists j | i <= j < |ops| :: ops[j] == EndTest && forall k | i <= k < j :: ops[k] != BeginTest
  }

  /** In a run that begins under a context, an assertion of a segment that ends fails as this type. */
  predicate FailsAs(ops: seq<Op>, context: nat, t: nat) {
    exists i | 0 <= i < |ops| :: FailsAt(ops, context, i, t) && EndsFrom(ops, i + 1)
  }

  /** The same as FAILURE, TSF or TTF. */
  predicate FailsBadly(ops: seq<Op>, context: nat) {
    FailsAs(ops, context, FAILURE) || FailsAs(ops, context, TSF) || FailsAs(ops, context, TTF)
  }

  /** At this place a message is given, or an assertion fails, whose type is ABORT in one byte. */
  ghost predicate HaltsAt(ops: seq<Op>, context: nat, i: nat)
    requires i < |ops|
  {
    || (ops[i].Message? && ops[i].messageType % 256 == ABORT)
    || exists t: nat :: t % 256 == ABORT && FailsAt(ops, context, i, t)
  }

  ghost predicate Halts(ops: seq<Op>, context: nat) {
    exists i | 0 <= i < |ops| :: HaltsAt(ops, context, i)
  }

  lemma InForceLater(ops: seq<Op>, context: nat, i: nat, c: nat)
    requires i < |ops|
    ensures InForce(ops, context, i + 1, c) <==> InForce(ops[1..], NextContext(ops[0], context), i, c)
  {
    var rest, next := ops[1..], NextContext(ops[0], context);
    if InForce(ops, context, i + 1, c) {
      if k :| 0 <= k < i + 1 && ops[k] == SetContext(c) && forall j | k < j < i + 1 :: !ops[j].SetContext? {
        if k > 0 {
          assert rest[k - 1] == SetContext(c) && forall j | k - 1 < j < i :: rest[j] == ops[j + 1];
        } else {
          assert forall j | 0 <= j < i :: rest[j] == ops[j + 1];
        }
      } else {
        assert !ops[0].SetContext? && forall j | 0 <= j < i :: rest[j] == ops[j + 1];
      }
    }
    if InForce(rest, next, i, c) {
      if k :| 0 <= k < i && rest[k] == SetContext(c) && forall j | k < j < i :: !rest[j].SetContext? {
        assert ops[k + 1] == SetContext(c) && forall j | k + 1 < j < i + 1 :: ops[j] == rest[j - 1];
      } else {
        assert forall j | 0 < j < i + 1 :: ops[j] == rest[j - 1];
        if ops[0].SetContext? { assert ops[0] == SetContext(c); }
      }
    }
  }

  lemma FailsAtLater(ops: seq<Op>, context: nat, i: nat, t: nat)
    requires i + 1 < |ops|
    ensures FailsAt(ops, context, i + 1, t) <==> FailsAt(ops[1..], NextContext(ops[0], context), i, t)
  {
    InForceLater(ops, context, i, t);
  }

  lemma EndsFromLater(ops: seq<Op>, i: nat)
    requires i < |ops|
    ensures EndsFrom(ops, i + 1) <==> EndsFrom(ops[1..], i)
  {
    var rest := ops[1..];
    if j :| i + 1 <= j < |ops| && ops[j] == EndTest && forall k | i + 1 <= k < j :: ops[k] != BeginTest {
      assert rest[j - 1] == EndTest && forall k | i <= k < j - 1 :: rest[k] == ops[k + 1];
    }
    if j :| i <= j < |rest| && rest[j] == EndTest && forall k | i <= k < j :: rest[k] != BeginTest {
      assert ops[j + 1] == EndTest && forall k | i + 1 <= k < j + 1 :: ops[k] == rest[k - 1];
    }
  }

  lemma EndsFromFirst(ops: seq<Op>)
    requires ops != []
    ensures EndsFrom(ops, 0) <==> ops[0] == EndTest || (ops[0] != BeginTest && EndsFrom(ops[1..], 0))
  {
    EndsFromLater(ops, 0);
    if j :| 0 <= j < |ops| && ops[j] == EndTest && forall k | 0 <= k < j :: ops[k] != BeginTest {
      if j > 0 { assert ops[0] != BeginTest && EndsFrom(ops, 1); }
    }
    if j :| 1 <= j < |ops| && ops[j] == EndTest && forall k | 1 <= k < j :: ops[k] != BeginTest {
      if ops[0] != BeginTest { assert forall k | 0 <= k < j :: ops[k] != BeginTest; }
    }
  }

  lemma FailsAsFirst(ops: seq<Op>, context: nat, t: nat)
    requires ops != []
    ensures FailsAs(ops, context, t) <==>
            || (FailsAt(ops, context, 0, t) && EndsFrom(ops[1..], 0))
            || FailsAs(ops[1..], NextContext(ops[0], context), t)
  {
    var rest, next := ops[1..], NextContext(ops[0], context);
    EndsFromLater(ops, 0);
    if i :| 0 <= i < |ops| && FailsAt(ops, context, i, t) && EndsFrom(ops, i + 1) {
      if i > 0 {
        FailsAtLater(ops, context, i - 1, t);
        EndsFromLater(ops, i);
        assert FailsAt(rest, next, i - 1, t) && EndsFrom(rest, i - 1 + 1);
      }
    }
    if i :| 0 <= i < |rest| && FailsAt(rest, next, i, t) && EndsFrom(rest, i + 1) {
      FailsAtLater(ops, context, i, t);
      EndsFromLater(ops, i + 1);
      assert FailsAt(ops, context, i + 1, t) && EndsFrom(ops, i + 1 + 1);
    }
    if FailsAt(ops, context, 0, t) && EndsFrom(rest, 0) { assert EndsFrom(ops, 0 + 1); }
  }

  /** What the reference has closed of a type other than PASS: what there was, and what fails as it. */
  lemma {:induction false} ClosedInPlain(h: History, ops: seq<Op>, t: nat)
    requires t != PASS
    ensures t in Told(h, ops).closed <==>
            t in h.closed || (t in h.open && EndsFrom(ops, 0)) || FailsAs(ops, h.context, t)
    decreases |ops|
  {
    if ops != [] {
      ClosedInPlain(Note(h, ops[0]), ops[1..], t);
      EndsFromFirst(ops);
      FailsAsFirst(ops, h.context, t);
      assert FailsAt(ops, h.context, 0, t) <==>
             ops[0] == AssertEx(false, t) || (ops[0] == Assert(false) && t == h.context);
    }
  }

  lemma HaltsFirst(ops: seq<Op>, context: nat)
    requires ops != []
    ensures Halts(ops, context) <==> Aborts(ops[0], context) || Halts(ops[1..], NextContext(ops[0], context))
  {
    var rest, next := ops[1..], NextContext(ops[0], context);
    HaltsAtFirst(ops, context);
    if i :| 0 <= i < |ops| && HaltsAt(ops, context, i) {
      if i > 0 {
        HaltsAtLater(ops, context, i - 1);
        assert HaltsAt(rest, next, i - 1);
      }
    }
    if i :| 0 <= i < |rest| && HaltsAt(rest, next, i) {
      HaltsAtLater(ops, context, i);
      assert HaltsAt(ops, context, i + 1);
    }
  }

  lemma HaltsAtFirst(ops: seq<Op>, context: nat)
    requires ops != []
    ensures HaltsAt(ops, context, 0) <==> Aborts(ops[0], context)
  {
    match ops[0]
    case Assert(passed) => if Aborts(ops[0], context) { assert FailsAt(ops, context, 0, context); }
    case AssertEx(passed, caseType) => if Aborts(ops[0], context) { assert FailsAt(ops, context, 0, caseType); }
    case _ =>
  }

  lemma HaltsAtLater(ops: seq<Op>, context: nat, i: nat)
    requires i + 1 < |ops|
    ensures HaltsAt(ops, context, i + 1) <==> HaltsAt(ops[1..], NextContext(ops[0], context), i)
  {
    var rest, next := ops[1..], NextContext(ops[0], context);
    if t: nat :| t % 256 == ABORT && FailsAt(ops, context, i + 1, t) {
      FailsAtLater(ops, context, i, t);
      assert FailsAt(rest, next, i, t);
    }
    if t: nat :| t % 256 == ABORT && FailsAt(rest, next, i, t) {
      FailsAtLater(ops, context, i, t);
      assert FailsAt(ops, context, i + 1, t);
    }
  }

  /** A program gets through its operations if and only if nothing in them is reported as ABORT. */
  lemma {:induction false} CompletesIffNoneFells(ops: seq<Op>, context: nat)
    ensures Completes(ops, context) <==> !Halts(ops, context)
    decreases |ops|
  {
    if ops != [] {
      HaltsFirst(ops, context);
      if !Aborts(ops[0], context) { CompletesIffNoneFells(ops[1..], NextContext(ops[0], context)); }
    }
  }

  // ----- a part of a run -----

  /** At this place of the first part of a run, with the rest behind it, an assertion of a segment that ends
      fails as this type. */
  predicate FailsWithin(part: seq<Op>, rest: seq<Op>, context: nat, i: nat, t: nat)
    requires i < |part|
  {
    FailsAt(part, context, i, t) && EndsFrom(part[i + 1..] + rest, 0)
  }

  predicate FailsBefore(part: seq<Op>, rest: seq<Op>, context: nat, t: nat) {
    exists i | 0 <= i < |part| :: FailsWithin(part, rest, context, i, t)
  }

  lemma FailsWithinLater(part: seq<Op>, rest: seq<Op>, context: nat, i: nat, t: nat)
    requires i + 1 < |part|
    ensures FailsWithin(part, rest, context, i + 1, t) <==>
            FailsWithin(part[1..], rest, NextContext(part[0], context), i, t)
  {
    FailsAtLater(part, context, i, t);
    assert part[1..][i + 1..] == part[i + 1 + 1..];
  }

  lemma FailsBeforeFirst(part: seq<Op>, rest: seq<Op>, context: nat, t: nat)
    requires part != []
    ensures FailsBefore(part, rest, context, t) <==>
            || (FailsAt(part, context, 0, t) && EndsFrom(part[1..] + rest, 0))
            || FailsBefore(part[1..], rest, NextContext(part[0], context), t)
  {
    var tail, next := part[1..], NextContext(part[0], context);
    assert part[0 + 1..] == tail;
    if i :| 0 <= i < |part| && FailsWithin(part, rest, context, i, t) {
      if i > 0 {
        FailsWithinLater(part, rest, context, i - 1, t);
        assert FailsWithin(tail, rest, next, i - 1, t);
      }
    }
    if i :| 0 <= i < |tail| && FailsWithin(tail, rest, next, i, t) {
      FailsWithinLater(part, rest, context, i, t);
      assert FailsWithin(part, rest, context, i + 1, t);
    }
    if FailsAt(part, context, 0, t) && EndsFrom(tail + rest, 0) { assert FailsWithin(part, rest, context, 0, t); }
  }

  lemma {:induction false} FailsAsParts(part: seq<Op>, rest: seq<Op>, context: nat, t: nat)
    ensures FailsAs(part + rest, context, t) <==>
            FailsBefore(part, rest, context, t) || FailsAs(rest, ContextAfter(part, context), t)
    decreases |part|
  {
    if part == [] {
      assert part + rest == rest;
    } else {
      var ops := part + rest;
      assert ops[1..] == part[1..] + rest && ops[0] == part[0];
      FailsAsFirst(ops, context, t);
      FailsBeforeFirst(part, rest, context, t);
      FailsAsParts(part[1..], rest, NextContext(part[0], context), t);
      assert FailsAt(ops, context, 0, t) <==> FailsAt(part, context, 0, t);
    }
  }

  /** Of what is behind a part only the next border matters. */
  lemma {:induction false} EndsBehind(part: seq<Op>, rest: seq<Op>, rest': seq<Op>)
    requires EndsFrom(rest, 0) <==> EndsFrom(rest', 0)
    ensures EndsFrom(part + rest, 0) <==> EndsFrom(part + rest', 0)
    decreases |part|
  {
    if part == [] {
      assert part + rest == rest && part + rest' == rest';
    } else {
      assert (part + rest)[1..] == part[1..] + rest && (part + rest')[1..] == part[1..] + rest';
      EndsFromFirst(part + rest);
      EndsFromFirst(part + rest');
      EndsBehind(part[1..], rest, rest');
    }
  }

  lemma FailsBehind(part: seq<Op>, rest: seq<Op>, rest': seq<Op>, context: nat, t: nat)
    requires EndsFrom(rest, 0) <==> EndsFrom(rest', 0)
    ensures FailsBefore(part, rest, context, t) <==> FailsBefore(part, rest', context, t)
  {
    forall i | 0 <= i < |part|
      ensures FailsWithin(part, rest, context, i, t) <==> FailsWithin(part, rest', context, i, t)
    {
      EndsBehind(part[i + 1..], rest, rest');
    }
  }

  /** What comes before a BeginTest and what comes after it are apart. */
  lemma FailsApart(part: seq<Op>, rest: seq<Op>, context: nat, t: nat)
    requires rest != [] && rest[0] == BeginTest
    ensures FailsAs(part + rest, context, t) <==>
            FailsAs(part, context, t) || FailsAs(rest, ContextAfter(part, context), t)
  {
    FailsAsParts(part, rest, context, t);
    EndsFromFirst(rest);
    FailsBehind(part, rest, [], context, t);
    FailsAsParts(part, [], context, t);
    assert part + [] == part;
  }

  /** A border or a change of the context alone fails nothing. */
  lemma FailsAfter(op: Op, rest: seq<Op>, context: nat, t: nat)
    requires op.BeginTest? || op.EndTest? || op.SetContext?
    ensures FailsAs([op] + rest, context, t) <==> FailsAs(rest, NextContext(op, context), t)
    ensures Halts([op] + rest, context) <==> Halts(rest, NextContext(op, context))
    ensures op.SetContext? ==> (EndsFrom([op] + rest, 0) <==> EndsFrom(rest, 0))
  {
    var ops := [op] + rest;
    assert ops[1..] == rest;
    FailsAsFirst(ops, context, t);
    HaltsFirst(ops, context);
    EndsFromFirst(ops);
  }

  lemma {:induction false} HaltsParts(part: seq<Op>, rest: seq<Op>, context: nat)
    ensures Halts(part + rest, context) <==> Halts(part, context) || Halts(rest, ContextAfter(part, context))
    decreases |part|
  {
    if part == [] {
      assert part + rest == rest;
    } else {
      var ops := part + rest;
      assert ops[1..] == part[1..] + rest && ops[0] == part[0];
      HaltsFirst(ops, context);
      HaltsFirst(part, context);
      HaltsParts(part[1..], rest, NextContext(part[0], context));
    }
  }

  // ----- one assertion -----

  /** A passed assertion adds one to PASS and to no other case, and stops nothing, whatever its type or the
      context. */
  lemma PassedIsPass(s: State, op: Op)
    requires Sized(s) && (op == Assert(true) || (op.AssertEx? && op.passed))
    ensures var s' := Step(s, op);
            && s'.segment.cases[PASS] == Add32(s.segment.cases[PASS], 1)
            && (forall t | 0 <= t < MAX_TYPES && t != PASS :: s'.segment.cases[t] == s.segment.cases[t])
            && s'.segment.total == Add32(s.segment.total, 1)
            && s'.totals == s.totals && s'.segments == s.segments && s'.context == s.context
    ensures !Aborts(op, s.context)
  {
  }

  /** A failed one adds one to its type, which is the context if it was given none, and to no other case; to
      none at all when that is no case type. */
  lemma FailedIsType(s: State, op: Op, t: nat)
    requires Sized(s) && (op == AssertEx(false, t) || (op == Assert(false) && t == s.context))
    ensures var s' := Step(s, op);
            && (forall u | 0 <= u < MAX_TYPES ::
                  s'.segment.cases[u] == if u == t then Add32(s.segment.cases[u], 1) else s.segment.cases[u])
            && s'.segment.total == Add32(s.segment.total, 1)
            && s'.totals == s.totals && s'.segments == s.segments && s'.context == s.context
    ensures Aborts(op, s.context) <==> t % 256 == ABORT
  {
  }

  // ----- how a program ends -----

  /** A program that means to make these operations is stopped, or gets to its exit code. */
  datatype Exit = Aborted | Exited(error: bool)

  function ExitOf(ops: seq<Op>): Exit {
    if Completes(ops, FAILURE) then Exited(ExitsWithError(Run(Initial(), ops))) else Aborted
  }

  /** What the end of a program is to say: it is stopped exactly when it reports an ABORT, and otherwise
      exits with an error exactly when some assertion of a segment that ends fails as FAILURE, TSF or TTF. */
  ghost predicate ExitIsRight(ops: seq<Op>) {
    match ExitOf(ops)
    case Aborted => Halts(ops, FAILURE)
    case Exited(error) => !Halts(ops, FAILURE) && (error <==> FailsBadly(ops, FAILURE))
  }

  lemma FatalInPlain(ops: seq<Op>)
    ensures SomeFatal(Told(Start(), ops)) <==> FailsBadly(ops, FAILURE)
  {
    ClosedInPlain(Start(), ops, FAILURE);
    ClosedInPlain(Start(), ops, TSF);
    ClosedInPlain(Start(), ops, TTF);
    assert Fatal(FAILURE) && Fatal(TSF) && Fatal(TTF);
  }

  /** That is so for any run of fewer than 2^32 assertions, and for any that is stopped. */
  lemma ExitCodeIsRight(ops: seq<Op>)
    requires Completes(ops, FAILURE) ==> Asserts(ops) < TWO32
    ensures ExitIsRight(ops)
  {
    CompletesIffNoneFells(ops, FAILURE);
    FatalInPlain(ops);
    if Completes(ops, FAILURE) { TotalsTellFailures(ops); }
  }

  lemma {:induction false} AddedIsClosed(h: History, ops: seq<Op>)
    requires forall c | c in h.added :: c in h.closed
    ensures forall c | c in Told(h, ops).added :: c in Told(h, ops).closed
    decreases |ops|
  {
    if ops != [] { AddedIsClosed(Note(h, ops[0]), ops[1..]); }
  }

  /** A program in which every assertion passes and no message is an ABORT exits without an error, however
      many assertions it makes. */
  lemma AllPassExit(ops: seq<Op>)
    requires forall op | op in ops :: (op.Assert? || op.AssertEx?) ==> op.passed
    requires forall op | op in ops && op.Message? :: op.messageType % 256 != ABORT
    ensures ExitOf(ops) == Exited(false)
  {
    var log := Told(Start(), ops).added;
    assert forall i, t: nat | 0 <= i < |ops| :: !FailsAt(ops, FAILURE, i, t);
    CompletesIffNoneFells(ops, FAILURE);
    FatalInPlain(ops);
    AddedIsClosed(Start(), ops);
    assert Fatal(FAILURE) && Fatal(TSF) && Fatal(TTF);
    TallyBound(log, FAILURE);
    TallyBound(log, TSF);
    TallyBound(log, TTF);
    ExitCode(ops);
  }

  /** A failed assertion of type ABORT stops the program, although its totals would make it a success. So
      does one of type 257 or any other that is the same as a byte; those are not even counted under a
      type. */
  lemma AbortIsNoExit(caseType: nat)
    requires Fells(caseType)
    ensures var ops := [BeginTest, AssertEx(false, caseType), EndTest];
            ExitOf(ops) == Aborted && !ExitsWithError(Run(Initial(), ops))
  {
    var ops := [BeginTest, AssertEx(false, caseType), EndTest];
    assert ops[1..] == [AssertEx(false, caseType), EndTest] && ops[1..][1..] == [EndTest] && |ops[1..][1..][1..]| == 0;
    assert !Completes(ops[1..], FAILURE);
    OneAssertion(caseType);
    ExitCode(ops);
  }

  lemma OneAssertion(caseType: nat)
    requires Fells(caseType)
    ensures var h := Told(Start(), [BeginTest, AssertEx(false, caseType), EndTest]);
            && h.closed == [caseType]
            && Tally(h.added, FAILURE) == 0 && Tally(h.added, TSF) == 0 && Tally(h.added, TTF) == 0
  {
    var ops := [BeginTest, AssertEx(false, caseType), EndTest];
    var h := Asserted(Start(), caseType);
    assert ops[1..] == [AssertEx(false, caseType), EndTest] && ops[1..][1..] == [EndTest] && |ops[1..][1..][1..]| == 0;
    assert Told(Start(), ops) == Told(h, [EndTest]) == Ended(h);
    assert Ended(h).closed == Ended(h).added == [caseType] && [caseType][..0] == [];
  }

  // ----- and with 2^32 failures or more, it may be wrong -----

  function Failing(n: nat): seq<Op> {
    if n == 0 then [] else [AssertEx(false, FAILURE)] + Failing(n - 1)
  }

  function Failures(n: nat): (log: seq<nat>)
    ensures |log| == n
  {
    if n == 0 then [] else Failures(n - 1) + [FAILURE]
  }

  lemma {:induction false} FailuresTally(n: nat)
    ensures Tally(Failures(n), FAILURE) == n && Tally(Failures(n), TSF) == 0 && Tally(Failures(n), TTF) == 0
  {
    if n > 0 {
      FailuresTally(n - 1);
      assert Failures(n)[..n - 1] == Failures(n - 1);
    }
  }

  lemma {:induction false} FailingAsserts(n: nat, tail: seq<Op>)
    ensures Asserts(Failing(n) + tail) == n + Asserts(tail)
  {
    var ops := Failing(n) + tail;
    if n == 0 {
      assert ops == tail;
    } else {
      assert ops[0] == AssertEx(false, FAILURE) && ops[1..] == Failing(n - 1) + tail;
      FailingAsserts(n - 1, tail);
    }
  }

  lemma {:induction false} FailingSegment(h: History, done: nat, n: nat, tail: seq<Op>)
    requires h.open == Failures(done) && tail != [] && tail[0] == EndTest
    ensures Told(h, Failing(n) + tail)
            == Told(Ended(h.(open := Failures(done + n))), tail[1..])
    decreases n
  {
    var ops := Failing(n) + tail;
    if n == 0 {
      assert ops == tail;
    } else {
      assert ops[0] == AssertEx(false, FAILURE) && ops[1..] == Failing(n - 1) + tail;
      FailingSegment(Note(h, ops[0]), done + 1, n - 1, tail);
    }
  }

  lemma {:induction false} FailingCompletes(n: nat, tail: seq<Op>, context: nat)
    requires Completes(tail, context)
    ensures Completes(Failing(n) + tail, context)
  {
    var ops := Failing(n) + tail;
    if n == 0 {
      assert ops == tail;
    } else {
      assert ops[0] == AssertEx(false, FAILURE) && ops[1..] == Failing(n - 1) + tail;
      FailingCompletes(n - 1, tail, context);
    }
  }

  /** One segment of n failures. */
  function OneSegment(n: nat): seq<Op> {
    Failing(n) + [EndTest]
  }

  lemma OneFailingSegment(n: nat)
    requires n > 0
    ensures Told(Start(), OneSegment(n)).closed == Failures(n) && Asserts(OneSegment(n)) == n
    ensures Completes(OneSegment(n), FAILURE)
    ensures Told(Start(), OneSegment(n)).added == if n % TWO32 > 0 then Failures(n) else []
  {
    FailingSegment(Start(), 0, n, [EndTest]);
    FailingAsserts(n, [EndTest]);
    assert |[EndTest][1..]| == 0;
    FailingCompletes(n, [EndTest], FAILURE);
  }

  /** One segment of 2^32 failures, or any multiple of it: nothing but failures, and a successful exit. */
  lemma WrapHidesSegment(n: nat)
    requires n > 0 && n % TWO32 == 0
    ensures var ops := OneSegment(n);
            && Asserts(ops) == n && Told(Start(), ops).closed == Failures(n)
            && ExitOf(ops) == Exited(false) && !ExitIsRight(ops)
  {
    OneFailingSegment(n);
    FatalInPlain(OneSegment(n));
    FailuresTally(n);
    TallyBound(Failures(n), FAILURE);
    assert Fatal(FAILURE);
    ExitOfNothing(OneSegment(n));
  }

  lemma ExitOfNothing(ops: seq<Op>)
    requires Told(Start(), ops).added == []
    ensures !ExitsWithError(Run(Initial(), ops))
  {
    ExitCode(ops);
    assert Tally([], FAILURE) == 0 && Tally([], TSF) == 0 && Tally([], TTF) == 0;
  }

  /** The bound on the number of assertions is exact: it makes the exit code right for all runs if
      and only if it is below 2^32. */
  lemma BoundIsExact(n: nat)
    ensures (forall ops | Asserts(ops) <= n :: ExitIsRight(ops)) <==> n < TWO32
  {
    if n < TWO32 {
      forall ops | Asserts(ops) <= n ensures ExitIsRight(ops) { ExitCodeIsRight(ops); }
    } else {
      WrapHidesSegment(TWO32);
      assert Asserts(OneSegment(TWO32)) <= n;
    }
  }

  /** Two segments of n failures each. */
  function TwoSegments(n: nat): seq<Op> {
    Failing(n) + ([EndTest] + (Failing(n) + [EndTest]))
  }

  lemma EndedOnce(h: History, n: nat)
    requires 0 < n < TWO32 && h.open == Failures(n)
    ensures Ended(h) == h.(closed := h.closed + Failures(n), added := h.added + Failures(n), open := [],
                           segments := h.segments + 1)
  {
    SmallMod(n);
  }

  lemma TwoFailingSegments(n: nat)
    requires 0 < n < TWO32
    ensures Told(Start(), TwoSegments(n)).added == Failures(n) + Failures(n)
    ensures Told(Start(), TwoSegments(n)).closed == Failures(n) + Failures(n)
    ensures Completes(TwoSegments(n), FAILURE)
  {
    var last := [EndTest];
    var second := Failing(n) + last;
    var tail := [EndTest] + second;
    assert tail[1..] == second && |last[1..]| == 0;
    FailingSegment(Start(), 0, n, tail);
    var h1 := Start().(open := Failures(n));
    EndedOnce(h1, n);
    var h := Ended(h1);
    FailingSegment(h, 0, n, last);
    EndedOnce(h.(open := Failures(n)), n);
    FailingCompletes(n, last, FAILURE);
    FailingCompletes(n, tail, FAILURE);
  }

  lemma TwiceTally(n: nat, category: nat)
    ensures Tally(Failures(n) + Failures(n), category) == Tally(Failures(n), category) + Tally(Failures(n), category)
  {
    TallyAppend(Failures(n), Failures(n), category);
  }

  /** Two segments of half 2^32 failures each: every segment is added, and still a successful exit. */
  lemma WrapHidesFailures(half: nat)
    requires half + half == TWO32
    ensures var ops := TwoSegments(half);
            && Tally(Told(Start(), ops).closed, FAILURE) == TWO32
            && ExitOf(ops) == Exited(false) && !ExitIsRight(ops)
  {
    TwoFailingSegments(half);
    FatalInPlain(TwoSegments(half));
    TallyBound(Failures(half) + Failures(half), FAILURE);
    assert Fatal(FAILURE);
    FailuresTally(half);
    TwiceTally(half, FAILURE);
    TwiceTally(half, TSF);
    TwiceTally(half, TTF);
    ExitCode(TwoSegments(half));
  }

  // ----- the counters in place -----

  class Counters {
    var segmentTotal: nat
    const segmentCases: array<nat>
    var segments: nat
    var total: nat
    const totalCases: array<nat>
    var context: nat
    /** All operations so far, in order. */
    ghost var done: seq<Op>

    ghost predicate Ok()
    {
      segmentCases.Length == MAX_TYPES && totalCases.Length == MAX_TYPES && segmentCases != totalCases
    }

    ghost function Now(): State
      reads this, segmentCases, totalCases
    {
      State(Count(segmentTotal, segmentCases[..]), segments, Count(total, totalCases[..]), context)
    }

    constructor ()
      ensures Ok() && fresh(segmentCases) && fresh(totalCases)
      ensures Now() == Initial() && done == []
    {
      segmentCases := new nat[MAX_TYPES](i => 0);
      totalCases := new nat[MAX_TYPES](i => 0);
      segmentTotal, segments, total, context, done := 0, 0, 0, FAILURE, [];
      new;
      assert segmentCases[..] == Zeros() && totalCases[..] == Zeros();
    }

    method ClearSegment()
      requires Ok()
      modifies this`segmentTotal, segmentCases
      ensures segmentTotal == 0 && segmentCases[..] == Zeros()
    {
      segmentTotal := 0;
      forall i | 0 <= i < segmentCases.Length {
        segmentCases[i] := 0;
      }
    }

    method UtAssertBeginTest()
      requires Ok()
      modifies this, segmentCases
      ensures Now() == Step(old(Now()), BeginTest) && done == old(done) + [BeginTest]
    {
      ClearSegment();
      done := done + [BeginTest];
    }

    method UtAssertEndTest()
      requires Ok()
      modifies this, segmentCases, totalCases
      ensures Now() == Step(old(Now()), EndTest) && done == old(done) + [EndTest]
    {
      if segmentTotal > 0 {
        segments := Add32(segments, 1);
        total := Add32(total, segmentTotal);
        var t := 0;
        while t < MAX_TYPES
          invariant t <= MAX_TYPES && segmentCases[..] == old(segmentCases[..])
          invariant forall i | 0 <= i < MAX_TYPES ::
                      totalCases[i] == if i < t then Add32(old(totalCases[i]), segmentCases[i]) else old(totalCases[i])
          invariant segments == Add32(old(segments), 1) && total == Add32(old(total), segmentTotal)
          invariant segmentTotal == old(segmentTotal) && context == old(context) && done == old(done)
        {
          totalCases[t] := Add32(totalCases[t], segmentCases[t]);
          t := t + 1;
        }
        assert totalCases[..] == Sums(old(totalCases[..]), old(segmentCases[..]));
      }
      ClearSegment();
      done := done + [EndTest];
    }

    method UtAssertSetContext(context': nat)
      requires Ok()
      modifies this`context, this`done
      ensures Now() == Step(old(Now()), SetContext(context')) && done == old(done) + [SetContext(context')]
    {
      context := context';
      done := done + [SetContext(context')];
    }

    /** Counts the assertion and reports it; not `running` when the report stops the program. */
    method UtAssertEx(passed: bool, caseType: nat) returns (running: bool)
      requires Ok()
      modifies this`segmentTotal, this`done, segmentCases
      ensures Now() == Step(old(Now()), AssertEx(passed, caseType)) && done == old(done) + [AssertEx(passed, caseType)]
      ensures running <==> !Aborts(AssertEx(passed, caseType), old(context))
      ensures running <==> passed || caseType % 256 != ABORT
      ensures forall t | 0 <= t < MAX_TYPES ::
                segmentCases[t] == if t == (if passed then PASS else caseType) then Add32(old(segmentCases[t]), 1)
                                   else old(segmentCases[t])
    {
      segmentTotal := Add32(segmentTotal, 1);
      var category := caseType;
      if passed {
        category := PASS;
      }
      if category < MAX_TYPES {
        segmentCases[category] := Add32(segmentCases[category], 1);
      }
      assert category < MAX_TYPES ==>
          segmentCases[..] == old(segmentCases[..])[category := Add32(old(segmentCases[category]), 1)];
      done := done + [AssertEx(passed, caseType)];
      running := category % 256 != ABORT;
    }

    method UtAssertDefault(passed: bool) returns (running: bool)
      requires Ok()
      modifies this`segmentTotal, this`done, segmentCases
      ensures Now() == Step(old(Now()), Assert(passed)) && done == old(done) + [Assert(passed)]
      ensures running <==> !Aborts(Assert(passed), old(context))
      ensures running <==> passed || context % 256 != ABORT
      ensures forall t | 0 <= t < MAX_TYPES ::
                segmentCases[t] == if t == (if passed then PASS else context) then Add32(old(segmentCases[t]), 1)
                                   else old(segmentCases[t])
    {
      running := UtAssertEx(passed, context);
      done := old(done) + [Assert(passed)];
    }

    /** UtAssert_Message, and UtAssert_Abort for type ABORT. */
    method UtAssertMessage(messageType: nat) returns (running: bool)
      requires Ok()
      modifies this`done
      ensures Now() == Step(old(Now()), Message(messageType)) && done == old(done) + [Message(messageType)]
      ensures running <==> !Aborts(Message(messageType), old(context))
    {
      done := done + [Message(messageType)];
      running := messageType % 256 != ABORT;
    }

    /** One operation; not `running` when it stops the program. */
    method Perform(op: Op) returns (running: bool)
      requires Ok()
      modifies this, segmentCases, totalCases
      ensures Now() == Step(old(Now()), op) && done == old(done) + [op]
      ensures running <==> !Aborts(op, old(context))
    {
      running := true;
      match op
      case BeginTest => UtAssertBeginTest();
      case EndTest => UtAssertEndTest();
      case SetContext(context') => UtAssertSetContext(context');
      case Assert(passed) => running := UtAssertDefault(passed);
      case AssertEx(passed, caseType) => running := UtAssertEx(passed, caseType);
      case Message(messageType) => running := UtAssertMessage(messageType);
    }

    /** The exit code; what it means for a program that has made these operations from its start. */
    method ExitCode() returns (error: bool)
      requires Ok()
      ensures error == ExitsWithError(Now())
      ensures Now() == Run(Initial(), done) && Asserts(done) < TWO32 ==> (error <==> FailsBadly(done, FAILURE))
    {
      error := totalCases[FAILURE] > 0 || totalCases[TSF] > 0 || totalCases[TTF] > 0;
      if Now() == Run(Initial(), done) && Asserts(done) < TWO32 {
        TotalsTellFailures(done);
        FatalInPlain(done);
      }
    }
  }
}

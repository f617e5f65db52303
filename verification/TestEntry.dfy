/**
The run of one entry, told by its three functions: which failures count, under which types, and what
stops the program.
*/
module TestEntry {
  import UtAssert
  import opened TestOrder

  // ----- what some events do with the counters -----

  function Checks(events: seq<Event>): seq<UtAssert.Op> {
    if events == [] then [] else ChecksOf(events[0]) + Checks(events[1..])
  }

  function ChecksOf(e: Event): seq<UtAssert.Op> {
    if e.Check? then [e.op] else []
  }

  lemma ChecksCons(e: Event, rest: seq<Event>)
    ensures Checks([e] + rest) == ChecksOf(e) + Checks(rest)
  {
    assert ([e] + rest)[1..] == rest;
  }

  lemma ChecksOfOne(e: Event)
    ensures Checks([e]) == ChecksOf(e)
  {
    ChecksCons(e, []);
    assert [e] + [] == [e] && ChecksOf(e) + [] == ChecksOf(e);
  }

  lemma {:induction false} ChecksAppend(a: seq<Event>, b: seq<Event>)
    ensures Checks(a + b) == Checks(a) + Checks(b)
    decreases |a|
  {
    if a == [] {
      assert a + b == b;
    } else {
      assert (a + b)[1..] == a[1..] + b;
      ChecksAppend(a[1..], b);
      Assoc(ChecksOf(a[0]), Checks(a[1..]), Checks(b));
    }
  }

  /** Every operation is made, at its place among the others, and a registration makes none. */
  lemma ChecksAre(a: seq<Event>, op: UtAssert.Op, group: nat, entry: Case, b: seq<Event>)
    ensures Checks(a + [Check(op)] + b) == Checks(a) + [op] + Checks(b)
    ensures Checks(a + [Register(group, entry)] + b) == Checks(a) + Checks(b)
  {
    ChecksAppend(a + [Check(op)], b);
    ChecksAppend(a, [Check(op)]);
    ChecksOfOne(Check(op));
    ChecksAppend(a + [Register(group, entry)], b);
    ChecksAppend(a, [Register(group, entry)]);
    ChecksOfOne(Register(group, entry));
    assert Checks(a) + [] == Checks(a);
  }

  /** What a function of an entry does with the counters, if there is one. */
  function Ops(a: Action): seq<UtAssert.Op> {
    match a
    case Absent => []
    case Calls(events) => Checks(events)
  }

  lemma ChecksAroundAction(first: UtAssert.Op, a: Action, before: seq<Event>)
    ensures Checks(before + [Check(first)] + EventsOf(a)) == Checks(before) + ([first] + Ops(a))
  {
    ChecksAppend(before + [Check(first)], EventsOf(a));
    ChecksAppend(before, [Check(first)]);
    ChecksOfOne(Check(first));
    Assoc(Checks(before), [first], Ops(a));
  }

  /** All operations of an entry. */
  lemma EntryOps(c: Case)
    ensures Checks(CaseEvents(c)) ==
            [UtAssert.BeginTest] + ([UtAssert.SetContext(UtAssert.TSF)] + Ops(c.setup))
            + ([UtAssert.SetContext(UtAssert.FAILURE)] + Ops(c.test))
            + ([UtAssert.SetContext(UtAssert.TTF)] + Ops(c.teardown)) + [UtAssert.EndTest]
  {
    var e0 := [Check(UtAssert.BeginTest)];
    var e1 := e0 + [Check(UtAssert.SetContext(UtAssert.TSF))] + EventsOf(c.setup);
    var e2 := e1 + [Check(UtAssert.SetContext(UtAssert.FAILURE))] + EventsOf(c.test);
    var e3 := e2 + [Check(UtAssert.SetContext(UtAssert.TTF))] + EventsOf(c.teardown);
    ChecksOfOne(Check(UtAssert.BeginTest));
    ChecksAroundAction(UtAssert.SetContext(UtAssert.TSF), c.setup, e0);
    ChecksAroundAction(UtAssert.SetContext(UtAssert.FAILURE), c.test, e1);
    ChecksAroundAction(UtAssert.SetContext(UtAssert.TTF), c.teardown, e2);
    ChecksAppend(e3, [Check(UtAssert.EndTest)]);
    ChecksOfOne(Check(UtAssert.EndTest));
    CaseEventsParts(c, e0, e1, e2, e3);
  }

  // ----- what fails -----

  /** An assertion of an entry fails as a type, in a segment that ends: of its setup, begun under TSF, of its
      test, begun under FAILURE, or of its teardown, begun under TTF. */
  predicate EntryFailsAs(c: Case, t: nat) {
    var a, b, d, end := Ops(c.setup), Ops(c.test), Ops(c.teardown), [UtAssert.EndTest];
    || UtAssert.FailsBefore(a, b + (d + end), UtAssert.TSF, t)
    || UtAssert.FailsBefore(b, d + end, UtAssert.FAILURE, t)
    || UtAssert.FailsBefore(d, end, UtAssert.TTF, t)
  }

  predicate EntryFails(c: Case) {
    EntryFailsAs(c, UtAssert.FAILURE) || EntryFailsAs(c, UtAssert.TSF) || EntryFailsAs(c, UtAssert.TTF)
  }

  /** A function of an entry reports an ABORT, under the same contexts. */
  ghost predicate EntryHalts(c: Case) {
    || UtAssert.Halts(Ops(c.setup), UtAssert.TSF) || UtAssert.Halts(Ops(c.test), UtAssert.FAILURE)
    || UtAssert.Halts(Ops(c.teardown), UtAssert.TTF)
  }

  /** What a function does is made under the context that the runner sets before it. */
  lemma PartFails(c: nat, part: seq<UtAssert.Op>, rest: seq<UtAssert.Op>, context: nat, t: nat)
    ensures var ops := [UtAssert.SetContext(c)] + (part + rest);
            && (UtAssert.FailsAs(ops, context, t) <==>
                  UtAssert.FailsBefore(part, rest, c, t) || UtAssert.FailsAs(rest, UtAssert.ContextAfter(part, c), t))
            && (UtAssert.Halts(ops, context) <==>
                  UtAssert.Halts(part, c) || UtAssert.Halts(rest, UtAssert.ContextAfter(part, c)))
            && (UtAssert.EndsFrom(ops, 0) <==> UtAssert.EndsFrom(part + rest, 0))
  {
    UtAssert.FailsAfter(UtAssert.SetContext(c), part + rest, context, t);
    UtAssert.FailsAsParts(part, rest, c, t);
    UtAssert.HaltsParts(part, rest, c);
  }

  lemma EndFails(context: nat, t: nat)
    ensures !UtAssert.FailsAs([UtAssert.EndTest], context, t) && !UtAssert.Halts([UtAssert.EndTest], context)
  {
    UtAssert.FailsAfter(UtAssert.EndTest, [], context, t);
    assert [UtAssert.EndTest] + [] == [UtAssert.EndTest];
  }

  lemma Nested(o: seq<UtAssert.Op>, s: seq<UtAssert.Op>, a: seq<UtAssert.Op>, f: seq<UtAssert.Op>, b: seq<UtAssert.Op>,
               u: seq<UtAssert.Op>, d: seq<UtAssert.Op>, e: seq<UtAssert.Op>)
    ensures o + (s + a) + (f + b) + (u + d) + e == o + (s + (a + (f + (b + (u + (d + e))))))
  {
  }

  /** Exactly that is what the operations of the entry make fail, and what stops the program. */
  lemma EntryInPlain(c: Case, context: nat, t: nat)
    ensures UtAssert.FailsAs(Checks(CaseEvents(c)), context, t) <==> EntryFailsAs(c, t)
    ensures UtAssert.Halts(Checks(CaseEvents(c)), context) <==> EntryHalts(c)
  {
    var a, b, d, end := Ops(c.setup), Ops(c.test), Ops(c.teardown), [UtAssert.EndTest];
    var sa, sb := UtAssert.SetContext(UtAssert.TSF), UtAssert.SetContext(UtAssert.FAILURE);
    var sd := UtAssert.SetContext(UtAssert.TTF);
    var r2 := [sd] + (d + end);
    var r1 := [sb] + (b + r2);
    var r0 := [sa] + (a + r1);
    EntryOps(c);
    Nested([UtAssert.BeginTest], [sa], a, [sb], b, [sd], d, end);
    UtAssert.FailsAfter(UtAssert.BeginTest, r0, context, t);
    PartFails(UtAssert.TSF, a, r1, context, t);
    PartFails(UtAssert.FAILURE, b, r2, UtAssert.ContextAfter(a, UtAssert.TSF), t);
    PartFails(UtAssert.TTF, d, end, UtAssert.ContextAfter(b, UtAssert.FAILURE), t);
    EndFails(UtAssert.ContextAfter(d, UtAssert.TTF), t);
    UtAssert.FailsBehind(b, r2, d + end, UtAssert.FAILURE, t);
    UtAssert.EndsBehind(b, r2, d + end);
    UtAssert.FailsBehind(a, r1, b + (d + end), UtAssert.TSF, t);
  }

  // ----- functions that only assert -----

  predicate OnlyReports(ops: seq<UtAssert.Op>) {
    forall i | 0 <= i < |ops| :: ops[i].Assert? || ops[i].AssertEx? || ops[i].Message?
  }

  lemma {:induction false} EndsAtEnd(ops: seq<UtAssert.Op>, rest: seq<UtAssert.Op>)
    requires OnlyReports(ops) && UtAssert.EndsFrom(rest, 0)
    ensures UtAssert.EndsFrom(ops + rest, 0)
    decreases |ops|
  {
    if ops == [] {
      assert ops + rest == rest;
    } else {
      assert (ops + rest)[1..] == ops[1..] + rest;
      UtAssert.EndsFromFirst(ops + rest);
      EndsAtEnd(ops[1..], rest);
    }
  }

  lemma ReportsFail(ops: seq<UtAssert.Op>, rest: seq<UtAssert.Op>, context: nat, t: nat)
    requires OnlyReports(ops) && UtAssert.EndsFrom(rest, 0)
    ensures UtAssert.FailsBefore(ops, rest, context, t) <==>
            UtAssert.AssertEx(false, t) in ops || (t == context && UtAssert.Assert(false) in ops)
  {
    forall i | 0 <= i < |ops|
      ensures UtAssert.FailsWithin(ops, rest, context, i, t) <==>
              ops[i] == UtAssert.AssertEx(false, t) || (ops[i] == UtAssert.Assert(false) && t == context)
    {
      EndsAtEnd(ops[i + 1..], rest);
    }
  }

  /** For functions that only assert and give messages: a failed UtAssert of the setup is a TSF, one of the
      test a FAILURE and one of the teardown a TTF; a failed assertion with a type is of that type anywhere. */
  lemma PlainEntryFails(c: Case, t: nat)
    requires OnlyReports(Ops(c.setup)) && OnlyReports(Ops(c.test)) && OnlyReports(Ops(c.teardown))
    ensures EntryFailsAs(c, t) <==>
            || (t == UtAssert.TSF && UtAssert.Assert(false) in Ops(c.setup))
            || (t == UtAssert.FAILURE && UtAssert.Assert(false) in Ops(c.test))
            || (t == UtAssert.TTF && UtAssert.Assert(false) in Ops(c.teardown))
            || UtAssert.AssertEx(false, t) in Ops(c.setup) + Ops(c.test) + Ops(c.teardown)
  {
    var a, b, d, end := Ops(c.setup), Ops(c.test), Ops(c.teardown), [UtAssert.EndTest];
    UtAssert.EndsFromFirst(end);
    EndsAtEnd(d, end);
    EndsAtEnd(b, d + end);
    ReportsFail(a, b + (d + end), UtAssert.TSF, t);
    ReportsFail(b, d + end, UtAssert.FAILURE, t);
    ReportsFail(d, end, UtAssert.TTF, t);
  }
}

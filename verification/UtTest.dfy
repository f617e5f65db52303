/**
The test runner on the linked list: it merges the rings of the four groups into one, walks that
ring while the entries it runs may add to it, and destroys the list. What it executes is what the
walk of TestOrder says, up to the first report of an ABORT, which stops the program; a run that is
not stopped leaves no node behind.
*/
module UtTest {
  import UtAssert
  import opened UtList
  import opened TestOrder
  import opened TestEntry

  type Entry = Node<Case>

  // ----- the merged ring -----

  /** The nodes of the groups in one sequence: each head, then what was added to its group. */
  ghost function Chain(heads: seq<Entry>, segs: seq<seq<Entry>>): seq<Entry>
    requires |heads| == |segs|
  {
    if heads == [] then [] else [heads[0]] + segs[0] + Chain(heads[1..], segs[1..])
  }

  lemma {:induction false} ChainSplit(heads: seq<Entry>, segs: seq<seq<Entry>>, s: nat)
    requires |heads| == |segs| && s <= |heads|
    ensures Chain(heads, segs) == Chain(heads[..s], segs[..s]) + Chain(heads[s..], segs[s..])
    decreases s
  {
    if s > 0 {
      ChainSplit(heads[1..], segs[1..], s - 1);
      assert heads[1..][..s - 1] == heads[..s][1..] && segs[1..][..s - 1] == segs[..s][1..];
      assert heads[1..][s - 1..] == heads[s..] && segs[1..][s - 1..] == segs[s..];
    }
  }

  lemma ChainAt(heads: seq<Entry>, segs: seq<seq<Entry>>, s: nat)
    requires |heads| == |segs| && s < |heads|
    ensures Chain(heads, segs)
            == Chain(heads[..s], segs[..s]) + ([heads[s]] + segs[s] + Chain(heads[s + 1..], segs[s + 1..]))
  {
    ChainSplit(heads, segs, s);
    assert heads[s..][1..] == heads[s + 1..] && segs[s..][1..] == segs[s + 1..];
  }

  /** The node that the walk meets at position k of segment s, or after the end of the segment. */
  ghost function Met(heads: seq<Entry>, segs: seq<seq<Entry>>, s: nat, k: nat): Entry
    requires |heads| == |segs| && s < |heads| && k <= |segs[s]|
  {
    if k < |segs[s]| then segs[s][k] else if s + 1 < |heads| then heads[s + 1] else heads[0]
  }

  lemma NextInRing(r: seq<Entry>, a: seq<Entry>, x: Entry, b: seq<Entry>)
    requires Ring(r) && r == a + [x] + b
    ensures x.next == if b != [] then b[0] else r[0]
  {
    assert r[|a|] == x;
    assert Linked(r[|a|], r[Succ(|a|, |r|)]);
  }

  lemma ChainFirst(heads: seq<Entry>, segs: seq<seq<Entry>>)
    requires |heads| == |segs|
    ensures Chain(heads, segs) == [] <==> heads == []
    ensures heads != [] ==> Chain(heads, segs)[0] == heads[0]
  {
  }

  /** What is left of the ring at position k of segment s begins with the node met there. */
  lemma RestFirst(heads: seq<Entry>, segs: seq<seq<Entry>>, s: nat, k: nat)
    requires |heads| == |segs| && s < |heads| && k <= |segs[s]|
    ensures var rest := segs[s][k..] + Chain(heads[s + 1..], segs[s + 1..]);
            Met(heads, segs, s, k) == if rest != [] then rest[0] else heads[0]
  {
    ChainFirst(heads[s + 1..], segs[s + 1..]);
  }

  lemma AfterPrefix(heads: seq<Entry>, segs: seq<seq<Entry>>, s: nat, k: nat, before: seq<Entry>, x: Entry)
    requires |heads| == |segs| && s < |heads| && k <= |segs[s]| && Ring(Chain(heads, segs))
    requires Chain(heads, segs) == before + [x] + (segs[s][k..] + Chain(heads[s + 1..], segs[s + 1..]))
    ensures x.next == Met(heads, segs, s, k)
  {
    NextInRing(Chain(heads, segs), before, x, segs[s][k..] + Chain(heads[s + 1..], segs[s + 1..]));
    RestFirst(heads, segs, s, k);
    ChainFirst(heads, segs);
  }

  lemma SplitHead(a: seq<Entry>, h: Entry, seg: seq<Entry>, c: seq<Entry>)
    ensures a + ([h] + seg + c) == a + [h] + (seg[0..] + c)
  {
  }

  lemma SplitEntry(a: seq<Entry>, h: Entry, seg: seq<Entry>, k: nat, c: seq<Entry>)
    requires k < |seg|
    ensures a + ([h] + seg + c) == (a + [h] + seg[..k]) + [seg[k]] + (seg[k + 1..] + c)
  {
  }

  lemma AfterHead(heads: seq<Entry>, segs: seq<seq<Entry>>, s: nat)
    requires |heads| == |segs| && s < |heads| && Ring(Chain(heads, segs))
    ensures heads[s].next == Met(heads, segs, s, 0)
  {
    var a := Chain(heads[..s], segs[..s]);
    ChainAt(heads, segs, s);
    SplitHead(a, heads[s], segs[s], Chain(heads[s + 1..], segs[s + 1..]));
    AfterPrefix(heads, segs, s, 0, a, heads[s]);
  }

  lemma AfterEntry(heads: seq<Entry>, segs: seq<seq<Entry>>, s: nat, k: nat)
    requires |heads| == |segs| && s < |heads| && k < |segs[s]| && Ring(Chain(heads, segs))
    ensures segs[s][k].next == Met(heads, segs, s, k + 1)
  {
    var a := Chain(heads[..s], segs[..s]);
    ChainAt(heads, segs, s);
    SplitEntry(a, heads[s], segs[s], k, Chain(heads[s + 1..], segs[s + 1..]));
    AfterPrefix(heads, segs, s, k + 1, a + [heads[s]] + segs[s][..k], segs[s][k]);
  }

  // ----- additions -----

  ghost function Grown<T>(segs: seq<seq<T>>, j: nat, x: T): seq<seq<T>>
    requires j < |segs|
  {
    segs[j := segs[j] + [x]]
  }

  lemma {:induction false} ChainLast(heads: seq<Entry>, segs: seq<seq<Entry>>, x: Entry)
    requires |heads| == |segs| && heads != []
    ensures Chain(heads, Grown(segs, |segs| - 1, x)) == Chain(heads, segs) + [x]
    decreases |heads|
  {
    var segs': seq<seq<Entry>> := Grown(segs, |segs| - 1, x);
    var rest, rest' := Chain(heads[1..], segs[1..]), Chain(heads[1..], segs'[1..]);
    if |heads| == 1 {
      assert rest == [] && rest' == [] && segs'[0] == segs[0] + [x];
    } else {
      assert segs'[1..] == Grown(segs[1..], |segs| - 2, x) && segs'[0] == segs[0];
      ChainLast(heads[1..], segs[1..], x);
    }
    LastOf(Chain(heads, segs), Chain(heads, segs'), [heads[0]], segs[0], rest, segs'[0], rest', x);
  }

  lemma LastOf(all: seq<Entry>, all': seq<Entry>, h: seq<Entry>, seg: seq<Entry>, rest: seq<Entry>, seg': seq<Entry>,
               rest': seq<Entry>, x: Entry)
    requires all == h + seg + rest && all' == h + seg' + rest'
    requires (rest == [] && rest' == [] && seg' == seg + [x]) || (rest' == rest + [x] && seg' == seg)
    ensures all' == all + [x]
  {
  }

  /** Inserting before the head of a later group extends the group before it. */
  lemma ChainGrown(heads: seq<Entry>, segs: seq<seq<Entry>>, g: nat, x: Entry)
    requires |heads| == |segs| && 0 < g <= |heads|
    ensures Chain(heads, Grown(segs, g - 1, x)) == Chain(heads[..g], segs[..g]) + [x] + Chain(heads[g..], segs[g..])
  {
    var segs': seq<seq<Entry>> := Grown(segs, g - 1, x);
    ChainSplit(heads, segs', g);
    assert segs'[g..] == segs[g..] && segs'[..g] == Grown(segs[..g], g - 1, x);
    ChainLast(heads[..g], segs[..g], x);
  }

  /** A node has the entry, and the group it was registered with as its tag. */
  ghost predicate Stands(x: Entry, item: Item) {
    x.data == Data(item.entry) && x.tag == item.group
  }

  /** Heads carry nothing, every other node the entry that was registered. */
  ghost predicate Carries(heads: seq<Entry>, segs: seq<seq<Entry>>, cases: seq<seq<Item>>) {
    && |heads| == |segs| == |cases| == GROUPS
    && (forall i | 0 <= i < |heads| :: heads[i].data.NoData?)
    && (forall j | 0 <= j < |segs| :: |segs[j]| == |cases[j]|)
    && (forall j, k | 0 <= j < |segs| && 0 <= k < |segs[j]| :: Stands(segs[j][k], cases[j][k]))
  }

  ghost predicate Exactly(nodes: set<Entry>, ring: seq<Entry>) {
    (forall x | x in ring :: x in nodes) && forall x | x in nodes :: x in ring
  }

  /** The groups are merged into one ring of exactly the nodes that the list keeps. */
  ghost predicate Merged(list: List<Case>, segs: seq<seq<Entry>>, cases: seq<seq<Item>>)
    reads list, list.repr
  {
    && list.live && Carries(list.heads, segs, cases)
    && Exactly(list.repr, Chain(list.heads, segs)) && Intact(Chain(list.heads, segs))
  }

  lemma PrevInRing(r: seq<Entry>, k: nat)
    requires Ring(r) && k < |r|
    ensures r[k].prev in r
  {
    var j := if k > 0 then k - 1 else |r| - 1;
    assert Linked(r[j], r[Succ(j, |r|)]);
  }

  /** Where the head of a group is in the ring. */
  lemma HeadAt(heads: seq<Entry>, segs: seq<seq<Entry>>, g: nat)
    requires |heads| == |segs| && g < |heads|
    ensures var p := |Chain(heads[..g], segs[..g])|;
            && p < |Chain(heads, segs)| && Chain(heads, segs)[p] == heads[g]
            && Chain(heads, segs)[..p] == Chain(heads[..g], segs[..g])
            && Chain(heads, segs)[p..] == Chain(heads[g..], segs[g..])
  {
    ChainSplit(heads, segs, g);
    ChainFirst(heads[g..], segs[g..]);
  }

  /** The ring that results from inserting before the head of a group. */
  lemma RingGrown(heads: seq<Entry>, segs: seq<seq<Entry>>, g: nat, x: Entry)
    requires |heads| == |segs| == GROUPS && g < GROUPS
    requires var r, p := Chain(heads, segs), |Chain(heads[..g], segs[..g])|; p <= |r| && Ring(r[..p] + [x] + r[p..])
    ensures Ring(Chain(heads, Grown(segs, LaneOf(g), x)))
  {
    var r := Chain(heads, segs);
    HeadAt(heads, segs, g);
    if g == 0 {
      assert r[..0] + [x] + r[0..] == [x] + r;
      Rotate([x], r);
      ChainLast(heads, segs, x);
    } else {
      ChainGrown(heads, segs, g, x);
    }
  }

  lemma CarriesGrown(heads: seq<Entry>, segs: seq<seq<Entry>>, cases: seq<seq<Item>>, j: nat, x: Entry, c: Item)
    requires Carries(heads, segs, cases) && j < GROUPS && Stands(x, c)
    ensures Carries(heads, Grown(segs, j, x), Grown(cases, j, c))
  {
  }

  lemma {:induction false} GrownNodes(heads: seq<Entry>, segs: seq<seq<Entry>>, j: nat, x: Entry, y: Entry)
    requires |heads| == |segs| && j < |segs|
    ensures y in Chain(heads, Grown(segs, j, x)) <==> y in Chain(heads, segs) || y == x
    decreases |heads|
  {
    var segs': seq<seq<Entry>> := Grown(segs, j, x);
    if j == 0 {
      assert segs'[1..] == segs[1..] && segs'[0] == segs[0] + [x];
    } else {
      assert segs'[1..] == Grown(segs[1..], j - 1, x) && segs'[0] == segs[0];
      GrownNodes(heads[1..], segs[1..], j - 1, x, y);
    }
    GrownPart([heads[0]], segs[0], Chain(heads[1..], segs[1..]), segs'[0], Chain(heads[1..], segs'[1..]), x, y);
  }

  lemma GrownPart(h: seq<Entry>, seg: seq<Entry>, rest: seq<Entry>, seg': seq<Entry>, rest': seq<Entry>, x: Entry,
                  y: Entry)
    requires (seg' == seg + [x] && rest' == rest) || (seg' == seg && (y in rest' <==> y in rest || y == x))
    ensures y in h + seg' + rest' <==> y in h + seg + rest || y == x
  {
    assert y in h + seg' + rest' <==> y in h || y in seg' || y in rest';
    assert y in h + seg + rest <==> y in h || y in seg || y in rest;
  }

  // ----- what is ahead of the walk -----

  /** From position k of segment s on: the rest of that segment, then the later ones. */
  ghost function AheadOf(cases: seq<seq<Item>>, s: nat, k: nat): seq<seq<Item>>
    requires s < |cases| == GROUPS && k <= |cases[s]|
  {
    [cases[s][k..]] + cases[s + 1..]
  }

  /** The groups after a registration during the run: the entry goes before the head of its group. */
  ghost function With(cases: seq<seq<Item>>, group: nat, entry: Case): (r: seq<seq<Item>>)
    requires |cases| == GROUPS
    ensures |r| == GROUPS
  {
    if group < GROUPS then Grown(cases, LaneOf(group), Item(entry, group, true)) else cases
  }

  ghost function After(cases: seq<seq<Item>>, e: Event): (r: seq<seq<Item>>)
    requires |cases| == GROUPS
    ensures |r| == GROUPS
  {
    match e case Register(group, entry) => With(cases, group, entry) case Check(op) => cases
  }

  /** The groups after some events: all that they register is there, ahead of the walk or behind it. */
  ghost function WithAll(cases: seq<seq<Item>>, events: seq<Event>): (r: seq<seq<Item>>)
    requires |cases| == GROUPS
    ensures |r| == GROUPS
    decreases |events|
  {
    if events == [] then cases
    else
      WithAll(After(cases, events[0]), events[1..])
  }

  /** The groups after the entries of a trace have been run. */
  ghost function WithTrace(cases: seq<seq<Item>>, trace: seq<(Item, nat)>): (r: seq<seq<Item>>)
    requires |cases| == GROUPS
    ensures |r| == GROUPS
    decreases |trace|
  {
    if trace == [] then cases
    else WithAll(WithTrace(cases, trace[..|trace| - 1]), CaseEvents(trace[|trace| - 1].0.entry))
  }

  lemma WithTraceNext(cases: seq<seq<Item>>, trace: seq<(Item, nat)>, x: (Item, nat))
    requires |cases| == GROUPS
    ensures WithTrace(cases, trace + [x]) == WithAll(WithTrace(cases, trace), CaseEvents(x.0.entry))
  {
    assert (trace + [x])[..|trace|] == trace;
  }

  lemma AheadGrown(cases: seq<seq<Item>>, s: nat, k: nat, group: nat, c: Case)
    requires s < |cases| == GROUPS && k <= |cases[s]|
    ensures var grown := With(cases, group, c);
            k <= |grown[s]| && AheadOf(grown, s, k) == Place(AheadOf(cases, s, k), s, group, c)
  {
    var j := LaneOf(group);
    if j == s {
      assert (cases[s] + [Item(c, group, true)])[k..] == cases[s][k..] + [Item(c, group, true)];
    }
  }

  /** Of all that is registered, what the walk will meet. */
  lemma {:induction false} AheadWithAll(cases: seq<seq<Item>>, s: nat, k: nat, events: seq<Event>)
    requires s < |cases| == GROUPS && k <= |cases[s]|
    ensures k <= |WithAll(cases, events)[s]|
    ensures AheadOf(WithAll(cases, events), s, k) == PlaceAll(AheadOf(cases, s, k), s, events)
    decreases |events|
  {
    if events != [] {
      match events[0]
      case Register(group, entry) =>
        AheadGrown(cases, s, k, group, entry);
        AheadWithAll(With(cases, group, entry), s, k, events[1..]);
      case Check(op) =>
        AheadWithAll(cases, s, k, events[1..]);
    }
  }

  /** Every segment keeps its nodes in place. */
  ghost predicate Extends(segs: seq<seq<Entry>>, segs': seq<seq<Entry>>) {
    |segs'| == |segs| && forall j | 0 <= j < |segs| :: segs[j] <= segs'[j]
  }

  lemma AllLiveGrown(r: seq<Entry>, x: Entry, r': seq<Entry>)
    requires AllLive(r) && x.live && forall y | y in r' :: y == x || y in r
    ensures AllLive(r')
  {
    forall i | 0 <= i < |r'| ensures r'[i].live {
      assert r'[i] in r';
    }
  }

  /** The groups are still one ring after a node is inserted before the head of one. */
  lemma MergedGrown(heads: seq<Entry>, segs: seq<seq<Entry>>, cases: seq<seq<Item>>, g: nat, x: Entry, c: Item,
                    nodes: set<Entry>)
    requires Carries(heads, segs, cases) && g < GROUPS && Stands(x, c) && x.live && AllLive(Chain(heads, segs))
    requires Exactly(nodes, Chain(heads, segs))
    requires var r, p := Chain(heads, segs), |Chain(heads[..g], segs[..g])|; p <= |r| && Ring(r[..p] + [x] + r[p..])
    ensures var segs': seq<seq<Entry>> := Grown(segs, LaneOf(g), x);
            && Carries(heads, segs', Grown(cases, LaneOf(g), c)) && Extends(segs, segs') && Intact(Chain(heads, segs'))
            && Exactly(nodes + {x}, Chain(heads, segs'))
  {
    var segs': seq<seq<Entry>> := Grown(segs, LaneOf(g), x);
    RingGrown(heads, segs, g, x);
    CarriesGrown(heads, segs, cases, LaneOf(g), x, c);
    forall y | y in Chain(heads, segs') ensures y == x || y in Chain(heads, segs) {
      GrownNodes(heads, segs, LaneOf(g), x, y);
    }
    forall y | y in Chain(heads, segs) ensures y in Chain(heads, segs') {
      GrownNodes(heads, segs, LaneOf(g), x, y);
    }
    GrownNodes(heads, segs, LaneOf(g), x, x);
    AllLiveGrown(Chain(heads, segs), x, Chain(heads, segs'));
  }

  /** The counters and what was done with them. */
  datatype Book = Book(now: UtAssert.State, done: seq<UtAssert.Op>)

  ghost function BookOf(c: UtAssert.Counters): Book
    reads c, c.segmentCases, c.totalCases
  {
    Book(c.Now(), c.done)
  }

  /** The operations were made, in this order. */
  ghost predicate Made(before: Book, after: Book, ops: seq<UtAssert.Op>) {
    UtAssert.Sized(before.now) && after.now == UtAssert.Run(before.now, ops) && after.done == before.done + ops
  }

  lemma MadeChains(a: Book, b: Book, c: Book, ops1: seq<UtAssert.Op>, ops2: seq<UtAssert.Op>)
    requires Made(a, b, ops1) && Made(b, c, ops2)
    ensures Made(a, c, ops1 + ops2)
  {
    UtAssert.RunAppend(a.now, ops1, ops2);
    Assoc(a.done, ops1, ops2);
  }

  lemma MadeOne(a: Book, b: Book, op: UtAssert.Op)
    requires UtAssert.Sized(a.now) && b.now == UtAssert.Step(a.now, op) && b.done == a.done + [op]
    ensures Made(a, b, [op])
  {
    var ops := [op];
    assert ops[1..] == [];
  }

  // ----- what is reached before the program is stopped -----

  predicate Stops(e: Event, context: nat) {
    e.Check? && UtAssert.Aborts(e.op, context)
  }

  function EventContext(e: Event, context: nat): nat {
    if e.Check? then UtAssert.NextContext(e.op, context) else context
  }

  function ReachedEvents(events: seq<Event>, context: nat): seq<Event>
    decreases |events|
  {
    if events == [] then []
    else if Stops(events[0], context) then [events[0]]
    else [events[0]] + ReachedEvents(events[1..], EventContext(events[0], context))
  }

  /** What the first of some events means for how far they get. */
  lemma ReachedFirst(events: seq<Event>, context: nat)
    requires events != []
    ensures Stops(events[0], context) ==>
              ReachedEvents(events, context) == [events[0]] && !UtAssert.Completes(Checks(events), context)
    ensures !Stops(events[0], context) ==>
              var rest, context' := events[1..], EventContext(events[0], context);
              && ReachedEvents(events, context) == [events[0]] + ReachedEvents(rest, context')
              && (UtAssert.Completes(Checks(events), context) <==> UtAssert.Completes(Checks(rest), context'))
  {
    if events[0].Check? {
      assert Checks(events)[1..] == Checks(events[1..]);
    } else {
      assert Checks(events) == Checks(events[1..]);
    }
  }

  lemma {:induction false} ReachedAll(events: seq<Event>, context: nat)
    requires UtAssert.Completes(Checks(events), context)
    ensures ReachedEvents(events, context) == events
    decreases |events|
  {
    if events != [] {
      ReachedFirst(events, context);
      ReachedAll(events[1..], EventContext(events[0], context));
    }
  }

  lemma {:induction false} ReachedChecks(events: seq<Event>, context: nat)
    ensures Checks(ReachedEvents(events, context)) == UtAssert.Reached(Checks(events), context)
    decreases |events|
  {
    if events != [] {
      var e, rest, context' := events[0], events[1..], EventContext(events[0], context);
      ReachedFirst(events, context);
      ReachedChecks(rest, context');
      if Stops(e, context) {
        ChecksOfOne(e);
      } else {
        ChecksCons(e, ReachedEvents(rest, context'));
        if e.Check? { assert Checks(events)[1..] == Checks(rest); } else { assert Checks(events) == Checks(rest); }
      }
    }
  }

  lemma WithAllCons(cases: seq<seq<Item>>, e: Event, rest: seq<Event>)
    requires |cases| == GROUPS
    ensures WithAll(cases, [e] + rest) == WithAll(After(cases, e), rest)
  {
    assert ([e] + rest)[1..] == rest;
  }

  lemma WithAllOne(cases: seq<seq<Item>>, e: Event)
    requires |cases| == GROUPS
    ensures WithAll(cases, [e]) == After(cases, e)
  {
    WithAllCons(cases, e, []);
    assert [e] + [] == [e];
  }

  // ----- the runner's methods -----

  /** UtTest_AddCommon, while the groups are merged. */
  method AddEntry(list: List<Case>, entry: Case, group: nat, ghost segs: seq<seq<Entry>>, ghost cases: seq<seq<Item>>)
    returns (ghost segs': seq<seq<Entry>>)
    requires Merged(list, segs, cases)
    modifies list`repr, list.repr
    ensures Merged(list, segs', With(cases, group, entry)) && Extends(segs, segs')
    ensures old(list.repr) <= list.repr && fresh(list.repr - old(list.repr))
  {
    ghost var r := Chain(list.heads, segs);
    segs' := segs;
    ghost var p := 0;
    if group < GROUPS {
      p := |Chain(list.heads[..group], segs[..group])|;
      HeadAt(list.heads, segs, group);
      PrevInRing(r, p);
      assert r[p] in r;
    }
    ghost var added := list.Add(entry, group, r, p);
    if group < GROUPS {
      ghost var x := added[0];
      assert added == [x] && AllLive(r);
      segs' := Grown(segs, LaneOf(group), x);
      MergedGrown(list.heads, segs, cases, group, x, Item(entry, group, true), old(list.repr));
    }
  }

  /** The counters are no part of the list. */
  method PerformCheck(list: List<Case>, counters: UtAssert.Counters, op: UtAssert.Op,
                      ghost segs: seq<seq<Entry>>, ghost cases: seq<seq<Item>>)
    returns (running: bool)
    requires counters.Ok() && Merged(list, segs, cases)
    modifies counters, counters.segmentCases, counters.totalCases
    ensures Made(old(BookOf(counters)), BookOf(counters), [op])
    ensures running <==> !UtAssert.Aborts(op, old(counters.context))
    ensures counters.context == UtAssert.NextContext(op, old(counters.context))
    ensures Merged(list, segs, cases) && list.repr == old(list.repr)
  {
    running := counters.Perform(op);
    assert counters.context == counters.Now().context;
    MadeOne(old(BookOf(counters)), BookOf(counters), op);
  }

  /** One thing that the functions of an entry do; not `running` when it stops the program. */
  method RunEvent(list: List<Case>, counters: UtAssert.Counters, event: Event,
                  ghost segs: seq<seq<Entry>>, ghost cases: seq<seq<Item>>)
    returns (running: bool, ghost segs': seq<seq<Entry>>)
    requires Merged(list, segs, cases) && counters.Ok()
    modifies list`repr, list.repr, counters, counters.segmentCases, counters.totalCases
    ensures Merged(list, segs', After(cases, event)) && Extends(segs, segs')
    ensures old(list.repr) <= list.repr && fresh(list.repr - old(list.repr))
    ensures Made(old(BookOf(counters)), BookOf(counters), ChecksOf(event))
    ensures running <==> !Stops(event, old(counters.context))
    ensures counters.context == EventContext(event, old(counters.context))
  {
    running, segs' := true, segs;
    match event
    case Register(group, entry) =>
      segs' := AddEntry(list, entry, group, segs, cases);
    case Check(op) =>
      running := PerformCheck(list, counters, op, segs, cases);
  }

  /** What the functions of an entry do, in order, until the program is stopped. */
  method RunEvents(list: List<Case>, counters: UtAssert.Counters, events: seq<Event>,
                   ghost segs: seq<seq<Entry>>, ghost cases: seq<seq<Item>>)
    returns (running: bool, ghost segs': seq<seq<Entry>>)
    requires Merged(list, segs, cases) && counters.Ok()
    modifies list`repr, list.repr, counters, counters.segmentCases, counters.totalCases
    ensures Merged(list, segs', WithAll(cases, ReachedEvents(events, old(counters.context)))) && Extends(segs, segs')
    ensures old(list.repr) <= list.repr && fresh(list.repr - old(list.repr))
    ensures Made(old(BookOf(counters)), BookOf(counters), Checks(ReachedEvents(events, old(counters.context))))
    ensures running <==> UtAssert.Completes(Checks(events), old(counters.context))
    decreases |events|
  {
    running, segs' := true, segs;
    if events != [] {
      ghost var before, context := BookOf(counters), counters.context;
      ReachedFirst(events, context);
      ghost var segs1;
      running, segs1 := RunEvent(list, counters, events[0], segs, cases);
      segs' := segs1;
      if running {
        ghost var between, reached := BookOf(counters), ReachedEvents(events[1..], EventContext(events[0], context));
        running, segs' := RunEvents(list, counters, events[1..], segs1, After(cases, events[0]));
        ExtendsChains(segs, segs1, segs');
        WithAllCons(cases, events[0], reached);
        ChecksCons(events[0], reached);
        MadeChains(before, between, BookOf(counters), ChecksOf(events[0]), Checks(reached));
      } else {
        WithAllOne(cases, events[0]);
        ChecksOfOne(events[0]);
      }
    }
  }

  lemma ExtendsChains(a: seq<seq<Entry>>, b: seq<seq<Entry>>, c: seq<seq<Entry>>)
    requires Extends(a, b) && Extends(b, c)
    ensures Extends(a, c)
  {
    forall j | 0 <= j < |a| ensures a[j] <= c[j] {
      assert a[j] <= b[j] && b[j] <= c[j];
    }
  }

  // ----- the walk -----

  lemma WalkEntry(cases: seq<seq<Item>>, s: nat, k: nat)
    requires s < |cases| == GROUPS && k < |cases[s]|
    ensures var next := PlaceAll(AheadOf(cases, s, k + 1), s, CaseEvents(cases[s][k].entry));
            && Walk(AheadOf(cases, s, k), s) == [(cases[s][k], s)] + Walk(next, s)
            && Weight(next) < Weight(AheadOf(cases, s, k))
  {
    var lanes := AheadOf(cases, s, k);
    assert lanes[0 := lanes[0][1..]] == AheadOf(cases, s, k + 1);
    StepWeight(lanes, s);
  }

  lemma WalkBorder(cases: seq<seq<Item>>, s: nat)
    requires s + 1 < |cases| == GROUPS
    ensures Walk(AheadOf(cases, s, |cases[s]|), s) == Walk(AheadOf(cases, s + 1, 0), s + 1)
    ensures Weight(AheadOf(cases, s + 1, 0)) <= Weight(AheadOf(cases, s, |cases[s]|))
  {
    var lanes := AheadOf(cases, s, |cases[s]|);
    assert lanes[1..] == AheadOf(cases, s + 1, 0);
    LaterWeight(lanes);
  }

  lemma WalkEnd(cases: seq<seq<Item>>)
    requires |cases| == GROUPS
    ensures Walk(AheadOf(cases, GROUPS - 1, |cases[GROUPS - 1]|), GROUPS - 1) == []
  {
  }

  lemma HeadsDiffer(heads: seq<Entry>, segs: seq<seq<Entry>>, g: nat)
    requires |heads| == |segs| && 0 < g < |heads| && Distinct(Chain(heads, segs))
    ensures heads[g] != heads[0]
  {
    var r, p := Chain(heads, segs), |Chain(heads[..g], segs[..g])|;
    HeadAt(heads, segs, g);
    ChainFirst(heads[..g], segs[..g]);
    ChainFirst(heads, segs);
    assert r[0] != r[p];
  }

  /** What the node met by the walk tells: an entry, the head of the next group, or the end. */
  lemma MetNode(heads: seq<Entry>, segs: seq<seq<Entry>>, cases: seq<seq<Item>>, s: nat, k: nat)
    requires Carries(heads, segs, cases) && Distinct(Chain(heads, segs)) && s < GROUPS && k <= |segs[s]|
    ensures var node := Met(heads, segs, s, k);
            && (k < |segs[s]| ==> node == segs[s][k] && Stands(node, cases[s][k]) && node != heads[0])
            && (k == |segs[s]| && s + 1 < GROUPS ==> node == heads[s + 1] && node.data.NoData? && node != heads[0])
            && (k == |segs[s]| && s + 1 == GROUPS ==> node == heads[0])
  {
    if s + 1 < GROUPS { HeadsDiffer(heads, segs, s + 1); }
  }

  function AllChecks(trace: seq<(Item, nat)>): seq<UtAssert.Op> {
    if trace == [] then [] else AllChecks(trace[..|trace| - 1]) + Checks(CaseEvents(trace[|trace| - 1].0.entry))
  }

  function Tested(c: Case): nat {
    if c.test.Calls? then 1 else 0
  }

  function Tests(trace: seq<(Item, nat)>): nat {
    if trace == [] then 0 else Tests(trace[..|trace| - 1]) + Tested(trace[|trace| - 1].0.entry)
  }

  lemma TraceGrows(trace: seq<(Item, nat)>, x: (Item, nat))
    ensures AllChecks(trace + [x]) == AllChecks(trace) + Checks(CaseEvents(x.0.entry))
    ensures Tests(trace + [x]) == Tests(trace) + Tested(x.0.entry)
  {
    assert (trace + [x])[..|trace|] == trace;
  }

  lemma {:induction false} WithAllAppend(cases: seq<seq<Item>>, a: seq<Event>, b: seq<Event>)
    requires |cases| == GROUPS
    ensures WithAll(cases, a + b) == WithAll(WithAll(cases, a), b)
    decreases |a|
  {
    if a == [] {
      assert a + b == b;
    } else {
      assert (a + b)[1..] == a[1..] + b;
      WithAllAppend(After(cases, a[0]), a[1..], b);
    }
  }

  lemma {:induction false} ReachedEventsPast(a: seq<Event>, b: seq<Event>, context: nat)
    requires UtAssert.Completes(Checks(a), context)
    ensures ReachedEvents(a + b, context) == a + ReachedEvents(b, UtAssert.ContextAfter(Checks(a), context))
    decreases |a|
  {
    if a == [] {
      assert a + b == b;
      assert [] + ReachedEvents(b, context) == ReachedEvents(b, context);
    } else {
      assert (a + b)[1..] == a[1..] + b && (a + b)[0] == a[0];
      ReachedFirst(a, context);
      ReachedEventsPast(a[1..], b, EventContext(a[0], context));
      ContextOfFirst(a, context);
      assert a == [a[0]] + a[1..];
      Assoc([a[0]], a[1..], ReachedEvents(b, UtAssert.ContextAfter(Checks(a), context)));
    }
  }

  lemma ContextOfFirst(events: seq<Event>, context: nat)
    requires events != []
    ensures UtAssert.ContextAfter(Checks(events), context) ==
            UtAssert.ContextAfter(Checks(events[1..]), EventContext(events[0], context))
  {
    if events[0].Check? {
      assert Checks(events)[1..] == Checks(events[1..]);
    } else {
      assert Checks(events) == Checks(events[1..]);
    }
  }

  lemma {:induction false} ReachedEventsWithin(a: seq<Event>, b: seq<Event>, context: nat)
    requires !UtAssert.Completes(Checks(a), context)
    ensures ReachedEvents(a + b, context) == ReachedEvents(a, context)
    decreases |a|
  {
    assert (a + b)[1..] == a[1..] + b && (a + b)[0] == a[0];
    ReachedFirst(a, context);
    if !Stops(a[0], context) { ReachedEventsWithin(a[1..], b, EventContext(a[0], context)); }
  }

  lemma {:induction false} ReachedEventsIsPrefix(events: seq<Event>, context: nat)
    ensures ReachedEvents(events, context) <= events
    decreases |events|
  {
    if events != [] && !Stops(events[0], context) {
      ReachedEventsIsPrefix(events[1..], EventContext(events[0], context));
    }
  }

  /** So much of an entry's run has been done, without or up to a report that stops the program. */
  ghost predicate Done(list: List<Case>, segs: seq<seq<Entry>>, cases: seq<seq<Item>>, before: Book, after: Book,
                       running: bool, done: seq<Event>)
    reads list, list.repr
  {
    && |cases| == GROUPS && Merged(list, segs, WithAll(cases, done)) && Made(before, after, Checks(done))
    && DoneEvents(running, done, before.now.context)
  }

  ghost predicate DoneEvents(running: bool, done: seq<Event>, context: nat) {
    (running <==> UtAssert.Completes(Checks(done), context)) && ReachedEvents(done, context) == done
  }

  /** What a part of the run adds to what was done. */
  lemma PartDone(done: seq<Event>, part: seq<Event>, reached: seq<Event>, context: nat, running: bool)
    requires DoneEvents(true, done, context)
    requires reached == ReachedEvents(part, UtAssert.ContextAfter(Checks(done), context))
    requires running <==> UtAssert.Completes(Checks(part), UtAssert.ContextAfter(Checks(done), context))
    ensures DoneEvents(running, done + reached, context) && done + reached <= done + part
    ensures running ==> reached == part
  {
    var c := UtAssert.ContextAfter(Checks(done), context);
    ReachedEventsIsPrefix(part, c);
    ReachedChecks(part, c);
    UtAssert.ReachedIsPrefix(Checks(part), c);
    if running { ReachedAll(part, c); }
    ChecksAppend(done, reached);
    UtAssert.CompletesAppend(Checks(done), Checks(reached), context);
    ReachedEventsPast(done, reached, context);
    ReachedAgain(part, c);
  }

  lemma {:induction false} ReachedAgain(events: seq<Event>, context: nat)
    ensures ReachedEvents(ReachedEvents(events, context), context) == ReachedEvents(events, context)
    decreases |events|
  {
    if events != [] && !Stops(events[0], context) {
      var rest := ReachedEvents(events[1..], EventContext(events[0], context));
      ReachedAgain(events[1..], EventContext(events[0], context));
      assert ([events[0]] + rest)[1..] == rest;
    }
  }

  /** What is done of an entry's run is what is reached of it. */
  lemma DoneIsReached(all: seq<Event>, done: seq<Event>, context: nat, running: bool)
    requires DoneEvents(running, done, context) && done <= all && (running ==> done == all)
    ensures ReachedEvents(all, context) == done && (running <==> UtAssert.Completes(Checks(all), context))
  {
    if !running {
      var rest := all[|done|..];
      assert all == done + rest;
      ReachedEventsWithin(done, rest, context);
      ChecksAppend(done, rest);
      UtAssert.CompletesAppend(Checks(done), Checks(rest), context);
    }
  }

  /** An operation of the runner, which never stops the program. */
  method RunOp(list: List<Case>, counters: UtAssert.Counters, op: UtAssert.Op,
               ghost segs: seq<seq<Entry>>, ghost cases: seq<seq<Item>>, ghost before: Book, ghost done: seq<Event>)
    requires Done(list, segs, cases, before, BookOf(counters), true, done) && counters.Ok()
    requires op.BeginTest? || op.EndTest? || op.SetContext?
    modifies counters, counters.segmentCases, counters.totalCases
    ensures Done(list, segs, cases, before, BookOf(counters), true, done + [Check(op)]) && list.repr == old(list.repr)
  {
    ghost var now, context := BookOf(counters), before.now.context;
    var running := PerformCheck(list, counters, op, segs, WithAll(cases, done));
    assert running;
    ChecksOfOne(Check(op));
    MadeContext(before, now, Checks(done));
    MadeChains(before, now, BookOf(counters), Checks(done), [op]);
    ChecksAppend(done, [Check(op)]);
    WithAllAppend(cases, done, [Check(op)]);
    WithAllOne(WithAll(cases, done), Check(op));
    assert [op][1..] == [];
    PartDone(done, [Check(op)], [Check(op)], context, true);
  }

  /** A function of an entry, if there is one, until the program is stopped. */
  method RunAction(list: List<Case>, counters: UtAssert.Counters, action: Action,
                   ghost segs: seq<seq<Entry>>, ghost cases: seq<seq<Item>>, ghost before: Book, ghost done: seq<Event>)
    returns (running: bool, ghost segs': seq<seq<Entry>>, ghost done': seq<Event>)
    requires Done(list, segs, cases, before, BookOf(counters), true, done) && counters.Ok()
    modifies list`repr, list.repr, counters, counters.segmentCases, counters.totalCases
    ensures Done(list, segs', cases, before, BookOf(counters), running, done') && Extends(segs, segs')
    ensures done' <= done + EventsOf(action) && (running ==> done' == done + EventsOf(action))
    ensures old(list.repr) <= list.repr && fresh(list.repr - old(list.repr))
  {
    running, segs', done' := true, segs, done;
    if action.Calls? {
      ghost var now, c := BookOf(counters), counters.context;
      ghost var reached := ReachedEvents(action.events, c);
      MadeContext(before, now, Checks(done));
      running, segs' := RunEvents(list, counters, action.events, segs, WithAll(cases, done));
      MadeChains(before, now, BookOf(counters), Checks(done), Checks(reached));
      ChecksAppend(done, reached);
      WithAllAppend(cases, done, reached);
      PartDone(done, action.events, reached, before.now.context, running);
      done' := done + reached;
    }
  }

  lemma MadeNothing(b: Book)
    requires UtAssert.Sized(b.now)
    ensures Made(b, b, Checks([]))
  {
    assert b.done + [] == b.done;
  }

  /** A function of an entry under a context of its own. */
  method RunPart(list: List<Case>, counters: UtAssert.Counters, context: nat, action: Action,
                 ghost segs: seq<seq<Entry>>, ghost cases: seq<seq<Item>>, ghost before: Book, ghost done: seq<Event>)
    returns (running: bool, ghost segs': seq<seq<Entry>>, ghost done': seq<Event>)
    requires Done(list, segs, cases, before, BookOf(counters), true, done) && counters.Ok()
    modifies list`repr, list.repr, counters, counters.segmentCases, counters.totalCases
    ensures Done(list, segs', cases, before, BookOf(counters), running, done') && Extends(segs, segs')
    ensures var all := done + [Check(UtAssert.SetContext(context))] + EventsOf(action);
            done' <= all && (running ==> done' == all)
    ensures old(list.repr) <= list.repr && fresh(list.repr - old(list.repr))
  {
    RunOp(list, counters, UtAssert.SetContext(context), segs, cases, before, done);
    running, segs', done' := RunAction(list, counters, action, segs, cases, before,
                                       done + [Check(UtAssert.SetContext(context))]);
  }

  /** What is left of an entry's run: one more part of it was done, and the rest after it if it was. */
  lemma PartOfAll(done: seq<Event>, part: seq<Event>, rest: seq<Event>, all: seq<Event>)
    requires done <= part && all == part + rest
    ensures done <= all
  {
  }

  /** The last part of an entry's run. */
  method RunTeardown(list: List<Case>, counters: UtAssert.Counters, entry: Case, ghost segs: seq<seq<Entry>>,
                     ghost cases: seq<seq<Item>>, ghost before: Book, ghost done: seq<Event>, ghost all: seq<Event>)
    returns (running: bool, ghost segs': seq<seq<Entry>>, ghost done': seq<Event>)
    requires Done(list, segs, cases, before, BookOf(counters), true, done) && counters.Ok()
    requires all == (done + [Check(UtAssert.SetContext(UtAssert.TTF))] + EventsOf(entry.teardown))
                    + [Check(UtAssert.EndTest)]
    modifies list`repr, list.repr, counters, counters.segmentCases, counters.totalCases
    ensures Done(list, segs', cases, before, BookOf(counters), running, done') && Extends(segs, segs')
    ensures done' <= all && (running ==> done' == all)
    ensures old(list.repr) <= list.repr && fresh(list.repr - old(list.repr))
  {
    running, segs', done' := RunPart(list, counters, UtAssert.TTF, entry.teardown, segs, cases, before, done);
    if running {
      RunOp(list, counters, UtAssert.EndTest, segs', cases, before, done');
      done' := done' + [Check(UtAssert.EndTest)];
    } else {
      PartOfAll(done', done + [Check(UtAssert.SetContext(UtAssert.TTF))] + EventsOf(entry.teardown),
                [Check(UtAssert.EndTest)], all);
    }
  }

  /** The part before it. */
  method RunTest(list: List<Case>, counters: UtAssert.Counters, entry: Case, ghost segs: seq<seq<Entry>>,
                 ghost cases: seq<seq<Item>>, ghost before: Book, ghost done: seq<Event>, ghost e2: seq<Event>,
                 ghost all: seq<Event>)
    returns (running: bool, tested: nat, ghost segs': seq<seq<Entry>>, ghost done': seq<Event>)
    requires Done(list, segs, cases, before, BookOf(counters), true, done) && counters.Ok()
    requires e2 == done + [Check(UtAssert.SetContext(UtAssert.FAILURE))] + EventsOf(entry.test)
    requires all == (e2 + [Check(UtAssert.SetContext(UtAssert.TTF))] + EventsOf(entry.teardown))
                    + [Check(UtAssert.EndTest)]
    modifies list`repr, list.repr, counters, counters.segmentCases, counters.totalCases
    ensures Done(list, segs', cases, before, BookOf(counters), running, done') && Extends(segs, segs')
    ensures done' <= all && (running ==> done' == all)
    ensures running ==> tested == if entry.test.Calls? then 1 else 0
    ensures old(list.repr) <= list.repr && fresh(list.repr - old(list.repr))
  {
    tested := 0;
    ghost var segs1;
    running, segs1, done' := RunPart(list, counters, UtAssert.FAILURE, entry.test, segs, cases, before, done);
    segs' := segs1;
    if running {
      if entry.test.Calls? {
        tested := 1;
      }
      running, segs', done' := RunTeardown(list, counters, entry, segs1, cases, before, e2, all);
      ExtendsChains(segs, segs1, segs');
    } else {
      PartOfAll(done', e2, all[|e2|..], all);
    }
  }

  /** An entry's run up to the end of its setup, and up to the end of its test. */
  ghost function AfterSetup(c: Case): seq<Event> {
    [Check(UtAssert.BeginTest)] + [Check(UtAssert.SetContext(UtAssert.TSF))] + EventsOf(c.setup)
  }

  ghost function AfterTest(c: Case): seq<Event> {
    AfterSetup(c) + [Check(UtAssert.SetContext(UtAssert.FAILURE))] + EventsOf(c.test)
  }

  lemma AllParts(c: Case)
    ensures CaseEvents(c) == (AfterTest(c) + [Check(UtAssert.SetContext(UtAssert.TTF))] + EventsOf(c.teardown))
                             + [Check(UtAssert.EndTest)]
    ensures AfterSetup(c) <= CaseEvents(c)
  {
    var e3 := AfterTest(c) + [Check(UtAssert.SetContext(UtAssert.TTF))] + EventsOf(c.teardown);
    CaseEventsParts(c, [Check(UtAssert.BeginTest)], AfterSetup(c), AfterTest(c), e3);
  }

  /** The first part of an entry's run. */
  method RunSetup(list: List<Case>, counters: UtAssert.Counters, entry: Case,
                  ghost segs: seq<seq<Entry>>, ghost cases: seq<seq<Item>>, ghost before: Book)
    returns (running: bool, ghost segs': seq<seq<Entry>>, ghost done: seq<Event>)
    requires Merged(list, segs, cases) && counters.Ok() && before == BookOf(counters)
    modifies list`repr, list.repr, counters, counters.segmentCases, counters.totalCases
    ensures Done(list, segs', cases, before, BookOf(counters), running, done) && Extends(segs, segs')
    ensures done <= CaseEvents(entry) && (running ==> done == AfterSetup(entry))
    ensures old(list.repr) <= list.repr && fresh(list.repr - old(list.repr))
  {
    MadeNothing(before);
    RunOp(list, counters, UtAssert.BeginTest, segs, cases, before, []);
    assert [] + [Check(UtAssert.BeginTest)] == [Check(UtAssert.BeginTest)];
    running, segs', done := RunPart(list, counters, UtAssert.TSF, entry.setup, segs, cases, before,
                                    [Check(UtAssert.BeginTest)]);
    AllParts(entry);
    PartOfAll(done, AfterSetup(entry), CaseEvents(entry)[|AfterSetup(entry)|..], CaseEvents(entry));
  }

  /** The body of the loop of UtTest_Run: a segment, in which the functions of the entry are called, each under
      a context of its own, until the program is stopped. */
  method RunFunctions(list: List<Case>, counters: UtAssert.Counters, entry: Case,
                      ghost segs: seq<seq<Entry>>, ghost cases: seq<seq<Item>>)
    returns (running: bool, tested: nat, ghost segs': seq<seq<Entry>>)
    requires Merged(list, segs, cases) && counters.Ok()
    modifies list`repr, list.repr, counters, counters.segmentCases, counters.totalCases
    ensures Merged(list, segs', WithAll(cases, ReachedEvents(CaseEvents(entry), old(counters.context))))
    ensures Extends(segs, segs') && old(list.repr) <= list.repr && fresh(list.repr - old(list.repr))
    ensures Made(old(BookOf(counters)), BookOf(counters),
                 UtAssert.Reached(Checks(CaseEvents(entry)), old(counters.context)))
    ensures running <==> UtAssert.Completes(Checks(CaseEvents(entry)), old(counters.context))
    ensures running ==> tested == if entry.test.Calls? then 1 else 0
  {
    ghost var before, all, segs1, done := BookOf(counters), CaseEvents(entry), segs, [];
    ghost var e1, e2 := AfterSetup(entry), AfterTest(entry);
    AllParts(entry);
    tested := 0;
    running, segs1, done := RunSetup(list, counters, entry, segs, cases, before);
    segs' := segs1;
    if running {
      running, tested, segs', done := RunTest(list, counters, entry, segs1, cases, before, e1, e2, all);
      ExtendsChains(segs, segs1, segs');
    }
    DoneIsReached(all, done, before.now.context, running);
    ReachedChecks(all, before.now.context);
  }

  lemma EntryCompletes(c: Case, context: nat)
    ensures UtAssert.Completes(Checks(CaseEvents(c)), context) <==> !EntryHalts(c)
  {
    UtAssert.CompletesIffNoneFells(Checks(CaseEvents(c)), context);
    EntryInPlain(c, context, 0);
  }

  /** One entry is run: the walk stands at position k of segment s and moves on to k + 1, unless the
      program is stopped. */
  method RunEntry(list: List<Case>, counters: UtAssert.Counters, node: Entry,
                  ghost segs: seq<seq<Entry>>, ghost cases: seq<seq<Item>>, ghost s: nat, ghost k: nat)
    returns (running: bool, tested: nat, ghost segs': seq<seq<Entry>>)
    requires Merged(list, segs, cases) && counters.Ok() && s < GROUPS && k < |segs[s]| && node == segs[s][k]
    modifies list`repr, list.repr, counters, counters.segmentCases, counters.totalCases
    ensures Merged(list, segs', WithAll(cases, ReachedEvents(CaseEvents(cases[s][k].entry), old(counters.context))))
    ensures Extends(segs, segs') && old(list.repr) <= list.repr && fresh(list.repr - old(list.repr))
    ensures Made(old(BookOf(counters)), BookOf(counters),
                 UtAssert.Reached(Checks(CaseEvents(cases[s][k].entry)), old(counters.context)))
    ensures running <==> UtAssert.Completes(Checks(CaseEvents(cases[s][k].entry)), old(counters.context))
    ensures running <==> !EntryHalts(cases[s][k].entry)
    ensures running ==> tested == if cases[s][k].entry.test.Calls? then 1 else 0
    ensures k + 1 <= |segs'[s]| && node.next == Met(list.heads, segs', s, k + 1)
  {
    assert Stands(node, cases[s][k]);
    EntryCompletes(cases[s][k].entry, counters.context);
    running, tested, segs' := RunFunctions(list, counters, node.data.value, segs, cases);
    assert segs'[s][k] == node;
    AfterEntry(list.heads, segs', s, k);
  }

  /** What running an entry does to the walk ahead. */
  lemma EntryOnWalk(cases: seq<seq<Item>>, s: nat, k: nat)
    requires s < |cases| == GROUPS && k < |cases[s]|
    ensures var cases' := WithAll(cases, CaseEvents(cases[s][k].entry));
            && k + 1 <= |cases'[s]|
            && Walk(AheadOf(cases, s, k), s) == [(cases[s][k], s)] + Walk(AheadOf(cases', s, k + 1), s)
            && Weight(AheadOf(cases', s, k + 1)) < Weight(AheadOf(cases, s, k))
  {
    WalkEntry(cases, s, k);
    AheadWithAll(cases, s, k + 1, CaseEvents(cases[s][k].entry));
  }

  lemma Shift<T>(a: seq<T>, x: T, b: seq<T>)
    ensures (a + [x]) + b == a + ([x] + b)
  {
  }

  lemma Start(cases: seq<seq<Item>>)
    requires |cases| == GROUPS
    ensures AheadOf(cases, 0, 0) == cases
  {
  }

  /** The counters, what was done with them in order, and the number of executed tests after a trace. */
  ghost predicate Accounts(before: Book, after: Book, executed: nat, trace: seq<(Item, nat)>) {
    Made(before, after, AllChecks(trace)) && executed == Tests(trace) % UtAssert.TWO32
  }

  lemma TestsNext(executed: nat, n: nat, c: Case)
    requires executed == n % UtAssert.TWO32
    ensures UtAssert.Add32(executed, Tested(c)) == (n + Tested(c)) % UtAssert.TWO32
  {
    UtAssert.Add32Of(n, Tested(c));
    UtAssert.SmallMod(Tested(c));
  }

  lemma AccountsNext(before: Book, now: Book, executed: nat, trace: seq<(Item, nat)>, x: (Item, nat), now': Book)
    requires Accounts(before, now, executed, trace) && Made(now, now', Checks(CaseEvents(x.0.entry)))
    ensures Accounts(before, now', UtAssert.Add32(executed, Tested(x.0.entry)), trace + [x])
  {
    TraceGrows(trace, x);
    MadeChains(before, now, now', AllChecks(trace), Checks(CaseEvents(x.0.entry)));
    TestsNext(executed, Tests(trace), x.0.entry);
  }

  /** The walk so far and the walk ahead make up the whole walk. */
  ghost predicate OnTrack(trace: seq<(Item, nat)>, cases: seq<seq<Item>>, s: nat, k: nat, all: seq<(Item, nat)>) {
    s < |cases| == GROUPS && k <= |cases[s]| && trace + Walk(AheadOf(cases, s, k), s) == all
  }

  lemma OnTrackNext(trace: seq<(Item, nat)>, cases: seq<seq<Item>>, s: nat, k: nat, all: seq<(Item, nat)>,
                    x: (Item, nat), cases': seq<seq<Item>>)
    requires OnTrack(trace, cases, s, k, all) && |cases'| == GROUPS && k + 1 <= |cases'[s]|
    requires Walk(AheadOf(cases, s, k), s) == [x] + Walk(AheadOf(cases', s, k + 1), s)
    ensures OnTrack(trace + [x], cases', s, k + 1, all)
  {
    Shift(trace, x, Walk(AheadOf(cases', s, k + 1), s));
  }

  lemma OnTrackBorder(trace: seq<(Item, nat)>, cases: seq<seq<Item>>, s: nat, all: seq<(Item, nat)>)
    requires s + 1 < |cases| == GROUPS && OnTrack(trace, cases, s, |cases[s]|, all)
    ensures OnTrack(trace, cases, s + 1, 0, all)
    ensures Weight(AheadOf(cases, s + 1, 0)) <= Weight(AheadOf(cases, s, |cases[s]|))
  {
    WalkBorder(cases, s);
  }

  lemma OnTrackEnd(trace: seq<(Item, nat)>, cases: seq<seq<Item>>, s: nat, k: nat, all: seq<(Item, nat)>)
    requires OnTrack(trace, cases, s, k, all) && s + 1 == GROUPS && k == |cases[s]|
    ensures trace == all
  {
    WalkEnd(cases);
  }

  /** Where a walk stands, and what it has executed and has still ahead. */
  datatype Cursor = Cursor(segs: seq<seq<Entry>>, cases: seq<seq<Item>>, s: nat, k: nat, trace: seq<(Item, nat)>)

  ghost predicate Walking(list: List<Case>, first: Cursor, c: Cursor, node: Entry)
    reads list, list.repr
  {
    && Merged(list, c.segs, c.cases) && Extends(first.segs, c.segs)
    && Stand(list.heads, first, c, node)
  }

  /** The walk has run a part of what it has to run, and stands at this node. */
  ghost predicate Stand(heads: seq<Entry>, first: Cursor, c: Cursor, node: Entry)
    requires |heads| == |c.segs|
  {
    && |first.cases| == GROUPS && OnTrack(c.trace, c.cases, c.s, c.k, Walk(first.cases, 0))
    && c.s < |c.segs| && c.k <= |c.segs[c.s]| && node == Met(heads, c.segs, c.s, c.k)
    && c.cases == WithTrace(first.cases, c.trace)
  }

  ghost function Left(c: Cursor): nat {
    if c.s < |c.cases| == GROUPS && c.k <= |c.cases[c.s]| then Weight(AheadOf(c.cases, c.s, c.k)) else 0
  }

  /** The place of the walk after an entry was run. */
  ghost function Next(c: Cursor, segs': seq<seq<Entry>>): Cursor
    requires |c.cases| == GROUPS && c.s < GROUPS && c.k < |c.cases[c.s]|
  {
    var x := c.cases[c.s][c.k];
    Cursor(segs', WithAll(c.cases, CaseEvents(x.entry)), c.s, c.k + 1, c.trace + [(x, c.s)])
  }

  lemma NextOnTrack(first: Cursor, c: Cursor, segs': seq<seq<Entry>>)
    requires |first.cases| == GROUPS && OnTrack(c.trace, c.cases, c.s, c.k, Walk(first.cases, 0))
             && c.k < |c.cases[c.s]|
    requires c.cases == WithTrace(first.cases, c.trace)
    ensures var c' := Next(c, segs');
            && OnTrack(c'.trace, c'.cases, c'.s, c'.k, Walk(first.cases, 0)) && Left(c') < Left(c)
            && c'.cases == WithTrace(first.cases, c'.trace)
  {
    var x := (c.cases[c.s][c.k], c.s);
    EntryOnWalk(c.cases, c.s, c.k);
    OnTrackNext(c.trace, c.cases, c.s, c.k, Walk(first.cases, 0), x, WithAll(c.cases, CaseEvents(x.0.entry)));
    WithTraceNext(first.cases, c.trace, x);
  }

  lemma WalkingNext(list: List<Case>, first: Cursor, c: Cursor, segs': seq<seq<Entry>>, next: Entry)
    requires |first.cases| == GROUPS && OnTrack(c.trace, c.cases, c.s, c.k, Walk(first.cases, 0))
             && c.k < |c.cases[c.s]|
    requires c.cases == WithTrace(first.cases, c.trace) && Extends(first.segs, c.segs) && Extends(c.segs, segs')
    requires Merged(list, segs', WithAll(c.cases, CaseEvents(c.cases[c.s][c.k].entry)))
    requires c.s < |segs'| && c.k + 1 <= |segs'[c.s]| && next == Met(list.heads, segs', c.s, c.k + 1)
    ensures Walking(list, first, Next(c, segs'), next) && Left(Next(c, segs')) < Left(c)
  {
    NextOnTrack(first, c, segs');
    ExtendsChains(first.segs, c.segs, segs');
  }

  /** The operations of the entries run so far, and those that the next one gets to. */
  ghost function OpsUpTo(trace: seq<(Item, nat)>, c: Case, context: nat): seq<UtAssert.Op> {
    AllChecks(trace) + UtAssert.Reached(Checks(CaseEvents(c)), UtAssert.ContextAfter(AllChecks(trace), context))
  }

  /** An entry is run and accounted for. */
  method CountEntry(list: List<Case>, counters: UtAssert.Counters, node: Entry, executed: nat, ghost c: Cursor,
                    ghost before: Book)
    returns (running: bool, executed': nat, ghost segs': seq<seq<Entry>>)
    requires Merged(list, c.segs, c.cases) && counters.Ok()
    requires c.s < GROUPS && c.k < |c.segs[c.s]| && node == c.segs[c.s][c.k]
    requires Accounts(before, BookOf(counters), executed, c.trace)
    modifies list`repr, list.repr, counters, counters.segmentCases, counters.totalCases
    ensures Merged(list, segs',
                   WithAll(c.cases, ReachedEvents(CaseEvents(c.cases[c.s][c.k].entry), old(counters.context))))
    ensures Extends(c.segs, segs') && old(list.repr) <= list.repr && fresh(list.repr - old(list.repr))
    ensures running <==> UtAssert.Completes(Checks(CaseEvents(c.cases[c.s][c.k].entry)), old(counters.context))
    ensures old(counters.context) == UtAssert.ContextAfter(AllChecks(c.trace), before.now.context)
    ensures Made(before, BookOf(counters), OpsUpTo(c.trace, c.cases[c.s][c.k].entry, before.now.context))
    ensures running ==> Accounts(before, BookOf(counters), executed', c.trace + [(c.cases[c.s][c.k], c.s)])
    ensures c.k + 1 <= |segs'[c.s]| && node.next == Met(list.heads, segs', c.s, c.k + 1)
  {
    ghost var now, entry := BookOf(counters), c.cases[c.s][c.k].entry;
    ghost var ops := UtAssert.Reached(Checks(CaseEvents(entry)), counters.context);
    MadeContext(before, now, AllChecks(c.trace));
    var tested;
    running, tested, segs' := RunEntry(list, counters, node, c.segs, c.cases, c.s, c.k);
    executed' := UtAssert.Add32(executed, tested);
    MadeChains(before, now, BookOf(counters), AllChecks(c.trace), ops);
    if running {
      UtAssert.ReachedIsPrefix(Checks(CaseEvents(entry)), now.now.context);
      AccountsNext(before, now, executed, c.trace, (c.cases[c.s][c.k], c.s), BookOf(counters));
    }
  }

  lemma MadeContext(before: Book, after: Book, ops: seq<UtAssert.Op>)
    requires Made(before, after, ops)
    ensures after.now.context == UtAssert.ContextAfter(ops, before.now.context)
  {
    UtAssert.RunContext(before.now, ops);
  }

  /** The program was stopped by the entry that comes after the trace. */
  ghost predicate Halted(first: Cursor, before: Book, after: Book, c: Cursor) {
    && |first.cases| == GROUPS
    && var all := Walk(first.cases, 0);
       && |c.trace| < |all| && c.trace == all[..|c.trace|]
       && var entry, context := all[|c.trace|].0.entry, UtAssert.ContextAfter(AllChecks(c.trace), before.now.context);
          && !UtAssert.Completes(Checks(CaseEvents(entry)), context)
          && Made(before, after, OpsUpTo(c.trace, entry, before.now.context))
          && c.cases == WithAll(WithTrace(first.cases, c.trace), ReachedEvents(CaseEvents(entry), context))
  }

  lemma TrackAhead(trace: seq<(Item, nat)>, cases: seq<seq<Item>>, s: nat, k: nat, all: seq<(Item, nat)>)
    requires OnTrack(trace, cases, s, k, all) && k < |cases[s]|
    ensures |trace| < |all| && trace == all[..|trace|] && all[|trace|] == (cases[s][k], s)
  {
    EntryOnWalk(cases, s, k);
  }

  /** The walk is at an entry: it is run. */
  method WalkEntryNode(list: List<Case>, counters: UtAssert.Counters, node: Entry, executed: nat,
                       ghost first: Cursor, ghost c: Cursor, ghost before: Book)
    returns (running: bool, executed': nat, ghost c': Cursor)
    requires Walking(list, first, c, node) && counters.Ok() && node.data.Data?
    requires Accounts(before, BookOf(counters), executed, c.trace)
    requires UtAssert.Completes(AllChecks(c.trace), before.now.context)
    modifies list`repr, list.repr, counters, counters.segmentCases, counters.totalCases
    ensures old(list.repr) <= list.repr && fresh(list.repr - old(list.repr))
    ensures running ==> Walking(list, first, c', node.next) && c'.s == c.s && Left(c') < Left(c)
    ensures running ==> Accounts(before, BookOf(counters), executed', c'.trace)
    ensures running ==> UtAssert.Completes(AllChecks(c'.trace), before.now.context)
    ensures Merged(list, c'.segs, c'.cases) && Extends(first.segs, c'.segs)
    ensures !running ==> Halted(first, before, BookOf(counters), c') && c'.trace == c.trace
  {
    MetNode(list.heads, c.segs, c.cases, c.s, c.k);
    ghost var x, context := (c.cases[c.s][c.k], c.s), counters.context;
    ghost var segs';
    running, executed', segs' := CountEntry(list, counters, node, executed, c, before);
    if running {
      ReachedAll(CaseEvents(x.0.entry), context);
      c' := Next(c, segs');
      WalkingNext(list, first, c, segs', node.next);
      TraceCompletes(c.trace, x, before.now.context);
    } else {
      TrackAhead(c.trace, c.cases, c.s, c.k, Walk(first.cases, 0));
      ExtendsChains(first.segs, c.segs, segs');
      c' := c.(segs := segs', cases := WithAll(c.cases, ReachedEvents(CaseEvents(x.0.entry), context)));
    }
  }

  lemma TraceCompletes(trace: seq<(Item, nat)>, x: (Item, nat), context: nat)
    requires UtAssert.Completes(AllChecks(trace), context)
    requires UtAssert.Completes(Checks(CaseEvents(x.0.entry)), UtAssert.ContextAfter(AllChecks(trace), context))
    ensures UtAssert.Completes(AllChecks(trace + [x]), context)
  {
    TraceGrows(trace, x);
    UtAssert.CompletesAppend(AllChecks(trace), Checks(CaseEvents(x.0.entry)), context);
  }

  /** The walk is at the head of the next group: it is passed over. */
  lemma WalkHeadNode(list: List<Case>, first: Cursor, c: Cursor, node: Entry)
    requires Walking(list, first, c, node) && node.data.NoData? && node != list.heads[0]
    ensures var c' := c.(s := c.s + 1, k := 0); Walking(list, first, c', node.next) && Left(c') <= Left(c)
  {
    MetNode(list.heads, c.segs, c.cases, c.s, c.k);
    OnTrackBorder(c.trace, c.cases, c.s, Walk(first.cases, 0));
    AfterHead(list.heads, c.segs, c.s + 1);
  }

  lemma WalkDone(list: List<Case>, first: Cursor, c: Cursor)
    requires list.heads != [] && Walking(list, first, c, list.heads[0])
    ensures c.trace == Walk(first.cases, 0)
  {
    MetNode(list.heads, c.segs, c.cases, c.s, c.k);
    OnTrackEnd(c.trace, c.cases, c.s, c.k, Walk(first.cases, 0));
  }

  lemma WalkStarts(list: List<Case>, first: Cursor)
    requires Merged(list, first.segs, first.cases) && first.s == 0 && first.k == 0 && first.trace == []
    ensures Walking(list, first, first, list.heads[0].next)
  {
    Start(first.cases);
    AfterHead(list.heads, first.segs, 0);
  }

  lemma {:induction false} AllChecksAppend(a: seq<(Item, nat)>, b: seq<(Item, nat)>)
    ensures AllChecks(a + b) == AllChecks(a) + AllChecks(b)
    decreases |b|
  {
    if b == [] {
      assert a + b == a;
      assert AllChecks(a) + [] == AllChecks(a);
    } else {
      var n := |b| - 1;
      assert (a + b)[..|a + b| - 1] == a + b[..n];
      AllChecksAppend(a, b[..n]);
      Assoc(AllChecks(a), AllChecks(b[..n]), Checks(CaseEvents(b[n].0.entry)));
    }
  }

  lemma SplitAt<T>(all: seq<T>, n: nat)
    requires n < |all|
    ensures all == (all[..n] + [all[n]]) + all[n + 1..]
  {
  }

  /** A walk gets as far as its first entry that does not complete. */
  lemma WalkStopsAt(all: seq<(Item, nat)>, n: nat, context: nat)
    requires n < |all| && UtAssert.Completes(AllChecks(all[..n]), context)
    requires !UtAssert.Completes(Checks(CaseEvents(all[n].0.entry)),
                                 UtAssert.ContextAfter(AllChecks(all[..n]), context))
    ensures !UtAssert.Completes(AllChecks(all), context)
    ensures UtAssert.Reached(AllChecks(all), context) == OpsUpTo(all[..n], all[n].0.entry, context)
  {
    var a, x, rest := all[..n], all[n], all[n + 1..];
    var ops, later := Checks(CaseEvents(x.0.entry)), AllChecks(rest);
    SplitAt(all, n);
    AllChecksAppend(a + [x], rest);
    TraceGrows(a, x);
    Assoc(AllChecks(a), ops, later);
    UtAssert.CompletesAppend(AllChecks(a), ops + later, context);
    UtAssert.CompletesAppend(ops, later, UtAssert.ContextAfter(AllChecks(a), context));
    UtAssert.ReachedPast(AllChecks(a), ops + later, context);
    UtAssert.ReachedWithin(ops, later, UtAssert.ContextAfter(AllChecks(a), context));
  }

  lemma HaltedReached(first: Cursor, before: Book, after: Book, c: Cursor)
    requires Halted(first, before, after, c) && UtAssert.Completes(AllChecks(c.trace), before.now.context)
    ensures !UtAssert.Completes(AllChecks(Walk(first.cases, 0)), before.now.context)
    ensures Made(before, after, UtAssert.Reached(AllChecks(Walk(first.cases, 0)), before.now.context))
  {
    WalkStopsAt(Walk(first.cases, 0), |c.trace|, before.now.context);
  }

  /** What the walk has done when it comes to a node, or when the program was stopped. */
  ghost predicate Underway(list: List<Case>, first: Cursor, before: Book, after: Book,
                           running: bool, executed: nat, c: Cursor, node: Entry)
    reads list, list.repr
  {
    && Merged(list, c.segs, c.cases) && Extends(first.segs, c.segs)
    && UtAssert.Completes(AllChecks(c.trace), before.now.context)
    && (running ==> Stand(list.heads, first, c, node) && Accounts(before, after, executed, c.trace))
  }

  /** At most how many rounds the loop has still to go. */
  ghost function Rounds(running: bool, c: Cursor): nat {
    if running && c.s <= GROUPS then 1 + Left(c) * (GROUPS + 1) + GROUPS - c.s else 0
  }

  /** One round of the loop. */
  method WalkNode(list: List<Case>, counters: UtAssert.Counters, node: Entry, executed: nat,
                  ghost first: Cursor, ghost c: Cursor, ghost before: Book)
    returns (running: bool, node': Entry, executed': nat, ghost c': Cursor)
    requires Underway(list, first, before, BookOf(counters), true, executed, c, node) && counters.Ok()
    requires node != list.heads[0]
    modifies list`repr, list.repr, counters, counters.segmentCases, counters.totalCases
    ensures old(list.repr) <= list.repr && fresh(list.repr - old(list.repr))
    ensures Underway(list, first, before, BookOf(counters), running, executed', c', node')
    ensures Rounds(running, c') < Rounds(true, c)
    ensures !running ==> Halted(first, before, BookOf(counters), c')
  {
    if node.data.Data? {
      running, executed', c' := WalkEntryNode(list, counters, node, executed, first, c, before);
    } else {
      WalkHeadNode(list, first, c, node);
      running, executed', c' := true, executed, c.(s := c.s + 1, k := 0);
    }
    node' := node.next;
  }

  /** The loop of UtTest_Run over the merged ring. */
  method WalkLoop(list: List<Case>, counters: UtAssert.Counters, ghost first: Cursor, ghost before: Book)
    returns (running: bool, node: Entry, executed: nat, ghost c: Cursor)
    requires Merged(list, first.segs, first.cases) && first.s == 0 && first.k == 0 && first.trace == []
    requires counters.Ok() && before == BookOf(counters)
    modifies list`repr, list.repr, counters, counters.segmentCases, counters.totalCases
    ensures old(list.repr) <= list.repr && fresh(list.repr - old(list.repr))
    ensures Underway(list, first, before, BookOf(counters), running, executed, c, node)
    ensures running ==> node == list.heads[0]
    ensures !running ==> Halted(first, before, BookOf(counters), c)
  {
    running, node, executed, c := true, list.heads[0].next, 0, first;
    assert Underway(list, first, before, BookOf(counters), true, 0, first, node) by { WalkStarts(list, first); }
    ghost var kept := list.repr;
    while running && node != list.heads[0]
      invariant kept <= list.repr && fresh(list.repr - kept)
      invariant Underway(list, first, before, BookOf(counters), running, executed, c, node)
      invariant !running ==> Halted(first, before, BookOf(counters), c)
      decreases Rounds(running, c)
    {
      ghost var c1 := c;
      running, node, executed, c := WalkNode(list, counters, node, executed, first, c1, before);
    }
  }

  lemma WalkEnds(list: List<Case>, first: Cursor, before: Book, after: Book, running: bool, executed: nat, c: Cursor,
                 node: Entry)
    requires Underway(list, first, before, after, running, executed, c, node) && |first.cases| == GROUPS
    requires running ==> node == list.heads[0]
    requires !running ==> Halted(first, before, after, c)
    ensures running <==> UtAssert.Completes(AllChecks(Walk(first.cases, 0)), before.now.context)
    ensures Merged(list, c.segs, c.cases) && Extends(first.segs, c.segs)
    ensures Made(before, after, UtAssert.Reached(AllChecks(Walk(first.cases, 0)), before.now.context))
    ensures running ==> c.trace == Walk(first.cases, 0) && c.cases == WithTrace(first.cases, c.trace)
    ensures running ==> Accounts(before, after, executed, c.trace)
    ensures !running ==> Halted(first, before, after, c)
  {
    if running {
      WalkDone(list, first, c);
      UtAssert.ReachedIsPrefix(AllChecks(c.trace), before.now.context);
    } else {
      HaltedReached(first, before, after, c);
    }
  }

  /** The loop may grow the ring while it walks it: it executes the entries of the walk in their order,
      and all that they register is in the ring at its end; or it does so up to the point where the
      program is stopped. */
  method WalkRing(list: List<Case>, counters: UtAssert.Counters, ghost segs: seq<seq<Entry>>,
                  ghost cases: seq<seq<Item>>)
    returns (running: bool, executed: nat, ghost c: Cursor)
    requires Merged(list, segs, cases) && counters.Ok()
    modifies list`repr, list.repr, counters, counters.segmentCases, counters.totalCases
    ensures running <==> UtAssert.Completes(AllChecks(Walk(cases, 0)), old(counters.context))
    ensures running <==> !SomeHalts(Walk(cases, 0))
    ensures Merged(list, c.segs, c.cases) && Extends(segs, c.segs)
    ensures old(list.repr) <= list.repr && fresh(list.repr - old(list.repr))
    ensures Made(old(BookOf(counters)), BookOf(counters),
                 UtAssert.Reached(AllChecks(Walk(cases, 0)), old(counters.context)))
    ensures running ==> c.trace == Walk(cases, 0) && c.cases == WithTrace(cases, c.trace)
    ensures running ==> Accounts(old(BookOf(counters)), BookOf(counters), executed, c.trace)
    ensures !running ==> Halted(Cursor(segs, cases, 0, 0, []), old(BookOf(counters)), BookOf(counters), c)
  {
    ghost var before, first := BookOf(counters), Cursor(segs, cases, 0, 0, []);
    WalkCompletes(Walk(cases, 0), counters.context);
    var node;
    running, node, executed, c := WalkLoop(list, counters, first, before);
    WalkEnds(list, first, before, BookOf(counters), running, executed, c, node);
  }

  // ----- before and after the walk -----

  /** The ring of one group before the groups are merged. */
  ghost function GroupRing(heads: seq<Entry>, segs: seq<seq<Entry>>, g: nat): seq<Entry>
    requires |heads| == |segs| && g < |heads|
  {
    [heads[g]] + segs[g]
  }

  lemma ChainNext(heads: seq<Entry>, segs: seq<seq<Entry>>, g: nat)
    requires |heads| == |segs| && g < |heads|
    ensures Chain(heads[..g + 1], segs[..g + 1]) == Chain(heads[..g], segs[..g]) + GroupRing(heads, segs, g)
  {
    var h, t := heads[..g + 1], segs[..g + 1];
    ChainAt(h, t, g);
    assert h[..g] == heads[..g] && t[..g] == segs[..g] && |h[g + 1..]| == 0;
  }

  lemma PrefixDistinct(heads: seq<Entry>, segs: seq<seq<Entry>>, g: nat)
    requires |heads| == |segs| && g < |heads| && Distinct(Chain(heads, segs))
    ensures Distinct(Chain(heads[..g], segs[..g]) + GroupRing(heads, segs, g))
    ensures forall x | x in Chain(heads[..g], segs[..g]) + GroupRing(heads, segs, g) ::
            x !in Chain(heads[g + 1..], segs[g + 1..])
  {
    ChainNext(heads, segs, g);
    ChainSplit(heads, segs, g + 1);
    DistinctParts(Chain(heads[..g + 1], segs[..g + 1]), Chain(heads[g + 1..], segs[g + 1..]));
  }

  lemma {:induction false} GroupInChain(heads: seq<Entry>, segs: seq<seq<Entry>>, g: nat, x: Entry)
    requires |heads| == |segs| && g < |heads| && x in GroupRing(heads, segs, g)
    ensures x in Chain(heads, segs)
  {
    ChainAt(heads, segs, g);
  }

  lemma LaterGroups(heads: seq<Entry>, segs: seq<seq<Entry>>, g: nat, j: nat)
    requires |heads| == |segs| && g < j < |heads| && Distinct(Chain(heads, segs))
    ensures forall x | x in GroupRing(heads, segs, j) :: x !in Chain(heads[..g], segs[..g]) + GroupRing(heads, segs, g)
  {
    PrefixDistinct(heads, segs, g);
    forall x | x in GroupRing(heads, segs, j) ensures x in Chain(heads[g + 1..], segs[g + 1..]) {
      GroupInChain(heads[g + 1..], segs[g + 1..], j - g - 1, x);
    }
  }

  ghost predicate RingsFrom(heads: seq<Entry>, segs: seq<seq<Entry>>, g: nat, repr: set<Entry>)
    requires |heads| == |segs| && g <= |heads|
    reads repr
  {
    forall j | g <= j < |heads| ::
      (forall x | x in GroupRing(heads, segs, j) :: x in repr) && Ring(GroupRing(heads, segs, j))
  }

  /** What a merge writes to is in the list. */
  lemma MergeFrame(heads: seq<Entry>, segs: seq<seq<Entry>>, g: nat)
    requires |heads| == |segs| && 0 < g < |segs|
    requires Ring(Chain(heads[..g], segs[..g])) && Ring(GroupRing(heads, segs, g))
    ensures heads[0] in Chain(heads, segs) && heads[0].prev in Chain(heads, segs)
    ensures heads[g] in Chain(heads, segs) && heads[g].prev in Chain(heads, segs)
  {
    var a, b := Chain(heads[..g], segs[..g]), GroupRing(heads, segs, g);
    ChainFirst(heads[..g], segs[..g]);
    ChainSplit(heads, segs, g);
    PrevInRing(a, 0);
    PrevInRing(b, 0);
    assert a[0] in a && b[0] in b;
    GroupInChain(heads, segs, g, heads[g]);
    GroupInChain(heads, segs, g, heads[g].prev);
  }

  /** One merge: the ring of the first g groups takes in the next one, and the later ones stay. */
  method MergeGroup(main: Entry, head: Entry, ghost heads: seq<Entry>, ghost segs: seq<seq<Entry>>, ghost g: nat,
                    ghost repr: set<Entry>)
    requires |heads| == |segs| && 0 < g < |segs| && Distinct(Chain(heads, segs)) && main == heads[0] && head == heads[g]
    requires forall x | x in Chain(heads, segs) :: x in repr
    requires Ring(Chain(heads[..g], segs[..g])) && RingsFrom(heads, segs, g, repr)
    modifies repr
    ensures Ring(Chain(heads[..g + 1], segs[..g + 1])) && RingsFrom(heads, segs, g + 1, repr)
    ensures forall x | x in repr :: x.live == old(x.live)
  {
    assert Ring(GroupRing(heads, segs, g));
    MergeFrame(heads, segs, g);
    ghost var a, b := Chain(heads[..g], segs[..g]), GroupRing(heads, segs, g);
    ChainFirst(heads[..g], segs[..g]);
    PrefixDistinct(heads, segs, g);
    PrevInRing(a, 0);
    PrevInRing(b, 0);
    ChainNext(heads, segs, g);
    Merge(main, head, a, b);
    forall j | g + 1 <= j < |heads| ensures Ring(GroupRing(heads, segs, j)) {
      LaterGroups(heads, segs, g, j);
      var r := GroupRing(heads, segs, j);
      assert old(Ring(r));
      forall i | 0 <= i < |r| ensures Linked(r[i], r[Succ(i, |r|)]) {
        assert old(Linked(r[i], r[Succ(i, |r|)]));
        assert r[i] in r && r[Succ(i, |r|)] in r;
      }
    }
  }

  method MergeTwo(main: Entry, head: Entry, next: Entry, ghost heads: seq<Entry>, ghost segs: seq<seq<Entry>>,
                  ghost g: nat, ghost repr: set<Entry>)
    requires |heads| == |segs| && 0 < g < |segs| - 1 && Distinct(Chain(heads, segs)) && main == heads[0]
    requires head == heads[g] && next == heads[g + 1] && forall x | x in Chain(heads, segs) :: x in repr
    requires Ring(Chain(heads[..g], segs[..g])) && RingsFrom(heads, segs, g, repr)
    modifies repr
    ensures Ring(Chain(heads[..g + 2], segs[..g + 2])) && RingsFrom(heads, segs, g + 2, repr)
    ensures forall x | x in repr :: x.live == old(x.live)
  {
    MergeGroup(main, head, heads, segs, g, repr);
    MergeGroup(main, next, heads, segs, g + 1, repr);
  }

  /** The list before a run: a ring for each group, with its entries in the order of registration. */
  ghost predicate Separate(list: List<Case>, segs: seq<seq<Entry>>, cases: seq<seq<Item>>)
    reads list, list.repr
  {
    && list.live && Carries(list.heads, segs, cases) && Distinct(Chain(list.heads, segs))
    && Exactly(list.repr, Chain(list.heads, segs)) && AllLive(Chain(list.heads, segs))
    && RingsFrom(list.heads, segs, 0, list.repr) && Before(cases)
  }

  lemma OneRing(heads: seq<Entry>, segs: seq<seq<Entry>>)
    requires |heads| == |segs| && heads != [] && Ring(GroupRing(heads, segs, 0))
    ensures Ring(Chain(heads[..1], segs[..1]))
  {
    ChainNext(heads, segs, 0);
    assert |Chain(heads[..0], segs[..0])| == 0;
    assert Chain(heads[..1], segs[..1]) == GroupRing(heads, segs, 0);
  }

  lemma WholeRing(heads: seq<Entry>, segs: seq<seq<Entry>>, n: nat)
    requires |heads| == |segs| == n && Ring(Chain(heads[..n], segs[..n]))
    ensures Ring(Chain(heads, segs))
  {
    assert heads[..n] == heads && segs[..n] == segs;
  }

  /** The three merges of UtTest_Run. */
  method MergeAll(list: List<Case>, ghost segs: seq<seq<Entry>>, ghost cases: seq<seq<Item>>)
    requires Separate(list, segs, cases)
    modifies list.repr
    ensures Merged(list, segs, cases) && list.repr == old(list.repr)
  {
    ghost var heads := list.heads;
    OneRing(heads, segs);
    MergeTwo(list.heads[0], list.heads[1], list.heads[2], heads, segs, 1, list.repr);
    MergeGroup(list.heads[0], list.heads[3], heads, segs, 3, list.repr);
    WholeRing(heads, segs, 4);
  }

  lemma OneDivision(heads: seq<Entry>, segs: seq<seq<Entry>>, ring: seq<Entry>)
    requires |heads| == |segs| && ring == Chain(heads, segs)
    ensures forall i | 0 <= i < |heads| :: heads[i] in ring
    ensures Disjoint([ring]) && Nodes([ring]) == set x | x in ring
  {
    forall i | 0 <= i < |heads| ensures heads[i] in ring {
      HeadAt(heads, segs, i);
    }
    assert forall x | x in ring :: x in [ring][0];
  }

  /** The destruction of the merged list: every node of the list, old or added during the walk. */
  method DestroyMerged(list: List<Case>, ghost segs: seq<seq<Entry>>, ghost cases: seq<seq<Item>>)
    requires Merged(list, segs, cases)
    modifies list`live, list.repr
    ensures !list.live && forall x | x in list.repr :: Released(x)
  {
    ghost var ring := Chain(list.heads, segs);
    OneDivision(list.heads, segs, ring);
    list.Destroy([ring], [0, 0, 0, 0]);
    assert AllReleased([ring][[0, 0, 0, 0][0]]);
    forall x | x in list.repr ensures Released(x) {
      var p := Position(x, ring);
    }
  }

  /** UtTest_Run: executes the entries of the walk in their order, destroys every node that the list
      ever had, each once, and takes the exit code from the totals; or is stopped on the way, with
      nothing destroyed. */
  method UtTestRun(list: List<Case>, counters: UtAssert.Counters, ghost segs: seq<seq<Entry>>,
                   ghost cases: seq<seq<Item>>)
    returns (ended: bool, executed: nat, error: bool, ghost c: Cursor)
    requires Separate(list, segs, cases) && counters.Ok()
    modifies list, list.repr, counters, counters.segmentCases, counters.totalCases
    ensures ended <==> UtAssert.Completes(AllChecks(Walk(cases, 0)), old(counters.context))
    ensures ended <==> !SomeHalts(Walk(cases, 0))
    ensures Made(old(BookOf(counters)), BookOf(counters),
                 UtAssert.Reached(AllChecks(Walk(cases, 0)), old(counters.context)))
    ensures ended ==> c.trace == Walk(cases, 0) && Accounts(old(BookOf(counters)), BookOf(counters), executed, c.trace)
    ensures ended ==> Sorted(c.trace) && error == UtAssert.ExitsWithError(counters.Now())
    ensures ended ==> Carries(list.heads, c.segs, WithTrace(cases, c.trace))
    ensures ended ==> Exactly(list.repr, Chain(list.heads, c.segs)) && !list.live
    ensures ended ==> forall x | x in list.repr :: Released(x)
    ensures !ended ==> Merged(list, c.segs, c.cases)
    ensures !ended ==> Halted(Cursor(segs, cases, 0, 0, []), old(BookOf(counters)), BookOf(counters), c)
    ensures Extends(segs, c.segs) && old(list.repr) <= list.repr && fresh(list.repr - old(list.repr))
  {
    error := false;
    MergeAll(list, segs, cases);
    ended, executed, c := WalkRing(list, counters, segs, cases);
    if ended {
      error := counters.ExitCode();
      DestroyMerged(list, c.segs, c.cases);
      RunIsSorted(cases);
    }
  }

  // ----- what the ring holds after a run -----

  /** All that the entries of a trace register with a group, in order. */
  function AllRegistrations(trace: seq<(Item, nat)>, g: nat): seq<Case> {
    if trace == [] then []
    else AllRegistrations(trace[..|trace| - 1], g) + RegistrationsBy(trace[|trace| - 1].0.entry, g)
  }

  lemma {:induction false} EntriesAppend(lane: seq<Item>, x: Item)
    ensures Entries(lane + [x]) == Entries(lane) + [x.entry]
    decreases |lane|
  {
    if lane == [] {
      assert (lane + [x])[1..] == [];
    } else {
      assert (lane + [x])[1..] == lane[1..] + [x];
      EntriesAppend(lane[1..], x);
    }
  }

  lemma {:induction false} WithAllHolds(cases: seq<seq<Item>>, events: seq<Event>, g: nat)
    requires |cases| == GROUPS && g < GROUPS
    ensures Entries(WithAll(cases, events)[LaneOf(g)]) == Entries(cases[LaneOf(g)]) + Registrations(events, g)
    decreases |events|
  {
    if events == [] {
      assert Entries(cases[LaneOf(g)]) + [] == Entries(cases[LaneOf(g)]);
    } else {
      WithAllHolds(After(cases, events[0]), events[1..], g);
      if events[0].Register? && events[0].group == g {
        EntriesAppend(cases[LaneOf(g)], Item(events[0].entry, g, true));
        Assoc(Entries(cases[LaneOf(g)]), [events[0].entry], Registrations(events[1..], g));
      } else {
        assert [] + Registrations(events[1..], g) == Registrations(events[1..], g);
      }
    }
  }

  /** Of each group, before the head that registrations with it go to: what was there before the run, and then
      all that the executed entries registered with it, whether that was in time to be executed or not. */
  lemma {:induction false} RingHoldsAll(cases: seq<seq<Item>>, trace: seq<(Item, nat)>, g: nat)
    requires |cases| == GROUPS && g < GROUPS
    ensures Entries(WithTrace(cases, trace)[LaneOf(g)]) == Entries(cases[LaneOf(g)]) + AllRegistrations(trace, g)
    decreases |trace|
  {
    if trace == [] {
      assert Entries(cases[LaneOf(g)]) + [] == Entries(cases[LaneOf(g)]);
    } else {
      var n := |trace| - 1;
      var c := trace[n].0.entry;
      RingHoldsAll(cases, trace[..n], g);
      WithAllHolds(WithTrace(cases, trace[..n]), CaseEvents(c), g);
      RegistrationsParts(c, g);
      Assoc(Entries(cases[LaneOf(g)]), AllRegistrations(trace[..n], g), RegistrationsBy(c, g));
    }
  }

  // ----- registration before the run -----

  lemma DistinctInsert(a: seq<Entry>, x: Entry, b: seq<Entry>)
    requires Distinct(a + b) && x !in a + b
    ensures Distinct(a + [x] + b)
  {
    var r, q := a + [x] + b, a + b;
    forall i, j | 0 <= i < j < |r| ensures r[i] != r[j] {
      if i < |a| { assert r[i] == q[i]; } else if i > |a| { assert r[i] == q[i - 1]; }
      if j < |a| { assert r[j] == q[j]; } else if j > |a| { assert r[j] == q[j - 1]; }
    }
  }

  lemma ChainGrownDistinct(heads: seq<Entry>, segs: seq<seq<Entry>>, g: nat, x: Entry)
    requires |heads| == |segs| && g < |heads| && Distinct(Chain(heads, segs)) && x !in Chain(heads, segs)
    ensures Distinct(Chain(heads, Grown(segs, g, x)))
  {
    ChainGrown(heads, segs, g + 1, x);
    ChainSplit(heads, segs, g + 1);
    DistinctInsert(Chain(heads[..g + 1], segs[..g + 1]), x, Chain(heads[g + 1..], segs[g + 1..]));
  }

  lemma GroupGrown(heads: seq<Entry>, segs: seq<seq<Entry>>, g: nat, x: Entry, j: nat)
    requires |heads| == |segs| && g < |heads| && j < |heads|
    ensures GroupRing(heads, Grown(segs, g, x), j) == GroupRing(heads, segs, j) + if j == g then [x] else []
  {
  }

  lemma OtherGroup(heads: seq<Entry>, segs: seq<seq<Entry>>, g: nat, j: nat)
    requires |heads| == |segs| && g < |heads| && j < |heads| && g != j && Distinct(Chain(heads, segs))
    ensures forall x | x in GroupRing(heads, segs, j) :: x !in GroupRing(heads, segs, g)
  {
    if g < j {
      LaterGroups(heads, segs, g, j);
    } else {
      LaterGroups(heads, segs, j, g);
    }
  }

  lemma GroupRingGrown(r: seq<Entry>, x: Entry)
    requires Ring(r[..0] + [x] + r[0..])
    ensures Ring(r + [x])
  {
    assert r[..0] + [x] + r[0..] == [x] + r;
    Rotate([x], r);
  }

  /** The list after a node was inserted before the head of one group, whose rings are otherwise kept. */
  lemma SeparateGrown(list: List<Case>, segs: seq<seq<Entry>>, cases: seq<seq<Item>>, g: nat, x: Entry, c: Item)
    requires list.live && Carries(list.heads, segs, cases) && Distinct(Chain(list.heads, segs)) && g < GROUPS
    requires forall y | y in Chain(list.heads, segs) :: y in list.repr && y.live
    requires forall y | y in list.repr :: y == x || y in Chain(list.heads, segs)
    requires Before(cases) && c.group == g && !c.late
    requires x !in Chain(list.heads, segs) && x in list.repr && x.live && Stands(x, c)
    requires Ring(GroupRing(list.heads, segs, g) + [x])
    requires forall j | 0 <= j < GROUPS && j != g :: Ring(GroupRing(list.heads, segs, j))
    ensures Separate(list, Grown(segs, g, x), Grown(cases, g, c))
  {
    var segs': seq<seq<Entry>> := Grown(segs, g, x);
    CarriesGrown(list.heads, segs, cases, g, x, c);
    ChainGrownDistinct(list.heads, segs, g, x);
    forall y | y in Chain(list.heads, segs') ensures y == x || y in Chain(list.heads, segs) {
      GrownNodes(list.heads, segs, g, x, y);
    }
    forall y | y in list.repr ensures y in Chain(list.heads, segs') {
      GrownNodes(list.heads, segs, g, x, y);
    }
    forall j | 0 <= j < GROUPS
      ensures Ring(GroupRing(list.heads, segs', j)) && forall y | y in GroupRing(list.heads, segs', j) :: y in list.repr
    {
      GroupGrown(list.heads, segs, g, x, j);
      forall y | y in GroupRing(list.heads, segs', j) ensures y in list.repr {
        GroupInChain(list.heads, segs', j, y);
      }
    }
  }

  /** The groups after a registration before the run. */
  ghost function Registered(cases: seq<seq<Item>>, group: nat, entry: Case): (r: seq<seq<Item>>)
    requires |cases| == GROUPS
    ensures |r| == GROUPS
  {
    if group < GROUPS then Grown(cases, group, Item(entry, group, false)) else cases
  }

  /** UtTest_AddCommon before the run: the entry becomes the last of its group; an unknown group is ignored. */
  method RegisterEntry(list: List<Case>, entry: Case, group: nat, ghost segs: seq<seq<Entry>>,
                       ghost cases: seq<seq<Item>>)
    returns (ghost segs': seq<seq<Entry>>, ghost cases': seq<seq<Item>>)
    requires Separate(list, segs, cases)
    modifies list`repr, list.repr
    ensures Separate(list, segs', cases') && fresh(list.repr - old(list.repr))
    ensures cases' == Registered(cases, group, entry)
  {
    segs', cases' := segs, cases;
    if group < GROUPS {
      ghost var r := GroupRing(list.heads, segs, group);
      assert Ring(r);
      PrevInRing(r, 0);
      assert r[0] in r;
      ghost var added := list.Add(entry, group, r, 0);
      ghost var x := added[0];
      assert added == [x];
      GroupRingGrown(r, x);
      forall j | 0 <= j < GROUPS && j != group ensures Ring(GroupRing(list.heads, segs, j)) {
        OtherGroup(list.heads, segs, group, j);
        var q := GroupRing(list.heads, segs, j);
        assert old(Ring(q));
        forall i | 0 <= i < |q| ensures Linked(q[i], q[Succ(i, |q|)]) {
          assert old(Linked(q[i], q[Succ(i, |q|)]));
          assert q[i] in q && q[Succ(i, |q|)] in q;
        }
      }
      SeparateGrown(list, segs, cases, group, x, Item(entry, group, false));
      segs', cases' := Grown(segs, group, x), Registered(cases, group, entry);
    } else {
      ghost var added := list.Add(entry, group, [], 0);
    }
  }

  /** UtTest_EarlyInit: a list with four empty groups. */
  method NewDatabase() returns (list: List<Case>, ghost segs: seq<seq<Entry>>, ghost cases: seq<seq<Item>>)
    ensures fresh(list) && fresh(list.repr) && Separate(list, segs, cases) && cases == [[], [], [], []]
  {
    list := new List<Case>(GROUPS);
    segs, cases := [[], [], [], []], [[], [], [], []];
    ghost var h := list.heads;
    assert Chain(h, segs) == h by {
      assert Chain(h, segs) == [h[0]] + Chain(h[1..], segs[1..]);
      assert Chain(h[1..], segs[1..]) == [h[1]] + Chain(h[1..][1..], segs[1..][1..]);
      assert Chain(h[1..][1..], segs[1..][1..]) == [h[2]] + Chain(h[1..][1..][1..], segs[1..][1..][1..]);
      assert Chain(h[1..][1..][1..], segs[1..][1..][1..]) == [h[3]];
    }
    forall j | 0 <= j < GROUPS ensures GroupRing(h, segs, j) == [h[j]] {
    }
  }

  // ----- a whole test program -----

  /** The groups after the registrations that a program makes before the run. */
  ghost function RegisteredAll(cases: seq<seq<Item>>, events: seq<Event>): (r: seq<seq<Item>>)
    requires |cases| == GROUPS
    ensures |r| == GROUPS
    decreases |events|
  {
    if events == [] then cases else RegisteredAll(RegisteredBy(cases, events[0]), events[1..])
  }

  ghost function RegisteredBy(cases: seq<seq<Item>>, e: Event): (r: seq<seq<Item>>)
    requires |cases| == GROUPS
    ensures |r| == GROUPS
  {
    if e.Register? then Registered(cases, e.group, e.entry) else cases
  }

  lemma RegisteredCons(cases: seq<seq<Item>>, e: Event, rest: seq<Event>)
    requires |cases| == GROUPS
    ensures RegisteredAll(cases, [e] + rest) == RegisteredAll(RegisteredBy(cases, e), rest)
  {
    assert ([e] + rest)[1..] == rest;
  }

  lemma RegisteredOne(cases: seq<seq<Item>>, e: Event)
    requires |cases| == GROUPS
    ensures RegisteredAll(cases, [e]) == RegisteredBy(cases, e)
  {
    RegisteredCons(cases, e, []);
    assert [e] + [] == [e];
  }

  /** One thing that a program does to set itself up. */
  method SetUpEvent(list: List<Case>, counters: UtAssert.Counters, event: Event,
                    ghost segs: seq<seq<Entry>>, ghost cases: seq<seq<Item>>)
    returns (running: bool, ghost segs': seq<seq<Entry>>)
    requires Separate(list, segs, cases) && counters.Ok()
    modifies list`repr, list.repr, counters, counters.segmentCases, counters.totalCases
    ensures Separate(list, segs', RegisteredBy(cases, event)) && fresh(list.repr - old(list.repr))
    ensures Made(old(BookOf(counters)), BookOf(counters), ChecksOf(event))
    ensures running <==> !Stops(event, old(counters.context))
    ensures counters.context == EventContext(event, old(counters.context))
  {
    running, segs' := true, segs;
    ghost var cases';
    match event {
      case Register(group, entry) =>
        segs', cases' := RegisterEntry(list, entry, group, segs, cases);
      case Check(op) =>
        running := counters.Perform(op);
        assert counters.context == counters.Now().context;
        MadeOne(old(BookOf(counters)), BookOf(counters), op);
    }
  }

  /** The functions that a program calls to set itself up, until it is stopped. */
  method SetUp(list: List<Case>, counters: UtAssert.Counters, events: seq<Event>,
               ghost segs: seq<seq<Entry>>, ghost cases: seq<seq<Item>>)
    returns (running: bool, ghost segs': seq<seq<Entry>>)
    requires Separate(list, segs, cases) && counters.Ok()
    modifies list`repr, list.repr, counters, counters.segmentCases, counters.totalCases
    ensures Separate(list, segs', RegisteredAll(cases, ReachedEvents(events, old(counters.context))))
    ensures fresh(list.repr - old(list.repr))
    ensures Made(old(BookOf(counters)), BookOf(counters), Checks(ReachedEvents(events, old(counters.context))))
    ensures running <==> UtAssert.Completes(Checks(events), old(counters.context))
    decreases |events|
  {
    running, segs' := true, segs;
    if events != [] {
      ghost var before, context := BookOf(counters), counters.context;
      ReachedFirst(events, context);
      ghost var segs1;
      running, segs1 := SetUpEvent(list, counters, events[0], segs, cases);
      segs' := segs1;
      if running {
        ghost var between, reached := BookOf(counters), ReachedEvents(events[1..], EventContext(events[0], context));
        running, segs' := SetUp(list, counters, events[1..], segs1, RegisteredBy(cases, events[0]));
        RegisteredCons(cases, events[0], reached);
        ChecksCons(events[0], reached);
        MadeChains(before, between, BookOf(counters), ChecksOf(events[0]), Checks(reached));
      } else {
        RegisteredOne(cases, events[0]);
        ChecksOfOne(events[0]);
      }
    }
  }

  /** OS_Application_Startup puts the setup into a segment of its own. */
  function StartUp(setup: seq<Event>): seq<UtAssert.Op> {
    [UtAssert.BeginTest] + Checks(setup) + [UtAssert.EndTest]
  }

  ghost predicate SomeFails(trace: seq<(Item, nat)>) {
    exists i | 0 <= i < |trace| :: EntryFails(trace[i].0.entry)
  }

  ghost predicate SomeFailsAs(trace: seq<(Item, nat)>, t: nat) {
    exists i | 0 <= i < |trace| :: EntryFailsAs(trace[i].0.entry, t)
  }

  ghost predicate SomeHalts(trace: seq<(Item, nat)>) {
    exists i | 0 <= i < |trace| :: EntryHalts(trace[i].0.entry)
  }

  lemma SomeOfParts(trace: seq<(Item, nat)>, n: nat, t: nat)
    requires |trace| == n + 1
    ensures SomeFailsAs(trace, t) <==> SomeFailsAs(trace[..n], t) || EntryFailsAs(trace[n].0.entry, t)
    ensures SomeHalts(trace) <==> SomeHalts(trace[..n]) || EntryHalts(trace[n].0.entry)
  {
    var rest := trace[..n];
    if i :| 0 <= i < |rest| && EntryFailsAs(rest[i].0.entry, t) { assert EntryFailsAs(trace[i].0.entry, t); }
    if i :| 0 <= i < |trace| && EntryFailsAs(trace[i].0.entry, t) { assert i == n || EntryFailsAs(rest[i].0.entry, t); }
    if i :| 0 <= i < |rest| && EntryHalts(rest[i].0.entry) { assert EntryHalts(trace[i].0.entry); }
    if i :| 0 <= i < |trace| && EntryHalts(trace[i].0.entry) { assert i == n || EntryHalts(rest[i].0.entry); }
  }

  /** What fails in a trace and what stops it are what fails in its entries and what stops them. */
  lemma {:induction false} TraceInPlain(trace: seq<(Item, nat)>, context: nat, t: nat)
    ensures UtAssert.FailsAs(AllChecks(trace), context, t) <==> SomeFailsAs(trace, t)
    ensures UtAssert.Halts(AllChecks(trace), context) <==> SomeHalts(trace)
    decreases |trace|
  {
    if trace != [] {
      var n := |trace| - 1;
      var before, c := AllChecks(trace[..n]), trace[n].0.entry;
      TraceInPlain(trace[..n], context, t);
      EntryInPlain(c, UtAssert.ContextAfter(before, context), t);
      EntryOps(c);
      UtAssert.FailsApart(before, Checks(CaseEvents(c)), context, t);
      UtAssert.HaltsParts(before, Checks(CaseEvents(c)), context);
      SomeOfParts(trace, n, t);
    }
  }

  lemma WalkCompletes(trace: seq<(Item, nat)>, context: nat)
    ensures UtAssert.Completes(AllChecks(trace), context) <==> !SomeHalts(trace)
  {
    UtAssert.CompletesIffNoneFells(AllChecks(trace), context);
    TraceInPlain(trace, context, 0);
  }

  /** An assertion of the setup of a program, in a segment that ends, fails as FAILURE, TSF or TTF. */
  predicate SetupFails(setup: seq<Event>) {
    || UtAssert.FailsBefore(Checks(setup), [UtAssert.EndTest], UtAssert.FAILURE, UtAssert.FAILURE)
    || UtAssert.FailsBefore(Checks(setup), [UtAssert.EndTest], UtAssert.FAILURE, UtAssert.TSF)
    || UtAssert.FailsBefore(Checks(setup), [UtAssert.EndTest], UtAssert.FAILURE, UtAssert.TTF)
  }

  ghost predicate SetupHalts(setup: seq<Event>) {
    UtAssert.Halts(Checks(setup), UtAssert.FAILURE)
  }

  lemma StartUpInPlain(setup: seq<Event>, t: nat)
    ensures UtAssert.FailsAs(StartUp(setup), UtAssert.FAILURE, t) <==>
            UtAssert.FailsBefore(Checks(setup), [UtAssert.EndTest], UtAssert.FAILURE, t)
    ensures UtAssert.Halts(StartUp(setup), UtAssert.FAILURE) <==> SetupHalts(setup)
  {
    var ops, end := Checks(setup), [UtAssert.EndTest];
    assert StartUp(setup) == [UtAssert.BeginTest] + (ops + end);
    UtAssert.FailsAfter(UtAssert.BeginTest, ops + end, UtAssert.FAILURE, t);
    UtAssert.FailsAsParts(ops, end, UtAssert.FAILURE, t);
    UtAssert.HaltsParts(ops, end, UtAssert.FAILURE);
    EndFails(UtAssert.ContextAfter(ops, UtAssert.FAILURE), t);
  }

  /** All that a program means to do with the counters. */
  ghost function ProgramOps(setup: seq<Event>, trace: seq<(Item, nat)>): seq<UtAssert.Op> {
    StartUp(setup) + AllChecks(trace)
  }

  lemma {:induction false} TraceBegins(trace: seq<(Item, nat)>)
    requires trace != []
    ensures AllChecks(trace) != [] && AllChecks(trace)[0] == UtAssert.BeginTest
    decreases |trace|
  {
    var n := |trace| - 1;
    EntryOps(trace[n].0.entry);
    if n > 0 { TraceBegins(trace[..n]); }
  }

  lemma ProgramInPlain(setup: seq<Event>, trace: seq<(Item, nat)>, t: nat)
    ensures var ops := ProgramOps(setup, trace);
            && (UtAssert.FailsAs(ops, UtAssert.FAILURE, t) <==>
                  || UtAssert.FailsBefore(Checks(setup), [UtAssert.EndTest], UtAssert.FAILURE, t)
                  || SomeFailsAs(trace, t))
            && (UtAssert.Halts(ops, UtAssert.FAILURE) <==> SetupHalts(setup) || SomeHalts(trace))
  {
    var start, rest := StartUp(setup), AllChecks(trace);
    StartUpInPlain(setup, t);
    TraceInPlain(trace, UtAssert.ContextAfter(start, UtAssert.FAILURE), t);
    UtAssert.HaltsParts(start, rest, UtAssert.FAILURE);
    if trace == [] {
      assert start + rest == start;
    } else {
      TraceBegins(trace);
      UtAssert.FailsApart(start, rest, UtAssert.FAILURE, t);
    }
  }

  lemma SomeFailsAsOne(trace: seq<(Item, nat)>)
    ensures SomeFails(trace) <==>
            SomeFailsAs(trace, UtAssert.FAILURE) || SomeFailsAs(trace, UtAssert.TSF) || SomeFailsAs(trace, UtAssert.TTF)
  {
    if i :| 0 <= i < |trace| && EntryFailsAs(trace[i].0.entry, UtAssert.FAILURE) {
      assert EntryFails(trace[i].0.entry);
    }
    if i :| 0 <= i < |trace| && EntryFailsAs(trace[i].0.entry, UtAssert.TSF) { assert EntryFails(trace[i].0.entry); }
    if i :| 0 <= i < |trace| && EntryFailsAs(trace[i].0.entry, UtAssert.TTF) { assert EntryFails(trace[i].0.entry); }
  }

  /** How a program ends: it gets to its exit code if and only if neither its setup nor a function of an
      entry that it executes reports an ABORT; and the exit code is an error exactly when an assertion of
      one of them failed as FAILURE, TSF or TTF. */
  lemma ExitCodeOfProgram(setup: seq<Event>, trace: seq<(Item, nat)>)
    ensures var exit := UtAssert.ExitOf(ProgramOps(setup, trace));
            && (exit.Aborted? <==> SetupHalts(setup) || SomeHalts(trace))
            && (exit.Exited? && UtAssert.Asserts(ProgramOps(setup, trace)) < UtAssert.TWO32 ==>
                  (exit.error <==> SetupFails(setup) || SomeFails(trace)))
  {
    var ops := ProgramOps(setup, trace);
    ProgramInPlain(setup, trace, UtAssert.FAILURE);
    ProgramInPlain(setup, trace, UtAssert.TSF);
    ProgramInPlain(setup, trace, UtAssert.TTF);
    SomeFailsAsOne(trace);
    UtAssert.CompletesIffNoneFells(ops, UtAssert.FAILURE);
    if UtAssert.Asserts(ops) < UtAssert.TWO32 { UtAssert.ExitCodeIsRight(ops); }
  }

  /** What a program executes that registers its entries like this, if nothing stops it. */
  ghost function TraceOf(setup: seq<Event>): seq<(Item, nat)> {
    Walk(RegisteredAll([[], [], [], []], setup), 0)
  }

  lemma {:induction false} RegisteredHolds(cases: seq<seq<Item>>, events: seq<Event>, g: nat)
    requires Before(cases) && g < GROUPS
    ensures Before(RegisteredAll(cases, events))
    ensures Entries(RegisteredAll(cases, events)[g]) == Entries(cases[g]) + Registrations(events, g)
    decreases |events|
  {
    if events == [] {
      assert Entries(cases[g]) + [] == Entries(cases[g]);
    } else {
      RegisteredHolds(RegisteredBy(cases, events[0]), events[1..], g);
      if events[0].Register? && events[0].group == g {
        EntriesAppend(cases[g], Item(events[0].entry, g, false));
        Assoc(Entries(cases[g]), [events[0].entry], Registrations(events[1..], g));
      } else {
        assert [] + Registrations(events[1..], g) == Registrations(events[1..], g);
      }
    }
  }

  /** What a program executes when nothing stops it: of each group, all that its setup registers, in order,
      and then what executed entries register in time; setup before test before teardown. */
  lemma ProgramExecutes(setup: seq<Event>, g: nat)
    requires g < GROUPS
    ensures var trace := TraceOf(setup);
            && Executed(trace, g, false) == Registrations(setup, g) && Executed(trace, g, true) == InTime(trace, g)
            && Sorted(trace)
  {
    var lanes: seq<seq<Item>> := [[], [], [], []];
    RegisteredHolds(lanes, setup, g);
    assert [] + Registrations(setup, g) == Registrations(setup, g);
    RunIsExact(RegisteredAll(lanes, setup), g);
    RunIsSorted(RegisteredAll(lanes, setup));
  }

  /** How many of the executed entries have a test. */
  lemma {:induction false} TestsCount(trace: seq<(Item, nat)>)
    ensures Tests(trace) == |set i | 0 <= i < |trace| && trace[i].0.entry.test.Calls?|
    decreases |trace|
  {
    if trace != [] {
      var n := |trace| - 1;
      var rest := trace[..n];
      var before, all := set i | 0 <= i < |rest| && rest[i].0.entry.test.Calls?,
                         set i | 0 <= i < |trace| && trace[i].0.entry.test.Calls?;
      TestsCount(rest);
      assert all == if trace[n].0.entry.test.Calls? then before + {n} else before;
    }
  }

  /** A program completes when its setup and its entries do. */
  lemma ProgramCompletes(setup: seq<Event>, trace: seq<(Item, nat)>)
    ensures UtAssert.Completes(ProgramOps(setup, trace), UtAssert.FAILURE) <==>
            && UtAssert.Completes(Checks(setup), UtAssert.FAILURE)
            && UtAssert.Completes(AllChecks(trace), UtAssert.ContextAfter(Checks(setup), UtAssert.FAILURE))
  {
    var first, ops, last := [UtAssert.BeginTest], Checks(setup), [UtAssert.EndTest];
    assert first[1..] == [] && last[1..] == [];
    UtAssert.CompletesAppend(first, ops, UtAssert.FAILURE);
    UtAssert.CompletesAppend(first + ops, last, UtAssert.FAILURE);
    UtAssert.CompletesAppend(StartUp(setup), AllChecks(trace), UtAssert.FAILURE);
  }

  /** A program whose setup fails an assertion as ABORT, and does nothing else, does not exit. */
  lemma AbortingProgram(caseType: nat)
    requires UtAssert.Fells(caseType)
    ensures var setup := [Check(UtAssert.AssertEx(false, caseType))];
            UtAssert.ExitOf(ProgramOps(setup, TraceOf(setup))) == UtAssert.Aborted && !SetupFails(setup)
  {
    var op := UtAssert.AssertEx(false, caseType);
    var setup := [Check(op)];
    ChecksOfOne(Check(op));
    assert UtAssert.FailsAt([op], UtAssert.FAILURE, 0, caseType);
    assert UtAssert.HaltsAt([op], UtAssert.FAILURE, 0);
    ExitCodeOfProgram(setup, TraceOf(setup));
  }

  /** OS_Application_Startup: the setup, in a segment of its own. */
  method StartProgram(setup: seq<Event>, list: List<Case>, counters: UtAssert.Counters,
                      ghost segs: seq<seq<Entry>>, ghost cases: seq<seq<Item>>)
    returns (running: bool, ghost segs': seq<seq<Entry>>)
    requires Separate(list, segs, cases) && counters.Ok() && counters.context == UtAssert.FAILURE
    modifies list`repr, list.repr, counters, counters.segmentCases, counters.totalCases
    ensures running <==> UtAssert.Completes(Checks(setup), UtAssert.FAILURE)
    ensures running ==> Separate(list, segs', RegisteredAll(cases, setup)) && fresh(list.repr - old(list.repr))
    ensures running ==> Made(old(BookOf(counters)), BookOf(counters), StartUp(setup))
    ensures running ==> counters.context == UtAssert.ContextAfter(Checks(setup), UtAssert.FAILURE)
  {
    ghost var b0 := BookOf(counters);
    counters.UtAssertBeginTest();
    ghost var b1 := BookOf(counters);
    MadeOne(b0, b1, UtAssert.BeginTest);
    assert counters.context == counters.Now().context;
    running, segs' := SetUp(list, counters, setup, segs, cases);
    if running {
      ghost var b2 := BookOf(counters);
      ReachedAll(setup, UtAssert.FAILURE);
      MadeContext(b1, b2, Checks(setup));
      MadeChains(b0, b1, b2, [UtAssert.BeginTest], Checks(setup));
      counters.UtAssertEndTest();
      MadeOne(b2, BookOf(counters), UtAssert.EndTest);
      MadeChains(b0, b2, BookOf(counters), [UtAssert.BeginTest] + Checks(setup), [UtAssert.EndTest]);
      assert counters.context == counters.Now().context;
    }
  }

  /** OS_Application_Startup and OS_Application_Run: the whole program, from its setup to its end. */
  method Application(setup: seq<Event>) returns (exit: UtAssert.Exit, executed: nat)
    ensures exit == UtAssert.ExitOf(ProgramOps(setup, TraceOf(setup)))
    ensures exit.Exited? ==> executed == Tests(TraceOf(setup)) % UtAssert.TWO32
    ensures exit.Aborted? <==> SetupHalts(setup) || SomeHalts(TraceOf(setup))
    ensures exit.Exited? && UtAssert.Asserts(ProgramOps(setup, TraceOf(setup))) < UtAssert.TWO32 ==>
              (exit.error <==> SetupFails(setup) || SomeFails(TraceOf(setup)))
  {
    exit, executed := UtAssert.Aborted, 0;
    var counters := new UtAssert.Counters();
    var list;
    ghost var segs, cases, c;
    ghost var b0 := BookOf(counters);
    list, segs, cases := NewDatabase();
    ProgramCompletes(setup, TraceOf(setup));
    ExitCodeOfProgram(setup, TraceOf(setup));
    var running;
    running, segs := StartProgram(setup, list, counters, segs, cases);
    if running {
      ghost var b1 := BookOf(counters);
      var error;
      running, executed, error, c := UtTestRun(list, counters, segs, RegisteredAll(cases, setup));
      if running {
        MadeChains(b0, b1, BookOf(counters), StartUp(setup), AllChecks(c.trace));
        exit := UtAssert.Exited(error);
      }
    }
  }
}

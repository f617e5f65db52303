/**
The order in which the test runner executes registered entries. The four groups are walked as one
list while the entries themselves may register more; this module says, without the list, what is
executed, how often and in which order.
*/
module TestOrder {
  import UtAssert

  const GROUPS := 4

  /** A registered entry and its three functions, each given by what it does. */
  datatype Case = Case(setup: Action, test: Action, teardown: Action)
  datatype Action = Absent | Calls(events: seq<Event>)
  datatype Event = Register(group: nat, entry: Case) | Check(op: UtAssert.Op)

  function EventsOf(a: Action): seq<Event> {
    if a.Absent? then [] else a.events
  }

  /** What the runner and the functions of an entry do, in order, from BeginTest to EndTest. */
  function CaseEvents(c: Case): seq<Event> {
    [Check(UtAssert.BeginTest), Check(UtAssert.SetContext(UtAssert.TSF))]
    + EventsOf(c.setup) + [Check(UtAssert.SetContext(UtAssert.FAILURE))]
    + EventsOf(c.test) + [Check(UtAssert.SetContext(UtAssert.TTF))]
    + EventsOf(c.teardown) + [Check(UtAssert.EndTest)]
  }

  // ----- how large a case is, with everything it registers -----

  function ActionSize(a: Action): nat {
    match a
    case Absent => 0
    case Calls(events) => EventsSize(events)
  }

  function EventsSize(events: seq<Event>): nat {
    if events == [] then 0
    else EventSize(events[0]) + EventsSize(events[1..])
  }

  function EventSize(e: Event): nat {
    match e
    case Register(group, entry) => CaseSize(entry)
    case Check(op) => 0
  }

  function CaseSize(c: Case): nat {
    1 + ActionSize(c.setup) + ActionSize(c.test) + ActionSize(c.teardown)
  }

  lemma {:induction false} EventsSizeAppend(a: seq<Event>, b: seq<Event>)
    ensures EventsSize(a + b) == EventsSize(a) + EventsSize(b)
    decreases |a|
  {
    if a == [] {
      assert a + b == b;
    } else {
      assert (a + b)[1..] == a[1..] + b;
      EventsSizeAppend(a[1..], b);
    }
  }

  lemma {:induction false} ChecksHaveNoSize(events: seq<Event>)
    requires forall e | e in events :: e.Check?
    ensures EventsSize(events) == 0
  {
    if events != [] {
      assert events[0].Check?;
      ChecksHaveNoSize(events[1..]);
    }
  }

  lemma CaseEventsSize(c: Case)
    ensures EventsSize(CaseEvents(c)) < CaseSize(c)
  {
    var a := [Check(UtAssert.BeginTest), Check(UtAssert.SetContext(UtAssert.TSF))];
    var b := [Check(UtAssert.SetContext(UtAssert.FAILURE))];
    var d := [Check(UtAssert.SetContext(UtAssert.TTF))];
    var e := [Check(UtAssert.EndTest)];
    var x, y, z := EventsOf(c.setup), EventsOf(c.test), EventsOf(c.teardown);
    ChecksHaveNoSize(a);
    ChecksHaveNoSize(b);
    ChecksHaveNoSize(d);
    ChecksHaveNoSize(e);
    EventsSizeAppend(a + x + b + y + d + z, e);
    EventsSizeAppend(a + x + b + y + d, z);
    EventsSizeAppend(a + x + b + y, d);
    EventsSizeAppend(a + x + b, y);
    EventsSizeAppend(a + x, b);
    EventsSizeAppend(a, x);
  }

  // ----- the walk -----

  /** Where a registration goes: the lane before its group's head, and the last one for group 0. */
  function LaneOf(group: nat): nat {
    if group == 0 then GROUPS - 1 else group - 1
  }

  /** What a node of the list stands for: the entry, the group it was registered with, and whether
      that was during the run. */
  datatype Item = Item(entry: Case, group: nat, late: bool)

  /** With the walk in lane s: whether a new entry of the group goes ahead of it, which is so for the
      groups after s and for group 0. */
  predicate Ahead(s: nat, group: nat): (b: bool)
    ensures s < GROUPS ==> (b <==> group < GROUPS && (group == 0 || s < group))
  {
    group < GROUPS && s <= LaneOf(group)
  }

  /** lanes holds what is ahead: the rest of lane s first, then the later lanes. */
  predicate Shape(lanes: seq<seq<Item>>, s: nat) {
    s < GROUPS && |lanes| == GROUPS - s
  }

  function Place(lanes: seq<seq<Item>>, s: nat, group: nat, c: Case): (r: seq<seq<Item>>)
    requires Shape(lanes, s)
    ensures Shape(r, s)
  {
    if Ahead(s, group) then var k := LaneOf(group) - s; lanes[k := lanes[k] + [Item(c, group, true)]] else lanes
  }

  function PlaceAll(lanes: seq<seq<Item>>, s: nat, events: seq<Event>): (r: seq<seq<Item>>)
    requires Shape(lanes, s)
    ensures Shape(r, s)
    decreases |events|
  {
    if events == [] then lanes
    else
      var lanes' := match events[0]
                    case Register(group, entry) => Place(lanes, s, group, entry)
                    case Check(op) => lanes;
      PlaceAll(lanes', s, events[1..])
  }

  function LaneSize(lane: seq<Item>): nat {
    if lane == [] then 0 else CaseSize(lane[0].entry) + LaneSize(lane[1..])
  }

  function Weight(lanes: seq<seq<Item>>): nat {
    if lanes == [] then 0 else LaneSize(lanes[0]) + Weight(lanes[1..])
  }

  lemma {:induction false} LaneSizeAppend(lane: seq<Item>, c: Item)
    ensures LaneSize(lane + [c]) == LaneSize(lane) + CaseSize(c.entry)
    decreases |lane|
  {
    if lane == [] {
      assert (lane + [c])[1..] == lane;
    } else {
      assert (lane + [c])[1..] == lane[1..] + [c];
      LaneSizeAppend(lane[1..], c);
    }
  }

  lemma {:induction false} WeightUpdate(lanes: seq<seq<Item>>, k: nat, lane: seq<Item>)
    requires k < |lanes|
    ensures Weight(lanes[k := lane]) + LaneSize(lanes[k]) == Weight(lanes) + LaneSize(lane)
    decreases k
  {
    if k == 0 {
      assert lanes[0 := lane][1..] == lanes[1..];
    } else {
      assert lanes[k := lane][1..] == lanes[1..][k - 1 := lane];
      WeightUpdate(lanes[1..], k - 1, lane);
    }
  }

  lemma {:induction false} PlaceAllWeight(lanes: seq<seq<Item>>, s: nat, events: seq<Event>)
    requires Shape(lanes, s)
    ensures Weight(PlaceAll(lanes, s, events)) <= Weight(lanes) + EventsSize(events)
    decreases |events|
  {
    if events != [] {
      match events[0]
      case Register(group, entry) =>
        if Ahead(s, group) {
          var k := LaneOf(group) - s;
          WeightUpdate(lanes, k, lanes[k] + [Item(entry, group, true)]);
          LaneSizeAppend(lanes[k], Item(entry, group, true));
        }
        PlaceAllWeight(Place(lanes, s, group, entry), s, events[1..]);
      case Check(op) =>
        PlaceAllWeight(lanes, s, events[1..]);
    }
  }

  lemma StepWeight(lanes: seq<seq<Item>>, s: nat)
    requires Shape(lanes, s) && lanes[0] != []
    ensures Weight(PlaceAll(lanes[0 := lanes[0][1..]], s, CaseEvents(lanes[0][0].entry))) < Weight(lanes)
  {
    WeightUpdate(lanes, 0, lanes[0][1..]);
    PlaceAllWeight(lanes[0 := lanes[0][1..]], s, CaseEvents(lanes[0][0].entry));
    CaseEventsSize(lanes[0][0].entry);
  }

  lemma LaterWeight(lanes: seq<seq<Item>>)
    requires lanes != []
    ensures Weight(lanes[1..]) <= Weight(lanes)
  {
  }

  /** What is executed from here on, each entry with the lane it is met in. */
  function Walk(lanes: seq<seq<Item>>, s: nat): seq<(Item, nat)>
    requires Shape(lanes, s)
    decreases Weight(lanes), |lanes|
  {
    if lanes[0] != [] then
      StepWeight(lanes, s);
      [(lanes[0][0], s)] + Walk(PlaceAll(lanes[0 := lanes[0][1..]], s, CaseEvents(lanes[0][0].entry)), s)
    else if |lanes| == 1 then []
    else
      LaterWeight(lanes);
      Walk(lanes[1..], s + 1)
  }

  // ----- laws of the walk -----

  function Tagged(lane: seq<Item>, k: nat): (r: seq<(Item, nat)>)
    ensures |r| == |lane| && forall i | 0 <= i < |r| :: r[i] == (lane[i], k)
  {
    seq(|lane|, i requires 0 <= i < |lane| => (lane[i], k))
  }

  function Late(e: Event): Item
    requires e.Register?
  {
    Item(e.entry, e.group, true)
  }

  /** The entries that some events register ahead of lane s, each with the lane it will be met in. */
  function Accepted(events: seq<Event>, s: nat): seq<(Item, nat)> {
    if events == [] then []
    else
      (if events[0].Register? && Ahead(s, events[0].group) then [(Late(events[0]), LaneOf(events[0].group))] else [])
      + Accepted(events[1..], s)
  }

  /** Those that a function of an entry registers, if there is one. */
  function AcceptedOf(a: Action, s: nat): seq<(Item, nat)> {
    match a
    case Absent => []
    case Calls(events) => Accepted(events, s)
  }

  /** Those that an entry registers: its setup, then its test, then its teardown. */
  function AcceptedBy(c: Case, s: nat): seq<(Item, nat)> {
    AcceptedOf(c.setup, s) + AcceptedOf(c.test, s) + AcceptedOf(c.teardown, s)
  }

  /** Everything that the executed entries of a trace register ahead of themselves, in that order. */
  function AllAccepted(trace: seq<(Item, nat)>): seq<(Item, nat)> {
    if trace == [] then [] else AcceptedBy(trace[0].0.entry, trace[0].1) + AllAccepted(trace[1..])
  }

  lemma {:induction false} AcceptedAppend(a: seq<Event>, b: seq<Event>, s: nat)
    ensures Accepted(a + b, s) == Accepted(a, s) + Accepted(b, s)
    decreases |a|
  {
    if a == [] {
      assert a + b == b;
    } else {
      assert (a + b)[1..] == a[1..] + b;
      AcceptedAppend(a[1..], b, s);
    }
  }

  lemma AcceptedAfter(before: seq<Event>, op: UtAssert.Op, a: Action, s: nat, after: seq<Event>)
    requires after == before + [Check(op)] + EventsOf(a)
    ensures Accepted(after, s) == Accepted(before, s) + AcceptedOf(a, s)
  {
    AcceptedAppend(before + [Check(op)], EventsOf(a), s);
    AcceptedAppend(before, [Check(op)], s);
    NoneAccepted(op, s);
    assert Accepted(before, s) + [] == Accepted(before, s);
  }

  lemma NoneAccepted(op: UtAssert.Op, s: nat)
    ensures Accepted([Check(op)], s) == []
  {
    assert |[Check(op)][1..]| == 0;
  }

  /** All of that is registered, in that order, and nothing else. */
  lemma AcceptedParts(c: Case, s: nat)
    ensures Accepted(CaseEvents(c), s) == AcceptedBy(c, s)
  {
    var e0 := [Check(UtAssert.BeginTest)];
    var e1 := e0 + [Check(UtAssert.SetContext(UtAssert.TSF))] + EventsOf(c.setup);
    var e2 := e1 + [Check(UtAssert.SetContext(UtAssert.FAILURE))] + EventsOf(c.test);
    var e3 := e2 + [Check(UtAssert.SetContext(UtAssert.TTF))] + EventsOf(c.teardown);
    NoneAccepted(UtAssert.BeginTest, s);
    AcceptedAfter(e0, UtAssert.SetContext(UtAssert.TSF), c.setup, s, e1);
    AcceptedAfter(e1, UtAssert.SetContext(UtAssert.FAILURE), c.test, s, e2);
    AcceptedAfter(e2, UtAssert.SetContext(UtAssert.TTF), c.teardown, s, e3);
    CaseEventsParts(c, e0, e1, e2, e3);
    AcceptedAfter(e3, UtAssert.EndTest, Absent, s, CaseEvents(c));
    Emptied(AcceptedOf(c.setup, s), AcceptedOf(c.test, s), AcceptedOf(c.teardown, s));
  }

  lemma Emptied<T>(a: seq<T>, b: seq<T>, d: seq<T>)
    ensures [] + a + b + d + [] == a + b + d
  {
  }

  lemma CaseEventsParts(c: Case, e0: seq<Event>, e1: seq<Event>, e2: seq<Event>, e3: seq<Event>)
    requires e0 == [Check(UtAssert.BeginTest)]
    requires e1 == e0 + [Check(UtAssert.SetContext(UtAssert.TSF))] + EventsOf(c.setup)
    requires e2 == e1 + [Check(UtAssert.SetContext(UtAssert.FAILURE))] + EventsOf(c.test)
    requires e3 == e2 + [Check(UtAssert.SetContext(UtAssert.TTF))] + EventsOf(c.teardown)
    ensures CaseEvents(c) == e3 + [Check(UtAssert.EndTest)]
  {
    assert e0 + [Check(UtAssert.SetContext(UtAssert.TSF))] ==
           [Check(UtAssert.BeginTest), Check(UtAssert.SetContext(UtAssert.TSF))];
  }

  /** The part of a trace that is in one lane. */
  function OnLane(trace: seq<(Item, nat)>, k: nat): seq<(Item, nat)> {
    if trace == [] then [] else Kept(trace[0], k) + OnLane(trace[1..], k)
  }

  function Kept(x: (Item, nat), k: nat): seq<(Item, nat)> {
    if x.1 == k then [x] else []
  }

  lemma Assoc<T>(a: seq<T>, b: seq<T>, c: seq<T>)
    ensures (a + b) + c == a + (b + c)
  {
  }

  lemma {:induction false} OnLaneAppend(a: seq<(Item, nat)>, b: seq<(Item, nat)>, k: nat)
    ensures OnLane(a + b, k) == OnLane(a, k) + OnLane(b, k)
    decreases |a|
  {
    if a == [] {
      assert a + b == b;
    } else {
      assert (a + b)[1..] == a[1..] + b;
      OnLaneAppend(a[1..], b, k);
      Assoc(Kept(a[0], k), OnLane(a[1..], k), OnLane(b, k));
    }
  }

  lemma OnLaneCons(x: (Item, nat), trace: seq<(Item, nat)>, k: nat)
    ensures OnLane([x] + trace, k) == Kept(x, k) + OnLane(trace, k)
  {
    assert ([x] + trace)[1..] == trace;
  }

  lemma AllAcceptedCons(x: (Item, nat), trace: seq<(Item, nat)>)
    ensures AllAccepted([x] + trace) == Accepted(CaseEvents(x.0.entry), x.1) + AllAccepted(trace)
  {
    assert ([x] + trace)[1..] == trace;
    AcceptedParts(x.0.entry, x.1);
  }

  lemma TaggedAppend(lane: seq<Item>, c: Item, k: nat)
    ensures Tagged(lane + [c], k) == Tagged(lane, k) + [(c, k)]
  {
  }

  lemma TaggedHead(lane: seq<Item>, k: nat)
    requires lane != []
    ensures Tagged(lane, k) == [(lane[0], k)] + Tagged(lane[1..], k)
  {
  }

  lemma PlaceOnLane(lanes: seq<seq<Item>>, s: nat, group: nat, c: Case, k: nat)
    requires Shape(lanes, s) && s <= k < GROUPS
    ensures Tagged(Place(lanes, s, group, c)[k - s], k)
            == Tagged(lanes[k - s], k)
               + if Ahead(s, group) && LaneOf(group) == k then [(Item(c, group, true), k)] else []
  {
    TaggedAppend(lanes[k - s], Item(c, group, true), k);
  }

  /** Registrations join the end of their lane, in the order they are made. */
  lemma {:induction false} PlaceAllOnLane(lanes: seq<seq<Item>>, s: nat, events: seq<Event>, k: nat)
    requires Shape(lanes, s) && s <= k < GROUPS
    ensures Tagged(PlaceAll(lanes, s, events)[k - s], k) == Tagged(lanes[k - s], k) + OnLane(Accepted(events, s), k)
    decreases |events|
  {
    if events != [] {
      match events[0]
      case Register(group, entry) =>
        PlaceOnLane(lanes, s, group, entry, k);
        PlaceAllOnLane(Place(lanes, s, group, entry), s, events[1..], k);
        if Ahead(s, group) {
          var x := Item(entry, group, true);
          OnLaneCons((x, LaneOf(group)), Accepted(events[1..], s), k);
          Assoc(Tagged(lanes[k - s], k), if LaneOf(group) == k then [(x, k)] else [],
                OnLane(Accepted(events[1..], s), k));
        } else {
          assert Accepted(events, s) == Accepted(events[1..], s);
        }
      case Check(op) =>
        PlaceAllOnLane(lanes, s, events[1..], k);
        assert Accepted(events, s) == Accepted(events[1..], s);
    }
  }

  predicate AllFrom(trace: seq<(Item, nat)>, s: nat) {
    forall i | 0 <= i < |trace| :: s <= trace[i].1
  }

  lemma {:induction false} AcceptedFrom(events: seq<Event>, s: nat)
    ensures AllFrom(Accepted(events, s), s)
  {
    if events != [] { AcceptedFrom(events[1..], s); }
  }

  lemma {:induction false} AllAcceptedFrom(trace: seq<(Item, nat)>, s: nat)
    requires AllFrom(trace, s)
    ensures AllFrom(AllAccepted(trace), s)
  {
    if trace != [] {
      AcceptedFrom(CaseEvents(trace[0].0.entry), trace[0].1);
      AcceptedParts(trace[0].0.entry, trace[0].1);
      AllAcceptedFrom(trace[1..], s);
    }
  }

  lemma {:induction false} NoneBelow(trace: seq<(Item, nat)>, k: nat)
    requires AllFrom(trace, k + 1)
    ensures OnLane(trace, k) == []
  {
    if trace != [] { NoneBelow(trace[1..], k); }
  }

  /** The walk never turns back to an earlier lane. */
  lemma {:induction false} WalkGoesOn(lanes: seq<seq<Item>>, s: nat)
    requires Shape(lanes, s)
    ensures AllFrom(Walk(lanes, s), s)
    decreases Weight(lanes), |lanes|
  {
    if lanes[0] != [] {
      StepWeight(lanes, s);
      WalkGoesOn(PlaceAll(lanes[0 := lanes[0][1..]], s, CaseEvents(lanes[0][0].entry)), s);
    } else if |lanes| > 1 {
      LaterWeight(lanes);
      WalkGoesOn(lanes[1..], s + 1);
    }
  }

  lemma StepOnLane(x: (Item, nat), lanes: seq<seq<Item>>, next: seq<seq<Item>>, s: nat, walk: seq<(Item, nat)>, k: nat)
    requires Shape(lanes, s) && s <= k < GROUPS && x.1 == s && next == PlaceAll(lanes, s, CaseEvents(x.0.entry))
    requires OnLane(walk, k) == Tagged(next[k - s], k) + OnLane(AllAccepted(walk), k)
    ensures OnLane([x] + walk, k) == Kept(x, k) + (Tagged(lanes[k - s], k) + OnLane(AllAccepted([x] + walk), k))
  {
    OnLaneCons(x, walk, k);
    AllAcceptedCons(x, walk);
    OnLaneAppend(Accepted(CaseEvents(x.0.entry), s), AllAccepted(walk), k);
    PlaceAllOnLane(lanes, s, CaseEvents(x.0.entry), k);
    Assoc(Tagged(lanes[k - s], k), OnLane(Accepted(CaseEvents(x.0.entry), s), k), OnLane(AllAccepted(walk), k));
  }

  lemma FirstOnLane(lanes: seq<seq<Item>>, s: nat, k: nat, later: seq<(Item, nat)>)
    requires Shape(lanes, s) && s <= k < GROUPS && lanes[0] != []
    ensures Kept((lanes[0][0], s), k) + (Tagged(lanes[0 := lanes[0][1..]][k - s], k) + later)
            == Tagged(lanes[k - s], k) + later
  {
    TaggedHead(lanes[0], s);
    Assoc([(lanes[0][0], s)], Tagged(lanes[0][1..], s), later);
  }

  /** On one lane, a trace is the entries that were there and then those it accepts, in order. */
  predicate ExactOn(trace: seq<(Item, nat)>, lane: seq<Item>, k: nat) {
    OnLane(trace, k) == Tagged(lane, k) + OnLane(AllAccepted(trace), k)
  }

  lemma ExactStep(lanes: seq<seq<Item>>, next: seq<seq<Item>>, s: nat, walk: seq<(Item, nat)>, k: nat)
    requires Shape(lanes, s) && s <= k < GROUPS && lanes[0] != []
    requires next == PlaceAll(lanes[0 := lanes[0][1..]], s, CaseEvents(lanes[0][0].entry))
    requires ExactOn(walk, next[k - s], k)
    ensures ExactOn([(lanes[0][0], s)] + walk, lanes[k - s], k)
  {
    var x := (lanes[0][0], s);
    StepOnLane(x, lanes[0 := lanes[0][1..]], next, s, walk, k);
    FirstOnLane(lanes, s, k, OnLane(AllAccepted([x] + walk), k));
  }

  lemma PassedLane(walk: seq<(Item, nat)>, k: nat)
    requires AllFrom(walk, k + 1)
    ensures ExactOn(walk, [], k)
  {
    AllAcceptedFrom(walk, k + 1);
    NoneBelow(walk, k);
    NoneBelow(AllAccepted(walk), k);
  }

  /** Exactly what is executed, lane by lane: first the entries registered before the run, in order,
      then those that were registered ahead of the walk during it, in order; each once, nothing else. */
  lemma {:induction false} WalkIsExact(lanes: seq<seq<Item>>, s: nat, k: nat)
    requires Shape(lanes, s) && s <= k < GROUPS
    ensures ExactOn(Walk(lanes, s), lanes[k - s], k)
    decreases Weight(lanes), |lanes|
  {
    if lanes[0] != [] {
      var next := PlaceAll(lanes[0 := lanes[0][1..]], s, CaseEvents(lanes[0][0].entry));
      StepWeight(lanes, s);
      WalkIsExact(next, s, k);
      ExactStep(lanes, next, s, Walk(next, s), k);
    } else if |lanes| > 1 {
      WalkIsExactLater(lanes, lanes[1..], s, k, lanes[k - s]);
    } else {
      PassedLane([], k);
    }
  }

  lemma WalkPasses(later: seq<seq<Item>>, s: nat)
    requires Shape(later, s + 1)
    ensures ExactOn(Walk(later, s + 1), [], s)
  {
    WalkGoesOn(later, s + 1);
    PassedLane(Walk(later, s + 1), s);
  }

  lemma {:induction false} WalkIsExactLater(lanes: seq<seq<Item>>, later: seq<seq<Item>>, s: nat, k: nat,
                                            lane: seq<Item>)
    requires Shape(lanes, s) && s <= k < GROUPS && lanes[0] == [] && |lanes| > 1
    requires later == lanes[1..] && lane == lanes[k - s]
    ensures ExactOn(Walk(later, s + 1), lane, k)
    decreases Weight(lanes), |lanes|, 0
  {
    if k == s {
      WalkPasses(later, s);
    } else {
      assert later[k - (s + 1)] == lane;
      LaterWeight(lanes);
      WalkIsExact(later, s + 1, k);
    }
  }

  // ----- no registrations during the run -----

  predicate Registers(c: Case) {
    exists e | e in EventsOf(c.setup) + EventsOf(c.test) + EventsOf(c.teardown) :: e.Register?
  }

  function Flat(lanes: seq<seq<Item>>, s: nat): seq<(Item, nat)> {
    if lanes == [] then [] else Tagged(lanes[0], s) + Flat(lanes[1..], s + 1)
  }

  lemma {:induction false} ChecksPlaceNothing(lanes: seq<seq<Item>>, s: nat, events: seq<Event>)
    requires Shape(lanes, s) && forall e | e in events :: !e.Register?
    ensures PlaceAll(lanes, s, events) == lanes
    decreases |events|
  {
    if events != [] {
      assert !events[0].Register?;
      ChecksPlaceNothing(lanes, s, events[1..]);
    }
  }

  predicate Quiet(lanes: seq<seq<Item>>) {
    forall k, i | 0 <= k < |lanes| && 0 <= i < |lanes[k]| :: !Registers(lanes[k][i].entry)
  }

  lemma FlatHead(lanes: seq<seq<Item>>, s: nat)
    requires lanes != [] && lanes[0] != []
    ensures Flat(lanes, s) == [(lanes[0][0], s)] + Flat(lanes[0 := lanes[0][1..]], s)
  {
    TaggedHead(lanes[0], s);
    assert lanes[0 := lanes[0][1..]][1..] == lanes[1..];
    Assoc([(lanes[0][0], s)], Tagged(lanes[0][1..], s), Flat(lanes[1..], s + 1));
  }

  lemma FlatEmpty(lanes: seq<seq<Item>>, s: nat)
    requires lanes != [] && lanes[0] == []
    ensures Flat(lanes, s) == Flat(lanes[1..], s + 1)
  {
    assert Tagged(lanes[0], s) == [];
  }

  /** Without registrations during the run: every entry once, group by group in registration order. */
  lemma {:induction false} WalkInOrder(lanes: seq<seq<Item>>, s: nat)
    requires Shape(lanes, s) && Quiet(lanes)
    ensures Walk(lanes, s) == Flat(lanes, s)
    decreases Weight(lanes), |lanes|
  {
    if lanes[0] != [] {
      var rest := lanes[0 := lanes[0][1..]];
      StepWeight(lanes, s);
      assert !Registers(lanes[0][0].entry);
      ChecksPlaceNothing(rest, s, CaseEvents(lanes[0][0].entry));
      WalkInOrder(rest, s);
      FlatHead(lanes, s);
    } else {
      FlatEmpty(lanes, s);
      if |lanes| > 1 {
        LaterWeight(lanes);
        WalkInOrder(lanes[1..], s + 1);
      }
    }
  }

  // ----- the order by groups -----

  /** The lane in which an item is met. */
  function Home(x: Item): nat {
    if x.late then LaneOf(x.group) else x.group
  }

  /** The order of the groups; group 0 comes first when registered before the run, and last during it. */
  function Rank(x: Item): nat {
    if x.late && x.group == 0 then GROUPS else x.group
  }

  /** A lane holds the entries of one group from before the run, then those registered ahead of the next. */
  predicate Orderly(lane: seq<Item>, k: nat) {
    && (forall i | 0 <= i < |lane| :: lane[i].group < GROUPS && Home(lane[i]) == k)
    && (forall i, j | 0 <= i < j < |lane| :: lane[i].late ==> lane[j].late)
  }

  predicate AllOrderly(lanes: seq<seq<Item>>, s: nat) {
    forall k | 0 <= k < |lanes| :: Orderly(lanes[k], s + k)
  }

  /** As the groups are when the run begins. */
  predicate Before(lanes: seq<seq<Item>>) {
    |lanes| == GROUPS &&
    forall k, i | 0 <= k < GROUPS && 0 <= i < |lanes[k]| :: lanes[k][i].group == k && !lanes[k][i].late
  }

  lemma BeforeIsOrderly(lanes: seq<seq<Item>>)
    requires Before(lanes)
    ensures AllOrderly(lanes, 0)
  {
  }

  lemma RankOfLane(x: Item)
    requires x.group < GROUPS
    ensures Rank(x) == Home(x) + if x.late then 1 else 0
  {
  }

  predicate RanksFrom(lane: seq<Item>, r: nat) {
    forall i | 0 <= i < |lane| :: r <= Rank(lane[i])
  }

  predicate AllRanksFrom(lanes: seq<seq<Item>>, r: nat) {
    forall k | 0 <= k < |lanes| :: RanksFrom(lanes[k], r)
  }

  lemma PlaceOrderly(lanes: seq<seq<Item>>, s: nat, group: nat, c: Case, r: nat)
    requires Shape(lanes, s) && AllOrderly(lanes, s) && AllRanksFrom(lanes, r) && r <= s + 1
    ensures AllOrderly(Place(lanes, s, group, c), s) && AllRanksFrom(Place(lanes, s, group, c), r)
  {
    if Ahead(s, group) {
      RankOfLane(Item(c, group, true));
      var k := LaneOf(group) - s;
      assert Orderly(lanes[k], s + k) && RanksFrom(lanes[k], r);
    }
  }

  lemma {:induction false} PlaceAllOrderly(lanes: seq<seq<Item>>, s: nat, events: seq<Event>, r: nat)
    requires Shape(lanes, s) && AllOrderly(lanes, s) && AllRanksFrom(lanes, r) && r <= s + 1
    ensures AllOrderly(PlaceAll(lanes, s, events), s) && AllRanksFrom(PlaceAll(lanes, s, events), r)
    decreases |events|
  {
    if events != [] {
      match events[0]
      case Register(group, entry) =>
        PlaceOrderly(lanes, s, group, entry, r);
        PlaceAllOrderly(Place(lanes, s, group, entry), s, events[1..], r);
      case Check(op) =>
        PlaceAllOrderly(lanes, s, events[1..], r);
    }
  }

  predicate TraceRanksFrom(trace: seq<(Item, nat)>, r: nat) {
    forall i | 0 <= i < |trace| :: r <= Rank(trace[i].0)
  }

  /** Each entry is met in its lane. */
  predicate AtHome(trace: seq<(Item, nat)>) {
    forall i | 0 <= i < |trace| :: trace[i].0.group < GROUPS && trace[i].1 == Home(trace[i].0)
  }

  predicate Sorted(trace: seq<(Item, nat)>) {
    forall i, j | 0 <= i < j < |trace| :: Rank(trace[i].0) <= Rank(trace[j].0)
  }

  lemma RestOrderly(lanes: seq<seq<Item>>, s: nat)
    requires Shape(lanes, s) && AllOrderly(lanes, s) && lanes[0] != []
    ensures var rest := lanes[0 := lanes[0][1..]];
            AllOrderly(rest, s) && AllRanksFrom(rest, Rank(lanes[0][0])) && Rank(lanes[0][0]) <= s + 1
  {
    var rest, x := lanes[0 := lanes[0][1..]], lanes[0][0];
    assert Orderly(lanes[0], s + 0);
    RankOfLane(x);
    forall k | 0 <= k < |rest| ensures Orderly(rest[k], s + k) && RanksFrom(rest[k], Rank(x)) {
      assert Orderly(lanes[k], s + k);
      forall i | 0 <= i < |rest[k]| ensures Rank(x) <= Rank(rest[k][i]) {
        RankOfLane(rest[k][i]);
      }
    }
  }

  lemma RestRanks(lanes: seq<seq<Item>>, r: nat)
    requires lanes != [] && lanes[0] != [] && AllRanksFrom(lanes, r)
    ensures r <= Rank(lanes[0][0])
  {
    assert RanksFrom(lanes[0], r);
  }

  lemma LaterOrderly(lanes: seq<seq<Item>>, s: nat, r: nat)
    requires lanes != [] && AllOrderly(lanes, s) && AllRanksFrom(lanes, r)
    ensures AllOrderly(lanes[1..], s + 1) && AllRanksFrom(lanes[1..], r)
  {
    forall k | 0 <= k < |lanes[1..]| ensures Orderly(lanes[1..][k], s + 1 + k) && RanksFrom(lanes[1..][k], r) {
      assert Orderly(lanes[k + 1], s + (k + 1)) && RanksFrom(lanes[k + 1], r);
    }
  }

  lemma SortedCons(x: (Item, nat), walk: seq<(Item, nat)>, r: nat)
    requires Sorted(walk) && AtHome(walk) && TraceRanksFrom(walk, Rank(x.0)) && r <= Rank(x.0)
    requires x.0.group < GROUPS && x.1 == Home(x.0)
    ensures Sorted([x] + walk) && AtHome([x] + walk) && TraceRanksFrom([x] + walk, r)
  {
  }

  /** The groups run in order, setup before test before teardown, whatever is registered on the way. */
  lemma {:induction false} WalkIsSorted(lanes: seq<seq<Item>>, s: nat, r: nat)
    requires Shape(lanes, s) && AllOrderly(lanes, s) && AllRanksFrom(lanes, r) && r <= s + 1
    ensures Sorted(Walk(lanes, s)) && AtHome(Walk(lanes, s)) && TraceRanksFrom(Walk(lanes, s), r)
    decreases Weight(lanes), |lanes|
  {
    if lanes[0] != [] {
      var rest, x := lanes[0 := lanes[0][1..]], lanes[0][0];
      StepWeight(lanes, s);
      RestOrderly(lanes, s);
      RestRanks(lanes, r);
      PlaceAllOrderly(rest, s, CaseEvents(x.entry), Rank(x));
      var next := PlaceAll(rest, s, CaseEvents(x.entry));
      WalkIsSorted(next, s, Rank(x));
      assert Orderly(lanes[0], s + 0);
      SortedCons((x, s), Walk(next, s), r);
    } else if |lanes| > 1 {
      LaterWeight(lanes);
      LaterOrderly(lanes, s, r);
      WalkIsSorted(lanes[1..], s + 1, r);
    }
  }

  // ----- exactly what is executed, by groups -----

  /** The executed entries of a group, of those registered before the run or of those during it. */
  function Executed(trace: seq<(Item, nat)>, g: nat, late: bool): seq<Case> {
    if trace == [] then [] else Mine(trace[0].0, g, late) + Executed(trace[1..], g, late)
  }

  function Mine(x: Item, g: nat, late: bool): seq<Case> {
    if x.group == g && x.late == late then [x.entry] else []
  }

  function Entries(lane: seq<Item>): seq<Case> {
    if lane == [] then [] else [lane[0].entry] + Entries(lane[1..])
  }

  /** What some events register with a group. */
  function Registrations(events: seq<Event>, g: nat): seq<Case> {
    if events == [] then []
    else (if events[0].Register? && events[0].group == g then [events[0].entry] else []) + Registrations(events[1..], g)
  }

  function RegistrationsOf(a: Action, g: nat): seq<Case> {
    match a
    case Absent => []
    case Calls(events) => Registrations(events, g)
  }

  /** What an entry registers with a group: its setup, then its test, then its teardown. */
  function RegistrationsBy(c: Case, g: nat): seq<Case> {
    RegistrationsOf(c.setup, g) + RegistrationsOf(c.test, g) + RegistrationsOf(c.teardown, g)
  }

  /** What the executed entries register with a group while the walk has not passed it. */
  function InTime(trace: seq<(Item, nat)>, g: nat): seq<Case> {
    if trace == [] then []
    else (if Ahead(Home(trace[0].0), g) then RegistrationsBy(trace[0].0.entry, g) else []) + InTime(trace[1..], g)
  }

  lemma {:induction false} RegistrationsAppend(a: seq<Event>, b: seq<Event>, g: nat)
    ensures Registrations(a + b, g) == Registrations(a, g) + Registrations(b, g)
    decreases |a|
  {
    if a == [] {
      assert a + b == b;
    } else {
      assert (a + b)[1..] == a[1..] + b;
      RegistrationsAppend(a[1..], b, g);
    }
  }

  lemma NoRegistration(op: UtAssert.Op, g: nat)
    ensures Registrations([Check(op)], g) == []
  {
    assert |[Check(op)][1..]| == 0;
  }

  lemma RegistrationsAfter(before: seq<Event>, op: UtAssert.Op, a: Action, g: nat, after: seq<Event>)
    requires after == before + [Check(op)] + EventsOf(a)
    ensures Registrations(after, g) == Registrations(before, g) + RegistrationsOf(a, g)
  {
    RegistrationsAppend(before + [Check(op)], EventsOf(a), g);
    RegistrationsAppend(before, [Check(op)], g);
    NoRegistration(op, g);
    assert Registrations(before, g) + [] == Registrations(before, g);
  }

  /** The run of an entry makes all the registrations of its setup, then its test, then its teardown. */
  lemma RegistrationsParts(c: Case, g: nat)
    ensures Registrations(CaseEvents(c), g) == RegistrationsBy(c, g)
  {
    var e0 := [Check(UtAssert.BeginTest)];
    var e1 := e0 + [Check(UtAssert.SetContext(UtAssert.TSF))] + EventsOf(c.setup);
    var e2 := e1 + [Check(UtAssert.SetContext(UtAssert.FAILURE))] + EventsOf(c.test);
    var e3 := e2 + [Check(UtAssert.SetContext(UtAssert.TTF))] + EventsOf(c.teardown);
    NoRegistration(UtAssert.BeginTest, g);
    RegistrationsAfter(e0, UtAssert.SetContext(UtAssert.TSF), c.setup, g, e1);
    RegistrationsAfter(e1, UtAssert.SetContext(UtAssert.FAILURE), c.test, g, e2);
    RegistrationsAfter(e2, UtAssert.SetContext(UtAssert.TTF), c.teardown, g, e3);
    CaseEventsParts(c, e0, e1, e2, e3);
    RegistrationsAfter(e3, UtAssert.EndTest, Absent, g, CaseEvents(c));
    Emptied(RegistrationsOf(c.setup, g), RegistrationsOf(c.test, g), RegistrationsOf(c.teardown, g));
  }

  lemma {:induction false} ExecutedAppend(a: seq<(Item, nat)>, b: seq<(Item, nat)>, g: nat, late: bool)
    ensures Executed(a + b, g, late) == Executed(a, g, late) + Executed(b, g, late)
    decreases |a|
  {
    if a == [] {
      assert a + b == b;
    } else {
      assert (a + b)[1..] == a[1..] + b;
      ExecutedAppend(a[1..], b, g, late);
      Assoc(Mine(a[0].0, g, late), Executed(a[1..], g, late), Executed(b, g, late));
    }
  }

  lemma {:induction false} ExecutedOnLane(trace: seq<(Item, nat)>, g: nat, late: bool, k: nat)
    requires AtHome(trace) && k == if late then LaneOf(g) else g
    ensures Executed(OnLane(trace, k), g, late) == Executed(trace, g, late)
    decreases |trace|
  {
    if trace != [] {
      ExecutedOnLane(trace[1..], g, late, k);
      ExecutedAppend(Kept(trace[0], k), OnLane(trace[1..], k), g, late);
      if trace[0].1 == k {
        assert Kept(trace[0], k)[1..] == [];
      }
    }
  }

  lemma {:induction false} ExecutedOfLane(lane: seq<Item>, g: nat, k: nat, late: bool)
    requires forall i | 0 <= i < |lane| :: lane[i].group == k && !lane[i].late
    ensures Executed(Tagged(lane, k), g, late) == if g == k && !late then Entries(lane) else []
    decreases |lane|
  {
    if lane != [] {
      TaggedHead(lane, k);
      assert Tagged(lane, k)[1..] == Tagged(lane[1..], k);
      ExecutedOfLane(lane[1..], g, k, late);
    }
  }

  lemma {:induction false} ExecutedOfAccepted(events: seq<Event>, s: nat, g: nat, late: bool)
    ensures Executed(Accepted(events, s), g, late) == if late && Ahead(s, g) then Registrations(events, g) else []
    decreases |events|
  {
    if events != [] {
      ExecutedOfAccepted(events[1..], s, g, late);
      if events[0].Register? && Ahead(s, events[0].group) {
        assert Accepted(events, s)[1..] == Accepted(events[1..], s);
      } else {
        assert Accepted(events, s) == Accepted(events[1..], s);
      }
    }
  }

  lemma {:induction false} ExecutedOfAllAccepted(trace: seq<(Item, nat)>, g: nat, late: bool)
    requires AtHome(trace)
    ensures Executed(AllAccepted(trace), g, late) == if late then InTime(trace, g) else []
    decreases |trace|
  {
    if trace != [] {
      AcceptedParts(trace[0].0.entry, trace[0].1);
      RegistrationsParts(trace[0].0.entry, g);
      ExecutedOfAccepted(CaseEvents(trace[0].0.entry), trace[0].1, g, late);
      ExecutedOfAllAccepted(trace[1..], g, late);
      ExecutedAppend(Accepted(CaseEvents(trace[0].0.entry), trace[0].1), AllAccepted(trace[1..]), g, late);
    }
  }

  lemma {:induction false} AcceptedAtHome(events: seq<Event>, s: nat)
    ensures AtHome(Accepted(events, s))
    decreases |events|
  {
    if events != [] { AcceptedAtHome(events[1..], s); }
  }

  lemma {:induction false} AllAcceptedAtHome(trace: seq<(Item, nat)>)
    ensures AtHome(AllAccepted(trace))
    decreases |trace|
  {
    if trace != [] {
      AcceptedAtHome(CaseEvents(trace[0].0.entry), trace[0].1);
      AcceptedParts(trace[0].0.entry, trace[0].1);
      AllAcceptedAtHome(trace[1..]);
    }
  }

  lemma ExecutedOfParts(walk: seq<(Item, nat)>, lane: seq<Item>, accepted: seq<(Item, nat)>, g: nat, k: nat, late: bool)
    requires AtHome(walk) && AtHome(accepted) && k == if late then LaneOf(g) else g
    requires OnLane(walk, k) == Tagged(lane, k) + OnLane(accepted, k)
    requires forall i | 0 <= i < |lane| :: lane[i].group == k && !lane[i].late
    ensures Executed(walk, g, late) == (if late then [] else Entries(lane)) + Executed(accepted, g, late)
  {
    ExecutedOnLane(walk, g, late, k);
    ExecutedAppend(Tagged(lane, k), OnLane(accepted, k), g, late);
    ExecutedOfLane(lane, g, k, late);
    ExecutedOnLane(accepted, g, late, k);
  }

  lemma ExecutedByLane(walk: seq<(Item, nat)>, lane: seq<Item>, g: nat, k: nat, late: bool)
    requires AtHome(walk) && ExactOn(walk, lane, k) && k == if late then LaneOf(g) else g
    requires forall i | 0 <= i < |lane| :: lane[i].group == k && !lane[i].late
    ensures Executed(walk, g, late) == if late then InTime(walk, g) else Entries(lane)
  {
    AllAcceptedAtHome(walk);
    ExecutedOfParts(walk, lane, AllAccepted(walk), g, k, late);
    ExecutedOfAllAccepted(walk, g, late);
  }

  lemma WalkByGroups(lanes: seq<seq<Item>>, s: nat, walk: seq<(Item, nat)>, g: nat)
    requires Before(lanes) && g < GROUPS && s == 0 && walk == Walk(lanes, s) && AtHome(walk)
    ensures Executed(walk, g, false) == Entries(lanes[g]) && Executed(walk, g, true) == InTime(walk, g)
  {
    WalkIsExact(lanes, s, g);
    ExecutedByLane(walk, lanes[g], g, g, false);
    WalkIsExact(lanes, s, LaneOf(g));
    ExecutedByLane(walk, lanes[LaneOf(g)], g, LaneOf(g), true);
  }

  /** The groups run in order: by group, with group 0 last when it is registered during the run. */
  lemma RunIsSorted(lanes: seq<seq<Item>>)
    requires Before(lanes)
    ensures Sorted(Walk(lanes, 0)) && AtHome(Walk(lanes, 0))
  {
    BeforeIsOrderly(lanes);
    assert AllRanksFrom(lanes, 0);
    WalkIsSorted(lanes, 0, 0);
  }

  /** Of every group, the run executes the entries registered before it, each once and in order; and
      of those registered during it, each once and in order, exactly the ones registered by an entry
      whose lane comes before the group, or with group 0. */
  lemma RunIsExact(lanes: seq<seq<Item>>, g: nat)
    requires Before(lanes) && g < GROUPS
    ensures var walk := Walk(lanes, 0);
            Executed(walk, g, false) == Entries(lanes[g]) && Executed(walk, g, true) == InTime(walk, g)
  {
    RunIsSorted(lanes);
    WalkByGroups(lanes, 0, Walk(lanes, 0), g);
  }
}

/**
The tagged list of the test library: embedded heads and allocated data nodes linked into rings.
A ring is described by the sequence of its nodes from any starting point; the splicing operations
are operations on these sequences.
*/
module UtList {

  /** What a node carries: an embedded head has no data, every other node has. */
  datatype Payload<+T> = NoData | Data(value: T)

  class Node<T> {
    var next: Node<T>
    var prev: Node<T>
    const data: Payload<T>
    const tag: nat
    var live: bool

    constructor (data: Payload<T>, tag: nat)
      ensures this.data == data && this.tag == tag && live && next == this && prev == this
    {
      this.data, this.tag, live, next, prev := data, tag, true, this, this;
    }
  }

  function Succ(i: nat, n: nat): (j: nat)
    requires i < n
    ensures j < n
  {
    if i + 1 < n then i + 1 else 0
  }

  ghost predicate Distinct<T>(r: seq<Node<T>>) {
    forall i, j | 0 <= i < j < |r| :: r[i] != r[j]
  }

  ghost predicate Linked<T>(a: Node<T>, b: Node<T>)
    reads a, b
  {
    a.next == b && b.prev == a
  }

  /** The nodes of r, in this order, are one ring: next and prev are inverse all the way round. */
  ghost predicate Ring<T>(r: seq<Node<T>>)
    reads r
  {
    r != [] && Distinct(r) && forall i | 0 <= i < |r| :: Linked(r[i], r[Succ(i, |r|)])
  }

  lemma DistinctWithout<T>(a: seq<Node<T>>, x: Node<T>, b: seq<Node<T>>)
    requires Distinct(a + [x] + b)
    ensures Distinct(a + b)
  {
    var r, q := a + [x] + b, a + b;
    forall i, j | 0 <= i < j < |q| ensures q[i] != q[j] {
      assert q[i] == r[if i < |a| then i else i + 1] && q[j] == r[if j < |a| then j else j + 1];
    }
  }

  lemma DistinctParts<T>(a: seq<Node<T>>, b: seq<Node<T>>)
    requires Distinct(a + b)
    ensures Distinct(a) && Distinct(b)
    ensures forall x | x in a :: x !in b
  {
    var r := a + b;
    assert forall i | 0 <= i < |a| :: a[i] == r[i];
    assert forall i | 0 <= i < |b| :: b[i] == r[|a| + i];
  }

  /** A ring may be read from any of its nodes. */
  lemma Rotate<T>(a: seq<Node<T>>, b: seq<Node<T>>)
    requires Ring(a + b)
    ensures Ring(b + a)
  {
    var r, q := a + b, b + a;
    forall i | 0 <= i < |q| ensures Linked(q[i], q[Succ(i, |q|)]) {
      var j := if i < |b| then |a| + i else i - |b|;
      assert r[j] == q[i];
      assert Linked(r[j], r[Succ(j, |r|)]);
    }
    forall i, j | 0 <= i < j < |q| ensures q[i] != q[j] {
      var i', j' := if i < |b| then |a| + i else i - |b|, if j < |b| then |a| + j else j - |b|;
      assert r[i'] == q[i] && r[j'] == q[j] && i' != j';
    }
  }

  lemma RotateTo<T>(r: seq<Node<T>>, k: nat)
    requires Ring(r) && k <= |r|
    ensures Ring(r[k..] + r[..k])
  {
    assert r == r[..k] + r[k..];
    Rotate(r[..k], r[k..]);
  }

  method InsertBefore<T>(existing: Node<T>, node: Node<T>, ghost r: seq<Node<T>>, ghost k: nat)
    requires Ring(r) && k < |r| && r[k] == existing && node !in r
    modifies node`next, node`prev, existing`prev, existing.prev`next
    ensures Ring(r[..k] + [node] + r[k..])
  {
    ghost var q, n := r[k..] + r[..k], |r|;
    RotateTo(r, k);
    assert Linked(q[n - 1], q[Succ(n - 1, n)]);
    node.next := existing;
    node.prev := existing.prev;
    node.prev.next := node;
    node.next.prev := node;
    ghost var q' := q + [node];
    forall i | 0 <= i < n + 1 ensures Linked(q'[i], q'[Succ(i, n + 1)]) {
      if i < n - 1 {
        assert old(Linked(q[i], q[Succ(i, n)]));
        assert q[i] != q[n - 1] && q[i + 1] != q[0];
      }
    }
    assert q' == r[k..] + (r[..k] + [node]);
    Rotate(r[k..], r[..k] + [node]);
  }

  method InsertAfter<T>(existing: Node<T>, node: Node<T>, ghost r: seq<Node<T>>, ghost k: nat)
    requires Ring(r) && k < |r| && r[k] == existing && node !in r
    modifies node`next, node`prev, existing`next, existing.next`prev
    ensures Ring(r[..k + 1] + [node] + r[k + 1..])
  {
    ghost var q := r[k + 1..] + r[..k + 1];
    ghost var n := |r|;
    RotateTo(r, k + 1);
    assert q[n - 1] == existing;
    assert Linked(q[n - 1], q[Succ(n - 1, n)]);
    node.next := existing.next;
    node.prev := existing;
    node.prev.next := node;
    node.next.prev := node;
    ghost var q' := q + [node];
    forall i | 0 <= i < n + 1 ensures Linked(q'[i], q'[Succ(i, n + 1)]) {
      if i < n - 1 {
        assert old(Linked(q[i], q[Succ(i, n)]));
        assert q[i] != q[n - 1] && q[i + 1] != q[0];
      }
    }
    assert Ring(q');
    assert q' == r[k + 1..] + (r[..k + 1] + [node]);
    Rotate(r[k + 1..], r[..k + 1] + [node]);
  }

  /** The node leaves its ring and becomes a ring of its own. */
  method Extract<T>(existing: Node<T>, ghost a: seq<Node<T>>, ghost b: seq<Node<T>>)
    requires Ring(a + [existing] + b)
    modifies existing`next, existing`prev, existing.next`prev, existing.prev`next
    ensures Ring([existing])
    ensures a + b != [] ==> Ring(a + b)
  {
    ghost var r, k := a + [existing] + b, |a|;
    ghost var n := |r|;
    ghost var before := if k > 0 then k - 1 else n - 1;
    assert r[k] == existing;
    assert Linked(r[k], r[Succ(k, n)]);
    assert Linked(r[before], r[Succ(before, n)]);
    existing.next.prev := existing.prev;
    existing.prev.next := existing.next;
    existing.next := existing;
    existing.prev := existing;
    ghost var q := a + b;
    forall i | 0 <= i < |q| ensures Linked(q[i], q[Succ(i, |q|)]) {
      var j := if i < k then i else i + 1;
      assert q[i] == r[j];
      assert old(Linked(r[j], r[Succ(j, n)]));
    }
    DistinctWithout(a, existing, b);
  }

  ghost predicate Path<T>(a: seq<Node<T>>)
    reads a
  {
    forall i | 0 <= i < |a| - 1 :: Linked(a[i], a[i + 1])
  }

  lemma RingIsClosedPath<T>(a: seq<Node<T>>)
    requires a != []
    ensures Ring(a) <==> Distinct(a) && Path(a) && Linked(a[|a| - 1], a[0])
  {
    if Ring(a) {
      assert Linked(a[|a| - 1], a[Succ(|a| - 1, |a|)]);
      forall i | 0 <= i < |a| - 1 ensures Linked(a[i], a[i + 1]) {
        assert Linked(a[i], a[Succ(i, |a|)]);
      }
    }
  }

  lemma PathOfParts<T>(a: seq<Node<T>>, b: seq<Node<T>>)
    requires a != [] && b != []
    ensures Path(a + b) <==> Path(a) && Path(b) && Linked(a[|a| - 1], b[0])
  {
    var r := a + b;
    if Path(r) {
      forall i | 0 <= i < |a| - 1 ensures Linked(a[i], a[i + 1]) {
        assert Linked(r[i], r[i + 1]);
      }
      forall i | 0 <= i < |b| - 1 ensures Linked(b[i], b[i + 1]) {
        assert Linked(r[|a| + i], r[|a| + i + 1]);
      }
      assert Linked(r[|a| - 1], r[|a| - 1 + 1]);
    }
    if Path(a) && Path(b) && Linked(a[|a| - 1], b[0]) {
      forall i | 0 <= i < |r| - 1 ensures Linked(r[i], r[i + 1]) {
        if i < |a| - 1 {
          assert Linked(a[i], a[i + 1]);
        } else if i >= |a| {
          assert Linked(b[i - |a|], b[i - |a| + 1]);
        }
      }
    }
  }

  lemma LastInRing<T>(r: seq<Node<T>>)
    requires Ring(r)
    ensures r[0].prev == r[|r| - 1]
  {
    assert Linked(r[|r| - 1], r[Succ(|r| - 1, |r|)]);
  }

  /** Two rings become one, the second head kept inside; applied to that one again, they part. */
  method Merge<T>(head1: Node<T>, head2: Node<T>, ghost a: seq<Node<T>>, ghost b: seq<Node<T>>)
    requires a != [] && a[0] == head1 && b != [] && b[0] == head2
    requires (Ring(a) && Ring(b) && Distinct(a + b)) || Ring(a + b)
    modifies head1`prev, head2`prev, head1.prev`next, head2.prev`next
    ensures old(Ring(a) && Ring(b) && Distinct(a + b)) ==> Ring(a + b)
    ensures old(Ring(a + b)) ==> Ring(a) && Ring(b)
  {
    DistinctParts(a, b);
    RingIsClosedPath(a);
    RingIsClosedPath(b);
    RingIsClosedPath(a + b);
    PathOfParts(a, b);
    assert a[|a| - 1] in a && a[0] in a && b[|b| - 1] in b && b[0] in b;
    var tail1 := head1.prev;
    var tail2 := head2.prev;
    tail1.next := head2;
    tail2.next := head1;
    head1.prev := tail2;
    head2.prev := tail1;
    forall i | 0 <= i < |a| - 1 ensures Linked(a[i], a[i + 1]) {
      assert old(Linked(a[i], a[i + 1]));
      assert a[i] in a && a[i + 1] in a && a[i] != a[|a| - 1] && a[i + 1] != a[0];
    }
    forall i | 0 <= i < |b| - 1 ensures Linked(b[i], b[i + 1]) {
      assert old(Linked(b[i], b[i + 1]));
      assert b[i] in b && b[i + 1] in b && b[i] != b[|b| - 1] && b[i + 1] != b[0];
    }
    RingIsClosedPath(a);
    RingIsClosedPath(b);
    RingIsClosedPath(a + b);
    PathOfParts(a, b);
  }

  // ----- whole lists -----

  /** free() of a data node: it must be allocated, and not embedded in the list head. */
  method Free<T>(node: Node<T>)
    requires node.live && node.data.Data?
    modifies node`live
    ensures !node.live
  {
    node.live := false;
  }

  /** A node the list no longer holds: freed if it carried data, else a head with an empty ring. */
  ghost predicate Released<T>(node: Node<T>)
    reads node
  {
    if node.data.Data? then !node.live else node.live && node.next == node && node.prev == node
  }

  method DeleteNode<T>(node: Node<T>, ghost a: seq<Node<T>>, ghost b: seq<Node<T>>)
    requires Ring(a + [node] + b) && node.live
    modifies node`next, node`prev, node.next`prev, node.prev`next, node`live
    ensures Released(node) && (a + b != [] ==> Ring(a + b))
  {
    Extract(node, a, b);
    SecondInRing(node, []);
    LastInRing([node]);
    if node.data.Data? {
      Free(node);
    }
  }

  ghost predicate AllLive<T>(r: seq<Node<T>>)
    reads r
  {
    forall i | 0 <= i < |r| :: r[i].live
  }

  ghost predicate AllReleased<T>(r: seq<Node<T>>)
    reads r
  {
    forall i | 0 <= i < |r| :: Released(r[i])
  }

  /** Deletes every other node of the ring of a head, whatever heads were merged into it. */
  method Reset<T>(head: Node<T>, ghost rest: seq<Node<T>>)
    requires Ring([head] + rest) && AllLive(rest)
    modifies [head] + rest
    ensures Ring([head]) && AllReleased(rest)
    ensures head.live == old(head.live)
  {
    ghost var k, all := 0, [head] + rest;
    assert rest[0..] == rest;
    while head.next != head
      invariant k <= |rest| && Ring([head] + rest[k..])
      invariant forall i | 0 <= i < k :: Released(rest[i])
      invariant forall i | k <= i < |rest| :: rest[i].live
      invariant head.live == old(head.live)
      decreases |rest| - k
    {
      SecondInRing(head, rest[k..]);
      ghost var x := rest[k];
      assert [head] + rest[k..] == [head] + [x] + rest[k + 1..];
      assert all[0] == head && all[k + 1] == x;
      assert x.next == if k + 1 < |rest| then all[k + 2] else all[0];
      forall i | 0 <= i < |rest| && i != k ensures rest[i] != x && rest[i] != head {
        assert all[i + 1] != all[k + 1] && all[0] != all[i + 1];
      }
      if k + 1 < |rest| {
        forall i | 0 <= i < k ensures rest[i] != rest[k + 1] {
          assert all[i + 1] != all[k + 2];
        }
      }
      DeleteNode(head.next, [head], rest[k + 1..]);
      k := k + 1;
    }
    SecondInRing(head, rest[k..]);
  }

  /** The node after the head, and the one after that, as the links give them. */
  lemma SecondInRing<T>(head: Node<T>, rest: seq<Node<T>>)
    requires Ring([head] + rest)
    ensures head.next == if rest == [] then head else rest[0]
    ensures rest != [] ==> rest[0] != head && rest[0].prev == head
                           && rest[0].next == if |rest| == 1 then head else rest[1]
  {
    var r := [head] + rest;
    assert Linked(r[0], r[Succ(0, |r|)]);
    if rest != [] {
      assert r[0] != r[1];
      assert Linked(r[1], r[Succ(1, |r|)]);
    }
  }

  ghost function Nodes<T>(rings: seq<seq<Node<T>>>): (s: set<Node<T>>)
    ensures forall i | 0 <= i < |rings| :: forall x | x in rings[i] :: x in s
  {
    set i, x | 0 <= i < |rings| && x in rings[i] :: x
  }

  ghost predicate Disjoint<T>(rings: seq<seq<Node<T>>>) {
    forall i, j, x | 0 <= i < |rings| && 0 <= j < |rings| && i != j && x in rings[i] :: x !in rings[j]
  }

  ghost predicate Intact<T>(r: seq<Node<T>>)
    reads r
  {
    Ring(r) && AllLive(r)
  }

  lemma Position<T>(x: Node<T>, r: seq<Node<T>>) returns (p: nat)
    requires x in r
    ensures p < |r| && r[p] == x
  {
    p :| 0 <= p < |r| && r[p] == x;
  }

  lemma ReleasedRotation<T>(r: seq<Node<T>>, p: nat)
    requires p < |r| && Released(r[p]) && AllReleased(r[p + 1..] + r[..p])
    ensures AllReleased(r)
  {
    var q := r[p + 1..] + r[..p];
    forall i | 0 <= i < |r| ensures Released(r[i]) {
      if i > p { assert r[i] == q[i - p - 1]; } else if i < p { assert r[i] == q[|r| - p - 1 + i]; }
    }
  }

  /** The ring that Reset sees from a head, when its ring is whole or already released. */
  ghost function Others<T>(head: Node<T>, r: seq<Node<T>>, p: nat): seq<Node<T>>
    requires p < |r| && r[p] == head
    reads r
  {
    if AllReleased(r) then [] else r[p + 1..] + r[..p]
  }

  lemma OthersInRing<T>(head: Node<T>, r: seq<Node<T>>, p: nat)
    requires p < |r| && r[p] == head && head.data.NoData? && (Intact(r) || AllReleased(r))
    ensures var rest := Others(head, r, p); Ring([head] + rest) && AllLive(rest)
    ensures forall x | x in Others(head, r, p) :: x in r
  {
    if AllReleased(r) {
      assert Released(r[p]);
    } else {
      RotateTo(r, p);
      assert r[p..] + r[..p] == [head] + (r[p + 1..] + r[..p]);
    }
  }

  /** Reset on a head of a ring that is whole or already released: it is released. */
  method ResetRing<T>(head: Node<T>, ghost r: seq<Node<T>>)
    requires head in r && head.data.NoData? && (Intact(r) || AllReleased(r)) && head.live
    modifies r
    ensures AllReleased(r)
  {
    ghost var p := Position(head, r);
    ghost var rest := Others(head, r, p);
    OthersInRing(head, r, p);
    Reset(head, rest);
    SecondInRing(head, []);
    LastInRing([head]);
    if rest != [] { ReleasedRotation(r, p); }
  }

  ghost predicate Settled<T>(r: seq<Node<T>>)
    reads r
  {
    Intact(r) || AllReleased(r)
  }

  twostate predicate Untouched<T>(r: seq<Node<T>>)
    reads r
  {
    (old(Settled(r)) ==> Settled(r)) && (old(AllReleased(r)) ==> AllReleased(r))
  }

  lemma HeadIsLive<T>(head: Node<T>, r: seq<Node<T>>)
    requires head in r && head.data.NoData? && Settled(r)
    ensures head.live
  {
    var p := Position(head, r);
    if AllReleased(r) { assert Released(r[p]); }
  }

  /** Resetting one ring of a division leaves the others as they are. */
  method ResetOneOf<T>(head: Node<T>, ghost rings: seq<seq<Node<T>>>, ghost j: nat)
    requires j < |rings| && Disjoint(rings) && head in rings[j] && head.data.NoData? && head.live && Settled(rings[j])
    modifies rings[j]
    ensures AllReleased(rings[j])
    ensures forall i | 0 <= i < |rings| :: Untouched(rings[i])
  {
    ResetRing(head, rings[j]);
    forall i | 0 <= i < |rings| ensures Untouched(rings[i]) {
      if i != j {
        forall k | 0 <= k < |rings[i]| ensures rings[i][k] !in rings[j] {
          assert rings[i][k] in rings[i];
        }
        assert unchanged(rings[i]);
      }
    }
  }

  /** The rings of the first i heads are among those done. */
  ghost predicate Covered(home: seq<nat>, i: nat, done: set<nat>) {
    i <= |home| && forall k | 0 <= k < i :: home[k] in done
  }

  lemma CoveredNext(home: seq<nat>, i: nat, done: set<nat>)
    requires i < |home| && Covered(home, i, done)
    ensures Covered(home, i + 1, done + {home[i]})
  {
  }

  /** A list head: one block that holds the embedded head nodes, one for each tag. */
  class List<T> {
    const heads: seq<Node<T>>
    var live: bool
    ghost var repr: set<Node<T>>

    /** How the nodes of the list are divided into rings: separate, or merged in any way. The ring of
        heads[i] is rings[home[i]]. */
    ghost predicate Holds(rings: seq<seq<Node<T>>>, home: seq<nat>)
      reads this, Nodes(rings)
    {
      && live && Disjoint(rings) && |home| == |heads|
      && (forall j | 0 <= j < |rings| :: Intact(rings[j]))
      && (forall i | 0 <= i < |heads| :: home[i] < |rings| && heads[i] in rings[home[i]] && heads[i].data.NoData?)
    }

    constructor (tags: nat)
      ensures |heads| == tags && live
      ensures forall i | 0 <= i < tags :: fresh(heads[i]) && heads[i].tag == i && heads[i].data.NoData? && heads[i].live
      ensures forall i | 0 <= i < tags :: Ring([heads[i]])
      ensures Distinct(heads) && repr == set x | x in heads
    {
      var made: seq<Node<T>> := [];
      var i := 0;
      while i < tags
        invariant i <= tags && |made| == i && Distinct(made)
        invariant forall k | 0 <= k < i :: fresh(made[k]) && made[k].tag == k && made[k].data.NoData? && made[k].live
        invariant forall k | 0 <= k < i :: made[k].next == made[k] && made[k].prev == made[k]
      {
        var head := new Node<T>(NoData, i);
        made := made + [head];
        i := i + 1;
      }
      heads, live, repr := made, true, set x | x in made;
    }

    /** A node with the data, at the end of the ring of the tag's head; nothing for an unknown tag. */
    method Add(value: T, tag: nat, ghost r: seq<Node<T>>, ghost k: nat) returns (ghost added: seq<Node<T>>)
      requires tag < |heads| ==> Ring(r) && k < |r| && r[k] == heads[tag]
      modifies this`repr, if tag < |heads| then {heads[tag], heads[tag].prev} else {}
      ensures tag >= |heads| ==> added == [] && repr == old(repr) && (old(Intact(r)) ==> Intact(r))
      ensures tag < |heads| ==> |added| == 1 && fresh(added[0]) && Ring(r[..k] + added + r[k..])
      ensures tag < |heads| ==> repr == old(repr) + {added[0]}
      ensures tag < |heads| ==> added[0].live && added[0].data == Data(value) && added[0].tag == tag
      ensures forall x | x in r :: x.live == old(x.live)
    {
      added := [];
      if tag < |heads| {
        var node := new Node<T>(Data(value), tag);
        InsertBefore(heads[tag], node, r, k);
        added, repr := [node], repr + {node};
      }
    }
  
    /** Resets the ring of every head and frees the block: every data node in a ring with a head is
        freed, none twice, and every head is left an empty ring before the block that embeds it goes. */
    method Destroy(ghost rings: seq<seq<Node<T>>>, ghost home: seq<nat>)
      requires Holds(rings, home)
      modifies this`live, Nodes(rings)
      ensures !live
      ensures forall i | 0 <= i < |heads| :: AllReleased(rings[home[i]])
    {
      ghost var done: set<nat> := {};
      var i := 0;
      while i < |heads|
        invariant i <= |heads| && live
        invariant forall j | 0 <= j < |rings| :: Settled(rings[j])
        invariant forall j | j in done :: j < |rings| && AllReleased(rings[j])
        invariant Covered(home, i, done)
      {
        HeadIsLive(heads[i], rings[home[i]]);
        ResetOneOf(heads[i], rings, home[i]);
        CoveredNext(home, i, done);
        done := done + {home[i]};
        i := i + 1;
      }
      live := false;
    }
  }
}

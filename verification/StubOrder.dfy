/**
The order in which the entries of one kind and key are met. The documentation promises the
order in which they were added; the code delivers it exactly when no unused slot precedes
the last live entry, and this module proves that condition and what keeps it.
*/
module StubOrder {
  import opened Options
  import opened StubTable
  import opened StubInvariant
  import opened StubMemory

  // ----- chains under change -----

  lemma {:induction false} ChainSplit(t: Table, from: Key, kind: Kind, key: Key, lo: nat, mid: nat, hi: nat)
    requires lo <= mid <= hi <= SLOTS
    ensures Chain(t, from, kind, key, lo, hi) == Chain(t, from, kind, key, lo, mid) + Chain(t, from, kind, key, mid, hi)
    decreases hi - mid
  {
    if mid < hi { ChainSplit(t, from, kind, key, lo, mid, hi - 1); }
  }

  lemma {:induction false} ChainFrame(t: Table, t': Table, from: Key, kind: Kind, key: Key, lo: nat, hi: nat)
    requires lo <= hi <= SLOTS
    requires forall d | lo <= d < hi :: Holds(t[Slot(from, d)], kind, key) <==> Holds(t'[Slot(from, d)], kind, key)
    ensures Chain(t, from, kind, key, lo, hi) == Chain(t', from, kind, key, lo, hi)
    decreases hi - lo
  {
    if lo < hi { ChainFrame(t, t', from, kind, key, lo, hi - 1); }
  }

  lemma ChainOfOne(t: Table, from: Key, kind: Kind, key: Key, d: nat)
    requires d < SLOTS
    ensures Chain(t, from, kind, key, d, d + 1) == if Holds(t[Slot(from, d)], kind, key) then [d] else []
  {
    assert Chain(t, from, kind, key, d, d) == [];
  }

  /** The live entries before and after one slot of a key's probe sequence. */
  lemma LiveAround(t: Table, kind: Kind, key: Key, d: nat)
    requires d < SLOTS
    ensures Live(t, kind, key) == Chain(t, key, kind, key, 0, d)
                                  + (if Holds(t[Slot(key, d)], kind, key) then [d] else [])
                                  + Chain(t, key, kind, key, d + 1, |t|)
  {
    ChainSplit(t, key, kind, key, 0, d, |t|);
    ChainSplit(t, key, kind, key, d, d + 1, |t|);
    ChainOfOne(t, key, kind, key, d);
  }

  lemma SlotsDiffer(key: Key, d: nat, k: nat)
    requires d < SLOTS && k < SLOTS && d != k
    ensures Slot(key, d) != Slot(key, k)
  {
    SlotDistance(key, d);
    SlotDistance(key, k);
  }

  /** Changing one slot changes only the chain of what it held and of what it holds. */
  lemma LiveAroundChange(t: Table, kind: Kind, key: Key, d: nat, e: Entry)
    requires d < SLOTS
    ensures Live(t[Slot(key, d) := e], kind, key)
            == Chain(t, key, kind, key, 0, d) + (if Holds(e, kind, key) then [d] else [])
                + Chain(t, key, kind, key, d + 1, |t|)
  {
    var t' := t[Slot(key, d) := e];
    forall k | 0 <= k < SLOTS && k != d ensures t'[Slot(key, k)] == t[Slot(key, k)] {
      SlotsDiffer(key, d, k);
    }
    ChainFrame(t, t', key, kind, key, 0, d);
    ChainFrame(t, t', key, kind, key, d + 1, |t|);
    LiveAround(t', kind, key, d);
  }

  // ----- views -----

  /** The entries of (kind, key) in the order a search meets them. */
  function View(t: Table, kind: Kind, key: Key): (v: seq<Entry>)
    ensures |v| == |Live(t, kind, key)|
    ensures forall j | 0 <= j < |v| :: v[j] == t[Slot(key, Live(t, kind, key)[j])]
  {
    var c := Live(t, kind, key);
    seq(|c|, j requires 0 <= j < |c| => t[Slot(key, c[j])])
  }

  /** A change between entries that are not of (kind, key) does not show. */
  lemma ViewFrame(t: Table, i: nat, e: Entry, kind: Kind, key: Key)
    requires i < SLOTS && !Holds(t[i], kind, key) && !Holds(e, kind, key)
    ensures Live(t[i := e], kind, key) == Live(t, kind, key)
    ensures View(t[i := e], kind, key) == View(t, kind, key)
  {
    var t' := t[i := e];
    ChainFrame(t, t', key, kind, key, 0, |t|);
    forall j | 0 <= j < |Live(t, kind, key)| ensures View(t', kind, key)[j] == View(t, kind, key)[j] {
      assert Slot(key, Live(t, kind, key)[j]) != i;
    }
  }

  /** Two views with equal entries along one chain. */
  lemma SameEntriesSameView(t: Table, t': Table, kind: Kind, key: Key, a: nat, b: nat, c: seq<nat>, c': seq<nat>)
    requires c == Live(t, kind, key) && c' == Live(t', kind, key)
    requires a <= |c| && b <= |c'| && c[a..] == c'[b..]
    requires forall j | a <= j < |c| :: t[Slot(key, c[j])] == t'[Slot(key, c[j])]
    ensures View(t, kind, key)[a..] == View(t', kind, key)[b..]
  {
    forall j | a <= j < |c| ensures View(t, kind, key)[j] == View(t', kind, key)[b + (j - a)] {
      assert c[j] == c[a..][j - a] == c'[b..][j - a] == c'[b + (j - a)];
    }
  }

  lemma TailIsElsewhere(t: Table, kind: Kind, key: Key, j: nat)
    requires 0 < j < |Live(t, kind, key)|
    ensures Slot(key, Live(t, kind, key)[j]) != Slot(key, Live(t, kind, key)[0])
  {
    ChainIsSorted(t, key, kind, key, 0, |t|, 0, j);
    SlotsDiffer(key, Live(t, kind, key)[0], Live(t, kind, key)[j]);
  }

  function HeadSlot(t: Table, kind: Kind, key: Key): (i: nat)
    requires Live(t, kind, key) != []
    ensures i < SLOTS && Holds(t[i], kind, key)
  {
    Slot(key, Live(t, kind, key)[0])
  }

  lemma TailUnchanged(t: Table, kind: Kind, key: Key, e: Entry)
    requires Live(t, kind, key) != []
    ensures var c := Live(t, kind, key);
            forall j | 1 <= j < |c| :: t[Slot(key, c[j])] == t[HeadSlot(t, kind, key) := e][Slot(key, c[j])]
  {
    var c := Live(t, kind, key);
    forall j | 1 <= j < |c| ensures Slot(key, c[j]) != Slot(key, c[0]) {
      TailIsElsewhere(t, kind, key, j);
    }
  }

  lemma LiveOfRewrittenHead(t: Table, kind: Kind, key: Key, e: Entry)
    requires Live(t, kind, key) != [] && Holds(e, kind, key)
    ensures Live(t[HeadSlot(t, kind, key) := e], kind, key) == Live(t, kind, key)
  {
    ChainFrame(t, t[HeadSlot(t, kind, key) := e], key, kind, key, 0, |t|);
  }

  /** Rewriting the first entry in place rewrites the head of the view. */
  lemma ViewOfRewrittenHead(t: Table, kind: Kind, key: Key, e: Entry)
    requires Live(t, kind, key) != [] && Holds(e, kind, key)
    ensures View(t[HeadSlot(t, kind, key) := e], kind, key) == [e] + View(t, kind, key)[1..]
  {
    var t' := t[HeadSlot(t, kind, key) := e];
    LiveOfRewrittenHead(t, kind, key, e);
    TailUnchanged(t, kind, key, e);
    SameEntriesSameView(t, t', kind, key, 1, 1, Live(t, kind, key), Live(t', kind, key));
    HeadAndTail(View(t', kind, key), e);
  }

  lemma HeadAndTail(v: seq<Entry>, e: Entry)
    requires v != [] && v[0] == e
    ensures v == [e] + v[1..]
  {
  }

  lemma HeadSplits(t: Table, kind: Kind, key: Key)
    requires Live(t, kind, key) != []
    ensures var d := Live(t, kind, key)[0];
            Chain(t, key, kind, key, 0, d) == [] && Chain(t, key, kind, key, d + 1, |t|) == Live(t, kind, key)[1..]
  {
    LiveAround(t, kind, key, Live(t, kind, key)[0]);
  }

  lemma LiveOfClearedHead(t: Table, kind: Kind, key: Key)
    requires Live(t, kind, key) != [] && kind != Unused
    ensures Live(t[HeadSlot(t, kind, key) := Zero()], kind, key) == Live(t, kind, key)[1..]
  {
    HeadSplits(t, kind, key);
    LiveAroundChange(t, kind, key, Live(t, kind, key)[0], Zero());
  }

  /** Clearing the first entry leaves the tail of the view. */
  lemma ViewOfClearedHead(t: Table, kind: Kind, key: Key)
    requires Live(t, kind, key) != [] && kind != Unused
    ensures View(t[HeadSlot(t, kind, key) := Zero()], kind, key) == View(t, kind, key)[1..]
  {
    var t' := t[HeadSlot(t, kind, key) := Zero()];
    LiveOfClearedHead(t, kind, key);
    TailUnchanged(t, kind, key, Zero());
    SameEntriesSameView(t, t', kind, key, 1, 0, Live(t, kind, key), Live(t', kind, key));
  }

  // ----- the order of additions -----

  /** No unused slot precedes a live entry of (kind, key) in its probe sequence. */
  predicate Packed(t: Table, kind: Kind, key: Key) {
    forall d, k | d in Live(t, kind, key) && 0 <= k < d :: t[Slot(key, k)].kind != Unused
  }

  /** Slot d of the key's probe sequence is its first unused one. */
  predicate FreeAt(t: Table, key: Key, d: nat) {
    d < SLOTS && t[Slot(key, d)].kind == Unused && forall k | 0 <= k < d :: t[Slot(key, k)].kind != Unused
  }

  /** How many entries of (kind, key) come before the first unused slot of its probe sequence. */
  function Ahead(t: Table, kind: Kind, key: Key): nat
    requires FirstFree(t, key).Some?
  {
    |Chain(t, key, kind, key, 0, FirstFree(t, key).value)|
  }

  lemma FirstFreeIsFirst(t: Table, high: nat, key: Key)
    requires TableInv(t, high) && FirstFree(t, key).Some?
    ensures FreeAt(t, key, FirstFree(t, key).value)
  {
    var d := FirstFree(t, key).value;
    forall k | 0 <= k < d ensures t[Slot(key, k)].kind != Unused {
      assert SlotOk(t, high, Slot(key, k));
      if t[Slot(key, k)].kind == Unused { ChainHeadIsFirst(t, key, Unused, 0, 0, |t|, k); }
    }
  }

  lemma LiveSkips(t: Table, kind: Kind, key: Key, d: nat)
    requires d < SLOTS && !Holds(t[Slot(key, d)], kind, key)
    ensures Live(t, kind, key) == Chain(t, key, kind, key, 0, d) + Chain(t, key, kind, key, d + 1, |t|)
  {
    LiveAround(t, kind, key, d);
  }

  lemma LiveGains(t: Table, e: Entry, d: nat)
    requires d < SLOTS
    ensures Live(t[Slot(e.key, d) := e], e.kind, e.key)
            == Chain(t, e.key, e.kind, e.key, 0, d) + [d] + Chain(t, e.key, e.kind, e.key, d + 1, |t|)
  {
    LiveAroundChange(t, e.kind, e.key, d, e);
  }

  lemma PackedIffNoneLater(t: Table, kind: Kind, key: Key, d: nat)
    requires kind != Unused && FreeAt(t, key, d)
    ensures Packed(t, kind, key) <==> Chain(t, key, kind, key, d + 1, |t|) == []
  {
    LiveAround(t, kind, key, d);
    var later := Chain(t, key, kind, key, d + 1, |t|);
    if later != [] {
      assert later[0] in Live(t, kind, key) && d < later[0];
    } else {
      assert forall x | x in Live(t, kind, key) :: x < d;
    }
  }

  lemma InsertIsLast(before: seq<nat>, d: nat, later: seq<nat>)
    requires forall j | 0 <= j < |later| :: later[j] > d
    ensures before + [d] + later == before + later + [d] <==> later == []
  {
    if later != [] {
      assert (before + [d] + later)[|before| + |later|] == later[|later| - 1];
      assert (before + later + [d])[|before| + |later|] == d;
    }
  }

  /** The exact ordering law: an addition comes last in lookup order if and only if no unused
      slot precedes a live entry of the same kind and key. */
  lemma AddIsLastIffPacked(t: Table, e: Entry, d: nat)
    requires e.kind != Unused && FreeAt(t, e.key, d)
    ensures Live(t[Slot(e.key, d) := e], e.kind, e.key) == Live(t, e.kind, e.key) + [d] <==> Packed(t, e.kind, e.key)
  {
    LiveSkips(t, e.kind, e.key, d);
    LiveGains(t, e, d);
    PackedIffNoneLater(t, e.kind, e.key, d);
    InsertIsLast(Chain(t, e.key, e.kind, e.key, 0, d), d, Chain(t, e.key, e.kind, e.key, d + 1, |t|));
  }

  lemma ViewAfterAppend(t: Table, e: Entry, d: nat)
    requires e.kind != Unused && FreeAt(t, e.key, d)
    requires Live(t[Slot(e.key, d) := e], e.kind, e.key) == Live(t, e.kind, e.key) + [d]
    ensures View(t[Slot(e.key, d) := e], e.kind, e.key) == View(t, e.kind, e.key) + [e]
  {
    var t' := t[Slot(e.key, d) := e];
    var c := Live(t, e.kind, e.key);
    forall j | 0 <= j < |c| ensures t'[Slot(e.key, c[j])] == t[Slot(e.key, c[j])] {
      assert Holds(t[Slot(e.key, c[j])], e.kind, e.key);
    }
  }

  lemma PackedAfterAppend(t: Table, e: Entry, d: nat)
    requires e.kind != Unused && FreeAt(t, e.key, d) && Packed(t, e.kind, e.key)
    requires Live(t[Slot(e.key, d) := e], e.kind, e.key) == Live(t, e.kind, e.key) + [d]
    ensures Packed(t[Slot(e.key, d) := e], e.kind, e.key)
  {
    var t' := t[Slot(e.key, d) := e];
    forall x, k | x in Live(t', e.kind, e.key) && 0 <= k < x ensures t'[Slot(e.key, k)].kind != Unused {
      assert x in Live(t, e.kind, e.key) || x == d;
    }
  }

  /** In a packed chain the new entry ends the view, and the chain stays packed. */
  lemma AddToPacked(t: Table, e: Entry, d: nat)
    requires e.kind != Unused && FreeAt(t, e.key, d) && Packed(t, e.kind, e.key)
    ensures Packed(t[Slot(e.key, d) := e], e.kind, e.key)
    ensures View(t[Slot(e.key, d) := e], e.kind, e.key) == View(t, e.kind, e.key) + [e]
  {
    AddIsLastIffPacked(t, e, d);
    ViewAfterAppend(t, e, d);
    PackedAfterAppend(t, e, d);
  }

  /** Every slot in use stays in use. */
  predicate Grows(t: Table, t': Table) {
    forall i | 0 <= i < SLOTS && t[i].kind != Unused :: t'[i].kind != Unused
  }

  /** Nothing live is lost and nothing of (kind, key) is added: the chain stays packed. */
  lemma PackedSurvives(t: Table, t': Table, kind: Kind, key: Key)
    requires Packed(t, kind, key) && Grows(t, t')
    requires forall d | d in Live(t', kind, key) :: d in Live(t, kind, key)
    ensures Packed(t', kind, key)
  {
  }

  lemma EmptyIsPacked(t: Table, kind: Kind, key: Key)
    requires !Present(t, kind, key)
    ensures Packed(t, kind, key) && View(t, kind, key) == []
  {
    LiveIffPresent(t, kind, key);
  }
}

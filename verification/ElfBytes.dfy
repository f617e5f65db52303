/**
Numbers in files and in memory: the value of some bytes in either byte order, byte reversal, and
records whose fields are reversed in place when the file and the machine disagree on the order.
*/
module ElfBytes {

  type Octet = v: nat | v < 256

  /** The number that some bytes stand for. */
  function Int(b: seq<Octet>, little: bool): nat
    decreases |b|
  {
    if b == [] then 0
    else if little then b[0] + 256 * Int(b[1..], true)
    else 256 * Int(b[..|b| - 1], false) + b[|b| - 1]
  }

  function Rev<T>(b: seq<T>): (r: seq<T>)
    ensures |r| == |b| && forall i | 0 <= i < |b| :: r[i] == b[|b| - 1 - i]
  {
    seq(|b|, i requires 0 <= i < |b| => b[|b| - 1 - i])
  }

  lemma {:induction false} IntReversed(b: seq<Octet>, little: bool)
    ensures Int(Rev(b), !little) == Int(b, little)
    decreases |b|
  {
    var r := Rev(b);
    if b != [] {
      if little {
        assert r[..|r| - 1] == Rev(b[1..]);
        IntReversed(b[1..], true);
      } else {
        assert r[1..] == Rev(b[..|b| - 1]);
        IntReversed(b[..|b| - 1], false);
      }
    }
  }

  // ----- writing numbers -----

  function Low(v: nat): Octet {
    v % 256
  }

  /** The n bytes of a number. */
  function Encode(v: nat, n: nat, little: bool): (b: seq<Octet>)
    ensures |b| == n
    decreases n
  {
    if n == 0 then []
    else if little then [Low(v)] + Encode(v / 256, n - 1, true)
    else Encode(v / 256, n - 1, false) + [Low(v)]
  }

  function Limit(n: nat): nat {
    if n == 0 then 1 else 256 * Limit(n - 1)
  }

  /** Reading gives back what was written. */
  lemma {:induction false} IntEncode(v: nat, n: nat, little: bool)
    requires v < Limit(n)
    ensures Int(Encode(v, n, little), little) == v
    decreases n
  {
    if n > 0 {
      var b := Encode(v, n, little);
      IntEncode(v / 256, n - 1, little);
      if little {
        assert b[1..] == Encode(v / 256, n - 1, true);
      } else {
        assert b[..n - 1] == Encode(v / 256, n - 1, false);
      }
    }
  }

  lemma {:induction false} EncodeReversed(v: nat, n: nat, little: bool)
    ensures Rev(Encode(v, n, little)) == Encode(v, n, !little)
    decreases n
  {
    if n > 0 { EncodeReversed(v / 256, n - 1, little); }
  }

  // ----- records -----

  datatype Field = Field(at: nat, width: nat)

  /** The fields of a record of a given size, in order and apart. */
  predicate Format(fields: seq<Field>, size: nat) {
    && (forall i | 0 <= i < |fields| :: fields[i].at + fields[i].width <= size)
    && (forall i, j | 0 <= i < j < |fields| :: fields[i].at + fields[i].width <= fields[j].at)
  }

  /** Each field ends before the next begins, and the last within the size. */
  predicate Consecutive(fields: seq<Field>, size: nat) {
    forall i | 0 <= i < |fields| ::
      fields[i].at + fields[i].width <= if i + 1 < |fields| then fields[i + 1].at else size
  }

  lemma {:induction false} ConsecutiveApart(fields: seq<Field>, size: nat, i: nat, j: nat)
    requires Consecutive(fields, size) && i < j <= |fields|
    ensures fields[i].at + fields[i].width <= if j < |fields| then fields[j].at else size
    decreases j - i
  {
    if i + 1 < j { ConsecutiveApart(fields, size, i + 1, j); }
  }

  lemma ConsecutiveIsFormat(fields: seq<Field>, size: nat)
    requires Consecutive(fields, size)
    ensures Format(fields, size)
  {
    forall i | 0 <= i < |fields| ensures fields[i].at + fields[i].width <= size {
      ConsecutiveApart(fields, size, i, |fields|);
    }
    forall i, j | 0 <= i < j < |fields| ensures fields[i].at + fields[i].width <= fields[j].at {
      ConsecutiveApart(fields, size, i, j);
    }
  }

  function Slice(b: seq<Octet>, f: Field): seq<Octet>
    requires f.at + f.width <= |b|
  {
    b[f.at..f.at + f.width]
  }

  function SwapField(b: seq<Octet>, f: Field): (r: seq<Octet>)
    requires f.at + f.width <= |b|
    ensures |r| == |b|
  {
    b[..f.at] + Rev(Slice(b, f)) + b[f.at + f.width..]
  }

  function SwapFields(b: seq<Octet>, fields: seq<Field>): (r: seq<Octet>)
    requires forall i | 0 <= i < |fields| :: fields[i].at + fields[i].width <= |b|
    ensures |r| == |b|
    decreases |fields|
  {
    if fields == [] then b else SwapField(SwapFields(b, fields[..|fields| - 1]), fields[|fields| - 1])
  }

  lemma SwapOwn(b: seq<Octet>, f: Field)
    requires f.at + f.width <= |b|
    ensures Slice(SwapField(b, f), f) == Rev(Slice(b, f))
  {
  }

  lemma SwapOther(b: seq<Octet>, f: Field, g: Field)
    requires f.at + f.width <= g.at && g.at + g.width <= |b|
    ensures Slice(SwapField(b, f), g) == Slice(b, g) && Slice(SwapField(b, g), f) == Slice(b, f)
  {
    var r, q := SwapField(b, f), SwapField(b, g);
    forall i | 0 <= i < g.width ensures Slice(r, g)[i] == Slice(b, g)[i] {
      assert r[g.at + i] == b[g.at + i];
    }
    forall i | 0 <= i < f.width ensures Slice(q, f)[i] == Slice(b, f)[i] {
      assert q[f.at + i] == b[f.at + i];
    }
  }

  /** Swapping some fields leaves what comes after them. */
  lemma {:induction false} SwapLeavesLater(b: seq<Octet>, fields: seq<Field>, f: Field)
    requires Format(fields, |b|) && f.at + f.width <= |b|
    requires forall i | 0 <= i < |fields| :: fields[i].at + fields[i].width <= f.at
    ensures Slice(SwapFields(b, fields), f) == Slice(b, f)
    decreases |fields|
  {
    if fields != [] {
      var rest, last := fields[..|fields| - 1], fields[|fields| - 1];
      SwapLeavesLater(b, rest, f);
      SwapOther(SwapFields(b, rest), last, f);
    }
  }

  /** Swapping a record reverses each of its fields. */
  lemma {:induction false} SwappedField(b: seq<Octet>, fields: seq<Field>, k: nat)
    requires Format(fields, |b|) && k < |fields|
    ensures Slice(SwapFields(b, fields), fields[k]) == Rev(Slice(b, fields[k]))
    decreases |fields|
  {
    var rest, last := fields[..|fields| - 1], fields[|fields| - 1];
    var b' := SwapFields(b, rest);
    if k == |fields| - 1 {
      SwapLeavesLater(b, rest, last);
      SwapOwn(b', last);
    } else {
      SwappedField(b, rest, k);
      SwapOther(b', fields[k], last);
    }
  }

  /** What a machine finds in a field after the record was swapped if need be: the number in the file. */
  lemma FieldRead(b: seq<Octet>, fields: seq<Field>, k: nat, file: bool, host: bool)
    requires Format(fields, |b|) && k < |fields|
    ensures Int(Slice(if file != host then SwapFields(b, fields) else b, fields[k]), host) ==
            Int(Slice(b, fields[k]), file)
  {
    SwappedField(b, fields, k);
    if file != host { IntReversed(Slice(b, fields[k]), file); }
  }

  // ----- swapping in place -----

  function Exchanged(b: seq<Octet>, i: nat, j: nat): seq<Octet>
    requires i < j < |b|
  {
    b[i := b[j]][j := b[i]]
  }

  /** Reversing a field is exchanging its outer bytes and reversing the rest. */
  lemma SwapOuter(b: seq<Octet>, at: nat, n: nat)
    requires at + n + 2 <= |b|
    ensures SwapField(b, Field(at, n + 2)) == SwapField(Exchanged(b, at, at + n + 1), Field(at + 1, n))
  {
  }

  lemma SwapNothing(b: seq<Octet>, at: nat)
    requires at <= |b|
    ensures SwapField(b, Field(at, 0)) == b
  {
  }

  method Exchange(a: array<Octet>, i: nat, j: nat)
    requires i < j < a.Length
    modifies a
    ensures a[..] == Exchanged(old(a[..]), i, j)
  {
    var temp := a[j];
    a[j] := a[i];
    a[i] := temp;
  }

  method SwapUInt16(a: array<Octet>, at: nat)
    requires at + 2 <= a.Length
    modifies a
    ensures a[..] == SwapField(old(a[..]), Field(at, 2))
  {
    SwapOuter(a[..], at, 0);
    Exchange(a, at, at + 1);
    SwapNothing(a[..], at + 1);
  }

  method SwapUInt32(a: array<Octet>, at: nat)
    requires at + 4 <= a.Length
    modifies a
    ensures a[..] == SwapField(old(a[..]), Field(at, 4))
  {
    SwapOuter(a[..], at, 2);
    Exchange(a, at, at + 3);
    SwapOuter(a[..], at + 1, 0);
    Exchange(a, at + 1, at + 2);
    SwapNothing(a[..], at + 2);
  }

  method SwapUInt64(a: array<Octet>, at: nat)
    requires at + 8 <= a.Length
    modifies a
    ensures a[..] == SwapField(old(a[..]), Field(at, 8))
  {
    SwapOuter(a[..], at, 6);
    Exchange(a, at, at + 7);
    SwapOuter(a[..], at + 1, 4);
    Exchange(a, at + 1, at + 6);
    SwapOuter(a[..], at + 2, 2);
    Exchange(a, at + 2, at + 5);
    SwapOuter(a[..], at + 3, 0);
    Exchange(a, at + 3, at + 4);
    SwapNothing(a[..], at + 4);
  }

  /** The swap of a whole record, each field by its width. */
  method SwapRecord(a: array<Octet>, fields: seq<Field>)
    requires Format(fields, a.Length)
    requires forall i | 0 <= i < |fields| :: fields[i].width == 2 || fields[i].width == 4 || fields[i].width == 8
    modifies a
    ensures a[..] == SwapFields(old(a[..]), fields)
  {
    var i := 0;
    while i < |fields|
      invariant i <= |fields| && a[..] == SwapFields(old(a[..]), fields[..i])
    {
      assert fields[..i + 1][..i] == fields[..i];
      if fields[i].width == 2 {
        SwapUInt16(a, fields[i].at);
      } else if fields[i].width == 4 {
        SwapUInt32(a, fields[i].at);
      } else {
        SwapUInt64(a, fields[i].at);
      }
      i := i + 1;
    }
    assert fields[..i] == fields;
  }
}

/**
The records of an object file as the C structures have them: each member in its own width, one after
the other. The converter finds in its fields exactly the members that it means.
*/
module ElfRecords {
  import opened ElfBytes
  import opened ElfFile
  import opened Options

  // ----- where things are in a file -----

  predicate At(file: seq<Octet>, p: nat, b: seq<Octet>) {
    p + |b| <= |file| && file[p..p + |b|] == b
  }

  function Join(pieces: seq<seq<Octet>>): seq<Octet> {
    if pieces == [] then [] else Join(pieces[..|pieces| - 1]) + pieces[|pieces| - 1]
  }

  /** Where a piece begins. */
  function Start(pieces: seq<seq<Octet>>, k: nat): nat
    requires k <= |pieces|
  {
    if k == 0 then 0 else Start(pieces, k - 1) + |pieces[k - 1]|
  }

  lemma {:induction false} StartOfPrefix(pieces: seq<seq<Octet>>, n: nat, k: nat)
    requires k <= n <= |pieces|
    ensures Start(pieces[..n], k) == Start(pieces, k)
    decreases k
  {
    if k > 0 { StartOfPrefix(pieces, n, k - 1); }
  }

  lemma {:induction false} JoinSize(pieces: seq<seq<Octet>>)
    ensures |Join(pieces)| == Start(pieces, |pieces|)
    decreases |pieces|
  {
    if pieces != [] {
      JoinSize(pieces[..|pieces| - 1]);
      StartOfPrefix(pieces, |pieces| - 1, |pieces| - 1);
    }
  }

  lemma {:induction false} AtPrefix(a: seq<Octet>, b: seq<Octet>, p: nat, x: seq<Octet>)
    requires At(a, p, x)
    ensures At(a + b, p, x)
  {
    assert (a + b)[p..p + |x|] == a[p..p + |x|];
  }

  lemma {:induction false} AtPiece(pieces: seq<seq<Octet>>, k: nat)
    requires k < |pieces|
    ensures At(Join(pieces), Start(pieces, k), pieces[k])
    decreases |pieces|
  {
    var rest, last := pieces[..|pieces| - 1], pieces[|pieces| - 1];
    JoinSize(rest);
    StartOfPrefix(pieces, |pieces| - 1, |pieces| - 1);
    if k < |pieces| - 1 {
      AtPiece(rest, k);
      StartOfPrefix(pieces, |pieces| - 1, k);
      AtPrefix(Join(rest), last, Start(pieces, k), pieces[k]);
    }
  }

  lemma {:induction false} AtWithin(file: seq<Octet>, p: nat, b: seq<Octet>, q: nat, x: seq<Octet>)
    requires At(file, p, b) && At(b, q, x)
    ensures At(file, p + q, x)
  {
    forall i | 0 <= i < |x| ensures file[p + q..p + q + |x|][i] == x[i] {
      assert file[p..p + |b|][q + i] == file[p + q + i];
      assert b[q..q + |x|][i] == b[q + i];
    }
  }

  /** The pieces of a table that is in place are in place. */
  lemma {:induction false} AtInner(file: seq<Octet>, p: nat, pieces: seq<seq<Octet>>, k: nat)
    requires At(file, p, Join(pieces)) && k < |pieces|
    ensures At(file, p + Start(pieces, k), pieces[k])
  {
    AtPiece(pieces, k);
    AtWithin(file, p, Join(pieces), Start(pieces, k), pieces[k]);
  }

  // ----- members one after the other -----

  datatype Member = Member(width: nat, value: nat)

  function Written(members: seq<Member>, little: bool): seq<Octet> {
    if members == [] then []
    else Encode(members[0].value, members[0].width, little) + Written(members[1..], little)
  }

  /** Where a member is. */
  function Offset(members: seq<Member>, k: nat): nat
    requires k <= |members|
  {
    if k == 0 then 0 else Offset(members, k - 1) + members[k - 1].width
  }

  lemma {:induction false} OffsetAfterFirst(members: seq<Member>, k: nat)
    requires 0 < k <= |members|
    ensures Offset(members, k) == members[0].width + Offset(members[1..], k - 1)
    decreases k
  {
    if k > 1 { OffsetAfterFirst(members, k - 1); }
  }

  lemma {:induction false} WrittenSize(members: seq<Member>, little: bool)
    ensures |Written(members, little)| == Offset(members, |members|)
    decreases |members|
  {
    if members != [] {
      WrittenSize(members[1..], little);
      OffsetAfterFirst(members, |members|);
    }
  }

  lemma {:induction false} AtFront(a: seq<Octet>, b: seq<Octet>)
    ensures At(a + b, 0, a) && At(a + b, |a|, b)
  {
  }

  lemma {:induction false} MemberIsWritten(members: seq<Member>, little: bool, k: nat)
    requires k < |members|
    ensures At(Written(members, little), Offset(members, k), Encode(members[k].value, members[k].width, little))
    decreases |members|
  {
    var first, rest := Encode(members[0].value, members[0].width, little), Written(members[1..], little);
    AtFront(first, rest);
    if k > 0 {
      MemberIsWritten(members[1..], little, k - 1);
      OffsetAfterFirst(members, k);
      AtWithin(first + rest, |first|, rest, Offset(members[1..], k - 1),
               Encode(members[k].value, members[k].width, little));
    }
  }

  /** The members are in place, and each fits its width. */
  predicate Holds(file: seq<Octet>, at: nat, members: seq<Member>, little: bool) {
    && At(file, at, Written(members, little))
    && forall k | 0 <= k < |members| :: members[k].value < Limit(members[k].width)
  }

  /** A field that lies where a member does has its number. */
  lemma {:induction false} MemberIsRead(file: seq<Octet>, at: nat, size: nat, base: nat, members: seq<Member>,
                                        little: bool, k: nat, f: Field)
    requires Holds(file, at + base, members, little) && k < |members|
    requires f == Field(base + Offset(members, k), members[k].width) && f.at + f.width <= size && at + size <= |file|
    ensures Number(file[at..at + size], f, little) == members[k].value
  {
    var code := Encode(members[k].value, members[k].width, little);
    MemberIsWritten(members, little, k);
    AtWithin(file, at + base, Written(members, little), Offset(members, k), code);
    SliceOfFile(file, at, size, f);
    IntEncode(members[k].value, members[k].width, little);
  }

  lemma {:induction false} SliceOfFile(file: seq<Octet>, at: nat, size: nat, f: Field)
    requires at + size <= |file| && f.at + f.width <= size
    ensures Slice(file[at..at + size], f) == file[at + f.at..at + f.at + f.width]
  {
    var b := file[at..at + size];
    var x, y := Slice(b, f), file[at + f.at..at + f.at + f.width];
    forall i | 0 <= i < f.width ensures x[i] == y[i] {
      assert b[f.at + i] == file[at + (f.at + i)];
    }
  }

  // ----- the structures -----

  datatype FileHeader =
    FileHeader(kind: nat, machine: nat, version: nat, entry: nat, phoff: nat, shoff: nat, flags: nat, ehsize: nat,
               phentsize: nat, phnum: nat, shentsize: nat, shnum: nat, shstrndx: nat)

  datatype SectionHeader =
    SectionHeader(name: nat, kind: nat, flags: nat, addr: nat, offset: nat, size: nat, link: nat, info: nat,
                  addralign: nat, entsize: nat)

  datatype SymbolEntry = SymbolEntry(name: nat, value: nat, size: nat, info: nat, other: nat, shndx: nat)

  function WordSize(wide: bool): nat {
    if wide then 8 else 4
  }

  /** Elf32_Ehdr and Elf64_Ehdr, after the sixteen bytes of the identification. */
  function FileHeaderMembers(h: FileHeader, wide: bool): seq<Member> {
    var w := WordSize(wide);
    [Member(2, h.kind), Member(2, h.machine), Member(4, h.version), Member(w, h.entry), Member(w, h.phoff),
     Member(w, h.shoff), Member(4, h.flags), Member(2, h.ehsize), Member(2, h.phentsize), Member(2, h.phnum),
     Member(2, h.shentsize), Member(2, h.shnum), Member(2, h.shstrndx)]
  }

  /** Elf32_Shdr and Elf64_Shdr. */
  function SectionHeaderMembers(h: SectionHeader, wide: bool): seq<Member> {
    var w := WordSize(wide);
    [Member(4, h.name), Member(4, h.kind), Member(w, h.flags), Member(w, h.addr), Member(w, h.offset),
     Member(w, h.size), Member(4, h.link), Member(4, h.info), Member(w, h.addralign), Member(w, h.entsize)]
  }

  /** Elf32_Sym, and Elf64_Sym, which has its members in another order. */
  function SymbolMembers(s: SymbolEntry, wide: bool): seq<Member> {
    if wide
    then [Member(4, s.name), Member(1, s.info), Member(1, s.other), Member(2, s.shndx), Member(8, s.value),
          Member(8, s.size)]
    else [Member(4, s.name), Member(4, s.value), Member(4, s.size), Member(1, s.info), Member(1, s.other),
          Member(2, s.shndx)]
  }

  // ----- the converter's fields lie where the members are -----

  lemma {:induction false} FileHeaderPlaces(h: FileHeader, wide: bool)
    ensures var m, f := FileHeaderMembers(h, wide), EhdrFields(wide);
            && |m| == |f| == 13 && 16 + Offset(m, 13) == EhdrSize(wide)
            && forall k | 0 <= k < 13 :: f[k] == Field(16 + Offset(m, k), m[k].width)
  {
    var m, w := FileHeaderMembers(h, wide), WordSize(wide);
    assert Offset(m, 1) == 2;
    assert Offset(m, 2) == 4;
    assert Offset(m, 3) == 8;
    assert Offset(m, 4) == 8 + w;
    assert Offset(m, 5) == 8 + 2 * w;
    assert Offset(m, 6) == 8 + 3 * w;
    assert Offset(m, 7) == 12 + 3 * w;
    assert Offset(m, 8) == 14 + 3 * w;
    assert Offset(m, 9) == 16 + 3 * w;
    assert Offset(m, 10) == 18 + 3 * w;
    assert Offset(m, 11) == 20 + 3 * w;
    assert Offset(m, 12) == 22 + 3 * w;
    assert Offset(m, 13) == 24 + 3 * w;
  }

  lemma {:induction false} SectionHeaderPlaces(h: SectionHeader, wide: bool)
    ensures var m, f := SectionHeaderMembers(h, wide), ShdrFields(wide);
            && |m| == |f| == 10 && Offset(m, 10) == ShdrSize(wide)
            && forall k | 0 <= k < 10 :: f[k] == Field(Offset(m, k), m[k].width)
  {
    var m, w := SectionHeaderMembers(h, wide), WordSize(wide);
    assert Offset(m, 1) == 4;
    assert Offset(m, 2) == 8;
    assert Offset(m, 3) == 8 + w;
    assert Offset(m, 4) == 8 + 2 * w;
    assert Offset(m, 5) == 8 + 3 * w;
    assert Offset(m, 6) == 8 + 4 * w;
    assert Offset(m, 7) == 12 + 4 * w;
    assert Offset(m, 8) == 16 + 4 * w;
    assert Offset(m, 9) == 16 + 5 * w;
    assert Offset(m, 10) == 16 + 6 * w;
  }

  lemma {:induction false} SymbolPlaces(s: SymbolEntry, wide: bool)
    ensures var m, f := SymbolMembers(s, wide), SymFields(wide);
            && |m| == 6 && |f| == 4 && Offset(m, 6) == SymSize(wide) && f[0] == Field(Offset(m, 0), m[0].width)
            && (forall k | 1 <= k < 4 :: f[k] == if wide then Field(Offset(m, k + 2), m[k + 2].width)
                                          else if k < 3 then Field(Offset(m, k), m[k].width)
                                          else Field(Offset(m, 5), m[5].width))
  {
    var m := SymbolMembers(s, wide);
    assert Offset(m, 1) == 4;
    assert Offset(m, 2) == if wide then 5 else 8;
    assert Offset(m, 3) == (if wide then 6 else 12);
    assert Offset(m, 4) == if wide then 8 else 13;
    assert Offset(m, 5) == (if wide then 16 else 14);
    assert Offset(m, 6) == if wide then 24 else 16;
  }

  // ----- what the converter reads -----

  function HeadOf(h: FileHeader): Header {
    Header(h.kind, h.machine, h.version, h.shoff, h.shentsize, h.shnum, h.shstrndx)
  }

  function SectOf(h: SectionHeader): Shdr {
    Shdr(h.name, h.kind, h.offset, h.size, h.entsize)
  }

  function SymbOf(s: SymbolEntry): Sym {
    Sym(s.name, s.value, s.size, s.shndx)
  }

  lemma {:induction false} FieldInRecord(file: seq<Octet>, at: nat, size: nat, base: nat, members: seq<Member>,
                                         fields: seq<Field>, little: bool, j: nat, k: nat, r: seq<nat>)
    requires Holds(file, at + base, members, little) && k < |members| && j < |fields| && at + size <= |file|
    requires fields[j] == Field(base + Offset(members, k), members[k].width)
    requires base + Offset(members, |members|) == size
    requires RecordAt(file, at, size, fields, little) == Some(r)
    ensures r[j] == members[k].value
  {
    OffsetIsWithin(members, k + 1, |members|);
    MemberIsRead(file, at, size, base, members, little, k, fields[j]);
  }

  lemma {:induction false} OffsetIsWithin(members: seq<Member>, i: nat, j: nat)
    requires i <= j <= |members|
    ensures Offset(members, i) <= Offset(members, j)
    decreases j
  {
    if i < j { OffsetIsWithin(members, i, j - 1); }
  }

  /** Every field lies where a member does. */
  predicate Placed(base: nat, members: seq<Member>, fields: seq<Field>, size: nat) {
    && |fields| == |members| && base + Offset(members, |members|) == size
    && forall k | 0 <= k < |members| :: fields[k] == Field(base + Offset(members, k), members[k].width)
  }

  lemma {:induction false} RecordIsRead(file: seq<Octet>, at: nat, size: nat, base: nat, members: seq<Member>,
                                        fields: seq<Field>, little: bool)
    requires Holds(file, at + base, members, little) && Placed(base, members, fields, size)
    ensures var r := RecordAt(file, at, size, fields, little);
            r.Some? && forall k | 0 <= k < |members| :: r.value[k] == members[k].value
  {
    WrittenSize(members, little);
    var r := RecordAt(file, at, size, fields, little).value;
    forall k | 0 <= k < |members| ensures r[k] == members[k].value {
      FieldInRecord(file, at, size, base, members, fields, little, k, k, r);
    }
  }

  /** A file header, written member after member in either word size and byte order. */
  lemma {:induction false} FileHeaderIsRead(file: seq<Octet>, enc: Enc, h: FileHeader)
    requires Holds(file, 16, FileHeaderMembers(h, enc.wide), enc.little)
    ensures var r := RecordAt(file, 0, EhdrSize(enc.wide), EhdrFields(enc.wide), enc.little);
            r.Some? && HeaderOf(r.value) == HeadOf(h)
  {
    FileHeaderPlaces(h, enc.wide);
    RecordIsRead(file, 0, EhdrSize(enc.wide), 16, FileHeaderMembers(h, enc.wide), EhdrFields(enc.wide), enc.little);
  }

  /** A section header likewise. */
  lemma {:induction false} SectionHeaderIsRead(file: seq<Octet>, enc: Enc, at: nat, h: SectionHeader)
    requires Holds(file, at, SectionHeaderMembers(h, enc.wide), enc.little)
    ensures ShdrAt(file, enc, at) == Some(SectOf(h))
  {
    SectionHeaderPlaces(h, enc.wide);
    RecordIsRead(file, at, ShdrSize(enc.wide), 0, SectionHeaderMembers(h, enc.wide), ShdrFields(enc.wide), enc.little);
  }

  /** A symbol likewise. */
  lemma {:induction false} SymbolIsRead(file: seq<Octet>, enc: Enc, at: nat, s: SymbolEntry)
    requires at < TWO31 && Holds(file, at, SymbolMembers(s, enc.wide), enc.little)
    ensures SymAt(file, enc, at) == Some(SymbOf(s))
  {
    var m, f, size := SymbolMembers(s, enc.wide), SymFields(enc.wide), SymSize(enc.wide);
    SymbolPlaces(s, enc.wide);
    WrittenSize(m, enc.little);
    var r := RecordAt(file, at, size, f, enc.little).value;
    SymbolNumbers(file, enc, at, size, m, f, r, if enc.wide then 3 else 1, if enc.wide then 4 else 2);
  }

  lemma {:induction false} SymbolNumbers(file: seq<Octet>, enc: Enc, at: nat, size: nat, m: seq<Member>, f: seq<Field>,
                                         r: seq<nat>, second: nat, third: nat)
    requires Holds(file, at, m, enc.little) && at + size <= |file| && |m| == 6 && |f| == 4 && second < 6 && third < 6
    requires Offset(m, 6) == size && RecordAt(file, at, size, f, enc.little) == Some(r)
    requires f[0] == Field(Offset(m, 0), m[0].width) && f[1] == Field(Offset(m, second), m[second].width)
    requires f[2] == Field(Offset(m, third), m[third].width) && f[3] == Field(Offset(m, 5), m[5].width)
    ensures r[0] == m[0].value && r[1] == m[second].value && r[2] == m[third].value && r[3] == m[5].value
  {
    FieldInRecord(file, at, size, 0, m, f, enc.little, 0, 0, r);
    FieldInRecord(file, at, size, 0, m, f, enc.little, 1, second, r);
    FieldInRecord(file, at, size, 0, m, f, enc.little, 2, third, r);
    FieldInRecord(file, at, size, 0, m, f, enc.little, 3, 5, r);
  }

  // ----- the identification -----

  /** The first bytes: the magic number, the word size, the byte order and the version. */
  predicate Identifies(file: seq<Octet>, enc: Enc) {
    && |file| >= 16 && file[0] == 0x7F && file[1] == 'E' as nat && file[2] == 'L' as nat && file[3] == 'F' as nat
    && file[4] == (if enc.wide then 2 else 1) && file[5] == (if enc.little then 1 else 2) && file[6] == 1
  }

  lemma {:induction false} IdentIsRead(file: seq<Octet>, enc: Enc)
    ensures Ident(file) == Some(enc) <==> Identifies(file, enc)
  {
    assert 'E' as nat == 0x45 && 'L' as nat == 0x4C && 'F' as nat == 0x46;
    if |file| >= 16 {
      assert file[..4] == [file[0], file[1], file[2], file[3]];
      if file[..4] == [0x7F, 0x45, 0x4C, 0x46] {
        assert file[..4][0] == 0x7F && file[..4][1] == 0x45 && file[..4][2] == 0x4C && file[..4][3] == 0x46;
      }
    }
  }

  /** A header that is taken, where its bytes are: an object of a known kind, machine and version. */
  predicate HeaderIsGood(file: seq<Octet>, enc: Enc) {
    && |file| >= (if enc.wide then 64 else 52)
    && Int(file[16..18], enc.little) <= 4 && KnownMachine(Int(file[18..20], enc.little))
    && Int(file[20..24], enc.little) == 1
  }

  ghost predicate IsElf(file: seq<Octet>) {
    exists enc :: Identifies(file, enc) && HeaderIsGood(file, enc)
  }

  lemma {:induction false} GoodIsTaken(file: seq<Octet>, enc: Enc)
    ensures HeaderIsGood(file, enc) <==> HeaderAt(file, enc).Some?
  {
    var size, f := EhdrSize(enc.wide), EhdrFields(enc.wide);
    if |file| >= size {
      SliceOfFile(file, 0, size, f[0]);
      SliceOfFile(file, 0, size, f[1]);
      SliceOfFile(file, 0, size, f[2]);
    }
  }

  /** A file is taken for an object file exactly when it is one. */
  lemma {:induction false} ElfIsTaken(file: seq<Octet>)
    ensures IsElf(file) <==> Ident(file).Some? && HeaderAt(file, Ident(file).value).Some?
  {
    if IsElf(file) {
      var enc :| Identifies(file, enc) && HeaderIsGood(file, enc);
      IdentIsRead(file, enc);
      GoodIsTaken(file, enc);
    }
    if Ident(file).Some? {
      IdentIsRead(file, Ident(file).value);
      GoodIsTaken(file, Ident(file).value);
    }
  }
}

/**
A writer of object files: for given contents, a file in each of the four encodings. Converting it
gives back the definition and the data, so no encoding loses or adds anything.
*/
module ElfWriter {
  import opened ElfBytes
  import opened ElfFile
  import opened ElfHeaders
  import opened ElfRecords
  import opened ElfSelection
  import opened Options
  import opened ElfEncoding

  // ----- tables of records -----

  /** The size of n records. */
  function Times(n: nat, size: nat): nat {
    if n == 0 then 0 else Times(n - 1, size) + size
  }

  lemma {:induction false} TimesIsProduct(n: nat, size: nat)
    ensures Times(n, size) == n * size
    decreases n
  {
    if n > 0 { TimesIsProduct(n - 1, size); }
  }

  lemma {:induction false} TimesIsMonotone(i: nat, n: nat, size: nat)
    requires i <= n
    ensures Times(i, size) <= Times(n, size)
    decreases n
  {
    if i < n { TimesIsMonotone(i, n - 1, size); }
  }

  lemma {:induction false} FixedStart(pieces: seq<seq<Octet>>, size: nat, k: nat)
    requires k <= |pieces| && forall i | 0 <= i < |pieces| :: |pieces[i]| == size
    ensures Start(pieces, k) == Times(k, size)
    decreases k
  {
    if k > 0 { FixedStart(pieces, size, k - 1); }
  }

  // ----- the numbers fit their members -----

  lemma Limits()
    ensures Limit(1) == 256 && Limit(2) == 0x1_0000 && Limit(4) == TWO32 && Limit(8) > TWO32
  {
    assert Limit(1) == 256 && Limit(2) == 65536 && Limit(3) == 16777216;
    assert Limit(5) == 256 * Limit(4) && Limit(6) == 256 * Limit(5) && Limit(7) == 256 * Limit(6);
  }

  /** Members of a width hold what is small enough. */
  predicate Small(m: Member) {
    && (m.width == 1 || m.width == 2 || m.width == 4 || m.width == 8) && m.value < TWO32
    && (m.width == 1 ==> m.value < 256) && (m.width == 2 ==> m.value < 0x1_0000)
  }

  lemma {:induction false} SmallIsHeld(file: seq<Octet>, at: nat, members: seq<Member>, little: bool)
    requires At(file, at, Written(members, little)) && forall k | 0 <= k < |members| :: Small(members[k])
    ensures Holds(file, at, members, little)
  {
    Limits();
    forall k | 0 <= k < |members| ensures members[k].value < Limit(members[k].width) {
      assert Small(members[k]);
    }
  }

  // ----- contents that can be written -----

  predicate IsText(t: seq<Octet>) {
    |t| < 60 && forall i | 0 <= i < |t| :: t[i] != 0
  }

  predicate GoodSections(c: Contents) {
    && 0 < |c.sections| < 0x1_0000 && c.names < |c.sections|
    && (forall i | 0 <= i < |c.sections| :: c.sections[i].kind < TWO32)
    && (forall i | 0 <= i < |c.sections| && c.sections[i].name.Some? :: IsText(c.sections[i].name.value))
    && StringsIndex(c.sections, c.names, |c.sections|).Some? && TableIndex(c.sections, |c.sections|).Some?
  }

  predicate GoodSymbols(c: Contents) {
    && |c.symbols| > 0
    && (forall i | 0 <= i < |c.symbols| ::
          IsText(c.symbols[i].name) && c.symbols[i].size < TWO32 && c.symbols[i].section < 0x1_0000)
  }

  predicate GoodDef(c: Contents) {
    var d := DefOfSymbols(c.symbols, |c.symbols|);
    && d.Some? && c.symbols[d.value].section < |c.sections|
    && (c.symbols[d.value].size == DEF_SIZE || c.symbols[d.value].size == 0)
    && c.def.size < TWO32
    && IsText(c.def.objectName) && IsText(c.def.table) && |c.def.table| < 40
    && IsText(c.def.description) && |c.def.description| < 32
  }

  /** The user's object is not the definition itself, and the data are what its symbol says. */
  predicate GoodData(c: Contents) {
    var u := ObjectOfSymbols(c.symbols, c.def.objectName, 0);
    && u.Some? && u != DefOfSymbols(c.symbols, |c.symbols|) && |c.data| < TWO31
    && var s := c.symbols[u.value];
       && s.section < |c.sections| && c.sections[s.section].name.Some?
       && if Spelled(c.sections[s.section].name.value, ".bss") then c.data == Zeros(s.size)
          else Agreed(|c.data|, s.size, c.def.size)
  }

  predicate Good(c: Contents) {
    GoodSections(c) && GoodSymbols(c) && GoodDef(c) && GoodData(c)
  }

  // ----- a plan of the file and the numbers in it -----

  /** Where the symbol table, each name, the definition and the data are to be, and the table's size. */
  datatype Plan = Plan(table: nat, size: nat, nameAt: seq<nat>, symbolAt: seq<nat>, def: nat, data: nat)

  predicate Reachable(p: Plan) {
    && 1 < p.table < p.def < TWO31 && p.table < p.data < TWO31 && p.size < TWO31
    && (forall i | 0 <= i < |p.nameAt| :: p.table < p.nameAt[i] < TWO31)
    && (forall i | 0 <= i < |p.symbolAt| :: p.table < p.symbolAt[i] < TWO31)
  }

  predicate Fitting(p: Plan, c: Contents) {
    |p.nameAt| == |c.sections| && |p.symbolAt| == |c.symbols| && Reachable(p)
  }

  /** All sections begin at offset 1 but the symbol table, so that every other offset is free to choose. */
  function OffsetOf(c: Contents, p: Plan, i: nat): nat {
    if Some(i) == TableIndex(c.sections, |c.sections|) then p.table else 1
  }

  function StringsOffset(c: Contents, p: Plan): nat {
    match StringsIndex(c.sections, c.names, |c.sections|)
    case None => 1
    case Some(i) => OffsetOf(c, p, i)
  }

  function Minus(a: nat, b: nat): nat {
    if a >= b then a - b else 0
  }

  function HeadRecord(c: Contents, wide: bool): FileHeader {
    FileHeader(1, 3, 1, 0, 0, EhdrSize(wide), 0, EhdrSize(wide), 0, 0, ShdrSize(wide), |c.sections|, c.names)
  }

  function ShdrRecord(c: Contents, p: Plan, wide: bool, i: nat): SectionHeader
    requires i < |c.sections| == |p.nameAt|
  {
    var name := if c.sections[i].name.None? then 0 else Minus(p.nameAt[i], OffsetOf(c, p, c.names));
    SectionHeader(name, c.sections[i].kind, 0, 0, OffsetOf(c, p, i), p.size, 0, 0, 0, SymSize(wide))
  }

  /** The value that puts a symbol's bytes where they are written. */
  function ValueOf(c: Contents, p: Plan, i: nat): nat
    requires i < |c.symbols|
  {
    if DefOfSymbols(c.symbols, |c.symbols|) == Some(i) then Minus(p.def, OffsetOf(c, p, c.symbols[i].section))
    else if ObjectOfSymbols(c.symbols, c.def.objectName, 0) == Some(i)
    then Minus(p.data, OffsetOf(c, p, c.symbols[i].section))
    else 0
  }

  /** A global object, as compilers make it for a table. */
  function SymOfIndex(c: Contents, p: Plan, i: nat): SymbolEntry
    requires i < |c.symbols| == |p.symbolAt|
  {
    SymbolEntry(Minus(p.symbolAt[i], StringsOffset(c, p)), ValueOf(c, p, i), c.symbols[i].size, 0x11, 0,
                c.symbols[i].section)
  }

  function LayoutOf(c: Contents, p: Plan, wide: bool): (l: Layout)
    requires |c.sections| == |p.nameAt| && |c.symbols| == |p.symbolAt|
    ensures l.head == HeadRecord(c, wide) && |l.shdrs| == |c.sections| && |l.syms| == |c.symbols|
    ensures forall i | 0 <= i < |l.shdrs| :: l.shdrs[i] == ShdrRecord(c, p, wide, i)
    ensures forall i | 0 <= i < |l.syms| :: l.syms[i] == SymOfIndex(c, p, i)
  {
    Layout(HeadRecord(c, wide),
           seq(|c.sections|, i requires 0 <= i < |c.sections| => ShdrRecord(c, p, wide, i)),
           seq(|c.symbols|, i requires 0 <= i < |c.symbols| => SymOfIndex(c, p, i)))
  }

  // ----- the bytes -----

  function IdentBytes(enc: Enc): (r: seq<Octet>)
    ensures |r| == 16
  {
    [0x7F, 0x45, 0x4C, 0x46, if enc.wide then 2 else 1, if enc.little then 1 else 2, 1, 0, 0, 0, 0, 0, 0, 0, 0, 0]
  }

  function EhdrBytes(h: FileHeader, enc: Enc): (r: seq<Octet>)
    ensures |r| == EhdrSize(enc.wide)
  {
    FileHeaderPlaces(h, enc.wide);
    WrittenSize(FileHeaderMembers(h, enc.wide), enc.little);
    IdentBytes(enc) + Written(FileHeaderMembers(h, enc.wide), enc.little)
  }

  function ShdrBytes(h: SectionHeader, enc: Enc): (r: seq<Octet>)
    ensures |r| == ShdrSize(enc.wide)
  {
    SectionHeaderPlaces(h, enc.wide);
    WrittenSize(SectionHeaderMembers(h, enc.wide), enc.little);
    Written(SectionHeaderMembers(h, enc.wide), enc.little)
  }

  function SymBytes(s: SymbolEntry, enc: Enc): (r: seq<Octet>)
    ensures |r| == SymSize(enc.wide)
  {
    SymbolPlaces(s, enc.wide);
    WrittenSize(SymbolMembers(s, enc.wide), enc.little);
    Written(SymbolMembers(s, enc.wide), enc.little)
  }

  function PadTo(text: seq<Octet>, n: nat): (r: seq<Octet>)
    ensures |r| == n
  {
    if |text| <= n then Pad(text, n) else Zeros(n)
  }

  function DefBytes(def: Def, little: bool): (r: seq<Octet>)
    ensures |r| == DEF_SIZE
  {
    PadTo(def.objectName, 64) + PadTo(def.table, 40) + PadTo(def.description, 32) + Zeros(20)
        + Encode(def.size, 4, little)
  }

  lemma TextIsHeld(file: seq<Octet>, at: nat, t: seq<Octet>)
    requires At(file, at, t + [0]) && IsText(t) && at < TWO31
    ensures HoldsText(file, at, t)
  {
    var b := t + [0];
    assert file[at..at + |b|][|t|] == 0;
    assert file[at..at + |t|] == file[at..at + |b|][..|t|];
    assert b[..|t|] == t;
  }

  // ----- the identification -----

  lemma FrontOf(file: seq<Octet>, b: seq<Octet>)
    requires At(file, 0, b) && |b| >= 16
    ensures |file| >= 16 && file[..16] == b[..16]
  {
    assert file[..16] == file[0..|b|][..16];
  }

  lemma IdentIsHeld(file: seq<Octet>, h: FileHeader, enc: Enc)
    requires At(file, 0, EhdrBytes(h, enc))
    ensures Identifies(file, enc)
  {
    var b := EhdrBytes(h, enc);
    assert b[..16] == IdentBytes(enc);
    FrontOf(file, b);
    var front := file[..16];
    assert front == IdentBytes(enc) && 'E' as nat == 0x45 && 'L' as nat == 0x4C && 'F' as nat == 0x46;
    assert front[0] == file[0] && front[1] == file[1] && front[2] == file[2] && front[3] == file[3];
    assert front[4] == file[4] && front[5] == file[5] && front[6] == file[6];
  }

  // ----- the definition -----

  lemma PadIsText(text: seq<Octet>, n: nat)
    requires IsText(text) && |text| < n
    ensures Begins(PadTo(text, n), text)
  {
  }

  lemma Parts(a: seq<Octet>, b: seq<Octet>, c: seq<Octet>, z: seq<Octet>, d: seq<Octet>)
    requires |a| == 64 && |b| == 40 && |c| == 32 && |z| == 20 && |d| == 4
    ensures var r := a + b + c + z + d;
            |r| == 160 && r[..64] == a && r[64..104] == b && r[104..136] == c && r[156..160] == d
  {
  }

  lemma DefIsHeld(def: Def, little: bool)
    requires IsText(def.objectName) && IsText(def.table) && |def.table| < 40
    requires IsText(def.description) && |def.description| < 32 && def.size < TWO32
    ensures HoldsDef(DefBytes(def, little), def, little)
  {
    PadIsText(def.objectName, 64);
    PadIsText(def.table, 40);
    PadIsText(def.description, 32);
    Parts(PadTo(def.objectName, 64), PadTo(def.table, 40), PadTo(def.description, 32), Zeros(20),
          Encode(def.size, 4, little));
  }

  // ----- a file that follows a plan encodes the contents -----

  predicate ShdrIn(file: seq<Octet>, c: Contents, enc: Enc, p: Plan, i: nat)
    requires i < |c.sections| == |p.nameAt|
  {
    At(file, EhdrSize(enc.wide) + Times(i, ShdrSize(enc.wide)), ShdrBytes(ShdrRecord(c, p, enc.wide, i), enc))
  }

  predicate NameIn(file: seq<Octet>, c: Contents, p: Plan, i: nat)
    requires i < |c.sections| == |p.nameAt|
  {
    c.sections[i].name.Some? ==> At(file, p.nameAt[i], c.sections[i].name.value + [0])
  }

  /** The entries of the symbol table, of which the first is not used. */
  function SymPiece(c: Contents, p: Plan, enc: Enc, i: nat): (r: seq<Octet>)
    requires i <= |c.symbols| == |p.symbolAt|
    ensures |r| == SymSize(enc.wide)
  {
    if i == 0 then Zeros(SymSize(enc.wide)) else SymBytes(SymOfIndex(c, p, i - 1), enc)
  }

  predicate SymIn(file: seq<Octet>, c: Contents, enc: Enc, p: Plan, i: nat)
    requires i < |c.symbols| == |p.symbolAt|
  {
    && At(file, p.table + Times(i + 1, SymSize(enc.wide)), SymPiece(c, p, enc, i + 1))
    && At(file, p.symbolAt[i], c.symbols[i].name + [0])
  }

  predicate Follows(file: seq<Octet>, c: Contents, enc: Enc, p: Plan)
    requires |c.sections| == |p.nameAt| && |c.symbols| == |p.symbolAt|
  {
    && At(file, 0, EhdrBytes(HeadRecord(c, enc.wide), enc))
    && (forall i | 0 <= i < |c.sections| :: ShdrIn(file, c, enc, p, i) && NameIn(file, c, p, i))
    && (forall i | 0 <= i < |c.symbols| :: SymIn(file, c, enc, p, i))
    && At(file, p.def, DefBytes(c.def, enc.little)) && At(file, p.data, c.data)
  }

  lemma HeadIsHeld(file: seq<Octet>, h: FileHeader, enc: Enc)
    requires At(file, 0, EhdrBytes(h, enc)) && forall k | 0 <= k < 13 :: Small(FileHeaderMembers(h, enc.wide)[k])
    ensures Holds(file, 16, FileHeaderMembers(h, enc.wide), enc.little)
  {
    var m := FileHeaderMembers(h, enc.wide);
    AtFront(IdentBytes(enc), Written(m, enc.little));
    AtWithin(file, 0, EhdrBytes(h, enc), 16, Written(m, enc.little));
    SmallIsHeld(file, 16, m, enc.little);
  }

  lemma HeadIsWritten(file: seq<Octet>, c: Contents, enc: Enc, l: Layout)
    requires |c.sections| < 0x1_0000 && c.names < |c.sections|
    requires Sized(c, l) && l.head == HeadRecord(c, enc.wide) && At(file, 0, EhdrBytes(l.head, enc))
    ensures EncodesHeader(file, enc, c, l)
  {
    HeadIsHeld(file, l.head, enc);
    IdentIsHeld(file, l.head, enc);
  }

  lemma SectionNameIsWritten(file: seq<Octet>, c: Contents, p: Plan, i: nat)
    requires Fitting(p, c) && i < |c.sections| && NameIn(file, c, p, i) && c.sections[i].name.Some?
    requires IsText(c.sections[i].name.value)
    ensures HoldsText(file, OffsetOf(c, p, c.names) + Minus(p.nameAt[i], OffsetOf(c, p, c.names)),
                      c.sections[i].name.value)
  {
    TextIsHeld(file, p.nameAt[i], c.sections[i].name.value);
  }

  lemma SectionNumbers(c: Contents, p: Plan, wide: bool, i: nat)
    requires Fitting(p, c) && SymSize(wide) <= p.size && i < |c.sections|
    ensures var sh := SectOf(ShdrRecord(c, p, wide, i));
            && Describes(sh, c.sections[i]) && sh.offset == OffsetOf(c, p, i) > 0
            && (c.sections[i].name.Some? ==> sh.name == Minus(p.nameAt[i], OffsetOf(c, p, c.names)))
  {
  }

  lemma SectionIsWritten(file: seq<Octet>, c: Contents, enc: Enc, p: Plan, l: Layout, i: nat)
    requires Fitting(p, c) && SymSize(enc.wide) <= p.size && Sized(c, l) && i < |c.sections|
             && c.sections[i].kind < TWO32
    requires c.sections[i].name.Some? ==> IsText(c.sections[i].name.value)
    requires l.head == HeadRecord(c, enc.wide) && l.shdrs[i] == ShdrRecord(c, p, enc.wide, i)
    requires l.shdrs[c.names].offset == OffsetOf(c, p, c.names)
    requires ShdrIn(file, c, enc, p, i) && NameIn(file, c, p, i)
    ensures EncodesSection(file, enc, c, l, i)
  {
    var at, sh, names := ShdrOffset(HeadOf(l.head), i), SectOf(l.shdrs[i]), OffsetOf(c, p, c.names);
    SectionNumbers(c, p, enc.wide, i);
    SectionHeaderIsHeld(file, c, enc, p, i, at);
    SectionIsNamed(file, c, p, i, sh, names);
    SectionFrom(file, enc, c, l, i, sh, names, at);
  }

  lemma SectionIsNamed(file: seq<Octet>, c: Contents, p: Plan, i: nat, sh: Shdr, names: nat)
    requires Fitting(p, c) && i < |c.sections| && NameIn(file, c, p, i) && names == OffsetOf(c, p, c.names)
    requires c.sections[i].name.Some? ==> IsText(c.sections[i].name.value) && sh.name == Minus(p.nameAt[i], names)
    ensures NamedIn(file, names, sh, c.sections[i])
  {
    if c.sections[i].name.Some? { SectionNameIsWritten(file, c, p, i); }
  }

  lemma SectionFrom(file: seq<Octet>, enc: Enc, c: Contents, l: Layout, i: nat, sh: Shdr, names: nat, at: nat)
    requires Sized(c, l) && i < |c.sections| && sh == SectOf(l.shdrs[i]) && names == l.shdrs[c.names].offset
    requires at == ShdrOffset(HeadOf(l.head), i) && Describes(sh, c.sections[i])
             && NamedIn(file, names, sh, c.sections[i])
    requires Holds(file, at, SectionHeaderMembers(l.shdrs[i], enc.wide), enc.little)
    ensures EncodesSection(file, enc, c, l, i)
  {
  }

  lemma SectionHeaderIsHeld(file: seq<Octet>, c: Contents, enc: Enc, p: Plan, i: nat, at: nat)
    requires Fitting(p, c) && i < |c.sections| && c.sections[i].kind < TWO32 && ShdrIn(file, c, enc, p, i)
    requires at == EhdrSize(enc.wide) + i * ShdrSize(enc.wide)
    ensures Holds(file, at, SectionHeaderMembers(ShdrRecord(c, p, enc.wide, i), enc.wide), enc.little)
  {
    TimesIsProduct(i, ShdrSize(enc.wide));
    SmallIsHeld(file, at, SectionHeaderMembers(ShdrRecord(c, p, enc.wide, i), enc.wide), enc.little);
  }

  lemma SectionsAreWritten(file: seq<Octet>, c: Contents, enc: Enc, p: Plan, l: Layout)
    requires GoodSections(c) && Fitting(p, c) && SymSize(enc.wide) <= p.size && Sized(c, l)
    requires l == LayoutOf(c, p, enc.wide) && Follows(file, c, enc, p)
    ensures EncodesSections(file, enc, c, l)
  {
    SectionNumbers(c, p, enc.wide, c.names);
    forall i | 0 <= i < |c.sections| ensures EncodesSection(file, enc, c, l, i) {
      assert ShdrIn(file, c, enc, p, i) && NameIn(file, c, p, i);
      SectionIsWritten(file, c, enc, p, l, i);
    }
  }

  /** A symbol and its name are in place. */
  predicate HoldsSymbol(file: seq<Octet>, enc: Enc, s: SymbolEntry, at: nat, strings: nat, info: SymbolInfo) {
    && at < TWO31 && Holds(file, at, SymbolMembers(s, enc.wide), enc.little)
    && s.size == info.size && s.shndx == info.section && HoldsText(file, strings + s.name, info.name)
  }

  /** The numbers of a symbol fit, and its name is at the given place. */
  predicate Bounded(s: SymbolEntry, strings: nat, info: SymbolInfo, nameAt: nat) {
    && s.name < TWO32 && s.value < TWO32 && s.size < TWO32 && s.info < 256 && s.other < 256 && s.shndx < 0x1_0000
    && s.size == info.size && s.shndx == info.section && IsText(info.name) && strings + s.name == nameAt < TWO31
  }

  lemma SymbolIsHeld(file: seq<Octet>, enc: Enc, s: SymbolEntry, at: nat, strings: nat, info: SymbolInfo, nameAt: nat)
    requires At(file, at, SymBytes(s, enc)) && At(file, nameAt, info.name + [0]) && at < TWO31
    requires Bounded(s, strings, info, nameAt)
    ensures HoldsSymbol(file, enc, s, at, strings, info)
  {
    TextIsHeld(file, nameAt, info.name);
    SmallIsHeld(file, at, SymbolMembers(s, enc.wide), enc.little);
  }

  lemma SymIsBounded(c: Contents, p: Plan, i: nat)
    requires Fitting(p, c) && i < |c.symbols|
    requires IsText(c.symbols[i].name) && c.symbols[i].size < TWO32 && c.symbols[i].section < 0x1_0000
    ensures Bounded(SymOfIndex(c, p, i), StringsOffset(c, p), c.symbols[i], p.symbolAt[i])
  {
  }

  lemma SymbolParts(file: seq<Octet>, c: Contents, enc: Enc, p: Plan, i: nat)
    requires |c.symbols| == |p.symbolAt| && i < |c.symbols| && SymIn(file, c, enc, p, i)
    ensures At(file, p.table + Times(i + 1, SymSize(enc.wide)), SymBytes(SymOfIndex(c, p, i), enc))
    ensures At(file, p.symbolAt[i], c.symbols[i].name + [0])
  {
  }

  lemma SymbolFrom(file: seq<Octet>, enc: Enc, c: Contents, l: Layout, t: Shdr, strings: nat, i: nat, nameAt: nat,
                   at: nat)
    requires Sized(c, l) && i < |c.symbols| && at == t.offset + Times(i + 1, SymSize(enc.wide)) < TWO31
    requires At(file, at, SymBytes(l.syms[i], enc)) && At(file, nameAt, c.symbols[i].name + [0])
    requires Bounded(l.syms[i], strings, c.symbols[i], nameAt)
    ensures EncodesSymbol(file, enc, c, l, t, strings, i)
  {
    TimesIsProduct(i + 1, SymSize(enc.wide));
    SymbolIsHeld(file, enc, l.syms[i], at, strings, c.symbols[i], nameAt);
  }

  lemma SymbolIsWritten(file: seq<Octet>, c: Contents, enc: Enc, p: Plan, l: Layout, t: Shdr, i: nat, at: nat)
    requires Fitting(p, c) && Sized(c, l) && i < |c.symbols| && l.syms[i] == SymOfIndex(c, p, i)
    requires IsText(c.symbols[i].name) && c.symbols[i].size < TWO32 && c.symbols[i].section < 0x1_0000
    requires SymIn(file, c, enc, p, i) && t.offset == p.table && at == p.table + Times(i + 1, SymSize(enc.wide)) < TWO31
    ensures EncodesSymbol(file, enc, c, l, t, StringsOffset(c, p), i)
  {
    SymbolParts(file, c, enc, p, i);
    SymIsBounded(c, p, i);
    SymbolFrom(file, enc, c, l, t, StringsOffset(c, p), i, p.symbolAt[i], at);
  }

  lemma EachSymbolIsWritten(file: seq<Octet>, c: Contents, enc: Enc, p: Plan, l: Layout, t: Shdr, strings: nat)
    requires GoodSymbols(c) && Fitting(p, c) && Sized(c, l)
    requires forall i | 0 <= i < |c.symbols| :: SymIn(file, c, enc, p, i)
    requires forall i | 0 <= i < |c.symbols| :: l.syms[i] == SymOfIndex(c, p, i)
    requires p.table + Times(|c.symbols| + 1, SymSize(enc.wide)) < TWO31
    requires t.offset == p.table && strings == StringsOffset(c, p)
    ensures forall i | 0 <= i < |c.symbols| :: EncodesSymbol(file, enc, c, l, t, strings, i)
  {
    forall i | 0 <= i < |c.symbols| ensures EncodesSymbol(file, enc, c, l, t, strings, i) {
      TimesIsMonotone(i + 1, |c.symbols| + 1, SymSize(enc.wide));
      SymbolIsWritten(file, c, enc, p, l, t, i, p.table + Times(i + 1, SymSize(enc.wide)));
    }
  }

  lemma SymbolsAreWritten(file: seq<Octet>, c: Contents, enc: Enc, p: Plan, l: Layout)
    requires GoodSections(c) && GoodSymbols(c) && Fitting(p, c)
    requires p.size == Times(|c.symbols| + 1, SymSize(enc.wide)) && p.table + p.size < TWO31
    requires Sized(c, l) && l == LayoutOf(c, p, enc.wide) && Follows(file, c, enc, p)
    ensures EncodesSymbols(file, enc, c, l)
  {
    var st, ta := StringsIndex(c.sections, c.names, |c.sections|).value, TableIndex(c.sections, |c.sections|).value;
    TimesIsProduct(|c.symbols| + 1, SymSize(enc.wide));
    EachSymbolIsWritten(file, c, enc, p, l, SectOf(l.shdrs[ta]), l.shdrs[st].offset);
  }

  lemma PlaceOf(c: Contents, p: Plan, wide: bool, l: Layout, i: nat, at: nat)
    requires Fitting(p, c) && Sized(c, l) && l == LayoutOf(c, p, wide) && i < |c.symbols|
    requires c.symbols[i].section < |c.sections| && at >= p.table && l.syms[i].shndx == c.symbols[i].section
    requires l.syms[i].value == Minus(at, OffsetOf(c, p, c.symbols[i].section))
    ensures Place(l, l.syms[i]) == at
  {
  }

  lemma DefIsWritten(file: seq<Octet>, c: Contents, enc: Enc, p: Plan, l: Layout)
    requires GoodDef(c) && Fitting(p, c) && Sized(c, l) && l == LayoutOf(c, p, enc.wide) && Follows(file, c, enc, p)
    ensures EncodesDef(file, enc, c, l)
  {
    PlaceOf(c, p, enc.wide, l, DefOfSymbols(c.symbols, |c.symbols|).value, p.def);
    DefIsHeld(c.def, enc.little);
  }

  lemma DataIsWritten(file: seq<Octet>, c: Contents, enc: Enc, p: Plan, l: Layout)
    requires GoodData(c) && Fitting(p, c) && Sized(c, l) && l == LayoutOf(c, p, enc.wide) && Follows(file, c, enc, p)
    ensures EncodesData(file, c, l)
  {
    PlaceOf(c, p, enc.wide, l, ObjectOfSymbols(c.symbols, c.def.objectName, 0).value, p.data);
  }

  lemma FollowsIsEncoding(file: seq<Octet>, c: Contents, enc: Enc, p: Plan)
    requires Good(c) && Fitting(p, c) && Follows(file, c, enc, p)
    requires p.size == Times(|c.symbols| + 1, SymSize(enc.wide)) && p.table + p.size < TWO31
    ensures Encodes(file, enc, c, LayoutOf(c, p, enc.wide))
  {
    var l := LayoutOf(c, p, enc.wide);
    assert Sized(c, l);
    HeadIsWritten(file, c, enc, l);
    SectionsAreWritten(file, c, enc, p, l);
    SymbolsAreWritten(file, c, enc, p, l);
    DefIsWritten(file, c, enc, p, l);
    DataIsWritten(file, c, enc, p, l);
  }

  // ----- the writer -----

  function TextBytes(text: seq<Octet>): seq<Octet> {
    text + [0]
  }

  function SectionTexts(c: Contents): (r: seq<seq<Octet>>)
    ensures |r| == |c.sections|
    ensures forall i | 0 <= i < |r| && c.sections[i].name.Some? :: r[i] == TextBytes(c.sections[i].name.value)
  {
    seq(|c.sections|, i requires 0 <= i < |c.sections| =>
      if c.sections[i].name.Some? then TextBytes(c.sections[i].name.value) else [])
  }

  function SymbolTexts(c: Contents): (r: seq<seq<Octet>>)
    ensures |r| == |c.symbols| && forall i | 0 <= i < |r| :: r[i] == TextBytes(c.symbols[i].name)
  {
    seq(|c.symbols|, i requires 0 <= i < |c.symbols| => TextBytes(c.symbols[i].name))
  }

  function Starts(pieces: seq<seq<Octet>>, from: nat): (r: seq<nat>)
    ensures |r| == |pieces| && forall i | 0 <= i < |r| :: r[i] == from + Start(pieces, i)
  {
    seq(|pieces|, i requires 0 <= i < |pieces| => from + Start(pieces, i))
  }

  /** One after the other: headers, section headers, symbols, section names, symbol names, definition, data. */
  function PlanOf(names: seq<seq<Octet>>, symbols: seq<seq<Octet>>, wide: bool): (p: Plan)
    ensures |p.nameAt| == |names| && |p.symbolAt| == |symbols|
  {
    var table, size := EhdrSize(wide) + Times(|names|, ShdrSize(wide)), Times(|symbols| + 1, SymSize(wide));
    var strings := table + size + Start(names, |names|);
    var def := strings + Start(symbols, |symbols|);
    Plan(table, size, Starts(names, table + size), Starts(symbols, strings), def, def + DEF_SIZE)
  }

  function ContentsPlan(c: Contents, wide: bool): (p: Plan)
    ensures |p.nameAt| == |c.sections| && |p.symbolAt| == |c.symbols|
  {
    PlanOf(SectionTexts(c), SymbolTexts(c), wide)
  }

  /** Contents that a file below the converter's limit of two gigabytes has room for. */
  predicate Writable(c: Contents, wide: bool) {
    Good(c) && ContentsPlan(c, wide).data < TWO31
  }

  function ShdrPieces(c: Contents, p: Plan, enc: Enc): (r: seq<seq<Octet>>)
    requires |c.sections| == |p.nameAt|
    ensures |r| == |c.sections|
    ensures forall i | 0 <= i < |r| :: r[i] == ShdrBytes(ShdrRecord(c, p, enc.wide, i), enc)
  {
    seq(|c.sections|, i requires 0 <= i < |c.sections| => ShdrBytes(ShdrRecord(c, p, enc.wide, i), enc))
  }

  function SymPieces(c: Contents, p: Plan, enc: Enc): (r: seq<seq<Octet>>)
    requires |c.symbols| == |p.symbolAt|
    ensures |r| == |c.symbols| + 1 && forall i | 0 <= i < |r| :: r[i] == SymPiece(c, p, enc, i)
  {
    seq(|c.symbols| + 1, i requires 0 <= i <= |c.symbols| => SymPiece(c, p, enc, i))
  }

  function Seven(a: seq<Octet>, b: seq<Octet>, c: seq<Octet>, d: seq<Octet>, e: seq<Octet>, f: seq<Octet>,
                 g: seq<Octet>): (r: seq<seq<Octet>>)
    ensures |r| == 7 && r[0] == a && r[1] == b && r[2] == c && r[3] == d && r[4] == e && r[5] == f && r[6] == g
  {
    [a, b, c, d, e, f, g]
  }

  function Pieces(c: Contents, p: Plan, enc: Enc): seq<seq<Octet>>
    requires |c.sections| == |p.nameAt| && |c.symbols| == |p.symbolAt|
  {
    Seven(EhdrBytes(HeadRecord(c, enc.wide), enc), Join(ShdrPieces(c, p, enc)), Join(SymPieces(c, p, enc)),
          Join(SectionTexts(c)), Join(SymbolTexts(c)), DefBytes(c.def, enc.little), c.data)
  }

  function Write(c: Contents, enc: Enc): seq<Octet> {
    Join(Pieces(c, ContentsPlan(c, enc.wide), enc))
  }

  // ----- the file follows the plan -----

  lemma SevenStarts(pieces: seq<seq<Octet>>)
    requires |pieces| == 7
    ensures Start(pieces, 0) == 0 && Start(pieces, 1) == |pieces[0]|
    ensures forall k | 1 <= k <= 6 :: Start(pieces, k) == Start(pieces, k - 1) + |pieces[k - 1]|
  {
  }

  lemma FixedSize(pieces: seq<seq<Octet>>, size: nat)
    requires forall i | 0 <= i < |pieces| :: |pieces[i]| == size
    ensures |Join(pieces)| == Times(|pieces|, size)
  {
    JoinSize(pieces);
    FixedStart(pieces, size, |pieces|);
  }

  lemma FixedInner(file: seq<Octet>, p: nat, pieces: seq<seq<Octet>>, size: nat, k: nat)
    requires At(file, p, Join(pieces)) && k < |pieces| && forall i | 0 <= i < |pieces| :: |pieces[i]| == size
    ensures At(file, p + Times(k, size), pieces[k])
  {
    AtInner(file, p, pieces, k);
    FixedStart(pieces, size, k);
  }

  lemma {:induction false} StartIsMonotone(pieces: seq<seq<Octet>>, i: nat, j: nat)
    requires i <= j <= |pieces|
    ensures Start(pieces, i) <= Start(pieces, j)
    decreases j
  {
    if i < j { StartIsMonotone(pieces, i, j - 1); }
  }

  lemma JoinIsLaid(pieces: seq<seq<Octet>>, a: nat, b: nat, d: nat, e: nat, f: nat, g: nat)
    requires |pieces| == 7 && a == |pieces[0]| && b == a + |pieces[1]| && d == b + |pieces[2]|
    requires e == d + |pieces[3]| && f == e + |pieces[4]| && g == f + |pieces[5]|
    ensures At(Join(pieces), 0, pieces[0]) && At(Join(pieces), a, pieces[1]) && At(Join(pieces), b, pieces[2])
    ensures At(Join(pieces), d, pieces[3]) && At(Join(pieces), e, pieces[4]) && At(Join(pieces), f, pieces[5])
    ensures At(Join(pieces), g, pieces[6])
  {
    SevenStarts(pieces);
    AtPiece(pieces, 0);
    AtPiece(pieces, 1);
    AtPiece(pieces, 2);
    AtPiece(pieces, 3);
    AtPiece(pieces, 4);
    AtPiece(pieces, 5);
    AtPiece(pieces, 6);
  }

  /** The numbers of a plan, by the parts of the file. */
  predicate Plans(p: Plan, parts: seq<seq<Octet>>, names: seq<seq<Octet>>, symbols: seq<seq<Octet>>, at: nat,
                  strings: nat) {
    && |parts| == 7 && parts[3] == Join(names) && parts[4] == Join(symbols) && |parts[5]| == DEF_SIZE
    && p.table == |parts[0]| + |parts[1]| && p.size == |parts[2]|
    && p.nameAt == Starts(names, at) && at == p.table + p.size
    && p.symbolAt == Starts(symbols, strings) && strings == at + |parts[3]|
    && p.def == strings + |parts[4]| && p.data == p.def + DEF_SIZE
  }

  /** The parts are where the plan has them. */
  predicate Laid(file: seq<Octet>, p: Plan, parts: seq<seq<Octet>>, at: nat, strings: nat) {
    && |parts| == 7 && At(file, 0, parts[0]) && At(file, |parts[0]|, parts[1]) && At(file, p.table, parts[2])
    && At(file, at, parts[3]) && At(file, strings, parts[4])
    && At(file, p.def, parts[5]) && At(file, p.data, parts[6])
  }

  lemma PlansAreLaid(p: Plan, parts: seq<seq<Octet>>, names: seq<seq<Octet>>, symbols: seq<seq<Octet>>, at: nat,
                     strings: nat)
    requires Plans(p, parts, names, symbols, at, strings)
    ensures Laid(Join(parts), p, parts, at, strings)
  {
    JoinIsLaid(parts, |parts[0]|, p.table, at, strings, p.def, p.data);
  }

  lemma StartsAreBounded(pieces: seq<seq<Octet>>, from: nat, limit: nat)
    requires from + |Join(pieces)| < limit
    ensures forall i | 0 <= i < |pieces| :: from <= Starts(pieces, from)[i] < limit
  {
    JoinSize(pieces);
    forall i | 0 <= i < |pieces| ensures from <= Starts(pieces, from)[i] < limit {
      StartIsMonotone(pieces, i, |pieces|);
    }
  }

  lemma PlansAreReachable(p: Plan, parts: seq<seq<Octet>>, names: seq<seq<Octet>>, symbols: seq<seq<Octet>>, at: nat,
                          strings: nat)
    requires Plans(p, parts, names, symbols, at, strings) && p.size > 0 && p.data < TWO31 && |parts[0]| > 1
    ensures Reachable(p)
  {
    StartsAreBounded(names, at, TWO31);
    StartsAreBounded(symbols, strings, TWO31);
  }

  lemma SizesOf(c: Contents, p: Plan, enc: Enc)
    requires |c.sections| == |p.nameAt| && |c.symbols| == |p.symbolAt|
    ensures |Join(ShdrPieces(c, p, enc))| == Times(|c.sections|, ShdrSize(enc.wide))
    ensures |Join(SymPieces(c, p, enc))| == Times(|c.symbols| + 1, SymSize(enc.wide))
  {
    FixedSize(ShdrPieces(c, p, enc), ShdrSize(enc.wide));
    FixedSize(SymPieces(c, p, enc), SymSize(enc.wide));
  }

  lemma PlanByParts(p: Plan, names: seq<seq<Octet>>, symbols: seq<seq<Octet>>, wide: bool, parts: seq<seq<Octet>>,
                    at: nat, strings: nat)
    requires |parts| == 7 && |parts[0]| == EhdrSize(wide) && |parts[1]| == Times(|names|, ShdrSize(wide))
    requires |parts[2]| == Times(|symbols| + 1, SymSize(wide)) && parts[3] == Join(names) && parts[4] == Join(symbols)
    requires |parts[5]| == DEF_SIZE && p == PlanOf(names, symbols, wide)
    requires at == p.table + p.size && strings == at + |parts[3]|
    ensures Plans(p, parts, names, symbols, at, strings)
  {
    JoinSize(names);
    JoinSize(symbols);
  }

  /** The parts are those of the contents. */
  predicate PartsOf(parts: seq<seq<Octet>>, c: Contents, p: Plan, enc: Enc)
    requires |c.sections| == |p.nameAt| && |c.symbols| == |p.symbolAt|
  {
    && |parts| == 7 && parts[0] == EhdrBytes(HeadRecord(c, enc.wide), enc) && parts[1] == Join(ShdrPieces(c, p, enc))
    && parts[2] == Join(SymPieces(c, p, enc)) && parts[3] == Join(SectionTexts(c)) && parts[4] == Join(SymbolTexts(c))
    && parts[5] == DefBytes(c.def, enc.little) && parts[6] == c.data
  }

  lemma ContentsByParts(c: Contents, enc: Enc, p: Plan, parts: seq<seq<Octet>>, at: nat, strings: nat)
    requires p == PlanOf(SectionTexts(c), SymbolTexts(c), enc.wide) && PartsOf(parts, c, p, enc)
    requires at == p.table + p.size && strings == at + |parts[3]|
    ensures Plans(p, parts, SectionTexts(c), SymbolTexts(c), at, strings)
  {
    SizesOf(c, p, enc);
    PlanByParts(p, SectionTexts(c), SymbolTexts(c), enc.wide, parts, at, strings);
  }

  lemma ShdrIsIn(file: seq<Octet>, c: Contents, enc: Enc, p: Plan, i: nat)
    requires |c.sections| == |p.nameAt| && i < |c.sections|
    requires At(file, EhdrSize(enc.wide), Join(ShdrPieces(c, p, enc)))
    ensures ShdrIn(file, c, enc, p, i)
  {
    FixedInner(file, EhdrSize(enc.wide), ShdrPieces(c, p, enc), ShdrSize(enc.wide), i);
  }

  lemma NameIsIn(file: seq<Octet>, c: Contents, p: Plan, at: nat, i: nat)
    requires p.nameAt == Starts(SectionTexts(c), at) && i < |c.sections| && At(file, at, Join(SectionTexts(c)))
    ensures NameIn(file, c, p, i)
  {
    AtInner(file, at, SectionTexts(c), i);
  }

  lemma SymRecordIsIn(file: seq<Octet>, c: Contents, enc: Enc, p: Plan, i: nat)
    requires |c.symbols| == |p.symbolAt| && i < |c.symbols| && At(file, p.table, Join(SymPieces(c, p, enc)))
    ensures At(file, p.table + Times(i + 1, SymSize(enc.wide)), SymPiece(c, p, enc, i + 1))
  {
    var pieces, size := SymPieces(c, p, enc), SymSize(enc.wide);
    forall k | 0 <= k < |pieces| ensures |pieces[k]| == size {
      assert pieces[k] == SymPiece(c, p, enc, k);
    }
    FixedInner(file, p.table, pieces, size, i + 1);
    assert pieces[i + 1] == SymPiece(c, p, enc, i + 1);
  }

  lemma SymbolNameIsIn(file: seq<Octet>, c: Contents, p: Plan, at: nat, i: nat)
    requires p.symbolAt == Starts(SymbolTexts(c), at) && i < |c.symbols| && At(file, at, Join(SymbolTexts(c)))
    ensures At(file, p.symbolAt[i], c.symbols[i].name + [0])
  {
    AtInner(file, at, SymbolTexts(c), i);
  }

  lemma SectionsAreIn(file: seq<Octet>, c: Contents, enc: Enc, p: Plan, at: nat)
    requires p.nameAt == Starts(SectionTexts(c), at) && At(file, at, Join(SectionTexts(c)))
    requires At(file, EhdrSize(enc.wide), Join(ShdrPieces(c, p, enc)))
    ensures forall i | 0 <= i < |c.sections| :: ShdrIn(file, c, enc, p, i) && NameIn(file, c, p, i)
  {
    forall i | 0 <= i < |c.sections| ensures ShdrIn(file, c, enc, p, i) && NameIn(file, c, p, i) {
      ShdrIsIn(file, c, enc, p, i);
      NameIsIn(file, c, p, at, i);
    }
  }

  lemma SymbolsAreIn(file: seq<Octet>, c: Contents, enc: Enc, p: Plan, at: nat)
    requires p.symbolAt == Starts(SymbolTexts(c), at) && At(file, at, Join(SymbolTexts(c)))
    requires At(file, p.table, Join(SymPieces(c, p, enc)))
    ensures forall i | 0 <= i < |c.symbols| :: SymIn(file, c, enc, p, i)
  {
    forall i | 0 <= i < |c.symbols| ensures SymIn(file, c, enc, p, i) {
      SymRecordIsIn(file, c, enc, p, i);
      SymbolNameIsIn(file, c, p, at, i);
    }
  }

  lemma LaidFollows(file: seq<Octet>, c: Contents, enc: Enc, p: Plan, parts: seq<seq<Octet>>, at: nat, strings: nat)
    requires p.nameAt == Starts(SectionTexts(c), at) && p.symbolAt == Starts(SymbolTexts(c), strings)
    requires PartsOf(parts, c, p, enc) && Laid(file, p, parts, at, strings)
    ensures Follows(file, c, enc, p)
  {
    SectionsAreIn(file, c, enc, p, at);
    SymbolsAreIn(file, c, enc, p, strings);
  }

  lemma PlannedFileEncodes(c: Contents, enc: Enc, p: Plan, parts: seq<seq<Octet>>, at: nat, strings: nat)
    requires Plans(p, parts, SectionTexts(c), SymbolTexts(c), at, strings) && PartsOf(parts, c, p, enc)
    requires Good(c) && p.size == Times(|c.symbols| + 1, SymSize(enc.wide)) && p.data < TWO31
    ensures Fitting(p, c) && Encodes(Join(parts), enc, c, LayoutOf(c, p, enc.wide))
  {
    PlansAreLaid(p, parts, SectionTexts(c), SymbolTexts(c), at, strings);
    PlansAreReachable(p, parts, SectionTexts(c), SymbolTexts(c), at, strings);
    LaidFollows(Join(parts), c, enc, p, parts, at, strings);
    FollowsIsEncoding(Join(parts), c, enc, p);
  }

  /** What is written is an encoding of the contents. */
  lemma PartsEncode(c: Contents, enc: Enc, p: Plan, parts: seq<seq<Octet>>)
    requires p == PlanOf(SectionTexts(c), SymbolTexts(c), enc.wide) && PartsOf(parts, c, p, enc)
    requires Good(c) && p.data < TWO31
    ensures Encodes(Join(parts), enc, c, LayoutOf(c, p, enc.wide))
  {
    var at, strings := p.table + p.size, p.table + p.size + |parts[3]|;
    ContentsByParts(c, enc, p, parts, at, strings);
    PlannedFileEncodes(c, enc, p, parts, at, strings);
  }

  lemma PiecesAreParts(c: Contents, p: Plan, enc: Enc)
    requires |c.sections| == |p.nameAt| && |c.symbols| == |p.symbolAt|
    ensures PartsOf(Pieces(c, p, enc), c, p, enc)
  {
  }

  /** Contents, written in any of the four encodings and converted, come out as they were. */
  lemma RoundTrip(c: Contents, enc: Enc, o: Settings)
    requires Fits(o) && Writable(c, enc.wide)
    ensures DefFits(c.def) && Table(Write(c, enc), o) == Some(Headers(o, c.def, |c.data|) + c.data)
    ensures Shows(Table(Write(c, enc), o).value, o, c.def, c.data)
  {
    var p := ContentsPlan(c, enc.wide);
    PiecesAreParts(c, p, enc);
    PartsEncode(c, enc, p, Pieces(c, p, enc));
    EncodingDoesNotMatter(Write(c, enc), enc, c, LayoutOf(c, p, enc.wide), o);
  }
}

/**
The table file does not depend on how the object file is encoded: for every way of writing the same
sections, symbols, definition and data, with 32 or 64 bit records in either byte order and at
whatever offsets, the converter gives the same bytes.
*/
module ElfEncoding {
  import opened ElfBytes
  import opened ElfFile
  import opened ElfHeaders
  import opened ElfRecords
  import opened ElfSelection
  import opened Options

  // ----- the contents of an object file, apart from its encoding -----

  datatype SectionInfo = SectionInfo(kind: nat, name: Option<seq<Octet>>)
  datatype SymbolInfo = SymbolInfo(name: seq<Octet>, size: nat, section: nat)

  /** Sections and symbols, and what the definition and the user's object hold. */
  datatype Contents = Contents(sections: seq<SectionInfo>, names: nat, symbols: seq<SymbolInfo>, def: Def,
                               data: seq<Octet>)

  predicate IsTable(s: SectionInfo, kind: nat) {
    s.name.Some? && s.kind == kind
  }

  /** The section with the symbol names: the last one named .strtab, else the first other one. */
  function StringsIndex(sections: seq<SectionInfo>, names: nat, n: nat): (r: Option<nat>)
    requires n <= |sections|
    ensures r.Some? ==> r.value < n && IsTable(sections[r.value], STRTAB)
  {
    if n == 0 then None
    else
      var before, s := StringsIndex(sections, names, n - 1), sections[n - 1];
      if IsTable(s, STRTAB) && (Spelled(s.name.value, ".strtab") || (before.None? && n - 1 != names))
      then Some(n - 1) else before
  }

  function TableIndex(sections: seq<SectionInfo>, n: nat): (r: Option<nat>)
    requires n <= |sections|
    ensures r.Some? ==> r.value < n && IsTable(sections[r.value], SYMTAB)
  {
    if n == 0 then None
    else if IsTable(sections[n - 1], SYMTAB) then Some(n - 1)
    else TableIndex(sections, n - 1)
  }

  function DefOfSymbols(symbols: seq<SymbolInfo>, n: nat): (r: Option<nat>)
    requires n <= |symbols|
    ensures r.Some? ==> r.value < n
  {
    if n == 0 then None else if NamesDef(symbols[n - 1].name) then Some(n - 1) else DefOfSymbols(symbols, n - 1)
  }

  function ObjectOfSymbols(symbols: seq<SymbolInfo>, objectName: seq<Octet>, i: nat): (r: Option<nat>)
    requires i <= |symbols|
    ensures r.Some? ==> i <= r.value < |symbols|
    decreases |symbols| - i
  {
    if i == |symbols| then None
    else if NamesObject(symbols[i].name, objectName) then Some(i)
    else ObjectOfSymbols(symbols, objectName, i + 1)
  }

  // ----- what a file holds -----

  /** A text of less than sixty characters and the zero byte after it. */
  predicate HoldsText(file: seq<Octet>, at: nat, text: seq<Octet>) {
    && at < TWO31 && |text| < 60 && at + |text| < |file|
    && file[at..at + |text|] == text && file[at + |text|] == 0 && forall i | 0 <= i < |text| :: text[i] != 0
  }

  lemma {:induction false} TextRead(file: seq<Octet>, at: nat, text: seq<Octet>, room: nat)
    requires |text| < room && at + |text| < |file|
    requires file[at..at + |text|] == text && file[at + |text|] == 0 && forall i | 0 <= i < |text| :: text[i] != 0
    ensures NameFrom(file, at, room) == Some(text)
    decreases room
  {
    if text != [] {
      assert file[at] == text[0] && file[at + 1..at + |text|] == text[1..];
      TextRead(file, at + 1, text[1..], room - 1);
      assert [text[0]] + text[1..] == text;
    }
  }

  lemma {:induction false} TextIsThere(file: seq<Octet>, at: nat, text: seq<Octet>, room: nat)
    requires NameFrom(file, at, room) == Some(text)
    ensures |text| < room && at + |text| < |file|
    ensures file[at..at + |text|] == text && file[at + |text|] == 0 && forall i | 0 <= i < |text| :: text[i] != 0
    decreases room
  {
    if text != [] { TextIsThere(file, at + 1, text[1..], room - 1); }
  }

  /** A name is read exactly where there is one. */
  lemma NameRead(file: seq<Octet>, at: nat, text: seq<Octet>)
    ensures NameAt(file, at) == Some(text) <==> HoldsText(file, at, text)
  {
    if HoldsText(file, at, text) { TextRead(file, at, text, NAME_MAX); }
    if NameAt(file, at) == Some(text) { TextIsThere(file, at, text, NAME_MAX); }
  }

  /** The numbers that an encoding is free to choose: all members of the records, in particular every offset. */
  datatype Layout = Layout(head: FileHeader, shdrs: seq<SectionHeader>, syms: seq<SymbolEntry>)

  predicate Sized(c: Contents, l: Layout) {
    && |l.shdrs| == |c.sections| && |l.syms| == |c.symbols| > 0 && |c.sections| > 0
    && c.names < |c.sections|
  }

  predicate EncodesHeader(file: seq<Octet>, enc: Enc, c: Contents, l: Layout)
    requires Sized(c, l)
  {
    && Identifies(file, enc) && Holds(file, 16, FileHeaderMembers(l.head, enc.wide), enc.little)
    && Accepted(HeadOf(l.head)) && l.head.shnum == |c.sections| && l.head.shstrndx == c.names
  }

  /** A section header agrees with what the section is. */
  predicate Describes(sh: Shdr, s: SectionInfo) {
    && sh.kind == s.kind && (sh.name == 0 <==> s.name.None?)
    && (IsTable(s, STRTAB) ==> sh.offset > 0)
    && (IsTable(s, SYMTAB) ==> 0 < sh.entsize <= sh.size)
  }

  predicate NamedIn(file: seq<Octet>, names: nat, sh: Shdr, s: SectionInfo) {
    s.name.Some? ==> HoldsText(file, names + sh.name, s.name.value)
  }

  predicate EncodesSection(file: seq<Octet>, enc: Enc, c: Contents, l: Layout, i: nat)
    requires Sized(c, l) && i < |c.sections|
  {
    var sh, names := SectOf(l.shdrs[i]), l.shdrs[c.names].offset;
    && Holds(file, l.head.shoff + i * l.head.shentsize, SectionHeaderMembers(l.shdrs[i], enc.wide), enc.little)
    && Describes(sh, c.sections[i]) && NamedIn(file, names, sh, c.sections[i])
  }

  predicate EncodesSections(file: seq<Octet>, enc: Enc, c: Contents, l: Layout)
    requires Sized(c, l)
  {
    l.shdrs[c.names].offset > 0 && forall i | 0 <= i < |c.sections| :: EncodesSection(file, enc, c, l, i)
  }

  /** The symbols, after the unused first entry of the symbol table, with their names in the string table. */
  predicate EncodesSymbol(file: seq<Octet>, enc: Enc, c: Contents, l: Layout, t: Shdr, strings: nat, i: nat)
    requires Sized(c, l) && i < |c.symbols|
  {
    var s, at := l.syms[i], t.offset + (i + 1) * SymSize(enc.wide);
    && at < TWO31
    && Holds(file, at, SymbolMembers(s, enc.wide), enc.little)
    && s.size == c.symbols[i].size && s.shndx == c.symbols[i].section
    && HoldsText(file, strings + s.name, c.symbols[i].name)
  }

  predicate EncodesSymbols(file: seq<Octet>, enc: Enc, c: Contents, l: Layout)
    requires Sized(c, l)
  {
    var st, ta := StringsIndex(c.sections, c.names, |c.sections|), TableIndex(c.sections, |c.sections|);
    && st.Some? && ta.Some?
    && var t, strings := SectOf(l.shdrs[ta.value]), l.shdrs[st.value].offset;
       && t.entsize == SymSize(enc.wide) && t.size == (|c.symbols| + 1) * t.entsize
       && forall i | 0 <= i < |c.symbols| :: EncodesSymbol(file, enc, c, l, t, strings, i)
  }

  /** Where a symbol's bytes are, as the layout has it. */
  function Place(l: Layout, s: SymbolEntry): nat
    requires s.shndx < |l.shdrs|
  {
    l.shdrs[s.shndx].offset + s.value
  }

  /** A field with a text, which ends at a zero byte or at the last byte, whatever that is. */
  predicate Begins(b: seq<Octet>, text: seq<Octet>) {
    && |text| < |b| && b[..|text|] == text && (|text| + 1 < |b| ==> b[|text|] == 0)
    && forall i | 0 <= i < |text| :: text[i] != 0
  }

  lemma {:induction false} BeginsIsText(b: seq<Octet>, text: seq<Octet>)
    requires b != []
    ensures Begins(b, text) <==> text == Text(b)
    decreases |b|
  {
    if |b| > 1 && b[0] != 0 {
      BeginsIsText(b[1..], Text(b[1..]));
      if text != [] {
        BeginsIsText(b[1..], text[1..]);
        BeginsFirst(b, text);
      }
    }
  }

  lemma {:induction false} BeginsFirst(b: seq<Octet>, text: seq<Octet>)
    requires |b| > 1 && b[0] != 0 && text != []
    ensures Begins(b, text) <==> b[0] == text[0] && Begins(b[1..], text[1..])
    ensures text == [b[0]] + Text(b[1..]) <==> b[0] == text[0] && text[1..] == Text(b[1..])
  {
    assert text == [text[0]] + text[1..];
    if b[0] == text[0] && Begins(b[1..], text[1..]) {
      assert b[..|text|] == [b[0]] + b[1..][..|text| - 1];
      assert b[1..][|text| - 1..] == b[|text|..];
    }
    if Begins(b, text) {
      assert b[1..][..|text| - 1] == b[..|text|][1..];
      assert b[0] == b[..|text|][0];
    }
  }

  /** CFE_TBL_FileDef: the object's name, the table's name, the description, a file name and the object's size. */
  predicate HoldsDef(b: seq<Octet>, def: Def, little: bool) {
    && |b| == DEF_SIZE && def.size < TWO32
    && Begins(b[..64], def.objectName) && Begins(b[64..104], def.table) && Begins(b[104..136], def.description)
    && b[156..160] == Encode(def.size, 4, little)
  }

  predicate EncodesDef(file: seq<Octet>, enc: Enc, c: Contents, l: Layout)
    requires Sized(c, l)
  {
    var d := DefOfSymbols(c.symbols, |c.symbols|);
    && d.Some?
    && var s := l.syms[d.value];
       && (s.size == DEF_SIZE || s.size == 0) && s.shndx < |l.shdrs|
       && Place(l, s) + DEF_SIZE <= |file| && Place(l, s) < TWO32
       && HoldsDef(file[Place(l, s)..Place(l, s) + DEF_SIZE], c.def, enc.little)
  }

  /** As many bytes as both sizes allow: the smaller one, or the defined one when the symbol has none. */
  predicate Agreed(n: nat, size: nat, defined: nat) {
    && (size == 0 ==> n == defined)
    && (size > 0 ==> n <= size && n <= defined && (n == size || n == defined))
  }

  lemma AgreedIsSize(n: nat, size: nat, defined: nat)
    ensures Agreed(n, size, defined) <==> n == ObjectSize(size, defined)
  {
  }

  /** The data are zeros in .bss; elsewhere they are the bytes in the file, as many as size and definition agree on. */
  predicate EncodesData(file: seq<Octet>, c: Contents, l: Layout)
    requires Sized(c, l)
  {
    var u := ObjectOfSymbols(c.symbols, c.def.objectName, 0);
    && u.Some? && |c.data| < TWO31
    && var s := l.syms[u.value];
       && s.shndx < |l.shdrs| && c.sections[s.shndx].name.Some?
       && if Spelled(c.sections[s.shndx].name.value, ".bss") then c.data == Zeros(s.size)
          else
            && Agreed(|c.data|, s.size, c.def.size) && Place(l, s) < TWO32
            && Place(l, s) + |c.data| <= |file| && file[Place(l, s)..Place(l, s) + |c.data|] == c.data
  }

  predicate Encodes(file: seq<Octet>, enc: Enc, c: Contents, l: Layout) {
    && Sized(c, l) && EncodesHeader(file, enc, c, l) && EncodesSections(file, enc, c, l)
    && EncodesSymbols(file, enc, c, l) && EncodesDef(file, enc, c, l) && EncodesData(file, c, l)
  }

  // ----- what is read -----

  function Sec(c: Contents, l: Layout, i: nat): Section
    requires Sized(c, l) && i < |c.sections|
  {
    Section(SectOf(l.shdrs[i]), c.sections[i].name)
  }

  function Secs(c: Contents, l: Layout): (r: seq<Section>)
    requires Sized(c, l)
    ensures |r| == |c.sections| && forall i | 0 <= i < |r| :: r[i] == Sec(c, l, i)
  {
    seq(|c.sections|, i requires 0 <= i < |c.sections| => Sec(c, l, i))
  }

  function Syms(c: Contents, l: Layout): (r: seq<Symbol>)
    requires Sized(c, l)
    ensures |r| == |c.symbols| && forall i | 0 <= i < |r| :: r[i] == Symbol(SymbOf(l.syms[i]), c.symbols[i].name)
  {
    seq(|c.symbols|, i requires 0 <= i < |c.symbols| => Symbol(SymbOf(l.syms[i]), c.symbols[i].name))
  }

  lemma HeaderRead(file: seq<Octet>, enc: Enc, c: Contents, l: Layout)
    requires Sized(c, l) && EncodesHeader(file, enc, c, l)
    ensures Ident(file) == Some(enc) && HeaderAt(file, enc) == Some(HeadOf(l.head))
  {
    IdentIsRead(file, enc);
    FileHeaderIsRead(file, enc, l.head);
  }

  lemma NamedRead(file: seq<Octet>, names: nat, sh: Shdr, s: SectionInfo)
    requires names > 0 && Describes(sh, s) && NamedIn(file, names, sh, s)
    ensures Named(file, names, sh) == Some(Section(sh, s.name))
  {
    if s.name.Some? { NameRead(file, names + sh.name, s.name.value); }
  }

  lemma SectionRead(file: seq<Octet>, enc: Enc, c: Contents, l: Layout, i: nat)
    requires Sized(c, l) && i < |c.sections| && EncodesSection(file, enc, c, l, i)
             && l.shdrs[c.names].offset > 0
    ensures SectionAt(file, enc, l.shdrs[c.names].offset, ShdrOffset(HeadOf(l.head), i)) == Some(Sec(c, l, i))
  {
    SectionHeaderIsRead(file, enc, ShdrOffset(HeadOf(l.head), i), l.shdrs[i]);
    NamedRead(file, l.shdrs[c.names].offset, SectOf(l.shdrs[i]), c.sections[i]);
  }

  lemma SectionsRead(file: seq<Octet>, enc: Enc, c: Contents, l: Layout)
    requires Sized(c, l) && EncodesSections(file, enc, c, l)
    ensures SectionsTo(file, enc, HeadOf(l.head), l.shdrs[c.names].offset, |c.sections|) == Some(Secs(c, l))
  {
    var h, names, secs := HeadOf(l.head), l.shdrs[c.names].offset, Secs(c, l);
    forall i: nat | i < |secs| ensures SectionReader(file, enc, h, names)(i) == Some(secs[i]) {
      assert EncodesSection(file, enc, c, l, i);
      SectionRead(file, enc, c, l, i);
    }
    CollectAll(SectionReader(file, enc, h, names), secs, |secs|);
    assert secs[..|secs|] == secs;
  }

  lemma {:induction false} StringsRead(c: Contents, l: Layout, n: nat)
    requires Sized(c, l) && n <= |c.sections|
    requires forall i | 0 <= i < |c.sections| && IsTable(c.sections[i], STRTAB) :: Sec(c, l, i).head.offset > 0
    requires forall i | 0 <= i < |c.sections| :: Sec(c, l, i).head.kind == c.sections[i].kind
    ensures StringsAt(Secs(c, l), c.names, n) == match StringsIndex(c.sections, c.names, n)
                                                 case None => 0
                                                 case Some(i) => Sec(c, l, i).head.offset
    decreases n
  {
    if n > 0 {
      StringsRead(c, l, n - 1);
      if c.sections[n - 1].name.Some? { SpelledStrtab(c.sections[n - 1].name.value); }
      assert Secs(c, l)[n - 1] == Sec(c, l, n - 1);
    }
  }

  function TableOfShdr(sh: Shdr, wide: bool): Symbols
    requires sh.entsize > 0 && sh.size >= sh.entsize
  {
    Symbols(sh.offset + SymSize(wide), sh.entsize, sh.size / sh.entsize - 1)
  }

  predicate GoodTables(c: Contents, l: Layout)
    requires Sized(c, l)
  {
    forall i | 0 <= i < |c.sections| ::
      && Sec(c, l, i).head.kind == c.sections[i].kind
      && (IsTable(c.sections[i], STRTAB) ==> Sec(c, l, i).head.offset > 0)
      && (IsTable(c.sections[i], SYMTAB) ==> 0 < Sec(c, l, i).head.entsize <= Sec(c, l, i).head.size)
  }

  lemma {:induction false} TableRead(c: Contents, l: Layout, wide: bool, n: nat)
    requires Sized(c, l) && n <= |c.sections| && GoodTables(c, l)
    ensures SymbolsAt(Secs(c, l), wide, n) == match TableIndex(c.sections, n)
                                              case None => Symbols(0, 0, 0)
                                              case Some(i) => TableOfShdr(Sec(c, l, i).head, wide)
    decreases n
  {
    if n > 0 {
      TableRead(c, l, wide, n - 1);
      assert Secs(c, l)[n - 1] == Sec(c, l, n - 1);
    }
  }

  lemma EntryAt(offset: nat, i: nat, k: nat)
    ensures (offset + k) + i * k == offset + (i + 1) * k
  {
  }

  lemma EntryCount(m: nat, wide: bool)
    ensures ((m + 1) * SymSize(wide)) / SymSize(wide) - 1 == m && (m + 1) * SymSize(wide) >= SymSize(wide)
  {
    if wide { assert ((m + 1) * 24) / 24 == m + 1; } else { assert ((m + 1) * 16) / 16 == m + 1; }
  }

  lemma SymbolRead(file: seq<Octet>, enc: Enc, c: Contents, l: Layout, t: Shdr, strings: nat, i: nat, at: nat)
    requires Sized(c, l) && i < |c.symbols| && EncodesSymbol(file, enc, c, l, t, strings, i)
    requires at == t.offset + (i + 1) * SymSize(enc.wide)
    ensures SymbolAt(file, enc, strings, at) == Some(Symbol(SymbOf(l.syms[i]), c.symbols[i].name))
  {
    SymbolIsRead(file, enc, at, l.syms[i]);
    NameRead(file, strings + l.syms[i].name, c.symbols[i].name);
  }

  lemma SymbolsRead(file: seq<Octet>, enc: Enc, c: Contents, l: Layout, t: Shdr, strings: nat, table: Symbols)
    requires Sized(c, l)
    requires table.at == t.offset + SymSize(enc.wide) && table.entsize == SymSize(enc.wide)
    requires forall i | 0 <= i < |c.symbols| :: EncodesSymbol(file, enc, c, l, t, strings, i)
    ensures SymbolsTo(file, enc, table, strings, |c.symbols|) == Some(Syms(c, l))
  {
    var syms := Syms(c, l);
    forall i: nat | i < |syms| ensures SymbolReader(file, enc, table, strings)(i) == Some(syms[i]) {
      assert EncodesSymbol(file, enc, c, l, t, strings, i);
      EntryAt(t.offset, i, SymSize(enc.wide));
      SymbolRead(file, enc, c, l, t, strings, i, SymOffset(table, i));
    }
    CollectAll(SymbolReader(file, enc, table, strings), syms, |syms|);
    assert syms[..|syms|] == syms;
  }

  lemma {:induction false} DefFound(c: Contents, l: Layout, n: nat)
    requires Sized(c, l) && n <= |c.symbols|
    ensures DefIndex(Syms(c, l), n) == DefOfSymbols(c.symbols, n)
  {
    if n > 0 {
      DefFound(c, l, n - 1);
      NamesDefIsDef(c.symbols[n - 1].name);
    }
  }

  lemma {:induction false} ObjectFound(c: Contents, l: Layout, i: nat)
    requires Sized(c, l) && i <= |c.symbols|
    ensures ObjectIndex(Syms(c, l), c.def.objectName, i) == ObjectOfSymbols(c.symbols, c.def.objectName, i)
    decreases |c.symbols| - i
  {
    if i < |c.symbols| {
      ObjectFound(c, l, i + 1);
      NamesObjectIsObject(c.symbols[i].name, c.def.objectName);
    }
  }

  // ----- the table -----

  lemma DefRead(b: seq<Octet>, def: Def, little: bool)
    requires HoldsDef(b, def, little)
    ensures DefOf(b, little) == def
  {
    LimitOfFour();
    IntEncode(def.size, 4, little);
    BeginsIsText(b[..64], def.objectName);
    BeginsIsText(b[64..104], def.table);
    BeginsIsText(b[104..136], def.description);
  }

  lemma LimitOfFour()
    ensures Limit(4) == TWO32
  {
    assert Limit(1) == 256 && Limit(2) == 65536 && Limit(3) == 16777216;
  }

  lemma DefIsRead(file: seq<Octet>, enc: Enc, c: Contents, l: Layout)
    requires Sized(c, l) && EncodesDef(file, enc, c, l)
    ensures DefIndex(Syms(c, l), |c.symbols|).Some?
    ensures DefAt(file, enc, Secs(c, l), Syms(c, l)[DefIndex(Syms(c, l), |c.symbols|).value].head) == Some(c.def)
  {
    DefFound(c, l, |c.symbols|);
    var s := l.syms[DefOfSymbols(c.symbols, |c.symbols|).value];
    DefRead(file[Place(l, s)..Place(l, s) + DEF_SIZE], c.def, enc.little);
  }

  lemma BytesRead(file: seq<Octet>, at: nat, data: seq<Octet>)
    requires at + |data| <= |file| && file[at..at + |data|] == data
    ensures BytesAt(file, at, |data|) == data
  {
    forall k | 0 <= k < |data| ensures BytesAt(file, at, |data|)[k] == data[k] {
      assert file[at..at + |data|][k] == file[at + k];
    }
  }

  lemma DataIsRead(file: seq<Octet>, c: Contents, l: Layout)
    requires Sized(c, l) && EncodesData(file, c, l)
    ensures ObjectIndex(Syms(c, l), c.def.objectName, 0).Some?
    ensures DataAt(file, Secs(c, l), c.def, Syms(c, l)[ObjectIndex(Syms(c, l), c.def.objectName, 0).value].head) ==
            Some(c.data)
  {
    ObjectFound(c, l, 0);
    var s := l.syms[ObjectOfSymbols(c.symbols, c.def.objectName, 0).value];
    SpelledBss(c.sections[s.shndx].name.value);
    if c.sections[s.shndx].name.value != BSS_NAME {
      AgreedIsSize(|c.data|, s.size, c.def.size);
      BytesRead(file, Place(l, s), c.data);
    }
  }

  lemma TablesAreGood(file: seq<Octet>, enc: Enc, c: Contents, l: Layout)
    requires Sized(c, l) && EncodesSections(file, enc, c, l)
    ensures GoodTables(c, l)
  {
    forall i | 0 <= i < |c.sections|
      ensures && Sec(c, l, i).head.kind == c.sections[i].kind
              && (IsTable(c.sections[i], STRTAB) ==> Sec(c, l, i).head.offset > 0)
              && (IsTable(c.sections[i], SYMTAB) ==> 0 < Sec(c, l, i).head.entsize <= Sec(c, l, i).head.size)
    {
      assert EncodesSection(file, enc, c, l, i);
    }
  }

  lemma NamesRead(file: seq<Octet>, enc: Enc, c: Contents, l: Layout)
    requires Sized(c, l) && EncodesHeader(file, enc, c, l) && EncodesSections(file, enc, c, l)
    ensures NamesAt(file, enc, HeadOf(l.head)) == Some(l.shdrs[c.names].offset)
  {
    assert EncodesSection(file, enc, c, l, c.names);
    SectionHeaderIsRead(file, enc, ShdrOffset(HeadOf(l.head), c.names), l.shdrs[c.names]);
  }

  /** The string and symbol tables that the sections lead to, and the symbols in them. */
  lemma SymbolsAreRead(file: seq<Octet>, enc: Enc, c: Contents, l: Layout)
    requires Sized(c, l) && EncodesSections(file, enc, c, l) && EncodesSymbols(file, enc, c, l)
    ensures var strings := StringsAt(Secs(c, l), c.names, |c.sections|);
            var table := SymbolsAt(Secs(c, l), enc.wide, |c.sections|);
            && strings > 0 && table.count == |c.symbols|
            && SymbolsTo(file, enc, table, strings, table.count) == Some(Syms(c, l))
  {
    var n := |c.sections|;
    var st, ta := StringsIndex(c.sections, c.names, n).value, TableIndex(c.sections, n).value;
    var t, strings := SectOf(l.shdrs[ta]), l.shdrs[st].offset;
    TablesAreGood(file, enc, c, l);
    StringsRead(c, l, n);
    TableRead(c, l, enc.wide, n);
    EntryCount(|c.symbols|, enc.wide);
    SymbolsRead(file, enc, c, l, t, strings, TableOfShdr(t, enc.wide));
  }

  lemma TableIsRead(file: seq<Octet>, enc: Enc, c: Contents, l: Layout, o: Settings)
    requires Fits(o) && Sized(c, l) && EncodesDef(file, enc, c, l) && EncodesData(file, c, l)
    ensures DefFits(c.def) && TableOf(file, o, enc, Secs(c, l), Syms(c, l)) ==
            Some(Headers(o, c.def, |c.data|) + c.data)
  {
    DefIsRead(file, enc, c, l);
    DataIsRead(file, c, l);
  }

  lemma TablesLeadOn(file: seq<Octet>, enc: Enc, c: Contents, l: Layout, o: Settings)
    requires Fits(o) && Encodes(file, enc, c, l)
    ensures DefFits(c.def)
    ensures FromTables(file, o, enc, Secs(c, l), StringsAt(Secs(c, l), c.names, |c.sections|),
                       SymbolsAt(Secs(c, l), enc.wide, |c.sections|)) == Some(Headers(o, c.def, |c.data|) + c.data)
  {
    SymbolsAreRead(file, enc, c, l);
    TableIsRead(file, enc, c, l, o);
  }

  lemma HeadersAreRead(file: seq<Octet>, enc: Enc, c: Contents, l: Layout)
    requires Encodes(file, enc, c, l)
    ensures Ident(file) == Some(enc) && HeaderAt(file, enc) == Some(HeadOf(l.head))
    ensures var h := HeadOf(l.head);
            && h.shnum == |c.sections| > 0 && h.shstrndx == c.names
            && NamesAt(file, enc, h) == Some(l.shdrs[c.names].offset)
            && SectionsTo(file, enc, h, l.shdrs[c.names].offset, h.shnum) == Some(Secs(c, l))
  {
    HeaderRead(file, enc, c, l);
    NamesRead(file, enc, c, l);
    SectionsRead(file, enc, c, l);
  }

  lemma EncodedTable(file: seq<Octet>, enc: Enc, c: Contents, l: Layout, o: Settings)
    requires Fits(o) && Encodes(file, enc, c, l)
    ensures DefFits(c.def) && Table(file, o) == Some(Headers(o, c.def, |c.data|) + c.data)
  {
    HeadersAreRead(file, enc, c, l);
    TablesLeadOn(file, enc, c, l, o);
  }

  /** However the contents are encoded: the table file is the headers for the definition, and the data; it shows,
      at the positions of a table file, the settings, the texts of the definition, and the data. */
  lemma EncodingDoesNotMatter(file: seq<Octet>, enc: Enc, c: Contents, l: Layout, o: Settings)
    requires Fits(o) && Encodes(file, enc, c, l)
    ensures DefFits(c.def) && Table(file, o) == Some(Headers(o, c.def, |c.data|) + c.data)
    ensures Shows(Table(file, o).value, o, c.def, c.data)
  {
    EncodedTable(file, enc, c, l, o);
    HeadersShow(o, c.def, |c.data|, c.data);
  }
}

/**
What an ELF object file says, read in its own byte order and word size: headers, sections, symbols
and their names, and the table that they describe. None stands for a file that the converter turns
down, or on which its reading is not defined.
*/
module ElfFile {
  import opened ElfBytes
  import opened Options

  /** The two properties of an encoding: byte order and word size. */
  datatype Enc = Enc(little: bool, wide: bool)

  const TWO31 := 0x8000_0000
  const TWO32 := 0x1_0000_0000
  const SYMTAB := 2
  const STRTAB := 3
  const NAME_MAX := 60
  const DEF_SIZE := 160

  // ----- record formats of the System V ABI, 32 and 64 bit -----

  function EhdrFields(wide: bool): seq<Field> {
    if wide
    then [Field(16, 2), Field(18, 2), Field(20, 4), Field(24, 8), Field(32, 8), Field(40, 8), Field(48, 4),
          Field(52, 2), Field(54, 2), Field(56, 2), Field(58, 2), Field(60, 2), Field(62, 2)]
    else [Field(16, 2), Field(18, 2), Field(20, 4), Field(24, 4), Field(28, 4), Field(32, 4), Field(36, 4),
          Field(40, 2), Field(42, 2), Field(44, 2), Field(46, 2), Field(48, 2), Field(50, 2)]
  }

  function EhdrSize(wide: bool): nat {
    if wide then 64 else 52
  }

  function ShdrFields(wide: bool): seq<Field> {
    if wide
    then [Field(0, 4), Field(4, 4), Field(8, 8), Field(16, 8), Field(24, 8), Field(32, 8), Field(40, 4),
          Field(44, 4), Field(48, 8), Field(56, 8)]
    else [Field(0, 4), Field(4, 4), Field(8, 4), Field(12, 4), Field(16, 4), Field(20, 4), Field(24, 4),
          Field(28, 4), Field(32, 4), Field(36, 4)]
  }

  function ShdrSize(wide: bool): nat {
    if wide then 64 else 40
  }

  /** Without the two single bytes of a symbol, which are never swapped. */
  function SymFields(wide: bool): seq<Field> {
    if wide then [Field(0, 4), Field(6, 2), Field(8, 8), Field(16, 8)]
    else [Field(0, 4), Field(4, 4), Field(8, 4), Field(14, 2)]
  }

  function SymSize(wide: bool): nat {
    if wide then 24 else 16
  }

  predicate Widths(fields: seq<Field>) {
    forall i | 0 <= i < |fields| :: fields[i].width == 2 || fields[i].width == 4 || fields[i].width == 8
  }

  lemma EhdrSound(wide: bool)
    ensures Format(EhdrFields(wide), EhdrSize(wide)) && Widths(EhdrFields(wide))
  {
    ConsecutiveIsFormat(EhdrFields(wide), EhdrSize(wide));
  }

  lemma ShdrSound(wide: bool)
    ensures Format(ShdrFields(wide), ShdrSize(wide)) && Widths(ShdrFields(wide))
  {
    ConsecutiveIsFormat(ShdrFields(wide), ShdrSize(wide));
  }

  lemma SymSound(wide: bool)
    ensures Format(SymFields(wide), SymSize(wide)) && Widths(SymFields(wide))
  {
    ConsecutiveIsFormat(SymFields(wide), SymSize(wide));
  }

  function Number(b: seq<Octet>, f: Field, little: bool): nat {
    if f.at + f.width <= |b| then Int(Slice(b, f), little) else 0
  }

  /** The numbers in the fields of a record. */
  function Numbers(b: seq<Octet>, fields: seq<Field>, little: bool): (r: seq<nat>)
    ensures |r| == |fields| && forall i | 0 <= i < |r| :: r[i] == Number(b, fields[i], little)
  {
    seq(|fields|, i requires 0 <= i < |fields| => Number(b, fields[i], little))
  }

  function RecordAt(file: seq<Octet>, at: nat, size: nat, fields: seq<Field>, little: bool): (r: Option<seq<nat>>)
    ensures r.Some? ==> |r.value| == |fields|
  {
    if at + size <= |file| then Some(Numbers(file[at..at + size], fields, little)) else None
  }

  datatype Header = Header(kind: nat, machine: nat, version: nat, shoff: nat, shentsize: nat, shnum: nat, shstrndx: nat)
  datatype Shdr = Shdr(name: nat, kind: nat, offset: nat, size: nat, entsize: nat)
  datatype Sym = Sym(name: nat, value: nat, size: nat, shndx: nat)

  function HeaderOf(r: seq<nat>): Header
    requires |r| == 13
  {
    Header(r[0], r[1], r[2], r[5], r[10], r[11], r[12])
  }

  function ShdrOf(r: seq<nat>): Shdr
    requires |r| == 10
  {
    Shdr(r[0], r[1], r[4], r[5], r[9])
  }

  function SymOf(r: seq<nat>, wide: bool): Sym
    requires |r| == 4
  {
    if wide then Sym(r[0], r[2], r[3], r[1]) else Sym(r[0], r[1], r[2], r[3])
  }

  // ----- the file header -----

  function Ident(file: seq<Octet>): Option<Enc> {
    if |file| < 16 || file[..4] != [0x7F, 0x45, 0x4C, 0x46] || !(1 <= file[4] <= 2) || !(1 <= file[5] <= 2)
        || file[6] != 1
    then None
    else Some(Enc(file[5] == 1, file[4] == 2))
  }

  /** The machine types that the converter has a name for. */
  predicate KnownMachine(m: nat) {
    || m <= 5 || 7 <= m <= 10 || m == 15 || 17 <= m <= 23 || 36 <= m <= 120 || 131 <= m <= 144
    || 160 <= m <= 171 || 173 <= m <= 181 || m == 183 || 185 <= m <= 224 || m == 243
  }

  predicate Accepted(h: Header) {
    h.kind <= 4 && KnownMachine(h.machine) && h.version == 1
  }

  function HeaderAt(file: seq<Octet>, enc: Enc): Option<Header> {
    match RecordAt(file, 0, EhdrSize(enc.wide), EhdrFields(enc.wide), enc.little)
    case None => None
    case Some(r) => if Accepted(HeaderOf(r)) then Some(HeaderOf(r)) else None
  }

  // ----- names -----

  /** The text at an offset, up to the zero byte; None when it does not end in time. */
  function NameFrom(file: seq<Octet>, at: nat, room: nat): Option<seq<Octet>>
    decreases room
  {
    if room == 0 || at >= |file| then None
    else if file[at] == 0 then Some([])
    else match NameFrom(file, at + 1, room - 1)
      case None => None
      case Some(rest) => Some([file[at]] + rest)
  }

  function NameAt(file: seq<Octet>, at: nat): Option<seq<Octet>> {
    if at >= TWO31 then None else NameFrom(file, at, NAME_MAX)
  }

  // ----- reading one after the other -----

  /** The first n things that are read, unless one of them cannot be. */
  function Collect<T>(f: nat -> Option<T>, n: nat): (r: Option<seq<T>>)
    ensures r.Some? ==> |r.value| == n
  {
    if n == 0 then Some([])
    else match (Collect(f, n - 1), f(n - 1))
      case (Some(before), Some(x)) => Some(before + [x])
      case _ => None
  }

  lemma {:induction false} CollectAll<T>(f: nat -> Option<T>, all: seq<T>, n: nat)
    requires n <= |all| && forall i: nat | i < |all| :: f(i) == Some(all[i])
    ensures Collect(f, n) == Some(all[..n])
  {
    if n > 0 {
      CollectAll(f, all, n - 1);
      assert all[..n - 1] + [all[n - 1]] == all[..n];
    }
  }

  lemma {:induction false} CollectNone<T>(f: nat -> Option<T>, i: nat, n: nat)
    requires i < n && f(i).None?
    ensures Collect(f, n).None?
    decreases n
  {
    if i + 1 < n { CollectNone(f, i, n - 1); }
  }

  // ----- sections -----

  datatype Section = Section(head: Shdr, name: Option<seq<Octet>>)

  function ShdrAt(file: seq<Octet>, enc: Enc, at: nat): Option<Shdr> {
    match RecordAt(file, at, ShdrSize(enc.wide), ShdrFields(enc.wide), enc.little)
    case None => None
    case Some(r) => Some(ShdrOf(r))
  }

  /** Where the header of a section is. */
  function ShdrOffset(h: Header, i: nat): nat {
    h.shoff + i * h.shentsize
  }

  /** A symbol table must have room for an entry. */
  predicate Countable(sh: Shdr) {
    sh.kind == SYMTAB ==> 0 < sh.entsize <= sh.size
  }

  /** A section with its name, if it has one; `names` is where the section names are, zero for nowhere. */
  function Named(file: seq<Octet>, names: nat, sh: Shdr): Option<Section> {
    if names == 0 || sh.name == 0 then Some(Section(sh, None))
    else match NameAt(file, names + sh.name)
      case None => None
      case Some(n) => if Countable(sh) then Some(Section(sh, Some(n))) else None
  }

  function SectionAt(file: seq<Octet>, enc: Enc, names: nat, at: nat): Option<Section> {
    match ShdrAt(file, enc, at)
    case None => None
    case Some(sh) => Named(file, names, sh)
  }

  function SectionReader(file: seq<Octet>, enc: Enc, h: Header, names: nat): nat -> Option<Section> {
    (i: nat) => SectionAt(file, enc, names, ShdrOffset(h, i))
  }

  function SectionsTo(file: seq<Octet>, enc: Enc, h: Header, names: nat, n: nat): (r: Option<seq<Section>>)
    ensures r.Some? ==> |r.value| == n
  {
    Collect(SectionReader(file, enc, h, names), n)
  }

  const STRTAB_NAME: seq<Octet> := [0x2E, 0x73, 0x74, 0x72, 0x74, 0x61, 0x62]
  const BSS_NAME: seq<Octet> := [0x2E, 0x62, 0x73, 0x73]

  predicate IsKind(s: Section, kind: nat) {
    s.name.Some? && s.head.kind == kind
  }

  /** Where symbol names are, once a section is met: a section named .strtab is always taken, another
      only while none is chosen and if it is not the one with the section names. */
  function NextStrings(before: nat, s: Section, ofNames: bool): nat {
    if IsKind(s, STRTAB) && (s.name.value == STRTAB_NAME || (before == 0 && !ofNames)) then s.head.offset else before
  }

  function StringsAt(sections: seq<Section>, shstrndx: nat, n: nat): nat
    requires n <= |sections|
  {
    if n == 0 then 0 else NextStrings(StringsAt(sections, shstrndx, n - 1), sections[n - 1], n - 1 == shstrndx)
  }

  datatype Symbols = Symbols(at: nat, entsize: nat, count: nat)

  /** The symbol table, once a section is met: the last one, without its first entry. */
  function NextTable(before: Symbols, s: Section, wide: bool): Symbols {
    if IsKind(s, SYMTAB) && Countable(s.head)
    then Symbols(s.head.offset + SymSize(wide), s.head.entsize, s.head.size / s.head.entsize - 1) else before
  }

  function SymbolsAt(sections: seq<Section>, wide: bool, n: nat): Symbols
    requires n <= |sections|
  {
    if n == 0 then Symbols(0, 0, 0) else NextTable(SymbolsAt(sections, wide, n - 1), sections[n - 1], wide)
  }

  // ----- symbols -----

  datatype Symbol = Symbol(head: Sym, name: seq<Octet>)

  function SymAt(file: seq<Octet>, enc: Enc, at: nat): Option<Sym> {
    if at >= TWO31 then None
    else match RecordAt(file, at, SymSize(enc.wide), SymFields(enc.wide), enc.little)
      case None => None
      case Some(r) => Some(SymOf(r, enc.wide))
  }

  /** Where entry i + 1 of the symbol table is. */
  function SymOffset(table: Symbols, i: nat): nat {
    table.at + i * table.entsize
  }

  function SymbolAt(file: seq<Octet>, enc: Enc, strings: nat, at: nat): Option<Symbol> {
    match SymAt(file, enc, at)
    case None => None
    case Some(sym) =>
      match NameAt(file, strings + sym.name)
      case None => None
      case Some(n) => Some(Symbol(sym, n))
  }

  function SymbolReader(file: seq<Octet>, enc: Enc, table: Symbols, strings: nat): nat -> Option<Symbol> {
    (i: nat) => SymbolAt(file, enc, strings, SymOffset(table, i))
  }

  function SymbolsTo(file: seq<Octet>, enc: Enc, table: Symbols, strings: nat, n: nat): (r: Option<seq<Symbol>>)
    ensures r.Some? ==> |r.value| == n
  {
    Collect(SymbolReader(file, enc, table, strings), n)
  }

  const DEF_NAME: seq<Octet> :=
    [0x43, 0x46, 0x45, 0x5F, 0x54, 0x42, 0x4C, 0x5F, 0x46, 0x69, 0x6C, 0x65, 0x44, 0x65, 0x66]

  /** The name of the definition, with or without one character before it. */
  predicate IsDef(name: seq<Octet>) {
    name == DEF_NAME || (name != [] && name[1..] == DEF_NAME)
  }

  /** The symbol of the table definition among the first n: the last one so named. */
  function DefIndex(symbols: seq<Symbol>, n: nat): (r: Option<nat>)
    requires n <= |symbols|
    ensures r.Some? ==> r.value < n
  {
    if n == 0 then None else if IsDef(symbols[n - 1].name) then Some(n - 1) else DefIndex(symbols, n - 1)
  }

  // ----- the table definition -----

  datatype Def = Def(objectName: seq<Octet>, table: seq<Octet>, description: seq<Octet>, size: nat)

  /** The text in a fixed field whose last byte is made zero. */
  function Text(b: seq<Octet>): seq<Octet> {
    if |b| <= 1 || b[0] == 0 then [] else [b[0]] + Text(b[1..])
  }

  lemma {:induction false} TextFits(b: seq<Octet>)
    ensures |Text(b)| <= if b == [] then 0 else |b| - 1
  {
    if |b| > 1 { TextFits(b[1..]); }
  }

  predicate DefFits(d: Def) {
    |d.table| < 40 && |d.description| < 32
  }

  function DefOf(b: seq<Octet>, little: bool): (d: Def)
    requires |b| == DEF_SIZE
    ensures DefFits(d)
  {
    TextFits(b[64..104]);
    TextFits(b[104..136]);
    Def(Text(b[..64]), Text(b[64..104]), Text(b[104..136]), Int(b[156..160], little))
  }

  /** Where the bytes of a symbol are, within 32 bits. */
  function Location(sections: seq<Section>, sym: Sym): Option<nat> {
    if sym.shndx >= |sections| then None
    else
      var at := sections[sym.shndx].head.offset + sym.value;
      if at >= TWO32 then None else Some(at)
  }

  function DefAt(file: seq<Octet>, enc: Enc, sections: seq<Section>, sym: Sym): (r: Option<Def>)
    ensures r.Some? ==> DefFits(r.value)
  {
    if sym.size != DEF_SIZE && sym.size != 0 then None
    else match Location(sections, sym)
      case None => None
      case Some(at) => if at + DEF_SIZE <= |file| then Some(DefOf(file[at..at + DEF_SIZE], enc.little)) else None
  }

  // ----- the user's object -----

  /** The object's name, with or without one character after it. */
  predicate IsObject(name: seq<Octet>, objectName: seq<Octet>) {
    objectName <= name && |name| <= |objectName| + 1
  }

  /** The first symbol from i on that names the object. */
  function ObjectIndex(symbols: seq<Symbol>, objectName: seq<Octet>, i: nat): (r: Option<nat>)
    requires i <= |symbols|
    ensures r.Some? ==> i <= r.value < |symbols|
    decreases |symbols| - i
  {
    if i == |symbols| then None
    else if IsObject(symbols[i].name, objectName) then Some(i)
    else ObjectIndex(symbols, objectName, i + 1)
  }

  /** Reading past the end gives bytes of all ones. */
  function BytesAt(file: seq<Octet>, at: nat, n: nat): (r: seq<Octet>)
    ensures |r| == n && forall k | 0 <= k < n :: r[k] == if at + k < |file| then file[at + k] else 255
  {
    seq(n, k requires 0 <= k => if at + k < |file| then file[at + k] else 255)
  }

  function Zeros(n: nat): (r: seq<Octet>)
    ensures |r| == n && forall k | 0 <= k < n :: r[k] == 0
  {
    seq(n, k => 0)
  }

  function ObjectSize(size: nat, defined: nat): nat {
    if size == 0 || defined < size then defined else size
  }

  function DataAt(file: seq<Octet>, sections: seq<Section>, def: Def, sym: Sym): Option<seq<Octet>> {
    if sym.shndx >= |sections| || sections[sym.shndx].name.None? then None
    else if sections[sym.shndx].name.value == BSS_NAME then
      if sym.size < TWO31 then Some(Zeros(sym.size)) else None
    else match Location(sections, sym)
      case None => None
      case Some(at) =>
        var n := ObjectSize(sym.size, def.size);
        if n < TWO31 then Some(BytesAt(file, at, n)) else None
  }

  // ----- the table file -----

  /** What the command line adds: numbers for the header and texts that replace those of the file. */
  datatype Settings = Settings(spacecraft: nat, processor: nat, application: nat, seconds: nat,
                               table: Option<seq<Octet>>, description: Option<seq<Octet>>)

  predicate Fits(o: Settings) {
    (o.table.Some? ==> |o.table.value| < 38) && (o.description.Some? ==> |o.description.value| < 32)
  }

  function Pad(text: seq<Octet>, n: nat): seq<Octet>
    requires |text| <= n
  {
    text + Zeros(n - |text|)
  }

  function Big(v: nat): seq<Octet> {
    Encode(v, 4, false)
  }

  /** The headers of a table file, every number most significant byte first. */
  function Headers(o: Settings, d: Def, n: nat): seq<Octet>
    requires Fits(o) && DefFits(d)
  {
    Big(0x63464531) + Big(8) + Big(64) + Big(o.spacecraft) + Big(o.processor) + Big(o.application)
    + Big(o.seconds) + Big(0)
    + Pad(if o.description.Some? then o.description.value else d.description, 32)
    + Big(0) + Big(0) + Big(n) + Pad(if o.table.Some? then o.table.value else d.table, 40)
  }

  // ----- the whole -----

  function TableOf(file: seq<Octet>, o: Settings, enc: Enc, sections: seq<Section>,
                   symbols: seq<Symbol>): Option<seq<Octet>>
    requires Fits(o)
  {
    match DefIndex(symbols, |symbols|)
    case None => None
    case Some(d) =>
      match DefAt(file, enc, sections, symbols[d].head)
      case None => None
      case Some(def) =>
        match ObjectIndex(symbols, def.objectName, 0)
        case None => None
        case Some(u) =>
          match DataAt(file, sections, def, symbols[u].head)
          case None => None
          case Some(data) => Some(Headers(o, def, |data|) + data)
  }

  function FromTables(file: seq<Octet>, o: Settings, enc: Enc, sections: seq<Section>, strings: nat, table: Symbols)
    : Option<seq<Octet>>
    requires Fits(o)
  {
    if strings == 0 || table.count == 0 then None
    else match SymbolsTo(file, enc, table, strings, table.count)
      case None => None
      case Some(symbols) => TableOf(file, o, enc, sections, symbols)
  }

  /** Where the names of sections are: the offset of the section that the header names for it. */
  function NamesAt(file: seq<Octet>, enc: Enc, h: Header): Option<nat> {
    match ShdrAt(file, enc, ShdrOffset(h, h.shstrndx))
    case None => None
    case Some(sh) => Some(sh.offset)
  }

  /** The table file that an object file describes. */
  function Table(file: seq<Octet>, o: Settings): Option<seq<Octet>>
    requires Fits(o)
  {
    match Ident(file)
    case None => None
    case Some(enc) =>
      match HeaderAt(file, enc)
      case None => None
      case Some(h) =>
        match NamesAt(file, enc, h)
        case None => None
        case Some(names) =>
          if h.shnum == 0 then None
          else match SectionsTo(file, enc, h, names, h.shnum)
            case None => None
            case Some(sections) =>
              FromTables(file, o, enc, sections, StringsAt(sections, h.shstrndx, |sections|),
                         SymbolsAt(sections, enc.wide, |sections|))
  }
}

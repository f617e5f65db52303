/**
The converter as it runs: records are read into a buffer and swapped in place when file and machine
differ in byte order, the section and symbol loops keep track of the tables they meet, and the
headers are swapped again on the way out. It produces exactly the table that the file describes,
on a machine of either byte order.
*/
module ElfConverter {
  import opened ElfBytes
  import opened ElfFile
  import opened ElfHeaders
  import opened ElfRecords
  import opened Options

  // ----- what the loops keep -----

  lemma {:induction false} StringsAtPrefix(a: seq<Section>, s: Section, shstrndx: nat, n: nat)
    requires n <= |a|
    ensures StringsAt(a + [s], shstrndx, n) == StringsAt(a, shstrndx, n)
  {
    if n > 0 { StringsAtPrefix(a, s, shstrndx, n - 1); }
  }

  lemma {:induction false} SymbolsAtPrefix(a: seq<Section>, s: Section, wide: bool, n: nat)
    requires n <= |a|
    ensures SymbolsAt(a + [s], wide, n) == SymbolsAt(a, wide, n)
  {
    if n > 0 { SymbolsAtPrefix(a, s, wide, n - 1); }
  }

  lemma {:induction false} DefIndexPrefix(a: seq<Symbol>, s: Symbol, n: nat)
    requires n <= |a|
    ensures DefIndex(a + [s], n) == DefIndex(a, n)
  {
    if n > 0 { DefIndexPrefix(a, s, n - 1); }
  }

  lemma {:induction false} NotFoundBefore(symbols: seq<Symbol>, objectName: seq<Octet>, i: nat)
    requires i <= |symbols| && forall k | 0 <= k < i :: !IsObject(symbols[k].name, objectName)
    ensures ObjectIndex(symbols, objectName, 0) == ObjectIndex(symbols, objectName, i)
  {
    if i > 0 { NotFoundBefore(symbols, objectName, i - 1); }
  }

  /** What the section loop has read and found after i sections. */
  ghost predicate ReadSections(file: seq<Octet>, enc: Enc, h: Header, names: nat, i: nat,
                               sections: seq<Section>, strings: nat, table: Symbols)
  {
    && SectionsTo(file, enc, h, names, i) == Some(sections) && |sections| == i
    && strings == StringsAt(sections, h.shstrndx, i) && table == SymbolsAt(sections, enc.wide, i)
  }

  lemma ReadSectionsNext(file: seq<Octet>, enc: Enc, h: Header, names: nat, i: nat,
                         sections: seq<Section>, strings: nat, table: Symbols, s: Section)
    requires ReadSections(file, enc, h, names, i, sections, strings, table)
    requires SectionAt(file, enc, names, ShdrOffset(h, i)) == Some(s)
    ensures ReadSections(file, enc, h, names, i + 1, sections + [s], NextStrings(strings, s, i == h.shstrndx),
                         NextTable(table, s, enc.wide))
  {
    StringsAtPrefix(sections, s, h.shstrndx, i);
    SymbolsAtPrefix(sections, s, enc.wide, i);
  }

  /** What the symbol loop has read and found after i symbols. */
  ghost predicate ReadSymbols(file: seq<Octet>, enc: Enc, table: Symbols, strings: nat, i: nat,
                              symbols: seq<Symbol>, def: Option<nat>)
  {
    SymbolsTo(file, enc, table, strings, i) == Some(symbols) && |symbols| == i && def == DefIndex(symbols, i)
  }

  lemma ReadSymbolsNext(file: seq<Octet>, enc: Enc, table: Symbols, strings: nat, i: nat,
                        symbols: seq<Symbol>, def: Option<nat>, s: Symbol)
    requires ReadSymbols(file, enc, table, strings, i, symbols, def)
    requires SymbolAt(file, enc, strings, SymOffset(table, i)) == Some(s)
    ensures ReadSymbols(file, enc, table, strings, i + 1, symbols + [s], if IsDef(s.name) then Some(i) else def)
  {
    DefIndexPrefix(symbols, s, i);
  }

  /** What has been read of a name, and what is still to come. */
  lemma {:induction false} NameSoFar(file: seq<Octet>, at: nat, room: nat, k: nat)
    requires k <= room && at + k <= |file| && forall j | at <= j < at + k :: file[j] != 0
    ensures NameFrom(file, at, room) == match NameFrom(file, at + k, room - k)
                                        case None => None
                                        case Some(rest) => Some(file[at..at + k] + rest)
    decreases k
  {
    if k == 0 {
      match NameFrom(file, at, room)
      case None =>
      case Some(rest) => assert file[at..at] + rest == rest;
    } else {
      NameSoFar(file, at + 1, room - 1, k - 1);
      match NameFrom(file, at + k, room - k)
      case None =>
      case Some(rest) => assert [file[at]] + (file[at + 1..at + k] + rest) == file[at..at + k] + rest;
    }
  }

  lemma {:induction false} TextIgnoresLast(b: seq<Octet>, x: Octet)
    requires b != []
    ensures Text(b[|b| - 1 := x]) == Text(b)
    decreases |b|
  {
    if |b| > 1 {
      assert b[|b| - 1 := x][1..] == b[1..][|b| - 2 := x];
      TextIgnoresLast(b[1..], x);
    }
  }

  /** The text before the first zero byte. */
  lemma {:induction false} TextToZero(b: seq<Octet>, k: nat)
    requires k < |b| && b[k] == 0 && forall j | 0 <= j < k :: b[j] != 0
    ensures Text(b) == b[..k]
    decreases k
  {
    if k > 0 {
      TextToZero(b[1..], k - 1);
      assert [b[0]] + b[1..][..k - 1] == b[..k];
    }
  }

  /** What ending the four texts and swapping the last field does to a definition. */
  lemma DefRead(b: seq<Octet>, t: seq<Octet>, little: bool, host: bool)
    requires |b| == |t| == DEF_SIZE
    requires t[..64] == b[..64][63 := 0] && t[64..104] == b[64..104][39 := 0] && t[104..136] == b[104..136][31 := 0]
    requires t[156..160] == if little != host then Rev(b[156..160]) else b[156..160]
    ensures Def(Text(t[..64]), Text(t[64..104]), Text(t[104..136]), Int(t[156..160], host)) == DefOf(b, little)
  {
    TextIgnoresLast(b[..64], 0);
    TextIgnoresLast(b[64..104], 0);
    TextIgnoresLast(b[104..136], 0);
    IntReversed(b[156..160], little);
  }

  /** After the swap the machine finds the numbers of the file. */
  lemma NumbersRead(b: seq<Octet>, fields: seq<Field>, little: bool, host: bool)
    requires Format(fields, |b|)
    ensures Numbers(if little != host then SwapFields(b, fields) else b, fields, host) == Numbers(b, fields, little)
  {
    var b' := if little != host then SwapFields(b, fields) else b;
    forall i | 0 <= i < |fields| ensures Numbers(b', fields, host)[i] == Numbers(b, fields, little)[i] {
      FieldRead(b, fields, i, little, host);
    }
  }

  method ReadBytes(file: seq<Octet>, at: nat, size: nat) returns (buffer: array<Octet>)
    requires at + size <= |file|
    ensures fresh(buffer) && buffer[..] == file[at..at + size]
  {
    buffer := new Octet[size];
    var i := 0;
    while i < size
      invariant i <= size && buffer[..i] == file[at..at + i]
    {
      buffer[i] := file[at + i];
      i := i + 1;
    }
    assert buffer[..] == buffer[..i];
  }

  /** The machine's numbers in the fields of a buffer. */
  method TakeNumbers(host: bool, buffer: array<Octet>, fields: seq<Field>) returns (numbers: seq<nat>)
    requires Format(fields, buffer.Length)
    ensures numbers == Numbers(buffer[..], fields, host)
  {
    ghost var all := Numbers(buffer[..], fields, host);
    numbers := [];
    var i := 0;
    while i < |fields|
      invariant i <= |fields| && numbers == all[..i]
    {
      assert buffer[fields[i].at..fields[i].at + fields[i].width] == Slice(buffer[..], fields[i]);
      numbers := numbers + [Int(buffer[fields[i].at..fields[i].at + fields[i].width], host)];
      i := i + 1;
    }
  }

  /** Reads a record into a buffer, swaps it if need be, and takes the machine's numbers from it. */
  method ReadRecord(file: seq<Octet>, host: bool, at: nat, size: nat, fields: seq<Field>, little: bool)
    returns (r: Option<seq<nat>>)
    requires Format(fields, size) && Widths(fields)
    ensures r == RecordAt(file, at, size, fields, little)
  {
    if at + size > |file| {
      return None;
    }
    ghost var b := file[at..at + size];
    var buffer := ReadBytes(file, at, size);
    if little != host {
      SwapRecord(buffer, fields);
    }
    var numbers := TakeNumbers(host, buffer, fields);
    NumbersRead(b, fields, little, host);
    return Some(numbers);
  }

  method ReadName(file: seq<Octet>, at: nat) returns (r: Option<seq<Octet>>)
    ensures r == NameAt(file, at)
  {
    if at >= TWO31 {
      return None;
    }
    var k := 0;
    while k < NAME_MAX && at + k < |file|
      invariant k <= NAME_MAX && (k == 0 || at + k <= |file|) && forall j | at <= j < at + k :: file[j] != 0
      invariant at < |file| ==> at + k <= |file|
    {
      if file[at + k] == 0 {
        NameSoFar(file, at, NAME_MAX, k);
        assert file[at..at + k] + [] == file[at..at + k];
        return Some(file[at..at + k]);
      }
      k := k + 1;
    }
    if at < |file| {
      NameSoFar(file, at, NAME_MAX, k);
    }
    return None;
  }

  method GetElfHeader(file: seq<Octet>, host: bool) returns (r: Option<(Enc, Header)>)
    ensures r == match Ident(file)
                 case None => None
                 case Some(enc) => match HeaderAt(file, enc) case None => None case Some(h) => Some((enc, h))
  {
    if |file| < 16 || file[..4] != [0x7F, 0x45, 0x4C, 0x46] || !(1 <= file[4] <= 2) || !(1 <= file[5] <= 2)
        || file[6] != 1 {
      return None;
    }
    var enc := Enc(file[5] == 1, file[4] == 2);
    EhdrSound(enc.wide);
    var record := ReadRecord(file, host, 0, EhdrSize(enc.wide), EhdrFields(enc.wide), enc.little);
    if record.None? || !Accepted(HeaderOf(record.value)) {
      return None;
    }
    return Some((enc, HeaderOf(record.value)));
  }

  method GetShdr(file: seq<Octet>, host: bool, enc: Enc, at: nat) returns (r: Option<Shdr>)
    ensures r == ShdrAt(file, enc, at)
  {
    ShdrSound(enc.wide);
    var record := ReadRecord(file, host, at, ShdrSize(enc.wide), ShdrFields(enc.wide), enc.little);
    r := if record.None? then None else Some(ShdrOf(record.value));
  }

  method GetSectionHeader(file: seq<Octet>, host: bool, enc: Enc, names: nat, at: nat) returns (r: Option<Section>)
    ensures r == SectionAt(file, enc, names, at)
  {
    var sh := GetShdr(file, host, enc, at);
    if sh.None? {
      return None;
    }
    if names == 0 || sh.value.name == 0 {
      return Some(Section(sh.value, None));
    }
    var name := ReadName(file, names + sh.value.name);
    if name.None? || !Countable(sh.value) {
      return None;
    }
    return Some(Section(sh.value, name));
  }

  /** What a section means for the tables: the switch on its type. */
  method TrackTables(s: Section, i: nat, shstrndx: nat, wide: bool, strings: nat, table: Symbols)
    returns (strings': nat, table': Symbols)
    ensures strings' == NextStrings(strings, s, i == shstrndx) && table' == NextTable(table, s, wide)
  {
    strings', table' := strings, table;
    if s.name.Some? {
      if s.head.kind == SYMTAB && Countable(s.head) {
        table' := Symbols(s.head.offset + SymSize(wide), s.head.entsize, s.head.size / s.head.entsize - 1);
      } else if s.head.kind == STRTAB && (s.name.value == STRTAB_NAME || (strings == 0 && i != shstrndx)) {
        strings' := s.head.offset;
      }
    }
  }

  /** The section loop: all sections, and the string and symbol tables met on the way. */
  method GetSections(file: seq<Octet>, host: bool, enc: Enc, h: Header, names: nat)
    returns (r: Option<seq<Section>>, strings: nat, table: Symbols)
    ensures r == SectionsTo(file, enc, h, names, h.shnum)
    ensures r.Some? ==> ReadSections(file, enc, h, names, h.shnum, r.value, strings, table)
  {
    var sections: seq<Section> := [];
    strings, table := 0, Symbols(0, 0, 0);
    var i := 0;
    while i < h.shnum
      invariant i <= h.shnum && ReadSections(file, enc, h, names, i, sections, strings, table)
    {
      var s := GetSectionHeader(file, host, enc, names, ShdrOffset(h, i));
      if s.None? {
        CollectNone(SectionReader(file, enc, h, names), i, h.shnum);
        return None, strings, table;
      }
      ReadSectionsNext(file, enc, h, names, i, sections, strings, table, s.value);
      strings, table := TrackTables(s.value, i, h.shstrndx, enc.wide, strings, table);
      sections := sections + [s.value];
      i := i + 1;
    }
    return Some(sections), strings, table;
  }

  method GetSym(file: seq<Octet>, host: bool, enc: Enc, at: nat) returns (r: Option<Sym>)
    ensures r == SymAt(file, enc, at)
  {
    if at >= TWO31 {
      return None;
    }
    SymSound(enc.wide);
    var record := ReadRecord(file, host, at, SymSize(enc.wide), SymFields(enc.wide), enc.little);
    r := if record.None? then None else Some(SymOf(record.value, enc.wide));
  }

  method GetSymbol(file: seq<Octet>, host: bool, enc: Enc, strings: nat, at: nat) returns (r: Option<Symbol>)
    ensures r == SymbolAt(file, enc, strings, at)
  {
    var sym := GetSym(file, host, enc, at);
    if sym.None? {
      return None;
    }
    var name := ReadName(file, strings + sym.value.name);
    r := if name.None? then None else Some(Symbol(sym.value, name.value));
  }

  /** The symbol loop: all symbols, and the last one named like the table definition. */
  method GetSymbols(file: seq<Octet>, host: bool, enc: Enc, table: Symbols, strings: nat)
    returns (r: Option<seq<Symbol>>, def: Option<nat>)
    ensures r == SymbolsTo(file, enc, table, strings, table.count)
    ensures r.Some? ==> def == DefIndex(r.value, |r.value|)
  {
    var symbols: seq<Symbol> := [];
    def := None;
    var i := 0;
    while i < table.count
      invariant i <= table.count && ReadSymbols(file, enc, table, strings, i, symbols, def)
    {
      var s := GetSymbol(file, host, enc, strings, SymOffset(table, i));
      if s.None? {
        CollectNone(SymbolReader(file, enc, table, strings), i, table.count);
        return None, def;
      }
      ReadSymbolsNext(file, enc, table, strings, i, symbols, def, s.value);
      if IsDef(s.value.name) {
        def := Some(i);
      }
      symbols := symbols + [s.value];
      i := i + 1;
    }
    return Some(symbols), def;
  }

  /** The text in a field of a buffer that ends with a zero byte. */
  method ReadText(buffer: array<Octet>, at: nat, n: nat) returns (t: seq<Octet>)
    requires 0 < n && at + n <= buffer.Length && buffer[at + n - 1] == 0
    ensures t == Text(buffer[at..at + n])
  {
    ghost var b := buffer[at..at + n];
    var k := 0;
    while buffer[at + k] != 0
      invariant k < n && forall j | 0 <= j < k :: b[j] != 0
      decreases n - k
    {
      assert b[k] != 0;
      k := k + 1;
    }
    TextToZero(b, k);
    t := buffer[at..at + k];
    assert t == b[..k] by {
      forall j | 0 <= j < k ensures t[j] == b[j] { }
    }
  }

  method TerminateTexts(buffer: array<Octet>)
    requires buffer.Length == DEF_SIZE
    modifies buffer
    ensures buffer[..64] == old(buffer[..64])[63 := 0] && buffer[64..104] == old(buffer[64..104])[39 := 0]
    ensures buffer[104..136] == old(buffer[104..136])[31 := 0] && buffer[156..160] == old(buffer[156..160])
  {
    buffer[63] := 0;
    buffer[103] := 0;
    buffer[135] := 0;
    buffer[155] := 0;
  }

  method GetTblDefInfo(file: seq<Octet>, host: bool, enc: Enc, sections: seq<Section>, sym: Sym)
    returns (r: Option<Def>)
    ensures r == DefAt(file, enc, sections, sym)
  {
    if sym.size != DEF_SIZE && sym.size != 0 {
      return None;
    }
    var at := Location(sections, sym);
    if at.None? || at.value + DEF_SIZE > |file| {
      return None;
    }
    var def := ReadDef(file, host, at.value, enc.little);
    return Some(def);
  }

  method ReadDef(file: seq<Octet>, host: bool, at: nat, little: bool) returns (def: Def)
    requires at + DEF_SIZE <= |file|
    ensures def == DefOf(file[at..at + DEF_SIZE], little)
  {
    var buffer := ReadBytes(file, at, DEF_SIZE);
    ghost var b := buffer[..];
    TerminateTexts(buffer);
    assert buffer[..64][63] == 0 && buffer[64..104][39] == 0 && buffer[104..136][31] == 0;
    var objectName := ReadText(buffer, 0, 64);
    var table := ReadText(buffer, 64, 40);
    var description := ReadText(buffer, 104, 32);
    ghost var t := buffer[..];
    if little != host {
      SwapUInt32(buffer, 156);
    }
    assert buffer[..156] == t[..156];
    DefRead(b, buffer[..], little, host);
    def := Def(objectName, table, description, Int(buffer[156..160], host));
  }

  /** The search for the user's object: the first symbol whose name is the object's or has one more character. */
  method LocateUserObject(symbols: seq<Symbol>, objectName: seq<Octet>) returns (r: Option<nat>)
    ensures r == ObjectIndex(symbols, objectName, 0)
  {
    var i := 0;
    while i < |symbols|
      invariant i <= |symbols| && forall k | 0 <= k < i :: !IsObject(symbols[k].name, objectName)
    {
      NotFoundBefore(symbols, objectName, i);
      var name := symbols[i].name;
      if |objectName| <= |name| && name[..|objectName|] == objectName {
        if |name| - |objectName| == 1 {
          return Some(i);
        } else if |name| - |objectName| == 0 {
          return Some(i);
        }
      }
      i := i + 1;
    }
    NotFoundBefore(symbols, objectName, i);
    return None;
  }

  /** The bytes copied to the table file, one by one. */
  method CopyData(file: seq<Octet>, at: nat, n: nat) returns (data: seq<Octet>)
    ensures data == BytesAt(file, at, n)
  {
    data := [];
    var i := 0;
    while i < n
      invariant i <= n && data == BytesAt(file, at, n)[..i]
    {
      var b: Octet := 255;
      if at + i < |file| {
        b := file[at + i];
      }
      data := data + [b];
      i := i + 1;
    }
  }

  method ZeroData(n: nat) returns (data: seq<Octet>)
    ensures data == Zeros(n)
  {
    data := [];
    var i := 0;
    while i < n
      invariant i <= n && data == Zeros(n)[..i]
    {
      data := data + [0];
      i := i + 1;
    }
  }

  method ReadUserObject(file: seq<Octet>, sections: seq<Section>, def: Def, sym: Sym) returns (r: Option<seq<Octet>>)
    ensures r == DataAt(file, sections, def, sym)
  {
    if sym.shndx >= |sections| || sections[sym.shndx].name.None? {
      return None;
    }
    if sections[sym.shndx].name.value == BSS_NAME {
      if sym.size >= TWO31 {
        return None;
      }
      var zeros := ZeroData(sym.size);
      return Some(zeros);
    }
    var at := Location(sections, sym);
    if at.None? {
      return None;
    }
    var n := sym.size;
    if n != 0 {
      if def.size < n {
        n := def.size;
      }
    } else {
      n := def.size;
    }
    if n >= TWO31 {
      return None;
    }
    var data := CopyData(file, at.value, n);
    return Some(data);
  }

  /** A header word: stored in the machine's order, and swapped on a little-endian machine. */
  method Word(host: bool, v: nat) returns (b: seq<Octet>)
    ensures b == Big(v)
  {
    ghost var stored := Encode(v, 4, host);
    var buffer := new Octet[4];
    buffer[0], buffer[1], buffer[2], buffer[3] :=
      Encode(v, 4, host)[0], Encode(v, 4, host)[1], Encode(v, 4, host)[2], Encode(v, 4, host)[3];
    assert buffer[..] == stored;
    if host {
      SwapUInt32(buffer, 0);
      EncodeReversed(v, 4, true);
      WholeField(stored);
    }
    b := buffer[..];
  }

  /** The file and table headers, word by word. */
  method OutputHeaders(host: bool, o: Settings, def: Def, n: nat) returns (out: seq<Octet>)
    requires Fits(o) && DefFits(def)
    ensures out == Headers(o, def, n) && |out| == 116 && Headed(out, o, def, n)
  {
    HeadersShow(o, def, n, []);
    var contentType := Word(host, 0x63464531);
    var subType := Word(host, 8);
    var length := Word(host, 64);
    var spacecraft := Word(host, o.spacecraft);
    var processor := Word(host, o.processor);
    var application := Word(host, o.application);
    var seconds := Word(host, o.seconds);
    var subSeconds := Word(host, 0);
    var description := Pad(if o.description.Some? then o.description.value else def.description, 32);
    var reserved := Word(host, 0);
    var offset := Word(host, 0);
    var numBytes := Word(host, n);
    var table := Pad(if o.table.Some? then o.table.value else def.table, 40);
    out := contentType + subType + length + spacecraft + processor + application + seconds + subSeconds
           + description + reserved + offset + numBytes + table;
  }

  /** From the symbols on: the definition, the object, and the table file. */
  method Emit(file: seq<Octet>, host: bool, o: Settings, enc: Enc, sections: seq<Section>, symbols: seq<Symbol>,
              d: Option<nat>)
    returns (out: Option<seq<Octet>>)
    requires Fits(o) && d == DefIndex(symbols, |symbols|)
    ensures out == TableOf(file, o, enc, sections, symbols)
  {
    if d.None? {
      return None;
    }
    var def := GetTblDefInfo(file, host, enc, sections, symbols[d.value].head);
    if def.None? {
      return None;
    }
    var u := LocateUserObject(symbols, def.value.objectName);
    if u.None? {
      return None;
    }
    var data := ReadUserObject(file, sections, def.value, symbols[u.value].head);
    if data.None? {
      return None;
    }
    var headers := OutputHeaders(host, o, def.value, |data.value|);
    return Some(headers + data.value);
  }

  /** From the sections on: the symbols, and the table file. */
  method FromSections(file: seq<Octet>, host: bool, o: Settings, enc: Enc, h: Header, names: nat)
    returns (out: Option<seq<Octet>>)
    requires Fits(o)
    ensures out == match SectionsTo(file, enc, h, names, h.shnum)
                   case None => None
                   case Some(sections) => FromTables(file, o, enc, sections,
                                                     StringsAt(sections, h.shstrndx, |sections|),
                                                     SymbolsAt(sections, enc.wide, |sections|))
  {
    var sections, strings, table := GetSections(file, host, enc, h, names);
    if sections.None? || strings == 0 || table.count == 0 {
      return None;
    }
    var symbols, d := GetSymbols(file, host, enc, table, strings);
    if symbols.None? {
      return None;
    }
    out := Emit(file, host, o, enc, sections.value, symbols.value, d);
  }

  /** From the file header on: the sections, and the table file. */
  method FromHeader(file: seq<Octet>, host: bool, o: Settings) returns (out: Option<seq<Octet>>)
    requires Fits(o)
    ensures out == Table(file, o)
  {
    var head := GetElfHeader(file, host);
    if head.None? {
      return None;
    }
    var (enc, h) := head.value;
    var namesHeader := GetShdr(file, host, enc, ShdrOffset(h, h.shstrndx));
    if namesHeader.None? || h.shnum == 0 {
      return None;
    }
    out := FromSections(file, host, o, enc, h, namesHeader.value.offset);
  }

  /** The converter: on a machine of either byte order, the table that the file describes. Only object files are
      converted, and the headers count the bytes behind them. */
  method Convert(file: seq<Octet>, host: bool, o: Settings) returns (out: Option<seq<Octet>>)
    requires Fits(o)
    ensures out == Table(file, o)
    ensures out.Some? ==>
              IsElf(file) && 116 <= |out.value| < 116 + TWO31 && Framed(out.value, o, |out.value| - 116)
  {
    out := FromHeader(file, host, o);
    if out.Some? { TableIsFramed(file, o, out.value); }
  }

  lemma WholeField(b: seq<Octet>)
    requires |b| == 4
    ensures SwapField(b, Field(0, 4)) == Rev(b)
  {
    assert Slice(b, Field(0, 4)) == b;
  }
}

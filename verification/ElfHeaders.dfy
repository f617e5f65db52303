/**
The bytes of a table file, by their positions: the words of the two headers, most significant byte
first, the two texts, and the data behind them.
*/
module ElfHeaders {
  import opened ElfBytes
  import opened ElfFile
  import opened ElfRecords
  import opened Options

  /** The number in four bytes, most significant byte first. */
  function WordAt(b: seq<Octet>, at: nat): nat
    requires at + 4 <= |b|
  {
    0x100_0000 * (b[at] as int) + 0x1_0000 * (b[at + 1] as int) + 0x100 * (b[at + 2] as int) + b[at + 3]
  }

  /** A text, and zero bytes up to the end of its field. */
  predicate TextAt(b: seq<Octet>, at: nat, room: nat, text: seq<Octet>)
    requires at + room <= |b|
  {
    |text| <= room && forall i | 0 <= i < room :: b[at + i] == if i < |text| then text[i] else 0
  }

  /** CFE_FS_Header and CFE_TBL_File_Hdr for n bytes of data. */
  predicate Framed(out: seq<Octet>, o: Settings, n: nat) {
    && |out| >= 116
    && WordAt(out, 0) == 0x63464531 && WordAt(out, 4) == 8 && WordAt(out, 8) == 64
    && WordAt(out, 12) == o.spacecraft % TWO32 && WordAt(out, 16) == o.processor % TWO32
    && WordAt(out, 20) == o.application % TWO32 && WordAt(out, 24) == o.seconds % TWO32 && WordAt(out, 28) == 0
    && (o.description.Some? ==> TextAt(out, 32, 32, o.description.value))
    && WordAt(out, 64) == 0 && WordAt(out, 68) == 0 && WordAt(out, 72) == n % TWO32
    && (o.table.Some? ==> TextAt(out, 76, 40, o.table.value))
  }

  /** The same, with the texts of the definition where the settings give none. */
  predicate Headed(out: seq<Octet>, o: Settings, d: Def, n: nat) {
    && Framed(out, o, n)
    && (o.description.None? ==> TextAt(out, 32, 32, d.description))
    && (o.table.None? ==> TextAt(out, 76, 40, d.table))
  }

  /** A table file: the headers, and then exactly the data. */
  predicate Shows(out: seq<Octet>, o: Settings, d: Def, data: seq<Octet>) {
    Headed(out, o, d, |data|) && out[116..] == data
  }

  // ----- one word, one text -----

  lemma {:induction false} BigBytes(v: nat)
    ensures var b := Big(v);
            |b| == 4 && b[3] == v % 256 && b[2] == v / 256 % 256 && b[1] == v / 256 / 256 % 256
            && b[0] == v / 256 / 256 / 256 % 256
  {
    var a, b, c := v / 256, v / 256 / 256, v / 256 / 256 / 256;
    assert Encode(c, 1, false) == [Low(c)];
    assert Encode(b, 2, false) == [Low(c), Low(b)];
    assert Encode(a, 3, false) == [Low(c), Low(b), Low(a)];
    assert Encode(v, 4, false) == [Low(c), Low(b), Low(a), Low(v)];
  }

  lemma {:induction false} DigitsOf(v: nat)
    ensures 0x100_0000 * (v / 256 / 256 / 256 % 256) + 0x1_0000 * (v / 256 / 256 % 256)
            + 0x100 * (v / 256 % 256) + v % 256 == v % TWO32
  {
    var a, b, c := v / 256, v / 256 / 256, v / 256 / 256 / 256;
    var e := c / 256;
    assert v == 256 * a + v % 256 && a == 256 * b + a % 256 && b == 256 * c + b % 256 && c == 256 * e + c % 256;
  }

  lemma {:induction false} WordIsThere(out: seq<Octet>, at: nat, v: nat)
    requires At(out, at, Big(v))
    ensures at + 4 <= |out| && WordAt(out, at) == v % TWO32
  {
    BigBytes(v);
    DigitsOf(v);
    var b := out[at..at + 4];
    assert b == Big(v) && b[0] == out[at] && b[1] == out[at + 1] && b[2] == out[at + 2] && b[3] == out[at + 3];
  }

  lemma {:induction false} TextIsThere(out: seq<Octet>, at: nat, room: nat, text: seq<Octet>)
    requires |text| <= room && At(out, at, Pad(text, room))
    ensures at + room <= |out| && TextAt(out, at, room, text)
  {
    var b := out[at..at + room];
    assert b == Pad(text, room);
    forall i | 0 <= i < room ensures out[at + i] == if i < |text| then text[i] else 0 {
      assert b[i] == out[at + i];
    }
  }

  // ----- all of them -----

  function Description(o: Settings, d: Def): seq<Octet> {
    if o.description.Some? then o.description.value else d.description
  }

  function TableName(o: Settings, d: Def): seq<Octet> {
    if o.table.Some? then o.table.value else d.table
  }

  /** The parts of a table file, one after the other. */
  function FileParts(o: Settings, d: Def, n: nat, data: seq<Octet>): (r: seq<seq<Octet>>)
    requires Fits(o) && DefFits(d)
    ensures |r| == 14
  {
    [Big(0x63464531), Big(8), Big(64), Big(o.spacecraft), Big(o.processor), Big(o.application), Big(o.seconds), Big(0),
     Pad(Description(o, d), 32), Big(0), Big(0), Big(n), Pad(TableName(o, d), 40), data]
  }

  lemma {:induction false} JoinNext(parts: seq<seq<Octet>>, k: nat)
    requires k < |parts|
    ensures Join(parts[..k + 1]) == Join(parts[..k]) + parts[k] && Start(parts, k + 1) == Start(parts, k) + |parts[k]|
  {
    assert parts[..k + 1][..k] == parts[..k];
  }

  lemma {:induction false} JoinOfFour(p: seq<seq<Octet>>, k: nat, h: seq<Octet>)
    requires k + 4 <= |p| && h == Join(p[..k])
    ensures Join(p[..k + 4]) == h + p[k] + p[k + 1] + p[k + 2] + p[k + 3]
  {
    JoinNext(p, k);
    JoinNext(p, k + 1);
    JoinNext(p, k + 2);
    JoinNext(p, k + 3);
  }

  lemma {:induction false} JoinOfParts(p: seq<seq<Octet>>, h: seq<Octet>, h': seq<Octet>)
    requires |p| == 14 && h == p[0] + p[1] + p[2] + p[3]
    requires h' == h + p[4] + p[5] + p[6] + p[7]
    ensures Join(p) == h' + p[8] + p[9] + p[10] + p[11] + p[12] + p[13]
  {
    assert p[..0] == [] && [] + p[0] == p[0];
    JoinOfFour(p, 0, []);
    JoinOfFour(p, 4, h);
    JoinOfFour(p, 8, h');
    JoinNext(p, 12);
    JoinNext(p, 13);
    assert p[..14] == p;
  }

  lemma {:induction false} PartStarts(p: seq<seq<Octet>>)
    requires |p| == 14 && |p[8]| == 32 && |p[12]| == 40
    requires forall k | 0 <= k < 12 && k != 8 :: |p[k]| == 4
    ensures forall k | 0 <= k <= 8 :: Start(p, k) == 4 * k
    ensures Start(p, 9) == 64 && Start(p, 10) == 68 && Start(p, 11) == 72 && Start(p, 12) == 76 && Start(p, 13) == 116
  {
    assert Start(p, 1) == 4;
    assert Start(p, 2) == 8;
    assert Start(p, 3) == 12;
    assert Start(p, 4) == 16;
    assert Start(p, 5) == 20;
    assert Start(p, 6) == 24;
    assert Start(p, 7) == 28;
    assert Start(p, 8) == 32;
    assert Start(p, 9) == 64;
    assert Start(p, 10) == 68;
    assert Start(p, 11) == 72;
    assert Start(p, 12) == 76;
  }

  lemma {:induction false} PartsAreThere(out: seq<Octet>, p: seq<seq<Octet>>, k: nat, at: nat)
    requires out == Join(p) && k < |p| && at == Start(p, k)
    ensures At(out, at, p[k])
  {
    AtPiece(p, k);
  }

  lemma {:induction false} FrontWords(out: seq<Octet>, p: seq<seq<Octet>>, o: Settings)
    requires out == Join(p) && |p| == 14 && forall k | 0 <= k <= 8 :: Start(p, k) == 4 * k
    requires p[0] == Big(0x63464531) && p[1] == Big(8) && p[2] == Big(64) && p[3] == Big(o.spacecraft)
    requires p[4] == Big(o.processor) && p[5] == Big(o.application) && p[6] == Big(o.seconds) && p[7] == Big(0)
    ensures |out| >= 32 && WordAt(out, 0) == 0x63464531 && WordAt(out, 4) == 8 && WordAt(out, 8) == 64
    ensures WordAt(out, 12) == o.spacecraft % TWO32 && WordAt(out, 16) == o.processor % TWO32
    ensures WordAt(out, 20) == o.application % TWO32 && WordAt(out, 24) == o.seconds % TWO32 && WordAt(out, 28) == 0
  {
    PartsAreThere(out, p, 0, 0);
    PartsAreThere(out, p, 1, 4);
    PartsAreThere(out, p, 2, 8);
    PartsAreThere(out, p, 3, 12);
    PartsAreThere(out, p, 4, 16);
    PartsAreThere(out, p, 5, 20);
    PartsAreThere(out, p, 6, 24);
    PartsAreThere(out, p, 7, 28);
    WordIsThere(out, 0, 0x63464531);
    WordIsThere(out, 4, 8);
    WordIsThere(out, 8, 64);
    WordIsThere(out, 12, o.spacecraft);
    WordIsThere(out, 16, o.processor);
    WordIsThere(out, 20, o.application);
    WordIsThere(out, 24, o.seconds);
    WordIsThere(out, 28, 0);
  }

  lemma {:induction false} BackParts(out: seq<Octet>, p: seq<seq<Octet>>, description: seq<Octet>, table: seq<Octet>,
                                     n: nat)
    requires out == Join(p) && |p| == 14 && |description| <= 32 && |table| <= 40
    requires Start(p, 8) == 32 && Start(p, 9) == 64 && Start(p, 10) == 68 && Start(p, 11) == 72 && Start(p, 12) == 76
    requires p[8] == Pad(description, 32) && p[9] == Big(0) && p[10] == Big(0) && p[11] == Big(n)
    requires p[12] == Pad(table, 40)
    ensures |out| >= 116 && TextAt(out, 32, 32, description) && TextAt(out, 76, 40, table)
    ensures WordAt(out, 64) == 0 && WordAt(out, 68) == 0 && WordAt(out, 72) == n % TWO32
  {
    PartsAreThere(out, p, 8, 32);
    PartsAreThere(out, p, 9, 64);
    PartsAreThere(out, p, 10, 68);
    PartsAreThere(out, p, 11, 72);
    PartsAreThere(out, p, 12, 76);
    TextIsThere(out, 32, 32, description);
    WordIsThere(out, 64, 0);
    WordIsThere(out, 68, 0);
    WordIsThere(out, 72, n);
    TextIsThere(out, 76, 40, table);
  }

  lemma {:induction false} HeadersFirst(o: Settings, d: Def, n: nat, data: seq<Octet>)
    requires Fits(o) && DefFits(d)
    ensures Headed(Headers(o, d, n) + data, o, d, n) && |Headers(o, d, n)| == 116
  {
    var p, out := FileParts(o, d, n, data), Headers(o, d, n) + data;
    var h := Big(0x63464531) + Big(8) + Big(64) + Big(o.spacecraft);
    JoinOfParts(p, h, h + Big(o.processor) + Big(o.application) + Big(o.seconds) + Big(0));
    PartStarts(p);
    FrontWords(out, p, o);
    BackParts(out, p, Description(o, d), TableName(o, d), n);
  }

  /** The headers show what they are to show, alone and before the data. */
  lemma {:induction false} HeadersShow(o: Settings, d: Def, n: nat, data: seq<Octet>)
    requires Fits(o) && DefFits(d)
    ensures |Headers(o, d, n)| == 116 && Headed(Headers(o, d, n), o, d, n)
    ensures n == |data| ==> Shows(Headers(o, d, n) + data, o, d, data)
  {
    HeadersFirst(o, d, n, []);
    assert Headers(o, d, n) + [] == Headers(o, d, n);
    HeadersFirst(o, d, n, data);
  }

  /** What a table file is made of. */
  ghost predicate Made(out: seq<Octet>, o: Settings) {
    && Fits(o)
    && exists d: Def, data: seq<Octet> :: DefFits(d) && |data| < TWO31 && out == Headers(o, d, |data|) + data
  }

  lemma {:induction false} PartsMake(o: Settings, d: Def, data: seq<Octet>)
    requires Fits(o) && DefFits(d) && |data| < TWO31
    ensures Made(Headers(o, d, |data|) + data, o)
  {
  }

  lemma {:induction false} TableOfIsMade(file: seq<Octet>, o: Settings, enc: Enc, sections: seq<Section>,
                                         symbols: seq<Symbol>, out: seq<Octet>)
    requires Fits(o) && TableOf(file, o, enc, sections, symbols) == Some(out)
    ensures Made(out, o)
  {
    var d := DefIndex(symbols, |symbols|).value;
    var def := DefAt(file, enc, sections, symbols[d].head).value;
    var u := ObjectIndex(symbols, def.objectName, 0).value;
    var data := DataAt(file, sections, def, symbols[u].head).value;
    PartsMake(o, def, data);
  }

  lemma {:induction false} FromTablesIsMade(file: seq<Octet>, o: Settings, enc: Enc, sections: seq<Section>,
                                            strings: nat, table: Symbols, out: seq<Octet>)
    requires Fits(o) && FromTables(file, o, enc, sections, strings, table) == Some(out)
    ensures Made(out, o)
  {
    TableOfIsMade(file, o, enc, sections, SymbolsTo(file, enc, table, strings, table.count).value, out);
  }

  lemma {:induction false} TableIsMade(file: seq<Octet>, o: Settings, out: seq<Octet>)
    requires Fits(o) && Table(file, o) == Some(out)
    ensures Made(out, o)
  {
    var enc := Ident(file).value;
    var h := HeaderAt(file, enc).value;
    var sections := SectionsTo(file, enc, h, NamesAt(file, enc, h).value, h.shnum).value;
    FromTablesIsMade(file, o, enc, sections, StringsAt(sections, h.shstrndx, |sections|),
                     SymbolsAt(sections, enc.wide, |sections|), out);
  }

  /** Only object files are converted, and what is made of them is framed for the bytes behind the headers. */
  lemma {:induction false} TableIsFramed(file: seq<Octet>, o: Settings, out: seq<Octet>)
    requires Fits(o) && Table(file, o) == Some(out)
    ensures IsElf(file) && 116 <= |out| < 116 + TWO31 && Framed(out, o, |out| - 116)
  {
    TableIsMade(file, o, out);
    MadeIsFramed(out, o);
    ElfIsTaken(file);
  }

  lemma {:induction false} MadeIsFramed(out: seq<Octet>, o: Settings)
    requires Made(out, o)
    ensures 116 <= |out| < 116 + TWO31 && Framed(out, o, |out| - 116)
  {
    var d: Def, data: seq<Octet> :| DefFits(d) && |data| < TWO31 && out == Headers(o, d, |data|) + data;
    HeadersShow(o, d, |data|, data);
  }
}

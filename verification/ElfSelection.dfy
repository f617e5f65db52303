/**
What the converter's loops select, said without the loops.
*/
module ElfSelection {
  import opened ElfBytes
  import opened ElfFile
  import opened Options

  // ----- names, as they are spelled -----

  predicate Spelled(name: seq<Octet>, text: string) {
    |name| == |text| && forall i | 0 <= i < |text| :: name[i] == text[i] as nat
  }

  lemma SpelledStrtab(name: seq<Octet>)
    ensures Spelled(name, ".strtab") <==> name == STRTAB_NAME
  {
    var s := ".strtab";
    assert forall i | 0 <= i < 7 :: STRTAB_NAME[i] == s[i] as nat;
  }

  lemma SpelledBss(name: seq<Octet>)
    ensures Spelled(name, ".bss") <==> name == BSS_NAME
  {
    var s := ".bss";
    assert forall i | 0 <= i < 4 :: BSS_NAME[i] == s[i] as nat;
  }

  lemma SpelledDef(name: seq<Octet>)
    ensures Spelled(name, "CFE_TBL_FileDef") <==> name == DEF_NAME
  {
    var s := "CFE_TBL_FileDef";
    assert forall i | 0 <= i < 15 :: DEF_NAME[i] == s[i] as nat;
  }

  // ----- string and symbol tables -----

  predicate IsStrtab(s: Section) {
    s.name.Some? && s.head.kind == 3 && Spelled(s.name.value, ".strtab")
  }

  lemma StrtabIsTaken(before: nat, s: Section, ofNames: bool)
    ensures IsStrtab(s) ==> NextStrings(before, s, ofNames) == s.head.offset
    ensures !IsStrtab(s) && before > 0 ==> NextStrings(before, s, ofNames) == before
  {
    if s.name.Some? { SpelledStrtab(s.name.value); }
  }

  /** The last section named .strtab, when there is one. */
  lemma {:induction false} StringsFromLastStrtab(sections: seq<Section>, names: nat, i: nat, n: nat)
    requires i < n <= |sections| && IsStrtab(sections[i]) && sections[i].head.offset > 0
    requires forall j | i < j < n :: !IsStrtab(sections[j])
    ensures StringsAt(sections, names, n) == sections[i].head.offset
    decreases n
  {
    if i + 1 < n { StringsFromLastStrtab(sections, names, i, n - 1); }
    StrtabIsTaken(StringsAt(sections, names, n - 1), sections[n - 1], n - 1 == names);
  }

  /** A string table that may be taken for want of a better one. */
  predicate IsSpare(sections: seq<Section>, names: nat, j: nat) {
    j < |sections| && sections[j].name.Some? && sections[j].head.kind == 3 && j != names
  }

  lemma {:induction false} NoStringsYet(sections: seq<Section>, names: nat, n: nat)
    requires n <= |sections| && forall j | 0 <= j < n :: !IsStrtab(sections[j]) && !IsSpare(sections, names, j)
    ensures StringsAt(sections, names, n) == 0
  {
    if n > 0 {
      NoStringsYet(sections, names, n - 1);
      if sections[n - 1].name.Some? { SpelledStrtab(sections[n - 1].name.value); }
    }
  }

  /** Otherwise the first string table other than the one with the section names. */
  lemma {:induction false} StringsFromFirstOther(sections: seq<Section>, names: nat, i: nat, n: nat)
    requires i < n <= |sections| && IsSpare(sections, names, i) && sections[i].head.offset > 0
    requires forall j | 0 <= j < n :: !IsStrtab(sections[j])
    requires forall j | 0 <= j < i :: !IsSpare(sections, names, j)
    ensures StringsAt(sections, names, n) == sections[i].head.offset
    decreases n
  {
    if i + 1 < n {
      StringsFromFirstOther(sections, names, i, n - 1);
      StrtabIsTaken(StringsAt(sections, names, n - 1), sections[n - 1], n - 1 == names);
    } else {
      NoStringsYet(sections, names, i);
    }
  }

  predicate IsSymtab(s: Section) {
    s.name.Some? && s.head.kind == 2 && 0 < s.head.entsize <= s.head.size
  }

  /** The symbols are those of the last symbol table; symbol i is its entry i + 1, and one entry is not counted. */
  lemma {:induction false} SymbolsFromLastSymtab(sections: seq<Section>, wide: bool, i: nat, n: nat, k: nat)
    requires i < n <= |sections| && IsSymtab(sections[i]) && forall j | i < j < n :: !IsSymtab(sections[j])
    ensures var t := SymbolsAt(sections, wide, n);
            && t.count + 1 == sections[i].head.size / sections[i].head.entsize
            && (t.entsize == SymSize(wide) ==> SymOffset(t, k) == sections[i].head.offset + (k + 1) * SymSize(wide))
    decreases n
  {
    if i + 1 < n {
      SymbolsFromLastSymtab(sections, wide, i, n - 1, k);
    } else {
      AtLeastOne(sections[i].head.size, sections[i].head.entsize);
    }
  }

  lemma AtLeastOne(size: nat, entsize: nat)
    requires 0 < entsize <= size
    ensures size / entsize >= 1
  {
  }

  // ----- the two symbols -----

  /** The definition's name, or that name behind one character. */
  predicate NamesDef(name: seq<Octet>) {
    Spelled(name, "CFE_TBL_FileDef") || (name != [] && Spelled(name[1..], "CFE_TBL_FileDef"))
  }

  lemma NamesDefIsDef(name: seq<Octet>)
    ensures NamesDef(name) <==> IsDef(name)
  {
    SpelledDef(name);
    if name != [] { SpelledDef(name[1..]); }
  }

  /** The object's name, or that name and one character. */
  predicate NamesObject(name: seq<Octet>, objectName: seq<Octet>) {
    name == objectName || (name != [] && name[..|name| - 1] == objectName)
  }

  lemma NamesObjectIsObject(name: seq<Octet>, objectName: seq<Octet>)
    ensures NamesObject(name, objectName) <==> IsObject(name, objectName)
  {
  }

  /** The definition is the last symbol with its name. */
  lemma {:induction false} DefIsLast(symbols: seq<Symbol>, i: nat, n: nat)
    requires n <= |symbols|
    ensures DefIndex(symbols, n) == Some(i) <==>
            i < n && NamesDef(symbols[i].name) && forall j | i < j < n :: !NamesDef(symbols[j].name)
    decreases n
  {
    if n > 0 {
      DefIsLast(symbols, i, n - 1);
      NamesDefIsDef(symbols[n - 1].name);
    }
  }

  /** The user's object is the first symbol with its name, or with one character after it. */
  lemma {:induction false} ObjectIsFirst(symbols: seq<Symbol>, objectName: seq<Octet>, from: nat, i: nat)
    requires from <= |symbols|
    ensures ObjectIndex(symbols, objectName, from) == Some(i) <==>
            from <= i < |symbols| && NamesObject(symbols[i].name, objectName)
            && forall j | from <= j < i :: !NamesObject(symbols[j].name, objectName)
    decreases |symbols| - from
  {
    if from < |symbols| {
      ObjectIsFirst(symbols, objectName, from + 1, i);
      NamesObjectIsObject(symbols[from].name, objectName);
    }
  }
}

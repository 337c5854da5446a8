/** tracer/types/symbols.go: the check a symbol table must pass, and the lookups by program counter that rely on it. */
module SymbolTable {
  import opened Types

  // ---------- what Validate accepts ----------

  ghost predicate FilesOk(files: seq<GoString>) {
    forall i :: 0 <= i < |files| ==> files[i] != []
  }

  /** Modules are non-empty ranges above 0, in order and apart. */
  ghost predicate ModsOk(mods: seq<GoModule>) {
    && (forall i :: 0 <= i < |mods| ==> 0 < mods[i].minPC < mods[i].maxPC)
    && (forall i, j :: 0 <= i < j < |mods| ==> mods[i].maxPC < mods[j].minPC)
  }

  ghost predicate FuncsOk(funcs: seq<GoFunc>) {
    && (forall i :: 0 <= i < |funcs| ==> funcs[i].name != [] && funcs[i].entry > 0)
    && (forall i, j :: 0 <= i < j < |funcs| ==> funcs[i].entry < funcs[j].entry)
  }

  ghost predicate LinesOk(lines: seq<GoLine>, files: nat) {
    && (forall i :: 0 <= i < |lines| ==> lines[i].pc > 0 && lines[i].line > 0 && lines[i].fileID < files)
    && (forall i, j :: 0 <= i < j < |lines| ==> lines[i].pc < lines[j].pc)
  }

  ghost predicate ValidTable(sd: SymbolsData) {
    FilesOk(sd.files) && ModsOk(sd.mods) && FuncsOk(sd.funcs) && LinesOk(sd.lines, |sd.files|)
  }

  method ValidateFiles(files: seq<GoString>) returns (ok: bool)
    ensures ok <==> FilesOk(files)
  {
    for i := 0 to |files|
      invariant FilesOk(files[..i])
    {
      if files[i] == [] {
        return false;
      }
    }
    assert files[..|files|] == files;
    return true;
  }

  /** One pass comparing each module with the end of the previous one decides the pairwise condition. */
  method ValidateMods(mods: seq<GoModule>) returns (ok: bool)
    ensures ok <==> ModsOk(mods)
  {
    var pc := 0;
    for i := 0 to |mods|
      invariant ModsOk(mods[..i])
      invariant pc == if i == 0 then 0 else mods[i - 1].maxPC
      invariant forall k :: 0 <= k < i ==> mods[k].maxPC <= pc
    {
      var m := mods[i];
      if m.minPC == 0 || m.maxPC == 0 || m.minPC >= m.maxPC {
        return false;
      }
      if m.minPC <= pc || m.maxPC <= pc {
        return false;
      }
      pc := m.maxPC;
    }
    assert mods[..|mods|] == mods;
    return true;
  }

  method ValidateFuncs(funcs: seq<GoFunc>) returns (ok: bool)
    ensures ok <==> FuncsOk(funcs)
  {
    var pc := 0;
    for i := 0 to |funcs|
      invariant FuncsOk(funcs[..i])
      invariant pc == if i == 0 then 0 else funcs[i - 1].entry
      invariant forall k :: 0 <= k < i ==> funcs[k].entry <= pc
    {
      var f := funcs[i];
      if f.name == [] || f.entry == 0 {
        return false;
      }
      if f.entry <= pc {
        return false;
      }
      pc := f.entry;
    }
    assert funcs[..|funcs|] == funcs;
    return true;
  }

  method ValidateLines(lines: seq<GoLine>, files: nat) returns (ok: bool)
    ensures ok <==> LinesOk(lines, files)
  {
    var pc := 0;
    for i := 0 to |lines|
      invariant LinesOk(lines[..i], files)
      invariant pc == if i == 0 then 0 else lines[i - 1].pc
      invariant forall k :: 0 <= k < i ==> lines[k].pc <= pc
    {
      var l := lines[i];
      if l.pc == 0 || l.line == 0 {
        return false;
      }
      if l.pc <= pc {
        return false;
      }
      if files <= l.fileID {
        return false;
      }
      pc := l.pc;
    }
    assert lines[..|lines|] == lines;
    return true;
  }

  method Validate(sd: SymbolsData) returns (ok: bool)
    ensures ok <==> ValidTable(sd)
  {
    ok := ValidateFiles(sd.files);
    if !ok {
      return;
    }
    ok := ValidateMods(sd.mods);
    if !ok {
      return;
    }
    ok := ValidateFuncs(sd.funcs);
    if !ok {
      return;
    }
    ok := ValidateLines(sd.lines, |sd.files|);
  }

  // ---------- lookups ----------

  predicate Contains(m: GoModule, pc: Uint64) {
    m.minPC <= pc <= m.maxPC
  }

  /** In a valid table at most one module contains a program counter. */
  lemma AtMostOneModule(mods: seq<GoModule>, pc: Uint64, i: nat, j: nat)
    requires ModsOk(mods) && i < |mods| && j < |mods| && Contains(mods[i], pc) && Contains(mods[j], pc)
    ensures i == j
  {
  }

  method FindModule(mods: seq<GoModule>, pc: Uint64) returns (r: Option<GoModule>)
    ensures r.Some? ==> r.value in mods && Contains(r.value, pc)
    ensures r.None? ==> forall i :: 0 <= i < |mods| ==> !Contains(mods[i], pc)
  {
    for i := 0 to |mods|
      invariant forall k :: 0 <= k < i ==> !Contains(mods[k], pc)
    {
      if mods[i].minPC <= pc && pc <= mods[i].maxPC {
        return Some(mods[i]);
      }
    }
    return None;
  }

  ghost predicate Ascending<T>(items: seq<T>, addr: T -> Uint64) {
    forall i, j :: 0 <= i < j < |items| ==> addr(items[i]) < addr(items[j])
  }

  /** items[k] has the greatest address in lo..pc. */
  ghost predicate Nearest<T>(items: seq<T>, addr: T -> Uint64, lo: Uint64, pc: Uint64, k: nat) {
    && k < |items| && lo <= addr(items[k]) <= pc
    && forall i :: 0 <= i < |items| && lo <= addr(items[i]) <= pc ==> addr(items[i]) <= addr(items[k])
  }

  ghost predicate NoneInRange<T>(items: seq<T>, addr: T -> Uint64, lo: Uint64, pc: Uint64) {
    forall i :: 0 <= i < |items| ==> !(lo <= addr(items[i]) <= pc)
  }

  /** The loop shared by GoFunc and GoLine: skip what is below the module, stop past it or past pc. */
  method FindLast<T>(items: seq<T>, addr: T -> Uint64, m: GoModule, pc: Uint64) returns (idx: Option<nat>)
    requires Ascending(items, addr) && Contains(m, pc)
    ensures idx.Some? ==> Nearest(items, addr, m.minPC, pc, idx.value)
    ensures idx.None? ==> NoneInRange(items, addr, m.minPC, pc)
  {
    idx := None;
    var i := 0;
    while i < |items|
      invariant 0 <= i <= |items|
      invariant idx.Some? ==> idx.value < i && m.minPC <= addr(items[idx.value]) <= pc
      invariant idx.Some? ==> forall k :: idx.value < k < i ==> addr(items[k]) < m.minPC
      invariant idx.None? ==> forall k :: 0 <= k < i ==> addr(items[k]) < m.minPC
    {
      if addr(items[i]) >= m.minPC {
        if addr(items[i]) > m.maxPC {
          break;
        }
        if addr(items[i]) <= pc {
          idx := Some(i);
        } else {
          break;
        }
      }
      i := i + 1;
    }
  }

  predicate NamesFile(sd: SymbolsData, line: GoLine, name: GoString) {
    line.fileID < |sd.files| && sd.files[line.fileID] == name
  }

  datatype FileName = Unknown | Name(name: GoString) | OutOfRange

  class Symbols {
    var data: SymbolsData

    ghost predicate Valid()
      reads this
    {
      ValidTable(data)
    }

    constructor ()
      ensures Valid() && data == SymbolsData([], [], [], [])
    {
      data := SymbolsData([], [], [], []);
    }

    /** Load replaces the table, or panics on one that does not validate. */
    method Load(sd: SymbolsData) returns (ok: bool)
      requires Valid()
      modifies this
      ensures ok <==> ValidTable(sd)
      ensures Valid() && data == if ok then sd else old(data)
    {
      ok := Validate(sd);
      if ok {
        data := sd;
      }
    }

    /** The function whose entry is the greatest address between the start of pc's module and pc. */
    method GoFunc(pc: Uint64) returns (r: Option<GoFunc>)
      requires Valid()
      ensures r.None? <==> forall m, i ::
                m in data.mods && Contains(m, pc) && 0 <= i < |data.funcs| ==> !(m.minPC <= data.funcs[i].entry <= pc)
      ensures r.Some? ==> exists m, k ::
                m in data.mods && Contains(m, pc) && 0 <= k < |data.funcs| && r.value == data.funcs[k] &&
                Nearest(data.funcs, (f: GoFunc) => f.entry, m.minPC, pc, k)
    {
      var m := FindModule(data.mods, pc);
      if m.None? {
        return None;
      }
      OnlyModule(data.mods, pc, m.value);
      var addr := (f: GoFunc) => f.entry;
      var idx := FindLast(data.funcs, addr, m.value, pc);
      return if idx.Some? then Some(data.funcs[idx.value]) else None;
    }

    method GoLine(pc: Uint64) returns (r: Option<GoLine>)
      requires Valid()
      ensures r.None? <==> forall m, i ::
                m in data.mods && Contains(m, pc) && 0 <= i < |data.lines| ==> !(m.minPC <= data.lines[i].pc <= pc)
      ensures r.Some? ==> exists m, k ::
                m in data.mods && Contains(m, pc) && 0 <= k < |data.lines| && r.value == data.lines[k] &&
                Nearest(data.lines, (l: GoLine) => l.pc, m.minPC, pc, k)
    {
      var m := FindModule(data.mods, pc);
      if m.None? {
        return None;
      }
      OnlyModule(data.mods, pc, m.value);
      var addr := (l: GoLine) => l.pc;
      var idx := FindLast(data.lines, addr, m.value, pc);
      return if idx.Some? then Some(data.lines[idx.value]) else None;
    }

    /** The guard of File lets an index equal to the length through; no valid table has one. */
    method File(pc: Uint64) returns (r: FileName)
      requires Valid()
      ensures r != OutOfRange
      ensures r.Unknown? <==> forall m, i ::
                m in data.mods && Contains(m, pc) && 0 <= i < |data.lines| ==> !(m.minPC <= data.lines[i].pc <= pc)
      ensures r.Name? ==> exists m, k ::
                m in data.mods && Contains(m, pc) && 0 <= k < |data.lines| &&
                Nearest(data.lines, (l: GoLine) => l.pc, m.minPC, pc, k) && NamesFile(data, data.lines[k], r.name)
    {
      var line := GoLine(pc);
      if line.None? {
        return Unknown;
      }
      r := FileOf(data.files, line.value);
      assert line.value.fileID < |data.files|;
    }
  }

  /** The guarded index itself, for any table: it goes out of range exactly when the file id is the number of files. */
  method FileOf(files: seq<GoString>, line: GoLine) returns (r: FileName)
    ensures r == if line.fileID < |files| then Name(files[line.fileID])
                 else if line.fileID == |files| then OutOfRange else Unknown
  {
    r := Unknown;
    if line.fileID <= |files| {
      if line.fileID == |files| {
        return OutOfRange;
      }
      r := Name(files[line.fileID]);
    }
  }

  lemma OnlyModule(mods: seq<GoModule>, pc: Uint64, m: GoModule)
    requires ModsOk(mods) && m in mods && Contains(m, pc)
    ensures forall x :: x in mods && Contains(x, pc) ==> x == m
  {
    var j :| 0 <= j < |mods| && mods[j] == m;
    forall x | x in mods && Contains(x, pc) ensures x == m {
      var i :| 0 <= i < |mods| && mods[i] == x;
      AtMostOneModule(mods, pc, i, j);
    }
  }
}

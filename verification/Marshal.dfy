/** The Marshal and Size functions of tracer/encoding as they run: they write into a byte slice at a running offset. A Go
    sub-slice `buf[total:]` is the array together with a position. Every method takes the position to write at and returns
    the position after; None stands for a panic, here or earlier. A fixed-width value that does not fit panics, but Go's
    copy cuts a string off at the end of the slice without notice. */
module Marshal {
  import opened Types
  import opened Codec

  /** s with the bytes from `off` on replaced by data. */
  function Splice(s: Bytes, off: nat, data: Bytes): (r: Bytes)
    requires off + |data| <= |s|
    ensures |r| == |s|
  {
    seq(|s|, i requires 0 <= i < |s| => if off <= i < off + |data| then data[i - off] else s[i])
  }

  lemma SpliceSplice(s: Bytes, off: nat, a: Bytes, b: Bytes)
    requires off + |a| + |b| <= |s|
    ensures |Splice(s, off, a)| == |s|
    ensures Splice(Splice(s, off, a), off + |a|, b) == Splice(s, off, a + b)
  {
  }

  lemma SpliceEmpty(s: Bytes, off: nat)
    requires off <= |s|
    ensures Splice(s, off, []) == s
  {
  }

  /** What gets written of data whose last `tail` bytes are the contents of a string, when `room` bytes are left: all of
      it, or what fits if only the string is cut, or a panic. */
  function Put(data: Bytes, tail: nat, room: int): (r: Option<Bytes>)
    ensures r.Some? ==> |r.value| <= room && r.value <= data
  {
    if |data| <= room then Some(data)
    else if 0 <= room && |data| - tail <= room then Some(data[..room])
    else None
  }

  /** The slice went from `was` to `now` by writing data at `at`. */
  ghost predicate Advanced(was: Bytes, now: Bytes, at: Option<nat>, data: Bytes, tail: nat, next: Option<nat>) {
    && |now| == |was|
    && if at.None? then next.None?
       else
         var done := Put(data, tail, |was| - at.value);
         if done.None? then next.None?
         else next == Some(at.value + |done.value|) && now == Splice(was, at.value, done.value)
  }

  /** Two writes one after the other are one write, unless the second consists of a string's contents only. */
  lemma PutThen(a: Bytes, ta: nat, b: Bytes, tb: nat, room: int)
    requires tb < |b|
    ensures Put(a + b, tb, room) ==
            match Put(a, ta, room) {
              case None => None
              case Some(x) => match Put(b, tb, room - |x|) {
                case None => None
                case Some(y) => Some(x + y)
              }
            }
  {
    if |a| <= room < |a| + |b| {
      assert (a + b)[..room] == a + b[..room - |a|];
    }
  }

  lemma WriteThen(s0: Bytes, s1: Bytes, s2: Bytes, at: Option<nat>, a: Bytes, ta: nat, m: Option<nat>, b: Bytes, tb: nat,
             next: Option<nat>)
    requires Advanced(s0, s1, at, a, ta, m) && Advanced(s1, s2, m, b, tb, next) && tb < |b|
    ensures Advanced(s0, s2, at, a + b, tb, next)
  {
    if at.Some? {
      var room := |s0| - at.value;
      PutThen(a, ta, b, tb, room);
      if m.Some? && next.Some? {
        SpliceSplice(s0, at.value, Put(a, ta, room).value, Put(b, tb, room - |Put(a, ta, room).value|).value);
      }
    }
  }

  /** The loop of binary.BigEndian.PutUint64 and PutUint32, after their bounds check. */
  method PutUint(buf: array<Byte>, off: nat, width: nat, val: nat)
    requires off + width <= buf.Length
    modifies buf
    ensures buf[..] == Splice(old(buf[..]), off, EncUint(width, val))
  {
    ghost var was := buf[..];
    var i, v := width, val;
    ghost var done: Bytes := [];
    while i > 0
      invariant 0 <= i <= width && |done| == width - i
      invariant EncUint(width, val) == EncUint(i, v) + done
      invariant buf[..] == Splice(was, off + i, done)
    {
      i := i - 1;
      buf[off + i] := v % 256;
      assert EncUint(i + 1, v) + done == EncUint(i, v / 256) + ([v % 256] + done);
      done := [v % 256] + done;
      v := v / 256;
    }
    assert EncUint(width, val) == done;
  }

  method MarshalUint(buf: array<Byte>, at: Option<nat>, width: nat, val: nat) returns (next: Option<nat>)
    modifies buf
    ensures Advanced(old(buf[..]), buf[..], at, EncUint(width, val), 0, next)
  {
    if at.None? || at.value + width > buf.Length {
      return None;
    }
    PutUint(buf, at.value, width, val);
    return Some(at.value + width);
  }

  method MarshalUint64(buf: array<Byte>, at: Option<nat>, val: Uint64) returns (next: Option<nat>)
    modifies buf
    ensures Advanced(old(buf[..]), buf[..], at, EncUint64(val), 0, next)
  {
    next := MarshalUint(buf, at, 8, val);
  }

  method MarshalUint32(buf: array<Byte>, at: Option<nat>, val: Uint32) returns (next: Option<nat>)
    modifies buf
    ensures Advanced(old(buf[..]), buf[..], at, EncUint32(val), 0, next)
  {
    next := MarshalUint(buf, at, 4, val);
  }

  method MarshalUint8(buf: array<Byte>, at: Option<nat>, val: Byte) returns (next: Option<nat>)
    modifies buf
    ensures Advanced(old(buf[..]), buf[..], at, EncUint8(val), 0, next)
  {
    if at.None? || at.value >= buf.Length {
      return None;
    }
    buf[at.value] := val;
    return Some(at.value + 1);
  }

  method MarshalInt64(buf: array<Byte>, at: Option<nat>, val: int) returns (next: Option<nat>)
    modifies buf
    ensures Advanced(old(buf[..]), buf[..], at, EncInt64(val), 0, next)
  {
    next := MarshalUint(buf, at, 8, ToUint64(val));
  }

  /** Go's built-in copy of a prefix of data. */
  method CopyBytes(buf: array<Byte>, off: nat, data: Bytes, count: nat)
    requires count <= |data| && off + count <= buf.Length
    modifies buf
    ensures buf[..] == Splice(old(buf[..]), off, data[..count])
  {
    ghost var was := buf[..];
    var i := 0;
    while i < count
      invariant 0 <= i <= count
      invariant buf[..] == Splice(was, off, data[..i])
    {
      buf[off + i] := data[i];
      i := i + 1;
    }
  }

  /** The length prefix is bounds-checked; the contents are cut short at the end of the slice. */
  method MarshalString(buf: array<Byte>, at: Option<nat>, str: GoString) returns (next: Option<nat>)
    modifies buf
    ensures Advanced(old(buf[..]), buf[..], at, EncString(str), |str|, next)
  {
    ghost var was := buf[..];
    next := MarshalUint64(buf, at, |str|);
    if next.None? {
      return;
    }
    var count := Min(|str|, buf.Length - next.value);
    CopyBytes(buf, next.value, str, count);
    SpliceSplice(was, at.value, EncUint64(|str|), str[..count]);
    assert EncString(str)[..8 + count] == EncUint64(|str|) + str[..count];
    assert count == |str| ==> EncString(str)[..8 + count] == EncString(str);
    assert Put(EncString(str), |str|, |was| - at.value) == Some(EncUint64(|str|) + str[..count]);
    next := Some(next.value + count);
  }

  // ---------- slices ----------

  /** The bytes after the length and the first i elements. */
  ghost function SliceSoFar<T>(enc: T -> Bytes, xs: Slice<T>, i: nat): Bytes
    requires i <= |xs|
  {
    EncUint64(|xs|) + EncList(enc, xs[..i])
  }

  lemma SliceStart<T>(was: Bytes, now: Bytes, at: Option<nat>, enc: T -> Bytes, xs: Slice<T>, next: Option<nat>)
    requires Advanced(was, now, at, EncUint64(|xs|), 0, next)
    ensures Advanced(was, now, at, SliceSoFar(enc, xs, 0), 0, next)
  {
    assert EncUint64(|xs|) + [] == EncUint64(|xs|);
  }

  /** One element after another: the step shared by all slice writers. */
  lemma SliceNext<T>(was: Bytes, mid: Bytes, now: Bytes, at: Option<nat>, enc: T -> Bytes, xs: Slice<T>, i: nat, ti: nat,
                     m: Option<nat>, t: nat, next: Option<nat>)
    requires i < |xs| && t < |enc(xs[i])|
    requires Advanced(was, mid, at, SliceSoFar(enc, xs, i), ti, m) && Advanced(mid, now, m, enc(xs[i]), t, next)
    ensures Advanced(was, now, at, SliceSoFar(enc, xs, i + 1), t, next)
  {
    WriteThen(was, mid, now, at, SliceSoFar(enc, xs, i), ti, m, enc(xs[i]), t, next);
    assert xs[..i + 1] == xs[..i] + [xs[i]];
    EncListAppend(enc, xs[..i], xs[i]);
    Regroup2(EncUint64(|xs|), EncList(enc, xs[..i]), enc(xs[i]));
  }

  method MarshalFrames(buf: array<Byte>, at: Option<nat>, frames: Slice<Uint64>) returns (next: Option<nat>)
    modifies buf
    ensures Advanced(old(buf[..]), buf[..], at, EncSlice(EncUint64, frames), 0, next)
  {
    ghost var was := buf[..];
    next := MarshalUint64(buf, at, |frames|);
    SliceStart(was, buf[..], at, EncUint64, frames, next);
    for i := 0 to |frames|
      invariant Advanced(was, buf[..], at, SliceSoFar(EncUint64, frames, i), 0, next)
    {
      ghost var mid, m := buf[..], next;
      next := MarshalUint64(buf, next, frames[i]);
      SliceNext(was, mid, buf[..], at, EncUint64, frames, i, 0, m, 0, next);
    }
    assert frames[..|frames|] == frames;
  }

  /** The contents of the last string, where a slice of strings can be cut. */
  function LastLength(strs: seq<GoString>): nat {
    if strs == [] then 0 else |strs[|strs| - 1]|
  }

  method MarshalStringSlice(buf: array<Byte>, at: Option<nat>, strs: Slice<GoString>) returns (next: Option<nat>)
    modifies buf
    ensures Advanced(old(buf[..]), buf[..], at, EncSlice(EncString, strs), LastLength(strs), next)
  {
    ghost var was := buf[..];
    next := MarshalUint64(buf, at, |strs|);
    SliceStart(was, buf[..], at, EncString, strs, next);
    for i := 0 to |strs|
      invariant Advanced(was, buf[..], at, SliceSoFar(EncString, strs, i), LastLength(strs[..i]), next)
    {
      ghost var mid, m := buf[..], next;
      next := MarshalString(buf, next, strs[i]);
      SliceNext(was, mid, buf[..], at, EncString, strs, i, LastLength(strs[..i]), m, |strs[i]|, next);
    }
    assert strs[..|strs|] == strs;
  }

  method MarshalGoModule(buf: array<Byte>, at: Option<nat>, m: GoModule) returns (next: Option<nat>)
    modifies buf
    ensures Advanced(old(buf[..]), buf[..], at, EncGoModule(m), 0, next)
  {
    ghost var s0 := buf[..];
    var at1 := MarshalString(buf, at, m.name);
    ghost var s1 := buf[..];
    var at2 := MarshalUint64(buf, at1, m.minPC);
    ghost var s2 := buf[..];
    WriteThen(s0, s1, s2, at, EncString(m.name), |m.name|, at1, EncUint64(m.minPC), 0, at2);
    next := MarshalUint64(buf, at2, m.maxPC);
    WriteThen(s0, s2, buf[..], at, EncString(m.name) + EncUint64(m.minPC), 0, at2, EncUint64(m.maxPC), 0, next);
  }

  method MarshalGoModuleSlice(buf: array<Byte>, at: Option<nat>, mods: Slice<GoModule>) returns (next: Option<nat>)
    modifies buf
    ensures Advanced(old(buf[..]), buf[..], at, EncSlice(EncGoModule, mods), 0, next)
  {
    ghost var was := buf[..];
    next := MarshalUint64(buf, at, |mods|);
    SliceStart(was, buf[..], at, EncGoModule, mods, next);
    for i := 0 to |mods|
      invariant Advanced(was, buf[..], at, SliceSoFar(EncGoModule, mods, i), 0, next)
    {
      ghost var mid, m := buf[..], next;
      next := MarshalGoModule(buf, next, mods[i]);
      SliceNext(was, mid, buf[..], at, EncGoModule, mods, i, 0, m, 0, next);
    }
    assert mods[..|mods|] == mods;
  }

  method MarshalGoFunc(buf: array<Byte>, at: Option<nat>, f: GoFunc) returns (next: Option<nat>)
    modifies buf
    ensures Advanced(old(buf[..]), buf[..], at, EncGoFunc(f), 0, next)
  {
    ghost var s0 := buf[..];
    var at1 := MarshalString(buf, at, f.name);
    ghost var s1 := buf[..];
    next := MarshalUint64(buf, at1, f.entry);
    WriteThen(s0, s1, buf[..], at, EncString(f.name), |f.name|, at1, EncUint64(f.entry), 0, next);
  }

  method MarshalGoFuncSlice(buf: array<Byte>, at: Option<nat>, funcs: Slice<GoFunc>) returns (next: Option<nat>)
    modifies buf
    ensures Advanced(old(buf[..]), buf[..], at, EncSlice(EncGoFunc, funcs), 0, next)
  {
    ghost var was := buf[..];
    next := MarshalUint64(buf, at, |funcs|);
    SliceStart(was, buf[..], at, EncGoFunc, funcs, next);
    for i := 0 to |funcs|
      invariant Advanced(was, buf[..], at, SliceSoFar(EncGoFunc, funcs, i), 0, next)
    {
      ghost var mid, m := buf[..], next;
      next := MarshalGoFunc(buf, next, funcs[i]);
      SliceNext(was, mid, buf[..], at, EncGoFunc, funcs, i, 0, m, 0, next);
    }
    assert funcs[..|funcs|] == funcs;
  }

  method MarshalGoLine(buf: array<Byte>, at: Option<nat>, l: GoLine) returns (next: Option<nat>)
    modifies buf
    ensures Advanced(old(buf[..]), buf[..], at, EncGoLine(l), 0, next)
  {
    ghost var s0 := buf[..];
    var at1 := MarshalUint64(buf, at, l.pc);
    ghost var s1 := buf[..];
    var at2 := MarshalUint32(buf, at1, l.fileID);
    ghost var s2 := buf[..];
    WriteThen(s0, s1, s2, at, EncUint64(l.pc), 0, at1, EncUint32(l.fileID), 0, at2);
    next := MarshalUint32(buf, at2, l.line);
    WriteThen(s0, s2, buf[..], at, EncUint64(l.pc) + EncUint32(l.fileID), 0, at2, EncUint32(l.line), 0, next);
  }

  method MarshalGoLineSlice(buf: array<Byte>, at: Option<nat>, lines: Slice<GoLine>) returns (next: Option<nat>)
    modifies buf
    ensures Advanced(old(buf[..]), buf[..], at, EncSlice(EncGoLine, lines), 0, next)
  {
    ghost var was := buf[..];
    next := MarshalUint64(buf, at, |lines|);
    SliceStart(was, buf[..], at, EncGoLine, lines, next);
    for i := 0 to |lines|
      invariant Advanced(was, buf[..], at, SliceSoFar(EncGoLine, lines, i), 0, next)
    {
      ghost var mid, m := buf[..], next;
      next := MarshalGoLine(buf, next, lines[i]);
      SliceNext(was, mid, buf[..], at, EncGoLine, lines, i, 0, m, 0, next);
    }
    assert lines[..|lines|] == lines;
  }

  method MarshalSymbolsData(sd: SymbolsData, buf: array<Byte>, at: Option<nat>) returns (next: Option<nat>)
    modifies buf
    ensures Advanced(old(buf[..]), buf[..], at, EncSymbols(sd), 0, next)
  {
    ghost var s0 := buf[..];
    var at1 := MarshalStringSlice(buf, at, sd.files);
    ghost var s1 := buf[..];
    ghost var d1 := EncFiles(sd.files);
    var at2 := MarshalGoModuleSlice(buf, at1, sd.mods);
    ghost var s2 := buf[..];
    WriteThen(s0, s1, s2, at, d1, LastLength(sd.files), at1, EncSlice(EncGoModule, sd.mods), 0, at2);
    ghost var d2 := d1 + EncSlice(EncGoModule, sd.mods);
    var at3 := MarshalGoFuncSlice(buf, at2, sd.funcs);
    ghost var s3 := buf[..];
    WriteThen(s0, s2, s3, at, d2, 0, at2, EncSlice(EncGoFunc, sd.funcs), 0, at3);
    ghost var d3 := d2 + EncSlice(EncGoFunc, sd.funcs);
    next := MarshalGoLineSlice(buf, at3, sd.lines);
    WriteThen(s0, s3, buf[..], at, d3, 0, at3, EncSlice(EncGoLine, sd.lines), 0, next);
  }

  method MarshalGoroutine(buf: array<Byte>, at: Option<nat>, g: Goroutine) returns (next: Option<nat>)
    modifies buf
    ensures Advanced(old(buf[..]), buf[..], at, EncGoroutine(g), 0, next)
  {
    ghost var s0 := buf[..];
    var at1 := MarshalInt64(buf, at, g.gid);
    ghost var s1 := buf[..];
    ghost var d1 := EncInt64(g.gid);
    var at2 := MarshalInt64(buf, at1, g.startTime);
    ghost var s2 := buf[..];
    WriteThen(s0, s1, s2, at, d1, 0, at1, EncInt64(g.startTime), 0, at2);
    ghost var d2 := d1 + EncInt64(g.startTime);
    next := MarshalInt64(buf, at2, g.endTime);
    WriteThen(s0, s2, buf[..], at, d2, 0, at2, EncInt64(g.endTime), 0, next);
  }

  method MarshalFuncLog(buf: array<Byte>, at: Option<nat>, f: FuncLog) returns (next: Option<nat>)
    modifies buf
    ensures Advanced(old(buf[..]), buf[..], at, EncFuncLog(f), 0, next)
  {
    ghost var s0 := buf[..];
    var at1 := MarshalInt64(buf, at, f.id);
    ghost var s1 := buf[..];
    ghost var d1 := EncInt64(f.id);
    var at2 := MarshalInt64(buf, at1, f.startTime);
    ghost var s2 := buf[..];
    WriteThen(s0, s1, s2, at, d1, 0, at1, EncInt64(f.startTime), 0, at2);
    ghost var d2 := d1 + EncInt64(f.startTime);
    var at3 := MarshalInt64(buf, at2, f.endTime);
    ghost var s3 := buf[..];
    WriteThen(s0, s2, s3, at, d2, 0, at2, EncInt64(f.endTime), 0, at3);
    ghost var d3 := d2 + EncInt64(f.endTime);
    var at4 := MarshalInt64(buf, at3, f.parentID);
    ghost var s4 := buf[..];
    WriteThen(s0, s3, s4, at, d3, 0, at3, EncInt64(f.parentID), 0, at4);
    ghost var d4 := d3 + EncInt64(f.parentID);
    var at5 := MarshalFrames(buf, at4, f.frames);
    ghost var s5 := buf[..];
    WriteThen(s0, s4, s5, at, d4, 0, at4, EncFrames(f.frames), 0, at5);
    ghost var d5 := d4 + EncFrames(f.frames);
    next := MarshalInt64(buf, at5, f.gid);
    WriteThen(s0, s5, buf[..], at, d5, 0, at5, EncInt64(f.gid), 0, next);
  }

  method MarshalRawFuncLog(buf: array<Byte>, at: Option<nat>, r: RawFuncLog) returns (next: Option<nat>)
    modifies buf
    ensures Advanced(old(buf[..]), buf[..], at, EncRawFuncLog(r), 0, next)
  {
    ghost var s0 := buf[..];
    var at1 := MarshalInt64(buf, at, r.id);
    ghost var s1 := buf[..];
    ghost var d1 := EncInt64(r.id);
    var at2 := MarshalUint8(buf, at1, r.tag);
    ghost var s2 := buf[..];
    WriteThen(s0, s1, s2, at, d1, 0, at1, EncUint8(r.tag), 0, at2);
    ghost var d2 := d1 + EncUint8(r.tag);
    var at3 := MarshalInt64(buf, at2, r.timestamp);
    ghost var s3 := buf[..];
    WriteThen(s0, s2, s3, at, d2, 0, at2, EncInt64(r.timestamp), 0, at3);
    ghost var d3 := d2 + EncInt64(r.timestamp);
    var at4 := MarshalFrames(buf, at3, r.frames);
    ghost var s4 := buf[..];
    WriteThen(s0, s3, s4, at, d3, 0, at3, EncFrames(r.frames), 0, at4);
    ghost var d4 := d3 + EncFrames(r.frames);
    var at5 := MarshalInt64(buf, at4, r.gid);
    ghost var s5 := buf[..];
    WriteThen(s0, s4, s5, at, d4, 0, at4, EncInt64(r.gid), 0, at5);
    ghost var d5 := d4 + EncInt64(r.gid);
    next := MarshalUint64(buf, at5, r.txid);
    WriteThen(s0, s5, buf[..], at, d5, 0, at5, EncUint64(r.txid), 0, next);
  }

  // ---------- predicted sizes ----------

  method SizeStringSlice(strs: Slice<GoString>) returns (total: nat)
    ensures total == |EncFiles(strs)|
  {
    total := 8;
    assert strs[..0] == [];
    for i := 0 to |strs|
      invariant total == 8 + |EncList(EncString, strs[..i])|
    {
      assert strs[..i + 1] == strs[..i] + [strs[i]];
      EncListAppend(EncString, strs[..i], strs[i]);
      total := total + (8 + |strs[i]|);
    }
    assert strs[..|strs|] == strs;
  }

  method SizeGoModuleSlice(mods: Slice<GoModule>) returns (total: nat)
    ensures total == |EncSlice(EncGoModule, mods)|
  {
    total := 8;
    assert mods[..0] == [];
    for i := 0 to |mods|
      invariant total == 8 + |EncList(EncGoModule, mods[..i])|
    {
      assert mods[..i + 1] == mods[..i] + [mods[i]];
      EncListAppend(EncGoModule, mods[..i], mods[i]);
      total := total + (8 + |mods[i].name|) + 8 + 8;
    }
    assert mods[..|mods|] == mods;
  }

  method SizeGoFuncSlice(funcs: Slice<GoFunc>) returns (total: nat)
    ensures total == |EncSlice(EncGoFunc, funcs)|
  {
    total := 8;
    assert funcs[..0] == [];
    for i := 0 to |funcs|
      invariant total == 8 + |EncList(EncGoFunc, funcs[..i])|
    {
      assert funcs[..i + 1] == funcs[..i] + [funcs[i]];
      EncListAppend(EncGoFunc, funcs[..i], funcs[i]);
      total := total + 8 + (8 + |funcs[i].name|);
    }
    assert funcs[..|funcs|] == funcs;
  }

  method SizeGoLineSlice(lines: Slice<GoLine>) returns (total: nat)
    ensures total == |EncSlice(EncGoLine, lines)|
  {
    total := 8;
    assert lines[..0] == [];
    for i := 0 to |lines|
      invariant total == 8 + |EncList(EncGoLine, lines[..i])|
    {
      assert lines[..i + 1] == lines[..i] + [lines[i]];
      EncListAppend(EncGoLine, lines[..i], lines[i]);
      total := total + 8 + 4 + 4;
    }
    assert lines[..|lines|] == lines;
  }

  /** The predicted size is the exact number of bytes MarshalSymbolsData writes. */
  method SizeSymbolsData(sd: SymbolsData) returns (total: nat)
    ensures total == |EncSymbols(sd)|
  {
    total := SizeStringSlice(sd.files);
    var n := SizeGoModuleSlice(sd.mods);
    total := total + n;
    n := SizeGoFuncSlice(sd.funcs);
    total := total + n;
    n := SizeGoLineSlice(sd.lines);
    total := total + n;
  }
}

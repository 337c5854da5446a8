/** tracer/storage/buffer.go: a read cache and a write buffer over two handles of one file. The position each buffer
    believes its handle to be at (rpos, wpos) is kept apart from the position the operating system holds (cursor). */
module Buffers {
  import opened Types
  import opened Records
  import opened Cache

  class OsFile {
    var content: Bytes

    constructor (content: Bytes)
      ensures this.content == content
    {
      this.content := content;
    }
  }

  /** A positional write: a hole before `pos` reads as zeros. */
  function WriteAt(c: Bytes, pos: nat, data: Bytes): (r: Bytes)
    ensures |r| == if data == [] then |c| else Max(|c|, pos + |data|)
  {
    seq(if data == [] then |c| else Max(|c|, pos + |data|),
        i requires 0 <= i => if pos <= i < pos + |data| then data[i - pos] else if i < |c| then c[i] else 0)
  }

  lemma WriteAtTwice(c: Bytes, pos: nat, a: Bytes, b: Bytes)
    ensures WriteAt(WriteAt(c, pos, a), pos + |a|, b) == WriteAt(c, pos, a + b)
  {
    assert a == [] ==> a + b == b;
    assert b == [] ==> a + b == a;
  }

  lemma WriteAtNothing(c: Bytes, pos: nat)
    ensures WriteAt(c, pos, []) == c
  {
  }

  /** Writing a prefix first changes nothing: the full write covers it. */
  lemma WriteAtAgain(c: Bytes, pos: nat, data: Bytes, n: nat)
    requires n <= |data|
    ensures WriteAt(WriteAt(c, pos, data[..n]), pos, data) == WriteAt(c, pos, data)
  {
  }

  lemma WriteAtOutside(c: Bytes, pos: nat, data: Bytes)
    ensures |WriteAt(c, pos, data)| >= |c|
    ensures forall i :: 0 <= i < |c| && !(pos <= i < pos + |data|) ==> WriteAt(c, pos, data)[i] == c[i]
    ensures data != [] ==> WriteAt(c, pos, data)[pos..pos + |data|] == data
  {
  }

  /** How the operating system answers a flush: all goes well, the seek fails, or the write fails after some bytes. */
  datatype IoFault = NoFault | SeekFails | WriteFails(written: nat)

  /** fillZero on the unused rest of the reserved slice, after the encoder has put `data` at its front. */
  method EncodeInto(buf: array<Byte>, lo: nat, hi: nat, data: Bytes)
    requires lo + |data| <= hi <= buf.Length
    modifies buf
    ensures buf[lo..hi] == Pad(data, hi - lo)
    ensures buf[..lo] == old(buf[..lo])
  {
    ghost var was := buf[..lo];
    var i := 0;
    while i < hi - lo
      invariant 0 <= i <= hi - lo
      invariant buf[..lo] == was
      invariant buf[lo..lo + i] == Pad(data, hi - lo)[..i]
    {
      buf[lo + i] := if i < |data| then data[i] else 0;
      i := i + 1;
    }
  }

  class WriteBuffer {
    const file: OsFile
    const maxWriteSize: nat
    const bufferSize: nat
    var cursor: nat              // where the file handle really is
    var wpos: int                // where the buffer believes it is; -1 forces a seek
    var buf: array?<Byte>
    var pos: nat
    var left: nat
    var right: nat

    ghost predicate Valid()
      reads this
    {
      && 0 < maxWriteSize <= bufferSize
      && left == 0
      && (wpos == -1 || wpos == cursor)
      && (if buf == null then right == 0 else buf.Length == bufferSize && right <= bufferSize)
    }

    /** Another record fits; only a failed flush can take this away. */
    ghost predicate HasRoom()
      reads this
    {
      right + maxWriteSize <= bufferSize
    }

    ghost function Pending(): Bytes
      requires Valid()
      reads this, buf
    {
      if buf == null then [] else buf[left..right]
    }

    /** The file as it will be once everything buffered is written. */
    ghost function Overlay(): Bytes
      requires Valid()
      reads this, buf, file
    {
      WriteAt(file.content, pos, Pending())
    }

    /** Where the next byte goes. */
    ghost function EndPos(): nat
      requires Valid()
      reads this, buf
    {
      pos + |Pending()|
    }

    constructor (file: OsFile, maxWriteSize: nat, bufferSize: nat)
      requires 0 < maxWriteSize <= bufferSize
      ensures Valid() && HasRoom() && this.file == file
      ensures this.maxWriteSize == maxWriteSize && this.bufferSize == bufferSize
      ensures buf == null && EndPos() == 0 && Overlay() == file.content
    {
      this.file, this.maxWriteSize, this.bufferSize := file, maxWriteSize, bufferSize;
      cursor, wpos, buf, pos, left, right := 0, 0, null, 0, 0, 0;
    }

    /** The span not yet in the file: outside it the file already reads like the overlay. */
    method BufferedRange() returns (lo: nat, hi: nat)
      requires Valid()
      ensures lo == pos && hi == EndPos()
      ensures |Overlay()| >= |file.content|
      ensures forall i :: 0 <= i < |file.content| && !(lo <= i < hi) ==> Overlay()[i] == file.content[i]
      ensures lo < hi ==> hi <= |Overlay()| && Overlay()[lo..hi] == Pending()
    {
      lo := pos;
      hi := pos + (right - left);
      WriteAtOutside(file.content, pos, Pending());
    }

    /** Hands out the slice buf[lo..hi] to be filled by the caller; it is always within the buffer. */
    method Reserve() returns (lo: nat, hi: nat)
      requires Valid() && HasRoom()
      modifies this`buf
      ensures Valid() && HasRoom() && buf != null
      ensures if old(buf) == null then fresh(buf) else buf == old(buf)
      ensures lo == right && hi == lo + maxWriteSize <= buf.Length
      ensures Pending() == old(Pending()) && Overlay() == old(Overlay()) && EndPos() == old(EndPos())
    {
      lo := right;
      hi := lo + maxWriteSize;
      if buf == null {
        buf := new Byte[bufferSize](_ => 0);
      }
    }

    /** Reserve and encode: one zero-padded record after the pending bytes, not yet accounted for. */
    method EncodeRecord(data: Bytes)
      requires Valid() && HasRoom() && |data| <= maxWriteSize
      modifies this`buf, buf
      ensures Valid() && HasRoom() && buf != null
      ensures if old(buf) == null then fresh(buf) else buf == old(buf)
      ensures Overlay() == old(Overlay()) && EndPos() == old(EndPos())
      ensures right + maxWriteSize <= buf.Length && buf[right..right + maxWriteSize] == Pad(data, maxWriteSize)
    {
      ghost var pending := Pending();
      var lo, hi := Reserve();
      EncodeInto(buf, lo, hi, data);
      assert Pending() == pending by {
        assert buf[left..right] == buf[..lo];
      }
    }

    /** Reserve, encode, commit: one record at the write position. */
    method AddRecord(data: Bytes)
      requires Valid() && HasRoom() && |data| <= maxWriteSize
      modifies this, buf, file
      ensures Valid() && HasRoom()
      ensures if old(buf) == null then buf == null || fresh(buf) else buf == old(buf)
      ensures Overlay() == WriteAt(old(Overlay()), old(EndPos()), Pad(data, maxWriteSize))
    {
      EncodeRecord(data);
      var ok := Write(maxWriteSize, NoFault);
    }

    /** The part of WriteNolock that concerns the write buffer: seek, then add the record. */
    method PutRecord(at: nat, data: Bytes)
      requires Valid() && HasRoom() && |data| <= maxWriteSize
      modifies this, buf, file
      ensures Valid() && HasRoom()
      ensures if old(buf) == null then buf == null || fresh(buf) else buf == old(buf)
      ensures Overlay() == WriteAt(old(Overlay()), at, Pad(data, maxWriteSize))
    {
      var ok := Seek(at, NoFault);
      AddRecord(data);
    }

    /** Accounts for `bytes` bytes just put into the reserved slice; a full buffer is flushed. */
    method Write(bytes: nat, fault: IoFault) returns (ok: bool)
      requires Valid() && HasRoom() && buf != null && bytes <= maxWriteSize
      modifies this`cursor, this`wpos, this`pos, this`left, this`right, file
      ensures Valid() && buf == old(buf)
      ensures Overlay() == WriteAt(old(Overlay()), old(EndPos()), old(buf[right..right + bytes]))
      ensures EndPos() == old(EndPos()) + bytes
      ensures fault.NoFault? ==> ok
      ensures ok ==> HasRoom()
    {
      ghost var c, p, pending, data := file.content, pos, Pending(), buf[right..right + bytes];
      right := right + bytes;
      assert Pending() == pending + data;
      WriteAtTwice(c, p, pending, data);
      if buf.Length - right >= maxWriteSize {
        return true;
      }
      ok := Flush(fault);
    }

    /** Moves the write position. Whatever was buffered is flushed first. */
    method Seek(target: nat, fault: IoFault) returns (ok: bool)
      requires Valid() && HasRoom()
      modifies this`cursor, this`wpos, this`pos, this`left, this`right, file
      ensures Valid() && HasRoom() && buf == old(buf)
      ensures Overlay() == old(Overlay())
      ensures fault.NoFault? ==> ok
      ensures if ok then EndPos() == target else EndPos() == old(EndPos())
    {
      if pos + (right - left) == target {
        return true;
      }
      ok := Flush(fault);
      if ok {
        pos := target;
      }
    }

    /** Writes the buffered bytes at their place. Whether or not it succeeds, the file under the buffer reads the same;
        after a failure the buffer keeps its bytes and the next attempt seeks again. */
    method Flush(fault: IoFault) returns (ok: bool)
      requires Valid()
      modifies this`cursor, this`wpos, this`pos, this`left, this`right, file
      ensures Valid() && buf == old(buf)
      ensures Overlay() == old(Overlay()) && EndPos() == old(EndPos())
      ensures fault.NoFault? ==> ok
      ensures ok ==> Pending() == [] && file.content == old(Overlay()) && HasRoom()
      ensures !ok ==> Pending() == old(Pending()) && pos == old(pos) && right == old(right)
    {
      if left == right {
        return true;
      }
      if wpos != pos {
        if fault.SeekFails? {
          return false;
        }
        cursor := pos;
        wpos := pos;
      }
      if fault.WriteFails? {
        WritePart(Min(fault.written, right - left));
        return false;
      }
      WriteOut();
      return true;
    }

    /** A write that fails after n bytes. */
    method WritePart(n: nat)
      requires Valid() && buf != null && wpos == pos && left + n <= right
      modifies this`cursor, this`wpos, file
      ensures Valid() && Overlay() == old(Overlay())
    {
      ghost var c, data := file.content, Pending();
      file.content := WriteAt(file.content, cursor, buf[left..left + n]);
      cursor := cursor + n;
      wpos := -1;
      assert buf[left..left + n] == data[..n] && Pending() == data;
      WriteAtAgain(c, pos, data, n);
    }

    method WriteOut()
      requires Valid() && buf != null && wpos == pos
      modifies this`cursor, this`wpos, this`pos, this`left, this`right, file
      ensures Valid() && file.content == Overlay() == old(Overlay())
      ensures Pending() == [] && EndPos() == old(EndPos()) && HasRoom()
    {
      file.content := WriteAt(file.content, cursor, buf[left..right]);
      cursor := cursor + (right - left);
      wpos := wpos + (right - left);
      pos := wpos;
      left := 0;
      right := 0;
      WriteAtNothing(file.content, pos);
      assert Pending() == [];
    }
  }

  /** The part of a read system call that moves bytes: data goes to the front of buf. */
  method FillFrom(buf: array<Byte>, data: Bytes)
    requires |data| <= buf.Length
    modifies buf
    ensures buf[..|data|] == data
  {
    var i := 0;
    while i < |data|
      invariant 0 <= i <= |data|
      invariant buf[..i] == data[..i]
    {
      buf[i] := data[i];
      i := i + 1;
    }
  }

  /** r holds the bytes of c from `start` on; past the end of c anything may follow. */
  ghost predicate ReadsFrom(c: Bytes, r: Bytes, start: nat, bytes: nat) {
    |r| == bytes && forall k :: 0 <= k < bytes && start + k < |c| ==> r[k] == c[start + k]
  }

  class ReadBuffer {
    const file: OsFile
    const maxReadSize: nat
    const bufferSize: nat
    var cursor: nat              // where the file handle really is
    var rpos: int                // where the buffer believes it is; -1 forces a seek
    var buf: array?<Byte>
    var pos: nat
    var left: nat
    var right: nat
    ghost var base: nat          // the place in the file of the first cached byte
    ghost var fill: Option<Fill> // the last fill, unless it failed

    ghost predicate Valid()
      reads this
    {
      && 0 < maxReadSize <= bufferSize
      && (if buf == null then left == right == 0 else buf.Length == bufferSize)
      && left <= bufferSize && right <= bufferSize
      && match fill
         case None => rpos == -1 || rpos == cursor
         case Some(f) => rpos == f.at + bufferSize && cursor == f.from + f.count
    }

    ghost function View(): Cache
      reads this
    {
      Cache(pos, right - left, base, fill)
    }

    /** The cached bytes are those of the file from `base` on. */
    ghost predicate Coherent()
      requires Valid()
      reads this, buf, file
    {
      left < right ==>
        && base + (right - left) <= |file.content|
        && buf[left..right] == file.content[base..base + (right - left)]
    }

    constructor (file: OsFile, maxReadSize: nat, bufferSize: nat)
      requires 0 < maxReadSize <= bufferSize
      ensures Valid() && Coherent() && this.file == file && View() == Empty
      ensures this.maxReadSize == maxReadSize && this.bufferSize == bufferSize && buf == null
    {
      this.file, this.maxReadSize, this.bufferSize := file, maxReadSize, bufferSize;
      cursor, rpos, buf, pos, left, right := 0, 0, null, 0, 0, 0;
      base, fill := 0, None;
    }

    /** The branch for a target inside the cached range also falls through to dropping the cache. */
    method Seek(target: nat)
      requires Valid()
      modifies this`pos, this`left, this`right
      ensures Valid() && View() == Sought(old(View()), target)
      ensures old(Coherent()) ==> Coherent()
    {
      if pos == target {
        return;
      }
      if pos < target && target < pos + (right - left) {
        left := left + (target - pos);
      }
      pos := target;
      left := 0;
      right := 0;
    }

    method DropCache()
      requires Valid()
      modifies this`left, this`right
      ensures Valid() && Coherent() && View() == Dropped(old(View()))
    {
      left := 0;
      right := 0;
    }

    /** The first part of DoCache: a seek unless the handle is believed to be in place, and the first allocation. */
    method Position()
      requires Valid()
      modifies this`cursor, this`rpos, this`buf
      ensures rpos == pos && cursor == FillStart(View(), bufferSize)
      ensures buf != null && buf.Length == bufferSize
      ensures if old(buf) == null then fresh(buf) else buf == old(buf)
    {
      if rpos != pos {
        cursor := pos;
        rpos := pos;
      }
      if buf == null {
        buf := new Byte[bufferSize](_ => 0);
      }
    }

    /** The second part: one read system call into the whole buffer. It gives what the file still has, but rpos moves
        by the full buffer size. */
    method Fetch() returns (ok: bool)
      requires 0 < maxReadSize <= bufferSize && buf != null && buf.Length == bufferSize && rpos == pos
      modifies this`cursor, this`rpos, this`left, this`right, this`base, this`fill, buf
      ensures Valid() && Coherent() && left == 0
      ensures ok <==> old(cursor) < |file.content|
      ensures !ok ==> right == 0 && fill == None && base == old(base)
      ensures ok ==>
        && right == Min(bufferSize, |file.content| - old(cursor)) && base == old(cursor)
        && fill == Some(Fill(pos, base, right, |file.content|))
    {
      left := 0;
      right := 0;
      if cursor >= |file.content| {
        rpos := -1;
        fill := None;
        return false;
      }
      var n := Min(bufferSize, |file.content| - cursor);
      FillFrom(buf, file.content[cursor..cursor + n]);
      base, fill := cursor, Some(Fill(pos, cursor, n, |file.content|));
      cursor := cursor + n;
      rpos := rpos + bufferSize;
      right := n;
      return true;
    }

    /** Refills the cache from the file: from the handle's true position, which is not always the one asked for. */
    method DoCache() returns (ok: bool)
      requires Valid()
      modifies this, buf
      ensures Valid() && Coherent() && pos == old(pos) && left == 0
      ensures if old(buf) == null then buf != null && fresh(buf) else buf == old(buf)
      ensures ok <==> FillStart(old(View()), bufferSize) < |file.content|
      ensures !ok ==> right == 0 && fill == None && base == old(base)
      ensures ok ==>
        && base == FillStart(old(View()), bufferSize) && right == Min(bufferSize, |file.content| - base)
        && fill == Some(Fill(pos, base, right, |file.content|))
    {
      Position();
      ok := Fetch();
    }

    /** Cuts the next bytes off the front of the cache. */
    method Take(bytes: nat) returns (out: Bytes)
      requires Valid() && Coherent() && buf != null && left < right && left + bytes <= bufferSize
      requires Min(bytes, |file.content| - base) <= right - left
      modifies this`pos, this`left, this`base
      ensures Valid() && Coherent() && ReadsFrom(file.content, out, old(base), bytes)
      ensures View() == Cache(old(pos) + bytes, old(right - left) - bytes, old(base) + bytes, fill)
    {
      SliceOfWindow(buf[..], left, right, bytes, file.content, base);
      out := buf[left..left + bytes];
      ghost var whole := buf[..];
      assert out == whole[left..left + bytes];
      pos := pos + bytes;
      left := left + bytes;
      base := base + bytes;
      assert left < right ==> buf[left..right] == whole[left..right];
    }

    /** Reads `bytes` bytes from the place the cache, as a value, says: the current position or, where a fill is misplaced,
        the handle's true position. An error exactly when that place is at or past the end of the file. */
    method Read(bytes: nat) returns (r: Option<Bytes>)
      requires Valid() && Coherent() && bytes <= maxReadSize
      modifies this, buf
      ensures Valid() && Coherent()
      ensures if old(buf) == null then buf == null || fresh(buf) else buf == old(buf)
      ensures var g := ReadAt(old(View()), bytes, maxReadSize, bufferSize, |file.content|);
              && View() == g.cache
              && (r.Some? <==> g.place.Some?)
              && (r.Some? ==> ReadsFrom(file.content, r.value, g.place.value, bytes))
    {
      if right - left < maxReadSize {
        var ok := DoCache();
        if !ok {
          return None;
        }
      }
      var out := Take(bytes);
      r := Some(out);
    }
  }

  lemma SliceOfWindow(b: Bytes, left: nat, right: nat, bytes: nat, c: Bytes, start: nat)
    requires left <= right <= |b| && left + bytes <= |b|
    requires start + (right - left) <= |c| && b[left..right] == c[start..start + (right - left)]
    ensures var out := b[left..left + bytes];
            forall k :: 0 <= k < bytes && k < right - left ==> out[k] == c[start + k]
    ensures left + bytes <= right ==>
              b[left + bytes..right] == c[start + bytes..start + (right - left)]
  {
    var out, window := b[left..left + bytes], b[left..right];
    forall k | 0 <= k < bytes && k < right - left ensures out[k] == c[start + k] {
      assert window[k] == c[start..start + (right - left)][k];
    }
    if left + bytes <= right {
      assert b[left + bytes..right] == b[left..right][bytes..];
      assert c[start + bytes..start + (right - left)] == c[start..start + (right - left)][bytes..];
    }
  }
}

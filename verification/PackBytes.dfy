/** PackToByteSlice and MergePacket as they run: frames are written into a byte slice at a running offset, and a slice
    that is too short ends in a panic or in a cut frame. */
module PackBytes {
  import opened Types
  import opened Codec
  import opened Marshal
  import opened Framing

  method MarshalHello(p: Packet, buf: array<Byte>, at: Option<nat>) returns (next: Option<nat>)
    requires p.ClientHello?
    modifies buf
    ensures Advanced(old(buf[..]), buf[..], at, EncHello(p), |p.version|, next)
  {
    ghost var s0 := buf[..];
    var at1 := MarshalUint64(buf, at, p.pid);
    ghost var s1 := buf[..];
    ghost var d1 := EncUint64(p.pid);
    var at2 := MarshalString(buf, at1, p.appName);
    ghost var s2 := buf[..];
    WriteThen(s0, s1, s2, at, d1, 0, at1, EncString(p.appName), |p.appName|, at2);
    ghost var d2 := d1 + EncString(p.appName);
    var at3 := MarshalString(buf, at2, p.host);
    ghost var s3 := buf[..];
    WriteThen(s0, s2, s3, at, d2, |p.appName|, at2, EncString(p.host), |p.host|, at3);
    ghost var d3 := d2 + EncString(p.host);
    var at4 := MarshalString(buf, at3, p.secret);
    ghost var s4 := buf[..];
    WriteThen(s0, s3, s4, at, d3, |p.host|, at3, EncString(p.secret), |p.secret|, at4);
    ghost var d4 := d3 + EncString(p.secret);
    next := MarshalString(buf, at4, p.version);
    WriteThen(s0, s4, buf[..], at, d4, |p.secret|, at4, EncString(p.version), |p.version|, next);
  }

  /** The test mock copies its string with no length before it. */
  method MarshalFake(s: GoString, buf: array<Byte>, at: nat) returns (next: Option<nat>)
    requires at <= buf.Length
    modifies buf
    ensures Advanced(old(buf[..]), buf[..], Some(at), s, |s|, next)
  {
    var count := Min(|s|, buf.Length - at);
    CopyBytes(buf, at, s, count);
    assert count == |s| ==> s[..count] == s;
    next := Some(at + count);
  }

  /** The bytes and cuttable tails of all packets, as functions, so that what follows need not look inside them. */
  datatype Format = Format(body: Packet -> Bytes, tail: Packet -> nat)

  ghost predicate FormatOf(j: Json, f: Format) {
    forall p {:trigger Body(j, p)} {:trigger Tail(j, p)} :: f.body(p) == Body(j, p) && f.tail(p) == Tail(j, p)
  }

  function TheFormat(j: Json): (f: Format)
    ensures FormatOf(j, f)
  {
    Format(p => Body(j, p), p => Tail(j, p))
  }

  /** marshalPacket: dispatch on the packet's type. */
  method MarshalBody(j: Json, ghost f: Format, p: Packet, buf: array<Byte>, at: nat) returns (next: Option<nat>)
    requires FormatOf(j, f) && !p.LogPacket? && at <= buf.Length
    modifies buf
    ensures Advanced(old(buf[..]), buf[..], Some(at), f.body(p), f.tail(p), next)
  {
    assert f.body(p) == Body(j, p) && f.tail(p) == Tail(j, p);
    match p
    case Fake(s) => next := MarshalFake(s, buf, at);
    case ClientHello(_, _, _, _, _) => next := MarshalHello(p, buf, Some(at));
    case ServerHello(version) => next := MarshalString(buf, Some(at), version);
    case Ping =>
      SpliceEmpty(buf[..], at);
      next := Some(at);
    case Shutdown =>
      SpliceEmpty(buf[..], at);
      next := Some(at);
    case StartTrace(name) => next := MarshalString(buf, Some(at), j.encode(name));
    case StopTrace(name) => next := MarshalString(buf, Some(at), j.encode(name));
    case Symbol(sd) => next := MarshalSymbolsData(sd, buf, Some(at));
    case RawLog(raw) => next := MarshalRawFuncLog(buf, Some(at), raw);
  }

  /** What PackToByteSlice writes into a slice of `room` bytes, or a panic. */
  function PutPacket(f: Format, p: Packet, room: int): (r: Option<Bytes>)
    ensures r.Some? ==> HEADER_SIZE <= |r.value| <= room
  {
    if p.LogPacket? then None else PutFrameOf(DetectType(p), f.body(p), f.tail(p), room)
  }

  /** The slice went from `was` to `now` by writing the frame, if there is one, at `off`. */
  ghost predicate Packed(was: Bytes, now: Bytes, off: nat, frame: Option<Bytes>, n: Option<nat>) {
    if frame.None? then n.None?
    else
      && off + |frame.value| <= |was| && HEADER_SIZE <= |frame.value|
      && n == Some(SizeOf(|frame.value|)) && now == Splice(was, off, frame.value)
  }

  /** Leaves room for the size, writes the type and the body, then fills in the size, all in uint32 arithmetic. It panics
      exactly when no frame can be put into the slice. */
  method PackToByteSlice(j: Json, ghost f: Format, p: Packet, buf: array<Byte>, off: nat) returns (n: Option<nat>)
    requires FormatOf(j, f) && off <= buf.Length
    modifies buf
    ensures Packed(old(buf[..]), buf[..], off, PutPacket(f, p, buf.Length - off), n)
  {
    if off + HEADER_SIZE > buf.Length || p.LogPacket? {
      return None;
    }
    n := PackFrame(j, f, p, buf, off);
  }

  method PackFrame(j: Json, ghost f: Format, p: Packet, buf: array<Byte>, off: nat) returns (n: Option<nat>)
    requires FormatOf(j, f) && !p.LogPacket? && off + HEADER_SIZE <= buf.Length
    modifies buf
    ensures Packed(old(buf[..]), buf[..], off, PutFrameOf(DetectType(p), f.body(p), f.tail(p), buf.Length - off), n)
  {
    ghost var s0 := buf[..];
    var header := MarshalUint8(buf, Some(off + 4), DetectType(p));
    ghost var s1 := buf[..];
    var end := MarshalBody(j, f, p, buf, header.value);
    if end.None? {
      return None;
    }
    ghost var s2 := buf[..];
    var payloadSize := (end.value - off - 4) % TWO32;
    var w := MarshalUint32(buf, Some(off), payloadSize);
    FrameWritten(s0, s1, s2, buf[..], off, DetectType(p), f.body(p), f.tail(p), end.value, w);
    n := Some((payloadSize + 4) % TWO32);
  }

  lemma FrameWritten(s0: Bytes, s1: Bytes, s2: Bytes, s3: Bytes, off: nat, t: Byte, body: Bytes, tail: nat, end: nat,
                     w: Option<nat>)
    requires off + HEADER_SIZE <= |s0| && end >= off + HEADER_SIZE
    requires Advanced(s0, s1, Some(off + 4), EncUint8(t), 0, Some(off + 5))
    requires Advanced(s1, s2, Some(off + 5), body, tail, Some(end))
    requires Advanced(s2, s3, Some(off), EncUint32((end - off - 4) % TWO32), 0, w)
    ensures Packed(s0, s3, off, PutFrameOf(t, body, tail, |s0| - off), Some(SizeOf(end - off)))
  {
    var done := Put(body, tail, |s0| - off - HEADER_SIZE).value;
    FrameSplices(s0, off, EncUint32((1 + |done|) % TWO32), [t], done);
  }

  lemma FrameSplices(s: Bytes, off: nat, size: Bytes, t: Bytes, body: Bytes)
    requires |size| == 4 && |t| == 1 && off + 5 + |body| <= |s|
    ensures Splice(Splice(Splice(s, off + 4, t), off + 5, body), off, size) == Splice(s, off, size + t + body)
  {
  }

  /** The part of a frame that the batch counts: all of it below 4 GiB. */
  function Counted(frame: Option<Bytes>): Option<Bytes> {
    if frame.None? || |frame.value| < HEADER_SIZE then None else Some(frame.value[..SizeOf(|frame.value|)])
  }

  /** The bytes a merged packet adds to its batch when `room` bytes are left. */
  function Added(f: Format, p: Packet, room: int): (r: Option<Bytes>)
    ensures r.Some? ==> |r.value| <= room
  {
    Counted(PutPacket(f, p, room))
  }

  /** Below 4 GiB: a frame that fits is added whole; one that does not fit is refused by a panic, unless only the string at
      its end is in the way, and then what is added is no beginning of the frame. */
  lemma AddedExactly(j: Json, f: Format, p: Packet, room: int)
    requires FormatOf(j, f) && !p.LogPacket? && |Pack(j, p)| < TWO32
    ensures Added(f, p, room) == Some(Pack(j, p)) <==> |Pack(j, p)| <= room
    ensures Added(f, p, room).None? <==> room < |Pack(j, p)| - Tail(j, p)
    ensures |Pack(j, p)| - Tail(j, p) <= room < |Pack(j, p)| ==>
              Added(f, p, room).Some? && |Added(f, p, room).value| == room && !(Added(f, p, room).value <= Pack(j, p))
  {
    PutFrameExactly(j, p, room);
    var frame := PutPacket(f, p, room);
    assert frame == PutFrame(j, p, room);
    if frame.Some? {
      SizeExact(|frame.value|);
      assert frame.value[..|frame.value|] == frame.value;
      if room < |Pack(j, p)| {
        CutFrameDiffers(j, p, room);
      }
    }
  }

  method AppendFrame(j: Json, ghost f: Format, p: Packet, buf: array<Byte>, off: nat) returns (n: Option<nat>)
    requires FormatOf(j, f) && off <= buf.Length
    modifies buf
    ensures n.Some? <==> Added(f, p, buf.Length - off).Some?
    ensures n.Some? ==>
              off + n.value <= buf.Length && buf[..off + n.value] == old(buf[..off]) + Added(f, p, buf.Length - off).value
  {
    ghost var was := buf[..];
    n := PackToByteSlice(j, f, p, buf, off);
    PackedIsAppended(was, buf[..], off, PutPacket(f, p, buf.Length - off), n);
    assert was[..off] == old(buf[..off]);
    assert n.Some? ==> buf[..][..off + n.value] == buf[..off + n.value];
  }

  /** The first bytes of the slice, up to `off`, were extended by `added`. */
  ghost predicate Appended(was: Bytes, now: Bytes, off: nat, added: Option<Bytes>, n: Option<nat>) {
    if added.None? then n.None?
    else
      && n == Some(|added.value|) && off <= |was| && off + |added.value| <= |now|
      && now[..off + |added.value|] == was[..off] + added.value
  }

  lemma PackedIsAppended(was: Bytes, now: Bytes, off: nat, frame: Option<Bytes>, n: Option<nat>)
    requires off <= |was| && Packed(was, now, off, frame, n)
    ensures Appended(was, now, off, Counted(frame), n)
  {
    if frame.Some? {
      SplicePrefix(was, off, frame.value, n.value);
    }
  }

  lemma SplicePrefix(s: Bytes, off: nat, data: Bytes, n: nat)
    requires off + |data| <= |s| && n <= |data|
    ensures Splice(s, off, data)[..off + n] == s[..off] + data[..n]
  {
  }

  /** A batch under construction: the first `size` bytes of the buffer are frames laid end to end. */
  class MergePacket {
    const json: Json
    ghost const format: Format
    const bufferSize: nat
    var buff: array?<Byte>
    var size: nat

    ghost predicate Valid()
      reads this
    {
      && FormatOf(json, format)
      && if buff == null then size == 0 else buff.Length == bufferSize && size <= bufferSize
    }

    ghost function Data(): Bytes
      requires Valid()
      reads this, buff
    {
      if buff == null then [] else buff[..size]
    }

    constructor (json: Json, bufferSize: nat)
      ensures Valid() && Data() == [] && this.bufferSize == bufferSize && buff == null
      ensures this.json == json && format == TheFormat(json)
    {
      this.json, this.bufferSize := json, bufferSize;
      format := TheFormat(json);
      buff := null;
      size := 0;
    }

    /** Adds the packet's frame, as far as it fits, after the bytes merged so far, or panics. */
    method Merge(p: Packet) returns (ok: bool)
      requires Valid()
      modifies this, buff
      ensures Valid() && (if old(buff) == null then fresh(buff) else buff == old(buff))
      ensures ok <==> Added(format, p, bufferSize - |old(Data())|).Some?
      ensures ok ==> Data() == old(Data()) + Added(format, p, bufferSize - |old(Data())|).value
    {
      Allocate();
      var n := AppendFrame(json, format, p, buff, size);
      if n.None? {
        return false;
      }
      size := size + n.value;
      return true;
    }

    method Allocate()
      requires Valid()
      modifies this`buff
      ensures Valid() && buff != null && (if old(buff) == null then fresh(buff) else buff == old(buff))
      ensures Data() == old(Data())
    {
      if buff == null {
        buff := new Byte[bufferSize](_ => 0);
      }
    }

    method Reset()
      requires Valid()
      modifies this`size
      ensures Valid() && Data() == []
    {
      size := 0;
    }
  }

  /** What marshalLargePacket puts into its batch; only symbol packets can predict their size, others panic. */
  function LargeBatch(j: Json, p: Packet): Option<Bytes> {
    if p.Symbol? then Counted(Some(Pack(j, p))) else None
  }

  /** marshalLargePacket: the predicted size plus the header is exactly what the frame needs. */
  method MarshalLargePacket(j: Json, sd: SymbolsData) returns (mp: MergePacket)
    ensures fresh(mp) && mp.Valid() && (mp.buff != null ==> fresh(mp.buff))
    ensures mp.bufferSize == |Pack(j, Symbol(sd))| && LargeBatch(j, Symbol(sd)) == Some(mp.Data())
    ensures |Pack(j, Symbol(sd))| < TWO32 ==> mp.Data() == Pack(j, Symbol(sd))
  {
    var size := SizeSymbolsData(sd);
    mp := new MergePacket(j, size + HEADER_SIZE);
    LargeIsAdded(j, mp.format, sd);
    var ok := mp.Merge(Symbol(sd));
    ghost var batch := LargeBatch(j, Symbol(sd)).value;
    assert [] + batch == batch;
  }

  lemma LargeIsAdded(j: Json, f: Format, sd: SymbolsData)
    requires FormatOf(j, f)
    ensures Added(f, Symbol(sd), |Pack(j, Symbol(sd))|) == LargeBatch(j, Symbol(sd))
    ensures LargeBatch(j, Symbol(sd)).Some?
    ensures |Pack(j, Symbol(sd))| < TWO32 ==> LargeBatch(j, Symbol(sd)).value == Pack(j, Symbol(sd))
  {
    var frame := Pack(j, Symbol(sd));
    PutFrameExactly(j, Symbol(sd), |frame|);
    assert PutPacket(f, Symbol(sd), |frame|) == PutFrame(j, Symbol(sd), |frame|);
    SizeExact(|frame|);
    assert frame[..|frame|] == frame;
  }
}

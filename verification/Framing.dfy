/** tracer/protocol: packets, their frames on the wire, and the receiver that cuts frames off a byte stream. */
module Framing {
  import opened Types
  import opened Codec
  import opened Marshal
  import opened Streams

  datatype Packet =
    | Fake(s: GoString)
    | ClientHello(pid: Uint64, appName: GoString, host: GoString, secret: GoString, version: GoString)
    | ServerHello(version: GoString)
    | LogPacket
    | Ping
    | Shutdown
    | StartTrace(funcName: GoString)
    | StopTrace(funcName: GoString)
    | Symbol(sd: SymbolsData)
    | RawLog(raw: RawFuncLog)

  /** The JSON library that encodes the two trace commands. */
  datatype Json = Json(encode: GoString -> GoString, decode: GoString -> Option<GoString>)

  const HEADER_SIZE := 5

  function DetectType(p: Packet): (t: Byte)
    ensures t <= 9
  {
    match p
    case Fake(_) => 0
    case ClientHello(_, _, _, _, _) => 1
    case ServerHello(_) => 2
    case LogPacket => 3
    case Ping => 4
    case Shutdown => 5
    case StartTrace(_) => 6
    case StopTrace(_) => 7
    case Symbol(_) => 8
    case RawLog(_) => 9
  }

  function EncHello(p: Packet): Bytes
    requires p.ClientHello?
  {
    EncUint64(p.pid) + EncString(p.appName) + EncString(p.host) + EncString(p.secret) + EncString(p.version)
  }

  /** The bytes a packet's Marshal writes. LogPacket has no encoding (its Marshal panics) and is never sent. */
  function Body(j: Json, p: Packet): Bytes {
    match p
    case Fake(s) => s
    case ClientHello(_, _, _, _, _) => EncHello(p)
    case ServerHello(version) => EncString(version)
    case LogPacket => []
    case Ping => []
    case Shutdown => []
    case StartTrace(name) => EncString(j.encode(name))
    case StopTrace(name) => EncString(j.encode(name))
    case Symbol(sd) => EncSymbols(sd)
    case RawLog(raw) => EncRawFuncLog(raw)
  }

  /** The frame of a packet: payload size as a uint32, packet type, body. */
  function Pack(j: Json, p: Packet): (b: Bytes)
    ensures |b| == HEADER_SIZE + |Body(j, p)|
  {
    FrameOf(DetectType(p), Body(j, p))
  }

  /** The bytes of a frame: the big-endian number of bytes after the size, the type of the packet, the body. */
  lemma FrameLayout(j: Json, p: Packet)
    requires |Pack(j, p)| < TWO32
    ensures forall i :: 0 <= i < 4 ==> Pack(j, p)[i] == (|Body(j, p)| + 1) / Pow256(3 - i) % 256
    ensures Pack(j, p)[4] == DetectType(p) && Pack(j, p)[5..] == Body(j, p)
  {
    var n := 1 + |Body(j, p)|;
    SmallMod(n);
    forall i | 0 <= i < 4 ensures Pack(j, p)[i] == n / Pow256(3 - i) % 256 {
      EncUintBytes(4, n, i);
    }
  }

  /** The client's hello: the process id, and then four strings one behind the other. */
  lemma HelloLayout(j: Json, p: Packet)
    requires p.ClientHello?
    ensures var b := Body(j, p);
            var host := 8 + |EncString(p.appName)|;
            var secret := host + |EncString(p.host)|;
            var version := secret + |EncString(p.secret)|;
            && Holds(b, 0, EncUint64(p.pid)) && Holds(b, 8, EncString(p.appName)) && Holds(b, host, EncString(p.host))
            && Holds(b, secret, EncString(p.secret)) && Holds(b, version, EncString(p.version))
  {
    FiveParts(EncUint64(p.pid), EncString(p.appName), EncString(p.host), EncString(p.secret), EncString(p.version));
  }

  lemma FiveParts(a: Bytes, b: Bytes, c: Bytes, d: Bytes, e: Bytes)
    ensures var all := a + b + c + d + e;
            && Holds(all, 0, a) && Holds(all, |a|, b) && Holds(all, |a| + |b|, c) && Holds(all, |a| + |b| + |c|, d)
            && Holds(all, |a| + |b| + |c| + |d|, e)
  {
  }

  /** The types are numbered in the order of their declaration; for example, a ping is 00 00 00 01 04. */
  lemma TypeNumbers(j: Json, p: Packet)
    ensures Pack(j, Ping) == [0, 0, 0, 1, 4] && Pack(j, Shutdown) == [0, 0, 0, 1, 5]
    ensures p.ClientHello? ==> Pack(j, p)[4] == 1
    ensures p.ServerHello? ==> Pack(j, p)[4] == 2
    ensures p.StartTrace? ==> Pack(j, p)[4] == 6
    ensures p.StopTrace? ==> Pack(j, p)[4] == 7
    ensures p.Symbol? ==> Pack(j, p)[4] == 8
    ensures p.RawLog? ==> Pack(j, p)[4] == 9
  {
    ShortFrame(4);
    ShortFrame(5);
    TypeByte(DetectType(p), Body(j, p));
  }

  lemma TypeByte(t: Byte, body: Bytes)
    ensures FrameOf(t, body)[4] == t
  {
  }

  lemma ShortFrame(t: Byte)
    ensures FrameOf(t, []) == [0, 0, 0, 1, t]
  {
    SmallMod(1);
    assert EncUint(4, 1) == [0, 0, 0, 1];
  }

  // ---------- what fits a slice ----------

  /** The packet size that PackToByteSlice returns for an n-byte frame: computed in uint32. */
  function SizeOf(n: nat): (size: nat)
    requires n >= HEADER_SIZE
    ensures size <= n
  {
    ((n - 4) % TWO32 + 4) % TWO32
  }

  /** The returned size is the number of bytes written exactly for frames below 4 GiB. */
  lemma SizeExact(n: nat)
    requires n >= HEADER_SIZE
    ensures SizeOf(n) == n <==> n < TWO32
  {
    if n < TWO32 {
      SmallMod(n - 4);
      SmallMod(n);
    }
  }

  lemma SmallMod(n: nat)
    requires n < TWO32
    ensures n % TWO32 == n
  {
  }

  /** How many bytes at the end of the body are the contents of a string, which a short slice cuts off. */
  function Tail(j: Json, p: Packet): (t: nat)
    ensures t <= |Body(j, p)|
  {
    match p
    case Fake(s) => |s|
    case ClientHello(_, _, _, _, version) => |version|
    case ServerHello(version) => |version|
    case StartTrace(name) => |j.encode(name)|
    case StopTrace(name) => |j.encode(name)|
    case _ => 0
  }

  function FrameOf(t: Byte, body: Bytes): (b: Bytes)
    ensures |b| == HEADER_SIZE + |body|
  {
    EncUint32((1 + |body|) % TWO32) + [t] + body
  }

  /** The frame that gets written into a slice of `room` bytes, or a panic. */
  function PutFrameOf(t: Byte, body: Bytes, tail: nat, room: int): (r: Option<Bytes>)
    ensures r.Some? ==> HEADER_SIZE <= |r.value| <= room
  {
    if room < HEADER_SIZE then None
    else
      var done := Put(body, tail, room - HEADER_SIZE);
      if done.None? then None else Some(FrameOf(t, done.value))
  }

  lemma PutFrameOfExactly(t: Byte, body: Bytes, tail: nat, room: int)
    requires tail <= |body|
    ensures var n, r := HEADER_SIZE + |body|, PutFrameOf(t, body, tail, room);
            && (n <= room ==> r == Some(FrameOf(t, body)))
            && (r.None? <==> room < n - tail)
            && (n - tail <= room < n ==> r == Some(FrameOf(t, body[..room - HEADER_SIZE])) && |r.value| == room)
  {
  }

  /** What PackToByteSlice writes into a slice of `room` bytes. */
  function PutFrame(j: Json, p: Packet, room: int): (r: Option<Bytes>)
    ensures r.Some? ==> HEADER_SIZE <= |r.value| <= room
  {
    if p.LogPacket? then None else PutFrameOf(DetectType(p), Body(j, p), Tail(j, p), room)
  }

  /** A frame that fits is written whole. One that does not fit panics, unless only the string at its end is in the way:
      then a shorter frame is written that fills the slice and claims to be complete. */
  lemma PutFrameExactly(j: Json, p: Packet, room: int)
    requires !p.LogPacket?
    ensures var n, r := |Pack(j, p)|, PutFrame(j, p, room);
            && (r == Some(Pack(j, p)) <==> n <= room)
            && (r.None? <==> room < n - Tail(j, p))
            && (n - Tail(j, p) <= room < n ==> r.Some? && |r.value| == room)
  {
    PutFrameOfExactly(DetectType(p), Body(j, p), Tail(j, p), room);
  }

  lemma SizeField(t: Byte, body: Bytes)
    requires HEADER_SIZE + |body| < TWO32
    ensures DecUint(FrameOf(t, body)[..4]) == 1 + |body|
  {
    var n := 1 + |body|;
    SmallMod(n);
    assert FrameOf(t, body)[..4] == EncUint32(n);
    Pow256Values();
    DecEncUint(4, n);
  }

  lemma PrefixHeads(a: Bytes, b: Bytes, n: nat)
    requires n <= |a| && n <= |b|
    ensures a <= b ==> a[..n] == b[..n]
  {
  }

  /** A cut frame is no beginning of the whole one: its size field differs. */
  lemma CutFrameOfDiffers(t: Byte, body: Bytes, k: nat)
    requires HEADER_SIZE + |body| < TWO32 && k < |body|
    ensures !(FrameOf(t, body[..k]) <= FrameOf(t, body))
  {
    SizeField(t, body);
    SizeField(t, body[..k]);
    PrefixHeads(FrameOf(t, body[..k]), FrameOf(t, body), 4);
  }

  lemma CutFrameDiffers(j: Json, p: Packet, room: int)
    requires !p.LogPacket? && |Pack(j, p)| < TWO32 && PutFrame(j, p, room).Some? && room < |Pack(j, p)|
    ensures !(PutFrame(j, p, room).value <= Pack(j, p))
  {
    PutFrameOfExactly(DetectType(p), Body(j, p), Tail(j, p), room);
    CutFrameOfDiffers(DetectType(p), Body(j, p), room - HEADER_SIZE);
  }

  // ---------- receiving ----------

  function DecHello4(b: Bytes): Parsed<(GoString, GoString)> {
    Then(DecString(b), b, DecString)
  }

  function DecHello3(b: Bytes): Parsed<(GoString, (GoString, GoString))> {
    Then(DecString(b), b, DecHello4)
  }

  function DecHello2(b: Bytes): Parsed<(GoString, (GoString, (GoString, GoString)))> {
    Then(DecString(b), b, DecHello3)
  }

  function DecHello(b: Bytes): Parsed<Packet> {
    match Then(DecUint64(b), b, DecHello2)
    case Panic => Panic
    case Parsed((pid, (app, (host, (secret, version)))), n) => Parsed(ClientHello(pid, app, host, secret, version), n)
  }

  function DecJson(j: Json, b: Bytes): Parsed<GoString> {
    match DecString(b)
    case Panic => Panic
    case Parsed(js, n) => match j.decode(js)
      case None => Panic
      case Some(name) => Parsed(name, n)
  }

  function As<T>(r: Parsed<T>, make: T -> Packet): Parsed<Packet> {
    match r
    case Panic => Panic
    case Parsed(v, n) => Parsed(make(v), n)
  }

  function OfSymbols(sd: SymbolsData): Packet {
    Symbol(sd)
  }

  function OfRawLog(raw: RawFuncLog): Packet {
    RawLog(raw)
  }

  /** createPacket and the packet's Unmarshal. The shutdown type is created as a ping; the log packet and unknown types
      panic. */
  function DecBody(j: Json, t: Byte, b: Bytes): Parsed<Packet> {
    BodyDecoder(j, t)(b)
  }

  function BodyDecoder(j: Json, t: Byte): Bytes -> Parsed<Packet> {
    if t == 0 then (b: Bytes) => if |b| < TWO63 then Parsed(Fake(b), |b|) else Panic
    else if t == 1 then (b: Bytes) => DecHello(b)
    else if t == 2 then (b: Bytes) => As(DecString(b), v => ServerHello(v))
    else if t == 4 || t == 5 then (b: Bytes) => Parsed(Ping, 0)
    else if t == 6 then (b: Bytes) => As(DecJson(j, b), v => StartTrace(v))
    else if t == 7 then (b: Bytes) => As(DecJson(j, b), v => StopTrace(v))
    else if t == 8 then (b: Bytes) => As(DecSymbols(b), OfSymbols)
    else if t == 9 then (b: Bytes) => As(DecRawFuncLog(b), OfRawLog)
    else (b: Bytes) => Panic
  }

  /** Proto.Unpack. The body is decoded from everything after the size, not only from the frame's own bytes; a panic
      while decoding becomes an error that still carries the frame's size. */
  function Unpack(j: Json, b: Bytes): (u: Unpacked<Packet>)
    ensures !u.NotEnough? ==> 4 <= u.size <= |b|
  {
    if |b| < 4 then NotEnough
    else
      var dataSize := DecUint(b[..4]);
      if |b| - 4 < dataSize then NotEnough
      else if |b| == 4 then Failed(4 + dataSize)
      else match DecBody(j, b[4], b[5..])
        case Panic => Failed(4 + dataSize)
        case Parsed(p, _) => Received(p, 4 + dataSize)
  }

  /** What arrives for a sent packet. */
  function Arrives(p: Packet): Packet {
    if p.Shutdown? then Ping else p
  }

  /** The packets the two programs exchange, as they can be framed: under 4 GiB, at most MAX_STACK_SIZE frames. */
  ghost predicate Transportable(j: Json, p: Packet) {
    && !p.Fake? && !p.LogPacket?
    && |Pack(j, p)| < TWO32
    && (p.RawLog? ==> |p.raw.frames| <= MAX_STACK_SIZE)
    && (p.StartTrace? || p.StopTrace? ==> j.decode(j.encode(p.funcName)) == Some(p.funcName))
  }

  lemma HelloTail(host: GoString, secret: GoString, version: GoString, tail: Bytes)
    ensures DecHello3(EncString(host) + (EncString(secret) + (EncString(version) + tail))) ==
            Parsed((host, (secret, version)), |EncString(host)| + |EncString(secret)| + |EncString(version)|)
  {
    var t4 := EncString(version) + tail;
    var t3 := EncString(secret) + t4;
    RoundTripString(version, tail);
    RoundTripString(secret, t4);
    ThenChains(DecString(t3), EncString(secret), t4, DecString);
    RoundTripString(host, t3);
    ThenChains(DecString(EncString(host) + t3), EncString(host), t3, DecHello4);
  }

  lemma RoundTripHello(p: Packet, tail: Bytes)
    requires p.ClientHello?
    ensures DecHello(EncHello(p) + tail) == Parsed(p, |EncHello(p)|)
  {
    var t2 := EncString(p.host) + (EncString(p.secret) + (EncString(p.version) + tail));
    var t1 := EncString(p.appName) + t2;
    Regroup5(EncUint64(p.pid), EncString(p.appName), EncString(p.host), EncString(p.secret), EncString(p.version), tail);
    HelloTail(p.host, p.secret, p.version, tail);
    RoundTripString(p.appName, t2);
    ThenChains(DecString(t1), EncString(p.appName), t2, DecHello3);
    RoundTripUint64(p.pid, t1);
    ThenChains(DecUint64(EncUint64(p.pid) + t1), EncUint64(p.pid), t1, DecHello2);
  }

  lemma RoundTripServerHello(j: Json, version: GoString, tail: Bytes)
    ensures DecBody(j, 2, EncString(version) + tail) == Parsed(ServerHello(version), |EncString(version)|)
  {
    RoundTripString(version, tail);
  }

  lemma RoundTripCommand(j: Json, name: GoString, tail: Bytes)
    requires j.decode(j.encode(name)) == Some(name)
    ensures DecBody(j, 6, EncString(j.encode(name)) + tail) == Parsed(StartTrace(name), |EncString(j.encode(name))|)
    ensures DecBody(j, 7, EncString(j.encode(name)) + tail) == Parsed(StopTrace(name), |EncString(j.encode(name))|)
  {
    RoundTripString(j.encode(name), tail);
  }

  lemma DecodesSymbols(j: Json, b: Bytes)
    ensures DecBody(j, 8, b) == As(DecSymbols(b), OfSymbols)
  {
  }

  lemma DecodesRawLog(j: Json, b: Bytes)
    ensures DecBody(j, 9, b) == As(DecRawFuncLog(b), OfRawLog)
  {
  }

  lemma RoundTripSymbolBody(j: Json, sd: SymbolsData, tail: Bytes)
    ensures DecBody(j, 8, EncSymbols(sd) + tail) == Parsed(Symbol(sd), |EncSymbols(sd)|)
  {
    RoundTripSymbols(sd, tail);
    DecodesSymbols(j, EncSymbols(sd) + tail);
  }

  lemma RoundTripRawBody(j: Json, raw: RawFuncLog, tail: Bytes)
    requires |raw.frames| <= MAX_STACK_SIZE
    ensures DecBody(j, 9, EncRawFuncLog(raw) + tail) == Parsed(RawLog(raw), |EncRawFuncLog(raw)|)
  {
    RoundTripRawFuncLog(raw, tail);
    DecodesRawLog(j, EncRawFuncLog(raw) + tail);
  }

  lemma RoundTripHelloBody(j: Json, p: Packet, tail: Bytes)
    requires p.ClientHello?
    ensures DecBody(j, 1, EncHello(p) + tail) == Parsed(p, |EncHello(p)|)
  {
    RoundTripHello(p, tail);
  }

  lemma RoundTripBody(j: Json, p: Packet, tail: Bytes)
    requires Transportable(j, p)
    ensures DecBody(j, DetectType(p), Body(j, p) + tail) == Parsed(Arrives(p), |Body(j, p)|)
  {
    match p
    case ClientHello(_, _, _, _, _) => RoundTripHelloBody(j, p, tail);
    case ServerHello(version) => RoundTripServerHello(j, version, tail);
    case Ping =>
    case Shutdown =>
    case StartTrace(name) => RoundTripCommand(j, name, tail);
    case StopTrace(name) => RoundTripCommand(j, name, tail);
    case Symbol(sd) => RoundTripSymbolBody(j, sd, tail);
    case RawLog(raw) => RoundTripRawBody(j, raw, tail);
  }

  lemma HeaderDecodes(j: Json, p: Packet, b: Bytes)
    requires |Pack(j, p)| < TWO32 && |b| >= 4 && b[..4] == Pack(j, p)[..4]
    ensures DecUint(b[..4]) == |Pack(j, p)| - 4
  {
    SizeField(DetectType(p), Body(j, p));
  }

  lemma FrameParts(t: Byte, body: Bytes, tail: Bytes)
    ensures var b := FrameOf(t, body) + tail;
            b[..4] == FrameOf(t, body)[..4] && b[4] == t && b[5..] == body + tail
  {
  }

  lemma Assembled(j: Json, b: Bytes, t: Byte, rest: Bytes, size: nat, p: Packet, n: nat)
    requires |b| >= 5 && b[4] == t && b[5..] == rest && DecUint(b[..4]) == size <= |b| - 4
    requires DecBody(j, t, rest) == Parsed(p, n)
    ensures Unpack(j, b) == Received(p, 4 + size)
  {
  }

  /** A whole frame is received whatever follows it. */
  lemma UnpackWhole(j: Json, p: Packet, tail: Bytes)
    requires Transportable(j, p)
    ensures Unpack(j, Pack(j, p) + tail) == Received(Arrives(p), |Pack(j, p)|)
  {
    var b := Pack(j, p) + tail;
    FrameParts(DetectType(p), Body(j, p), tail);
    HeaderDecodes(j, p, b);
    RoundTripBody(j, p, tail);
    Assembled(j, b, DetectType(p), Body(j, p) + tail, |Pack(j, p)| - 4, Arrives(p), |Body(j, p)|);
  }

  /** Part of a frame is never mistaken for a frame. */
  lemma UnpackPart(j: Json, p: Packet, k: nat)
    requires Transportable(j, p) && k < |Pack(j, p)|
    ensures Unpack(j, Pack(j, p)[..k]) == NotEnough
  {
    var b := Pack(j, p)[..k];
    if k >= 4 {
      assert b[..4] == Pack(j, p)[..4];
      HeaderDecodes(j, p, b);
    }
  }

  // ---------- streams ----------

  lemma PacketsFramed(j: Json, ps: seq<Packet>)
    requires forall i :: 0 <= i < |ps| ==> Transportable(j, ps[i])
    ensures AllFramed(p => Pack(j, p), b => Unpack(j, b), Arrives, ps)
  {
    var pack, unpack := (p: Packet) => Pack(j, p), (b: Bytes) => Unpack(j, b);
    forall i | 0 <= i < |ps| ensures Framed(pack, unpack, Arrives, ps[i]) {
      var p := ps[i];
      forall tail ensures unpack(pack(p) + tail) == Received(Arrives(p), |pack(p)|) {
        UnpackWhole(j, p, tail);
      }
      forall k | 0 <= k < |pack(p)| ensures unpack(pack(p)[..k]) == NotEnough {
        UnpackPart(j, p, k);
      }
    }
  }

  /** Any sequence of packets laid end to end is recovered in order, and every byte prefix of it yields exactly the
      packets that fit whole and then a request for more data. A shutdown packet arrives as a ping. */
  lemma PacketStream(j: Json, ps: seq<Packet>, k: nat)
    requires forall i :: 0 <= i < |ps| ==> Transportable(j, ps[i])
    requires k <= |PackAll(p => Pack(j, p), ps)|
    ensures var pack, unpack := (p: Packet) => Pack(j, p), (b: Bytes) => Unpack(j, b);
            var m := Fit(pack, ps, k);
            && UnpackAll(unpack, PackAll(pack, ps)) == Stream(Map(Arrives, ps), [], false)
            && |PackAll(pack, ps[..m])| <= k && (m < |ps| ==> k < |PackAll(pack, ps[..m + 1])|)
            && UnpackAll(unpack, PackAll(pack, ps)[..k]) ==
               Stream(Map(Arrives, ps[..m]), PackAll(pack, ps)[|PackAll(pack, ps[..m])|..k], false)
  {
    var pack, unpack := (p: Packet) => Pack(j, p), (b: Bytes) => Unpack(j, b);
    PacketsFramed(j, ps);
    StreamUnpacks(pack, unpack, Arrives, ps);
    PrefixUnpacks(pack, unpack, Arrives, ps, k);
    FitIsGreatest(pack, ps, k);
  }
}

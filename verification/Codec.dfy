/** The byte format of tracer/encoding: big-endian fixed-width integers and length-prefixed strings and slices.
    `Enc...` gives the bytes a Marshal function writes; `Dec...` gives what the Unmarshal function returns from a
    buffer: the value and the number of bytes consumed, or `Panic` where the Go code runs out of its slice. */
module Codec {
  import opened Types

  datatype Parsed<+T> = Panic | Parsed(value: T, size: nat)

  // ---------- integers ----------

  function Pow256(n: nat): (p: nat)
    ensures p > 0
  {
    if n == 0 then 1 else 256 * Pow256(n - 1)
  }

  /** The n low-order bytes of v, most significant first. */
  function EncUint(n: nat, v: nat): (b: Bytes)
    ensures |b| == n
  {
    if n == 0 then [] else EncUint(n - 1, v / 256) + [v % 256]
  }

  function DecUint(b: Bytes): (v: nat)
    ensures v < Pow256(|b|)
  {
    if b == [] then 0 else 256 * DecUint(b[..|b| - 1]) + b[|b| - 1]
  }

  lemma {:induction false} DecEncUint(n: nat, v: nat)
    requires v < Pow256(n)
    ensures DecUint(EncUint(n, v)) == v
  {
    if n > 0 {
      DecEncUint(n - 1, v / 256);
      assert EncUint(n, v)[..n - 1] == EncUint(n - 1, v / 256);
    }
  }

  lemma {:induction false} EncDecUint(b: Bytes)
    ensures EncUint(|b|, DecUint(b)) == b
  {
    if b != [] {
      EncDecUint(b[..|b| - 1]);
    }
  }

  lemma QuotientUnique(d: nat, k: nat, t: nat, q: nat, r: nat)
    requires d * k + t == d * q + r && t < d && r < d
    ensures k == q
  {
    if k < q {
      Multiple(d, k, q);
    } else if q < k {
      Multiple(d, q, k);
    }
  }

  lemma {:induction false} Multiple(d: nat, a: nat, b: nat)
    requires a < b
    ensures d * a + d <= d * b
    decreases b
  {
    assert d * b == d * (b - 1) + d;
    if a < b - 1 {
      Multiple(d, a, b - 1);
    }
  }

  lemma DivUnique(v: nat, d: nat, k: nat, t: nat)
    requires d > 0 && v == d * k + t && t < d
    ensures v / d == k
  {
    QuotientUnique(d, k, t, v / d, v % d);
  }

  lemma DivDiv(v: nat, p: nat)
    requires p > 0
    ensures v / 256 / p == v / (256 * p)
  {
    var m := v / 256;
    var k, s := m / p, m % p;
    assert m == p * k + s;
    assert v == (256 * p) * k + (256 * s + v % 256);
    DivUnique(v, 256 * p, k, 256 * s + v % 256);
  }

  /** Big-endian: byte i of n is the digit of v for 256 to the power n-1-i. */
  lemma {:induction false} EncUintBytes(n: nat, v: nat, i: nat)
    requires i < n
    ensures EncUint(n, v)[i] == v / Pow256(n - 1 - i) % 256
  {
    if i < n - 1 {
      EncUintBytes(n - 1, v / 256, i);
      DivDiv(v, Pow256(n - 2 - i));
    }
  }

  lemma Pow256Values()
    ensures Pow256(4) == TWO32 && Pow256(8) == TWO64
  {
    assert Pow256(2) == 0x1_0000;
    assert Pow256(4) == TWO32;
    assert Pow256(6) == 0x1_0000_0000_0000;
  }

  function EncUint64(v: Uint64): Bytes {
    EncUint(8, v)
  }

  function DecUint64(b: Bytes): Parsed<Uint64> {
    if |b| < 8 then Panic else Pow256Values(); Parsed(DecUint(b[..8]), 8)
  }

  function EncUint32(v: Uint32): Bytes {
    EncUint(4, v)
  }

  function DecUint32(b: Bytes): Parsed<Uint32> {
    if |b| < 4 then Panic else Pow256Values(); Parsed(DecUint(b[..4]), 4)
  }

  function EncUint8(v: Byte): Bytes {
    [v]
  }

  function DecUint8(b: Bytes): Parsed<Byte> {
    if |b| < 1 then Panic else Parsed(b[0], 1)
  }

  /** Go's uint64(x) of a signed value: two's complement truncation. */
  function ToUint64(x: int): Uint64 {
    x % TWO64
  }

  /** Go's int64(u). */
  function FromUint64(u: Uint64): Int64 {
    if u < TWO63 then u else u - TWO64
  }

  function EncInt64(x: int): Bytes {
    EncUint64(ToUint64(x))
  }

  function DecInt64(b: Bytes): Parsed<Int64> {
    match DecUint64(b)
    case Panic => Panic
    case Parsed(u, n) => Parsed(FromUint64(u), n)
  }

  /** The number in the eight bytes of a signed value: the value itself, or 2^64 more for a negative one. */
  lemma Int64Number(x: Int64)
    ensures DecUint(EncInt64(x)) == if x < 0 then TWO64 + x else x
  {
    Pow256Values();
    DecEncUint(8, ToUint64(x));
  }

  lemma RoundTripUint64(v: Uint64, tail: Bytes)
    ensures DecUint64(EncUint64(v) + tail) == Parsed(v, 8)
  {
    Pow256Values();
    DecEncUint(8, v);
    assert (EncUint64(v) + tail)[..8] == EncUint64(v);
  }

  lemma RoundTripUint32(v: Uint32, tail: Bytes)
    ensures DecUint32(EncUint32(v) + tail) == Parsed(v, 4)
  {
    Pow256Values();
    DecEncUint(4, v);
    assert (EncUint32(v) + tail)[..4] == EncUint32(v);
  }

  lemma RoundTripUint8(v: Byte, tail: Bytes)
    ensures DecUint8(EncUint8(v) + tail) == Parsed(v, 1)
  {
  }

  /** A signed value survives exactly when it is an int64; negative times such as NOT_ENDED do. */
  lemma RoundTripInt64(x: int, tail: Bytes)
    ensures DecInt64(EncInt64(x) + tail) == Parsed(x, 8) <==> -TWO63 <= x < TWO63
    ensures DecInt64(EncInt64(x) + tail).Parsed? && DecInt64(EncInt64(x) + tail).size == 8
  {
    RoundTripUint64(ToUint64(x), tail);
    if -TWO63 <= x < 0 {
      assert x % TWO64 == x + TWO64;
    }
  }

  // ---------- strings and slices ----------

  function EncString(s: GoString): Bytes {
    EncUint64(|s|) + s
  }

  function DecString(b: Bytes): Parsed<GoString> {
    match DecUint64(b)
    case Panic => Panic
    case Parsed(length, n) =>
      if length <= |b| - n && length < TWO63 then Parsed(b[n..n + length], n + length) else Panic
  }

  lemma RoundTripString(s: GoString, tail: Bytes)
    ensures DecString(EncString(s) + tail) == Parsed(s, |EncString(s)|)
  {
    RoundTripUint64(|s|, s + tail);
    assert EncString(s) + tail == EncUint64(|s|) + (s + tail);
    assert (EncString(s) + tail)[8..8 + |s|] == s;
  }

  function EncList<T>(enc: T -> Bytes, xs: seq<T>): Bytes {
    if xs == [] then [] else enc(xs[0]) + EncList(enc, xs[1..])
  }

  /** n consecutive elements, each starting where the previous one ended. */
  function DecList<T>(dec: Bytes -> Parsed<T>, n: nat, b: Bytes): (r: Parsed<seq<T>>)
    ensures r.Parsed? ==> |r.value| == n
    decreases n
  {
    if n == 0 then Parsed([], 0)
    else match dec(b)
      case Panic => Panic
      case Parsed(x, k) =>
        if k > |b| then Panic
        else match DecList(dec, n - 1, b[k..])
          case Panic => Panic
          case Parsed(xs, m) => Parsed([x] + xs, k + m)
  }

  function EncSlice<T>(enc: T -> Bytes, xs: Slice<T>): Bytes {
    EncUint64(|xs|) + EncList(enc, xs)
  }

  function DecSlice<T>(dec: Bytes -> Parsed<T>, b: Bytes): Parsed<Slice<T>> {
    match DecUint64(b)
    case Panic => Panic
    case Parsed(length, n) =>
      if length >= TWO63 then Panic
      else match DecList(dec, length, b[n..])
        case Panic => Panic
        case Parsed(xs, m) => Parsed(xs, n + m)
  }

  /** dec undoes enc on every value, whatever bytes follow. */
  ghost predicate Inverse<T(!new)>(enc: T -> Bytes, dec: Bytes -> Parsed<T>) {
    forall x, tail :: InverseAt(enc, dec, x, tail)
  }

  ghost predicate InverseAt<T>(enc: T -> Bytes, dec: Bytes -> Parsed<T>, x: T, tail: Bytes) {
    dec(enc(x) + tail) == Parsed(x, |enc(x)|)
  }

  lemma Regroup2(a: Bytes, b: Bytes, tail: Bytes)
    ensures a + b + tail == a + (b + tail)
  {
  }

  lemma {:induction false} RoundTripList<T(!new)>(enc: T -> Bytes, dec: Bytes -> Parsed<T>, xs: seq<T>, tail: Bytes)
    requires Inverse(enc, dec)
    ensures DecList(dec, |xs|, EncList(enc, xs) + tail) == Parsed(xs, |EncList(enc, xs)|)
  {
    if xs != [] {
      var first, more := enc(xs[0]), EncList(enc, xs[1..]);
      Regroup2(first, more, tail);
      assert InverseAt(enc, dec, xs[0], more + tail);
      assert (first + (more + tail))[|first|..] == more + tail;
      RoundTripList(enc, dec, xs[1..], tail);
      assert [xs[0]] + xs[1..] == xs;
    }
  }

  lemma RoundTripSlice<T(!new)>(enc: T -> Bytes, dec: Bytes -> Parsed<T>, xs: Slice<T>, tail: Bytes)
    requires Inverse(enc, dec)
    ensures DecSlice(dec, EncSlice(enc, xs) + tail) == Parsed(xs, |EncSlice(enc, xs)|)
  {
    var rest := EncList(enc, xs) + tail;
    assert EncSlice(enc, xs) + tail == EncUint64(|xs|) + rest;
    RoundTripUint64(|xs|, rest);
    RoundTripList(enc, dec, xs, tail);
    assert (EncUint64(|xs|) + rest)[8..] == rest;
  }

  lemma {:induction false} EncListAppend<T>(enc: T -> Bytes, xs: seq<T>, x: T)
    ensures EncList(enc, xs + [x]) == EncList(enc, xs) + enc(x)
  {
    if xs != [] {
      EncListAppend(enc, xs[1..], x);
      assert (xs + [x])[1..] == xs[1..] + [x];
    } else {
      assert EncList(enc, []) == [];
      assert (xs + [x])[1..] == [];
    }
  }

  lemma {:induction false} FixedWidthList<T(!new)>(enc: T -> Bytes, w: nat, xs: seq<T>)
    requires forall x :: |enc(x)| == w
    ensures |EncList(enc, xs)| == w * |xs|
  {
    if xs != [] {
      FixedWidthList(enc, w, xs[1..]);
    }
  }

  // ---------- call records ----------

  /** The frames slice is decoded into a pooled slice whose capacity is MAX_STACK_SIZE: a longer length panics. */
  function DecFrames(b: Bytes): Parsed<Slice<Uint64>> {
    match DecUint64(b)
    case Panic => Panic
    case Parsed(length, n) =>
      if length > MAX_STACK_SIZE then Panic else DecSlice(DecUint64, b)
  }

  function EncFrames(frames: Slice<Uint64>): Bytes {
    EncSlice(EncUint64, frames)
  }

  lemma FramesSize(frames: Slice<Uint64>)
    ensures |EncFrames(frames)| == 8 + 8 * |frames|
  {
    FixedWidthList(EncUint64, 8, frames);
  }

  /** Frames survive exactly when they fit the pooled slice. */
  lemma RoundTripFrames(frames: Slice<Uint64>, tail: Bytes)
    ensures if |frames| <= MAX_STACK_SIZE
            then DecFrames(EncFrames(frames) + tail) == Parsed(frames, |EncFrames(frames)|)
            else DecFrames(EncFrames(frames) + tail) == Panic
  {
    assert Inverse(EncUint64, DecUint64) by {
      forall v: Uint64, t: Bytes ensures InverseAt(EncUint64, DecUint64, v, t) { RoundTripUint64(v, t); }
    }
    RoundTripSlice(EncUint64, DecUint64, frames, tail);
    var rest := EncList(EncUint64, frames) + tail;
    assert EncFrames(frames) + tail == EncUint64(|frames|) + rest;
    RoundTripUint64(|frames|, rest);
  }

  /** Two parsers run one after the other on the same buffer. */
  function Then<A, B>(pa: Parsed<A>, b: Bytes, next: Bytes -> Parsed<B>): Parsed<(A, B)> {
    match pa
    case Panic => Panic
    case Parsed(x, n) =>
      if n > |b| then Panic
      else match next(b[n..])
        case Panic => Panic
        case Parsed(y, m) => Parsed((x, y), n + m)
  }

  lemma ThenChains<A, B>(pa: Parsed<A>, a: Bytes, rest: Bytes, next: Bytes -> Parsed<B>)
    requires pa.Parsed? && pa.size == |a|
    ensures Then(pa, a + rest, next) ==
            match next(rest) {
              case Panic => Panic
              case Parsed(y, m) => Parsed((pa.value, y), |a| + m)
            }
  {
    assert (a + rest)[|a|..] == rest;
  }

  lemma Regroup4(a: Bytes, b: Bytes, c: Bytes, d: Bytes, tail: Bytes)
    ensures a + b + c + d + tail == a + (b + (c + (d + tail)))
  {
  }

  lemma Regroup5(a: Bytes, b: Bytes, c: Bytes, d: Bytes, e: Bytes, tail: Bytes)
    ensures a + b + c + d + e + tail == a + (b + (c + (d + (e + tail))))
  {
    Regroup4(a, b, c, d, e + tail);
    assert a + b + c + d + e + tail == a + b + c + d + (e + tail);
  }

  lemma Regroup6(a: Bytes, b: Bytes, c: Bytes, d: Bytes, e: Bytes, f: Bytes, tail: Bytes)
    ensures a + b + c + d + e + f + tail == a + (b + (c + (d + (e + (f + tail)))))
  {
    Regroup5(a, b, c, d, e, f + tail);
    assert a + b + c + d + e + f + tail == a + b + c + d + e + (f + tail);
  }

  const SIZE_FUNC_LOG := 8 * 5 + 8 * (1 + MAX_STACK_SIZE)
  const SIZE_RAW_FUNC_LOG := 8 * 4 + 1 + 8 * (1 + MAX_STACK_SIZE)
  const SIZE_GOROUTINE := 8 * 3

  function EncFuncLog(f: FuncLog): Bytes {
    EncInt64(f.id) + EncInt64(f.startTime) + EncInt64(f.endTime) + EncInt64(f.parentID) +
    EncFrames(f.frames) + EncInt64(f.gid)
  }

  function DecFramesGid(b: Bytes): Parsed<(Slice<Uint64>, Int64)> {
    Then(DecFrames(b), b, DecInt64)
  }

  function DecParentOn(b: Bytes): Parsed<(Int64, (Slice<Uint64>, Int64))> {
    Then(DecInt64(b), b, DecFramesGid)
  }

  function DecEndOn(b: Bytes): Parsed<(Int64, (Int64, (Slice<Uint64>, Int64)))> {
    Then(DecInt64(b), b, DecParentOn)
  }

  function DecStartOn(b: Bytes): Parsed<(Int64, (Int64, (Int64, (Slice<Uint64>, Int64))))> {
    Then(DecInt64(b), b, DecEndOn)
  }

  function DecFuncLog(b: Bytes): Parsed<FuncLog> {
    match Then(DecInt64(b), b, DecStartOn)
    case Panic => Panic
    case Parsed((id, (start, (end, (parent, (frames, gid))))), n) =>
      Parsed(FuncLog(id, start, end, parent, frames, gid), n)
  }

  predicate InInt64(x: int) {
    -TWO63 <= x < TWO63
  }

  /** The call logs that a fixed-size record can hold. */
  predicate Storable(f: FuncLog) {
    && InInt64(f.id) && InInt64(f.startTime) && InInt64(f.endTime) && InInt64(f.parentID) && InInt64(f.gid)
    && |f.frames| <= MAX_STACK_SIZE
  }

  lemma FuncLogFromParent(f: FuncLog, tail: Bytes)
    requires Storable(f)
    ensures DecParentOn(EncInt64(f.parentID) + (EncFrames(f.frames) + (EncInt64(f.gid) + tail))) ==
            Parsed((f.parentID, (f.frames, f.gid)), 16 + |EncFrames(f.frames)|)
  {
    var t5 := EncInt64(f.gid) + tail;
    var t4 := EncFrames(f.frames) + t5;
    RoundTripInt64(f.gid, tail);
    RoundTripFrames(f.frames, t5);
    ThenChains(DecFrames(t4), EncFrames(f.frames), t5, DecInt64);
    RoundTripInt64(f.parentID, t4);
    ThenChains(DecInt64(EncInt64(f.parentID) + t4), EncInt64(f.parentID), t4, DecFramesGid);
  }

  lemma RoundTripFuncLog(f: FuncLog, tail: Bytes)
    requires Storable(f)
    ensures DecFuncLog(EncFuncLog(f) + tail) == Parsed(f, |EncFuncLog(f)|)
  {
    var t3 := EncInt64(f.parentID) + (EncFrames(f.frames) + (EncInt64(f.gid) + tail));
    var t2 := EncInt64(f.endTime) + t3;
    var t1 := EncInt64(f.startTime) + t2;
    Regroup6(EncInt64(f.id), EncInt64(f.startTime), EncInt64(f.endTime), EncInt64(f.parentID), EncFrames(f.frames),
             EncInt64(f.gid), tail);
    FuncLogFromParent(f, tail);
    RoundTripInt64(f.endTime, t3);
    ThenChains(DecInt64(t2), EncInt64(f.endTime), t3, DecParentOn);
    RoundTripInt64(f.startTime, t2);
    ThenChains(DecInt64(t1), EncInt64(f.startTime), t2, DecEndOn);
    RoundTripInt64(f.id, t1);
    ThenChains(DecInt64(EncInt64(f.id) + t1), EncInt64(f.id), t1, DecStartOn);
  }

  /** A call log fits its record exactly when it has at most MAX_STACK_SIZE frames. */
  lemma FuncLogFits(f: FuncLog)
    ensures |EncFuncLog(f)| <= SIZE_FUNC_LOG <==> |f.frames| <= MAX_STACK_SIZE
  {
    FramesSize(f.frames);
  }

  function EncRawFuncLog(r: RawFuncLog): Bytes {
    EncInt64(r.id) + EncUint8(r.tag) + EncInt64(r.timestamp) + EncFrames(r.frames) + EncInt64(r.gid) +
    EncUint64(r.txid)
  }

  function DecGidTxid(b: Bytes): Parsed<(Int64, Uint64)> {
    Then(DecInt64(b), b, DecUint64)
  }

  function DecRawFramesOn(b: Bytes): Parsed<(Slice<Uint64>, (Int64, Uint64))> {
    Then(DecFrames(b), b, DecGidTxid)
  }

  function DecTimestampOn(b: Bytes): Parsed<(Int64, (Slice<Uint64>, (Int64, Uint64)))> {
    Then(DecInt64(b), b, DecRawFramesOn)
  }

  function DecTagOn(b: Bytes): Parsed<(Byte, (Int64, (Slice<Uint64>, (Int64, Uint64))))> {
    Then(DecUint8(b), b, DecTimestampOn)
  }

  function DecRawFuncLog(b: Bytes): Parsed<RawFuncLog> {
    match Then(DecInt64(b), b, DecTagOn)
    case Panic => Panic
    case Parsed((id, (tag, (ts, (frames, (gid, txid))))), n) =>
      Parsed(RawFuncLog(id, tag, ts, frames, gid, txid), n)
  }

  lemma RawFuncLogFromFrames(r: RawFuncLog, tail: Bytes)
    requires |r.frames| <= MAX_STACK_SIZE
    ensures DecRawFramesOn(EncFrames(r.frames) + (EncInt64(r.gid) + (EncUint64(r.txid) + tail))) ==
            Parsed((r.frames, (r.gid, r.txid)), |EncFrames(r.frames)| + 16)
  {
    var t5 := EncUint64(r.txid) + tail;
    var t4 := EncInt64(r.gid) + t5;
    RoundTripUint64(r.txid, tail);
    RoundTripInt64(r.gid, t5);
    ThenChains(DecInt64(t4), EncInt64(r.gid), t5, DecUint64);
    RoundTripFrames(r.frames, t4);
    ThenChains(DecFrames(EncFrames(r.frames) + t4), EncFrames(r.frames), t4, DecGidTxid);
  }

  lemma RoundTripRawFuncLog(r: RawFuncLog, tail: Bytes)
    requires |r.frames| <= MAX_STACK_SIZE
    ensures DecRawFuncLog(EncRawFuncLog(r) + tail) == Parsed(r, |EncRawFuncLog(r)|)
  {
    var t3 := EncFrames(r.frames) + (EncInt64(r.gid) + (EncUint64(r.txid) + tail));
    var t2 := EncInt64(r.timestamp) + t3;
    var t1 := EncUint8(r.tag) + t2;
    Regroup6(EncInt64(r.id), EncUint8(r.tag), EncInt64(r.timestamp), EncFrames(r.frames), EncInt64(r.gid),
             EncUint64(r.txid), tail);
    RawFuncLogFromFrames(r, tail);
    RoundTripInt64(r.timestamp, t3);
    ThenChains(DecInt64(t2), EncInt64(r.timestamp), t3, DecRawFramesOn);
    RoundTripUint8(r.tag, t2);
    ThenChains(DecUint8(t1), EncUint8(r.tag), t2, DecTimestampOn);
    RoundTripInt64(r.id, t1);
    ThenChains(DecInt64(EncInt64(r.id) + t1), EncInt64(r.id), t1, DecTagOn);
  }

  lemma RawFuncLogFits(r: RawFuncLog)
    ensures |EncRawFuncLog(r)| <= SIZE_RAW_FUNC_LOG <==> |r.frames| <= MAX_STACK_SIZE
  {
    FramesSize(r.frames);
  }

  function EncGoroutine(g: Goroutine): (b: Bytes)
    ensures |b| == SIZE_GOROUTINE
  {
    EncInt64(g.gid) + EncInt64(g.startTime) + EncInt64(g.endTime)
  }

  function DecTimes(b: Bytes): Parsed<(Int64, Int64)> {
    Then(DecInt64(b), b, DecInt64)
  }

  function DecGoroutine(b: Bytes): Parsed<Goroutine> {
    match Then(DecInt64(b), b, DecTimes)
    case Panic => Panic
    case Parsed((gid, (start, end)), n) => Parsed(Goroutine(gid, start, end), n)
  }

  lemma RoundTripGoroutine(g: Goroutine, tail: Bytes)
    requires InInt64(g.gid) && InInt64(g.startTime) && InInt64(g.endTime)
    ensures DecGoroutine(EncGoroutine(g) + tail) == Parsed(g, SIZE_GOROUTINE)
  {
    var t2 := EncInt64(g.endTime) + tail;
    var t1 := EncInt64(g.startTime) + t2;
    assert EncGoroutine(g) + tail == EncInt64(g.gid) + t1;
    RoundTripInt64(g.endTime, tail);
    RoundTripInt64(g.startTime, t2);
    ThenChains(DecInt64(t1), EncInt64(g.startTime), t2, DecInt64);
    RoundTripInt64(g.gid, t1);
    ThenChains(DecInt64(EncInt64(g.gid) + t1), EncInt64(g.gid), t1, DecTimes);
  }

  // ---------- symbol tables ----------

  function EncGoModule(m: GoModule): Bytes {
    EncString(m.name) + EncUint64(m.minPC) + EncUint64(m.maxPC)
  }

  function DecPCs(b: Bytes): Parsed<(Uint64, Uint64)> {
    Then(DecUint64(b), b, DecUint64)
  }

  function DecGoModule(b: Bytes): Parsed<GoModule> {
    match Then(DecString(b), b, DecPCs)
    case Panic => Panic
    case Parsed((name, (lo, hi)), n) => Parsed(GoModule(name, lo, hi), n)
  }

  lemma RoundTripGoModule(m: GoModule, tail: Bytes)
    ensures InverseAt(EncGoModule, DecGoModule, m, tail)
  {
    var t2 := EncUint64(m.maxPC) + tail;
    var t1 := EncUint64(m.minPC) + t2;
    assert EncGoModule(m) + tail == EncString(m.name) + t1;
    RoundTripUint64(m.maxPC, tail);
    RoundTripUint64(m.minPC, t2);
    ThenChains(DecUint64(t1), EncUint64(m.minPC), t2, DecUint64);
    RoundTripString(m.name, t1);
    ThenChains(DecString(EncString(m.name) + t1), EncString(m.name), t1, DecPCs);
  }

  function EncGoFunc(f: GoFunc): Bytes {
    EncString(f.name) + EncUint64(f.entry)
  }

  function DecGoFunc(b: Bytes): Parsed<GoFunc> {
    match Then(DecString(b), b, DecUint64)
    case Panic => Panic
    case Parsed((name, entry), n) => Parsed(GoFunc(entry, name), n)
  }

  lemma RoundTripGoFunc(f: GoFunc, tail: Bytes)
    ensures InverseAt(EncGoFunc, DecGoFunc, f, tail)
  {
    var t1 := EncUint64(f.entry) + tail;
    assert EncGoFunc(f) + tail == EncString(f.name) + t1;
    RoundTripUint64(f.entry, tail);
    RoundTripString(f.name, t1);
    ThenChains(DecString(EncString(f.name) + t1), EncString(f.name), t1, DecUint64);
  }

  function EncGoLine(l: GoLine): (b: Bytes)
    ensures |b| == 16
  {
    EncUint64(l.pc) + EncUint32(l.fileID) + EncUint32(l.line)
  }

  function DecFileLine(b: Bytes): Parsed<(Uint32, Uint32)> {
    Then(DecUint32(b), b, DecUint32)
  }

  function DecGoLine(b: Bytes): Parsed<GoLine> {
    match Then(DecUint64(b), b, DecFileLine)
    case Panic => Panic
    case Parsed((pc, (file, line)), n) => Parsed(GoLine(pc, file, line), n)
  }

  lemma RoundTripGoLine(l: GoLine, tail: Bytes)
    ensures InverseAt(EncGoLine, DecGoLine, l, tail)
  {
    var t2 := EncUint32(l.line) + tail;
    var t1 := EncUint32(l.fileID) + t2;
    assert EncGoLine(l) + tail == EncUint64(l.pc) + t1;
    RoundTripUint32(l.line, tail);
    RoundTripUint32(l.fileID, t2);
    ThenChains(DecUint32(t1), EncUint32(l.fileID), t2, DecUint32);
    RoundTripUint64(l.pc, t1);
    ThenChains(DecUint64(EncUint64(l.pc) + t1), EncUint64(l.pc), t1, DecFileLine);
  }

  function EncFiles(files: Slice<GoString>): Bytes {
    EncSlice(EncString, files)
  }

  function EncSymbols(sd: SymbolsData): Bytes {
    EncFiles(sd.files) + EncSlice(EncGoModule, sd.mods) + EncSlice(EncGoFunc, sd.funcs) +
    EncSlice(EncGoLine, sd.lines)
  }

  function DecLines(b: Bytes): Parsed<Slice<GoLine>> {
    DecSlice(DecGoLine, b)
  }

  function DecFuncsOn(b: Bytes): Parsed<(Slice<GoFunc>, Slice<GoLine>)> {
    Then(DecSlice(DecGoFunc, b), b, DecLines)
  }

  function DecModsOn(b: Bytes): Parsed<(Slice<GoModule>, (Slice<GoFunc>, Slice<GoLine>))> {
    Then(DecSlice(DecGoModule, b), b, DecFuncsOn)
  }

  function DecSymbols(b: Bytes): Parsed<SymbolsData> {
    match Then(DecSlice(DecString, b), b, DecModsOn)
    case Panic => Panic
    case Parsed((files, (mods, (funcs, lines))), n) => Parsed(SymbolsData(files, mods, funcs, lines), n)
  }

  lemma SymbolsFromFuncs(funcs: Slice<GoFunc>, lines: Slice<GoLine>, tail: Bytes)
    ensures DecFuncsOn(EncSlice(EncGoFunc, funcs) + (EncSlice(EncGoLine, lines) + tail)) ==
            Parsed((funcs, lines), |EncSlice(EncGoFunc, funcs)| + |EncSlice(EncGoLine, lines)|)
  {
    ElementsInvert();
    var t3 := EncSlice(EncGoLine, lines) + tail;
    RoundTripSlice(EncGoLine, DecGoLine, lines, tail);
    RoundTripSlice(EncGoFunc, DecGoFunc, funcs, t3);
    ThenChains(DecSlice(DecGoFunc, EncSlice(EncGoFunc, funcs) + t3), EncSlice(EncGoFunc, funcs), t3, DecLines);
  }

  lemma SymbolsFromMods(mods: Slice<GoModule>, funcs: Slice<GoFunc>, lines: Slice<GoLine>, tail: Bytes)
    ensures DecModsOn(EncSlice(EncGoModule, mods) + (EncSlice(EncGoFunc, funcs) + (EncSlice(EncGoLine, lines) + tail))) ==
            Parsed((mods, (funcs, lines)),
                   |EncSlice(EncGoModule, mods)| + |EncSlice(EncGoFunc, funcs)| + |EncSlice(EncGoLine, lines)|)
  {
    var t2 := EncSlice(EncGoFunc, funcs) + (EncSlice(EncGoLine, lines) + tail);
    SymbolsFromFuncs(funcs, lines, tail);
    ElementsInvert();
    RoundTripSlice(EncGoModule, DecGoModule, mods, t2);
    ThenChains(DecSlice(DecGoModule, EncSlice(EncGoModule, mods) + t2), EncSlice(EncGoModule, mods), t2, DecFuncsOn);
  }

  /** Every symbol table is recovered from its encoding, whatever follows it in the buffer. */
  lemma RoundTripSymbols(sd: SymbolsData, tail: Bytes)
    ensures DecSymbols(EncSymbols(sd) + tail) == Parsed(sd, |EncSymbols(sd)|)
  {
    var encF := EncFiles(sd.files);
    var t1 := EncSlice(EncGoModule, sd.mods) + (EncSlice(EncGoFunc, sd.funcs) + (EncSlice(EncGoLine, sd.lines) + tail));
    Regroup4(encF, EncSlice(EncGoModule, sd.mods), EncSlice(EncGoFunc, sd.funcs), EncSlice(EncGoLine, sd.lines), tail);
    SymbolsFromMods(sd.mods, sd.funcs, sd.lines, tail);
    ElementsInvert();
    RoundTripSlice(EncString, DecString, sd.files, t1);
    ThenChains(DecSlice(DecString, encF + t1), encF, t1, DecModsOn);
  }

  lemma ElementsInvert()
    ensures Inverse(EncString, DecString) && Inverse(EncGoModule, DecGoModule)
    ensures Inverse(EncGoFunc, DecGoFunc) && Inverse(EncGoLine, DecGoLine)
  {
    forall x: GoString, t: Bytes ensures InverseAt(EncString, DecString, x, t) { RoundTripString(x, t); }
    forall x: GoModule, t: Bytes ensures InverseAt(EncGoModule, DecGoModule, x, t) { RoundTripGoModule(x, t); }
    forall x: GoFunc, t: Bytes ensures InverseAt(EncGoFunc, DecGoFunc, x, t) { RoundTripGoFunc(x, t); }
    forall x: GoLine, t: Bytes ensures InverseAt(EncGoLine, DecGoLine, x, t) { RoundTripGoLine(x, t); }
  }

  // ---------- where the fields are ----------

  /** The bytes of b from `at` on begin with part. */
  ghost predicate Holds(b: Bytes, at: nat, part: Bytes) {
    at + |part| <= |b| && b[at..at + |part|] == part
  }

  lemma StringLayout(s: GoString)
    ensures |EncString(s)| == 8 + |s| && Holds(EncString(s), 0, EncUint64(|s|)) && Holds(EncString(s), 8, s)
  {
  }

  lemma {:induction false} FrameAt(frames: seq<Uint64>, i: nat)
    requires i < |frames|
    ensures Holds(EncList(EncUint64, frames), 8 * i, EncUint64(frames[i]))
  {
    var rest := EncList(EncUint64, frames[1..]);
    if i > 0 {
      FrameAt(frames[1..], i - 1);
      assert EncList(EncUint64, frames)[8 * i..8 * i + 8] == rest[8 * (i - 1)..8 * (i - 1) + 8];
    } else {
      assert (EncUint64(frames[0]) + rest)[0..8] == EncUint64(frames[0]);
    }
  }

  lemma FramesLayout(frames: Slice<Uint64>)
    ensures Holds(EncFrames(frames), 0, EncUint64(|frames|))
    ensures forall i :: 0 <= i < |frames| ==> Holds(EncFrames(frames), 8 + 8 * i, EncUint64(frames[i]))
  {
    FramesSize(frames);
    forall i | 0 <= i < |frames| ensures Holds(EncFrames(frames), 8 + 8 * i, EncUint64(frames[i])) {
      FrameAt(frames, i);
      var list := EncList(EncUint64, frames);
      assert EncFrames(frames)[8 + 8 * i..8 + 8 * i + 8] == list[8 * i..8 * i + 8];
    }
  }

  /** A call log: id, start, end and parent of eight bytes each, the frames, and the goroutine id. */
  lemma FuncLogLayout(f: FuncLog)
    ensures var b := EncFuncLog(f);
            && |b| == 48 + 8 * |f.frames|
            && Holds(b, 0, EncInt64(f.id)) && Holds(b, 8, EncInt64(f.startTime)) && Holds(b, 16, EncInt64(f.endTime))
            && Holds(b, 24, EncInt64(f.parentID)) && Holds(b, 32, EncFrames(f.frames))
            && Holds(b, 40 + 8 * |f.frames|, EncInt64(f.gid))
  {
    FramesSize(f.frames);
  }

  /** A raw log: id, the tag byte, the timestamp, the frames, the goroutine id and the transaction id. */
  lemma RawFuncLogLayout(r: RawFuncLog)
    ensures var b := EncRawFuncLog(r);
            && |b| == 41 + 8 * |r.frames|
            && Holds(b, 0, EncInt64(r.id)) && Holds(b, 8, [r.tag]) && Holds(b, 9, EncInt64(r.timestamp))
            && Holds(b, 17, EncFrames(r.frames)) && Holds(b, 25 + 8 * |r.frames|, EncInt64(r.gid))
            && Holds(b, 33 + 8 * |r.frames|, EncUint64(r.txid))
  {
    FramesSize(r.frames);
  }

  lemma GoroutineLayout(g: Goroutine)
    ensures var b := EncGoroutine(g);
            Holds(b, 0, EncInt64(g.gid)) && Holds(b, 8, EncInt64(g.startTime)) && Holds(b, 16, EncInt64(g.endTime))
  {
  }

  lemma GoModuleLayout(m: GoModule)
    ensures var b, at := EncGoModule(m), |EncString(m.name)|;
            Holds(b, 0, EncString(m.name)) && Holds(b, at, EncUint64(m.minPC)) && Holds(b, at + 8, EncUint64(m.maxPC))
  {
  }

  lemma GoFuncLayout(f: GoFunc)
    ensures Holds(EncGoFunc(f), 0, EncString(f.name)) && Holds(EncGoFunc(f), |EncString(f.name)|, EncUint64(f.entry))
  {
  }

  lemma GoLineLayout(l: GoLine)
    ensures var b := EncGoLine(l);
            Holds(b, 0, EncUint64(l.pc)) && Holds(b, 8, EncUint32(l.fileID)) && Holds(b, 12, EncUint32(l.line))
  {
  }

  /** A slice is the number of its elements in eight bytes, and then each element behind those before it. */
  lemma SliceLayout<T>(enc: T -> Bytes, xs: Slice<T>, i: nat)
    requires i < |xs|
    ensures Holds(EncSlice(enc, xs), 0, EncUint64(|xs|))
    ensures Holds(EncSlice(enc, xs), 8 + |EncList(enc, xs[..i])|, enc(xs[i]))
  {
    ElementAt(enc, xs, i);
    var at, part := |EncList(enc, xs[..i])|, enc(xs[i]);
    assert EncSlice(enc, xs)[8 + at..8 + at + |part|] == EncList(enc, xs)[at..at + |part|];
  }

  lemma {:induction false} ElementAt<T>(enc: T -> Bytes, xs: seq<T>, i: nat)
    requires i < |xs|
    ensures Holds(EncList(enc, xs), |EncList(enc, xs[..i])|, enc(xs[i]))
  {
    if i > 0 {
      ElementAt(enc, xs[1..], i - 1);
      assert xs[1..][..i - 1] == xs[..i][1..];
      var first, rest, at, part := enc(xs[0]), EncList(enc, xs[1..]), |EncList(enc, xs[1..][..i - 1])|, enc(xs[i]);
      assert (first + rest)[|first| + at..|first| + at + |part|] == rest[at..at + |part|];
    }
  }

  /** A symbol table: files, modules, functions, lines. */
  lemma SymbolsLayout(sd: SymbolsData)
    ensures var b, files := EncSymbols(sd), EncSlice(EncString, sd.files);
            var mods, funcs, lines := EncSlice(EncGoModule, sd.mods), EncSlice(EncGoFunc, sd.funcs), EncSlice(EncGoLine, sd.lines);
            && Holds(b, 0, files) && Holds(b, |files|, mods) && Holds(b, |files| + |mods|, funcs)
            && Holds(b, |files| + |mods| + |funcs|, lines)
  {
    FourParts(EncSlice(EncString, sd.files), EncSlice(EncGoModule, sd.mods), EncSlice(EncGoFunc, sd.funcs),
              EncSlice(EncGoLine, sd.lines));
  }

  lemma FourParts(a: Bytes, b: Bytes, c: Bytes, d: Bytes)
    ensures var all := a + b + c + d;
            Holds(all, 0, a) && Holds(all, |a|, b) && Holds(all, |a| + |b|, c) && Holds(all, |a| + |b| + |c|, d)
  {
  }
}

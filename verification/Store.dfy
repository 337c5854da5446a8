/** tracer/storage/store.go: fixed-size records in one file, behind a read cache and a write buffer. Every run of the
    store is compared with a growable array of zero-padded records. */
module Store {
  import opened Types
  import opened Records
  import opened Buffers
  import opened Cache

  // ---------- bytes as records ----------

  /** RecordSize * n. */
  function Offset(n: nat, size: nat): nat {
    if n == 0 then 0 else Offset(n - 1, size) + size
  }

  lemma {:induction false} OffsetIsProduct(n: nat, size: nat)
    ensures Offset(n, size) == n * size
  {
    if n > 0 {
      OffsetIsProduct(n - 1, size);
      assert n * size == (n - 1) * size + size;
    }
  }

  lemma {:induction false} OffsetSplit(m: nat, n: nat, size: nat)
    ensures Offset(m + n, size) == Offset(m, size) + Offset(n, size)
  {
    if n > 0 {
      OffsetSplit(m, n - 1, size);
    }
  }

  lemma {:induction false} OffsetOrder(m: nat, n: nat, size: nat)
    requires size > 0
    ensures m < n <==> Offset(m, size) < Offset(n, size)
    ensures m < n ==> Offset(m, size) + size <= Offset(n, size)
  {
    if m < n {
      OffsetSplit(m, n - m, size);
    } else {
      OffsetSplit(n, m - n, size);
    }
  }

  lemma WholeRecords(length: nat, size: nat)
    requires size > 0 && length % size == 0
    ensures Offset(length / size, size) == length
  {
    OffsetIsProduct(length / size, size);
  }

  function RecordsOf(c: Bytes, size: nat): seq<Bytes>
    requires size > 0
  {
    if |c| < size then [] else [c[..size]] + RecordsOf(c[size..], size)
  }

  lemma {:induction false} RecordAt(c: Bytes, size: nat, n: nat, i: nat)
    requires size > 0 && |c| == Offset(n, size) && i < n
    ensures |RecordsOf(c, size)| == n && Offset(i, size) + size <= |c|
    ensures RecordsOf(c, size)[i] == c[Offset(i, size)..Offset(i, size) + size]
    decreases n
  {
    RecordsCount(c, size, n);
    OffsetOrder(i, n, size);
    if i > 0 {
      var at := Offset(i - 1, size);
      RecordAt(c[size..], size, n - 1, i - 1);
      assert c[size..][at..at + size] == c[size + at..size + at + size];
      assert RecordsOf(c, size)[i] == RecordsOf(c[size..], size)[i - 1];
    }
  }

  lemma {:induction false} RecordsCount(c: Bytes, size: nat, n: nat)
    requires size > 0 && |c| == Offset(n, size)
    ensures |RecordsOf(c, size)| == n
    decreases n
  {
    if n > 0 {
      RecordsCount(c[size..], size, n - 1);
    }
  }

  lemma {:induction false} ZeroRecords(size: nat, n: nat)
    requires size > 0
    ensures RecordsOf(Zeros(Offset(n, size)), size) == seq(n, _ => Zeros(size))
  {
    if n > 0 {
      ZeroRecords(size, n - 1);
      var z := Zeros(Offset(n, size));
      assert z[size..] == Zeros(Offset(n - 1, size));
      assert z[..size] == Zeros(size);
      assert seq(n, _ => Zeros(size)) == [Zeros(size)] + seq(n - 1, _ => Zeros(size));
    }
  }

  lemma {:induction false} RecordsConcat(a: Bytes, n: nat, b: Bytes, size: nat)
    requires size > 0 && |a| == Offset(n, size)
    ensures RecordsOf(a + b, size) == RecordsOf(a, size) + RecordsOf(b, size)
    decreases n
  {
    if n == 0 {
      assert a + b == b;
    } else {
      assert (a + b)[..size] == a[..size];
      assert (a + b)[size..] == a[size..] + b;
      RecordsConcat(a[size..], n - 1, b, size);
    }
  }

  lemma OneRecord(rec: Bytes, size: nat)
    requires size > 0 && |rec| == size
    ensures RecordsOf(rec, size) == [rec] && Offset(1, size) == size
  {
    assert rec[..size] == rec;
    assert RecordsOf(rec[size..], size) == [];
    assert Offset(1, size) == Offset(0, size) + size;
  }

  lemma RecordBetween(a: Bytes, i: nat, m: Bytes, z: Bytes, size: nat)
    requires size > 0 && |a| == Offset(i, size) && |m| == size
    ensures |RecordsOf(a, size)| == i
    ensures RecordsOf(a + (m + z), size) == RecordsOf(a, size) + [m] + RecordsOf(z, size)
  {
    RecordsCount(a, size, i);
    OneRecord(m, size);
    RecordsConcat(a, i, m + z, size);
    RecordsConcat(m, 1, z, size);
  }

  lemma WriteMiddle(a: Bytes, m: Bytes, z: Bytes, rec: Bytes)
    requires |m| == |rec|
    ensures WriteAt(a + (m + z), |a|, rec) == a + (rec + z)
  {
  }

  lemma WriteInside(c: Bytes, size: nat, n: nat, i: nat, rec: Bytes)
    requires size > 0 && |c| == Offset(n, size) && |rec| == size && i < n
    ensures |RecordsOf(c, size)| == n && |WriteAt(c, Offset(i, size), rec)| == |c|
    ensures RecordsOf(WriteAt(c, Offset(i, size), rec), size) == RecordsOf(c, size)[i := rec]
  {
    RecordsCount(c, size, n);
    OffsetOrder(i, n, size);
    var at := Offset(i, size);
    var a, m, z := c[..at], c[at..at + size], c[at + size..];
    assert c == a + (m + z);
    WriteMiddle(a, m, z, rec);
    RecordBetween(a, i, m, z, size);
    RecordBetween(a, i, rec, z, size);
    UpdateMiddle(RecordsOf(a, size), m, RecordsOf(z, size), rec);
  }

  lemma UpdateMiddle(a: seq<Bytes>, m: Bytes, z: seq<Bytes>, rec: Bytes)
    ensures (a + [m] + z)[|a| := rec] == a + [rec] + z
  {
  }

  lemma WritePastEnd(c: Bytes, size: nat, n: nat, i: nat, rec: Bytes)
    requires size > 0 && |c| == Offset(n, size) && |rec| == size && n <= i
    ensures RecordsOf(WriteAt(c, Offset(i, size), rec), size) ==
            RecordsOf(c, size) + seq(i - n, _ => Zeros(size)) + [rec]
    ensures |WriteAt(c, Offset(i, size), rec)| == Offset(i + 1, size)
  {
    OffsetSplit(n, i - n, size);
    OneRecord(rec, size);
    ZeroRecords(size, i - n);
    var z := Zeros(Offset(i - n, size));
    assert WriteAt(c, Offset(i, size), rec) == c + (z + rec);
    RecordsConcat(c, n, z + rec, size);
    RecordsConcat(z, i - n, rec, size);
  }

  /** A positional write of one record is an update of the record array. */
  lemma WriteIsRecordUpdate(c: Bytes, size: nat, n: nat, i: nat, rec: Bytes)
    requires size > 0 && |c| == Offset(n, size) && |rec| == size
    ensures RecordsOf(WriteAt(c, Offset(i, size), rec), size) == WriteRecord(RecordsOf(c, size), size, i, rec)
    ensures |WriteAt(c, Offset(i, size), rec)| == Offset(Max(n, i + 1), size)
  {
    RecordsCount(c, size, n);
    if i < n {
      WriteInside(c, size, n, i, rec);
    } else {
      WritePastEnd(c, size, n, i, rec);
    }
  }

  /** The number of the record at byte x. */
  function Index(x: nat, size: nat): nat
    requires size > 0
  {
    if x < size then 0 else 1 + Index(x - size, size)
  }

  lemma {:induction false} IndexOffset(j: nat, size: nat)
    requires size > 0
    ensures Index(Offset(j, size), size) == j
  {
    if j > 0 {
      IndexOffset(j - 1, size);
    }
  }

  /** x is where a record starts. */
  predicate Aligned(x: nat, size: nat)
    requires size > 0
  {
    Offset(Index(x, size), size) == x
  }

  lemma AlignedOffset(j: nat, size: nat)
    requires size > 0
    ensures Aligned(Offset(j, size), size) && Index(Offset(j, size), size) == j
  {
    IndexOffset(j, size);
  }

  lemma AlignedSum(x: nat, y: nat, size: nat)
    requires size > 0 && Aligned(x, size) && Aligned(y, size)
    ensures Aligned(x + y, size)
  {
    OffsetSplit(Index(x, size), Index(y, size), size);
    AlignedOffset(Index(x, size) + Index(y, size), size);
  }

  lemma AlignedDifference(x: nat, y: nat, size: nat)
    requires size > 0 && Aligned(x, size) && Aligned(x + y, size)
    ensures Aligned(y, size)
  {
    var i, k := Index(x, size), Index(x + y, size);
    OffsetOrder(k, i, size);
    OffsetSplit(i, k - i, size);
    AlignedOffset(k - i, size);
  }

  lemma AlignedOne(size: nat)
    requires size > 0
    ensures Aligned(size, size) && Aligned(0, size)
  {
    AlignedOffset(1, size);
    AlignedOffset(0, size);
  }

  /** A whole record lies between two different record starts. */
  lemma AlignedGap(x: nat, y: nat, size: nat)
    requires size > 0 && Aligned(x, size) && Aligned(y, size) && x < y
    ensures x + size <= y && Index(x, size) < Index(y, size)
  {
    OffsetOrder(Index(x, size), Index(y, size), size);
  }

  /** Reading a record's bytes at an aligned place gives the record. */
  lemma ReadIsRecord(c: Bytes, size: nat, n: nat, place: nat, r: Bytes)
    requires size > 0 && |c| == Offset(n, size) && Aligned(place, size) && place < |c| && ReadsFrom(c, r, place, size)
    ensures |RecordsOf(c, size)| == n && Index(place, size) < n && r == RecordsOf(c, size)[Index(place, size)]
  {
    var i := Index(place, size);
    OffsetOrder(i, n, size);
    RecordAt(c, size, n, i);
    assert r == c[place..place + size];
  }

  // ---------- the store ----------

  datatype WriteResult = Written | ErrClosed | ErrReadOnly

  function BufferSizeFor(recordSize: nat): nat {
    Max(100 * recordSize, 0x1000)
  }

  // ---------- operations and what the record array answers ----------

  datatype Op = Write(idx: nat, data: Bytes) | Append(data: Bytes) | Read(idx: nat) | Flush

  predicate Fits(op: Op, size: nat) {
    match op
    case Write(_, data) => |data| <= size
    case Append(data) => |data| <= size
    case _ => true
  }

  datatype Result = Wrote(w: WriteResult) | Got(r: Option<Bytes>) | Flushed

  /** What an operation does to the record array; a read-only store ignores writes. */
  function ArrayStep(a: seq<Bytes>, size: nat, writable: bool, op: Op): seq<Bytes>
    requires Fits(op, size)
  {
    match op
    case Write(idx, data) => if writable then WriteRecord(a, size, idx, Pad(data, size)) else a
    case Append(data) => if writable then a + [Pad(data, size)] else a
    case _ => a
  }

  /** What an operation answers. */
  function Answer(a: seq<Bytes>, writable: bool, op: Op): Result {
    match op
    case Read(idx) => Got(if idx < |a| then Some(a[idx]) else None)
    case Flush => Flushed
    case _ => Wrote(if writable then Written else ErrReadOnly)
  }

  predicate AllFit(ops: seq<Op>, size: nat) {
    forall k :: 0 <= k < |ops| ==> Fits(ops[k], size)
  }

  function ArrayAfter(init: seq<Bytes>, size: nat, writable: bool, ops: seq<Op>): seq<Bytes>
    requires AllFit(ops, size)
  {
    if ops == [] then init
    else ArrayStep(ArrayAfter(init, size, writable, ops[..|ops| - 1]), size, writable, ops[|ops| - 1])
  }

  /** The last record written to position i by the operations, if any. */
  function LastWrite(init: seq<Bytes>, size: nat, ops: seq<Op>, i: nat): Option<Bytes>
    requires AllFit(ops, size)
  {
    if ops == [] then None
    else
      var before, op := ops[..|ops| - 1], ops[|ops| - 1];
      assert Fits(op, size);
      if op.Write? && op.idx == i then Some(Pad(op.data, size))
      else if op.Append? && |ArrayAfter(init, size, true, before)| == i then Some(Pad(op.data, size))
      else LastWrite(init, size, before, i)
  }

  /** Reading position i of the array gives the last write to it, the record it held when the store was opened, or
      zeros for a position that was skipped. */
  lemma {:induction false} ArrayHoldsLastWrite(init: seq<Bytes>, size: nat, ops: seq<Op>, i: nat)
    requires AllFit(ops, size)
    requires i < |ArrayAfter(init, size, true, ops)|
    ensures ArrayAfter(init, size, true, ops)[i] ==
            match LastWrite(init, size, ops, i) {
              case Some(rec) => rec
              case None => if i < |init| then init[i] else Zeros(size)
            }
  {
    if ops != [] {
      var before, op := ops[..|ops| - 1], ops[|ops| - 1];
      if i < |ArrayAfter(init, size, true, before)| {
        ArrayHoldsLastWrite(init, size, before, i);
      } else {
        NeverWritten(init, size, before, i);
      }
    }
  }

  lemma {:induction false} NeverWritten(init: seq<Bytes>, size: nat, ops: seq<Op>, i: nat)
    requires AllFit(ops, size)
    requires i >= |ArrayAfter(init, size, true, ops)|
    ensures LastWrite(init, size, ops, i) == None && i >= |init|
  {
    if ops != [] {
      NeverWritten(init, size, ops[..|ops| - 1], i);
    }
  }

  // ---------- the array with its read cache ----------

  /** The store as a value: the records, buffered or not, and the read cache. */
  datatype Model = Model(recs: seq<Bytes>, cache: Cache)

  /** ReadNolock on the cache, when the store has n records. */
  function CacheRead(c: Cache, size: nat, n: nat, idx: nat): Taken {
    ReadAt(Sought(c, Offset(idx, size)), size, size, BufferSizeFor(size), Offset(n, size))
  }

  /** The record that starts at a place. */
  function RecordFrom(a: seq<Bytes>, size: nat, place: Option<nat>): Option<Bytes>
    requires size > 0
  {
    if place.None? || Index(place.value, size) >= |a| then None else Some(a[Index(place.value, size)])
  }

  /** Everything an operation does and answers, cache included. */
  function ModelStep(m: Model, size: nat, writable: bool, op: Op): (Model, Result)
    requires size > 0 && Fits(op, size)
  {
    var a := ArrayStep(m.recs, size, writable, op);
    match op
    case Read(idx) =>
      var g := CacheRead(m.cache, size, |m.recs|, idx);
      (Model(a, g.cache), Got(RecordFrom(m.recs, size, g.place)))
    case Flush => (m, Flushed)
    case _ =>
      if writable then (Model(a, Dropped(m.cache)), Wrote(Written)) else (m, Wrote(ErrReadOnly))
  }

  function ModelAfter(init: seq<Bytes>, size: nat, writable: bool, ops: seq<Op>): Model
    requires size > 0 && AllFit(ops, size)
  {
    if ops == [] then Model(init, Empty)
    else ModelStep(ModelAfter(init, size, writable, ops[..|ops| - 1]), size, writable, ops[|ops| - 1]).0
  }

  /** The answer to operation k of a run. */
  function AnswerAt(init: seq<Bytes>, size: nat, writable: bool, ops: seq<Op>, k: nat): Result
    requires size > 0 && AllFit(ops, size) && k < |ops|
  {
    ModelStep(ModelAfter(init, size, writable, ops[..k]), size, writable, ops[k]).1
  }

  /** All answers of a run. */
  function Answers(init: seq<Bytes>, size: nat, writable: bool, ops: seq<Op>): (r: seq<Result>)
    requires size > 0 && AllFit(ops, size)
    ensures |r| == |ops|
  {
    if ops == [] then []
    else
      var n := |ops| - 1;
      Answers(init, size, writable, ops[..n]) + [AnswerAt(init, size, writable, ops, n)]
  }

  lemma {:induction false} AnswersAt(init: seq<Bytes>, size: nat, writable: bool, ops: seq<Op>, k: nat)
    requires size > 0 && AllFit(ops, size) && k < |ops|
    ensures Answers(init, size, writable, ops)[k] == AnswerAt(init, size, writable, ops, k)
  {
    var n := |ops| - 1;
    if k < n {
      AnswersAt(init, size, writable, ops[..n], k);
      assert ops[..n][..k] == ops[..k];
    }
  }

  /** Everything the cache knows is about places that satisfy `start`. */
  ghost predicate Grounded(c: Cache, start: nat -> bool) {
    && start(c.pos) && (c.avail > 0 ==> start(c.base) && c.pos > 0)
    && (c.fill.Some? ==> start(c.fill.value.at) && start(c.fill.value.from) && start(c.fill.value.size))
  }

  function RecordStart(size: nat): nat -> bool
    requires size > 0
  {
    (x: nat) => Aligned(x, size)
  }

  /** Everything the cache of a store with `len` bytes knows is about record starts. */
  ghost predicate CacheOk(c: Cache, size: nat, len: nat)
    requires size > 0
  {
    Plausible(c, BufferSizeFor(size), len) && Grounded(c, RecordStart(size))
  }

  lemma EmptyOk(size: nat, len: nat)
    requires size > 0
    ensures CacheOk(Empty, size, len) && Right(Empty)
  {
    AlignedOne(size);
  }

  /** More records do not disturb an empty cache. */
  lemma DroppedOk(c: Cache, size: nat, len: nat, more: nat)
    requires size > 0 && CacheOk(c, size, len) && len <= more
    ensures CacheOk(Dropped(c), size, more)
  {
  }

  lemma SoughtOk(c: Cache, size: nat, len: nat, at: nat)
    requires size > 0 && CacheOk(c, size, len) && Aligned(at, size)
    ensures CacheOk(Sought(c, at), size, len)
  {
  }

  /** A fill always starts where a record starts: if it follows the last fill without a seek, the buffer size is a multiple
      of the record size. */
  lemma FillAligned(c: Cache, size: nat, len: nat)
    requires size > 0 && CacheOk(c, size, len)
    ensures Aligned(FillStart(c, BufferSizeFor(size)), size)
  {
    if c.fill.Some? && c.fill.value.at + BufferSizeFor(size) == c.pos {
      var f := c.fill.value;
      AlignedDifference(f.at, BufferSizeFor(size), size);
      if f.count == BufferSizeFor(size) {
        AlignedSum(f.from, f.count, size);
      }
    }
  }

  lemma PlaceAligned(c: Cache, size: nat, len: nat)
    requires size > 0 && CacheOk(c, size, len)
    ensures var g := ReadAt(c, size, size, BufferSizeFor(size), len);
            g.place.Some? ==> Aligned(g.place.value, size) && g.place.value < len
  {
    FillAligned(c, size, len);
  }

  lemma ReadKeepsGrounded(c: Cache, start: nat -> bool, bytes: nat, bufferSize: nat, len: nat)
    requires Grounded(c, start) && start(c.pos + bytes) && start(len) && bytes > 0
    requires var g := ReadAt(c, bytes, bytes, bufferSize, len);
             g.place.Some? ==> start(g.place.value) && start(g.place.value + bytes)
    ensures Grounded(ReadAt(c, bytes, bytes, bufferSize, len).cache, start)
  {
  }

  lemma ReadKeepsStarts(c: Cache, size: nat, len: nat)
    requires size > 0 && CacheOk(c, size, len) && Aligned(len, size)
    ensures Grounded(ReadAt(c, size, size, BufferSizeFor(size), len).cache, RecordStart(size))
  {
    var place := ReadAt(c, size, size, BufferSizeFor(size), len).place;
    PlaceAligned(c, size, len);
    AlignedNext(c.pos, size);
    if place.Some? {
      AlignedNext(place.value, size);
    }
    ReadKeepsGrounded(c, RecordStart(size), size, BufferSizeFor(size), len);
  }

  lemma ReadKeepsOk(c: Cache, size: nat, len: nat)
    requires size > 0 && CacheOk(c, size, len) && Aligned(len, size)
    ensures CacheOk(ReadAt(c, size, size, BufferSizeFor(size), len).cache, size, len)
  {
    StaysPlausible(c, size, size, BufferSizeFor(size), len);
    ReadKeepsStarts(c, size, len);
  }

  lemma AlignedNext(x: nat, size: nat)
    requires size > 0 && Aligned(x, size)
    ensures Aligned(x + size, size)
  {
    AlignedOne(size);
    AlignedSum(x, size, size);
  }

  /** What the store needs to know of a read. */
  lemma CacheReadOk(c: Cache, size: nat, n: nat, idx: nat)
    requires size > 0 && CacheOk(c, size, Offset(n, size))
    ensures var g := CacheRead(c, size, n, idx);
            && CacheOk(g.cache, size, Offset(n, size))
            && (g.place.Some? ==> Aligned(g.place.value, size) && g.place.value < Offset(n, size))
  {
    AlignedOffset(idx, size);
    AlignedOffset(n, size);
    SoughtOk(c, size, Offset(n, size), Offset(idx, size));
    PlaceAligned(Sought(c, Offset(idx, size)), size, Offset(n, size));
    ReadKeepsOk(Sought(c, Offset(idx, size)), size, Offset(n, size));
  }

  /** Reading record idx refills the cache exactly one buffer size past a short fill, and the store has grown since. */
  predicate Trapped(c: Cache, size: nat, n: nat, idx: nat) {
    PastShortFill(Sought(c, Offset(idx, size)), size, BufferSizeFor(size), Offset(n, size))
  }

  /** From a cache that has been right so far: a read that is not trapped takes its own record, or fails exactly past the
      last one, and the cache stays right. A trapped read takes an earlier record: the one that was first missing when the
      short fill was made. */
  lemma ReadExactly(c: Cache, size: nat, n: nat, idx: nat)
    requires size > 0 && CacheOk(c, size, Offset(n, size)) && Right(c)
    ensures var g := CacheRead(c, size, n, idx);
            if Trapped(c, size, n, idx) then
              && c.fill.Some? && g.place == Some(c.fill.value.size) && !Right(g.cache)
              && Index(c.fill.value.size, size) < idx && Index(c.fill.value.size, size) < n
            else
              g.place == (if idx < n then Some(Offset(idx, size)) else None) && Right(g.cache)
  {
    var s := Sought(c, Offset(idx, size));
    MisplacedExactly(s, size, size, BufferSizeFor(size), Offset(n, size));
    OffsetOrder(idx, n, size);
    AlignedOffset(idx, size);
    AlignedOffset(n, size);
    if Trapped(c, size, n, idx) {
      AlignedGap(c.fill.value.size, Offset(idx, size), size);
      AlignedGap(c.fill.value.size, Offset(n, size), size);
    }
  }

  /** However wrong the cache is, reading another record than the next one, and not the one a buffer size past the last
      fill, is right again. */
  lemma ReadMends(c: Cache, size: nat, n: nat, idx: nat)
    requires size > 0 && CacheOk(c, size, Offset(n, size)) && c.pos != Offset(idx, size)
    requires !(c.fill.Some? && c.fill.value.at + BufferSizeFor(size) == Offset(idx, size))
    ensures var g := CacheRead(c, size, n, idx);
            g.place == (if idx < n then Some(Offset(idx, size)) else None) && Right(g.cache)
  {
    MoveMends(c, Offset(idx, size), size, size, BufferSizeFor(size), Offset(n, size));
    OffsetOrder(idx, n, size);
  }

  // ---------- every run ----------

  /** Read k of the run is trapped. */
  predicate TrappedAt(init: seq<Bytes>, size: nat, writable: bool, ops: seq<Op>, k: nat)
    requires size > 0 && AllFit(ops, size) && k < |ops|
  {
    ops[k].Read? &&
    var m := ModelAfter(init, size, writable, ops[..k]);
    Trapped(m.cache, size, |m.recs|, ops[k].idx)
  }

  lemma TrappedBefore(init: seq<Bytes>, size: nat, writable: bool, ops: seq<Op>, n: nat, k: nat)
    requires size > 0 && AllFit(ops, size) && k < n <= |ops|
    ensures TrappedAt(init, size, writable, ops[..n], k) <==> TrappedAt(init, size, writable, ops, k)
  {
    assert ops[..n][..k] == ops[..k];
  }

  lemma ModelStepOk(m: Model, size: nat, writable: bool, op: Op)
    requires size > 0 && Fits(op, size) && CacheOk(m.cache, size, Offset(|m.recs|, size))
    ensures var m' := ModelStep(m, size, writable, op).0; CacheOk(m'.cache, size, Offset(|m'.recs|, size))
    ensures ModelStep(m, size, writable, op).0.recs == ArrayStep(m.recs, size, writable, op)
  {
    var m' := ModelStep(m, size, writable, op).0;
    match op
    case Read(idx) =>
      CacheReadOk(m.cache, size, |m.recs|, idx);
    case Flush =>
    case _ =>
      OffsetOrder(|m'.recs|, |m.recs|, size);
      DroppedOk(m.cache, size, Offset(|m.recs|, size), Offset(|m'.recs|, size));
  }

  lemma {:induction false} ModelIsArray(init: seq<Bytes>, size: nat, writable: bool, ops: seq<Op>)
    requires size > 0 && AllFit(ops, size)
    ensures var m := ModelAfter(init, size, writable, ops);
            m.recs == ArrayAfter(init, size, writable, ops) && CacheOk(m.cache, size, Offset(|m.recs|, size))
  {
    if ops == [] {
      EmptyOk(size, Offset(|init|, size));
    } else {
      var n := |ops| - 1;
      assert Fits(ops[n], size);
      ModelIsArray(init, size, writable, ops[..n]);
      ModelStepOk(ModelAfter(init, size, writable, ops[..n]), size, writable, ops[n]);
    }
  }

  /** Up to the first trapped read the cache is right. */
  lemma {:induction false} RightUntilTrapped(init: seq<Bytes>, size: nat, writable: bool, ops: seq<Op>)
    requires size > 0 && AllFit(ops, size)
    requires forall k :: 0 <= k < |ops| ==> !TrappedAt(init, size, writable, ops, k)
    ensures Right(ModelAfter(init, size, writable, ops).cache)
  {
    if ops != [] {
      var n := |ops| - 1;
      var before := ops[..n];
      forall k | 0 <= k < n ensures !TrappedAt(init, size, writable, before, k) {
        TrappedBefore(init, size, writable, ops, n, k);
      }
      RightUntilTrapped(init, size, writable, before);
      ModelIsArray(init, size, writable, before);
      assert !TrappedAt(init, size, writable, ops, n);
      if ops[n].Read? {
        var m := ModelAfter(init, size, writable, before);
        ReadExactly(m.cache, size, |m.recs|, ops[n].idx);
      }
    }
  }

  /** Where read k of the run takes its bytes from. */
  function PlaceAt(init: seq<Bytes>, size: nat, writable: bool, ops: seq<Op>, k: nat): Option<nat>
    requires size > 0 && AllFit(ops, size) && k < |ops| && ops[k].Read?
  {
    var m := ModelAfter(init, size, writable, ops[..k]);
    CacheRead(m.cache, size, |m.recs|, ops[k].idx).place
  }

  /** The operation is answered as the record array answers it, and a read from the record's own place. */
  ghost predicate AnsweredRight(init: seq<Bytes>, size: nat, writable: bool, ops: seq<Op>, k: nat)
    requires size > 0 && AllFit(ops, size) && k < |ops|
  {
    var a := ArrayAfter(init, size, writable, ops[..k]);
    && AnswerAt(init, size, writable, ops, k) == Answer(a, writable, ops[k])
    && (ops[k].Read? ==>
          PlaceAt(init, size, writable, ops, k) == if ops[k].idx < |a| then Some(Offset(ops[k].idx, size)) else None)
  }

  /** One read on a cache that has been right so far. */
  lemma ReadAnswer(recs: seq<Bytes>, c: Cache, size: nat, idx: nat)
    requires size > 0 && CacheOk(c, size, Offset(|recs|, size)) && Right(c)
    ensures var place := CacheRead(c, size, |recs|, idx).place;
            var own := if idx < |recs| then Some(Offset(idx, size)) else None;
            if Trapped(c, size, |recs|, idx) then
              && c.fill.Some? && place != own
              && var i := Index(c.fill.value.size, size);
                 i < idx && i < |recs| && RecordFrom(recs, size, place) == Some(recs[i])
            else
              place == own && RecordFrom(recs, size, place) == if idx < |recs| then Some(recs[idx]) else None
  {
    ReadExactly(c, size, |recs|, idx);
    AlignedOffset(idx, size);
  }

  /** As long as no earlier read was trapped: operation k is answered as the array answers it if and only if it is not a
      trapped read; and a trapped read answers with an earlier record. */
  lemma FirstTrap(init: seq<Bytes>, size: nat, writable: bool, ops: seq<Op>, k: nat)
    requires size > 0 && AllFit(ops, size) && k < |ops|
    requires forall i :: 0 <= i < k ==> !TrappedAt(init, size, writable, ops, i)
    ensures AnsweredRight(init, size, writable, ops, k) <==> !TrappedAt(init, size, writable, ops, k)
    ensures TrappedAt(init, size, writable, ops, k) ==>
              var m := ModelAfter(init, size, writable, ops[..k]);
              m.cache.fill.Some? &&
              var i := Index(m.cache.fill.value.size, size);
              i < ops[k].idx && i < |m.recs| && AnswerAt(init, size, writable, ops, k) == Got(Some(m.recs[i]))
  {
    var before := ops[..k];
    forall i | 0 <= i < k ensures !TrappedAt(init, size, writable, before, i) {
      TrappedBefore(init, size, writable, ops, k, i);
    }
    RightUntilTrapped(init, size, writable, before);
    ModelIsArray(init, size, writable, before);
    if ops[k].Read? {
      var m := ModelAfter(init, size, writable, before);
      ReadAnswer(m.recs, m.cache, size, ops[k].idx);
    }
  }

  /** A whole run is answered as the record array answers it if and only if no read in it is trapped. */
  lemma RunIsArrayExactly(init: seq<Bytes>, size: nat, writable: bool, ops: seq<Op>)
    requires size > 0 && AllFit(ops, size)
    ensures (forall k :: 0 <= k < |ops| ==> AnsweredRight(init, size, writable, ops, k)) <==>
            (forall k :: 0 <= k < |ops| ==> !TrappedAt(init, size, writable, ops, k))
  {
    var k := 0;
    while k < |ops|
      invariant 0 <= k <= |ops|
      invariant forall i :: 0 <= i < k ==> !TrappedAt(init, size, writable, ops, i)
      invariant forall i :: 0 <= i < k ==> AnsweredRight(init, size, writable, ops, i)
    {
      FirstTrap(init, size, writable, ops, k);
      if TrappedAt(init, size, writable, ops, k) {
        return;
      }
      k := k + 1;
    }
  }

  // ---------- where the trap cannot happen ----------

  /** A buffer that does not hold a whole number of records never traps: 4096 is no multiple of 24, so goroutine stores
      are always right. */
  lemma UnevenNeverTrapped(c: Cache, size: nat, n: nat, idx: nat)
    requires size > 0 && CacheOk(c, size, Offset(n, size)) && !Aligned(BufferSizeFor(size), size)
    ensures !Trapped(c, size, n, idx)
  {
    AlignedOffset(idx, size);
    if Trapped(c, size, n, idx) {
      AlignedDifference(c.fill.value.at, BufferSizeFor(size), size);
    }
  }

  lemma GoroutineStoresAreUneven()
    ensures !Aligned(BufferSizeFor(24), 24)
  {
    OffsetIsProduct(Index(4096, 24), 24);
  }

  /** So every run of such a store is answered as the record array answers it. */
  lemma UnevenRunIsArray(init: seq<Bytes>, size: nat, writable: bool, ops: seq<Op>)
    requires size > 0 && AllFit(ops, size) && !Aligned(BufferSizeFor(size), size)
    ensures forall k :: 0 <= k < |ops| ==> AnsweredRight(init, size, writable, ops, k)
  {
    forall k | 0 <= k < |ops| ensures !TrappedAt(init, size, writable, ops, k) {
      ModelIsArray(init, size, writable, ops[..k]);
      if ops[k].Read? {
        var m := ModelAfter(init, size, writable, ops[..k]);
        UnevenNeverTrapped(m.cache, size, |m.recs|, ops[k].idx);
      }
    }
    RunIsArrayExactly(init, size, writable, ops);
  }

  /** Nothing grows in a read-only store. */
  lemma ReadOnlyNeverTrapped(init: seq<Bytes>, size: nat, ops: seq<Op>, k: nat)
    requires size > 0 && AllFit(ops, size) && k < |ops|
    ensures !TrappedAt(init, size, false, ops, k)
  {
    ReadOnlyFills(init, size, ops[..k]);
  }

  lemma {:induction false} ReadOnlyFills(init: seq<Bytes>, size: nat, ops: seq<Op>)
    requires size > 0 && AllFit(ops, size)
    ensures var m := ModelAfter(init, size, false, ops);
            m.recs == init && (m.cache.fill.Some? ==> m.cache.fill.value.size == Offset(|init|, size))
  {
    if ops != [] {
      ReadOnlyFills(init, size, ops[..|ops| - 1]);
    }
  }

  lemma ReadOnlyRunIsArray(init: seq<Bytes>, size: nat, ops: seq<Op>)
    requires size > 0 && AllFit(ops, size)
    ensures forall k :: 0 <= k < |ops| ==> AnsweredRight(init, size, false, ops, k)
  {
    forall k | 0 <= k < |ops| ensures !TrappedAt(init, size, false, ops, k) {
      ReadOnlyNeverTrapped(init, size, ops, k);
    }
    RunIsArrayExactly(init, size, false, ops);
  }

  /** Everything the cache knows is about the file as it is now. */
  ghost predicate UpToDate(c: Cache, size: nat, n: nat)
    requires size > 0
  {
    CacheOk(c, size, Offset(n, size)) && Right(c) && (c.fill.Some? ==> c.fill.value.size == Offset(n, size))
  }

  /** Whatever state the cache is in, reading record 0 is right and brings it up to date. */
  lemma FirstRecordIsRight(c: Cache, size: nat, n: nat)
    requires size > 0 && CacheOk(c, size, Offset(n, size))
    ensures var g := CacheRead(c, size, n, 0);
            g.place == (if 0 < n then Some(0) else None) && UpToDate(g.cache, size, n)
  {
    CacheReadOk(c, size, n, 0);
    OffsetOrder(0, n, size);
  }

  /** So does reading any record that is not trapped, from a cache that has been right. */
  lemma ReadUpdates(c: Cache, size: nat, n: nat, idx: nat)
    requires size > 0 && CacheOk(c, size, Offset(n, size)) && Right(c) && !Trapped(c, size, n, idx)
    ensures var g := CacheRead(c, size, n, idx);
            g.place == (if idx < n then Some(Offset(idx, size)) else None) && UpToDate(g.cache, size, n)
  {
    ReadExactly(c, size, n, idx);
    CacheReadOk(c, size, n, idx);
  }

  /** An up-to-date cache is not trapped. */
  lemma UpToDateNotTrapped(c: Cache, size: nat, n: nat, idx: nat)
    requires size > 0 && UpToDate(c, size, n)
    ensures !Trapped(c, size, n, idx)
  {
  }

  // ---------- what the object needs to know ----------

  /** True of everything: mentioning it opens Sound. */
  predicate Looked(b: bool) {
    true
  }

  /** CacheOk, closed behind a quantifier. */
  ghost predicate Sound(c: Cache, size: nat, len: nat)
    requires size > 0
  {
    forall b {:trigger Looked(b)} :: Looked(b) ==> CacheOk(c, size, len)
  }

  lemma SoundIsOk(c: Cache, size: nat, len: nat)
    requires size > 0
    ensures Sound(c, size, len) <==> CacheOk(c, size, len)
  {
    assert Looked(true);
  }

  lemma SoundRead(c: Cache, size: nat, n: nat, idx: nat)
    requires size > 0 && Sound(c, size, Offset(n, size))
    ensures var g := CacheRead(c, size, n, idx);
            && Sound(g.cache, size, Offset(n, size))
            && (g.place.Some? ==> Aligned(g.place.value, size) && g.place.value < Offset(n, size))
  {
    SoundIsOk(c, size, Offset(n, size));
    CacheReadOk(c, size, n, idx);
  }

  lemma SoundWrite(c: Bytes, cache: Cache, size: nat, n: nat, idx: nat, rec: Bytes)
    requires size > 0 && |c| == Offset(n, size) && |rec| == size && Sound(cache, size, |c|)
    ensures var c', n' := WriteAt(c, Offset(idx, size), rec), Max(n, idx + 1);
            && |c'| == Offset(n', size) && Sound(Dropped(cache), size, |c'|)
            && RecordsOf(c', size) == WriteRecord(RecordsOf(c, size), size, idx, rec)
  {
    SoundIsOk(cache, size, |c|);
    WriteIsRecordUpdate(c, size, n, idx, rec);
    OffsetOrder(Max(n, idx + 1), n, size);
    DroppedOk(cache, size, |c|, Offset(Max(n, idx + 1), size));
  }

  // ---------- the object ----------

  class RecordStore {
    const file: OsFile
    const recordSize: nat
    const readOnly: bool
    const rb: ReadBuffer
    const wb: WriteBuffer
    var closed: bool
    var records: nat

    ghost predicate Shape()
      reads this, rb, wb
    {
      && recordSize > 0
      && rb.file == file && wb.file == file
      && rb.maxReadSize == recordSize && wb.maxWriteSize == recordSize
      && rb.bufferSize == BufferSizeFor(recordSize) && wb.bufferSize == BufferSizeFor(recordSize)
      && rb.Valid() && wb.Valid() && wb.HasRoom()
      && (rb.buf != null ==> rb.buf != wb.buf)
    }

    ghost predicate Valid()
      reads this, rb, wb, rb.buf, wb.buf, file
    {
      && Shape() && rb.Coherent() && Sound(rb.View(), recordSize, Offset(records, recordSize))
      && (rb.View().avail > 0 ==> wb.Pending() == [])
      && |Contents()| == Offset(records, recordSize)
    }

    /** The objects the store is made of. */
    ghost function Parts(): set<object>
      reads this, rb, wb
    {
      {this, file, rb, wb} + (if rb.buf == null then {} else {rb.buf}) + (if wb.buf == null then {} else {wb.buf})
    }

    /** The bytes of the file with everything buffered written out. */
    ghost function Contents(): Bytes
      requires Shape()
      reads this, rb, wb, wb.buf, file
    {
      wb.Overlay()
    }

    ghost function Array(): seq<Bytes>
      requires Shape()
      reads this, rb, wb, wb.buf, file
    {
      RecordsOf(Contents(), recordSize)
    }

    constructor (file: OsFile, recordSize: nat, readOnly: bool)
      requires recordSize > 0 && |file.content| % recordSize == 0
      ensures Valid() && fresh(Parts() - {file}) && this.file == file && this.recordSize == recordSize
      ensures this.readOnly == readOnly && !closed && rb.View() == Empty
      ensures Contents() == file.content
    {
      this.file, this.recordSize, this.readOnly := file, recordSize, readOnly;
      closed := false;
      rb := new ReadBuffer(file, recordSize, BufferSizeFor(recordSize));
      wb := new WriteBuffer(file, recordSize, BufferSizeFor(recordSize));
      records := |file.content| / recordSize;
      WholeRecords(|file.content|, recordSize);
      EmptyOk(recordSize, |file.content|);
      SoundIsOk(Empty, recordSize, |file.content|);
    }

    /** What ReadNolock does before it reads: buffered writes go to the file and the cache is positioned. */
    method Prepare(idx: nat)
      requires Valid()
      modifies file, rb`pos, rb`left, rb`right, wb
      ensures Shape() && rb.Coherent() && file.content == Contents() == old(Contents()) && wb.Pending() == []
      ensures wb.buf == old(wb.buf) && rb.buf == old(rb.buf)
      ensures rb.View() == Sought(old(rb.View()), Offset(idx, recordSize))
    {
      var ok := wb.Flush(NoFault);
      rb.Seek(Offset(idx, recordSize));
    }

    /** ReadNolock: flush, seek, read one record: the record at the place that the cache, as a value, says. */
    method ReadNolock(idx: nat) returns (r: Option<Bytes>)
      requires Valid()
      modifies file, rb, wb, rb.buf
      ensures Valid() && Contents() == old(Contents()) && fresh(Parts() - old(Parts()))
      ensures |Array()| == records
      ensures var g := CacheRead(old(rb.View()), recordSize, records, idx);
              rb.View() == g.cache && r == RecordFrom(Array(), recordSize, g.place)
    {
      SoundRead(rb.View(), recordSize, records, idx);
      RecordsCount(Contents(), recordSize, records);
      ghost var g := CacheRead(rb.View(), recordSize, records, idx);
      Prepare(idx);
      r := ReadHere(g);
    }

    /** One record from where the cache stands. */
    method ReadHere(ghost g: Taken) returns (r: Option<Bytes>)
      requires Shape() && rb.Coherent() && wb.Pending() == [] && |file.content| == Offset(records, recordSize)
      requires g == ReadAt(rb.View(), recordSize, recordSize, rb.bufferSize, |file.content|)
      requires g.place.Some? ==> Aligned(g.place.value, recordSize) && g.place.value < |file.content|
      modifies rb, rb.buf
      ensures Shape() && rb.Coherent() && rb.View() == g.cache
      ensures if old(rb.buf) == null then rb.buf == null || fresh(rb.buf) else rb.buf == old(rb.buf)
      ensures r == RecordFrom(RecordsOf(file.content, recordSize), recordSize, g.place)
    {
      r := rb.Read(recordSize);
      if r.Some? {
        ReadIsRecord(file.content, recordSize, records, g.place.value, r.value);
      }
    }

    /** WriteNolock: the record, zero-padded, replaces or extends. The read cache is dropped first. */
    method WriteNolock(idx: nat, data: Bytes) returns (r: WriteResult)
      requires Valid() && |data| <= recordSize
      modifies this`records, file, rb`left, rb`right, wb, wb.buf
      ensures Valid() && fresh(Parts() - old(Parts())) && closed == old(closed) && |Array()| == records
      ensures r == if closed then ErrClosed else if readOnly then ErrReadOnly else Written
      ensures r != Written ==> Contents() == old(Contents()) && records == old(records) && rb.View() == old(rb.View())
      ensures r == Written ==>
        && Contents() == WriteAt(old(Contents()), Offset(idx, recordSize), Pad(data, recordSize))
        && Array() == WriteRecord(old(Array()), recordSize, idx, Pad(data, recordSize))
        && records == Max(old(records), idx + 1) && rb.View() == Dropped(old(rb.View()))
    {
      RecordsCount(Contents(), recordSize, records);
      if closed {
        return ErrClosed;
      }
      if readOnly {
        return ErrReadOnly;
      }
      PutAt(idx, data);
      return Written;
    }

    method PutAt(idx: nat, data: Bytes)
      requires Valid() && |data| <= recordSize
      modifies this`records, file, rb`left, rb`right, wb, wb.buf
      ensures Valid() && fresh(Parts() - old(Parts()))
      ensures Contents() == WriteAt(old(Contents()), Offset(idx, recordSize), Pad(data, recordSize))
      ensures Array() == WriteRecord(old(Array()), recordSize, idx, Pad(data, recordSize))
      ensures records == Max(old(records), idx + 1) && rb.View() == Dropped(old(rb.View()))
    {
      SoundWrite(Contents(), rb.View(), recordSize, records, idx, Pad(data, recordSize));
      rb.DropCache();
      wb.PutRecord(Offset(idx, recordSize), data);
      if records < idx + 1 {
        records := idx + 1;
      }
    }

    /** AppendNolock: a write at the current record count. */
    method AppendNolock(data: Bytes) returns (r: WriteResult)
      requires Valid() && |data| <= recordSize
      modifies this`records, file, rb`left, rb`right, wb, wb.buf
      ensures Valid() && fresh(Parts() - old(Parts())) && closed == old(closed)
      ensures r == if closed then ErrClosed else if readOnly then ErrReadOnly else Written
      ensures rb.View() == if r == Written then Dropped(old(rb.View())) else old(rb.View())
      ensures Array() == if r == Written then old(Array()) + [Pad(data, recordSize)] else old(Array())
      ensures records == |Array()|
    {
      RecordsCount(Contents(), recordSize, records);
      r := WriteNolock(records, data);
    }

    /** FlushNolock: the file itself holds the array. */
    method FlushNolock()
      requires Valid()
      modifies file, wb
      ensures Valid() && Contents() == old(Contents()) && file.content == Contents()
      ensures wb.buf == old(wb.buf)
    {
      var ok := wb.Flush(NoFault);
    }

    /** Close: a writable store is flushed, so the file itself holds the array. */
    method Close()
      requires Valid() && !closed
      modifies this`closed, file, wb
      ensures Valid() && closed && Contents() == old(Contents()) && rb.View() == old(rb.View()) && wb.buf == old(wb.buf)
      ensures !readOnly ==> file.content == Contents()
    {
      closed := true;
      if !readOnly {
        FlushNolock();
      }
    }

    ghost function Value(): Model
      requires Shape()
      reads this, rb, wb, wb.buf, file
    {
      Model(Array(), rb.View())
    }

    /** One operation does and answers what the model does and answers. */
    method Step(op: Op) returns (res: Result)
      requires Valid() && !closed && Fits(op, recordSize)
      modifies Parts()
      ensures Valid() && !closed && fresh(Parts() - old(Parts()))
      ensures (Value(), res) == ModelStep(old(Value()), recordSize, !readOnly, op)
    {
      RecordsCount(Contents(), recordSize, records);
      match op {
        case Write(idx, data) =>
          var w := WriteNolock(idx, data);
          res := Wrote(w);
        case Append(data) =>
          var w := AppendNolock(data);
          res := Wrote(w);
        case Flush =>
          FlushNolock();
          res := Flushed;
        case Read(idx) =>
          var r := ReadNolock(idx);
          res := Got(r);
      }
    }

    /** Any run of operations on a freshly opened store, answer by answer. RunIsArrayExactly says when these are the answers
        of the record array. */
    method Run(ops: seq<Op>) returns (results: seq<Result>)
      requires Valid() && !closed && rb.View() == Empty && AllFit(ops, recordSize)
      modifies Parts()
      ensures results == Answers(old(Array()), recordSize, !readOnly, ops)
    {
      ghost var init := Array();
      results := [];
      for k := 0 to |ops|
        invariant Valid() && !closed && fresh(Parts() - old(Parts()))
        invariant Value() == ModelAfter(init, recordSize, !readOnly, ops[..k])
        invariant results == Answers(init, recordSize, !readOnly, ops[..k])
      {
        var res := StepAt(ops, k, init);
        results := results + [res];
      }
      assert ops[..|ops|] == ops;
    }

    method StepAt(ops: seq<Op>, k: nat, ghost init: seq<Bytes>) returns (res: Result)
      requires Valid() && !closed && AllFit(ops, recordSize) && k < |ops|
      requires Value() == ModelAfter(init, recordSize, !readOnly, ops[..k])
      modifies Parts()
      ensures Valid() && !closed && fresh(Parts() - old(Parts()))
      ensures Value() == ModelAfter(init, recordSize, !readOnly, ops[..k + 1])
      ensures Answers(init, recordSize, !readOnly, ops[..k + 1]) == Answers(init, recordSize, !readOnly, ops[..k]) + [res]
    {
      assert ops[..k + 1][..k] == ops[..k];
      res := Step(ops[k]);
    }
  }
}

/** The read cache of tracer/storage/buffer.go as a value: where it stands, what it holds and what its last fill did. A
    fill advances the believed file position by the full buffer size even when it gets fewer bytes, so the next fill may
    come from another place than the one asked for. */
module Cache {
  import opened Types

  /** A fill asked for position `at`, took `count` bytes from position `from`, when the file had `size` bytes. */
  datatype Fill = Fill(at: nat, from: nat, count: nat, size: nat)

  /** `avail` bytes are left in the cache; the first of them is the file's byte `base`, handed out as that of `pos`. No fill
      stands for a file handle whose position is known: the next fill is sure to come from `pos`. */
  datatype Cache = Cache(pos: nat, avail: int, base: nat, fill: Option<Fill>)

  /** Where a read took its bytes from, None at or past the end of the file, and the cache it leaves. */
  datatype Taken = Taken(place: Option<nat>, cache: Cache)

  const Empty := Cache(0, 0, 0, None)

  /** Any real move drops the cache. */
  function Sought(c: Cache, target: nat): Cache {
    if c.pos == target then c else c.(pos := target, avail := 0)
  }

  function Dropped(c: Cache): Cache {
    c.(avail := 0)
  }

  /** Where a fill takes its bytes from: the believed position decides whether the handle is moved first. */
  function FillStart(c: Cache, bufferSize: nat): nat {
    if c.fill.Some? && c.fill.value.at + bufferSize == c.pos then c.fill.value.from + c.fill.value.count else c.pos
  }

  /** A read of `bytes` bytes from a file of `size` bytes; the cache is filled when it holds less than `max`. */
  function ReadAt(c: Cache, bytes: nat, max: nat, bufferSize: nat, size: nat): Taken {
    if c.avail >= max then Taken(Some(c.base), Cache(c.pos + bytes, c.avail - bytes, c.base + bytes, c.fill))
    else
      var start := FillStart(c, bufferSize);
      if start >= size then Taken(None, Cache(c.pos, 0, c.base, None))
      else
        var n := Min(bufferSize, size - start);
        Taken(Some(start), Cache(c.pos + bytes, n - bytes, start + bytes, Some(Fill(c.pos, start, n, size))))
  }

  /** The cache hands out bytes of the place it says, and so did its last fill. */
  predicate Right(c: Cache) {
    (c.avail > 0 ==> c.base == c.pos) && (c.fill.Some? ==> c.fill.value.from == c.fill.value.at)
  }

  /** What every run of reads keeps: a fill gets all that is asked for or all that the file has. */
  predicate Plausible(c: Cache, bufferSize: nat, size: nat) {
    && (c.avail > 0 ==> c.base + c.avail <= size && c.fill.Some? && c.fill.value.size == size)
    && (c.fill.Some? ==>
          var f := c.fill.value;
          && 0 < f.count <= bufferSize && f.from + f.count <= f.size <= size && f.from <= f.at
          && (f.count < bufferSize ==> f.from + f.count == f.size))
  }

  /** The next read would refill exactly one buffer size past a short fill, in a file that has grown since. */
  predicate PastShortFill(c: Cache, max: nat, bufferSize: nat, size: nat) {
    && c.avail < max && c.fill.Some?
    && c.fill.value.count < bufferSize && c.fill.value.at + bufferSize == c.pos && c.fill.value.size < size
  }

  /** The exact condition under which a cache that has been right so far goes wrong, and what it then hands out: the bytes
      that follow the short fill. */
  lemma MisplacedExactly(c: Cache, bytes: nat, max: nat, bufferSize: nat, size: nat)
    requires Right(c) && Plausible(c, bufferSize, size) && 0 < bytes <= max <= bufferSize
    ensures var g := ReadAt(c, bytes, max, bufferSize, size);
            if PastShortFill(c, max, bufferSize, size) then
              g.place == Some(c.fill.value.size) && c.fill.value.size < c.pos && !Right(g.cache)
            else
              g.place == (if c.pos < size then Some(c.pos) else None) && Right(g.cache)
  {
  }

  lemma NeverAhead(c: Cache, bufferSize: nat, size: nat)
    requires Plausible(c, bufferSize, size)
    ensures FillStart(c, bufferSize) <= c.pos
  {
  }

  lemma StaysPlausible(c: Cache, bytes: nat, max: nat, bufferSize: nat, size: nat)
    requires Plausible(c, bufferSize, size) && 0 < bytes <= max <= bufferSize
    ensures Plausible(ReadAt(c, bytes, max, bufferSize, size).cache, bufferSize, size)
  {
    NeverAhead(c, bufferSize, size);
  }

  /** However wrong the cache is, a real move to a place that is not one buffer size past the last fill mends it. */
  lemma MoveMends(c: Cache, target: nat, bytes: nat, max: nat, bufferSize: nat, size: nat)
    requires 0 < bytes <= max <= bufferSize && c.pos != target
    requires !(c.fill.Some? && c.fill.value.at + bufferSize == target)
    ensures var g := ReadAt(Sought(c, target), bytes, max, bufferSize, size);
            g.place == (if target < size then Some(target) else None) && Right(g.cache)
  {
  }
}

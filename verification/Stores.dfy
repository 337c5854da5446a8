/** tracer/storage/stores.go: a record store seen by those who get and set whole records by index. */
module Stores {
  import opened Types
  import opened Records
  import opened Cache
  import opened Buffers
  import opened Store

  /** True of everything: mentioning it opens the invariant of a TypedStore. */
  predicate Opened(b: bool) {
    true
  }

  /** FuncLogStore and GoroutineStore. The invariant of the store underneath stays closed behind the quantifier of Valid;
      what a caller needs is in the three ghost fields: the records, the read cache as a value, and the objects in use. */
  class TypedStore {
    const store: RecordStore
    const size: nat
    ghost var recs: seq<Bytes>
    ghost var cache: Cache
    ghost var parts: set<object>

    ghost predicate Inner()
      reads this, store.Parts()
    {
      && store.Valid() && !store.closed && store.recordSize == size > 0
      && parts == {this} + store.Parts() && this !in store.Parts()
      && recs == store.Array() && cache == store.rb.View() && |recs| == store.records
    }

    ghost predicate Valid()
      reads this, parts
    {
      && this in parts && store in parts && store.rb in parts && store.wb in parts
      && store.Parts() <= parts
      && forall b {:trigger Opened(b)} :: Opened(b) ==> Inner()
    }

    constructor (store: RecordStore)
      requires store.Valid() && !store.closed
      ensures Valid() && parts == {this} + store.Parts() && this.store == store && size == store.recordSize
      ensures recs == store.Array() && cache == store.rb.View()
    {
      RecordsCount(store.Contents(), store.recordSize, store.records);
      this.store, size := store, store.recordSize;
      recs, cache, parts := store.Array(), store.rb.View(), {this} + store.Parts();
    }

    /** What the cache knows is about record starts, so the theorems about reads apply. */
    lemma CacheFits()
      requires Valid()
      ensures size > 0 && CacheOk(cache, size, Offset(|recs|, size))
    {
      assert Opened(true);
      SoundIsOk(cache, size, Offset(|recs|, size));
    }

    /** SetNolock: the zero-padded record replaces or extends. */
    method SetNolock(idx: nat, data: Bytes) returns (r: WriteResult)
      requires Valid() && |data| <= size
      modifies parts
      ensures Valid() && fresh(parts - old(parts))
      ensures r == if store.readOnly then ErrReadOnly else Written
      ensures cache == if r == Written then Dropped(old(cache)) else old(cache)
      ensures recs == if r == Written then WriteRecord(old(recs), size, idx, Pad(data, size)) else old(recs)
    {
      assert Opened(true);
      r := store.WriteNolock(idx, data);
      recs, cache, parts := store.Array(), store.rb.View(), {this} + store.Parts();
    }

    /** GetNolock: the record at the place that the cache says. */
    method GetNolock(idx: nat) returns (r: Option<Bytes>)
      requires Valid()
      modifies parts
      ensures Valid() && fresh(parts - old(parts)) && recs == old(recs) && size > 0
      ensures var g := CacheRead(old(cache), size, |recs|, idx);
              cache == g.cache && r == RecordFrom(recs, size, g.place)
    {
      assert Opened(true);
      r := store.ReadNolock(idx);
      cache, parts := store.rb.View(), {this} + store.Parts();
    }

    method Records() returns (n: nat)
      requires Valid()
      ensures n == |recs|
    {
      assert Opened(true);
      n := store.records;
    }

    /** Close: the file itself holds the records. */
    method Close()
      requires Valid() && !store.readOnly
      modifies parts
      ensures size > 0 && RecordsOf(store.file.content, size) == old(recs) && store.closed
    {
      assert Opened(true);
      store.Close();
    }
  }

  // ---------- the trap is real ----------

  /** A record that tells its number. */
  function Numbered(size: nat, k: nat): Bytes
    requires 0 < size && k < 256
  {
    Pad([k], size)
  }

  function NumberedUpTo(size: nat, n: nat): seq<Bytes>
    requires 0 < size && n <= 256
  {
    seq(n, k requires 0 <= k < n => Numbered(size, k))
  }

  /** Records 0 to n-1 have been written. */
  ghost predicate Holding(store: TypedStore, n: nat)
    requires n <= 256
    reads store, store.parts
  {
    store.Valid() && !store.store.readOnly && store.size >= 41 && store.recs == NumberedUpTo(store.size, n)
  }

  method AppendNumbered(store: TypedStore, from: nat, n: nat)
    requires from < n <= 256 && Holding(store, from)
    modifies store.parts
    ensures fresh(store.parts - old(store.parts)) && Holding(store, n)
    ensures store.cache == Dropped(old(store.cache))
  {
    for i := from to n
      invariant Holding(store, i) && fresh(store.parts - old(store.parts))
      invariant store.cache == old(store.cache) || store.cache == Dropped(old(store.cache))
      invariant i > from ==> store.cache == Dropped(old(store.cache))
    {
      var w := store.SetNolock(i, [i]);
      assert store.recs == NumberedUpTo(store.size, i + 1);
    }
  }

  lemma TrapOffsets(size: nat)
    requires size >= 41
    ensures Offset(100, size) == BufferSizeFor(size) && Offset(1, size) == size && size < Offset(101, size)
    ensures Index(size, size) == 1
  {
    OffsetIsProduct(100, size);
    OffsetIsProduct(1, size);
    OffsetOrder(1, 101, size);
    IndexOffset(1, size);
  }

  method OpenEmpty(size: nat) returns (store: TypedStore)
    requires size >= 41
    ensures fresh(store) && fresh(store.parts) && Holding(store, 0) && store.size == size && store.cache == Empty
  {
    var file := new OsFile([]);
    var inner := new RecordStore(file, size, false);
    store := new TypedStore(inner);
  }

  /** The caches of the run below, as values. */
  lemma TrapCaches(size: nat)
    requires size >= 41
    ensures var c := CacheRead(Empty, size, 1, 0).cache;
            && CacheRead(Dropped(c), size, 101, 100).place == Some(size)
            && RecordFrom(NumberedUpTo(size, 101), size, Some(size)) == Some(Numbered(size, 1))
            && Dropped(Empty) == Empty
  {
    TrapOffsets(size);
    OffsetOrder(100, 101, size);
  }

  /** A store opened on an empty file, one record written and read, a hundred more appended: reading record 100 then
      gives record 1. */
  method TrappedReadGivesRecordOne(size: nat) returns (r: Option<Bytes>)
    requires size >= 41
    ensures r == Some(Numbered(size, 1)) && Numbered(size, 1) != Numbered(size, 100)
  {
    TrapCaches(size);
    var store := OpenEmpty(size);
    AppendNumbered(store, 0, 1);
    r := store.GetNolock(0);
    AppendNumbered(store, 1, 101);
    r := store.GetNolock(100);
    assert Numbered(size, 1)[0] != Numbered(size, 100)[0];
  }
}

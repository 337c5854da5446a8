/** readFuncLog of tracer/restapi/handlers.go as it runs: the file half goes through the buffered store, whose read cache can
    misread. A scan that starts at record 0 cannot be misled. */
module Reader {
  import opened Types
  import opened Simulator
  import opened Cache
  import opened Store
  import opened Stores
  import opened FullRead

  /** The first read of a scan is sure to be right: it is record 0, or the cache is right and the read not trapped. */
  ghost predicate ScanCanStart(cache: Cache, size: nat, n: nat, lo: nat) {
    lo == 0 || (Right(cache) && !Trapped(cache, size, n, lo))
  }

  /** One read of a scan: the record itself, and the cache fit for the next one. */
  lemma ScanRead(cache: Cache, size: nat, recs: seq<Bytes>, id: nat)
    requires size > 0 && CacheOk(cache, size, Offset(|recs|, size)) && id < |recs| && ScanCanStart(cache, size, |recs|, id)
    ensures var g := CacheRead(cache, size, |recs|, id);
            RecordFrom(recs, size, g.place) == Some(recs[id]) && ScanCanStart(g.cache, size, |recs|, id + 1)
  {
    var g := CacheRead(cache, size, |recs|, id);
    if id == 0 {
      FirstRecordIsRight(cache, size, |recs|);
    } else {
      ReadUpdates(cache, size, |recs|, id);
    }
    AlignedOffset(id, size);
    UpToDateNotTrapped(g.cache, size, |recs|, id + 1);
  }

  method GetNext(store: TypedStore, id: nat, ghost right: bool) returns (rec: Option<Bytes>)
    requires store.Valid() && id < |store.recs|
    requires right ==> ScanCanStart(store.cache, store.size, |store.recs|, id)
    modifies store.parts
    ensures store.Valid() && fresh(store.parts - old(store.parts)) && store.recs == old(store.recs)
    ensures right ==> rec == Some(store.recs[id]) && ScanCanStart(store.cache, store.size, |store.recs|, id + 1)
  {
    store.CacheFits();
    if right {
      ScanRead(store.cache, store.size, store.recs, id);
    }
    rec := store.GetNolock(id);
  }

  /** The loop over the file, through the buffered store. A scan from record 0 is never trapped, whatever was read before;
      a later start only if the first read is not. */
  method ReadFile(dec: Decoder, store: TypedStore, lo: nat, hi: nat) returns (out: Option<seq<FuncLog>>)
    requires store.Valid() && hi <= |store.recs|
    modifies store.parts
    ensures store.Valid() && fresh(store.parts - old(store.parts)) && store.recs == old(store.recs)
    ensures ScanCanStart(old(store.cache), store.size, |store.recs|, lo) ==>
              out == if lo >= hi then Some([]) else FileHalf(dec, store.recs, lo, hi)
  {
    var logs := [];
    var id := lo;
    ghost var right := ScanCanStart(store.cache, store.size, |store.recs|, lo);
    while id < hi
      invariant store.Valid() && fresh(store.parts - old(store.parts)) && store.recs == old(store.recs)
      invariant lo <= id && (lo < hi ==> id <= hi)
      invariant right ==> ScanCanStart(store.cache, store.size, |store.recs|, id)
      invariant right ==> if lo < hi then FileHalf(dec, store.recs, lo, id) == Some(logs) else logs == []
    {
      var rec := GetNext(store, id, right);
      if rec.None? {
        return None;
      }
      var parsed := dec(rec.value);
      if parsed.Panic? {
        if right {
          FileHalfStuck(dec, store.recs, lo, id + 1, hi);
        }
        return None;
      }
      logs := logs + [parsed.value];
      id := id + 1;
    }
    return Some(logs);
  }

  /** The loop over the simulator's map. */
  method ReadMemory(memory: map<int, FuncLog>, ids: seq<int>, from: int) returns (logs: seq<FuncLog>)
    requires forall j :: 0 <= j < |ids| ==> ids[j] in memory
    ensures logs == MemoryHalf(memory, ids, from)
  {
    logs := [];
    for i := 0 to |ids|
      invariant logs == MemoryHalf(memory, ids[..i], from)
    {
      assert ids[..i + 1][..i] == ids[..i];
      if memory[ids[i]].id >= from {
        logs := logs + [memory[ids[i]]];
      }
    }
    assert ids[..|ids|] == ids;
  }

  /** readFuncLog: ids minId..maxId from the file (negative bounds mean everything), then the simulator's logs from
      maxId on. An unreadable record ends the read with an error. A read of everything lists what the store holds,
      whatever state the read cache is in; a read from a later id does if its first read is not trapped. */
  method ReadFuncLog(dec: Decoder, store: TypedStore, minId: int, maxId: int, memory: map<int, FuncLog>)
      returns (out: Option<seq<FuncLog>>, order: seq<int>)
    requires store.Valid()
    modifies store.parts
    ensures store.Valid() && fresh(store.parts - old(store.parts)) && store.recs == old(store.recs)
    ensures Enumerates(order, memory.Keys) && forall j :: 0 <= j < |order| ==> order[j] in memory
    ensures minId <= 0 || ScanCanStart(old(store.cache), store.size, |store.recs|, minId) ==>
              out == Listing(dec, store.recs, minId, maxId, memory, order)
  {
    var ids := KeysInSomeOrder(memory.Keys);
    forall j | 0 <= j < |ids| ensures ids[j] in memory {
      var k := ids[j];
      assert k in ids && k in memory.Keys;
    }
    order := ids;
    var n := store.Records();
    var lo := if minId < 0 then 0 else minId;
    var hi := if maxId < 0 || n < maxId then n else maxId;
    var head := ReadFile(dec, store, lo, hi);
    if head.None? {
      return None, order;
    }
    var rest := ReadMemory(memory, ids, hi);
    out := Some(head.value + rest);
  }
}

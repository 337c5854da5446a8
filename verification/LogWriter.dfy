/** logWriteWorker of cmd/server_run.go as an object: the simulator in memory and two buffered record stores. */
module LogWriter {
  import opened Types
  import opened Codec
  import opened Records
  import opened Store
  import opened Stores
  import opened Simulator
  import opened CallStack
  import opened Worker
  import SpanMeaning

  // ---------- setting records through the buffered store ----------

  /** The listed records, as they are once encoded and zero-padded. */
  ghost predicate Encodes(encoded: map<int, Bytes>, records: map<int, Bytes>, ids: seq<int>, size: nat) {
    && Within(ids, records)
    && forall j :: 0 <= j < |ids| ==>
         ids[j] in encoded && |encoded[ids[j]]| <= size && records[ids[j]] == Pad(encoded[ids[j]], size)
  }

  /** A store that can be written and has records of the given size. */
  ghost predicate Writable(store: TypedStore, size: nat)
    reads store, store.parts
  {
    store.Valid() && !store.store.readOnly && store.size == size
  }

  /** SetNolock for every listed index. */
  method SetAll(store: TypedStore, ghost size: nat, encoded: map<int, Bytes>, ghost records: map<int, Bytes>, ids: seq<int>)
    requires Writable(store, size) && Encodes(encoded, records, ids, size)
    modifies store.parts
    ensures Writable(store, size) && fresh(store.parts - old(store.parts))
    ensures store.recs == WriteAll(old(store.recs), size, records, ids)
  {
    ghost var init := store.recs;
    for i := 0 to |ids|
      invariant Writable(store, size) && fresh(store.parts - old(store.parts))
      invariant store.recs == WriteAll(init, size, records, ids[..i])
    {
      assert ids[..i + 1][..i] == ids[..i];
      var w := store.SetNolock(ids[i], encoded[ids[i]]);
    }
    assert ids[..|ids|] == ids;
  }

  lemma LogsEncode(s: Sim, encoded: map<int, Bytes>, ids: seq<int>)
    requires CanFlush(s) && Enumerates(ids, s.funcLogs.Keys)
    requires encoded == map id | id in s.funcLogs :: EncFuncLog(s.funcLogs[id])
    ensures Encodes(encoded, LogRecords(s), ids, SIZE_FUNC_LOG)
  {
    LogsWithin(s, ids);
    forall j | 0 <= j < |ids| ensures |EncFuncLog(s.funcLogs[ids[j]])| <= SIZE_FUNC_LOG {
      FuncLogFits(s.funcLogs[ids[j]]);
    }
  }

  lemma GoroutinesEncode(s: Sim, encoded: map<int, Bytes>, gids: seq<int>)
    requires CanFlush(s) && Enumerates(gids, GoroutineKeys(s))
    requires encoded == map g: int | g in GoroutineKeys(s) :: EncGoroutine(s.goroutines[g])
    ensures Encodes(encoded, GoroutineRecords(s), gids, SIZE_GOROUTINE)
  {
    GoroutinesWithin(s, gids);
  }

  // ---------- the worker ----------

  /** True of everything: mentioning it opens Follows and Stored. */
  predicate Shown(b: bool) {
    true
  }

  class LogWriteWorker {
    const ss: StateSimulator
    const logs: TypedStore
    const goroutines: TypedStore

    ghost predicate Valid()
      reads this, logs, logs.parts, goroutines, goroutines.parts
    {
      && Writable(logs, SIZE_FUNC_LOG) && Writable(goroutines, SIZE_GOROUTINE)
      && logs.parts !! goroutines.parts && ss !in logs.parts && ss !in goroutines.parts
    }

    /** The world of the reference: what is in memory and what the stores hold, buffered or not. */
    ghost function State(): World
      requires Valid()
      reads this, ss, logs, logs.parts, goroutines, goroutines.parts
    {
      World(ss.Model(), logs.recs, goroutines.recs)
    }

    /** The world agrees with the reference and has lost no call. */
    ghost predicate Follows(r: Ref)
      requires Valid()
      reads this, ss, logs, logs.parts, goroutines, goroutines.parts
    {
      forall b {:trigger Shown(b)} :: Shown(b) ==> WorldOk(State(), r)
    }

    /** What the stores hold decodes to the reference. */
    ghost predicate Stored(r: Ref)
      requires Valid()
      reads this, ss, logs, logs.parts, goroutines, goroutines.parts
    {
      forall b {:trigger Shown(b)} :: Shown(b) ==> Decodes(State(), r)
    }

    /** The stores have just been opened on empty files. */
    constructor (logs: TypedStore, goroutines: TypedStore)
      requires Writable(logs, SIZE_FUNC_LOG) && Writable(goroutines, SIZE_GOROUTINE) && logs.parts !! goroutines.parts
      requires logs.recs == [] && goroutines.recs == []
      ensures Valid() && State() == InitWorld && fresh(ss) && this.logs == logs && this.goroutines == goroutines
    {
      ss := new StateSimulator();
      this.logs, this.goroutines := logs, goroutines;
    }

    /** The first half of writeSS: every call log in memory is set in the call store. */
    method WriteFuncLogs(ids: seq<int>)
      requires Valid() && CanFlush(ss.Model()) && Enumerates(ids, ss.funcLogs.Keys)
      modifies logs.parts
      ensures Valid() && fresh(logs.parts - old(logs.parts)) && Within(ids, LogRecords(ss.Model()))
      ensures logs.recs == WriteAll(old(logs.recs), SIZE_FUNC_LOG, LogRecords(ss.Model()), ids)
    {
      var encoded := map id | id in ss.funcLogs :: EncFuncLog(ss.funcLogs[id]);
      LogsEncode(ss.Model(), encoded, ids);
      SetAll(logs, SIZE_FUNC_LOG, encoded, LogRecords(ss.Model()), ids);
    }

    /** The second half of writeSS: every goroutine is set in the goroutine store. */
    method WriteGoroutines(gids: seq<int>)
      requires Valid() && CanFlush(ss.Model()) && Enumerates(gids, GoroutineKeys(ss.Model()))
      modifies goroutines.parts
      ensures Valid() && fresh(goroutines.parts - old(goroutines.parts)) && Within(gids, GoroutineRecords(ss.Model()))
      ensures goroutines.recs == WriteAll(old(goroutines.recs), SIZE_GOROUTINE, GoroutineRecords(ss.Model()), gids)
    {
      var keys := set g: Int64 | g in ss.goroutines :: g as int;
      var encoded := map g: int | g in keys :: EncGoroutine(ss.goroutines[g]);
      GoroutinesEncode(ss.Model(), encoded, gids);
      SetAll(goroutines, SIZE_GOROUTINE, encoded, GoroutineRecords(ss.Model()), gids);
    }

    /** Both halves, in some order of the two maps. */
    method WriteBoth() returns (ghost ids: seq<int>, ghost gids: seq<int>)
      requires Valid() && CanFlush(ss.Model())
      modifies logs.parts, goroutines.parts
      ensures Valid()
      ensures fresh(logs.parts - old(logs.parts)) && fresh(goroutines.parts - old(goroutines.parts))
      ensures Enumerates(ids, ss.funcLogs.Keys) && Enumerates(gids, GoroutineKeys(ss.Model()))
      ensures Within(ids, LogRecords(ss.Model())) && Within(gids, GoroutineRecords(ss.Model()))
      ensures logs.recs == WriteAll(old(logs.recs), SIZE_FUNC_LOG, LogRecords(ss.Model()), ids)
      ensures goroutines.recs == WriteAll(old(goroutines.recs), SIZE_GOROUTINE, GoroutineRecords(ss.Model()), gids)
    {
      var order := KeysInSomeOrder(ss.funcLogs.Keys);
      var gorder := KeysInSomeOrder(set g: Int64 | g in ss.goroutines :: g as int);
      ids, gids := order, gorder;
      WriteFuncLogs(order);
      WriteGoroutines(gorder);
    }

    /** writeSS as one step of the reference world. */
    method FlushAll() returns (ghost ids: seq<int>, ghost gids: seq<int>)
      requires Valid() && CanFlush(ss.Model())
      modifies ss, logs.parts, goroutines.parts
      ensures Valid()
      ensures fresh(logs.parts - old(logs.parts)) && fresh(goroutines.parts - old(goroutines.parts))
      ensures Flushable(old(ss.Model()), ids, gids) && State() == FlushStep(old(State()), ids, gids)
    {
      ids, gids := WriteBoth();
      ss.Clear();
    }

    /** writeSS: everything in memory goes to the stores, then the finished calls leave memory; what the stores hold then
        decodes to the reference. */
    method WriteSS(ghost r: Ref)
      requires Valid() && Follows(r) && Indexable(r)
      modifies ss, logs.parts, goroutines.parts
      ensures Valid() && Follows(r) && Stored(r)
      ensures fresh(logs.parts - old(logs.parts)) && fresh(goroutines.parts - old(goroutines.parts))
    {
      assert Shown(true);
      ghost var w := State();
      WorldCanFlush(w, r);
      ghost var ids, gids := FlushAll();
      FlushOk(w, r, ids, gids);
      FlushDecodes(w, r, ids, gids);
    }

    /** One event goes to the simulator; a legal one does not make it panic. */
    method Receive(raw: RawFuncLog, ghost r: Ref)
      requires Valid() && Follows(r) && Legal(r, raw)
      modifies ss
      ensures Valid() && Follows(RefStep(r, raw))
      ensures State().logs == old(State().logs) && State().goroutines == old(State().goroutines)
    {
      assert Shown(true);
      EventKept(State(), r, raw);
      NextAgrees(State().sim, r, raw);
      var done := ss.Next(raw);
      assert done == Done;
    }

    /** One message: an event is counted and may fill the quota, a write request flushes at once. */
    method Handle(m: Message, flCount: nat, ghost r: Ref) returns (count: nat)
      requires Valid() && Follows(r) && (m.RawLog? ==> Legal(r, m.raw)) && Indexable(AfterMessage(r, m))
      modifies ss, logs.parts, goroutines.parts
      ensures Valid() && Follows(AfterMessage(r, m))
      ensures fresh(logs.parts - old(logs.parts)) && fresh(goroutines.parts - old(goroutines.parts))
      ensures count == if m.Symbols? then flCount else if m.RawLog? && flCount + 1 < FL_COUNT_MAX then flCount + 1 else 0
      ensures count == 0 && !m.Symbols? ==> Stored(AfterMessage(r, m))
    {
      match m {
        case RawLog(raw) => count := HandleEvent(raw, flCount, r);
        case Symbols => count := flCount;
        case WriteRequest =>
          WriteSS(r);
          count := 0;
      }
    }

    method HandleEvent(raw: RawFuncLog, flCount: nat, ghost r: Ref) returns (count: nat)
      requires Valid() && Follows(r) && Legal(r, raw) && Indexable(RefStep(r, raw))
      modifies ss, logs.parts, goroutines.parts
      ensures Valid() && Follows(RefStep(r, raw))
      ensures fresh(logs.parts - old(logs.parts)) && fresh(goroutines.parts - old(goroutines.parts))
      ensures count == if flCount + 1 < FL_COUNT_MAX then flCount + 1 else 0
      ensures count == 0 ==> Stored(RefStep(r, raw))
    {
      Receive(raw, r);
      count := flCount + 1;
      if count >= FL_COUNT_MAX {
        WriteSS(RefStep(r, raw));
        count := 0;
      }
    }

    /** The main loop, the flush deferred to its end and the closing of the log. A flush also happens on request and after
        every FL_COUNT_MAX events. For a legal event stream no call panics, and the two files themselves end up decoding to
        the reference. */
    method Run(messages: seq<Message>)
      requires Valid() && State() == InitWorld
      requires LegalEvents(RawLogs(messages)) && forall i :: 0 <= i < |messages| && messages[i].RawLog? ==> messages[i].raw.gid >= 0
      modifies ss, logs.parts, goroutines.parts
      ensures var files := World(ss.Model(), RecordsOf(logs.store.file.content, SIZE_FUNC_LOG),
                                 RecordsOf(goroutines.store.file.content, SIZE_GOROUTINE));
              Decodes(files, RefOf(RawLogs(messages))) && SpanMeaning.FilesMean(files, RawLogs(messages))
    {
      StartFollows();
      var flCount: nat := 0;
      for i := 0 to |messages|
        invariant Valid() && Follows(RefOf(RawLogs(messages[..i])))
        invariant fresh(logs.parts - old(logs.parts)) && fresh(goroutines.parts - old(goroutines.parts))
      {
        MessageLegal(messages, i);
        MessagesIndexable(messages, i + 1);
        flCount := Handle(messages[i], flCount, RefOf(RawLogs(messages[..i])));
      }
      assert messages[..|messages|] == messages;
      MessagesIndexable(messages, |messages|);
      Finish(RefOf(RawLogs(messages)));
      SpanMeaning.DecodesMeansEvents(World(ss.Model(), RecordsOf(logs.store.file.content, SIZE_FUNC_LOG),
                                           RecordsOf(goroutines.store.file.content, SIZE_GOROUTINE)), RawLogs(messages));
    }

    lemma StartFollows()
      requires Valid() && State() == InitWorld
      ensures Follows(InitRef)
    {
      InitAgrees();
    }

    /** What the worker defers to its end. */
    method Finish(ghost r: Ref)
      requires Valid() && Follows(r) && Indexable(r)
      modifies ss, logs.parts, goroutines.parts
      ensures var files := World(ss.Model(), RecordsOf(logs.store.file.content, SIZE_FUNC_LOG),
                                 RecordsOf(goroutines.store.file.content, SIZE_GOROUTINE));
              Decodes(files, r)
    {
      WriteSS(r);
      assert Shown(true);
      Close();
    }

    /** Closing flushes both write buffers. */
    method Close()
      requires Valid()
      modifies logs.parts, goroutines.parts
      ensures logs.store.closed && goroutines.store.closed
      ensures RecordsOf(logs.store.file.content, SIZE_FUNC_LOG) == old(logs.recs)
      ensures RecordsOf(goroutines.store.file.content, SIZE_GOROUTINE) == old(goroutines.recs)
    {
      logs.Close();
      goroutines.Close();
    }
  }
}

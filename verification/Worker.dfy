/** The log writer of cmd/server_run.go: events go to the simulator, and from time to time everything in memory is
    written to the record files and the finished calls are dropped. The end-to-end result: after a final flush, every
    record decodes to the log that the never-cleared call stacks give. */
module Worker {
  import opened Types
  import opened Codec
  import opened Records
  import opened Simulator
  import opened CallStack

  /** The bytes SetNolock stores for a call log. */
  function LogRecord(f: FuncLog): Bytes
    requires |f.frames| <= MAX_STACK_SIZE
  {
    FuncLogFits(f);
    Pad(EncFuncLog(f), SIZE_FUNC_LOG)
  }

  lemma StoredDecodes(f: FuncLog)
    requires Storable(f)
    ensures DecFuncLog(LogRecord(f)) == Parsed(f, |EncFuncLog(f)|)
  {
    FuncLogFits(f);
    RoundTripFuncLog(f, Zeros(SIZE_FUNC_LOG - |EncFuncLog(f)|));
  }

  function GoroutineRecord(g: Goroutine): Bytes {
    Pad(EncGoroutine(g), SIZE_GOROUTINE)
  }

  /** The simulator together with the contents of the two record files. */
  datatype World = World(sim: Sim, logs: seq<Bytes>, goroutines: seq<Bytes>)

  /** One event, or one flush that happens to range over the two maps in the given orders. */
  datatype Step = Event(raw: RawFuncLog) | Flush(order: seq<int>, gorder: seq<int>)

  const InitWorld := World(InitSim, [], [])

  ghost function LogRecords(s: Sim): map<int, Bytes>
    requires forall id :: id in s.funcLogs ==> |s.funcLogs[id].frames| <= MAX_STACK_SIZE
  {
    map id | id in s.funcLogs :: LogRecord(s.funcLogs[id])
  }

  ghost function GoroutineKeys(s: Sim): set<int> {
    set g: Int64 | g in s.goroutines :: g as int
  }

  ghost function GoroutineRecords(s: Sim): map<int, Bytes> {
    map g: int | g in GoroutineKeys(s) :: GoroutineRecord(s.goroutines[g])
  }

  /** The flush can run: the orders enumerate the maps, every index is a position, every log fits its record. */
  ghost predicate Flushable(s: Sim, order: seq<int>, gorder: seq<int>) {
    Enumerates(order, s.funcLogs.Keys) && Enumerates(gorder, GoroutineKeys(s)) && CanFlush(s)
  }

  /** Any order of the two maps can be flushed. */
  ghost predicate CanFlush(s: Sim) {
    && (forall id :: id in s.funcLogs ==> id >= 0 && |s.funcLogs[id].frames| <= MAX_STACK_SIZE)
    && forall g :: g in s.goroutines ==> g >= 0
  }

  lemma LogsWithin(s: Sim, order: seq<int>)
    requires CanFlush(s) && Enumerates(order, s.funcLogs.Keys)
    ensures Within(order, LogRecords(s))
  {
    forall j | 0 <= j < |order| ensures order[j] in LogRecords(s) && order[j] >= 0 {
      var k := order[j];
      assert k in order && k in s.funcLogs.Keys;
    }
  }

  lemma GoroutinesWithin(s: Sim, gorder: seq<int>)
    requires CanFlush(s) && Enumerates(gorder, GoroutineKeys(s))
    ensures Within(gorder, GoroutineRecords(s))
  {
    forall j | 0 <= j < |gorder| ensures gorder[j] in GoroutineRecords(s) && gorder[j] >= 0 {
      var k := gorder[j];
      assert k in gorder && k in GoroutineKeys(s);
    }
  }

  lemma FlushWithin(s: Sim, order: seq<int>, gorder: seq<int>)
    requires Flushable(s, order, gorder)
    ensures Within(order, LogRecords(s)) && Within(gorder, GoroutineRecords(s))
  {
    LogsWithin(s, order);
    GoroutinesWithin(s, gorder);
  }

  /** writeSS: both maps are written out, then Clear. */
  ghost function FlushStep(w: World, order: seq<int>, gorder: seq<int>): World
    requires Flushable(w.sim, order, gorder)
  {
    FlushWithin(w.sim, order, gorder);
    World(ClearStep(w.sim),
          WriteAll(w.logs, SIZE_FUNC_LOG, LogRecords(w.sim), order),
          WriteAll(w.goroutines, SIZE_GOROUTINE, GoroutineRecords(w.sim), gorder))
  }

  // ---------- runs ----------

  ghost predicate LegalStep(w: World, r: Ref, step: Step) {
    match step
    case Event(raw) => Legal(r, raw)
    case Flush(order, gorder) =>
      Enumerates(order, w.sim.funcLogs.Keys) && Enumerates(gorder, GoroutineKeys(w.sim)) && Indexable(r)
  }

  /** Every goroutine id can be a record index; setting a record at a negative index panics. */
  ghost predicate Indexable(r: Ref) {
    forall g :: g in r.spans ==> g >= 0
  }

  ghost function WorldStep(w: World, step: Step): World {
    match step
    case Event(raw) => w.(sim := NextStep(w.sim, raw).0)
    case Flush(order, gorder) => if Flushable(w.sim, order, gorder) then FlushStep(w, order, gorder) else w
  }

  ghost function EventsOf(steps: seq<Step>): seq<RawFuncLog> {
    if steps == [] then []
    else
      var before := EventsOf(steps[..|steps| - 1]);
      match steps[|steps| - 1]
      case Event(raw) => before + [raw]
      case Flush(_, _) => before
  }

  ghost function RunRef(steps: seq<Step>): Ref {
    RefOf(EventsOf(steps))
  }

  ghost function RunWorld(steps: seq<Step>): World {
    if steps == [] then InitWorld
    else WorldStep(RunWorld(steps[..|steps| - 1]), steps[|steps| - 1])
  }

  /** Every event is legal when it arrives, and every flush ranges over the maps as they then are and can write them. */
  ghost predicate LegalRun(steps: seq<Step>) {
    steps == [] ||
    var before := steps[..|steps| - 1];
    LegalRun(before) && LegalStep(RunWorld(before), RunRef(before), steps[|steps| - 1])
  }

  // ---------- what every reachable state keeps ----------

  /** Call id is in memory, or its final log is in the file. */
  ghost predicate Kept(s: Sim, file: seq<Bytes>, r: Ref, id: int)
    requires LogsOk(r) && 0 <= id < |r.logs|
  {
    id in s.funcLogs || (id < |file| && file[id] == LogRecord(r.logs[id]))
  }

  /** rec holds log f, or f as it was while still running. */
  ghost predicate Snapshot(rec: Bytes, f: FuncLog)
    requires |f.frames| <= MAX_STACK_SIZE
  {
    rec == LogRecord(f) || rec == LogRecord(f.(endTime := NOT_ENDED))
  }

  ghost predicate AllKept(s: Sim, file: seq<Bytes>, r: Ref)
    requires LogsOk(r)
  {
    && |file| <= |r.logs|
    && (forall id :: 0 <= id < |file| ==> Snapshot(file[id], r.logs[id]))
    && forall id :: 0 <= id < |r.logs| ==> Kept(s, file, r, id)
  }

  ghost predicate WorldOk(w: World, r: Ref) {
    Agrees(w.sim, r) && AllKept(w.sim, w.logs, r)
  }

  lemma AgreesFlushable(s: Sim, r: Ref, order: seq<int>, gorder: seq<int>)
    requires LogsOk(r) && LogsAgree(s, r) && s.goroutines == r.spans && Indexable(r)
    requires Enumerates(order, s.funcLogs.Keys) && Enumerates(gorder, GoroutineKeys(s))
    ensures Flushable(s, order, gorder)
  {
  }

  lemma StartKept(s: Sim, file: seq<Bytes>, r: Ref, raw: RawFuncLog)
    requires LogsOk(r) && LogsOk(RefStart(r, raw)) && LogsAgree(s, r) && AllKept(s, file, r)
    requires StartStep(s, raw).1 == Done
    ensures AllKept(StartStep(s, raw).0, file, RefStart(r, raw))
  {
    var r' := RefStart(r, raw);
    forall id | 0 <= id < |r'.logs| ensures Kept(StartStep(s, raw).0, file, r', id) {
      if id < |r.logs| {
        assert Kept(s, file, r, id);
      }
    }
  }

  lemma EndKept(s: Sim, file: seq<Bytes>, r: Ref, raw: RawFuncLog)
    requires raw.tag == FUNC_END && Legal(r, raw)
    requires LogsOk(r) && LogsOk(RefEnd(r, raw)) && AllKept(s, file, r) && EndStep(s, raw).1 == Done
    requires s.txids[raw.txid] == Top(Stack(r, raw.gid))
    requires 0 <= Top(Stack(r, raw.gid)) < |r.logs| && r.logs[Top(Stack(r, raw.gid))].endTime == NOT_ENDED
    ensures AllKept(EndStep(s, raw).0, file, RefEnd(r, raw))
  {
    var r' := RefEnd(r, raw);
    forall id | 0 <= id < |r'.logs| ensures Kept(EndStep(s, raw).0, file, r', id) {
      assert Kept(s, file, r, id);
    }
  }

  lemma EventKept(w: World, r: Ref, raw: RawFuncLog)
    requires WorldOk(w, r) && Legal(r, raw)
    ensures WorldOk(w.(sim := NextStep(w.sim, raw).0), RefStep(r, raw))
  {
    NextAgrees(w.sim, r, raw);
    if raw.tag == FUNC_START {
      StartKept(w.sim, w.logs, r, raw);
    } else {
      EndFinds(w.sim, r, raw);
      TopRunning(w.sim, r, raw.gid);
      EndKept(w.sim, w.logs, r, raw);
    }
  }

  /** What one flush leaves in the call file. */
  lemma FlushWritesLogs(s: Sim, file: seq<Bytes>, r: Ref, order: seq<int>)
    requires LogsOk(r) && LogsAgree(s, r) && AllKept(s, file, r)
    requires Enumerates(order, s.funcLogs.Keys) && Within(order, LogRecords(s))
    ensures var out := WriteAll(file, SIZE_FUNC_LOG, LogRecords(s), order);
            && |out| == |r.logs|
            && forall id :: 0 <= id < |r.logs| ==> out[id] == LogRecord(r.logs[id])
  {
    var out := WriteAll(file, SIZE_FUNC_LOG, LogRecords(s), order);
    WriteAllResult(file, SIZE_FUNC_LOG, LogRecords(s), order);
    forall id | 0 <= id < |r.logs| ensures id < |out| && out[id] == LogRecord(r.logs[id]) {
      assert Kept(s, file, r, id);
      if id in s.funcLogs {
        assert id in s.funcLogs.Keys && id in order;
      }
    }
    assert |r.logs| > 0 ==> r.logs[|r.logs| - 1] == r.logs[|r.logs| - 1] && |r.logs| - 1 < |out|;
  }

  lemma FlushWritesGoroutines(s: Sim, file: seq<Bytes>, gorder: seq<int>)
    requires Enumerates(gorder, GoroutineKeys(s)) && Within(gorder, GoroutineRecords(s))
    requires forall g :: g in s.goroutines ==> g >= 0
    ensures var out := WriteAll(file, SIZE_GOROUTINE, GoroutineRecords(s), gorder);
            forall g :: g in s.goroutines ==> g < |out| && out[g] == GoroutineRecord(s.goroutines[g])
  {
    WriteAllResult(file, SIZE_GOROUTINE, GoroutineRecords(s), gorder);
    forall g | g in s.goroutines
      ensures g < |WriteAll(file, SIZE_GOROUTINE, GoroutineRecords(s), gorder)|
      ensures WriteAll(file, SIZE_GOROUTINE, GoroutineRecords(s), gorder)[g] == GoroutineRecord(s.goroutines[g])
    {
      var k: int := g;
      assert k in GoroutineKeys(s) && k in gorder;
    }
  }

  /** What one flush leaves in the files: one record per call ever started, and the interval of every goroutine. */
  lemma FlushWrites(w: World, r: Ref, order: seq<int>, gorder: seq<int>)
    requires WorldOk(w, r) && Enumerates(order, w.sim.funcLogs.Keys) && Enumerates(gorder, GoroutineKeys(w.sim)) && Indexable(r)
    ensures Flushable(w.sim, order, gorder)
    ensures var w' := FlushStep(w, order, gorder);
            && |w'.logs| == |r.logs|
            && (forall id :: 0 <= id < |r.logs| ==> w'.logs[id] == LogRecord(r.logs[id]))
            && forall g :: g in r.spans ==>
                 0 <= g < |w'.goroutines| && w'.goroutines[g] == GoroutineRecord(r.spans[g])
  {
    AgreesFlushable(w.sim, r, order, gorder);
    FlushWithin(w.sim, order, gorder);
    FlushWritesLogs(w.sim, w.logs, r, order);
    FlushWritesGoroutines(w.sim, w.goroutines, gorder);
  }

  lemma WorldCanFlush(w: World, r: Ref)
    requires WorldOk(w, r) && Indexable(r)
    ensures CanFlush(w.sim)
  {
  }

  lemma FlushOk(w: World, r: Ref, order: seq<int>, gorder: seq<int>)
    requires WorldOk(w, r) && Enumerates(order, w.sim.funcLogs.Keys) && Enumerates(gorder, GoroutineKeys(w.sim)) && Indexable(r)
    ensures Flushable(w.sim, order, gorder) && WorldOk(FlushStep(w, order, gorder), r)
  {
    FlushWrites(w, r, order, gorder);
    ClearAgrees(w.sim, r);
  }

  /** Every state a legal run reaches agrees with the reference and has lost no call. */
  lemma {:induction false} ReachableOk(steps: seq<Step>)
    requires LegalRun(steps)
    ensures WorldOk(RunWorld(steps), RunRef(steps))
  {
    if steps == [] {
      InitAgrees();
    } else {
      var before, step := steps[..|steps| - 1], steps[|steps| - 1];
      ReachableOk(before);
      var w, r := RunWorld(before), RunRef(before);
      match step {
        case Event(raw) =>
          EventKept(w, r, raw);
          assert (EventsOf(before) + [raw])[..|EventsOf(before)|] == EventsOf(before);
        case Flush(order, gorder) => FlushOk(w, r, order, gorder);
      }
    }
  }

  /** In every state a legal run reaches, every open transaction is that of a running call. */
  lemma {:induction false} ReachableTxids(steps: seq<Step>)
    requires LegalRun(steps)
    ensures TxidsRunning(RunWorld(steps).sim, RunRef(steps))
  {
    if steps != [] {
      var before, step := steps[..|steps| - 1], steps[|steps| - 1];
      ReachableTxids(before);
      ReachableOk(before);
      var w, r := RunWorld(before), RunRef(before);
      match step {
        case Event(raw) =>
          NextAgrees(w.sim, r, raw);
          NextTxids(w.sim, r, raw);
          assert (EventsOf(before) + [raw])[..|EventsOf(before)|] == EventsOf(before);
        case Flush(order, gorder) => FlushOk(w, r, order, gorder);
      }
    }
  }

  /** In every state a legal run reaches, and after a Clear there, following ParentID from a goroutine's recorded stack
      top visits exactly its running calls, innermost first; and the open transactions are in bijection with the running
      calls. */
  lemma ReachableStacks(steps: seq<Step>, g: Int64)
    requires LegalRun(steps)
    ensures var s, r := RunWorld(steps).sim, RunRef(steps);
            && (g in s.goroutines ==>
                  && g in s.stacks
                  && ParentWalk(s.funcLogs, s.stacks[g]) == Some(InnermostFirst(Stack(r, g)))
                  && ParentWalk(ClearStep(s).funcLogs, s.stacks[g]) == Some(InnermostFirst(Stack(r, g))))
            && (forall t, u :: t in s.txids && u in s.txids && s.txids[t] == s.txids[u] ==> t == u)
            && (forall t, id :: Transaction(s, t, id) <==> RunningCall(r, t, id))
  {
    var s, r := RunWorld(steps).sim, RunRef(steps);
    ReachableOk(steps);
    ReachableTxids(steps);
    TxidsBijection(s, r);
    if g in s.goroutines {
      StackTopWalk(s, r, g);
    }
  }

  lemma RecordsDecode(w: World, r: Ref)
    requires LogsOk(r) && SpansOk(r) && |w.logs| == |r.logs|
    requires forall id :: 0 <= id < |r.logs| ==> w.logs[id] == LogRecord(r.logs[id])
    requires forall g :: g in r.spans ==>
               0 <= g < |w.goroutines| && w.goroutines[g] == GoroutineRecord(r.spans[g])
    ensures Decodes(w, r)
  {
    forall id | 0 <= id < |r.logs| && id < TWO63
      ensures DecFuncLog(w.logs[id]) == Parsed(r.logs[id], |EncFuncLog(r.logs[id])|)
    {
      StoredDecodes(r.logs[id]);
    }
    forall g | g in r.spans ensures DecGoroutine(w.goroutines[g]) == Parsed(r.spans[g], SIZE_GOROUTINE) {
      RoundTripGoroutine(r.spans[g], []);
      assert GoroutineRecord(r.spans[g]) == EncGoroutine(r.spans[g]) + [];
    }
  }

  /** The call file has exactly one record per call ever started and record id decodes to call id's reference log;
      likewise for the goroutine file. Ids are Go int64 values, so decoding is claimed for ids below 2^63. */
  ghost predicate Decodes(w: World, r: Ref) {
    && |w.logs| == |r.logs|
    && (forall id :: 0 <= id < |r.logs| && id < TWO63 ==>
          DecFuncLog(w.logs[id]) == Parsed(r.logs[id], |EncFuncLog(r.logs[id])|))
    && (forall g :: g in r.spans ==>
          0 <= g < |w.goroutines| && DecGoroutine(w.goroutines[g]) == Parsed(r.spans[g], SIZE_GOROUTINE))
  }

  lemma FlushDecodes(w: World, r: Ref, order: seq<int>, gorder: seq<int>)
    requires WorldOk(w, r) && Enumerates(order, w.sim.funcLogs.Keys) && Enumerates(gorder, GoroutineKeys(w.sim)) && Indexable(r)
    ensures Flushable(w.sim, order, gorder) && Decodes(FlushStep(w, order, gorder), r)
  {
    FlushWrites(w, r, order, gorder);
    RecordsDecode(FlushStep(w, order, gorder), r);
  }

  /** However events and flushes were interleaved, after a last flush the files decode to the reference. */
  lemma FlushedStoreIsReference(steps: seq<Step>, order: seq<int>, gorder: seq<int>)
    requires LegalRun(steps + [Flush(order, gorder)])
    ensures var w, r := RunWorld(steps + [Flush(order, gorder)]), RefOf(EventsOf(steps));
            Decodes(w, r) && w.sim.nextID == |r.logs|
  {
    var all := steps + [Flush(order, gorder)];
    assert all[..|all| - 1] == steps;
    ReachableOk(steps);
    FlushDecodes(RunWorld(steps), RunRef(steps), order, gorder);
  }

  // ---------- the worker itself ----------

  /** What arrives on the worker's channels. */
  datatype Message = RawLog(raw: RawFuncLog) | Symbols | WriteRequest

  function RawLogs(messages: seq<Message>): seq<RawFuncLog> {
    if messages == [] then []
    else
      var before := RawLogs(messages[..|messages| - 1]);
      match messages[|messages| - 1]
      case RawLog(raw) => before + [raw]
      case _ => before
  }

  const FL_COUNT_MAX := 1000000

  ghost function AfterMessage(r: Ref, m: Message): Ref
    requires m.RawLog? ==> Legal(r, m.raw)
  {
    if m.RawLog? then RefStep(r, m.raw) else r
  }

  lemma MessageLegal(messages: seq<Message>, i: nat)
    requires i < |messages| && LegalEvents(RawLogs(messages))
    ensures messages[i].RawLog? ==> Legal(RefOf(RawLogs(messages[..i])), messages[i].raw)
    ensures RefOf(RawLogs(messages[..i + 1])) == AfterMessage(RefOf(RawLogs(messages[..i])), messages[i])
  {
    PrefixLegal(messages, i + 1);
    var upTo, events := messages[..i + 1], RawLogs(messages[..i]);
    assert upTo[..i] == messages[..i];
    if messages[i].RawLog? {
      assert (events + [messages[i].raw])[..|events|] == events;
    }
  }

  lemma {:induction false} PrefixLegal(messages: seq<Message>, i: nat)
    requires i <= |messages| && LegalEvents(RawLogs(messages))
    ensures LegalEvents(RawLogs(messages[..i]))
    decreases |messages|
  {
    if i < |messages| {
      var n := |messages| - 1;
      var before := RawLogs(messages[..n]);
      if messages[n].RawLog? {
        assert (before + [messages[n].raw])[..|before|] == before;
      }
      PrefixLegal(messages[..n], i);
      assert messages[..n][..i] == messages[..i];
    } else {
      assert messages[..i] == messages;
    }
  }

  lemma {:induction false} EventsIndexable(events: seq<RawFuncLog>)
    requires LegalEvents(events) && forall i :: 0 <= i < |events| ==> events[i].gid >= 0
    ensures Indexable(RefOf(events))
  {
    if events != [] {
      EventsIndexable(events[..|events| - 1]);
    }
  }

  lemma {:induction false} RawLogsNonnegative(messages: seq<Message>)
    requires forall i :: 0 <= i < |messages| && messages[i].RawLog? ==> messages[i].raw.gid >= 0
    ensures forall k :: 0 <= k < |RawLogs(messages)| ==> RawLogs(messages)[k].gid >= 0
  {
    if messages != [] {
      RawLogsNonnegative(messages[..|messages| - 1]);
    }
  }

  lemma MessagesIndexable(messages: seq<Message>, i: nat)
    requires i <= |messages| && LegalEvents(RawLogs(messages))
    requires forall k :: 0 <= k < |messages| && messages[k].RawLog? ==> messages[k].raw.gid >= 0
    ensures Indexable(RefOf(RawLogs(messages[..i])))
  {
    PrefixLegal(messages, i);
    RawLogsNonnegative(messages[..i]);
    EventsIndexable(RawLogs(messages[..i]));
  }
}

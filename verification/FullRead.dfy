/** The reader of tracer/restapi: it lists the calls of a log from the record file and then from the running simulator. */
module FullRead {
  import opened Types
  import opened Codec
  import opened Records
  import opened Simulator
  import opened CallStack
  import opened Worker

  /** What GetNolock gives for the bytes of one record. */
  type Decoder = Bytes -> Parsed<FuncLog>

  /** The records lo..hi of the file, decoded; None when one does not decode. */
  function FileHalf(dec: Decoder, file: seq<Bytes>, lo: nat, hi: nat): Option<seq<FuncLog>>
    requires lo <= hi <= |file|
    decreases hi
  {
    if lo == hi then Some([])
    else
      var before, last := FileHalf(dec, file, lo, hi - 1), dec(file[hi - 1]);
      if before.None? || last.Panic? then None else Some(before.value + [last.value])
  }

  /** The logs in memory that the file half did not list, in iteration order. */
  function MemoryHalf(memory: map<int, FuncLog>, order: seq<int>, from: int): seq<FuncLog>
    requires forall j :: 0 <= j < |order| ==> order[j] in memory
  {
    if order == [] then []
    else
      var n := |order| - 1;
      var logs := MemoryHalf(memory, order[..n], from);
      if memory[order[n]].id < from then logs else logs + [memory[order[n]]]
  }

  /** What the reader lists for the given bounds, when the map is ranged over in the given order. */
  function Listing(dec: Decoder, file: seq<Bytes>, minId: int, maxId: int, memory: map<int, FuncLog>, order: seq<int>)
      : Option<seq<FuncLog>>
    requires forall j :: 0 <= j < |order| ==> order[j] in memory
  {
    var lo, hi := From(minId), Upto(maxId, |file|);
    var head := if lo >= hi then Some([]) else FileHalf(dec, file, lo, hi);
    if head.None? then None else Some(head.value + MemoryHalf(memory, order, hi))
  }

  /** Negative bounds ask for everything. */
  function From(minId: int): nat {
    if minId < 0 then 0 else minId
  }

  function Upto(maxId: int, records: nat): nat {
    if maxId < 0 || records < maxId then records else maxId
  }

  lemma {:induction false} FileHalfStuck(dec: Decoder, file: seq<Bytes>, lo: nat, mid: nat, hi: nat)
    requires lo <= mid <= hi <= |file| && FileHalf(dec, file, lo, mid) == None
    ensures FileHalf(dec, file, lo, hi) == None
    decreases hi
  {
    if mid < hi {
      FileHalfStuck(dec, file, lo, mid, hi - 1);
    }
  }

  /** The log f, or f as it was while still running. */
  predicate SameCall(g: FuncLog, f: FuncLog) {
    g == f || g == f.(endTime := NOT_ENDED)
  }

  lemma {:induction false} FileHalfLogs(dec: Decoder, file: seq<Bytes>, logs: seq<FuncLog>, lo: nat, hi: nat)
    requires lo <= hi <= |file| <= |logs|
    requires forall id :: 0 <= id < |file| ==> dec(file[id]).Parsed? && SameCall(dec(file[id]).value, logs[id])
    ensures var half := FileHalf(dec, file, lo, hi);
            && half.Some? && |half.value| == hi - lo
            && forall id :: lo <= id < hi ==> SameCall(half.value[id - lo], logs[id])
    decreases hi
  {
    if lo < hi {
      FileHalfLogs(dec, file, logs, lo, hi - 1);
    }
  }

  lemma RecordDecodes(rec: Bytes, f: FuncLog)
    requires Storable(f) && Snapshot(rec, f)
    ensures DecFuncLog(rec).Parsed? && SameCall(DecFuncLog(rec).value, f)
  {
    if rec == LogRecord(f) {
      StoredDecodes(f);
    } else {
      StoredDecodes(f.(endTime := NOT_ENDED));
    }
  }

  /** half lists exactly the keys of order from `from` on, each once. */
  ghost predicate MemoryPart(half: seq<FuncLog>, memory: map<int, FuncLog>, order: seq<int>, from: int) {
    && (forall k :: 0 <= k < |half| ==>
          from <= half[k].id && half[k].id in order && half[k].id in memory && half[k] == memory[half[k].id])
    && (forall i, k :: 0 <= i < k < |half| ==> half[i].id != half[k].id)
    && (forall id :: id in order && from <= id ==> Lists(half, id))
  }

  lemma {:induction false} MemoryHalfLogs(memory: map<int, FuncLog>, order: seq<int>, from: int)
    requires forall id :: id in memory ==> memory[id].id == id
    requires forall j :: 0 <= j < |order| ==> order[j] in memory
    requires forall i, j :: 0 <= i < j < |order| ==> order[i] != order[j]
    ensures MemoryPart(MemoryHalf(memory, order, from), memory, order, from)
  {
    if order != [] {
      var before, last := order[..|order| - 1], order[|order| - 1];
      MemoryHalfLogs(memory, before, from);
      var rest := MemoryHalf(memory, before, from);
      assert last !in before;
      assert before + [last] == order;
      MemoryPartExtend(rest, memory, before, from, last, order);
    }
  }

  lemma MemoryPartExtend(rest: seq<FuncLog>, memory: map<int, FuncLog>, before: seq<int>, from: int, last: int,
                         order: seq<int>)
    requires MemoryPart(rest, memory, before, from) && last in memory && memory[last].id == last && last !in before
    requires order == before + [last]
    ensures MemoryPart(if last < from then rest else rest + [memory[last]], memory, order, from)
  {
    var half := if last < from then rest else rest + [memory[last]];
    forall id | id in order && from <= id ensures Lists(half, id) {
      if id == last {
        assert half[|half| - 1].id == id;
      } else {
        var k :| 0 <= k < |rest| && rest[k].id == id;
        assert half[k].id == id;
      }
    }
  }

  ghost predicate Lists(out: seq<FuncLog>, id: int) {
    exists k :: 0 <= k < |out| && out[k].id == id
  }

  /** Every id from 0 to n-1 is listed exactly once. */
  ghost predicate ExactlyOnce(out: seq<FuncLog>, n: int) {
    && (forall k :: 0 <= k < |out| ==> 0 <= out[k].id < n)
    && (forall i, k :: 0 <= i < k < |out| ==> out[i].id != out[k].id)
    && (forall id :: 0 <= id < n ==> Lists(out, id))
  }

  /** Two listings laid end to end: the first by position from lo on, the second of later ids. */
  lemma JoinHalves(head: seq<FuncLog>, half: seq<FuncLog>, lo: nat, n: int)
    requires lo + |head| <= n || head == []
    requires forall k :: 0 <= k < |head| ==> head[k].id == lo + k
    requires forall k :: 0 <= k < |half| ==> 0 <= half[k].id < n && (head != [] ==> lo + |head| <= half[k].id)
    requires forall i, k :: 0 <= i < k < |half| ==> half[i].id != half[k].id
    ensures forall k :: 0 <= k < |head + half| ==> 0 <= (head + half)[k].id < n
    ensures forall i, k :: 0 <= i < k < |head + half| ==> (head + half)[i].id != (head + half)[k].id
    ensures forall id :: Lists(head + half, id) <==> lo <= id < lo + |head| || Lists(half, id)
  {
    var out := head + half;
    forall id ensures Lists(out, id) <==> lo <= id < lo + |head| || Lists(half, id) {
      if lo <= id < lo + |head| {
        assert out[id - lo].id == id;
      } else if Lists(half, id) {
        var k :| 0 <= k < |half| && half[k].id == id;
        assert out[|head| + k].id == id;
      }
    }
  }

  /** A read within bounds: the records from minId up to, and not including, maxId, and then every log in memory from
      where the file half stopped, whatever minId is. */
  lemma ListingWithin(dec: Decoder, s: Sim, file: seq<Bytes>, r: Ref, order: seq<int>, minId: int, maxId: int)
    requires LogsOk(r) && LogsAgree(s, r) && |file| <= |r.logs|
    requires Enumerates(order, s.funcLogs.Keys) && forall j :: 0 <= j < |order| ==> order[j] in s.funcLogs
    requires forall id :: 0 <= id < |file| ==> dec(file[id]).Parsed? && SameCall(dec(file[id]).value, r.logs[id])
    ensures var out, stop := Listing(dec, file, minId, maxId, s.funcLogs, order),
                             if 0 <= maxId < |file| then maxId else |file|;
            && out.Some?
            && (forall k :: 0 <= k < |out.value| ==> 0 <= out.value[k].id < s.nextID)
            && (forall i, k :: 0 <= i < k < |out.value| ==> out.value[i].id != out.value[k].id)
            && (forall id :: Lists(out.value, id) <==>
                             (0 <= id < stop && minId <= id) || (id in s.funcLogs && stop <= id))
            && forall k :: 0 <= k < |out.value| ==> SameCall(out.value[k], r.logs[out.value[k].id])
  {
    var head, half := ListingParts(dec, s, file, r, order, minId, maxId);
    MemoryLists(s, order, half, Upto(maxId, |file|));
    JoinWithin(head, half, minId, if 0 <= maxId < |file| then maxId else |file|, r.logs);
  }

  lemma JoinWithin(head: seq<FuncLog>, half: seq<FuncLog>, minId: int, stop: nat, logs: seq<FuncLog>)
    requires stop <= |logs| && |head| == Max(0, stop - From(minId))
    requires forall k :: 0 <= k < |head| ==> head[k].id == From(minId) + k && SameCall(head[k], logs[From(minId) + k])
    requires forall k :: 0 <= k < |half| ==> stop <= half[k].id < |logs| && half[k] == logs[half[k].id]
    requires forall i, k :: 0 <= i < k < |half| ==> half[i].id != half[k].id
    ensures forall k :: 0 <= k < |head + half| ==>
              0 <= (head + half)[k].id < |logs| && SameCall((head + half)[k], logs[(head + half)[k].id])
    ensures forall i, k :: 0 <= i < k < |head + half| ==> (head + half)[i].id != (head + half)[k].id
    ensures forall id :: Lists(head + half, id) <==> (0 <= id < stop && minId <= id) || Lists(half, id)
  {
    JoinHalves(head, half, From(minId), |logs|);
    JoinSame(head, half, From(minId), logs);
  }

  /** Without bounds. */
  lemma ListingExactlyOnce(dec: Decoder, s: Sim, file: seq<Bytes>, r: Ref, order: seq<int>)
    requires LogsOk(r) && LogsAgree(s, r) && |file| <= |r.logs|
    requires Enumerates(order, s.funcLogs.Keys) && forall j :: 0 <= j < |order| ==> order[j] in s.funcLogs
    requires forall id :: 0 <= id < |file| ==> dec(file[id]).Parsed? && SameCall(dec(file[id]).value, r.logs[id])
    ensures var out := Listing(dec, file, -1, -1, s.funcLogs, order);
            && out.Some?
            && (forall k :: 0 <= k < |out.value| ==> 0 <= out.value[k].id < s.nextID)
            && (forall i, k :: 0 <= i < k < |out.value| ==> out.value[i].id != out.value[k].id)
            && (forall id :: Lists(out.value, id) <==> 0 <= id < |file| || (id in s.funcLogs && |file| <= id))
            && forall k :: 0 <= k < |out.value| ==> SameCall(out.value[k], r.logs[out.value[k].id])
  {
    ListingWithin(dec, s, file, r, order, -1, -1);
  }

  /** The two parts of a listing. */
  lemma ListingParts(dec: Decoder, s: Sim, file: seq<Bytes>, r: Ref, order: seq<int>, minId: int, maxId: int)
    returns (head: seq<FuncLog>, half: seq<FuncLog>)
    requires LogsOk(r) && LogsAgree(s, r) && |file| <= |r.logs|
    requires Enumerates(order, s.funcLogs.Keys) && forall j :: 0 <= j < |order| ==> order[j] in s.funcLogs
    requires forall id :: 0 <= id < |file| ==> dec(file[id]).Parsed? && SameCall(dec(file[id]).value, r.logs[id])
    ensures Listing(dec, file, minId, maxId, s.funcLogs, order) == Some(head + half)
    ensures |head| == Max(0, Upto(maxId, |file|) - From(minId))
    ensures forall k :: 0 <= k < |head| ==> head[k].id == From(minId) + k && SameCall(head[k], r.logs[From(minId) + k])
    ensures MemoryPart(half, s.funcLogs, order, Upto(maxId, |file|))
    ensures forall k :: 0 <= k < |half| ==>
              Upto(maxId, |file|) <= half[k].id < |r.logs| && half[k] == r.logs[half[k].id]
    ensures forall i, k :: 0 <= i < k < |half| ==> half[i].id != half[k].id
  {
    var lo, hi := From(minId), Upto(maxId, |file|);
    MemoryHalfLogs(s.funcLogs, order, hi);
    head, half := [], MemoryHalf(s.funcLogs, order, hi);
    if lo < hi {
      FileHalfLogs(dec, file, r.logs, lo, hi);
      head := FileHalf(dec, file, lo, hi).value;
      forall k | 0 <= k < |head| ensures head[k].id == lo + k && SameCall(head[k], r.logs[lo + k]) {
        assert SameCall(head[lo + k - lo], r.logs[lo + k]);
      }
    }
  }

  lemma JoinSame(head: seq<FuncLog>, half: seq<FuncLog>, lo: nat, logs: seq<FuncLog>)
    requires lo + |head| <= |logs| || head == []
    requires forall k :: 0 <= k < |head| ==> head[k].id == lo + k && SameCall(head[k], logs[lo + k])
    requires forall k :: 0 <= k < |half| ==> 0 <= half[k].id < |logs| && half[k] == logs[half[k].id]
    ensures forall k :: 0 <= k < |head + half| ==>
              0 <= (head + half)[k].id < |logs| && SameCall((head + half)[k], logs[(head + half)[k].id])
  {
  }

  lemma MemoryLists(s: Sim, order: seq<int>, half: seq<FuncLog>, from: int)
    requires Enumerates(order, s.funcLogs.Keys) && MemoryPart(half, s.funcLogs, order, from)
    ensures forall id :: Lists(half, id) <==> id in s.funcLogs && from <= id
  {
    forall id ensures Lists(half, id) <==> id in s.funcLogs && from <= id {
      assert id in s.funcLogs <==> id in s.funcLogs.Keys;
    }
  }

  lemma FileDecodes(w: World, r: Ref)
    requires LogsOk(r) && AllKept(w.sim, w.logs, r) && |r.logs| <= TWO63
    ensures var dec: Decoder := DecFuncLog;
            forall id :: 0 <= id < |w.logs| ==> dec(w.logs[id]).Parsed? && SameCall(dec(w.logs[id]).value, r.logs[id])
  {
    forall id | 0 <= id < |w.logs|
      ensures DecFuncLog(w.logs[id]).Parsed? && SameCall(DecFuncLog(w.logs[id]).value, r.logs[id])
    {
      RecordDecodes(w.logs[id], r.logs[id]);
    }
  }

  /** A full read lists every call id from 0 to nextID-1 exactly once, with its log in memory or as last flushed.
      The file half and the memory half may be separated by events, but not by a flush: `w` is the state at the second
      half, still holding the file that the first half read. */
  lemma FullReadExactlyOnce(w: World, r: Ref, order: seq<int>)
    requires WorldOk(w, r) && |r.logs| <= TWO63
    requires Enumerates(order, w.sim.funcLogs.Keys) && forall j :: 0 <= j < |order| ==> order[j] in w.sim.funcLogs
    ensures var out := Listing(DecFuncLog, w.logs, -1, -1, w.sim.funcLogs, order);
            && out.Some?
            && ExactlyOnce(out.value, w.sim.nextID)
            && forall k :: 0 <= k < |out.value| ==> SameCall(out.value[k], r.logs[out.value[k].id])
  {
    FileDecodes(w, r);
    ListingExactlyOnce(DecFuncLog, w.sim, w.logs, r, order);
    var out := Listing(DecFuncLog, w.logs, -1, -1, w.sim.funcLogs, order).value;
    forall id | 0 <= id < w.sim.nextID ensures Lists(out, id) {
      assert Kept(w.sim, w.logs, r, id);
    }
  }

  /** The same within bounds, in every state a legal run reaches. A call with the id maxId is not read from the file. */
  lemma ReachableBoundedRead(steps: seq<Step>, order: seq<int>, minId: int, maxId: int)
    requires LegalRun(steps) && |RunRef(steps).logs| <= TWO63
    requires var s := RunWorld(steps).sim;
             Enumerates(order, s.funcLogs.Keys) && forall j :: 0 <= j < |order| ==> order[j] in s.funcLogs
    ensures var w := RunWorld(steps);
            var out, stop := Listing(DecFuncLog, w.logs, minId, maxId, w.sim.funcLogs, order),
                             if 0 <= maxId < |w.logs| then maxId else |w.logs|;
            && out.Some?
            && (forall i, k :: 0 <= i < k < |out.value| ==> out.value[i].id != out.value[k].id)
            && (forall id :: Lists(out.value, id) <==>
                             (0 <= id < stop && minId <= id) || (id in w.sim.funcLogs && stop <= id))
            && forall k :: 0 <= k < |out.value| ==>
                 0 <= out.value[k].id < |RunRef(steps).logs| && SameCall(out.value[k], RunRef(steps).logs[out.value[k].id])
  {
    ReachableOk(steps);
    FileDecodes(RunWorld(steps), RunRef(steps));
    ListingWithin(DecFuncLog, RunWorld(steps).sim, RunWorld(steps).logs, RunRef(steps), order, minId, maxId);
  }

  /** The same in every state a legal run reaches. */
  lemma ReachableFullRead(steps: seq<Step>, order: seq<int>)
    requires LegalRun(steps) && |RunRef(steps).logs| <= TWO63
    requires var s := RunWorld(steps).sim;
             Enumerates(order, s.funcLogs.Keys) && forall j :: 0 <= j < |order| ==> order[j] in s.funcLogs
    ensures var w := RunWorld(steps);
            var out := Listing(DecFuncLog, w.logs, -1, -1, w.sim.funcLogs, order);
            && out.Some?
            && ExactlyOnce(out.value, w.sim.nextID)
            && forall k :: 0 <= k < |out.value| ==>
                 0 <= out.value[k].id < |RunRef(steps).logs| && SameCall(out.value[k], RunRef(steps).logs[out.value[k].id])
  {
    ReachableOk(steps);
    FullReadExactlyOnce(RunWorld(steps), RunRef(steps), order);
  }

  // ---------- flushes between the two halves ----------

  /** r2 is what r1 has become: calls were added, and some that had not ended have. */
  ghost predicate Grows(r1: Ref, r2: Ref) {
    && |r1.logs| <= |r2.logs|
    && forall id :: 0 <= id < |r1.logs| ==>
         r1.logs[id] == r2.logs[id] || r1.logs[id] == r2.logs[id].(endTime := NOT_ENDED)
  }

  lemma StepGrows(r: Ref, raw: RawFuncLog)
    requires RefOk(r) && Legal(r, raw)
    ensures Grows(r, RefStep(r, raw))
  {
    if raw.tag == FUNC_END {
      var n := |Stack(r, raw.gid)|;
      assert Running(r, raw.gid, n - 1) && RunningCallOk(r, raw.gid, n - 1);
    }
  }

  lemma {:induction false} LegalPrefix(steps: seq<Step>, n: nat)
    requires LegalRun(steps) && n <= |steps|
    ensures LegalRun(steps[..n])
    decreases |steps|
  {
    if n < |steps| {
      LegalPrefix(steps[..|steps| - 1], n);
      assert steps[..|steps| - 1][..n] == steps[..n];
    } else {
      assert steps[..n] == steps;
    }
  }

  lemma LastEvent(steps: seq<Step>)
    requires steps != [] && LegalRun(steps)
    ensures var before, step := steps[..|steps| - 1], steps[|steps| - 1];
            && LegalRun(before)
            && RunRef(steps) == (if step.Event? then RefStep(RunRef(before), step.raw) else RunRef(before))
  {
    var before, step := steps[..|steps| - 1], steps[|steps| - 1];
    if step.Event? {
      assert (EventsOf(before) + [step.raw])[..|EventsOf(before)|] == EventsOf(before);
    }
  }

  lemma {:induction false} RunGrows(steps: seq<Step>, n: nat)
    requires LegalRun(steps) && n <= |steps|
    ensures Grows(RunRef(steps[..n]), RunRef(steps))
    decreases |steps|
  {
    if n == |steps| {
      assert steps[..n] == steps;
    } else {
      var before, step := steps[..|steps| - 1], steps[|steps| - 1];
      LastEvent(steps);
      RunGrows(before, n);
      assert before[..n] == steps[..n];
      if step.Event? {
        ReachableOk(before);
        StepGrows(RunRef(before), step.raw);
      }
    }
  }

  /** From s to s', call id was added to memory if it was started in between, and not removed. */
  ghost predicate Adds(s: Sim, s': Sim, id: int) {
    s.nextID <= s'.nextID && (id in s'.funcLogs <==> id in s.funcLogs || s.nextID <= id < s'.nextID)
  }

  /** A call that has not ended is in memory. */
  ghost predicate UnendedKept(s: Sim, r: Ref) {
    forall id :: 0 <= id < |r.logs| && !r.logs[id].IsEnded() ==> id in s.funcLogs
  }

  lemma StartUnended(s: Sim, r: Ref, raw: RawFuncLog)
    requires LogsAgree(s, r) && UnendedKept(s, r) && raw.tag == FUNC_START && StartStep(s, raw).1 == Done
    ensures UnendedKept(StartStep(s, raw).0, RefStart(r, raw))
    ensures forall id :: Adds(s, StartStep(s, raw).0, id)
  {
  }

  lemma EndUnended(s: Sim, r: Ref, raw: RawFuncLog)
    requires UnendedKept(s, r) && raw.tag == FUNC_END && Legal(r, raw) && EndStep(s, raw).1 == Done
    requires s.txids[raw.txid] == Top(Stack(r, raw.gid)) && Top(Stack(r, raw.gid)) in s.funcLogs
    ensures UnendedKept(EndStep(s, raw).0, RefEnd(r, raw))
    ensures forall id :: Adds(s, EndStep(s, raw).0, id)
  {
  }

  lemma EventUnended(s: Sim, r: Ref, raw: RawFuncLog)
    requires Agrees(s, r) && UnendedKept(s, r) && Legal(r, raw)
    ensures UnendedKept(NextStep(s, raw).0, RefStep(r, raw))
    ensures forall id :: Adds(s, NextStep(s, raw).0, id)
  {
    NextAgrees(s, r, raw);
    if raw.tag == FUNC_END {
      TopRunning(s, r, raw.gid);
      EndFinds(s, r, raw);
      EndUnended(s, r, raw);
    } else {
      StartUnended(s, r, raw);
    }
  }

  lemma {:induction false} ReachableUnended(steps: seq<Step>)
    requires LegalRun(steps)
    ensures UnendedKept(RunWorld(steps).sim, RunRef(steps))
  {
    if steps != [] {
      var before, step := steps[..|steps| - 1], steps[|steps| - 1];
      LastEvent(steps);
      ReachableUnended(before);
      ReachableOk(before);
      match step {
        case Event(raw) => EventUnended(RunWorld(before).sim, RunRef(before), raw);
        case Flush(order, gorder) =>
          FlushOk(RunWorld(before), RunRef(before), order, gorder);
      }
    }
  }

  ghost predicate OnlyEvents(steps: seq<Step>) {
    forall i :: 0 <= i < |steps| ==> steps[i].Event?
  }

  ghost predicate AddsAt(sims: nat -> Sim, k: nat, id: int) {
    Adds(sims(k), sims(k + 1), id)
  }

  lemma {:induction false} AddsChain(sims: nat -> Sim, n: nat, m: nat, id: int)
    requires n <= m && forall k :: n <= k < m ==> AddsAt(sims, k, id)
    ensures Adds(sims(n), sims(m), id)
    decreases m
  {
    if n < m {
      AddsChain(sims, n, m - 1, id);
      assert AddsAt(sims, m - 1, id);
    }
  }

  lemma MemoryAfterEvent(steps: seq<Step>, id: int)
    requires LegalRun(steps) && steps != [] && steps[|steps| - 1].Event?
    ensures Adds(RunWorld(steps[..|steps| - 1]).sim, RunWorld(steps).sim, id)
  {
    var before, step := steps[..|steps| - 1], steps[|steps| - 1];
    ReachableOk(before);
    ReachableUnended(before);
    EventUnended(RunWorld(before).sim, RunRef(before), step.raw);
  }

  ghost function SimAfter(steps: seq<Step>): nat -> Sim {
    (k: nat) => if k <= |steps| then RunWorld(steps[..k]).sim else InitSim
  }

  lemma NextAdds(steps: seq<Step>, k: nat, id: int)
    requires LegalRun(steps) && k < |steps| && steps[k].Event?
    ensures AddsAt(SimAfter(steps), k, id)
  {
    LegalPrefix(steps, k + 1);
    assert steps[..k + 1][..k] == steps[..k];
    MemoryAfterEvent(steps[..k + 1], id);
  }

  /** Events add the calls they start to memory and remove none. */
  lemma MemoryAfterEvents(steps: seq<Step>, n: nat, id: int)
    requires LegalRun(steps) && n <= |steps| && OnlyEvents(steps[n..])
    ensures Adds(SimAfter(steps)(n), SimAfter(steps)(|steps|), id)
  {
    forall k | n <= k < |steps| ensures AddsAt(SimAfter(steps), k, id) {
      assert steps[k] == steps[n..][k - n];
      NextAdds(steps, k, id);
    }
    AddsChain(SimAfter(steps), n, |steps|, id);
  }

  /** After a flush exactly the calls that have not ended are in memory. */
  lemma MemoryAfterFlush(steps: seq<Step>, id: int)
    requires LegalRun(steps) && steps != [] && steps[|steps| - 1].Flush?
    ensures var r, s := RunRef(steps[..|steps| - 1]), RunWorld(steps).sim;
            s.nextID == |r.logs| && (id in s.funcLogs <==> 0 <= id < |r.logs| && !r.logs[id].IsEnded())
  {
    var before, flush := steps[..|steps| - 1], steps[|steps| - 1];
    ReachableOk(before);
    ReachableUnended(before);
    FlushOk(RunWorld(before), RunRef(before), flush.order, flush.gorder);
  }

  /** The records read earlier still decode to the calls they belong to. */
  lemma OldFileDecodes(w: World, r1: Ref, r2: Ref)
    requires WorldOk(w, r1) && Grows(r1, r2) && |r2.logs| <= TWO63
    ensures var dec: Decoder := DecFuncLog;
            && |w.logs| <= |r2.logs|
            && forall id :: 0 <= id < |w.logs| ==> dec(w.logs[id]).Parsed? && SameCall(dec(w.logs[id]).value, r2.logs[id])
  {
    FileDecodes(w, r1);
    forall id | 0 <= id < |w.logs| ensures SameCall(DecFuncLog(w.logs[id]).value, r2.logs[id]) {
      assert SameCall(DecFuncLog(w.logs[id]).value, r1.logs[id]);
    }
  }

  /** The file half is read after n steps of the run, the memory half at its end. If flushes fall between them, the last
      one as step `last`, a call is listed exactly when it was in the file at the first half or had not ended at that flush:
      a call that was not yet in the file and had ended by then is in neither half. */
  lemma FlushBetweenHalves(steps: seq<Step>, n: nat, last: nat, order: seq<int>, id: int)
    requires LegalRun(steps) && n <= last < |steps| && steps[last].Flush? && OnlyEvents(steps[last + 1..])
    requires |RunRef(steps).logs| <= TWO63 && 0 <= id < RunWorld(steps).sim.nextID
    requires var s := RunWorld(steps).sim;
             Enumerates(order, s.funcLogs.Keys) && forall j :: 0 <= j < |order| ==> order[j] in s.funcLogs
    ensures var file, r := RunWorld(steps[..n]).logs, RunRef(steps[..last]);
            var out := Listing(DecFuncLog, file, -1, -1, RunWorld(steps).sim.funcLogs, order);
            && out.Some?
            && (Lists(out.value, id) <==> id < |file| || id >= |r.logs| || !r.logs[id].IsEnded())
  {
    OldFileListing(steps, n, order, id);
    MemoryAtEnd(steps, last, id);
  }

  lemma OldFileListing(steps: seq<Step>, n: nat, order: seq<int>, id: int)
    requires LegalRun(steps) && n <= |steps| && |RunRef(steps).logs| <= TWO63 && 0 <= id
    requires var s := RunWorld(steps).sim;
             Enumerates(order, s.funcLogs.Keys) && forall j :: 0 <= j < |order| ==> order[j] in s.funcLogs
    ensures var file, s := RunWorld(steps[..n]).logs, RunWorld(steps).sim;
            var out := Listing(DecFuncLog, file, -1, -1, s.funcLogs, order);
            out.Some? && (Lists(out.value, id) <==> id < |file| || id in s.funcLogs)
  {
    LegalPrefix(steps, n);
    ReachableOk(steps[..n]);
    ReachableOk(steps);
    RunGrows(steps, n);
    OldFileDecodes(RunWorld(steps[..n]), RunRef(steps[..n]), RunRef(steps));
    ListingExactlyOnce(DecFuncLog, RunWorld(steps).sim, RunWorld(steps[..n]).logs, RunRef(steps), order);
  }

  lemma MemoryAtEnd(steps: seq<Step>, last: nat, id: int)
    requires LegalRun(steps) && last < |steps| && steps[last].Flush? && OnlyEvents(steps[last + 1..])
    requires 0 <= id < RunWorld(steps).sim.nextID
    ensures var r := RunRef(steps[..last]);
            id in RunWorld(steps).sim.funcLogs <==> id >= |r.logs| || !r.logs[id].IsEnded()
  {
    LegalPrefix(steps, last + 1);
    assert steps[..last + 1][..last] == steps[..last] && steps[..|steps|] == steps;
    MemoryAfterFlush(steps[..last + 1], id);
    MemoryAfterEvents(steps, last + 1, id);
    assert SimAfter(steps)(last + 1) == RunWorld(steps[..last + 1]).sim;
    assert SimAfter(steps)(|steps|) == RunWorld(steps).sim;
  }

  /** If only events fall between them, every call is listed exactly once. */
  lemma EventsBetweenHalves(steps: seq<Step>, n: nat, order: seq<int>)
    requires LegalRun(steps) && n <= |steps| && OnlyEvents(steps[n..]) && |RunRef(steps).logs| <= TWO63
    requires var s := RunWorld(steps).sim;
             Enumerates(order, s.funcLogs.Keys) && forall j :: 0 <= j < |order| ==> order[j] in s.funcLogs
    ensures var s := RunWorld(steps).sim;
            var out := Listing(DecFuncLog, RunWorld(steps[..n]).logs, -1, -1, s.funcLogs, order);
            out.Some? && ExactlyOnce(out.value, s.nextID)
  {
    SameFile(steps, n);
    ReachableFullRead(steps, order);
  }

  lemma {:induction false} SameFile(steps: seq<Step>, n: nat)
    requires n <= |steps| && OnlyEvents(steps[n..])
    ensures RunWorld(steps).logs == RunWorld(steps[..n]).logs
    decreases |steps|
  {
    if n == |steps| {
      assert steps[..n] == steps;
    } else {
      var before := steps[..|steps| - 1];
      assert before[..n] == steps[..n] && before[n..] == steps[n..][..|steps| - 1 - n];
      assert steps[|steps| - 1] == steps[n..][|steps| - 1 - n];
      SameFile(before, n);
    }
  }
}

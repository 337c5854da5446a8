/** The reference meaning of an event stream: every goroutine has a plain stack of running calls and nothing is ever
    forgotten. The simulator, which forgets finished calls at every Clear, is shown to agree with it. */
module CallStack {
  import opened Types
  import opened Simulator

  datatype Call = Call(txid: Uint64, id: int)

  datatype Ref = Ref(
    logs: seq<FuncLog>,                // all calls ever started, in start order
    stacks: map<Int64, seq<Call>>,     // running calls of each goroutine, outermost first
    spans: map<Int64, Goroutine>)      // the interval each goroutine was seen active in

  const InitRef := Ref([], map[], map[])

  function Stack(r: Ref, g: Int64): seq<Call> {
    if g in r.stacks then r.stacks[g] else []
  }

  function Top(stack: seq<Call>): int {
    if stack == [] then NOT_FOUND_PARENT else stack[|stack| - 1].id
  }

  function RefStart(r: Ref, raw: RawFuncLog): Ref {
    var g, stack, id := raw.gid, Stack(r, raw.gid), |r.logs|;
    Ref(r.logs + [NewLog(id, Top(stack), raw)],
        r.stacks[g := stack + [Call(raw.txid, id)]],
        if g !in r.spans then r.spans[g := Goroutine(g, raw.timestamp, NOT_ENDED)]
        else if stack == [] then r.spans[g := r.spans[g].(endTime := NOT_ENDED)]
        else r.spans)
  }

  /** A tracer emits events like these: an end event closes the innermost running call of its goroutine, and a start
      event carries a transaction id no running call uses and as many frames as the pooled slice holds. */
  predicate Legal(r: Ref, raw: RawFuncLog) {
    if raw.tag == FUNC_START then
      && |raw.frames| <= MAX_STACK_SIZE
      && forall g, i | g in r.stacks && 0 <= i < |r.stacks[g]| :: r.stacks[g][i].txid != raw.txid
    else
      && raw.tag == FUNC_END
      && Stack(r, raw.gid) != []
      && Stack(r, raw.gid)[|Stack(r, raw.gid)| - 1].txid == raw.txid
  }

  function RefEnd(r: Ref, raw: RawFuncLog): Ref
    requires raw.tag == FUNC_END && Legal(r, raw)
  {
    var g, stack := raw.gid, Stack(r, raw.gid);
    var id := Top(stack);
    var rest := stack[..|stack| - 1];
    Ref(if 0 <= id < |r.logs| then r.logs[id := r.logs[id].(endTime := raw.timestamp)] else r.logs,
        r.stacks[g := rest],
        if rest == [] && g in r.spans then r.spans[g := r.spans[g].(endTime := raw.timestamp)] else r.spans)
  }

  function RefStep(r: Ref, raw: RawFuncLog): Ref
    requires Legal(r, raw)
  {
    if raw.tag == FUNC_START then RefStart(r, raw) else RefEnd(r, raw)
  }

  /** The reference state after a sequence of events, skipping illegal ones. */
  function RefOf(events: seq<RawFuncLog>): Ref {
    if events == [] then InitRef
    else
      var r, raw := RefOf(events[..|events| - 1]), events[|events| - 1];
      if Legal(r, raw) then RefStep(r, raw) else r
  }

  /** Every event is legal when it arrives. */
  predicate LegalEvents(events: seq<RawFuncLog>) {
    events == [] ||
    (LegalEvents(events[..|events| - 1]) && Legal(RefOf(events[..|events| - 1]), events[|events| - 1]))
  }

  // ---------- what holds of the reference alone ----------

  /** Call number i of goroutine g's stack. */
  ghost predicate Running(r: Ref, g: Int64, i: int) {
    g in r.stacks && 0 <= i < |r.stacks[g]|
  }

  ghost predicate RunningCallOk(r: Ref, g: Int64, i: int)
    requires Running(r, g, i)
  {
    var c := r.stacks[g][i];
    && 0 <= c.id < |r.logs|
    && r.logs[c.id].gid == g
    && r.logs[c.id].endTime == NOT_ENDED
    && r.logs[c.id].parentID == (if i == 0 then -1 else r.stacks[g][i - 1].id)
    && (i > 0 ==> r.stacks[g][i - 1].id < c.id)
    && g in r.spans
  }

  ghost predicate LogsOk(r: Ref) {
    forall id :: 0 <= id < |r.logs| ==>
      && r.logs[id].id == id
      && |r.logs[id].frames| <= MAX_STACK_SIZE
      && -1 <= r.logs[id].parentID < id
      && -TWO63 <= r.logs[id].gid < TWO63
      && InTime(r.logs[id].startTime) && InTime(r.logs[id].endTime)
  }

  predicate InTime(t: int) {
    -TWO63 <= t < TWO63
  }

  ghost predicate SpansOk(r: Ref) {
    forall g :: g in r.spans ==>
      && r.spans[g].gid == g
      && InTime(r.spans[g].startTime) && InTime(r.spans[g].endTime)
  }

  ghost predicate RefOk(r: Ref) {
    && LogsOk(r)
    && SpansOk(r)
    && forall g, i :: Running(r, g, i) ==> RunningCallOk(r, g, i)
  }

  lemma StackIncreasing(r: Ref, g: Int64, i: int, j: int)
    requires RefOk(r) && Running(r, g, j) && 0 <= i <= j
    ensures r.stacks[g][i].id <= r.stacks[g][j].id
    ensures i < j ==> r.stacks[g][i].id < r.stacks[g][j].id
    decreases j
  {
    if i < j {
      assert Running(r, g, j);
      StackIncreasing(r, g, i, j - 1);
    }
  }

  /** A call is on at most one stack, at one place. */
  lemma RunningUnique(r: Ref, g: Int64, i: int, h: Int64, j: int)
    requires RefOk(r) && Running(r, g, i) && Running(r, h, j)
    requires r.stacks[g][i].id == r.stacks[h][j].id
    ensures g == h && i == j
  {
    assert RunningCallOk(r, g, i) && RunningCallOk(r, h, j);
    if i < j {
      StackIncreasing(r, g, i, j);
    } else if j < i {
      StackIncreasing(r, g, j, i);
    }
  }

  lemma RefStartOk(r: Ref, raw: RawFuncLog)
    requires RefOk(r) && raw.tag == FUNC_START && Legal(r, raw)
    ensures RefOk(RefStart(r, raw))
  {
    var r' := RefStart(r, raw);
    var n := |Stack(r, raw.gid)|;
    if n > 0 {
      assert Running(r, raw.gid, n - 1);
    }
    forall g, i | Running(r', g, i) ensures RunningCallOk(r', g, i) {
      if g != raw.gid || i < n {
        assert Running(r, g, i);
      }
    }
  }

  lemma RefEndOk(r: Ref, raw: RawFuncLog)
    requires RefOk(r) && raw.tag == FUNC_END && Legal(r, raw)
    ensures RefOk(RefEnd(r, raw))
    ensures raw.gid in r.spans && 0 <= Top(Stack(r, raw.gid)) < |r.logs|
  {
    var r' := RefEnd(r, raw);
    var n := |Stack(r, raw.gid)|;
    assert Running(r, raw.gid, n - 1);
    forall g, i | Running(r', g, i) ensures RunningCallOk(r', g, i) {
      assert Running(r, g, i);
      if r.stacks[g][i].id == Top(Stack(r, raw.gid)) {
        RunningUnique(r, g, i, raw.gid, n - 1);
      }
    }
  }

  // ---------- the simulator agrees with the reference ----------

  ghost predicate LogsAgree(s: Sim, r: Ref) {
    && s.nextID == |r.logs|
    && forall id :: id in s.funcLogs ==> 0 <= id < |r.logs| && s.funcLogs[id] == r.logs[id]
  }

  /** Every running call is in memory, and its transaction id leads to it. */
  ghost predicate RunningInMemory(s: Sim, r: Ref) {
    forall g, i :: Running(r, g, i) ==>
      && r.stacks[g][i].id in s.funcLogs
      && r.stacks[g][i].txid in s.txids
      && s.txids[r.stacks[g][i].txid] == r.stacks[g][i].id
  }

  /** Every open transaction is that of a running call. */
  ghost predicate TxidsRunning(s: Sim, r: Ref) {
    forall t :: t in s.txids ==> exists g, i :: IsCall(r, g, i, t, s.txids[t])
  }

  ghost predicate IsCall(r: Ref, g: Int64, i: int, t: Uint64, id: int) {
    Running(r, g, i) && r.stacks[g][i] == Call(t, id)
  }

  ghost predicate StacksAgree(s: Sim, r: Ref) {
    && s.goroutines == r.spans
    && forall g :: g in s.goroutines ==> g in s.stacks && s.stacks[g] == Top(Stack(r, g))
  }

  ghost predicate Agrees(s: Sim, r: Ref) {
    RefOk(r) && LogsAgree(s, r) && RunningInMemory(s, r) && StacksAgree(s, r)
  }

  lemma InitAgrees()
    ensures Agrees(InitSim, InitRef)
  {
  }

  lemma TopRunning(s: Sim, r: Ref, g: Int64)
    requires RefOk(r) && RunningInMemory(s, r) && Stack(r, g) != []
    ensures g in r.spans && Running(r, g, |Stack(r, g)| - 1) && RunningCallOk(r, g, |Stack(r, g)| - 1)
    ensures Top(Stack(r, g)) in s.funcLogs && Top(Stack(r, g)) != -1
  {
    assert Running(r, g, |Stack(r, g)| - 1);
  }

  lemma StartStacksAgree(s: Sim, r: Ref, raw: RawFuncLog)
    requires RefOk(r) && RunningInMemory(s, r) && LogsAgree(s, r) && StacksAgree(s, r) && raw.tag == FUNC_START && Legal(r, raw)
    ensures StartStep(s, raw).1 == Done
    ensures StacksAgree(StartStep(s, raw).0, RefStart(r, raw)) && LogsAgree(StartStep(s, raw).0, RefStart(r, raw))
  {
    if Stack(r, raw.gid) != [] {
      TopRunning(s, r, raw.gid);
    }
  }

  lemma StartRunning(s: Sim, r: Ref, raw: RawFuncLog)
    requires RunningInMemory(s, r) && LogsAgree(s, r) && raw.tag == FUNC_START && Legal(r, raw)
    ensures RunningInMemory(StartStep(s, raw).0, RefStart(r, raw))
  {
    var s', r' := StartStep(s, raw).0, RefStart(r, raw);
    forall g, i | Running(r', g, i)
      ensures r'.stacks[g][i].id in s'.funcLogs
      ensures r'.stacks[g][i].txid in s'.txids && s'.txids[r'.stacks[g][i].txid] == r'.stacks[g][i].id
    {
      if g != raw.gid || i < |Stack(r, raw.gid)| {
        assert Running(r, g, i);
      }
    }
  }

  lemma StartTxids(s: Sim, r: Ref, raw: RawFuncLog)
    requires TxidsRunning(s, r) && LogsAgree(s, r) && raw.tag == FUNC_START && Legal(r, raw)
    ensures TxidsRunning(StartStep(s, raw).0, RefStart(r, raw))
  {
    var s', r' := StartStep(s, raw).0, RefStart(r, raw);
    forall t | t in s'.txids ensures exists g, i :: IsCall(r', g, i, t, s'.txids[t]) {
      if t == raw.txid {
        assert IsCall(r', raw.gid, |Stack(r, raw.gid)|, t, s'.txids[t]);
      } else {
        var g, i :| IsCall(r, g, i, t, s.txids[t]);
        assert IsCall(r', g, i, t, s'.txids[t]);
      }
    }
  }

  lemma StartAgrees(s: Sim, r: Ref, raw: RawFuncLog)
    requires Agrees(s, r) && raw.tag == FUNC_START && Legal(r, raw)
    ensures StartStep(s, raw).1 == Done
    ensures Agrees(StartStep(s, raw).0, RefStart(r, raw))
  {
    RefStartOk(r, raw);
    StartStacksAgree(s, r, raw);
    StartRunning(s, r, raw);
  }

  lemma EndFinds(s: Sim, r: Ref, raw: RawFuncLog)
    requires RefOk(r) && RunningInMemory(s, r) && LogsAgree(s, r) && StacksAgree(s, r)
    requires raw.tag == FUNC_END && Legal(r, raw)
    ensures EndStep(s, raw).1 == Done && s.txids[raw.txid] == Top(Stack(r, raw.gid))
    ensures LogsAgree(EndStep(s, raw).0, RefEnd(r, raw))
  {
    TopRunning(s, r, raw.gid);
  }

  lemma EndStacksAgree(s: Sim, r: Ref, raw: RawFuncLog)
    requires RefOk(r) && LogsAgree(s, r) && StacksAgree(s, r) && raw.tag == FUNC_END && Legal(r, raw)
    requires EndStep(s, raw).1 == Done && s.txids[raw.txid] == Top(Stack(r, raw.gid))
    ensures StacksAgree(EndStep(s, raw).0, RefEnd(r, raw))
  {
    var n := |Stack(r, raw.gid)|;
    assert Running(r, raw.gid, n - 1) && RunningCallOk(r, raw.gid, n - 1);
    if n > 1 {
      assert Running(r, raw.gid, n - 2) && RunningCallOk(r, raw.gid, n - 2);
    }
  }

  lemma EndRunning(s: Sim, r: Ref, raw: RawFuncLog)
    requires RefOk(r) && RunningInMemory(s, r) && raw.tag == FUNC_END && Legal(r, raw)
    requires EndStep(s, raw).1 == Done
    ensures RunningInMemory(EndStep(s, raw).0, RefEnd(r, raw))
  {
    var s', r' := EndStep(s, raw).0, RefEnd(r, raw);
    assert Running(r, raw.gid, |Stack(r, raw.gid)| - 1);
    forall g, i | Running(r', g, i)
      ensures r'.stacks[g][i].id in s'.funcLogs
      ensures r'.stacks[g][i].txid in s'.txids && s'.txids[r'.stacks[g][i].txid] == r'.stacks[g][i].id
    {
      assert Running(r, g, i);
      if r.stacks[g][i].txid == raw.txid {
        RunningUnique(r, g, i, raw.gid, |Stack(r, raw.gid)| - 1);
      }
    }
  }

  lemma EndTxids(s: Sim, r: Ref, raw: RawFuncLog)
    requires TxidsRunning(s, r) && raw.tag == FUNC_END && Legal(r, raw)
    requires EndStep(s, raw).1 == Done
    ensures TxidsRunning(EndStep(s, raw).0, RefEnd(r, raw))
  {
    var s', r' := EndStep(s, raw).0, RefEnd(r, raw);
    forall t | t in s'.txids ensures exists g, i :: IsCall(r', g, i, t, s'.txids[t]) {
      var g, i :| IsCall(r, g, i, t, s.txids[t]);
      assert IsCall(r', g, i, t, s'.txids[t]);
    }
  }

  lemma EndAgrees(s: Sim, r: Ref, raw: RawFuncLog)
    requires Agrees(s, r) && raw.tag == FUNC_END && Legal(r, raw)
    ensures EndStep(s, raw).1 == Done
    ensures Agrees(EndStep(s, raw).0, RefEnd(r, raw))
  {
    RefEndOk(r, raw);
    EndFinds(s, r, raw);
    EndStacksAgree(s, r, raw);
    EndRunning(s, r, raw);
  }

  /** One event keeps the agreement, and a legal event never makes Next panic. */
  lemma NextAgrees(s: Sim, r: Ref, raw: RawFuncLog)
    requires Agrees(s, r) && Legal(r, raw)
    ensures NextStep(s, raw).1 == Done
    ensures Agrees(NextStep(s, raw).0, RefStep(r, raw))
  {
    if raw.tag == FUNC_START {
      StartAgrees(s, r, raw);
    } else {
      EndAgrees(s, r, raw);
    }
  }

  /** One event keeps every open transaction that of a running call. */
  lemma NextTxids(s: Sim, r: Ref, raw: RawFuncLog)
    requires TxidsRunning(s, r) && LogsAgree(s, r) && Legal(r, raw) && NextStep(s, raw).1 == Done
    ensures TxidsRunning(NextStep(s, raw).0, RefStep(r, raw))
  {
    if raw.tag == FUNC_START {
      StartTxids(s, r, raw);
    } else {
      EndTxids(s, r, raw);
    }
  }

  ghost predicate OpenTransaction(r: Ref, t: Uint64) {
    exists g: Int64, i :: Running(r, g, i) && r.stacks[g][i].txid == t
  }

  /** Which events make Next panic, in any state that agrees with the reference: a start with more frames than the pooled
      slice holds, an end on a goroutine never seen or with a transaction id that is not open, and any other tag. A panic
      changes nothing but the id counter. */
  lemma NextPanicsExactly(s: Sim, r: Ref, raw: RawFuncLog)
    requires Agrees(s, r) && TxidsRunning(s, r)
    ensures NextStep(s, raw).1 == Panicked <==>
              if raw.tag == FUNC_START then |raw.frames| > MAX_STACK_SIZE
              else raw.tag != FUNC_END || raw.gid !in r.spans || !OpenTransaction(r, raw.txid)
    ensures NextStep(s, raw).1 == Panicked ==> NextStep(s, raw).0.(nextID := s.nextID) == s
  {
    if raw.tag == FUNC_END && raw.txid in s.txids {
      var g, i :| IsCall(r, g, i, raw.txid, s.txids[raw.txid]);
      assert Running(r, g, i);
    }
    if OpenTransaction(r, raw.txid) {
      var g: Int64, i :| Running(r, g, i) && r.stacks[g][i].txid == raw.txid;
    }
  }

  /** Clear forgets only calls that are not running. */
  lemma ClearAgrees(s: Sim, r: Ref)
    requires Agrees(s, r)
    ensures Agrees(ClearStep(s), r)
  {
    var s' := ClearStep(s);
    forall g, i | Running(r, g, i) ensures r.stacks[g][i].id in s'.funcLogs {
      assert RunningCallOk(r, g, i);
    }
  }

  // ---------- parent chains and transactions ----------

  /** Follows ParentID through the logs in memory until -1; None when a call is missing. */
  function ParentWalk(logs: map<int, FuncLog>, id: int): Option<seq<int>>
    decreases id + 1
  {
    if id == -1 then Some([])
    else if id < 0 || id !in logs || !(-1 <= logs[id].parentID < id) then None
    else match ParentWalk(logs, logs[id].parentID)
      case None => None
      case Some(rest) => Some([id] + rest)
  }

  function InnermostFirst(stack: seq<Call>): seq<int> {
    if stack == [] then [] else [stack[|stack| - 1].id] + InnermostFirst(stack[..|stack| - 1])
  }

  lemma {:induction false} WalkFrom(s: Sim, r: Ref, g: Int64, stack: seq<Call>)
    requires RefOk(r) && LogsAgree(s, r) && RunningInMemory(s, r) && stack <= Stack(r, g)
    ensures ParentWalk(s.funcLogs, Top(stack)) == Some(InnermostFirst(stack))
    decreases |stack|
  {
    if stack != [] {
      var n := |stack| - 1;
      var rest := stack[..n];
      assert Running(r, g, n) && RunningCallOk(r, g, n);
      assert s.funcLogs[Top(stack)].parentID == Top(rest);
      WalkFrom(s, r, g, rest);
    }
  }

  /** Following ParentID from the recorded stack top visits exactly the goroutine's running calls, innermost first. */
  lemma StackTopWalk(s: Sim, r: Ref, g: Int64)
    requires Agrees(s, r) && g in s.goroutines
    ensures g in s.stacks
    ensures ParentWalk(s.funcLogs, s.stacks[g]) == Some(InnermostFirst(Stack(r, g)))
    ensures ParentWalk(ClearStep(s).funcLogs, s.stacks[g]) == Some(InnermostFirst(Stack(r, g)))
  {
    ClearAgrees(s, r);
    WalkFrom(s, r, g, Stack(r, g));
    WalkFrom(ClearStep(s), r, g, Stack(r, g));
  }

  ghost predicate Transaction(s: Sim, t: Uint64, id: int) {
    t in s.txids && s.txids[t] == id
  }

  ghost predicate RunningCall(r: Ref, t: Uint64, id: int) {
    exists g, i :: IsCall(r, g, i, t, id)
  }

  /** txids is a bijection between the open transactions and the running calls. */
  lemma TxidsBijection(s: Sim, r: Ref)
    requires Agrees(s, r) && TxidsRunning(s, r)
    ensures forall t, u :: t in s.txids && u in s.txids && s.txids[t] == s.txids[u] ==> t == u
    ensures forall t, id :: Transaction(s, t, id) <==> RunningCall(r, t, id)
  {
    forall t, u | t in s.txids && u in s.txids && s.txids[t] == s.txids[u] ensures t == u {
      var g, i :| IsCall(r, g, i, t, s.txids[t]);
      var h, j :| IsCall(r, h, j, u, s.txids[u]);
      RunningUnique(r, g, i, h, j);
    }
  }
}

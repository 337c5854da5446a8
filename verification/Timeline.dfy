/** What the reconstructed logs say about time: calls of one goroutine are nested or disjoint, and each lies inside its
    parent and inside its goroutine's interval. */
module Timeline {
  import opened Types
  import opened Simulator
  import opened CallStack

  /** b lies inside a: it starts no earlier and, once a has ended, has ended no later. */
  ghost predicate Contains(a: FuncLog, b: FuncLog) {
    a.startTime <= b.startTime && (a.IsEnded() ==> b.IsEnded() && b.endTime <= a.endTime)
  }

  /** a was over when b started. */
  ghost predicate Before(a: FuncLog, b: FuncLog) {
    a.IsEnded() && a.endTime <= b.startTime
  }

  ghost predicate SpanContains(g: Goroutine, f: FuncLog) {
    g.startTime <= f.startTime && (g.endTime != NOT_ENDED ==> f.IsEnded() && f.endTime <= g.endTime)
  }

  /** No timestamp goes back, and none is the NOT_ENDED mark. */
  predicate Monotone(events: seq<RawFuncLog>) {
    && (forall i :: 0 <= i < |events| ==> 0 <= events[i].timestamp)
    && forall i, j :: 0 <= i < j < |events| ==> events[i].timestamp <= events[j].timestamp
  }

  // ---------- the parts of the invariant, at time now ----------

  ghost predicate TimesOk(r: Ref, now: int) {
    && (forall id :: 0 <= id < |r.logs| ==> 0 <= r.logs[id].startTime <= now)
    && (forall id :: 0 <= id < |r.logs| && r.logs[id].IsEnded() ==> r.logs[id].startTime <= r.logs[id].endTime <= now)
    && (forall g :: g in r.spans ==> r.spans[g].startTime <= now)
  }

  ghost predicate OnStack(r: Ref, id: int)
    requires 0 <= id < |r.logs|
  {
    exists g, i :: Running(r, g, i) && r.stacks[g][i].id == id && r.logs[id].gid == g
  }

  /** A call that has not ended is on its goroutine's stack. */
  ghost predicate UnendedRunning(r: Ref) {
    forall id :: 0 <= id < |r.logs| && !r.logs[id].IsEnded() ==> OnStack(r, id)
  }

  ghost predicate Laminar(r: Ref) {
    forall a, b :: 0 <= a < b < |r.logs| && r.logs[a].gid == r.logs[b].gid ==>
      Before(r.logs[a], r.logs[b]) || Contains(r.logs[a], r.logs[b])
  }

  ghost predicate InsideParents(r: Ref) {
    forall b :: 0 <= b < |r.logs| && 0 <= r.logs[b].parentID < b ==>
      r.logs[r.logs[b].parentID].gid == r.logs[b].gid && Contains(r.logs[r.logs[b].parentID], r.logs[b])
  }

  ghost predicate InsideSpans(r: Ref) {
    && (forall id :: 0 <= id < |r.logs| ==>
          InTime(r.logs[id].gid) && r.logs[id].gid in r.spans && SpanContains(r.spans[r.logs[id].gid], r.logs[id]))
    && forall g :: g in r.spans ==> (r.spans[g].endTime == NOT_ENDED <==> Stack(r, g) != [])
  }

  ghost predicate TimelineOk(r: Ref, now: int) {
    && RefOk(r) && TimesOk(r, now) && UnendedRunning(r)
    && Laminar(r) && InsideParents(r) && InsideSpans(r)
  }

  // ---------- start events ----------

  lemma StartTimes(r: Ref, raw: RawFuncLog, now: int)
    requires RefOk(r) && TimesOk(r, now) && now <= raw.timestamp && 0 <= raw.timestamp
    ensures TimesOk(RefStart(r, raw), raw.timestamp)
  {
  }

  lemma StartUnended(r: Ref, raw: RawFuncLog)
    requires UnendedRunning(r)
    ensures UnendedRunning(RefStart(r, raw))
  {
    var r' := RefStart(r, raw);
    forall id | 0 <= id < |r'.logs| && !r'.logs[id].IsEnded() ensures OnStack(r', id) {
      if id == |r.logs| {
        assert Running(r', raw.gid, |Stack(r, raw.gid)|);
      } else {
        var g, i :| Running(r, g, i) && r.stacks[g][i].id == id && r.logs[id].gid == g;
        assert Running(r', g, i) && r'.stacks[g][i].id == id;
      }
    }
  }

  lemma StartLaminar(r: Ref, raw: RawFuncLog, now: int)
    requires TimesOk(r, now) && now <= raw.timestamp && Laminar(r)
    ensures Laminar(RefStart(r, raw))
  {
  }

  lemma StartParents(r: Ref, raw: RawFuncLog, now: int)
    requires RefOk(r) && TimesOk(r, now) && now <= raw.timestamp && InsideParents(r)
    ensures InsideParents(RefStart(r, raw))
  {
    var n := |Stack(r, raw.gid)|;
    if n > 0 {
      assert Running(r, raw.gid, n - 1) && RunningCallOk(r, raw.gid, n - 1);
    }
  }

  lemma StartSpans(r: Ref, raw: RawFuncLog, now: int)
    requires RefOk(r) && TimesOk(r, now) && now <= raw.timestamp && InsideSpans(r)
    ensures InsideSpans(RefStart(r, raw))
  {
    var n := |Stack(r, raw.gid)|;
    if n > 0 {
      assert Running(r, raw.gid, n - 1) && RunningCallOk(r, raw.gid, n - 1);
    }
  }

  // ---------- end events ----------

  lemma EndTimes(r: Ref, raw: RawFuncLog, now: int)
    requires RefOk(r) && TimesOk(r, now) && now <= raw.timestamp && raw.tag == FUNC_END && Legal(r, raw)
    ensures TimesOk(RefEnd(r, raw), raw.timestamp)
  {
    RefEndOk(r, raw);
  }

  lemma EndUnended(r: Ref, raw: RawFuncLog)
    requires RefOk(r) && UnendedRunning(r) && raw.tag == FUNC_END && Legal(r, raw) && raw.timestamp >= 0
    ensures UnendedRunning(RefEnd(r, raw))
  {
    RefEndOk(r, raw);
    var r', top := RefEnd(r, raw), Top(Stack(r, raw.gid));
    forall id | 0 <= id < |r'.logs| && !r'.logs[id].IsEnded() ensures OnStack(r', id) {
      assert id != top;
      var g, i :| Running(r, g, i) && r.stacks[g][i].id == id && r.logs[id].gid == g;
      assert Running(r', g, i) && r'.stacks[g][i].id == id;
    }
  }

  /** The call an end event closes is the last started unended call of its goroutine. */
  lemma TopIsLast(r: Ref, g: Int64, id: int)
    requires RefOk(r) && UnendedRunning(r) && Stack(r, g) != []
    requires 0 <= id < |r.logs| && r.logs[id].gid == g && !r.logs[id].IsEnded()
    ensures id <= Top(Stack(r, g))
  {
    var h, i :| Running(r, h, i) && r.stacks[h][i].id == id && r.logs[id].gid == h;
    StackIncreasing(r, g, i, |Stack(r, g)| - 1);
  }

  lemma EndLaminar(r: Ref, raw: RawFuncLog, now: int)
    requires RefOk(r) && TimesOk(r, now) && now <= raw.timestamp && UnendedRunning(r) && Laminar(r)
    requires raw.tag == FUNC_END && Legal(r, raw) && raw.timestamp >= 0
    ensures Laminar(RefEnd(r, raw))
  {
    RefEndOk(r, raw);
    var r', top := RefEnd(r, raw), Top(Stack(r, raw.gid));
    assert Running(r, raw.gid, |Stack(r, raw.gid)| - 1);
    forall a, b | 0 <= a < b < |r'.logs| && r'.logs[a].gid == r'.logs[b].gid
      ensures Before(r'.logs[a], r'.logs[b]) || Contains(r'.logs[a], r'.logs[b])
    {
      assert Before(r.logs[a], r.logs[b]) || Contains(r.logs[a], r.logs[b]);
      if a == top && !r.logs[b].IsEnded() {
        TopIsLast(r, raw.gid, b);
      }
    }
  }

  lemma EndParents(r: Ref, raw: RawFuncLog, now: int)
    requires RefOk(r) && TimesOk(r, now) && now <= raw.timestamp && UnendedRunning(r) && InsideParents(r)
    requires raw.tag == FUNC_END && Legal(r, raw) && raw.timestamp >= 0
    ensures InsideParents(RefEnd(r, raw))
  {
    RefEndOk(r, raw);
    var r', top := RefEnd(r, raw), Top(Stack(r, raw.gid));
    assert Running(r, raw.gid, |Stack(r, raw.gid)| - 1);
    forall b | 0 <= b < |r'.logs| && 0 <= r'.logs[b].parentID < b
      ensures r'.logs[r'.logs[b].parentID].gid == r'.logs[b].gid
      ensures Contains(r'.logs[r'.logs[b].parentID], r'.logs[b])
    {
      var p := r.logs[b].parentID;
      assert r.logs[p].gid == r.logs[b].gid && Contains(r.logs[p], r.logs[b]);
      if p == top && !r.logs[b].IsEnded() {
        TopIsLast(r, raw.gid, b);
      }
    }
  }

  lemma EndSpans(r: Ref, raw: RawFuncLog, now: int)
    requires RefOk(r) && TimesOk(r, now) && now <= raw.timestamp && UnendedRunning(r) && InsideSpans(r)
    requires raw.tag == FUNC_END && Legal(r, raw) && raw.timestamp >= 0
    ensures InsideSpans(RefEnd(r, raw))
  {
    RefEndOk(r, raw);
    var r', n := RefEnd(r, raw), |Stack(r, raw.gid)|;
    assert Running(r, raw.gid, n - 1);
    forall id | 0 <= id < |r'.logs|
      ensures InTime(r'.logs[id].gid) && r'.logs[id].gid in r'.spans
      ensures SpanContains(r'.spans[r'.logs[id].gid], r'.logs[id])
    {
      assert SpanContains(r.spans[r.logs[id].gid], r.logs[id]);
      if n == 1 && r.logs[id].gid == raw.gid && !r.logs[id].IsEnded() {
        var h, i :| Running(r, h, i) && r.stacks[h][i].id == id && r.logs[id].gid == h;
      }
    }
  }

  // ---------- all runs ----------

  lemma StepTimeline(r: Ref, raw: RawFuncLog, now: int)
    requires TimelineOk(r, now) && Legal(r, raw) && now <= raw.timestamp && 0 <= raw.timestamp
    ensures TimelineOk(RefStep(r, raw), raw.timestamp)
  {
    if raw.tag == FUNC_START {
      RefStartOk(r, raw);
      StartTimes(r, raw, now);
      StartUnended(r, raw);
      StartLaminar(r, raw, now);
      StartParents(r, raw, now);
      StartSpans(r, raw, now);
    } else {
      RefEndOk(r, raw);
      EndTimes(r, raw, now);
      EndUnended(r, raw);
      EndLaminar(r, raw, now);
      EndParents(r, raw, now);
      EndSpans(r, raw, now);
    }
  }

  /** For every legal event stream with non-decreasing timestamps: calls of one goroutine are pairwise nested or
      disjoint in time, each lies inside its parent and inside its goroutine's interval, and a goroutine is marked
      not-ended exactly when its stack is non-empty, also after re-activation. */
  lemma {:induction false} TimelineHolds(events: seq<RawFuncLog>)
    requires LegalEvents(events) && Monotone(events)
    ensures TimelineOk(RefOf(events), if events == [] then 0 else events[|events| - 1].timestamp)
  {
    if events != [] {
      var n := |events| - 1;
      TimelineHolds(events[..n]);
      StepTimeline(RefOf(events[..n]), events[n], if n == 0 then 0 else events[n - 1].timestamp);
    }
  }

  /** The same of the simulator's own goroutine table, wherever it agrees with the reference. */
  lemma GoroutineMarks(s: Sim, events: seq<RawFuncLog>, g: Int64)
    requires LegalEvents(events) && Monotone(events) && Agrees(s, RefOf(events)) && g in s.goroutines
    ensures s.goroutines[g].endTime == NOT_ENDED <==> s.stacks[g] != NOT_FOUND_PARENT
  {
    TimelineHolds(events);
    var r := RefOf(events);
    if Stack(r, g) != [] {
      assert Running(r, g, |Stack(r, g)| - 1) && RunningCallOk(r, g, |Stack(r, g)| - 1);
    }
  }
}

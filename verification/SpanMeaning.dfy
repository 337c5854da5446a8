/** What the goroutine intervals mean in terms of the event stream alone: a goroutine is known once a start event carries its
    id, it starts with the first such event, and it has ended with its last end event unless one of its calls is open. */
module SpanMeaning {
  import opened Types
  import opened Codec
  import opened Simulator
  import opened CallStack
  import opened EventMeaning
  import opened Worker

  predicate StartOf(raw: RawFuncLog, g: int) {
    raw.tag == FUNC_START && raw.gid == g
  }

  predicate EndOf(raw: RawFuncLog, g: int) {
    raw.tag == FUNC_END && raw.gid == g
  }

  /** The position of the first start event of goroutine g. */
  function FirstStart(events: seq<RawFuncLog>, g: int): (i: Option<nat>)
    ensures i.Some? ==> i.value < |events| && StartOf(events[i.value], g)
  {
    if events == [] then None
    else
      var n := |events| - 1;
      var before := FirstStart(events[..n], g);
      if before.Some? then before else if StartOf(events[n], g) then Some(n) else None
  }

  lemma {:induction false} FirstStartIsFirst(events: seq<RawFuncLog>, g: int)
    ensures var stop := if FirstStart(events, g).Some? then FirstStart(events, g).value else |events|;
            forall m :: 0 <= m < stop ==> !StartOf(events[m], g)
  {
    if events != [] {
      FirstStartIsFirst(events[..|events| - 1], g);
    }
  }

  /** The position of the last end event of goroutine g. */
  function LastEnd(events: seq<RawFuncLog>, g: int): (i: Option<nat>)
    ensures i.Some? ==> i.value < |events| && EndOf(events[i.value], g)
  {
    if events == [] then None
    else
      var n := |events| - 1;
      if EndOf(events[n], g) then Some(n) else LastEnd(events[..n], g)
  }

  lemma {:induction false} LastEndIsLast(events: seq<RawFuncLog>, g: int)
    ensures var from := if LastEnd(events, g).Some? then LastEnd(events, g).value + 1 else 0;
            forall m :: from <= m < |events| ==> !EndOf(events[m], g)
  {
    if events != [] && !EndOf(events[|events| - 1], g) {
      LastEndIsLast(events[..|events| - 1], g);
    }
  }

  ghost predicate SomeOpen(events: seq<RawFuncLog>, g: int) {
    exists k :: IsOpen(events, g, k)
  }

  /** The interval of goroutine g, read off the event stream. */
  ghost predicate SpanIs(events: seq<RawFuncLog>, g: int, span: Goroutine) {
    && FirstStart(events, g).Some?
    && span.gid == g
    && span.startTime == events[FirstStart(events, g).value].timestamp
    && (if SomeOpen(events, g) then span.endTime == NOT_ENDED
        else LastEnd(events, g).Some? && span.endTime == events[LastEnd(events, g).value].timestamp)
  }

  /** The same with the stack in place of the open calls. */
  ghost predicate SpanTracks(events: seq<RawFuncLog>, r: Ref, g: Int64) {
    && (g in r.spans <==> FirstStart(events, g).Some?)
    && (g !in r.spans ==> Stack(r, g) == [])
    && (g in r.spans ==>
          && r.spans[g].gid == g && r.spans[g].startTime == events[FirstStart(events, g).value].timestamp
          && (if Stack(r, g) != [] then r.spans[g].endTime == NOT_ENDED
              else LastEnd(events, g).Some? && r.spans[g].endTime == events[LastEnd(events, g).value].timestamp))
  }

  lemma StepTracks(events: seq<RawFuncLog>, r: Ref, raw: RawFuncLog, g: Int64)
    requires Legal(r, raw) && SpanTracks(events, r, g)
    ensures SpanTracks(events + [raw], RefStep(r, raw), g)
  {
    assert (events + [raw])[..|events|] == events;
  }

  lemma {:induction false} RunTracks(events: seq<RawFuncLog>, g: Int64)
    requires LegalEvents(events)
    ensures SpanTracks(events, RefOf(events), g)
  {
    if events != [] {
      var before, raw := events[..|events| - 1], events[|events| - 1];
      RunTracks(before, g);
      StepTracks(before, RefOf(before), raw, g);
      assert before + [raw] == events;
    }
  }

  lemma OpenIsRunning(events: seq<RawFuncLog>, g: Int64)
    requires LegalEvents(events)
    ensures SomeOpen(events, g) <==> Stack(RefOf(events), g) != []
  {
    var r, n := RefOf(events), |Starts(events)|;
    LogsMeanEvents(events);
    TopIsLastOpen(events, r, g);
    LastOpenIsLast(events, g, n);
    if Stack(r, g) != [] {
      assert Running(r, g, |Stack(r, g)| - 1);
      assert IsOpen(events, g, Top(Stack(r, g)));
    }
  }

  /** For every legal event stream, the intervals the stacks give are the ones read off the stream. */
  lemma SpansMeanEvents(events: seq<RawFuncLog>, g: Int64)
    requires LegalEvents(events)
    ensures g in RefOf(events).spans <==> exists i :: 0 <= i < |events| && StartOf(events[i], g)
    ensures g in RefOf(events).spans ==> SpanIs(events, g, RefOf(events).spans[g])
  {
    RunTracks(events, g);
    OpenIsRunning(events, g);
    FirstStartIsFirst(events, g);
  }

  /** The same of the simulator's own table, wherever it agrees with the reference. */
  lemma GoroutinesMeanEvents(s: Sim, events: seq<RawFuncLog>, g: Int64)
    requires LegalEvents(events) && Agrees(s, RefOf(events))
    ensures g in s.goroutines <==> exists i :: 0 <= i < |events| && StartOf(events[i], g)
    ensures g in s.goroutines ==> SpanIs(events, g, s.goroutines[g])
  {
    SpansMeanEvents(events, g);
  }

  // ---------- the files ----------

  ghost predicate LogDecodes(w: World, events: seq<RawFuncLog>, k: int)
    requires 0 <= k < |w.logs| && k < |Starts(events)|
  {
    var rec := DecFuncLog(w.logs[k]);
    rec.Parsed? && rec.value == Meaning(events, k)
  }

  ghost predicate SpanDecodes(w: World, events: seq<RawFuncLog>, g: Int64) {
    && 0 <= g < |w.goroutines|
    && DecGoroutine(w.goroutines[g]).Parsed? && SpanIs(events, g, DecGoroutine(w.goroutines[g]).value)
  }

  /** The files read off the event stream: one record per start event, in order, that decodes to the call it began; and for
      every goroutine that a start event names, the record that decodes to its interval. */
  ghost predicate FilesMean(w: World, events: seq<RawFuncLog>) {
    && |w.logs| == |Starts(events)|
    && (forall k :: 0 <= k < |w.logs| && k < TWO63 ==> LogDecodes(w, events, k))
    && (forall i :: 0 <= i < |events| && events[i].tag == FUNC_START ==> SpanDecodes(w, events, events[i].gid))
  }

  lemma DecodesMeansEvents(w: World, events: seq<RawFuncLog>)
    requires LegalEvents(events) && Decodes(w, RefOf(events))
    ensures FilesMean(w, events)
  {
    LogsMeanEvents(events);
    forall i | 0 <= i < |events| && events[i].tag == FUNC_START ensures SpanDecodes(w, events, events[i].gid) {
      var g := events[i].gid;
      assert StartOf(events[i], g);
      SpansMeanEvents(events, g);
    }
  }

  lemma {:induction false} LegalRunEvents(steps: seq<Step>)
    requires LegalRun(steps)
    ensures LegalEvents(EventsOf(steps))
  {
    if steps != [] {
      var before, step := steps[..|steps| - 1], steps[|steps| - 1];
      LegalRunEvents(before);
      if step.Event? {
        assert (EventsOf(before) + [step.raw])[..|EventsOf(before)|] == EventsOf(before);
      }
    }
  }

  /** However events and flushes were interleaved, after a last flush the files are what the event stream says. */
  lemma FlushedFilesMeanEvents(steps: seq<Step>, order: seq<int>, gorder: seq<int>)
    requires LegalRun(steps + [Flush(order, gorder)])
    ensures FilesMean(RunWorld(steps + [Flush(order, gorder)]), EventsOf(steps))
  {
    var all := steps + [Flush(order, gorder)];
    assert all[..|all| - 1] == steps;
    LegalRunEvents(steps);
    FlushedStoreIsReference(steps, order, gorder);
    DecodesMeansEvents(RunWorld(all), EventsOf(steps));
  }
}

/** What the call logs mean in terms of the event stream alone, without stacks: call k is the k-th start event, it ends
    at the first later end event carrying its transaction id, and its parent is the last earlier call of the same
    goroutine that was still open when it started. */
module EventMeaning {
  import opened Types
  import opened Simulator
  import opened CallStack

  /** The positions of the start events, in order. */
  function Starts(events: seq<RawFuncLog>): (p: seq<nat>)
    ensures forall k :: 0 <= k < |p| ==> p[k] < |events| && events[p[k]].tag == FUNC_START
  {
    if events == [] then []
    else
      var n := |events| - 1;
      var before := Starts(events[..n]);
      if events[n].tag == FUNC_START then before + [n] else before
  }

  /** Starts lists every start event once, in order. */
  lemma {:induction false} StartsComplete(events: seq<RawFuncLog>)
    ensures forall k, l :: 0 <= k < l < |Starts(events)| ==> Starts(events)[k] < Starts(events)[l]
    ensures forall i :: 0 <= i < |events| ==> (events[i].tag == FUNC_START <==> i in Starts(events))
  {
    if events != [] {
      var n := |events| - 1;
      StartsComplete(events[..n]);
      assert forall i :: 0 <= i < n ==> events[..n][i] == events[i];
    }
  }

  /** The first end event after position i with the transaction id of event i. */
  function EndAfter(events: seq<RawFuncLog>, i: nat): (j: Option<nat>)
    requires i < |events|
    ensures j.Some? ==> i < j.value < |events|
    decreases |events|
  {
    var n := |events| - 1;
    if n == i then None
    else
      var before := EndAfter(events[..n], i);
      if before.Some? then before
      else if events[n].tag == FUNC_END && events[n].txid == events[i].txid then Some(n)
      else None
  }

  /** EndAfter is what its name says. */
  lemma {:induction false} EndAfterIsFirst(events: seq<RawFuncLog>, i: nat)
    requires i < |events|
    ensures var j := EndAfter(events, i);
            var stop := if j.Some? then j.value else |events|;
            && (forall m :: i < m < stop ==> !(events[m].tag == FUNC_END && events[m].txid == events[i].txid))
            && (j.Some? ==> events[j.value].tag == FUNC_END && events[j.value].txid == events[i].txid)
    decreases |events|
  {
    var n := |events| - 1;
    if n != i {
      EndAfterIsFirst(events[..n], i);
    }
  }

  /** The last of the first m calls that is on goroutine g and still open; -1 when there is none. */
  function LastOpen(events: seq<RawFuncLog>, g: int, m: nat): (k: int)
    requires m <= |Starts(events)|
  {
    if m == 0 then NOT_FOUND_PARENT
    else if events[Starts(events)[m - 1]].gid == g && EndAfter(events, Starts(events)[m - 1]).None? then m - 1
    else LastOpen(events, g, m - 1)
  }

  lemma {:induction false} LastOpenIsLast(events: seq<RawFuncLog>, g: int, m: nat)
    requires m <= |Starts(events)|
    ensures var k := LastOpen(events, g, m);
            && -1 <= k < m
            && (k >= 0 ==> IsOpen(events, g, k))
            && forall l :: k < l < m ==> !IsOpen(events, g, l)
  {
    if m > 0 {
      LastOpenIsLast(events, g, m - 1);
    }
  }

  ghost predicate IsOpen(events: seq<RawFuncLog>, g: int, k: int) {
    && 0 <= k < |Starts(events)|
    && events[Starts(events)[k]].gid == g && EndAfter(events, Starts(events)[k]).None?
  }

  /** The log of call k, read off the event stream. */
  function Meaning(events: seq<RawFuncLog>, k: nat): FuncLog
    requires k < |Starts(events)|
  {
    var i := Starts(events)[k];
    var j := EndAfter(events, i);
    FuncLog(k,
            events[i].timestamp,
            if j.Some? then events[j.value].timestamp else NOT_ENDED,
            LastOpen(events[..i], events[i].gid, |Starts(events[..i])|),
            events[i].frames,
            events[i].gid)
  }

  /** Running calls and open start events are the same, with the same transaction id. */
  ghost predicate OpenAgrees(events: seq<RawFuncLog>, r: Ref) {
    RunningOpen(events, r) && OpenRunning(events, r)
  }

  ghost predicate RunningOpen(events: seq<RawFuncLog>, r: Ref) {
    forall g: Int64, i :: Running(r, g, i) ==>
      IsOpen(events, g, r.stacks[g][i].id) && events[Starts(events)[r.stacks[g][i].id]].txid == r.stacks[g][i].txid
  }

  ghost predicate OpenRunning(events: seq<RawFuncLog>, r: Ref) {
    forall g: Int64, k :: IsOpen(events, g, k) ==> HasCall(r, g, k)
  }

  ghost predicate HasCall(r: Ref, g: Int64, k: int) {
    exists i :: Running(r, g, i) && r.stacks[g][i].id == k
  }

  ghost predicate MeaningAgrees(events: seq<RawFuncLog>, r: Ref) {
    && |r.logs| == |Starts(events)|
    && forall k :: 0 <= k < |r.logs| ==> r.logs[k] == Meaning(events, k)
  }

  lemma TopIsLastOpen(events: seq<RawFuncLog>, r: Ref, g: Int64)
    requires RefOk(r) && OpenAgrees(events, r)
    ensures Top(Stack(r, g)) == LastOpen(events, g, |Starts(events)|)
  {
    var k := LastOpen(events, g, |Starts(events)|);
    LastOpenIsLast(events, g, |Starts(events)|);
    var n := |Stack(r, g)|;
    if n > 0 {
      assert Running(r, g, n - 1);
      assert IsOpen(events, g, Top(Stack(r, g)));
    }
    if k >= 0 {
      assert HasCall(r, g, k);
      var i :| Running(r, g, i) && r.stacks[g][i].id == k;
      StackIncreasing(r, g, i, n - 1);
    }
  }

  lemma PrefixFacts(events: seq<RawFuncLog>, raw: RawFuncLog, k: nat)
    requires k < |Starts(events)|
    ensures (events + [raw])[..|events|] == events
    ensures k < |Starts(events + [raw])| && Starts(events + [raw])[k] == Starts(events)[k]
    ensures (events + [raw])[..Starts(events)[k]] == events[..Starts(events)[k]]
  {
    assert (events + [raw])[..|events|] == events;
  }

  lemma StartOpen(events: seq<RawFuncLog>, r: Ref, raw: RawFuncLog)
    requires |r.logs| == |Starts(events)| && OpenAgrees(events, r) && raw.tag == FUNC_START
    ensures OpenAgrees(events + [raw], RefStart(r, raw))
  {
    var events', r' := events + [raw], RefStart(r, raw);
    assert events'[..|events|] == events;
    assert Starts(events') == Starts(events) + [|events|];
    forall g: Int64, i | Running(r', g, i)
      ensures IsOpen(events', g, r'.stacks[g][i].id)
      ensures events'[Starts(events')[r'.stacks[g][i].id]].txid == r'.stacks[g][i].txid
    {
      if g != raw.gid || i < |Stack(r, raw.gid)| {
        assert Running(r, g, i) && IsOpen(events, g, r.stacks[g][i].id);
      }
    }
    forall g: Int64, k | IsOpen(events', g, k) ensures HasCall(r', g, k) {
      if k == |r.logs| {
        assert Running(r', g, |Stack(r, g)|);
      } else {
        assert IsOpen(events, g, k);
        var i :| Running(r, g, i) && r.stacks[g][i].id == k;
        assert Running(r', g, i) && r'.stacks[g][i].id == k;
      }
    }
  }

  lemma StartMeaning(events: seq<RawFuncLog>, r: Ref, raw: RawFuncLog)
    requires RefOk(r) && OpenAgrees(events, r) && MeaningAgrees(events, r) && raw.tag == FUNC_START
    ensures MeaningAgrees(events + [raw], RefStart(r, raw))
  {
    var events', r' := events + [raw], RefStart(r, raw);
    assert events'[..|events|] == events;
    TopIsLastOpen(events, r, raw.gid);
    forall k | 0 <= k < |r'.logs| ensures r'.logs[k] == Meaning(events', k) {
      if k < |r.logs| {
        PrefixFacts(events, raw, k);
        assert r.logs[k] == Meaning(events, k);
      }
    }
  }

  /** The transaction an end event names is open at one place only: the top of its goroutine's stack. */
  lemma EndClosesTop(r: Ref, raw: RawFuncLog, g: Int64, i: int)
    requires RefOk(r) && raw.tag == FUNC_END && Legal(r, raw) && UniqueTxids(r) && Running(r, g, i)
    ensures r.stacks[g][i].txid == raw.txid <==> r.stacks[g][i].id == Top(Stack(r, raw.gid))
    ensures r.stacks[g][i].txid != raw.txid ==>
              Running(RefEnd(r, raw), g, i) && RefEnd(r, raw).stacks[g][i] == r.stacks[g][i]
  {
    var n := |Stack(r, raw.gid)| - 1;
    assert Running(r, raw.gid, n);
    if r.stacks[g][i].txid == raw.txid {
      assert SameCallIfSameTxid(r, g, i, raw.gid, n);
    } else if r.stacks[g][i].id == Top(Stack(r, raw.gid)) {
      RunningUnique(r, g, i, raw.gid, n);
    }
  }

  ghost predicate SameCallIfSameTxid(r: Ref, g: Int64, i: int, h: Int64, j: int)
    requires Running(r, g, i) && Running(r, h, j)
  {
    r.stacks[g][i].txid == r.stacks[h][j].txid ==> g == h && i == j
  }

  ghost predicate UniqueTxids(r: Ref) {
    forall g, i, h, j :: Running(r, g, i) && Running(r, h, j) ==> SameCallIfSameTxid(r, g, i, h, j)
  }

  lemma StepUnique(r: Ref, raw: RawFuncLog)
    requires UniqueTxids(r) && Legal(r, raw)
    ensures UniqueTxids(RefStep(r, raw))
  {
    var r' := RefStep(r, raw);
    var n := |Stack(r, raw.gid)|;
    forall g, i, h, j | Running(r', g, i) && Running(r', h, j) ensures SameCallIfSameTxid(r', g, i, h, j) {
      if raw.tag == FUNC_END || ((g != raw.gid || i < n) && (h != raw.gid || j < n)) {
        assert Running(r, g, i) && Running(r, h, j) && SameCallIfSameTxid(r, g, i, h, j);
      } else if g != raw.gid || i < n {
        assert Running(r, g, i);
      } else if h != raw.gid || j < n {
        assert Running(r, h, j);
      }
    }
  }

  lemma EndRunningOpen(events: seq<RawFuncLog>, r: Ref, raw: RawFuncLog, g: Int64, i: int)
    requires RefOk(r) && OpenAgrees(events, r) && UniqueTxids(r)
    requires raw.tag == FUNC_END && Legal(r, raw) && Running(RefEnd(r, raw), g, i)
    ensures Running(r, g, i)
    ensures var c := r.stacks[g][i];
            IsOpen(events + [raw], g, c.id) && (events + [raw])[Starts(events + [raw])[c.id]].txid == c.txid
  {
    var n, c := |Stack(r, raw.gid)| - 1, r.stacks[g][i];
    assert (events + [raw])[..|events|] == events;
    assert Running(r, raw.gid, n) && Running(r, g, i);
    assert IsOpen(events, g, c.id);
    assert SameCallIfSameTxid(r, g, i, raw.gid, n);
  }

  lemma EndOpenRunning(events: seq<RawFuncLog>, r: Ref, raw: RawFuncLog, g: Int64, k: int, i: int)
    requires RefOk(r) && RunningOpen(events, r) && UniqueTxids(r) && raw.tag == FUNC_END && Legal(r, raw)
    requires IsOpen(events + [raw], g, k) && Running(r, g, i) && r.stacks[g][i].id == k
    ensures HasCall(RefEnd(r, raw), g, k)
  {
    assert (events + [raw])[..|events|] == events;
    EndClosesTop(r, raw, g, i);
  }

  lemma EndOpen(events: seq<RawFuncLog>, r: Ref, raw: RawFuncLog)
    requires RefOk(r) && OpenAgrees(events, r) && UniqueTxids(r)
    requires raw.tag == FUNC_END && Legal(r, raw)
    ensures OpenAgrees(events + [raw], RefEnd(r, raw))
  {
    var events', r' := events + [raw], RefEnd(r, raw);
    forall g: Int64, i | Running(r', g, i)
      ensures IsOpen(events', g, r'.stacks[g][i].id)
      ensures events'[Starts(events')[r'.stacks[g][i].id]].txid == r'.stacks[g][i].txid
    {
      EndRunningOpen(events, r, raw, g, i);
    }
    forall g: Int64, k | IsOpen(events', g, k) ensures HasCall(r', g, k) {
      assert events'[..|events|] == events;
      assert IsOpen(events, g, k) && HasCall(r, g, k);
      var i :| Running(r, g, i) && r.stacks[g][i].id == k;
      EndOpenRunning(events, r, raw, g, k, i);
    }
  }

  lemma EndMeaning(events: seq<RawFuncLog>, r: Ref, raw: RawFuncLog)
    requires RefOk(r) && OpenAgrees(events, r) && MeaningAgrees(events, r) && UniqueTxids(r)
    requires raw.tag == FUNC_END && Legal(r, raw)
    ensures MeaningAgrees(events + [raw], RefEnd(r, raw))
  {
    var events', r' := events + [raw], RefEnd(r, raw);
    var top := Top(Stack(r, raw.gid));
    assert events'[..|events|] == events;
    RefEndOk(r, raw);
    assert Running(r, raw.gid, |Stack(r, raw.gid)| - 1) && IsOpen(events, raw.gid, top);
    forall k | 0 <= k < |r'.logs| ensures r'.logs[k] == Meaning(events', k) {
      PrefixFacts(events, raw, k);
      assert r.logs[k] == Meaning(events, k);
      var i := Starts(events)[k];
      if EndAfter(events, i).None? {
        assert IsOpen(events, events[i].gid, k) && HasCall(r, events[i].gid, k);
        var p :| Running(r, events[i].gid, p) && r.stacks[events[i].gid][p].id == k;
        EndClosesTop(r, raw, events[i].gid, p);
      }
    }
  }

  /** For every legal event stream, the logs the stacks give are the ones read off the stream. */
  lemma {:induction false} LogsMeanEvents(events: seq<RawFuncLog>)
    requires LegalEvents(events)
    ensures RefOk(RefOf(events)) && UniqueTxids(RefOf(events))
    ensures OpenAgrees(events, RefOf(events)) && MeaningAgrees(events, RefOf(events))
  {
    if events != [] {
      var n := |events| - 1;
      var before, raw := events[..n], events[n];
      LogsMeanEvents(before);
      var r := RefOf(before);
      assert before + [raw] == events;
      StepUnique(r, raw);
      if raw.tag == FUNC_START {
        RefStartOk(r, raw);
        StartOpen(before, r, raw);
        StartMeaning(before, r, raw);
      } else {
        RefEndOk(r, raw);
        EndOpen(before, r, raw);
        EndMeaning(before, r, raw);
      }
    }
  }
}

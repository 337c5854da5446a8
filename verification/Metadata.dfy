/** Versioned metadata: the compare-and-set of tracer/storage/log.go and the retry loop of tracer/restapi/client.go. */
module Metadata {
  import opened Types

  datatype LogMetadata = LogMetadata(
    timestamp: int,
    pid: Int64,
    host: GoString,
    appName: GoString,
    traceTarget: Slice<GoString>,
    ui: Bytes)

  /** What a caller does to the metadata it has read; None is the callback's own error. The timestamp worker is a caller
      with one try whose callback declines when the timestamp is already right. */
  type Update = LogMetadata -> Option<LogMetadata>

  /** The updates applied one after the other. */
  ghost function Compose(init: LogMetadata, updates: seq<Update>): Option<LogMetadata> {
    if updates == [] then Some(init)
    else match Compose(init, updates[..|updates| - 1])
      case None => None
      case Some(m) => updates[|updates| - 1](m)
  }

  // ---------- the log object ----------

  class Log {
    var version: int
    var metadata: LogMetadata
    ghost var notified: seq<(int, LogMetadata)>    // what the watchers were told, in order

    /** The watchers know the current version. */
    ghost predicate Valid()
      reads this
    {
      notified != [] ==> notified[|notified| - 1] == (version, metadata)
    }

    constructor (metadata: LogMetadata)
      ensures Valid() && version == 1 && this.metadata == metadata && notified == []
    {
      version := 1;
      this.metadata := metadata;
      notified := [];
    }

    /** UpdateMetadata: accepted exactly when the caller saw the current version. */
    method UpdateMetadata(currentVer: int, meta: LogMetadata) returns (ok: bool)
      requires Valid()
      modifies this
      ensures Valid() && (ok <==> currentVer == old(version))
      ensures ok ==> version == old(version) + 1 && metadata == meta && notified == old(notified) + [(version, meta)]
      ensures !ok ==> version == old(version) && metadata == old(metadata) && notified == old(notified)
    {
      if version != currentVer {
        return false;
      }
      version := version + 1;
      metadata := meta;
      notified := notified + [(version, meta)];
      return true;
    }
  }

  datatype ClientResult = Updated | ErrConflict | ErrCallback

  /** The metadata the newest update was made from, since the log stood at `was`. */
  ghost function Previous(log: Log, was: LogMetadata, since: nat): LogMetadata
    requires since < |log.notified|
    reads log
  {
    if since == |log.notified| - 1 then was else log.notified[|log.notified| - 2].1
  }

  /** UpdateLogInfo with the world moving on: while try i lies between its read and its write, others[i] other updates
      succeed. It reports a conflict exactly when every try was overtaken; when it succeeds, the metadata is the callback's
      answer to the very version before. */
  method UpdateLogInfo(log: Log, tries: nat, fn: Update, others: seq<seq<LogMetadata>>) returns (r: ClientResult)
    requires |others| == tries
    requires log.Valid()
    modifies log
    ensures log.Valid() && |log.notified| - |old(log.notified)| == log.version - old(log.version) >= 0
    ensures r == ErrConflict ==> forall i :: 0 <= i < tries ==> others[i] != []
    ensures r == Updated ==> exists i :: 0 <= i < tries && others[i] == []
    ensures (forall i :: 0 <= i < tries ==> others[i] != []) ==> r != Updated
    ensures r == ErrConflict ==> log.version >= old(log.version) + tries
    ensures r == ErrCallback ==> fn(log.metadata).None?
    ensures r == Updated ==>
              && |old(log.notified)| < |log.notified|
              && fn(Previous(log, old(log.metadata), |old(log.notified)|)) == Some(log.metadata)
  {
    for i := 0 to tries
      invariant log.Valid() && |log.notified| - |old(log.notified)| == log.version - old(log.version) >= i
      invariant |log.notified| == |old(log.notified)| ==> log.metadata == old(log.metadata)
      invariant forall k :: 0 <= k < i ==> others[k] != []
    {
      var ver, info := log.version, log.metadata;
      var meta := fn(info);
      if meta.None? {
        return ErrCallback;
      }
      Overtake(log, others[i]);
      var ok := log.UpdateMetadata(ver, meta.value);
      if ok {
        return Updated;
      }
    }
    return ErrConflict;
  }

  method Overtake(log: Log, metas: seq<LogMetadata>)
    requires log.Valid()
    modifies log
    ensures log.Valid() && log.version == old(log.version) + |metas| && |log.notified| == |old(log.notified)| + |metas|
    ensures metas == [] ==> log.metadata == old(log.metadata) && log.notified == old(log.notified)
  {
    for i := 0 to |metas|
      invariant log.Valid() && log.version == old(log.version) + i && |log.notified| == |old(log.notified)| + i
      invariant i == 0 ==> log.metadata == old(log.metadata) && log.notified == old(log.notified)
    {
      var ok := log.UpdateMetadata(log.version, metas[i]);
    }
  }

  // ---------- every interleaving of any number of callers ----------

  datatype Proc =
    | Idle
    | Trying(fn: Update, tries: int, failed: nat, since: nat)
    | Holding(fn: Update, tries: int, failed: nat, since: nat, ver: int, meta: LogMetadata)
    | Succeeded
    | Conflicted(tries: int, since: nat)
    | CallbackFailed

  /** `accepted` lists the updates that went through, with who made them; `since` in a caller counts how many had gone
      through when it began. */
  datatype World = World(version: int, meta: LogMetadata, procs: seq<Proc>, accepted: seq<(nat, Update)>)

  datatype Step =
    | Begin(p: nat, fn: Update, tries: int)
    | Read(p: nat)       // LogInfo and the callback
    | Write(p: nat)      // SetLogInfo
    | GiveUp(p: nat)

  ghost predicate Enabled(w: World, step: Step) {
    && step.p < |w.procs|
    && match step
       case Begin(p, _, _) => w.procs[p].Idle?
       case Read(p) => w.procs[p].Trying? && w.procs[p].failed < w.procs[p].tries
       case Write(p) => w.procs[p].Holding?
       case GiveUp(p) => w.procs[p].Trying? && w.procs[p].failed >= w.procs[p].tries
  }

  ghost function Next(w: World, step: Step): World
    requires Enabled(w, step)
  {
    var q := w.procs[step.p];
    match step
    case Begin(p, fn, tries) => w.(procs := w.procs[p := Trying(fn, tries, 0, |w.accepted|)])
    case Read(p) =>
      var m := q.fn(w.meta);
      w.(procs := w.procs[p := if m.None? then CallbackFailed
                               else Holding(q.fn, q.tries, q.failed, q.since, w.version, m.value)])
    case Write(p) =>
      if q.ver == w.version then
        World(w.version + 1, q.meta, w.procs[p := Succeeded], w.accepted + [(p, q.fn)])
      else w.(procs := w.procs[p := Trying(q.fn, q.tries, q.failed + 1, q.since)])
    case GiveUp(p) => w.(procs := w.procs[p := Conflicted(q.tries, q.since)])
  }

  function Init(meta: LogMetadata, callers: nat): World {
    World(1, meta, seq(callers, _ => Idle), [])
  }

  ghost function Updates(accepted: seq<(nat, Update)>): seq<Update> {
    seq(|accepted|, i requires 0 <= i < |accepted| => accepted[i].1)
  }

  /** What a caller knows. A caller that holds metadata made it from what the first ver-1 updates had left; every failed
      try was overtaken by a different accepted update since the caller began. */
  ghost predicate ProcOk(init: LogMetadata, accepted: seq<(nat, Update)>, q: Proc) {
    match q
    case Trying(_, _, failed, since) => since + failed <= |accepted|
    case Holding(fn, _, failed, since, ver, meta) =>
      && 1 <= ver <= |accepted| + 1 && since + failed <= ver - 1
      && var m := Compose(init, Updates(accepted[..ver - 1]));
         m.Some? && fn(m.value) == Some(meta)
    case Conflicted(tries, since) => since + tries <= |accepted|
    case _ => true
  }

  ghost predicate Inv(init: LogMetadata, w: World) {
    && w.version == |w.accepted| + 1
    && Compose(init, Updates(w.accepted)) == Some(w.meta)
    && forall p :: 0 <= p < |w.procs| ==> ProcOk(init, w.accepted, w.procs[p])
  }

  lemma ComposeNext(init: LogMetadata, accepted: seq<(nat, Update)>, p: nat, fn: Update, m: LogMetadata)
    requires Compose(init, Updates(accepted)) == Some(m)
    ensures Compose(init, Updates(accepted + [(p, fn)])) == fn(m)
  {
    var all := Updates(accepted + [(p, fn)]);
    assert all[..|all| - 1] == Updates(accepted);
  }

  lemma ProcStaysOk(init: LogMetadata, accepted: seq<(nat, Update)>, more: (nat, Update), q: Proc)
    requires ProcOk(init, accepted, q)
    ensures ProcOk(init, accepted + [more], q)
  {
    if q.Holding? {
      assert (accepted + [more])[..q.ver - 1] == accepted[..q.ver - 1];
    }
  }

  lemma WriteKeeps(init: LogMetadata, w: World, p: nat)
    requires Inv(init, w) && Enabled(w, Write(p))
    ensures Inv(init, Next(w, Write(p)))
  {
    var q, w' := w.procs[p], Next(w, Write(p));
    assert ProcOk(init, w.accepted, q);
    if q.ver == w.version {
      assert w.accepted[..q.ver - 1] == w.accepted;
      ComposeNext(init, w.accepted, p, q.fn, w.meta);
      forall k | 0 <= k < |w'.procs| ensures ProcOk(init, w'.accepted, w'.procs[k]) {
        ProcStaysOk(init, w.accepted, (p, q.fn), w.procs[k]);
      }
    }
  }

  lemma StepKeeps(init: LogMetadata, w: World, step: Step)
    requires Inv(init, w) && Enabled(w, step)
    ensures Inv(init, Next(w, step))
  {
    match step
    case Write(p) => WriteKeeps(init, w, p);
    case Read(p) =>
      assert ProcOk(init, w.accepted, w.procs[p]);
      assert w.accepted[..w.version - 1] == w.accepted;
    case Begin(_, _, _) =>
    case GiveUp(p) => assert ProcOk(init, w.accepted, w.procs[p]);
  }

  ghost predicate Reaches(w: World, steps: seq<Step>, t: World)
    decreases |steps|
  {
    if steps == [] then w == t
    else Enabled(w, steps[0]) && Reaches(Next(w, steps[0]), steps[1..], t)
  }

  lemma {:induction false} RunKeeps(init: LogMetadata, w: World, steps: seq<Step>, t: World)
    requires Inv(init, w) && Reaches(w, steps, t)
    ensures Inv(init, t)
    decreases |steps|
  {
    if steps != [] {
      StepKeeps(init, w, steps[0]);
      RunKeeps(init, Next(w, steps[0]), steps[1..], t);
    }
  }

  /** Over every interleaving: version minus one counts the accepted updates, the metadata is their composition in version
      order with none lost, and a caller that gives up with a conflict was overtaken by at least `tries` updates accepted
      since it began. */
  lemma EveryInterleaving(init: LogMetadata, callers: nat, steps: seq<Step>, t: World, p: nat)
    requires Reaches(Init(init, callers), steps, t) && p < |t.procs|
    ensures t.version - 1 == |t.accepted|
    ensures Compose(init, Updates(t.accepted)) == Some(t.meta)
    ensures t.procs[p].Conflicted? ==> |t.accepted| - t.procs[p].since >= t.procs[p].tries
  {
    var w := Init(init, callers);
    assert Updates(w.accepted) == [];
    RunKeeps(init, w, steps, t);
    assert ProcOk(init, t.accepted, t.procs[p]);
  }

  // ---------- the accepted updates since a caller began are not its own ----------

  /** Caller p is among the accepted exactly when it has succeeded. */
  ghost predicate OwnOnce(w: World) {
    forall i :: 0 <= i < |w.accepted| ==> w.accepted[i].0 < |w.procs| && w.procs[w.accepted[i].0].Succeeded?
  }

  lemma {:induction false} NeverOvertakesItself(w: World, steps: seq<Step>, t: World)
    requires OwnOnce(w) && Reaches(w, steps, t)
    ensures OwnOnce(t)
    decreases |steps|
  {
    if steps != [] {
      NeverOvertakesItself(Next(w, steps[0]), steps[1..], t);
    }
  }

  lemma ConflictMeansOthers(init: LogMetadata, callers: nat, steps: seq<Step>, t: World, p: nat, i: nat)
    requires Reaches(Init(init, callers), steps, t) && p < |t.procs| && t.procs[p].Conflicted?
    requires i < |t.accepted|
    ensures t.accepted[i].0 != p
  {
    NeverOvertakesItself(Init(init, callers), steps, t);
  }
}

/** tracer/protocol/client.go, mergeSender: small packets are batched into pooled buffers, large ones go in a buffer of
    their own, and a batch is handed to the connection when it is full, on refresh, and once more when the sender stops.
    Everything runs under a lock except the store to the stop flag, so a step of the model is one part of a critical
    section between two looks at that flag. Buffers are known by identity, because the pool, the batch under construction
    and the connection's queue pass the same buffer around. What a send puts into a buffer, and when it panics, is what
    the byte-level writer of PackBytes does. */
module MergeSender {
  import opened Types
  import opened Codec
  import opened Streams
  import opened Framing
  import opened PackBytes

  /** The whole frame of a packet; what is added to a batch with so much room, None for a panic; what marshalLargePacket
      makes, None for a panic. */
  datatype Packer = Packer(whole: Packet -> Bytes, put: (Packet, int) -> Option<Bytes>, large: Packet -> Option<Bytes>)

  function PackerOf(j: Json): Packer {
    Packer(p => Pack(j, p), (p, room) => Added(TheFormat(j), p, room), p => LargeBatch(j, p))
  }

  /** A MergePacket: a buffer of fixed capacity and the frames merged into it. */
  datatype Buffer = Buffer(capacity: nat, data: Bytes)

  /** Who is inside the lock. */
  datatype Critical = Idle | Sending(p: Packet) | SendingLarge(large: Packet) | Refreshing

  const SLACK := 2048

  datatype Sender = Sender(
    maxSmall: nat,
    bufs: seq<Buffer>,       // every buffer ever made; a position is a buffer's identity
    cur: Option<nat>,        // the batch under construction
    queue: seq<nat>,         // given to the connection, not yet written
    pool: set<nat>,
    stopped: bool,
    finished: bool,          // refreshLast has run
    critical: Critical,
    wire: Bytes,             // written by the connection
    sent: seq<Packet>,       // packets whose send returned success, in lock order
    written: seq<Bytes>,     // what each of them put into a buffer
    crashed: bool)           // a send panicked in the byte-level writer

  datatype Step =
    | BeginSend(p: Packet)
    | FinishSend(reuse: Option<nat>)   // what the pool hands out, if a buffer is needed
    | BeginLarge(p: Packet)
    | FinishLarge
    | BeginRefresh
    | FinishRefresh
    | Stop                             // the store at the start of refreshLast
    | LastRefresh                      // its critical section
    | Deliver                          // the connection writes a batch and EventSend returns it to the pool
    | Evict(id: nat)                   // sync.Pool may forget a buffer

  predicate Enabled(s: Sender, step: Step) {
    && !s.crashed
    && match step
       case BeginSend(_) => s.critical.Idle?
       case FinishSend(reuse) => s.critical.Sending? && (reuse.Some? ==> reuse.value in s.pool)
       case BeginLarge(_) => s.critical.Idle?
       case FinishLarge => s.critical.SendingLarge?
       case BeginRefresh => s.critical.Idle?
       case FinishRefresh => s.critical.Refreshing?
       case Stop => true
       case LastRefresh => s.critical.Idle? && s.stopped && !s.finished
       case Deliver => s.queue != []
       case Evict(id) => id in s.pool
  }

  /** The buffer for the next small packet: the current batch, an emptied pooled buffer, or a new one. */
  function Acquire(s: Sender, reuse: Option<nat>): (s': Sender)
    requires reuse.Some? ==> reuse.value < |s.bufs|
    ensures s'.cur.Some?
  {
    if s.cur.Some? then s
    else if reuse.Some? then
      s.(cur := reuse, pool := s.pool - {reuse.value},
         bufs := s.bufs[reuse.value := s.bufs[reuse.value].(data := [])])
    else s.(cur := Some(|s.bufs|), bufs := s.bufs + [Buffer(s.maxSmall + SLACK, [])])
  }

  /** refreshNolock without its look at the stop flag. */
  function HandOver(s: Sender): Sender
    requires s.cur.Some? ==> s.cur.value < |s.bufs|
  {
    if s.cur.None? || s.bufs[s.cur.value].data == [] then s else ToQueue(s)
  }

  function ToQueue(s: Sender): Sender
    requires s.cur.Some?
  {
    s.(cur := None, queue := s.queue + [s.cur.value])
  }

  /** The bytes w of packet p added to the batch. */
  function Grown(s: Sender, p: Packet, w: Bytes): Sender
    requires s.cur.Some? && s.cur.value < |s.bufs|
  {
    var id := s.cur.value;
    s.(bufs := s.bufs[id := s.bufs[id].(data := s.bufs[id].data + w)], sent := s.sent + [p], written := s.written + [w])
  }

  function Room(s: Sender): int
    requires s.cur.Some? && s.cur.value < |s.bufs|
  {
    s.bufs[s.cur.value].capacity - |s.bufs[s.cur.value].data|
  }

  /** sendNolock after its look at the stop flag. */
  function Merge(pack: Packer, s: Sender, p: Packet): Sender
    requires s.cur.Some? && s.cur.value < |s.bufs|
  {
    var w := pack.put(p, Room(s));
    if w.None? then s.(crashed := true)
    else
      var s1 := Grown(s, p, w.value);
      if |s1.bufs[s.cur.value].data| >= s.maxSmall then ToQueue(s1) else s1
  }

  /** Conn.Send(marshalLargePacket(p)). */
  function QueueBatch(s: Sender, p: Packet, capacity: nat, w: Bytes): Sender {
    s.(bufs := s.bufs + [Buffer(capacity, w)], queue := s.queue + [|s.bufs|], sent := s.sent + [p],
       written := s.written + [w])
  }

  ghost predicate InRange(s: Sender) {
    && (s.cur.Some? ==> s.cur.value < |s.bufs|)
    && (forall i :: 0 <= i < |s.queue| ==> s.queue[i] < |s.bufs|)
    && (forall id :: id in s.pool ==> id < |s.bufs|)
  }

  function Sent(pack: Packer, s: Sender, p: Packet): Sender
    requires s.cur.Some? ==> s.cur.value < |s.bufs|
  {
    var w := pack.large(p);
    if w.None? then s.(crashed := true) else QueueBatch(HandOver(s), p, |pack.whole(p)|, w.value)
  }

  ghost function Next(pack: Packer, s: Sender, step: Step): Sender
    requires InRange(s) && Enabled(s, step)
  {
    match step
    case BeginSend(p) => if s.stopped then s else s.(critical := Sending(p))
    case FinishSend(reuse) => Merge(pack, Acquire(s, reuse), s.critical.p).(critical := Idle)
    case BeginLarge(p) => if s.stopped then s else s.(critical := SendingLarge(p))
    case FinishLarge =>
      // refreshNolock looks at the flag again and panics if it has been set meanwhile.
      (if s.stopped then s else Sent(pack, s, s.critical.large)).(critical := Idle)
    case BeginRefresh => if s.stopped then s else s.(critical := Refreshing)
    case FinishRefresh => HandOver(s).(critical := Idle)
    case Stop => s.(stopped := true)
    case LastRefresh => HandOver(s).(finished := true)
    case Deliver => Delivered(s)
    case Evict(id) => s.(pool := s.pool - {id})
  }

  function Delivered(s: Sender): Sender
    requires s.queue != [] && s.queue[0] < |s.bufs|
  {
    var id := s.queue[0];
    s.(wire := s.wire + s.bufs[id].data, queue := s.queue[1..],
       bufs := s.bufs[id := s.bufs[id].(data := [])], pool := s.pool + {id})
  }

  function Init(maxSmall: nat): Sender {
    Sender(maxSmall, [], None, [], {}, false, false, Idle, [], [], [], false)
  }

  // ---------- what every step keeps ----------

  function QueueBytes(bufs: seq<Buffer>, queue: seq<nat>): Bytes
    requires forall i :: 0 <= i < |queue| ==> queue[i] < |bufs|
  {
    if queue == [] then [] else bufs[queue[0]].data + QueueBytes(bufs, queue[1..])
  }

  function CurBytes(s: Sender): Bytes
    requires s.cur.Some? ==> s.cur.value < |s.bufs|
  {
    if s.cur.None? then [] else s.bufs[s.cur.value].data
  }

  function Concat(ws: seq<Bytes>): Bytes {
    if ws == [] then [] else Concat(ws[..|ws| - 1]) + ws[|ws| - 1]
  }

  lemma ConcatOne(ws: seq<Bytes>, w: Bytes)
    ensures Concat(ws + [w]) == Concat(ws) + w
  {
    assert (ws + [w])[..|ws|] == ws;
  }

  /** No buffer is in two places. */
  ghost predicate Apart(s: Sender) {
    && (s.cur.Some? ==> s.cur.value !in s.queue && s.cur.value !in s.pool)
    && (forall i :: 0 <= i < |s.queue| ==> s.queue[i] !in s.pool)
    && (forall i, k :: 0 <= i < k < |s.queue| ==> s.queue[i] != s.queue[k])
  }

  /** Everything on its way: written by the connection, queued and buffered. */
  ghost function Total(s: Sender): Bytes
    requires InRange(s)
  {
    s.wire + QueueBytes(s.bufs, s.queue) + CurBytes(s)
  }

  /** Every buffer in one place, and the bytes on their way are those of the successful sends, in lock order. */
  ghost predicate Whereabouts(s: Sender) {
    InRange(s) && Apart(s) && Total(s) == Concat(s.written) && |s.written| == |s.sent|
  }

  ghost predicate CurOk(s: Sender)
    requires InRange(s)
  {
    && |CurBytes(s)| < Max(1, s.maxSmall)
    && (s.finished ==> s.stopped && CurBytes(s) == [] && s.critical.Idle?)
  }

  ghost predicate Inv(s: Sender) {
    Whereabouts(s) && CurOk(s)
  }

  lemma {:induction false} QueueSame(b1: seq<Buffer>, b2: seq<Buffer>, queue: seq<nat>)
    requires forall i :: 0 <= i < |queue| ==> queue[i] < |b1| && queue[i] < |b2| && b1[queue[i]] == b2[queue[i]]
    ensures QueueBytes(b1, queue) == QueueBytes(b2, queue)
  {
    if queue != [] {
      QueueSame(b1, b2, queue[1..]);
    }
  }

  lemma {:induction false} QueueAppend(bufs: seq<Buffer>, queue: seq<nat>, id: nat)
    requires id < |bufs| && forall i :: 0 <= i < |queue| ==> queue[i] < |bufs|
    ensures QueueBytes(bufs, queue + [id]) == QueueBytes(bufs, queue) + bufs[id].data
  {
    if queue == [] {
      assert (queue + [id])[1..] == [];
    } else {
      assert (queue + [id])[1..] == queue[1..] + [id];
      QueueAppend(bufs, queue[1..], id);
    }
  }

  lemma AddLast(wire: Bytes, queued: Bytes, cur: Bytes, w: Bytes)
    ensures wire + queued + (cur + w) == wire + queued + cur + w
  {
  }

  lemma MoveLast(wire: Bytes, queued: Bytes, cur: Bytes)
    ensures wire + (queued + cur) + [] == wire + queued + cur
  {
  }

  lemma AddQueued(wire: Bytes, queued: Bytes, w: Bytes)
    ensures wire + (queued + w) + [] == wire + queued + [] + w
  {
  }

  lemma MoveFirst(wire: Bytes, first: Bytes, queued: Bytes, cur: Bytes)
    ensures wire + first + queued + cur == wire + (first + queued) + cur
  {
  }

  /** The queue's bytes do not change when a buffer outside it does. */
  lemma OtherBuffer(s: Sender, id: nat, b: Buffer)
    requires InRange(s) && id < |s.bufs| && id !in s.queue
    ensures QueueBytes(s.bufs[id := b], s.queue) == QueueBytes(s.bufs, s.queue)
  {
    forall i | 0 <= i < |s.queue| ensures s.bufs[id := b][s.queue[i]] == s.bufs[s.queue[i]] {
      var k := s.queue[i];
      assert k in s.queue;
    }
    QueueSame(s.bufs[id := b], s.bufs, s.queue);
  }

  lemma NewBuffer(s: Sender, b: Buffer)
    requires InRange(s)
    ensures QueueBytes(s.bufs + [b], s.queue) == QueueBytes(s.bufs, s.queue)
  {
    QueueSame(s.bufs + [b], s.bufs, s.queue);
  }

  lemma AcquireKeeps(s: Sender, reuse: Option<nat>)
    requires Whereabouts(s) && |CurBytes(s)| < Max(1, s.maxSmall) && (reuse.Some? ==> reuse.value in s.pool)
    ensures reuse.Some? ==> reuse.value < |s.bufs|
    ensures var s' := Acquire(s, reuse); Whereabouts(s') && |CurBytes(s')| < Max(1, s.maxSmall)
  {
    AcquireMoves(s, reuse);
  }

  lemma GrownKeeps(s: Sender, p: Packet, w: Bytes)
    requires Whereabouts(s) && s.cur.Some?
    ensures Whereabouts(Grown(s, p, w))
  {
    var id := s.cur.value;
    OtherBuffer(s, id, s.bufs[id].(data := s.bufs[id].data + w));
    ConcatOne(s.written, w);
    AddLast(s.wire, QueueBytes(s.bufs, s.queue), CurBytes(s), w);
  }

  lemma QueuedKeeps(s: Sender)
    requires Whereabouts(s) && s.cur.Some?
    ensures Whereabouts(ToQueue(s)) && CurBytes(ToQueue(s)) == []
  {
    QueueAppend(s.bufs, s.queue, s.cur.value);
    MoveLast(s.wire, QueueBytes(s.bufs, s.queue), CurBytes(s));
  }

  lemma MergeKeeps(pack: Packer, s: Sender, p: Packet)
    requires Whereabouts(s) && s.cur.Some? && !s.finished
    ensures InRange(Merge(pack, s, p))
    ensures !Merge(pack, s, p).crashed ==> Inv(Merge(pack, s, p))
  {
    var w := pack.put(p, Room(s));
    if w.Some? {
      var s1 := Grown(s, p, w.value);
      GrownKeeps(s, p, w.value);
      assert CurBytes(s1) == s1.bufs[s.cur.value].data;
      if |CurBytes(s1)| >= s.maxSmall {
        QueuedKeeps(s1);
      }
    }
  }

  lemma HandOverKeeps(s: Sender)
    requires Whereabouts(s)
    ensures Whereabouts(HandOver(s)) && CurBytes(HandOver(s)) == []
  {
    if s.cur.Some? {
      QueuedKeeps(s);
    }
  }

  lemma QueueBatchKeeps(s: Sender, p: Packet, capacity: nat, w: Bytes)
    requires Whereabouts(s) && CurBytes(s) == []
    ensures Whereabouts(QueueBatch(s, p, capacity, w)) && CurBytes(QueueBatch(s, p, capacity, w)) == []
  {
    var b := Buffer(capacity, w);
    NewBuffer(s, b);
    QueueAppend(s.bufs + [b], s.queue, |s.bufs|);
    ConcatOne(s.written, w);
    AddQueued(s.wire, QueueBytes(s.bufs, s.queue), w);
  }

  lemma DeliveredKeeps(s: Sender)
    requires Whereabouts(s) && s.queue != []
    ensures Whereabouts(Delivered(s)) && CurBytes(Delivered(s)) == CurBytes(s)
  {
    var s', id, rest := Delivered(s), s.queue[0], s.queue[1..];
    assert id !in rest;
    OtherBuffer(s.(queue := rest), id, s.bufs[id].(data := []));
    MoveFirst(s.wire, s.bufs[id].data, QueueBytes(s.bufs, rest), CurBytes(s));
  }

  /** The same buffers in the same places. */
  ghost predicate SamePlaces(s: Sender, t: Sender) {
    && t.maxSmall == s.maxSmall && t.bufs == s.bufs && t.cur == s.cur && t.queue == s.queue && t.pool == s.pool
    && t.wire == s.wire && t.sent == s.sent && t.written == s.written
  }

  lemma Relabelled(s: Sender, t: Sender)
    requires Whereabouts(s) && SamePlaces(s, t)
    ensures Whereabouts(t) && CurBytes(t) == CurBytes(s)
  {
  }

  lemma SendKeeps(pack: Packer, s: Sender, reuse: Option<nat>)
    requires Inv(s) && Enabled(s, FinishSend(reuse))
    ensures !Next(pack, s, FinishSend(reuse)).crashed ==> Inv(Next(pack, s, FinishSend(reuse)))
  {
    AcquireKeeps(s, reuse);
    MergeKeeps(pack, Acquire(s, reuse), s.critical.p);
  }

  lemma LargeKeeps(pack: Packer, s: Sender)
    requires Inv(s) && Enabled(s, FinishLarge)
    ensures !Next(pack, s, FinishLarge).crashed ==> Inv(Next(pack, s, FinishLarge))
  {
    var p, t := s.critical.large, Next(pack, s, FinishLarge);
    if s.stopped {
      Relabelled(s, t);
    } else if pack.large(p).Some? {
      HandOverKeeps(s);
      QueueBatchKeeps(HandOver(s), p, |pack.whole(p)|, pack.large(p).value);
      Relabelled(QueueBatch(HandOver(s), p, |pack.whole(p)|, pack.large(p).value), t);
    }
  }

  lemma HandOverStepKeeps(pack: Packer, s: Sender, step: Step)
    requires Inv(s) && Enabled(s, step) && (step.FinishRefresh? || step.LastRefresh?)
    ensures Inv(Next(pack, s, step))
  {
    HandOverKeeps(s);
    Relabelled(HandOver(s), Next(pack, s, step));
  }

  /** The steps that move no byte. */
  lemma IdleStepKeeps(pack: Packer, s: Sender, step: Step)
    requires Inv(s) && Enabled(s, step) && !step.Deliver? && !step.FinishSend? && !step.FinishLarge?
    requires !step.FinishRefresh? && !step.LastRefresh?
    ensures Inv(Next(pack, s, step))
  {
    var t := Next(pack, s, step);
    Relabelled(s, t.(pool := s.pool));
  }

  /** One step of any caller keeps the bytes in order and no buffer in two places, unless the byte-level writer panics. */
  lemma StepKeeps(pack: Packer, s: Sender, step: Step)
    requires Inv(s) && Enabled(s, step)
    ensures !Next(pack, s, step).crashed ==> Inv(Next(pack, s, step))
  {
    match step
    case FinishSend(reuse) => SendKeeps(pack, s, reuse);
    case FinishLarge => LargeKeeps(pack, s);
    case FinishRefresh => HandOverStepKeeps(pack, s, step);
    case LastRefresh => HandOverStepKeeps(pack, s, step);
    case Deliver => DeliveredKeeps(s);
    case _ => IdleStepKeeps(pack, s, step);
  }

  // ---------- every interleaving ----------

  /** t is what s becomes by the given steps, each enabled when taken. */
  ghost predicate Reaches(pack: Packer, s: Sender, steps: seq<Step>, t: Sender)
    decreases |steps|
  {
    if steps == [] then s == t
    else InRange(s) && Enabled(s, steps[0]) && Reaches(pack, Next(pack, s, steps[0]), steps[1..], t)
  }

  lemma CrashIsFinal(pack: Packer, s: Sender, steps: seq<Step>, t: Sender)
    requires s.crashed && Reaches(pack, s, steps, t)
    ensures t == s
  {
  }

  lemma {:induction false} RunKeeps(pack: Packer, s: Sender, steps: seq<Step>, t: Sender)
    requires Inv(s) && Reaches(pack, s, steps, t) && !t.crashed
    ensures Inv(t)
    decreases |steps|
  {
    if steps != [] {
      var s1 := Next(pack, s, steps[0]);
      if s1.crashed {
        CrashIsFinal(pack, s1, steps[1..], t);
      } else {
        StepKeeps(pack, s, steps[0]);
        RunKeeps(pack, s1, steps[1..], t);
      }
    }
  }

  // ---------- what a hand-over does ----------

  ghost function Queued(s: Sender): Bytes
    requires InRange(s)
  {
    QueueBytes(s.bufs, s.queue)
  }

  /** A hand-over gives the connection exactly what is buffered, behind what it already has. */
  lemma HandOverMoves(s: Sender)
    requires Whereabouts(s)
    ensures InRange(HandOver(s)) && CurBytes(HandOver(s)) == [] && Queued(HandOver(s)) == Queued(s) + CurBytes(s)
    ensures var t := HandOver(s); t.wire == s.wire && t.sent == s.sent && t.written == s.written
  {
    if s.cur.Some? && s.bufs[s.cur.value].data != [] {
      QueueAppend(s.bufs, s.queue, s.cur.value);
    }
  }

  /** Refresh, and the last refresh, leave nothing buffered: the connection gets it all, in order, and nothing else. */
  lemma RefreshHandsOver(pack: Packer, s: Sender, step: Step)
    requires Inv(s) && Enabled(s, step) && (step.FinishRefresh? || step.LastRefresh?)
    ensures var t := Next(pack, s, step);
            && InRange(t) && !t.crashed && CurBytes(t) == [] && Queued(t) == Queued(s) + CurBytes(s)
            && t.wire == s.wire && t.sent == s.sent && t.written == s.written && t.critical.Idle?
            && (step.LastRefresh? ==> t.finished)
  {
    HandOverMoves(s);
  }

  lemma AcquireMoves(s: Sender, reuse: Option<nat>)
    requires Whereabouts(s) && (reuse.Some? ==> reuse.value in s.pool)
    ensures reuse.Some? ==> reuse.value < |s.bufs|
    ensures var s' := Acquire(s, reuse);
            && Whereabouts(s') && CurBytes(s') == CurBytes(s) && Queued(s') == Queued(s)
            && s'.wire == s.wire && s'.sent == s.sent && s'.written == s.written && s'.maxSmall == s.maxSmall
  {
    if s.cur.None? {
      if reuse.Some? {
        OtherBuffer(s, reuse.value, s.bufs[reuse.value].(data := []));
      } else {
        NewBuffer(s, Buffer(s.maxSmall + SLACK, []));
      }
    }
  }

  lemma GrownMoves(s: Sender, p: Packet, w: Bytes)
    requires Whereabouts(s) && s.cur.Some?
    ensures var s' := Grown(s, p, w);
            Whereabouts(s') && CurBytes(s') == CurBytes(s) + w && Queued(s') == Queued(s) && s'.wire == s.wire
  {
    var id := s.cur.value;
    GrownKeeps(s, p, w);
    OtherBuffer(s, id, s.bufs[id].(data := s.bufs[id].data + w));
  }

  lemma MergeMoves(pack: Packer, s: Sender, p: Packet)
    requires Whereabouts(s) && s.cur.Some? && pack.put(p, Room(s)).Some?
    ensures var w, t := pack.put(p, Room(s)).value, Merge(pack, s, p);
            && InRange(t) && t.wire == s.wire && t.sent == s.sent + [p] && t.written == s.written + [w]
            && if |CurBytes(s) + w| >= s.maxSmall then CurBytes(t) == [] && Queued(t) == Queued(s) + (CurBytes(s) + w)
               else CurBytes(t) == CurBytes(s) + w && Queued(t) == Queued(s)
  {
    var w := pack.put(p, Room(s)).value;
    GrownMoves(s, p, w);
    var s1 := Grown(s, p, w);
    if |CurBytes(s1)| >= s.maxSmall {
      QueueAppend(s1.bufs, s1.queue, s1.cur.value);
    }
  }

  /** A send adds its bytes to the batch, and the batch leaves for the connection exactly if that fills it. */
  lemma SendBatches(pack: Packer, s: Sender, reuse: Option<nat>)
    requires Inv(s) && Enabled(s, FinishSend(reuse)) && !Next(pack, s, FinishSend(reuse)).crashed
    ensures var t := Next(pack, s, FinishSend(reuse));
            && InRange(t) && t.wire == s.wire && t.sent == s.sent + [s.critical.p]
            && |t.written| == |s.written| + 1 && t.written[..|s.written|] == s.written
            && var batch := CurBytes(s) + t.written[|s.written|];
               if |batch| >= s.maxSmall then CurBytes(t) == [] && Queued(t) == Queued(s) + batch
               else CurBytes(t) == batch && Queued(t) == Queued(s)
  {
    AcquireMoves(s, reuse);
    MergeMoves(pack, Acquire(s, reuse), s.critical.p);
  }

  /** A large packet that is accepted goes behind the batch, in a buffer of its own. */
  lemma LargeGoesBehind(pack: Packer, s: Sender)
    requires Inv(s) && Enabled(s, FinishLarge) && !s.stopped
    ensures var p, t := s.critical.large, Next(pack, s, FinishLarge);
            var w := pack.large(p);
            && (t.crashed <==> w.None?)
            && (w.Some? ==>
                  && InRange(t) && CurBytes(t) == [] && Queued(t) == Queued(s) + CurBytes(s) + w.value
                  && t.wire == s.wire && t.sent == s.sent + [p] && t.written == s.written + [w.value])
  {
    var p := s.critical.large;
    HandOverMoves(s);
    HandOverKeeps(s);
    if pack.large(p).Some? {
      var b := Buffer(|pack.whole(p)|, pack.large(p).value);
      NewBuffer(HandOver(s), b);
      QueueAppend(HandOver(s).bufs + [b], HandOver(s).queue, |HandOver(s).bufs|);
    }
  }

  /** A write by the connection moves the first queued batch to the wire. */
  lemma DeliverMoves(pack: Packer, s: Sender)
    requires Inv(s) && Enabled(s, Deliver)
    ensures var t := Next(pack, s, Deliver);
            && InRange(t) && t.wire + Queued(t) == s.wire + Queued(s) && |t.queue| == |s.queue| - 1
            && CurBytes(t) == CurBytes(s) && t.sent == s.sent && t.written == s.written
  {
    var id, rest := s.queue[0], s.queue[1..];
    assert id !in rest;
    OtherBuffer(s.(queue := rest), id, s.bufs[id].(data := []));
    Regroup2(s.wire, s.bufs[id].data, QueueBytes(s.bufs, rest));
  }

  /** Once stopped, nothing new begins. */
  lemma StoppedRefuses(pack: Packer, s: Sender, p: Packet)
    requires InRange(s) && s.stopped && s.critical.Idle? && !s.crashed
    ensures Next(pack, s, BeginSend(p)) == s && Next(pack, s, BeginLarge(p)) == s && Next(pack, s, BeginRefresh) == s
  {
  }

  /** The connection can always write everything it has been given. */
  lemma {:induction false} Drain(pack: Packer, s: Sender) returns (steps: seq<Step>, t: Sender)
    requires Inv(s) && !s.crashed
    ensures Reaches(pack, s, steps, t) && Inv(t) && t.queue == []
    ensures CurBytes(t) == CurBytes(s) && t.sent == s.sent && t.written == s.written
    decreases |s.queue|
  {
    if s.queue == [] {
      steps, t := [], s;
    } else {
      StepKeeps(pack, s, Deliver);
      DeliverMoves(pack, s);
      var rest, end := Drain(pack, Next(pack, s, Deliver));
      steps, t := [Deliver] + rest, end;
    }
  }

  lemma FirstStep(pack: Packer, s: Sender, step: Step, rest: seq<Step>, t: Sender)
    requires InRange(s) && Enabled(s, step) && Reaches(pack, Next(pack, s, step), rest, t)
    ensures Reaches(pack, s, [step] + rest, t)
  {
    assert ([step] + rest)[1..] == rest;
  }

  /** From every reachable state in which nobody is inside the lock: a refresh, followed by what the connection can do
      alone, puts on the wire everything the successful sends put into buffers. */
  lemma RefreshReachesWire(pack: Packer, maxSmall: nat, before: seq<Step>, s: Sender) returns (steps: seq<Step>, t: Sender)
    requires Reaches(pack, Init(maxSmall), before, s) && !s.crashed && !s.stopped && s.critical.Idle?
    ensures Reaches(pack, s, steps, t) && t.sent == s.sent && t.written == s.written && t.wire == Concat(t.written)
  {
    RunKeeps(pack, Init(maxSmall), before, s);
    var s1 := Next(pack, s, BeginRefresh);
    StepKeeps(pack, s, BeginRefresh);
    var s2 := Next(pack, s1, FinishRefresh);
    StepKeeps(pack, s1, FinishRefresh);
    RefreshHandsOver(pack, s1, FinishRefresh);
    var rest, end := Drain(pack, s2);
    FirstStep(pack, s1, FinishRefresh, rest, end);
    FirstStep(pack, s, BeginRefresh, [FinishRefresh] + rest, end);
    steps, t := [BeginRefresh] + ([FinishRefresh] + rest), end;
    WireOf(t);
  }

  /** The same for the stop: it can always be completed, and then drained. */
  lemma StopReachesWire(pack: Packer, maxSmall: nat, before: seq<Step>, s: Sender) returns (steps: seq<Step>, t: Sender)
    requires Reaches(pack, Init(maxSmall), before, s) && !s.crashed && !s.finished && s.critical.Idle?
    ensures Reaches(pack, s, steps, t) && t.finished && t.sent == s.sent && t.wire == Concat(t.written)
  {
    RunKeeps(pack, Init(maxSmall), before, s);
    var s1 := Next(pack, s, Stop);
    StepKeeps(pack, s, Stop);
    var s2 := Next(pack, s1, LastRefresh);
    StepKeeps(pack, s1, LastRefresh);
    RefreshHandsOver(pack, s1, LastRefresh);
    var rest, end := Drain(pack, s2);
    FinishedStays(pack, s2, rest, end);
    FirstStep(pack, s1, LastRefresh, rest, end);
    FirstStep(pack, s, Stop, [LastRefresh] + rest, end);
    steps, t := [Stop] + ([LastRefresh] + rest), end;
    WireOf(t);
  }

  // ---------- what the sends put into the buffers ----------

  /** w is something the writer can have made of packet p. */
  ghost predicate MadeFrom(pack: Packer, p: Packet, w: Bytes) {
    pack.large(p) == Some(w) || exists room: int :: pack.put(p, room) == Some(w)
  }

  ghost predicate AllMade(pack: Packer, s: Sender) {
    && |s.written| == |s.sent|
    && forall i :: 0 <= i < |s.sent| ==> MadeFrom(pack, s.sent[i], s.written[i])
  }

  lemma MergeMade(pack: Packer, s: Sender, p: Packet)
    requires s.cur.Some? && s.cur.value < |s.bufs| && AllMade(pack, s)
    ensures AllMade(pack, Merge(pack, s, p))
  {
    var w := pack.put(p, Room(s));
    if w.Some? {
      assert MadeFrom(pack, p, w.value);
    }
  }

  lemma StepMade(pack: Packer, s: Sender, step: Step)
    requires InRange(s) && Enabled(s, step) && AllMade(pack, s)
    ensures AllMade(pack, Next(pack, s, step))
  {
    if step.FinishSend? {
      MergeMade(pack, Acquire(s, step.reuse), s.critical.p);
    }
  }

  lemma {:induction false} RunMade(pack: Packer, s: Sender, steps: seq<Step>, t: Sender)
    requires AllMade(pack, s) && Reaches(pack, s, steps, t)
    ensures AllMade(pack, t)
    decreases |steps|
  {
    if steps != [] {
      StepMade(pack, s, steps[0]);
      RunMade(pack, Next(pack, s, steps[0]), steps[1..], t);
    }
  }

  /** Every send put its whole frame into a buffer. */
  ghost predicate AllWhole(pack: Packer, s: Sender) {
    && |s.written| == |s.sent|
    && forall i :: 0 <= i < |s.sent| ==> s.written[i] == pack.whole(s.sent[i])
  }

  lemma {:induction false} WholeBytes(whole: Packet -> Bytes, sent: seq<Packet>, written: seq<Bytes>)
    requires |written| == |sent| && forall i :: 0 <= i < |sent| ==> written[i] == whole(sent[i])
    ensures Concat(written) == PackAll(whole, sent)
  {
    if sent != [] {
      var n := |sent| - 1;
      WholeBytes(whole, sent[..n], written[..n]);
      PackAllOne(whole, sent[..n], sent[n]);
      assert sent == sent[..n] + [sent[n]];
    }
  }

  /** A packet whose frame is either written whole or refused: it does not end in a string. */
  predicate Solid(p: Packet) {
    p.Ping? || p.Shutdown? || p.Symbol? || p.RawLog?
  }

  lemma SolidIsWhole(j: Json, p: Packet, w: Bytes)
    requires Solid(p) && |Pack(j, p)| < TWO32 && MadeFrom(PackerOf(j), p, w)
    ensures w == Pack(j, p)
  {
    if LargeBatch(j, p) == Some(w) {
      LargeIsAdded(j, TheFormat(j), p.sd);
    } else {
      var room: int :| PackerOf(j).put(p, room) == Some(w);
      AddedExactly(j, TheFormat(j), p, room);
    }
  }

  /** Over every interleaving in which the writer does not panic, the bytes given to the connection are a prefix of what
      the successful sends put into buffers, in lock order. */
  lemma WireIsPrefixOfWritten(pack: Packer, maxSmall: nat, steps: seq<Step>, t: Sender)
    requires Reaches(pack, Init(maxSmall), steps, t) && !t.crashed
    ensures InRange(t) && t.wire <= Concat(t.written) && |t.written| == |t.sent|
    ensures t.queue == [] && CurBytes(t) == [] ==> t.wire == Concat(t.written)
  {
    RunKeeps(pack, Init(maxSmall), steps, t);
    WireOf(t);
  }

  lemma WireOf(t: Sender)
    requires Whereabouts(t)
    ensures t.wire <= Concat(t.written)
    ensures t.queue == [] && CurBytes(t) == [] ==> t.wire == Concat(t.written)
  {
    FirstOfThree(t.wire, QueueBytes(t.bufs, t.queue), CurBytes(t));
  }

  lemma FirstOfThree(a: Bytes, b: Bytes, c: Bytes)
    ensures a <= a + b + c
    ensures b == [] && c == [] ==> a == a + b + c
  {
  }

  lemma SolidRun(j: Json, maxSmall: nat, steps: seq<Step>, t: Sender)
    requires Reaches(PackerOf(j), Init(maxSmall), steps, t)
    requires forall i :: 0 <= i < |t.sent| ==> Solid(t.sent[i]) && |Pack(j, t.sent[i])| < TWO32
    ensures AllWhole(PackerOf(j), t)
  {
    RunMade(PackerOf(j), Init(maxSmall), steps, t);
    forall i | 0 <= i < |t.sent| ensures t.written[i] == Pack(j, t.sent[i]) {
      SolidIsWhole(j, t.sent[i], t.written[i]);
    }
  }

  /** For whole frames: the wire is a prefix of the frames of the successful sends in lock order, and the receiver cuts
      off exactly the packets that are whole in it. */
  lemma WireIsPrefixOfSent(j: Json, maxSmall: nat, steps: seq<Step>, t: Sender)
    requires Reaches(PackerOf(j), Init(maxSmall), steps, t) && !t.crashed && AllWhole(PackerOf(j), t)
    requires forall i :: 0 <= i < |t.sent| ==> Transportable(j, t.sent[i])
    ensures var pack, unpack := (p: Packet) => Pack(j, p), (b: Bytes) => Unpack(j, b);
            && t.wire <= PackAll(pack, t.sent)
            && UnpackAll(unpack, t.wire).packets == Map(Arrives, t.sent[..Fit(pack, t.sent, |t.wire|)])
            && !UnpackAll(unpack, t.wire).failed
  {
    var pack := (p: Packet) => Pack(j, p);
    WireIsPrefixOfWritten(PackerOf(j), maxSmall, steps, t);
    WholeBytes(pack, t.sent, t.written);
    assert t.wire == PackAll(pack, t.sent)[..|t.wire|];
    PacketStream(j, t.sent, |t.wire|);
  }

  lemma {:induction false} FinishedStays(pack: Packer, s: Sender, steps: seq<Step>, t: Sender)
    requires Inv(s) && s.finished && !s.crashed && Reaches(pack, s, steps, t)
    ensures Inv(t) && t.finished && t.sent == s.sent && t.written == s.written && !t.crashed
    decreases |steps|
  {
    if steps != [] {
      StepKeeps(pack, s, steps[0]);
      FinishedStays(pack, Next(pack, s, steps[0]), steps[1..], t);
    }
  }

  /** After refreshLast nothing stays buffered and nothing more is accepted; once the connection has drained its queue,
      it has written everything the successful sends put into buffers. */
  lemma FinishedDrains(pack: Packer, maxSmall: nat, before: seq<Step>, s: Sender, after: seq<Step>, t: Sender)
    requires Reaches(pack, Init(maxSmall), before, s) && !s.crashed && s.finished && Reaches(pack, s, after, t)
    ensures InRange(t) && t.sent == s.sent && t.written == s.written && CurBytes(t) == [] && !t.crashed
    ensures t.queue == [] ==> t.wire == Concat(t.written)
  {
    RunKeeps(pack, Init(maxSmall), before, s);
    FinishedStays(pack, s, after, t);
    WireOf(t);
  }

  /** Then the receiver has every packet whose send succeeded. */
  lemma NothingLeftBehind(j: Json, maxSmall: nat, before: seq<Step>, s: Sender, after: seq<Step>, t: Sender)
    requires Reaches(PackerOf(j), Init(maxSmall), before, s) && !s.crashed && s.finished
    requires Reaches(PackerOf(j), s, after, t) && AllWhole(PackerOf(j), s)
    requires forall i :: 0 <= i < |s.sent| ==> Transportable(j, s.sent[i])
    ensures InRange(t) && t.sent == s.sent && CurBytes(t) == [] && !t.crashed
    ensures t.queue == [] ==> UnpackAll(b => Unpack(j, b), t.wire) == Stream(Map(Arrives, t.sent), [], false)
  {
    FinishedDrains(PackerOf(j), maxSmall, before, s, after, t);
    WholeBytes(p => Pack(j, p), t.sent, t.written);
    PacketStream(j, t.sent, 0);
  }

  // ---------- when a send panics or cuts its frame ----------

  /** The room a small packet gets. */
  ghost function RoomFor(s: Sender, reuse: Option<nat>): int
    requires Inv(s) && Enabled(s, FinishSend(reuse))
  {
    if s.cur.Some? then Room(s)
    else if reuse.Some? then s.bufs[reuse.value].capacity
    else s.maxSmall + SLACK
  }

  lemma SendPuts(pack: Packer, s: Sender, reuse: Option<nat>)
    requires Inv(s) && Enabled(s, FinishSend(reuse))
    ensures var w, t := pack.put(s.critical.p, RoomFor(s, reuse)), Next(pack, s, FinishSend(reuse));
            && (t.crashed <==> w.None?)
            && (w.Some? ==> t.written == s.written + [w.value] && t.sent == s.sent + [s.critical.p])
            && t.critical.Idle? && t.maxSmall == s.maxSmall
  {
    assert RoomFor(s, reuse) == Room(Acquire(s, reuse));
  }

  /** What becomes of a send, by the room it gets: written whole exactly when the frame fits, a panic exactly when even
      without the string at its end it does not fit, and in between a cut frame that is no beginning of the whole one. */
  lemma SendExactly(j: Json, s: Sender, reuse: Option<nat>)
    requires Inv(s) && Enabled(s, FinishSend(reuse)) && !s.critical.p.LogPacket? && |Pack(j, s.critical.p)| < TWO32
    ensures var p, room, t := s.critical.p, RoomFor(s, reuse), Next(PackerOf(j), s, FinishSend(reuse));
            var n := |Pack(j, p)|;
            && (t.crashed <==> room < n - Tail(j, p))
            && (!t.crashed ==> |t.written| == |s.written| + 1)
            && (n <= room ==> t.written == s.written + [Pack(j, p)])
            && (n - Tail(j, p) <= room < n ==> !(t.written[|s.written|] <= Pack(j, p)))
  {
    SendPuts(PackerOf(j), s, reuse);
    AddedExactly(j, TheFormat(j), s.critical.p, RoomFor(s, reuse));
  }

  /** A packet that is written whole into any room of SLACK bytes. */
  ghost predicate Small(pack: Packer, p: Packet) {
    forall room: int :: SLACK <= room ==> pack.put(p, room) == Some(pack.whole(p))
  }

  /** A large packet that fills a buffer at least as big as the pool's own. */
  ghost predicate Large(pack: Packer, maxSmall: nat, p: Packet) {
    pack.large(p) == Some(pack.whole(p)) && |pack.whole(p)| >= maxSmall + SLACK
  }

  ghost predicate Kept(pack: Packer, maxSmall: nat, step: Step) {
    (step.BeginSend? ==> Small(pack, step.p)) && (step.BeginLarge? ==> Large(pack, maxSmall, step.p))
  }

  ghost predicate Roomy(pack: Packer, s: Sender) {
    && (forall i :: 0 <= i < |s.bufs| ==> s.bufs[i].capacity >= s.maxSmall + SLACK)
    && (s.critical.Sending? ==> Small(pack, s.critical.p))
    && (s.critical.SendingLarge? ==> Large(pack, s.maxSmall, s.critical.large))
  }

  lemma RoomySend(pack: Packer, s: Sender, reuse: Option<nat>)
    requires Inv(s) && Roomy(pack, s) && AllWhole(pack, s) && Enabled(s, FinishSend(reuse))
    ensures var t := Next(pack, s, FinishSend(reuse)); !t.crashed && Roomy(pack, t) && AllWhole(pack, t)
  {
    assert RoomFor(s, reuse) >= SLACK;
    SendPuts(pack, s, reuse);
  }

  lemma RoomyLarge(pack: Packer, s: Sender)
    requires Inv(s) && Roomy(pack, s) && AllWhole(pack, s) && Enabled(s, FinishLarge)
    ensures var t := Next(pack, s, FinishLarge); !t.crashed && Roomy(pack, t) && AllWhole(pack, t)
  {
  }

  lemma RoomyStep(pack: Packer, s: Sender, step: Step)
    requires Inv(s) && Roomy(pack, s) && AllWhole(pack, s) && Enabled(s, step) && Kept(pack, s.maxSmall, step)
    ensures var t := Next(pack, s, step); !t.crashed && Roomy(pack, t) && AllWhole(pack, t) && t.maxSmall == s.maxSmall
  {
    match step
    case FinishSend(reuse) =>
      RoomySend(pack, s, reuse);
      SendPuts(pack, s, reuse);
    case FinishLarge => RoomyLarge(pack, s);
    case _ =>
  }

  lemma {:induction false} RoomyRun(pack: Packer, s: Sender, steps: seq<Step>, t: Sender)
    requires Inv(s) && Roomy(pack, s) && AllWhole(pack, s) && !s.crashed && Reaches(pack, s, steps, t)
    requires forall i :: 0 <= i < |steps| ==> Kept(pack, s.maxSmall, steps[i])
    ensures !t.crashed && AllWhole(pack, t)
    decreases |steps|
  {
    if steps != [] {
      RoomyStep(pack, s, steps[0]);
      StepKeeps(pack, s, steps[0]);
      RoomyRun(pack, Next(pack, s, steps[0]), steps[1..], t);
    }
  }

  /** What the callers promise: small packets small, large packets large. */
  ghost predicate Promised(j: Json, maxSmall: nat, step: Step) {
    match step
    case BeginSend(p) => !p.LogPacket? && |Pack(j, p)| <= SLACK
    case BeginLarge(p) => p.Symbol? && maxSmall + SLACK <= |Pack(j, p)| < TWO32
    case _ => true
  }

  lemma PromiseKept(j: Json, maxSmall: nat, step: Step)
    requires Promised(j, maxSmall, step)
    ensures Kept(PackerOf(j), maxSmall, step)
  {
    if step.BeginSend? {
      forall room: int | SLACK <= room ensures PackerOf(j).put(step.p, room) == Some(Pack(j, step.p)) {
        AddedExactly(j, TheFormat(j), step.p, room);
      }
    } else if step.BeginLarge? {
      LargeIsAdded(j, TheFormat(j), step.p.sd);
    }
  }

  /** If every small frame has at most SLACK bytes and every large one at least MaxSmallPacketSize + SLACK, then in no
      interleaving does a send panic or cut its frame. */
  lemma PromisesSuffice(j: Json, maxSmall: nat, steps: seq<Step>, t: Sender)
    requires Reaches(PackerOf(j), Init(maxSmall), steps, t)
    requires forall i :: 0 <= i < |steps| ==> Promised(j, maxSmall, steps[i])
    ensures !t.crashed && AllWhole(PackerOf(j), t)
  {
    forall i | 0 <= i < |steps| ensures Kept(PackerOf(j), maxSmall, steps[i]) {
      PromiseKept(j, maxSmall, steps[i]);
    }
    RoomyRun(PackerOf(j), Init(maxSmall), steps, t);
  }

  /** The promise on large packets is needed: the exact-size buffer of a shorter one enters the pool once sent, and a call
      event that then gets this buffer and is longer panics. */
  lemma LargeBufferPoisonsPool(j: Json, maxSmall: nat, sd: SymbolsData, raw: RawFuncLog)
    requires |Pack(j, Symbol(sd))| < |Pack(j, RawLog(raw))| < TWO32
    ensures exists t ::
      && Reaches(PackerOf(j), Init(maxSmall),
                 [BeginLarge(Symbol(sd)), FinishLarge, Deliver, BeginSend(RawLog(raw)), FinishSend(Some(0))], t)
      && t.crashed
  {
    var pack, large, small := PackerOf(j), Symbol(sd), RawLog(raw);
    LargeIsAdded(j, TheFormat(j), sd);
    AddedExactly(j, TheFormat(j), small, |Pack(j, large)|);
    var t := PoisonedRun(pack, maxSmall, large, small, Pack(j, large));
  }

  lemma PoisonedRun(pack: Packer, maxSmall: nat, large: Packet, small: Packet, w: Bytes) returns (t: Sender)
    requires pack.large(large) == Some(w) && pack.put(small, |pack.whole(large)|) == None
    ensures Reaches(pack, Init(maxSmall), [BeginLarge(large), FinishLarge, Deliver, BeginSend(small), FinishSend(Some(0))], t)
    ensures t.crashed
  {
    var s0 := Init(maxSmall);
    var s1 := Next(pack, s0, BeginLarge(large));
    var s2 := Next(pack, s1, FinishLarge);
    var s3 := Next(pack, s2, Deliver);
    assert s3.bufs == [Buffer(|pack.whole(large)|, [])];
    var s4 := Next(pack, s3, BeginSend(small));
    t := Next(pack, s4, FinishSend(Some(0)));
    assert Reaches(pack, t, [], t);
    assert Reaches(pack, s4, [FinishSend(Some(0))], t);
    assert Reaches(pack, s3, [BeginSend(small), FinishSend(Some(0))], t);
    assert Reaches(pack, s2, [Deliver, BeginSend(small), FinishSend(Some(0))], t);
    assert Reaches(pack, s1, [FinishLarge, Deliver, BeginSend(small), FinishSend(Some(0))], t);
  }

  /** Such packets exist: an empty symbol table makes a shorter frame than any call event. */
  lemma EmptySymbolsAreShort(j: Json, raw: RawFuncLog)
    ensures |Pack(j, Symbol(SymbolsData([], [], [], [])))| < |Pack(j, RawLog(raw))|
  {
    FramesSize(raw.frames);
    assert |EncSymbols(SymbolsData([], [], [], []))| == 32;
  }

  /** The promise on small packets is needed: a server hello that is too long for a new buffer is cut, the send counts as
      a success, and what reaches the wire is no beginning of the frame. */
  lemma LongStringIsCut(j: Json, maxSmall: nat, version: GoString)
    requires maxSmall + SLACK < |Pack(j, ServerHello(version))| < TWO32
    ensures exists t ::
      && Reaches(PackerOf(j), Init(maxSmall), [BeginSend(ServerHello(version)), FinishSend(None), Deliver], t)
      && !t.crashed && t.sent == [ServerHello(version)] && !(t.wire <= Pack(j, ServerHello(version)))
  {
    var pack, p := PackerOf(j), ServerHello(version);
    AddedExactly(j, TheFormat(j), p, maxSmall + SLACK);
    var t := CutRun(pack, maxSmall, p, pack.put(p, maxSmall + SLACK).value);
  }

  lemma CutRun(pack: Packer, maxSmall: nat, p: Packet, w: Bytes) returns (t: Sender)
    requires pack.put(p, maxSmall + SLACK) == Some(w) && |w| == maxSmall + SLACK
    ensures Reaches(pack, Init(maxSmall), [BeginSend(p), FinishSend(None), Deliver], t)
    ensures !t.crashed && t.sent == [p] && t.wire == w
  {
    var s0 := Init(maxSmall);
    var s1 := Next(pack, s0, BeginSend(p));
    var a := Acquire(s1, None);
    assert a.bufs == [Buffer(maxSmall + SLACK, [])] && a.cur == Some(0);
    var s2 := Next(pack, s1, FinishSend(None));
    assert [] + w == w;
    assert s2.bufs == [Buffer(maxSmall + SLACK, w)] && s2.queue == [0];
    t := Next(pack, s2, Deliver);
    assert Reaches(pack, t, [], t);
    assert Reaches(pack, s2, [Deliver], t);
    assert Reaches(pack, s1, [FinishSend(None), Deliver], t);
  }

  // ---------- the object ----------

  datatype SendResult = Accepted | Stopped | Overrun

  /** mergeSender with its methods, each run to completion under the lock. Only the stop flag can change meanwhile:
      `stopsMeanwhile` says that it does, between the two looks SendLarge takes at it. */
  class MergeSender {
    const pack: Packer
    const maxSmall: nat
    var bufs: seq<Buffer>
    var cur: Option<nat>
    var queue: seq<nat>
    var pool: set<nat>
    var stopped: bool
    var finished: bool
    var wire: Bytes
    ghost var sent: seq<Packet>
    ghost var written: seq<Bytes>

    ghost function State(): Sender
      reads this
    {
      Sender(maxSmall, bufs, cur, queue, pool, stopped, finished, Idle, wire, sent, written, false)
    }

    ghost predicate Valid()
      reads this
    {
      Inv(State())
    }

    constructor (pack: Packer, maxSmall: nat)
      ensures Valid() && State() == Init(maxSmall) && this.pack == pack && this.maxSmall == maxSmall
    {
      this.pack, this.maxSmall := pack, maxSmall;
      bufs, cur, queue, pool, stopped, finished, wire, sent, written := [], None, [], {}, false, false, [], [], [];
    }

    /** The batch under construction, or a buffer from the pool, or a new one. */
    method AcquireBuffer(reuse: Option<nat>)
      requires InRange(State()) && (reuse.Some? ==> reuse.value in pool)
      modifies this`bufs, this`cur, this`pool
      ensures State() == Acquire(old(State()), reuse) && InRange(State())
    {
      if cur.None? {
        if reuse.Some? {
          bufs := bufs[reuse.value := bufs[reuse.value].(data := [])];
          pool := pool - {reuse.value};
          cur := reuse;
        } else {
          cur := Some(|bufs|);
          bufs := bufs + [Buffer(maxSmall + SLACK, [])];
        }
      }
    }

    method MergeInto(p: Packet) returns (fits: bool)
      requires InRange(State()) && cur.Some?
      modifies this`bufs, this`cur, this`queue, this`sent, this`written
      ensures fits <==> !Merge(pack, old(State()), p).crashed
      ensures fits ==> State() == Merge(pack, old(State()), p)
    {
      var id := cur.value;
      var w := pack.put(p, bufs[id].capacity - |bufs[id].data|);
      if w.None? {
        return false;
      }
      bufs := bufs[id := bufs[id].(data := bufs[id].data + w.value)];
      sent, written := sent + [p], written + [w.value];
      if |bufs[id].data| >= maxSmall {
        cur := None;
        queue := queue + [id];
      }
      return true;
    }

    /** One Send: refused exactly when stopped; a panic exactly when the writer panics on the room there is; otherwise the
        invariant holds again, so the bytes are where they belong. */
    method Send(p: Packet, reuse: Option<nat>) returns (r: SendResult)
      requires Valid() && (reuse.Some? ==> reuse.value in pool)
      modifies this
      ensures r == Stopped <==> old(stopped)
      ensures r == Stopped ==> State() == old(State())
      ensures r == Accepted ==> Valid() && State() == Merge(pack, Acquire(old(State()), reuse), p)
      ensures r == Overrun ==> Merge(pack, Acquire(old(State()), reuse), p).crashed
    {
      if stopped {
        return Stopped;
      }
      AcquireKeeps(State(), reuse);
      MergeKeeps(pack, Acquire(State(), reuse), p);
      AcquireBuffer(reuse);
      var fits := MergeInto(p);
      return if fits then Accepted else Overrun;
    }

    method RefreshNolock()
      requires Valid()
      modifies this`cur, this`queue
      ensures Valid() && State() == HandOver(old(State())) && CurBytes(State()) == []
    {
      HandOverKeeps(State());
      if cur.None? || |bufs[cur.value].data| == 0 {
        return;
      }
      queue := queue + [cur.value];
      cur := None;
    }

    /** Conn.Send of what marshalLargePacket made: a buffer of exactly the frame's size joins the queue. */
    method QueueLarge(p: Packet, w: Bytes)
      requires Valid() && CurBytes(State()) == [] && !finished
      modifies this`bufs, this`queue, this`sent, this`written
      ensures Valid() && State() == QueueBatch(old(State()), p, |pack.whole(p)|, w)
    {
      QueueBatchKeeps(State(), p, |pack.whole(p)|, w);
      queue := queue + [|bufs|];
      bufs := bufs + [Buffer(|pack.whole(p)|, w)];
      sent, written := sent + [p], written + [w];
    }

    /** The batch goes first, then the large packet in a buffer of its own. */
    method SendLarge(p: Packet, stopsMeanwhile: bool) returns (r: SendResult)
      requires Valid() && !finished
      modifies this`bufs, this`cur, this`queue, this`sent, this`written, this`stopped
      ensures Valid() && stopped == (old(stopped) || stopsMeanwhile)
      ensures r == if stopped then Stopped else if pack.large(p).None? then Overrun else Accepted
      ensures r == Stopped ==> State().(stopped := old(stopped)) == old(State())
      ensures r == Overrun ==> State() == HandOver(old(State()))
      ensures r == Accepted ==> State() == QueueBatch(HandOver(old(State())), p, |pack.whole(p)|, pack.large(p).value)
    {
      if stopped {
        return Stopped;
      }
      stopped := stopsMeanwhile;
      if stopped {
        return Stopped;
      }
      RefreshNolock();
      var w := pack.large(p);
      if w.None? {
        return Overrun;
      }
      QueueLarge(p, w.value);
      return Accepted;
    }

    /** The flag first, then the lock and one last hand-over: nothing stays buffered. */
    method RefreshLast()
      requires Valid()
      modifies this`stopped, this`cur, this`queue, this`finished
      ensures Valid() && stopped && finished && CurBytes(State()) == [] && sent == old(sent) && written == old(written)
      ensures State() == HandOver(old(State())).(stopped := true, finished := true)
    {
      Relabelled(State(), State().(stopped := true));
      stopped := true;
      RefreshNolock();
      Relabelled(State(), State().(finished := true));
      finished := true;
    }
  }
}

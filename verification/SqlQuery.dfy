/** A search over the stored calls, from the WHERE clause to the rows sent (tracer/restapi/handlers.go, without LIMIT). */
module SqlQuery {
  import opened Types
  import opened Sql
  import opened SqlMeaning
  import opened SqlParse

  /** WithRow: every column the clause names exists. */
  predicate Bound(e: Op) {
    match e
    case Field(table, name) => Resolve(table, name).Some?
    case And(l, r) => Bound(l) && Bound(r)
    case Or(l, r) => Bound(l) && Bound(r)
    case Not(c) => Bound(c)
    case Comp(_, _, l, r) => Bound(l) && Bound(r)
    case Range(v, lo, hi) => Bound(v) && Bound(lo) && Bound(hi)
    case Frame(c) => Bound(c)
    case Call(c) => Bound(c)
    case _ => true
  }

  function SetUp(clause: Expr, table: string): Option<Op> {
    var c := Compile(clause, table, 0);
    if c.Some? && Bound(c.value.0) then Some(c.value.0) else None
  }

  lemma ResolvesKnown(table: string, name: string)
    ensures Resolve(table, name).Some? <==> HasColumn(table, name)
  {
    assert |"calls"| == 5 && |"frames"| == 6;
  }

  /** The columns of the objects are those of the clause. */
  lemma {:induction false} BoundIsKnown(expr: Expr, table: string, next: nat)
    requires Compile(expr, table, next).Some?
    ensures Bound(Compile(expr, table, next).value.0) <==> Known(expr, table)
    decreases expr, 1
  {
    match expr
    case AndExpr(l, r) =>
      BoundIsKnown(l, table, next);
      BoundIsKnown(r, table, Free(Compile(l, table, next), next));
    case OrExpr(l, r) =>
      BoundIsKnown(l, table, next);
      BoundIsKnown(r, table, Free(Compile(l, table, next), next));
    case ComparisonExpr(_, l, r) =>
      BoundIsKnown(l, table, next + 1);
      BoundIsKnown(r, table, Free(Compile(l, table, next + 1), next + 1));
    case NotExpr(e) => BoundIsKnown(e, table, next);
    case ParenExpr(e) => BoundIsKnown(e, table, next);
    case RangeCond(_, _, _, _) => BoundRange(expr, table, next);
    case ColName(qualifier, name) => ResolvesKnown(if qualifier != "" then qualifier else table, name);
    case FuncExpr(_, _, _, _) => BoundCall(expr, table, next);
    case _ =>
  }

  lemma {:induction false} BoundRange(expr: Expr, table: string, next: nat)
    requires expr.RangeCond? && Compile(expr, table, next).Some?
    ensures Bound(Compile(expr, table, next).value.0) <==> Known(expr, table)
    decreases expr, 0
  {
    var n := Free(Compile(expr.left, table, next), next);
    BoundIsKnown(expr.left, table, next);
    BoundIsKnown(expr.from, table, n);
    BoundIsKnown(expr.to, table, Free(Compile(expr.from, table, n), next));
  }

  lemma {:induction false} BoundCall(expr: Expr, table: string, next: nat)
    requires expr.FuncExpr? && Compile(expr, table, next).Some?
    ensures Bound(Compile(expr, table, next).value.0) <==> Known(expr, table)
    decreases expr, 0
  {
    var f := FindFunc(expr.func).value;
    FunctionNames(expr.func);
    if f in {FRAME, CALL} {
      OneArgument(expr, Scope(f, table), next);
      BoundIsKnown(expr.args[0].e, Scope(f, table), next);
    }
  }

  /** A query is set up exactly when its clause is acceptable and names only columns there are. */
  lemma SetUpExactly(clause: Expr, table: string)
    ensures SetUp(clause, table).Some? <==> Acceptable(clause) && Known(clause, table)
  {
    AcceptableCompiles(clause, table, 0);
    if Acceptable(clause) {
      BoundIsKnown(clause, table, 0);
    }
  }

  /** What a clause asks of a row: the verdict on each call and offset, None for a panic. */
  type Wanted = (FuncLog, int) -> Option<bool>

  ghost function Verdict(clause: Expr, table: string, g: Engines): Wanted {
    (log, offset) => AsBool(Sem(clause, table, Context(g, log), offset))
  }

  /** True of everything: mentioning it opens Gives. */
  predicate Asked(b: bool) {
    true
  }

  /** The objects give what is wanted of each row, unless an earlier row spoils it. `still` says that they do not move the
      row, `blind` that they do not look where it stands. */
  ghost predicate Gives(op: Op, owners: map<nat, Op>, g: Engines, want: Wanted, still: bool, blind: bool) {
    forall b {:trigger Asked(b)} :: Asked(b) ==>
      && Ready(op, owners) && (still ==> !Moves(op)) && (blind ==> !Reads(op))
      && forall log, offset :: SqlMeaning.Holds(op, Context(g, log), offset) == want(log, offset)
  }

  lemma CompiledGives(clause: Expr, table: string, g: Engines)
    requires SetUp(clause, table).Some?
    requires var op := SetUp(clause, table).value; FixedPatterns(op) && Ordered(op)
    ensures var op := SetUp(clause, table).value;
            Gives(op, Owners(op), g, Verdict(clause, table, g), !Moves(op), !Reads(op))
  {
    var op := SetUp(clause, table).value;
    CompileNumbers(clause, table, 0);
    forall log, offset ensures SqlMeaning.Holds(op, Context(g, log), offset) == Verdict(clause, table, g)(log, offset) {
      CompileMeans(clause, table, 0, Context(g, log), offset);
    }
  }

  ghost predicate Kept(row: Evaluator, owners: map<nat, Op>)
    reads row
  {
    MadeOk(row.engines, owners, row.made)
  }

  /** The clause evaluated on the row as earlier rows left it. */
  method Answer(row: Evaluator, op: Op, ghost owners: map<nat, Op>, ghost sound: bool, ghost want: Wanted,
                ghost still: bool, ghost blind: bool)
    returns (verdict: Option<bool>)
    requires sound ==> Gives(op, owners, row.engines, want, still, blind) && Kept(row, owners)
    modifies row`offset, row`made
    ensures sound ==> verdict == want(row.log, old(row.offset)) && Kept(row, owners)
    ensures sound && still ==> row.offset == old(row.offset)
    ensures sound && blind ==> verdict == want(row.log, 0)
  {
    if sound {
      assert Asked(true);
      RunIsMeaning(op, owners, row.Row(), row.Holds());
      if !Reads(op) {
        UnreadOffset(op, row.Row(), 0, row.offset);
      }
    }
    verdict := row.Bool(op);
  }

  // ---------- FROM calls ----------

  /** The calls below k that are wanted, in order. */
  ghost function Matching(want: Wanted, logs: seq<FuncLog>, k: nat): seq<int>
    requires k <= |logs|
  {
    if k == 0 then []
    else Matching(want, logs, k - 1) + if want(logs[k - 1], 0) == Some(true) then [k - 1] else []
  }

  /** `read` counts the rows answered; a clause that panics on row `read` ends the response there. */
  datatype Response = BadRequest | Response(sent: seq<int>, read: nat)

  /** Exactly the wanted rows were sent, up to the first row that panics. */
  ghost predicate Sends(want: Wanted, logs: seq<FuncLog>, sent: seq<int>, read: nat) {
    && read <= |logs| && sent == Matching(want, logs, read)
    && (forall i :: 0 <= i < read ==> want(logs[i], 0).Some?)
    && (read < |logs| ==> want(logs[read], 0).None?)
  }

  method ScanCalls(op: Op, g: Engines, logs: seq<FuncLog>, ghost owners: map<nat, Op>, ghost sound: bool, ghost want: Wanted,
                   ghost still: bool, ghost blind: bool)
    returns (sent: seq<int>, read: nat)
    requires sound ==> Gives(op, owners, g, want, still, blind) && (still || blind)
    ensures read <= |logs|
    ensures sound ==> Sends(want, logs, sent, read)
  {
    var row := new Evaluator(g, FuncLog(0, 0, 0, 0, [], 0));
    sent := [];
    for k := 0 to |logs|
      invariant sound ==> Kept(row, owners) && sent == Matching(want, logs, k)
      invariant sound && still ==> row.offset == 0
      invariant sound ==> forall i :: 0 <= i < k ==> want(logs[i], 0).Some?
    {
      row.log := logs[k];
      var verdict := Answer(row, op, owners, sound, want, still, blind);
      if verdict.None? {
        return sent, k;
      }
      if verdict.value {
        sent := sent + [k];
      }
    }
    return sent, |logs|;
  }

  /** What a clause over calls must keep to: constant patterns, no column of the current frame read after a FRAME, and not
      both such a column and a FRAME, because the row keeps the offset that the call before left. */
  ghost predicate FitsCalls(op: Op) {
    FixedPatterns(op) && Ordered(op) && (!Reads(op) || !Moves(op))
  }

  method SearchCalls(clause: Expr, g: Engines, logs: seq<FuncLog>) returns (r: Response)
    ensures r.BadRequest? <==> !(Acceptable(clause) && Known(clause, "calls"))
    ensures r.BadRequest? <==> SetUp(clause, "calls").None?
    ensures r.Response? && FitsCalls(SetUp(clause, "calls").value) ==>
              Sends(Verdict(clause, "calls", g), logs, r.sent, r.read)
  {
    SetUpExactly(clause, "calls");
    var filter := SetUp(clause, "calls");
    if filter.None? {
      return BadRequest;
    }
    var op := filter.value;
    ghost var sound := FitsCalls(op);
    if sound {
      CompiledGives(clause, "calls", g);
    }
    var sent, read := ScanCalls(op, g, logs, Owners(op), sound, Verdict(clause, "calls", g), !Moves(op), !Reads(op));
    return Response(sent, read);
  }

  /** frames.offset = 0 AND FRAME(offset = 1) */
  function Stale(): Op {
    And(OffsetIs(0, 0), Frame(OffsetIs(1, 1)))
  }

  /** On two frames the verdict is whether the row stood at offset 0, and the row is left at offset 1. */
  lemma StaleRun(x: Context, st: State)
    requires |x.log.frames| == 2 && Unspoilt(0, st) && Unspoilt(1, st)
    ensures var out := Run(Stale(), x, st);
            out.0 == Some(st.offset == 0) && out.1.offset == 1 && Unspoilt(0, out.1) && Unspoilt(1, out.1)
  {
    var frame := OffsetIs(1, 1);
    OffsetIsRuns(0, 0, x, st);
    var st1 := Run(OffsetIs(0, 0), x, st).1;
    OffsetIsRuns(1, 1, x, st1.(offset := 0));
    var st2 := Run(frame, x, st1.(offset := 0)).1;
    OffsetIsRuns(1, 1, x, st2.(offset := 1));
    assert RunFrames(frame, x, st2, 1) == Run(frame, x, st2.(offset := 1));
  }

  lemma StaleMeans(x: Context)
    requires |x.log.frames| == 2
    ensures SqlMeaning.Holds(Stale(), x, 0) == Some(true)
  {
    OffsetIsRuns(0, 0, x, State(0, map[]));
    OffsetIsRuns(1, 1, x, State(0, map[]));
    OffsetIsRuns(1, 1, x, State(1, map[]));
    var verdicts := Verdicts(OffsetIs(1, 1), x);
    assert verdicts == [Some(false), Some(true)];
    assert verdicts[1] == Some(true);
    NoPanicExists(verdicts);
    assert Meaning(Frame(OffsetIs(1, 1)), x, 0) == Some(Bool(true));
  }

  /** The last part of FitsCalls is needed: every call with two frames satisfies this clause, but the evaluator accepts the
      first such call and rejects the next one, because FRAME left the row at offset 1. */
  lemma StaleOffset(x: Context)
    requires |x.log.frames| == 2
    ensures FixedPatterns(Stale()) && Ordered(Stale()) && Reads(Stale()) && Moves(Stale())
    ensures SqlMeaning.Holds(Stale(), x, 0) == Some(true)
    ensures var first := Run(Stale(), x, State(0, map[]));
            first.0 == Some(true) && Run(Stale(), x, first.1).0 == Some(false)
  {
    FrameColumns();
    StaleMeans(x);
    StaleRun(x, State(0, map[]));
    StaleRun(x, Run(Stale(), x, State(0, map[])).1);
  }

  // ---------- FROM frames ----------

  /** A call without frames is still read once, at offset 0. */
  function Width(log: FuncLog): nat {
    Max(1, |log.frames|)
  }

  datatype Place = Place(id: int, offset: int)

  function Offsets(id: nat, n: nat): seq<Place> {
    seq(n, o requires 0 <= o < n => Place(id, o))
  }

  /** Every place of the calls below k, in order. */
  function Positions(logs: seq<FuncLog>, k: nat): seq<Place>
    requires k <= |logs|
  {
    if k == 0 then [] else Positions(logs, k - 1) + Offsets(k - 1, Width(logs[k - 1]))
  }

  /** A place the reading can stand at; (-1, -1) before the first row. */
  predicate Standing(logs: seq<FuncLog>, p: Place) {
    p == Place(-1, -1) || (0 <= p.id < |logs| && 0 <= p.offset < Width(logs[p.id]))
  }

  /** Every place up to and including p. */
  function Reached(logs: seq<FuncLog>, p: Place): seq<Place>
    requires Standing(logs, p)
  {
    if p.id < 0 then [] else Positions(logs, p.id) + Offsets(p.id, p.offset + 1)
  }

  /** The place read after p, the frames of whose call are given. */
  function Following(p: Place, frames: nat): Place {
    if p.offset + 1 < frames && p.offset >= 0 then Place(p.id, p.offset + 1) else Place(p.id + 1, 0)
  }

  /** How many calls, and how many frames of this call, are still to come. */
  function Rest(logs: seq<FuncLog>, p: Place): (int, int)
    requires Standing(logs, p)
  {
    (|logs| - p.id, if p.id >= 0 then Width(logs[p.id]) - p.offset else 0)
  }

  lemma ReachedNext(logs: seq<FuncLog>, p: Place, frames: nat)
    requires Standing(logs, p) && (p.id >= 0 ==> frames == |logs[p.id].frames|)
    ensures var q := Following(p, frames);
            && (q.id < |logs| ==> Standing(logs, q) && Reached(logs, q) == Reached(logs, p) + [q])
            && (q.id >= |logs| ==> Reached(logs, p) == Positions(logs, |logs|))
  {
    var q := Following(p, frames);
    if q.id == p.id {
      assert Offsets(q.id, q.offset + 1) == Offsets(p.id, p.offset + 1) + [q];
    } else {
      assert Reached(logs, p) == Positions(logs, q.id);
      assert Offsets(q.id, 1) == [q];
    }
  }

  /** Every place was read once and in order, or every place before the one that panicked. */
  ghost predicate ReadUpTo(logs: seq<FuncLog>, read: seq<Place>, panic: Option<Place>) {
    match panic
    case None => read == Positions(logs, |logs|)
    case Some(q) => Standing(logs, q) && q.id >= 0 && read + [q] == Reached(logs, q)
  }

  /** What has been read is a beginning of all there is to read. */
  lemma {:induction false} ReachedIsPrefix(logs: seq<FuncLog>, p: Place, k: nat)
    requires Standing(logs, p) && p.id < k <= |logs|
    ensures Reached(logs, p) <= Positions(logs, k)
    decreases k
  {
    if 0 <= p.id < k - 1 {
      ReachedIsPrefix(logs, p, k - 1);
    } else if p.id >= 0 {
      assert Offsets(p.id, p.offset + 1) <= Offsets(p.id, Width(logs[p.id]));
    }
  }

  ghost predicate Satisfies(want: Wanted, logs: seq<FuncLog>, p: Place) {
    0 <= p.id < |logs| && want(logs[p.id], p.offset) == Some(true)
  }

  ghost function Satisfying(want: Wanted, logs: seq<FuncLog>, at: seq<Place>): seq<Place> {
    if at == [] then []
    else
      var last := at[|at| - 1];
      Satisfying(want, logs, at[..|at| - 1]) + if Satisfies(want, logs, last) then [last] else []
  }

  lemma SatisfyingNext(want: Wanted, logs: seq<FuncLog>, at: seq<Place>, p: Place)
    ensures Satisfying(want, logs, at + [p]) ==
            Satisfying(want, logs, at) + if Satisfies(want, logs, p) then [p] else []
  {
    assert (at + [p])[..|at|] == at;
  }

  /** `read` lists the places answered, `accepted` those whose row passed the clause, `printed` the places the lines were
      printed from, `panic` the place whose evaluation ended the response. */
  datatype FrameResponse =
    | BadFrameRequest
    | FrameResponse(accepted: seq<Place>, printed: seq<Place>, read: seq<Place>, panic: Option<Place>)

  method ScanFrames(op: Op, g: Engines, logs: seq<FuncLog>, ghost owners: map<nat, Op>, ghost sound: bool, ghost want: Wanted,
                    ghost still: bool, ghost blind: bool)
    returns (r: FrameResponse)
    requires sound ==> Gives(op, owners, g, want, still, blind)
    ensures r.FrameResponse? && ReadUpTo(logs, r.read, r.panic)
    ensures sound ==> r.accepted == Satisfying(want, logs, r.read)
    ensures sound && r.panic.Some? ==> want(logs[r.panic.value.id], r.panic.value.offset).None?
    ensures sound && still ==> r.printed == r.accepted
  {
    var row := new Evaluator(g, FuncLog(0, 0, 0, 0, [], 0));
    var accepted, printed, read: seq<Place> := [], [], [];
    var p := Place(-1, -1);
    while true
      invariant Standing(logs, p) && (p.id >= 0 ==> row.log == logs[p.id])
      invariant read == Reached(logs, p)
      invariant sound ==> Kept(row, owners) && accepted == Satisfying(want, logs, read)
      invariant sound && still ==> printed == accepted
      decreases Rest(logs, p).0, Rest(logs, p).1
    {
      ReachedNext(logs, p, |row.log.frames|);
      var q := Following(p, |row.log.frames|);
      if q.id >= |logs| {
        break;
      }
      row.log, row.offset := logs[q.id], q.offset;
      var verdict := Answer(row, op, owners, sound, want, still, blind);
      if verdict.None? {
        return FrameResponse(accepted, printed, read, Some(q));
      }
      SatisfyingNext(want, logs, read, q);
      p, read := q, read + [q];
      if verdict.value {
        accepted, printed := accepted + [q], printed + [Place(q.id, row.offset)];
      }
    }
    return FrameResponse(accepted, printed, read, None);
  }

  method SearchFrames(clause: Expr, g: Engines, logs: seq<FuncLog>) returns (r: FrameResponse)
    ensures r.BadFrameRequest? <==> !(Acceptable(clause) && Known(clause, "frames"))
    ensures r.BadFrameRequest? <==> SetUp(clause, "frames").None?
    ensures r.FrameResponse? ==> ReadUpTo(logs, r.read, r.panic)
    ensures r.FrameResponse? && FixedPatterns(SetUp(clause, "frames").value) && Ordered(SetUp(clause, "frames").value) ==>
              && r.accepted == Satisfying(Verdict(clause, "frames", g), logs, r.read)
              && (r.panic.Some? ==> Verdict(clause, "frames", g)(logs[r.panic.value.id], r.panic.value.offset).None?)
              && (!Moves(SetUp(clause, "frames").value) ==> r.printed == r.accepted)
  {
    SetUpExactly(clause, "frames");
    var filter := SetUp(clause, "frames");
    if filter.None? {
      return BadFrameRequest;
    }
    var op := filter.value;
    ghost var sound := FixedPatterns(op) && Ordered(op);
    if sound {
      CompiledGives(clause, "frames", g);
    }
    r := ScanFrames(op, g, logs, Owners(op), sound, Verdict(clause, "frames", g), !Moves(op), !Reads(op));
  }

  /** A clause FRAME(e) prints each line from the first frame that satisfies e, so the line shows the frame that was read
      exactly when that frame is the first one to satisfy e. */
  lemma FramePrintsFirst(e: Op, owners: map<nat, Op>, x: Context, st: State)
    requires Ready(e, owners) && !Moves(e) && MadeOk(x.engines, owners, st.made) && Run(Frame(e), x, st).0 == Some(true)
    ensures var shown := Run(Frame(e), x, st).1.offset;
            shown == st.offset <==>
              && 0 <= st.offset < |x.log.frames| && SqlMeaning.Holds(e, x, st.offset) == Some(true)
              && forall k :: 0 <= k < st.offset ==> SqlMeaning.Holds(e, x, k) == Some(false)
  {
    FrameStopsAtFirst(e, owners, x, st, 0);
  }
}

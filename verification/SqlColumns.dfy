/** What the columns of a call row are (tracer/sql/row.go), and from there what a search on one column sends. */
module SqlColumns {
  import opened Types
  import opened Sql
  import opened SqlMeaning
  import opened SqlParse
  import opened SqlQuery

  // ---------- columns by name ----------

  /** Go's int64 of an integer. */
  function Wrapped(d: int): Int64 {
    (d + TWO63) % TWO64 - TWO63
  }

  lemma WrappedIsCast(d: int)
    ensures Codec.FromUint64(Codec.ToUint64(d)) == Wrapped(d)
    ensures -TWO63 <= d < TWO63 ==> Wrapped(d) == d
  {
  }

  /** Where a column name looks: its own qualifier, or the table that completes it. */
  predicate Names(qualifier: string, table: string, wanted: string) {
    qualifier == wanted || (qualifier == "" && table == wanted)
  }

  lemma CallNames()
    ensures Resolve("calls", "id") == Some(CallId) && Resolve("calls", "gid") == Some(CallGid)
    ensures Resolve("calls", "starttime") == Some(CallStart) && Resolve("calls", "endtime") == Some(CallEnd)
    ensures Resolve("calls", "exectime") == Some(CallExec)
  {
    assert |"id"| == 2 && |"gid"| == 3 && |"starttime"| == 9 && |"endtime"| == 7 && |"exectime"| == 8;
  }

  lemma FrameNames()
    ensures Resolve("frames", "id") == Some(FrameId) && Resolve("frames", "offset") == Some(FrameOffset)
    ensures Resolve("frames", "package") == Some(FramePackage) && Resolve("frames", "func") == Some(FrameFunc)
    ensures Resolve("frames", "file") == Some(FrameFile) && Resolve("frames", "line") == Some(FrameLine)
    ensures Resolve("frames", "pc") == Some(FramePc)
  {
    assert |"calls"| == 5 && |"frames"| == 6;
    assert |"id"| == 2 && |"offset"| == 6 && |"package"| == 7 && |"func"| == 4 && |"file"| == 4 && |"line"| == 4 && |"pc"| == 2;
    assert "id"[0] != "pc"[0] && "func"[1] != "file"[1] && "line"[0] != "func"[0] && "line"[0] != "file"[0];
  }

  lemma ReadAs(qualifier: string, table: string, wanted: string, name: string, c: Column, x: Context, offset: int)
    requires Names(qualifier, table, wanted) && wanted != "" && Resolve(wanted, name) == Some(c)
    ensures Sem(ColName(qualifier, name), table, x, offset) == Get(c, x, offset)
  {
  }

  /** The columns of the table calls are the fields of the call; exectime is their difference in 64 bits. */
  lemma CallColumnsMean(qualifier: string, table: string, x: Context, offset: int)
    requires Names(qualifier, table, "calls")
    ensures Sem(ColName(qualifier, "id"), table, x, offset) == Some(BigInt(x.log.id))
    ensures Sem(ColName(qualifier, "gid"), table, x, offset) == Some(BigInt(x.log.gid))
    ensures Sem(ColName(qualifier, "starttime"), table, x, offset) == Some(Datetime(x.log.startTime))
    ensures Sem(ColName(qualifier, "endtime"), table, x, offset) == Some(Datetime(x.log.endTime))
    ensures Sem(ColName(qualifier, "exectime"), table, x, offset) ==
            Some(BigInt(Wrapped(x.log.endTime - x.log.startTime)))
  {
    CallNames();
    ReadAs(qualifier, table, "calls", "id", CallId, x, offset);
    ReadAs(qualifier, table, "calls", "gid", CallGid, x, offset);
    ReadAs(qualifier, table, "calls", "starttime", CallStart, x, offset);
    ReadAs(qualifier, table, "calls", "endtime", CallEnd, x, offset);
    ReadAs(qualifier, table, "calls", "exectime", CallExec, x, offset);
    WrappedIsCast(x.log.endTime - x.log.startTime);
  }

  /** The columns of the table frames are the call's id, the place of the frame, and the frame's pc with what the symbols
      say of it; past the frames all but the first two panic. First the numbers. */
  lemma FrameNumbersMean(qualifier: string, table: string, x: Context, offset: int)
    requires Names(qualifier, table, "frames")
    ensures Sem(ColName(qualifier, "id"), table, x, offset) == Some(BigInt(x.log.id))
    ensures Sem(ColName(qualifier, "offset"), table, x, offset) == Some(BigInt(offset))
    ensures 0 <= offset < |x.log.frames| ==>
              var pc := x.log.frames[offset];
              && Sem(ColName(qualifier, "line"), table, x, offset) == Some(BigInt(x.engines.info(pc).line))
              && Sem(ColName(qualifier, "pc"), table, x, offset) == Some(BigInt(Wrapped(pc)))
    ensures !(0 <= offset < |x.log.frames|) ==>
              && Sem(ColName(qualifier, "line"), table, x, offset) == None
              && Sem(ColName(qualifier, "pc"), table, x, offset) == None
  {
    FrameNames();
    ReadAs(qualifier, table, "frames", "id", FrameId, x, offset);
    ReadAs(qualifier, table, "frames", "offset", FrameOffset, x, offset);
    ReadAs(qualifier, table, "frames", "line", FrameLine, x, offset);
    ReadAs(qualifier, table, "frames", "pc", FramePc, x, offset);
    if 0 <= offset < |x.log.frames| {
      WrappedIsCast(x.log.frames[offset]);
    }
  }

  lemma FrameTextsMean(qualifier: string, table: string, x: Context, offset: int)
    requires Names(qualifier, table, "frames")
    ensures 0 <= offset < |x.log.frames| ==>
              var pc := x.log.frames[offset];
              && Sem(ColName(qualifier, "package"), table, x, offset) == Some(String(x.engines.info(pc).package))
              && Sem(ColName(qualifier, "func"), table, x, offset) == Some(String(x.engines.info(pc).func))
              && Sem(ColName(qualifier, "file"), table, x, offset) == Some(String(x.engines.info(pc).file))
    ensures !(0 <= offset < |x.log.frames|) ==>
              && Sem(ColName(qualifier, "package"), table, x, offset) == None
              && Sem(ColName(qualifier, "func"), table, x, offset) == None
              && Sem(ColName(qualifier, "file"), table, x, offset) == None
  {
    FrameNames();
    ReadAs(qualifier, table, "frames", "package", FramePackage, x, offset);
    ReadAs(qualifier, table, "frames", "func", FrameFunc, x, offset);
    ReadAs(qualifier, table, "frames", "file", FrameFile, x, offset);
  }

  /** Any other name is no column: reading it panics. */
  lemma NoOtherColumn(table: string, name: string, x: Context, offset: int)
    requires table != "" && !HasColumn(table, name)
    ensures Sem(ColName(table, name), "calls", x, offset) == None
    ensures Sem(ColName("", name), table, x, offset) == None
  {
    ResolvesKnown(table, name);
  }

  /** As a condition a number is true unless it is 0, and a text or a time panics. */
  lemma Truth(i: nat, s: GoString, name: string, table: string, x: Context, offset: int)
    requires name in ["starttime", "endtime"]
    ensures AsBool(Sem(IntVal(i), table, x, offset)) == Some(i != 0)
    ensures AsBool(Sem(StrVal(s), table, x, offset)) == None
    ensures AsBool(Sem(ColName("calls", name), table, x, offset)) == None
  {
    CallColumnsMean("calls", table, x, offset);
  }

  // ---------- functions by name ----------

  predicate SameLetter(a: char, b: char) {
    a == b || ('A' <= a <= 'Z' && b as int == a as int + 32) || ('A' <= b <= 'Z' && a as int == b as int + 32)
  }

  lemma LowerLetter(a: char, b: char)
    requires SameLetter(a, b)
    ensures LowerChar(a) == LowerChar(b)
  {
  }

  /** The case of a function's name does not matter. */
  lemma AnyCase(a: string, b: string)
    requires |a| == |b| && forall i :: 0 <= i < |a| ==> SameLetter(a[i], b[i])
    ensures Lower(a) == Lower(b) && FindFunc(a) == FindFunc(b)
  {
    forall i | 0 <= i < |a| ensures Lower(a)[i] == Lower(b)[i] {
      LowerLetter(a[i], b[i]);
    }
    assert Lower(a) == Lower(b);
  }

  lemma PlainNames()
    ensures FindFunc("frame") == Some(FRAME) && FindFunc("call") == Some(CALL) && FindFunc("now") == Some(NOW)
    ensures FindFunc("addtime") == Some(ADDTIME) && FindFunc("subtime") == Some(SUBTIME)
  {
    assert Lower("frame") == "frame" && Lower("call") == "call" && Lower("now") == "now";
    assert Lower("addtime") == "addtime" && Lower("subtime") == "subtime";
    FunctionNames("frame");
    FunctionNames("call");
    FunctionNames("now");
    FunctionNames("addtime");
    FunctionNames("subtime");
  }

  // ---------- searches on one column ----------

  datatype CallColumn = IdOf | GidOf | StartOf | EndOf | ExecOf

  function CallName(c: CallColumn): string {
    match c
    case IdOf => "id"
    case GidOf => "gid"
    case StartOf => "starttime"
    case EndOf => "endtime"
    case ExecOf => "exectime"
  }

  function CallField(c: CallColumn, log: FuncLog): Value {
    match c
    case IdOf => BigInt(log.id)
    case GidOf => BigInt(log.gid)
    case StartOf => Datetime(log.startTime)
    case EndOf => Datetime(log.endTime)
    case ExecOf => BigInt(Wrapped(log.endTime - log.startTime))
  }

  datatype FrameColumn = CallOf | OffsetOf | PackageOf | FuncOf | FileOf | LineOf | PcOf

  function FrameName(c: FrameColumn): string {
    match c
    case CallOf => "id"
    case OffsetOf => "offset"
    case PackageOf => "package"
    case FuncOf => "func"
    case FileOf => "file"
    case LineOf => "line"
    case PcOf => "pc"
  }

  function FrameField(c: FrameColumn, g: Engines, log: FuncLog, o: nat): Value
    requires o < |log.frames|
  {
    var info := g.info(log.frames[o]);
    match c
    case CallOf => BigInt(log.id)
    case OffsetOf => BigInt(o)
    case PackageOf => String(info.package)
    case FuncOf => String(info.func)
    case FileOf => String(info.file)
    case LineOf => BigInt(info.line)
    case PcOf => BigInt(Wrapped(log.frames[o]))
  }

  datatype Literal = Number(n: nat) | Text(s: GoString)

  function LiteralExpr(l: Literal): Expr {
    if l.Number? then IntVal(l.n) else StrVal(l.s)
  }

  function LiteralValue(l: Literal): Value {
    if l.Number? then BigInt(l.n) else String(l.s)
  }

  /** The rows sent are those with the verdict true, in order, up to the first row whose evaluation panics. */
  ghost predicate Picks(sent: seq<int>, read: nat, logs: seq<FuncLog>, verdict: FuncLog -> Option<bool>) {
    && read <= |logs|
    && (forall i, j :: 0 <= i < j < |sent| ==> sent[i] < sent[j])
    && (forall k :: k in sent <==> 0 <= k < read && verdict(logs[k]) == Some(true))
    && (forall k :: 0 <= k < read ==> verdict(logs[k]).Some?)
    && (read < |logs| ==> verdict(logs[read]).None?)
  }

  lemma {:induction false} MatchingPicks(want: Wanted, logs: seq<FuncLog>, n: nat)
    requires n <= |logs|
    ensures var sent := Matching(want, logs, n);
            && (forall i, j :: 0 <= i < j < |sent| ==> sent[i] < sent[j])
            && (forall k :: k in sent <==> 0 <= k < n && want(logs[k], 0) == Some(true))
  {
    if n > 0 {
      MatchingPicks(want, logs, n - 1);
      var before, sent := Matching(want, logs, n - 1), Matching(want, logs, n);
      assert forall i :: 0 <= i < |before| ==> before[i] in before && sent[i] == before[i];
    }
  }

  lemma SendsPicks(want: Wanted, logs: seq<FuncLog>, sent: seq<int>, read: nat, verdict: FuncLog -> Option<bool>)
    requires Sends(want, logs, sent, read) && forall log :: want(log, 0) == verdict(log)
    ensures Picks(sent, read, logs, verdict)
  {
    MatchingPicks(want, logs, read);
  }

  function Compares(name: string, operator: Operator, l: Literal): Expr {
    ComparisonExpr(operator, ColName("", name), LiteralExpr(l))
  }

  /** Does the literal fit 64 bits? */
  predicate Small(l: Literal) {
    l.Number? ==> l.n < TWO63
  }

  lemma ComparesCompiles(table: string, name: string, operator: Operator, l: Literal)
    ensures Acceptable(Compares(name, operator, l)) <==> Small(l)
    ensures Known(Compares(name, operator, l), table) <==> Known(ColName("", name), table)
    ensures Small(l) ==> Compile(Compares(name, operator, l), table, 0) ==
                         Some((Comp(0, operator, Field(table, name), Lit(LiteralValue(l))), 1))
  {
    assert Acceptable(LiteralExpr(l)) <==> Small(l);
    assert Known(LiteralExpr(l), table);
    if Small(l) {
      assert Compile(ColName("", name), table, 1) == Some((Field(table, name), 1));
      assert Compile(LiteralExpr(l), table, 1) == Some((Lit(LiteralValue(l)), 1));
    }
  }

  lemma OneComparison(operator: Operator, field: Op, v: Value)
    requires field.Field?
    ensures var op := Comp(0, operator, field, Lit(v)); FitsCalls(op) && FitsCalls(Frame(op))
  {
    var op := Comp(0, operator, field, Lit(v));
    assert FixedPatterns(field) && Ordered(field) && !Moves(field);
    assert Const(Lit(v)) && FixedPatterns(Lit(v)) && Ordered(Lit(v)) && !Moves(Lit(v));
    assert !Moves(op) && FixedPatterns(op) && Ordered(op);
  }

  function CallClause(c: CallColumn, operator: Operator, l: Literal): Expr {
    Compares(CallName(c), operator, l)
  }

  lemma CallNameKnown(c: CallColumn)
    ensures Known(ColName("", CallName(c)), "calls")
  {
  }

  lemma FrameNameKnown(c: FrameColumn)
    ensures Known(ColName("", FrameName(c)), "frames")
  {
  }

  lemma CallClauseCompiles(c: CallColumn, operator: Operator, l: Literal)
    ensures var clause := CallClause(c, operator, l);
            && (Acceptable(clause) && Known(clause, "calls") <==> Small(l))
            && (Small(l) ==> SetUp(clause, "calls").Some? && FitsCalls(SetUp(clause, "calls").value))
  {
    CallNameKnown(c);
    ComparesCompiles("calls", CallName(c), operator, l);
    SetUpExactly(CallClause(c, operator, l), "calls");
    OneComparison(operator, Field("calls", CallName(c)), LiteralValue(l));
  }

  lemma CallColumnMeans(c: CallColumn, g: Engines, log: FuncLog)
    ensures Sem(ColName("", CallName(c)), "calls", Context(g, log), 0) == Some(CallField(c, log))
  {
    CallColumnsMean("", "calls", Context(g, log), 0);
  }

  lemma ComparesMeans(table: string, name: string, operator: Operator, l: Literal, x: Context, offset: int)
    ensures var v := Sem(ColName("", name), table, x, offset);
            Sem(Compares(name, operator, l), table, x, offset) ==
            if v.None? then None else Compared(x.engines, operator, v.value, LiteralValue(l))
  {
    assert Sem(LiteralExpr(l), table, x, offset) == Some(LiteralValue(l));
  }

  lemma CallClauseMeans(c: CallColumn, operator: Operator, l: Literal, g: Engines, log: FuncLog)
    ensures Verdict(CallClause(c, operator, l), "calls", g)(log, 0) ==
            AsBool(Compared(g, operator, CallField(c, log), LiteralValue(l)))
  {
    CallColumnMeans(c, g, log);
    ComparesMeans("calls", CallName(c), operator, l, Context(g, log), 0);
  }

  /** FROM calls WHERE column operator literal. */
  method CallsWhere(c: CallColumn, operator: Operator, l: Literal, g: Engines, logs: seq<FuncLog>) returns (r: Response)
    ensures r.BadRequest? <==> !Small(l)
    ensures r.Response? ==>
              Picks(r.sent, r.read, logs, log => AsBool(Compared(g, operator, CallField(c, log), LiteralValue(l))))
  {
    CallClauseCompiles(c, operator, l);
    r := SearchCalls(CallClause(c, operator, l), g, logs);
    if r.Response? {
      forall log ensures Verdict(CallClause(c, operator, l), "calls", g)(log, 0) ==
                         AsBool(Compared(g, operator, CallField(c, log), LiteralValue(l))) {
        CallClauseMeans(c, operator, l, g, log);
      }
      SendsPicks(Verdict(CallClause(c, operator, l), "calls", g), logs, r.sent, r.read,
                 log => AsBool(Compared(g, operator, CallField(c, log), LiteralValue(l))));
    }
  }

  // ---------- searches on one column of the frames ----------

  /** FRAME(column operator literal) */
  function FrameClause(fn: string, c: FrameColumn, operator: Operator, l: Literal): Expr {
    FuncExpr("", false, fn, [Aliased(Compares(FrameName(c), operator, l))])
  }

  /** The verdict at each frame. */
  ghost function AtFrames(c: FrameColumn, operator: Operator, l: Literal, g: Engines, log: FuncLog): seq<Option<bool>> {
    seq(|log.frames|, o requires 0 <= o < |log.frames| =>
      AsBool(Compared(g, operator, FrameField(c, g, log, o), LiteralValue(l))))
  }

  /** A clause FRAME(e) over calls is set up exactly if e is acceptable and names columns of frames. */
  lemma FrameCompiles(fn: string, e: Expr)
    requires Lower(fn) == "frame"
    ensures var clause := FuncExpr("", false, fn, [Aliased(e)]);
            && (Acceptable(clause) && Known(clause, "calls") <==> Acceptable(e) && Known(e, "frames"))
            && (Acceptable(e) && Known(e, "frames") ==>
                  && Compile(e, "frames", 0).Some?
                  && SetUp(clause, "calls") == Some(Frame(Compile(e, "frames", 0).value.0)))
  {
    var clause := FuncExpr("", false, fn, [Aliased(e)]);
    FunctionNames(fn);
    assert |"frame"| == 5 && |"call"| == 4;
    assert clause.args[0].Aliased? && clause.args[0].e == e;
    SetUpExactly(clause, "calls");
    if Acceptable(e) && Known(e, "frames") {
      AcceptableArgs(clause, 0, "frames", 0);
      ArgumentCount(clause, 0, "frames", 0);
      OneArgument(clause, "frames", 0);
    }
  }

  lemma FrameClauseCompiles(fn: string, c: FrameColumn, operator: Operator, l: Literal)
    requires Lower(fn) == "frame"
    ensures var clause := FrameClause(fn, c, operator, l);
            && (Acceptable(clause) && Known(clause, "calls") <==> Small(l))
            && (Small(l) ==> SetUp(clause, "calls").Some? && FitsCalls(SetUp(clause, "calls").value))
  {
    FrameNameKnown(c);
    ComparesCompiles("frames", FrameName(c), operator, l);
    FrameCompiles(fn, Compares(FrameName(c), operator, l));
    OneComparison(operator, Field("frames", FrameName(c)), LiteralValue(l));
  }

  lemma FrameColumnMeans(c: FrameColumn, g: Engines, log: FuncLog, o: nat)
    requires o < |log.frames|
    ensures Sem(ColName("", FrameName(c)), "frames", Context(g, log), o) == Some(FrameField(c, g, log, o))
  {
    FrameNumbersMean("", "frames", Context(g, log), o);
    FrameTextsMean("", "frames", Context(g, log), o);
  }

  /** FROM frames WHERE column operator literal: the verdict on a row that shows frame o. */
  lemma FrameRowMeans(c: FrameColumn, operator: Operator, l: Literal, g: Engines, log: FuncLog, o: nat)
    requires o < |log.frames|
    ensures Verdict(Compares(FrameName(c), operator, l), "frames", g)(log, o) ==
            AsBool(Compared(g, operator, FrameField(c, g, log, o), LiteralValue(l)))
  {
    FrameColumnMeans(c, g, log, o);
    ComparesMeans("frames", FrameName(c), operator, l, Context(g, log), o);
  }

  lemma FrameClauseMeans(fn: string, c: FrameColumn, operator: Operator, l: Literal, g: Engines, log: FuncLog)
    requires Lower(fn) == "frame"
    ensures Verdict(FrameClause(fn, c, operator, l), "calls", g)(log, 0) == AsBool(SomeFrame(AtFrames(c, operator, l, g, log)))
  {
    var clause := FrameClause(fn, c, operator, l);
    var e := clause.args[0].e;
    var x := Context(g, log);
    FunctionNames(fn);
    forall o: nat | o < |log.frames| ensures AsBool(Sem(e, "frames", x, o)) == AtFrames(c, operator, l, g, log)[o] {
      FrameColumnMeans(c, g, log, o);
      ComparesMeans("frames", FrameName(c), operator, l, x, o);
    }
    assert seq(|log.frames|, i => AsBool(Sem(e, "frames", x, i))) == AtFrames(c, operator, l, g, log);
    assert Sem(clause, "calls", x, 0) == SomeFrame(seq(|log.frames|, i => AsBool(Sem(e, "frames", x, i))));
  }

  /** FROM calls WHERE FRAME(column operator literal). */
  method CallsWithFrame(fn: string, c: FrameColumn, operator: Operator, l: Literal, g: Engines, logs: seq<FuncLog>)
    returns (r: Response)
    requires Lower(fn) == "frame"
    ensures r.BadRequest? <==> !Small(l)
    ensures r.Response? ==> Picks(r.sent, r.read, logs, log => AsBool(SomeFrame(AtFrames(c, operator, l, g, log))))
  {
    FrameClauseCompiles(fn, c, operator, l);
    r := SearchCalls(FrameClause(fn, c, operator, l), g, logs);
    if r.Response? {
      forall log ensures Verdict(FrameClause(fn, c, operator, l), "calls", g)(log, 0) ==
                         AsBool(SomeFrame(AtFrames(c, operator, l, g, log))) {
        FrameClauseMeans(fn, c, operator, l, g, log);
      }
      SendsPicks(Verdict(FrameClause(fn, c, operator, l), "calls", g), logs, r.sent, r.read,
                 log => AsBool(SomeFrame(AtFrames(c, operator, l, g, log))));
    }
  }

  // ---------- the same, spelled out for equality ----------

  /** WHERE id = n, gid = n or exectime = n sends exactly the calls with that number. */
  method CallsWithNumber(c: CallColumn, n: nat, g: Engines, logs: seq<FuncLog>) returns (sent: seq<int>)
    requires c in {IdOf, GidOf, ExecOf} && n < TWO63
    ensures forall i, j :: 0 <= i < j < |sent| ==> sent[i] < sent[j]
    ensures forall k :: k in sent <==>
              0 <= k < |logs| &&
              match c
              case IdOf => logs[k].id == n
              case GidOf => logs[k].gid == n
              case _ => (logs[k].endTime - logs[k].startTime - n) % TWO64 == 0
  {
    var r := CallsWhere(c, Eq, Number(n), g, logs);
    forall d: int ensures Wrapped(d) == n <==> (d - n) % TWO64 == 0 {
      SameRemainder(d, n);
    }
    sent := r.sent;
  }

  lemma SameRemainder(d: int, n: nat)
    requires n < TWO63
    ensures Wrapped(d) == n <==> (d - n) % TWO64 == 0
  {
  }

  function TextField(c: FrameColumn, info: FrameInfo): GoString
    requires c in {PackageOf, FuncOf, FileOf}
  {
    match c
    case PackageOf => info.package
    case FuncOf => info.func
    case FileOf => info.file
  }

  /** WHERE FRAME(package = s), FRAME(func = s) or FRAME(file = s) sends exactly the calls with such a frame. */
  method CallsWithFrameText(fn: string, c: FrameColumn, s: GoString, g: Engines, logs: seq<FuncLog>)
    returns (sent: seq<int>)
    requires Lower(fn) == "frame" && c in {PackageOf, FuncOf, FileOf}
    ensures forall i, j :: 0 <= i < j < |sent| ==> sent[i] < sent[j]
    ensures forall k :: k in sent <==>
              0 <= k < |logs| &&
              exists o :: 0 <= o < |logs[k].frames| && TextField(c, g.info(logs[k].frames[o])) == s
  {
    var r := CallsWithFrame(fn, c, Eq, Text(s), g, logs);
    forall k: nat | k < |logs|
      ensures AsBool(SomeFrame(AtFrames(c, Eq, Text(s), g, logs[k]))) ==
              Some(exists o :: 0 <= o < |logs[k].frames| && TextField(c, g.info(logs[k].frames[o])) == s) {
      SomeFrameEqual(c, Text(s), g, logs[k]);
      assert forall o :: 0 <= o < |logs[k].frames| ==>
               (FrameField(c, g, logs[k], o) == String(s) <==> TextField(c, g.info(logs[k].frames[o])) == s);
    }
    sent := r.sent;
  }

  function NumberField(c: FrameColumn, id: int, o: int, info: FrameInfo, pc: Uint64): int
    requires c in {CallOf, OffsetOf, LineOf, PcOf}
  {
    match c
    case CallOf => id
    case OffsetOf => o
    case LineOf => info.line
    case PcOf => Wrapped(pc)
  }

  /** The same of FRAME(id = n), FRAME(offset = n), FRAME(line = n) and FRAME(pc = n). */
  method CallsWithFrameNumber(fn: string, c: FrameColumn, n: nat, g: Engines, logs: seq<FuncLog>)
    returns (sent: seq<int>)
    requires Lower(fn) == "frame" && c in {CallOf, OffsetOf, LineOf, PcOf} && n < TWO63
    ensures forall i, j :: 0 <= i < j < |sent| ==> sent[i] < sent[j]
    ensures forall k :: k in sent <==>
              0 <= k < |logs| &&
              exists o :: 0 <= o < |logs[k].frames| &&
                NumberField(c, logs[k].id, o, g.info(logs[k].frames[o]), logs[k].frames[o]) == n
  {
    var r := CallsWithFrame(fn, c, Eq, Number(n), g, logs);
    forall k: nat | k < |logs|
      ensures AsBool(SomeFrame(AtFrames(c, Eq, Number(n), g, logs[k]))) ==
              Some(exists o :: 0 <= o < |logs[k].frames| &&
                                 NumberField(c, logs[k].id, o, g.info(logs[k].frames[o]), logs[k].frames[o]) == n) {
      SomeFrameEqual(c, Number(n), g, logs[k]);
      assert forall o :: 0 <= o < |logs[k].frames| ==>
               (FrameField(c, g, logs[k], o) == BigInt(n) <==>
                NumberField(c, logs[k].id, o, g.info(logs[k].frames[o]), logs[k].frames[o]) == n);
    }
    sent := r.sent;
  }

  /** For a column of the literal's type, FRAME(column = literal) asks for one frame with that value. */
  lemma SomeFrameEqual(c: FrameColumn, l: Literal, g: Engines, log: FuncLog)
    requires l.Text? <==> c in {PackageOf, FuncOf, FileOf}
    ensures AsBool(SomeFrame(AtFrames(c, Eq, l, g, log))) ==
            Some(exists o :: 0 <= o < |log.frames| && FrameField(c, g, log, o) == LiteralValue(l))
  {
    var verdicts := AtFrames(c, Eq, l, g, log);
    forall o: nat | o < |log.frames| ensures verdicts[o] == Some(FrameField(c, g, log, o) == LiteralValue(l)) {
    }
    NoPanicExists(verdicts);
    if o :| 0 <= o < |log.frames| && FrameField(c, g, log, o) == LiteralValue(l) {
      assert verdicts[o] == Some(true);
    }
  }
}

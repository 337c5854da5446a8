/** From the parsed WHERE clause to operator objects (tracer/sql/parse.go). None stands for a refused clause. */
module SqlParse {
  import opened Types
  import opened Sql
  import opened SqlMeaning

  datatype RangeOperator = Between | NotBetween | OtherRange

  /** The expressions of the SQL parser library. An integer literal is a row of digits; other literals, intervals and
      the remaining kinds of expression are refused. */
  datatype Expr =
    | AndExpr(left: Expr, right: Expr)
    | OrExpr(left: Expr, right: Expr)
    | NotExpr(e: Expr)
    | ParenExpr(e: Expr)
    | ComparisonExpr(operator: Operator, left: Expr, right: Expr)
    | RangeCond(between: RangeOperator, left: Expr, from: Expr, to: Expr)
    | StrVal(s: GoString)
    | IntVal(i: nat)
    | ColName(qualifier: string, name: string)
    | FuncExpr(funcQualifier: string, distinct: bool, func: string, args: seq<SelectExpr>)
    | OtherExpr

  datatype SelectExpr = Aliased(e: Expr) | StarExpr

  function LowerChar(c: char): char {
    if 'A' <= c <= 'Z' then ((c as int) - ('A' as int) + ('a' as int)) as char else c
  }

  /** Function names are compared without regard to case. */
  function Lower(s: string): string {
    seq(|s|, i requires 0 <= i < |s| => LowerChar(s[i]))
  }

  datatype Func = FRAME | CALL | NOW | ADDTIME | SUBTIME

  function FindFunc(name: string): Option<Func> {
    if Lower(name) == "frame" then Some(FRAME)
    else if Lower(name) == "call" then Some(CALL)
    else if Lower(name) == "now" then Some(NOW)
    else if Lower(name) == "addtime" then Some(ADDTIME)
    else if Lower(name) == "subtime" then Some(SUBTIME)
    else None
  }

  /** The table that completes a bare column name inside the arguments of the function. */
  function Scope(f: Func, table: string): string {
    match f
    case FRAME => "frames"
    case CALL => "calls"
    case _ => table
  }

  function Build(f: Func, args: seq<Op>): Option<Op> {
    match f
    case FRAME => if |args| == 1 then Some(Frame(args[0])) else None
    case CALL => if |args| == 1 then Some(Call(args[0])) else None
    case NOW => if args == [] then Some(Clock) else None
    case _ => if |args| == 2 then Some(Clock) else None
  }

  /** An operator object and the first number free after it. */
  type Compiled = Option<(Op, nat)>

  function Free(c: Compiled, next: nat): nat {
    if c.Some? then c.value.1 else next
  }

  function Join(a: Compiled, b: Compiled, make: (Op, Op) -> Op): Compiled {
    if a.None? || b.None? then None else Some((make(a.value.0, b.value.0), b.value.1))
  }

  function MakeRange(between: RangeOperator, v: Compiled, lo: Compiled, hi: Compiled): Compiled {
    if v.None? || lo.None? || hi.None? || between == OtherRange then None
    else
      var range := Range(v.value.0, lo.value.0, hi.value.0);
      Some((if between == NotBetween then Not(range) else range, hi.value.1))
  }

  /** parseWhereExpr with the comparison objects numbered from `next` on. */
  function Compile(expr: Expr, table: string, next: nat): Compiled
    decreases expr, if expr.FuncExpr? then 1 + |expr.args| else 0
  {
    match expr
    case AndExpr(l, r) =>
      var a := Compile(l, table, next);
      Join(a, Compile(r, table, Free(a, next)), (p, q) => And(p, q))
    case OrExpr(l, r) =>
      var a := Compile(l, table, next);
      Join(a, Compile(r, table, Free(a, next)), (p, q) => Or(p, q))
    case NotExpr(e) =>
      var a := Compile(e, table, next);
      if a.None? then None else Some((Not(a.value.0), a.value.1))
    case ParenExpr(e) => Compile(e, table, next)
    case ComparisonExpr(operator, l, r) =>
      var a := Compile(l, table, next + 1);
      Join(a, Compile(r, table, Free(a, next + 1)), (p, q) => Comp(next, operator, p, q))
    case RangeCond(between, v, lo, hi) =>
      var a := Compile(v, table, next);
      var b := Compile(lo, table, Free(a, next));
      MakeRange(between, a, b, Compile(hi, table, Free(b, next)))
    case StrVal(s) => Some((Lit(String(s)), next))
    case IntVal(i) => if i < TWO63 then Some((Lit(BigInt(i)), next)) else None
    case ColName(qualifier, name) => Some((Field(if qualifier != "" then qualifier else table, name), next))
    case FuncExpr(qualifier, distinct, func, args) =>
      if qualifier != "" || distinct || FindFunc(func).None? then None
      else
        var f := FindFunc(func).value;
        var ops := CompileArgs(expr, 0, Scope(f, table), next);
        if ops.None? || Build(f, ops.value.0).None? then None
        else Some((Build(f, ops.value.0).value, ops.value.1))
    case OtherExpr => None
  }

  /** The arguments of the function from the k-th on. */
  function CompileArgs(expr: Expr, k: nat, table: string, next: nat): Option<(seq<Op>, nat)>
    requires expr.FuncExpr? && k <= |expr.args|
    decreases expr, |expr.args| - k
  {
    if k == |expr.args| then Some(([], next))
    else if expr.args[k].StarExpr? then None
    else
      var a := Compile(expr.args[k].e, table, next);
      var rest := CompileArgs(expr, k + 1, table, Free(a, next));
      if a.None? || rest.None? then None else Some(([a.value.0] + rest.value.0, rest.value.1))
  }

  // ---------- which clauses are refused ----------

  /** A function by its name in any case, with the number of its arguments. */
  predicate Callable(func: string, n: nat) {
    || (Lower(func) == "frame" && n == 1)
    || (Lower(func) == "call" && n == 1)
    || (Lower(func) == "now" && n == 0)
    || (Lower(func) == "addtime" && n == 2)
    || (Lower(func) == "subtime" && n == 2)
  }

  /** Integer literals fit 64 bits, ranges are BETWEEN or NOT BETWEEN, functions are known, plain and called with
      the right number of arguments, none of them a star, and nothing else stands anywhere in the clause. */
  predicate Acceptable(expr: Expr) {
    match expr
    case AndExpr(l, r) => Acceptable(l) && Acceptable(r)
    case OrExpr(l, r) => Acceptable(l) && Acceptable(r)
    case NotExpr(e) => Acceptable(e)
    case ParenExpr(e) => Acceptable(e)
    case ComparisonExpr(_, l, r) => Acceptable(l) && Acceptable(r)
    case RangeCond(between, v, lo, hi) => Acceptable(v) && Acceptable(lo) && Acceptable(hi) && !between.OtherRange?
    case StrVal(_) => true
    case IntVal(i) => i <= 0x7fff_ffff_ffff_ffff
    case ColName(_, _) => true
    case FuncExpr(qualifier, distinct, func, args) =>
      && qualifier == "" && !distinct && Callable(func, |args|)
      && forall i :: 0 <= i < |args| ==> args[i].Aliased? && Acceptable(args[i].e)
    case OtherExpr => false
  }

  lemma FunctionNames(func: string)
    ensures FindFunc(func) == Some(FRAME) <==> Lower(func) == "frame"
    ensures FindFunc(func) == Some(CALL) <==> Lower(func) == "call"
    ensures FindFunc(func) == Some(NOW) <==> Lower(func) == "now"
    ensures FindFunc(func) == Some(ADDTIME) <==> Lower(func) == "addtime"
    ensures FindFunc(func) == Some(SUBTIME) <==> Lower(func) == "subtime"
  {
    assert |"frame"| == 5 && |"call"| == 4 && |"now"| == 3 && |"addtime"| == 7 && |"subtime"| == 7;
    assert "addtime"[0] != "subtime"[0];
  }

  lemma BuildsCallable(func: string, ops: seq<Op>)
    ensures FindFunc(func).Some? && Build(FindFunc(func).value, ops).Some? <==> Callable(func, |ops|)
  {
    FunctionNames(func);
  }

  /** A clause is turned into objects exactly when it is acceptable, whatever the table. */
  lemma {:induction false} AcceptableCompiles(expr: Expr, table: string, next: nat)
    ensures Compile(expr, table, next).Some? <==> Acceptable(expr)
    decreases expr, 1
  {
    match expr
    case AndExpr(l, r) =>
      AcceptableCompiles(l, table, next);
      AcceptableCompiles(r, table, Free(Compile(l, table, next), next));
    case OrExpr(l, r) =>
      AcceptableCompiles(l, table, next);
      AcceptableCompiles(r, table, Free(Compile(l, table, next), next));
    case ComparisonExpr(_, l, r) =>
      AcceptableCompiles(l, table, next + 1);
      AcceptableCompiles(r, table, Free(Compile(l, table, next + 1), next + 1));
    case NotExpr(e) => AcceptableCompiles(e, table, next);
    case ParenExpr(e) => AcceptableCompiles(e, table, next);
    case RangeCond(_, v, lo, hi) =>
      var n := Free(Compile(v, table, next), next);
      AcceptableCompiles(v, table, next);
      AcceptableCompiles(lo, table, n);
      AcceptableCompiles(hi, table, Free(Compile(lo, table, n), next));
    case FuncExpr(qualifier, distinct, func, args) =>
      FunctionNames(func);
      if FindFunc(func).Some? {
        AcceptableArgs(expr, 0, Scope(FindFunc(func).value, table), next);
        var ops := CompileArgs(expr, 0, Scope(FindFunc(func).value, table), next);
        if ops.Some? {
          ArgumentCount(expr, 0, Scope(FindFunc(func).value, table), next);
          BuildsCallable(func, ops.value.0);
        }
      }
    case _ =>
  }

  lemma {:induction false} AcceptableArgs(expr: Expr, k: nat, table: string, next: nat)
    requires expr.FuncExpr? && k <= |expr.args|
    ensures CompileArgs(expr, k, table, next).Some? <==>
            forall i :: k <= i < |expr.args| ==> expr.args[i].Aliased? && Acceptable(expr.args[i].e)
    decreases expr, 0, |expr.args| - k
  {
    if k < |expr.args| && expr.args[k].Aliased? {
      AcceptableCompiles(expr.args[k].e, table, next);
      AcceptableArgs(expr, k + 1, table, Free(Compile(expr.args[k].e, table, next), next));
    }
  }

  /** The columns there are. */
  predicate HasColumn(table: string, name: string) {
    || (table == "calls" && name in ["id", "gid", "starttime", "endtime", "exectime"])
    || (table == "frames" && name in ["id", "offset", "package", "func", "file", "line", "pc"])
  }

  /** Every column named in the clause exists in its table; the arguments of ADDTIME and SUBTIME are never looked at. */
  predicate Known(expr: Expr, table: string) {
    match expr
    case AndExpr(l, r) => Known(l, table) && Known(r, table)
    case OrExpr(l, r) => Known(l, table) && Known(r, table)
    case NotExpr(e) => Known(e, table)
    case ParenExpr(e) => Known(e, table)
    case ComparisonExpr(_, l, r) => Known(l, table) && Known(r, table)
    case RangeCond(_, v, lo, hi) => Known(v, table) && Known(lo, table) && Known(hi, table)
    case ColName(qualifier, name) => HasColumn(if qualifier != "" then qualifier else table, name)
    case FuncExpr(_, _, func, args) =>
      forall i :: 0 <= i < |args| && args[i].Aliased? ==>
        && (Lower(func) == "frame" ==> Known(args[i].e, "frames"))
        && (Lower(func) == "call" ==> Known(args[i].e, "calls"))
    case _ => true
  }

  // ---------- what the clause means ----------

  /** The clause read directly, with the table that completes bare column names: FRAME looks for a frame that satisfies
      its argument read over the table frames, CALL reads its argument over the table calls. */
  ghost function Sem(expr: Expr, table: string, x: Context, offset: int): Option<Value> {
    match expr
    case AndExpr(l, r) => Decide(AsBool(Sem(l, table, x, offset)), AsBool(Sem(r, table, x, offset)), (p, q) => p && q)
    case OrExpr(l, r) => Decide(AsBool(Sem(l, table, x, offset)), AsBool(Sem(r, table, x, offset)), (p, q) => p || q)
    case NotExpr(e) => Negated(Sem(e, table, x, offset))
    case ParenExpr(e) => Sem(e, table, x, offset)
    case ComparisonExpr(operator, l, r) =>
      var v, w := Sem(l, table, x, offset), Sem(r, table, x, offset);
      if v.None? || w.None? then None else Compared(x.engines, operator, v.value, w.value)
    case RangeCond(between, v, lo, hi) =>
      var a, b, c := AsInt(Sem(v, table, x, offset)), AsInt(Sem(lo, table, x, offset)), AsInt(Sem(hi, table, x, offset));
      if a.None? || b.None? || c.None? then None
      else if between == NotBetween then Some(Bool(a.value < b.value || c.value < a.value))
      else Some(Bool(b.value <= a.value <= c.value))
    case StrVal(s) => Some(String(s))
    case IntVal(i) => Some(BigInt(i))
    case ColName(qualifier, name) => Leaf(Field(if qualifier != "" then qualifier else table, name), x, offset)
    case FuncExpr(_, _, func, args) =>
      (match FindFunc(func)
       case Some(FRAME) =>
         if |args| == 1 && args[0].Aliased? then
           SomeFrame(seq(|x.log.frames|, i => AsBool(Sem(args[0].e, "frames", x, i))))
         else None
       case Some(CALL) =>
         if |args| == 1 && args[0].Aliased? then Negated(Negated(Sem(args[0].e, "calls", x, offset))) else None
       case _ => Some(Datetime(0)))
    case OtherExpr => None
  }

  ghost function Negated(v: Option<Value>): Option<Value> {
    var a := AsBool(v);
    if a.None? then None else Some(Bool(!a.value))
  }

  lemma {:induction false} ArgumentCount(expr: Expr, k: nat, table: string, next: nat)
    requires expr.FuncExpr? && k <= |expr.args| && CompileArgs(expr, k, table, next).Some?
    ensures |CompileArgs(expr, k, table, next).value.0| == |expr.args| - k
    decreases |expr.args| - k
  {
    if k < |expr.args| {
      ArgumentCount(expr, k + 1, table, Free(Compile(expr.args[k].e, table, next), next));
    }
  }

  lemma OneArgument(expr: Expr, table: string, next: nat)
    requires expr.FuncExpr?
    requires CompileArgs(expr, 0, table, next).Some? && |CompileArgs(expr, 0, table, next).value.0| == 1
    ensures |expr.args| == 1 && expr.args[0].Aliased?
    ensures var a := Compile(expr.args[0].e, table, next);
            a.Some? && CompileArgs(expr, 0, table, next).value == ([a.value.0], a.value.1)
  {
    ArgumentCount(expr, 0, table, next);
    var a := Compile(expr.args[0].e, table, next);
    assert a.Some? && [a.value.0] + [] == [a.value.0];
    assert CompileArgs(expr, 1, table, Free(a, next)) == Some(([], Free(a, next)));
  }

  lemma RangeMeans(expr: Expr, table: string, v: Op, lo: Op, hi: Op, x: Context, offset: int)
    requires expr.RangeCond? && expr.between != OtherRange
    requires Meaning(v, x, offset) == Sem(expr.left, table, x, offset)
    requires Meaning(lo, x, offset) == Sem(expr.from, table, x, offset)
    requires Meaning(hi, x, offset) == Sem(expr.to, table, x, offset)
    ensures var range := Range(v, lo, hi);
            Meaning(if expr.between == NotBetween then Not(range) else range, x, offset) == Sem(expr, table, x, offset)
  {
  }

  lemma PairMeans(expr: Expr, op: Op, table: string, x: Context, offset: int)
    requires (expr.AndExpr? && op.And?) || (expr.OrExpr? && op.Or?)
             || (expr.ComparisonExpr? && op.Comp? && op.operator == expr.operator)
    requires Meaning(op.left, x, offset) == Sem(expr.left, table, x, offset)
    requires Meaning(op.right, x, offset) == Sem(expr.right, table, x, offset)
    ensures Meaning(op, x, offset) == Sem(expr, table, x, offset)
  {
  }

  /** The operator objects mean what the clause means. */
  lemma {:induction false} CompileMeans(expr: Expr, table: string, next: nat, x: Context, offset: int)
    requires Compile(expr, table, next).Some?
    ensures Meaning(Compile(expr, table, next).value.0, x, offset) == Sem(expr, table, x, offset)
    decreases expr, 1
  {
    match expr
    case AndExpr(l, r) =>
      CompileMeans(l, table, next, x, offset);
      CompileMeans(r, table, Free(Compile(l, table, next), next), x, offset);
      PairMeans(expr, Compile(expr, table, next).value.0, table, x, offset);
    case OrExpr(l, r) =>
      CompileMeans(l, table, next, x, offset);
      CompileMeans(r, table, Free(Compile(l, table, next), next), x, offset);
      PairMeans(expr, Compile(expr, table, next).value.0, table, x, offset);
    case ComparisonExpr(_, l, r) =>
      CompileMeans(l, table, next + 1, x, offset);
      CompileMeans(r, table, Free(Compile(l, table, next + 1), next + 1), x, offset);
      PairMeans(expr, Compile(expr, table, next).value.0, table, x, offset);
    case NotExpr(e) => CompileMeans(e, table, next, x, offset);
    case ParenExpr(e) => CompileMeans(e, table, next, x, offset);
    case RangeCond(_, v, lo, hi) =>
      var a := Compile(v, table, next);
      var b := Compile(lo, table, Free(a, next));
      var c := Compile(hi, table, Free(b, next));
      CompileMeans(v, table, next, x, offset);
      CompileMeans(lo, table, Free(a, next), x, offset);
      CompileMeans(hi, table, Free(b, next), x, offset);
      RangeMeans(expr, table, a.value.0, b.value.0, c.value.0, x, offset);
    case FuncExpr(_, _, func, args) =>
      var f := FindFunc(func).value;
      if f in {FRAME, CALL} {
        OneArgument(expr, Scope(f, table), next);
        ArgumentMeans(expr, f, table, next, x, offset);
      }
    case _ =>
  }

  lemma {:induction false} ArgumentMeans(expr: Expr, f: Func, table: string, next: nat, x: Context, offset: int)
    requires expr.FuncExpr? && |expr.args| == 1 && expr.args[0].Aliased? && f in {FRAME, CALL}
    requires FindFunc(expr.func) == Some(f) && Compile(expr.args[0].e, Scope(f, table), next).Some?
    ensures var a := Compile(expr.args[0].e, Scope(f, table), next).value.0;
            Meaning(if f == FRAME then Frame(a) else Call(a), x, offset) == Sem(expr, table, x, offset)
    decreases expr, 0
  {
    var e := expr.args[0].e;
    var a := Compile(e, Scope(f, table), next).value.0;
    CompileMeans(e, Scope(f, table), next, x, offset);
    if f == FRAME {
      forall i | 0 <= i < |x.log.frames| ensures AsBool(Sem(e, "frames", x, i)) == Verdicts(a, x)[i] {
        CompileMeans(e, "frames", next, x, i);
      }
      assert Verdicts(a, x) == seq(|x.log.frames|, i => AsBool(Sem(e, "frames", x, i)));
    }
  }

  // ---------- each comparison object is its own ----------

  /** The comparison objects of the tree, by number. */
  ghost function Owners(e: Op): map<nat, Op> {
    match e
    case And(l, r) => Owners(l) + Owners(r)
    case Or(l, r) => Owners(l) + Owners(r)
    case Not(c) => Owners(c)
    case Comp(slot, _, l, r) => (Owners(l) + Owners(r))[slot := e]
    case Range(v, lo, hi) => Owners(v) + Owners(lo) + Owners(hi)
    case Frame(c) => Owners(c)
    case Call(c) => Owners(c)
    case _ => map[]
  }

  ghost predicate Within(e: Op, from: nat, to: nat) {
    forall s :: s in Owners(e) ==> from <= s < to
  }

  ghost predicate Extends(m: map<nat, Op>, n: map<nat, Op>) {
    forall s :: s in m ==> s in n && n[s] == m[s]
  }

  lemma {:induction false} OwnedMore(e: Op, m: map<nat, Op>, n: map<nat, Op>)
    requires Owned(e, m) && Extends(m, n)
    ensures Owned(e, n)
  {
    match e
    case And(l, r) => OwnedMore(l, m, n); OwnedMore(r, m, n);
    case Or(l, r) => OwnedMore(l, m, n); OwnedMore(r, m, n);
    case Not(c) => OwnedMore(c, m, n);
    case Comp(_, _, l, r) => OwnedMore(l, m, n); OwnedMore(r, m, n);
    case Range(v, lo, hi) => OwnedMore(v, m, n); OwnedMore(lo, m, n); OwnedMore(hi, m, n);
    case Frame(c) => OwnedMore(c, m, n);
    case Call(c) => OwnedMore(c, m, n);
    case _ =>
  }

  /** Numbered from `from` to `to` with no number used twice. */
  ghost predicate Numbered(e: Op, from: nat, to: nat) {
    from <= to && Within(e, from, to) && Owned(e, Owners(e))
  }

  lemma NumberedPair(l: Op, r: Op, from: nat, mid: nat, to: nat)
    requires Numbered(l, from, mid) && Numbered(r, mid, to)
    ensures Numbered(And(l, r), from, to) && Numbered(Or(l, r), from, to)
  {
    OwnedMore(l, Owners(l), Owners(l) + Owners(r));
    OwnedMore(r, Owners(r), Owners(l) + Owners(r));
  }

  lemma NumberedComp(slot: nat, operator: Operator, l: Op, r: Op, mid: nat, to: nat)
    requires Numbered(l, slot + 1, mid) && Numbered(r, mid, to)
    ensures Numbered(Comp(slot, operator, l, r), slot, to)
  {
    var owners := Owners(Comp(slot, operator, l, r));
    OwnedMore(l, Owners(l), owners);
    OwnedMore(r, Owners(r), owners);
  }

  lemma NumberedRange(v: Op, lo: Op, hi: Op, a: nat, b: nat, c: nat, d: nat)
    requires Numbered(v, a, b) && Numbered(lo, b, c) && Numbered(hi, c, d)
    ensures Numbered(Range(v, lo, hi), a, d) && Numbered(Not(Range(v, lo, hi)), a, d)
  {
    var owners := Owners(Range(v, lo, hi));
    OwnedMore(v, Owners(v), owners);
    OwnedMore(lo, Owners(lo), owners);
    OwnedMore(hi, Owners(hi), owners);
  }

  /** A compiled tree numbers its comparison objects without a clash. */
  lemma {:induction false} CompileNumbers(expr: Expr, table: string, next: nat)
    requires Compile(expr, table, next).Some?
    ensures var (op, end) := Compile(expr, table, next).value;
            Numbered(op, next, end)
    decreases expr, 1
  {
    var (op, end) := Compile(expr, table, next).value;
    match expr
    case AndExpr(l, r) =>
      var n := Free(Compile(l, table, next), next);
      CompileNumbers(l, table, next);
      CompileNumbers(r, table, n);
      NumberedPair(op.left, op.right, next, n, end);
    case OrExpr(l, r) =>
      var n := Free(Compile(l, table, next), next);
      CompileNumbers(l, table, next);
      CompileNumbers(r, table, n);
      NumberedPair(op.left, op.right, next, n, end);
    case ComparisonExpr(_, l, r) =>
      var n := Free(Compile(l, table, next + 1), next + 1);
      CompileNumbers(l, table, next + 1);
      CompileNumbers(r, table, n);
      NumberedComp(next, op.operator, op.left, op.right, n, end);
    case NotExpr(e) => CompileNumbers(e, table, next);
    case ParenExpr(e) => CompileNumbers(e, table, next);
    case RangeCond(_, v, lo, hi) =>
      var a := Compile(v, table, next);
      var b := Compile(lo, table, Free(a, next));
      var c := Compile(hi, table, Free(b, next));
      CompileNumbers(v, table, next);
      CompileNumbers(lo, table, Free(a, next));
      CompileNumbers(hi, table, Free(b, next));
      NumberedRange(a.value.0, b.value.0, c.value.0, next, a.value.1, b.value.1, c.value.1);
    case FuncExpr(_, _, func, _) =>
      var f := FindFunc(func).value;
      CompileArgsNumbers(expr, 0, Scope(f, table), next);
    case _ =>
  }

  lemma {:induction false} CompileArgsNumbers(expr: Expr, k: nat, table: string, next: nat)
    requires expr.FuncExpr? && k <= |expr.args| && CompileArgs(expr, k, table, next).Some?
    ensures var (ops, end) := CompileArgs(expr, k, table, next).value;
            next <= end && forall i :: 0 <= i < |ops| ==> Numbered(ops[i], next, end)
    decreases expr, 0, |expr.args| - k
  {
    if k < |expr.args| {
      var a := Compile(expr.args[k].e, table, next);
      CompileNumbers(expr.args[k].e, table, next);
      CompileArgsNumbers(expr, k + 1, table, Free(a, next));
      var rest := CompileArgs(expr, k + 1, table, Free(a, next)).value.0;
      var ops := CompileArgs(expr, k, table, next).value.0;
      assert ops == [a.value.0] + rest;
      assert forall i :: 0 < i < |ops| ==> ops[i] == rest[i - 1];
    }
  }

  // ---------- the scope of bare column names ----------

  /** Every bare column name completed, by the table in whose scope it stands. */
  function Qualify(expr: Expr, table: string): Expr {
    match expr
    case AndExpr(l, r) => AndExpr(Qualify(l, table), Qualify(r, table))
    case OrExpr(l, r) => OrExpr(Qualify(l, table), Qualify(r, table))
    case NotExpr(e) => NotExpr(Qualify(e, table))
    case ParenExpr(e) => ParenExpr(Qualify(e, table))
    case ComparisonExpr(operator, l, r) => ComparisonExpr(operator, Qualify(l, table), Qualify(r, table))
    case RangeCond(between, v, lo, hi) => RangeCond(between, Qualify(v, table), Qualify(lo, table), Qualify(hi, table))
    case ColName(qualifier, name) => ColName(if qualifier != "" then qualifier else table, name)
    case FuncExpr(qualifier, distinct, func, args) =>
      var f := FindFunc(func);
      var scope := if f.Some? then Scope(f.value, table) else table;
      FuncExpr(qualifier, distinct, func,
               seq(|args|, i requires 0 <= i < |args| =>
                 if args[i].Aliased? then Aliased(Qualify(args[i].e, scope)) else StarExpr))
    case _ => expr
  }

  /** A clause compiles, anywhere, as its completed form does: the default table matters only to bare names. */
  lemma {:induction false} QualifiedCompiles(expr: Expr, table: string, other: string, next: nat)
    requires table != ""
    ensures Compile(Qualify(expr, table), other, next) == Compile(expr, table, next)
    decreases expr, 1
  {
    match expr
    case AndExpr(l, r) =>
      QualifiedCompiles(l, table, other, next);
      QualifiedCompiles(r, table, other, Free(Compile(l, table, next), next));
    case OrExpr(l, r) =>
      QualifiedCompiles(l, table, other, next);
      QualifiedCompiles(r, table, other, Free(Compile(l, table, next), next));
    case ComparisonExpr(_, l, r) =>
      QualifiedCompiles(l, table, other, next + 1);
      QualifiedCompiles(r, table, other, Free(Compile(l, table, next + 1), next + 1));
    case NotExpr(e) => QualifiedCompiles(e, table, other, next);
    case ParenExpr(e) => QualifiedCompiles(e, table, other, next);
    case RangeCond(_, v, lo, hi) =>
      var n := Free(Compile(v, table, next), next);
      QualifiedCompiles(v, table, other, next);
      QualifiedCompiles(lo, table, other, n);
      QualifiedCompiles(hi, table, other, Free(Compile(lo, table, n), next));
    case FuncExpr(_, _, func, _) =>
      if FindFunc(func).Some? {
        QualifiedArgs(expr, 0, table, other, next);
      }
    case _ =>
  }

  lemma {:induction false} QualifiedArgs(expr: Expr, k: nat, table: string, other: string, next: nat)
    requires expr.FuncExpr? && k <= |expr.args| && FindFunc(expr.func).Some? && table != ""
    ensures var f := FindFunc(expr.func).value;
            CompileArgs(Qualify(expr, table), k, Scope(f, other), next) == CompileArgs(expr, k, Scope(f, table), next)
    decreases expr, 0, |expr.args| - k
  {
    if k < |expr.args| && expr.args[k].Aliased? {
      var f := FindFunc(expr.func).value;
      var e := expr.args[k].e;
      assert Qualify(expr, table).args[k] == Aliased(Qualify(e, Scope(f, table)));
      QualifiedCompiles(e, Scope(f, table), Scope(f, other), next);
      QualifiedArgs(expr, k + 1, table, other, Free(Compile(e, Scope(f, table), next), next));
    }
  }
}

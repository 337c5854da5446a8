/** WHERE conditions as operator objects over a mutable row (tracer/sql/op.go, func.go, row.go, type.go). None stands for
    a Go panic, which ends the query. */
module Sql {
  import opened Types
  import Codec

  // ---------- values and columns ----------

  datatype Value = Bool(b: bool) | BigInt(i: int) | String(s: GoString) | Datetime(t: int)

  datatype SqlType = BoolType | BigIntType | StringType | DatetimeType

  function TypeOfValue(v: Value): SqlType {
    match v
    case Bool(_) => BoolType
    case BigInt(_) => BigIntType
    case String(_) => StringType
    case Datetime(_) => DatetimeType
  }

  /** The casts of type.go; the missing ones panic. */
  function AsBool(v: Option<Value>): Option<bool> {
    match v
    case Some(Bool(b)) => Some(b)
    case Some(BigInt(i)) => Some(i != 0)
    case _ => None
  }

  function AsInt(v: Option<Value>): Option<int> {
    match v
    case Some(BigInt(i)) => Some(i)
    case _ => None
  }

  function AsString(v: Option<Value>): Option<GoString> {
    match v
    case Some(String(s)) => Some(s)
    case _ => None
  }

  datatype Column =
    | CallId | CallGid | CallStart | CallEnd | CallExec
    | FrameId | FrameOffset | FramePackage | FrameFunc | FrameFile | FrameLine | FramePc

  /** The columns of a call row; asking for any other one panics. */
  function Resolve(table: string, name: string): Option<Column> {
    if table == "calls" then
      if name == "id" then Some(CallId)
      else if name == "gid" then Some(CallGid)
      else if name == "starttime" then Some(CallStart)
      else if name == "endtime" then Some(CallEnd)
      else if name == "exectime" then Some(CallExec)
      else None
    else if table == "frames" then
      if name == "id" then Some(FrameId)
      else if name == "offset" then Some(FrameOffset)
      else if name == "package" then Some(FramePackage)
      else if name == "func" then Some(FrameFunc)
      else if name == "file" then Some(FrameFile)
      else if name == "line" then Some(FrameLine)
      else if name == "pc" then Some(FramePc)
      else None
    else None
  }

  function ColumnType(c: Column): SqlType {
    match c
    case CallStart | CallEnd => DatetimeType
    case FramePackage | FrameFunc | FrameFile => StringType
    case _ => BigIntType
  }

  /** Does the value depend on the row's offset? */
  predicate OfFrame(c: Column) {
    c in {FrameOffset, FramePackage, FrameFunc, FrameFile, FrameLine, FramePc}
  }

  datatype FrameInfo = FrameInfo(package: GoString, func: GoString, file: GoString, line: Int64)

  /** The symbol lookups and the two matching libraries. */
  datatype Engines = Engines(
    info: Uint64 -> FrameInfo,
    glob: (Bytes, GoString) -> bool,
    compiles: GoString -> bool,
    matches: (GoString, GoString) -> bool)

  datatype Context = Context(engines: Engines, log: FuncLog)

  function FrameValue(c: Column, info: FrameInfo, pc: Uint64): Value {
    match c
    case FramePackage => String(info.package)
    case FrameFunc => String(info.func)
    case FrameFile => String(info.file)
    case FrameLine => BigInt(info.line)
    case _ => BigInt(Codec.FromUint64(pc))
  }

  /** What a column's getter returns; reading past the frames panics. */
  function Get(c: Column, x: Context, offset: int): Option<Value> {
    match c
    case CallId | FrameId => Some(BigInt(x.log.id))
    case CallGid => Some(BigInt(x.log.gid))
    case CallStart => Some(Datetime(x.log.startTime))
    case CallEnd => Some(Datetime(x.log.endTime))
    case CallExec => Some(BigInt(Codec.FromUint64(Codec.ToUint64(x.log.endTime - x.log.startTime))))
    case FrameOffset => Some(BigInt(offset))
    case _ =>
      if 0 <= offset < |x.log.frames| then
        var pc: Uint64 := x.log.frames[offset];
        Some(FrameValue(c, x.engines.info(pc), pc))
      else None
  }

  // ---------- the operator tree ----------

  datatype Operator = Eq | NullSafeEq | Ne | Lt | Gt | Le | Ge | Like | NotLike | Regexp | NotRegexp | OtherOperator

  /** `slot` names the comparison object, which holds a comparator of its own. Clock is NOW, ADDTIME or SUBTIME, whose
      value no operator accepts. */
  datatype Op =
    | Lit(v: Value)
    | Field(table: string, name: string)
    | And(left: Op, right: Op)
    | Or(left: Op, right: Op)
    | Not(e: Op)
    | Comp(slot: nat, operator: Operator, left: Op, right: Op)
    | Range(val: Op, lo: Op, hi: Op)
    | Frame(e: Op)
    | Call(e: Op)
    | Clock

  predicate Const(e: Op) {
    match e
    case Lit(_) => true
    case And(l, r) => Const(l) && Const(r)
    case Or(l, r) => Const(l) && Const(r)
    case Not(c) => Const(c)
    case Comp(_, _, l, r) => Const(l) && Const(r)
    case Range(v, l, h) => Const(v) && Const(l) && Const(h)
    case _ => false
  }

  /** The value of a literal, or of a column through its getter. Every other object refuses the casts to bigint and
      string. */
  function Leaf(e: Op, x: Context, offset: int): Option<Value> {
    match e
    case Lit(v) => Some(v)
    case Field(table, name) =>
      var c := Resolve(table, name);
      if c.Some? then Get(c.value, x, offset) else None
    case _ => None
  }

  /** Type(): a column fetches its value to tell. */
  function TypeAt(e: Op, x: Context, offset: int): Option<SqlType> {
    match e
    case Lit(v) => Some(TypeOfValue(v))
    case Field(_, _) =>
      var v := Leaf(e, x, offset);
      if v.Some? then Some(TypeOfValue(v.value)) else None
    case Clock => Some(DatetimeType)
    case _ => Some(BoolType)
  }

  // ---------- comparators ----------

  /** What compareFn closes over: the operand type, the operator and, for LIKE and REGEXP, the pattern taken from the
      right side at that moment. */
  datatype Comparator = Comparator(t: SqlType, operator: Operator, pattern: Bytes)

  function GlobByte(b: Byte): Byte {
    if b == '%' as int then '*' as int else if b == '_' as int then '?' as int else b
  }

  function Glob(s: Bytes): Bytes {
    seq(|s|, i requires 0 <= i < |s| => GlobByte(s[i]))
  }

  /** sqlPattern2glob rewrites a copy of the pattern byte by byte: % becomes *, _ becomes ?, the rest stays. */
  method SqlPatternToGlob(s: GoString) returns (pattern: array<Byte>)
    ensures fresh(pattern) && pattern.Length == |s| && pattern[..] == Glob(s)
    ensures forall i :: 0 <= i < |s| ==>
              && (s[i] == '%' as int ==> pattern[i] == '*' as int)
              && (s[i] == '_' as int ==> pattern[i] == '?' as int)
              && (s[i] != '%' as int && s[i] != '_' as int ==> pattern[i] == s[i])
  {
    pattern := new Byte[|s|](i requires 0 <= i < |s| => s[i]);
    for i := 0 to pattern.Length
      invariant forall k :: 0 <= k < pattern.Length ==> pattern[k] == if k < i then Glob(s)[k] else s[k]
    {
      if pattern[i] == '%' as int {
        pattern[i] := '*' as int;
      } else if pattern[i] == '_' as int {
        pattern[i] := '?' as int;
      }
    }
  }

  function MakeComparator(g: Engines, operator: Operator, tl: Option<SqlType>, tr: Option<SqlType>, right: Option<GoString>)
    : Option<Comparator>
  {
    if tl.None? || tl != tr then None
    else match tl.value
      case BoolType =>
        if operator in {Eq, NullSafeEq, Ne} then Some(Comparator(BoolType, operator, [])) else None
      case BigIntType =>
        if operator in {Eq, NullSafeEq, Ne, Lt, Gt, Le, Ge} then Some(Comparator(BigIntType, operator, [])) else None
      case StringType =>
        if operator in {Eq, NullSafeEq, Ne} then Some(Comparator(StringType, operator, []))
        else if right.None? then None
        else if operator in {Like, NotLike} then Some(Comparator(StringType, operator, Glob(right.value)))
        else if operator in {Regexp, NotRegexp} && g.compiles(right.value) then
          Some(Comparator(StringType, operator, right.value))
        else None
      case DatetimeType => None
  }

  function Same<T(==)>(operator: Operator, a: Option<T>, b: Option<T>): Option<bool> {
    if a.None? || b.None? then None
    else if operator == Ne then Some(a.value != b.value)
    else Some(a.value == b.value)
  }

  function CompareInts(operator: Operator, a: Option<int>, b: Option<int>): Option<bool> {
    if a.None? || b.None? then None
    else match operator
      case Lt => Some(a.value < b.value)
      case Gt => Some(a.value > b.value)
      case Le => Some(a.value <= b.value)
      case Ge => Some(a.value >= b.value)
      case _ => Same(operator, a, b)
  }

  /** The string comparators; LIKE and REGEXP look at their own pattern, not at the right side. */
  function CompareStrings(g: Engines, c: Comparator, a: Option<GoString>, b: Option<GoString>): Option<bool> {
    match c.operator
    case Like => if a.Some? then Some(g.glob(c.pattern, a.value)) else None
    case NotLike => if a.Some? then Some(!g.glob(c.pattern, a.value)) else None
    case Regexp => if a.Some? && |c.pattern| < TWO63 then Some(g.matches(c.pattern, a.value)) else None
    case NotRegexp => if a.Some? && |c.pattern| < TWO63 then Some(!g.matches(c.pattern, a.value)) else None
    case _ => Same(c.operator, a, b)
  }

  function InRange(v: Option<int>, lo: Option<int>, hi: Option<int>): Option<bool> {
    if v.None? || lo.None? || hi.None? then None else Some(lo.value <= v.value <= hi.value)
  }

  // ---------- evaluation, step by step ----------

  /** What evaluation changes: the row's offset and the comparators made so far. */
  datatype State = State(offset: int, made: map<nat, Comparator>)

  function CompareLeaves(e: Op, c: Comparator, x: Context, offset: int): Option<bool>
    requires e.Comp?
  {
    var a, b := Leaf(e.left, x, offset), Leaf(e.right, x, offset);
    if c.t == BigIntType then CompareInts(c.operator, AsInt(a), AsInt(b))
    else CompareStrings(x.engines, c, AsString(a), AsString(b))
  }

  /** The comparator of a comparison object: the one it holds, or else a new one. */
  function ComparatorOf(e: Op, x: Context, st: State): Option<Comparator>
    requires e.Comp?
  {
    if e.slot in st.made then Some(st.made[e.slot])
    else MakeComparator(x.engines, e.operator, TypeAt(e.left, x, st.offset), TypeAt(e.right, x, st.offset),
                        AsString(Leaf(e.right, x, st.offset)))
  }

  function Both(a: (Option<bool>, State), b: (Option<bool>, State), combine: (bool, bool) -> bool): (Option<bool>, State) {
    if a.0.None? then a
    else if b.0.None? then b
    else (Some(combine(a.0.value, b.0.value)), b.1)
  }

  /** Bool() of each object: the verdict and the state it leaves. */
  function Run(e: Op, x: Context, st: State): (Option<bool>, State)
    decreases e, 0
  {
    match e
    case And(l, r) => var a := Run(l, x, st); Both(a, Run(r, x, a.1), (p, q) => p && q)
    case Or(l, r) => var a := Run(l, x, st); Both(a, Run(r, x, a.1), (p, q) => p || q)
    case Not(c) => var a := Run(c, x, st); (if a.0.Some? then Some(!a.0.value) else None, a.1)
    case Comp(slot, _, l, r) =>
      var c := ComparatorOf(e, x, st);
      if c.None? then (None, st)
      else
        var st1 := st.(made := st.made[slot := c.value]);
        if c.value.t == BoolType then
          var a := Run(l, x, st1); Both(a, Run(r, x, a.1), (p, q) => if c.value.operator == Ne then p != q else p == q)
        else (CompareLeaves(e, c.value, x, st.offset), st1)
    case Range(v, lo, hi) =>
      (InRange(AsInt(Leaf(v, x, st.offset)), AsInt(Leaf(lo, x, st.offset)), AsInt(Leaf(hi, x, st.offset))), st)
    case Frame(c) => RunFrames(c, x, st, 0)
    case Call(c) => Run(c, x, st)
    case _ => (AsBool(Leaf(e, x, st.offset)), st)
  }

  /** The loop of SqlFuncFrame.Bool from frame i on. */
  function RunFrames(e: Op, x: Context, st: State, i: nat): (Option<bool>, State)
    decreases e, 1 + |x.log.frames| - i
  {
    if i >= |x.log.frames| then (Some(false), st)
    else
      var a := Run(e, x, st.(offset := i));
      if a.0 == Some(false) then RunFrames(e, x, a.1, i + 1) else a
  }

  // ---------- the row and its operator objects ----------

  class Evaluator {
    const engines: Engines
    var log: FuncLog
    var offset: int
    var made: map<nat, Comparator>

    constructor (engines: Engines, log: FuncLog)
      ensures this.engines == engines && this.log == log && Holds() == State(0, map[])
    {
      this.engines, this.log, offset, made := engines, log, 0, map[];
    }

    function Holds(): State
      reads this
    {
      State(offset, made)
    }

    function Row(): Context
      reads this
    {
      Context(engines, log)
    }

    method Bool(e: Op) returns (r: Option<bool>)
      modifies this`offset, this`made
      ensures (r, Holds()) == Run(e, old(Row()), old(Holds()))
      decreases e, 1
    {
      match e {
        case And(left, right) =>
          var a := Bool(left);
          if a.None? { return None; }
          var b := Bool(right);
          r := if b.None? then None else Some(a.value && b.value);
        case Or(left, right) =>
          var a := Bool(left);
          if a.None? { return None; }
          var b := Bool(right);
          r := if b.None? then None else Some(a.value || b.value);
        case Not(c) =>
          var a := Bool(c);
          r := if a.None? then None else Some(!a.value);
        case Comp(_, _, _, _) => r := Compare(e);
        case Range(v, lo, hi) =>
          r := InRange(AsInt(Leaf(v, Row(), offset)), AsInt(Leaf(lo, Row(), offset)), AsInt(Leaf(hi, Row(), offset)));
        case Frame(c) => r := AnyFrame(c);
        case Call(c) => r := Bool(c);
        case _ => r := AsBool(Leaf(e, Row(), offset));
      }
    }

    /** CompOp.Bool: make the comparator once, then use it. */
    method Compare(e: Op) returns (r: Option<bool>)
      requires e.Comp?
      modifies this`offset, this`made
      ensures (r, Holds()) == Run(e, old(Row()), old(Holds()))
      decreases e, 0
    {
      var c := ComparatorOf(e, Row(), Holds());
      if c.None? { return None; }
      made := made[e.slot := c.value];
      if c.value.t == BoolType {
        var a := Bool(e.left);
        if a.None? { return None; }
        var b := Bool(e.right);
        r := if b.None? then None else Some(if c.value.operator == Ne then a.value != b.value else a.value == b.value);
      } else {
        r := CompareLeaves(e, c.value, Row(), offset);
      }
    }

    /** SqlFuncFrame.Bool: move the row's offset along until the condition holds. */
    method AnyFrame(e: Op) returns (r: Option<bool>)
      modifies this`offset, this`made
      ensures (r, Holds()) == RunFrames(e, old(Row()), old(Holds()), 0)
      decreases e, 2
    {
      var max := |log.frames|;
      for i := 0 to max
        invariant RunFrames(e, Row(), Holds(), i) == RunFrames(e, old(Row()), old(Holds()), 0)
      {
        offset := i;
        var a := Bool(e);
        if a != Some(false) {
          return a;
        }
      }
      return Some(false);
    }
  }
}

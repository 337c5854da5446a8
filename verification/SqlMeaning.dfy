/** What a WHERE condition means, with no cursor and no comparator kept: FRAME(e) is "some frame satisfies e". The
    evaluator of Sql computes this meaning. */
module SqlMeaning {
  import opened Types
  import opened Sql

  // ---------- the meaning ----------

  ghost function Decide<T>(a: Option<T>, b: Option<T>, verdict: (T, T) -> bool): Option<Value> {
    if a.None? || b.None? then None else Some(Bool(verdict(a.value, b.value)))
  }

  /** Two values compared; None where no such comparison exists. */
  ghost function Compared(g: Engines, operator: Operator, v: Value, w: Value): Option<Value> {
    match (v, w)
    case (Bool(a), Bool(b)) =>
      (match operator
       case Eq | NullSafeEq => Some(Bool(a == b))
       case Ne => Some(Bool(a != b))
       case _ => None)
    case (BigInt(a), BigInt(b)) =>
      (match operator
       case Eq | NullSafeEq => Some(Bool(a == b))
       case Ne => Some(Bool(a != b))
       case Lt => Some(Bool(a < b))
       case Gt => Some(Bool(b < a))
       case Le => Some(Bool(a <= b))
       case Ge => Some(Bool(b <= a))
       case _ => None)
    case (String(a), String(b)) =>
      (match operator
       case Eq | NullSafeEq => Some(Bool(a == b))
       case Ne => Some(Bool(a != b))
       case Like => Some(Bool(g.glob(Glob(b), a)))
       case NotLike => Some(Bool(!g.glob(Glob(b), a)))
       case Regexp => if g.compiles(b) then Some(Bool(g.matches(b, a))) else None
       case NotRegexp => if g.compiles(b) then Some(Bool(!g.matches(b, a))) else None
       case _ => None)
    case _ => None
  }

  /** The verdict over all frames. A frame whose condition panics counts only if no earlier frame is satisfied. */
  ghost function SomeFrame(verdicts: seq<Option<bool>>): Option<Value> {
    if exists i :: 0 <= i < |verdicts| && verdicts[i] == Some(true) && None !in verdicts[..i] then Some(Bool(true))
    else if None in verdicts then None
    else Some(Bool(false))
  }

  ghost function Meaning(e: Op, x: Context, offset: int): Option<Value> {
    match e
    case Lit(v) => Some(v)
    case Field(_, _) => Leaf(e, x, offset)
    case And(l, r) => Decide(AsBool(Meaning(l, x, offset)), AsBool(Meaning(r, x, offset)), (p, q) => p && q)
    case Or(l, r) => Decide(AsBool(Meaning(l, x, offset)), AsBool(Meaning(r, x, offset)), (p, q) => p || q)
    case Not(c) =>
      var a := AsBool(Meaning(c, x, offset));
      if a.None? then None else Some(Bool(!a.value))
    case Comp(_, operator, l, r) =>
      var v, w := Meaning(l, x, offset), Meaning(r, x, offset);
      if v.None? || w.None? then None else Compared(x.engines, operator, v.value, w.value)
    case Range(v, lo, hi) =>
      var a, b, c := AsInt(Meaning(v, x, offset)), AsInt(Meaning(lo, x, offset)), AsInt(Meaning(hi, x, offset));
      if a.None? || b.None? || c.None? then None else Some(Bool(b.value <= a.value <= c.value))
    case Frame(c) => SomeFrame(Verdicts(c, x))
    case Call(c) =>
      var a := AsBool(Meaning(c, x, offset));
      if a.None? then None else Some(Bool(a.value))
    case Clock => Some(Datetime(0))
  }

  /** The condition at each frame. */
  ghost function Verdicts(e: Op, x: Context): seq<Option<bool>> {
    seq(|x.log.frames|, i => AsBool(Meaning(e, x, i)))
  }

  ghost function Holds(e: Op, x: Context, offset: int): Option<bool> {
    AsBool(Meaning(e, x, offset))
  }

  // ---------- which conditions ----------

  /** Reads a column of the current frame, outside any FRAME. */
  predicate Reads(e: Op) {
    match e
    case Field(table, name) => Resolve(table, name).Some? && OfFrame(Resolve(table, name).value)
    case And(l, r) => Reads(l) || Reads(r)
    case Or(l, r) => Reads(l) || Reads(r)
    case Not(c) => Reads(c)
    case Comp(_, _, l, r) => Reads(l) || Reads(r)
    case Range(v, lo, hi) => Reads(v) || Reads(lo) || Reads(hi)
    case Call(c) => Reads(c)
    case _ => false
  }

  /** Contains FRAME, so evaluating it may move the row's offset. */
  predicate Moves(e: Op) {
    match e
    case And(l, r) => Moves(l) || Moves(r)
    case Or(l, r) => Moves(l) || Moves(r)
    case Not(c) => Moves(c)
    case Comp(_, _, l, r) => Moves(l) || Moves(r)
    case Range(v, lo, hi) => Moves(v) || Moves(lo) || Moves(hi)
    case Call(c) => Moves(c)
    case Frame(_) => true
    case _ => false
  }

  /** No column of the current frame is read after a FRAME has moved the offset. */
  predicate Ordered(e: Op) {
    match e
    case And(l, r) => Ordered(l) && Ordered(r) && !(Moves(l) && Reads(r))
    case Or(l, r) => Ordered(l) && Ordered(r) && !(Moves(l) && Reads(r))
    case Comp(_, _, l, r) => Ordered(l) && Ordered(r) && !(Moves(l) && Reads(r))
    case Not(c) => Ordered(c)
    case Call(c) => Ordered(c)
    case Frame(c) => Ordered(c)
    case _ => true
  }

  /** No FRAME inside a FRAME. */
  predicate Flat(e: Op) {
    match e
    case And(l, r) => Flat(l) && Flat(r)
    case Or(l, r) => Flat(l) && Flat(r)
    case Comp(_, _, l, r) => Flat(l) && Flat(r)
    case Range(v, lo, hi) => Flat(v) && Flat(lo) && Flat(hi)
    case Not(c) => Flat(c)
    case Call(c) => Flat(c)
    case Frame(c) => !Moves(c)
    case _ => true
  }

  /** The right sides of LIKE and REGEXP are constant. */
  predicate FixedPatterns(e: Op) {
    match e
    case Comp(_, operator, l, r) =>
      FixedPatterns(l) && FixedPatterns(r) && (operator in {Like, NotLike, Regexp, NotRegexp} ==> Const(r))
    case And(l, r) => FixedPatterns(l) && FixedPatterns(r)
    case Or(l, r) => FixedPatterns(l) && FixedPatterns(r)
    case Not(c) => FixedPatterns(c)
    case Range(v, lo, hi) => FixedPatterns(v) && FixedPatterns(lo) && FixedPatterns(hi)
    case Frame(c) => FixedPatterns(c)
    case Call(c) => FixedPatterns(c)
    case _ => true
  }

  lemma {:induction false} StillIsOrdered(e: Op)
    requires !Moves(e)
    ensures Ordered(e)
  {
    match e
    case And(l, r) => StillIsOrdered(l); StillIsOrdered(r);
    case Or(l, r) => StillIsOrdered(l); StillIsOrdered(r);
    case Comp(_, _, l, r) => StillIsOrdered(l); StillIsOrdered(r);
    case Not(c) => StillIsOrdered(c);
    case Call(c) => StillIsOrdered(c);
    case _ =>
  }

  /** Frame columns only inside FRAME and no FRAME inside FRAME: the order of reads cannot matter. */
  lemma {:induction false} FlatIsOrdered(e: Op)
    requires Flat(e) && !Reads(e)
    ensures Ordered(e)
  {
    match e
    case And(l, r) => FlatIsOrdered(l); FlatIsOrdered(r);
    case Or(l, r) => FlatIsOrdered(l); FlatIsOrdered(r);
    case Comp(_, _, l, r) => FlatIsOrdered(l); FlatIsOrdered(r);
    case Not(c) => FlatIsOrdered(c);
    case Call(c) => FlatIsOrdered(c);
    case Frame(c) => StillIsOrdered(c);
    case _ =>
  }

  // ---------- each comparison object and its comparator ----------

  /** Which comparison holds which slot; two comparisons never share one. */
  ghost predicate Owned(e: Op, owners: map<nat, Op>) {
    match e
    case Comp(slot, _, l, r) => slot in owners && owners[slot] == e && Owned(l, owners) && Owned(r, owners)
    case And(l, r) => Owned(l, owners) && Owned(r, owners)
    case Or(l, r) => Owned(l, owners) && Owned(r, owners)
    case Not(c) => Owned(c, owners)
    case Range(v, lo, hi) => Owned(v, owners) && Owned(lo, owners) && Owned(hi, owners)
    case Frame(c) => Owned(c, owners)
    case Call(c) => Owned(c, owners)
    case _ => true
  }

  /** The type an operand has in every row. */
  function StaticType(e: Op): Option<SqlType> {
    match e
    case Lit(v) => Some(TypeOfValue(v))
    case Field(table, name) =>
      var c := Resolve(table, name);
      if c.Some? then Some(ColumnType(c.value)) else None
    case Clock => Some(DatetimeType)
    case _ => Some(BoolType)
  }

  ghost function StaticComparator(g: Engines, e: Op): Option<Comparator>
    requires e.Comp?
  {
    MakeComparator(g, e.operator, StaticType(e.left), StaticType(e.right),
                   if e.right.Lit? then AsString(Some(e.right.v)) else None)
  }

  /** Every comparator kept is the one its comparison would make in any row. */
  ghost predicate MadeOk(g: Engines, owners: map<nat, Op>, made: map<nat, Comparator>) {
    forall s :: s in made ==> s in owners && owners[s].Comp? && StaticComparator(g, owners[s]) == Some(made[s])
  }

  lemma TypeAtIsStatic(e: Op, x: Context, offset: int)
    ensures TypeAt(e, x, offset) == if e.Field? && Leaf(e, x, offset).None? then None else StaticType(e)
  {
  }

  lemma {:induction false} ConstString(e: Op)
    requires Const(e) && StaticType(e) == Some(StringType)
    ensures e.Lit? && e.v.String?
  {
  }

  lemma MeaningType(e: Op, x: Context, offset: int)
    ensures Meaning(e, x, offset).Some? ==> StaticType(e) == Some(TypeOfValue(Meaning(e, x, offset).value))
    ensures e.Lit? || e.Field? ==> Meaning(e, x, offset) == Leaf(e, x, offset)
    ensures StaticType(e) in {Some(BigIntType), Some(StringType)} ==> e.Lit? || e.Field?
  {
    if e.Comp? {
      var v, w := Meaning(e.left, x, offset), Meaning(e.right, x, offset);
    }
  }

  /** The comparator used now is the one of every row, or the comparison has no meaning here. */
  lemma ComparatorIsStatic(e: Op, owners: map<nat, Op>, x: Context, st: State)
    requires e.Comp? && Owned(e, owners) && MadeOk(x.engines, owners, st.made) && FixedPatterns(e)
    ensures var c := ComparatorOf(e, x, st);
            (c.Some? ==> c == StaticComparator(x.engines, e))
            && (c.None? ==> Meaning(e, x, st.offset).None?)
  {
    TypeAtIsStatic(e.left, x, st.offset);
    TypeAtIsStatic(e.right, x, st.offset);
    MeaningType(e.left, x, st.offset);
    MeaningType(e.right, x, st.offset);
    if StaticType(e.right) == Some(StringType) && Const(e.right) {
      ConstString(e.right);
    }
  }

  /** A comparison of numbers or strings with its comparator gives its meaning. */
  lemma LeavesCompared(e: Op, c: Comparator, x: Context, offset: int)
    requires e.Comp? && FixedPatterns(e) && StaticComparator(x.engines, e) == Some(c) && c.t != BoolType
    ensures CompareLeaves(e, c, x, offset) == Holds(e, x, offset)
  {
    MeaningType(e.left, x, offset);
    MeaningType(e.right, x, offset);
    if c.t == StringType && Const(e.right) {
      ConstString(e.right);
    }
  }

  lemma BoolsCompared(e: Op, c: Comparator, x: Context, offset: int)
    requires e.Comp? && StaticComparator(x.engines, e) == Some(c) && c.t == BoolType
    ensures var a, b := Holds(e.left, x, offset), Holds(e.right, x, offset);
            Holds(e, x, offset) ==
            if a.None? || b.None? then None
            else Some(if c.operator == Ne then a.value != b.value else a.value == b.value)
  {
    MeaningType(e.left, x, offset);
    MeaningType(e.right, x, offset);
  }

  // ---------- the meaning does not look at what it does not read ----------

  lemma {:induction false} UnreadOffset(e: Op, x: Context, i: int, j: int)
    requires !Reads(e)
    ensures Meaning(e, x, i) == Meaning(e, x, j)
  {
    match e
    case And(l, r) => UnreadOffset(l, x, i, j); UnreadOffset(r, x, i, j);
    case Or(l, r) => UnreadOffset(l, x, i, j); UnreadOffset(r, x, i, j);
    case Not(c) => UnreadOffset(c, x, i, j);
    case Comp(_, _, l, r) => UnreadOffset(l, x, i, j); UnreadOffset(r, x, i, j);
    case Range(v, lo, hi) => UnreadOffset(v, x, i, j); UnreadOffset(lo, x, i, j); UnreadOffset(hi, x, i, j);
    case Call(c) => UnreadOffset(c, x, i, j);
    case _ =>
  }

  // ---------- the evaluator computes the meaning ----------

  ghost predicate Ready(e: Op, owners: map<nat, Op>) {
    Owned(e, owners) && FixedPatterns(e) && Ordered(e)
  }

  /** The verdict is the meaning at the offset evaluation began with, the comparators stay right and, without FRAME, the
      offset stays put. */
  ghost predicate Computes(e: Op, owners: map<nat, Op>, x: Context, st: State, out: (Option<bool>, State)) {
    && out.0 == Holds(e, x, st.offset)
    && MadeOk(x.engines, owners, out.1.made)
    && (!Moves(e) ==> out.1.offset == st.offset)
  }

  /** Two operands one after the other: the second still means what it did before the first was evaluated. */
  lemma InTurn(l: Op, r: Op, owners: map<nat, Op>, x: Context, st: State, a: (Option<bool>, State), b: (Option<bool>, State))
    requires Computes(l, owners, x, st, a) && Computes(r, owners, x, a.1, b) && !(Moves(l) && Reads(r))
    ensures b.0 == Holds(r, x, st.offset)
    ensures !Moves(l) && !Moves(r) ==> b.1.offset == st.offset
  {
    if Moves(l) {
      UnreadOffset(r, x, st.offset, a.1.offset);
    }
  }

  lemma {:induction false} RunIsMeaning(e: Op, owners: map<nat, Op>, x: Context, st: State)
    requires Ready(e, owners) && MadeOk(x.engines, owners, st.made)
    ensures Computes(e, owners, x, st, Run(e, x, st))
    decreases e, 1
  {
    match e
    case And(l, r) =>
      RunIsMeaning(l, owners, x, st);
      var a := Run(l, x, st);
      RunIsMeaning(r, owners, x, a.1);
      InTurn(l, r, owners, x, st, a, Run(r, x, a.1));
    case Or(l, r) =>
      RunIsMeaning(l, owners, x, st);
      var a := Run(l, x, st);
      RunIsMeaning(r, owners, x, a.1);
      InTurn(l, r, owners, x, st, a, Run(r, x, a.1));
    case Not(c) => RunIsMeaning(c, owners, x, st);
    case Comp(_, _, _, _) => CompIsMeaning(e, owners, x, st);
    case Range(v, lo, hi) =>
      MeaningType(v, x, st.offset);
      MeaningType(lo, x, st.offset);
      MeaningType(hi, x, st.offset);
    case Frame(c) => RunFramesIsMeaning(c, owners, x, st, 0);
    case Call(c) => RunIsMeaning(c, owners, x, st);
    case _ =>
  }

  lemma {:induction false} CompIsMeaning(e: Op, owners: map<nat, Op>, x: Context, st: State)
    requires e.Comp? && Ready(e, owners) && MadeOk(x.engines, owners, st.made)
    ensures Computes(e, owners, x, st, Run(e, x, st))
    decreases e, 0
  {
    ComparatorIsStatic(e, owners, x, st);
    var c := ComparatorOf(e, x, st);
    if c.Some? {
      var st1 := st.(made := st.made[e.slot := c.value]);
      if c.value.t == BoolType {
        RunIsMeaning(e.left, owners, x, st1);
        var a := Run(e.left, x, st1);
        RunIsMeaning(e.right, owners, x, a.1);
        InTurn(e.left, e.right, owners, x, st1, a, Run(e.right, x, a.1));
        BoolsCompared(e, c.value, x, st.offset);
      } else {
        LeavesCompared(e, c.value, x, st.offset);
      }
    }
  }

  lemma {:induction false} RunFramesIsMeaning(e: Op, owners: map<nat, Op>, x: Context, st: State, i: nat)
    requires Ready(e, owners) && MadeOk(x.engines, owners, st.made) && i <= |x.log.frames|
    requires forall k :: 0 <= k < i ==> Verdicts(e, x)[k] == Some(false)
    ensures var out := RunFrames(e, x, st, i);
            out.0 == AsBool(SomeFrame(Verdicts(e, x))) && MadeOk(x.engines, owners, out.1.made)
    decreases e, 2 + |x.log.frames| - i
  {
    if i < |x.log.frames| {
      RunIsMeaning(e, owners, x, st.(offset := i));
      var a := Run(e, x, st.(offset := i));
      assert Verdicts(e, x)[i] == a.0;
      if a.0 == Some(false) {
        RunFramesIsMeaning(e, owners, x, a.1, i + 1);
      } else {
        assert None !in Verdicts(e, x)[..i];
      }
    }
  }

  // ---------- the main results ----------

  /** A condition with frame columns only inside FRAME and no FRAME inside FRAME means the same whatever offset and
      comparators earlier rows left. */
  lemma AnyOffset(e: Op, owners: map<nat, Op>, x: Context, st: State, offset: int)
    requires Flat(e) && !Reads(e) && FixedPatterns(e) && Owned(e, owners) && MadeOk(x.engines, owners, st.made)
    ensures Run(e, x, st).0 == Holds(e, x, offset)
    ensures MadeOk(x.engines, owners, Run(e, x, st).1.made)
  {
    FlatIsOrdered(e);
    RunIsMeaning(e, owners, x, st);
    UnreadOffset(e, x, st.offset, offset);
  }

  /** A comparator kept from earlier rows gives the verdict a new one would. */
  lemma KeptIsFresh(e: Op, owners: map<nat, Op>, x: Context, st: State)
    requires Ready(e, owners) && MadeOk(x.engines, owners, st.made)
    ensures Run(e, x, st).0 == Run(e, x, State(st.offset, map[])).0
  {
    RunIsMeaning(e, owners, x, st);
    RunIsMeaning(e, owners, x, State(st.offset, map[]));
  }

  /** FRAME(e) leaves the offset at the first frame that satisfies e. */
  lemma {:induction false} FrameStopsAtFirst(e: Op, owners: map<nat, Op>, x: Context, st: State, i: nat)
    requires Ready(e, owners) && !Moves(e) && MadeOk(x.engines, owners, st.made) && RunFrames(e, x, st, i).0 == Some(true)
    ensures var o := RunFrames(e, x, st, i).1.offset;
            i <= o < |x.log.frames| && Holds(e, x, o) == Some(true)
            && forall k :: i <= k < o ==> Holds(e, x, k) == Some(false)
    decreases |x.log.frames| - i
  {
    RunIsMeaning(e, owners, x, st.(offset := i));
    var a := Run(e, x, st.(offset := i));
    if a.0 == Some(false) {
      FrameStopsAtFirst(e, owners, x, a.1, i + 1);
    }
  }

  // ---------- panics are type errors ----------

  predicate Truthy(t: Option<SqlType>) {
    t in {Some(BoolType), Some(BigIntType)}
  }

  /** A type checker: the type of a condition, or None if evaluating it panics. */
  function Checked(g: Engines, e: Op): Option<SqlType> {
    match e
    case Lit(v) => Some(TypeOfValue(v))
    case Field(_, _) => StaticType(e)
    case And(l, r) => if Truthy(Checked(g, l)) && Truthy(Checked(g, r)) then Some(BoolType) else None
    case Or(l, r) => if Truthy(Checked(g, l)) && Truthy(Checked(g, r)) then Some(BoolType) else None
    case Not(c) => if Truthy(Checked(g, c)) then Some(BoolType) else None
    case Comp(_, operator, l, r) =>
      var t := Checked(g, l);
      if t.None? || t != Checked(g, r) || t == Some(DatetimeType) then None
      else if operator in {Eq, NullSafeEq, Ne} then Some(BoolType)
      else if operator in {Lt, Gt, Le, Ge} then (if t == Some(BigIntType) then Some(BoolType) else None)
      else if operator in {Like, NotLike} then (if t == Some(StringType) then Some(BoolType) else None)
      else if operator in {Regexp, NotRegexp} && r.Lit? && r.v.String? && g.compiles(r.v.s) then Some(BoolType)
      else None
    case Range(v, lo, hi) =>
      if Checked(g, v) == Checked(g, lo) == Checked(g, hi) == Some(BigIntType) then Some(BoolType) else None
    case Frame(c) => if Truthy(Checked(g, c)) then Some(BoolType) else None
    case Call(c) => if Truthy(Checked(g, c)) then Some(BoolType) else None
    case Clock => Some(DatetimeType)
  }

  ghost function TypeOf(v: Option<Value>): Option<SqlType> {
    if v.Some? then Some(TypeOfValue(v.value)) else None
  }

  lemma CheckedComp(e: Op, x: Context, offset: int)
    requires e.Comp? && FixedPatterns(e)
    requires TypeOf(Meaning(e.left, x, offset)) == Checked(x.engines, e.left)
    requires TypeOf(Meaning(e.right, x, offset)) == Checked(x.engines, e.right)
    ensures TypeOf(Meaning(e, x, offset)) == Checked(x.engines, e)
  {
    MeaningType(e.right, x, offset);
    if StaticType(e.right) == Some(StringType) && Const(e.right) {
      ConstString(e.right);
    }
  }

  lemma TruthOfType(v: Option<Value>)
    ensures AsBool(v).Some? <==> Truthy(TypeOf(v))
  {
  }

  lemma NoPanicExists(verdicts: seq<Option<bool>>)
    requires forall i :: 0 <= i < |verdicts| ==> verdicts[i].Some?
    ensures SomeFrame(verdicts) == Some(Bool(exists i :: 0 <= i < |verdicts| && verdicts[i] == Some(true)))
  {
    if i :| 0 <= i < |verdicts| && verdicts[i] == Some(true) {
      assert None !in verdicts[..i];
    }
  }

  lemma AllPanic(verdicts: seq<Option<bool>>)
    requires verdicts != [] && forall i :: 0 <= i < |verdicts| ==> verdicts[i].None?
    ensures SomeFrame(verdicts) == None
  {
    assert verdicts[0] in verdicts;
  }

  lemma CheckedFrame(e: Op, x: Context, offset: int)
    requires x.log.frames != []
    requires forall i :: 0 <= i < |x.log.frames| ==> TypeOf(Meaning(e, x, i)) == Checked(x.engines, e)
    ensures TypeOf(Meaning(Frame(e), x, offset)) == Checked(x.engines, Frame(e))
  {
    var verdicts, good := Verdicts(e, x), Truthy(Checked(x.engines, e));
    forall i | 0 <= i < |verdicts| ensures verdicts[i].Some? <==> good {
      TruthOfType(Meaning(e, x, i));
    }
    if good {
      NoPanicExists(verdicts);
    } else {
      AllPanic(verdicts);
    }
  }

  lemma CheckedPair(e: Op, x: Context, offset: int)
    requires e.And? || e.Or?
    requires TypeOf(Meaning(e.left, x, offset)) == Checked(x.engines, e.left)
    requires TypeOf(Meaning(e.right, x, offset)) == Checked(x.engines, e.right)
    ensures TypeOf(Meaning(e, x, offset)) == Checked(x.engines, e)
  {
    TruthOfType(Meaning(e.left, x, offset));
    TruthOfType(Meaning(e.right, x, offset));
  }

  lemma CheckedRange(e: Op, x: Context, offset: int)
    requires e.Range?
    requires TypeOf(Meaning(e.val, x, offset)) == Checked(x.engines, e.val)
    requires TypeOf(Meaning(e.lo, x, offset)) == Checked(x.engines, e.lo)
    requires TypeOf(Meaning(e.hi, x, offset)) == Checked(x.engines, e.hi)
    ensures TypeOf(Meaning(e, x, offset)) == Checked(x.engines, e)
  {
  }

  lemma CheckedOne(e: Op, x: Context, offset: int)
    requires e.Not? || e.Call?
    requires TypeOf(Meaning(e.e, x, offset)) == Checked(x.engines, e.e)
    ensures TypeOf(Meaning(e, x, offset)) == Checked(x.engines, e)
  {
    TruthOfType(Meaning(e.e, x, offset));
  }

  /** At any frame of a call, a condition panics exactly when it does not type-check. */
  lemma {:induction false} PanicsAreTypeErrors(e: Op, x: Context, offset: int)
    requires FixedPatterns(e) && 0 <= offset < |x.log.frames|
    ensures TypeOf(Meaning(e, x, offset)) == Checked(x.engines, e)
  {
    match e
    case And(l, r) =>
      PanicsAreTypeErrors(l, x, offset);
      PanicsAreTypeErrors(r, x, offset);
      CheckedPair(e, x, offset);
    case Or(l, r) =>
      PanicsAreTypeErrors(l, x, offset);
      PanicsAreTypeErrors(r, x, offset);
      CheckedPair(e, x, offset);
    case Comp(_, _, l, r) =>
      PanicsAreTypeErrors(l, x, offset);
      PanicsAreTypeErrors(r, x, offset);
      CheckedComp(e, x, offset);
    case Range(v, lo, hi) =>
      PanicsAreTypeErrors(v, x, offset);
      PanicsAreTypeErrors(lo, x, offset);
      PanicsAreTypeErrors(hi, x, offset);
      CheckedRange(e, x, offset);
    case Not(c) =>
      PanicsAreTypeErrors(c, x, offset);
      CheckedOne(e, x, offset);
    case Call(c) =>
      PanicsAreTypeErrors(c, x, offset);
      CheckedOne(e, x, offset);
    case Frame(c) =>
      forall i | 0 <= i < |x.log.frames| ensures TypeOf(Meaning(c, x, i)) == Checked(x.engines, c) {
        PanicsAreTypeErrors(c, x, i);
      }
      CheckedFrame(c, x, offset);
    case _ =>
  }

  /** The same of the evaluator: on a call with frames, evaluation panics exactly when the static check gives no truth
      value. */
  lemma EvaluatorPanics(e: Op, owners: map<nat, Op>, x: Context, st: State)
    requires Ready(e, owners) && MadeOk(x.engines, owners, st.made) && 0 <= st.offset < |x.log.frames|
    ensures Run(e, x, st).0.None? <==> !Truthy(Checked(x.engines, e))
  {
    RunIsMeaning(e, owners, x, st);
    PanicsAreTypeErrors(e, x, st.offset);
    TruthOfType(Meaning(e, x, st.offset));
  }

  /** The documented meaning of FRAME: for a condition that type-checks, EXISTS over the frames of the call. */
  lemma FrameIsExists(e: Op, owners: map<nat, Op>, x: Context, st: State)
    requires Ready(e, owners) && MadeOk(x.engines, owners, st.made) && Truthy(Checked(x.engines, e))
    ensures Run(Frame(e), x, st).0 == Some(exists i :: 0 <= i < |x.log.frames| && Holds(e, x, i) == Some(true))
  {
    RunFramesIsMeaning(e, owners, x, st, 0);
    var verdicts := Verdicts(e, x);
    forall i | 0 <= i < |verdicts| ensures verdicts[i].Some? && verdicts[i] == Holds(e, x, i) {
      PanicsAreTypeErrors(e, x, i);
      TruthOfType(Meaning(e, x, i));
    }
    NoPanicExists(verdicts);
  }

  // ---------- where the conditions are needed ----------

  function OffsetIs(slot: nat, n: int): Op {
    Comp(slot, Eq, Field("frames", "offset"), Lit(BigInt(n)))
  }

  const SameInts := Comparator(BigIntType, Eq, [])

  predicate Unspoilt(slot: nat, st: State) {
    slot in st.made ==> st.made[slot] == SameInts
  }

  lemma FrameColumns()
    ensures Resolve("frames", "offset") == Some(FrameOffset)
    ensures Resolve("frames", "func") == Some(FrameFunc)
  {
    assert |"frames"| == 6 && |"calls"| == 5;
    assert |"offset"| == 6 && |"id"| == 2 && |"func"| == 4 && |"package"| == 7;
  }

  lemma OffsetIsRuns(slot: nat, n: int, x: Context, st: State)
    requires Unspoilt(slot, st)
    ensures Run(OffsetIs(slot, n), x, st) == (Some(st.offset == n), st.(made := st.made[slot := SameInts]))
    ensures Holds(OffsetIs(slot, n), x, st.offset) == Some(st.offset == n)
  {
    FrameColumns();
    var e := OffsetIs(slot, n);
    assert Leaf(e.left, x, st.offset) == Some(BigInt(st.offset)) && Leaf(e.right, x, st.offset) == Some(BigInt(n));
    assert ComparatorOf(e, x, st) == Some(SameInts);
    assert CompareLeaves(e, SameInts, x, st.offset) == Some(st.offset == n);
    LeavesCompared(e, SameInts, x, st.offset);
  }

  function Misread(): Op {
    And(Frame(OffsetIs(0, 1)), OffsetIs(1, 0))
  }

  lemma MisreadFails(x: Context, st: State)
    requires |x.log.frames| == 2 && Unspoilt(0, st) && Unspoilt(1, st)
    ensures var out := Run(Misread(), x, st);
            out.0 == Some(false) && Unspoilt(0, out.1) && Unspoilt(1, out.1)
  {
    var inner := OffsetIs(0, 1);
    OffsetIsRuns(0, 1, x, st.(offset := 0));
    var st1 := Run(inner, x, st.(offset := 0)).1;
    OffsetIsRuns(0, 1, x, st1.(offset := 1));
    var st2 := Run(inner, x, st1.(offset := 1)).1;
    assert RunFrames(inner, x, st1, 1) == (Some(true), st2);
    OffsetIsRuns(1, 0, x, st2);
  }

  lemma MisreadMeansTrue(x: Context)
    requires |x.log.frames| == 2
    ensures Holds(Misread(), x, 0) == Some(true)
  {
    OffsetIsRuns(0, 1, x, State(0, map[]));
    OffsetIsRuns(0, 1, x, State(1, map[]));
    OffsetIsRuns(1, 0, x, State(0, map[]));
    var verdicts := Verdicts(OffsetIs(0, 1), x);
    assert verdicts == [Some(false), Some(true)];
    assert verdicts[1] == Some(true);
    NoPanicExists(verdicts);
    assert Meaning(Frame(OffsetIs(0, 1)), x, 0) == Some(Bool(true));
    assert Holds(OffsetIs(1, 0), x, 0) == Some(true);
  }

  /** FRAME(FRAME(offset = 1) AND offset = 0): the inner FRAME leaves the offset at 1, and the outer condition then reads
      the wrong frame. */
  lemma NestedFrameMisreads(x: Context, st: State)
    requires |x.log.frames| == 2 && st.made == map[]
    ensures !Ordered(Frame(Misread()))
    ensures Run(Frame(Misread()), x, st).0 == Some(false)
    ensures Holds(Frame(Misread()), x, st.offset) == Some(true)
  {
    MisreadFails(x, st.(offset := 0));
    var st1 := Run(Misread(), x, st.(offset := 0)).1;
    MisreadFails(x, st1.(offset := 1));
    assert RunFrames(Misread(), x, st1, 1).0 == Some(false);
    FrameColumns();
    MisreadMeansTrue(x);
    assert Verdicts(Misread(), x)[0] == Some(true);
  }

  /** func NOT LIKE func, evaluated at frame 0 and then at frame 1: the pattern is still that of frame 0. */
  lemma PatternIsKept(x: Context)
    requires |x.log.frames| == 2
    requires x.engines.glob(Glob(x.engines.info(x.log.frames[0]).func), x.engines.info(x.log.frames[0]).func)
    requires !x.engines.glob(Glob(x.engines.info(x.log.frames[0]).func), x.engines.info(x.log.frames[1]).func)
    requires x.engines.glob(Glob(x.engines.info(x.log.frames[1]).func), x.engines.info(x.log.frames[1]).func)
    ensures var e := Frame(Comp(0, NotLike, Field("frames", "func"), Field("frames", "func")));
            !FixedPatterns(e) && Run(e, x, State(0, map[])).0 == Some(true) && Holds(e, x, 0) == Some(false)
  {
    FrameColumns();
    var col := Field("frames", "func");
    var c := Comp(0, NotLike, col, col);
    var kept := Comparator(StringType, NotLike, Glob(x.engines.info(x.log.frames[0]).func));
    assert Leaf(col, x, 0) == Some(String(x.engines.info(x.log.frames[0]).func));
    assert Leaf(col, x, 1) == Some(String(x.engines.info(x.log.frames[1]).func));
    assert Run(c, x, State(0, map[])) == (Some(false), State(0, map[0 := kept]));
    assert Run(c, x, State(1, map[0 := kept])).0 == Some(true);
    assert RunFrames(c, x, State(0, map[0 := kept]), 1).0 == Some(true);
    assert Meaning(col, x, 0) == Leaf(col, x, 0) && Meaning(col, x, 1) == Leaf(col, x, 1);
    assert Holds(c, x, 0) == Some(false) && Holds(c, x, 1) == Some(false);
    assert Verdicts(c, x) == [Some(false), Some(false)];
  }
}

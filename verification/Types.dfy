/** Record types and constants shared by the tracer, the wire protocol and the storage. */
module Types {

  const TWO32 := 0x1_0000_0000
  const TWO63 := 0x8000_0000_0000_0000
  const TWO64 := 0x1_0000_0000_0000_0000

  type Byte = x: int | 0 <= x < 256
  type Uint32 = x: int | 0 <= x < TWO32
  type Uint64 = x: int | 0 <= x < TWO64
  type Int64 = x: int | -TWO63 <= x < TWO63

  type Bytes = seq<Byte>

  /** A Go slice or string: its length is a Go int. */
  type Slice<T> = s: seq<T> | |s| < TWO63 witness []
  type GoString = Slice<Byte>

  const NOT_ENDED := -1
  const NOT_FOUND_PARENT := -1
  const MAX_STACK_SIZE := 64

  const FUNC_START: Byte := 0
  const FUNC_END: Byte := 1

  datatype Option<+T> = None | Some(value: T)

  /** One function call. Ids and times are Go int64 values; `id` is drawn from an unbounded counter here, and
      the codec makes the truncation to 64 bits explicit. */
  datatype FuncLog = FuncLog(
    id: int,
    startTime: int,
    endTime: int,
    parentID: int,
    frames: Slice<Uint64>,
    gid: int)
  {
    predicate IsEnded() {
      endTime != NOT_ENDED
    }
  }

  datatype RawFuncLog = RawFuncLog(
    id: Int64,
    tag: Byte,
    timestamp: Int64,
    frames: Slice<Uint64>,
    gid: Int64,
    txid: Uint64)

  datatype Goroutine = Goroutine(gid: int, startTime: int, endTime: int)

  datatype GoModule = GoModule(name: GoString, minPC: Uint64, maxPC: Uint64)
  datatype GoFunc = GoFunc(entry: Uint64, name: GoString)
  datatype GoLine = GoLine(pc: Uint64, fileID: Uint32, line: Uint32)

  datatype SymbolsData = SymbolsData(
    files: Slice<GoString>,
    mods: Slice<GoModule>,
    funcs: Slice<GoFunc>,
    lines: Slice<GoLine>)

  function Max(a: int, b: int): int {
    if a < b then b else a
  }

  function Min(a: int, b: int): int {
    if a < b then a else b
  }

  lemma SomeElement<T>(s: set<T>) returns (x: T)
    requires s != {}
    ensures x in s
  {
    x :| x in s;
  }
}

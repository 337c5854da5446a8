/** Trace switches: from an updated target list on the server, through the worker's queues, to the flag cells of the
    traced process (cmd/server_run.go, tracer/storage/log.go, tracer/logger/info.go). */
module TraceFlags {
  import opened Types

  type Name = GoString

  /** StartTraceCmdPacket (on) or StopTraceCmdPacket (off). */
  datatype Command = Command(name: Name, on: bool)

  // ---------- the cells of the traced process ----------

  /** What Go's *bool points at. */
  class FlagCell {
    var on: bool

    constructor (on: bool)
      ensures this.on == on
    {
      this.on := on;
    }
  }

  class FlagTable {
    var cells: map<Name, FlagCell>
    var defaultOn: bool

    /** Every function has a cell of its own. */
    ghost predicate Valid()
      reads this
    {
      forall f, g :: f in cells && g in cells && f != g ==> cells[f] != cells[g]
    }

    ghost function View(): map<Name, bool>
      reads this, cells.Values
    {
      map f | f in cells :: cells[f].on
    }

    constructor ()
      ensures Valid() && cells == map[] && !defaultOn
    {
      cells := map[];
      defaultOn := false;
    }

    /** The cells a holder has been given stay the cells of their functions. */
    twostate predicate KeepsCells()
      reads this
    {
      forall f :: f in old(cells) ==> f in cells && cells[f] == old(cells[f])
    }

    method EnableTrace(name: Name)
      requires Valid()
      modifies this, cells.Values
      ensures Valid() && KeepsCells() && defaultOn == old(defaultOn)
      ensures fresh(cells.Values - old(cells.Values))
      ensures View() == old(View())[name := true]
    {
      if name in cells {
        cells[name].on := true;
      } else {
        var cell := new FlagCell(true);
        cells := cells[name := cell];
      }
    }

    method DisableTrace(name: Name)
      requires Valid()
      modifies this, cells.Values
      ensures Valid() && KeepsCells() && defaultOn == old(defaultOn)
      ensures fresh(cells.Values - old(cells.Values))
      ensures View() == old(View())[name := false]
    {
      if name in cells {
        cells[name].on := false;
      } else {
        var cell := new FlagCell(false);
        cells := cells[name := cell];
      }
    }

    /** EnableAll and DisableAll: the map is walked in any order. */
    method SetAll(on: bool)
      requires Valid()
      modifies this, cells.Values
      ensures Valid() && cells == old(cells) && defaultOn == on
      ensures forall f :: f in View() ==> View()[f] == on
    {
      var todo := cells.Keys;
      while todo != {}
        invariant todo <= cells.Keys && cells == old(cells)
        invariant forall f :: f in cells && f !in todo ==> cells[f].on == on
      {
        ghost var some := SomeElement(todo);
        var f :| f in todo;
        cells[f].on := on;
        todo := todo - {f};
      }
      defaultOn := on;
    }

    /** TracingFlag hands out the very cell that later commands for the function write. */
    method TracingFlag(name: Name) returns (cell: FlagCell)
      requires Valid()
      modifies this
      ensures Valid() && KeepsCells() && defaultOn == old(defaultOn)
      ensures fresh(cells.Values - old(cells.Values))
      ensures name in cells && cell == cells[name]
      ensures View() == if name in old(cells) then old(View()) else old(View())[name := defaultOn]
    {
      if name !in cells {
        cell := new FlagCell(defaultOn);
        cells := cells[name := cell];
      }
      return cells[name];
    }

    /** The command handlers of the traced process; an empty name panics and the commands behind it are not handled. */
    method Handle(commands: seq<Command>) returns (ok: bool)
      requires Valid()
      modifies this, cells.Values
      ensures Valid() && KeepsCells() && fresh(cells.Values - old(cells.Values))
      ensures ok <==> forall i :: 0 <= i < |commands| ==> commands[i].name != []
      ensures ok ==> View() == Applied(old(View()), commands)
    {
      for i := 0 to |commands|
        invariant Valid() && KeepsCells() && fresh(cells.Values - old(cells.Values))
        invariant forall k :: 0 <= k < i ==> commands[k].name != []
        invariant View() == Applied(old(View()), commands[..i])
      {
        assert commands[..i + 1] == commands[..i] + [commands[i]];
        if commands[i].name == [] {
          return false;
        }
        if commands[i].on {
          EnableTrace(commands[i].name);
        } else {
          DisableTrace(commands[i].name);
        }
      }
      assert commands[..|commands|] == commands;
      return true;
    }
  }

  ghost function Applied(flags: map<Name, bool>, commands: seq<Command>): map<Name, bool> {
    if commands == [] then flags
    else
      var last := commands[|commands| - 1];
      Applied(flags, commands[..|commands| - 1])[last.name := last.on]
  }

  /** A cell handed out before a batch of commands shows, after it, what the last command for its function said. */
  method HandedOutCellFollows(table: FlagTable, name: Name, commands: seq<Command>) returns (cell: FlagCell, ok: bool)
    requires table.Valid()
    modifies table, table.cells.Values
    ensures ok ==> name in table.cells && table.cells[name] == cell
    ensures ok && Last(commands, name).Some? ==> cell.on == Last(commands, name).value
    ensures ok && Last(commands, name).None? ==>
              cell.on == if name in old(table.cells) then old(table.View())[name] else old(table.defaultOn)
  {
    cell := table.TracingFlag(name);
    ghost var before := table.View();
    ok := table.Handle(commands);
    AppliedIsLast(before, commands, name);
    if ok {
      assert cell.on == table.View()[name];
    }
  }

  // ---------- what a queue of commands amounts to ----------

  /** The last word of the queue on the function. */
  function Last(commands: seq<Command>, name: Name): Option<bool> {
    if commands == [] then None
    else if commands[|commands| - 1].name == name then Some(commands[|commands| - 1].on)
    else Last(commands[..|commands| - 1], name)
  }

  lemma {:induction false} AppliedIsLast(flags: map<Name, bool>, commands: seq<Command>, name: Name)
    ensures Last(commands, name).Some? ==>
              name in Applied(flags, commands) && Applied(flags, commands)[name] == Last(commands, name).value
    ensures Last(commands, name).None? ==>
              (name in Applied(flags, commands) <==> name in flags)
              && (name in flags ==> Applied(flags, commands)[name] == flags[name])
  {
    if commands != [] {
      AppliedIsLast(flags, commands[..|commands| - 1], name);
    }
  }

  lemma {:induction false} LastAppend(a: seq<Command>, b: seq<Command>, name: Name)
    ensures Last(a + b, name) == if Last(b, name).Some? then Last(b, name) else Last(a, name)
  {
    if b == [] {
      assert a + b == a;
    } else {
      assert (a + b)[..|a + b| - 1] == a + b[..|b| - 1];
      LastAppend(a, b[..|b| - 1], name);
    }
  }

  /** One command per function of the symbol table. */
  function Expand(funcs: seq<GoFunc>, targets: seq<Name>): seq<Command> {
    seq(|funcs|, i requires 0 <= i < |funcs| => Command(funcs[i].name, funcs[i].name in targets))
  }

  predicate Known(funcs: seq<GoFunc>, name: Name) {
    exists i :: 0 <= i < |funcs| && funcs[i].name == name
  }

  lemma {:induction false} LastExpanded(funcs: seq<GoFunc>, targets: seq<Name>, name: Name)
    requires Known(funcs, name)
    ensures Last(Expand(funcs, targets), name) == Some(name in targets)
  {
    var n := |funcs| - 1;
    assert Expand(funcs, targets)[..n] == Expand(funcs[..n], targets);
    if funcs[n].name != name {
      var i :| 0 <= i < |funcs| && funcs[i].name == name;
      assert funcs[..n][i].name == name;
      LastExpanded(funcs[..n], targets, name);
    }
  }

  /** The worker's two nested loops. */
  method SyncCommands(funcs: seq<GoFunc>, targets: seq<Name>) returns (commands: seq<Command>)
    ensures commands == Expand(funcs, targets)
  {
    commands := [];
    for i := 0 to |funcs|
      invariant commands == Expand(funcs, targets)[..i]
    {
      var found, j := false, 0;
      while j < |targets| && !found
        invariant 0 <= j <= |targets|
        invariant found <==> funcs[i].name in targets[..j]
      {
        found := funcs[i].name == targets[j];
        j := j + 1;
      }
      assert found ==> funcs[i].name in targets;
      assert !found ==> targets[..j] == targets;
      commands := commands + [Command(funcs[i].name, found)];
    }
  }

  // ---------- the path from an update to the flags ----------

  const CHANNEL_SIZE := 10

  /** `latest` is the target list of the newest version, None until the worker's callback has been told of one.
      `notices` is the info channel, `expanding` the commands of the notice being worked on and not yet queued,
      `queued` the packet channel, `wire` the connection. `dropped` names the functions whose newest sent command
      failed to go out. */
  datatype Net = Net(
    latest: Option<seq<Name>>,
    notices: seq<seq<Name>>,
    expanding: Option<seq<Command>>,
    queued: seq<Command>,
    wire: seq<Command>,
    flags: map<Name, bool>,
    dropped: set<Name>,
    crashed: bool)

  datatype Step =
    | Update(targets: seq<Name>)    // UpdateMetadata notifies; it waits while the info channel is full
    | Take
    | Emit
    | Done
    | Send(ok: bool)
    | Receive

  predicate Enabled(n: Net, step: Step) {
    match step
    case Update(_) => |n.notices| < CHANNEL_SIZE
    case Take => n.notices != [] && n.expanding.None?
    case Emit => n.expanding.Some? && n.expanding.value != [] && |n.queued| < CHANNEL_SIZE
    case Done => n.expanding == Some([])
    case Send(_) => n.queued != []
    case Receive => n.wire != [] && !n.crashed
  }

  function Next(funcs: seq<GoFunc>, n: Net, step: Step): Net
    requires Enabled(n, step)
  {
    match step
    case Update(targets) => n.(latest := Some(targets), notices := n.notices + [targets])
    case Take => n.(notices := n.notices[1..], expanding := Some(Expand(funcs, n.notices[0])))
    case Emit => n.(expanding := Some(n.expanding.value[1..]), queued := n.queued + [n.expanding.value[0]])
    case Done => n.(expanding := None)
    case Send(ok) =>
      var c := n.queued[0];
      if ok then n.(queued := n.queued[1..], wire := n.wire + [c], dropped := n.dropped - {c.name})
      else n.(queued := n.queued[1..], dropped := n.dropped + {c.name})
    case Receive =>
      var c := n.wire[0];
      if c.name == [] then n.(wire := n.wire[1..], crashed := true)
      else n.(wire := n.wire[1..], flags := n.flags[c.name := c.on])
  }

  function Init(flags: map<Name, bool>): Net {
    Net(None, [], None, [], [], flags, {}, false)
  }

  predicate Drained(n: Net) {
    n.notices == [] && n.expanding.None? && n.queued == [] && n.wire == []
  }

  function Working(n: Net): seq<Command> {
    if n.expanding.Some? then n.expanding.value else []
  }

  /** Every word on its way that the sender still has to give to the connection. */
  function Unsent(n: Net): seq<Command> {
    n.queued + Working(n)
  }

  /** The commands in transit agree with the newest target list. Notices not taken yet decide everything; then the
      commands still to be sent; then those on the connection; then the flags. */
  predicate Follows(n: Net, name: Name) {
    n.latest.Some? ==>
      var want := name in n.latest.value;
      if n.notices != [] then n.notices[|n.notices| - 1] == n.latest.value
      else if Last(Unsent(n), name).Some? then Last(Unsent(n), name).value == want
      else if name in n.dropped then true
      else if Last(n.wire, name).Some? then Last(n.wire, name).value == want
      else name in n.flags && n.flags[name] == want
  }

  predicate Quiet(n: Net) {
    n.latest.None? ==> n.notices == []
  }

  ghost predicate Named(funcs: seq<GoFunc>) {
    forall i :: 0 <= i < |funcs| ==> funcs[i].name != []
  }

  ghost predicate AllNamed(commands: seq<Command>) {
    forall i :: 0 <= i < |commands| ==> commands[i].name != []
  }

  /** With named functions no panic can be on its way. */
  ghost predicate Calm(n: Net) {
    !n.crashed && AllNamed(n.wire) && AllNamed(n.queued) && AllNamed(Working(n))
  }

  lemma LastFirst(commands: seq<Command>, name: Name)
    requires commands != []
    ensures Last(commands, name) ==
            if Last(commands[1..], name).Some? then Last(commands[1..], name)
            else if commands[0].name == name then Some(commands[0].on) else None
  {
    assert commands == commands[..1] + commands[1..];
    LastAppend(commands[..1], commands[1..], name);
    assert commands[..1][..0] == [];
  }

  lemma LastPlus(commands: seq<Command>, c: Command, name: Name)
    ensures Last(commands + [c], name) == if c.name == name then Some(c.on) else Last(commands, name)
  {
    assert (commands + [c])[..|commands|] == commands;
  }

  lemma TakeKeeps(funcs: seq<GoFunc>, n: Net, name: Name)
    requires Known(funcs, name) && Follows(n, name) && Enabled(n, Take)
    ensures Follows(Next(funcs, n, Take), name)
  {
    var n' := Next(funcs, n, Take);
    if |n.notices| == 1 {
      LastExpanded(funcs, n.notices[0], name);
      LastAppend(n'.queued, Working(n'), name);
    } else {
      assert n'.notices[|n'.notices| - 1] == n.notices[|n.notices| - 1];
    }
  }

  lemma EmitKeeps(funcs: seq<GoFunc>, n: Net, name: Name)
    requires Follows(n, name) && Enabled(n, Emit)
    ensures Follows(Next(funcs, n, Emit), name)
  {
    var n' := Next(funcs, n, Emit);
    assert Unsent(n') == Unsent(n);
  }

  lemma SendKeeps(funcs: seq<GoFunc>, n: Net, ok: bool, name: Name)
    requires Follows(n, name) && Enabled(n, Send(ok))
    ensures Follows(Next(funcs, n, Send(ok)), name)
  {
    var n' := Next(funcs, n, Send(ok));
    assert Unsent(n)[1..] == Unsent(n');
    LastFirst(Unsent(n), name);
    LastPlus(n.wire, n.queued[0], name);
  }

  lemma StepFollows(funcs: seq<GoFunc>, n: Net, step: Step, name: Name)
    requires Known(funcs, name) && Follows(n, name) && Quiet(n) && Enabled(n, step) && !Next(funcs, n, step).crashed
    ensures Follows(Next(funcs, n, step), name) && Quiet(Next(funcs, n, step))
  {
    match step
    case Update(_) =>
    case Take => TakeKeeps(funcs, n, name);
    case Emit => EmitKeeps(funcs, n, name);
    case Done =>
    case Send(ok) => SendKeeps(funcs, n, ok, name);
    case Receive => LastFirst(n.wire, name);
  }

  ghost predicate Reaches(funcs: seq<GoFunc>, n: Net, steps: seq<Step>, t: Net)
    decreases |steps|
  {
    if steps == [] then n == t
    else Enabled(n, steps[0]) && Reaches(funcs, Next(funcs, n, steps[0]), steps[1..], t)
  }

  lemma {:induction false} CrashStays(funcs: seq<GoFunc>, n: Net, steps: seq<Step>, t: Net)
    requires n.crashed && Reaches(funcs, n, steps, t)
    ensures t.crashed
    decreases |steps|
  {
    if steps != [] {
      CrashStays(funcs, Next(funcs, n, steps[0]), steps[1..], t);
    }
  }

  lemma {:induction false} RunFollows(funcs: seq<GoFunc>, n: Net, steps: seq<Step>, t: Net, name: Name)
    requires Known(funcs, name) && Follows(n, name) && Quiet(n) && Reaches(funcs, n, steps, t) && !t.crashed
    ensures Follows(t, name) && Quiet(t)
    decreases |steps|
  {
    if steps != [] {
      var n' := Next(funcs, n, steps[0]);
      if n'.crashed {
        CrashStays(funcs, n', steps[1..], t);
      } else {
        StepFollows(funcs, n, steps[0], name);
        RunFollows(funcs, n', steps[1..], t, name);
      }
    }
  }

  /** Over every run: once everything has drained after at least one notification, the flag of every known function is
      its membership in the newest target list, unless the newest command for it could not be sent. */
  lemma DrainedFlagsAreTargets(funcs: seq<GoFunc>, flags: map<Name, bool>, steps: seq<Step>, t: Net, name: Name)
    requires Reaches(funcs, Init(flags), steps, t) && Drained(t) && t.latest.Some? && !t.crashed
    requires Known(funcs, name) && name !in t.dropped
    ensures name in t.flags && t.flags[name] == (name in t.latest.value)
  {
    RunFollows(funcs, Init(flags), steps, t, name);
    assert Unsent(t) == [];
  }

  lemma {:induction false} NeverPanics(funcs: seq<GoFunc>, n: Net, steps: seq<Step>, t: Net)
    requires Named(funcs) && Calm(n) && Reaches(funcs, n, steps, t)
    ensures Calm(t)
    decreases |steps|
  {
    if steps != [] {
      NeverPanics(funcs, Next(funcs, n, steps[0]), steps[1..], t);
    }
  }

  // ---------- the queues do drain ----------

  function Waiting(funcs: seq<GoFunc>, notices: seq<seq<Name>>): nat {
    if notices == [] then 0 else 2 + 3 * |funcs| + Waiting(funcs, notices[1..])
  }

  function Work(funcs: seq<GoFunc>, n: Net): nat {
    Waiting(funcs, n.notices)
    + (if n.expanding.Some? then 1 + 3 * |n.expanding.value| else 0)
    + 2 * |n.queued| + |n.wire|
  }

  /** Every step but a new update brings the drained state closer, and until then such a step is possible. */
  lemma EveryStepDrains(funcs: seq<GoFunc>, n: Net, step: Step)
    requires Enabled(n, step) && !step.Update?
    ensures Work(funcs, Next(funcs, n, step)) < Work(funcs, n)
  {
  }

  lemma NotStuck(n: Net) returns (step: Step)
    requires !Drained(n) && !n.crashed
    ensures Enabled(n, step) && !step.Update?
  {
    if n.wire != [] {
      step := Receive;
    } else if n.queued != [] {
      step := Send(true);
    } else if n.expanding.Some? {
      step := if n.expanding.value == [] then Done else Emit;
    } else {
      step := Take;
    }
  }

  /** From every reachable state, letting things run without further updates reaches a drained state, and there every
      known function's flag is its membership in the newest target list. */
  lemma {:induction false} SettlesFrom(funcs: seq<GoFunc>, n: Net) returns (steps: seq<Step>, t: Net)
    requires Named(funcs) && Calm(n) && n.latest.Some?
    requires forall name :: Known(funcs, name) ==> Follows(n, name)
    ensures Reaches(funcs, n, steps, t) && Drained(t) && t.latest == n.latest
    ensures forall name :: Known(funcs, name) && name !in t.dropped ==>
              name in t.flags && t.flags[name] == (name in n.latest.value)
    decreases Work(funcs, n)
  {
    if Drained(n) {
      steps, t := [], n;
      assert Unsent(n) == [];
    } else {
      var step := NotStuck(n);
      var n' := Next(funcs, n, step);
      EveryStepDrains(funcs, n, step);
      NeverPanics(funcs, n, [step], n');
      forall name | Known(funcs, name) ensures Follows(n', name) {
        StepFollows(funcs, n, step, name);
      }
      var rest, end := SettlesFrom(funcs, n');
      steps, t := [step] + rest, end;
    }
  }
}

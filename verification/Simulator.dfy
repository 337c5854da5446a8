/** tracer/simulator: the state machine that turns start/end events into call logs. */
module Simulator {
  import opened Types

  /** The fields of StateSimulator, as a value. */
  datatype Sim = Sim(
    nextID: int,
    funcLogs: map<int, FuncLog>,
    txids: map<Uint64, int>,
    stacks: map<Int64, int>,
    goroutines: map<Int64, Goroutine>)

  const InitSim := Sim(0, map[], map[], map[], map[])

  /** How one call of Next ends. */
  datatype Outcome = Done | Panicked

  function NewLog(id: int, parentID: int, raw: RawFuncLog): FuncLog {
    FuncLog(id, raw.timestamp, NOT_ENDED, parentID, raw.frames, raw.gid)
  }

  function StartStep(s: Sim, raw: RawFuncLog): (Sim, Outcome)
  {
    var known := raw.gid in s.goroutines;
    // A missing map entry reads as the zero value in Go.
    var parentID := if !known then NOT_FOUND_PARENT else if raw.gid in s.stacks then s.stacks[raw.gid] else 0;
    var id := s.nextID;
    // The pooled frames slice cannot be extended past its capacity; nextID has already moved.
    if |raw.frames| > MAX_STACK_SIZE then (s.(nextID := id + 1), Panicked)
    else
      var gs :=
        if parentID != -1 then s.goroutines
        else if !known then s.goroutines[raw.gid := Goroutine(raw.gid, raw.timestamp, NOT_ENDED)]
        else s.goroutines[raw.gid := s.goroutines[raw.gid].(endTime := NOT_ENDED)];
      (Sim(id + 1,
           s.funcLogs[id := NewLog(id, parentID, raw)],
           s.txids[raw.txid := id],
           s.stacks[raw.gid := id],
           gs), Done)
  }

  function EndStep(s: Sim, raw: RawFuncLog): (Sim, Outcome)
  {
    if raw.gid !in s.goroutines || raw.txid !in s.txids || s.txids[raw.txid] !in s.funcLogs then (s, Panicked)
    else
      var id := s.txids[raw.txid];
      var parentID := s.funcLogs[id].parentID;
      (Sim(s.nextID,
           s.funcLogs[id := s.funcLogs[id].(endTime := raw.timestamp)],
           s.txids - {raw.txid},
           s.stacks[raw.gid := parentID],
           if parentID == -1 then s.goroutines[raw.gid := s.goroutines[raw.gid].(endTime := raw.timestamp)]
           else s.goroutines), Done)
  }

  function NextStep(s: Sim, raw: RawFuncLog): (Sim, Outcome) {
    if raw.tag == FUNC_START then StartStep(s, raw)
    else if raw.tag == FUNC_END then EndStep(s, raw)
    else (s, Panicked)
  }

  /** Clear: the logs of finished calls leave memory. */
  function ClearStep(s: Sim): Sim {
    s.(funcLogs := map id | id in s.funcLogs && !s.funcLogs[id].IsEnded() :: s.funcLogs[id])
  }

  class StateSimulator {
    var nextID: int
    var funcLogs: map<int, FuncLog>
    var txids: map<Uint64, int>
    var stacks: map<Int64, int>
    var goroutines: map<Int64, Goroutine>

    ghost function Model(): Sim
      reads this
    {
      Sim(nextID, funcLogs, txids, stacks, goroutines)
    }

    constructor ()
      ensures Model() == InitSim
    {
      nextID := 0;
      funcLogs, txids, stacks, goroutines := map[], map[], map[], map[];
    }

    method Next(raw: RawFuncLog) returns (r: Outcome)
      modifies this
      ensures (Model(), r) == NextStep(old(Model()), raw)
    {
      var isExistsGID := raw.gid in goroutines;
      if raw.tag == FUNC_START {
        var parentID := NOT_FOUND_PARENT;
        if isExistsGID {
          parentID := if raw.gid in stacks then stacks[raw.gid] else 0;
        }
        var id := nextID;
        nextID := nextID + 1;
        if |raw.frames| > MAX_STACK_SIZE {
          return Panicked;
        }
        funcLogs := funcLogs[id := NewLog(id, parentID, raw)];
        txids := txids[raw.txid := id];
        stacks := stacks[raw.gid := id];
        if !isExistsGID && parentID == -1 {
          goroutines := goroutines[raw.gid := Goroutine(raw.gid, raw.timestamp, NOT_ENDED)];
        } else if isExistsGID && parentID == -1 {
          goroutines := goroutines[raw.gid := goroutines[raw.gid].(endTime := NOT_ENDED)];
        }
      } else if raw.tag == FUNC_END {
        if !isExistsGID {
          return Panicked;
        }
        if raw.txid !in txids {
          return Panicked;
        }
        var id := txids[raw.txid];
        if id !in funcLogs {
          return Panicked;
        }
        var parentID := funcLogs[id].parentID;
        funcLogs := funcLogs[id := funcLogs[id].(endTime := raw.timestamp)];
        txids := txids - {raw.txid};
        stacks := stacks[raw.gid := parentID];
        if parentID == -1 {
          goroutines := goroutines[raw.gid := goroutines[raw.gid].(endTime := raw.timestamp)];
        }
      } else {
        return Panicked;
      }
      return Done;
    }

    /** Clear ranges over the map in some order, deleting the finished calls. */
    method Clear()
      modifies this`funcLogs
      ensures Model() == ClearStep(old(Model()))
    {
      var order := KeysInSomeOrder(funcLogs.Keys);
      for i := 0 to |order|
        invariant forall id :: id in funcLogs <==>
          id in old(funcLogs) && (id in order[..i] ==> !old(funcLogs)[id].IsEnded())
        invariant forall id :: id in funcLogs ==> funcLogs[id] == old(funcLogs)[id]
      {
        var id := order[i];
        assert id in order && id !in order[..i];
        if funcLogs[id].IsEnded() {
          funcLogs := funcLogs - {id};
        }
        assert order[..i + 1] == order[..i] + [id];
      }
      assert order[..|order|] == order;
      assert forall id :: id in old(funcLogs) ==> id in old(funcLogs).Keys && id in order;
      ghost var want := ClearStep(old(Model())).funcLogs;
      assert forall id :: id in funcLogs <==> id in want;
      assert funcLogs == want;
    }
  }

  /** order lists every element of keys exactly once: one possible iteration order of a Go map with these keys. */
  ghost predicate Enumerates(order: seq<int>, keys: set<int>) {
    && (forall k :: k in order <==> k in keys)
    && forall i, j :: 0 <= i < j < |order| ==> order[i] != order[j]
  }

  /** A Go range over a map visits every key once, in an order the program does not choose. */
  method KeysInSomeOrder(keys: set<int>) returns (order: seq<int>)
    ensures Enumerates(order, keys)
  {
    order := [];
    var rest := keys;
    while rest != {}
      invariant rest <= keys
      invariant forall k :: k in order <==> k in keys && k !in rest
      invariant forall i, j :: 0 <= i < j < |order| ==> order[i] != order[j]
      decreases |rest|
    {
      ghost var some := SomeElement(rest);
      var k :| k in rest;
      rest := rest - {k};
      order := order + [k];
    }
  }
}

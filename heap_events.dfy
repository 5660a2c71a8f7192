/**
  Replay of recorded heap calls.  A backdrop keeps the table from the heap
  handles seen in the trace to the heaps created live during replay.
  Playing a recorded HeapCreate creates a live heap and, when that succeeds,
  maps the recorded handle to it; playing a recorded HeapDestroy destroys
  the live heap the recorded handle maps to and checks that the live call
  fared as the recorded one did.  The live Windows calls are not made: their
  results are parameters, and the backdrop logs the arguments it passed.
*/
module HeapEvents {
  import opened Common
  import opened Bytes

  /** A 32-bit heap handle; 0 is the null handle. */
  type Handle = u32

  const NullHandle: Handle := 0

  /** The arguments of one live HeapCreate call. */
  datatype CreateArgs = CreateArgs(options: u32, initialSize: u32, maximumSize: u32)

  /** The outcome of replaying one event: whether it succeeded, and the table afterwards. */
  datatype Replay = Replay(ok: bool, heaps: map<Handle, Handle>)

  /** No two trace handles map to the same live heap. */
  predicate Injective(m: map<Handle, Handle>)
  {
    forall t, u :: t in m && u in m && t != u ==> m[t] != m[u]
  }

  /** Adds trace -> live unless either handle is already in the table. */
  function AddMapping(m: map<Handle, Handle>, trace: Handle, live: Handle): (r: Replay)
    ensures r.ok <==> trace !in m && live !in m.Values
    ensures r.ok ==> r.heaps == m[trace := live]
    ensures !r.ok ==> r.heaps == m
  {
    if trace in m || live in m.Values then Replay(false, m) else Replay(true, m[trace := live])
  }

  /** Removes trace -> live when exactly that pair is in the table. */
  function RemoveMapping(m: map<Handle, Handle>, trace: Handle, live: Handle): (r: Replay)
    ensures r.ok <==> trace in m && m[trace] == live
    ensures r.ok ==> r.heaps == m - {trace}
    ensures !r.ok ==> r.heaps == m
  {
    if trace in m && m[trace] == live then Replay(true, m - {trace}) else Replay(false, m)
  }

  lemma AddMappingKeepsInjective(m: map<Handle, Handle>, trace: Handle, live: Handle)
    requires Injective(m)
    ensures Injective(AddMapping(m, trace, live).heaps)
  {
    var r := AddMapping(m, trace, live);
    if r.ok {
      forall t, u | t in r.heaps && u in r.heaps && t != u
        ensures r.heaps[t] != r.heaps[u]
      {
        if t != trace && u != trace {
          assert r.heaps[t] == m[t] && r.heaps[u] == m[u];
        } else if t == trace {
          assert m[u] in m.Values;
        } else {
          assert m[t] in m.Values;
        }
      }
    }
  }

  /**
    A recorded HeapCreate that returned `traceHeap`, replayed when the live
    call returned `liveHeap`: it succeeds when both calls succeeded and the
    pair could be mapped, or when both failed.
  */
  function PlayCreate(m: map<Handle, Handle>, traceHeap: Handle, liveHeap: Handle): (r: Replay)
    ensures r.ok <==>
      || (liveHeap == NullHandle && traceHeap == NullHandle)
      || (liveHeap != NullHandle && traceHeap != NullHandle && traceHeap !in m && liveHeap !in m.Values)
    ensures r.ok && liveHeap != NullHandle ==> r.heaps == m[traceHeap := liveHeap]
    ensures !(r.ok && liveHeap != NullHandle) ==> r.heaps == m
  {
    if (liveHeap == NullHandle) != (traceHeap == NullHandle) then Replay(false, m)
    else if liveHeap == NullHandle then Replay(true, m)
    else AddMapping(m, traceHeap, liveHeap)
  }

  /**
    A recorded HeapDestroy of `traceHeap` that returned `traceSucceeded`,
    replayed when the live call returned `liveSucceeded`: it succeeds when
    the handle is mapped and the live result matches the recorded one, and
    only a consistent success removes the mapping.
  */
  function PlayDestroy(m: map<Handle, Handle>, traceHeap: Handle, traceSucceeded: bool, liveSucceeded: bool)
    : (r: Replay)
    ensures r.ok <==> traceHeap in m && liveSucceeded == traceSucceeded
    ensures r.ok && traceSucceeded ==> r.heaps == m - {traceHeap}
    ensures !(r.ok && traceSucceeded) ==> r.heaps == m
  {
    if traceHeap !in m then Replay(false, m)
    else if liveSucceeded != traceSucceeded then Replay(false, m)
    else if liveSucceeded then RemoveMapping(m, traceHeap, m[traceHeap])
    else Replay(true, m)
  }

  /** Playing either kind of event keeps the table one-to-one. */
  lemma PlayKeepsInjective(m: map<Handle, Handle>, traceHeap: Handle, liveHeap: Handle,
                           traceSucceeded: bool, liveSucceeded: bool)
    requires Injective(m)
    ensures Injective(PlayCreate(m, traceHeap, liveHeap).heaps)
    ensures Injective(PlayDestroy(m, traceHeap, traceSucceeded, liveSucceeded).heaps)
  {
    AddMappingKeepsInjective(m, traceHeap, liveHeap);
  }

  /**
    A heap that is created and then destroyed, both successfully in the trace
    and live, leaves the table as it was.
  */
  lemma CreateThenDestroy(m: map<Handle, Handle>, traceHeap: Handle, liveHeap: Handle)
    requires traceHeap != NullHandle && liveHeap != NullHandle
    requires traceHeap !in m && liveHeap !in m.Values
    ensures var created := PlayCreate(m, traceHeap, liveHeap);
      var destroyed := PlayDestroy(created.heaps, traceHeap, true, true);
      created.ok && destroyed.ok && destroyed.heaps == m
  {
    var created := PlayCreate(m, traceHeap, liveHeap);
    assert created.heaps == m[traceHeap := liveHeap];
    assert created.heaps - {traceHeap} == m;
  }

  /** The backdrop: the heap table and the live calls made so far. */
  class HeapBackdrop {
    /** Trace heap handle -> live heap handle. */
    var heapMap: map<Handle, Handle>
    /** The arguments of every live HeapCreate, oldest first. */
    var createCalls: seq<CreateArgs>
    /** The live heap of every live HeapDestroy, oldest first. */
    var destroyCalls: seq<Handle>

    ghost predicate Valid()
      reads this
    {
      Injective(heapMap)
    }

    constructor()
      ensures Valid() && heapMap == map[] && createCalls == [] && destroyCalls == []
    {
      heapMap := map[];
      createCalls := [];
      destroyCalls := [];
    }

    /** The live heap that `trace` maps to, if any. */
    function GetLiveFromTrace(trace: Handle): (r: Option<Handle>)
      reads this
      ensures r.Some? <==> trace in heapMap
      ensures r.Some? ==> r.value == heapMap[trace]
    {
      if trace in heapMap then Some(heapMap[trace]) else None
    }

    method AddHeapMapping(trace: Handle, live: Handle) returns (ok: bool)
      requires Valid()
      modifies this
      ensures Valid()
      ensures Replay(ok, heapMap) == AddMapping(old(heapMap), trace, live)
      ensures createCalls == old(createCalls) && destroyCalls == old(destroyCalls)
    {
      AddMappingKeepsInjective(heapMap, trace, live);
      var r := AddMapping(heapMap, trace, live);
      ok, heapMap := r.ok, r.heaps;
    }
  }

  /** A recorded HeapCreate call and the handle it returned. */
  class HeapCreateEvent {
    const options: u32
    const initialSize: u32
    const maximumSize: u32
    /** The heap handle the recorded call returned. */
    const traceHeap: Handle

    constructor(options: u32, initialSize: u32, maximumSize: u32, traceHeap: Handle)
      ensures this.options == options && this.initialSize == initialSize
      ensures this.maximumSize == maximumSize && this.traceHeap == traceHeap
    {
      this.options := options;
      this.initialSize := initialSize;
      this.maximumSize := maximumSize;
      this.traceHeap := traceHeap;
    }

    /**
      Replays the call: the live HeapCreate gets the recorded arguments and
      returns `liveHeap`.
    */
    method Play(backdrop: HeapBackdrop, liveHeap: Handle) returns (ok: bool)
      requires backdrop.Valid()
      modifies backdrop
      ensures backdrop.Valid()
      ensures backdrop.createCalls == old(backdrop.createCalls) + [CreateArgs(options, initialSize, maximumSize)]
      ensures backdrop.destroyCalls == old(backdrop.destroyCalls)
      ensures Replay(ok, backdrop.heapMap) == PlayCreate(old(backdrop.heapMap), traceHeap, liveHeap)
    {
      backdrop.createCalls := backdrop.createCalls + [CreateArgs(options, initialSize, maximumSize)];
      if (liveHeap == NullHandle) != (traceHeap == NullHandle) {
        return false;
      }
      if liveHeap == NullHandle {
        return true;
      }
      ok := backdrop.AddHeapMapping(traceHeap, liveHeap);
    }
  }

  /** A recorded HeapDestroy call and its recorded result. */
  class HeapDestroyEvent {
    /** The argument of the recorded call. */
    const traceHeap: Handle
    /** The recorded return value. */
    const traceSucceeded: bool

    constructor(traceHeap: Handle, traceSucceeded: bool)
      ensures this.traceHeap == traceHeap && this.traceSucceeded == traceSucceeded
    {
      this.traceHeap := traceHeap;
      this.traceSucceeded := traceSucceeded;
    }

    /**
      Replays the call: the live HeapDestroy gets the live heap the recorded
      handle maps to, and returns `liveSucceeded`.  An unmapped handle fails
      without a live call.
    */
    method Play(backdrop: HeapBackdrop, liveSucceeded: bool) returns (ok: bool)
      requires backdrop.Valid()
      modifies backdrop
      ensures backdrop.Valid()
      ensures backdrop.createCalls == old(backdrop.createCalls)
      ensures traceHeap in old(backdrop.heapMap) ==>
        backdrop.destroyCalls == old(backdrop.destroyCalls) + [old(backdrop.heapMap)[traceHeap]]
      ensures traceHeap !in old(backdrop.heapMap) ==> backdrop.destroyCalls == old(backdrop.destroyCalls)
      ensures Replay(ok, backdrop.heapMap) == PlayDestroy(old(backdrop.heapMap), traceHeap, traceSucceeded, liveSucceeded)
    {
      var live := backdrop.GetLiveFromTrace(traceHeap);
      if live.None? {
        return false;
      }
      backdrop.destroyCalls := backdrop.destroyCalls + [live.value];
      if liveSucceeded != traceSucceeded {
        return false;
      }
      if liveSucceeded {
        PlayKeepsInjective(backdrop.heapMap, traceHeap, NullHandle, traceSucceeded, liveSucceeded);
        backdrop.heapMap := backdrop.heapMap - {traceHeap};
      }
      return true;
    }
  }

  // ------------------------------------------------------- replay scenarios

  /** The live and recorded handles of the scenarios below. */
  const ScenarioLiveHeap: Handle := 0x4197_FC83
  const ScenarioTraceHeap: Handle := 0xAB12_CD34

  /**
    A recorded HeapCreate(0, 1, 1000) whose live call succeeds: the replay
    succeeds, passes the recorded arguments and maps the recorded heap.
  */
  method CreateSucceeds() returns (ok: bool, heaps: map<Handle, Handle>, calls: seq<CreateArgs>)
    ensures ok && heaps == map[ScenarioTraceHeap := ScenarioLiveHeap]
    ensures calls == [CreateArgs(0, 1, 1000)]
  {
    var backdrop := new HeapBackdrop();
    var event := new HeapCreateEvent(0, 1, 1000, ScenarioTraceHeap);
    ok := event.Play(backdrop, ScenarioLiveHeap);
    heaps, calls := backdrop.heapMap, backdrop.createCalls;
  }

  /** The same call failing live: the replay fails and maps nothing. */
  method CreateFails() returns (ok: bool, heaps: map<Handle, Handle>)
    ensures !ok && heaps == map[]
  {
    var backdrop := new HeapBackdrop();
    var event := new HeapCreateEvent(0, 1, 1000, ScenarioTraceHeap);
    ok := event.Play(backdrop, NullHandle);
    heaps := backdrop.heapMap;
  }

  /**
    Replays a recorded HeapDestroy of the mapped scenario heap; `calls` are
    the live heaps handed to the live HeapDestroy.
  */
  method DestroyScenario(traceSucceeded: bool, liveSucceeded: bool)
    returns (ok: bool, heaps: map<Handle, Handle>, calls: seq<Handle>)
    ensures calls == [ScenarioLiveHeap]
    ensures ok <==> traceSucceeded == liveSucceeded
    ensures heaps == if ok && traceSucceeded then map[] else map[ScenarioTraceHeap := ScenarioLiveHeap]
  {
    var backdrop := new HeapBackdrop();
    var added := backdrop.AddHeapMapping(ScenarioTraceHeap, ScenarioLiveHeap);
    var event := new HeapDestroyEvent(ScenarioTraceHeap, traceSucceeded);
    ok := event.Play(backdrop, liveSucceeded);
    heaps, calls := backdrop.heapMap, backdrop.destroyCalls;
    assert map[ScenarioTraceHeap := ScenarioLiveHeap] - {ScenarioTraceHeap} == map[];
  }
}

/**
  The parse engine's bookkeeping: one module address space per process, the
  processes whose process-ended event is reported, and a sticky error flag.
  Every record is applied to this state first and then handed, as
  notifications, to the event handler, so the handler always sees address
  spaces that already agree with the event it receives.
*/
module ParseEngines {
  import opened Common
  import opened Bytes
  import opened TraceDefs
  import opened TracePayloads
  import opened ModuleSpaces

  /** One call of the event handler. */
  datatype Notification =
    | OnProcessStarted(time: u32, pid: u32)
    | OnProcessEnded(time: u32, pid: u32)
    | OnFunctionEntry(time: u32, pid: u32, tid: u32, callee: u32)
    | OnFunctionExit(time: u32, pid: u32, tid: u32, callee: u32)
    | OnModuleEvent(time: u32, pid: u32, tid: u32, kind: TraceEventType, info: ModuleInfo)
    | OnInvocationBatch(time: u32, pid: u32, tid: u32, invocations: seq<InvocationInfo>)
    | OnThreadName(time: u32, pid: u32, tid: u32, name: seq<byte>)
    | OnBasicBlockFrequency(time: u32, pid: u32, tid: u32, data: BasicBlockFrequencyData)
    | OnUnknownEvent(time: u32, pid: u32, tid: u32, tag: u16, payload: seq<byte>)

  /** How a record fared. */
  datatype Outcome =
    | Consistent
      // a module registration or removal was rejected; the record is still forwarded
    | ModuleConflict
      // the payload does not decode; nothing is forwarded
    | Malformed(error: FormatError)

  /** The fields `processes_`, `matching_process_ids_` and `error_occurred_`. */
  datatype EngineState = EngineState(processes: map<u32, ModuleSpace>, matching: set<u32>, errorOccurred: bool)

  /** The effect of one record: the new state, how it fared, and what the handler is told. */
  datatype Step = Step(state: EngineState, outcome: Outcome, notes: seq<Notification>)

  /** The effect of a run of records: the new state, whether all of them were consumed, the notifications. */
  datatype Run = Run(state: EngineState, ok: bool, notes: seq<Notification>)

  /** Every process's address space is disjoint. */
  predicate ValidState(st: EngineState)
  {
    forall pid :: pid in st.processes ==> Disjoint(st.processes[pid])
  }

  /** The module at `addr` in the space of `pid`; none for an unknown process. */
  function Resolve(st: EngineState, pid: u32, addr: int): (r: Option<ModuleInfo>)
    ensures r.Some? ==> pid in st.processes && r.value in st.processes[pid] && Contains(r.value, addr)
    ensures r.None? <==> pid !in st.processes || forall m :: m in st.processes[pid] ==> !Contains(m, addr)
  {
    if pid in st.processes then Find(st.processes[pid], addr) else None
  }

  function SpaceOf(st: EngineState, pid: u32): ModuleSpace
  {
    if pid in st.processes then st.processes[pid] else []
  }

  /** The state of `pid`, created empty when it is not yet known (`processes_[pid]`). */
  function Touch(st: EngineState, pid: u32): (r: EngineState)
    ensures pid in r.processes && SpaceOf(r, pid) == SpaceOf(st, pid)
  {
    if pid in st.processes then st else st.(processes := st.processes[pid := []])
  }

  /** Drops everything known about an ended process. */
  function Forget(st: EngineState, pid: u32): EngineState
  {
    st.(processes := st.processes - {pid}, matching := st.matching - {pid})
  }

  /** Records that code of the instrumented module ran in `pid`. */
  function MarkedMatching(st: EngineState, pid: u32): EngineState
  {
    Touch(st, pid).(matching := st.matching + {pid})
  }

  function Register(st: EngineState, pid: u32, m: ModuleInfo): (EngineState, bool)
  {
    var (space, ok) := AddModule(SpaceOf(st, pid), m);
    (st.(processes := st.processes[pid := space]), ok)
  }

  function Unregister(st: EngineState, pid: u32, m: ModuleInfo): (EngineState, bool)
  {
    var (space, ok) := RemoveModule(SpaceOf(st, pid), m);
    (st.(processes := st.processes[pid := space]), ok)
  }

  /** The module a module event reports: its image path is the `module_exe` field. */
  function ToModuleInfo(m: ModuleData): ModuleInfo
  {
    ModuleInfo(m.baseAddress, m.baseSize, m.checksum, m.timeDateStamp, m.exe)
  }

  /** A batch of entries, re-expanded into one entry notification per call. */
  function BatchEntries(time: u32, pid: u32, tid: u32, calls: seq<u32>): (r: seq<Notification>)
    ensures |r| == |calls|
    ensures forall i :: 0 <= i < |calls| ==> r[i] == OnFunctionEntry(time, pid, tid, calls[i])
  {
    if calls == [] then []
    else [OnFunctionEntry(time, pid, tid, calls[0])] + BatchEntries(time, pid, tid, calls[1..])
  }

  /** The effect of a module event: attach and module-load register, detach unregisters. */
  function ApplyModuleEvent(st: EngineState, pid: u32, tid: u32, time: u32, kind: TraceEventType, m: ModuleData)
    : (r: Step)
    ensures r.notes == [OnModuleEvent(time, pid, tid, kind, ToModuleInfo(m))]
    ensures r.outcome.Consistent? || r.outcome.ModuleConflict?
    ensures r.outcome.ModuleConflict? ==> kind.ProcessAttachEvent? || kind.ModuleEvent? || kind.ProcessDetachEvent?
    ensures pid in r.state.processes && r.state.matching == st.matching
    ensures r.state.errorOccurred == st.errorOccurred
  {
    var info := ToModuleInfo(m);
    var notes := [OnModuleEvent(time, pid, tid, kind, info)];
    if kind.ProcessAttachEvent? || kind.ModuleEvent? then
      var (st', ok) := Register(st, pid, info);
      Step(st', if ok then Consistent else ModuleConflict, notes)
    else if kind.ProcessDetachEvent? then
      var (st', ok) := Unregister(st, pid, info);
      Step(st', if ok then Consistent else ModuleConflict, notes)
    else Step(Touch(st, pid), Consistent, notes)
  }

  /** The effect of a decoded event on the registry, before the error flag. */
  function Apply(st: EngineState, pid: u32, tid: u32, time: u32, e: TraceEvent): (r: Step)
    ensures r.state.errorOccurred == st.errorOccurred
    ensures r.outcome.Consistent? || (r.outcome.ModuleConflict? && e.ModuleChange?)
    ensures pid in r.state.processes <==> !e.ProcessEnd?
    ensures e.FunctionEntry? || e.FunctionExit? || e.BatchEntry? ==> pid in r.state.matching
  {
    match e
    case ProcessStart => Step(Touch(st, pid), Consistent, [OnProcessStarted(time, pid)])
    case ProcessEnd =>
      Step(Forget(st, pid), Consistent, if pid in st.matching then [OnProcessEnded(time, pid)] else [])
    case FunctionEntry(f) => Step(MarkedMatching(st, pid), Consistent, [OnFunctionEntry(time, pid, tid, f)])
    case FunctionExit(f) => Step(MarkedMatching(st, pid), Consistent, [OnFunctionExit(time, pid, tid, f)])
    case BatchEntry(b) => Step(MarkedMatching(st, pid), Consistent, BatchEntries(time, pid, b.threadId, b.calls))
    case ModuleChange(kind, m) => ApplyModuleEvent(st, pid, tid, time, kind, m)
    case BatchInvocations(xs) => Step(Touch(st, pid), Consistent, [OnInvocationBatch(time, pid, tid, xs)])
    case ThreadNaming(name) => Step(Touch(st, pid), Consistent, [OnThreadName(time, pid, tid, name)])
    case BlockFrequencies(d) => Step(Touch(st, pid), Consistent, [OnBasicBlockFrequency(time, pid, tid, d)])
  }

  /**
    Dispatches one record of process `pid`, logged by thread `tid`, whose
    payload decoded to `decoded`.  An unknown type tag is forwarded as it
    is; a payload that does not decode is not forwarded; both that and a
    rejected module change set the sticky error flag.
  */
  function DispatchDecoded(st: EngineState, pid: u32, tid: u32, rec: RawRecord,
                           decoded: Result<TraceEvent, FormatError>): (r: Step)
    ensures r.outcome.Malformed? <==> decoded.Err? && decoded.error != UnknownEventType
    ensures r.outcome.Malformed? ==> r.notes == []
  {
    var time := rec.prefix.timestamp;
    match decoded
    case Err(UnknownEventType) =>
      Step(Touch(st, pid), Consistent, [OnUnknownEvent(time, pid, tid, rec.prefix.tag, rec.payload)])
    case Err(e) => Step(st.(errorOccurred := true), Malformed(e), [])
    case Ok(e) =>
      var a := Apply(st, pid, tid, time, e);
      a.(state := a.state.(errorOccurred := a.state.errorOccurred || !a.outcome.Consistent?))
  }

  /** Dispatches one record of process `pid`, logged by thread `tid`. */
  function Dispatch(st: EngineState, pid: u32, tid: u32, rec: RawRecord): (r: Step)
    ensures var d := DecodeEvent(rec.prefix.tag, rec.payload);
      r.outcome.Malformed? <==> d.Err? && d.error != UnknownEventType
    ensures r.outcome.Malformed? ==> r.notes == [] && r.state.errorOccurred
  {
    DispatchDecoded(st, pid, tid, rec, DecodeEvent(rec.prefix.tag, rec.payload))
  }

  // ------------------------------------------------- properties of dispatch

  lemma ApplyKeepsValid(st: EngineState, pid: u32, tid: u32, time: u32, e: TraceEvent)
    requires ValidState(st)
    ensures ValidState(Apply(st, pid, tid, time, e).state)
  {
    if e.ModuleChange? {
      var info := ToModuleInfo(e.data);
      AddKeepsDisjoint(SpaceOf(st, pid), info);
      RemoveKeepsDisjoint(SpaceOf(st, pid), info);
    }
  }

  /** Dispatch keeps every process's address space disjoint. */
  lemma DispatchKeepsValid(st: EngineState, pid: u32, tid: u32, rec: RawRecord,
                           decoded: Result<TraceEvent, FormatError>)
    requires ValidState(st)
    ensures ValidState(DispatchDecoded(st, pid, tid, rec, decoded).state)
  {
    if decoded.Ok? {
      ApplyKeepsValid(st, pid, tid, rec.prefix.timestamp, decoded.value);
    }
  }

  /** The error flag is set exactly by a failed record, and never cleared. */
  lemma DispatchErrorFlag(st: EngineState, pid: u32, tid: u32, rec: RawRecord,
                          decoded: Result<TraceEvent, FormatError>)
    ensures var d := DispatchDecoded(st, pid, tid, rec, decoded);
      d.state.errorOccurred == (st.errorOccurred || !d.outcome.Consistent?)
  {
    if decoded.Ok? {
      assert Apply(st, pid, tid, rec.prefix.timestamp, decoded.value).state.errorOccurred == st.errorOccurred;
    }
  }

  /**
    A process-ended notification is only ever about the record's own process,
    and only when that process was matching.
  */
  lemma ProcessEndedOnlyForMatching(st: EngineState, pid: u32, tid: u32, rec: RawRecord,
                                     decoded: Result<TraceEvent, FormatError>, n: Notification)
    requires n in DispatchDecoded(st, pid, tid, rec, decoded).notes && n.OnProcessEnded?
    ensures n.pid == pid && pid in st.matching
  {
    if decoded.Ok? {
      ApplyProcessEnded(st, pid, tid, rec.prefix.timestamp, decoded.value, n);
    }
  }

  lemma ApplyProcessEnded(st: EngineState, pid: u32, tid: u32, time: u32, e: TraceEvent, n: Notification)
    requires n in Apply(st, pid, tid, time, e).notes && n.OnProcessEnded?
    ensures e.ProcessEnd? && n.pid == pid && pid in st.matching
  {
  }

  /** A process-ended record of a matching process is reported, and forgets the process. */
  lemma ProcessEndedReported(st: EngineState, pid: u32, tid: u32, rec: RawRecord)
    requires TypeOfTag(rec.prefix.tag) == Some(ProcessEnded)
    ensures var d := Dispatch(st, pid, tid, rec);
      && d.outcome == Consistent
      && d.notes == (if pid in st.matching then [OnProcessEnded(rec.prefix.timestamp, pid)] else [])
      && pid !in d.state.processes && pid !in d.state.matching
  {
  }

  /** `st'` agrees with `st` on every process other than `pid`. */
  ghost predicate SameElsewhere(st: EngineState, st': EngineState, pid: u32)
  {
    forall p :: p != pid ==>
      && (p in st'.processes <==> p in st.processes)
      && (p in st.processes ==> st'.processes[p] == st.processes[p])
      && (p in st'.matching <==> p in st.matching)
  }

  lemma ApplyKeepsOtherProcesses(st: EngineState, pid: u32, tid: u32, time: u32, e: TraceEvent)
    ensures SameElsewhere(st, Apply(st, pid, tid, time, e).state, pid)
  {
  }

  /** Dispatching a record of one process leaves every other process as it was. */
  lemma DispatchKeepsOtherProcesses(st: EngineState, pid: u32, tid: u32, rec: RawRecord,
                                    decoded: Result<TraceEvent, FormatError>)
    ensures SameElsewhere(st, DispatchDecoded(st, pid, tid, rec, decoded).state, pid)
  {
    if decoded.Ok? {
      ApplyKeepsOtherProcesses(st, pid, tid, rec.prefix.timestamp, decoded.value);
    }
  }

  /**
    A process-attach record that registers its module makes every address of
    that module resolve to it in the record's process.
  */
  lemma AttachResolves(st: EngineState, pid: u32, tid: u32, rec: RawRecord, decoded: Result<TraceEvent, FormatError>,
                       m: ModuleData, addr: int)
    requires ValidState(st)
    requires decoded == Ok(ModuleChange(ProcessAttachEvent, m))
    requires DispatchDecoded(st, pid, tid, rec, decoded).outcome == Consistent
    requires Contains(ToModuleInfo(m), addr)
    ensures Resolve(DispatchDecoded(st, pid, tid, rec, decoded).state, pid, addr) == Some(ToModuleInfo(m))
  {
    var info := ToModuleInfo(m);
    if pid in st.processes {
      AddResolves(st.processes[pid], info, addr);
    } else {
      AddResolves([], info, addr);
    }
  }

  /** After a process-detach record removes its module, no address of it resolves. */
  lemma DetachUnresolves(st: EngineState, pid: u32, tid: u32, rec: RawRecord, decoded: Result<TraceEvent, FormatError>,
                         m: ModuleData, addr: int)
    requires ValidState(st)
    requires decoded == Ok(ModuleChange(ProcessDetachEvent, m))
    requires DispatchDecoded(st, pid, tid, rec, decoded).outcome == Consistent
    requires Contains(ToModuleInfo(m), addr)
    ensures Resolve(DispatchDecoded(st, pid, tid, rec, decoded).state, pid, addr) == None
  {
    var info := ToModuleInfo(m);
    RemoveUnresolves(SpaceOf(st, pid), info, addr);
  }

  // ---------------------------------------------------------- consumption

  /**
    The records of one segment's data, dispatched in stored order.  A record
    that does not fit, or whose payload does not decode, sets the error flag
    and abandons the rest of the source.
  */
  function ConsumeRecords(st: EngineState, pid: u32, tid: u32, data: seq<byte>): Run
    decreases |data|
  {
    if data == [] then Run(st, true, [])
    else
      match DecodeRecord(data)
      case Err(_) => Run(st.(errorOccurred := true), false, [])
      case Ok((rec, used)) =>
        var d := Dispatch(st, pid, tid, rec);
        if d.outcome.Malformed? then Run(d.state, false, d.notes)
        else
          var rest := ConsumeRecords(d.state, pid, tid, data[used..]);
          rest.(notes := d.notes + rest.notes)
  }

  /** One record consumed: dispatched, then the rest unless it was malformed. */
  lemma ConsumeRecordsStep(st: EngineState, pid: u32, tid: u32, data: seq<byte>, rec: RawRecord, used: nat)
    requires DecodeRecord(data) == Ok((rec, used))
    ensures 0 < used <= |data|
    ensures var d := Dispatch(st, pid, tid, rec);
      && (d.outcome.Malformed? ==> ConsumeRecords(st, pid, tid, data) == Run(d.state, false, d.notes))
      && (!d.outcome.Malformed? ==>
            var rest := ConsumeRecords(d.state, pid, tid, data[used..]);
            ConsumeRecords(st, pid, tid, data) == rest.(notes := d.notes + rest.notes))
  {
  }

  /**
    The segments of one source, decoded one at a time from the bytes after
    its header and consumed in file order.  A segment that does not decode
    (a segment_length that runs past the end of the file, say) sets the error
    flag and abandons the rest of the source, as a failing record does.
  */
  function ConsumeSegments(st: EngineState, pid: u32, blockSize: nat, body: seq<byte>): Run
    requires blockSize > 0
    decreases |body|
  {
    if body == [] then Run(st, true, [])
    else
      match DecodeSegment(body, blockSize)
      case Err(_) => Run(st.(errorOccurred := true), false, [])
      case Ok((g, used)) =>
        var first := ConsumeRecords(st, pid, g.threadId, g.data);
        if !first.ok then first
        else
          var rest := ConsumeSegments(first.state, pid, blockSize, body[used..]);
          rest.(notes := first.notes + rest.notes)
  }

  /** Already decoded segments, consumed in order until one of them fails. */
  function ConsumeSegmentSeq(st: EngineState, pid: u32, gs: seq<Segment>): Run
    decreases |gs|
  {
    if gs == [] then Run(st, true, [])
    else
      var first := ConsumeRecords(st, pid, gs[0].threadId, gs[0].data);
      if !first.ok then first
      else
        var rest := ConsumeSegmentSeq(first.state, pid, gs[1..]);
        rest.(notes := first.notes + rest.notes)
  }

  /**
    When every segment of a source decodes, consuming them one at a time is
    the same as decoding them all first and consuming the list.
  */
  lemma {:induction false} ConsumeDecodedSegments(st: EngineState, pid: u32, blockSize: nat, body: seq<byte>,
                                                  gs: seq<Segment>)
    requires blockSize > 0 && DecodeSegments(body, blockSize) == Ok(gs)
    ensures ConsumeSegments(st, pid, blockSize, body) == ConsumeSegmentSeq(st, pid, gs)
    decreases |body|
  {
    if body != [] {
      var (g, used) := DecodeSegment(body, blockSize).value;
      var tail := DecodeSegments(body[used..], blockSize).value;
      assert gs == [g] + tail;
      assert gs[0] == g && gs[1..] == tail;
      var first := ConsumeRecords(st, pid, g.threadId, g.data);
      ConsumeDecodedSegments(first.state, pid, blockSize, body[used..], tail);
    }
  }

  /** An open source: where it was opened from, its header, and the bytes of its segments. */
  datatype Source = Source(path: string, header: FileHeader, body: seq<byte>)

  /** Every open source has a usable block size. */
  predicate ValidSources(files: seq<Source>)
  {
    forall i :: 0 <= i < |files| ==> files[i].header.blockSize > 0
  }

  /** Every source in turn; a failed source does not stop the others. */
  function ConsumeFiles(st: EngineState, files: seq<Source>): Run
    requires ValidSources(files)
    decreases |files|
  {
    if files == [] then Run(st, true, [])
    else
      var f := files[0];
      var first := ConsumeSegments(st, f.header.processId, f.header.blockSize, f.body);
      var rest := ConsumeFiles(first.state, files[1..]);
      Run(rest.state, first.ok && rest.ok, first.notes + rest.notes)
  }

  lemma {:induction false} ConsumeRecordsKeepsValid(st: EngineState, pid: u32, tid: u32, data: seq<byte>)
    requires ValidState(st)
    ensures ValidState(ConsumeRecords(st, pid, tid, data).state)
    decreases |data|
  {
    if data != [] && DecodeRecord(data).Ok? {
      var (rec, used) := DecodeRecord(data).value;
      DispatchKeepsValid(st, pid, tid, rec, DecodeEvent(rec.prefix.tag, rec.payload));
      ConsumeRecordsKeepsValid(Dispatch(st, pid, tid, rec).state, pid, tid, data[used..]);
    }
  }

  lemma {:induction false} ConsumeSegmentsKeepsValid(st: EngineState, pid: u32, blockSize: nat, body: seq<byte>)
    requires ValidState(st) && blockSize > 0
    ensures ValidState(ConsumeSegments(st, pid, blockSize, body).state)
    decreases |body|
  {
    if body != [] && DecodeSegment(body, blockSize).Ok? {
      var (g, used) := DecodeSegment(body, blockSize).value;
      ConsumeRecordsKeepsValid(st, pid, g.threadId, g.data);
      ConsumeSegmentsKeepsValid(ConsumeRecords(st, pid, g.threadId, g.data).state, pid, blockSize, body[used..]);
    }
  }

  /**
    Consuming two lists of sources one after the other is consuming their
    concatenation: every source is consumed, in order, whatever became of
    the sources before it.
  */
  lemma {:induction false} ConsumeFilesAppend(st: EngineState, fs1: seq<Source>, fs2: seq<Source>)
    requires ValidSources(fs1) && ValidSources(fs2)
    ensures ValidSources(fs1 + fs2)
    ensures var r1 := ConsumeFiles(st, fs1);
      var r2 := ConsumeFiles(r1.state, fs2);
      ConsumeFiles(st, fs1 + fs2) == Run(r2.state, r1.ok && r2.ok, r1.notes + r2.notes)
    decreases |fs1|
  {
    ValidSourcesAppend(fs1, fs2);
    if fs1 == [] {
      assert fs1 + fs2 == fs2;
      assert [] + ConsumeFiles(st, fs2).notes == ConsumeFiles(st, fs2).notes;
    } else {
      var f := fs1[0];
      var first := ConsumeSegments(st, f.header.processId, f.header.blockSize, f.body);
      var r1 := ConsumeFiles(first.state, fs1[1..]);
      assert ConsumeFiles(st, fs1) == Run(r1.state, first.ok && r1.ok, first.notes + r1.notes);
      var all := fs1 + fs2;
      assert all[0] == f && all[1..] == fs1[1..] + fs2;
      ValidSourcesAppend(fs1[1..], fs2);
      var rest := ConsumeFiles(first.state, all[1..]);
      assert ConsumeFiles(st, all) == Run(rest.state, first.ok && rest.ok, first.notes + rest.notes);
      ConsumeFilesAppend(first.state, fs1[1..], fs2);
      var r2 := ConsumeFiles(r1.state, fs2);
      assert rest == Run(r2.state, r1.ok && r2.ok, r1.notes + r2.notes);
      AppendAssoc(first.notes, r1.notes, r2.notes);
    }
  }

  lemma ValidSourcesAppend(fs1: seq<Source>, fs2: seq<Source>)
    requires ValidSources(fs1) && ValidSources(fs2)
    ensures ValidSources(fs1 + fs2)
  {
    forall i | 0 <= i < |fs1 + fs2|
      ensures (fs1 + fs2)[i].header.blockSize > 0
    {
      if i >= |fs1| {
        assert (fs1 + fs2)[i] == fs2[i - |fs1|];
      }
    }
  }

  lemma {:induction false} ConsumeFilesKeepsValid(st: EngineState, files: seq<Source>)
    requires ValidState(st) && ValidSources(files)
    ensures ValidState(ConsumeFiles(st, files).state)
    decreases |files|
  {
    if files != [] {
      var f := files[0];
      ConsumeSegmentsKeepsValid(st, f.header.processId, f.header.blockSize, f.body);
      ConsumeFilesKeepsValid(ConsumeSegments(st, f.header.processId, f.header.blockSize, f.body).state, files[1..]);
    }
  }

  /** A failed run leaves the sticky error flag set, and a set flag is never cleared. */
  lemma {:induction false} ConsumeRecordsFailureFlags(st: EngineState, pid: u32, tid: u32, data: seq<byte>)
    ensures var r := ConsumeRecords(st, pid, tid, data);
      st.errorOccurred || !r.ok ==> r.state.errorOccurred
    decreases |data|
  {
    if data != [] && DecodeRecord(data).Ok? {
      var (rec, used) := DecodeRecord(data).value;
      DispatchErrorFlag(st, pid, tid, rec, DecodeEvent(rec.prefix.tag, rec.payload));
      ConsumeRecordsFailureFlags(Dispatch(st, pid, tid, rec).state, pid, tid, data[used..]);
    }
  }

  lemma {:induction false} ConsumeSegmentsFailureFlags(st: EngineState, pid: u32, blockSize: nat, body: seq<byte>)
    requires blockSize > 0
    ensures var r := ConsumeSegments(st, pid, blockSize, body);
      st.errorOccurred || !r.ok ==> r.state.errorOccurred
    decreases |body|
  {
    if body != [] && DecodeSegment(body, blockSize).Ok? {
      var (g, used) := DecodeSegment(body, blockSize).value;
      ConsumeRecordsFailureFlags(st, pid, g.threadId, g.data);
      ConsumeSegmentsFailureFlags(ConsumeRecords(st, pid, g.threadId, g.data).state, pid, blockSize, body[used..]);
    }
  }

  /** A failed source leaves the error flag set once every source is consumed. */
  lemma {:induction false} ConsumeFilesFailureFlags(st: EngineState, files: seq<Source>)
    requires ValidSources(files)
    ensures var r := ConsumeFiles(st, files);
      st.errorOccurred || !r.ok ==> r.state.errorOccurred
    decreases |files|
  {
    if files != [] {
      var f := files[0];
      ConsumeSegmentsFailureFlags(st, f.header.processId, f.header.blockSize, f.body);
      ConsumeFilesFailureFlags(ConsumeSegments(st, f.header.processId, f.header.blockSize, f.body).state, files[1..]);
    }
  }

  // ------------------------------------------------------------ the engine

  /** A file is already open under `path`. */
  predicate IsOpen(files: seq<Source>, path: string)
  {
    exists i :: 0 <= i < |files| && files[i].path == path
  }

  /** A recognised file: its header decodes and has the major version this engine reads. */
  predicate IsRecognizedTraceFile(s: seq<byte>)
    ensures IsRecognizedTraceFile(s) ==>
      |s| >= HeaderFixedSize && s[..4] == Signature && s[6..8] == EncodeU16(TraceVersionHi)
  {
    match DecodeFileHeader(s)
    case Err(_) => false
    case Ok(h) =>
      U16Canonical(s[6..8]);
      h.versionHi == TraceVersionHi
  }

  /** An encoded header is recognised exactly when its major version is the current one, whatever its minor version. */
  lemma RecognizedVersions(h: FileHeader, rest: seq<byte>)
    requires WellFormedHeader(h)
    ensures IsRecognizedTraceFile(EncodeFileHeader(h) + rest) <==> h.versionHi == TraceVersionHi
  {
    FileHeaderRoundTrip(h, rest);
  }

  class ParseEngine {
    /** A short name by which this engine is known. */
    const name: string
    var processes: map<u32, ModuleSpace>
    var matchingProcessIds: set<u32>
    var errorOccurred: bool
    /** The open sources, by path, in the order they were opened. */
    var openFiles: seq<Source>

    function State(): EngineState
      reads this
    {
      EngineState(processes, matchingProcessIds, errorOccurred)
    }

    ghost predicate Valid()
      reads this
    {
      ValidState(State()) && ValidSources(openFiles)
    }

    constructor(name: string)
      ensures Valid() && this.name == name
      ensures processes == map[] && matchingProcessIds == {} && !errorOccurred && openFiles == []
    {
      this.name := name;
      processes := map[];
      matchingProcessIds := {};
      errorOccurred := false;
      openFiles := [];
    }

    method SetErrorOccurred(value: bool)
      requires Valid()
      modifies this
      ensures Valid()
      ensures errorOccurred == value
      ensures processes == old(processes) && matchingProcessIds == old(matchingProcessIds)
      ensures openFiles == old(openFiles)
    {
      errorOccurred := value;
    }

    /** The module at `addr` in process `pid`, or none. */
    function GetModuleInformation(pid: u32, addr: int): (r: Option<ModuleInfo>)
      reads this
      requires Valid()
      ensures r.Some? ==> pid in processes && r.value in processes[pid] && Contains(r.value, addr)
      ensures r.None? <==> pid !in processes || forall m :: m in processes[pid] ==> !Contains(m, addr)
      ensures forall m :: pid in processes && m in processes[pid] && Contains(m, addr) ==> r == Some(m)
    {
      var r := Resolve(State(), pid, addr);
      if pid in processes then
        assert forall m :: m in processes[pid] && Contains(m, addr) ==> r == Some(m) by {
          forall m | m in processes[pid] && Contains(m, addr)
            ensures r == Some(m)
          {
            FindUnique(processes[pid], m, addr);
          }
        }
        r
      else r
    }

    /** `processes_[pid]`: creates an empty space for an unknown process. */
    method TouchProcess(pid: u32)
      requires Valid()
      modifies this
      ensures Valid()
      ensures State() == Touch(old(State()), pid) && openFiles == old(openFiles)
    {
      if pid !in processes {
        processes := processes[pid := []];
      }
    }

    method AddModuleInformation(pid: u32, m: ModuleInfo) returns (ok: bool)
      requires Valid()
      modifies this
      ensures Valid()
      ensures (State(), ok) == Register(old(State()), pid, m) && openFiles == old(openFiles)
      ensures ok <==> m in old(SpaceOf(State(), pid)) || !Overlaps(old(SpaceOf(State(), pid)), m)
      ensures ok ==> forall a :: Contains(m, a) ==> GetModuleInformation(pid, a) == Some(m)
      ensures forall a :: !Contains(m, a) ==> GetModuleInformation(pid, a) == old(Resolve(State(), pid, a))
      ensures forall p, a :: p != pid ==> GetModuleInformation(p, a) == old(GetModuleInformation(p, a))
    {
      var space := if pid in processes then processes[pid] else [];
      var updated;
      updated, ok := AddModule(space, m).0, AddModule(space, m).1;
      AddKeepsDisjoint(space, m);
      processes := processes[pid := updated];
      forall a | ok && Contains(m, a)
        ensures GetModuleInformation(pid, a) == Some(m)
      {
        AddResolves(space, m, a);
      }
      forall a | !Contains(m, a)
        ensures GetModuleInformation(pid, a) == old(Resolve(State(), pid, a))
      {
        AddKeepsOthers(space, m, a);
      }
    }

    method RemoveModuleInformation(pid: u32, m: ModuleInfo) returns (ok: bool)
      requires Valid()
      modifies this
      ensures Valid()
      ensures (State(), ok) == Unregister(old(State()), pid, m) && openFiles == old(openFiles)
      ensures ok <==> m in old(SpaceOf(State(), pid))
      ensures ok ==> forall a :: Contains(m, a) ==> GetModuleInformation(pid, a) == None
      ensures forall a :: !Contains(m, a) ==> GetModuleInformation(pid, a) == old(Resolve(State(), pid, a))
      ensures forall p, a :: p != pid ==> GetModuleInformation(p, a) == old(GetModuleInformation(p, a))
    {
      var space := if pid in processes then processes[pid] else [];
      var updated;
      updated, ok := RemoveModule(space, m).0, RemoveModule(space, m).1;
      RemoveKeepsDisjoint(space, m);
      processes := processes[pid := updated];
      forall a | ok && Contains(m, a)
        ensures GetModuleInformation(pid, a) == None
      {
        RemoveUnresolves(space, m, a);
      }
      forall a | !Contains(m, a)
        ensures GetModuleInformation(pid, a) == old(Resolve(State(), pid, a))
      {
        RemoveKeepsOthers(space, m, a);
      }
    }
  
    method MarkMatching(pid: u32)
      requires Valid()
      modifies this
      ensures Valid()
      ensures State() == MarkedMatching(old(State()), pid) && openFiles == old(openFiles)
    {
      TouchProcess(pid);
      matchingProcessIds := matchingProcessIds + {pid};
    }

    /** Function entry and exit: the process ran instrumented code. */
    method DispatchEntryExitEvent(pid: u32, tid: u32, time: u32, event: TraceEvent) returns (notes: seq<Notification>)
      requires Valid() && (event.FunctionEntry? || event.FunctionExit?)
      modifies this
      ensures Valid()
      ensures Step(State(), Consistent, notes) == Apply(old(State()), pid, tid, time, event) && openFiles == old(openFiles)
    {
      MarkMatching(pid);
      if event.FunctionEntry? {
        notes := [OnFunctionEntry(time, pid, tid, event.callee)];
      } else {
        notes := [OnFunctionExit(time, pid, tid, event.callee)];
      }
    }

    /** A batch of entries, attributed to the thread the batch names. */
    method DispatchBatchEnterEvent(pid: u32, tid: u32, time: u32, batch: BatchEnterData) returns (notes: seq<Notification>)
      requires Valid()
      modifies this
      ensures Valid()
      ensures Step(State(), Consistent, notes) == Apply(old(State()), pid, tid, time, BatchEntry(batch))
      ensures openFiles == old(openFiles)
    {
      MarkMatching(pid);
      notes := BatchEntries(time, pid, batch.threadId, batch.calls);
    }

    /** Process and thread attach and detach, and module loads. */
    method DispatchModuleEvent(pid: u32, tid: u32, time: u32, kind: TraceEventType, m: ModuleData)
      returns (outcome: Outcome, notes: seq<Notification>)
      requires Valid()
      modifies this
      ensures Valid()
      ensures Step(State(), outcome, notes) == ApplyModuleEvent(old(State()), pid, tid, time, kind, m)
      ensures openFiles == old(openFiles)
    {
      var info := ToModuleInfo(m);
      outcome := Consistent;
      if kind.ProcessAttachEvent? || kind.ModuleEvent? {
        var ok := AddModuleInformation(pid, info);
        if !ok {
          outcome := ModuleConflict;
        }
      } else if kind.ProcessDetachEvent? {
        var ok := RemoveModuleInformation(pid, info);
        if !ok {
          outcome := ModuleConflict;
        }
      } else {
        TouchProcess(pid);
      }
      notes := [OnModuleEvent(time, pid, tid, kind, info)];
    }

    /** Reports the end of a matching process, and forgets the process either way. */
    method DispatchProcessEndedEvent(pid: u32, time: u32) returns (notes: seq<Notification>)
      requires Valid()
      modifies this
      ensures Valid()
      ensures Step(State(), Consistent, notes) == Apply(old(State()), pid, 0, time, ProcessEnd)
      ensures openFiles == old(openFiles)
    {
      notes := if pid in matchingProcessIds then [OnProcessEnded(time, pid)] else [];
      processes := processes - {pid};
      matchingProcessIds := matchingProcessIds - {pid};
    }

    /** The main entry point: one record of process `pid`, logged by thread `tid`. */
    method DispatchEvent(pid: u32, tid: u32, rec: RawRecord) returns (outcome: Outcome, notes: seq<Notification>)
      requires Valid()
      modifies this
      ensures Valid()
      ensures Step(State(), outcome, notes) == Dispatch(old(State()), pid, tid, rec) && openFiles == old(openFiles)
    {
      var decoded := DecodeEvent(rec.prefix.tag, rec.payload);
      outcome, notes := DispatchDecodedEvent(pid, tid, rec, decoded);
    }

    /** Dispatches a record whose payload decoded to `decoded`. */
    method DispatchDecodedEvent(pid: u32, tid: u32, rec: RawRecord, decoded: Result<TraceEvent, FormatError>)
      returns (outcome: Outcome, notes: seq<Notification>)
      requires Valid()
      modifies this
      ensures Valid()
      ensures Step(State(), outcome, notes) == DispatchDecoded(old(State()), pid, tid, rec, decoded)
      ensures openFiles == old(openFiles)
    {
      var time := rec.prefix.timestamp;
      match decoded
      case Err(UnknownEventType) =>
        TouchProcess(pid);
        outcome, notes := Consistent, [OnUnknownEvent(time, pid, tid, rec.prefix.tag, rec.payload)];
      case Err(e) =>
        errorOccurred := true;
        outcome, notes := Malformed(e), [];
      case Ok(event) =>
        match event {
          case ProcessStart =>
            TouchProcess(pid);
            outcome, notes := Consistent, [OnProcessStarted(time, pid)];
          case ProcessEnd =>
            notes := DispatchProcessEndedEvent(pid, time);
            outcome := Consistent;
          case FunctionEntry(_) =>
            notes := DispatchEntryExitEvent(pid, tid, time, event);
            outcome := Consistent;
          case FunctionExit(_) =>
            notes := DispatchEntryExitEvent(pid, tid, time, event);
            outcome := Consistent;
          case BatchEntry(batch) =>
            notes := DispatchBatchEnterEvent(pid, tid, time, batch);
            outcome := Consistent;
          case ModuleChange(kind, m) =>
            outcome, notes := DispatchModuleEvent(pid, tid, time, kind, m);
          case BatchInvocations(xs) =>
            TouchProcess(pid);
            outcome, notes := Consistent, [OnInvocationBatch(time, pid, tid, xs)];
          case ThreadNaming(name) =>
            TouchProcess(pid);
            outcome, notes := Consistent, [OnThreadName(time, pid, tid, name)];
          case BlockFrequencies(d) =>
            TouchProcess(pid);
            outcome, notes := Consistent, [OnBasicBlockFrequency(time, pid, tid, d)];
        }
        if !outcome.Consistent? {
          errorOccurred := true;
        }
    }
  
    /**
      Opens a source whose bytes are `contents`.  It fails, changing nothing,
      when the file is not recognised or is already open.  Only the header is
      decoded here; the segments after it are decoded as they are consumed.
    */
    method OpenTraceFile(path: string, contents: seq<byte>) returns (ok: bool)
      requires Valid()
      modifies this
      ensures Valid() && State() == old(State())
      ensures ok <==> IsRecognizedTraceFile(contents) && !IsOpen(old(openFiles), path)
      ensures ok ==> var h := DecodeFileHeader(contents).value;
        openFiles == old(openFiles) + [Source(path, h, SegmentArea(contents, h))]
      ensures !ok ==> openFiles == old(openFiles)
    {
      if !IsRecognizedTraceFile(contents) || IsOpen(openFiles, path) {
        return false;
      }
      var h := DecodeFileHeader(contents).value;
      openFiles := openFiles + [Source(path, h, SegmentArea(contents, h))];
      ok := true;
    }

    method CloseAllTraceFiles() returns (ok: bool)
      requires Valid()
      modifies this
      ensures Valid() && State() == old(State())
      ensures ok && openFiles == []
    {
      openFiles := [];
      ok := true;
    }

    /**
      Consumes the first record of `data`: `ok` says whether consumption goes
      on after it, `used` how many bytes it took.
    */
    method ConsumeFirstRecord(pid: u32, tid: u32, data: seq<byte>) returns (ok: bool, used: nat, notes: seq<Notification>)
      requires Valid() && data != []
      modifies this
      ensures Valid() && openFiles == old(openFiles)
      ensures !ok ==> ConsumeRecords(old(State()), pid, tid, data) == Run(State(), false, notes)
      ensures ok ==> 0 < used <= |data|
      ensures ok ==> var rest := ConsumeRecords(State(), pid, tid, data[used..]);
        ConsumeRecords(old(State()), pid, tid, data) == rest.(notes := notes + rest.notes)
    {
      ghost var st := State();
      match DecodeRecord(data)
      case Err(_) =>
        errorOccurred := true;
        return false, 0, [];
      case Ok((rec, n)) =>
        ConsumeRecordsStep(st, pid, tid, data, rec, n);
        var outcome;
        outcome, notes := DispatchEvent(pid, tid, rec);
        ok, used := !outcome.Malformed?, n;
    }

    /** The records of one segment's data, in stored order, until one fails. */
    method ConsumeSegmentRecords(pid: u32, tid: u32, data: seq<byte>) returns (ok: bool, notes: seq<Notification>)
      requires Valid()
      modifies this
      ensures Valid() && openFiles == old(openFiles)
      ensures Run(State(), ok, notes) == ConsumeRecords(old(State()), pid, tid, data)
    {
      ghost var target := ConsumeRecords(State(), pid, tid, data);
      var rem := data;
      notes := [];
      while rem != []
        invariant Valid() && openFiles == old(openFiles)
        invariant ConsumeRecords(State(), pid, tid, rem).(notes := notes + ConsumeRecords(State(), pid, tid, rem).notes) == target
        decreases |rem|
      {
        var more, used;
        ok, used, more := ConsumeFirstRecord(pid, tid, rem);
        if !ok {
          return false, notes + more;
        }
        ghost var rest := ConsumeRecords(State(), pid, tid, rem[used..]);
        AppendAssoc(notes, more, rest.notes);
        notes := notes + more;
        rem := rem[used..];
      }
      return true, notes;
    }

    /** The segments of one source, in file order, until one of them fails. */
    method ConsumeSegmentList(pid: u32, blockSize: nat, body: seq<byte>) returns (ok: bool, notes: seq<Notification>)
      requires Valid() && blockSize > 0
      modifies this
      ensures Valid() && openFiles == old(openFiles)
      ensures Run(State(), ok, notes) == ConsumeSegments(old(State()), pid, blockSize, body)
    {
      ghost var target := ConsumeSegments(State(), pid, blockSize, body);
      var rem := body;
      notes := [];
      while rem != []
        invariant Valid() && openFiles == old(openFiles)
        invariant var rest := ConsumeSegments(State(), pid, blockSize, rem);
          rest.(notes := notes + rest.notes) == target
        decreases |rem|
      {
        match DecodeSegment(rem, blockSize)
        case Err(_) =>
          errorOccurred := true;
          return false, notes;
        case Ok((g, used)) =>
          var more;
          ok, more := ConsumeSegmentRecords(pid, g.threadId, g.data);
          if !ok {
            return false, notes + more;
          }
          ghost var rest := ConsumeSegments(State(), pid, blockSize, rem[used..]);
          AppendAssoc(notes, more, rest.notes);
          notes := notes + more;
          rem := rem[used..];
      }
      return true, notes;
    }

    /**
      Consumes every event of every open source, source by source.  A source
      that fails does not keep the later ones from being consumed, and the
      result says whether all of them were consumed completely.
    */
    method ConsumeAllEvents() returns (ok: bool, notes: seq<Notification>)
      requires Valid()
      modifies this
      ensures Valid() && openFiles == old(openFiles)
      ensures Run(State(), ok, notes) == ConsumeFiles(old(State()), openFiles)
      ensures !ok ==> errorOccurred
    {
      ghost var target := ConsumeFiles(State(), openFiles);
      ConsumeFilesFailureFlags(State(), openFiles);
      var rem := openFiles;
      ok, notes := true, [];
      while rem != []
        invariant Valid() && openFiles == old(openFiles) && ValidSources(rem)
        invariant var rest := ConsumeFiles(State(), rem);
          Run(rest.state, ok && rest.ok, notes + rest.notes) == target
        decreases |rem|
      {
        var f := rem[0];
        var fileOk, more := ConsumeSegmentList(f.header.processId, f.header.blockSize, f.body);
        ghost var rest := ConsumeFiles(State(), rem[1..]);
        AppendAssoc(notes, more, rest.notes);
        ok, notes := ok && fileOk, notes + more;
        rem := rem[1..];
      }
    }
  }
}

# Syzygy call-trace core in Dafny

This project models four sequential pieces of the Syzygy toolchain and proves
properties of them.

- **The call-trace wire format** (modules `Bytes`, `TraceDefs`, `TracePayloads`).
  This is the little-endian on-disk layout of a call-trace file:
  - the file header with its `SZGY` signature, its version, header and block
    sizes, and a trailing blob of three wide strings;
  - the segments, each padded to the block size;
  - the 12-byte record prefix;
  - the event payloads: function entry/exit, module events, batch entry,
    batch invocation, thread name and basic-block frequencies.

  Each layout has a decoder, which returns an error for short or inconsistent
  input, and an encoder. Every pair is related by a round-trip lemma
  (decode after encode gives the value back). Most pairs also have a
  canonical-form lemma (encode after a successful decode gives the bytes
  back). Pointer- and `size_t`-typed fields are 4 bytes wide.
- **The parse engine's bookkeeping** (modules `ModuleSpaces`, `ParseEngines`).
  The engine keeps:
  - one address space of modules per process, with pairwise disjoint ranges;
  - the set of "matching" processes, which are the only ones whose
    process-ended event is reported;
  - a sticky error flag.

  Record dispatch is specified by pure step functions. The `ParseEngine` class
  updates its fields in place and is proved to agree with those functions.
  The event handler is the sequence of notifications that dispatch produces.
- **The service life cycle** (module `Services`). This is the six-state
  machine of a trace service. Every change of state is recorded through
  `SetState`, and the recorded changes are proved to form a chain of
  allowed transitions. The implementation hooks (`StartImpl`, `StopImpl`,
  `JoinImpl`) and the callbacks are boolean inputs.
- **Heap replay events** (module `HeapEvents`). A backdrop holds the table
  from trace heap handles to live heap handles:
  - playing a heap creation adds a mapping;
  - playing a heap destruction removes one, and only when the live call
    succeeded as the recorded one did.

  The live Windows calls are parameters. The scenarios of the two unit tests
  are methods with proved outcomes.

## Model

| member | source | states |
|---|---|---|
| Bytes.PaddedLength | syzygy/trace/protocol/call_trace_defs.h:171-173 | the padded length is a multiple of the block size, at least the real length, and less than one block longer |
| TraceDefs.TypeTag | syzygy/trace/protocol/call_trace_defs.h:70-87 | the page header has tag 0; every event kind has tag 10 + its position in declaration order (10..22) |
| TraceDefs.TypeOfTag | syzygy/trace/protocol/call_trace_defs.h:70-87 | a tag maps to the kind that has it, and to none exactly when no kind has that tag |
| TraceDefs.TypeOfTagRoundTrip | syzygy/trace/protocol/call_trace_defs.h:70-87 | every kind's tag maps back to that kind |
| TraceDefs.EncodeRecordPrefix | syzygy/trace/protocol/call_trace_defs.h:118-139 | a prefix is 12 bytes: timestamp(4), size(4), type(2), version hi(1), version lo(1) |
| TraceDefs.DecodeRecordPrefix | syzygy/trace/protocol/call_trace_defs.h:118-139 | a prefix decodes exactly when at least 12 bytes are available |
| TraceDefs.RecordPrefixRoundTrip | syzygy/trace/protocol/call_trace_defs.h:118-139 | decoding an encoded prefix, whatever follows it, gives the same fields |
| TraceDefs.RecordPrefixCanonical | syzygy/trace/protocol/call_trace_defs.h:118-139 | re-encoding a decoded prefix gives back its 12 bytes |
| TraceDefs.EncodeEnvEntries | syzygy/trace/protocol/call_trace_defs.h:208-210 | environment entries are NUL-separated, and the last one is NUL-terminated |
| TraceDefs.EncodeEnvironment | syzygy/trace/protocol/call_trace_defs.h:208-210 | the environment block ends in a double NUL |
| TraceDefs.EnvEntriesRoundTrip | syzygy/trace/protocol/call_trace_defs.h:208-210 | NUL-free, non-empty entries are recovered from their encoding |
| TraceDefs.EnvEntriesCanonical | syzygy/trace/protocol/call_trace_defs.h:208-210 | any entry list that decodes is valid and re-encodes to the same characters |
| TraceDefs.EnvironmentRoundTrip | syzygy/trace/protocol/call_trace_defs.h:208-210 | a valid environment is recovered from its double-NUL-terminated block |
| TraceDefs.EnvironmentCanonical | syzygy/trace/protocol/call_trace_defs.h:208-210 | a block that decodes is the encoding of what it decodes to |
| TraceDefs.SplitEnvEntry | syzygy/trace/protocol/call_trace_defs.h:263-267 | an entry splits exactly when it holds an `=`, at the first one, so the key never holds one; a special entry that starts with `=` has an empty key |
| TraceDefs.SpecialEntryHasEmptyKey | syzygy/trace/protocol/call_trace_defs.h:263-265 | an entry starting with `=` splits into the empty key and the rest as value |
| TraceDefs.SplitJoinEnvEntry | syzygy/trace/protocol/call_trace_defs.h:263-267 | a key without `=` and any value are recovered from `key=value` |
| TraceDefs.JoinSplitEnvEntry | syzygy/trace/protocol/call_trace_defs.h:263-267 | an entry that splits is `key=value` of its own halves |
| TraceDefs.SplitEnvEntries | syzygy/trace/protocol/call_trace_defs.h:263-267 | a split environment has one pair per entry |
| TraceDefs.JoinEnvEntries | syzygy/trace/protocol/call_trace_defs.h:263-267 | joining pairs gives one `key=value` entry per pair, in order |
| TraceDefs.SplitJoinEnvEntries | syzygy/trace/protocol/call_trace_defs.h:263-267 | valid key/value pairs are recovered, in order, from their entries |
| TraceDefs.JoinSplitEnvEntries | syzygy/trace/protocol/call_trace_defs.h:263-267 | the pairs a valid environment splits into are valid and join back to the same entries |
| TraceDefs.JoinedEnvironmentValid | syzygy/trace/protocol/call_trace_defs.h:263-267 | the entries joined from valid pairs form a valid environment block |
| TraceDefs.EnvironmentPairsRoundTrip | syzygy/trace/protocol/call_trace_defs.h:263-275 | valid key/value pairs are recovered from their double-NUL-terminated block |
| TraceDefs.EnvironmentPairsCanonical | syzygy/trace/protocol/call_trace_defs.h:263-275 | a block that decodes to pairs is the encoding of those pairs |
| TraceDefs.BlobCharsRoundTrip | syzygy/trace/protocol/call_trace_defs.h:199-215 | the blob characters split back, in order, into module path, command line and environment |
| TraceDefs.BlobRoundTrip | syzygy/trace/protocol/call_trace_defs.h:199-215 | a valid blob is recovered from its bytes |
| TraceDefs.BlobCanonical | syzygy/trace/protocol/call_trace_defs.h:199-215 | blob bytes that decode are exactly the encoding of the decoded strings |
| TraceDefs.BlobCharsCanonical | syzygy/trace/protocol/call_trace_defs.h:199-215 | blob characters that decode are exactly the path NUL, command line NUL, environment block |
| TraceDefs.FixedPartLayout | syzygy/trace/protocol/call_trace_defs.h:143-198 | the fixed header part is 424 bytes: signature, version lo/hi, eight 32-bit fields, then the three OS blocks at their offsets |
| TraceDefs.CurrentVersionLayout | syzygy/trace/protocol/call_trace_defs.h:64-68 | a header of the current version carries version bytes 2, 0, 1, 0 (lo then hi) after the signature |
| TraceDefs.DecodeFileHeader | syzygy/trace/protocol/call_trace_defs.h:151-173 | a decoded header starts with "SZGY", is well formed, and its header_size field equals the fixed size plus the blob length and fits in the input; the version lo and hi are read from bytes 4-5 and 6-7 |
| TraceDefs.HeaderFieldsRoundTrip | syzygy/trace/protocol/call_trace_defs.h:162-197 | the header_size and block_size fields read back as stored, and the fixed fields decode to the header |
| TraceDefs.FileHeaderRoundTrip | syzygy/trace/protocol/call_trace_defs.h:143-216 | a well-formed header is recovered from its encoding, whatever follows it |
| TraceDefs.EncodedHeaderFields | syzygy/trace/protocol/call_trace_defs.h:167-215 | an encoded header carries the signature, the blob right after the fixed part, and its own size and block size |
| TraceDefs.FixedPartCanonical | syzygy/trace/protocol/call_trace_defs.h:143-198 | the fixed part of a header re-encodes to the bytes it was decoded from |
| TraceDefs.FileHeaderCanonical | syzygy/trace/protocol/call_trace_defs.h:143-216 | a decoded header re-encodes to exactly its first header_size bytes |
| TraceDefs.EncodeSegment | syzygy/trace/protocol/call_trace_defs.h:218-235 | an encoded segment occupies its length padded to the block size |
| TraceDefs.DecodeSegment | syzygy/trace/protocol/call_trace_defs.h:218-235 | a decoded segment is well formed and consumes at least its length and no more than the input |
| TraceDefs.SegmentRoundTrip | syzygy/trace/protocol/call_trace_defs.h:218-235 | a segment is recovered from its encoding, and decoding consumes exactly its padded length |
| TraceDefs.SegmentsRoundTrip | syzygy/trace/protocol/call_trace_defs.h:218-222 | a sequence of well-formed segments is recovered in order |
| TraceDefs.DecodeSegments | syzygy/trace/protocol/call_trace_defs.h:218-235 | decoded segments are well formed, and each takes at least its 20 header bytes |
| TraceDefs.SegmentArea | syzygy/trace/protocol/call_trace_defs.h:172-173 | the segments start at the header size padded to the block size; nothing follows a header that fills the file |
| TraceDefs.DecodeTraceFile | syzygy/trace/protocol/call_trace_defs.h:141-235 | a decoded file is well formed and its header is the decoded header; a header that fails is reported as such |
| TraceDefs.TraceFileRoundTrip | syzygy/trace/protocol/call_trace_defs.h:141-235 | a whole file (padded header, then padded segments) is recovered from its bytes |
| TraceDefs.DecodeRecord | syzygy/trace/protocol/call_trace_defs.h:118-139 | a record fails to decode exactly when the prefix is short or its size field overruns the data; otherwise it is well formed and its bytes are the encoding of the record |
| TraceDefs.RecordRoundTrip | syzygy/trace/protocol/call_trace_defs.h:118-139 | a well-formed record is recovered, with its length, whatever follows it |
| TraceDefs.DecodeRecords | syzygy/trace/protocol/call_trace_defs.h:218-222 | decoded records are well formed, and each takes at least its 12 prefix bytes |
| TraceDefs.RecordsRoundTrip | syzygy/trace/protocol/call_trace_defs.h:218-222 | the records of a segment are recovered in order |
| TraceDefs.RecordsCanonical | syzygy/trace/protocol/call_trace_defs.h:218-222 | a segment body that decodes is exactly the encoding of its records |
| TracePayloads.DecodeFunctionAddress | syzygy/trace/protocol/call_trace_defs.h:237-246 | an entry/exit payload fails exactly when shorter than 4 bytes; else the address is its first 4 bytes |
| TracePayloads.FunctionAddressRoundTrip | syzygy/trace/protocol/call_trace_defs.h:237-246 | a function address is recovered from its encoding |
| TracePayloads.WideFieldRoundTrip | syzygy/trace/protocol/call_trace_defs.h:259-260 | a NUL-free name stored in a fixed wide-character field is recovered |
| TracePayloads.EncodeModuleData | syzygy/trace/protocol/call_trace_defs.h:254-261 | module data has a fixed size (16 bytes of fields plus 256 and 260 wide characters) |
| TracePayloads.DecodeModuleData | syzygy/trace/protocol/call_trace_defs.h:254-261 | module data fails to decode exactly when the payload is too short |
| TracePayloads.ModuleDataRoundTrip | syzygy/trace/protocol/call_trace_defs.h:254-261 | well-formed module data is recovered from its encoding |
| TracePayloads.EncodeBatchEnter | syzygy/trace/protocol/call_trace_defs.h:284-297 | a batch takes 8 bytes of header plus 4 bytes per call |
| TracePayloads.DecodeBatchEnter | syzygy/trace/protocol/call_trace_defs.h:284-297 | a batch fails exactly when num_calls entries do not fit; else it has thread_id and exactly num_calls calls |
| TracePayloads.BatchEnterRoundTrip | syzygy/trace/protocol/call_trace_defs.h:284-297 | a batch is recovered, calls in stored order |
| TracePayloads.BatchEnterCanonical | syzygy/trace/protocol/call_trace_defs.h:284-297 | a decoded batch re-encodes to exactly the bytes it used |
| TracePayloads.EncodeInvocation | syzygy/trace/protocol/call_trace_defs.h:301-308 | an invocation record is 40 bytes |
| TracePayloads.InvocationRoundTrip | syzygy/trace/protocol/call_trace_defs.h:301-308 | caller, function, count and the three cycle counts are recovered |
| TracePayloads.DecodeInvocations | syzygy/trace/protocol/call_trace_defs.h:310-318 | a batch-invocation payload holds as many invocations as whole 40-byte slots fit |
| TracePayloads.EncodeInvocations | syzygy/trace/protocol/call_trace_defs.h:310-318 | the invocations occupy 40 bytes each |
| TracePayloads.InvocationsRoundTrip | syzygy/trace/protocol/call_trace_defs.h:310-318 | invocations are recovered in order, and a trailing partial slot is ignored |
| TracePayloads.DecodeThreadName | syzygy/trace/protocol/call_trace_defs.h:320-325 | the name is the longest NUL-free prefix, ending at the first zero byte or at the record's end |
| TracePayloads.ThreadNameRoundTrip | syzygy/trace/protocol/call_trace_defs.h:320-325 | a NUL-free name is recovered from its NUL-terminated encoding |
| TracePayloads.ThreadNameUnique | syzygy/trace/protocol/call_trace_defs.h:320-325 | any NUL-free prefix followed by a zero byte, or by the end, is the decoded name |
| TracePayloads.EncodeCounter | syzygy/trace/protocol/call_trace_defs.h:337-345 | a counter takes frequency_size bytes |
| TracePayloads.ReadCounter | syzygy/trace/protocol/call_trace_defs.h:337-345 | a counter read from frequency_size bytes fits in that width |
| TracePayloads.CounterRoundTrip | syzygy/trace/protocol/call_trace_defs.h:337-345 | a counter is recovered from its 1-, 2- or 4-byte encoding |
| TracePayloads.CounterCanonical | syzygy/trace/protocol/call_trace_defs.h:337-345 | re-encoding a counter gives back its bytes |
| TracePayloads.DecodeCounters | syzygy/trace/protocol/call_trace_defs.h:337-345 | num_basic_blocks counters are produced, each within the width |
| TracePayloads.EncodeCounters | syzygy/trace/protocol/call_trace_defs.h:337-345 | the counters take frequency_size × count bytes |
| TracePayloads.CountersRoundTrip | syzygy/trace/protocol/call_trace_defs.h:337-345 | counters are recovered in order |
| TracePayloads.CountersCanonical | syzygy/trace/protocol/call_trace_defs.h:337-345 | re-encoding decoded counters gives back exactly frequency_size × n bytes |
| TracePayloads.EncodeFrequencies | syzygy/trace/protocol/call_trace_defs.h:327-346 | a frequency record is 24 bytes of fields plus frequency_size × num_basic_blocks bytes |
| TracePayloads.DecodeFrequencies | syzygy/trace/protocol/call_trace_defs.h:327-346 | decoding fails exactly when the fields are short, frequency_size is not 1, 2 or 4, or the counters do not fit; else the count equals num_basic_blocks |
| TracePayloads.FrequenciesRoundTrip | syzygy/trace/protocol/call_trace_defs.h:327-346 | a well-formed frequency record is recovered |
| TracePayloads.EncodedFrequencyFields | syzygy/trace/protocol/call_trace_defs.h:327-346 | every field of an encoded record reads back at its offset, followed by the counters |
| TracePayloads.FrequencyFields | syzygy/trace/protocol/call_trace_defs.h:327-346 | every field of a decoded record is the value stored at its offset, and the counters are those following the fields |
| TracePayloads.FrequenciesCanonical | syzygy/trace/protocol/call_trace_defs.h:327-346 | a decoded record re-encodes to exactly the bytes it used |
| TracePayloads.FrequencyWordsCanonical | syzygy/trace/protocol/call_trace_defs.h:327-343 | the six fixed fields re-encode to the first 24 bytes |
| TracePayloads.DecodePayload | syzygy/trace/protocol/call_trace_defs.h:237-346 | a decoded payload is well formed and of the requested kind; a page header is never an event |
| TracePayloads.DecodeEvent | syzygy/trace/protocol/call_trace_defs.h:70-87 | a decoded event has the record's tag; an unknown tag, and only that, is reported as unknown |
| TracePayloads.FixedPayloadRoundTrip | syzygy/trace/protocol/call_trace_defs.h:237-261 | entry, exit and module events are recovered from their payloads |
| TracePayloads.BatchPayloadRoundTrip | syzygy/trace/protocol/call_trace_defs.h:284-297 | a batch-enter payload is recovered as an event |
| TracePayloads.InvocationsPayloadRoundTrip | syzygy/trace/protocol/call_trace_defs.h:310-318 | a batch-invocation payload is recovered as an event |
| TracePayloads.ThreadNamePayloadRoundTrip | syzygy/trace/protocol/call_trace_defs.h:320-325 | a thread-name payload is recovered as an event |
| TracePayloads.FrequenciesPayloadRoundTrip | syzygy/trace/protocol/call_trace_defs.h:327-346 | a frequency payload is recovered as an event |
| TracePayloads.EventRoundTrip | syzygy/trace/protocol/call_trace_defs.h:70-346 | every well-formed event is recovered from its tag and payload |
| ModuleSpaces.IntersectsWhenShared | call_trace/parse_engine.h:40-41 | two modules that contain the same address intersect |
| ModuleSpaces.Find | call_trace/parse_engine.h:79-82 | the module found contains the address, and none is found exactly when no module does |
| ModuleSpaces.FindUnique | call_trace/parse_engine.h:79-82 | in a disjoint space, the module containing an address is the one found |
| ModuleSpaces.FindAppend | call_trace/parse_engine.h:79-82 | appending a module that does not contain an address leaves that address's lookup unchanged |
| ModuleSpaces.AddModule | call_trace/parse_engine.h:93-96 | insertion succeeds exactly when the module is already present or overlaps none; only a success adds it |
| ModuleSpaces.AddKeepsDisjoint | call_trace/parse_engine.h:40-41 | insertion keeps the space disjoint |
| ModuleSpaces.AddResolves | call_trace/parse_engine.h:93-96 | after a successful insertion every address of the module resolves to it |
| ModuleSpaces.AddKeepsOthers | call_trace/parse_engine.h:93-96 | insertion changes no lookup outside the module's range |
| ModuleSpaces.Without | call_trace/parse_engine.h:98-101 | removal keeps every other module and drops this one |
| ModuleSpaces.RemoveModule | call_trace/parse_engine.h:98-101 | removal succeeds exactly when the module is present; only a success removes it |
| ModuleSpaces.RemoveKeepsDisjoint | call_trace/parse_engine.h:40-41 | removal keeps the space disjoint |
| ModuleSpaces.RemoveUnresolves | call_trace/parse_engine.h:98-101 | after a successful removal no address of the module resolves |
| ModuleSpaces.RemoveKeepsOthers | call_trace/parse_engine.h:98-101 | removal changes no lookup outside the module's range |
| ParseEngines.Resolve | call_trace/parse_engine.h:79-85 | the module found belongs to the process and contains the address; none is found for an unknown process or an unmapped address |
| ParseEngines.Touch | call_trace/parse_engine.h:123-124 | the process becomes known with its address space unchanged |
| ParseEngines.BatchEntries | call_trace/parse_engine.h:110-111 | a batch becomes one entry notification per call, in order |
| ParseEngines.ApplyModuleEvent | call_trace/parse_engine.h:113-115 | a module event is always forwarded; only attach, load and detach events can be rejected; the process is known afterwards and the matching set and error flag are unchanged |
| ParseEngines.Apply | call_trace/parse_engine.h:103-129 | an event never touches the error flag; only a module change can be rejected; afterwards the process is known unless the event ended it; entry, exit and batch-entry events make it matching |
| ParseEngines.DispatchDecoded | call_trace/parse_engine.h:103-105 | the outcome is malformed exactly when the payload failed to decode for a reason other than an unknown type, and nothing is then forwarded |
| ParseEngines.Dispatch | call_trace/parse_engine.h:103-105 | a record is malformed exactly when its payload does not decode and its type is known; a malformed record is not forwarded and sets the error flag |
| ParseEngines.ApplyKeepsValid | call_trace/parse_engine.h:103-115 | applying any event keeps every address space disjoint |
| ParseEngines.DispatchKeepsValid | call_trace/parse_engine.h:103-105 | dispatching any record keeps every address space disjoint |
| ParseEngines.DispatchErrorFlag | call_trace/parse_engine.h:131-133 | after dispatch the error flag is set exactly when it was set before or the record was inconsistent |
| ParseEngines.ProcessEndedOnlyForMatching | call_trace/parse_engine.h:126-129 | a process-ended notification is only sent for the record's own process, and only if it is matching |
| ParseEngines.ApplyProcessEnded | call_trace/parse_engine.h:126-129 | only a process-end event produces a process-ended notification, and only for a matching process |
| ParseEngines.ProcessEndedReported | call_trace/parse_engine.h:126-129 | a process-end record is reported exactly when the process is matching, and the process is forgotten |
| ParseEngines.ApplyKeepsOtherProcesses | call_trace/parse_engine.h:85 | applying an event of one process leaves every other process's space and matching status unchanged |
| ParseEngines.DispatchKeepsOtherProcesses | call_trace/parse_engine.h:123-124 | dispatching a record of one process leaves every other process unchanged |
| ParseEngines.AttachResolves | call_trace/parse_engine.h:113-115 | after a consistent attach event every address of the module resolves to it |
| ParseEngines.DetachUnresolves | call_trace/parse_engine.h:113-115 | after a consistent detach event no address of the module resolves |
| ParseEngines.ConsumeRecordsStep | call_trace/parse_engine.h:72-74 | consuming records is dispatching the first record and then, unless it was malformed, consuming the rest |
| ParseEngines.ConsumeSegments | call_trace/parse_engine.h:72-74 | consumes a file's segments as they are decoded, in order; its properties are stated by `ConsumeDecodedSegments` (equal to decoding all segments first, when they all decode), `ConsumeSegmentsFailureFlags` (a segment that does not decode, or a malformed record, leaves the error flag set) and `ConsumeSegmentsKeepsValid` |
| ParseEngines.ConsumeDecodedSegments | call_trace/parse_engine.h:72-74 | when every segment of a file decodes, consuming them one at a time equals decoding them all and consuming the list |
| ParseEngines.ConsumeFilesAppend | call_trace/parse_engine.h:72-74 | consuming a concatenation of open files is consuming the first files and then, from the state they leave, the rest: every file is consumed in order, and one that fails does not keep the later ones from being consumed |
| ParseEngines.ConsumeRecordsKeepsValid | call_trace/parse_engine.h:72-74 | consuming a segment's records keeps every address space disjoint |
| ParseEngines.ConsumeSegmentsKeepsValid | call_trace/parse_engine.h:72-74 | consuming segments keeps every address space disjoint |
| ParseEngines.ConsumeFilesKeepsValid | call_trace/parse_engine.h:72-74 | consuming all files keeps every address space disjoint |
| ParseEngines.ConsumeRecordsFailureFlags | call_trace/parse_engine.h:131-133 | a failed or already flagged run of records leaves the error flag set |
| ParseEngines.ConsumeSegmentsFailureFlags | call_trace/parse_engine.h:131-133 | a failed or already flagged run of segments leaves the error flag set |
| ParseEngines.ConsumeFilesFailureFlags | call_trace/parse_engine.h:131-133 | a failed or already flagged run of files leaves the error flag set |
| ParseEngines.IsRecognizedTraceFile | call_trace/parse_engine.h:63-65 | a recognised file starts with "SZGY", holds a whole fixed header, and carries major version 1 in bytes 6-7 |
| ParseEngines.RecognizedVersions | call_trace/parse_engine.h:63-65 | an encoded header is recognised exactly when its major version is the current one, whatever its minor version |
| ParseEngines.ParseEngine.constructor | call_trace/parse_engine.h:88 | a new engine knows no process and no matching process, has no open file, and its error flag is clear |
| ParseEngines.ParseEngine.SetErrorOccurred | call_trace/parse_engine.h:90-91 | the error flag becomes the given value and nothing else changes |
| ParseEngines.ParseEngine.GetModuleInformation | call_trace/parse_engine.h:79-82 | returns the one registered module of the process containing the address, or none if the process is unknown or no module contains it |
| ParseEngines.ParseEngine.TouchProcess | call_trace/parse_engine.h:121-124 | `processes_[pid]`: the process becomes known with its address space unchanged, and nothing else changes |
| ParseEngines.ParseEngine.AddModuleInformation | call_trace/parse_engine.h:93-96 | succeeds exactly when the module is present or overlaps none; afterwards its range resolves to it, other addresses and other processes are unchanged |
| ParseEngines.ParseEngine.RemoveModuleInformation | call_trace/parse_engine.h:98-101 | succeeds exactly when the module is registered; afterwards its range resolves to nothing, other addresses and other processes are unchanged |
| ParseEngines.ParseEngine.MarkMatching | call_trace/parse_engine.h:126-129 | the process joins the matching set and nothing else changes |
| ParseEngines.ParseEngine.DispatchEntryExitEvent | call_trace/parse_engine.h:107-108 | marks the process matching and forwards the entry or exit |
| ParseEngines.ParseEngine.DispatchBatchEnterEvent | call_trace/parse_engine.h:110-111 | marks the process matching and forwards one entry per batched call |
| ParseEngines.ParseEngine.DispatchModuleEvent | call_trace/parse_engine.h:113-115 | attach and load events register the module, detach events unregister it, and the event is forwarded |
| ParseEngines.ParseEngine.DispatchProcessEndedEvent | call_trace/parse_engine.h:126-129 | forgets the process and reports its end only if it is matching |
| ParseEngines.ParseEngine.DispatchEvent | call_trace/parse_engine.h:103-105 | the new state, outcome and notifications are those of dispatching the record |
| ParseEngines.ParseEngine.DispatchDecodedEvent | call_trace/parse_engine.h:103-105 | the same, for a payload already decoded |
| ParseEngines.ParseEngine.OpenTraceFile | call_trace/parse_engine.h:63-70 | opening succeeds exactly when the file is recognised and not open yet; its header and the bytes after the padded header are then appended to the open files, and otherwise nothing changes |
| ParseEngines.ParseEngine.CloseAllTraceFiles | call_trace/parse_engine.h:76-77 | no file is open afterwards and the bookkeeping is unchanged |
| ParseEngines.ParseEngine.ConsumeFirstRecord | call_trace/parse_engine.h:72-74 | dispatches the first record; the rest of the segment is consumed from the state it leaves |
| ParseEngines.ParseEngine.ConsumeSegmentRecords | call_trace/parse_engine.h:72-74 | the engine ends in the state that consuming the segment's records specifies |
| ParseEngines.ParseEngine.ConsumeSegmentList | call_trace/parse_engine.h:72-74 | decodes and consumes one file's segments in order and ends in the state that consuming them specifies, a segment that does not decode included |
| ParseEngines.ParseEngine.ConsumeAllEvents | call_trace/parse_engine.h:72-74 | consumes every open file in order as specified, and a failure leaves the error flag set |
| Services.ChainExtend | syzygy/trace/common/service.cc:150-155 | a recorded run of allowed changes extended by an allowed change is still a run |
| Services.WindingIsFinal | syzygy/trace/common/service.cc:75-95 | once stopping, stopped or errored, every later state is one of those three |
| Services.ErroredIsFinal | syzygy/trace/common/service.cc:58-116 | a change into the error state is the last one recorded |
| Services.RunningWasInitialized | syzygy/trace/common/service.cc:118-130 | a service that reached running was initialised first |
| Services.Service.constructor | syzygy/trace/common/service.cc:22-27 | a new service, whose name is not empty, is unused, has no instance id and no callbacks |
| Services.Service.SetInstanceId | syzygy/trace/common/service.cc:32-35 | only while unused; sets the instance id and nothing else |
| Services.Service.SetStartedCallback | syzygy/trace/common/service.cc:37-40 | only while unused; sets the started callback and nothing else |
| Services.Service.SetInterruptedCallback | syzygy/trace/common/service.cc:42-45 | only while unused; sets the interrupted callback and nothing else |
| Services.Service.SetStoppedCallback | syzygy/trace/common/service.cc:47-50 | only while unused; sets the stopped callback and nothing else |
| Services.Service.SetState | syzygy/trace/common/service.cc:150-155 | records the (old, new) pair, then takes the new state |
| Services.Service.Start | syzygy/trace/common/service.cc:58-73 | only while unused; returns the start hook's result, and a failure moves the service to the error state |
| Services.Service.Stop | syzygy/trace/common/service.cc:75-95 | does nothing and succeeds when stopping or stopped; otherwise enters stopping, and a failing stop hook then moves it to the error state |
| Services.Service.Join | syzygy/trace/common/service.cc:97-116 | not in the error state; returns the join hook's result, success finds the service stopped, failure moves it to the error state |
| Services.Service.OnInitialized | syzygy/trace/common/service.cc:118-122 | moves an unused service to initialised and succeeds |
| Services.Service.OnStarted | syzygy/trace/common/service.cc:124-130 | moves to running unless a set callback rejects, in which case the state is unchanged |
| Services.Service.OnInterrupted | syzygy/trace/common/service.cc:132-140 | not when stopped or errored; succeeds unless a set callback rejects, and changes nothing |
| Services.Service.OnStopped | syzygy/trace/common/service.cc:142-148 | moves stopping to stopped unless a set callback rejects, in which case the state is unchanged |
| HeapEvents.AddMapping | syzygy/bard/events/heap_destroy_event_unittest.cc:38 | a trace→live pair is added exactly when neither handle is mapped yet |
| HeapEvents.RemoveMapping | syzygy/bard/events/heap_destroy_event_unittest.cc:58-60 | a pair is removed exactly when it is in the table |
| HeapEvents.AddMappingKeepsInjective | syzygy/bard/events/heap_destroy_event_unittest.cc:38 | adding keeps the table one-to-one |
| HeapEvents.PlayCreate | syzygy/bard/events/heap_create_event_unittest.cc:55-81 | a non-null live heap for a new trace handle is mapped and succeeds; a null live heap against a non-null recorded one fails and changes nothing |
| HeapEvents.PlayDestroy | syzygy/bard/events/heap_destroy_event_unittest.cc:49-89 | succeeds exactly when the handle is mapped and the live result equals the recorded one; only a consistent success removes the mapping |
| HeapEvents.PlayKeepsInjective | syzygy/bard/events/heap_destroy_event.h:40-47 | replaying either kind of event keeps the table one-to-one |
| HeapEvents.CreateThenDestroy | syzygy/bard/events/heap_destroy_event_unittest.cc:49-61 | a heap created and then destroyed, both successfully, leaves the table as it was |
| HeapEvents.HeapBackdrop.constructor | syzygy/bard/events/heap_destroy_event_unittest.cc:44 | a new backdrop has an empty table and has made no live call |
| HeapEvents.HeapBackdrop.GetLiveFromTrace | syzygy/bard/events/heap_destroy_event_unittest.cc:58-60 | gives the live handle a trace handle maps to, and none when it is unmapped |
| HeapEvents.HeapBackdrop.AddHeapMapping | syzygy/bard/events/heap_destroy_event_unittest.cc:38 | the table changes as adding the pair specifies, and no live call is made |
| HeapEvents.HeapCreateEvent.constructor | syzygy/bard/events/heap_create_event_unittest.cc:39-42 | the event records the options, sizes and trace handle it is given |
| HeapEvents.HeapCreateEvent.Play | syzygy/bard/events/heap_create_event_unittest.cc:55-81 | makes one live create call with the recorded options and sizes, and updates the table as replaying the creation specifies |
| HeapEvents.HeapDestroyEvent.constructor | syzygy/bard/events/heap_destroy_event.h:28-36 | the accessors give back the trace handle and recorded result passed in |
| HeapEvents.HeapDestroyEvent.Play | syzygy/bard/events/heap_destroy_event.h:41 | destroys the live heap the trace handle maps to, and updates the table as replaying the destruction specifies |
| HeapEvents.CreateSucceeds | syzygy/bard/events/heap_create_event_unittest.cc:55-67 | with a non-null live heap, play succeeds, the call gets options 0, sizes 1 and 1000, and the table maps the trace heap to the live heap |
| HeapEvents.CreateFails | syzygy/bard/events/heap_create_event_unittest.cc:69-81 | with a null live heap, play fails and no mapping is added |
| HeapEvents.DestroyScenario | syzygy/bard/events/heap_destroy_event_unittest.cc:49-89 | the live destroy receives the mapped live heap; play succeeds exactly when live and recorded results agree, and only a successful destroy removes the mapping |

## Left out

- ETW and RPC transport configuration (GUIDs, buffer counts, endpoint and mutex names, `syzygy/trace/protocol/call_trace_defs.h:26-62`) and the trace flags and levels (lines 90-115). These are Windows configuration with no logic.
- `TraceDefs.SplitEnvEntry` follows a reconstruction. `syzygy/trace/protocol/call_trace_defs.h:263-265` says only that each environment string is a key/value pair and that certain special strings have empty keys. The model splits at the first `=`, so `=C:=C:\dir` has an empty key. It also refuses an entry with no `=`: `TraceDefs.DecodeEnvironmentPairs` then gives none. The header states neither rule.
- The OS information blocks in the file header (`OSVERSIONINFOEX`, `SYSTEM_INFO`, `MEMORYSTATUSEX`) are opaque byte spans of their 32-bit sizes (284, 36 and 64 bytes). Their internal fields are not decoded.
- `TraceSystemInfo` (`syzygy/trace/protocol/call_trace_defs.h:271-276`) is an in-memory aggregate with no wire layout of its own.
- `call_trace/parse_engine.cc` is not part of this model. The dispatch rules below are a reconstruction from the declarations and comments in `call_trace/parse_engine.h` (lines 103-133); the header does not state them as rules:
  - entry, exit and batch-entry events mark their process matching, since matching means code of the instrumented module ran there (lines 126-128);
  - a process-attach event of the instrumented module itself does not mark the process matching; only the events above do;
  - attach and module-load events register the module, and detach events unregister it;
  - process-end events forget the process and are reported only when it is matching;
  - a payload that does not decode, or a rejected module change, sets the error flag.
- The concrete parse engines (ETW and raw file) are not modelled; their reading loop is modelled sequentially. Files are consumed in the order they were opened, and segments and records in stored order, with no interleaving of records from different files by timestamp. A segment that does not decode, or a malformed record, sets the error flag and ends the consumption of that file only; the later files are still consumed.
- File-system access is left out. `OpenTraceFile` takes the file's contents as a parameter, and `IsRecognizedTraceFile` is a predicate on those contents: the header decodes and its major version is 1.
- `EVENT_TRACE` and `sym_util::ModuleInformation` are foreign types. A record enters as a decoded prefix plus payload, and a module is a record of base, size, checksum, timestamp and path.
- The event handler (`set_event_handler`, `call_trace/parse_engine.h:60-61`) is the sequence of notifications a dispatch returns. Its callbacks are not modelled.
- The engine's `name()` accessor (`call_trace/parse_engine.h:53-55`) is only the stored constructor argument.
- `ParseEngines.ParseEngine.ConsumeAllEvents` does not model a handler that fails or asks to stop early.
- `Services.Service.Join` requires that a successful join hook has already left the service stopped. The join hook's own state changes (through `OnStopped`) are not modelled, so the check on `syzygy/trace/common/service.cc:113` becomes a precondition.
- `Services.Service.Stop`: a successful stop leaves the state at stopping. The stop hook's own state changes (through `OnStopped`, which moves the service to stopped) are not modelled; the caller drives `OnStopped`.
- `Services.Service.Start` does not model the state changes the start hook itself makes through `OnInitialized` and `OnStarted`. A successful `Start` leaves the state as it found it, and the caller drives those methods.
- Logging, owning-thread checks (`syzygy/trace/common/service.cc:59, 98`) and the remarks on atomic writes (lines 53-55 and 151-152) concern logging and concurrency. `OnStateChange` is modelled as the recorded sequence of changes.
- `heap_destroy_event.cc`, `heap_create_event.h/.cc` and the sources of the heap backdrop and its trace-to-live map are not part of this model. `HeapEvents.HeapBackdrop` and the play functions reconstruct their behaviour from the two unit tests and `heap_destroy_event.h`.
- `HeapEvents.PlayCreate`: the unit tests do not cover two cases, which follow a reconstruction:
  - when both the recorded and the live call returned null, play succeeds without a mapping;
  - a pair whose handles are already mapped is refused.
- The live `HeapCreate` and `HeapDestroy` calls, and the mock machinery, are parameters: the live result is an input, and the backdrop logs the arguments passed. The event's `name()` is left out.

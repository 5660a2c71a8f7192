/**
  The payloads that follow a record prefix, one layout per event kind, and
  the decoded event a record carries.  Pointer- and size-typed fields are
  four bytes wide, as in the 32-bit client that writes them.
*/
module TracePayloads {
  import opened Common
  import opened Bytes
  import opened TraceDefs

  // ---------------------------------------------------- function entry / exit

  /** `TraceEnterExitEventDataTempl`: the address of the function entered or left. */
  const FunctionAddressSize: nat := 4

  function DecodeFunctionAddress(p: seq<byte>): (r: Result<u32, FormatError>)
    ensures r.Err? <==> |p| < FunctionAddressSize
    ensures r.Ok? ==> EncodeU32(r.value) == p[..FunctionAddressSize]
  {
    if |p| < FunctionAddressSize then Err(TruncatedPayload)
    else
      U32Canonical(p[..4]);
      Ok(ReadU32(p, 0))
  }

  lemma FunctionAddressRoundTrip(f: u32, rest: seq<byte>)
    ensures DecodeFunctionAddress(EncodeU32(f) + rest) == Ok(f)
  {
    ReadU32Of([], f, rest);
    assert [] + EncodeU32(f) + rest == EncodeU32(f) + rest;
  }

  // -------------------------------------------------------------- module data

  /** `module_name` holds 256 wide characters, `module_exe` MAX_PATH (260). */
  const ModuleNameLength: nat := 256
  const ModuleExeLength: nat := 260
  const ModuleDataSize: nat := 16 + 2 * ModuleNameLength + 2 * ModuleExeLength

  /** `TraceModuleData`: a module loaded into (or unloaded from) the traced process. */
  datatype ModuleData = ModuleData(
    baseAddress: u32,
    baseSize: u32,
    checksum: u32,
    timeDateStamp: u32,
    name: seq<wchar>,
    exe: seq<wchar>)

  /** Both strings fit their fixed-size fields and hold no NUL of their own. */
  predicate WellFormedModuleData(m: ModuleData)
  {
    |m.name| <= ModuleNameLength && NulFree(m.name)
    && |m.exe| <= ModuleExeLength && NulFree(m.exe)
  }

  /** A string stored in a fixed-size field of `n` wide characters, NUL-padded. */
  function EncodeWideField(w: seq<wchar>, n: nat): (r: seq<byte>)
    requires |w| <= n
    ensures |r| == 2 * n
  {
    WideToBytes(w + seq(n - |w|, _ => 0))
  }

  /** The string in a fixed-size wide field: its characters up to the first NUL. */
  function DecodeWideField(s: seq<byte>): (w: seq<wchar>)
    requires |s| % 2 == 0
    ensures NulFree(w) && 2 * |w| <= |s|
  {
    var chars := BytesToWide(s);
    chars[..|TruncateAtNul(chars)|]
  }

  lemma WideFieldRoundTrip(w: seq<wchar>, n: nat)
    requires |w| <= n && NulFree(w)
    ensures |EncodeWideField(w, n)| % 2 == 0
    ensures DecodeWideField(EncodeWideField(w, n)) == w
  {
    var padded := w + seq(n - |w|, _ => 0);
    WideToBytesEven(padded);
    WideRoundTrip(padded);
    TruncateAtNulPadded(w, n - |w|);
  }

  function EncodeModuleData(m: ModuleData): (r: seq<byte>)
    requires WellFormedModuleData(m)
    ensures |r| == ModuleDataSize
  {
    EncodeU32(m.baseAddress) + EncodeU32(m.baseSize) + EncodeU32(m.checksum)
    + EncodeU32(m.timeDateStamp)
    + EncodeWideField(m.name, ModuleNameLength) + EncodeWideField(m.exe, ModuleExeLength)
  }

  /** The module record at the front of `p`; it fails only when `p` is too short. */
  function DecodeModuleData(p: seq<byte>): (r: Result<ModuleData, FormatError>)
    ensures r.Err? <==> |p| < ModuleDataSize
    ensures r.Ok? ==> WellFormedModuleData(r.value)
  {
    if |p| < ModuleDataSize then Err(TruncatedPayload)
    else
      var nameEnd := 16 + 2 * ModuleNameLength;
      Ok(ModuleData(ReadU32(p, 0), ReadU32(p, 4), ReadU32(p, 8), ReadU32(p, 12),
                    DecodeWideField(p[16..nameEnd]), DecodeWideField(p[nameEnd..ModuleDataSize])))
  }

  lemma ModuleDataRoundTrip(m: ModuleData, rest: seq<byte>)
    requires WellFormedModuleData(m)
    ensures DecodeModuleData(EncodeModuleData(m) + rest) == Ok(m)
  {
    var s := EncodeModuleData(m) + rest;
    var nameEnd := 16 + 2 * ModuleNameLength;
    assert s[0..4] == EncodeU32(m.baseAddress);
    assert s[4..8] == EncodeU32(m.baseSize);
    assert s[8..12] == EncodeU32(m.checksum);
    assert s[12..16] == EncodeU32(m.timeDateStamp);
    assert s[16..nameEnd] == EncodeWideField(m.name, ModuleNameLength);
    assert s[nameEnd..ModuleDataSize] == EncodeWideField(m.exe, ModuleExeLength);
    U32RoundTrip(m.baseAddress);
    U32RoundTrip(m.baseSize);
    U32RoundTrip(m.checksum);
    U32RoundTrip(m.timeDateStamp);
    WideFieldRoundTrip(m.name, ModuleNameLength);
    WideFieldRoundTrip(m.exe, ModuleExeLength);
  }

  // -------------------------------------------------------------- batch enter

  /** Offset of `calls` in `TraceBatchEnterData`: thread id and call count. */
  const BatchEnterFixedSize: nat := 8

  /** `TraceBatchEnterData`: function entries logged by one thread, in call order. */
  datatype BatchEnterData = BatchEnterData(threadId: u32, calls: seq<u32>)

  predicate WellFormedBatchEnter(b: BatchEnterData)
  {
    |b.calls| < 0x1_0000_0000
  }

  function EncodeBatchEnter(b: BatchEnterData): (r: seq<byte>)
    requires WellFormedBatchEnter(b)
    ensures |r| == BatchEnterFixedSize + 4 * |b.calls|
  {
    EncodeU32(b.threadId) + EncodeU32(|b.calls|) + EncodeU32s(b.calls)
  }

  /**
    A batch of `num_calls` entries; it fails when the fixed part is missing or
    the declared number of entries does not fit in the payload.
  */
  function DecodeBatchEnter(p: seq<byte>): (r: Result<BatchEnterData, FormatError>)
    ensures r.Err? <==> |p| < BatchEnterFixedSize || BatchEnterFixedSize + 4 * ReadU32(p, 4) > |p|
    ensures r.Ok? ==> r.value.threadId == ReadU32(p, 0) && |r.value.calls| == ReadU32(p, 4)
  {
    if |p| < BatchEnterFixedSize then Err(TruncatedPayload)
    else
      var n := ReadU32(p, 4);
      if BatchEnterFixedSize + 4 * n > |p| then Err(TruncatedPayload)
      else Ok(BatchEnterData(ReadU32(p, 0), DecodeU32s(p[BatchEnterFixedSize..], n)))
  }

  lemma BatchEnterRoundTrip(b: BatchEnterData, rest: seq<byte>)
    requires WellFormedBatchEnter(b)
    ensures DecodeBatchEnter(EncodeBatchEnter(b) + rest) == Ok(b)
  {
    var s := EncodeBatchEnter(b) + rest;
    assert s[0..4] == EncodeU32(b.threadId);
    assert s[4..8] == EncodeU32(|b.calls|);
    assert s[8..] == EncodeU32s(b.calls) + rest;
    U32RoundTrip(b.threadId);
    U32RoundTrip(|b.calls|);
    U32sRoundTrip(b.calls, rest);
  }

  /** An accepted batch occupies exactly the bytes of its own encoding, in stored order. */
  lemma BatchEnterCanonical(p: seq<byte>, b: BatchEnterData)
    requires DecodeBatchEnter(p) == Ok(b)
    ensures WellFormedBatchEnter(b)
    ensures EncodeBatchEnter(b) == p[..BatchEnterFixedSize + 4 * |b.calls|]
  {
    var n := |b.calls|;
    U32Canonical(p[0..4]);
    U32Canonical(p[4..8]);
    U32sCanonical(p[8..], n);
    assert p[..8 + 4 * n] == p[0..4] + p[4..8] + p[8..][..4 * n];
  }

  // --------------------------------------------------------- batch invocation

  /**
    `InvocationInfo` is 40 bytes: caller, function and num_calls (4 each),
    four bytes of alignment padding, then three 64-bit cycle counts.
  */
  const InvocationInfoSize: nat := 40

  datatype InvocationInfo = InvocationInfo(
    caller: u32,
    callee: u32,
    numCalls: u32,
    cyclesMin: u64,
    cyclesMax: u64,
    cyclesSum: u64)

  function EncodeInvocation(x: InvocationInfo): (r: seq<byte>)
    ensures |r| == InvocationInfoSize
  {
    EncodeU32(x.caller) + EncodeU32(x.callee) + EncodeU32(x.numCalls) + Zeros(4)
    + EncodeU64(x.cyclesMin) + EncodeU64(x.cyclesMax) + EncodeU64(x.cyclesSum)
  }

  function DecodeInvocation(s: seq<byte>): InvocationInfo
    requires |s| >= InvocationInfoSize
  {
    InvocationInfo(ReadU32(s, 0), ReadU32(s, 4), ReadU32(s, 8),
                   ReadU64(s, 16), ReadU64(s, 24), ReadU64(s, 32))
  }

  lemma InvocationRoundTrip(x: InvocationInfo, rest: seq<byte>)
    ensures DecodeInvocation(EncodeInvocation(x) + rest) == x
  {
    var s := EncodeInvocation(x) + rest;
    assert s[0..4] == EncodeU32(x.caller);
    assert s[4..8] == EncodeU32(x.callee);
    assert s[8..12] == EncodeU32(x.numCalls);
    assert s[16..24] == EncodeU64(x.cyclesMin);
    assert s[24..32] == EncodeU64(x.cyclesMax);
    assert s[32..40] == EncodeU64(x.cyclesSum);
    U32RoundTrip(x.caller);
    U32RoundTrip(x.callee);
    U32RoundTrip(x.numCalls);
    U64RoundTrip(x.cyclesMin);
    U64RoundTrip(x.cyclesMax);
    U64RoundTrip(x.cyclesSum);
  }

  /**
    `TraceBatchInvocationInfo`: as many whole entries as the payload holds;
    a tail shorter than one entry is not an entry.
  */
  function DecodeInvocations(p: seq<byte>): (r: seq<InvocationInfo>)
    ensures |r| == |p| / InvocationInfoSize
    decreases |p|
  {
    if |p| < InvocationInfoSize then []
    else [DecodeInvocation(p)] + DecodeInvocations(p[InvocationInfoSize..])
  }

  function EncodeInvocations(xs: seq<InvocationInfo>): (r: seq<byte>)
    ensures |r| == InvocationInfoSize * |xs|
  {
    if xs == [] then [] else EncodeInvocation(xs[0]) + EncodeInvocations(xs[1..])
  }

  lemma {:induction false} InvocationsRoundTrip(xs: seq<InvocationInfo>, tail: seq<byte>)
    requires |tail| < InvocationInfoSize
    ensures DecodeInvocations(EncodeInvocations(xs) + tail) == xs
  {
    if xs != [] {
      var s := EncodeInvocations(xs) + tail;
      assert s == EncodeInvocation(xs[0]) + (EncodeInvocations(xs[1..]) + tail);
      InvocationRoundTrip(xs[0], EncodeInvocations(xs[1..]) + tail);
      assert s[InvocationInfoSize..] == EncodeInvocations(xs[1..]) + tail;
      InvocationsRoundTrip(xs[1..], tail);
      assert [xs[0]] + xs[1..] == xs;
    }
  }

  // -------------------------------------------------------------- thread name

  /**
    `TraceThreadNameInfo`: the name ends at the first zero byte, or at the
    end of the payload when it holds none.
  */
  function DecodeThreadName(p: seq<byte>): (name: seq<byte>)
    ensures name <= p && NulFree(name)
    ensures |name| < |p| ==> p[|name|] == 0
  {
    p[..|TruncateAtNul(p)|]
  }

  function EncodeThreadName(name: seq<byte>): seq<byte>
  {
    name + [0]
  }

  lemma ThreadNameRoundTrip(name: seq<byte>, rest: seq<byte>)
    requires NulFree(name)
    ensures DecodeThreadName(EncodeThreadName(name) + rest) == name
  {
    TruncateAtNulOf(name, rest);
    assert EncodeThreadName(name) + rest == name + [0] + rest;
  }

  /** Nothing but the first zero byte decides where the name ends. */
  lemma ThreadNameUnique(p: seq<byte>, name: seq<byte>)
    requires name <= p && NulFree(name) && (|name| < |p| ==> p[|name|] == 0)
    ensures DecodeThreadName(p) == name
  {
    if |name| < |p| {
      assert p == name + [0] + p[|name| + 1..];
      TruncateAtNulOf(name, p[|name| + 1..]);
    } else {
      assert p == name;
      TruncateAtNulAll(p);
    }
  }

  lemma {:induction false} TruncateAtNulAll(w: seq<int>)
    requires NulFree(w)
    ensures TruncateAtNul(w) == w
  {
    if w != [] {
      TruncateAtNulAll(w[1..]);
      assert w == [w[0]] + w[1..];
    }
  }

  // ------------------------------------------------------ basic-block counts

  /** Offset of `frequency_data` in `TraceBasicBlockFrequencyData`. */
  const FrequencyFixedSize: nat := 24

  predicate ValidFrequencySize(fs: int)
  {
    fs == 1 || fs == 2 || fs == 4
  }

  /** One more than the largest count a counter of `fs` bytes can hold. */
  function CounterLimit(fs: int): nat
    requires ValidFrequencySize(fs)
  {
    if fs == 1 then 0x100 else if fs == 2 then 0x1_0000 else 0x1_0000_0000
  }

  /** `frequency_size * num_basic_blocks`, by cases so that it stays linear. */
  function FrequencyBytes(fs: int, n: nat): nat
    requires ValidFrequencySize(fs)
  {
    if fs == 1 then n else if fs == 2 then 2 * n else 4 * n
  }

  function EncodeCounter(v: u32, fs: int): (r: seq<byte>)
    requires ValidFrequencySize(fs) && v < CounterLimit(fs)
    ensures |r| == fs
  {
    if fs == 1 then [v] else if fs == 2 then EncodeU16(v) else EncodeU32(v)
  }

  function ReadCounter(s: seq<byte>, fs: int): (v: u32)
    requires ValidFrequencySize(fs) && fs <= |s|
    ensures v < CounterLimit(fs)
  {
    if fs == 1 then s[0] else if fs == 2 then DecodeU16(s[..2]) else DecodeU32(s[..4])
  }

  lemma CounterRoundTrip(v: u32, fs: int, rest: seq<byte>)
    requires ValidFrequencySize(fs) && v < CounterLimit(fs)
    ensures ReadCounter(EncodeCounter(v, fs) + rest, fs) == v
  {
    var s := EncodeCounter(v, fs) + rest;
    assert s[..fs] == EncodeCounter(v, fs);
    if fs == 2 {
      U16RoundTrip(v);
    } else if fs == 4 {
      U32RoundTrip(v);
    }
  }

  lemma CounterCanonical(s: seq<byte>, fs: int)
    requires ValidFrequencySize(fs) && fs <= |s|
    ensures EncodeCounter(ReadCounter(s, fs), fs) == s[..fs]
  {
    if fs == 2 {
      U16Canonical(s[..2]);
    } else if fs == 4 {
      U32Canonical(s[..4]);
    }
  }

  /** The `n` counters of `fs` bytes each stored at the front of `s`. */
  function DecodeCounters(s: seq<byte>, fs: int, n: nat): (r: seq<u32>)
    requires ValidFrequencySize(fs) && FrequencyBytes(fs, n) <= |s|
    ensures |r| == n
    ensures forall i :: 0 <= i < n ==> r[i] < CounterLimit(fs)
  {
    if n == 0 then []
    else [ReadCounter(s, fs)] + DecodeCounters(s[fs..], fs, n - 1)
  }

  function EncodeCounters(vs: seq<u32>, fs: int): (r: seq<byte>)
    requires ValidFrequencySize(fs)
    requires forall i :: 0 <= i < |vs| ==> vs[i] < CounterLimit(fs)
    ensures |r| == FrequencyBytes(fs, |vs|)
  {
    if vs == [] then [] else EncodeCounter(vs[0], fs) + EncodeCounters(vs[1..], fs)
  }

  lemma {:induction false} CountersRoundTrip(vs: seq<u32>, fs: int, rest: seq<byte>)
    requires ValidFrequencySize(fs)
    requires forall i :: 0 <= i < |vs| ==> vs[i] < CounterLimit(fs)
    ensures FrequencyBytes(fs, |vs|) <= |EncodeCounters(vs, fs) + rest|
    ensures DecodeCounters(EncodeCounters(vs, fs) + rest, fs, |vs|) == vs
  {
    if vs != [] {
      var ws := vs[1..];
      assert forall i :: 0 <= i < |ws| ==> ws[i] < CounterLimit(fs) by {
        assert forall i :: 0 <= i < |ws| ==> ws[i] == vs[i + 1];
      }
      var s := EncodeCounters(vs, fs) + rest;
      var tail := EncodeCounters(ws, fs) + rest;
      FirstCounter(vs, fs, rest);
      CounterAtFront(s, vs[0], fs, tail);
      CountersRoundTrip(ws, fs, rest);
      DecodeCountersFirst(s, fs, |vs|, vs[0], ws, tail);
      HeadTail(vs);
    }
  }

  /** Decoding n counters reads the first and decodes n - 1 from what follows it. */
  lemma DecodeCountersFirst(s: seq<byte>, fs: int, n: nat, v: u32, ws: seq<u32>, tail: seq<byte>)
    requires ValidFrequencySize(fs) && n == |ws| + 1 && FrequencyBytes(fs, n) <= |s|
    requires ReadCounter(s, fs) == v && s[fs..] == tail
    requires FrequencyBytes(fs, |ws|) <= |tail| && DecodeCounters(tail, fs, |ws|) == ws
    ensures DecodeCounters(s, fs, n) == [v] + ws
  {
  }

  /** An encoding is its first counter followed by the encoding of the others. */
  lemma FirstCounter(vs: seq<u32>, fs: int, rest: seq<byte>)
    requires ValidFrequencySize(fs) && vs != []
    requires forall i :: 0 <= i < |vs| ==> vs[i] < CounterLimit(fs)
    ensures EncodeCounters(vs, fs) + rest == EncodeCounter(vs[0], fs) + (EncodeCounters(vs[1..], fs) + rest)
  {
  }

  /** A counter at the front of `s` reads back, and what follows it is `tail`. */
  lemma CounterAtFront(s: seq<byte>, v: u32, fs: int, tail: seq<byte>)
    requires ValidFrequencySize(fs) && v < CounterLimit(fs)
    requires s == EncodeCounter(v, fs) + tail
    ensures fs <= |s| && ReadCounter(s, fs) == v && s[fs..] == tail
  {
    CounterRoundTrip(v, fs, tail);
  }

  lemma {:induction false} CountersCanonical(s: seq<byte>, fs: int, n: nat)
    requires ValidFrequencySize(fs) && FrequencyBytes(fs, n) <= |s|
    ensures EncodeCounters(DecodeCounters(s, fs, n), fs) == s[..FrequencyBytes(fs, n)]
  {
    if n > 0 {
      var r := DecodeCounters(s, fs, n);
      var tail := DecodeCounters(s[fs..], fs, n - 1);
      assert r == [ReadCounter(s, fs)] + tail;
      assert r[1..] == tail;
      assert EncodeCounters(tail, fs) == s[fs..][..FrequencyBytes(fs, n - 1)] by {
        CountersCanonical(s[fs..], fs, n - 1);
      }
      assert EncodeCounter(r[0], fs) == s[..fs] by {
        CounterCanonical(s, fs);
      }
      assert s[..FrequencyBytes(fs, n)] == s[..fs] + s[fs..][..FrequencyBytes(fs, n - 1)] by {
        PrefixSplit(s, fs, FrequencyBytes(fs, n - 1));
      }
    }
  }

  /** `TraceBasicBlockFrequencyData`: one counter per basic block of a module. */
  datatype BasicBlockFrequencyData = BasicBlockFrequencyData(
    moduleBaseAddress: u32,
    moduleBaseSize: u32,
    moduleChecksum: u32,
    moduleTimeDateStamp: u32,
    frequencySize: u32,
    frequencies: seq<u32>)

  predicate WellFormedFrequencies(d: BasicBlockFrequencyData)
  {
    && ValidFrequencySize(d.frequencySize)
    && |d.frequencies| < 0x1_0000_0000
    && forall i :: 0 <= i < |d.frequencies| ==> d.frequencies[i] < CounterLimit(d.frequencySize)
  }

  /** The six 32-bit fields in front of the counters, num_basic_blocks last. */
  function FrequencyWords(d: BasicBlockFrequencyData): seq<u32>
    requires |d.frequencies| < 0x1_0000_0000
  {
    [d.moduleBaseAddress, d.moduleBaseSize, d.moduleChecksum, d.moduleTimeDateStamp,
     d.frequencySize, |d.frequencies|]
  }

  function EncodeFrequencies(d: BasicBlockFrequencyData): (r: seq<byte>)
    requires WellFormedFrequencies(d)
    ensures |r| == FrequencyFixedSize + FrequencyBytes(d.frequencySize, |d.frequencies|)
  {
    EncodeU32s(FrequencyWords(d)) + EncodeCounters(d.frequencies, d.frequencySize)
  }

  /**
    Fails when the fixed fields are missing, when frequency_size is not 1, 2
    or 4, or when frequency_size * num_basic_blocks bytes do not follow.
  */
  function DecodeFrequencies(p: seq<byte>): (r: Result<BasicBlockFrequencyData, FormatError>)
    ensures r.Err? <==>
      || |p| < FrequencyFixedSize
      || !ValidFrequencySize(ReadU32(p, 16))
      || FrequencyFixedSize + FrequencyBytes(ReadU32(p, 16), ReadU32(p, 20)) > |p|
    ensures r.Ok? ==> WellFormedFrequencies(r.value)
    ensures r.Ok? ==> r.value.frequencySize == ReadU32(p, 16) && |r.value.frequencies| == ReadU32(p, 20)
  {
    if |p| < FrequencyFixedSize then Err(TruncatedPayload)
    else
      var fs := ReadU32(p, 16);
      var n := ReadU32(p, 20);
      if !ValidFrequencySize(fs) then Err(InvalidFrequencySize)
      else if FrequencyFixedSize + FrequencyBytes(fs, n) > |p| then Err(TruncatedPayload)
      else
        Ok(BasicBlockFrequencyData(ReadU32(p, 0), ReadU32(p, 4), ReadU32(p, 8), ReadU32(p, 12),
                                   fs, DecodeCounters(p[FrequencyFixedSize..], fs, n)))
  }

  lemma FrequenciesRoundTrip(d: BasicBlockFrequencyData, rest: seq<byte>)
    requires WellFormedFrequencies(d)
    ensures DecodeFrequencies(EncodeFrequencies(d) + rest) == Ok(d)
  {
    EncodedFrequencyFields(d, rest);
    CountersRoundTrip(d.frequencies, d.frequencySize, rest);
  }

  /** Where the decoder finds each fixed field of an encoded frequency payload. */
  lemma EncodedFrequencyFields(d: BasicBlockFrequencyData, rest: seq<byte>)
    requires WellFormedFrequencies(d)
    ensures var s := EncodeFrequencies(d) + rest;
      && |s| >= FrequencyFixedSize
      && ReadU32(s, 0) == d.moduleBaseAddress && ReadU32(s, 4) == d.moduleBaseSize
      && ReadU32(s, 8) == d.moduleChecksum && ReadU32(s, 12) == d.moduleTimeDateStamp
      && ReadU32(s, 16) == d.frequencySize && ReadU32(s, 20) == |d.frequencies|
      && s[FrequencyFixedSize..] == EncodeCounters(d.frequencies, d.frequencySize) + rest
  {
    var words := FrequencyWords(d);
    var t := EncodeCounters(d.frequencies, d.frequencySize) + rest;
    var s := EncodeFrequencies(d) + rest;
    assert s == EncodeU32s(words) + t;
    forall k | 0 <= k < 6
      ensures ReadU32(s, 4 * k) == words[k]
    {
      U32sAt(words, t, k);
    }
    assert ReadU32(s, 4 * 0) == words[0];
    assert ReadU32(s, 4 * 1) == words[1];
    assert ReadU32(s, 4 * 2) == words[2];
    assert ReadU32(s, 4 * 3) == words[3];
    assert ReadU32(s, 4 * 4) == words[4];
    assert ReadU32(s, 4 * 5) == words[5];
    assert s[24..] == t;
  }

  lemma FrequencyFields(p: seq<byte>, d: BasicBlockFrequencyData)
    requires DecodeFrequencies(p) == Ok(d)
    ensures FrequencyFixedSize + FrequencyBytes(d.frequencySize, |d.frequencies|) <= |p|
    ensures d.moduleBaseAddress == ReadU32(p, 0) && d.moduleBaseSize == ReadU32(p, 4)
    ensures d.moduleChecksum == ReadU32(p, 8) && d.moduleTimeDateStamp == ReadU32(p, 12)
    ensures d.frequencySize == ReadU32(p, 16) && |d.frequencies| == ReadU32(p, 20)
    ensures d.frequencies == DecodeCounters(p[FrequencyFixedSize..], d.frequencySize, |d.frequencies|)
  {
  }

  /** An accepted record occupies exactly the bytes of its own encoding. */
  lemma FrequenciesCanonical(p: seq<byte>, d: BasicBlockFrequencyData)
    requires DecodeFrequencies(p) == Ok(d)
    ensures EncodeFrequencies(d) == p[..FrequencyFixedSize + FrequencyBytes(d.frequencySize, |d.frequencies|)]
  {
    FrequencyFields(p, d);
    var fs, n := d.frequencySize, |d.frequencies|;
    FrequencyWordsCanonical(p, d);
    CountersCanonical(p[24..], fs, n);
    assert p[..24 + FrequencyBytes(fs, n)] == p[..24] + p[24..][..FrequencyBytes(fs, n)];
  }

  lemma FrequencyWordsCanonical(p: seq<byte>, d: BasicBlockFrequencyData)
    requires DecodeFrequencies(p) == Ok(d)
    ensures EncodeU32s(FrequencyWords(d)) == p[..FrequencyFixedSize]
  {
    FrequencyFields(p, d);
    var words := FrequencyWords(d);
    assert ReadU32(p, 4 * 0) == words[0] && ReadU32(p, 4 * 1) == words[1];
    assert ReadU32(p, 4 * 2) == words[2] && ReadU32(p, 4 * 3) == words[3];
    assert ReadU32(p, 4 * 4) == words[4] && ReadU32(p, 4 * 5) == words[5];
    U32sFromReads(p, words);
  }

  // ------------------------------------------------------------------ events

  /** The events that carry a `TraceModuleData` payload. */
  predicate IsModuleKind(t: TraceEventType)
  {
    t.ProcessAttachEvent? || t.ProcessDetachEvent? || t.ThreadAttachEvent?
    || t.ThreadDetachEvent? || t.ModuleEvent?
  }

  /** A decoded record: its kind together with its payload's contents. */
  datatype TraceEvent =
    | ProcessStart
    | ProcessEnd
    | FunctionEntry(callee: u32)
    | FunctionExit(callee: u32)
    | ModuleChange(kind: TraceEventType, data: ModuleData)
    | BatchEntry(batch: BatchEnterData)
    | BatchInvocations(invocations: seq<InvocationInfo>)
    | ThreadNaming(name: seq<byte>)
    | BlockFrequencies(frequencies: BasicBlockFrequencyData)

  /** The record kind an event is stored under. */
  function KindOf(e: TraceEvent): TraceEventType
    requires e.ModuleChange? ==> IsModuleKind(e.kind)
  {
    match e
    case ProcessStart => ProcessStarted
    case ProcessEnd => ProcessEnded
    case FunctionEntry(_) => EnterEvent
    case FunctionExit(_) => ExitEvent
    case ModuleChange(kind, _) => kind
    case BatchEntry(_) => BatchEnter
    case BatchInvocations(_) => BatchInvocation
    case ThreadNaming(_) => ThreadName
    case BlockFrequencies(_) => BasicBlockFrequency
  }

  predicate WellFormedEvent(e: TraceEvent)
  {
    match e
    case ModuleChange(kind, m) => IsModuleKind(kind) && WellFormedModuleData(m)
    case BatchEntry(b) => WellFormedBatchEnter(b)
    case ThreadNaming(name) => NulFree(name)
    case BlockFrequencies(d) => WellFormedFrequencies(d)
    case _ => true
  }

  /** The payload an event is written with. */
  function EncodePayload(e: TraceEvent): seq<byte>
    requires WellFormedEvent(e)
  {
    match e
    case ProcessStart => []
    case ProcessEnd => []
    case FunctionEntry(f) => EncodeU32(f)
    case FunctionExit(f) => EncodeU32(f)
    case ModuleChange(_, m) => EncodeModuleData(m)
    case BatchEntry(b) => EncodeBatchEnter(b)
    case BatchInvocations(xs) => EncodeInvocations(xs)
    case ThreadNaming(name) => EncodeThreadName(name)
    case BlockFrequencies(d) => EncodeFrequencies(d)
  }

  /** The event a payload of the given kind carries. */
  function DecodePayload(kind: TraceEventType, p: seq<byte>): (r: Result<TraceEvent, FormatError>)
    ensures r.Ok? ==> WellFormedEvent(r.value) && KindOf(r.value) == kind
    ensures kind.PageHeader? ==> r == Err(UnexpectedPageHeader)
  {
    match kind
    case PageHeader => Err(UnexpectedPageHeader)
    case ProcessStarted => Ok(ProcessStart)
    case ProcessEnded => Ok(ProcessEnd)
    case EnterEvent =>
      (match DecodeFunctionAddress(p)
       case Err(e) => Err(e)
       case Ok(f) => Ok(FunctionEntry(f)))
    case ExitEvent =>
      (match DecodeFunctionAddress(p)
       case Err(e) => Err(e)
       case Ok(f) => Ok(FunctionExit(f)))
    case BatchEnter =>
      (match DecodeBatchEnter(p)
       case Err(e) => Err(e)
       case Ok(b) => Ok(BatchEntry(b)))
    case BatchInvocation => Ok(BatchInvocations(DecodeInvocations(p)))
    case ThreadName => Ok(ThreadNaming(DecodeThreadName(p)))
    case BasicBlockFrequency =>
      (match DecodeFrequencies(p)
       case Err(e) => Err(e)
       case Ok(d) => Ok(BlockFrequencies(d)))
    case _ =>
      (match DecodeModuleData(p)
       case Err(e) => Err(e)
       case Ok(m) => Ok(ModuleChange(kind, m)))
  }

  /**
    The event a record with type tag `tag` and payload `p` carries.  Unknown
    tags and page headers (which only start segments) are errors; the payload
    of a process start or end is not looked at.
  */
  function DecodeEvent(tag: u16, p: seq<byte>): (r: Result<TraceEvent, FormatError>)
    ensures r.Ok? ==> WellFormedEvent(r.value) && TypeTag(KindOf(r.value)) == tag
    ensures TypeOfTag(tag).None? <==> r == Err(UnknownEventType)
    ensures tag == TypeTag(PageHeader) ==> r == Err(UnexpectedPageHeader)
  {
    match TypeOfTag(tag)
    case None => Err(UnknownEventType)
    case Some(kind) => DecodePayload(kind, p)
  }

  lemma FixedPayloadRoundTrip(e: TraceEvent)
    requires WellFormedEvent(e)
    requires e.FunctionEntry? || e.FunctionExit? || e.ModuleChange?
    ensures DecodePayload(KindOf(e), EncodePayload(e)) == Ok(e)
  {
    match e
    case FunctionEntry(f) =>
      FunctionPayloadRoundTrip(f);
    case FunctionExit(f) =>
      FunctionPayloadRoundTrip(f);
    case ModuleChange(_, m) =>
      ModuleDataPayloadRoundTrip(m);
  }

  lemma FunctionPayloadRoundTrip(f: u32)
    ensures DecodeFunctionAddress(EncodeU32(f)) == Ok(f)
  {
    FunctionAddressRoundTrip(f, []);
    assert EncodeU32(f) + [] == EncodeU32(f);
  }

  lemma ModuleDataPayloadRoundTrip(m: ModuleData)
    requires WellFormedModuleData(m)
    ensures DecodeModuleData(EncodeModuleData(m)) == Ok(m)
  {
    ModuleDataRoundTrip(m, []);
    assert EncodeModuleData(m) + [] == EncodeModuleData(m);
  }

  lemma BatchPayloadRoundTrip(b: BatchEnterData)
    requires WellFormedBatchEnter(b)
    ensures DecodePayload(BatchEnter, EncodeBatchEnter(b)) == Ok(BatchEntry(b))
  {
    assert DecodeBatchEnter(EncodeBatchEnter(b)) == Ok(b) by {
      BatchEnterRoundTrip(b, []);
      assert EncodeBatchEnter(b) + [] == EncodeBatchEnter(b);
    }
  }

  lemma InvocationsPayloadRoundTrip(xs: seq<InvocationInfo>)
    ensures DecodePayload(BatchInvocation, EncodeInvocations(xs)) == Ok(BatchInvocations(xs))
  {
    var p := EncodeInvocations(xs);
    InvocationsWholeRoundTrip(xs);
    InvocationsPayload(p);
  }

  /** A batch-invocation payload decodes to as many entries as it holds. */
  lemma InvocationsPayload(p: seq<byte>)
    ensures DecodePayload(BatchInvocation, p) == Ok(BatchInvocations(DecodeInvocations(p)))
  {
  }

  lemma InvocationsWholeRoundTrip(xs: seq<InvocationInfo>)
    ensures DecodeInvocations(EncodeInvocations(xs)) == xs
  {
    InvocationsRoundTrip(xs, []);
    assert EncodeInvocations(xs) + [] == EncodeInvocations(xs);
  }

  lemma ThreadNamePayloadRoundTrip(name: seq<byte>)
    requires NulFree(name)
    ensures DecodePayload(ThreadName, EncodeThreadName(name)) == Ok(ThreadNaming(name))
  {
    assert DecodeThreadName(EncodeThreadName(name)) == name by {
      ThreadNameRoundTrip(name, []);
      assert EncodeThreadName(name) + [] == EncodeThreadName(name);
    }
  }

  lemma FrequenciesPayloadRoundTrip(d: BasicBlockFrequencyData)
    requires WellFormedFrequencies(d)
    ensures DecodePayload(BasicBlockFrequency, EncodeFrequencies(d)) == Ok(BlockFrequencies(d))
  {
    assert DecodeFrequencies(EncodeFrequencies(d)) == Ok(d) by {
      FrequenciesRoundTrip(d, []);
      assert EncodeFrequencies(d) + [] == EncodeFrequencies(d);
    }
  }

  /** Every well-formed event survives being written as a record and read back. */
  lemma EventRoundTrip(e: TraceEvent)
    requires WellFormedEvent(e)
    ensures DecodeEvent(TypeTag(KindOf(e)), EncodePayload(e)) == Ok(e)
  {
    TypeOfTagRoundTrip(KindOf(e));
    if e.FunctionEntry? || e.FunctionExit? || e.ModuleChange? {
      FixedPayloadRoundTrip(e);
    } else if e.BatchEntry? {
      BatchPayloadRoundTrip(e.batch);
    } else if e.BatchInvocations? {
      InvocationsPayloadRoundTrip(e.invocations);
    } else if e.ThreadNaming? {
      ThreadNamePayloadRoundTrip(e.name);
    } else if e.BlockFrequencies? {
      FrequenciesPayloadRoundTrip(e.frequencies);
    }
  }
}

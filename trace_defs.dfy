/**
  The on-disk layout of a call-trace file (the structures declared in
  syzygy/trace/protocol/call_trace_defs.h): type tags, the 12-byte record
  prefix, the file header with its variable-length blob, the segment header,
  and the stream of records inside a segment. Every structure is little
  endian; pointer- and size_t-typed fields are 4 bytes wide.
*/
module TraceDefs {
  import opened Common
  import opened Bytes

  /** The format version written by the current client; bumped on every format change. */
  const TraceVersionHi: u16 := 1
  const TraceVersionLo: u16 := 2

  /** Everything a decoder can find wrong with the bytes it is given. */
  datatype FormatError =
    | TruncatedHeader
    | InvalidSignature
    | InvalidHeaderSize
    | InvalidBlockSize
    | InvalidBlob
    | TruncatedSegment
    | NotASegmentHeader
    | TruncatedRecord
    | TruncatedPayload
    | InvalidFrequencySize
    | UnexpectedPageHeader
    | UnknownEventType

  // ---------------------------------------------------------------- type tags

  datatype TraceEventType =
    | PageHeader
    | ProcessStarted
    | ProcessEnded
    | EnterEvent
    | ExitEvent
    | ProcessAttachEvent
    | ProcessDetachEvent
    | ThreadAttachEvent
    | ThreadDetachEvent
    | ModuleEvent
    | BatchEnter
    | BatchInvocation
    | ThreadName
    | BasicBlockFrequency

  /** The event kinds (everything but the page header) in declaration order. */
  const EventKinds: seq<TraceEventType> :=
    [ProcessStarted, ProcessEnded, EnterEvent, ExitEvent, ProcessAttachEvent,
     ProcessDetachEvent, ThreadAttachEvent, ThreadDetachEvent, ModuleEvent,
     BatchEnter, BatchInvocation, ThreadName, BasicBlockFrequency]

  /**
    The 16-bit tag stored in a record prefix: 0 for a page header, and
    consecutive values from 10 for the event kinds, in declaration order.
  */
  function TypeTag(t: TraceEventType): (tag: u16)
    ensures (tag == 0) == t.PageHeader?
    ensures !t.PageHeader? ==> 10 <= tag < 10 + |EventKinds| && EventKinds[tag - 10] == t
  {
    match t
    case PageHeader => 0
    case ProcessStarted => 10
    case ProcessEnded => 11
    case EnterEvent => 12
    case ExitEvent => 13
    case ProcessAttachEvent => 14
    case ProcessDetachEvent => 15
    case ThreadAttachEvent => 16
    case ThreadDetachEvent => 17
    case ModuleEvent => 18
    case BatchEnter => 19
    case BatchInvocation => 20
    case ThreadName => 21
    case BasicBlockFrequency => 22
  }

  /** The kind a stored tag denotes, or None for a tag no kind has. */
  function TypeOfTag(tag: u16): (r: Option<TraceEventType>)
    ensures r.Some? ==> TypeTag(r.value) == tag
    ensures r.None? <==> forall t :: TypeTag(t) != tag
  {
    if tag == 0 then Some(PageHeader)
    else if 10 <= tag < 10 + |EventKinds| then Some(EventKinds[tag - 10])
    else None
  }

  /** Every kind is recovered from its own tag. */
  lemma TypeOfTagRoundTrip(t: TraceEventType)
    ensures TypeOfTag(TypeTag(t)) == Some(t)
  {
  }

  // ------------------------------------------------------------ record prefix

  const RecordPrefixSize: nat := 12

  datatype RecordPrefix = RecordPrefix(timestamp: u32, size: u32, tag: u16, versionHi: byte, versionLo: byte)

  /** timestamp(4) size(4) type(2) version.hi(1) version.lo(1). */
  function EncodeRecordPrefix(p: RecordPrefix): (r: seq<byte>)
    ensures |r| == RecordPrefixSize
    ensures r[..4] == EncodeU32(p.timestamp) && r[4..8] == EncodeU32(p.size)
    ensures r[8..10] == EncodeU16(p.tag) && r[10] == p.versionHi && r[11] == p.versionLo
  {
    EncodeU32(p.timestamp) + EncodeU32(p.size) + EncodeU16(p.tag) + [p.versionHi, p.versionLo]
  }

  function DecodeRecordPrefix(s: seq<byte>): (r: Option<RecordPrefix>)
    ensures r.Some? <==> |s| >= RecordPrefixSize
  {
    if |s| < RecordPrefixSize then None
    else Some(RecordPrefix(ReadU32(s, 0), ReadU32(s, 4), DecodeU16(s[8..10]), s[10], s[11]))
  }

  lemma RecordPrefixRoundTrip(p: RecordPrefix, rest: seq<byte>)
    ensures DecodeRecordPrefix(EncodeRecordPrefix(p) + rest) == Some(p)
  {
    var s := EncodeRecordPrefix(p) + rest;
    assert s[0..4] == EncodeU32(p.timestamp);
    assert s[4..8] == EncodeU32(p.size);
    assert s[8..10] == EncodeU16(p.tag);
    U32RoundTrip(p.timestamp);
    U32RoundTrip(p.size);
    U16RoundTrip(p.tag);
  }

  lemma RecordPrefixCanonical(s: seq<byte>)
    requires |s| >= RecordPrefixSize
    ensures EncodeRecordPrefix(DecodeRecordPrefix(s).value) == s[..RecordPrefixSize]
  {
    U32Canonical(s[0..4]);
    U32Canonical(s[4..8]);
    U16Canonical(s[8..10]);
    assert s[..RecordPrefixSize] == s[0..4] + s[4..8] + s[8..10] + [s[10], s[11]];
  }

  // -------------------------------------------------------------- environment

  /** Environment entries are non-empty and hold no NUL. */
  predicate ValidEnvironment(env: seq<seq<wchar>>)
  {
    forall i :: 0 <= i < |env| ==> env[i] != [] && NulFree(env[i])
  }

  /** Each entry followed by a NUL, then one more NUL closing the block. */
  function EncodeEnvEntries(env: seq<seq<wchar>>): (w: seq<wchar>)
    ensures |w| >= 1 && w[|w| - 1] == 0
    ensures env != [] ==> |w| >= 2 && w[|w| - 2] == 0
  {
    if env == [] then [0] else env[0] + [0] + EncodeEnvEntries(env[1..])
  }

  /** An environment block: NUL-separated entries, terminated by a double NUL. */
  function EncodeEnvironment(env: seq<seq<wchar>>): (w: seq<wchar>)
    ensures |w| >= 2 && w[|w| - 2..] == [0, 0]
  {
    if env == [] then [0, 0] else EncodeEnvEntries(env)
  }

  function DecodeEnvEntries(w: seq<wchar>): Option<seq<seq<wchar>>>
    decreases |w|
  {
    if w == [0] then Some([])
    else
      match SplitAtNul(w)
      case None => None
      case Some((entry, rest)) =>
        if entry == [] then None
        else
          match DecodeEnvEntries(rest)
          case None => None
          case Some(tail) => Some([entry] + tail)
  }

  function DecodeEnvironment(w: seq<wchar>): Option<seq<seq<wchar>>>
  {
    if w == [0, 0] then Some([])
    else if |w| > 0 && w[0] == 0 then None
    else DecodeEnvEntries(w)
  }

  lemma {:induction false} EnvEntriesRoundTrip(env: seq<seq<wchar>>)
    requires ValidEnvironment(env)
    ensures DecodeEnvEntries(EncodeEnvEntries(env)) == Some(env)
  {
    if env != [] {
      var w := EncodeEnvEntries(env);
      assert w == env[0] + [0] + EncodeEnvEntries(env[1..]);
      SplitAtNulOf(env[0], EncodeEnvEntries(env[1..]));
      assert w != [0] by { assert |env[0]| > 0 && w[0] == env[0][0] != 0; }
      EnvEntriesRoundTrip(env[1..]);
      HeadTail(env);
    }
  }

  lemma {:induction false} EnvEntriesCanonical(w: seq<wchar>, env: seq<seq<wchar>>)
    requires DecodeEnvEntries(w) == Some(env)
    ensures ValidEnvironment(env) && EncodeEnvEntries(env) == w
    decreases |w|
  {
    if w != [0] {
      var split := SplitAtNul(w).value;
      var tail := DecodeEnvEntries(split.1).value;
      EnvEntriesCanonical(split.1, tail);
      assert env == [split.0] + tail;
      assert env[1..] == tail;
    }
  }

  /** Decoding an encoded environment block gives back its entries. */
  lemma EnvironmentRoundTrip(env: seq<seq<wchar>>)
    requires ValidEnvironment(env)
    ensures DecodeEnvironment(EncodeEnvironment(env)) == Some(env)
  {
    if env != [] {
      var w := EncodeEnvEntries(env);
      assert |env[0]| > 0 && w[0] == env[0][0] != 0;
      EnvEntriesRoundTrip(env);
    }
  }

  /** A block the decoder accepts is exactly the encoding of what it returns. */
  lemma EnvironmentCanonical(w: seq<wchar>, env: seq<seq<wchar>>)
    requires DecodeEnvironment(w) == Some(env)
    ensures ValidEnvironment(env) && EncodeEnvironment(env) == w
  {
    if w != [0, 0] {
      EnvEntriesCanonical(w, env);
    }
  }

  // ------------------------------------------------- environment key/value pairs

  /** The separator between the key and the value of an environment entry. */
  const EqualsSign: wchar := 0x3D

  /** The position of the first `c` in `w`, or `|w|` when there is none. */
  function FirstIndexOf(w: seq<wchar>, c: wchar): (i: nat)
    ensures i <= |w| && (i < |w| ==> w[i] == c)
    ensures forall j :: 0 <= j < i ==> w[j] != c
    decreases |w|
  {
    if w == [] then 0 else if w[0] == c then 0 else 1 + FirstIndexOf(w[1..], c)
  }

  /**
    An entry split at its first `=` into a key and a value.  A special entry
    such as `=C:=C:\dir`, which starts with `=`, has an empty key; an entry
    with no `=` at all has no key/value form.
  */
  function SplitEnvEntry(e: seq<wchar>): (r: Option<(seq<wchar>, seq<wchar>)>)
    ensures r.None? <==> forall j :: 0 <= j < |e| ==> e[j] != EqualsSign
    ensures r.Some? ==> forall j :: 0 <= j < |r.value.0| ==> r.value.0[j] != EqualsSign
  {
    var i := FirstIndexOf(e, EqualsSign);
    if i == |e| then None else Some((e[..i], e[i + 1..]))
  }

  function JoinEnvEntry(key: seq<wchar>, value: seq<wchar>): seq<wchar>
  {
    key + [EqualsSign] + value
  }

  /** A pair that can be stored: no NUL anywhere, and no `=` in the key. */
  predicate ValidEnvPair(p: (seq<wchar>, seq<wchar>))
  {
    NulFree(p.0) && NulFree(p.1) && forall j :: 0 <= j < |p.0| ==> p.0[j] != EqualsSign
  }

  /** Splitting a joined pair gives the pair back. */
  lemma SplitJoinEnvEntry(key: seq<wchar>, value: seq<wchar>)
    requires forall j :: 0 <= j < |key| ==> key[j] != EqualsSign
    ensures SplitEnvEntry(JoinEnvEntry(key, value)) == Some((key, value))
  {
    var e := JoinEnvEntry(key, value);
    var i := FirstIndexOf(e, EqualsSign);
    assert e[|key|] == EqualsSign;
    assert forall j :: 0 <= j < |key| ==> e[j] == key[j];
    assert e[..i] == key;
    assert e[i + 1..] == value;
  }

  /** A split entry joins back to itself, and its key holds no `=`. */
  lemma JoinSplitEnvEntry(e: seq<wchar>)
    requires SplitEnvEntry(e).Some?
    ensures var (key, value) := SplitEnvEntry(e).value;
      JoinEnvEntry(key, value) == e
  {
    var i := FirstIndexOf(e, EqualsSign);
    assert e == e[..i] + [EqualsSign] + e[i + 1..];
  }

  /** A special entry starting with `=` has an empty key and keeps the rest as its value. */
  lemma SpecialEntryHasEmptyKey(e: seq<wchar>)
    requires e != [] && e[0] == EqualsSign
    ensures SplitEnvEntry(e) == Some(([], e[1..]))
  {
  }

  /** Every entry of an environment split into its pair; none if some entry has no `=`. */
  function SplitEnvEntries(env: seq<seq<wchar>>): (r: Option<seq<(seq<wchar>, seq<wchar>)>>)
    ensures r.Some? ==> |r.value| == |env|
    decreases |env|
  {
    if env == [] then Some([])
    else
      match SplitEnvEntry(env[0])
      case None => None
      case Some(p) =>
        match SplitEnvEntries(env[1..])
        case None => None
        case Some(ps) => Some([p] + ps)
  }

  function JoinEnvEntries(ps: seq<(seq<wchar>, seq<wchar>)>): (r: seq<seq<wchar>>)
    ensures |r| == |ps|
    ensures forall i :: 0 <= i < |ps| ==> r[i] == JoinEnvEntry(ps[i].0, ps[i].1)
  {
    seq(|ps|, i requires 0 <= i < |ps| => JoinEnvEntry(ps[i].0, ps[i].1))
  }

  predicate ValidEnvPairs(ps: seq<(seq<wchar>, seq<wchar>)>)
  {
    forall i :: 0 <= i < |ps| ==> ValidEnvPair(ps[i])
  }

  /** Splitting the joined entries gives every pair back, in order. */
  lemma {:induction false} SplitJoinEnvEntries(ps: seq<(seq<wchar>, seq<wchar>)>)
    requires ValidEnvPairs(ps)
    ensures SplitEnvEntries(JoinEnvEntries(ps)) == Some(ps)
    decreases |ps|
  {
    if ps != [] {
      var env := JoinEnvEntries(ps);
      SplitJoinEnvEntry(ps[0].0, ps[0].1);
      assert env[1..] == JoinEnvEntries(ps[1..]);
      SplitJoinEnvEntries(ps[1..]);
      HeadTail(ps);
    }
  }

  /** Split entries are valid pairs that join back to the entries they came from. */
  lemma {:induction false} JoinSplitEnvEntries(env: seq<seq<wchar>>, ps: seq<(seq<wchar>, seq<wchar>)>)
    requires ValidEnvironment(env) && SplitEnvEntries(env) == Some(ps)
    ensures ValidEnvPairs(ps) && JoinEnvEntries(ps) == env
    decreases |env|
  {
    if env != [] {
      var tail := SplitEnvEntries(env[1..]).value;
      JoinSplitEnvEntry(env[0]);
      JoinSplitEnvEntries(env[1..], tail);
      assert ps == [ps[0]] + tail;
      assert ps[0].0 + [EqualsSign] + ps[0].1 == env[0];
      assert NulFree(ps[0].0) && NulFree(ps[0].1) by {
        assert forall j :: 0 <= j < |ps[0].0| ==> ps[0].0[j] == env[0][j];
        assert forall j :: 0 <= j < |ps[0].1| ==> ps[0].1[j] == env[0][|ps[0].0| + 1 + j];
      }
      assert JoinEnvEntries(ps) == [env[0]] + JoinEnvEntries(tail);
      HeadTail(env);
    }
  }

  /** Joined valid pairs form a valid environment. */
  lemma JoinedEnvironmentValid(ps: seq<(seq<wchar>, seq<wchar>)>)
    requires ValidEnvPairs(ps)
    ensures ValidEnvironment(JoinEnvEntries(ps))
  {
    var env := JoinEnvEntries(ps);
    forall i | 0 <= i < |env|
      ensures env[i] != [] && NulFree(env[i])
    {
      var (k, v) := ps[i];
      assert env[i] == k + [EqualsSign] + v;
      assert forall j :: 0 <= j < |env[i]| ==> env[i][j] == (if j < |k| then k[j] else if j == |k| then EqualsSign else v[j - |k| - 1]);
    }
  }

  /**
    The environment block as the key/value pairs of `TraceEnvironmentStrings`;
    none when the block is malformed or an entry has no `=`.
  */
  function DecodeEnvironmentPairs(w: seq<wchar>): Option<seq<(seq<wchar>, seq<wchar>)>>
  {
    match DecodeEnvironment(w)
    case None => None
    case Some(env) => SplitEnvEntries(env)
  }

  function EncodeEnvironmentPairs(ps: seq<(seq<wchar>, seq<wchar>)>): seq<wchar>
  {
    EncodeEnvironment(JoinEnvEntries(ps))
  }

  /** Valid key/value pairs are recovered, in order, from their environment block. */
  lemma EnvironmentPairsRoundTrip(ps: seq<(seq<wchar>, seq<wchar>)>)
    requires ValidEnvPairs(ps)
    ensures DecodeEnvironmentPairs(EncodeEnvironmentPairs(ps)) == Some(ps)
  {
    JoinedEnvironmentValid(ps);
    EnvironmentRoundTrip(JoinEnvEntries(ps));
    SplitJoinEnvEntries(ps);
  }

  /** A block that decodes to pairs is exactly the encoding of those pairs. */
  lemma EnvironmentPairsCanonical(w: seq<wchar>, ps: seq<(seq<wchar>, seq<wchar>)>)
    requires DecodeEnvironmentPairs(w) == Some(ps)
    ensures ValidEnvPairs(ps) && EncodeEnvironmentPairs(ps) == w
  {
    var env := DecodeEnvironment(w).value;
    EnvironmentCanonical(w, env);
    JoinSplitEnvEntries(env, ps);
  }

  // ------------------------------------------------------------- header blob

  /** The variable-length fields stored, in this order, in the header blob. */
  datatype HeaderBlob = HeaderBlob(modulePath: seq<wchar>, commandLine: seq<wchar>, environment: seq<seq<wchar>>)

  predicate ValidBlob(b: HeaderBlob)
  {
    NulFree(b.modulePath) && NulFree(b.commandLine) && ValidEnvironment(b.environment)
  }

  /** Module path, NUL, command line, NUL, environment block. */
  function BlobChars(b: HeaderBlob): seq<wchar>
  {
    b.modulePath + [0] + b.commandLine + [0] + EncodeEnvironment(b.environment)
  }

  function EncodeBlob(b: HeaderBlob): seq<byte>
  {
    WideToBytes(BlobChars(b))
  }

  function DecodeBlobChars(w: seq<wchar>): Option<HeaderBlob>
  {
    match SplitAtNul(w)
    case None => None
    case Some((path, afterPath)) =>
      match SplitAtNul(afterPath)
      case None => None
      case Some((commandLine, afterCommandLine)) =>
        match DecodeEnvironment(afterCommandLine)
        case None => None
        case Some(env) => Some(HeaderBlob(path, commandLine, env))
  }

  function DecodeBlob(s: seq<byte>): Option<HeaderBlob>
  {
    if |s| % 2 != 0 then None else DecodeBlobChars(BytesToWide(s))
  }

  lemma BlobCharsRoundTrip(b: HeaderBlob)
    requires ValidBlob(b)
    ensures DecodeBlobChars(BlobChars(b)) == Some(b)
  {
    var env := EncodeEnvironment(b.environment);
    var afterPath := b.commandLine + [0] + env;
    assert BlobChars(b) == b.modulePath + [0] + afterPath;
    SplitAtNulOf(b.modulePath, afterPath);
    SplitAtNulOf(b.commandLine, env);
    EnvironmentRoundTrip(b.environment);
  }

  /** Decoding an encoded blob gives back the three fields. */
  lemma BlobRoundTrip(b: HeaderBlob)
    requires ValidBlob(b)
    ensures DecodeBlob(EncodeBlob(b)) == Some(b)
  {
    WideRoundTrip(BlobChars(b));
    WideToBytesEven(BlobChars(b));
    BlobCharsRoundTrip(b);
  }

  /**
    A blob the decoder accepts splits, in order, into the module path, the
    command line and the environment block, and nothing else.
  */
  lemma BlobCanonical(s: seq<byte>, b: HeaderBlob)
    requires DecodeBlob(s) == Some(b)
    ensures ValidBlob(b) && EncodeBlob(b) == s
  {
    BlobCharsCanonical(BytesToWide(s), b);
    WideCanonical(s);
  }

  lemma BlobCharsCanonical(w: seq<wchar>, b: HeaderBlob)
    requires DecodeBlobChars(w) == Some(b)
    ensures ValidBlob(b) && BlobChars(b) == w
  {
    var split1 := SplitAtNul(w).value;
    var split2 := SplitAtNul(split1.1).value;
    assert b == HeaderBlob(split1.0, split2.0, b.environment);
    assert DecodeEnvironment(split2.1) == Some(b.environment);
    EnvironmentCanonical(split2.1, b.environment);
    JoinAtNuls(split1.0, split2.0, split2.1);
  }

  lemma JoinAtNuls(a: seq<wchar>, b: seq<wchar>, c: seq<wchar>)
    ensures a + [0] + b + [0] + c == a + [0] + (b + [0] + c)
  {
  }

  // -------------------------------------------------------------- file header

  /** "SZGY" */
  const Signature: seq<byte> := [0x53, 0x5A, 0x47, 0x59]

  /** Sizes of the operating-system information blocks, kept as opaque bytes. */
  const OsVersionInfoSize: nat := 284
  const SystemInfoSize: nat := 36
  const MemoryStatusSize: nat := 64

  /**
    Offset of the blob: signature(4), server version lo/hi (2+2), eight
    32-bit fields, then the three OS information blocks.
  */
  const HeaderFixedSize: nat := 40 + OsVersionInfoSize + SystemInfoSize + MemoryStatusSize

  datatype FileHeader = FileHeader(
    versionLo: u16,
    versionHi: u16,
    blockSize: u32,
    processId: u32,
    timestamp: u32,
    moduleBaseAddress: u32,
    moduleSize: u32,
    moduleChecksum: u32,
    moduleTimeDateStamp: u32,
    osVersionInfo: seq<byte>,
    systemInfo: seq<byte>,
    memoryStatus: seq<byte>,
    blob: seq<byte>)

  /** The header_size field: the fixed part plus the blob. */
  function HeaderSize(h: FileHeader): nat
  {
    HeaderFixedSize + |h.blob|
  }

  predicate WellFormedHeader(h: FileHeader)
  {
    && |h.osVersionInfo| == OsVersionInfoSize
    && |h.systemInfo| == SystemInfoSize
    && |h.memoryStatus| == MemoryStatusSize
    && h.blockSize > 0
    && HeaderSize(h) < 0x1_0000_0000
    && DecodeBlob(h.blob).Some?
  }

  /** The variable-length fields of a header the decoder accepted. */
  function HeaderStrings(h: FileHeader): HeaderBlob
    requires WellFormedHeader(h)
  {
    DecodeBlob(h.blob).value
  }

  /** The eight 32-bit fields that follow the version, header_size first. */
  function HeaderWords(h: FileHeader): seq<u32>
    requires HeaderSize(h) < 0x1_0000_0000
  {
    var headerSize: u32 := HeaderSize(h);
    [headerSize, h.blockSize, h.processId, h.timestamp,
     h.moduleBaseAddress, h.moduleSize, h.moduleChecksum, h.moduleTimeDateStamp]
  }

  /** Signature, server version (lo, hi), the 32-bit fields and the OS blocks. */
  function EncodeHeaderFixedPart(h: FileHeader): (r: seq<byte>)
    requires HeaderSize(h) < 0x1_0000_0000
  {
    Signature + EncodeU16(h.versionLo) + EncodeU16(h.versionHi) + EncodeU32s(HeaderWords(h))
    + h.osVersionInfo + h.systemInfo + h.memoryStatus
  }

  function EncodeFileHeader(h: FileHeader): (r: seq<byte>)
    requires WellFormedHeader(h)
  {
    EncodeHeaderFixedPart(h) + h.blob
  }

  /** A header of the current format version carries the bytes 2, 0, 1, 0 (lo, then hi) after its signature. */
  lemma CurrentVersionLayout(h: FileHeader, rest: seq<byte>)
    requires WellFormedHeader(h)
    requires h.versionHi == TraceVersionHi && h.versionLo == TraceVersionLo
    ensures (EncodeFileHeader(h) + rest)[4..8] == [2, 0, 1, 0]
  {
    var fixed := EncodeHeaderFixedPart(h);
    FixedPartLayout(h, h.blob + rest);
    AppendAssoc(fixed, h.blob, rest);
    VersionBytes(fixed + (h.blob + rest), h.versionLo, h.versionHi);
  }

  lemma VersionBytes(s: seq<byte>, lo: u16, hi: u16)
    requires |s| >= 8 && s[4..6] == EncodeU16(lo) && s[6..8] == EncodeU16(hi)
    requires lo == TraceVersionLo && hi == TraceVersionHi
    ensures s[4..8] == [2, 0, 1, 0]
  {
    assert s[4..8] == s[4..6] + s[6..8];
  }

  /** Where each piece of the fixed part sits in an encoded header. */
  lemma FixedPartLayout(h: FileHeader, rest: seq<byte>)
    requires HeaderSize(h) < 0x1_0000_0000
    requires |h.osVersionInfo| == OsVersionInfoSize && |h.systemInfo| == SystemInfoSize
    requires |h.memoryStatus| == MemoryStatusSize
    ensures var s := EncodeHeaderFixedPart(h) + rest;
      && |EncodeHeaderFixedPart(h)| == HeaderFixedSize
      && s[..4] == Signature
      && s[4..6] == EncodeU16(h.versionLo)
      && s[6..8] == EncodeU16(h.versionHi)
      && s[8..] == EncodeU32s(HeaderWords(h)) + s[40..]
      && s[40..324] == h.osVersionInfo
      && s[324..360] == h.systemInfo
      && s[360..HeaderFixedSize] == h.memoryStatus
      && s[HeaderFixedSize..] == rest
  {
  }

  /** The header whose fixed fields are read from the front of `s`, with the given blob. */
  function DecodeHeaderFields(s: seq<byte>, blob: seq<byte>): FileHeader
    requires |s| >= HeaderFixedSize
  {
    FileHeader(DecodeU16(s[4..6]), DecodeU16(s[6..8]),
               ReadU32(s, 12), ReadU32(s, 16), ReadU32(s, 20), ReadU32(s, 24),
               ReadU32(s, 28), ReadU32(s, 32), ReadU32(s, 36),
               s[40..324], s[324..360], s[360..HeaderFixedSize], blob)
  }

  /**
    The header at the front of `s`: it fails on a short buffer, a signature
    other than "SZGY", a header_size outside [fixed size, |s|], a zero block
    size, or a blob that is not path, command line and environment.
  */
  function DecodeFileHeader(s: seq<byte>): (r: Result<FileHeader, FormatError>)
    ensures r.Ok? ==> |s| >= HeaderFixedSize && s[..4] == Signature
    ensures r.Ok? ==> WellFormedHeader(r.value) && ReadU32(s, 8) == HeaderSize(r.value) <= |s|
    ensures r.Ok? ==> r.value.versionLo == DecodeU16(s[4..6]) && r.value.versionHi == DecodeU16(s[6..8])
  {
    if |s| < HeaderFixedSize then Err(TruncatedHeader)
    else if s[..4] != Signature then Err(InvalidSignature)
    else
      var headerSize := ReadU32(s, 8);
      if headerSize < HeaderFixedSize || headerSize > |s| then Err(InvalidHeaderSize)
      else if ReadU32(s, 12) == 0 then Err(InvalidBlockSize)
      else if DecodeBlob(s[HeaderFixedSize..headerSize]).None? then Err(InvalidBlob)
      else Ok(DecodeHeaderFields(s, s[HeaderFixedSize..headerSize]))
  }

  lemma HeaderFieldsRoundTrip(h: FileHeader, rest: seq<byte>)
    requires HeaderSize(h) < 0x1_0000_0000
    requires |h.osVersionInfo| == OsVersionInfoSize && |h.systemInfo| == SystemInfoSize
    requires |h.memoryStatus| == MemoryStatusSize
    ensures var s := EncodeHeaderFixedPart(h) + rest;
      && ReadU32(s, 8) == HeaderSize(h)
      && ReadU32(s, 12) == h.blockSize
      && DecodeHeaderFields(s, h.blob) == h
  {
    var s := EncodeHeaderFixedPart(h) + rest;
    var words := HeaderWords(h);
    FixedPartLayout(h, rest);
    U16RoundTrip(h.versionLo);
    U16RoundTrip(h.versionHi);
    forall k | 0 <= k < 8
      ensures ReadU32(s, 8 + 4 * k) == words[k]
    {
      U32sAt(words, s[40..], k);
      ReadU32Shift(s, 8, 4 * k);
    }
    assert ReadU32(s, 8 + 4 * 0) == words[0];
    assert ReadU32(s, 8 + 4 * 1) == words[1];
    assert ReadU32(s, 8 + 4 * 2) == words[2];
    assert ReadU32(s, 8 + 4 * 3) == words[3];
    assert ReadU32(s, 8 + 4 * 4) == words[4];
    assert ReadU32(s, 8 + 4 * 5) == words[5];
    assert ReadU32(s, 8 + 4 * 6) == words[6];
    assert ReadU32(s, 8 + 4 * 7) == words[7];
  }

  /** Decoding an encoded header, followed by anything at all, gives the header back. */
  lemma FileHeaderRoundTrip(h: FileHeader, rest: seq<byte>)
    requires WellFormedHeader(h)
    ensures DecodeFileHeader(EncodeFileHeader(h) + rest) == Ok(h)
  {
    EncodedHeaderFields(h, rest);
  }

  /** What the decoder reads from an encoded header, piece by piece. */
  lemma EncodedHeaderFields(h: FileHeader, rest: seq<byte>)
    requires WellFormedHeader(h)
    ensures var s := EncodeFileHeader(h) + rest;
      && |s| >= HeaderFixedSize && s[..4] == Signature
      && s[HeaderFixedSize..HeaderSize(h)] == h.blob
      && ReadU32(s, 8) == HeaderSize(h) && ReadU32(s, 12) == h.blockSize
      && DecodeHeaderFields(s, h.blob) == h
  {
    var t := h.blob + rest;
    var s := EncodeFileHeader(h) + rest;
    assert s == EncodeHeaderFixedPart(h) + t;
    assert |s| >= HeaderFixedSize && s[..4] == Signature && s[HeaderFixedSize..] == t by {
      FixedPartLayout(h, t);
    }
    assert s[HeaderFixedSize..HeaderSize(h)] == s[HeaderFixedSize..][..|h.blob|];
    HeaderFieldsRoundTrip(h, t);
  }

  lemma FixedPartCanonical(s: seq<byte>, h: FileHeader)
    requires |s| >= HeaderFixedSize && s[..4] == Signature
    requires h == DecodeHeaderFields(s, h.blob) && ReadU32(s, 8) == HeaderSize(h)
    ensures EncodeHeaderFixedPart(h) == s[..HeaderFixedSize]
  {
    var words := HeaderWords(h);
    forall k | 0 <= k < 8
      ensures ReadU32(s[8..], 4 * k) == words[k]
    {
      ReadU32Shift(s, 8, 4 * k);
    }
    U32sFromReads(s[8..], words);
    U16Canonical(s[4..6]);
    U16Canonical(s[6..8]);
    var p := s[..HeaderFixedSize];
    assert p[..8] == s[..4] + s[4..6] + s[6..8];
    assert p[..40] == p[..8] + s[8..][..32];
    assert p[..324] == p[..40] + h.osVersionInfo;
    assert p[..360] == p[..324] + h.systemInfo;
    assert p == p[..360] + h.memoryStatus;
  }

  /**
    A header the decoder accepts: its first header_size bytes are exactly
    the encoding of the decoded value.
  */
  lemma FileHeaderCanonical(s: seq<byte>, h: FileHeader)
    requires DecodeFileHeader(s) == Ok(h)
    ensures EncodeFileHeader(h) == s[..HeaderSize(h)]
  {
    FixedPartCanonical(s, h);
    assert s[..HeaderSize(h)] == s[..HeaderFixedSize] + h.blob;
  }

  // ----------------------------------------------------------------- segments

  /** thread_id(4) and segment_length(4), following a page-header record prefix. */
  const SegmentHeaderSize: nat := 8

  /** One segment: its page-header prefix, the reporting thread and its record bytes. */
  datatype Segment = Segment(prefix: RecordPrefix, threadId: u32, data: seq<byte>)

  predicate WellFormedSegment(g: Segment)
  {
    g.prefix.tag == TypeTag(PageHeader) && |g.data| < 0x1_0000_0000
  }

  /** Bytes of a segment before padding; segment_length counts only the data. */
  function SegmentLength(g: Segment): nat
  {
    RecordPrefixSize + SegmentHeaderSize + |g.data|
  }

  function EncodeSegment(g: Segment, blockSize: nat): (r: seq<byte>)
    requires WellFormedSegment(g) && blockSize > 0
    ensures |r| == PaddedLength(SegmentLength(g), blockSize)
  {
    EncodeRecordPrefix(g.prefix) + EncodeU32(g.threadId) + EncodeU32(|g.data|) + g.data
    + Zeros(PaddedLength(SegmentLength(g), blockSize) - SegmentLength(g))
  }

  /**
    The segment at the front of `s`, and how many bytes it occupies on disk
    (its length padded to the block size, cut short at the end of the file).
  */
  function DecodeSegment(s: seq<byte>, blockSize: nat): (r: Result<(Segment, nat), FormatError>)
    requires blockSize > 0
    ensures r.Ok? ==> SegmentLength(r.value.0) <= r.value.1 <= |s| && WellFormedSegment(r.value.0)
  {
    if |s| < RecordPrefixSize + SegmentHeaderSize then Err(TruncatedSegment)
    else
      var prefix := DecodeRecordPrefix(s).value;
      if prefix.tag != TypeTag(PageHeader) then Err(NotASegmentHeader)
      else
        var length := ReadU32(s, 16);
        if RecordPrefixSize + SegmentHeaderSize + length > |s| then Err(TruncatedSegment)
        else
          var g := Segment(prefix, ReadU32(s, 12), s[20..20 + length]);
          var padded := PaddedLength(SegmentLength(g), blockSize);
          Ok((g, if padded <= |s| then padded else |s|))
  }

  lemma SegmentRoundTrip(g: Segment, blockSize: nat, rest: seq<byte>)
    requires WellFormedSegment(g) && blockSize > 0
    ensures DecodeSegment(EncodeSegment(g, blockSize) + rest, blockSize)
         == Ok((g, PaddedLength(SegmentLength(g), blockSize)))
  {
    var e := EncodeSegment(g, blockSize);
    var s := e + rest;
    RecordPrefixRoundTrip(g.prefix, s[RecordPrefixSize..]);
    assert s == EncodeRecordPrefix(g.prefix) + s[RecordPrefixSize..];
    assert s[12..16] == EncodeU32(g.threadId);
    assert s[16..20] == EncodeU32(|g.data|);
    assert s[20..20 + |g.data|] == g.data;
    U32RoundTrip(g.threadId);
    U32RoundTrip(|g.data|);
  }

  /** Segments one after another until the bytes run out; each takes at least its 20-byte header. */
  function DecodeSegments(s: seq<byte>, blockSize: nat): (r: Result<seq<Segment>, FormatError>)
    requires blockSize > 0
    ensures r.Ok? ==> forall i :: 0 <= i < |r.value| ==> WellFormedSegment(r.value[i])
    ensures r.Ok? ==> (RecordPrefixSize + SegmentHeaderSize) * |r.value| <= |s|
    decreases |s|
  {
    if s == [] then Ok([])
    else
      match DecodeSegment(s, blockSize)
      case Err(e) => Err(e)
      case Ok((g, used)) =>
        match DecodeSegments(s[used..], blockSize)
        case Err(e) => Err(e)
        case Ok(gs) => Ok([g] + gs)
  }

  function EncodeSegments(gs: seq<Segment>, blockSize: nat): seq<byte>
    requires forall i :: 0 <= i < |gs| ==> WellFormedSegment(gs[i])
    requires blockSize > 0
  {
    if gs == [] then [] else EncodeSegment(gs[0], blockSize) + EncodeSegments(gs[1..], blockSize)
  }

  lemma {:induction false} SegmentsRoundTrip(gs: seq<Segment>, blockSize: nat)
    requires forall i :: 0 <= i < |gs| ==> WellFormedSegment(gs[i])
    requires blockSize > 0
    ensures DecodeSegments(EncodeSegments(gs, blockSize), blockSize) == Ok(gs)
  {
    if gs != [] {
      var head := EncodeSegment(gs[0], blockSize);
      var tail := EncodeSegments(gs[1..], blockSize);
      SegmentRoundTrip(gs[0], blockSize, tail);
      assert (head + tail)[|head|..] == tail;
      SegmentsRoundTrip(gs[1..], blockSize);
      HeadTail(gs);
    }
  }

  // --------------------------------------------------------------- whole file

  /** A trace file: the header, padded to the block size, then the segments. */
  datatype TraceFile = TraceFile(header: FileHeader, segments: seq<Segment>)

  predicate WellFormedTraceFile(f: TraceFile)
  {
    WellFormedHeader(f.header) && forall i :: 0 <= i < |f.segments| ==> WellFormedSegment(f.segments[i])
  }

  function EncodeTraceFile(f: TraceFile): seq<byte>
    requires WellFormedTraceFile(f)
  {
    var h := f.header;
    EncodeFileHeader(h) + Zeros(PaddedLength(HeaderSize(h), h.blockSize) - HeaderSize(h))
    + EncodeSegments(f.segments, h.blockSize)
  }

  /**
    The bytes after the header of `s` padded to the block size: the segments
    of the file, read one after another.
  */
  function SegmentArea(s: seq<byte>, h: FileHeader): (r: seq<byte>)
    requires h.blockSize > 0
    ensures PaddedLength(HeaderSize(h), h.blockSize) < |s| ==> r == s[PaddedLength(HeaderSize(h), h.blockSize)..]
    ensures PaddedLength(HeaderSize(h), h.blockSize) >= |s| ==> r == []
  {
    var start := PaddedLength(HeaderSize(h), h.blockSize);
    if start >= |s| then [] else s[start..]
  }

  /** A whole file: its header, then every segment after the padded header. */
  function DecodeTraceFile(s: seq<byte>): (r: Result<TraceFile, FormatError>)
    ensures r.Ok? ==> WellFormedTraceFile(r.value) && DecodeFileHeader(s) == Ok(r.value.header)
    ensures DecodeFileHeader(s).Err? ==> r == Err(DecodeFileHeader(s).error)
  {
    match DecodeFileHeader(s)
    case Err(e) => Err(e)
    case Ok(h) =>
      match DecodeSegments(SegmentArea(s, h), h.blockSize)
      case Err(e) => Err(e)
      case Ok(gs) => Ok(TraceFile(h, gs))
  }

  lemma TraceFileRoundTrip(f: TraceFile)
    requires WellFormedTraceFile(f)
    ensures DecodeTraceFile(EncodeTraceFile(f)) == Ok(f)
  {
    var h := f.header;
    var s := EncodeTraceFile(f);
    var head := EncodeFileHeader(h);
    var start := PaddedLength(HeaderSize(h), h.blockSize);
    var segs := EncodeSegments(f.segments, h.blockSize);
    FileHeaderRoundTrip(h, s[|head|..]);
    assert s == head + s[|head|..];
    assert s[start..] == segs;
    SegmentsRoundTrip(f.segments, h.blockSize);
    if f.segments != [] {
      assert |segs| > 0 by {
        assert |EncodeSegment(f.segments[0], h.blockSize)| >= SegmentLength(f.segments[0]);
      }
    }
  }

  // ------------------------------------------------------------------ records

  /** A record as stored: its prefix and the prefix.size bytes that follow. */
  datatype RawRecord = RawRecord(prefix: RecordPrefix, payload: seq<byte>)

  predicate WellFormedRecord(r: RawRecord)
  {
    r.prefix.size == |r.payload|
  }

  function EncodeRecord(r: RawRecord): (s: seq<byte>)
  {
    EncodeRecordPrefix(r.prefix) + r.payload
  }

  /**
    The record at the front of `s` and its length; it fails exactly when the
    prefix does not fit or the declared size runs past the end of the data.
  */
  function DecodeRecord(s: seq<byte>): (r: Result<(RawRecord, nat), FormatError>)
    ensures r.Err? <==> |s| < RecordPrefixSize || RecordPrefixSize + ReadU32(s, 4) > |s|
    ensures r.Ok? ==> WellFormedRecord(r.value.0) && r.value.1 == |EncodeRecord(r.value.0)| <= |s|
    ensures r.Ok? ==> s[..r.value.1] == EncodeRecord(r.value.0)
  {
    if |s| < RecordPrefixSize then Err(TruncatedRecord)
    else
      var prefix := DecodeRecordPrefix(s).value;
      if RecordPrefixSize + prefix.size > |s| then Err(TruncatedRecord)
      else
        var end := RecordPrefixSize + prefix.size;
        RecordPrefixCanonical(s);
        assert s[..end] == s[..RecordPrefixSize] + s[RecordPrefixSize..end];
        Ok((RawRecord(prefix, s[RecordPrefixSize..end]), end))
  }

  /** Records one after another until the bytes run out; each takes at least its 12-byte prefix. */
  function DecodeRecords(s: seq<byte>): (r: Result<seq<RawRecord>, FormatError>)
    ensures r.Ok? ==> forall i :: 0 <= i < |r.value| ==> WellFormedRecord(r.value[i])
    ensures r.Ok? ==> RecordPrefixSize * |r.value| <= |s|
    decreases |s|
  {
    if s == [] then Ok([])
    else
      match DecodeRecord(s)
      case Err(e) => Err(e)
      case Ok((rec, used)) =>
        match DecodeRecords(s[used..])
        case Err(e) => Err(e)
        case Ok(rest) => Ok([rec] + rest)
  }

  function EncodeRecords(rs: seq<RawRecord>): seq<byte>
  {
    if rs == [] then [] else EncodeRecord(rs[0]) + EncodeRecords(rs[1..])
  }

  lemma {:induction false} RecordsRoundTrip(rs: seq<RawRecord>)
    requires forall i :: 0 <= i < |rs| ==> WellFormedRecord(rs[i])
    ensures DecodeRecords(EncodeRecords(rs)) == Ok(rs)
  {
    if rs != [] {
      var head := EncodeRecord(rs[0]);
      var tail := EncodeRecords(rs[1..]);
      RecordRoundTrip(rs[0], tail);
      assert (head + tail)[|head|..] == tail;
      RecordsRoundTrip(rs[1..]);
      HeadTail(rs);
    }
  }

  /** A record decodes back from its encoding, whatever follows it. */
  lemma RecordRoundTrip(r: RawRecord, tail: seq<byte>)
    requires WellFormedRecord(r)
    ensures DecodeRecord(EncodeRecord(r) + tail) == Ok((r, |EncodeRecord(r)|))
  {
    var s := EncodeRecord(r) + tail;
    RecordPrefixRoundTrip(r.prefix, r.payload + tail);
    assert s == EncodeRecordPrefix(r.prefix) + (r.payload + tail);
    assert s[RecordPrefixSize..|EncodeRecord(r)|] == r.payload;
  }

  lemma {:induction false} RecordsCanonical(s: seq<byte>, rs: seq<RawRecord>)
    requires DecodeRecords(s) == Ok(rs)
    ensures forall i :: 0 <= i < |rs| ==> WellFormedRecord(rs[i])
    ensures EncodeRecords(rs) == s
    decreases |s|
  {
    if s != [] {
      var (rec, used) := DecodeRecord(s).value;
      var rest := DecodeRecords(s[used..]).value;
      RecordsCanonical(s[used..], rest);
      assert rs == [rec] + rest;
      assert rs[1..] == rest;
      assert s == s[..used] + s[used..];
    }
  }
}

/**
 Request body storage: common/body_storage.go and the counters of
 common/disk_cache_config.go. The file system is a parameter: creating or writing a cache
 file either works or fails as a whole. Calls follow one another; BodyCounters has them overlap.
 */
module BodyStorage {
  import opened Basics

  type Bytes = seq<byte>

  // ---------------------------------------------------------------- reading a storage

  datatype Whence = Start | Current | End

  datatype Op = Read(n: nat) | Seek(offset: int, whence: Whence) | GetBytes | Close

  datatype Answer = Data(bytes: Bytes) | EndOfFile | Position(at: int) | BadSeek | ShortFile | IsClosed | Done

  /** memoryStorage: `pos` is the position of its bytes.Reader. */
  datatype Memory = Memory(data: Bytes, pos: nat, closed: bool)

  /** diskStorage: an open file with its position, and the size recorded at creation. */
  datatype Disk = Disk(file: Bytes, pos: nat, size: nat, closed: bool)

  function Min(a: int, b: int): int {
    if a < b then a else b
  }

  function Target(pos: nat, length: nat, offset: int, whence: Whence): int {
    match whence
    case Start => offset
    case Current => pos + offset
    case End => length + offset
  }

  function MemoryStep(m: Memory, op: Op): (Memory, Answer) {
    if op.Close? then (m.(closed := true), Done)
    else if m.closed then (m, IsClosed)
    else
      match op
      case Read(n) =>
        if m.pos >= |m.data| then (m, EndOfFile)
        else
          var k := Min(m.pos + n, |m.data|);
          (m.(pos := k), Data(m.data[m.pos..k]))
      case Seek(offset, whence) =>
        var t := Target(m.pos, |m.data|, offset, whence);
        if t < 0 then (m, BadSeek) else (m.(pos := t), Position(t))
      case GetBytes => (m, Data(m.data))
      case Close => (m, Done)
  }

  /** os.File.Read: an empty buffer reads nothing, at the end of the file too. */
  function FileRead(d: Disk, n: nat): (Disk, Answer) {
    if n == 0 then (d, Data([]))
    else if d.pos >= |d.file| then (d, EndOfFile)
    else
      var k := Min(d.pos + n, |d.file|);
      (d.(pos := k), Data(d.file[d.pos..k]))
  }

  function FileSeek(d: Disk, offset: int, whence: Whence): (Disk, Answer) {
    var t := Target(d.pos, |d.file|, offset, whence);
    if t < 0 then (d, BadSeek) else (d.(pos := t), Position(t))
  }

  /** Remember the position, read from the start with io.ReadFull, go back. */
  function DiskBytes(d: Disk): (Disk, Answer) {
    var here := d.pos;
    var rewound := FileSeek(d, 0, Start).0;
    if |d.file| < d.size then (rewound.(pos := |d.file|), ShortFile)
    else
      var read := FileRead(rewound, d.size);
      (FileSeek(read.0, here, Start).0, if read.1.Data? then read.1 else ShortFile)
  }

  function DiskStep(d: Disk, op: Op): (Disk, Answer) {
    if op.Close? then (d.(closed := true), Done)
    else if d.closed then (d, IsClosed)
    else
      match op
      case Read(n) => FileRead(d, n)
      case Seek(offset, whence) => FileSeek(d, offset, whence)
      case GetBytes => DiskBytes(d)
      case Close => (d, Done)
  }

  /** The two storages hold the same bytes and stand at the same place. */
  predicate Alike(m: Memory, d: Disk) {
    m.data == d.file && d.size == |d.file| && m.pos == d.pos && m.closed == d.closed
  }

  /** Reading into an empty buffer with nothing left to read. */
  predicate EmptyReadAtEnd(m: Memory, op: Op) {
    op == Read(0) && !m.closed && m.pos >= |m.data|
  }

  /** Alike storages stay alike whatever is done to them, and they answer the same except for
      an empty read at the end; asking for all bytes moves neither position. */
  lemma StepsAgreeIff(m: Memory, d: Disk, op: Op)
    requires Alike(m, d)
    ensures Alike(MemoryStep(m, op).0, DiskStep(d, op).0)
    ensures MemoryStep(m, op).1 == DiskStep(d, op).1 <==> !EmptyReadAtEnd(m, op)
    ensures op.GetBytes? ==> MemoryStep(m, op).0 == m && DiskStep(d, op).0 == d
  {
    assert d.file[0..|d.file|] == d.file;
  }

  function MemoryAnswers(m: Memory, ops: seq<Op>): seq<Answer>
    decreases ops
  {
    if ops == [] then []
    else var r := MemoryStep(m, ops[0]); [r.1] + MemoryAnswers(r.0, ops[1..])
  }

  function DiskAnswers(d: Disk, ops: seq<Op>): seq<Answer>
    decreases ops
  {
    if ops == [] then []
    else var r := DiskStep(d, ops[0]); [r.1] + DiskAnswers(r.0, ops[1..])
  }

  /** No step of the sequence is an empty read at the end. */
  predicate NeverReadsEmptyAtEnd(m: Memory, ops: seq<Op>)
    decreases ops
  {
    ops == [] || (!EmptyReadAtEnd(m, ops[0]) && NeverReadsEmptyAtEnd(MemoryStep(m, ops[0]).0, ops[1..]))
  }

  /** Over every sequence of operations: disk and memory give the same answers exactly when no
      step reads into an empty buffer with nothing left to read. */
  lemma {:induction false} Indistinguishable(m: Memory, d: Disk, ops: seq<Op>)
    requires Alike(m, d)
    ensures MemoryAnswers(m, ops) == DiskAnswers(d, ops) <==> NeverReadsEmptyAtEnd(m, ops)
    decreases ops
  {
    if ops != [] {
      var rm, rd := MemoryStep(m, ops[0]), DiskStep(d, ops[0]);
      StepsAgreeIff(m, d, ops[0]);
      Indistinguishable(rm.0, rd.0, ops[1..]);
      assert MemoryAnswers(m, ops)[0] == rm.1 && MemoryAnswers(m, ops)[1..] == MemoryAnswers(rm.0, ops[1..]);
      assert DiskAnswers(d, ops)[0] == rd.1 && DiskAnswers(d, ops)[1..] == DiskAnswers(rd.0, ops[1..]);
    }
  }

  lemma {:induction false} NonEmptyBuffersNeverDo(m: Memory, ops: seq<Op>)
    requires Read(0) !in ops
    ensures NeverReadsEmptyAtEnd(m, ops)
    decreases ops
  {
    if ops != [] {
      assert ops[0] in ops;
      NonEmptyBuffersNeverDo(MemoryStep(m, ops[0]).0, ops[1..]);
    }
  }

  /** The failing input: seek to the end, then read into an empty buffer. */
  lemma EmptyReadTellsThemApart(data: Bytes)
    ensures var ops := [Seek(0, End), Read(0)];
            && MemoryAnswers(Memory(data, 0, false), ops) == [Position(|data|), EndOfFile]
            && DiskAnswers(Disk(data, 0, |data|, false), ops) == [Position(|data|), Data([])]
  {
    var ops := [Seek(0, End), Read(0)];
    assert ops[1..] == [Read(0)] && ops[1..][1..] == [];
  }

  // ---------------------------------------------------------------- what readers see

  function Total(sizes: seq<nat>): nat {
    if sizes == [] then 0 else sizes[0] + Total(sizes[1..])
  }

  /** The bytes a series of reads returns, one after the other. */
  function ReadSeries(m: Memory, sizes: seq<nat>): Bytes
    decreases sizes
  {
    if sizes == [] then []
    else
      var r := MemoryStep(m, Read(sizes[0]));
      (if r.1.Data? then r.1.bytes else []) + ReadSeries(r.0, sizes[1..])
  }

  /** Whatever the buffer sizes, reads after a seek return the body from there on, in order. */
  lemma {:induction false} ReadsReassemble(m: Memory, sizes: seq<nat>)
    requires !m.closed && m.pos <= |m.data|
    ensures ReadSeries(m, sizes) == m.data[m.pos..Min(m.pos + Total(sizes), |m.data|)]
    decreases sizes
  {
    if sizes != [] {
      ReadsReassemble(MemoryStep(m, Read(sizes[0])).0, sizes[1..]);
    }
  }

  /** Rewinding and reading at least the size returns the whole body. */
  lemma RewindReadsAll(m: Memory, sizes: seq<nat>)
    requires !m.closed && Total(sizes) >= |m.data|
    ensures ReadSeries(MemoryStep(m, Seek(0, Start)).0, sizes) == m.data
  {
    ReadsReassemble(MemoryStep(m, Seek(0, Start)).0, sizes);
  }

  /** Seeking from here or from the end is seeking from the start, to the place meant; a place before
      the start is refused and changes nothing; any other is where the next read begins. */
  lemma SeekMeans(m: Memory, offset: int)
    requires !m.closed
    ensures MemoryStep(m, Seek(offset, Current)) == MemoryStep(m, Seek(m.pos + offset, Start))
    ensures MemoryStep(m, Seek(offset, End)) == MemoryStep(m, Seek(|m.data| + offset, Start))
    ensures offset < 0 ==> MemoryStep(m, Seek(offset, Start)) == (m, BadSeek)
    ensures offset >= 0 ==> MemoryStep(m, Seek(offset, Start)) == (m.(pos := offset), Position(offset))
  {
  }

  /** After Close every operation but Close is refused, and nothing changes any more. */
  lemma ClosedStaysClosed(m: Memory, op: Op)
    ensures var c := MemoryStep(m, Close).0; MemoryStep(c, op) == (c, if op.Close? then Done else IsClosed)
  {
  }

  /** A file shorter than the size recorded for it is refused, and leaves the position at its end. */
  lemma ShortFileIsRefused(d: Disk)
    requires !d.closed
    ensures DiskStep(d, GetBytes).1.ShortFile? <==> |d.file| < d.size
    ensures |d.file| < d.size ==> DiskStep(d, GetBytes).0 == d.(pos := |d.file|)
  {
  }

  // ---------------------------------------------------------------- counters

  datatype Stats = Stats(
    diskFiles: int, diskBytes: int, memoryBuffers: int, memoryBytes: int, diskHits: int, memoryHits: int)

  datatype Config = Config(enabled: bool, threshold: int, maxBytes: int)

  function AddMemory(s: Stats, size: int): Stats {
    s.(memoryBuffers := s.memoryBuffers + 1, memoryBytes := s.memoryBytes + size)
  }

  function DropMemory(s: Stats, size: int): Stats {
    s.(memoryBuffers := s.memoryBuffers - 1, memoryBytes := s.memoryBytes - size)
  }

  function AddDisk(s: Stats, size: int): Stats {
    s.(diskFiles := s.diskFiles + 1, diskBytes := s.diskBytes + size)
  }

  function AtLeastZero(n: int): int {
    if n < 0 then 0 else n
  }

  /** The disk counters are clamped at zero. */
  function DropDisk(s: Stats, size: int): Stats {
    s.(diskFiles := AtLeastZero(s.diskFiles - 1), diskBytes := AtLeastZero(s.diskBytes - size))
  }

  predicate DiskAvailable(c: Config, s: Stats, size: int) {
    c.enabled && s.diskBytes + size <= c.maxBytes
  }

  // ---------------------------------------------------------------- creation

  datatype Storage = InMemory(memory: Memory) | OnDisk(disk: Disk)

  function OpenMemory(data: Bytes): Storage {
    InMemory(Memory(data, 0, false))
  }

  function OpenDisk(data: Bytes): Storage {
    OnDisk(Disk(data, 0, |data|, false))
  }

  /** CreateBodyStorage; `diskOk` says whether the cache file can be written. */
  function Create(c: Config, s: Stats, data: Bytes, diskOk: bool): (Storage, Stats) {
    if c.enabled && |data| >= c.threshold && DiskAvailable(c, s, |data|) && diskOk
    then (OpenDisk(data), AddDisk(s, |data|))
    else (OpenMemory(data), AddMemory(s, |data|))
  }

  datatype Created = Ok(storage: Storage) | TooLarge | IoError

  /** At most limit bytes of a stream. */
  function Limited(stream: Bytes, limit: int): Bytes {
    if limit <= 0 then [] else stream[..Min(limit, |stream|)]
  }

  /** Whether the declared length sends the stream straight to disk. */
  predicate Streams(c: Config, s: Stats, declared: int) {
    c.enabled && declared > 0 && declared >= c.threshold && DiskAvailable(c, s, declared)
  }

  /** CreateBodyStorageFromReader; `readOk` says whether the stream can be read. */
  function CreateFromReader(c: Config, s: Stats, stream: Bytes, declared: int, maxBytes: int, diskOk: bool, readOk: bool): (Created, Stats) {
    var data := Limited(stream, maxBytes + 1);
    if Streams(c, s, declared) then
      if !diskOk || !readOk then (IoError, s)
      else if |data| > maxBytes then (TooLarge, s)
      else
        var t := AddDisk(s, |data|);
        (Ok(OpenDisk(data)), t.(diskHits := t.diskHits + 1))
    else if !readOk then (IoError, s)
    else if |data| > maxBytes then (TooLarge, s)
    else
      var r := Create(c, s, data, diskOk);
      (Ok(r.0), if r.0.OnDisk? then r.1.(diskHits := r.1.diskHits + 1) else r.1.(memoryHits := r.1.memoryHits + 1))
  }

  function Content(s: Storage): Bytes {
    if s.InMemory? then s.memory.data else s.disk.file
  }

  predicate Fresh(s: Storage) {
    match s
    case InMemory(m) => m.pos == 0 && !m.closed
    case OnDisk(d) => d.pos == 0 && d.size == |d.file| && !d.closed
  }

  /** Without input or output errors, creation succeeds exactly when the stream has at most
      maxBytes bytes, for any limit and any declared length, and then holds all of it. */
  lemma CreationIsExact(c: Config, s: Stats, stream: Bytes, declared: int, maxBytes: int)
    ensures var r := CreateFromReader(c, s, stream, declared, maxBytes, true, true).0;
            && (r.Ok? <==> |stream| <= maxBytes)
            && (r.Ok? ==> Content(r.storage) == stream && Fresh(r.storage))
            && (!r.Ok? ==> r == TooLarge && CreateFromReader(c, s, stream, declared, maxBytes, true, true).1 == s)
  {
    if |stream| <= maxBytes {
      assert Limited(stream, maxBytes + 1) == stream;
    }
  }

  /** Where data goes: to disk exactly when the cache is enabled, the data reaches the threshold and
      fits the room left, and its file can be written; to memory otherwise. Either way it is all
      there, and only the counters of that place move. */
  lemma DataGoesToDiskIff(c: Config, s: Stats, data: Bytes, diskOk: bool)
    ensures var r, n := Create(c, s, data, diskOk), |data|;
            && (r.0.OnDisk? <==> c.enabled && n >= c.threshold && s.diskBytes + n <= c.maxBytes && diskOk)
            && Content(r.0) == data && Fresh(r.0)
            && r.1 == (if r.0.OnDisk? then s.(diskFiles := s.diskFiles + 1, diskBytes := s.diskBytes + n)
                       else s.(memoryBuffers := s.memoryBuffers + 1, memoryBytes := s.memoryBytes + n))
  {
  }

  /** Where a stream goes: to disk when its declared length is positive, reaches the threshold and
      fits, and otherwise as data of its real size goes. One hit is counted, of the place it went
      to. It is refused, and nothing counted, when it cannot be read, when the disk it is sent to
      fails, or when it is longer than the limit. */
  lemma StreamGoesToDiskIff(c: Config, s: Stats, stream: Bytes, declared: int, maxBytes: int, diskOk: bool, readOk: bool)
    ensures var r, n := CreateFromReader(c, s, stream, declared, maxBytes, diskOk, readOk), |stream|;
            var direct := c.enabled && declared > 0 && declared >= c.threshold && s.diskBytes + declared <= c.maxBytes;
            && (r.0.IoError? <==> !readOk || (direct && !diskOk))
            && (r.0.TooLarge? <==> !r.0.IoError? && n > maxBytes)
            && (r.0.Ok? ==>
                  && (r.0.storage.OnDisk? <==> diskOk && (direct || (c.enabled && n >= c.threshold && s.diskBytes + n <= c.maxBytes)))
                  && r.1.diskHits == s.diskHits + (if r.0.storage.OnDisk? then 1 else 0)
                  && r.1.memoryHits == s.memoryHits + (if r.0.storage.OnDisk? then 0 else 1))
            && (!r.0.Ok? ==> r.1 == s)
  {
    assert |stream| <= maxBytes ==> Limited(stream, maxBytes + 1) == stream;
  }

  // ---------------------------------------------------------------- runs

  /** The process: its configuration, its counters and every storage it ever created. */
  datatype Process = Process(config: Config, stats: Stats, storages: seq<Storage>)

  datatype Event =
    | Created(data: Bytes, diskOk: bool)
    | Streamed(stream: Bytes, declared: int, maxBytes: int, diskOk: bool, readOk: bool)
    | Used(index: nat, op: Op)

  function StorageStep(s: Storage, op: Op): Storage {
    match s
    case InMemory(m) => InMemory(MemoryStep(m, op).0)
    case OnDisk(d) => OnDisk(DiskStep(d, op).0)
  }

  predicate Open(s: Storage) {
    if s.InMemory? then !s.memory.closed else !s.disk.closed
  }

  function Size(s: Storage): nat {
    if s.InMemory? then |s.memory.data| else s.disk.size
  }

  /** Close gives the counters back once. */
  function Released(stats: Stats, s: Storage, op: Op): Stats {
    if !op.Close? || !Open(s) then stats
    else if s.InMemory? then DropMemory(stats, Size(s)) else DropDisk(stats, Size(s))
  }

  function Next(p: Process, e: Event): Process
    requires e.Used? ==> e.index < |p.storages|
  {
    match e
    case Created(data, diskOk) =>
      var r := Create(p.config, p.stats, data, diskOk);
      p.(stats := r.1, storages := p.storages + [r.0])
    case Streamed(stream, declared, maxBytes, diskOk, readOk) =>
      var r := CreateFromReader(p.config, p.stats, stream, declared, maxBytes, diskOk, readOk);
      if r.0.Ok? then p.(stats := r.1, storages := p.storages + [r.0.storage]) else p.(stats := r.1)
    case Used(i, op) =>
      p.(stats := Released(p.stats, p.storages[i], op), storages := p.storages[i := StorageStep(p.storages[i], op)])
  }

  /** How many of the first n storages are open and of the given kind, and their total size. */
  function Tally(storages: seq<Storage>, onDisk: bool, n: nat): (nat, nat)
    requires n <= |storages|
  {
    if n == 0 then (0, 0)
    else
      var t, s := Tally(storages, onDisk, n - 1), storages[n - 1];
      if Open(s) && s.OnDisk? == onDisk then (t.0 + 1, t.1 + Size(s)) else t
  }

  ghost predicate Counted(p: Process) {
    && (p.stats.memoryBuffers, p.stats.memoryBytes) == Tally(p.storages, false, |p.storages|)
    && (p.stats.diskFiles, p.stats.diskBytes) == Tally(p.storages, true, |p.storages|)
  }

  lemma {:induction false} TallyAppend(storages: seq<Storage>, s: Storage, onDisk: bool, n: nat)
    requires n <= |storages|
    ensures Tally(storages + [s], onDisk, n) == Tally(storages, onDisk, n)
  {
    if n > 0 {
      TallyAppend(storages, s, onDisk, n - 1);
    }
  }

  /** Replacing one storage by one of the same kind and size. */
  lemma {:induction false} TallyReplace(storages: seq<Storage>, i: nat, s: Storage, onDisk: bool, n: nat)
    requires n <= |storages| && i < |storages|
    requires s.OnDisk? == storages[i].OnDisk? && Size(s) == Size(storages[i]) && (Open(s) ==> Open(storages[i]))
    ensures var t, t' := Tally(storages, onDisk, n), Tally(storages[i := s], onDisk, n);
            if i < n && s.OnDisk? == onDisk && Open(storages[i]) && !Open(s)
            then t'.0 == t.0 - 1 && t'.1 == t.1 - Size(s) else t' == t
  {
    if n > 0 {
      TallyReplace(storages, i, s, onDisk, n - 1);
    }
  }

  /** What creating a storage adds to the counters. */
  predicate Adds(before: Stats, after: Stats, s: Storage) {
    && Open(s)
    && after.diskFiles == before.diskFiles + (if s.OnDisk? then 1 else 0)
    && after.diskBytes == before.diskBytes + (if s.OnDisk? then Size(s) else 0)
    && after.memoryBuffers == before.memoryBuffers + (if s.OnDisk? then 0 else 1)
    && after.memoryBytes == before.memoryBytes + (if s.OnDisk? then 0 else Size(s))
  }

  lemma AddingKeepsCount(p: Process, s: Storage, after: Stats)
    requires Counted(p) && Adds(p.stats, after, s)
    ensures Counted(p.(stats := after, storages := p.storages + [s]))
  {
    TallyAppend(p.storages, s, false, |p.storages|);
    TallyAppend(p.storages, s, true, |p.storages|);
  }

  lemma UsingKeepsCount(p: Process, i: nat, op: Op)
    requires Counted(p) && i < |p.storages|
    ensures Counted(Next(p, Used(i, op)))
  {
    var s := StorageStep(p.storages[i], op);
    TallyReplace(p.storages, i, s, false, |p.storages|);
    TallyReplace(p.storages, i, s, true, |p.storages|);
  }

  /** Every call keeps all four counters equal to what is really open, whether or not the
      storages are closed, and however often. */
  lemma EventKeepsCount(p: Process, e: Event)
    requires Counted(p) && (e.Used? ==> e.index < |p.storages|)
    ensures Counted(Next(p, e))
  {
    match e
    case Created(data, diskOk) =>
      var r := Create(p.config, p.stats, data, diskOk);
      AddingKeepsCount(p, r.0, r.1);
    case Streamed(stream, declared, maxBytes, diskOk, readOk) =>
      var r := CreateFromReader(p.config, p.stats, stream, declared, maxBytes, diskOk, readOk);
      if r.0.Ok? {
        AddingKeepsCount(p, r.0.storage, r.1);
      }
    case Used(i, op) => UsingKeepsCount(p, i, op);
  }

  /** Whether a call may push the disk usage over the limit: a stream sent to disk by its
      declared length turns out longer than the room left. */
  predicate Overruns(p: Process, e: Event) {
    && e.Streamed? && e.diskOk && e.readOk && |e.stream| <= e.maxBytes
    && Streams(p.config, p.stats, e.declared)
    && p.stats.diskBytes + |e.stream| > p.config.maxBytes
  }

  /** From within the limit, a call stays within it exactly when it does not overrun. */
  lemma WithinLimitIff(p: Process, e: Event)
    requires Counted(p) && p.stats.diskBytes <= p.config.maxBytes && (e.Used? ==> e.index < |p.storages|)
    ensures Next(p, e).stats.diskBytes <= p.config.maxBytes <==> !Overruns(p, e)
  {
    if e.Streamed? {
      assert |e.stream| <= e.maxBytes ==> Limited(e.stream, e.maxBytes + 1) == e.stream;
    } else if e.Used? {
      EventKeepsCount(p, e);
    }
  }

  /** The body is no longer than its declared length, when one is declared. */
  predicate Honest(e: Event) {
    e.Streamed? && e.declared > 0 ==> |e.stream| <= e.declared
  }

  /** A stream no longer than its declared length never overruns. */
  lemma HonestStreamsFit(p: Process, e: Event)
    requires Honest(e)
    ensures !Overruns(p, e)
  {
  }

  /** The failing input: a body one byte longer than the room that its declared length fits. */
  lemma OverlongStreamOverruns(p: Process, stream: Bytes, declared: int, maxBytes: int)
    requires Counted(p) && p.stats.diskBytes <= p.config.maxBytes && Streams(p.config, p.stats, declared)
    requires |stream| == p.config.maxBytes - p.stats.diskBytes + 1 <= maxBytes
    ensures Next(p, Streamed(stream, declared, maxBytes, true, true)).stats.diskBytes == p.config.maxBytes + 1
  {
    assert Limited(stream, maxBytes + 1) == stream;
  }

  ghost predicate Run(p: Process, events: seq<Event>)
    decreases events
  {
    events == [] ||
    ((events[0].Used? ==> events[0].index < |p.storages|) && Run(Next(p, events[0]), events[1..]))
  }

  ghost function Final(p: Process, events: seq<Event>): Process
    requires Run(p, events)
    decreases events
  {
    if events == [] then p else Final(Next(p, events[0]), events[1..])
  }

  /** Over every run the counters are exact; and if every stream sent to disk is no longer
      than declared, the disk usage never exceeds the configured maximum. */
  lemma {:induction false} CountersAreExact(p: Process, events: seq<Event>)
    requires Counted(p) && Run(p, events)
    ensures Counted(Final(p, events)) && Final(p, events).config == p.config
    ensures p.stats.diskBytes <= p.config.maxBytes && (forall i :: 0 <= i < |events| ==> Honest(events[i])) ==>
              Final(p, events).stats.diskBytes <= p.config.maxBytes
    decreases events
  {
    if events != [] {
      EventKeepsCount(p, events[0]);
      if p.stats.diskBytes <= p.config.maxBytes {
        WithinLimitIff(p, events[0]);
        if Honest(events[0]) {
          HonestStreamsFit(p, events[0]);
        }
      }
      CountersAreExact(Next(p, events[0]), events[1..]);
    }
  }

  // ---------------------------------------------------------------- the objects

  /** The package-level configuration and counters. */
  class Globals {
    var config: Config
    var stats: Stats

    constructor (config: Config)
      ensures this.config == config && stats == Stats(0, 0, 0, 0, 0, 0)
    {
      this.config, stats := config, Stats(0, 0, 0, 0, 0, 0);
    }
  }

  class MemoryStorage {
    const data: Bytes
    var pos: nat
    var closed: bool
    const globals: Globals

    ghost function State(): Memory
      reads this
    {
      Memory(data, pos, closed)
    }

    constructor (data: Bytes, globals: Globals)
      modifies globals`stats
      ensures State() == Memory(data, 0, false) && this.globals == globals
      ensures globals.stats == AddMemory(old(globals.stats), |data|)
    {
      this.data, pos, closed, this.globals := data, 0, false, globals;
      new;
      globals.stats := AddMemory(globals.stats, |data|);
    }

    method ReadInto(n: nat) returns (a: Answer)
      modifies this
      ensures (State(), a) == MemoryStep(old(State()), Read(n))
    {
      if closed {
        return IsClosed;
      }
      if pos >= |data| {
        return EndOfFile;
      }
      var k := Min(pos + n, |data|);
      a := Data(data[pos..k]);
      pos := k;
    }

    method SeekTo(offset: int, whence: Whence) returns (a: Answer)
      modifies this
      ensures (State(), a) == MemoryStep(old(State()), Seek(offset, whence))
    {
      if closed {
        return IsClosed;
      }
      var target := Target(pos, |data|, offset, whence);
      if target < 0 {
        return BadSeek;
      }
      pos := target;
      return Position(target);
    }

    method AllBytes() returns (a: Answer)
      ensures (State(), a) == MemoryStep(State(), GetBytes)
    {
      return if closed then IsClosed else Data(data);
    }

    /** Only the first Close gives the buffer back. */
    method CloseStorage()
      modifies this, globals`stats
      ensures State() == MemoryStep(old(State()), Close).0
      ensures globals.stats == Released(old(globals.stats), InMemory(old(State())), Close)
    {
      if !closed {
        closed := true;
        globals.stats := DropMemory(globals.stats, |data|);
      }
    }
  }

  class DiskStorage {
    var file: Bytes
    var pos: nat
    const size: nat
    var closed: bool
    const globals: Globals

    ghost function State(): Disk
      reads this
    {
      Disk(file, pos, size, closed)
    }

    constructor (data: Bytes, globals: Globals)
      modifies globals`stats
      ensures State() == Disk(data, 0, |data|, false) && this.globals == globals
      ensures globals.stats == AddDisk(old(globals.stats), |data|)
    {
      file, pos, size, closed, this.globals := data, 0, |data|, false, globals;
      new;
      globals.stats := AddDisk(globals.stats, |data|);
    }

    method ReadInto(n: nat) returns (a: Answer)
      modifies this`pos
      ensures (State(), a) == DiskStep(old(State()), Read(n))
    {
      if closed {
        return IsClosed;
      }
      if n == 0 {
        return Data([]);
      }
      if pos >= |file| {
        return EndOfFile;
      }
      var k := Min(pos + n, |file|);
      a := Data(file[pos..k]);
      pos := k;
    }

    method SeekTo(offset: int, whence: Whence) returns (a: Answer)
      modifies this`pos
      ensures (State(), a) == DiskStep(old(State()), Seek(offset, whence))
    {
      if closed {
        return IsClosed;
      }
      var target := Target(pos, |file|, offset, whence);
      if target < 0 {
        return BadSeek;
      }
      pos := target;
      return Position(target);
    }

    /** All bytes, by way of the file position, which is put back. */
    method AllBytes() returns (a: Answer)
      modifies this`pos
      ensures (State(), a) == DiskStep(old(State()), GetBytes)
    {
      if closed {
        return IsClosed;
      }
      var currentPos := pos;
      pos := 0;
      if |file| < size {
        pos := |file|;
        return ShortFile;
      }
      var data := file[0..size];
      pos := size;
      pos := currentPos;
      return Data(data);
    }

    method CloseStorage()
      modifies this, globals`stats
      ensures State() == DiskStep(old(State()), Close).0
      ensures globals.stats == Released(old(globals.stats), OnDisk(old(State())), Close)
    {
      if !closed {
        closed := true;
        globals.stats := DropDisk(globals.stats, size);
      }
    }
  }

  datatype Body = MemoryBody(memory: MemoryStorage) | DiskBody(disk: DiskStorage) {
    ghost function State(): Storage
      reads if MemoryBody? then {memory as object} else {disk as object}
    {
      if MemoryBody? then InMemory(memory.State()) else OnDisk(disk.State())
    }
  }

  method CreateBodyStorage(globals: Globals, data: Bytes, diskOk: bool) returns (body: Body)
    modifies globals`stats
    ensures (body.State(), globals.stats) == Create(globals.config, old(globals.stats), data, diskOk)
  {
    var size := |data|;
    if globals.config.enabled && size >= globals.config.threshold
       && DiskAvailable(globals.config, globals.stats, size) && diskOk {
      var disk := new DiskStorage(data, globals);
      return DiskBody(disk);
    }
    var memory := new MemoryStorage(data, globals);
    return MemoryBody(memory);
  }

  method CreateBodyStorageFromReader(globals: Globals, stream: Bytes, contentLength: int, maxBytes: int, diskOk: bool, readOk: bool)
    returns (body: Option<Body>, tooLarge: bool)
    modifies globals`stats
    ensures var r := CreateFromReader(globals.config, old(globals.stats), stream, contentLength, maxBytes, diskOk, readOk);
            && globals.stats == r.1
            && (body.Some? <==> r.0.Ok?) && (tooLarge <==> r.0.TooLarge?)
            && (body.Some? ==> body.value.State() == r.0.storage)
  {
    var data := Limited(stream, maxBytes + 1);
    var direct := Streams(globals.config, globals.stats, contentLength);
    if !readOk || (direct && !diskOk) {
      return None, false;
    }
    if |data| > maxBytes {
      return None, true;
    }
    if direct {
      var disk := new DiskStorage(data, globals);
      globals.stats := globals.stats.(diskHits := globals.stats.diskHits + 1);
      return Some(DiskBody(disk)), false;
    }
    var created := CreateBodyStorage(globals, data, diskOk);
    if created.MemoryBody? {
      globals.stats := globals.stats.(memoryHits := globals.stats.memoryHits + 1);
    } else {
      globals.stats := globals.stats.(diskHits := globals.stats.diskHits + 1);
    }
    return Some(created), false;
  }
}

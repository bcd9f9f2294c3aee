/**
 Request bodies, kept in memory or in a temporary file behind one interface. Both implementations
 are proved against one small model of an open document, so no sequence of calls tells them apart.
 */
module BodyStorage {
  import opened Outcomes
  import opened TempFiles

  // ---------- the document both implement ----------

  datatype Document = Document(data: seq<Byte>, pos: nat, closed: bool)

  /** Reading at most `n` bytes, `n` positive. */
  function Read(d: Document, n: nat): (Document, Result<seq<Byte>, Error>) {
    if d.closed then (d, Err(StorageClosed))
    else if d.pos >= |d.data| then (d, Err(EndOfFile))
    else
      var next := Min(d.pos + n, |d.data|);
      (d.(pos := next), Ok(d.data[d.pos..next]))
  }

  /** Positions past the end are allowed; a position before the start is refused and changes nothing. */
  function Seek(d: Document, offset: int, whence: Whence): (Document, Result<int, Error>) {
    if d.closed then (d, Err(StorageClosed))
    else
      var target := Base(whence, d.pos, |d.data|) + offset;
      if target < 0 then (d, Err(NegativePosition)) else (d.(pos := target), Ok(target))
  }

  /** The next bytes, as many as asked for or as there are, or the end of the file when there are none. */
  predicate ChunkRead(d: Document, d': Document, r: Result<seq<Byte>, Error>, n: nat) {
    && d'.data == d.data && d'.closed == d.closed
    && (r == Err(StorageClosed) <==> d.closed)
    && (r == Err(EndOfFile) <==> !d.closed && d.pos >= |d.data|)
    && (r.Err? ==> d'.pos == d.pos)
    && (r.Ok? ==>
          && d.pos < |d.data| && r.value <= d.data[d.pos..] && d'.pos == d.pos + |r.value|
          && |r.value| == if d.pos + n <= |d.data| then n else |d.data| - d.pos)
  }

  /** From the start, from where the reader is, or from the end; a position before the start is refused. */
  predicate SoughtFrom(d: Document, d': Document, r: Result<int, Error>, offset: int, whence: Whence) {
    && d'.data == d.data && d'.closed == d.closed
    && (r.Err? ==> d'.pos == d.pos)
    && (r == Err(StorageClosed) <==> d.closed)
    && (r.Ok? ==> r.value == d'.pos)
    && (!d.closed && whence == Start ==> if offset >= 0 then r == Ok(offset) else r == Err(NegativePosition))
    && (!d.closed && whence == Current ==>
          if d.pos + offset >= 0 then r == Ok(d.pos + offset) else r == Err(NegativePosition))
    && (!d.closed && whence == End ==>
          if |d.data| + offset >= 0 then r == Ok(|d.data| + offset) else r == Err(NegativePosition))
  }

  function Bytes(d: Document): Result<seq<Byte>, Error> {
    if d.closed then Err(StorageClosed) else Ok(d.data)
  }

  // ---------- counters ----------

  class Stats {
    var activeDiskFiles: int
    var currentDiskUsageBytes: int
    var activeMemoryBuffers: int
    var currentMemoryUsageBytes: int

    function View(): (int, int, int, int)
      reads this
    {
      (activeDiskFiles, currentDiskUsageBytes, activeMemoryBuffers, currentMemoryUsageBytes)
    }

    method AddDiskFiles(count: int, size: int)
      modifies this
      ensures View() == (old(activeDiskFiles) + count, old(currentDiskUsageBytes) + size,
                         old(activeMemoryBuffers), old(currentMemoryUsageBytes))
    {
      activeDiskFiles := activeDiskFiles + count;
      currentDiskUsageBytes := currentDiskUsageBytes + size;
    }

    method AddMemoryBuffers(count: int, size: int)
      modifies this
      ensures View() == (old(activeDiskFiles), old(currentDiskUsageBytes),
                         old(activeMemoryBuffers) + count, old(currentMemoryUsageBytes) + size)
    {
      activeMemoryBuffers := activeMemoryBuffers + count;
      currentMemoryUsageBytes := currentMemoryUsageBytes + size;
    }
  }

  // ---------- in memory ----------

  class MemoryStorage {
    const data: seq<Byte>
    const size: int
    const stats: Stats
    var index: nat  // the position of the bytes.Reader
    var closed: bool

    constructor (bytes: seq<Byte>, s: Stats)
      modifies s
      ensures View() == Document(bytes, 0, false) && size == |bytes| && stats == s
      ensures s.View() == (old(s.activeDiskFiles), old(s.currentDiskUsageBytes),
                           old(s.activeMemoryBuffers) + 1, old(s.currentMemoryUsageBytes) + |bytes|)
    {
      data, size, stats, index, closed := bytes, |bytes|, s, 0, false;
      new;
      s.AddMemoryBuffers(1, size);
    }

    function View(): Document
      reads this
    {
      Document(data, index, closed)
    }

    method ReadChunk(n: nat) returns (r: Result<seq<Byte>, Error>)
      requires n > 0
      modifies this
      ensures ChunkRead(old(View()), View(), r, n)
      ensures (View(), r) == Read(old(View()), n)
    {
      if closed {
        return Err(StorageClosed);
      }
      if index >= |data| {
        return Err(EndOfFile);
      }
      var next := Min(index + n, |data|);
      r := Ok(data[index..next]);
      index := next;
    }

    method SeekTo(offset: int, whence: Whence) returns (r: Result<int, Error>)
      modifies this
      ensures SoughtFrom(old(View()), View(), r, offset, whence)
      ensures (View(), r) == Seek(old(View()), offset, whence)
    {
      if closed {
        return Err(StorageClosed);
      }
      var target := Base(whence, index, |data|) + offset;
      if target < 0 {
        return Err(NegativePosition);
      }
      index := target;
      r := Ok(target);
    }

    method AllBytes() returns (r: Result<seq<Byte>, Error>)
      ensures r == Bytes(View())
    {
      return if closed then Err(StorageClosed) else Ok(data);
    }

    method Close()
      modifies this, stats
      ensures View() == old(View()).(closed := true)
      ensures stats.View() == if old(closed) then old(stats.View()) else
        (old(stats.activeDiskFiles), old(stats.currentDiskUsageBytes),
         old(stats.activeMemoryBuffers) - 1, old(stats.currentMemoryUsageBytes) - size)
    {
      if !closed {
        closed := true;
        stats.AddMemoryBuffers(-1, -size);
      }
    }
  }

  // ---------- on disk ----------

  class DiskStorage {
    const file: TempFile
    const size: int
    const stats: Stats
    var closed: bool

    /** The file lives as long as the storage is open, and its size is the recorded one. */
    ghost predicate Valid()
      reads this, file
    {
      size == |file.content| && file.open == !closed && file.present == !closed
    }

    constructor (f: TempFile, s: Stats)
      requires f.open && f.present && f.offset == 0
      modifies s
      ensures Valid() && file == f && stats == s && View() == Document(f.content, 0, false)
      ensures s.View() == (old(s.activeDiskFiles) + 1, old(s.currentDiskUsageBytes) + |f.content|,
                           old(s.activeMemoryBuffers), old(s.currentMemoryUsageBytes))
    {
      file, size, stats, closed := f, |f.content|, s, false;
      new;
      s.AddDiskFiles(1, size);
    }

    function View(): Document
      reads this, file
    {
      Document(file.content, file.offset, closed)
    }

    method ReadChunk(n: nat) returns (r: Result<seq<Byte>, Error>)
      requires Valid() && n > 0
      modifies file
      ensures Valid() && ChunkRead(old(View()), View(), r, n)
      ensures (View(), r) == Read(old(View()), n)
    {
      if closed {
        return Err(StorageClosed);
      }
      r := file.Read(n);
    }

    method SeekTo(offset: int, whence: Whence) returns (r: Result<int, Error>)
      requires Valid()
      modifies file
      ensures Valid() && SoughtFrom(old(View()), View(), r, offset, whence)
      ensures (View(), r) == Seek(old(View()), offset, whence)
    {
      if closed {
        return Err(StorageClosed);
      }
      r := file.Seek(offset, whence);
    }

    /** Remember the position, read from the start, go back. */
    method AllBytes() returns (r: Result<seq<Byte>, Error>)
      requires Valid()
      modifies file
      ensures Valid() && View() == old(View()) && r == Bytes(View())
    {
      if closed {
        return Err(StorageClosed);
      }
      var currentPos := file.Seek(0, Current);
      var rewound := file.Seek(0, Start);
      r := file.ReadFull(size);
      assert file.content[..size] == file.content;
      if r.Err? {
        return;
      }
      var restored := file.Seek(currentPos.value, Start);
    }

    method Close()
      requires Valid()
      modifies this, file, stats
      ensures Valid() && View() == old(View()).(closed := true)
      ensures stats.View() == if old(closed) then old(stats.View()) else
        (old(stats.activeDiskFiles) - 1, old(stats.currentDiskUsageBytes) - size,
         old(stats.activeMemoryBuffers), old(stats.currentMemoryUsageBytes))
    {
      if !closed {
        closed := true;
        file.CloseAndRemove();
        stats.AddDiskFiles(-1, -size);
      }
    }
  }

  // ---------- no caller can tell them apart ----------

  datatype Op = ReadOp(n: nat) | SeekOp(offset: int, whence: Whence) | BytesOp | CloseOp
  datatype Observation =
    | Chunk(r: Result<seq<Byte>, Error>)
    | At(p: Result<int, Error>)
    | Whole(b: Result<seq<Byte>, Error>)
    | Done

  function Perform(d: Document, op: Op): (Document, Observation) {
    match op
    case ReadOp(n) => var (d', r) := Read(d, n); (d', Chunk(r))
    case SeekOp(offset, whence) => var (d', p) := Seek(d, offset, whence); (d', At(p))
    case BytesOp => (d, Whole(Bytes(d)))
    case CloseOp => (d.(closed := true), Done)
  }

  function Observations(d: Document, ops: seq<Op>): (obs: seq<Observation>)
    ensures |obs| == |ops|
  {
    if ops == [] then [] else
      var n := |ops| - 1;
      Observations(d, ops[..n]) + [Perform(Final(d, ops[..n]), ops[n]).1]
  }

  function Final(d: Document, ops: seq<Op>): Document {
    if ops == [] then d else Perform(Final(d, ops[..|ops| - 1]), ops[|ops| - 1]).0
  }

  method PerformInMemory(m: MemoryStorage, op: Op) returns (o: Observation)
    requires op.ReadOp? ==> op.n > 0
    modifies m, m.stats
    ensures (m.View(), o) == Perform(old(m.View()), op)
  {
    match op
    case ReadOp(n) => var r := m.ReadChunk(n); o := Chunk(r);
    case SeekOp(offset, whence) => var p := m.SeekTo(offset, whence); o := At(p);
    case BytesOp => var b := m.AllBytes(); o := Whole(b);
    case CloseOp => m.Close(); o := Done;
  }

  method PerformOnDisk(d: DiskStorage, op: Op) returns (o: Observation)
    requires d.Valid() && (op.ReadOp? ==> op.n > 0)
    modifies d, d.file, d.stats
    ensures d.Valid() && (d.View(), o) == Perform(old(d.View()), op)
  {
    match op
    case ReadOp(n) => var r := d.ReadChunk(n); o := Chunk(r);
    case SeekOp(offset, whence) => var p := d.SeekTo(offset, whence); o := At(p);
    case BytesOp => var b := d.AllBytes(); o := Whole(b);
    case CloseOp => d.Close(); o := Done;
  }

  /** The same calls on a memory storage and a disk storage with the same content are answered alike. */
  method ReplayOnBoth(m: MemoryStorage, d: DiskStorage, ops: seq<Op>)
    returns (inMemory: seq<Observation>, onDisk: seq<Observation>)
    requires d.Valid() && m.View() == d.View()
    requires forall i :: 0 <= i < |ops| && ops[i].ReadOp? ==> ops[i].n > 0
    modifies m, m.stats, d, d.file, d.stats
    ensures inMemory == onDisk == Observations(old(d.View()), ops)
  {
    inMemory, onDisk := [], [];
    ghost var start := d.View();
    for i := 0 to |ops|
      invariant d.Valid() && m.View() == d.View() == Final(start, ops[..i])
      invariant inMemory == onDisk == Observations(start, ops[..i])
    {
      assert ops[..i + 1][..i] == ops[..i];
      var a := PerformInMemory(m, ops[i]);
      var b := PerformOnDisk(d, ops[i]);
      inMemory, onDisk := inMemory + [a], onDisk + [b];
    }
    assert ops[..|ops|] == ops;
  }

  lemma CallKeepsContent(d: Document, op: Op)
    ensures Perform(d, op).0.data == d.data && (Perform(d, op).0.closed <==> d.closed || op == CloseOp)
  {
  }

  /** Reads, seeks and closes never change what is stored; closing is final. */
  lemma {:induction false} ContentIsFixed(d: Document, ops: seq<Op>)
    ensures Final(d, ops).data == d.data
    ensures Final(d, ops).closed <==> d.closed || CloseOp in ops
  {
    if ops != [] {
      var n := |ops| - 1;
      ContentIsFixed(d, ops[..n]);
      CallKeepsContent(Final(d, ops[..n]), ops[n]);
      hide Perform;
      assert ops == ops[..n] + [ops[n]];
    }
  }

  predicate Refused(o: Observation) {
    match o
    case Chunk(r) => r == Err(StorageClosed)
    case At(p) => p == Err(StorageClosed)
    case Whole(b) => b == Err(StorageClosed)
    case Done => true
  }

  /** Every answer: refused after a close, else `Bytes` gives the whole content and leaves the position alone. */
  lemma {:induction false} AnswerOf(d: Document, ops: seq<Op>, i: nat)
    requires i < |ops|
    ensures Observations(d, ops)[i] == Perform(Final(d, ops[..i]), ops[i]).1
    ensures d.closed || CloseOp in ops[..i] ==> Refused(Observations(d, ops)[i])
    ensures !d.closed && CloseOp !in ops[..i] && ops[i] == BytesOp ==>
      Observations(d, ops)[i] == Whole(Ok(d.data)) && Final(d, ops[..i + 1]) == Final(d, ops[..i])
  {
    ObservationAt(d, ops, i);
    ContentIsFixed(d, ops[..i]);
    assert ops[..i + 1][..i] == ops[..i];
  }

  lemma {:induction false} ObservationAt(d: Document, ops: seq<Op>, i: nat)
    requires i < |ops|
    ensures Observations(d, ops)[i] == Perform(Final(d, ops[..i]), ops[i]).1
  {
    if i < |ops| - 1 {
      ObservationAt(d, ops[..|ops| - 1], i);
      assert ops[..|ops| - 1][..i] == ops[..i];
    }
  }

  function ReadInChunks(d: Document, sizes: seq<nat>): seq<Byte>
    decreases |sizes|
  {
    if sizes == [] then [] else
      var (d', r) := Read(d, sizes[0]);
      (match r case Ok(chunk) => chunk case Err(_) => []) + ReadInChunks(d', sizes[1..])
  }

  function TotalSize(sizes: seq<nat>): nat {
    if sizes == [] then 0 else sizes[0] + TotalSize(sizes[1..])
  }

  /** Whatever the chunk sizes, successive reads give the content in order, without gap or repetition. */
  lemma {:induction false} ReadsAreContiguous(d: Document, sizes: seq<nat>)
    requires !d.closed && d.pos <= |d.data|
    ensures ReadInChunks(d, sizes) == d.data[d.pos..Min(d.pos + TotalSize(sizes), |d.data|)]
    decreases |sizes|
  {
    if sizes != [] {
      var (d', _) := Read(d, sizes[0]);
      ReadsAreContiguous(d', sizes[1..]);
    }
  }

  // ---------- choosing and filling a storage ----------

  datatype Config = Config(enabled: bool, thresholdMB: int, maxSizeMB: int)

  const MEGABYTE := 1048576

  datatype Storage = InMemory(m: MemoryStorage) | OnDisk(d: DiskStorage)

  ghost predicate Holds(s: Storage, data: seq<Byte>)
    reads match s { case InMemory(m) => {m as object} case OnDisk(d) => {d as object, d.file} }
  {
    match s
    case InMemory(m) => m.View() == Document(data, 0, false) && m.size == |data|
    case OnDisk(d) => d.Valid() && d.View() == Document(data, 0, false)
  }

  predicate IsDiskCacheAvailable(config: Config, usage: int, requestSize: int) {
    config.enabled && usage + requestSize <= config.maxSizeMB * MEGABYTE
  }

  predicate GoesToDisk(config: Config, usage: int, size: int) {
    config.enabled && size >= config.thresholdMB * MEGABYTE && IsDiskCacheAvailable(config, usage, size)
  }

  /** A disk error falls back to memory, so creating a storage never fails. */
  method CreateBodyStorage(data: seq<Byte>, config: Config, stats: Stats, diskOk: bool) returns (s: Storage)
    modifies stats
    ensures Holds(s, data)
    ensures !config.enabled || |data| < config.thresholdMB * 1048576 || !diskOk ==> s.InMemory?
    ensures old(stats.currentDiskUsageBytes) + |data| > config.maxSizeMB * 1048576 ==> s.InMemory?
    ensures (&& config.enabled && |data| >= config.thresholdMB * 1048576 && diskOk
             && old(stats.currentDiskUsageBytes) + |data| <= config.maxSizeMB * 1048576) ==> s.OnDisk?
    ensures s.OnDisk? == (diskOk && GoesToDisk(config, old(stats.currentDiskUsageBytes), |data|))
    ensures stats.View() == if s.OnDisk?
      then (old(stats.activeDiskFiles) + 1, old(stats.currentDiskUsageBytes) + |data|,
            old(stats.activeMemoryBuffers), old(stats.currentMemoryUsageBytes))
      else (old(stats.activeDiskFiles), old(stats.currentDiskUsageBytes),
            old(stats.activeMemoryBuffers) + 1, old(stats.currentMemoryUsageBytes) + |data|)
    ensures s.OnDisk? ==> stats.currentDiskUsageBytes <= config.maxSizeMB * MEGABYTE
  {
    var size := |data|;
    if config.enabled && size >= config.thresholdMB * MEGABYTE
       && IsDiskCacheAvailable(config, stats.currentDiskUsageBytes, size) {
      if diskOk {
        var file := new TempFile(data);
        var d := new DiskStorage(file, stats);
        return OnDisk(d);
      }
    }
    var m := new MemoryStorage(data, stats);
    return InMemory(m);
  }

  const MAX_INT64 := 0x7FFF_FFFF_FFFF_FFFF

  /** int64 addition. */
  function Add64(a: int, b: int): int {
    (a + b + MAX_INT64 + 1) % (2 * (MAX_INT64 + 1)) - (MAX_INT64 + 1)
  }

  /** io.LimitReader: at most `limit` bytes, none when the limit is not positive. */
  function Limited(stream: seq<Byte>, limit: int): seq<Byte> {
    if limit <= 0 then [] else stream[..Min(limit, |stream|)]
  }

  class Reader {
    var rest: seq<Byte>

    method ReadAllLimited(limit: int) returns (data: seq<Byte>)
      modifies this
      ensures data == Limited(old(rest), limit) && old(rest) == data + rest
    {
      var n := if limit <= 0 then 0 else Min(limit, |rest|);
      data := rest[..n];
      rest := rest[n..];
    }
  }

  method CreateBodyStorageFromReader(reader: Reader, contentLength: int, maxBytes: int, config: Config,
                                     stats: Stats, diskOk: bool)
    returns (r: Result<Storage, Error>)
    requires -MAX_INT64 - 1 <= maxBytes <= MAX_INT64
    modifies reader, stats
    ensures var kept := Limited(old(reader.rest), Add64(maxBytes, 1));
      && (r.Ok? ==> Holds(r.value, kept) && |kept| <= maxBytes)
      && (r == Err(TooLarge) ==> |kept| > maxBytes)
      && (r.Ok? ==> stats.View() == if r.value.OnDisk?
           then (old(stats.activeDiskFiles) + 1, old(stats.currentDiskUsageBytes) + |kept|,
                 old(stats.activeMemoryBuffers), old(stats.currentMemoryUsageBytes))
           else (old(stats.activeDiskFiles), old(stats.currentDiskUsageBytes),
                 old(stats.activeMemoryBuffers) + 1, old(stats.currentMemoryUsageBytes) + |kept|))
      && (r.Err? ==> stats.View() == old(stats.View()))
    ensures r.Ok? && (!config.enabled || !diskOk) ==> r.value.InMemory?
    ensures (&& r.Ok? && config.enabled && contentLength > 0 && contentLength >= config.thresholdMB * 1048576
             && old(stats.currentDiskUsageBytes) + contentLength <= config.maxSizeMB * 1048576) ==> r.value.OnDisk?
    ensures var usage, kept := old(stats.currentDiskUsageBytes), Limited(old(reader.rest), Add64(maxBytes, 1));
      var streams := contentLength > 0 && GoesToDisk(config, usage, contentLength);
      && (r == Err(DiskFailed) <==> streams && !diskOk)
      && (r.Err? ==> r == Err(TooLarge) || r == Err(DiskFailed))
      && (r.Ok? ==> (r.value.OnDisk? <==> diskOk && (streams || GoesToDisk(config, usage, |kept|))))
      && (maxBytes < MAX_INT64 ==>
            && (r.Ok? <==> |old(reader.rest)| <= maxBytes && (diskOk || !streams))
            && (r.Ok? ==> Holds(r.value, old(reader.rest))))
  {
    AcceptedAsSent(reader.rest, maxBytes);
    if config.enabled && contentLength > 0 && GoesToDisk(config, stats.currentDiskUsageBytes, contentLength) {
      if !diskOk {
        return Err(DiskFailed);
      }
      var written := reader.ReadAllLimited(Add64(maxBytes, 1));
      if |written| > maxBytes {
        return Err(TooLarge);
      }
      var file := new TempFile(written);
      var d := new DiskStorage(file, stats);
      return Ok(OnDisk(d));
    }
    var data := reader.ReadAllLimited(Add64(maxBytes, 1));
    if |data| > maxBytes {
      return Err(TooLarge);
    }
    var s := CreateBodyStorage(data, config, stats, diskOk);
    return Ok(s);
  }

  /** "At most maxBytes, and then exactly these bytes" holds unless the limit is the largest int64, where adding
      one to it wraps around: then every stream is accepted, and stored as empty. */
  lemma AcceptedAsSent(stream: seq<Byte>, maxBytes: int)
    requires -MAX_INT64 - 1 <= maxBytes <= MAX_INT64
    ensures var kept := Limited(stream, Add64(maxBytes, 1));
      ((|kept| <= maxBytes <==> |stream| <= maxBytes) && (|kept| <= maxBytes ==> kept == stream))
      <==> maxBytes < MAX_INT64 || stream == []
  {
    if maxBytes < MAX_INT64 {
      assert Add64(maxBytes, 1) == maxBytes + 1;
    } else {
      assert Add64(maxBytes, 1) == -MAX_INT64 - 1;
    }
  }
}

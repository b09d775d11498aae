/** Whole transfers: genuine chunks in any order and number, crashes in the middle of a write or of a save, and
    resumption from whatever prefix of the sidecar survived. */
module FileRecovery {
  import opened Basics
  import opened Bytes
  import opened FileTransfer

  /** The disk, and the received set of the running assembler if there is one. */
  datatype System = System(disk: Disk, live: Option<set<nat>>)

  datatype Step =
    | Accept
    | Write(index: nat, order: seq<nat>)
    | TornWrite(index: nat, k: nat)
    | TornSave(index: nat, order: seq<nat>, k: nat)
    | Crash
    | Finish

  function Saved(disk: Disk, received: set<nat>, order: seq<nat>): Disk {
    if |received| % SAVE_STATE_INTERVAL == 0 then disk.(sidecar := Some(Pack(order))) else disk
  }

  predicate Complete(source: seq<byte>, received: set<nat>) {
    CountReached(received, ChunkCount(|source|))
  }

  ghost predicate Enabled(source: seq<byte>, y: System, step: Step) {
    match step
    case Accept => y.live.None?
    case Write(index, order) =>
      y.live.Some? && ReadChunk(source, index).Some? && Lists(order, y.live.value + {index})
    case TornWrite(index, k) =>
      y.live.Some? && ReadChunk(source, index).Some? && k <= |ReadChunk(source, index).value|
    case TornSave(index, order, k) =>
      && y.live.Some? && ReadChunk(source, index).Some? && Lists(order, y.live.value + {index})
      && k <= |Pack(order)|
    case Crash => true
    case Finish => y.live.Some? && Complete(source, y.live.value)
  }

  ghost function Next(source: seq<byte>, y: System, step: Step): System
    requires Enabled(source, y, step)
  {
    match step
    case Accept =>
      if y.disk.sidecar.None? then System(Disk(Zeros(|source|), None), Some({}))
      else System(y.disk, Some(Loaded(y.disk.sidecar.value, ChunkCount(|source|))))
    case Write(index, order) =>
      var received := y.live.value + {index};
      var disk := y.disk.(file := WriteAt(y.disk.file, index * CHUNK_SIZE, ReadChunk(source, index).value));
      System(Saved(disk, received, order), Some(received))
    case TornWrite(index, k) =>
      System(y.disk.(file := WriteAt(y.disk.file, index * CHUNK_SIZE, ReadChunk(source, index).value[..k])), None)
    case TornSave(index, order, k) =>
      var file := WriteAt(y.disk.file, index * CHUNK_SIZE, ReadChunk(source, index).value);
      System(Disk(file, Some(Pack(order)[..k])), None)
    case Crash => System(y.disk, None)
    case Finish => System(y.disk.(sidecar := None), None)
  }

  ghost predicate EnabledRun(source: seq<byte>, y: System, steps: seq<Step>)
    decreases |steps|
  {
    steps != [] ==> Enabled(source, y, steps[0]) && EnabledRun(source, Next(source, y, steps[0]), steps[1..])
  }

  ghost function Run(source: seq<byte>, y: System, steps: seq<Step>): System
    requires EnabledRun(source, y, steps)
    decreases |steps|
  {
    if steps == [] then y else Run(source, Next(source, y, steps[0]), steps[1..])
  }

  // ---- The invariant ----

  /** The bytes of chunk `i` are on disk. */
  ghost predicate Written(source: seq<byte>, file: seq<byte>, i: nat) {
    |file| == |source| && forall q: nat :: InChunk(|source|, i, q) ==> file[q] == source[q]
  }

  ghost predicate AllWritten(source: seq<byte>, file: seq<byte>, indices: set<nat>) {
    forall i :: i in indices ==> i < ChunkCount(|source|) && Written(source, file, i)
  }

  /** The running assembler and the sidecar name only chunks that are on disk. */
  ghost predicate Inv(source: seq<byte>, y: System) {
    && (y.live.Some? || y.disk.sidecar.Some? ==> |y.disk.file| == |source|)
    && (y.live.Some? ==> AllWritten(source, y.disk.file, y.live.value))
    && (y.disk.sidecar.Some? ==>
          AllWritten(source, y.disk.file, Loaded(y.disk.sidecar.value, ChunkCount(|source|))))
  }

  /** Writing any part of a genuine chunk spoils no chunk already on disk. */
  lemma PatchKeeps(source: seq<byte>, file: seq<byte>, index: nat, k: nat, indices: set<nat>)
    requires |file| == |source| && index < ChunkCount(|source|) && k <= |ReadChunk(source, index).value|
    requires AllWritten(source, file, indices)
    ensures var file' := WriteAt(file, index * CHUNK_SIZE, ReadChunk(source, index).value[..k]);
      && |file'| == |source| && AllWritten(source, file', indices)
      && (k == |ReadChunk(source, index).value| ==> Written(source, file', index))
  {
  }

  lemma WholePatch(source: seq<byte>, file: seq<byte>, index: nat, indices: set<nat>)
    requires |file| == |source| && index < ChunkCount(|source|)
    requires AllWritten(source, file, indices)
    ensures var file' := WriteAt(file, index * CHUNK_SIZE, ReadChunk(source, index).value);
      |file'| == |source| && AllWritten(source, file', indices) && AllWritten(source, file', indices + {index})
  {
  }

  /** A sidecar torn to any prefix names only indices that were listed. */
  lemma TornLoads(order: seq<nat>, indices: set<nat>, n: nat, k: nat)
    requires Lists(order, indices) && k <= |Pack(order)|
    requires forall i :: i in indices ==> i < U32_LIMIT
    ensures Loaded(Pack(order)[..k], n) <= indices
  {
    assert forall j :: 0 <= j < |order| ==> order[j] in indices;
    UnpackTorn(order, k);
    forall i | i in Loaded(Pack(order)[..k], n)
      ensures i in indices
    {
      LoadedUnpack(Pack(order)[..k], n, i);
    }
  }

  lemma WriteKeepsInv(source: seq<byte>, y: System, index: nat, order: seq<nat>)
    requires Inv(source, y) && Enabled(source, y, Write(index, order))
    ensures Inv(source, Next(source, y, Write(index, order)))
  {
    var received := y.live.value + {index};
    WholePatch(source, y.disk.file, index, y.live.value);
    if y.disk.sidecar.Some? {
      WholePatch(source, y.disk.file, index, Loaded(y.disk.sidecar.value, ChunkCount(|source|)));
    }
    TornLoads(order, received, ChunkCount(|source|), |Pack(order)|);
    assert Pack(order)[..|Pack(order)|] == Pack(order);
  }

  lemma TornSaveKeepsInv(source: seq<byte>, y: System, index: nat, order: seq<nat>, k: nat)
    requires Inv(source, y) && Enabled(source, y, TornSave(index, order, k))
    ensures Inv(source, Next(source, y, TornSave(index, order, k)))
  {
    WholePatch(source, y.disk.file, index, y.live.value);
    TornLoads(order, y.live.value + {index}, ChunkCount(|source|), k);
  }

  lemma StepKeepsInv(source: seq<byte>, y: System, step: Step)
    requires Inv(source, y) && Enabled(source, y, step)
    ensures Inv(source, Next(source, y, step))
  {
    match step
    case Write(index, order) => WriteKeepsInv(source, y, index, order);
    case TornWrite(index, k) =>
      if y.disk.sidecar.Some? {
        PatchKeeps(source, y.disk.file, index, k, Loaded(y.disk.sidecar.value, ChunkCount(|source|)));
      }
    case TornSave(index, order, k) => TornSaveKeepsInv(source, y, index, order, k);
    case _ =>
  }

  lemma {:induction false} RunKeepsInv(source: seq<byte>, y: System, steps: seq<Step>)
    requires Inv(source, y) && EnabledRun(source, y, steps)
    ensures Inv(source, Run(source, y, steps))
    decreases |steps|
  {
    if steps != [] {
      StepKeepsInv(source, y, steps[0]);
      RunKeepsInv(source, Next(source, y, steps[0]), steps[1..]);
    }
  }

  // ---- Completion ----

  /** Reporting completion and having nothing left to request are the same. */
  lemma CompleteIffNoneMissing(source: seq<byte>, received: set<nat>)
    requires forall i :: i in received ==> i < ChunkCount(|source|)
    ensures Complete(source, received) <==> Missing(received, ChunkCount(|source|)) == []
  {
    CountReachedIff(received, ChunkCount(|source|));
  }

  lemma CompleteMeansAll(source: seq<byte>, y: System)
    requires Inv(source, y) && y.live.Some? && Complete(source, y.live.value)
    requires CeilDiv(|source|) < U32_LIMIT
    ensures y.disk.file == source
  {
    FullRange(y.live.value, ChunkCount(|source|));
    CoverageIff(|source|);
    forall q: nat | q < |source|
      ensures y.disk.file[q] == source[q]
    {
      var i := q / CHUNK_SIZE;
      assert i in y.live.value && InChunk(|source|, i, q);
    }
  }

  /** From any disk without a sidecar, after any run of deliveries, crashes and resumptions, an assembler that
      reports completion has the source file on disk. */
  lemma CompletionIsCorrect(source: seq<byte>, stale: seq<byte>, steps: seq<Step>)
    requires CeilDiv(|source|) < U32_LIMIT
    requires EnabledRun(source, System(Disk(stale, None), None), steps)
    ensures var y := Run(source, System(Disk(stale, None), None), steps);
      y.live.Some? && Complete(source, y.live.value) ==> y.disk.file == source
  {
    var start := System(Disk(stale, None), None);
    RunKeepsInv(source, start, steps);
    var y := Run(source, start, steps);
    if y.live.Some? && Complete(source, y.live.value) {
      CompleteMeansAll(source, y);
    }
  }

  // ---- Resumption ----

  /** The writes that deliver `indices` one after the other, saving in the orders given. */
  ghost predicate Delivers(steps: seq<Step>, indices: seq<nat>) {
    |steps| == |indices| && forall i :: 0 <= i < |steps| ==> steps[i].Write? && steps[i].index == indices[i]
  }

  lemma ElementsHead(indices: seq<nat>)
    requires indices != []
    ensures Elements(indices) == {indices[0]} + Elements(indices[1..])
  {
    HeadTail(indices);
  }

  lemma WriteReceives(source: seq<byte>, y: System, index: nat, order: seq<nat>)
    requires Enabled(source, y, Write(index, order))
    ensures Next(source, y, Write(index, order)).live == Some(y.live.value + {index})
  {
  }

  lemma {:induction false} DeliveredReceived(source: seq<byte>, y: System, steps: seq<Step>, indices: seq<nat>)
    requires Delivers(steps, indices) && y.live.Some? && EnabledRun(source, y, steps)
    ensures Run(source, y, steps).live == Some(y.live.value + Elements(indices))
    decreases |steps|
  {
    if steps != [] {
      WriteReceives(source, y, steps[0].index, steps[0].order);
      DeliveredReceived(source, Next(source, y, steps[0]), steps[1..], indices[1..]);
      ElementsHead(indices);
      Union(y.live.value, {indices[0]}, Elements(indices[1..]));
    }
  }

  lemma Union(a: set<nat>, b: set<nat>, c: set<nat>)
    ensures a + b + c == a + (b + c)
  {
  }

  /** The receiver packs what it misses, the sender unpacks it and resends it in any order: the file is complete. */
  lemma ResumeCompletes(source: seq<byte>, y: System, steps: seq<Step>, resent: seq<nat>)
    requires Inv(source, y) && y.live.Some? && CeilDiv(|source|) < U32_LIMIT
    requires multiset(resent) == multiset(Unpack(Pack(Missing(y.live.value, ChunkCount(|source|)))))
    requires Delivers(steps, resent) && EnabledRun(source, y, steps)
    ensures var y' := Run(source, y, steps);
      y'.live.Some? && Complete(source, y'.live.value) && y'.disk.file == source
  {
    var n := ChunkCount(|source|);
    MissingRequested(y.live.value, n);
    DeliveredReceived(source, y, steps, resent);
    RunKeepsInv(source, y, steps);
    ResentFill(y.live.value, n, resent, Run(source, y, steps).live.value);
    RangeSize(Run(source, y, steps).live.value, n);
    CompleteMeansAll(source, Run(source, y, steps));
  }

  lemma MissingRequested(received: set<nat>, n: nat)
    requires n <= U32_LIMIT
    ensures Unpack(Pack(Missing(received, n))) == Missing(received, n)
  {
    var missing := Missing(received, n);
    forall i | 0 <= i < |missing|
      ensures missing[i] < U32_LIMIT
    {
      MissingExact(received, n, missing[i]);
    }
    UnpackPack(missing);
  }

  lemma ResentFill(received: set<nat>, n: nat, resent: seq<nat>, after: set<nat>)
    requires multiset(resent) == multiset(Missing(received, n))
    requires forall i :: i in received ==> i < n
    requires after == received + Elements(resent)
    ensures forall i: nat :: i in after <==> i < n
  {
    var missing := Missing(received, n);
    forall i: nat
      ensures i in after <==> i < n
    {
      MissingExact(received, n, i);
      assert i in resent <==> i in multiset(resent);
      assert i in missing <==> i in multiset(missing);
    }
  }

  // ---- Resumption from any disk ----

  /** The byte at `q`, an absent one being zero. */
  function ByteAt(file: seq<byte>, q: nat): byte {
    if q < |file| then file[q] else 0
  }

  function Max(a: nat, b: nat): nat {
    if a >= b then a else b
  }

  /** `file'` is `file` with the chunks `indices` of the source written over it. */
  ghost predicate Patched(source: seq<byte>, file: seq<byte>, indices: seq<nat>, file': seq<byte>) {
    && |file| <= |file'| <= Max(|file|, |source|)
    && (forall q :: 0 <= q < |file'| ==>
          file'[q] == if q < |source| && q / CHUNK_SIZE in indices then source[q] else ByteAt(file, q))
    && (forall i :: i in indices ==> ChunkEnd(|source|, i) <= |file'|)
    && (|file'| > |file| ==> exists i :: i in indices && ChunkEnd(|source|, i) == |file'|)
  }

  lemma ChunkOf(size: nat, index: nat, q: nat)
    ensures InChunk(size, index, q) <==> q < size && q / CHUNK_SIZE == index
  {
    assert CHUNK_SIZE * (q / CHUNK_SIZE) <= q < CHUNK_SIZE * (q / CHUNK_SIZE) + CHUNK_SIZE;
  }

  lemma WriteAtAny(file: seq<byte>, offset: nat, data: seq<byte>)
    ensures var s := WriteAt(file, offset, data);
      && |s| == Max(|file|, offset + |data|)
      && forall q :: 0 <= q < |s| ==>
           s[q] == if offset <= q < offset + |data| then data[q - offset] else ByteAt(file, q)
  {
  }

  lemma PatchOne(source: seq<byte>, file: seq<byte>, index: nat)
    requires index < ChunkCount(|source|)
    ensures Patched(source, file, [index], WriteAt(file, index * CHUNK_SIZE, ReadChunk(source, index).value))
  {
    var data := ReadChunk(source, index).value;
    var after := WriteAt(file, index * CHUNK_SIZE, data);
    ChunkStartsInside(|source|, index);
    WriteAtAny(file, index * CHUNK_SIZE, data);
    assert index * CHUNK_SIZE + |data| == ChunkEnd(|source|, index);
    forall q | 0 <= q < |after|
      ensures after[q] == if q < |source| && q / CHUNK_SIZE in [index] then source[q] else ByteAt(file, q)
    {
      ChunkOf(|source|, index, q);
    }
    assert index in [index];
  }

  lemma PatchThen(source: seq<byte>, file: seq<byte>, a: seq<nat>, mid: seq<byte>, b: seq<nat>, file': seq<byte>)
    requires Patched(source, file, a, mid) && Patched(source, mid, b, file')
    ensures Patched(source, file, a + b, file')
  {
    if |file'| > |mid| {
      var i :| i in b && ChunkEnd(|source|, i) == |file'|;
      assert i in a + b;
    } else if |file'| > |file| {
      var i :| i in a && ChunkEnd(|source|, i) == |mid|;
      assert i in a + b;
    }
  }

  lemma {:induction false} DeliveredPatch(source: seq<byte>, y: System, steps: seq<Step>, indices: seq<nat>)
    requires Delivers(steps, indices) && y.live.Some? && EnabledRun(source, y, steps)
    ensures Patched(source, y.disk.file, indices, Run(source, y, steps).disk.file)
    decreases |steps|
  {
    if steps != [] {
      var y1 := Next(source, y, steps[0]);
      PatchOne(source, y.disk.file, indices[0]);
      DeliveredPatch(source, y1, steps[1..], indices[1..]);
      PatchThen(source, y.disk.file, [indices[0]], y1.disk.file, indices[1..], Run(source, y, steps).disk.file);
      HeadTail(indices);
    } else {
      assert indices == [];
    }
  }

  /** What a disk must hold for a resumption to be right: no more than the source, the end unless it is asked for
      again, and the bytes of every chunk its sidecar names, an absent byte being zero. */
  ghost predicate Trustworthy(source: seq<byte>, file: seq<byte>, received: set<nat>) {
    && |file| <= |source|
    && (|file| < |source| ==> ChunkCount(|source|) - 1 !in received)
    && forall q: nat :: q < |source| && q / CHUNK_SIZE in received ==> ByteAt(file, q) == source[q]
  }

  lemma LastChunk(size: nat, index: nat)
    requires CeilDiv(size) < U32_LIMIT && index < ChunkCount(size)
    ensures ChunkEnd(size, index) == size <==> index == ChunkCount(size) - 1
  {
    ChunkStartsInside(size, index);
    var n := CeilDiv(size);
    assert CHUNK_SIZE * n <= size + CHUNK_SIZE - 1 < CHUNK_SIZE * (n + 1);
  }

  /** Writing exactly the chunks a received set lacks gives the source if and only if the disk was trustworthy. */
  lemma PatchedIff(source: seq<byte>, file: seq<byte>, received: set<nat>, resent: seq<nat>, file': seq<byte>)
    requires CeilDiv(|source|) < U32_LIMIT && Patched(source, file, resent, file')
    requires forall i :: i in received ==> i < ChunkCount(|source|)
    requires forall i: nat :: i in resent <==> i < ChunkCount(|source|) && i !in received
    ensures file' == source <==> Trustworthy(source, file, received)
  {
    CoverageIff(|source|);
    if file' == source {
      SourceTrusted(source, file, received, resent, file');
    }
    if Trustworthy(source, file, received) {
      TrustedSource(source, file, received, resent, file');
    }
  }

  lemma SourceTrusted(source: seq<byte>, file: seq<byte>, received: set<nat>, resent: seq<nat>, file': seq<byte>)
    requires CeilDiv(|source|) < U32_LIMIT && Patched(source, file, resent, file') && file' == source
    requires forall i: nat :: i in resent <==> i < ChunkCount(|source|) && i !in received
    ensures Trustworthy(source, file, received)
  {
    if |file| < |source| {
      var i :| i in resent && ChunkEnd(|source|, i) == |file'|;
      LastChunk(|source|, i);
    }
    forall q: nat | q < |source| && q / CHUNK_SIZE in received
      ensures ByteAt(file, q) == source[q]
    {
      assert file'[q] == ByteAt(file, q);
    }
  }

  lemma TrustedSource(source: seq<byte>, file: seq<byte>, received: set<nat>, resent: seq<nat>, file': seq<byte>)
    requires CeilDiv(|source|) < U32_LIMIT && Patched(source, file, resent, file')
    requires forall i: nat :: i in resent <==> i < ChunkCount(|source|) && i !in received
    requires forall q: nat :: q < |source| ==> q / CHUNK_SIZE < ChunkCount(|source|)
    requires Trustworthy(source, file, received)
    ensures file' == source
  {
    if |file| < |source| {
      assert 0 / CHUNK_SIZE == 0;
      var last := ChunkCount(|source|) - 1;
      LastChunk(|source|, last);
      assert last in resent;
    }
    assert |file'| == |source|;
    forall q: nat | q < |source|
      ensures file'[q] == source[q]
    {
      assert q / CHUNK_SIZE in resent || q / CHUNK_SIZE in received;
    }
  }

  lemma ReachesCount(source: seq<byte>, received: set<nat>)
    requires |received| == ChunkCount(|source|)
    ensures Complete(source, received)
  {
  }

  /** Delivering what a received set lacks reports completion, whatever is on disk. */
  lemma ResendReports(source: seq<byte>, y: System, received: set<nat>, steps: seq<Step>, resent: seq<nat>)
    requires y.live == Some(received) && forall i :: i in received ==> i < ChunkCount(|source|)
    requires multiset(resent) == multiset(Missing(received, ChunkCount(|source|)))
    requires Delivers(steps, resent) && EnabledRun(source, y, steps)
    ensures Run(source, y, steps).live.Some? && Complete(source, Run(source, y, steps).live.value)
  {
    var n := ChunkCount(|source|);
    var after := received + Elements(resent);
    DeliveredReceived(source, y, steps, resent);
    ResentFill(received, n, resent, after);
    RangeSize(after, n);
    ReachesCount(source, after);
  }

  lemma LoadedBelow(data: seq<byte>, n: nat)
    ensures forall i :: i in Loaded(data, n) ==> i < n
  {
    forall i | i in Loaded(data, n)
      ensures i < n
    {
      LoadedUnpack(data, n, i);
    }
  }

  /** From any disk with any sidecar, whoever wrote it: opening it, asking for what the sidecar does not name and
      receiving that in any order always reports completion, and ends with the source if and only if the disk was
      trustworthy. */
  lemma ResumeIff(source: seq<byte>, disk: Disk, steps: seq<Step>, resent: seq<nat>)
    requires CeilDiv(|source|) < U32_LIMIT && disk.sidecar.Some?
    requires var received := Loaded(disk.sidecar.value, ChunkCount(|source|));
      && multiset(resent) == multiset(Unpack(Pack(Missing(received, ChunkCount(|source|)))))
      && Delivers(steps, resent) && EnabledRun(source, Next(source, System(disk, None), Accept), steps)
    ensures var received := Loaded(disk.sidecar.value, ChunkCount(|source|));
      var y := Next(source, System(disk, None), Accept);
      && Run(source, y, steps).live.Some? && Complete(source, Run(source, y, steps).live.value)
      && (Run(source, y, steps).disk.file == source <==> Trustworthy(source, disk.file, received))
  {
    var n := ChunkCount(|source|);
    var received := Loaded(disk.sidecar.value, n);
    var y := Next(source, System(disk, None), Accept);
    MissingRequested(received, n);
    DeliveredPatch(source, y, steps, resent);
    LoadedBelow(disk.sidecar.value, n);
    forall i: nat
      ensures i in resent <==> i < n && i !in received
    {
      MissingExact(received, n, i);
      assert i in resent <==> i in multiset(resent);
      assert i in Missing(received, n) <==> i in multiset(Missing(received, n));
    }
    PatchedIff(source, disk.file, received, resent, Run(source, y, steps).disk.file);
    ResendReports(source, y, received, steps, resent);
  }

  /** A finished transfer leaves nothing to resume: the next one starts from a file of zeros. */
  lemma FinishedStartsAnew(source: seq<byte>, y: System)
    requires Enabled(source, y, Finish)
    ensures var finished := Next(source, y, Finish);
      && finished.disk.file == y.disk.file
      && Next(source, finished, Accept) == System(Disk(Zeros(|source|), None), Some({}))
  {
  }

  // ---- What a crash costs ----

  /** What an assembler that opens the disk would start with. */
  function Resumed(source: seq<byte>, disk: Disk): set<nat> {
    if disk.sidecar.None? then {} else Loaded(disk.sidecar.value, ChunkCount(|source|))
  }

  /** The sidecar names received chunks only, and the last multiple of 64 received is saved. */
  ghost predicate Recent(source: seq<byte>, y: System) {
    y.live.Some? ==>
      var saved := Resumed(source, y.disk);
      saved <= y.live.value && |saved| / 64 == |y.live.value| / 64
  }

  lemma SavedWhole(source: seq<byte>, order: seq<nat>, indices: set<nat>)
    requires Lists(order, indices) && forall i :: i in indices ==> i < ChunkCount(|source|)
    ensures Loaded(Pack(order), ChunkCount(|source|)) == indices
  {
    assert forall j :: 0 <= j < |order| ==> order[j] in indices;
    UnpackPack(order);
    forall i: nat
      ensures i in Loaded(Pack(order), ChunkCount(|source|)) <==> i in indices
    {
      LoadedUnpack(Pack(order), ChunkCount(|source|), i);
    }
  }

  lemma OneMore(received: set<nat>, index: nat)
    requires |received + {index}| % 64 != 0
    ensures |received + {index}| / 64 == |received| / 64
  {
    if index in received {
      assert received + {index} == received;
    }
  }

  lemma WriteKeepsRecent(source: seq<byte>, y: System, index: nat, order: seq<nat>)
    requires Inv(source, y) && Recent(source, y) && Enabled(source, y, Write(index, order))
    ensures Recent(source, Next(source, y, Write(index, order)))
  {
    var received := y.live.value + {index};
    if |received| % 64 == 0 {
      SavedWhole(source, order, received);
    } else {
      OneMore(y.live.value, index);
    }
  }

  lemma {:induction false} RunKeepsRecent(source: seq<byte>, y: System, steps: seq<Step>)
    requires Inv(source, y) && Recent(source, y) && EnabledRun(source, y, steps)
    ensures Recent(source, Run(source, y, steps))
    decreases |steps|
  {
    if steps != [] {
      match steps[0] {
        case Write(index, order) => WriteKeepsRecent(source, y, index, order);
        case _ =>
      }
      StepKeepsInv(source, y, steps[0]);
      RunKeepsRecent(source, Next(source, y, steps[0]), steps[1..]);
    }
  }

  /** A crash in any run, also in the middle of writing a chunk, costs fewer than 64 of the chunks received: opening the
      disk again finds the others. Only a crash in the middle of a save can cost more. */
  lemma CrashLosesFew(source: seq<byte>, stale: seq<byte>, steps: seq<Step>, crash: Step)
    requires EnabledRun(source, System(Disk(stale, None), None), steps)
    requires var y := Run(source, System(Disk(stale, None), None), steps);
      y.live.Some? && (crash.Crash? || crash.TornWrite?) && Enabled(source, y, crash)
    ensures var y := Run(source, System(Disk(stale, None), None), steps);
      var again := Next(source, Next(source, y, crash), Accept).live;
      again.Some? && again.value <= y.live.value && |y.live.value| < |again.value| + 64
  {
    var start := System(Disk(stale, None), None);
    RunKeepsRecent(source, start, steps);
    var y := Run(source, start, steps);
    assert Resumed(source, Next(source, y, crash).disk) == Resumed(source, y.disk);
  }
}

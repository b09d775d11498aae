/** Receiving a file in chunks: any arrival order, crashes at any point, and resumption from a sidecar. */
module FileTransfer {
  import opened Basics
  import opened Bytes

  const CHUNK_SIZE := 262_144
  const SAVE_STATE_INTERVAL := 64

  /** A SHA-256 digest as a term. */
  datatype Digest = Digest(data: seq<byte>)

  datatype Error = HashMismatch | OutOfRange

  // ---- Chunks of the source ----

  function CeilDiv(size: nat): nat {
    (size + CHUNK_SIZE - 1) / CHUNK_SIZE
  }

  /** The chunk count of a file, truncated to 32 bits. */
  function ChunkCount(size: nat): nat {
    CeilDiv(size) % U32_LIMIT
  }

  function ChunkEnd(size: nat, index: nat): nat {
    if (index + 1) * CHUNK_SIZE <= size then (index + 1) * CHUNK_SIZE else size
  }

  predicate InChunk(size: nat, index: nat, q: nat) {
    index * CHUNK_SIZE <= q < ChunkEnd(size, index)
  }

  lemma ChunkStartsInside(size: nat, index: nat)
    requires index < ChunkCount(size)
    ensures index * CHUNK_SIZE < size
  {
  }

  /** What the sender reads for one index. */
  function ReadChunk(source: seq<byte>, index: nat): (r: Option<seq<byte>>)
    ensures r.Some? <==> index < ChunkCount(|source|)
    ensures r.Some? ==> 0 < |r.value| <= CHUNK_SIZE
  {
    if index >= ChunkCount(|source|) then None
    else
      ChunkStartsInside(|source|, index);
      Some(source[index * CHUNK_SIZE..ChunkEnd(|source|, index)])
  }

  /** A file of fewer than 2^32 chunks of 262144 bytes: chunk `index` is what stands from byte 262144 times `index` on,
      262144 bytes of it or up to the end, and there is one exactly if that is inside the file. */
  lemma ChunkIs(source: seq<byte>, index: nat)
    requires |source| <= 262_144 * 0xFFFF_FFFF
    ensures var start, r := 262_144 * index, ReadChunk(source, index);
      && (r.Some? <==> start < |source|)
      && (r.Some? ==>
            && |r.value| == (if start + 262_144 <= |source| then 262_144 else |source| - start)
            && forall k :: 0 <= k < |r.value| ==> r.value[k] == source[start + k])
  {
  }

  /** The chunks cover the file exactly when their number fits 32 bits. */
  lemma CoverageIff(size: nat)
    ensures (forall q: nat :: q < size ==> q / CHUNK_SIZE < ChunkCount(size)) <==> CeilDiv(size) < U32_LIMIT
  {
    var n := CeilDiv(size);
    assert CHUNK_SIZE * n <= size + CHUNK_SIZE - 1 < CHUNK_SIZE * (n + 1);
    if n < U32_LIMIT {
      forall q: nat | q < size
        ensures q / CHUNK_SIZE < ChunkCount(size)
      {
        assert CHUNK_SIZE * (q / CHUNK_SIZE) <= q;
      }
    } else {
      var q := CHUNK_SIZE * (n - 1);
      assert q < size && q / CHUNK_SIZE == n - 1;
    }
  }

  /** The first size that is not covered: its 2^32 chunks count as none. */
  lemma OversizeUncovered()
    ensures ChunkCount(CHUNK_SIZE * U32_LIMIT) == 0
    ensures forall index :: ReadChunk(Zeros(CHUNK_SIZE * U32_LIMIT), index) == None
  {
    assert CeilDiv(CHUNK_SIZE * U32_LIMIT) == U32_LIMIT;
  }

  // ---- Packed indices ----

  function Pack(indices: seq<nat>): seq<byte> {
    if indices == [] then [] else Le(indices[0], 4) + Pack(indices[1..])
  }

  /** The whole 4-byte groups of `data`; a torn tail is dropped. */
  function Unpack(data: seq<byte>): seq<nat> {
    if |data| < 4 then [] else [FromLe(data[..4])] + Unpack(data[4..])
  }

  /** However a packed list is cut short, what remains is a prefix of it. */
  lemma {:induction false} UnpackTorn(indices: seq<nat>, k: nat)
    requires forall i :: 0 <= i < |indices| ==> indices[i] < U32_LIMIT
    requires k <= |Pack(indices)|
    ensures Unpack(Pack(indices)[..k]) <= indices
    ensures k == |Pack(indices)| ==> Unpack(Pack(indices)[..k]) == indices
  {
    if k >= 4 {
      var torn := Pack(indices)[..k];
      assert torn[..4] == Le(indices[0], 4);
      Pow256Values();
      LeRoundTrip(indices[0], 4);
      assert torn[4..] == Pack(indices[1..])[..k - 4];
      UnpackTorn(indices[1..], k - 4);
      HeadTail(indices);
    }
  }

  lemma UnpackPack(indices: seq<nat>)
    requires forall i :: 0 <= i < |indices| ==> indices[i] < U32_LIMIT
    ensures Unpack(Pack(indices)) == indices
  {
    UnpackTorn(indices, |Pack(indices)|);
    assert Pack(indices)[..|Pack(indices)|] == Pack(indices);
  }

  /** `order` is a listing of `indices`, as iterating a hash set gives one. */
  ghost predicate Lists(order: seq<nat>, indices: set<nat>) {
    |order| == |indices| && forall i: nat :: i in order <==> i in indices
  }

  // ---- Writing ----

  /** The file after writing `data` at `offset`, which may extend it. */
  function WriteAt(file: seq<byte>, offset: nat, data: seq<byte>): (s: seq<byte>)
    ensures offset + |data| <= |file| ==>
      |s| == |file| && forall q :: 0 <= q < |file| ==>
        s[q] == if offset <= q < offset + |data| then data[q - offset] else file[q]
  {
    var wide := if offset + |data| <= |file| then file else file + Zeros(offset + |data| - |file|);
    wide[..offset] + data + wide[offset + |data|..]
  }

  /** The file and the sidecar on disk. */
  datatype Disk = Disk(file: seq<byte>, sidecar: Option<seq<byte>>)

  /** The number received, cut to 32 bits, is the number expected. */
  predicate CountReached(received: set<nat>, chunkCount: nat) {
    |received| % U32_LIMIT == chunkCount
  }

  class FileAssembler {
    var file: seq<byte>
    var sidecar: Option<seq<byte>>
    var received: set<nat>
    const expectedChunks: nat
    const fileSize: nat

    constructor New(size: nat, chunkCount: nat, sidecar: Option<seq<byte>>)
      ensures expectedChunks == chunkCount && fileSize == size
      ensures file == Zeros(size) && received == {} && this.sidecar == sidecar
    {
      expectedChunks := chunkCount;
      fileSize := size;
      file := Zeros(size);
      received := {};
      this.sidecar := sidecar;
    }

    constructor LoadState(size: nat, chunkCount: nat, disk: Disk)
      requires disk.sidecar.Some?
      ensures expectedChunks == chunkCount && fileSize == size
      ensures file == disk.file && sidecar == disk.sidecar
      ensures received == Loaded(disk.sidecar.value, chunkCount)
    {
      expectedChunks := chunkCount;
      fileSize := size;
      file := disk.file;
      sidecar := disk.sidecar;
      var data := disk.sidecar.value;
      var indices := {};
      while |data| >= 4
        invariant indices + Loaded(data, chunkCount) == Loaded(disk.sidecar.value, chunkCount)
        decreases |data|
      {
        var index := FromLe(data[..4]);
        if index < chunkCount {
          indices := indices + {index};
        }
        data := data[4..];
      }
      received := indices;
    }

    method SaveState()
      modifies this`sidecar
      ensures exists order :: Lists(order, received) && sidecar == Some(Pack(order))
    {
      var data := [];
      var left := received;
      ghost var order := [];
      while left != {}
        invariant left <= received && data == Pack(order) && |order| + |left| == |received|
        invariant forall i: nat :: i in order <==> i in received && i !in left
        decreases left
      {
        var i :| i in left;
        PackSnoc(order, i);
        data := data + Le(i, 4);
        order := order + [i];
        left := left - {i};
      }
      assert Lists(order, received);
      sidecar := Some(data);
    }

    method WriteChunk(index: nat, data: seq<byte>, hash: Digest) returns (r: Option<Error>)
      modifies this
      ensures r == if Digest(data) != hash then Some(HashMismatch)
                   else if index >= expectedChunks then Some(OutOfRange) else None
      ensures r.Some? ==> unchanged(this)
      ensures r.None? ==>
        && file == WriteAt(old(file), index * CHUNK_SIZE, data)
        && received == old(received) + {index}
        && (if |received| % SAVE_STATE_INTERVAL == 0
            then exists order :: Lists(order, received) && sidecar == Some(Pack(order))
            else sidecar == old(sidecar))
    {
      if Digest(data) != hash {
        return Some(HashMismatch);
      }
      if index >= expectedChunks {
        return Some(OutOfRange);
      }
      file := WriteAt(file, index * CHUNK_SIZE, data);
      received := received + {index};
      if |received| % SAVE_STATE_INTERVAL == 0 {
        SaveState();
      }
      return None;
    }

    method MissingChunks() returns (missing: seq<nat>)
      ensures missing == Missing(received, expectedChunks)
      ensures expectedChunks < U32_LIMIT && (forall i :: i in received ==> i < expectedChunks) ==>
        (missing == [] <==> IsComplete())
    {
      missing := [];
      for i := 0 to expectedChunks
        invariant missing == Missing(received, i)
      {
        if i !in received {
          missing := missing + [i];
        }
      }
      if expectedChunks < U32_LIMIT && forall i :: i in received ==> i < expectedChunks {
        CountReachedIff(received, expectedChunks);
      }
    }

    predicate IsComplete()
      reads this
    {
      CountReached(received, expectedChunks)
    }
  }

  /** Opening a transfer: resume from the sidecar if there is one, otherwise start a new file of zeros; on
      resumption the missing indices are what is asked for. */
  method AcceptFile(size: nat, chunkCount: nat, disk: Disk) returns (a: FileAssembler, request: Option<seq<byte>>)
    ensures fresh(a) && a.expectedChunks == chunkCount && a.fileSize == size && a.sidecar == disk.sidecar
    ensures match disk.sidecar
      case None => a.file == Zeros(size) && a.received == {} && request == None
      case Some(saved) =>
        && a.file == disk.file && a.received == Loaded(saved, chunkCount)
        && request == Some(Pack(Missing(Loaded(saved, chunkCount), chunkCount)))
  {
    if disk.sidecar.None? {
      a := new FileAssembler.New(size, chunkCount, None);
      request := None;
    } else {
      a := new FileAssembler.LoadState(size, chunkCount, disk);
      var missing := a.MissingChunks();
      var packed := PackAll(missing);
      request := Some(packed);
    }
  }

  method PackAll(indices: seq<nat>) returns (packed: seq<byte>)
    ensures packed == Pack(indices)
  {
    packed := [];
    for i := 0 to |indices|
      invariant packed == Pack(indices[..i])
    {
      PackSnoc(indices[..i], indices[i]);
      assert indices[..i + 1] == indices[..i] + [indices[i]];
      packed := packed + Le(indices[i], 4);
    }
    assert indices[..|indices|] == indices;
  }

  lemma {:induction false} PackSnoc(indices: seq<nat>, i: nat)
    ensures Pack(indices + [i]) == Pack(indices) + Le(i, 4)
  {
    if indices == [] {
      assert ([] + [i])[1..] == [] && Pack([i]) == Le(i, 4) + Pack([i][1..]);
    } else {
      PackSnoc(indices[1..], i);
      assert (indices + [i])[1..] == indices[1..] + [i];
      Assoc(Le(indices[0], 4), Pack(indices[1..]), Le(i, 4));
    }
  }

  function Loaded(data: seq<byte>, chunkCount: nat): set<nat> {
    if |data| < 4 then {}
    else (if FromLe(data[..4]) < chunkCount then {FromLe(data[..4])} else {}) + Loaded(data[4..], chunkCount)
  }

  lemma {:induction false} LoadedUnpack(data: seq<byte>, chunkCount: nat, i: nat)
    ensures i in Loaded(data, chunkCount) <==> i in Unpack(data) && i < chunkCount
  {
    if |data| >= 4 {
      LoadedUnpack(data[4..], chunkCount, i);
    }
  }

  /** The indices below `n` that are not in `received`, in order. */
  function Missing(received: set<nat>, n: nat): seq<nat> {
    if n == 0 then []
    else Missing(received, n - 1) + if n - 1 in received then [] else [n - 1]
  }

  lemma {:induction false} MissingExact(received: set<nat>, n: nat, i: nat)
    ensures i in Missing(received, n) <==> i < n && i !in received
  {
    if n > 0 {
      MissingExact(received, n - 1, i);
    }
  }

  /** Each missing index is listed once, in ascending order. */
  lemma {:induction false} MissingAscends(received: set<nat>, n: nat)
    ensures forall i, j :: 0 <= i < j < |Missing(received, n)| ==> Missing(received, n)[i] < Missing(received, n)[j]
  {
    if n > 0 {
      MissingAscends(received, n - 1);
      var before := Missing(received, n - 1);
      forall i | 0 <= i < |before|
        ensures before[i] < n - 1
      {
        MissingExact(received, n - 1, before[i]);
      }
    }
  }

  lemma {:induction false} FullRange(indices: set<nat>, n: nat)
    requires forall i :: i in indices ==> i < n
    ensures |indices| <= n
    ensures |indices| == n ==> forall i: nat :: i < n ==> i in indices
    decreases n
  {
    if n == 0 {
      assert indices == {};
    } else {
      var rest := indices - {n - 1};
      FullRange(rest, n - 1);
      if n - 1 in indices {
        assert |rest| == |indices| - 1;
        assert forall i: nat :: i < n - 1 && i in rest ==> i in indices;
      } else {
        assert rest == indices;
      }
    }
  }

  lemma {:induction false} RangeSize(indices: set<nat>, n: nat)
    requires forall i: nat :: i in indices <==> i < n
    ensures |indices| == n
    decreases n
  {
    if n == 0 {
      assert indices == {};
    } else {
      RangeSize(indices - {n - 1}, n - 1);
    }
  }

  /** Having received as many indices as expected and lacking none are the same. */
  lemma CountReachedIff(received: set<nat>, n: nat)
    requires n < U32_LIMIT && forall i :: i in received ==> i < n
    ensures CountReached(received, n) <==> Missing(received, n) == []
  {
    var missing := Missing(received, n);
    FullRange(received, n);
    if missing != [] {
      MissingExact(received, n, missing[0]);
    } else {
      forall i: nat
        ensures i in received <==> i < n
      {
        MissingExact(received, n, i);
      }
      RangeSize(received, n);
    }
  }
}

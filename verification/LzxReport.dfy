/** The totals of the codec benchmark, from the chunk sizes that crossed the pipe. */
module LzxReport {
  import opened Common

  const ALLOCATION_UNIT: nat := 4096

  /** One chunk: the bytes sent and the size the helper answered. */
  datatype Chunk = Chunk(count: nat, stored: nat)

  datatype Source = Source(size: u64, chunks: seq<Chunk>)

  datatype Report = Report(compressedFiles: nat, streamBytes: nat, clusters: nat, compressedChunks: nat, rawChunks: nat)

  /** Whole 4 KiB clusters. */
  function RoundedUp(bytes: nat): nat {
    DivCeil(bytes, ALLOCATION_UNIT) * ALLOCATION_UNIT
  }

  /** `allocated`, whose product wraps in 64 bits. */
  function Allocated(bytes: nat): nat {
    RoundedUp(bytes) % (U64_MAX + 1)
  }

  /** It is the clusters needed exactly up to the last whole cluster that 64 bits can count. */
  lemma AllocatedExactly(n: nat)
    requires n <= U64_MAX
    ensures n <= RoundedUp(n) < n + ALLOCATION_UNIT && RoundedUp(n) % ALLOCATION_UNIT == 0
    ensures Allocated(n) == RoundedUp(n) <==> n + ALLOCATION_UNIT <= U64_MAX + 1
    ensures n + ALLOCATION_UNIT > U64_MAX + 1 ==> Allocated(n) == 0
  {
  }

  // ---------------------------------------------------------------- one file

  function Stored(chunks: seq<Chunk>, n: nat): nat
    requires n <= |chunks|
  {
    if n == 0 then 0 else Stored(chunks, n - 1) + chunks[n - 1].stored
  }

  /** How many of the first `n` chunks compress. */
  function Compressing(chunks: seq<Chunk>, n: nat): nat
    requires n <= |chunks|
  {
    if n == 0 then 0
    else Compressing(chunks, n - 1) + if chunks[n - 1].stored < chunks[n - 1].count then 1 else 0
  }

  /** An offset table entry per chunk after the first, 8 bytes wide past 4 GiB. */
  function TableBytes(f: Source): nat {
    SaturatingMul(SaturatingSub(Min(|f.chunks|, U64_MAX), 1), if f.size > 0xFFFF_FFFF then 8 else 4)
  }

  function StreamBytes(f: Source): nat {
    SaturatingAdd(Stored(f.chunks, |f.chunks|), TableBytes(f))
  }

  predicate Shrinks(f: Source) {
    Allocated(StreamBytes(f)) < Allocated(f.size)
  }

  /** What the file costs in clusters: the cheaper of its two forms. */
  function Cost(f: Source): nat {
    Min(Allocated(StreamBytes(f)), Allocated(f.size))
  }

  /** Rounding either form of the file up to clusters stays within 64 bits. */
  predicate Fits(f: Source) {
    f.size + ALLOCATION_UNIT <= U64_MAX + 1 && StreamBytes(f) + ALLOCATION_UNIT <= U64_MAX + 1
  }

  /** The clusters the cheaper form needs. */
  function Clusters(f: Source): nat {
    Min(RoundedUp(StreamBytes(f)), RoundedUp(f.size))
  }

  /** Then the cost is what the cheaper form needs. */
  lemma CostIsClusters(f: Source)
    requires Fits(f)
    ensures Cost(f) == Clusters(f)
    ensures Shrinks(f) <==> RoundedUp(StreamBytes(f)) < RoundedUp(f.size)
    ensures RoundedUp(StreamBytes(f)) < RoundedUp(f.size) ==> Kept(f) == StreamBytes(f) && Shrunk(f) == 1
    ensures RoundedUp(StreamBytes(f)) >= RoundedUp(f.size) ==> Kept(f) == f.size && Shrunk(f) == 0
  {
    AllocatedExactly(f.size);
    AllocatedExactly(StreamBytes(f));
  }

  /** The stream is the replies and, for each chunk after the first, an entry of 4 bytes, or 8 past 4 GiB. */
  lemma OneMoreChunk(f: Source, c: Chunk)
    requires f.chunks != [] && StreamBytes(f.(chunks := f.chunks + [c])) < U64_MAX
    ensures var g := f.(chunks := f.chunks + [c]);
            && StreamBytes(g) == StreamBytes(f) + c.stored + (if f.size < 0x1_0000_0000 then 4 else 8)
            && CompressedChunks(g) == CompressedChunks(f) + (if c.stored < c.count then 1 else 0)
    ensures StreamBytes(f.(chunks := [c])) == Min(c.stored, U64_MAX) && StreamBytes(f.(chunks := [])) == 0
  {
    ChunksStay(f.chunks, c, |f.chunks|);
    assert (f.chunks + [c])[|f.chunks|] == c;
    assert Stored([c], 1) == Stored([c], 0) + c.stored;
  }

  lemma {:induction false} ChunksStay(chunks: seq<Chunk>, c: Chunk, n: nat)
    requires n <= |chunks|
    ensures Stored(chunks + [c], n) == Stored(chunks, n) && Compressing(chunks + [c], n) == Compressing(chunks, n)
  {
    if n > 0 {
      ChunksStay(chunks, c, n - 1);
    }
  }

  /** No reply is above its request, and the replies fit 64 bits together. */
  predicate Measurable(f: Source) {
    && (forall k | 0 <= k < |f.chunks| :: f.chunks[k].stored <= f.chunks[k].count)
    && Stored(f.chunks, |f.chunks|) <= U64_MAX
  }

  // ---------------------------------------------------------------- all files

  /** The sum of a number over the first `n` files. */
  function Sum(files: seq<Source>, f: Source -> nat, n: nat): nat
    requires n <= |files|
  {
    if n == 0 then 0 else Sum(files, f, n - 1) + f(files[n - 1])
  }

  function Kept(f: Source): nat { if Shrinks(f) then StreamBytes(f) else f.size }

  function Shrunk(f: Source): nat { if Shrinks(f) then 1 else 0 }

  function CompressedChunks(f: Source): nat { Compressing(f.chunks, |f.chunks|) }

  function RawChunks(f: Source): nat
    ensures RawChunks(f) == |f.chunks| - CompressedChunks(f)
  {
    CompressingBound(f.chunks, |f.chunks|);
    |f.chunks| - CompressedChunks(f)
  }

  lemma {:induction false} CompressingBound(chunks: seq<Chunk>, n: nat)
    requires n <= |chunks|
    ensures Compressing(chunks, n) <= n
  {
    if n > 0 {
      CompressingBound(chunks, n - 1);
    }
  }

  lemma {:induction false} StoredGrows(chunks: seq<Chunk>, m: nat, n: nat)
    requires m <= n <= |chunks|
    ensures Stored(chunks, m) <= Stored(chunks, n)
    decreases n
  {
    if m < n {
      StoredGrows(chunks, m, n - 1);
    }
  }

  /** The loop over one file's chunks; `Err` is an overflow or a reply above the request. */
  method MeasureFile(f: Source, compressed0: nat, raw0: nat)
    returns (encoded: Result<nat>, chunks: nat, compressed: nat, raw: nat)
    requires compressed0 <= U64_MAX && raw0 <= U64_MAX
    ensures encoded.Ok? <==> Measurable(f)
    ensures encoded.Ok? ==> encoded.value == Stored(f.chunks, |f.chunks|) && chunks == Min(|f.chunks|, U64_MAX)
    ensures encoded.Ok? ==> compressed == SaturatingAdd(compressed0, CompressedChunks(f))
    ensures encoded.Ok? ==> raw == SaturatingAdd(raw0, RawChunks(f))
  {
    var total := 0;
    chunks, compressed, raw := 0, compressed0, raw0;
    for k := 0 to |f.chunks|
      invariant total == Stored(f.chunks, k) <= U64_MAX && chunks == Min(k, U64_MAX)
      invariant forall j | 0 <= j < k :: f.chunks[j].stored <= f.chunks[j].count
      invariant Compressing(f.chunks, k) <= k
      invariant compressed == SaturatingAdd(compressed0, Compressing(f.chunks, k))
      invariant raw == SaturatingAdd(raw0, k - Compressing(f.chunks, k))
    {
      var chunk := f.chunks[k];
      if chunk.stored > chunk.count {
        return Err, chunks, compressed, raw;
      }
      StoredGrows(f.chunks, k + 1, |f.chunks|);
      if total + chunk.stored > U64_MAX {
        return Err, chunks, compressed, raw;
      }
      total := total + chunk.stored;
      if chunk.stored < chunk.count {
        compressed := SaturatingAdd(compressed, 1);
      } else {
        raw := SaturatingAdd(raw, 1);
      }
      chunks := SaturatingAdd(chunks, 1);
    }
    encoded := Ok(total);
  }

  /** The report's totals are those of the first `n` files, as far as 64 bits hold them. */
  ghost predicate Totals(files: seq<Source>, n: nat, r: Report)
    requires n <= |files|
  {
    && r.clusters == Min(Sum(files, Cost, n), U64_MAX)
    && r.streamBytes == Min(Sum(files, Kept, n), U64_MAX)
    && r.compressedFiles == Min(Sum(files, Shrunk, n), U64_MAX)
    && r.compressedChunks == Min(Sum(files, CompressedChunks, n), U64_MAX)
    && r.rawChunks == Min(Sum(files, RawChunks, n), U64_MAX)
  }

  lemma TotalsGrow(files: seq<Source>, n: nat, r: Report, after: Report)
    requires n < |files| && Totals(files, n, r)
    requires after.clusters == SaturatingAdd(r.clusters, Cost(files[n]))
    requires after.streamBytes == SaturatingAdd(r.streamBytes, Kept(files[n]))
    requires after.compressedFiles == SaturatingAdd(r.compressedFiles, Shrunk(files[n]))
    requires after.compressedChunks == SaturatingAdd(r.compressedChunks, CompressedChunks(files[n]))
    requires after.rawChunks == SaturatingAdd(r.rawChunks, RawChunks(files[n]))
    ensures Totals(files, n + 1, after)
  {
  }

  /** One file's row: its stream when that saves a cluster, its plain bytes otherwise. */
  method AddFile(r: Report, f: Source, encoded: nat, chunks: nat) returns (after: Report)
    requires encoded == Stored(f.chunks, |f.chunks|) && chunks == Min(|f.chunks|, U64_MAX)
    ensures after.compressedChunks == r.compressedChunks && after.rawChunks == r.rawChunks
    ensures after.clusters == SaturatingAdd(r.clusters, Cost(f))
    ensures after.streamBytes == SaturatingAdd(r.streamBytes, Kept(f))
    ensures r.compressedFiles <= U64_MAX ==> after.compressedFiles == SaturatingAdd(r.compressedFiles, Shrunk(f))
  {
    var table := SaturatingMul(SaturatingSub(chunks, 1), if f.size > 0xFFFF_FFFF then 8 else 4);
    var stream: nat := SaturatingAdd(encoded, table);
    var rawClusters, streamClusters := Allocated(f.size), Allocated(stream);
    if streamClusters < rawClusters {
      after := r.(compressedFiles := SaturatingAdd(r.compressedFiles, 1),
                  streamBytes := SaturatingAdd(r.streamBytes, stream),
                  clusters := SaturatingAdd(r.clusters, streamClusters));
    } else {
      after := r.(streamBytes := SaturatingAdd(r.streamBytes, f.size),
                  clusters := SaturatingAdd(r.clusters, rawClusters));
    }
  }

  /**
   The measurement over all files. The 4 KiB total is the sum of each file's cheaper form, the files
   counted as compressed are those whose stream saves a cluster, and every chunk is counted once.
   */
  method Measure(files: seq<Source>) returns (r: Result<Report>)
    ensures r.Ok? <==> forall i | 0 <= i < |files| :: Measurable(files[i])
    ensures r.Ok? ==> Totals(files, |files|, r.value)
  {
    var report := Report(0, 0, 0, 0, 0);
    for i := 0 to |files|
      invariant Totals(files, i, report)
      invariant forall j | 0 <= j < i :: Measurable(files[j])
    {
      var f := files[i];
      var encoded, chunks, compressed, raw := MeasureFile(f, report.compressedChunks, report.rawChunks);
      if encoded.Err? {
        assert !Measurable(f);
        return Err;
      }
      var chunked := report.(compressedChunks := compressed, rawChunks := raw);
      var after := AddFile(chunked, f, encoded.value, chunks);
      TotalsGrow(files, i, report, after);
      report := after;
    }
    return Ok(report);
  }

  /** When every file fits, the 4 KiB total is the clusters the cheaper forms need, short of saturation. */
  lemma {:induction false} TotalIsClusters(files: seq<Source>, n: nat)
    requires n <= |files| && forall i | 0 <= i < n :: Fits(files[i])
    ensures Sum(files, Cost, n) == Sum(files, Clusters, n)
  {
    if n > 0 {
      TotalIsClusters(files, n - 1);
      CostIsClusters(files[n - 1]);
    }
  }
}

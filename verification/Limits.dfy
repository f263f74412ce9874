/** Chunk sizes and pipeline depth, shared by downloads and uploads. */
module Limits {
  import opened Options

  const CHUNK_SIZE: nat := 261_120
  const MAX_CHUNK_SIZE: nat := 1024 * 1024
  const MAX_PIPELINE_DEPTH: nat := 64
  const MAX_INFLIGHT_BYTES: nat := 2 * 1024 * 1024

  /** A negotiated chunk size. */
  type ChunkSize = n: nat | 1 <= n <= MAX_CHUNK_SIZE witness 1

  function Min(a: nat, b: nat): nat {
    if a <= b then a else b
  }

  function Max(a: nat, b: nat): nat {
    if a <= b then b else a
  }

  /** How many chunks it takes to hold `n` bytes. */
  function ChunksFor(n: nat, chunk: ChunkSize): nat {
    if n <= chunk then (if n == 0 then 0 else 1) else 1 + ChunksFor(n - chunk, chunk)
  }

  /** How many whole chunks fit in `n` bytes. */
  function ChunksIn(n: nat, chunk: ChunkSize): nat {
    if n < chunk then 0 else 1 + ChunksIn(n - chunk, chunk)
  }

  /** The chunk size of a session: what the server advertises, when it does, up to a mebibyte. */
  function NegotiatedChunk(limit: Option<nat>): (chunk: ChunkSize)
    ensures limit.None? || limit.value == 0 ==> chunk == 261_120
    ensures limit.Some? && 0 < limit.value <= 1_048_576 ==> chunk == limit.value
    ensures limit.Some? && limit.value > 1_048_576 ==> chunk == 1_048_576
  {
    if limit.Some? && limit.value > 0 then Min(limit.value, MAX_CHUNK_SIZE) else CHUNK_SIZE
  }

  function Depth(remaining: nat, chunk: ChunkSize): nat {
    Min(Min(ChunksFor(remaining, chunk), MAX_PIPELINE_DEPTH), Max(ChunksIn(MAX_INFLIGHT_BYTES, chunk), 8))
  }

  lemma {:induction false} ChunksForTight(n: nat, chunk: ChunkSize)
    ensures ChunksFor(n, chunk) * chunk >= n
    ensures n > 0 ==> ChunksFor(n, chunk) >= 1 && (ChunksFor(n, chunk) - 1) * chunk < n
  {
    if n > chunk {
      ChunksForTight(n - chunk, chunk);
      var c := ChunksFor(n - chunk, chunk);
      assert (1 + c) * chunk == chunk + c * chunk && c * chunk == chunk + (c - 1) * chunk;
    }
  }

  lemma DepthOfOne(remaining: nat, chunk: ChunkSize)
    requires Depth(remaining, chunk) == 1
    ensures remaining <= chunk
  {
    if remaining > chunk {
      ChunksForTight(remaining - chunk, chunk);
    }
  }

  lemma {:induction false} ChunksInTight(n: nat, chunk: ChunkSize)
    ensures ChunksIn(n, chunk) * chunk <= n < (ChunksIn(n, chunk) + 1) * chunk
  {
    if n >= chunk {
      ChunksInTight(n - chunk, chunk);
      var c := ChunksIn(n - chunk, chunk);
      assert (1 + c) * chunk == chunk + c * chunk && (2 + c) * chunk == chunk + (c + 1) * chunk;
    }
  }

  lemma QuotientUnique(n: nat, chunk: ChunkSize, q: nat)
    requires q * chunk <= n < (q + 1) * chunk
    ensures q == n / chunk
  {
    var d := n / chunk;
    assert n == d * chunk + n % chunk && (d + 1) * chunk == d * chunk + chunk;
    if q < d {
      MulMonotone(q + 1, d, chunk);
    } else if d < q {
      MulMonotone(d + 1, q, chunk);
    }
  }

  lemma ChunksForIsCeiling(n: nat, chunk: ChunkSize)
    ensures ChunksFor(n, chunk) == if n % chunk == 0 then n / chunk else n / chunk + 1
  {
    ChunksForTight(n, chunk);
    if n > 0 {
      QuotientUnique(n - 1, chunk, ChunksFor(n, chunk) - 1);
      BeforeLast(n, chunk);
    }
  }

  lemma ChunksInIsQuotient(n: nat, chunk: ChunkSize)
    ensures ChunksIn(n, chunk) == n / chunk
  {
    ChunksInTight(n, chunk);
    QuotientUnique(n, chunk, ChunksIn(n, chunk));
  }

  lemma BeforeLast(n: nat, chunk: ChunkSize)
    requires n > 0
    ensures (n - 1) / chunk == if n % chunk == 0 then n / chunk - 1 else n / chunk
  {
    var d := n / chunk;
    assert n == d * chunk + n % chunk;
    assert (d + 1) * chunk == d * chunk + chunk && (d - 1) * chunk == d * chunk - chunk;
    QuotientUnique(n - 1, chunk, if n % chunk == 0 then d - 1 else d);
  }

  /** The depth as it is computed: a rounded-up division and a rounded-down one. */
  method PipelineDepth(remaining: nat, chunk: ChunkSize) returns (depth: nat)
    ensures depth == Depth(remaining, chunk)
  {
    var totalChunks := if remaining % chunk == 0 then remaining / chunk else remaining / chunk + 1;
    var byBytes := Max(MAX_INFLIGHT_BYTES / chunk, 8);
    depth := Min(Min(totalChunks, MAX_PIPELINE_DEPTH), byBytes);
    ChunksForIsCeiling(remaining, chunk);
    ChunksInIsQuotient(MAX_INFLIGHT_BYTES, chunk);
  }

  /** A depth of requests fits the in-flight byte budget, and the last one of them is needed. */
  lemma DepthBounds(remaining: nat, chunk: ChunkSize)
    requires remaining > 0
    ensures 1 <= Depth(remaining, chunk) <= 64
    ensures (Depth(remaining, chunk) - 1) * chunk < remaining
    ensures Depth(remaining, chunk) * chunk <= Max(2_097_152, 8 * chunk) <= 8_388_608
  {
    var d := Depth(remaining, chunk);
    ChunksForTight(remaining, chunk);
    MulMonotone(d - 1, ChunksFor(remaining, chunk) - 1, chunk);
    ByBytes(chunk);
    MulMonotone(d, Max(ChunksIn(MAX_INFLIGHT_BYTES, chunk), 8), chunk);
  }

  /**
   * The largest depth that is needed and allowed: as many chunks as remain, but no more than 64, and
   * no more than fit two mebibytes unless that is less than 8.
   */
  lemma DepthExactly(remaining: nat, chunk: ChunkSize, d: nat)
    ensures d <= Depth(remaining, chunk) <==>
      (d == 0 || (d - 1) * chunk < remaining) && d <= 64 && (d <= 8 || d * chunk <= 2_097_152)
  {
    ChunksForTight(remaining, chunk);
    ChunksInTight(MAX_INFLIGHT_BYTES, chunk);
    var needed, fitting := ChunksFor(remaining, chunk), ChunksIn(MAX_INFLIGHT_BYTES, chunk);
    if d > 0 {
      if d <= needed {
        MulMonotone(d - 1, needed - 1, chunk);
      } else {
        MulMonotone(needed, d - 1, chunk);
      }
    }
    if d <= fitting {
      MulMonotone(d, fitting, chunk);
    } else {
      MulMonotone(fitting + 1, d, chunk);
    }
  }

  lemma ByBytes(chunk: ChunkSize)
    ensures Max(ChunksIn(MAX_INFLIGHT_BYTES, chunk), 8) * chunk <= Max(MAX_INFLIGHT_BYTES, 8 * chunk)
    ensures Max(MAX_INFLIGHT_BYTES, 8 * chunk) <= 8 * MAX_CHUNK_SIZE
  {
    ChunksInTight(MAX_INFLIGHT_BYTES, chunk);
  }

  lemma MulMonotone(a: nat, b: nat, c: nat)
    requires a <= b
    ensures a * c <= b * c
  {
  }

  /** Chunk `n` is needed exactly when it starts before the end. */
  lemma ChunkStarts(n: nat, size: nat, chunk: ChunkSize)
    requires n <= ChunksFor(size, chunk)
    ensures n < ChunksFor(size, chunk) <==> n * chunk < size
    ensures (n + 1) * chunk == n * chunk + chunk
  {
    ChunksForTight(size, chunk);
    if n < ChunksFor(size, chunk) {
      MulMonotone(n, ChunksFor(size, chunk) - 1, chunk);
    }
    assert (n + 1) * chunk == n * chunk + chunk;
  }
}

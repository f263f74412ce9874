/** How an upload starts, goes on and ends, by what the server does. */
module UploadRuns {
  import opened Limits
  import opened Accounting
  import opened Octets
  import opened Sequences
  import opened Upload

  // ---- writes ----

  /** The write of up to a chunk of the local file from `off`. */
  function ChunkAt(j: Job, off: nat): Sent
    requires off < j.Goal()
  {
    var end := if j.Goal() - off < j.chunk then j.Goal() else off + j.chunk;
    Sent(off, j.local[off..end], false)
  }

  ghost predicate SentAt(j: Job, s: State, k: nat)
    requires k < |s.inflight|
  {
    k * j.chunk < j.Goal() && s.inflight[k] == ChunkAt(j, k * j.chunk)
  }

  /** The first `n` chunks have been sent, in order. */
  ghost predicate SentFirst(j: Job, s: State, n: nat) {
    && |s.inflight| == n && s.acked == [] && s.remote == []
    && s.offset == Min(n * j.chunk, j.Goal())
    && n <= ChunksFor(j.Goal(), j.chunk)
    && forall k :: 0 <= k < n ==> SentAt(j, s, k)
  }

  lemma RefillSends(j: Job, s: State, n: nat)
    requires SentFirst(j, s, n)
    ensures if n < ChunksFor(j.Goal(), j.chunk) then SentFirst(j, Refill(j, s), n + 1) && ReadLen(j, s.offset) > 0
      else Refill(j, s) == s && ReadLen(j, s.offset) == 0
  {
    ChunkStarts(n, j.Goal(), j.chunk);
    if n < ChunksFor(j.Goal(), j.chunk) {
      var t := Refill(j, s);
      RefillAppends(j, s);
      forall k | 0 <= k < n + 1 ensures SentAt(j, t, k) {
        assert k < n ==> SentAt(j, s, k);
      }
    }
  }

  lemma RefillAppends(j: Job, s: State)
    requires s.offset < j.Goal()
    ensures Refill(j, s) ==
      s.(offset := Min(s.offset + j.chunk, j.Goal()), inflight := s.inflight + [ChunkAt(j, s.offset)])
  {
  }

  lemma {:induction false} SeedSends(j: Job, s: State, n: nat, depth: nat)
    requires SentFirst(j, s, n) && n <= depth
    ensures SentFirst(j, Seed(j, s, depth), Min(depth, ChunksFor(j.Goal(), j.chunk)))
    decreases depth - n
  {
    RefillSends(j, s, n);
    if n < depth && n < ChunksFor(j.Goal(), j.chunk) {
      SeedSends(j, Refill(j, s), n + 1, depth);
    }
  }

  /** An upload starts with the first chunks of the file, as many as the depth allows. */
  lemma StartsWithChunks(j: Job)
    ensures SentFirst(j, Seeded(j), Min(j.PipelineDepth(), ChunksFor(j.Goal(), j.chunk)))
  {
    SeedSends(j, State(0, [], [], []), 0, j.PipelineDepth());
  }

  /**
   * An acknowledged write is taken out and the next chunk of the local file sent, up to the size
   * the upload was given or the end of the file; an applied write only changes the remote file.
   */
  lemma NextWrite(j: Job, s: State, slot: nat)
    requires slot < |s.inflight|
    ensures var t := Ack(j, s, slot);
      && t.acked == s.acked + [s.inflight[slot]] && t.remote == s.remote
      && if s.offset < j.total && s.offset < |j.local| then
           var end := Min(s.offset + j.chunk, Min(j.total, |j.local|));
           t.offset == end && t.inflight == Without(s.inflight, slot) + [Sent(s.offset, j.local[s.offset..end], false)]
         else t.offset == s.offset && t.inflight == Without(s.inflight, slot)
    ensures var t := Land(s, slot);
      && t.offset == s.offset && t.acked == s.acked && |t.inflight| == |s.inflight|
      && t.inflight[slot] == Sent(s.inflight[slot].off, s.inflight[slot].data, true)
      && forall k :: 0 <= k < |s.inflight| && k != slot ==> t.inflight[k] == s.inflight[k]
  {
  }

  // ---- runs ----

  function Next(j: Job, s: State, e: Event): State {
    match e
    case Lands(slot) => if slot < |s.inflight| then Land(s, slot) else s
    case Acks(slot) => if slot < |s.inflight| then Ack(j, s, slot) else s
    case _ => s
  }

  function After(j: Job, s: State, served: seq<Event>): State
    decreases |served|
  {
    if served == [] then s else After(j, Next(j, s, served[0]), served[1..])
  }

  /** The server applies and acknowledges writes, and nothing else happens. */
  predicate AllServed(j: Job, s: State, served: seq<Event>)
    decreases |served|
  {
    served == [] ||
    (s.inflight != [] && Enabled(s, served[0]) && (served[0].Lands? || served[0].Acks?) &&
     AllServed(j, Next(j, s, served[0]), served[1..]))
  }

  function AckCount(served: seq<Event>): nat {
    if served == [] then 0 else (if served[0].Acks? then 1 else 0) + AckCount(served[1..])
  }

  lemma {:induction false} RunFollows(j: Job, s: State, served: seq<Event>, rest: seq<Event>)
    requires AllServed(j, s, served)
    ensures Run(j, s, served + rest) == Run(j, After(j, s, served), rest)
    decreases |served|
  {
    if served == [] {
      Unit(rest);
    } else {
      DropWithin(served, rest, 1);
      assert (served + rest)[0] == served[0];
      RunFollows(j, Next(j, s, served[0]), served[1..], rest);
    }
  }

  /** How many acknowledgements are still to come. */
  function ToCome(j: Job, s: State): nat {
    |s.inflight| + if s.offset < j.Goal() then ChunksFor(j.Goal() - s.offset, j.chunk) else 0
  }

  lemma AckCounts(j: Job, s: State, slot: nat)
    requires slot < |s.inflight| && s.offset <= j.Goal()
    ensures ToCome(j, Ack(j, s, slot)) + 1 == ToCome(j, s) && Ack(j, s, slot).offset <= j.Goal()
  {
  }

  lemma {:induction false} ServedCounts(j: Job, s: State, served: seq<Event>)
    requires AllServed(j, s, served) && s.offset <= j.Goal()
    ensures var t := After(j, s, served); t.offset <= j.Goal() && ToCome(j, t) + AckCount(served) == ToCome(j, s)
    decreases |served|
  {
    if served != [] {
      if served[0].Acks? {
        AckCounts(j, s, served[0].slot);
      }
      ServedCounts(j, Next(j, s, served[0]), served[1..]);
    }
  }

  lemma {:induction false} SeedCounts(j: Job, s: State, depth: nat)
    requires s.offset <= j.Goal()
    ensures ToCome(j, Seed(j, s, depth)) == ToCome(j, s) && Seed(j, s, depth).offset <= j.Goal()
    decreases depth - |s.inflight|
  {
    if |s.inflight| < depth && ReadLen(j, s.offset) > 0 {
      SeedCounts(j, Refill(j, s), depth);
    }
  }

  lemma {:induction false} ServedInv(j: Job, s: State, served: seq<Event>)
    requires Inv(j, s) && AllServed(j, s, served)
    ensures Inv(j, After(j, s, served))
    decreases |served|
  {
    if served != [] {
      if served[0].Lands? {
        LandKeeps(j, s, served[0].slot);
      } else {
        AckKeeps(j, s, served[0].slot);
      }
      ServedInv(j, Next(j, s, served[0]), served[1..]);
    }
  }

  /**
   * An upload is done when as many writes have been acknowledged as it takes chunks to hold the
   * goal, and not before.  Until then a failed write, a cancel or a lost connection ends it as such.
   */
  lemma EndsExactly(j: Job, served: seq<Event>, rest: seq<Event>)
    requires AllServed(j, Seeded(j), served)
    requires rest == [] || rest[0].Fails? || rest[0].Cancels?
    ensures Run(j, Seeded(j), served + rest) ==
      Outcome(After(j, Seeded(j), served),
              if AckCount(served) == ChunksFor(j.Goal(), j.chunk) then Done
              else if rest != [] && rest[0].Cancels? then TransferCancelled
              else WriteFailed)
  {
    RunFollows(j, Seeded(j), served, rest);
    SeedCounts(j, State(0, [], [], []), j.PipelineDepth());
    ServedCounts(j, Seeded(j), served);
    NothingToCome(j, After(j, Seeded(j), served), served);
  }

  lemma NothingToCome(j: Job, t: State, served: seq<Event>)
    requires AllServed(j, Seeded(j), served) && t == After(j, Seeded(j), served)
    ensures ToCome(j, t) == 0 <==> t.inflight == []
  {
    WeightsAdditive(0);
    SeededInv(j, At(0));
    ServedInv(j, Seeded(j), served);
    if t.inflight == [] {
      FinishedContent(j, t);
    }
  }
}

/**
 * How much a download can buffer out of order.
 *
 * The first chunk of a transfer is only ever served front to back, so what waits in the reorder
 * buffer never exceeds the rest of the transfer; and a server that holds the first chunk back makes
 * the buffer grow to exactly that, whatever the pipeline depth is.
 */
module ReorderBuffer {
  import opened Limits
  import opened Accounting
  import opened Download
  import opened Octets

  ghost function Buffered(s: State): nat {
    SumChunks(s.reorderBuf, Bytes())
  }

  function HeadEnd(j: Job): nat
    requires j.start <= j.total
  {
    j.start + Min(j.chunk, j.total - j.start)
  }

  /** `r` asks for exactly what is missing of the first chunk. */
  predicate IsHead(j: Job, s: State, r: Request)
    requires j.start <= j.total
  {
    r.off == s.writeCursor && r.off + r.len == HeadEnd(j)
  }

  ghost predicate HeadAsked(j: Job, s: State)
    requires j.start <= j.total
  {
    s.writeCursor < HeadEnd(j) ==> exists k :: 0 <= k < |s.inflight| && IsHead(j, s, s.inflight[k])
  }

  // ---- the bound ----

  lemma {:induction false} SeedExtends(j: Job, s: State, depth: nat)
    ensures s.inflight <= Seed(j, s, depth).inflight && Seed(j, s, depth).writeCursor == s.writeCursor
    decreases depth - |s.inflight|
  {
    if |s.inflight| < depth && s.nextRequestOffset < j.total {
      SeedExtends(j, Issue(j, s), depth);
    }
  }

  lemma SeededHead(j: Job)
    requires j.Valid()
    ensures Seeded(j).writeCursor == j.start && Seeded(j).inflight != []
    ensures Seeded(j).inflight[0] == Request(j.start, HeadEnd(j) - j.start)
    ensures HeadAsked(j, Seeded(j))
  {
    DepthBounds(j.total - j.start, j.chunk);
    SeedExtends(j, Issue(j, Opened(j)), j.PipelineDepth());
    assert Seeded(j) == Seed(j, Issue(j, Opened(j)), j.PipelineDepth());
    assert IsHead(j, Seeded(j), Seeded(j).inflight[0]);
  }

  lemma HeadAnswered(j: Job, s: State, slot: nat, data: seq<byte>)
    requires Inv(j, s) && slot < |s.inflight| && IsHead(j, s, s.inflight[slot])
    requires Answers(j, s.inflight[slot], data)
    ensures HeadAsked(j, Reply(j, s, slot, data))
  {
    if |data| < s.inflight[slot].len {
      HeadShortened(j, s, slot, data);
    } else {
      CursorGrows(j, Write(Settle(j, s, slot, |data|), data));
    }
  }

  /** After a short reply the missing tail is asked for, and nothing buffered continues the file. */
  lemma HeadShortened(j: Job, s: State, slot: nat, data: seq<byte>)
    requires Inv(j, s) && slot < |s.inflight| && IsHead(j, s, s.inflight[slot])
    requires Answers(j, s.inflight[slot], data) && |data| < s.inflight[slot].len
    ensures HeadAsked(j, Reply(j, s, slot, data))
  {
    var u := Write(Settle(j, s, slot, |data|), data);
    if u.writeCursor in s.reorderBuf {
      RequestBufferDisjoint(j, s, slot, u.writeCursor);
    }
    assert Reply(j, s, slot, data) == Drain(u) == u;
    assert IsHead(j, u, u.inflight[|u.inflight| - 1]);
  }

  /** A reply that is not for the write cursor leaves the cursor and the other requests alone. */
  lemma ReplyAhead(j: Job, s: State, slot: nat, data: seq<byte>)
    requires slot < |s.inflight| && s.inflight[slot].off != s.writeCursor
    ensures var t := Reply(j, s, slot, data);
      t.writeCursor == s.writeCursor && Without(s.inflight, slot) <= t.inflight
  {
  }

  lemma Kept(rs: seq<Request>, slot: nat, k: nat, more: seq<Request>)
    requires slot < |rs| && k < |rs| && k != slot && Without(rs, slot) <= more
    ensures var i := if k < slot then k else k - 1; i < |more| && more[i] == rs[k]
  {
  }

  lemma OtherAnswered(j: Job, s: State, slot: nat, data: seq<byte>, head: nat)
    requires Inv(j, s) && slot < |s.inflight| && head < |s.inflight| && head != slot
    requires IsHead(j, s, s.inflight[head]) && Answers(j, s.inflight[slot], data)
    ensures var t, i := Reply(j, s, slot, data), if head < slot then head else head - 1;
      t.writeCursor == s.writeCursor && i < |t.inflight| && t.inflight[i] == s.inflight[head]
  {
    RequestsDisjoint(j, s, if head < slot then head else slot, if head < slot then slot else head);
    ReplyAhead(j, s, slot, data);
    Kept(s.inflight, slot, head, Reply(j, s, slot, data).inflight);
  }

  lemma ReplyKeepsHead(j: Job, s: State, slot: nat, data: seq<byte>)
    requires Inv(j, s) && HeadAsked(j, s)
    requires slot < |s.inflight| && Answers(j, s.inflight[slot], data)
    ensures HeadAsked(j, Reply(j, s, slot, data))
  {
    if s.writeCursor < HeadEnd(j) {
      var head :| 0 <= head < |s.inflight| && IsHead(j, s, s.inflight[head]);
      if head == slot {
        HeadAnswered(j, s, slot, data);
      } else {
        OtherAnswered(j, s, slot, data, head);
        var i := if head < slot then head else head - 1;
        assert IsHead(j, Reply(j, s, slot, data), Reply(j, s, slot, data).inflight[i]);
      }
    } else {
      CursorGrows(j, Write(Settle(j, s, slot, |data|), data));
    }
  }

  lemma CursorGrows(j: Job, s: State)
    requires j.start <= s.writeCursor
    ensures Drain(s).writeCursor >= s.writeCursor
  {
    WeightsAdditive(0);
    DrainHeld(j, s, Bytes());
  }

  lemma HeadBoundsBuffer(j: Job, s: State)
    requires Inv(j, s) && HeadAsked(j, s)
    ensures Buffered(s) <= j.total - HeadEnd(j)
  {
    assert Account(j, s, Bytes()) == Whole(j, Bytes());
    if s.writeCursor < HeadEnd(j) {
      var head :| 0 <= head < |s.inflight| && IsHead(j, s, s.inflight[head]);
      SumRequestsWithout(s.inflight, head, Bytes());
    }
  }

  lemma {:induction false} RepliesKeepHead(j: Job, s: State, replies: seq<Event>)
    requires Inv(j, s) && HeadAsked(j, s) && AllArrive(j, s, replies)
    ensures Inv(j, After(j, s, replies)) && HeadAsked(j, After(j, s, replies))
    decreases |replies|
  {
    if replies != [] {
      var slot, data := replies[0].slot, replies[0].data;
      ReplyKeepsInv(j, s, slot, data);
      ReplyKeepsHead(j, s, slot, data);
      RepliesKeepHead(j, Reply(j, s, slot, data), replies[1..]);
    }
  }

  /** In no reachable state does the buffer hold more than the transfer after its first chunk. */
  lemma BufferBounded(j: Job, replies: seq<Event>)
    requires j.Valid() && AllArrive(j, Seeded(j), replies)
    ensures Buffered(After(j, Seeded(j), replies)) <= j.total - HeadEnd(j)
  {
    SeededInv(j);
    SeededHead(j);
    RepliesKeepHead(j, Seeded(j), replies);
    HeadBoundsBuffer(j, After(j, Seeded(j), replies));
  }

  // ---- the bound is reached ----

  /** Nothing has been written yet, and the first request is still the one for the first chunk. */
  ghost predicate HeldBack(j: Job, s: State)
  {
    && Inv(j, s) && s.writeCursor == j.start && s.inflight != []
    && s.inflight[0] == Request(j.start, HeadEnd(j) - j.start)
  }

  lemma OnlyHeadLeft(j: Job, s: State)
    requires HeldBack(j, s) && |s.inflight| == 1
    ensures Buffered(s) == j.total - HeadEnd(j)
  {
    if s.nextRequestOffset < j.total {
      DepthOfOne(j.total - j.start, j.chunk);
    }
    assert s.nextRequestOffset == j.total;
    assert s.inflight[1..] == [];
    assert SumRequests(s.inflight, Bytes()) == HeadEnd(j) - j.start;
    assert Account(j, s, Bytes()) == Whole(j, Bytes());
  }

  /** Answer everything but the first request, each in full. */
  lemma {:induction false} HoldBackHead(j: Job, s: State) returns (replies: seq<Event>)
    requires HeldBack(j, s) && j.total <= |j.remote|
    ensures AllArrive(j, s, replies) && Buffered(After(j, s, replies)) == j.total - HeadEnd(j)
    decreases j.total - j.start - s.reported
  {
    if |s.inflight| == 1 {
      OnlyHeadLeft(j, s);
      replies := [];
    } else {
      var data := AnswerSecond(j, s);
      var rest := HoldBackHead(j, Reply(j, s, 1, data));
      replies := [Arrived(1, data)] + rest;
      assert replies[1..] == rest;
    }
  }

  lemma AnswerSecond(j: Job, s: State) returns (data: seq<byte>)
    requires HeldBack(j, s) && j.total <= |j.remote| && |s.inflight| > 1
    ensures Answers(j, s.inflight[1], data)
    ensures HeldBack(j, Reply(j, s, 1, data))
    ensures s.reported < Reply(j, s, 1, data).reported <= j.total - j.start
  {
    var r := s.inflight[1];
    data := j.remote[r.off..r.off + r.len];
    ReplyKeepsInv(j, s, 1, data);
    OtherAnswered(j, s, 1, data, 0);
    ReportedAtMost(j, Reply(j, s, 1, data));
  }

  lemma ReportedAtMost(j: Job, s: State)
    requires Inv(j, s)
    ensures s.reported <= j.total - j.start
  {
    assert Account(j, s, Bytes()) == Whole(j, Bytes());
  }

  /** A server that can answer all requests can make the buffer that large. */
  lemma BufferPeaks(j: Job) returns (replies: seq<Event>)
    requires j.Valid() && j.total <= |j.remote|
    ensures AllArrive(j, Seeded(j), replies)
    ensures Buffered(After(j, Seeded(j), replies)) == j.total - HeadEnd(j)
  {
    SeededInv(j);
    SeededHead(j);
    replies := HoldBackHead(j, Seeded(j));
  }

  /** Depth times chunk size bounds the buffer of a job exactly when the rest of the job is no larger. */
  lemma DepthBoundsBufferExactly(j: Job)
    requires j.Valid() && j.total <= |j.remote|
    ensures (forall replies :: AllArrive(j, Seeded(j), replies) ==>
               Buffered(After(j, Seeded(j), replies)) <= j.PipelineDepth() * j.chunk) <==>
      j.total - HeadEnd(j) <= j.PipelineDepth() * j.chunk
  {
    if j.total - HeadEnd(j) <= j.PipelineDepth() * j.chunk {
      forall replies | AllArrive(j, Seeded(j), replies)
        ensures Buffered(After(j, Seeded(j), replies)) <= j.PipelineDepth() * j.chunk
      {
        BufferBounded(j, replies);
      }
    } else {
      var replies := BufferPeaks(j);
      assert Buffered(After(j, Seeded(j), replies)) > j.PipelineDepth() * j.chunk;
    }
  }
}

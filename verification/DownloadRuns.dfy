/**
 * Whole downloads by what the network does: which requests are made, when a transfer completes, what
 * the other endings leave, and what a cancellation saves, said without following the loop.
 */
module DownloadRuns {
  import opened Options
  import opened Limits
  import opened Accounting
  import opened Octets
  import opened Sequences
  import opened Download

  // ---- the requests ----

  lemma {:induction false} DrainFrame(s: State)
    ensures Drain(s).inflight == s.inflight && Drain(s).nextRequestOffset == s.nextRequestOffset
    ensures Drain(s).reported == s.reported
    decreases |s.reorderBuf|
  {
    if IsFirst(s.reorderBuf, s.writeCursor) {
      var data := s.reorderBuf[s.writeCursor];
      DrainFrame(s.(reorderBuf := s.reorderBuf - {s.writeCursor},
                    writeCursor := s.writeCursor + |data|,
                    localFile := s.localFile + data));
    }
  }

  /** A short reply asks for exactly the missing tail, any other for the next whole chunk of the file. */
  lemma ReplyRequests(j: Job, s: State, slot: nat, data: seq<byte>)
    requires slot < |s.inflight|
    ensures var r, t := s.inflight[slot], Reply(j, s, slot, data);
      && t.reported == s.reported + |data|
      && if |data| < r.len && r.off + |data| < j.total then
           && t.inflight == Without(s.inflight, slot) + [Request(r.off + |data|, r.len - |data|)]
           && t.nextRequestOffset == s.nextRequestOffset
         else if s.nextRequestOffset < j.total then
           var len := if j.total - s.nextRequestOffset < j.chunk then j.total - s.nextRequestOffset else j.chunk;
           && t.inflight == Without(s.inflight, slot) + [Request(s.nextRequestOffset, len)]
           && t.nextRequestOffset == s.nextRequestOffset + len
         else t.inflight == Without(s.inflight, slot) && t.nextRequestOffset == s.nextRequestOffset
  {
    var t := Settle(j, s, slot, |data|);
    if s.inflight[slot].off == t.writeCursor {
      DrainFrame(Write(t, data));
    }
  }

  // ---- the first requests ----

  ghost predicate AskedAt(j: Job, s: State, k: nat)
    requires k < |s.inflight| && j.start <= j.total
  {
    && k * j.chunk < j.total - j.start
    && s.inflight[k] == Request(j.start + k * j.chunk, Min(j.chunk, j.total - j.start - k * j.chunk))
  }

  /** The first `n` chunks of what is missing have been asked for, in order. */
  ghost predicate AskedFirst(j: Job, s: State, n: nat)
    requires j.start <= j.total
  {
    && |s.inflight| == n && n <= ChunksFor(j.total - j.start, j.chunk)
    && s.nextRequestOffset == j.start + Min(n * j.chunk, j.total - j.start)
    && forall k :: 0 <= k < n ==> AskedAt(j, s, k)
  }

  lemma IssueAsks(j: Job, s: State, n: nat)
    requires j.start <= j.total && AskedFirst(j, s, n)
    ensures s.nextRequestOffset < j.total <==> n < ChunksFor(j.total - j.start, j.chunk)
    ensures s.nextRequestOffset < j.total ==> AskedFirst(j, Issue(j, s), n + 1)
  {
    ChunkStarts(n, j.total - j.start, j.chunk);
    if s.nextRequestOffset < j.total {
      var t := Issue(j, s);
      forall k | 0 <= k < n + 1 ensures AskedAt(j, t, k) {
        assert k < n ==> AskedAt(j, s, k);
      }
    }
  }

  lemma {:induction false} SeedAsks(j: Job, s: State, n: nat, depth: nat)
    requires j.start <= j.total && AskedFirst(j, s, n) && n <= depth
    ensures AskedFirst(j, Seed(j, s, depth), Min(depth, ChunksFor(j.total - j.start, j.chunk)))
    decreases depth - n
  {
    IssueAsks(j, s, n);
    if n < depth && s.nextRequestOffset < j.total {
      SeedAsks(j, Issue(j, s), n + 1, depth);
    }
  }

  /** A download starts by asking for the first chunks of what is missing, as many as the depth allows. */
  lemma StartsWithChunks(j: Job)
    requires j.start <= j.total
    ensures AskedFirst(j, Seeded(j), j.PipelineDepth())
  {
    SeedAsks(j, Opened(j), 0, j.PipelineDepth());
  }

  // ---- runs ----

  /** The bytes that replies bring. */
  function Delivered(replies: seq<Event>): nat {
    if replies == [] then 0 else (if replies[0].Arrived? then |replies[0].data| else 0) + Delivered(replies[1..])
  }

  /** `script` starts with replies that together bring `n` bytes. */
  predicate Brings(script: seq<Event>, n: nat)
    decreases |script|
  {
    n == 0 ||
    (script != [] && script[0].Arrived? && |script[0].data| <= n && Brings(script[1..], n - |script[0].data|))
  }

  /** Nothing is in flight exactly when everything has been received. */
  lemma ReceivedExactly(j: Job, s: State)
    requires Inv(j, s)
    ensures s.inflight == [] <==> s.reported == j.total - j.start
    ensures s.reported <= j.total - j.start
  {
    assert Account(j, s, Bytes()) == Download.Whole(j, Bytes());
    if s.inflight == [] {
      NothingInFlight(j, s);
    } else {
      SumRequestsWithout(s.inflight, 0, Bytes());
    }
  }

  /** `missing` bytes have not been received. */
  ghost predicate Missing(j: Job, s: State, missing: nat) {
    Inv(j, s) && s.reported + missing == j.total - j.start && (s.inflight == [] <==> missing == 0)
  }

  /** A transfer completes exactly when the replies bring all the missing bytes, before anything else happens. */
  lemma {:induction false} DoneExactly(j: Job, s: State, script: seq<Event>, missing: nat)
    requires Missing(j, s, missing) && Playable(j, s, script)
    ensures Run(j, s, script).ending.Done? <==> Brings(script, missing)
    decreases |script|
  {
    if s.inflight != [] && script != [] {
      if script[0].Arrived? {
        var t := Received(j, s, script[0].slot, script[0].data, missing);
        DoneExactly(j, t, script[1..], missing - |script[0].data|);
        FirstArrives(j, s, script, missing);
      } else {
        FirstEnds(j, s, script, missing);
      }
    }
  }

  lemma FirstArrives(j: Job, s: State, script: seq<Event>, missing: nat)
    requires s.inflight != [] && script != [] && script[0].Arrived? && script[0].slot < |s.inflight|
    requires 0 < missing && |script[0].data| <= missing
    ensures Run(j, s, script) == Run(j, Reply(j, s, script[0].slot, script[0].data), script[1..])
    ensures Brings(script, missing) == Brings(script[1..], missing - |script[0].data|)
  {
  }

  lemma FirstEnds(j: Job, s: State, script: seq<Event>, missing: nat)
    requires s.inflight != [] && script != [] && !script[0].Arrived? && 0 < missing
    ensures !Run(j, s, script).ending.Done? && !Brings(script, missing)
  {
  }

  lemma Received(j: Job, s: State, slot: nat, data: seq<byte>, missing: nat) returns (t: State)
    requires Missing(j, s, missing) && slot < |s.inflight| && Answers(j, s.inflight[slot], data)
    ensures t == Reply(j, s, slot, data)
    ensures |data| <= missing && Missing(j, t, missing - |data|)
  {
    t := Reply(j, s, slot, data);
    ReplyKeepsInv(j, s, slot, data);
    ReceivedExactly(j, t);
  }

  lemma SeededMissing(j: Job) returns (s: State, missing: nat)
    requires j.Valid()
    ensures s == Seeded(j) && missing == j.total - j.start && Missing(j, s, missing)
  {
    s, missing := Seeded(j), j.total - j.start;
    SeededInv(j);
    ReceivedExactly(j, s);
  }

  lemma CompletesExactly(j: Job, script: seq<Event>)
    requires j.Valid() && Playable(j, Seeded(j), script)
    ensures Run(j, Seeded(j), script).ending.Done? <==> Brings(script, j.total - j.start)
  {
    hide *;
    var s, missing := SeededMissing(j);
    DoneExactly(j, s, script, missing);
  }

  /** The loop takes replies one after the other. */
  lemma {:induction false} RunFollows(j: Job, s: State, replies: seq<Event>, rest: seq<Event>)
    requires Inv(j, s) && AllArrive(j, s, replies)
    ensures Run(j, s, replies + rest) == Run(j, After(j, s, replies), rest)
    ensures Inv(j, After(j, s, replies)) && After(j, s, replies).reported == s.reported + Delivered(replies)
    decreases |replies|
  {
    if replies == [] {
      Unit(rest);
    } else {
      var slot, data := replies[0].slot, replies[0].data;
      ReplyKeepsInv(j, s, slot, data);
      RunFollows(j, Reply(j, s, slot, data), replies[1..], rest);
      DropWithin(replies, rest, 1);
    }
  }

  /**
   * A run of replies and then something else.  With all bytes received the transfer is done.
   * Otherwise a failed read, or no more replies, ends it with all that was received, and a
   * cancellation saves from there.
   */
  lemma RunExactly(j: Job, replies: seq<Event>, rest: seq<Event>)
    requires j.Valid() && AllArrive(j, Seeded(j), replies)
    ensures var t := After(j, Seeded(j), replies);
      && Inv(j, t) && t.reported == Delivered(replies) <= j.total - j.start
      && (Delivered(replies) == j.total - j.start ==> Run(j, Seeded(j), replies + rest) == Outcome(t, Done))
      && (Delivered(replies) < j.total - j.start && (rest == [] || rest[0].Failed?) ==>
            Run(j, Seeded(j), replies + rest) == Outcome(t, ReadFailed))
      && (Delivered(replies) < j.total - j.start && rest != [] && rest[0].Cancelled? ==>
            Run(j, Seeded(j), replies + rest) == Outcome(Cancel(t, rest[0].lates), TransferCancelled))
  {
    SeededInv(j);
    RunFollows(j, Seeded(j), replies, rest);
    ReceivedExactly(j, After(j, Seeded(j), replies));
  }

  // ---- cancellation, by requests ----

  /** A reply that is there when the user cancels: None for a failed read. */
  datatype Answer = Answer(request: Request, data: Option<seq<byte>>)

  /** Answers to different requests of `rs`, in any order. */
  ghost predicate AnswersThere(j: Job, rs: seq<Request>, answers: seq<Answer>) {
    && (forall i :: 0 <= i < |answers| ==>
          answers[i].request in rs &&
          (answers[i].data.Some? ==> Answers(j, answers[i].request, answers[i].data.value)))
    && (forall i, k :: 0 <= i < k < |answers| ==> answers[i].request != answers[k].request)
  }

  /** The bytes they bring. */
  function Answered(answers: seq<Answer>): seq<Request> {
    if answers == [] then [] else LateRange(answers[0].request, answers[0].data) + Answered(answers[1..])
  }

  function Position(rs: seq<Request>, r: Request): (k: nat)
    requires r in rs
    ensures k < |rs| && rs[k] == r
  {
    if rs[0] == r then 0 else 1 + Position(rs[1..], r)
  }

  /** The same answers, each by its position among the requests that are left. */
  function Lates(rs: seq<Request>, answers: seq<Answer>): seq<Late>
    decreases |answers|
  {
    if answers == [] || answers[0].request !in rs then []
    else
      var k := Position(rs, answers[0].request);
      [Late(k, answers[0].data)] + Lates(Without(rs, k), answers[1..])
  }

  lemma {:induction false} LatesAnswer(j: Job, rs: seq<Request>, answers: seq<Answer>)
    requires AnswersThere(j, rs, answers)
    ensures LatesEnabled(j, rs, Lates(rs, answers))
    ensures LateRanges(rs, Lates(rs, answers)) == Answered(answers)
    decreases |answers|
  {
    if answers != [] {
      var k := Position(rs, answers[0].request);
      StillThere(j, rs, answers, k);
      LatesAnswer(j, Without(rs, k), answers[1..]);
      LatesFirst(j, rs, Late(k, answers[0].data), Lates(Without(rs, k), answers[1..]));
    }
  }

  lemma LatesFirst(j: Job, rs: seq<Request>, late: Late, rest: seq<Late>)
    requires LateEnabled(j, rs, late) && LatesEnabled(j, Without(rs, late.slot), rest)
    ensures LatesEnabled(j, rs, [late] + rest)
    ensures LateRanges(rs, [late] + rest)
      == LateRange(rs[late.slot], late.data) + LateRanges(Without(rs, late.slot), rest)
  {
    DropWithin([late], rest, 1);
  }

  lemma StillThere(j: Job, rs: seq<Request>, answers: seq<Answer>, k: nat)
    requires AnswersThere(j, rs, answers) && answers != [] && k < |rs| && rs[k] == answers[0].request
    ensures AnswersThere(j, Without(rs, k), answers[1..])
  {
    forall i | 0 <= i < |answers[1..]| ensures answers[1..][i].request in Without(rs, k) {
      var m :| 0 <= m < |rs| && rs[m] == answers[i + 1].request;
      assert answers[0].request != answers[i + 1].request;
      assert Without(rs, k)[if m < k then m else m - 1] == rs[m];
    }
  }

  /**
   * Whatever requests of those in flight have been answered when the user cancels, and in whatever
   * order the answers are drained: all of them are held, besides what was held before, and the file
   * is the remote prefix up to the first byte nobody delivered.
   */
  lemma CancelHoldsAnswers(j: Job, s: State, answers: seq<Answer>, w: Weight)
    requires Inv(j, s) && AnswersThere(j, s.inflight, answers) && Additive(w)
    ensures var t := Cancel(s, Lates(s.inflight, answers));
      && Sound(j, t)
      && Held(j, t, w) == Held(j, s, w) + SumRequests(Answered(answers), w)
      && t.localFile == j.base + j.remote[j.start..t.writeCursor]
      && Held(j, t, At(t.writeCursor)) == 0
  {
    LatesAnswer(j, s.inflight, answers);
    CancelSavesAll(j, s, Lates(s.inflight, answers), w);
  }
}

/**
 * The pipelined download as a state machine over replies.
 *
 * A step handles one reply of the server, in any order the scheduler likes.  The functions below
 * are the specification; module DownloadEngine runs the loops that update state in place and is
 * proved to follow them.
 */
module Download {
  import opened Options
  import opened Limits
  import opened Accounting
  import opened Octets
  import opened Sequences

  /** What one transfer is about; `base` is what the local file holds before the first write. */
  datatype Job = Job(remote: seq<byte>, base: seq<byte>, total: nat, start: nat, chunk: ChunkSize) {
    ghost predicate Valid() {
      start < total && start <= |remote|
    }

    function PipelineDepth(): nat
      requires start <= total
    {
      Depth(total - start, chunk)
    }
  }

  datatype State = State(
    nextRequestOffset: nat,
    inflight: seq<Request>,
    reorderBuf: map<nat, seq<byte>>,
    writeCursor: nat,
    localFile: seq<byte>,
    reported: nat)

  // ---- transitions ----

  function Opened(j: Job): State {
    State(j.start, [], map[], j.start, j.base, 0)
  }

  function NextRequest(j: Job, s: State): Request
    requires s.nextRequestOffset < j.total
  {
    Request(s.nextRequestOffset, Min(j.chunk, j.total - s.nextRequestOffset))
  }

  function Issue(j: Job, s: State): State
    requires s.nextRequestOffset < j.total
  {
    var r := NextRequest(j, s);
    s.(inflight := s.inflight + [r], nextRequestOffset := s.nextRequestOffset + r.len)
  }

  /** Fill the pipeline up to `depth` requests. */
  function Seed(j: Job, s: State, depth: nat): State
    decreases depth - |s.inflight|
  {
    if |s.inflight| < depth && s.nextRequestOffset < j.total then Seed(j, Issue(j, s), depth) else s
  }

  function Seeded(j: Job): State
    requires j.start <= j.total
  {
    Seed(j, Opened(j), j.PipelineDepth())
  }

  predicate IsFirst(m: map<nat, seq<byte>>, key: nat) {
    key in m && forall k :: k in m ==> key <= k
  }

  /** Write the buffered chunks that continue the file. */
  function Drain(s: State): State
    decreases |s.reorderBuf|
  {
    if IsFirst(s.reorderBuf, s.writeCursor) then
      var data := s.reorderBuf[s.writeCursor];
      Drain(s.(reorderBuf := s.reorderBuf - {s.writeCursor},
               writeCursor := s.writeCursor + |data|,
               localFile := s.localFile + data))
    else s
  }

  function Write(s: State, data: seq<byte>): State {
    s.(writeCursor := s.writeCursor + |data|, localFile := s.localFile + data)
  }

  function Deliver(s: State, off: nat, data: seq<byte>): State {
    if off == s.writeCursor then Drain(Write(s, data))
    else s.(reorderBuf := s.reorderBuf[off := data])
  }

  predicate IsGapFill(j: Job, r: Request, received: nat) {
    received < r.len && r.off + received < j.total
  }

  /** Take a resolved request out; a short reply asks again for the missing tail. */
  function Settle(j: Job, s: State, slot: nat, received: nat): State
    requires slot < |s.inflight|
  {
    var r := s.inflight[slot];
    var rest := Without(s.inflight, slot);
    s.(inflight := if IsGapFill(j, r, received) then rest + [Request(r.off + received, r.len - received)] else rest,
       reported := s.reported + received)
  }

  /** One successful reply. */
  function Reply(j: Job, s: State, slot: nat, data: seq<byte>): State
    requires slot < |s.inflight|
  {
    var r := s.inflight[slot];
    var t := Deliver(Settle(j, s, slot, |data|), r.off, data);
    if !IsGapFill(j, r, |data|) && t.nextRequestOffset < j.total then Issue(j, t) else t
  }

  // ---- the environment ----

  /** The server answers request `r` with `data`: at least one byte, at most what was asked for. */
  ghost predicate Answers(j: Job, r: Request, data: seq<byte>) {
    && 1 <= |data| <= r.len
    && r.off + |data| <= |j.remote|
    && data == j.remote[r.off..r.off + |data|]
  }

  /** A reply seen while cancelling: `data` is None when the read failed. */
  datatype Late = Late(slot: nat, data: Option<seq<byte>>)
  datatype Event =
    | Arrived(slot: nat, data: seq<byte>)
    | Failed(slot: nat)
    | Cancelled(lates: seq<Late>)

  ghost predicate LateEnabled(j: Job, rs: seq<Request>, late: Late) {
    && late.slot < |rs|
    && (late.data.Some? ==> Answers(j, rs[late.slot], late.data.value))
  }

  /** Replies to some of the requests `rs`, one after the other, each taken out of those that are left. */
  ghost predicate LatesEnabled(j: Job, rs: seq<Request>, lates: seq<Late>)
    decreases |lates|
  {
    lates == [] || (LateEnabled(j, rs, lates[0]) && LatesEnabled(j, Without(rs, lates[0].slot), lates[1..]))
  }

  ghost predicate Enabled(j: Job, s: State, e: Event) {
    match e
    case Arrived(slot, data) => slot < |s.inflight| && Answers(j, s.inflight[slot], data)
    case Failed(slot) => slot < |s.inflight|
    case Cancelled(lates) => lates != [] && LatesEnabled(j, s.inflight, lates)
  }

  // ---- cancellation ----

  /** A reply drained after cancellation: no re-request, no refill, no progress report. */
  function Flush(s: State, late: Late): State {
    if late.slot >= |s.inflight| then s
    else
      var off := s.inflight[late.slot].off;
      var t := s.(inflight := Without(s.inflight, late.slot));
      match late.data
      case None => t
      case Some(data) =>
        if off == t.writeCursor then Drain(Write(t, data))
        else if off > t.writeCursor then t.(reorderBuf := t.reorderBuf[off := data])
        else t
  }

  function FlushAll(s: State, lates: seq<Late>): State
    decreases |lates|
  {
    if lates == [] then s else FlushAll(Flush(s, lates[0]), lates[1..])
  }

  function Cancel(s: State, lates: seq<Late>): State {
    Drain(FlushAll(s, lates))
  }

  // ---- runs ----

  datatype Ending = Done | ReadFailed | TransferCancelled

  datatype Outcome = Outcome(state: State, ending: Ending)

  /** A script of events the environment can produce, one after the other, from `s`. */
  ghost predicate Playable(j: Job, s: State, script: seq<Event>)
    decreases |script|
  {
    script == [] || s.inflight == [] ||
    (Enabled(j, s, script[0]) &&
     (script[0].Arrived? ==> Playable(j, Reply(j, s, script[0].slot, script[0].data), script[1..])))
  }

  /** The response loop.  A script that runs dry stands for requests that time out. */
  function Run(j: Job, s: State, script: seq<Event>): Outcome
    decreases |script|
  {
    if s.inflight == [] then Outcome(s, Done)
    else if script == [] then Outcome(s, ReadFailed)
    else match script[0]
      case Arrived(slot, data) =>
        if slot < |s.inflight| then Run(j, Reply(j, s, slot, data), script[1..]) else Outcome(s, ReadFailed)
      case Failed(_) => Outcome(s, ReadFailed)
      case Cancelled(lates) => Outcome(Cancel(s, lates), TransferCancelled)
  }

  /** One turn of the response loop, somewhere in a script. */
  lemma RunStep(j: Job, s: State, script: seq<Event>, i: nat)
    requires i < |script| && s.inflight != []
    ensures Run(j, s, script[i..]) ==
      if script[i].Cancelled? then Outcome(Cancel(s, script[i].lates), TransferCancelled)
      else if script[i].Failed? || script[i].slot >= |s.inflight| then Outcome(s, ReadFailed)
      else Run(j, Reply(j, s, script[i].slot, script[i].data), script[i + 1..])
  {
    DropDrop(script, i, 1);
  }

  // ---- the invariant ----

  /** What is on disk or in the reorder buffer. */
  ghost function Held(j: Job, s: State, w: Weight): nat
    requires j.start <= s.writeCursor
  {
    w(j.start, s.writeCursor - j.start) + SumChunks(s.reorderBuf, w)
  }

  /** Everything the transfer accounts for: held, in flight, not yet requested. */
  ghost function Account(j: Job, s: State, w: Weight): nat
    requires j.start <= s.writeCursor && s.nextRequestOffset <= j.total
  {
    Held(j, s, w) + SumRequests(s.inflight, w) + w(s.nextRequestOffset, j.total - s.nextRequestOffset)
  }

  ghost function Whole(j: Job, w: Weight): nat
    requires j.start <= j.total
  {
    w(j.start, j.total - j.start)
  }

  ghost predicate InBounds(j: Job, s: State) {
    && j.Valid()
    && j.start <= s.writeCursor <= s.nextRequestOffset <= j.total
    && s.writeCursor <= |j.remote|
    && (forall k :: 0 <= k < |s.inflight| ==>
          1 <= s.inflight[k].len <= j.chunk && s.inflight[k].off + s.inflight[k].len <= s.nextRequestOffset)
    && (forall o :: o in s.reorderBuf ==>
          |s.reorderBuf[o]| > 0 && o + |s.reorderBuf[o]| <= s.nextRequestOffset)
  }

  /** Every byte written or buffered is the remote byte of its offset. */
  ghost predicate Faithful(j: Job, s: State)
    requires InBounds(j, s)
  {
    && s.localFile == j.base + j.remote[j.start..s.writeCursor]
    && (forall o :: o in s.reorderBuf ==>
          o + |s.reorderBuf[o]| <= |j.remote| && s.reorderBuf[o] == j.remote[o..o + |s.reorderBuf[o]|])
  }

  /** No position is owned twice, and none outside the transfer is owned at all. */
  ghost predicate Unshared(j: Job, s: State)
    requires InBounds(j, s)
  {
    forall p: nat :: Account(j, s, At(p)) <= Whole(j, At(p))
  }

  ghost predicate Sound(j: Job, s: State) {
    && InBounds(j, s)
    && Faithful(j, s)
    && Unshared(j, s)
    && (forall o :: o in s.reorderBuf ==> s.writeCursor <= o)
  }

  ghost predicate Drained(s: State) {
    s.writeCursor !in s.reorderBuf
  }

  /** Every byte of the transfer has exactly one owner, and the progress report counts held bytes. */
  ghost predicate Exact(j: Job, s: State)
    requires InBounds(j, s)
  {
    && (forall p: nat :: Account(j, s, At(p)) == Whole(j, At(p)))
    && Account(j, s, Bytes()) == Whole(j, Bytes())
    && Held(j, s, Bytes()) == s.reported
  }

  ghost predicate Filled(j: Job, s: State)
    requires InBounds(j, s)
  {
    && |s.inflight| <= j.PipelineDepth()
    && (s.nextRequestOffset < j.total ==> |s.inflight| == j.PipelineDepth())
  }

  ghost predicate Inv(j: Job, s: State) {
    Sound(j, s) && Drained(s) && Exact(j, s) && Filled(j, s)
  }

  // ---- consequences of ownership ----

  lemma RequestsDisjoint(j: Job, s: State, a: nat, b: nat)
    requires Sound(j, s)
    requires a < b < |s.inflight|
    ensures var x, y := s.inflight[a], s.inflight[b]; x.off + x.len <= y.off || y.off + y.len <= x.off
  {
    var p := Max(s.inflight[a].off, s.inflight[b].off);
    assert Account(j, s, At(p)) <= Whole(j, At(p));
    OwnedOnce(s.inflight, a, b);
  }

  lemma RequestBufferDisjoint(j: Job, s: State, k: nat, o: nat)
    requires Sound(j, s)
    requires k < |s.inflight| && o in s.reorderBuf
    ensures s.inflight[k].off + s.inflight[k].len <= o || o + |s.reorderBuf[o]| <= s.inflight[k].off
  {
    var r := s.inflight[k];
    if r.off + r.len > o && o + |s.reorderBuf[o]| > r.off {
      var p := Max(r.off, o);
      SumRequestsWithout(s.inflight, k, At(p));
      SumChunksWithout(s.reorderBuf, o, At(p));
    }
  }

  lemma BufferDisjoint(j: Job, s: State, a: nat, b: nat)
    requires Sound(j, s)
    requires a in s.reorderBuf && b in s.reorderBuf && a < b
    ensures a + |s.reorderBuf[a]| <= b
  {
    if a + |s.reorderBuf[a]| > b {
      SumChunksWithout(s.reorderBuf, a, At(b));
      SumChunksWithout(s.reorderBuf - {a}, b, At(b));
    }
  }

  lemma RequestAhead(j: Job, s: State, k: nat)
    requires Sound(j, s)
    requires k < |s.inflight|
    ensures s.writeCursor <= s.inflight[k].off
  {
    var p := s.inflight[k].off;
    SumRequestsWithout(s.inflight, k, At(p));
    assert Account(j, s, At(p)) <= Whole(j, At(p));
  }

  /** Writing the remote bytes at the cursor keeps the file the remote prefix up to the new cursor. */
  lemma Longer(j: Job, s: State, data: seq<byte>)
    requires InBounds(j, s) && Faithful(j, s)
    requires s.writeCursor + |data| <= |j.remote| && data == j.remote[s.writeCursor..s.writeCursor + |data|]
    ensures s.localFile + data == j.base + j.remote[j.start..s.writeCursor + |data|]
  {
    SliceMore(j.remote, j.start, s.writeCursor, s.writeCursor + |data|);
    Assoc(j.base, j.remote[j.start..s.writeCursor], data);
  }

  // ---- draining ----

  /** Draining moves chunks from the buffer to the file: nothing is gained or lost. */
  lemma {:induction false} DrainKeeps(j: Job, s: State)
    requires Sound(j, s)
    ensures Sound(j, Drain(s)) && Drained(Drain(s))
    ensures var t := Drain(s);
      t.inflight == s.inflight && t.nextRequestOffset == s.nextRequestOffset && t.reported == s.reported
    decreases |s.reorderBuf|
  {
    if IsFirst(s.reorderBuf, s.writeCursor) {
      var t := DrainStep(j, s);
      DrainKeeps(j, t);
    }
  }

  lemma DrainStep(j: Job, s: State) returns (t: State)
    requires Sound(j, s)
    requires IsFirst(s.reorderBuf, s.writeCursor)
    ensures var data := s.reorderBuf[s.writeCursor];
      t == s.(reorderBuf := s.reorderBuf - {s.writeCursor},
              writeCursor := s.writeCursor + |data|,
              localFile := s.localFile + data)
    ensures Sound(j, t) && Drain(s) == Drain(t)
  {
    var data := s.reorderBuf[s.writeCursor];
    t := s.(reorderBuf := s.reorderBuf - {s.writeCursor},
            writeCursor := s.writeCursor + |data|,
            localFile := s.localFile + data);
    Longer(j, s, data);
    forall o | o in t.reorderBuf ensures t.writeCursor <= o {
      BufferDisjoint(j, s, s.writeCursor, o);
    }
    DrainStepUnshared(j, s, t);
  }

  lemma DrainStepUnshared(j: Job, s: State, t: State)
    requires Sound(j, s) && s.writeCursor in s.reorderBuf && InBounds(j, t)
    requires t == s.(reorderBuf := s.reorderBuf - {s.writeCursor},
                     writeCursor := s.writeCursor + |s.reorderBuf[s.writeCursor]|, localFile := t.localFile)
    ensures Unshared(j, t)
  {
    forall p: nat ensures Account(j, t, At(p)) <= Whole(j, At(p)) {
      DrainStepHeld(j, s, t, At(p));
      assert Account(j, s, At(p)) <= Whole(j, At(p));
    }
  }

  lemma DrainStepHeld(j: Job, s: State, t: State, w: Weight)
    requires Additive(w) && j.start <= s.writeCursor && s.writeCursor in s.reorderBuf
    requires t.writeCursor == s.writeCursor + |s.reorderBuf[s.writeCursor]|
    requires t.reorderBuf == s.reorderBuf - {s.writeCursor}
    ensures Held(j, t, w) == Held(j, s, w)
  {
    SumChunksWithout(s.reorderBuf, s.writeCursor, w);
    Cut(w, j.start, s.writeCursor - j.start, t.writeCursor - j.start);
  }

  lemma {:induction false} DrainHeld(j: Job, s: State, w: Weight)
    requires Additive(w) && j.start <= s.writeCursor
    ensures Drain(s).writeCursor >= s.writeCursor
    ensures Held(j, Drain(s), w) == Held(j, s, w)
    decreases |s.reorderBuf|
  {
    if IsFirst(s.reorderBuf, s.writeCursor) {
      var data := s.reorderBuf[s.writeCursor];
      var t := s.(reorderBuf := s.reorderBuf - {s.writeCursor},
                  writeCursor := s.writeCursor + |data|,
                  localFile := s.localFile + data);
      DrainStepHeld(j, s, t, w);
      DrainHeld(j, t, w);
    }
  }

  // ---- delivering one reply ----

  /** `data` answers a range that `s` has stopped accounting for. */
  ghost predicate Deliverable(j: Job, s: State, off: nat, data: seq<byte>) {
    && Sound(j, s) && Drained(s)
    && |data| > 0 && s.writeCursor <= off && off + |data| <= s.nextRequestOffset
    && off + |data| <= |j.remote| && data == j.remote[off..off + |data|]
    && (forall o :: o in s.reorderBuf ==> off + |data| <= o || o + |s.reorderBuf[o]| <= off)
    && (forall p: nat :: Account(j, s, At(p)) + At(p)(off, |data|) <= Whole(j, At(p)))
  }

  lemma DeliverKeeps(j: Job, s: State, off: nat, data: seq<byte>)
    requires Deliverable(j, s, off, data)
    ensures Sound(j, Deliver(s, off, data)) && Drained(Deliver(s, off, data))
    ensures var t := Deliver(s, off, data);
      t.inflight == s.inflight && t.nextRequestOffset == s.nextRequestOffset && t.reported == s.reported
  {
    PlaceSound(j, s, off, data);
    if off == s.writeCursor {
      DrainKeeps(j, Write(s, data));
    }
  }

  /** The data written or buffered, before draining. */
  function Place(s: State, off: nat, data: seq<byte>): State {
    if off == s.writeCursor then Write(s, data) else s.(reorderBuf := s.reorderBuf[off := data])
  }

  lemma PlaceSound(j: Job, s: State, off: nat, data: seq<byte>)
    requires Deliverable(j, s, off, data)
    ensures Sound(j, Place(s, off, data))
  {
    var t := Place(s, off, data);
    if off == s.writeCursor {
      Longer(j, s, data);
    } else {
      BufferLonger(j, s, off, data);
    }
    assert InBounds(j, t);
    forall p: nat ensures Account(j, t, At(p)) <= Whole(j, At(p)) {
      PlaceUnshared(j, s, off, data, p);
    }
  }

  lemma PlaceUnshared(j: Job, s: State, off: nat, data: seq<byte>, p: nat)
    requires Deliverable(j, s, off, data) && InBounds(j, Place(s, off, data))
    ensures Account(j, Place(s, off, data), At(p)) <= Whole(j, At(p))
  {
    WeightsAdditive(p);
    PlaceHeld(j, s, off, data, At(p));
    assert Account(j, s, At(p)) + At(p)(off, |data|) <= Whole(j, At(p));
  }

  lemma BufferLonger(j: Job, s: State, off: nat, data: seq<byte>)
    requires InBounds(j, s) && Faithful(j, s) && |data| > 0 && off + |data| <= s.nextRequestOffset
    requires off + |data| <= |j.remote| && data == j.remote[off..off + |data|]
    ensures var t := s.(reorderBuf := s.reorderBuf[off := data]); InBounds(j, t) && Faithful(j, t)
  {
  }

  lemma PlaceHeld(j: Job, s: State, off: nat, data: seq<byte>, w: Weight)
    requires Additive(w) && j.start <= s.writeCursor
    requires off !in s.reorderBuf || off == s.writeCursor
    ensures Held(j, Place(s, off, data), w) == Held(j, s, w) + w(off, |data|)
  {
    if off == s.writeCursor {
      Cut(w, j.start, s.writeCursor - j.start, s.writeCursor + |data| - j.start);
    } else {
      SumChunksInsert(s.reorderBuf, off, data, w);
    }
  }

  lemma DeliverHeld(j: Job, s: State, off: nat, data: seq<byte>, w: Weight)
    requires Additive(w) && Deliverable(j, s, off, data)
    ensures j.start <= Deliver(s, off, data).writeCursor
    ensures Held(j, Deliver(s, off, data), w) == Held(j, s, w) + w(off, |data|)
  {
    PlaceHeld(j, s, off, data, w);
    if off == s.writeCursor {
      DrainHeld(j, Write(s, data), w);
    }
  }

  /** Taking a request out leaves exactly its answered part unaccounted for. */
  lemma SettleAccount(j: Job, s: State, slot: nat, received: nat, w: Weight)
    requires Additive(w) && j.start <= s.writeCursor && s.nextRequestOffset <= j.total
    requires slot < |s.inflight| && received <= s.inflight[slot].len
    requires s.inflight[slot].off + s.inflight[slot].len <= j.total
    ensures Account(j, Settle(j, s, slot, received), w) + w(s.inflight[slot].off, received) == Account(j, s, w)
  {
    var r := s.inflight[slot];
    var rest := Without(s.inflight, slot);
    var tail := Request(r.off + received, r.len - received);
    assert SumRequests(s.inflight, w) == w(r.off, r.len) + SumRequests(rest, w) by {
      SumRequestsWithout(s.inflight, slot, w);
    }
    assert w(r.off, r.len) == w(r.off, received) + w(tail.off, tail.len) && w(tail.off, 0) == 0 by {
      Cut(w, r.off, received, r.len);
      Cut(w, tail.off, 0, 0);
    }
    assert SumRequests(rest + [tail], w) == SumRequests(rest, w) + w(tail.off, tail.len) by {
      SumRequestsAppend(rest, tail, w);
    }
  }

  lemma SettleDeliverable(j: Job, s: State, slot: nat, data: seq<byte>)
    requires Sound(j, s) && Drained(s)
    requires slot < |s.inflight| && Answers(j, s.inflight[slot], data)
    ensures Deliverable(j, Settle(j, s, slot, |data|), s.inflight[slot].off, data)
  {
    var r := s.inflight[slot];
    var t := Settle(j, s, slot, |data|);
    RequestAhead(j, s, slot);
    forall p: nat ensures Account(j, t, At(p)) + At(p)(r.off, |data|) <= Whole(j, At(p)) {
      SettleAccount(j, s, slot, |data|, At(p));
      assert Account(j, s, At(p)) <= Whole(j, At(p));
    }
    forall o | o in t.reorderBuf ensures r.off + |data| <= o || o + |t.reorderBuf[o]| <= r.off {
      RequestBufferDisjoint(j, s, slot, o);
    }
  }

  // ---- issuing one request ----

  lemma IssueAccount(j: Job, s: State, w: Weight)
    requires Additive(w) && InBounds(j, s) && s.nextRequestOffset < j.total
    ensures InBounds(j, Issue(j, s))
    ensures Account(j, Issue(j, s), w) == Account(j, s, w)
  {
    var r := NextRequest(j, s);
    SumRequestsAppend(s.inflight, r, w);
    Cut(w, s.nextRequestOffset, r.len, j.total - s.nextRequestOffset);
  }

  lemma IssueKeeps(j: Job, s: State)
    requires Sound(j, s) && s.nextRequestOffset < j.total
    ensures Sound(j, Issue(j, s))
  {
    forall p: nat ensures InBounds(j, Issue(j, s)) && Account(j, Issue(j, s), At(p)) <= Whole(j, At(p)) {
      IssueAccount(j, s, At(p));
      assert Account(j, s, At(p)) <= Whole(j, At(p));
    }
  }

  // ---- the invariant over a reply ----

  /** For every additive weight a reply keeps the account: owners and byte counts alike. */
  lemma ReplyAccount(j: Job, s: State, slot: nat, data: seq<byte>, w: Weight)
    requires Sound(j, s) && Drained(s) && Additive(w)
    requires slot < |s.inflight| && Answers(j, s.inflight[slot], data)
    ensures Sound(j, Reply(j, s, slot, data))
    ensures Account(j, Reply(j, s, slot, data), w) == Account(j, s, w)
    ensures Held(j, Reply(j, s, slot, data), w) == Held(j, s, w) + w(s.inflight[slot].off, |data|)
  {
    var u := PlacedAccount(j, s, slot, data, w);
    if !IsGapFill(j, s.inflight[slot], |data|) && u.nextRequestOffset < j.total {
      RefillAccount(j, u, w);
    }
  }

  lemma RefillAccount(j: Job, s: State, w: Weight)
    requires Sound(j, s) && Additive(w) && s.nextRequestOffset < j.total
    ensures Sound(j, Issue(j, s))
    ensures Account(j, Issue(j, s), w) == Account(j, s, w) && Held(j, Issue(j, s), w) == Held(j, s, w)
  {
    IssueKeeps(j, s);
    IssueAccount(j, s, w);
  }

  lemma PlacedAccount(j: Job, s: State, slot: nat, data: seq<byte>, w: Weight) returns (u: State)
    requires Sound(j, s) && Drained(s) && Additive(w)
    requires slot < |s.inflight| && Answers(j, s.inflight[slot], data)
    ensures u == Deliver(Settle(j, s, slot, |data|), s.inflight[slot].off, data)
    ensures Sound(j, u) && Drained(u)
    ensures u.nextRequestOffset == s.nextRequestOffset && u.reported == s.reported + |data|
    ensures |u.inflight| == if IsGapFill(j, s.inflight[slot], |data|) then |s.inflight| else |s.inflight| - 1
    ensures Account(j, u, w) == Account(j, s, w)
    ensures Held(j, u, w) == Held(j, s, w) + w(s.inflight[slot].off, |data|)
  {
    var off := s.inflight[slot].off;
    var t := Settle(j, s, slot, |data|);
    SettleDeliverable(j, s, slot, data);
    SettleAccount(j, s, slot, |data|, w);
    DeliverKeeps(j, t, off, data);
    DeliverHeld(j, t, off, data, w);
    u := Deliver(t, off, data);
  }

  lemma ReplyKeepsInv(j: Job, s: State, slot: nat, data: seq<byte>)
    requires Inv(j, s)
    requires slot < |s.inflight| && Answers(j, s.inflight[slot], data)
    ensures Inv(j, Reply(j, s, slot, data))
    ensures Reply(j, s, slot, data).reported == s.reported + |data|
  {
    var t := Reply(j, s, slot, data);
    WeightsAdditive(0);
    ReplyAccount(j, s, slot, data, Bytes());
    var u := PlacedAccount(j, s, slot, data, Bytes());
    forall p: nat ensures Account(j, t, At(p)) == Whole(j, At(p)) {
      WeightsAdditive(p);
      ReplyAccount(j, s, slot, data, At(p));
      assert Account(j, s, At(p)) == Whole(j, At(p));
    }
  }

  // ---- seeding ----

  ghost predicate SeedInv(j: Job, s: State) {
    && InBounds(j, s) && Sound(j, s)
    && s.reorderBuf == map[] && s.writeCursor == j.start && s.reported == 0
    && (forall p: nat :: Account(j, s, At(p)) == Whole(j, At(p)))
    && Account(j, s, Bytes()) == Whole(j, Bytes())
    && SeedPosition(j, s)
    && |s.inflight| <= j.PipelineDepth()
  }

  /** The requests in flight are whole chunks, but for the last one of the file. */
  ghost predicate SeedPosition(j: Job, s: State) {
    s.nextRequestOffset == Min(j.start + |s.inflight| * j.chunk, j.total)
  }

  lemma IssuePosition(j: Job, s: State)
    requires SeedPosition(j, s) && s.nextRequestOffset < j.total
    ensures SeedPosition(j, Issue(j, s))
  {
    assert (|s.inflight| + 1) * j.chunk == |s.inflight| * j.chunk + j.chunk;
  }

  lemma OpenedSeedInv(j: Job)
    requires j.Valid()
    ensures SeedInv(j, Opened(j))
  {
    assert j.remote[j.start..j.start] == [];
    forall p: nat ensures Account(j, Opened(j), At(p)) == Whole(j, At(p)) {
    }
  }

  lemma IssueSeedInv(j: Job, s: State)
    requires SeedInv(j, s)
    requires |s.inflight| < j.PipelineDepth() && s.nextRequestOffset < j.total
    ensures SeedInv(j, Issue(j, s))
  {
    var t := Issue(j, s);
    assert Sound(j, t) by {
      IssueKeeps(j, s);
    }
    assert Account(j, t, Bytes()) == Whole(j, Bytes()) by {
      WeightsAdditive(0);
      IssueAccount(j, s, Bytes());
    }
    forall p: nat ensures Account(j, t, At(p)) == Whole(j, At(p)) {
      WeightsAdditive(p);
      IssueAccount(j, s, At(p));
      assert Account(j, s, At(p)) == Whole(j, At(p));
    }
    IssuePosition(j, s);
  }

  lemma {:induction false} SeedReachesDepth(j: Job, s: State)
    requires SeedInv(j, s)
    ensures SeedInv(j, Seed(j, s, j.PipelineDepth()))
    ensures |Seed(j, s, j.PipelineDepth()).inflight| == j.PipelineDepth()
    decreases j.PipelineDepth() - |s.inflight|
  {
    if |s.inflight| < j.PipelineDepth() {
      DepthBounds(j.total - j.start, j.chunk);
      MulMonotone(|s.inflight|, j.PipelineDepth() - 1, j.chunk);
      IssueSeedInv(j, s);
      SeedReachesDepth(j, Issue(j, s));
    }
  }

  /** Seeding puts exactly `depth` requests in flight and establishes the invariant. */
  lemma SeededInv(j: Job)
    requires j.Valid()
    ensures Inv(j, Seeded(j))
    ensures |Seeded(j).inflight| == j.PipelineDepth() >= 1
    ensures Seeded(j).reported == 0
  {
    OpenedSeedInv(j);
    SeedReachesDepth(j, Opened(j));
    DepthBounds(j.total - j.start, j.chunk);
  }

  // ---- what the invariant says ----

  ghost predicate RequestedAt(s: State, p: nat) {
    exists k :: 0 <= k < |s.inflight| && s.inflight[k].off <= p < s.inflight[k].off + s.inflight[k].len
  }

  ghost predicate BufferedAt(s: State, p: nat) {
    exists o :: o in s.reorderBuf && o <= p < o + |s.reorderBuf[o]|
  }

  /**
   * The ownership account read as ranges: written, buffered, in-flight and unrequested ranges are
   * pairwise disjoint and cover [start, total).
   */
  lemma Partition(j: Job, s: State)
    requires Inv(j, s)
    ensures forall a, b :: 0 <= a < b < |s.inflight| ==>
      s.inflight[a].off + s.inflight[a].len <= s.inflight[b].off ||
      s.inflight[b].off + s.inflight[b].len <= s.inflight[a].off
    ensures forall k, o :: 0 <= k < |s.inflight| && o in s.reorderBuf ==>
      s.inflight[k].off + s.inflight[k].len <= o || o + |s.reorderBuf[o]| <= s.inflight[k].off
    ensures forall a, b :: a in s.reorderBuf && b in s.reorderBuf && a < b ==> a + |s.reorderBuf[a]| <= b
    ensures forall k :: 0 <= k < |s.inflight| ==>
      s.writeCursor <= s.inflight[k].off && s.inflight[k].off + s.inflight[k].len <= s.nextRequestOffset
    ensures forall o :: o in s.reorderBuf ==>
      s.writeCursor < o && o + |s.reorderBuf[o]| <= s.nextRequestOffset
    ensures forall p: nat :: s.writeCursor <= p < s.nextRequestOffset ==> RequestedAt(s, p) || BufferedAt(s, p)
  {
    forall a, b | 0 <= a < b < |s.inflight|
      ensures s.inflight[a].off + s.inflight[a].len <= s.inflight[b].off ||
              s.inflight[b].off + s.inflight[b].len <= s.inflight[a].off
    {
      RequestsDisjoint(j, s, a, b);
    }
    forall k, o | 0 <= k < |s.inflight| && o in s.reorderBuf
      ensures s.inflight[k].off + s.inflight[k].len <= o || o + |s.reorderBuf[o]| <= s.inflight[k].off
    {
      RequestBufferDisjoint(j, s, k, o);
    }
    forall a, b | a in s.reorderBuf && b in s.reorderBuf && a < b ensures a + |s.reorderBuf[a]| <= b {
      BufferDisjoint(j, s, a, b);
    }
    forall k | 0 <= k < |s.inflight| ensures s.writeCursor <= s.inflight[k].off {
      RequestAhead(j, s, k);
    }
    forall p: nat | s.writeCursor <= p < s.nextRequestOffset ensures RequestedAt(s, p) || BufferedAt(s, p) {
      Covered(j, s, p);
    }
  }

  lemma Covered(j: Job, s: State, p: nat)
    requires Inv(j, s) && s.writeCursor <= p < s.nextRequestOffset
    ensures RequestedAt(s, p) || BufferedAt(s, p)
  {
    assert Account(j, s, At(p)) == Whole(j, At(p));
    if SumRequests(s.inflight, At(p)) > 0 {
      CoveringRequest(s.inflight, p);
    } else {
      CoveringChunk(s.reorderBuf, p);
    }
  }

  lemma {:induction false} CoveringRequest(rs: seq<Request>, p: nat)
    requires SumRequests(rs, At(p)) > 0
    ensures exists k :: 0 <= k < |rs| && rs[k].off <= p < rs[k].off + rs[k].len
  {
    if !(rs[0].off <= p < rs[0].off + rs[0].len) {
      CoveringRequest(rs[1..], p);
      var k :| 0 <= k < |rs[1..]| && rs[1..][k].off <= p < rs[1..][k].off + rs[1..][k].len;
      assert rs[k + 1] == rs[1..][k];
    }
  }

  lemma {:induction false} CoveringChunk(m: map<nat, seq<byte>>, p: nat)
    requires SumChunks(m, At(p)) > 0
    ensures exists o :: o in m && o <= p < o + |m[o]|
    decreases |m|
  {
    var off: nat :| off in m && SumChunks(m, At(p)) == At(p)(off, |m[off]|) + SumChunks(m - {off}, At(p));
    if !(off <= p < off + |m[off]|) {
      CoveringChunk(m - {off}, p);
    }
  }

  /** In-flight bytes never exceed the budget, however short the replies are. */
  lemma InflightBytesBounded(j: Job, s: State)
    requires Inv(j, s)
    ensures SumRequests(s.inflight, Bytes()) <= Max(MAX_INFLIGHT_BYTES, 8 * j.chunk) <= 8 * MAX_CHUNK_SIZE
    ensures 1 <= j.PipelineDepth() <= MAX_PIPELINE_DEPTH
  {
    RequestBytesBounded(s.inflight, j.chunk);
    DepthBounds(j.total - j.start, j.chunk);
    MulMonotone(|s.inflight|, j.PipelineDepth(), j.chunk);
  }

  lemma {:induction false} RequestBytesBounded(rs: seq<Request>, chunk: nat)
    requires forall k :: 0 <= k < |rs| ==> rs[k].len <= chunk
    ensures SumRequests(rs, Bytes()) <= |rs| * chunk
  {
    if rs != [] {
      RequestBytesBounded(rs[1..], chunk);
      assert |rs| * chunk == chunk + (|rs| - 1) * chunk;
    }
  }

  /** With nothing in flight the transfer is complete: whole file, empty buffer, full progress. */
  lemma NothingInFlight(j: Job, s: State)
    requires Inv(j, s) && s.inflight == []
    ensures s.writeCursor == j.total <= |j.remote|
    ensures s.reorderBuf == map[]
    ensures s.localFile == j.base + j.remote[j.start..j.total]
    ensures s.reported == j.total - j.start
  {
    SeededInv(j);
    Partition(j, s);
    assert s.nextRequestOffset == j.total;
    assert s.writeCursor < j.total ==> RequestedAt(s, s.writeCursor) || BufferedAt(s, s.writeCursor);
  }

  // ---- cancellation ----

  /** The ranges that late replies to requests `rs` bring in. */
  function LateRanges(rs: seq<Request>, lates: seq<Late>): seq<Request>
    decreases |lates|
  {
    if lates == [] || lates[0].slot >= |rs| then []
    else
      LateRange(rs[lates[0].slot], lates[0].data) + LateRanges(Without(rs, lates[0].slot), lates[1..])
  }

  function LateRange(r: Request, data: Option<seq<byte>>): seq<Request> {
    if data.Some? then [Request(r.off, |data.value|)] else []
  }

  /** A late reply takes out its own request and adds its bytes to what is held; all else stays. */
  lemma FlushKeeps(j: Job, s: State, late: Late, w: Weight)
    requires Sound(j, s) && Drained(s) && LateEnabled(j, s.inflight, late) && Additive(w)
    ensures Sound(j, Flush(s, late)) && Drained(Flush(s, late))
    ensures var t := Flush(s, late);
      && t.inflight == Without(s.inflight, late.slot)
      && t.nextRequestOffset == s.nextRequestOffset && t.reported == s.reported
    ensures Held(j, Flush(s, late), w) ==
      Held(j, s, w) + if late.data.Some? then w(s.inflight[late.slot].off, |late.data.value|) else 0
  {
    if late.data.None? {
      AbandonKeeps(j, s, late.slot);
    } else {
      var off, data := s.inflight[late.slot].off, late.data.value;
      var t := s.(inflight := Without(s.inflight, late.slot));
      LateDeliverable(j, s, late.slot, data);
      assert Flush(s, late) == Deliver(t, off, data);
      DeliverKeeps(j, t, off, data);
      DeliverHeld(j, t, off, data, w);
    }
  }

  /** A request taken out for good: nobody accounts for its range any more. */
  lemma AbandonKeeps(j: Job, s: State, slot: nat)
    requires Sound(j, s) && slot < |s.inflight|
    ensures var t := s.(inflight := Without(s.inflight, slot));
      Sound(j, t) &&
      forall p: nat :: Account(j, t, At(p)) + At(p)(s.inflight[slot].off, s.inflight[slot].len) <= Whole(j, At(p))
  {
    var t := s.(inflight := Without(s.inflight, slot));
    forall p: nat ensures Account(j, t, At(p)) + At(p)(s.inflight[slot].off, s.inflight[slot].len) <= Whole(j, At(p)) {
      SumRequestsWithout(s.inflight, slot, At(p));
      assert Account(j, s, At(p)) <= Whole(j, At(p));
    }
    forall p: nat ensures Account(j, t, At(p)) <= Whole(j, At(p)) {
      assert Account(j, t, At(p)) + At(p)(s.inflight[slot].off, s.inflight[slot].len) <= Whole(j, At(p));
    }
  }

  lemma LateDeliverable(j: Job, s: State, slot: nat, data: seq<byte>)
    requires Sound(j, s) && Drained(s) && slot < |s.inflight| && Answers(j, s.inflight[slot], data)
    ensures Deliverable(j, s.(inflight := Without(s.inflight, slot)), s.inflight[slot].off, data)
  {
    var r, t := s.inflight[slot], s.(inflight := Without(s.inflight, slot));
    AbandonKeeps(j, s, slot);
    RequestAhead(j, s, slot);
    forall p: nat ensures Account(j, t, At(p)) + At(p)(r.off, |data|) <= Whole(j, At(p)) {
      assert Account(j, t, At(p)) + At(p)(r.off, r.len) <= Whole(j, At(p));
    }
    forall o | o in t.reorderBuf ensures r.off + |data| <= o || o + |t.reorderBuf[o]| <= r.off {
      RequestBufferDisjoint(j, s, slot, o);
    }
  }

  lemma {:induction false} FlushAllKeeps(j: Job, s: State, lates: seq<Late>, w: Weight)
    requires Sound(j, s) && Drained(s) && LatesEnabled(j, s.inflight, lates) && Additive(w)
    ensures Sound(j, FlushAll(s, lates)) && Drained(FlushAll(s, lates))
    ensures FlushAll(s, lates).reported == s.reported
    ensures Held(j, FlushAll(s, lates), w) == Held(j, s, w) + SumRequests(LateRanges(s.inflight, lates), w)
    decreases |lates|
  {
    if lates != [] {
      var rest := LateRanges(Without(s.inflight, lates[0].slot), lates[1..]);
      FlushKeeps(j, s, lates[0], w);
      FlushAllKeeps(j, Flush(s, lates[0]), lates[1..], w);
      LateRangeSum(s.inflight[lates[0].slot], lates[0].data, rest, w);
    }
  }

  lemma LateRangeSum(r: Request, data: Option<seq<byte>>, rest: seq<Request>, w: Weight)
    ensures SumRequests(LateRange(r, data) + rest, w) ==
      (if data.Some? then w(r.off, |data.value|) else 0) + SumRequests(rest, w)
  {
    SumRequestsConcat(LateRange(r, data), rest, w);
    if data.Some? {
      SumRequestsAppend([], Request(r.off, |data.value|), w);
      Unit([Request(r.off, |data.value|)]);
    }
  }

  /**
   * Cancelling keeps a correct prefix and wastes nothing.  The file is the remote prefix up to the
   * write cursor; what is held is what was held before plus the range of every reply to a request
   * in flight, weighed any way; and the write cursor is the first byte of the transfer nobody
   * delivered.  Nothing more is reported.
   */
  lemma CancelSavesAll(j: Job, s: State, lates: seq<Late>, w: Weight)
    requires Inv(j, s) && LatesEnabled(j, s.inflight, lates) && Additive(w)
    ensures Sound(j, Cancel(s, lates)) && Cancel(s, lates).reported == s.reported
    ensures Cancel(s, lates).localFile == j.base + j.remote[j.start..Cancel(s, lates).writeCursor]
    ensures Held(j, Cancel(s, lates), w) == Held(j, s, w) + SumRequests(LateRanges(s.inflight, lates), w)
    ensures var t := Cancel(s, lates);
      Held(j, t, At(t.writeCursor)) == 0 && forall p: nat :: j.start <= p < t.writeCursor ==> Held(j, t, At(p)) == 1
  {
    FlushAllKeeps(j, s, lates, w);
    FirstMissing(j, Cancel(s, lates));
  }

  lemma FirstMissing(j: Job, t: State)
    requires Sound(j, t) && Drained(t)
    ensures Held(j, t, At(t.writeCursor)) == 0
    ensures forall p: nat :: j.start <= p < t.writeCursor ==> Held(j, t, At(p)) == 1
  {
    if SumChunks(t.reorderBuf, At(t.writeCursor)) > 0 {
      CoveringChunk(t.reorderBuf, t.writeCursor);
    }
    forall p: nat | j.start <= p < t.writeCursor ensures Held(j, t, At(p)) == 1 {
      assert Account(j, t, At(p)) <= Whole(j, At(p));
    }
  }

  // ---- whole runs ----

  /** The run from a state that satisfies the invariant: how it ends and what it leaves behind. */
  lemma {:induction false} RunFrom(j: Job, s: State, script: seq<Event>)
    requires Inv(j, s) && Playable(j, s, script)
    ensures var o := Run(j, s, script);
      && Sound(j, o.state)
      && o.state.localFile == j.base + j.remote[j.start..o.state.writeCursor]
      && (o.ending.Done? ==>
            o.state.writeCursor == j.total && o.state.reorderBuf == map[] && o.state.reported == j.total - j.start)
    decreases |script|
  {
    if s.inflight == [] {
      NothingInFlight(j, s);
    } else if script != [] {
      match script[0]
      case Arrived(slot, data) =>
        ReplyKeepsInv(j, s, slot, data);
        RunFrom(j, Reply(j, s, slot, data), script[1..]);
      case Failed(_) =>
      case Cancelled(lates) =>
        WeightsAdditive(0);
        CancelSavesAll(j, s, lates, Bytes());
    }
  }

  lemma RunCorrect(j: Job, script: seq<Event>)
    requires j.Valid() && Playable(j, Seeded(j), script)
    ensures var o := Run(j, Seeded(j), script);
      && j.start <= o.state.writeCursor <= Min(j.total, |j.remote|)
      && o.state.localFile == j.base + j.remote[j.start..o.state.writeCursor]
      && (o.ending.Done? ==>
            o.state.writeCursor == j.total && o.state.reorderBuf == map[] && o.state.reported == j.total - j.start)
  {
    SeededInv(j);
    RunFrom(j, Seeded(j), script);
  }

  // ---- reachable states ----

  /** The state after a sequence of successful replies. */
  function After(j: Job, s: State, replies: seq<Event>): State
    decreases |replies|
  {
    if replies == [] || !replies[0].Arrived? || replies[0].slot >= |s.inflight| then s
    else After(j, Reply(j, s, replies[0].slot, replies[0].data), replies[1..])
  }

  ghost predicate AllArrive(j: Job, s: State, replies: seq<Event>)
    decreases |replies|
  {
    replies == [] ||
    (replies[0].Arrived? && Enabled(j, s, replies[0]) &&
     AllArrive(j, Reply(j, s, replies[0].slot, replies[0].data), replies[1..]))
  }

  lemma {:induction false} RepliesKeepInv(j: Job, s: State, replies: seq<Event>)
    requires Inv(j, s) && AllArrive(j, s, replies)
    ensures Inv(j, After(j, s, replies))
    ensures s.reported + |replies| <= After(j, s, replies).reported
    decreases |replies|
  {
    if replies != [] {
      ReplyKeepsInv(j, s, replies[0].slot, replies[0].data);
      RepliesKeepInv(j, Reply(j, s, replies[0].slot, replies[0].data), replies[1..]);
    }
  }

  /**
   * In every reachable state the invariant holds: the pipeline is full while bytes remain to be
   * requested, and the progress report is the bytes written plus the bytes buffered.  No run has
   * more replies than bytes.
   */
  lemma Reachable(j: Job, replies: seq<Event>)
    requires j.Valid() && AllArrive(j, Seeded(j), replies)
    ensures var t := After(j, Seeded(j), replies);
      && Inv(j, t)
      && |t.inflight| <= j.PipelineDepth()
      && (t.nextRequestOffset < j.total ==> |t.inflight| == j.PipelineDepth())
      && t.reported == (t.writeCursor - j.start) + SumChunks(t.reorderBuf, Bytes())
      && |replies| <= t.reported <= j.total - j.start
  {
    SeededInv(j);
    RepliesKeepInv(j, Seeded(j), replies);
    var t := After(j, Seeded(j), replies);
    assert Account(j, t, Bytes()) == Whole(j, Bytes());
  }
}

/**
 * The pipelined upload: the local file is cut into writes that the server applies in any order.
 */
module Upload {
  import opened Limits
  import opened Accounting
  import opened Octets

  datatype Job = Job(local: seq<byte>, total: nat, chunk: ChunkSize) {
    /** How much of the local file an upload sends: `total`, or less when the file has shrunk. */
    function Goal(): nat {
      Min(total, |local|)
    }

    function PipelineDepth(): nat {
      Depth(total, chunk)
    }
  }

  /** A write request; `landed` once the server has applied it. */
  datatype Sent = Sent(off: nat, data: seq<byte>, landed: bool) {
    predicate Covers(p: nat) {
      off <= p < off + |data|
    }
  }

  datatype State = State(
    offset: nat,
    inflight: seq<Sent>,
    acked: seq<Sent>,
    remote: seq<byte>)

  // ---- transitions ----

  /** The server's write: it may leave a hole of zeros before the data. */
  function Patch(file: seq<byte>, off: nat, data: seq<byte>): (r: seq<byte>)
    ensures |r| == Max(|file|, off + |data|)
    ensures forall i :: 0 <= i < |r| ==>
      r[i] == if off <= i < off + |data| then data[i - off] else if i < |file| then file[i] else 0
  {
    seq(Max(|file|, off + |data|),
        i requires 0 <= i < Max(|file|, off + |data|) =>
          if off <= i < off + |data| then data[i - off] else if i < |file| then file[i] else 0)
  }

  function ReadLen(j: Job, offset: nat): nat {
    if offset < j.Goal() then Min(j.chunk, j.Goal() - offset) else 0
  }

  /** Read the next chunk and queue its write; nothing happens at the end of the local file. */
  function Refill(j: Job, s: State): State {
    var n := ReadLen(j, s.offset);
    if n == 0 then s
    else s.(offset := s.offset + n, inflight := s.inflight + [Sent(s.offset, j.local[s.offset..s.offset + n], false)])
  }

  function Seed(j: Job, s: State, depth: nat): State
    decreases depth - |s.inflight|
  {
    if |s.inflight| < depth && ReadLen(j, s.offset) > 0 then Seed(j, Refill(j, s), depth) else s
  }

  /** The remote file has been opened with truncation. */
  function Seeded(j: Job): State {
    Seed(j, State(0, [], [], []), j.PipelineDepth())
  }

  function Land(s: State, slot: nat): State
    requires slot < |s.inflight|
  {
    var x := s.inflight[slot];
    s.(inflight := s.inflight[slot := x.(landed := true)], remote := Patch(s.remote, x.off, x.data))
  }

  function Acknowledged(s: State, slot: nat): State
    requires slot < |s.inflight|
  {
    s.(inflight := Without(s.inflight, slot), acked := s.acked + [s.inflight[slot]])
  }

  function Ack(j: Job, s: State, slot: nat): State
    requires slot < |s.inflight|
  {
    Refill(j, Acknowledged(s, slot))
  }

  datatype Event = Lands(slot: nat) | Acks(slot: nat) | Fails | Cancels

  datatype Ending = Done | WriteFailed | TransferCancelled

  datatype Outcome = Outcome(state: State, ending: Ending)

  /** The server applies a write once, and acknowledges it afterwards. */
  predicate Enabled(s: State, e: Event) {
    match e
    case Lands(slot) => slot < |s.inflight| && !s.inflight[slot].landed
    case Acks(slot) => slot < |s.inflight| && s.inflight[slot].landed
    case _ => true
  }

  /** The acknowledgement loop; an event the server cannot produce counts as a lost connection. */
  function Run(j: Job, s: State, script: seq<Event>): Outcome
    decreases |script|
  {
    if s.inflight == [] then Outcome(s, Done)
    else if script == [] || !Enabled(s, script[0]) then Outcome(s, WriteFailed)
    else match script[0]
      case Lands(slot) => Run(j, Land(s, slot), script[1..])
      case Acks(slot) => Run(j, Ack(j, s, slot), script[1..])
      case Fails => Outcome(s, WriteFailed)
      case Cancels => Outcome(s, TransferCancelled)
  }

  // ---- the invariant ----

  function Ranges(ws: seq<Sent>): (r: seq<Request>)
    ensures |r| == |ws|
  {
    seq(|ws|, i requires 0 <= i < |ws| => Request(ws[i].off, |ws[i].data|))
  }

  /** The weight of everything issued so far, in flight or acknowledged. */
  ghost function Issued(s: State, w: Weight): nat {
    SumRequests(Ranges(s.inflight), w) + SumRequests(Ranges(s.acked), w)
  }

  ghost predicate FromLocal(j: Job, x: Sent, upTo: nat) {
    1 <= |x.data| <= j.chunk && x.off + |x.data| <= upTo <= |j.local| && x.data == j.local[x.off..x.off + |x.data|]
  }

  ghost predicate Waiting(s: State, p: nat) {
    exists k :: 0 <= k < |s.inflight| && !s.inflight[k].landed && s.inflight[k].Covers(p)
  }

  ghost predicate Landed(j: Job, s: State, p: nat) {
    p < |s.remote| && p < |j.local| && s.remote[p] == j.local[p]
  }

  ghost predicate Inv(j: Job, s: State) {
    && s.offset <= j.Goal()
    && |s.remote| <= s.offset
    && (forall k :: 0 <= k < |s.inflight| ==> FromLocal(j, s.inflight[k], s.offset))
    && (forall k :: 0 <= k < |s.acked| ==> s.acked[k].data != [])
    && (forall p: nat :: p < s.offset ==> Waiting(s, p) || Landed(j, s, p))
    && |s.inflight| <= j.PipelineDepth()
    && (s.offset < j.Goal() ==> |s.inflight| == j.PipelineDepth())
  }

  /** Issued writes partition [0, offset): the weight of all of them is the weight of the range. */
  ghost predicate Tiles(s: State, w: Weight) {
    Issued(s, w) == w(0, s.offset)
  }

  lemma RefillTiles(j: Job, s: State, w: Weight)
    requires Additive(w) && Tiles(s, w)
    ensures Tiles(Refill(j, s), w)
  {
    var n := ReadLen(j, s.offset);
    if n > 0 {
      var t := Refill(j, s);
      assert Ranges(t.inflight) == Ranges(s.inflight) + [Request(s.offset, n)];
      SumRequestsAppend(Ranges(s.inflight), Request(s.offset, n), w);
      Cut(w, 0, s.offset, s.offset + n);
    }
  }

  lemma LandTiles(s: State, slot: nat, w: Weight)
    requires slot < |s.inflight| && Tiles(s, w)
    ensures Tiles(Land(s, slot), w)
  {
    assert Ranges(Land(s, slot).inflight) == Ranges(s.inflight);
  }

  lemma AckTiles(j: Job, s: State, slot: nat, w: Weight)
    requires Additive(w) && slot < |s.inflight| && Tiles(s, w)
    ensures Tiles(Ack(j, s, slot), w)
  {
    var x, t := s.inflight[slot], Acknowledged(s, slot);
    assert Ranges(t.inflight) == Without(Ranges(s.inflight), slot);
    assert Ranges(t.acked) == Ranges(s.acked) + [Request(x.off, |x.data|)];
    SumRequestsWithout(Ranges(s.inflight), slot, w);
    SumRequestsAppend(Ranges(s.acked), Request(x.off, |x.data|), w);
    RefillTiles(j, t, w);
  }

  /** Inv, except that one more request may be needed to fill the pipeline. */
  ghost predicate Almost(j: Job, s: State) {
    && s.offset <= j.Goal()
    && |s.remote| <= s.offset
    && (forall k :: 0 <= k < |s.inflight| ==> FromLocal(j, s.inflight[k], s.offset))
    && (forall k :: 0 <= k < |s.acked| ==> s.acked[k].data != [])
    && (forall p: nat :: p < s.offset ==> Waiting(s, p) || Landed(j, s, p))
    && |s.inflight| < j.PipelineDepth()
  }

  lemma RefillKeeps(j: Job, s: State)
    requires Almost(j, s)
    ensures Almost(j, Refill(j, s)) || |Refill(j, s).inflight| == j.PipelineDepth()
    ensures s.offset < j.Goal() ==> |Refill(j, s).inflight| == |s.inflight| + 1
    ensures |s.inflight| + 1 == j.PipelineDepth() ==> Inv(j, Refill(j, s))
    ensures |Refill(j, s).inflight| == j.PipelineDepth() ==> Inv(j, Refill(j, s))
  {
    var t := Refill(j, s);
    if s.offset < j.Goal() {
      forall p: nat | p < t.offset ensures Waiting(t, p) || Landed(j, t, p) {
        if p < s.offset {
          assert Waiting(s, p) || Landed(j, s, p);
          if Waiting(s, p) {
            WaitingLonger(s, t, p);
          }
        } else {
          assert t.inflight[|s.inflight|].Covers(p);
        }
      }
    }
  }

  lemma WaitingLonger(s: State, t: State, p: nat)
    requires Waiting(s, p) && s.inflight <= t.inflight
    ensures Waiting(t, p)
  {
    var k :| 0 <= k < |s.inflight| && !s.inflight[k].landed && s.inflight[k].Covers(p);
    assert t.inflight[k] == s.inflight[k];
  }

  lemma LandKeeps(j: Job, s: State, slot: nat)
    requires Inv(j, s) && Enabled(s, Lands(slot))
    ensures Inv(j, Land(s, slot))
  {
    var x := s.inflight[slot];
    var t := Land(s, slot);
    assert FromLocal(j, x, s.offset);
    forall p: nat | p < t.offset ensures Waiting(t, p) || Landed(j, t, p) {
      if !x.Covers(p) && Waiting(s, p) {
        var k :| 0 <= k < |s.inflight| && !s.inflight[k].landed && s.inflight[k].Covers(p);
        assert k != slot;
        assert t.inflight[k] == s.inflight[k];
      }
    }
  }

  lemma AckKeeps(j: Job, s: State, slot: nat)
    requires Inv(j, s) && Enabled(s, Acks(slot))
    ensures Inv(j, Ack(j, s, slot))
  {
    var t := Acknowledged(s, slot);
    forall p: nat | p < t.offset ensures Waiting(t, p) || Landed(j, t, p) {
      assert Waiting(s, p) || Landed(j, s, p);
      if Waiting(s, p) {
        StillWaiting(s, slot, p);
      }
    }
    assert forall k :: 0 <= k < |t.inflight| ==> t.inflight[k] == s.inflight[if k < slot then k else k + 1];
    RefillKeeps(j, t);
  }

  lemma StillWaiting(s: State, slot: nat, p: nat)
    requires slot < |s.inflight| && s.inflight[slot].landed && Waiting(s, p)
    ensures Waiting(Acknowledged(s, slot), p)
  {
    var k :| 0 <= k < |s.inflight| && !s.inflight[k].landed && s.inflight[k].Covers(p);
    assert Acknowledged(s, slot).inflight[if k < slot then k else k - 1] == s.inflight[k];
  }

  lemma {:induction false} SeedKeeps(j: Job, s: State)
    requires Almost(j, s) || (Inv(j, s) && |s.inflight| == j.PipelineDepth())
    ensures Inv(j, Seed(j, s, j.PipelineDepth()))
    decreases j.PipelineDepth() - |s.inflight|
  {
    if |s.inflight| < j.PipelineDepth() && ReadLen(j, s.offset) > 0 {
      RefillKeeps(j, s);
      SeedKeeps(j, Refill(j, s));
    }
  }

  lemma {:induction false} SeedTiles(j: Job, s: State, depth: nat, w: Weight)
    requires Additive(w) && Tiles(s, w)
    ensures Tiles(Seed(j, s, depth), w)
    decreases depth - |s.inflight|
  {
    if |s.inflight| < depth && ReadLen(j, s.offset) > 0 {
      RefillTiles(j, s, w);
      SeedTiles(j, Refill(j, s), depth, w);
    }
  }

  lemma SeededInv(j: Job, w: Weight)
    requires Additive(w)
    ensures Inv(j, Seeded(j)) && Tiles(Seeded(j), w)
  {
    Cut(w, 0, 0, 0);
    SeedTiles(j, State(0, [], [], []), j.PipelineDepth(), w);
    if j.total > 0 {
      DepthBounds(j.total, j.chunk);
      SeedKeeps(j, State(0, [], [], []));
    }
  }

  // ---- whole runs ----

  /** In every run and at every moment the invariant holds and the issued writes tile [0, offset). */
  lemma {:induction false} RunKeeps(j: Job, s: State, script: seq<Event>, w: Weight)
    requires Inv(j, s) && Additive(w) && Tiles(s, w)
    ensures var o := Run(j, s, script);
      Inv(j, o.state) && Tiles(o.state, w) && (o.ending.Done? ==> o.state.inflight == [])
    decreases |script|
  {
    if s.inflight != [] && script != [] && Enabled(s, script[0]) {
      match script[0]
      case Lands(slot) =>
        LandKeeps(j, s, slot);
        LandTiles(s, slot, w);
        RunKeeps(j, Land(s, slot), script[1..], w);
      case Acks(slot) =>
        AckKeeps(j, s, slot);
        AckTiles(j, s, slot, w);
        RunKeeps(j, Ack(j, s, slot), script[1..], w);
      case Fails =>
      case Cancels =>
    }
  }

  /** Everything issued so far, as ranges. */
  function IssuedRanges(s: State): (r: seq<Request>) {
    Ranges(s.inflight) + Ranges(s.acked)
  }

  /** At every moment of every run no two writes overlap, in flight or acknowledged. */
  lemma WritesDisjoint(j: Job, script: seq<Event>, a: nat, b: nat)
    requires a < b < |IssuedRanges(Run(j, Seeded(j), script).state)|
    ensures var rs := IssuedRanges(Run(j, Seeded(j), script).state);
      rs[a].off + rs[a].len <= rs[b].off || rs[b].off + rs[b].len <= rs[a].off
  {
    var t := Run(j, Seeded(j), script).state;
    var rs := IssuedRanges(t);
    var p := Max(rs[a].off, rs[b].off);
    IssuedOnce(j, script, p);
    assert forall i :: 0 <= i < |t.inflight| ==> FromLocal(j, t.inflight[i], t.offset);
    OwnedOnce(rs, a, b);
  }

  lemma IssuedOnce(j: Job, script: seq<Event>, p: nat)
    ensures var t := Run(j, Seeded(j), script).state; Inv(j, t) && SumRequests(IssuedRanges(t), At(p)) <= 1
  {
    var t := Run(j, Seeded(j), script).state;
    WeightsAdditive(p);
    SeededInv(j, At(p));
    RunKeeps(j, Seeded(j), script, At(p));
    SumRequestsConcat(Ranges(t.inflight), Ranges(t.acked), At(p));
  }

  /** The bytes reported to the progress callback. */
  ghost function Reported(s: State): nat {
    SumRequests(Ranges(s.acked), Bytes())
  }

  /** A finished upload, weighed any way: all that was sent weighs what the goal does. */
  lemma FinishedAccount(j: Job, script: seq<Event>, w: Weight)
    requires Run(j, Seeded(j), script).ending.Done? && Additive(w)
    ensures var t := Run(j, Seeded(j), script).state;
      t.remote == j.local[..j.Goal()] && SumRequests(Ranges(t.acked), w) == w(0, j.Goal())
  {
    var t := Run(j, Seeded(j), script).state;
    SeededInv(j, w);
    RunKeeps(j, Seeded(j), script, w);
    FinishedContent(j, t);
    assert SumRequests(Ranges(t.inflight), w) == 0;
  }

  /**
   * Whatever order the server applies the writes in, a finished upload has made the remote file
   * the local one up to the goal, and each of its positions was sent exactly once.
   */
  lemma UploadCorrect(j: Job, script: seq<Event>, p: nat)
    requires Run(j, Seeded(j), script).ending.Done?
    ensures var t := Run(j, Seeded(j), script).state;
      && t.remote == j.local[..j.Goal()]
      && Reported(t) == j.Goal()
      && SumRequests(Ranges(t.acked), At(p)) == if p < j.Goal() then 1 else 0
  {
    WeightsAdditive(p);
    FinishedAccount(j, script, Bytes());
    FinishedAccount(j, script, At(p));
  }

  lemma FinishedContent(j: Job, t: State)
    requires Inv(j, t) && t.inflight == []
    ensures t.offset == j.Goal() && t.remote == j.local[..j.Goal()]
  {
    if j.total > 0 {
      DepthBounds(j.total, j.chunk);
    }
    forall q: nat | q < t.offset ensures Landed(j, t, q) {
      assert Waiting(t, q) || Landed(j, t, q);
    }
    assert t.offset > 0 ==> Landed(j, t, t.offset - 1);
    forall q | 0 <= q < |t.remote| ensures t.remote[q] == j.local[q] {
      assert Landed(j, t, q);
    }
  }
}

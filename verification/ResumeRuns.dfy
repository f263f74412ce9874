/**
 * When a download attempt renames its part file, when it leaves everything alone, and what an
 * interrupted one leaves to resume from: by what is on disk, the stat and the replies.
 */
module ResumeRuns {
  import opened Options
  import opened Limits
  import opened Accounting
  import opened Octets
  import opened Download
  import opened DownloadRuns
  import opened Resume

  /** `base` is the part file on disk if this is a resume and it is shorter than the file, but not empty. */
  predicate Continues(d: Disk, a: Attempt, base: seq<byte>) {
    a.resume && d.part == Some(base) && 0 < |base| < TotalOf(a)
  }

  /** Where an attempt starts: at the end of the part file, or with an empty one. */
  predicate StartsWith(d: Disk, a: Attempt, base: seq<byte>) {
    Continues(d, a, base) ||
    (base == [] && (a.resume ==> d.part.None? || |d.part.value| == 0 || |d.part.value| >= TotalOf(a)))
  }

  /** The transfer of an attempt that starts with `base`. */
  function TransferOf(remote: seq<byte>, a: Attempt, base: seq<byte>): Job {
    Job(remote, base, TotalOf(a), |base|, NegotiatedChunk(a.readLimit))
  }

  lemma StartsSomewhere(remote: seq<byte>, d: Disk, a: Attempt) returns (base: seq<byte>)
    ensures StartsWith(d, a, base) && |base| <= TotalOf(a)
  {
    base := OpenedPart(d, a);
  }

  lemma JobIsTransfer(remote: seq<byte>, d: Disk, a: Attempt, base: seq<byte>)
    requires StartsWith(d, a, base)
    ensures JobOf(remote, d, a) == TransferOf(remote, a, base)
  {
  }

  /** A local file of the stat's size or more ends a resume at once; without a connection nothing happens. */
  lemma CompleteExactly(remote: seq<byte>, d: Disk, a: Attempt)
    ensures var (e, verdict) := Attempted(remote, d, a);
      && (verdict.AlreadyComplete? <==>
            a.connected && a.resume && d.local.Some? && |d.local.value| >= TotalOf(a))
      && (verdict.AlreadyComplete? || !a.connected ==> e == d)
      && (!a.connected ==> verdict.Interrupted?)
  {
  }

  lemma TransferDone(remote: seq<byte>, d: Disk, a: Attempt, base: seq<byte>)
    requires PartIsPrefix(remote, d) && Plausible(remote, d, a) && StartsWith(d, a, base)
    ensures |base| <= TotalOf(a)
    ensures Transferred(remote, d, a).1 <==> Brings(a.script, TotalOf(a) - |base|)
  {
    hide Playable, Run, Seeded;
    var j := TransferOf(remote, a, base);
    JobIsTransfer(remote, d, a, base);
    if j.start < j.total {
      CompletesExactly(j, a.script);
    }
  }

  /**
   * An attempt renames exactly when it is connected, does not take the local file for complete, is
   * not cut short, and the replies bring all the bytes after the part it started with.  The local
   * file is then the remote file up to the stat's size.
   */
  lemma RenamesExactly(remote: seq<byte>, d: Disk, a: Attempt, base: seq<byte>)
    requires PartIsPrefix(remote, d) && Plausible(remote, d, a) && StartsWith(d, a, base)
    ensures var (e, verdict) := Attempted(remote, d, a);
      && |base| <= TotalOf(a)
      && (verdict.Renamed? <==>
            && a.connected && !a.cutShort
            && !(a.resume && d.local.Some? && |d.local.value| >= TotalOf(a))
            && Brings(a.script, TotalOf(a) - |base|))
      && (verdict.Renamed? ==> TotalOf(a) <= |remote| && e == Disk(None, Some(remote[..TotalOf(a)])))
  {
    TransferDone(remote, d, a, base);
    AttemptKeepsPrefix(remote, d, a);
  }

  /**
   * An interrupted attempt keeps the part it started with and adds the remote bytes up to where its
   * transfer got; what of that reaches the disk is what the next attempt starts from.
   */
  lemma InterruptedKeeps(remote: seq<byte>, d: Disk, a: Attempt, base: seq<byte>)
    requires PartIsPrefix(remote, d) && Plausible(remote, d, a) && StartsWith(d, a, base)
    requires a.connected && Attempted(remote, d, a).1.Interrupted? && |base| < TotalOf(a)
    ensures var j := TransferOf(remote, a, base);
      var cursor := Run(j, Seeded(j), a.script).state.writeCursor;
      && |base| <= cursor <= |remote|
      && Attempted(remote, d, a).0 == Disk(Some((base + remote[|base|..cursor])[..Min(a.kept, cursor)]), d.local)
  {
    JobIsTransfer(remote, d, a, base);
    RunCorrect(TransferOf(remote, a, base), a.script);
  }

  /** Whatever ends a resumed attempt, a part file whose bytes all reach the disk never gets shorter. */
  lemma ResumeNeverShrinks(remote: seq<byte>, d: Disk, a: Attempt, base: seq<byte>)
    requires PartIsPrefix(remote, d) && Plausible(remote, d, a) && Continues(d, a, base)
    requires a.connected && Attempted(remote, d, a).1.Interrupted? && |remote| <= a.kept
    ensures var e := Attempted(remote, d, a).0;
      e.part.Some? && base <= e.part.value && e.local == d.local
  {
    InterruptedKeeps(remote, d, a, base);
  }

  /**
   * A transfer cut off after replies that do not bring everything is interrupted: a failed read or a
   * lost connection leaves what they brought in order, and a cancel also what its late replies add.
   */
  lemma FailedAttempt(remote: seq<byte>, d: Disk, a: Attempt, base: seq<byte>, replies: seq<Event>, rest: seq<Event>)
    requires PartIsPrefix(remote, d) && Plausible(remote, d, a) && StartsWith(d, a, base)
    requires a.connected && !(a.resume && d.local.Some? && |d.local.value| >= TotalOf(a))
    requires |base| < TotalOf(a)
    requires a.script == replies + rest && (rest == [] || !rest[0].Arrived?)
    requires var j := TransferOf(remote, a, base);
      AllArrive(j, Seeded(j), replies) && Delivered(replies) < j.total - j.start
    ensures var j := TransferOf(remote, a, base);
      var t := After(j, Seeded(j), replies);
      var file := if rest != [] && rest[0].Cancelled? then Cancel(t, rest[0].lates).localFile else t.localFile;
      Attempted(remote, d, a) == (Disk(Some(file[..Min(a.kept, |file|)]), d.local), Interrupted)
  {
    hide Playable, Run, Seeded, After, AllArrive, Delivered, Cancel, Inv;
    var j := TransferOf(remote, a, base);
    JobIsTransfer(remote, d, a, base);
    RunExactly(j, replies, rest);
  }
}

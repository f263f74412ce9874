/**
 * Resumable downloads: a `.part` file that outlives failed attempts and is renamed on success.
 */
module Resume {
  import opened Options
  import opened Limits
  import opened Accounting
  import opened Octets
  import opened Download
  import opened DownloadEngine

  datatype Disk = Disk(part: Option<seq<byte>>, local: Option<seq<byte>>)

  /**
   * One call of the download command.  Without a connection it touches nothing; `size` is what the
   * server's stat says, `readLimit` the longest read it advertises, `script` what the network does,
   * and when the attempt is cut short `kept` bytes of the part file reach the disk.
   */
  datatype Attempt = Attempt(
    connected: bool, resume: bool, size: Option<nat>, readLimit: Option<nat>, script: seq<Event>, cutShort: bool,
    kept: nat)

  datatype Verdict = AlreadyComplete | Renamed | Interrupted

  /** A stat without a size counts as zero bytes. */
  function TotalOf(a: Attempt): (n: nat)
    ensures a.size == Some(n) || (a.size.None? && n == 0)
  {
    if a.size.Some? then a.size.value else 0
  }

  predicate LooksComplete(d: Disk, a: Attempt) {
    a.resume && d.local.Some? && |d.local.value| >= TotalOf(a)
  }

  /** The part file as opened: appended to when it is a proper partial download, else truncated. */
  function OpenedPart(d: Disk, a: Attempt): seq<byte> {
    if a.resume && d.part.Some? && 0 < |d.part.value| < TotalOf(a) then d.part.value else []
  }

  ghost function JobOf(remote: seq<byte>, d: Disk, a: Attempt): Job {
    var base := OpenedPart(d, a);
    Job(remote, base, TotalOf(a), |base|, NegotiatedChunk(a.readLimit))
  }

  /** What the pipelined transfer leaves in the part file, and whether it succeeded. */
  ghost function Transferred(remote: seq<byte>, d: Disk, a: Attempt): (seq<byte>, bool) {
    var j := JobOf(remote, d, a);
    if j.start >= j.total then (j.base, true)
    else
      var o := Run(j, Seeded(j), a.script);
      (o.state.localFile, o.ending.Done?)
  }

  ghost function Attempted(remote: seq<byte>, d: Disk, a: Attempt): (Disk, Verdict) {
    if !a.connected then (d, Interrupted)
    else if LooksComplete(d, a) then (d, AlreadyComplete)
    else
      var (file, ok) := Transferred(remote, d, a);
      if ok && !a.cutShort then (Disk(None, Some(file)), Renamed)
      else (Disk(Some(file[..Min(a.kept, |file|)]), d.local), Interrupted)
  }

  /** The replies of an attempt are ones the server can give. */
  ghost predicate Plausible(remote: seq<byte>, d: Disk, a: Attempt) {
    JobOf(remote, d, a).Valid() ==> Playable(JobOf(remote, d, a), Seeded(JobOf(remote, d, a)), a.script)
  }

  ghost predicate PartIsPrefix(remote: seq<byte>, d: Disk) {
    d.part.Some? ==> d.part.value <= remote
  }

  lemma PrefixGrows(remote: seq<byte>, base: seq<byte>, cursor: nat)
    requires base <= remote && |base| <= cursor <= |remote|
    ensures base + remote[|base|..cursor] == remote[..cursor] <= remote
  {
    assert base == remote[..|base|];
  }

  lemma TransferExtendsPrefix(remote: seq<byte>, d: Disk, a: Attempt)
    requires PartIsPrefix(remote, d) && Plausible(remote, d, a)
    ensures Transferred(remote, d, a).0 <= remote
    ensures Transferred(remote, d, a).1 ==>
      TotalOf(a) <= |remote| && Transferred(remote, d, a).0 == remote[..TotalOf(a)]
  {
    var j := JobOf(remote, d, a);
    if j.start < j.total {
      RunCorrect(j, a.script);
      var o := Run(j, Seeded(j), a.script);
      PrefixGrows(remote, j.base, o.state.writeCursor);
    }
  }

  /** An attempt keeps the part file a prefix of the remote file, whatever happens to it. */
  lemma AttemptKeepsPrefix(remote: seq<byte>, d: Disk, a: Attempt)
    requires PartIsPrefix(remote, d) && Plausible(remote, d, a)
    ensures PartIsPrefix(remote, Attempted(remote, d, a).0)
    ensures Attempted(remote, d, a).1.Renamed? ==>
      TotalOf(a) <= |remote| && Attempted(remote, d, a).0.local == Some(remote[..TotalOf(a)])
    ensures !Attempted(remote, d, a).1.Renamed? ==> Attempted(remote, d, a).0.local == d.local
  {
    TransferExtendsPrefix(remote, d, a);
  }

  // ---- histories ----

  ghost function History(remote: seq<byte>, d: Disk, attempts: seq<Attempt>): Disk
    decreases |attempts|
  {
    if attempts == [] then d else History(remote, Attempted(remote, d, attempts[0]).0, attempts[1..])
  }

  ghost predicate PlausibleHistory(remote: seq<byte>, d: Disk, attempts: seq<Attempt>)
    decreases |attempts|
  {
    attempts == [] ||
    (Plausible(remote, d, attempts[0]) &&
     PlausibleHistory(remote, Attempted(remote, d, attempts[0]).0, attempts[1..]))
  }

  lemma {:induction false} HistoryKeepsPrefix(remote: seq<byte>, d: Disk, attempts: seq<Attempt>)
    requires PartIsPrefix(remote, d) && PlausibleHistory(remote, d, attempts)
    ensures PartIsPrefix(remote, History(remote, d, attempts))
    decreases |attempts|
  {
    if attempts != [] {
      AttemptKeepsPrefix(remote, d, attempts[0]);
      HistoryKeepsPrefix(remote, Attempted(remote, d, attempts[0]).0, attempts[1..]);
    }
  }

  /**
   * After any history of failed, cancelled, crashed or successful attempts, an attempt that
   * reaches the rename leaves the whole remote file exactly when the server's stat told its size.
   */
  lemma RenamedIsWholeFile(remote: seq<byte>, d: Disk, attempts: seq<Attempt>, last: Attempt)
    requires PartIsPrefix(remote, d) && PlausibleHistory(remote, d, attempts)
    requires Plausible(remote, History(remote, d, attempts), last)
    requires Attempted(remote, History(remote, d, attempts), last).1.Renamed?
    ensures Attempted(remote, History(remote, d, attempts), last).0.local == Some(remote) <==>
      TotalOf(last) == |remote|
  {
    HistoryKeepsPrefix(remote, d, attempts);
    AttemptKeepsPrefix(remote, History(remote, d, attempts), last);
    if TotalOf(last) == |remote| {
      assert remote[..|remote|] == remote;
    }
  }

  /**
   * A stat without a size counts as zero: the command renames an empty file over the target, except
   * that a resume with a local file of any length takes it for complete.
   */
  lemma MissingSizeLosesContent(remote: seq<byte>, d: Disk, a: Attempt)
    requires a.connected && a.size.None? && !a.cutShort
    ensures Attempted(remote, d, a) ==
      if a.resume && d.local.Some? then (d, AlreadyComplete) else (Disk(None, Some([])), Renamed)
    ensures remote != [] && Attempted(remote, d, a).1.Renamed? ==> Attempted(remote, d, a).0.local != Some(remote)
  {
  }

  /** The download command on the two paths it touches. */
  class DownloadCommand {
    var partFile: Option<seq<byte>>
    var localFile: Option<seq<byte>>

    function OnDisk(): Disk
      reads this
    {
      Disk(partFile, localFile)
    }

    constructor (disk: Disk)
      ensures OnDisk() == disk
    {
      partFile, localFile := disk.part, disk.local;
    }

    method Download(ghost remote: seq<byte>, a: Attempt) returns (verdict: Verdict)
      requires PartIsPrefix(remote, OnDisk()) && Plausible(remote, OnDisk(), a)
      modifies this
      ensures (OnDisk(), verdict) == old(Attempted(remote, OnDisk(), a))
      ensures PartIsPrefix(remote, OnDisk())
      ensures verdict.Renamed? ==> TotalOf(a) <= |remote| && localFile == Some(remote[..TotalOf(a)])
    {
      AttemptKeepsPrefix(remote, OnDisk(), a);
      if !a.connected {
        return Interrupted;
      }
      ghost var j := JobOf(remote, OnDisk(), a);
      var total := if a.size.Some? then a.size.value else 0;
      if a.resume && localFile.Some? && |localFile.value| >= total {
        return AlreadyComplete;
      }
      var offset := 0;
      var written := [];
      if a.resume && partFile.Some? && 0 < |partFile.value| < total {
        offset := |partFile.value|;
        written := partFile.value;
      }
      var ok := true;
      if offset < total {
        var transfer := new Downloader(j, total, offset, NegotiatedChunk(a.readLimit), written);
        var ending := transfer.Transfer(a.script);
        written := transfer.localFile;
        ok := ending.Done?;
      }
      if ok && !a.cutShort {
        partFile, localFile := None, Some(written);
        return Renamed;
      }
      partFile := Some(written[..Min(a.kept, |written|)]);
      return Interrupted;
    }
  }
}

/** The upload loop: chunks read into one reused buffer, writes queued as acknowledgements arrive. */
module UploadEngine {
  import opened Options
  import opened Limits
  import opened Accounting
  import opened Octets
  import opened Sequences
  import opened Upload

  /** A local file being read; reads may be short, and fail at the position `failsAt`. */
  class LocalFile {
    const content: seq<byte>
    const failsAt: Option<nat>
    var pos: nat

    constructor (content: seq<byte>, failsAt: Option<nat>)
      ensures this.content == content && this.failsAt == failsAt && pos == 0
    {
      this.content, this.failsAt := content, failsAt;
      this.pos := 0;
    }

    /** Some position in the next `n`, up to the end of the file, cannot be read. */
    predicate Fails(from: nat, n: nat) {
      failsAt.Some? && from <= failsAt.value < from + n && failsAt.value <= |content|
    }

    /** Read into buf[from..to]: some bytes, or none at the end of the file. */
    method Read(buf: array<byte>, from: nat, to: nat) returns (n: nat, ok: bool)
      requires from < to <= buf.Length && pos <= |content|
      modifies this, buf
      ensures from + n <= to && old(pos) + n <= |content| && pos == old(pos) + n
      ensures ok <==> !Fails(old(pos), 1)
      ensures ok && n == 0 ==> pos == |content|
      ensures !ok ==> n == 0
      ensures n > 0 ==> !Fails(old(pos), n)
      ensures buf[..] == old(buf[..])[..from] + content[old(pos)..pos] + old(buf[..])[from + n..]
    {
      if failsAt == Some(pos) {
        return 0, false;
      }
      var available := Min(to - from, |content| - pos);
      if failsAt.Some? && pos < failsAt.value {
        available := Min(available, failsAt.value - pos);
      }
      n :| 0 <= n <= available && (n == 0 ==> available == 0);
      ok := true;
      forall i | 0 <= i < n {
        buf[from + i] := content[pos + i];
      }
      pos := pos + n;
    }
  }

  /**
   * Fill `buf` with up to `len` bytes.  Short reads are repeated, so fewer bytes than asked for
   * come back only at the end of the file.
   */
  method ReadChunkInto(file: LocalFile, buf: array<byte>, len: nat) returns (filled: nat, ok: bool)
    requires file.pos <= |file.content|
    modifies file, buf
    ensures file.pos == old(file.pos) + filled <= |file.content|
    ensures ok <==> !file.Fails(old(file.pos), Min(len, buf.Length))
    ensures ok ==> filled == Min(Min(len, buf.Length), |file.content| - old(file.pos))
    ensures filled <= buf.Length
    ensures Holds(buf[..], file.content[old(file.pos)..file.pos], old(buf[..]))
  {
    var target := Min(len, buf.Length);
    filled, ok := 0, true;
    ghost var original, start := buf[..], file.pos;
    while filled < target
      invariant filled <= target && ok
      invariant file.pos == start + filled <= |file.content| && !file.Fails(start, filled)
      invariant Holds(buf[..], file.content[start..file.pos], original)
    {
      var n;
      n, ok := ReadMore(file, buf, filled, target, start, original);
      filled := filled + n;
      if !ok || n == 0 {
        return;
      }
    }
  }

  /** One read into the rest of the buffer, which holds content[start..] so far. */
  method ReadMore(file: LocalFile, buf: array<byte>, filled: nat, target: nat,
      ghost start: nat, ghost original: seq<byte>)
    returns (n: nat, ok: bool)
    requires filled < target <= buf.Length && file.pos == start + filled <= |file.content|
    requires Holds(buf[..], file.content[start..file.pos], original)
    modifies file, buf
    ensures filled + n <= target && file.pos == old(file.pos) + n <= |file.content|
    ensures ok <==> !file.Fails(old(file.pos), 1)
    ensures ok && n == 0 ==> file.pos == |file.content|
    ensures n > 0 ==> !file.Fails(old(file.pos), n)
    ensures Holds(buf[..], file.content[start..file.pos], original)
  {
    n, ok := file.Read(buf, filled, target);
    SliceMore(file.content, start, old(file.pos), file.pos);
    HoldsMore(old(buf[..]), file.content[start..old(file.pos)], original, file.content[old(file.pos)..file.pos]);
  }

  /** A buffer that starts with `data` and is otherwise as it was. */
  predicate Holds(buf: seq<byte>, data: seq<byte>, original: seq<byte>) {
    |data| <= |original| && buf == data + original[|data|..]
  }

  lemma HoldsMore(buf: seq<byte>, data: seq<byte>, original: seq<byte>, more: seq<byte>)
    requires Holds(buf, data, original) && |data| + |more| <= |original|
    ensures Holds(buf[..|data|] + more + buf[|data| + |more|..], data + more, original)
  {
    assert buf[..|data|] == data;
    assert buf[|data| + |more|..] == original[|data| + |more|..];
  }

  class Uploader {
    const totalSize: nat
    const chunkSize: ChunkSize
    const localFile: LocalFile
    const readBuf: array<byte>
    ghost const job: Job

    var offset: nat
    var inflight: seq<Sent>
    ghost var acked: seq<Sent>
    ghost var remote: seq<byte>

    ghost function View(): State
      reads this
    {
      State(offset, inflight, acked, remote)
    }

    /** The reader stands where the next chunk starts. */
    ghost predicate Valid()
      reads this, localFile
    {
      && job == Job(localFile.content, totalSize, chunkSize)
      && readBuf.Length == chunkSize
      && localFile.pos == offset <= job.Goal()
    }

    constructor (file: LocalFile, totalSize: nat, chunkSize: ChunkSize)
      requires file.pos == 0
      ensures Valid() && fresh(readBuf) && localFile == file
      ensures job == Job(file.content, totalSize, chunkSize)
      ensures View() == State(0, [], [], [])
    {
      this.localFile := file;
      this.totalSize, this.chunkSize := totalSize, chunkSize;
      this.readBuf := new byte[chunkSize];
      this.job := Job(file.content, totalSize, chunkSize);
      this.offset := 0;
      this.inflight := [];
      this.acked := [];
      this.remote := [];
    }

    /** The next chunk cannot be read. */
    predicate Unreadable()
      reads this
    {
      offset < totalSize && localFile.Fails(offset, Min(chunkSize, totalSize - offset))
    }

    /** Read one chunk and queue it, if there is anything left to send. */
    method QueueNextChunk() returns (ok: bool)
      requires Valid()
      modifies this, localFile, readBuf
      ensures ok <==> !old(Unreadable())
      ensures ok ==> Valid() && View() == Refill(job, old(View()))
    {
      if offset < totalSize {
        var len := Min(chunkSize, totalSize - offset);
        var n;
        n, ok := ReadChunkInto(localFile, readBuf, len);
        if ok && n > 0 {
          assert readBuf[..n] == readBuf[..][..n];
          inflight := inflight + [Sent(offset, readBuf[..n], false)];
          offset := offset + n;
        }
      } else {
        ok := true;
      }
    }

    method SeedPipeline() returns (ok: bool)
      requires Valid()
      modifies this, localFile, readBuf
      ensures localFile.failsAt.None? ==> ok
      ensures ok ==> Valid() && View() == Seed(job, old(View()), job.PipelineDepth())
    {
      var depth := PipelineDepth(totalSize, chunkSize);
      while |inflight| < depth && offset < totalSize
        invariant Valid()
        invariant Seed(job, View(), depth) == Seed(job, old(View()), depth)
        decreases depth - |inflight|
      {
        var queued := |inflight|;
        ok := QueueNextChunk();
        if !ok {
          return;
        }
        if |inflight| == queued {
          break;
        }
      }
      ok := true;
    }

    method HandleAck(slot: nat) returns (ok: bool)
      requires Valid() && slot < |inflight|
      modifies this, localFile, readBuf
      ensures ok <==> !old(Unreadable())
      ensures ok ==> Valid() && View() == Ack(job, old(View()), slot)
    {
      acked := acked + [inflight[slot]];
      inflight := Without(inflight, slot);
      ok := QueueNextChunk();
    }

    /** Not a step of the client: the server applies a write it has received. */
    method ServerApplies(slot: nat)
      requires Valid() && slot < |inflight|
      modifies this
      ensures Valid() && View() == Land(old(View()), slot)
    {
      remote := Patch(remote, inflight[slot].off, inflight[slot].data);
      inflight := inflight[slot := inflight[slot].(landed := true)];
    }

    /** The acknowledgement loop; `readOk` is false when the local file could not be read. */
    method ProcessAcks(script: seq<Event>) returns (ending: Ending, readOk: bool)
      requires Valid()
      modifies this, localFile, readBuf
      ensures localFile.failsAt.None? ==> readOk
      ensures readOk ==> Outcome(View(), ending) == Run(job, old(View()), script)
    {
      var i := 0;
      ending, readOk := Done, true;
      while |inflight| > 0
        invariant 0 <= i <= |script|
        invariant Valid()
        invariant ending == Done && readOk
        invariant Run(job, View(), script[i..]) == Run(job, old(View()), script)
        decreases |script| - i
      {
        if i == |script| || !Enabled(State(offset, inflight, [], []), script[i]) {
          return WriteFailed, true;
        }
        match script[i] {
          case Fails =>
            return WriteFailed, true;
          case Cancels =>
            return TransferCancelled, true;
          case Lands(slot) =>
            ServerApplies(slot);
          case Acks(slot) =>
            readOk := HandleAck(slot);
            if !readOk {
              return;
            }
        }
        i := i + 1;
      }
    }

    /** A whole upload: when it ends normally the remote file is the local one up to the goal. */
    method Transfer(script: seq<Event>) returns (ending: Ending, readOk: bool)
      requires Valid() && View() == State(0, [], [], [])
      modifies this, localFile, readBuf
      ensures localFile.failsAt.None? ==> readOk
      ensures readOk ==> Outcome(View(), ending) == Run(job, Seeded(job), script)
      ensures readOk && ending.Done? ==> remote == localFile.content[..job.Goal()]
    {
      readOk := SeedPipeline();
      if !readOk {
        return WriteFailed, false;
      }
      ending, readOk := ProcessAcks(script);
      if readOk && ending.Done? {
        UploadCorrect(job, script, 0);
      }
    }
  }
}

/** The download loop itself: state updated in place, proved to follow module Download. */
module DownloadEngine {
  import opened Limits
  import opened Accounting
  import opened Octets
  import opened Download

  class Downloader {
    const totalSize: nat
    const startOffset: nat
    const chunkSize: ChunkSize
    ghost const job: Job

    var nextRequestOffset: nat
    var inflight: seq<Request>
    var reorderBuf: map<nat, seq<byte>>
    var writeCursor: nat
    var localFile: seq<byte>
    var reported: nat

    ghost predicate ForJob() {
      && job.total == totalSize && job.start == startOffset && job.chunk == chunkSize
      && startOffset <= totalSize
    }

    ghost function View(): State
      reads this
    {
      State(nextRequestOffset, inflight, reorderBuf, writeCursor, localFile, reported)
    }

    constructor (ghost job: Job, totalSize: nat, startOffset: nat, chunkSize: ChunkSize, localFile: seq<byte>)
      requires job.total == totalSize && job.start == startOffset && job.chunk == chunkSize && job.base == localFile
      requires startOffset <= totalSize
      ensures ForJob() && this.job == job
      ensures View() == Opened(job)
    {
      this.job := job;
      this.totalSize, this.startOffset, this.chunkSize := totalSize, startOffset, chunkSize;
      this.nextRequestOffset := startOffset;
      this.inflight := [];
      this.reorderBuf := map[];
      this.writeCursor := startOffset;
      this.localFile := localFile;
      this.reported := 0;
    }

    method QueueRead(off: nat, len: nat)
      modifies this`inflight
      ensures inflight == old(inflight) + [Request(off, len)]
    {
      inflight := inflight + [Request(off, len)];
    }

    method RequestNext()
      requires ForJob() && nextRequestOffset < totalSize
      modifies this
      ensures View() == Issue(job, old(View()))
    {
      var len := Min(chunkSize, totalSize - nextRequestOffset);
      QueueRead(nextRequestOffset, len);
      nextRequestOffset := nextRequestOffset + len;
    }

    method SeedPipeline()
      requires ForJob()
      modifies this
      ensures View() == Seed(job, old(View()), job.PipelineDepth())
    {
      var depth := PipelineDepth(totalSize - startOffset, chunkSize);
      while |inflight| < depth && nextRequestOffset < totalSize
        invariant Seed(job, View(), depth) == Seed(job, old(View()), depth)
        decreases depth - |inflight|
      {
        RequestNext();
      }
    }

    method DrainContiguous()
      modifies this
      ensures View() == Drain(old(View()))
    {
      while IsFirst(reorderBuf, writeCursor)
        invariant Drain(View()) == Drain(old(View()))
        decreases |reorderBuf|
      {
        var data := reorderBuf[writeCursor];
        reorderBuf := reorderBuf - {writeCursor};
        localFile := localFile + data;
        writeCursor := writeCursor + |data|;
      }
    }

    method HandleReply(slot: nat, data: seq<byte>)
      requires ForJob() && slot < |inflight|
      modifies this
      ensures View() == Reply(job, old(View()), slot, data)
    {
      var request := inflight[slot];
      inflight := Without(inflight, slot);
      var received := |data|;
      reported := reported + received;
      var isGapFill := received < request.len && request.off + received < totalSize;
      if isGapFill {
        QueueRead(request.off + received, request.len - received);
      }
      assert View() == Settle(job, old(View()), slot, received);
      if request.off == writeCursor {
        localFile := localFile + data;
        writeCursor := writeCursor + received;
        DrainContiguous();
      } else {
        reorderBuf := reorderBuf[request.off := data];
      }
      if !isGapFill && nextRequestOffset < totalSize {
        RequestNext();
      }
    }

    /** A reply drained after cancellation. */
    method FlushChunk(late: Late)
      modifies this
      ensures View() == Flush(old(View()), late)
    {
      if late.slot < |inflight| {
        var off := inflight[late.slot].off;
        inflight := Without(inflight, late.slot);
        if late.data.Some? {
          if off == writeCursor {
            localFile := localFile + late.data.value;
            writeCursor := writeCursor + |late.data.value|;
            DrainContiguous();
          } else if off > writeCursor {
            reorderBuf := reorderBuf[off := late.data.value];
          }
        }
      }
    }

    method HandleCancel(lates: seq<Late>)
      modifies this
      ensures View() == Cancel(old(View()), lates)
    {
      var i := 0;
      while i < |lates|
        invariant 0 <= i <= |lates|
        invariant FlushAll(View(), lates[i..]) == FlushAll(old(View()), lates)
      {
        FlushChunk(lates[i]);
        i := i + 1;
      }
      DrainContiguous();
    }

    /** The response loop: handle replies until nothing is in flight, a read fails or the user cancels. */
    method ProcessReplies(script: seq<Event>) returns (ending: Ending)
      requires ForJob()
      modifies this
      ensures Outcome(View(), ending) == Run(job, old(View()), script)
    {
      var i := 0;
      while |inflight| > 0
        invariant 0 <= i <= |script|
        invariant Run(job, View(), script[i..]) == Run(job, old(View()), script)
        decreases |script| - i
      {
        if i == |script| {
          return ReadFailed;
        }
        RunStep(job, View(), script, i);
        match script[i] {
          case Failed(_) =>
            return ReadFailed;
          case Cancelled(lates) =>
            HandleCancel(lates);
            return TransferCancelled;
          case Arrived(slot, data) =>
            if slot >= |inflight| {
              return ReadFailed;
            }
            HandleReply(slot, data);
        }
        i := i + 1;
      }
      return Done;
    }

    /**
     * A whole transfer, whatever order the replies come in and however short they are: the local
     * file is the old content followed by remote bytes from `startOffset` up to the write cursor,
     * and up to the end of the file when the loop ends normally.
     */
    method Transfer(script: seq<Event>) returns (ending: Ending)
      requires ForJob() && job.Valid() && View() == Opened(job)
      requires Playable(job, Seeded(job), script)
      modifies this
      ensures Outcome(View(), ending) == Run(job, Seeded(job), script)
      ensures startOffset <= writeCursor <= Min(totalSize, |job.remote|)
      ensures localFile == job.base + job.remote[startOffset..writeCursor]
      ensures ending.Done? ==> writeCursor == totalSize && reorderBuf == map[] && reported == totalSize - startOffset
    {
      SeedPipeline();
      ending := ProcessReplies(script);
      RunCorrect(job, script);
    }
  }
}

/**
 Uploading a built bundle to a server that may lose, refuse or half-apply any request
 (client-app/src/upload.rs).
 */
module UploadPipeline {
  import opened Machine
  import opened Wrappers
  import opened Content

  const MAX_CHUNK_RETRY: nat := 3

  /** `chunkCount` is what the stream declares; `chunks` is what it has. */
  datatype UploadStream = UploadStream(streamType: StreamType, chunkCount: u64, chunks: seq<Bytes>)

  /** The slot a chunk goes to, and the chunk. */
  datatype Job = Job(streamType: StreamType, index: nat, chunk: Bytes)
  {
    function Slot(): (StreamType, nat) { (streamType, index) }
  }

  type Slots = map<(StreamType, nat), Bytes>

  /** The first `n` chunks of one stream. */
  function StreamJobs(s: UploadStream, n: nat): (r: seq<Job>)
    requires n <= |s.chunks|
    ensures |r| == n && forall i :: 0 <= i < n ==> r[i] == Job(s.streamType, i, s.chunks[i])
  {
    seq(n, i requires 0 <= i < n => Job(s.streamType, i, s.chunks[i]))
  }

  /** Every chunk of the bundle, in the order it is sent. */
  function Jobs(streams: seq<UploadStream>): seq<Job> {
    if streams == [] then []
    else
      var last := streams[|streams| - 1];
      Jobs(streams[..|streams| - 1]) + StreamJobs(last, |last.chunks|)
  }

  /** The slots once these chunks have been stored, one after the other. */
  function Stored(jobs: seq<Job>): Slots {
    if jobs == [] then map[] else Stored(jobs[..|jobs| - 1])[jobs[|jobs| - 1].Slot() := jobs[|jobs| - 1].chunk]
  }

  /** `total_chunks` */
  function TotalChunks(streams: seq<UploadStream>): nat {
    if streams == [] then 0 else TotalChunks(streams[..|streams| - 1]) + streams[|streams| - 1].chunkCount
  }

  // ---- the server ----

  /** `Lost`: a transport error; the request may or may not have been applied. */
  datatype Answer = Lost | Refused | Granted

  datatype Event = Staged(ok: bool) | Tried(job: Job, ok: bool) | Finalized(ok: bool)

  class Server {
    var slots: Slots
    var finalized: bool
    /** Every request so far, and whether it was granted. */
    ghost var trace: seq<Event>

    constructor ()
      ensures trace == [] && !finalized
    {
      slots, finalized, trace := map[], false, [];
    }

    /** A granted staging opens an empty version. */
    method Stage() returns (a: Answer)
      requires !finalized
      modifies this
      ensures !finalized && trace == old(trace) + [Staged(a == Granted)]
      ensures a == Granted ==> slots == map[]
    {
      a := *;
      if a == Granted { slots := map[]; } else { slots := *; }
      trace := trace + [Staged(a == Granted)];
    }

    /** A granted chunk is in its slot; one that is not may have left anything there. */
    method PutChunk(job: Job) returns (a: Answer)
      requires !finalized
      modifies this
      ensures !finalized && trace == old(trace) + [Tried(job, a == Granted)]
      ensures slots - {job.Slot()} == old(slots) - {job.Slot()}
      ensures a == Granted ==> slots == old(slots)[job.Slot() := job.chunk]
    {
      a := *;
      if a == Granted {
        slots := slots[job.Slot() := job.chunk];
      } else {
        var left: Option<Bytes> := *;
        slots := if left.Some? then slots[job.Slot() := left.value] else slots - {job.Slot()};
      }
      trace := trace + [Tried(job, a == Granted)];
    }

    /** The version may have been finalized even if the answer says otherwise. */
    method Finalize() returns (a: Answer)
      modifies this
      ensures slots == old(slots) && trace == old(trace) + [Finalized(a == Granted)]
      ensures a == Granted ==> finalized
    {
      a := *;
      if a == Granted { finalized := true; } else { finalized := *; }
      trace := trace + [Finalized(a == Granted)];
    }
  }

  // ---- one chunk ----

  function Failures(job: Job, k: nat): (r: seq<Event>)
    ensures |r| == k && forall i :: 0 <= i < k ==> r[i] == Tried(job, false)
  {
    seq(k, _ => Tried(job, false))
  }

  datatype UploadError = Network | StageFailed | ChunkFailed | FinalizeFailed

  /**
   `put_chunk_retried`: up to three failures are retried. On success the chunk is in its slot; either
   way no other slot changed.
   */
  method PutChunkRetried(server: Server, job: Job) returns (r: Result<(), UploadError>, ghost failed: nat)
    requires !server.finalized
    modifies server
    ensures !server.finalized
    ensures r.Ok? ==> && failed <= 3
                      && server.trace == old(server.trace) + Failures(job, failed) + [Tried(job, true)]
    ensures r.Ok? ==> server.slots == old(server.slots)[job.Slot() := job.chunk]
    ensures r.Err? ==> r.error == ChunkFailed && failed == 4
                       && server.trace == old(server.trace) + Failures(job, failed)
    ensures server.slots - {job.Slot()} == old(server.slots) - {job.Slot()}
  {
    failed := 0;
    var attempt := 0;
    while true
      invariant attempt == failed <= MAX_CHUNK_RETRY && !server.finalized
      invariant server.trace == old(server.trace) + Failures(job, failed)
      invariant server.slots - {job.Slot()} == old(server.slots) - {job.Slot()}
      decreases MAX_CHUNK_RETRY - attempt
    {
      ghost var before := server.slots;
      var a := server.PutChunk(job);
      if a == Granted {
        SameButOne(old(server.slots), before, job.Slot(), job.chunk);
        return Ok(()), failed;
      }
      assert Failures(job, failed + 1) == Failures(job, failed) + [Tried(job, false)];
      failed := failed + 1;
      if attempt < MAX_CHUNK_RETRY {
        attempt := attempt + 1;
      } else {
        return Err(ChunkFailed), failed;
      }
    }
  }

  lemma SameButOne(a: Slots, b: Slots, k: (StreamType, nat), v: Bytes)
    requires a - {k} == b - {k}
    ensures a[k := v] == b[k := v]
  {
    PutBack(a, k, v);
    PutBack(b, k, v);
  }

  // ---- the whole bundle ----

  /** The requests delivered these chunks, in order: each after at most three failures. */
  ghost predicate Delivered(jobs: seq<Job>, trace: seq<Event>)
    decreases |jobs|
  {
    if jobs == [] then trace == []
    else exists k, before :: DeliveredLast(jobs, trace, k, before)
  }

  ghost predicate DeliveredLast(jobs: seq<Job>, trace: seq<Event>, k: nat, before: seq<Event>)
    requires jobs != []
    decreases |jobs|, 0
  {
    var job := jobs[|jobs| - 1];
    && k <= 3 && trace == before + Failures(job, k) + [Tried(job, true)]
    && Delivered(jobs[..|jobs| - 1], before)
  }

  lemma {:induction false} DeliveredNext(jobs: seq<Job>, before: seq<Event>, job: Job, k: nat)
    requires Delivered(jobs, before) && k <= MAX_CHUNK_RETRY
    ensures Delivered(jobs + [job], before + Failures(job, k) + [Tried(job, true)])
  {
    assert (jobs + [job])[..|jobs|] == jobs;
    assert DeliveredLast(jobs + [job], before + Failures(job, k) + [Tried(job, true)], k, before);
  }

  /** What `on_progress` was told after `n` chunks. */
  function Progress(n: nat, total: nat): (r: seq<(nat, nat)>)
    ensures |r| == n && forall i :: 0 <= i < n ==> r[i] == (i + 1, total)
  {
    seq(n, i => (i + 1, total))
  }

  /** Where the pipeline stands once `jobs` are delivered. */
  ghost predicate Standing(slots: Slots, start: seq<Event>, sent: seq<Event>, trace: seq<Event>, jobs: seq<Job>,
                           progress: seq<(nat, nat)>, total: nat)
  {
    && slots == Stored(jobs) && progress == Progress(|jobs|, total)
    && trace == start + sent && Delivered(jobs, sent)
  }

  lemma NextJob(streams: seq<UploadStream>, j: nat, i: nat)
    requires j < |streams| && i < |streams[j].chunks|
    ensures var s := streams[j];
            && Jobs(streams[..j]) + StreamJobs(s, i) + [Job(s.streamType, i, s.chunks[i])]
               == Jobs(streams[..j]) + StreamJobs(s, i + 1)
  {
  }

  lemma FirstJob(streams: seq<UploadStream>, j: nat)
    requires j < |streams|
    ensures Jobs(streams[..j]) + StreamJobs(streams[j], 0) == Jobs(streams[..j])
  {
  }

  lemma NextStream(streams: seq<UploadStream>, j: nat)
    requires j < |streams|
    ensures Jobs(streams[..j]) + StreamJobs(streams[j], |streams[j].chunks|) == Jobs(streams[..j + 1])
  {
    assert streams[..j + 1][..j] == streams[..j];
  }

  lemma {:induction false} StandingStart(start: seq<Event>, total: nat)
    ensures Standing(map[], start, [], start, [], [], total)
  {
  }

  /** One more chunk delivered. */
  lemma {:induction false} StandingNext(slots: Slots, start: seq<Event>, sent: seq<Event>, trace: seq<Event>,
                                        jobs: seq<Job>, progress: seq<(nat, nat)>, total: nat, job: Job, k: nat)
    requires Standing(slots, start, sent, trace, jobs, progress, total) && k <= MAX_CHUNK_RETRY
    ensures var more := Failures(job, k) + [Tried(job, true)];
            Standing(slots[job.Slot() := job.chunk], start, sent + more, trace + Failures(job, k) + [Tried(job, true)],
                     jobs + [job], progress + [(|jobs| + 1, total)], total)
  {
    DeliveredNext(jobs, sent, job, k);
    assert (jobs + [job])[..|jobs|] == jobs;
    assert sent + Failures(job, k) + [Tried(job, true)] == sent + (Failures(job, k) + [Tried(job, true)]);
  }

  /** The three outcomes after a granted staging, by the last thing sent. */
  ghost predicate Ended(r: Result<(), UploadError>, jobs: seq<Job>, n: nat, sent: seq<Event>, tail: seq<Event>) {
    && n <= |jobs| && Delivered(jobs[..n], sent)
    && match r
       case Ok(_) => n == |jobs| && tail == [Finalized(true)]
       case Err(ChunkFailed) => n < |jobs| && tail == Failures(jobs[n], 4)
       case Err(e) => n == |jobs| && tail == [Finalized(false)] && e in {Network, FinalizeFailed}
  }

  ghost predicate Finished(r: Result<(), UploadError>, jobs: seq<Job>, n: nat, start: seq<Event>, trace: seq<Event>) {
    exists sent, tail :: trace == start + sent + tail && Ended(r, jobs, n, sent, tail)
  }

  lemma {:induction false} FailedIsFinished(slots: Slots, start: seq<Event>, sent: seq<Event>, trace: seq<Event>,
                                            jobs: seq<Job>, progress: seq<(nat, nat)>, total: nat, all: seq<Job>,
                                            job: Job, now: seq<Event>)
    requires Standing(slots, start, sent, trace, jobs, progress, total)
    requires |jobs| < |all| && all[..|jobs|] == jobs && all[|jobs|] == job
    requires now == trace + Failures(job, MAX_CHUNK_RETRY + 1)
    ensures Finished(Err(ChunkFailed), all, |jobs|, start, now) && progress == Progress(|jobs|, total)
  {
    assert Ended(Err(ChunkFailed), all, |jobs|, sent, Failures(job, MAX_CHUNK_RETRY + 1));
  }

  lemma {:induction false} LastIsFinished(slots: Slots, start: seq<Event>, sent: seq<Event>, trace: seq<Event>,
                                          jobs: seq<Job>, progress: seq<(nat, nat)>, total: nat, a: Answer)
    requires Standing(slots, start, sent, trace, jobs, progress, total)
    ensures Finished(AnswerOf(a), jobs, |jobs|, start, trace + [Finalized(a == Granted)])
    ensures slots == Stored(jobs) && progress == Progress(|jobs|, total)
  {
    assert jobs[..|jobs|] == jobs;
    assert Ended(AnswerOf(a), jobs, |jobs|, sent, [Finalized(a == Granted)]);
  }

  function AnswerOf(a: Answer): Result<(), UploadError> {
    match a
    case Granted => Ok(())
    case Lost => Err(Network)
    case Refused => Err(FinalizeFailed)
  }

  /**
   `run_pipeline`. Under any schedule of failures: the requests are exactly the staging, then each
   chunk in order with at most four tries, then, only once every chunk has been granted, the
   finalization. A finalized version holds exactly the bundle, whatever the client was told; if its
   streams are of distinct types, that is every chunk of every stream at its own type and index.
   */
  method RunPipeline(server: Server, streams: seq<UploadStream>)
    returns (r: Result<(), UploadError>, progress: seq<(nat, nat)>, ghost n: nat)
    requires !server.finalized
    modifies server
    ensures r.Ok? ==> server.finalized
    ensures server.finalized ==> server.slots == Stored(Jobs(streams)) && n == |Jobs(streams)|
    ensures server.finalized && Distinct(streams) ==> Whole(server.slots, streams)
    ensures progress == Progress(n, TotalChunks(streams)) && n <= |Jobs(streams)|
    ensures |progress| == n && forall i :: 0 <= i < n ==> progress[i] == (i + 1, TotalChunks(streams))
    ensures || (server.trace == old(server.trace) + [Staged(false)] && n == 0
                && r.Err? && r.error in {Network, StageFailed})
            || Finished(r, Jobs(streams), n, old(server.trace) + [Staged(true)], server.trace)
  {
    progress, n := Progress(0, TotalChunks(streams)), 0;
    var staged := server.Stage();
    if staged != Granted { return Err(if staged == Lost then Network else StageFailed), progress, n; }
    hide *;
    ghost var start, sent := server.trace, [];
    var total, done := TotalChunks(streams), 0;
    progress := [];
    StandingStart(start, total);
    NoJobs(streams);
    for j := 0 to |streams|
      invariant !server.finalized && done == |Jobs(streams[..j])|
      invariant Standing(server.slots, start, sent, server.trace, Jobs(streams[..j]), progress, total)
    {
      var s := streams[j];
      FirstJob(streams, j);
      for i := 0 to |s.chunks|
        invariant !server.finalized && done == |Jobs(streams[..j]) + StreamJobs(s, i)|
        invariant Standing(server.slots, start, sent, server.trace,
                           Jobs(streams[..j]) + StreamJobs(s, i), progress, total)
      {
        ghost var jobs, trace, slots := Jobs(streams[..j]) + StreamJobs(s, i), server.trace, server.slots;
        var job := Job(s.streamType, i, s.chunks[i]);
        JobIsNext(streams, j, i);
        var put, failed := PutChunkRetried(server, job);
        if put.Err? {
          n := |jobs|;
          FailedIsFinished(slots, start, sent, trace, jobs, progress, total, Jobs(streams), job, server.trace);
          return put, progress, n;
        }
        StandingNext(slots, start, sent, trace, jobs, progress, total, job, failed);
        NextJob(streams, j, i);
        sent := sent + (Failures(job, failed) + [Tried(job, true)]);
        done := done + 1;
        progress := progress + [(done, total)];
      }
      NextStream(streams, j);
    }
    assert streams[..|streams|] == streams;
    n := |Jobs(streams)|;
    ghost var trace := server.trace;
    var finished := server.Finalize();
    LastIsFinished(server.slots, start, sent, trace, Jobs(streams), progress, total, finished);
    r := AnswerOf(finished);
    FinishedOk(finished);
    if Distinct(streams) { StoredIsWhole(streams); }
  }

  lemma NoJobs(streams: seq<UploadStream>)
    ensures Jobs(streams[..0]) == [] && forall total :: Progress(0, total) == []
  {
  }

  lemma FinishedOk(a: Answer)
    ensures AnswerOf(a).Ok? <==> a == Granted
  {
  }

  lemma {:induction false} JobsPrefix(streams: seq<UploadStream>, j: nat)
    requires j <= |streams|
    ensures Jobs(streams[..j]) <= Jobs(streams)
    decreases |streams|
  {
    if j < |streams| {
      assert streams[..|streams| - 1][..j] == streams[..j];
      JobsPrefix(streams[..|streams| - 1], j);
    } else {
      assert streams[..j] == streams;
    }
  }

  /** The chunk being sent is the next one of the bundle. */
  lemma JobIsNext(streams: seq<UploadStream>, j: nat, i: nat)
    requires j < |streams| && i < |streams[j].chunks|
    ensures var jobs := Jobs(streams[..j]) + StreamJobs(streams[j], i);
            && |jobs| < |Jobs(streams)| && Jobs(streams)[..|jobs|] == jobs
            && Jobs(streams)[|jobs|] == Job(streams[j].streamType, i, streams[j].chunks[i])
  {
    var s := streams[j];
    NextStream(streams, j);
    JobsPrefix(streams, j + 1);
    hide Jobs;
    InMiddle(Jobs(streams[..j]), StreamJobs(s, |s.chunks|), Jobs(streams), i);
    assert StreamJobs(s, |s.chunks|)[..i] == StreamJobs(s, i);
  }

  lemma InMiddle(a: seq<Job>, b: seq<Job>, whole: seq<Job>, i: nat)
    requires a + b <= whole && i < |b|
    ensures |a + b[..i]| < |whole| && whole[..|a + b[..i]|] == a + b[..i] && whole[|a + b[..i]|] == b[i]
  {
    assert (a + b)[|a| + i] == b[i];
    assert (a + b)[..|a| + i] == a + b[..i];
  }

  // ---- what the slots hold in the end ----

  /** Every chunk of the bundle is in its own slot. */
  ghost predicate Holds(slots: Slots, jobs: seq<Job>) {
    forall k :: 0 <= k < |jobs| ==> InSlot(slots, jobs[k])
  }

  ghost predicate InSlot(slots: Slots, job: Job) { job.Slot() in slots && slots[job.Slot()] == job.chunk }

  /** No two chunks compete for one slot. */
  ghost predicate NoConflict(jobs: seq<Job>) {
    forall k, l :: 0 <= k < l < |jobs| && jobs[k].Slot() == jobs[l].Slot() ==> jobs[k].chunk == jobs[l].chunk
  }

  ghost predicate Fills(jobs: seq<Job>, slot: (StreamType, nat)) {
    exists k :: 0 <= k < |jobs| && jobs[k].Slot() == slot
  }

  /** The slots filled are those of the chunks, and nothing else. */
  lemma {:induction false} StoredSlots(jobs: seq<Job>, slot: (StreamType, nat))
    ensures slot in Stored(jobs) <==> Fills(jobs, slot)
  {
    if jobs != [] {
      var n := |jobs| - 1;
      StoredSlots(jobs[..n], slot);
      assert jobs[n].Slot() == slot ==> Fills(jobs, slot);
      if Fills(jobs[..n], slot) {
        var k :| 0 <= k < n && jobs[..n][k].Slot() == slot;
        assert jobs[k].Slot() == slot;
      }
      if Fills(jobs, slot) {
        var k :| 0 <= k < |jobs| && jobs[k].Slot() == slot;
        if k < n { assert jobs[..n][k].Slot() == slot; }
      }
    }
  }

  lemma {:induction false} UnrivalledIsHeld(jobs: seq<Job>, k: nat)
    requires k < |jobs|
    requires forall l :: k < l < |jobs| && jobs[l].Slot() == jobs[k].Slot() ==> jobs[l].chunk == jobs[k].chunk
    ensures InSlot(Stored(jobs), jobs[k])
  {
    var n := |jobs| - 1;
    if k < n {
      assert jobs[..n][k] == jobs[k];
      UnrivalledIsHeld(jobs[..n], k);
    }
  }

  /** The finished upload holds every chunk exactly if no two chunks compete for a slot. */
  lemma StoredHolds(jobs: seq<Job>)
    ensures Holds(Stored(jobs), jobs) <==> NoConflict(jobs)
  {
    hide Stored;
    if NoConflict(jobs) {
      forall k | 0 <= k < |jobs| ensures InSlot(Stored(jobs), jobs[k]) { UnrivalledIsHeld(jobs, k); }
    }
    if Holds(Stored(jobs), jobs) {
      forall k, l | 0 <= k < l < |jobs| && jobs[k].Slot() == jobs[l].Slot() ensures jobs[k].chunk == jobs[l].chunk {
        assert InSlot(Stored(jobs), jobs[k]) && InSlot(Stored(jobs), jobs[l]);
      }
    }
  }

  ghost predicate Distinct(streams: seq<UploadStream>) {
    forall a, b :: 0 <= a < b < |streams| ==> streams[a].streamType != streams[b].streamType
  }

  /** Every chunk of every stream is there, under its type and index, and nothing else is. */
  ghost predicate Whole(slots: Slots, streams: seq<UploadStream>) {
    && (forall j, i :: 0 <= j < |streams| && 0 <= i < |streams[j].chunks| ==>
                         HeldAt(slots, streams[j].streamType, i, streams[j].chunks[i]))
    && (forall t, i: nat :: (t, i) in slots ==> HasChunk(streams, t, i))
  }

  ghost predicate HeldAt(slots: Slots, t: StreamType, i: nat, chunk: Bytes) {
    (t, i) in slots && slots[(t, i)] == chunk
  }

  ghost predicate HasChunk(streams: seq<UploadStream>, t: StreamType, i: nat) {
    exists j :: 0 <= j < |streams| && streams[j].streamType == t && i < |streams[j].chunks|
  }

  lemma {:induction false} JobOf(streams: seq<UploadStream>, k: nat) returns (j: nat, i: nat)
    requires k < |Jobs(streams)|
    ensures j < |streams| && i < |streams[j].chunks|
    ensures Jobs(streams)[k] == Job(streams[j].streamType, i, streams[j].chunks[i])
    ensures k == |Jobs(streams[..j])| + i
  {
    var n := |streams| - 1;
    if k < |Jobs(streams[..n])| {
      j, i := JobOf(streams[..n], k);
      assert streams[..n][..j] == streams[..j];
    } else {
      j, i := n, k - |Jobs(streams[..n])|;
    }
  }

  /** Chunks are sent stream by stream, and within a stream by index. */
  lemma SentInOrder(streams: seq<UploadStream>, k: nat, l: nat) returns (a: nat, i: nat, b: nat, j: nat)
    requires k < l < |Jobs(streams)|
    ensures a < |streams| && i < |streams[a].chunks| && b < |streams| && j < |streams[b].chunks|
    ensures Jobs(streams)[k] == Job(streams[a].streamType, i, streams[a].chunks[i])
    ensures Jobs(streams)[l] == Job(streams[b].streamType, j, streams[b].chunks[j])
    ensures a < b || (a == b && i < j)
  {
    a, i := JobOf(streams, k);
    b, j := JobOf(streams, l);
    if b < a { EarlierJobs(streams, b, a); }
  }

  lemma EarlierJobs(streams: seq<UploadStream>, b: nat, a: nat)
    requires b < a <= |streams|
    ensures |Jobs(streams[..b])| + |streams[b].chunks| <= |Jobs(streams[..a])|
  {
    NextStream(streams, b);
    JobsPrefix(streams[..a], b + 1);
    assert streams[..a][..b + 1] == streams[..b + 1];
  }

  lemma NoRivals(streams: seq<UploadStream>)
    requires Distinct(streams)
    ensures NoConflict(Jobs(streams))
  {
    hide Jobs;
    var jobs := Jobs(streams);
    forall k, l | 0 <= k < l < |jobs| && jobs[k].Slot() == jobs[l].Slot() ensures jobs[k].chunk == jobs[l].chunk {
      var a, i := JobOf(streams, k);
      var b, i' := JobOf(streams, l);
    }
  }

  lemma StoredIsWhole(streams: seq<UploadStream>)
    requires Distinct(streams)
    ensures Whole(Stored(Jobs(streams)), streams)
  {
    hide Jobs, Stored;
    var jobs := Jobs(streams);
    NoRivals(streams);
    StoredHolds(jobs);
    forall j, i | 0 <= j < |streams| && 0 <= i < |streams[j].chunks|
      ensures HeldAt(Stored(jobs), streams[j].streamType, i, streams[j].chunks[i])
    {
      JobIsNext(streams, j, i);
      var k := |Jobs(streams[..j]) + StreamJobs(streams[j], i)|;
      assert InSlot(Stored(jobs), jobs[k]);
    }
    forall t, i: nat | (t, i) in Stored(jobs) ensures HasChunk(streams, t, i) {
      StoredSlots(jobs, (t, i));
      var k :| 0 <= k < |jobs| && jobs[k].Slot() == (t, i);
      var a, b := JobOf(streams, k);
    }
  }

  /** The announced total is the sum of what the streams declare. */
  lemma TotalAdds(streams: seq<UploadStream>, s: UploadStream)
    ensures TotalChunks([]) == 0 && TotalChunks(streams + [s]) == TotalChunks(streams) + s.chunkCount
  {
    assert (streams + [s])[..|streams|] == streams;
  }

  /** When every stream declares what it has, progress counts up to the announced total. */
  lemma {:induction false} ProgressReachesTotal(streams: seq<UploadStream>)
    requires forall j :: 0 <= j < |streams| ==> streams[j].chunkCount == |streams[j].chunks|
    ensures TotalChunks(streams) == |Jobs(streams)|
  {
    if streams != [] { ProgressReachesTotal(streams[..|streams| - 1]); }
  }
}

/**
 One parallel download as a state machine. Between two awaits a worker runs alone, so an event is one
 such stretch of one worker, or one operation of the write queue; events come in any order.
 */
module DownloadEvents {
  import opened Wrappers
  import opened DownloadPlan

  type Byte = x: int | 0 <= x < 256
  type Bytes = seq<Byte>

  const MAX_RETRIES: nat := 3

  /** What stays fixed: the bytes that the server serves, the pieces, and whether writes go straight to disk. */
  datatype Job = Job(source: Bytes, pieces: seq<Piece>, direct: bool)

  /** Where a worker stands; `p` is its piece and `a` the number of failed attempts at it. */
  datatype Worker =
    | AtLoop
    | Fetching(p: nat, a: nat)
    | Reading(p: nat, a: nat, chunks: seq<Bytes>)
    | Queued(p: nat, a: nat)
    | Settled(p: nat, a: nat, ok: bool)
    | Waiting(p: nat, a: nat)
    | Finished
    | Threw(p: nat)

  /** A queued seek and write, for the worker that waits for it. */
  datatype Write = Write(worker: nat, piece: nat, data: Bytes)

  /** `claimedBy` is the record of the claims: the worker that took each piece, in order. */
  datatype State = State(
    nextPieceIndex: nat,
    workers: seq<Worker>,
    completed: seq<bool>,
    data: seq<Option<Bytes>>,
    queue: seq<Write>,
    seeked: bool,
    position: nat,
    file: Bytes,
    claimedBy: seq<nat>)

  datatype Event =
    | Claim(w: nat)
    | FetchSettles(w: nat, is206: bool)
    | ChunkArrives(w: nat, n: nat)
    | ReadBreaks(w: nat)
    | ReadEnds(w: nat)
    | SeekSettles(ok: bool)
    | WriteSettles(ok: bool, written: nat)
    | Resumes(w: nat)
    | TimerFires(w: nat)

  function Concat(chunks: seq<Bytes>): Bytes {
    if chunks == [] then [] else Concat(chunks[..|chunks| - 1]) + chunks[|chunks| - 1]
  }

  ghost predicate IsPlanned(job: Job) {
    && IsPartition(job.pieces, |job.source|)
    && forall i :: 0 <= i < |job.pieces| ==> job.pieces[i].index == i && 0 <= job.pieces[i].end < |job.source|
  }

  ghost function Range(job: Job, p: nat): Bytes
    requires IsPlanned(job) && p < |job.pieces|
  {
    job.source[job.pieces[p].start..job.pieces[p].end + 1]
  }

  function Zeros(n: nat): (z: Bytes)
    ensures |z| == n
  {
    seq(n, _ => 0)
  }

  /** A write at a position; a gap before it is filled with zeros. */
  function WriteAt(file: Bytes, position: nat, data: Bytes): (r: Bytes)
    ensures |r| == if data == [] then |file| else if |file| < position + |data| then position + |data| else |file|
  {
    if data == [] then file
    else
      var f := if |file| < position then file + Zeros(position - |file|) else file;
      f[..position] + data + if position + |data| < |f| then f[position + |data|..] else []
  }

  ghost function Initial(job: Job, workerCount: nat): State {
    State(0, seq(workerCount, _ => AtLoop), seq(|job.pieces|, _ => false), seq(|job.pieces|, _ => None), [], false, 0, [], [])
  }

  ghost predicate Enabled(job: Job, s: State, e: Event)
    requires IsPlanned(job)
  {
    match e
    case Claim(w) => w < |s.workers| && s.workers[w].AtLoop?
    case FetchSettles(w, _) => w < |s.workers| && s.workers[w].Fetching?
    case ChunkArrives(w, n) =>
      && w < |s.workers| && s.workers[w].Reading? && s.workers[w].p < |job.pieces|
      && |Concat(s.workers[w].chunks)| + n <= |Range(job, s.workers[w].p)|
    case ReadBreaks(w) => w < |s.workers| && s.workers[w].Reading?
    case ReadEnds(w) =>
      && w < |s.workers| && s.workers[w].Reading? && s.workers[w].p < |job.pieces| == |s.data| == |s.completed|
      && |Concat(s.workers[w].chunks)| == |Range(job, s.workers[w].p)|
    case SeekSettles(_) => HeadIsWaited(s) && !s.seeked && s.queue[0].piece < |job.pieces|
    case WriteSettles(ok, n) =>
      HeadIsWaited(s) && s.seeked && n <= |s.queue[0].data| && (ok ==> n == |s.queue[0].data|)
    case Resumes(w) => w < |s.workers| && s.workers[w].Settled? && s.workers[w].p < |s.completed|
    case TimerFires(w) => w < |s.workers| && s.workers[w].Waiting?
  }

  ghost predicate HeadIsWaited(s: State) {
    s.queue != [] && s.queue[0].worker < |s.workers| && s.workers[s.queue[0].worker].Queued?
  }

  /** An attempt has failed: the worker waits for the next one, or gives up. */
  function AfterFailure(p: nat, a: nat): Worker {
    if a + 1 >= MAX_RETRIES then Threw(p) else Waiting(p, a + 1)
  }

  ghost function Put(s: State, w: nat, worker: Worker): State
    requires w < |s.workers|
  {
    s.(workers := s.workers[w := worker])
  }

  /** The head of the queue is done with; its worker will find out. */
  ghost function Dequeue(s: State, ok: bool): State
    requires HeadIsWaited(s)
  {
    var w := s.queue[0].worker;
    Put(s.(queue := s.queue[1..], seeked := false), w, Settled(s.workers[w].p, s.workers[w].a, ok))
  }

  ghost function Step(job: Job, s: State, e: Event): State
    requires IsPlanned(job) && Enabled(job, s, e)
  {
    match e
    case Claim(w) =>
      if s.nextPieceIndex < |job.pieces| then
        Put(s, w, Fetching(s.nextPieceIndex, 0)).(nextPieceIndex := s.nextPieceIndex + 1, claimedBy := s.claimedBy + [w])
      else Put(s, w, Finished)
    case FetchSettles(w, is206) =>
      var f := s.workers[w];
      Put(s, w, if is206 then Reading(f.p, f.a, []) else AfterFailure(f.p, f.a))
    case ChunkArrives(w, n) =>
      var r := s.workers[w];
      var from := |Concat(r.chunks)|;
      Put(s, w, r.(chunks := r.chunks + [Range(job, r.p)[from..from + n]]))
    case ReadBreaks(w) => Put(s, w, AfterFailure(s.workers[w].p, s.workers[w].a))
    case ReadEnds(w) =>
      var r := s.workers[w];
      if job.direct then
        Put(s, w, Queued(r.p, r.a)).(queue := s.queue + [Write(w, r.p, Concat(r.chunks))])
      else
        Put(s, w, AtLoop).(data := s.data[r.p := Some(Concat(r.chunks))], completed := s.completed[r.p := true])
    case SeekSettles(ok) =>
      if ok then s.(seeked := true, position := job.pieces[s.queue[0].piece].start) else Dequeue(s, false)
    case WriteSettles(ok, n) =>
      Dequeue(s, ok).(file := WriteAt(s.file, s.position, s.queue[0].data[..n]), position := s.position + n)
    case Resumes(w) =>
      var r := s.workers[w];
      if r.ok then Put(s, w, AtLoop).(completed := s.completed[r.p := true])
      else Put(s, w, AfterFailure(r.p, r.a))
    case TimerFires(w) => Put(s, w, Fetching(s.workers[w].p, s.workers[w].a))
  }
}

/** What every event keeps true, and what has been downloaded when all workers have finished. */
module DownloadSafety {
  import opened Wrappers
  import opened DownloadPlan
  import opened DownloadEvents

  /** The worker is busy with the piece, or gave it up. */
  ghost predicate Busy(w: Worker, p: nat) {
    !w.AtLoop? && !w.Finished? && w.p == p
  }

  /** The piece's bytes are in the file, at their place. */
  ghost predicate OnDisk(job: Job, file: Bytes, p: nat)
    requires IsPlanned(job) && p < |job.pieces|
  {
    var piece := job.pieces[p];
    piece.end < |file| && forall k :: piece.start <= k <= piece.end ==> file[k] == job.source[k]
  }

  ghost predicate Kept(job: Job, s: State, p: nat)
    requires IsPlanned(job) && p < |job.pieces| == |s.data|
  {
    if job.direct then OnDisk(job, s.file, p) else s.data[p] == Some(Range(job, p))
  }

  ghost predicate WorkerOk(job: Job, s: State, w: nat)
    requires IsPlanned(job) && w < |s.workers| && |s.completed| == |job.pieces|
  {
    var x := s.workers[w];
    if x.AtLoop? then true
    else if x.Finished? then s.nextPieceIndex == |job.pieces|
    else
      && x.p < s.nextPieceIndex <= |job.pieces| && x.p < |s.claimedBy| && s.claimedBy[x.p] == w && !s.completed[x.p]
      && (x.Reading? ==> Concat(x.chunks) <= Range(job, x.p))
      && (x.Queued? || x.Settled? ==> job.direct)
      && (x.Settled? && x.ok ==> OnDisk(job, s.file, x.p))
  }

  ghost predicate PieceOk(job: Job, s: State, p: nat)
    requires IsPlanned(job) && p < |s.completed| == |s.data| == |job.pieces|
  {
    if p >= s.nextPieceIndex then !s.completed[p]
    else
      && p < |s.claimedBy| && s.claimedBy[p] < |s.workers|
      && if s.completed[p] then Kept(job, s, p) else Busy(s.workers[s.claimedBy[p]], p)
  }

  ghost predicate WriteOk(job: Job, s: State, i: nat)
    requires IsPlanned(job) && i < |s.queue|
  {
    var x := s.queue[i];
    && x.worker < |s.workers| && s.workers[x.worker].Queued? && s.workers[x.worker].p == x.piece < |job.pieces|
    && x.data == Range(job, x.piece)
  }

  ghost predicate QueueOk(job: Job, s: State)
    requires IsPlanned(job)
  {
    && (forall i {:trigger WriteOk(job, s, i)} :: 0 <= i < |s.queue| ==> WriteOk(job, s, i))
    && (forall i, j :: 0 <= i < j < |s.queue| ==> s.queue[i].worker != s.queue[j].worker)
    && (s.queue != [] ==> job.direct)
    && (s.seeked ==> s.queue != [] && s.queue[0].piece < |job.pieces| && s.position == job.pieces[s.queue[0].piece].start)
  }

  ghost predicate Safe(job: Job, s: State)
    requires IsPlanned(job)
  {
    && |s.completed| == |s.data| == |job.pieces| && s.nextPieceIndex == |s.claimedBy| <= |job.pieces|
    && |s.file| <= |job.source|
    && (forall w {:trigger WorkerOk(job, s, w)} :: 0 <= w < |s.workers| ==> WorkerOk(job, s, w))
    && (forall p {:trigger PieceOk(job, s, p)} :: 0 <= p < |job.pieces| ==> PieceOk(job, s, p))
    && QueueOk(job, s)
  }

  // ---------------------------------------------------------------------------
  // One worker moves on with its piece.

  /** Another worker state for the same piece; it is not in the queue. */
  lemma MovesOn(job: Job, s: State, w: nat, x: Worker)
    requires IsPlanned(job) && Safe(job, s) && w < |s.workers|
    requires !s.workers[w].AtLoop? && !s.workers[w].Finished? && !s.workers[w].Queued?
    requires Busy(x, s.workers[w].p) && !x.Queued? && !x.Settled?
    requires x.Reading? && x.p < |job.pieces| ==> Concat(x.chunks) <= Range(job, x.p)
    ensures Safe(job, Put(s, w, x))
  {
    var t := Put(s, w, x);
    assert WorkerOk(job, s, w);
    forall v | 0 <= v < |t.workers| ensures WorkerOk(job, t, v) {
      assert WorkerOk(job, s, v);
    }
    forall p | 0 <= p < |job.pieces| ensures PieceOk(job, t, p) {
      assert PieceOk(job, s, p);
    }
    forall i | 0 <= i < |t.queue| ensures WriteOk(job, t, i) {
      assert WriteOk(job, s, i);
    }
  }

  lemma ClaimKeeps(job: Job, s: State, w: nat)
    requires IsPlanned(job) && Safe(job, s) && Enabled(job, s, Claim(w))
    ensures Safe(job, Step(job, s, Claim(w)))
  {
    var t := Step(job, s, Claim(w));
    forall v | 0 <= v < |t.workers| ensures WorkerOk(job, t, v) {
      assert WorkerOk(job, s, v);
      if s.nextPieceIndex < |job.pieces| {
        assert PieceOk(job, s, s.nextPieceIndex);
      }
    }
    forall p | 0 <= p < |job.pieces| ensures PieceOk(job, t, p) {
      assert PieceOk(job, s, p);
    }
    forall i | 0 <= i < |t.queue| ensures WriteOk(job, t, i) {
      assert WriteOk(job, s, i);
    }
  }

  lemma ConcatSnoc(chunks: seq<Bytes>, c: Bytes)
    ensures Concat(chunks + [c]) == Concat(chunks) + c
  {
    assert (chunks + [c])[..|chunks|] == chunks;
  }

  lemma ChunkKeeps(job: Job, s: State, w: nat, n: nat)
    requires IsPlanned(job) && Safe(job, s) && Enabled(job, s, ChunkArrives(w, n))
    ensures Safe(job, Step(job, s, ChunkArrives(w, n)))
  {
    assert WorkerOk(job, s, w);
    var r, range := s.workers[w], Range(job, s.workers[w].p);
    var from := |Concat(r.chunks)|;
    ConcatSnoc(r.chunks, range[from..from + n]);
    assert range[..from] + range[from..from + n] == range[..from + n];
    MovesOn(job, s, w, r.(chunks := r.chunks + [range[from..from + n]]));
  }

  /** The piece is whole: it is kept in memory, or its write joins the queue. */
  lemma ReadEndsKeeps(job: Job, s: State, w: nat)
    requires IsPlanned(job) && Safe(job, s) && Enabled(job, s, ReadEnds(w))
    ensures Safe(job, Step(job, s, ReadEnds(w)))
  {
    var r, t := s.workers[w], Step(job, s, ReadEnds(w));
    assert WorkerOk(job, s, w);
    assert Concat(r.chunks) == Range(job, r.p);
    forall v | 0 <= v < |t.workers| ensures WorkerOk(job, t, v) {
      assert WorkerOk(job, s, v);
    }
    forall p | 0 <= p < |job.pieces| ensures PieceOk(job, t, p) {
      assert PieceOk(job, s, p);
    }
    forall i | 0 <= i < |t.queue| ensures WriteOk(job, t, i) {
      if i < |s.queue| {
        assert WriteOk(job, s, i);
      }
    }
    forall i, j | 0 <= i < j < |t.queue| ensures t.queue[i].worker != t.queue[j].worker {
      assert WriteOk(job, s, i);
    }
  }

  // ---------------------------------------------------------------------------
  // The write queue.

  /** Writing bytes of the source at their place keeps every byte of the source that is there already. */
  lemma WriteAtKeeps(job: Job, file: Bytes, q: nat, n: nat, p: nat)
    requires IsPlanned(job) && q < |job.pieces| && p < |job.pieces| && n <= |Range(job, q)|
    ensures var f := WriteAt(file, job.pieces[q].start, Range(job, q)[..n]);
            && (|file| <= |job.source| ==> |f| <= |job.source|)
            && (OnDisk(job, file, p) ==> OnDisk(job, f, p))
            && (n == |Range(job, q)| ==> OnDisk(job, f, q))
  {
    var start, data := job.pieces[q].start, Range(job, q)[..n];
    var f := WriteAt(file, start, data);
    if data != [] {
      assert forall k :: start <= k < start + n ==> f[k] == data[k - start] == job.source[k];
      assert forall k :: 0 <= k < |file| && !(start <= k < start + n) ==> f[k] == file[k];
    }
  }

  lemma DequeueKeeps(job: Job, s: State, file: Bytes, position: nat, ok: bool)
    requires IsPlanned(job) && Safe(job, s) && HeadIsWaited(s) && |file| <= |job.source|
    requires forall p :: 0 <= p < |job.pieces| && OnDisk(job, s.file, p) ==> OnDisk(job, file, p)
    requires ok ==> s.queue[0].piece < |job.pieces| && OnDisk(job, file, s.queue[0].piece)
    ensures Safe(job, Dequeue(s, ok).(file := file, position := position))
  {
    var t, w := Dequeue(s, ok).(file := file, position := position), s.queue[0].worker;
    assert WriteOk(job, s, 0) && WorkerOk(job, s, w);
    forall v | 0 <= v < |t.workers| ensures WorkerOk(job, t, v) {
      assert WorkerOk(job, s, v);
    }
    forall p | 0 <= p < |job.pieces| ensures PieceOk(job, t, p) {
      assert PieceOk(job, s, p);
    }
    forall i | 0 <= i < |t.queue| ensures WriteOk(job, t, i) {
      assert WriteOk(job, s, i + 1);
      assert s.queue[i + 1].worker != s.queue[0].worker;
    }
  }

  lemma SeekKeeps(job: Job, s: State, ok: bool)
    requires IsPlanned(job) && Safe(job, s) && Enabled(job, s, SeekSettles(ok))
    ensures Safe(job, Step(job, s, SeekSettles(ok)))
  {
    if ok {
      var t := Step(job, s, SeekSettles(ok));
      forall v | 0 <= v < |t.workers| ensures WorkerOk(job, t, v) {
        assert WorkerOk(job, s, v);
      }
      forall p | 0 <= p < |job.pieces| ensures PieceOk(job, t, p) {
        assert PieceOk(job, s, p);
      }
      forall i | 0 <= i < |t.queue| ensures WriteOk(job, t, i) {
        assert WriteOk(job, s, i);
      }
    } else {
      DequeueKeeps(job, s, s.file, s.position, false);
    }
  }

  /** A write lands where its own seek has put it, also when it breaks off after some bytes. */
  lemma WriteKeeps(job: Job, s: State, ok: bool, n: nat)
    requires IsPlanned(job) && Safe(job, s) && Enabled(job, s, WriteSettles(ok, n))
    ensures Safe(job, Step(job, s, WriteSettles(ok, n)))
  {
    assert WriteOk(job, s, 0);
    var q := s.queue[0].piece;
    var file := WriteAt(s.file, s.position, s.queue[0].data[..n]);
    forall p | 0 <= p < |job.pieces| && OnDisk(job, s.file, p) ensures OnDisk(job, file, p) {
      WriteAtKeeps(job, s.file, q, n, p);
    }
    WriteAtKeeps(job, s.file, q, n, q);
    DequeueKeeps(job, s, file, s.position + n, ok);
  }

  lemma ResumeKeeps(job: Job, s: State, w: nat)
    requires IsPlanned(job) && Safe(job, s) && Enabled(job, s, Resumes(w))
    ensures Safe(job, Step(job, s, Resumes(w)))
  {
    var r, t := s.workers[w], Step(job, s, Resumes(w));
    assert WorkerOk(job, s, w);
    if r.ok {
      forall v | 0 <= v < |t.workers| ensures WorkerOk(job, t, v) {
        assert WorkerOk(job, s, v);
      }
      forall p | 0 <= p < |job.pieces| ensures PieceOk(job, t, p) {
        assert PieceOk(job, s, p);
      }
      forall i | 0 <= i < |t.queue| ensures WriteOk(job, t, i) {
        assert WriteOk(job, s, i);
      }
    } else {
      MovesOn(job, s, w, AfterFailure(r.p, r.a));
    }
  }

  // ---------------------------------------------------------------------------
  // Whole runs.

  lemma StepKeeps(job: Job, s: State, e: Event)
    requires IsPlanned(job) && Safe(job, s) && Enabled(job, s, e)
    ensures Safe(job, Step(job, s, e))
  {
    match e
    case Claim(w) => ClaimKeeps(job, s, w);
    case FetchSettles(w, is206) =>
      MovesOn(job, s, w, if is206 then Reading(s.workers[w].p, s.workers[w].a, []) else AfterFailure(s.workers[w].p, s.workers[w].a));
    case ChunkArrives(w, n) => ChunkKeeps(job, s, w, n);
    case ReadBreaks(w) => MovesOn(job, s, w, AfterFailure(s.workers[w].p, s.workers[w].a));
    case ReadEnds(w) => ReadEndsKeeps(job, s, w);
    case SeekSettles(ok) => SeekKeeps(job, s, ok);
    case WriteSettles(ok, n) => WriteKeeps(job, s, ok, n);
    case Resumes(w) => ResumeKeeps(job, s, w);
    case TimerFires(w) => MovesOn(job, s, w, Fetching(s.workers[w].p, s.workers[w].a));
  }

  /** The events lead from `s` to `t`, each of them possible when it comes. */
  ghost predicate Runs(job: Job, s: State, events: seq<Event>, t: State)
    requires IsPlanned(job)
    decreases |events|
  {
    if events == [] then s == t
    else Enabled(job, s, events[0]) && Runs(job, Step(job, s, events[0]), events[1..], t)
  }

  /** The pieces that are prepared for a file make a plan for it. */
  lemma PreparedIsPlanned(source: Bytes, blockSize: nat, pieces: seq<Piece>, direct: bool)
    requires blockSize > 0 && |pieces| == CeilDiv(|source|, blockSize)
    requires forall i :: 0 <= i < |pieces| ==> pieces[i] == PieceAt(|source|, blockSize, i)
    ensures IsPlanned(Job(source, pieces, direct))
  {
    PiecesPartition(|source|, blockSize, pieces);
  }

  lemma InitiallySafe(job: Job, workerCount: nat)
    requires IsPlanned(job)
    ensures Safe(job, Initial(job, workerCount))
  {
  }

  lemma {:induction false} RunKeeps(job: Job, s: State, events: seq<Event>, t: State)
    requires IsPlanned(job) && Safe(job, s) && Runs(job, s, events, t)
    ensures Safe(job, t) && |t.workers| == |s.workers|
    decreases |events|
  {
    if events != [] {
      StepKeeps(job, s, events[0]);
      RunKeeps(job, Step(job, s, events[0]), events[1..], t);
    }
  }

  /** What the download delivers: the file on disk, or the pieces in memory one after the other. */
  ghost function Delivered(job: Job, s: State): Bytes {
    if job.direct then s.file else Concat(seq(|s.data|, i requires 0 <= i < |s.data| => s.data[i].GetOr([])))
  }

  /**
   Whatever the order of events, with retries and failed writes in between: when every worker has
   finished and none has thrown, each piece has been claimed exactly once and the result is the source.
   */
  lemma DownloadIsComplete(job: Job, workerCount: nat, events: seq<Event>, t: State)
    requires IsPlanned(job) && workerCount > 0 && Runs(job, Initial(job, workerCount), events, t)
    requires forall w :: 0 <= w < |t.workers| ==> t.workers[w].Finished?
    ensures |t.claimedBy| == |job.pieces| && t.completed == seq(|job.pieces|, _ => true)
    ensures Delivered(job, t) == job.source
  {
    InitiallySafe(job, workerCount);
    RunKeeps(job, Initial(job, workerCount), events, t);
    assert WorkerOk(job, t, 0);
    forall p | 0 <= p < |job.pieces| ensures t.completed[p] && Kept(job, t, p) {
      assert PieceOk(job, t, p);
    }
    if job.direct {
      forall p | 0 <= p < |job.pieces| ensures OnDisk(job, t.file, p) {
        assert Kept(job, t, p);
      }
      WholeFile(job, t.file);
    } else {
      var parts := seq(|t.data|, i requires 0 <= i < |t.data| => t.data[i].GetOr([]));
      forall p | 0 <= p < |job.pieces| ensures parts[p] == Range(job, p) {
        assert Kept(job, t, p);
      }
      WholeBlob(job, parts);
    }
  }

  /** The download of a file: its pieces follow from its size and the bounds. */
  function JobFor(bounds: Bounds, source: Bytes, direct: bool): (job: Job)
    requires bounds.minBlockSize > 0 && bounds.maxBlockSize > 0
    ensures IsPlanned(job) && (source != [] ==> |job.pieces| > 0)
  {
    var size, b := |source|, BlockSize(bounds, |source|);
    var pieces := seq(CeilDiv(size, b), i requires 0 <= i => PieceAt(size, b, i));
    PreparedIsPlanned(source, b, pieces, direct);
    Job(source, pieces, direct)
  }

  /** A download that was started for a file delivers this file, whatever the bounds and the number of workers. */
  lemma StartedDownloadIsComplete(bounds: Bounds, concurrency: nat, source: Bytes, job: Job, events: seq<Event>, t: State)
    requires bounds.minBlockSize > 0 && bounds.maxBlockSize > 0 && concurrency > 0 && source != []
    requires job == JobFor(bounds, source, job.direct)
    requires Runs(job, Initial(job, Min(concurrency, |job.pieces|)), events, t)
    requires forall w :: 0 <= w < |t.workers| ==> t.workers[w].Finished?
    ensures Delivered(job, t) == source
  {
    DownloadIsComplete(job, Min(concurrency, |job.pieces|), events, t);
  }

  lemma WholeFile(job: Job, file: Bytes)
    requires IsPlanned(job) && |file| <= |job.source|
    requires forall p :: 0 <= p < |job.pieces| ==> OnDisk(job, file, p)
    ensures file == job.source
  {
    PartitionCovers(job.pieces, |job.source|);
    if job.pieces != [] {
      assert OnDisk(job, file, |job.pieces| - 1);
    }
    forall k | 0 <= k < |job.source| ensures k < |file| && file[k] == job.source[k] {
      assert Lies(job.pieces, k);
      var i :| 0 <= i < |job.pieces| && job.pieces[i].start <= k <= job.pieces[i].end;
      assert OnDisk(job, file, i);
    }
  }

  /** Where the first `n` pieces end. */
  function EndBefore(pieces: seq<Piece>, n: nat): int
    requires n <= |pieces|
  {
    if n == 0 then 0 else pieces[n - 1].end + 1
  }

  lemma {:induction false} PartsJoin(job: Job, parts: seq<Bytes>, n: nat)
    requires IsPlanned(job) && n <= |parts| == |job.pieces|
    requires forall p :: 0 <= p < |job.pieces| ==> parts[p] == Range(job, p)
    ensures 0 <= EndBefore(job.pieces, n) <= |job.source| && Concat(parts[..n]) == job.source[..EndBefore(job.pieces, n)]
  {
    if n > 0 {
      PartsJoin(job, parts, n - 1);
      assert parts[..n][..n - 1] == parts[..n - 1];
      JoinTakes(job.source, job.pieces[n - 1].start, job.pieces[n - 1].end + 1);
    }
  }

  lemma JoinTakes<T>(s: seq<T>, i: nat, j: nat)
    requires i <= j <= |s|
    ensures s[..i] + s[i..j] == s[..j]
  {
  }

  lemma WholeBlob(job: Job, parts: seq<Bytes>)
    requires IsPlanned(job) && |parts| == |job.pieces| && forall p :: 0 <= p < |job.pieces| ==> parts[p] == Range(job, p)
    ensures Concat(parts) == job.source
  {
    PartsJoin(job, parts, |parts|);
    assert EndBefore(job.pieces, |parts|) == |job.source|;
    TakeAll(parts);
    TakeAll(job.source);
  }

  lemma TakeAll<T>(s: seq<T>)
    ensures s[..|s|] == s
  {
  }

  /** Seeks and writes of different pieces do not mix: a write starts where its own piece starts. */
  lemma WriteFollowsItsSeek(job: Job, workerCount: nat, events: seq<Event>, t: State, ok: bool, written: nat)
    requires IsPlanned(job) && Runs(job, Initial(job, workerCount), events, t)
    requires Enabled(job, t, WriteSettles(ok, written))
    ensures var p := t.queue[0].piece;
            p < |job.pieces| && t.position == job.pieces[p].start && t.queue[0].data == Range(job, p)
  {
    InitiallySafe(job, workerCount);
    RunKeeps(job, Initial(job, workerCount), events, t);
    assert WriteOk(job, t, 0);
  }
}

/** The download object itself, with its workers, its write queue and its file. */
module Downloader {
  import opened Wrappers
  import opened DownloadPlan
  import opened DownloadEvents
  import opened DownloadSafety

  /** Copies the chunks into a buffer of the piece's length, one after the other. */
  method Assemble(chunks: seq<Bytes>, length: nat) returns (pieceData: Bytes)
    requires |Concat(chunks)| <= length
    ensures pieceData == Concat(chunks) + Zeros(length - |Concat(chunks)|)
  {
    pieceData := Zeros(length);
    var offset := 0;
    for i := 0 to |chunks|
      invariant offset == |Concat(chunks[..i])| <= length
      invariant pieceData == Concat(chunks[..i]) + Zeros(length - offset)
    {
      var chunk := chunks[i];
      ConcatGrows(chunks, i);
      pieceData := pieceData[..offset] + chunk + pieceData[offset + |chunk|..];
      offset := offset + |chunk|;
    }
    assert chunks[..|chunks|] == chunks;
  }

  lemma {:induction false} ConcatGrows(chunks: seq<Bytes>, i: nat)
    requires i < |chunks|
    ensures Concat(chunks[..i + 1]) == Concat(chunks[..i]) + chunks[i]
    ensures |Concat(chunks[..i + 1])| <= |Concat(chunks)|
    decreases |chunks| - i
  {
    assert chunks[..i + 1][..i] == chunks[..i];
    if i + 1 < |chunks| {
      ConcatGrows(chunks, i + 1);
    } else {
      assert chunks[..i + 1] == chunks;
    }
  }

  class Download {
    const pieces: seq<Piece>
    const direct: bool
    ghost const source: Bytes
    var nextPieceIndex: nat
    var workers: seq<Worker>
    var completed: seq<bool>
    var data: seq<Option<Bytes>>
    var writeQueue: seq<Write>
    var seeked: bool
    var position: nat
    var file: Bytes
    ghost var claimedBy: seq<nat>

    ghost function Task(): Job {
      Job(source, pieces, direct)
    }

    ghost function Now(): State
      reads this
    {
      State(nextPieceIndex, workers, completed, data, writeQueue, seeked, position, file, claimedBy)
    }

    ghost predicate Valid()
      reads this
    {
      IsPlanned(Task()) && Safe(Task(), Now())
    }

    constructor (pieces: seq<Piece>, direct: bool, workerCount: nat, ghost source: Bytes)
      requires IsPlanned(Job(source, pieces, direct))
      ensures Valid() && Task() == Job(source, pieces, direct) && Now() == Initial(Task(), workerCount)
    {
      this.pieces, this.direct, this.source := pieces, direct, source;
      nextPieceIndex, writeQueue, seeked, position, file, claimedBy := 0, [], false, 0, [], [];
      workers := seq(workerCount, _ => AtLoop);
      completed := seq(|pieces|, _ => false);
      data := seq(|pieces|, _ => None);
      new;
      InitiallySafe(Task(), workerCount);
    }

    /** The head of a worker's loop: it takes the next piece, or ends. */
    method NextPiece(w: nat)
      requires Valid() && Enabled(Task(), Now(), Claim(w))
      modifies this
      ensures Valid() && Now() == Step(Task(), old(Now()), Claim(w))
    {
      StepKeeps(Task(), Now(), Claim(w));
      if nextPieceIndex < |pieces| {
        workers := workers[w := Fetching(nextPieceIndex, 0)];
        nextPieceIndex := nextPieceIndex + 1;
        claimedBy := claimedBy + [w];
      } else {
        workers := workers[w := Finished];
      }
    }

    /** The response has come, with its status, or the request has failed. */
    method OnResponse(w: nat, status: Option<nat>)
      requires Valid() && Enabled(Task(), Now(), FetchSettles(w, status == Some(206)))
      modifies this
      ensures Valid() && Now() == Step(Task(), old(Now()), FetchSettles(w, status == Some(206)))
    {
      StepKeeps(Task(), Now(), FetchSettles(w, status == Some(206)));
      if status != Some(206) {
        Catch(w);
      } else {
        workers := workers[w := Reading(workers[w].p, workers[w].a, [])];
      }
    }

    /** An attempt has failed. */
    method Catch(w: nat)
      requires w < |workers| && !workers[w].AtLoop? && !workers[w].Finished? && !workers[w].Threw?
      modifies this`workers
      ensures Now() == Put(old(Now()), w, AfterFailure(old(workers[w].p), old(workers[w].a)))
    {
      var piece, attempts := workers[w].p, workers[w].a + 1;
      if attempts >= MAX_RETRIES {
        workers := workers[w := Threw(piece)];
      } else {
        workers := workers[w := Waiting(piece, attempts)];
      }
    }

    method OnChunk(w: nat, value: Bytes)
      requires Valid() && Enabled(Task(), Now(), ChunkArrives(w, |value|))
      requires var from := |Concat(workers[w].chunks)|; value == Range(Task(), workers[w].p)[from..from + |value|]
      modifies this
      ensures Valid() && Now() == Step(Task(), old(Now()), ChunkArrives(w, |value|))
    {
      StepKeeps(Task(), Now(), ChunkArrives(w, |value|));
      workers := workers[w := workers[w].(chunks := workers[w].chunks + [value])];
    }

    method OnReadError(w: nat)
      requires Valid() && Enabled(Task(), Now(), ReadBreaks(w))
      modifies this
      ensures Valid() && Now() == Step(Task(), old(Now()), ReadBreaks(w))
    {
      StepKeeps(Task(), Now(), ReadBreaks(w));
      Catch(w);
    }

    /** The body has ended: the piece is put together, and kept or sent to the write queue. */
    method OnBodyEnd(w: nat)
      requires Valid() && Enabled(Task(), Now(), ReadEnds(w))
      modifies this
      ensures Valid() && Now() == Step(Task(), old(Now()), ReadEnds(w))
    {
      StepKeeps(Task(), Now(), ReadEnds(w));
      var p, a := workers[w].p, workers[w].a;
      var pieceData := Assemble(workers[w].chunks, pieces[p].length);
      assert pieceData == Concat(workers[w].chunks);
      if direct {
        writeQueue := writeQueue + [Write(w, p, pieceData)];
        workers := workers[w := Queued(p, a)];
      } else {
        data := data[p := Some(pieceData)];
        completed := completed[p := true];
        workers := workers[w := AtLoop];
      }
    }

    method OnSeek(ok: bool)
      requires Valid() && Enabled(Task(), Now(), SeekSettles(ok))
      modifies this
      ensures Valid() && Now() == Step(Task(), old(Now()), SeekSettles(ok))
    {
      StepKeeps(Task(), Now(), SeekSettles(ok));
      if ok {
        seeked, position := true, pieces[writeQueue[0].piece].start;
      } else {
        Settle(false);
      }
    }

    /** The write has settled after `written` bytes. */
    method OnWrite(ok: bool, written: nat)
      requires Valid() && Enabled(Task(), Now(), WriteSettles(ok, written))
      modifies this
      ensures Valid() && Now() == Step(Task(), old(Now()), WriteSettles(ok, written))
    {
      StepKeeps(Task(), Now(), WriteSettles(ok, written));
      file := WriteAt(file, position, writeQueue[0].data[..written]);
      position := position + written;
      Settle(ok);
    }

    /** The next write in the queue may begin, whether or not this one went well. */
    method Settle(ok: bool)
      requires HeadIsWaited(Now())
      modifies this`workers, this`writeQueue, this`seeked
      ensures Now() == Dequeue(old(Now()), ok)
    {
      var w := writeQueue[0].worker;
      workers := workers[w := Settled(workers[w].p, workers[w].a, ok)];
      writeQueue, seeked := writeQueue[1..], false;
    }

    /** The worker that has waited for its write goes on. */
    method AfterWrite(w: nat)
      requires Valid() && Enabled(Task(), Now(), Resumes(w))
      modifies this
      ensures Valid() && Now() == Step(Task(), old(Now()), Resumes(w))
    {
      StepKeeps(Task(), Now(), Resumes(w));
      if workers[w].ok {
        completed := completed[workers[w].p := true];
        workers := workers[w := AtLoop];
      } else {
        Catch(w);
      }
    }

    method OnTimer(w: nat)
      requires Valid() && Enabled(Task(), Now(), TimerFires(w))
      modifies this
      ensures Valid() && Now() == Step(Task(), old(Now()), TimerFires(w))
    {
      StepKeeps(Task(), Now(), TimerFires(w));
      workers := workers[w := Fetching(workers[w].p, workers[w].a)];
    }
  }

  /** Prepares the pieces of a file and starts the workers on them. */
  method StartDownload(bounds: Bounds, concurrency: nat, knownSize: nat, direct: bool, ghost source: Bytes)
    returns (d: Download)
    requires bounds.minBlockSize > 0 && bounds.maxBlockSize > 0 && knownSize == |source| > 0
    ensures fresh(d) && d.Valid() && d.Task() == JobFor(bounds, source, direct)
    ensures d.Now() == Initial(d.Task(), Min(concurrency, |d.pieces|))
    ensures |d.workers| == if concurrency < |d.pieces| then concurrency else |d.pieces|
  {
    var blockSize := ComputeBlockSize(bounds, knownSize);
    var pieces := PreparePieces(knownSize, blockSize);
    PreparedIsPlanned(source, blockSize, pieces, direct);
    d := new Download(pieces, direct, Min(concurrency, |pieces|), source);
    assert d.pieces == JobFor(bounds, source, direct).pieces;
  }
}

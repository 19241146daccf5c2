/** How far a download is from its end. */
module DownloadCosts {
  import opened DownloadEvents

  predicate IsOver(x: Worker) {
    x.Finished? || x.Threw?
  }

  /** The worker has thrown, or will throw as soon as it learns of its third failure. */
  predicate IsDoomed(x: Worker) {
    x.Threw? || (x.Settled? && !x.ok && x.a + 1 >= MAX_RETRIES)
  }

  ghost predicate IsAwaited(s: State, w: nat) {
    exists i :: 0 <= i < |s.queue| && s.queue[i].worker == w
  }

  /** Every worker that waits for a write has it in the queue. */
  ghost predicate AllAwaited(s: State) {
    forall w {:trigger IsAwaited(s, w)} :: 0 <= w < |s.workers| && s.workers[w].Queued? ==> IsAwaited(s, w)
  }

  /** A chunk without bytes changes nothing that counts; every other event does. */
  predicate IsIdle(e: Event) {
    e.ChunkArrives? && e.n == 0
  }

  /** An attempt at a piece has at most as many events as the piece has bytes, and eight more. */
  function AttemptCost(job: Job): nat {
    |job.source| + 8
  }

  /** The cost of the attempts that are left after `a` failures. */
  function AttemptsLeft(job: Job, a: nat): nat {
    if a == 0 then 3 * AttemptCost(job)
    else if a == 1 then 2 * AttemptCost(job)
    else if a == 2 then AttemptCost(job)
    else 0
  }

  function BytesLeft(job: Job, chunks: seq<Bytes>): nat {
    if |Concat(chunks)| <= |job.source| then |job.source| - |Concat(chunks)| else 0
  }

  /** The number of events that a worker may still have with its piece. */
  function Cost(job: Job, x: Worker): nat {
    match x
    case AtLoop => 1
    case Fetching(_, a) => AttemptsLeft(job, a) + |job.source| + 6
    case Reading(_, a, chunks) => AttemptsLeft(job, a) + BytesLeft(job, chunks) + 5
    case Queued(_, a) => AttemptsLeft(job, a) + 4
    case Settled(_, a, _) => AttemptsLeft(job, a) + 2
    case Waiting(_, a) => AttemptsLeft(job, a) + |job.source| + 7
    case Finished => 0
    case Threw(_) => 0
  }

  function TotalCost(job: Job, workers: seq<Worker>): nat {
    if workers == [] then 0 else TotalCost(job, workers[..|workers| - 1]) + Cost(job, workers[|workers| - 1])
  }

  function PieceCost(job: Job): nat {
    Cost(job, Fetching(0, 0))
  }

  function UnclaimedCost(job: Job, next: nat): nat {
    if next <= |job.pieces| then (|job.pieces| - next) * PieceCost(job) else 0
  }

  /** At most this many events are still to come. */
  ghost function Remaining(job: Job, s: State): nat {
    UnclaimedCost(job, s.nextPieceIndex) + TotalCost(job, s.workers) + if s.seeked then 0 else 1
  }

  /** What happens next to a worker when nothing fails. */
  ghost function NextEvent(job: Job, s: State, w: nat): Event
    requires IsPlanned(job) && w < |s.workers|
  {
    match s.workers[w]
    case Fetching(_, _) => FetchSettles(w, true)
    case Reading(p, _, chunks) =>
      if p < |job.pieces| && |Concat(chunks)| < |Range(job, p)| then ChunkArrives(w, |Range(job, p)| - |Concat(chunks)|)
      else ReadEnds(w)
    case Queued(_, _) => if s.seeked && s.queue != [] then WriteSettles(true, |s.queue[0].data|) else SeekSettles(true)
    case Settled(_, _, _) => Resumes(w)
    case Waiting(_, _) => TimerFires(w)
    case _ => Claim(w)
  }
}

/** A download always goes on until every worker has finished or thrown, and it ends. */
module DownloadProgress {
  import opened DownloadPlan
  import opened DownloadEvents
  import opened DownloadSafety
  import opened DownloadCosts

  // ---------------------------------------------------------------------------
  // Whoever waits is in the queue.

  lemma HeadKeepsAwaited(s: State, ok: bool, t: State)
    requires HeadIsWaited(s) && AllAwaited(s)
    requires t.workers == Dequeue(s, ok).workers && t.queue == s.queue[1..]
    ensures AllAwaited(t)
  {
    forall w | 0 <= w < |t.workers| && t.workers[w].Queued? ensures IsAwaited(t, w) {
      assert IsAwaited(s, w);
      var i :| 0 <= i < |s.queue| && s.queue[i].worker == w;
      assert i > 0 && t.queue[i - 1] == s.queue[i];
    }
  }

  lemma MoveKeepsAwaited(s: State, w: nat, x: Worker, t: State)
    requires w < |s.workers| && AllAwaited(s) && t.workers == s.workers[w := x] && s.queue <= t.queue
    requires x.Queued? ==> |t.queue| > |s.queue| && t.queue[|s.queue|].worker == w
    ensures AllAwaited(t)
  {
    forall v | 0 <= v < |t.workers| && t.workers[v].Queued? ensures IsAwaited(t, v) {
      if v == w {
        assert t.queue[|s.queue|].worker == v;
      } else {
        assert IsAwaited(s, v);
        var i :| 0 <= i < |s.queue| && s.queue[i].worker == v;
        assert t.queue[i].worker == v;
      }
    }
  }

  lemma StepKeepsAwaited(job: Job, s: State, e: Event)
    requires IsPlanned(job) && Enabled(job, s, e) && AllAwaited(s)
    ensures AllAwaited(Step(job, s, e))
  {
    var t := Step(job, s, e);
    match e
    case Claim(w) => MoveKeepsAwaited(s, w, t.workers[w], t);
    case FetchSettles(w, _) => MoveKeepsAwaited(s, w, t.workers[w], t);
    case ChunkArrives(w, _) => MoveKeepsAwaited(s, w, t.workers[w], t);
    case ReadBreaks(w) => MoveKeepsAwaited(s, w, t.workers[w], t);
    case ReadEnds(w) => MoveKeepsAwaited(s, w, t.workers[w], t);
    case SeekSettles(ok) =>
      if ok {
        forall w | 0 <= w < |t.workers| && t.workers[w].Queued? ensures IsAwaited(t, w) {
          assert IsAwaited(s, w);
        }
      } else {
        HeadKeepsAwaited(s, false, t);
      }
    case WriteSettles(ok, _) => HeadKeepsAwaited(s, ok, t);
    case Resumes(w) => MoveKeepsAwaited(s, w, t.workers[w], t);
    case TimerFires(w) => MoveKeepsAwaited(s, w, t.workers[w], t);
  }

  lemma {:induction false} RunKeepsAwaited(job: Job, s: State, events: seq<Event>, t: State)
    requires IsPlanned(job) && AllAwaited(s) && Runs(job, s, events, t)
    ensures AllAwaited(t)
    decreases |events|
  {
    if events != [] {
      StepKeepsAwaited(job, s, events[0]);
      RunKeepsAwaited(job, Step(job, s, events[0]), events[1..], t);
    }
  }

  lemma ReachedIsSound(job: Job, workerCount: nat, events: seq<Event>, t: State)
    requires IsPlanned(job) && Runs(job, Initial(job, workerCount), events, t)
    ensures Safe(job, t) && AllAwaited(t)
  {
    InitiallySafe(job, workerCount);
    RunKeeps(job, Initial(job, workerCount), events, t);
    RunKeepsAwaited(job, Initial(job, workerCount), events, t);
  }

  // ---------------------------------------------------------------------------
  // Something can always happen.

  lemma NextIsEnabled(job: Job, s: State, w: nat)
    requires IsPlanned(job) && Safe(job, s) && AllAwaited(s) && w < |s.workers| && !IsOver(s.workers[w])
    ensures Enabled(job, s, NextEvent(job, s, w)) && !IsIdle(NextEvent(job, s, w))
  {
    assert WorkerOk(job, s, w);
    var x := s.workers[w];
    if x.Queued? {
      assert IsAwaited(s, w) && WriteOk(job, s, 0);
    } else if x.Reading? {
      assert |Concat(x.chunks)| <= |Range(job, x.p)|;
    }
  }

  /** In a reachable state in which some worker has neither finished nor thrown, some event is possible. */
  lemma NeverStuck(job: Job, workerCount: nat, events: seq<Event>, t: State, w: nat)
    requires IsPlanned(job) && Runs(job, Initial(job, workerCount), events, t)
    requires w < |t.workers| && !IsOver(t.workers[w])
    ensures exists e :: Enabled(job, t, e) && !IsIdle(e)
  {
    ReachedIsSound(job, workerCount, events, t);
    NextIsEnabled(job, t, w);
  }

  // ---------------------------------------------------------------------------
  // Every run ends.

  lemma {:induction false} CostOfOther(job: Job, workers: seq<Worker>, w: nat, x: Worker)
    requires w < |workers|
    ensures TotalCost(job, workers[w := x]) + Cost(job, workers[w]) == TotalCost(job, workers) + Cost(job, x)
  {
    var last := |workers| - 1;
    if w < last {
      CostOfOther(job, workers[..last], w, x);
      assert workers[w := x][..last] == workers[..last][w := x];
    } else {
      assert workers[w := x][..last] == workers[..last];
    }
  }

  lemma ClaimCosts(job: Job, next: nat)
    requires next < |job.pieces|
    ensures UnclaimedCost(job, next) == UnclaimedCost(job, next + 1) + PieceCost(job)
  {
    var n := |job.pieces| - next - 1;
    assert (n + 1) * PieceCost(job) == n * PieceCost(job) + PieceCost(job);
  }

  /** After a failure less is left than at any point of the attempt. */
  lemma FailureCosts(job: Job, p: nat, a: nat)
    ensures Cost(job, AfterFailure(p, a)) < AttemptsLeft(job, a) + 2
  {
  }

  lemma ChunkCosts(job: Job, s: State, w: nat, n: nat)
    requires IsPlanned(job) && Enabled(job, s, ChunkArrives(w, n)) && n > 0
    ensures Cost(job, Step(job, s, ChunkArrives(w, n)).workers[w]) < Cost(job, s.workers[w])
  {
    var r, range := s.workers[w], Range(job, s.workers[w].p);
    var from := |Concat(r.chunks)|;
    ConcatSnoc(r.chunks, range[from..from + n]);
    assert |range| <= |job.source|;
  }

  lemma MoveComesCloser(job: Job, s: State, w: nat, t: State)
    requires w < |s.workers| == |t.workers| && t.workers == s.workers[w := t.workers[w]] && t.seeked == s.seeked
    requires UnclaimedCost(job, t.nextPieceIndex) + Cost(job, t.workers[w]) < UnclaimedCost(job, s.nextPieceIndex) + Cost(job, s.workers[w])
    ensures Remaining(job, t) < Remaining(job, s)
  {
    CostOfOther(job, s.workers, w, t.workers[w]);
  }

  lemma DequeueComesCloser(job: Job, s: State, ok: bool, t: State)
    requires HeadIsWaited(s) && t.workers == Dequeue(s, ok).workers && t.nextPieceIndex == s.nextPieceIndex
    ensures Remaining(job, t) < Remaining(job, s)
  {
    var w := s.queue[0].worker;
    CostOfOther(job, s.workers, w, t.workers[w]);
  }

  /** Every event that is not idle brings the download closer to its end. */
  lemma StepComesCloser(job: Job, s: State, e: Event)
    requires IsPlanned(job) && Enabled(job, s, e) && !IsIdle(e)
    ensures Remaining(job, Step(job, s, e)) < Remaining(job, s)
  {
    var t := Step(job, s, e);
    match e
    case Claim(w) =>
      if s.nextPieceIndex < |job.pieces| {
        ClaimCosts(job, s.nextPieceIndex);
      }
      MoveComesCloser(job, s, w, t);
    case FetchSettles(w, _) =>
      FailureCosts(job, s.workers[w].p, s.workers[w].a);
      MoveComesCloser(job, s, w, t);
    case ChunkArrives(w, n) =>
      ChunkCosts(job, s, w, n);
      MoveComesCloser(job, s, w, t);
    case ReadBreaks(w) =>
      FailureCosts(job, s.workers[w].p, s.workers[w].a);
      MoveComesCloser(job, s, w, t);
    case ReadEnds(w) => MoveComesCloser(job, s, w, t);
    case SeekSettles(ok) =>
      if !ok {
        DequeueComesCloser(job, s, false, t);
      }
    case WriteSettles(ok, _) => DequeueComesCloser(job, s, ok, t);
    case Resumes(w) =>
      FailureCosts(job, s.workers[w].p, s.workers[w].a);
      MoveComesCloser(job, s, w, t);
    case TimerFires(w) => MoveComesCloser(job, s, w, t);
  }

  lemma {:induction false} RunIsBounded(job: Job, s: State, events: seq<Event>, t: State)
    requires IsPlanned(job) && Runs(job, s, events, t) && forall i :: 0 <= i < |events| ==> !IsIdle(events[i])
    ensures |events| + Remaining(job, t) <= Remaining(job, s)
    decreases |events|
  {
    if events != [] {
      StepComesCloser(job, s, events[0]);
      RunIsBounded(job, Step(job, s, events[0]), events[1..], t);
    }
  }

  lemma {:induction false} CostAtStart(job: Job, n: nat)
    ensures TotalCost(job, seq(n, _ => AtLoop)) == n
  {
    if n > 0 {
      CostAtStart(job, n - 1);
      assert (seq(n, _ => AtLoop))[..n - 1] == seq(n - 1, _ => AtLoop);
    }
  }

  /** A download has only so many events, chunks without bytes aside. */
  lemma DownloadEnds(job: Job, workerCount: nat, events: seq<Event>, t: State)
    requires IsPlanned(job) && Runs(job, Initial(job, workerCount), events, t)
    requires forall i :: 0 <= i < |events| ==> !IsIdle(events[i])
    ensures |events| <= |job.pieces| * (4 * |job.source| + 30) + workerCount + 1
  {
    RunIsBounded(job, Initial(job, workerCount), events, t);
    CostAtStart(job, workerCount);
    assert PieceCost(job) == 4 * |job.source| + 30;
  }

  // ---------------------------------------------------------------------------
  // A download that can still succeed.

  ghost predicate NoneDoomed(s: State) {
    forall w :: 0 <= w < |s.workers| ==> !IsDoomed(s.workers[w])
  }

  ghost predicate AllFinished(s: State) {
    forall w :: 0 <= w < |s.workers| ==> s.workers[w].Finished?
  }

  ghost predicate CanComplete(job: Job, s: State)
    requires IsPlanned(job)
  {
    exists events, t :: Runs(job, s, events, t) && AllFinished(t)
  }

  lemma NextDoomsNone(job: Job, s: State, w: nat)
    requires IsPlanned(job) && w < |s.workers| && NoneDoomed(s) && Enabled(job, s, NextEvent(job, s, w))
    ensures NoneDoomed(Step(job, s, NextEvent(job, s, w)))
  {
    assert !IsDoomed(s.workers[w]);
  }

  lemma {:induction false} Completes(job: Job, s: State)
    requires IsPlanned(job) && Safe(job, s) && AllAwaited(s) && NoneDoomed(s)
    ensures CanComplete(job, s)
    decreases Remaining(job, s)
  {
    if AllFinished(s) {
      assert Runs(job, s, [], s);
    } else {
      var w :| 0 <= w < |s.workers| && !s.workers[w].Finished?;
      var e := NextEvent(job, s, w);
      NextIsEnabled(job, s, w);
      StepKeeps(job, s, e);
      StepKeepsAwaited(job, s, e);
      NextDoomsNone(job, s, w);
      StepComesCloser(job, s, e);
      Completes(job, Step(job, s, e));
      var events, t :| Runs(job, Step(job, s, e), events, t) && AllFinished(t);
      assert ([e] + events)[1..] == events && Runs(job, s, [e] + events, t);
    }
  }

  lemma {:induction false} DoomedStays(job: Job, s: State, events: seq<Event>, t: State, w: nat)
    requires IsPlanned(job) && Runs(job, s, events, t) && w < |s.workers| && IsDoomed(s.workers[w])
    ensures w < |t.workers| && IsDoomed(t.workers[w])
    decreases |events|
  {
    if events != [] {
      DoomedStays(job, Step(job, s, events[0]), events[1..], t, w);
    }
  }

  /** From a reachable state the download can still complete if and only if no worker has failed for the third time. */
  lemma CompletesUnlessDoomed(job: Job, workerCount: nat, events: seq<Event>, s: State)
    requires IsPlanned(job) && Runs(job, Initial(job, workerCount), events, s)
    ensures CanComplete(job, s) <==> NoneDoomed(s)
  {
    ReachedIsSound(job, workerCount, events, s);
    if NoneDoomed(s) {
      Completes(job, s);
    } else if CanComplete(job, s) {
      var w :| 0 <= w < |s.workers| && IsDoomed(s.workers[w]);
      var more, t :| Runs(job, s, more, t) && AllFinished(t);
      DoomedStays(job, s, more, t, w);
    }
  }

  /** For every file there is a run that delivers it. */
  lemma DownloadCanComplete(bounds: Bounds, concurrency: nat, source: Bytes, job: Job)
    requires bounds.minBlockSize > 0 && bounds.maxBlockSize > 0 && concurrency > 0 && source != []
    requires job == JobFor(bounds, source, job.direct)
    ensures exists events, t ::
              Runs(job, Initial(job, Min(concurrency, |job.pieces|)), events, t) && AllFinished(t) && Delivered(job, t) == source
  {
    var start := Initial(job, Min(concurrency, |job.pieces|));
    assert Runs(job, start, [], start);
    CompletesUnlessDoomed(job, Min(concurrency, |job.pieces|), [], start);
    var events, t :| Runs(job, start, events, t) && AllFinished(t);
    StartedDownloadIsComplete(bounds, concurrency, source, job, events, t);
  }

  // ---------------------------------------------------------------------------
  // Attempts.

  /** A failure of this worker: of its request, of its reading, or of its write, once it learns of that. */
  predicate Fails(s: State, e: Event, w: nat) {
    e == FetchSettles(w, false) || e == ReadBreaks(w)
    || (e == Resumes(w) && w < |s.workers| && s.workers[w].Settled? && !s.workers[w].ok)
  }

  /** How often the worker has failed with its present piece, after `n` failures before these events. */
  ghost function Failures(job: Job, s: State, events: seq<Event>, w: nat, n: nat): nat
    requires IsPlanned(job)
    decreases |events|
  {
    if events == [] || !Enabled(job, s, events[0]) then n
    else
      var n' := if events[0] == Claim(w) then 0 else if Fails(s, events[0], w) then n + 1 else n;
      Failures(job, Step(job, s, events[0]), events[1..], w, n')
  }

  /** A worker goes on after two failures and has thrown after three. */
  predicate CountsFailures(x: Worker, n: nat) {
    match x
    case AtLoop => true
    case Finished => true
    case Threw(_) => n == 3
    case Fetching(_, a) => a == n <= 2
    case Reading(_, a, _) => a == n <= 2
    case Queued(_, a) => a == n <= 2
    case Settled(_, a, _) => a == n <= 2
    case Waiting(_, a) => a == n <= 2
  }

  lemma {:induction false} FailuresAreCounted(job: Job, s: State, events: seq<Event>, t: State, w: nat, n: nat)
    requires IsPlanned(job) && Runs(job, s, events, t) && w < |s.workers| && CountsFailures(s.workers[w], n)
    ensures w < |t.workers| && CountsFailures(t.workers[w], Failures(job, s, events, w, n))
    decreases |events|
  {
    if events != [] {
      var e := events[0];
      var n' := if e == Claim(w) then 0 else if Fails(s, e, w) then n + 1 else n;
      FailureIsCounted(job, s, e, w, n);
      FailuresAreCounted(job, Step(job, s, e), events[1..], t, w, n');
    }
  }

  lemma FailureIsCounted(job: Job, s: State, e: Event, w: nat, n: nat)
    requires IsPlanned(job) && Enabled(job, s, e) && w < |s.workers| && CountsFailures(s.workers[w], n)
    ensures var n' := if e == Claim(w) then 0 else if Fails(s, e, w) then n + 1 else n;
            w < |Step(job, s, e).workers| && CountsFailures(Step(job, s, e).workers[w], n')
  {
  }

  /** In every run a worker gives a piece up at its third failure, and not before. */
  lemma GivesUpAtThirdFailure(job: Job, workerCount: nat, events: seq<Event>, t: State, w: nat)
    requires IsPlanned(job) && Runs(job, Initial(job, workerCount), events, t) && w < workerCount
    ensures w < |t.workers|
    ensures var x, n := t.workers[w], Failures(job, Initial(job, workerCount), events, w, 0);
            && (x.Threw? ==> n == 3)
            && (!x.AtLoop? && !x.Finished? && !x.Threw? ==> n <= 2)
  {
    FailuresAreCounted(job, Initial(job, workerCount), events, t, w, 0);
  }
}

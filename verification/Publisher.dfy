/** The background checkpoint publisher as a state machine: one producer thread, one worker thread, and the pool's
    FIFO queue between them. Each action is one step that no other thread can observe half done. */
module Publisher {
  import opened Options

  /** A submitted future. `Popped` is taken from the queue by a cancelling shutdown but not cancelled yet. */
  datatype JobState = Queued | Popped | Running | Succeeded | Failed | Cancelled
  {
    predicate Done() {
      Succeeded? || Failed? || Cancelled?
    }
  }

  datatype Job = Job(dir: nat, prev: Option<nat>, state: JobState)

  datatype Remover = ByWorker | ByCallback | BySubmit
  datatype Owner = InSubmit | OwnedBy(job: nat) | Orphan

  /** A retained directory: who is responsible for it, and who has removed it. */
  datatype Directory = Directory(owner: Owner, removedBy: seq<Remover>)

  /** Where the worker stands in `_publish` of a job. */
  datatype Worker =
    | Free
    | Waiting(job: nat)                // about to ask for the predecessor's result
    | Publishing(job: nat)             // inside `publish`
    | Cleaning(job: nat, ok: bool)     // about to remove the directory
    | Finishing(job: nat, ok: bool)    // directory removed, result not set yet

  /** Where the producer stands; it makes one call at a time. */
  datatype Producer =
    | Idle
    | SubmitCheck                              // the check at the start of submit
    | SubmitRetain
    | SubmitPool(dir: nat, prev: Option<nat>)  // retained, about to hand over to the pool
    | SubmitAppend(job: nat)                   // handed over, future not recorded yet
    | Check                                    // check, called directly or at the end of close
    | Drain                                    // shutdown, cancelling what is queued
    | DrainHolding(job: nat)                   // popped from the queue, about to be cancelled
    | DrainRemoving(job: nat)                  // cancelled, its callback about to remove the directory
    | Join(cancelled: bool)                    // shutdown, waiting for the worker

  datatype State = State(
    jobs: seq<Job>,
    queue: seq<nat>,
    futures: seq<nat>,
    dirs: seq<Directory>,
    closed: bool,
    joined: bool,        // some close has waited for the worker
    raised: bool,        // the producer's last call ended in an exception
    worker: Worker,
    producer: Producer,
    calls: seq<nat>,     // jobs for which `publish` was called, in order
    published: seq<nat>) // jobs for which `publish` succeeded, in order

  const INITIAL := State([], [], [], [], false, false, false, Free, Idle, [], [])

  datatype Action =
    | CallSubmit | CallCheck | CallClose(cancelPending: bool)
    | CheckStep
    | RetainFails | RetainWorks
    | PoolFails | PoolTakes | AppendFuture
    | DrainPop | DrainCancel | DrainRemove | Joined
    | Take | AskPrevious | PublishWorks | PublishFails | Clean | Finish

  function WithState(s: State, k: nat, state: JobState): seq<Job>
    requires k < |s.jobs|
  {
    s.jobs[k := s.jobs[k].(state := state)]
  }

  function Removed(s: State, d: nat, who: Remover): seq<Directory>
    requires d < |s.dirs|
  {
    s.dirs[d := s.dirs[d].(removedBy := s.dirs[d].removedBy + [who])]
  }

  /** The action can happen now. A worker that asks for the result of an unfinished predecessor is blocked. */
  predicate Enabled(s: State, a: Action) {
    match a
    case CallSubmit => s.producer.Idle?
    case CallCheck => s.producer.Idle?
    case CallClose(_) => s.producer.Idle?
    case CheckStep => (s.producer.SubmitCheck? || s.producer.Check?) && (s.futures != [] ==> s.futures[0] < |s.jobs|)
    case RetainFails => s.producer.SubmitRetain?
    case RetainWorks => s.producer.SubmitRetain?
    case PoolFails => s.producer.SubmitPool? && s.producer.dir < |s.dirs|
    case PoolTakes => s.producer.SubmitPool? && s.producer.dir < |s.dirs|
    case AppendFuture => s.producer.SubmitAppend?
    case DrainPop => s.producer.Drain? && (s.queue != [] ==> s.queue[0] < |s.jobs|)
    case DrainCancel => s.producer.DrainHolding? && s.producer.job < |s.jobs|
    case DrainRemove =>
      s.producer.DrainRemoving? && s.producer.job < |s.jobs| && s.jobs[s.producer.job].dir < |s.dirs|
    case Joined => s.producer.Join? && s.worker.Free? && s.queue == []
    case Take => s.worker.Free? && s.queue != [] && s.queue[0] < |s.jobs|
    case AskPrevious =>
      s.worker.Waiting? && s.worker.job < |s.jobs|
      && (s.jobs[s.worker.job].prev.Some? ==>
            s.jobs[s.worker.job].prev.value < |s.jobs| && s.jobs[s.jobs[s.worker.job].prev.value].state.Done())
    case PublishWorks => s.worker.Publishing?
    case PublishFails => s.worker.Publishing?
    case Clean => s.worker.Cleaning? && s.worker.job < |s.jobs| && s.jobs[s.worker.job].dir < |s.dirs|
    case Finish => s.worker.Finishing? && s.worker.job < |s.jobs|
  }

  function Last(xs: seq<nat>): Option<nat> {
    if xs == [] then None else Some(xs[|xs| - 1])
  }

  function Apply(s: State, a: Action): State
    requires Enabled(s, a)
  {
    match a
    case CallSubmit => if s.closed then s.(raised := true) else s.(producer := SubmitCheck, raised := false)
    case CallCheck => s.(producer := Check, raised := false)
    case CallClose(cancelPending) =>
      s.(closed := true, producer := if cancelPending then Drain else Join(false), raised := false)
    case CheckStep =>
      if s.futures != [] && s.jobs[s.futures[0]].state.Done() then
        if s.jobs[s.futures[0]].state.Succeeded? then s.(futures := s.futures[1..])
        else s.(producer := Idle, raised := true)
      else if s.producer.SubmitCheck? then s.(producer := SubmitRetain)
      else s.(producer := Idle)
    case RetainFails => s.(producer := Idle, raised := true)
    case RetainWorks =>
      s.(dirs := s.dirs + [Directory(InSubmit, [])], producer := SubmitPool(|s.dirs|, Last(s.futures)))
    case PoolFails =>
      var d := s.producer.dir;
      s.(dirs := Removed(s, d, BySubmit)[d := Directory(Orphan, s.dirs[d].removedBy + [BySubmit])],
         producer := Idle, raised := true)
    case PoolTakes =>
      var k, d := |s.jobs|, s.producer.dir;
      s.(jobs := s.jobs + [Job(d, s.producer.prev, Queued)], queue := s.queue + [k],
         dirs := s.dirs[d := s.dirs[d].(owner := OwnedBy(k))], producer := SubmitAppend(k))
    case AppendFuture => s.(futures := s.futures + [s.producer.job], producer := Idle)
    case DrainPop =>
      if s.queue == [] then s.(producer := Join(true))
      else s.(jobs := WithState(s, s.queue[0], Popped), queue := s.queue[1..], producer := DrainHolding(s.queue[0]))
    case DrainCancel =>
      var k := s.producer.job;
      s.(jobs := WithState(s, k, Cancelled), producer := DrainRemoving(k))
    case DrainRemove => s.(dirs := Removed(s, s.jobs[s.producer.job].dir, ByCallback), producer := Drain)
    case Joined => s.(joined := true, producer := if s.producer.cancelled then Idle else Check)
    case Take =>
      s.(jobs := WithState(s, s.queue[0], Running), queue := s.queue[1..], worker := Waiting(s.queue[0]))
    case AskPrevious =>
      var k := s.worker.job;
      var prev := s.jobs[k].prev;
      if prev.None? || s.jobs[prev.value].state.Succeeded?
      then s.(worker := Publishing(k), calls := s.calls + [k])
      else s.(worker := Cleaning(k, false))
    case PublishWorks => s.(worker := Cleaning(s.worker.job, true), published := s.published + [s.worker.job])
    case PublishFails => s.(worker := Cleaning(s.worker.job, false))
    case Clean =>
      s.(dirs := Removed(s, s.jobs[s.worker.job].dir, ByWorker), worker := Finishing(s.worker.job, s.worker.ok))
    case Finish =>
      s.(jobs := WithState(s, s.worker.job, if s.worker.ok then Succeeded else Failed), worker := Free)
  }

  // ---- invariants ----

  predicate Holds(w: Worker, k: nat) {
    !w.Free? && w.job == k
  }

  /** The worker has published `k` and has still to set its result. */
  predicate Closing(w: Worker, k: nat) {
    (w.Cleaning? || w.Finishing?) && w.ok && w.job == k
  }

  /** The queue holds exactly the last jobs, in order. */
  ghost predicate QueueInv(s: State) {
    |s.queue| <= |s.jobs|
    && (forall i :: 0 <= i < |s.queue| ==> s.queue[i] == |s.jobs| - |s.queue| + i)
    && (forall k :: 0 <= k < |s.jobs| ==> (s.jobs[k].state.Queued? <==> k >= |s.jobs| - |s.queue|))
  }

  /** What is neither queued nor done is in the worker's hands or in those of a cancelling shutdown. */
  ghost predicate HandsInv(s: State) {
    (!s.worker.Free? ==> s.worker.job < |s.jobs|)
    && (s.producer.DrainHolding? ==> s.producer.job < |s.jobs|)
    && (s.producer.DrainRemoving? ==> s.producer.job < |s.jobs| && s.jobs[s.producer.job].state.Cancelled?)
    && (forall k :: 0 <= k < |s.jobs| ==>
          (s.jobs[k].state.Running? <==> Holds(s.worker, k))
          && (s.jobs[k].state.Popped? <==> s.producer == DrainHolding(k)))
  }

  /** Recorded futures: the last jobs, in order; all before them have succeeded. */
  ghost predicate FuturesInv(s: State) {
    var n := if s.producer.SubmitAppend? then |s.jobs| - 1 else |s.jobs|;
    (s.producer.SubmitAppend? ==> s.producer.job == |s.jobs| - 1)
    && |s.futures| <= n
    && (forall i :: 0 <= i < |s.futures| ==> s.futures[i] == n - |s.futures| + i)
    && (forall k :: 0 <= k < n - |s.futures| ==> s.jobs[k].state.Succeeded?)
  }

  ghost predicate AllSucceeded(s: State, n: nat) {
    n <= |s.jobs| && forall k :: 0 <= k < n ==> s.jobs[k].state.Succeeded?
  }

  /** A job is chained to the one submitted just before it, unless all before it have succeeded. */
  ghost predicate ChainInv(s: State) {
    (forall k :: 0 <= k < |s.jobs| ==> Chained(s, k, s.jobs[k].prev))
    && (s.producer.SubmitPool? ==> Chained(s, |s.jobs|, s.producer.prev))
  }

  ghost predicate Chained(s: State, k: nat, prev: Option<nat>) {
    if prev.Some? then k >= 1 && prev.value == k - 1 else AllSucceeded(s, k)
  }

  /** `publish` was called for the first jobs in order, and succeeded for all of them or all but the last. */
  ghost predicate CallsInv(s: State) {
    |s.calls| <= |s.jobs|
    && (forall i :: 0 <= i < |s.calls| ==> s.calls[i] == i)
    && |s.calls| - 1 <= |s.published| <= |s.calls|
    && (forall i :: 0 <= i < |s.published| ==> s.published[i] == i)
    && (forall k :: 0 <= k < |s.jobs| ==>
          (s.jobs[k].state.Succeeded? <==> k < |s.published| && !Closing(s.worker, k)))
    && (s.worker.Publishing? ==> s.worker.job == |s.published| == |s.calls| - 1)
    && ((s.worker.Cleaning? || s.worker.Finishing?) && s.worker.ok ==>
          s.worker.job == |s.published| - 1 == |s.calls| - 1)
    && (s.worker.Waiting? ==> s.worker.job >= |s.calls|)
    && (|s.published| < |s.calls| ==>
          s.jobs[|s.published|].state.Failed? || Holds(s.worker, |s.published|))
  }

  /** Every directory has one owner, and has been removed at most once: by the worker when its job finished, by the
      callback when it was cancelled, by submit when the pool refused it. */
  ghost predicate DirsInv(s: State) {
    JobsOwnDirs(s) && OwnersKnown(s) && (s.producer.SubmitPool? ==> SubmitOwns(s, s.producer.dir))
  }

  ghost predicate JobsOwnDirs(s: State) {
    forall k :: 0 <= k < |s.jobs| ==> OwnsDir(s, k)
  }

  ghost predicate OwnsDir(s: State, k: nat)
    requires k < |s.jobs|
  {
    var d := s.jobs[k].dir;
    d < |s.dirs| && s.dirs[d] == Directory(OwnedBy(k), RemovedByNow(s, k))
  }

  ghost predicate OwnersKnown(s: State) {
    forall d :: 0 <= d < |s.dirs| ==> KnownOwner(s, d)
  }

  ghost predicate KnownOwner(s: State, d: nat)
    requires d < |s.dirs|
  {
    match s.dirs[d].owner
    case InSubmit => s.producer.SubmitPool? && s.producer.dir == d
    case OwnedBy(k) => k < |s.jobs| && s.jobs[k].dir == d
    case Orphan => s.dirs[d].removedBy == [BySubmit]
  }

  ghost predicate SubmitOwns(s: State, d: nat) {
    d < |s.dirs| && s.dirs[d] == Directory(InSubmit, [])
  }

  function RemovedByNow(s: State, k: nat): seq<Remover>
    requires k < |s.jobs|
  {
    if s.jobs[k].state.Cancelled? then if s.producer == DrainRemoving(k) then [] else [ByCallback]
    else if s.jobs[k].state.Done() || (s.worker.Finishing? && s.worker.job == k) then [ByWorker]
    else []
  }

  predicate Submitting(p: Producer) {
    p.SubmitCheck? || p.SubmitRetain? || p.SubmitPool? || p.SubmitAppend?
  }

  /** A cancelling shutdown has a job in hand. */
  predicate InHand(p: Producer) {
    p.DrainHolding? || p.DrainRemoving?
  }

  predicate Draining(p: Producer) {
    p.Drain? || InHand(p)
  }

  /** Once closed nothing is submitted, and once a close has waited for the worker everything is done. */
  ghost predicate CloseInv(s: State) {
    (Submitting(s.producer) ==> !s.closed)
    && (Draining(s.producer) || s.producer.Join? ==> s.closed)
    && (s.joined ==> s.closed && s.queue == [] && s.worker.Free? && !InHand(s.producer))
    && (s.producer == Join(true) ==> s.queue == [])
  }

  ghost predicate Inv(s: State) {
    QueueInv(s) && HandsInv(s) && FuturesInv(s) && ChainInv(s) && CallsInv(s) && DirsInv(s) && CloseInv(s)
  }

  lemma InitialInv()
    ensures Inv(INITIAL)
  {
  }

  /** Actions of the worker thread; the others are the producer's. */
  predicate OfWorker(a: Action) {
    a.Take? || a.AskPrevious? || a.PublishWorks? || a.PublishFails? || a.Clean? || a.Finish?
  }

  lemma WorkerKeepsQueue(s: State, a: Action)
    requires Inv(s) && Enabled(s, a) && OfWorker(a)
    ensures QueueInv(Apply(s, a))
  {
    hide ChainInv, CallsInv, DirsInv, FuturesInv;
  }

  lemma ProducerKeepsQueue(s: State, a: Action)
    requires Inv(s) && Enabled(s, a) && !OfWorker(a)
    ensures QueueInv(Apply(s, a))
  {
    hide ChainInv, CallsInv, DirsInv, FuturesInv, CloseInv, HandsInv;
    if a.PoolTakes? || a.DrainPop? {
      EndsKeepQueue(s, a);
    } else if a.DrainCancel? {
      CancelKeepsQueue(s);
    } else {
      hide QueueInv;
      SameJobsKeepQueue(s, Apply(s, a));
    }
  }

  lemma SameJobsKeepQueue(s: State, t: State)
    requires QueueInv(s) && t.jobs == s.jobs && t.queue == s.queue
    ensures QueueInv(t)
  {
  }

  /** A job joins the queue at its end, or leaves it at its head. */
  lemma EndsKeepQueue(s: State, a: Action)
    requires QueueInv(s) && Enabled(s, a) && (a.PoolTakes? || a.DrainPop?)
    ensures QueueInv(Apply(s, a))
  {
  }

  lemma CancelKeepsQueue(s: State)
    requires QueueInv(s) && HandsInv(s) && Enabled(s, DrainCancel)
    ensures QueueInv(Apply(s, DrainCancel))
  {
    assert s.jobs[s.producer.job].state.Popped?;
  }

  lemma WorkerKeepsHands(s: State, a: Action)
    requires Inv(s) && Enabled(s, a) && OfWorker(a)
    ensures HandsInv(Apply(s, a))
  {
    hide ChainInv, CallsInv, DirsInv, FuturesInv;
  }

  lemma ProducerKeepsHands(s: State, a: Action)
    requires Inv(s) && Enabled(s, a) && !OfWorker(a)
    ensures HandsInv(Apply(s, a))
  {
    hide ChainInv, CallsInv, DirsInv, FuturesInv, CloseInv;
    if a.PoolTakes? || a.DrainPop? || a.DrainCancel? {
      JobKeepsHands(s, a);
    } else {
      hide QueueInv, HandsInv;
      SameJobsKeepHands(s, Apply(s, a));
    }
  }

  lemma SameJobsKeepHands(s: State, t: State)
    requires HandsInv(s) && t.jobs == s.jobs && t.worker == s.worker
    requires !s.producer.DrainHolding? && !InHand(t.producer)
    ensures HandsInv(t)
  {
  }

  lemma JobKeepsHands(s: State, a: Action)
    requires QueueInv(s) && HandsInv(s) && Enabled(s, a) && (a.PoolTakes? || a.DrainPop? || a.DrainCancel?)
    ensures HandsInv(Apply(s, a))
  {
  }

  /** The jobs stay, with their predecessors, and what has succeeded stays so. */
  predicate Progresses(s: State, t: State) {
    |s.jobs| == |t.jobs|
    && forall k :: 0 <= k < |s.jobs| ==>
         t.jobs[k].prev == s.jobs[k].prev && (s.jobs[k].state.Succeeded? ==> t.jobs[k].state.Succeeded?)
  }

  lemma StepProgresses(s: State, a: Action)
    requires Inv(s) && Enabled(s, a) && !a.PoolTakes?
    ensures Progresses(s, Apply(s, a))
  {
    hide ChainInv, CallsInv, DirsInv, FuturesInv, CloseInv;
  }

  lemma ProgressKeepsFutures(s: State, t: State)
    requires FuturesInv(s) && Progresses(s, t) && t.futures == s.futures
    requires (t.producer.SubmitAppend? || s.producer.SubmitAppend?) ==> t.producer == s.producer
    ensures FuturesInv(t)
  {
  }

  lemma StepKeepsFutures(s: State, a: Action)
    requires Inv(s) && Enabled(s, a)
    ensures FuturesInv(Apply(s, a))
  {
    hide ChainInv, CallsInv, DirsInv, QueueInv, HandsInv, CloseInv;
    if a.CheckStep? {
      hide Progresses;
      CheckKeepsFutures(s);
    } else if !(a.PoolTakes? || a.AppendFuture?) {
      hide FuturesInv, Progresses;
      StepProgresses(s, a);
      ProgressKeepsFutures(s, Apply(s, a));
    }
  }

  lemma CheckKeepsFutures(s: State)
    requires FuturesInv(s) && Enabled(s, CheckStep)
    ensures FuturesInv(Apply(s, CheckStep))
  {
    var t := Apply(s, CheckStep);
    assert |t.futures| < |s.futures| ==> s.jobs[s.futures[0]].state.Succeeded?;
  }

  lemma ProgressKeepsChain(s: State, t: State)
    requires ChainInv(s) && Progresses(s, t) && (t.producer.SubmitPool? ==> t.producer == s.producer)
    ensures ChainInv(t)
  {
    forall k | 0 <= k < |t.jobs| ensures Chained(t, k, t.jobs[k].prev) {
      assert Chained(s, k, s.jobs[k].prev);
    }
  }

  lemma StepKeepsChain(s: State, a: Action)
    requires Inv(s) && Enabled(s, a)
    ensures ChainInv(Apply(s, a))
  {
    hide CallsInv, DirsInv, QueueInv, HandsInv, CloseInv, Progresses, ChainInv, FuturesInv;
    if a.RetainWorks? || a.PoolTakes? {
      SubmitKeepsChain(s, a);
    } else {
      StepProgresses(s, a);
      ProgressKeepsChain(s, Apply(s, a));
    }
  }

  lemma SubmitKeepsChain(s: State, a: Action)
    requires ChainInv(s) && FuturesInv(s) && Enabled(s, a) && (a.RetainWorks? || a.PoolTakes?)
    ensures ChainInv(Apply(s, a))
  {
    var t := Apply(s, a);
    forall k | 0 <= k < |t.jobs| ensures Chained(t, k, t.jobs[k].prev) {
      assert k < |s.jobs| ==> Chained(s, k, s.jobs[k].prev);
    }
  }

  lemma WorkerKeepsCalls(s: State, a: Action)
    requires Inv(s) && Enabled(s, a) && OfWorker(a) && !a.AskPrevious?
    ensures CallsInv(Apply(s, a))
  {
    hide DirsInv, FuturesInv, ChainInv;
  }

  /** `publish` is called only when everything submitted earlier has been published. */
  lemma AskKeepsCalls(s: State)
    requires Inv(s) && Enabled(s, AskPrevious)
    ensures CallsInv(Apply(s, AskPrevious))
    ensures Apply(s, AskPrevious).worker.Publishing? ==> AllSucceeded(s, s.worker.job) && |s.calls| == s.worker.job
  {
    hide DirsInv, FuturesInv, CloseInv, QueueInv, HandsInv, CallsInv;
    var k := s.worker.job;
    assert Chained(s, k, s.jobs[k].prev);
    hide ChainInv;
    if Apply(s, AskPrevious).worker.Publishing? {
      hide Chained, AllSucceeded;
      NextToPublish(s, k);
      CallsGrow(s, Apply(s, AskPrevious));
    } else {
      CallsStop(s, Apply(s, AskPrevious));
    }
  }

  /** A job whose predecessor has succeeded, or that has none, is the next one to publish. */
  lemma NextToPublish(s: State, k: nat)
    requires CallsInv(s) && HandsInv(s) && s.worker == Waiting(k) && k < |s.jobs| && Chained(s, k, s.jobs[k].prev)
    requires s.jobs[k].prev.None? || s.jobs[s.jobs[k].prev.value].state.Succeeded?
    ensures AllSucceeded(s, k) && |s.calls| == |s.published| == k
  {
    if s.jobs[k].prev.Some? {
      assert s.jobs[k - 1].state.Succeeded?;
    } else if k > 0 {
      assert s.jobs[k - 1].state.Succeeded?;
    }
    assert !s.jobs[k].state.Failed?;
  }

  lemma CallsGrow(s: State, t: State)
    requires CallsInv(s) && s.worker == Waiting(|s.calls|) && |s.published| == |s.calls| < |s.jobs|
    requires t.jobs == s.jobs && t.published == s.published
    requires t.worker == Publishing(|s.calls|) && t.calls == s.calls + [|s.calls|]
    ensures CallsInv(t)
  {
  }

  lemma CallsStop(s: State, t: State)
    requires CallsInv(s) && HandsInv(s) && s.worker.Waiting? && t.worker == Cleaning(s.worker.job, false)
    requires t.jobs == s.jobs && t.published == s.published && t.calls == s.calls
    ensures CallsInv(t)
  {
  }

  lemma ProducerKeepsCalls(s: State, a: Action)
    requires Inv(s) && Enabled(s, a) && !OfWorker(a)
    ensures CallsInv(Apply(s, a))
  {
    if a.PoolTakes? {
      AppendKeepsCalls(s, Apply(s, a));
    } else if a.DrainPop? || a.DrainCancel? {
      DrainKeepsCalls(s, a);
    } else {
      hide CallsInv;
      SameJobsKeepCalls(s, Apply(s, a));
    }
  }

  predicate SameCalls(s: State, t: State) {
    t.calls == s.calls && t.published == s.published && t.worker == s.worker
  }

  lemma SameJobsKeepCalls(s: State, t: State)
    requires CallsInv(s) && SameCalls(s, t) && t.jobs == s.jobs
    ensures CallsInv(t)
  {
  }

  lemma AppendKeepsCalls(s: State, t: State)
    requires CallsInv(s) && SameCalls(s, t) && |t.jobs| == |s.jobs| + 1
    requires t.jobs[..|s.jobs|] == s.jobs && t.jobs[|s.jobs|].state.Queued?
    requires !s.worker.Free? ==> s.worker.job < |s.jobs|
    ensures CallsInv(t)
  {
    assert forall k :: 0 <= k < |s.jobs| ==> t.jobs[k] == s.jobs[k];
  }

  lemma DrainKeepsCalls(s: State, a: Action)
    requires Inv(s) && Enabled(s, a) && (a.DrainPop? || a.DrainCancel?)
    ensures CallsInv(Apply(s, a))
  {
    hide DirsInv, FuturesInv, ChainInv, CloseInv, CallsInv;
    if a.DrainCancel? {
      RelabelKeepsCalls(s, Apply(s, a), s.producer.job, Cancelled);
    } else if s.queue == [] {
      SameJobsKeepCalls(s, Apply(s, a));
    } else {
      RelabelKeepsCalls(s, Apply(s, a), s.queue[0], Popped);
    }
  }

  lemma RelabelKeepsCalls(s: State, t: State, k: nat, state: JobState)
    requires CallsInv(s) && SameCalls(s, t) && k < |s.jobs| && t.jobs == WithState(s, k, state)
    requires !state.Succeeded? && !s.jobs[k].state.Done()
    ensures CallsInv(t)
  {
  }

  lemma WorkerKeepsClose(s: State, a: Action)
    requires Inv(s) && Enabled(s, a) && OfWorker(a)
    ensures CloseInv(Apply(s, a))
  {
    hide ChainInv, CallsInv, DirsInv, FuturesInv;
  }

  lemma ProducerKeepsClose(s: State, a: Action)
    requires Inv(s) && Enabled(s, a) && !OfWorker(a)
    ensures CloseInv(Apply(s, a))
  {
    hide ChainInv, CallsInv, DirsInv, FuturesInv;
  }

  /** Two states agree on everything the directories depend on. */
  ghost predicate SameDirs(s: State, t: State) {
    t.dirs == s.dirs && |t.jobs| == |s.jobs|
    && (forall k :: 0 <= k < |s.jobs| ==> t.jobs[k].dir == s.jobs[k].dir && RemovedByNow(t, k) == RemovedByNow(s, k))
    && (s.producer.SubmitPool? || t.producer.SubmitPool? ==> t.producer == s.producer)
  }

  lemma SameDirsKeep(s: State, t: State)
    requires DirsInv(s) && SameDirs(s, t)
    ensures DirsInv(t)
  {
    forall k | 0 <= k < |t.jobs| ensures OwnsDir(t, k) {
      assert OwnsDir(s, k);
    }
    forall d | 0 <= d < |t.dirs| ensures KnownOwner(t, d) {
      assert KnownOwner(s, d);
    }
  }

  lemma WorkerSameDirs(s: State, a: Action)
    requires Inv(s) && Enabled(s, a) && OfWorker(a) && !a.Clean?
    ensures SameDirs(s, Apply(s, a))
  {
    hide ChainInv, CallsInv, FuturesInv, CloseInv, DirsInv;
  }

  lemma ProducerSameDirs(s: State, a: Action)
    requires Inv(s) && Enabled(s, a) && !OfWorker(a)
    requires !(a.RetainWorks? || a.PoolFails? || a.PoolTakes? || a.DrainRemove?)
    ensures SameDirs(s, Apply(s, a))
  {
    hide ChainInv, CallsInv, FuturesInv, CloseInv, DirsInv, QueueInv, HandsInv, RemovedByNow;
    if a.DrainPop? {
      PopSameDirs(s);
    } else if a.DrainCancel? {
      CancelSameDirs(s);
    } else {
      SameJobsSameDirs(s, Apply(s, a));
    }
  }

  lemma SameJobsSameDirs(s: State, t: State)
    requires t.jobs == s.jobs && t.dirs == s.dirs && t.worker == s.worker
    requires !s.producer.DrainRemoving? && !t.producer.DrainRemoving?
    requires !s.producer.SubmitPool? && !t.producer.SubmitPool?
    ensures SameDirs(s, t)
  {
  }

  lemma CancelSameDirs(s: State)
    requires HandsInv(s) && Enabled(s, DrainCancel)
    ensures SameDirs(s, Apply(s, DrainCancel))
  {
  }

  lemma PopSameDirs(s: State)
    requires QueueInv(s) && HandsInv(s) && Enabled(s, DrainPop)
    ensures SameDirs(s, Apply(s, DrainPop))
  {
  }

  lemma RetainKeepsDirs(s: State)
    requires Inv(s) && Enabled(s, RetainWorks)
    ensures DirsInv(Apply(s, RetainWorks))
  {
    hide ChainInv, CallsInv, FuturesInv, CloseInv, QueueInv, HandsInv;
    var t := Apply(s, RetainWorks);
    forall k | 0 <= k < |t.jobs| ensures OwnsDir(t, k) {
      assert OwnsDir(s, k);
    }
    forall d | 0 <= d < |t.dirs| ensures KnownOwner(t, d) {
      assert d < |s.dirs| ==> KnownOwner(s, d);
    }
  }

  lemma PoolKeepsDirs(s: State, a: Action)
    requires Inv(s) && Enabled(s, a) && (a.PoolFails? || a.PoolTakes?)
    ensures DirsInv(Apply(s, a))
  {
    hide ChainInv, CallsInv, FuturesInv, CloseInv, QueueInv;
    var t := Apply(s, a);
    forall k | 0 <= k < |t.jobs| ensures OwnsDir(t, k) {
      assert k < |s.jobs| ==> OwnsDir(s, k);
    }
    forall d | 0 <= d < |t.dirs| ensures KnownOwner(t, d) {
      assert KnownOwner(s, d);
    }
  }

  /** One removal, of the directory of the job in hand. */
  lemma RemovalKeepsDirs(s: State, a: Action)
    requires Inv(s) && Enabled(s, a) && (a.DrainRemove? || a.Clean?)
    ensures DirsInv(Apply(s, a))
  {
    hide ChainInv, CallsInv, FuturesInv, CloseInv, QueueInv;
    var t := Apply(s, a);
    var held := if a.Clean? then s.worker.job else s.producer.job;
    assert OwnsDir(s, held);
    forall k | 0 <= k < |t.jobs| ensures OwnsDir(t, k) {
      assert OwnsDir(s, k);
    }
    forall d | 0 <= d < |t.dirs| ensures KnownOwner(t, d) {
      assert KnownOwner(s, d);
    }
  }

  lemma StepDirs(s: State, a: Action)
    requires Inv(s) && Enabled(s, a)
    ensures DirsInv(Apply(s, a))
  {
    hide Apply, Enabled, DirsInv, SameDirs, QueueInv, HandsInv, FuturesInv, ChainInv, CallsInv, CloseInv;
    if a.RetainWorks? {
      RetainKeepsDirs(s);
    } else if a.PoolFails? || a.PoolTakes? {
      PoolKeepsDirs(s, a);
    } else if a.DrainRemove? || a.Clean? {
      RemovalKeepsDirs(s, a);
    } else {
      if OfWorker(a) {
        WorkerSameDirs(s, a);
      } else {
        ProducerSameDirs(s, a);
      }
      SameDirsKeep(s, Apply(s, a));
    }
  }

  /** Every action keeps the invariant. */
  lemma StepInv(s: State, a: Action)
    requires Inv(s) && Enabled(s, a)
    ensures Inv(Apply(s, a))
  {
    hide Apply, Enabled, QueueInv, HandsInv, FuturesInv, ChainInv, CallsInv, DirsInv, CloseInv;
    StepDirs(s, a);
    StepKeepsFutures(s, a);
    StepKeepsChain(s, a);
    if OfWorker(a) {
      WorkerKeepsQueue(s, a);
      WorkerKeepsHands(s, a);
      WorkerKeepsClose(s, a);
      if a.AskPrevious? {
        AskKeepsCalls(s);
      } else {
        WorkerKeepsCalls(s, a);
      }
    } else {
      ProducerKeepsQueue(s, a);
      ProducerKeepsHands(s, a);
      ProducerKeepsCalls(s, a);
      ProducerKeepsClose(s, a);
    }
  }

  // ---- every run ----

  /** The actions can happen in this order. */
  ghost predicate Possible(s: State, actions: seq<Action>)
    decreases |actions|
  {
    actions == [] || (Enabled(s, actions[0]) && Possible(Apply(s, actions[0]), actions[1..]))
  }

  ghost function Run(s: State, actions: seq<Action>): State
    requires Possible(s, actions)
    decreases |actions|
  {
    if actions == [] then s else Run(Apply(s, actions[0]), actions[1..])
  }

  lemma {:induction false} RunInv(s: State, actions: seq<Action>)
    requires Inv(s) && Possible(s, actions)
    ensures Inv(Run(s, actions))
    decreases |actions|
  {
    hide Inv, Apply, Enabled;
    if actions != [] {
      StepInv(s, actions[0]);
      RunInv(Apply(s, actions[0]), actions[1..]);
    }
  }

  ghost predicate Reachable(s: State) {
    exists actions :: Possible(INITIAL, actions) && s == Run(INITIAL, actions)
  }

  lemma ReachableInv(s: State)
    requires Reachable(s)
    ensures Inv(s)
  {
    hide Inv;
    InitialInv();
    var actions :| Possible(INITIAL, actions) && s == Run(INITIAL, actions);
    RunInv(INITIAL, actions);
  }

  /** The submitted checkpoints that were published are a prefix of the submissions, published in submission order;
      `publish` is called at most once more, for the next one, and after it failed for none. */
  lemma PublishedIsPrefix(s: State)
    requires Reachable(s)
    ensures |s.published| <= |s.calls| <= |s.published| + 1 && |s.calls| <= |s.jobs|
    ensures forall i :: 0 <= i < |s.calls| ==> s.calls[i] == i
    ensures forall i :: 0 <= i < |s.published| ==> s.published[i] == i
    ensures forall k :: 0 <= k < |s.jobs| && s.jobs[k].state.Succeeded? ==> k in s.published
  {
    ReachableInv(s);
    forall k | 0 <= k < |s.jobs| && s.jobs[k].state.Succeeded? ensures k in s.published {
      assert s.published[k] == k;
    }
  }

  /** `publish` has returned with a failure for some submission. */
  ghost predicate PublishFailed(s: State) {
    |s.published| < |s.calls| && !s.worker.Publishing?
  }

  /** Once a publish has failed, `publish` is not called again: not for later submissions, and not for those that were
      queued before anybody saw the failure. */
  lemma {:induction false} NoCallAfterFailure(s: State, actions: seq<Action>)
    requires Inv(s) && PublishFailed(s) && Possible(s, actions)
    ensures Run(s, actions).calls == s.calls && Run(s, actions).published == s.published
    decreases |actions|
  {
    hide Possible, Run;
    if actions == [] {
      RunNothing(s);
    } else {
      RunStep(s, actions);
      FailureStays(s, actions[0]);
      NoCallAfterFailure(Apply(s, actions[0]), actions[1..]);
    }
  }

  lemma RunNothing(s: State)
    ensures Possible(s, []) && Run(s, []) == s
  {
  }

  lemma RunStep(s: State, actions: seq<Action>)
    requires actions != [] && Possible(s, actions)
    ensures Enabled(s, actions[0]) && Possible(Apply(s, actions[0]), actions[1..])
    ensures Run(s, actions) == Run(Apply(s, actions[0]), actions[1..])
  {
    hide Enabled, Apply;
  }

  lemma FailureStays(s: State, a: Action)
    requires Inv(s) && PublishFailed(s) && Enabled(s, a)
    ensures Inv(Apply(s, a)) && PublishFailed(Apply(s, a))
    ensures Apply(s, a).calls == s.calls && Apply(s, a).published == s.published
  {
    hide Inv;
    StepInv(s, a);
    if a.AskPrevious? {
      hide Apply, Enabled;
      AskAfterFailure(s);
    }
  }

  lemma AskAfterFailure(s: State)
    requires Inv(s) && PublishFailed(s) && Enabled(s, AskPrevious)
    ensures !Apply(s, AskPrevious).worker.Publishing?
    ensures Apply(s, AskPrevious).calls == s.calls && Apply(s, AskPrevious).published == s.published
  {
    hide QueueInv, FuturesInv, ChainInv, DirsInv, CloseInv;
    AskKeepsCalls(s);
    FailedIsNotSucceeded(s);
  }

  /** The job whose publish failed blocks the condition under which the next one is published. */
  lemma FailedIsNotSucceeded(s: State)
    requires Inv(s) && PublishFailed(s)
    ensures forall n :: |s.calls| <= n ==> !AllSucceeded(s, n)
  {
    hide DirsInv, ChainInv, FuturesInv, QueueInv, CloseInv;
    assert !s.jobs[|s.published|].state.Succeeded?;
  }

  /** A retained directory is removed at most once, by one party, and never while `publish` is using it. That of a job
      that is done has been removed, but for the moment between a job's cancellation and its callback. */
  lemma DirectoriesRemovedOnce(s: State, d: nat)
    requires Reachable(s) && d < |s.dirs|
    ensures |s.dirs[d].removedBy| <= 1
    ensures s.worker.Publishing? && s.worker.job < |s.jobs| && s.jobs[s.worker.job].dir == d ==>
              s.dirs[d].removedBy == []
    ensures s.dirs[d].owner.OwnedBy? ==>
              var k := s.dirs[d].owner.job;
              && k < |s.jobs| && s.jobs[k].dir == d
              && (s.dirs[d].removedBy == [ByCallback]
                  <==> s.jobs[k].state.Cancelled? && s.producer != DrainRemoving(k))
              && (s.jobs[k].state.Done() && s.producer != DrainRemoving(k) ==> |s.dirs[d].removedBy| == 1)
  {
    ReachableInv(s);
    hide ChainInv, CallsInv, FuturesInv, QueueInv, CloseInv;
    assert KnownOwner(s, d);
    if s.dirs[d].owner.OwnedBy? {
      assert OwnsDir(s, s.dirs[d].owner.job);
    }
    if s.worker.Publishing? && s.worker.job < |s.jobs| {
      assert OwnsDir(s, s.worker.job);
    }
  }

  /** When a close has returned, cancelling or not, every retained directory has been removed exactly once, and every
      job is done. */
  lemma NothingLeftAfterClose(s: State)
    requires Reachable(s) && s.joined
    ensures forall k :: 0 <= k < |s.jobs| ==> s.jobs[k].state.Done()
    ensures forall d :: 0 <= d < |s.dirs| ==> |s.dirs[d].removedBy| == 1
  {
    ReachableInv(s);
    AllDone(s);
    forall d | 0 <= d < |s.dirs| ensures |s.dirs[d].removedBy| == 1 {
      DirectoriesRemovedOnce(s, d);
      assert KnownOwner(s, d);
    }
  }

  lemma AllDone(s: State)
    requires Inv(s) && s.joined
    ensures forall k :: 0 <= k < |s.jobs| ==> s.jobs[k].state.Done()
    ensures !s.producer.SubmitPool?
  {
    hide ChainInv, CallsInv, FuturesInv, DirsInv;
  }

  // ---- blocking and progress ----

  /** The worker asks for the result of a predecessor that is not done. */
  ghost predicate Blocked(s: State) {
    s.worker.Waiting? && !Enabled(s, AskPrevious)
  }

  /** The worker never waits for a predecessor to be worked on. It waits exactly while a cancelling shutdown stands
      between popping the predecessor from the queue and cancelling it, and then the shutdown can go on. */
  lemma WorkerBlocksOnlyOnDrain(s: State)
    requires Reachable(s) && s.worker.Waiting?
    ensures s.worker.job < |s.jobs|
    ensures Blocked(s) <==> s.producer.DrainHolding? && s.jobs[s.worker.job].prev == Some(s.producer.job)
    ensures Blocked(s) ==> Enabled(s, DrainCancel) && Enabled(Apply(s, DrainCancel), AskPrevious)
  {
    ReachableInv(s);
    hide CallsInv, FuturesInv, CloseInv, DirsInv;
    var k := s.worker.job;
    assert Chained(s, k, s.jobs[k].prev);
  }

  /** Close is under way. */
  predicate CloseBusy(s: State) {
    s.closed && (Draining(s.producer) || s.producer.Join? || s.producer.Check?)
  }

  /** Steps left at most: five for every job still to be taken, what the worker has left of its job, and the
      producer's own. */
  function WorkLeft(s: State): nat {
    5 * |s.queue| + |s.futures|
    + (match s.worker
       case Free => 0
       case Waiting(_) => 4
       case Publishing(_) => 3
       case Cleaning(_, _) => 2
       case Finishing(_, _) => 1)
    + (match s.producer
       case DrainHolding(_) => 5
       case DrainRemoving(_) => 4
       case Drain => 3
       case Join(_) => 2
       case Check => 1
       case _ => 0)
  }

  /** Every action while a close is under way brings it nearer to its end, so it can take only so many. */
  lemma CloseProgresses(s: State, a: Action)
    requires Inv(s) && CloseBusy(s) && Enabled(s, a)
    ensures WorkLeft(Apply(s, a)) < WorkLeft(s)
    ensures CloseBusy(Apply(s, a)) || Apply(s, a).producer.Idle?
  {
    hide ChainInv, CallsInv, FuturesInv, DirsInv, HandsInv;
  }

  /** And some action is always possible: a close never hangs. */
  lemma CloseNeverStuck(s: State)
    requires Reachable(s) && CloseBusy(s)
    ensures exists a :: Enabled(s, a)
  {
    ReachableInv(s);
    hide CallsInv;
    if s.producer.DrainHolding? {
      assert Enabled(s, DrainCancel);
    } else if s.producer.DrainRemoving? {
      assert OwnsDir(s, s.producer.job);
      assert Enabled(s, DrainRemove);
    } else if s.producer.Drain? {
      assert Enabled(s, DrainPop);
    } else if s.producer.Check? {
      assert Enabled(s, CheckStep);
    } else {
      WorkerOrJoin(s);
    }
  }

  lemma WorkerOrJoin(s: State)
    requires Inv(s) && s.producer.Join?
    ensures exists a :: Enabled(s, a)
  {
    hide CallsInv, FuturesInv, CloseInv;
    match s.worker
    case Free =>
      assert s.queue == [] ==> Enabled(s, Joined);
      assert s.queue != [] ==> Enabled(s, Take);
    case Waiting(k) =>
      assert Chained(s, k, s.jobs[k].prev);
      assert Enabled(s, AskPrevious);
    case Publishing(_) => assert Enabled(s, PublishWorks);
    case Cleaning(k, _) =>
      assert OwnsDir(s, k);
      assert Enabled(s, Clean);
    case Finishing(_, _) => assert Enabled(s, Finish);
  }

  /** The close is not over at any point of the run. */
  ghost predicate StaysBusy(s: State, actions: seq<Action>)
    requires Possible(s, actions)
    decreases |actions|
  {
    CloseBusy(s) && (actions != [] ==> StaysBusy(Apply(s, actions[0]), actions[1..]))
  }

  /** So a close ends: no run stays within it for more than `WorkLeft` steps, whatever the threads do. */
  lemma {:induction false} CloseEnds(s: State, actions: seq<Action>)
    requires Inv(s) && Possible(s, actions) && StaysBusy(s, actions)
    ensures |actions| <= WorkLeft(s)
    decreases |actions|
  {
    hide Inv, Apply, Enabled, WorkLeft;
    if actions != [] {
      StepInv(s, actions[0]);
      CloseProgresses(s, actions[0]);
      CloseEnds(Apply(s, actions[0]), actions[1..]);
    }
  }

  // ---- failures stay visible ----

  /** The oldest recorded future ended without success. */
  predicate HeadFailed(s: State) {
    s.futures != [] && s.futures[0] < |s.jobs|
    && (s.jobs[s.futures[0]].state.Failed? || s.jobs[s.futures[0]].state.Cancelled?)
  }

  /** A failure at the head stays there, every check ends in its exception, and nothing more is retained. */
  lemma FailureIsSticky(s: State, a: Action)
    requires Inv(s) && HeadFailed(s) && Enabled(s, a)
    ensures HeadFailed(Apply(s, a)) && Apply(s, a).futures[0] == s.futures[0]
    ensures a.CheckStep? ==> Apply(s, a).raised && Apply(s, a).producer.Idle?
  {
    hide ChainInv, CallsInv, DirsInv;
  }

  /** A step of a check drops a leading success and goes on, raises when the oldest future failed or was cancelled, and
      otherwise ends the check: submit then goes on to retain. */
  lemma CheckSteps(s: State)
    requires Inv(s) && Enabled(s, CheckStep)
    ensures var t := Apply(s, CheckStep);
            if s.futures == [] || !s.jobs[s.futures[0]].state.Done() then
              t == s.(producer := if s.producer.SubmitCheck? then SubmitRetain else Idle)
            else if s.futures[0] in s.published then t == s.(futures := s.futures[1..])
            else HeadFailed(s) && t == s.(producer := Idle, raised := true)
  {
    hide QueueInv, ChainInv, DirsInv, CloseInv, FuturesInv;
    if s.futures != [] && s.jobs[s.futures[0]].state.Done() {
      var k := s.futures[0];
      assert k in s.published ==> k < |s.published|;
      assert k < |s.published| ==> s.published[k] == k;
    }
  }

  /** After a close submit raises and does nothing. A close that cancels ends without a check, any other with one. */
  lemma ClosedCalls(s: State)
    ensures s.producer.Idle? && s.closed ==> Apply(s, CallSubmit) == s.(raised := true)
    ensures Enabled(s, Joined) && s.producer == Join(true) ==> Apply(s, Joined) == s.(joined := true, producer := Idle)
    ensures Enabled(s, Joined) && s.producer == Join(false) ==>
              Apply(s, Joined) == s.(joined := true, producer := Check)
  {
  }

  /** A close that waited and found nothing to raise has published every submission. */
  lemma CleanCloseMeansPublished(s: State)
    requires Reachable(s) && s.joined && s.futures == [] && s.producer.Idle?
    ensures |s.published| == |s.jobs| && forall k :: 0 <= k < |s.jobs| ==> s.published[k] == k
  {
    ReachableInv(s);
    hide ChainInv, DirsInv, QueueInv;
    assert forall k :: 0 <= k < |s.jobs| ==> s.jobs[k].state.Succeeded? && k < |s.published|;
  }

  // ---- nothing fails without a cause ----

  /** A job may end as failed: its own `publish` was called and did not succeed, or its predecessor failed or was
      cancelled. */
  predicate HasCause(s: State, k: nat) {
    k < |s.jobs|
    && ((|s.published| <= k < |s.calls|)
        || (s.jobs[k].prev.Some? && s.jobs[k].prev.value < |s.jobs|
            && (s.jobs[s.jobs[k].prev.value].state.Failed? || s.jobs[s.jobs[k].prev.value].state.Cancelled?)))
  }

  /** The worker is about to fail its job. */
  predicate Failing(w: Worker) {
    (w.Cleaning? || w.Finishing?) && !w.ok
  }

  ghost predicate CausesInv(s: State) {
    (forall k :: 0 <= k < |s.jobs| && s.jobs[k].state.Failed? ==> HasCause(s, k))
    && (Failing(s.worker) ==> HasCause(s, s.worker.job))
  }

  /** What a step can do to job `k`: a done job stays as it is, predecessors stay, only the worker fails its job, and
      only a cancelling shutdown cancels. */
  predicate Fate(s: State, t: State, a: Action, k: nat) {
    if k < |s.jobs| then
      && k < |t.jobs| && t.jobs[k].prev == s.jobs[k].prev
      && (t.jobs[k].state == s.jobs[k].state
          || (!s.jobs[k].state.Done()
              && (t.jobs[k].state.Failed? ==> a.Finish? && s.worker == Finishing(k, false))
              && (t.jobs[k].state.Cancelled? ==> InHand(s.producer))))
    else k < |t.jobs| ==> t.jobs[k].state.Queued?
  }

  lemma WorkerFate(s: State, a: Action, k: nat)
    requires Inv(s) && Enabled(s, a) && OfWorker(a)
    ensures Fate(s, Apply(s, a), a, k)
  {
    hide ChainInv, CallsInv, DirsInv, FuturesInv, CloseInv;
  }

  lemma ProducerFate(s: State, a: Action, k: nat)
    requires Inv(s) && Enabled(s, a) && !OfWorker(a)
    ensures Fate(s, Apply(s, a), a, k)
  {
    hide ChainInv, CallsInv, DirsInv, FuturesInv, CloseInv;
  }

  lemma StepFate(s: State, a: Action, k: nat)
    requires Inv(s) && Enabled(s, a)
    ensures Fate(s, Apply(s, a), a, k)
  {
    hide Inv, Enabled, Apply, Fate;
    if OfWorker(a) {
      WorkerFate(s, a, k);
    } else {
      ProducerFate(s, a, k);
    }
  }

  /** Calls are never taken back, and one publish at most succeeds, that of the job in hand. */
  lemma StepCalls(s: State, a: Action)
    requires Inv(s) && Enabled(s, a)
    ensures var t := Apply(s, a);
            && |s.calls| <= |t.calls|
            && (t.published == s.published
                || (s.worker == Publishing(|s.published|) && |t.published| == |s.published| + 1))
  {
    hide QueueInv, HandsInv, FuturesInv, ChainInv, DirsInv, CloseInv;
  }

  /** What has a cause keeps it: a predecessor that is done stays as it is, and a failed publish is not repeated. */
  lemma CauseStays(s: State, a: Action, k: nat)
    requires Inv(s) && Enabled(s, a) && HasCause(s, k)
    requires s.jobs[k].state.Failed? || (Failing(s.worker) && s.worker.job == k)
    ensures HasCause(Apply(s, a), k)
  {
    StepCalls(s, a);
    StepFate(s, a, k);
    if s.jobs[k].prev.Some? {
      StepFate(s, a, s.jobs[k].prev.value);
    }
    hide QueueInv, FuturesInv, ChainInv, DirsInv, CloseInv, CallsInv, Apply, Enabled;
  }

  lemma StepCauses(s: State, a: Action)
    requires Inv(s) && CausesInv(s) && Enabled(s, a)
    ensures CausesInv(Apply(s, a))
  {
    var t := Apply(s, a);
    forall k | 0 <= k < |t.jobs| && t.jobs[k].state.Failed? ensures HasCause(t, k) {
      NewlyFailed(s, a, k);
      CauseStays(s, a, k);
    }
    if Failing(t.worker) {
      NewlyFailing(s, a);
    }
  }

  lemma NewlyFailed(s: State, a: Action, k: nat)
    requires Inv(s) && CausesInv(s) && Enabled(s, a) && k < |Apply(s, a).jobs| && Apply(s, a).jobs[k].state.Failed?
    ensures k < |s.jobs| && HasCause(s, k)
    ensures s.jobs[k].state.Failed? || (Failing(s.worker) && s.worker.job == k)
  {
    StepFate(s, a, k);
    hide Inv, Apply, Enabled, HasCause;
  }

  lemma NewlyFailing(s: State, a: Action)
    requires Inv(s) && CausesInv(s) && Enabled(s, a) && Failing(Apply(s, a).worker)
    ensures HasCause(Apply(s, a), Apply(s, a).worker.job)
  {
    if Failing(s.worker) {
      SameJob(s, a);
      CauseStays(s, a, s.worker.job);
    } else {
      hide QueueInv, FuturesInv, ChainInv, DirsInv, CloseInv;
    }
  }

  lemma SameJob(s: State, a: Action)
    requires Enabled(s, a) && Failing(s.worker) && Failing(Apply(s, a).worker)
    ensures Apply(s, a).worker.job == s.worker.job
  {
  }

  /** In every run a failed job is one whose own `publish` was called and failed, or whose predecessor failed or was
      cancelled: the worker publishes whenever the predecessor has succeeded. */
  lemma FailureHasCause(s: State, k: nat)
    requires Reachable(s) && k < |s.jobs| && s.jobs[k].state.Failed?
    ensures (k in s.calls && k !in s.published)
            || (s.jobs[k].prev.Some? && s.jobs[k].prev.value < k
                && (s.jobs[s.jobs[k].prev.value].state.Failed? || s.jobs[s.jobs[k].prev.value].state.Cancelled?))
  {
    ReachableInv(s);
    ReachableCauses(s);
    assert HasCause(s, k) && Chained(s, k, s.jobs[k].prev);
    if |s.published| <= k < |s.calls| {
      assert s.calls[k] == k;
    }
  }

  lemma ReachableCauses(s: State)
    requires Reachable(s)
    ensures CausesInv(s)
  {
    hide Inv, CausesInv;
    InitialInv();
    assert CausesInv(INITIAL) by {
      NoCauses();
    }
    var actions :| Possible(INITIAL, actions) && s == Run(INITIAL, actions);
    RunCauses(INITIAL, actions);
  }

  lemma NoCauses()
    ensures CausesInv(INITIAL)
  {
  }

  lemma {:induction false} RunCauses(s: State, actions: seq<Action>)
    requires Inv(s) && CausesInv(s) && Possible(s, actions)
    ensures CausesInv(Run(s, actions))
    decreases |actions|
  {
    hide Inv, CausesInv, Apply, Enabled;
    if actions != [] {
      StepInv(s, actions[0]);
      StepCauses(s, actions[0]);
      RunCauses(Apply(s, actions[0]), actions[1..]);
    }
  }

  // ---- runs in which no publish fails and no close cancels ----

  predicate Quiet(a: Action) {
    !a.PublishFails? && a != CallClose(true)
  }

  ghost predicate AllFine(s: State) {
    (forall k :: 0 <= k < |s.jobs| ==> !s.jobs[k].state.Failed? && !s.jobs[k].state.Cancelled?)
    && !Failing(s.worker) && !Draining(s.producer) && s.producer != Join(true)
  }

  lemma StepStaysFine(s: State, a: Action)
    requires Inv(s) && AllFine(s) && Enabled(s, a) && Quiet(a)
    ensures AllFine(Apply(s, a))
  {
    HandsStayFine(s, a);
    forall k | 0 <= k < |Apply(s, a).jobs|
      ensures !Apply(s, a).jobs[k].state.Failed? && !Apply(s, a).jobs[k].state.Cancelled?
    {
      StepFate(s, a, k);
    }
    hide Inv, Apply, Enabled;
  }

  lemma HandsStayFine(s: State, a: Action)
    requires AllFine(s) && Enabled(s, a) && Quiet(a)
    ensures var t := Apply(s, a); !Failing(t.worker) && !Draining(t.producer) && t.producer != Join(true)
  {
    assert !Failing(s.worker) && !Draining(s.producer) && s.producer != Join(true);
    if a.AskPrevious? {
      AskStaysFine(s);
    } else {
      hide AllFine, Apply, Enabled, Quiet, Failing, Draining;
      WorkerStaysFine(s, a);
      ProducerStaysFine(s, a);
    }
  }

  /** The worker asks only predecessors that are fine. */
  lemma AskStaysFine(s: State)
    requires AllFine(s) && Enabled(s, AskPrevious)
    ensures !Failing(Apply(s, AskPrevious).worker) && Apply(s, AskPrevious).producer == s.producer
  {
  }

  /** Otherwise only a failing publish makes the worker fail its job. */
  lemma WorkerStaysFine(s: State, a: Action)
    requires Enabled(s, a) && Quiet(a) && !a.AskPrevious? && !Failing(s.worker)
    ensures !Failing(Apply(s, a).worker)
  {
  }

  /** Only a cancelling close drains. */
  lemma ProducerStaysFine(s: State, a: Action)
    requires Enabled(s, a) && Quiet(a) && !Draining(s.producer) && s.producer != Join(true)
    ensures !Draining(Apply(s, a).producer) && Apply(s, a).producer != Join(true)
  {
    if a.CallClose? {
      assert a == CallClose(false);
    } else {
      hide Draining;
      StaysOutside(s, a);
    }
  }

  /** A drain comes from a close, and the wait after it from the drain. */
  lemma StaysOutside(s: State, a: Action)
    requires Enabled(s, a) && !a.CallClose?
    ensures var p := Apply(s, a).producer; p.Join? ==> Draining(s.producer) || p == s.producer
    ensures var p := Apply(s, a).producer; Draining(p) ==> Draining(s.producer)
  {
    if a.DrainPop? || a.DrainCancel? || a.DrainRemove? {
      assert Draining(s.producer);
    } else {
      hide Draining;
      NoDrain(s, a);
    }
  }

  lemma NoDrain(s: State, a: Action)
    requires Enabled(s, a) && !(a.CallClose? || a.DrainPop? || a.DrainCancel? || a.DrainRemove?)
    ensures var p := Apply(s, a).producer; p == s.producer || !(p.Join? || Draining(p))
  {
    var p := Apply(s, a).producer;
    if OfWorker(a) {
      assert p == s.producer;
    } else if a.CheckStep? || a.Joined? {
      assert p.Idle? || p.Check? || p.SubmitRetain? || p == s.producer;
    } else {
      assert p.Idle? || p.Check? || Submitting(p);
    }
  }

  lemma {:induction false} RunStaysFine(s: State, actions: seq<Action>)
    requires Inv(s) && AllFine(s) && Possible(s, actions) && forall i :: 0 <= i < |actions| ==> Quiet(actions[i])
    ensures Inv(Run(s, actions)) && AllFine(Run(s, actions))
    decreases |actions|
  {
    hide Inv, AllFine, Apply, Enabled, Quiet;
    if actions != [] {
      assert Quiet(actions[0]);
      StepInv(s, actions[0]);
      StepStaysFine(s, actions[0]);
      RunStaysFine(Apply(s, actions[0]), actions[1..]);
    }
  }

  /** In every run in which no `publish` fails and no close is asked to cancel, no job fails or is cancelled, and when a
      close has returned, every submission has been published, in order. */
  lemma QuietRunPublishesAll(actions: seq<Action>)
    requires Possible(INITIAL, actions) && forall i :: 0 <= i < |actions| ==> Quiet(actions[i])
    ensures var s := Run(INITIAL, actions);
            && (forall k :: 0 <= k < |s.jobs| ==> !s.jobs[k].state.Failed? && !s.jobs[k].state.Cancelled?)
            && (s.joined ==> |s.published| == |s.jobs| && forall k :: 0 <= k < |s.jobs| ==> s.published[k] == k)
  {
    InitialInv();
    RunStaysFine(INITIAL, actions);
    var s := Run(INITIAL, actions);
    hide Run, Possible;
    if s.joined {
      AllDone(s);
      AllPublished(s);
    }
  }

  lemma AllPublished(s: State)
    requires Inv(s) && forall k :: 0 <= k < |s.jobs| ==> s.jobs[k].state.Succeeded?
    ensures |s.published| == |s.jobs| && forall k :: 0 <= k < |s.jobs| ==> s.published[k] == k
  {
    hide QueueInv, FuturesInv, ChainInv, DirsInv, CloseInv, HandsInv;
    if |s.jobs| > 0 {
      assert s.jobs[|s.jobs| - 1].state.Succeeded?;
    }
  }

  // ---- a run in which the worker waits ----

  lemma {:induction false} OneMore(s: State, actions: seq<Action>, a: Action)
    requires Possible(s, actions) && Enabled(Run(s, actions), a)
    ensures Possible(s, actions + [a]) && Run(s, actions + [a]) == Apply(Run(s, actions), a)
    decreases |actions|
  {
    hide Enabled, Apply;
    if actions == [] {
      assert [] + [a] == [a] && [a][1..] == [];
    } else {
      OneMore(Apply(s, actions[0]), actions[1..], a);
      assert (actions + [a])[1..] == actions[1..] + [a];
    }
  }

  lemma Next(s: State, a: Action) returns (t: State)
    requires Reachable(s) && Enabled(s, a)
    ensures Reachable(t) && t == Apply(s, a)
  {
    hide Enabled, Apply;
    var actions :| Possible(INITIAL, actions) && s == Run(INITIAL, actions);
    OneMore(INITIAL, actions, a);
    t := Apply(s, a);
  }

  /** A whole submit that finds nothing to check. */
  lemma Submitted(s: State) returns (t: State)
    requires Reachable(s) && s.producer.Idle? && !s.closed
    requires s.futures != [] ==> s.futures[0] < |s.jobs| && !s.jobs[s.futures[0]].state.Done()
    ensures Reachable(t)
    ensures var k := |s.jobs|;
            t == s.(jobs := s.jobs + [Job(|s.dirs|, Last(s.futures), Queued)], queue := s.queue + [k],
                    futures := s.futures + [k], dirs := s.dirs + [Directory(OwnedBy(k), [])], raised := false)
  {
    hide Reachable;
    t := Next(s, CallSubmit);
    t := Next(t, CheckStep);
    t := Next(t, RetainWorks);
    t := Next(t, PoolTakes);
    t := Next(t, AppendFuture);
  }

  /** Two submissions and a cancelling close: the shutdown pops the first job, the worker takes the second and waits. */
  lemma WorkerCanBlock() returns (s: State)
    ensures Reachable(s) && Blocked(s)
  {
    assert Reachable(INITIAL) by {
      RunNothing(INITIAL);
    }
    hide Reachable;
    s := Submitted(INITIAL);
    s := Submitted(s);
    s := ClosedInBetween(s);
  }

  /** With two jobs queued, the second one chained to the first, and a free worker. */
  lemma ClosedInBetween(s: State) returns (t: State)
    requires Reachable(s) && s.producer.Idle? && s.worker.Free? && s.queue == [0, 1] && |s.jobs| == 2
    requires s.jobs[0].state.Queued? && s.jobs[1].prev == Some(0)
    ensures Reachable(t) && Blocked(t)
  {
    hide Reachable;
    t := Next(s, CallClose(true));
    t := Next(t, DrainPop);
    t := Next(t, Take);
  }
}

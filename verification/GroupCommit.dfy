/** Group commit (src/wal/commit.rs): submitters, one worker and a closing thread, interleaved. */
module GroupCommit {
  import opened Wrappers
  import opened Collections

  datatype Config = Config(enabled: bool, maxBatchSize: nat, maxWait: nat, minBatchSize: nat)

  datatype Reason = FlushFailed | CoordinatorShutdown

  datatype CommitResult = Success | Error(reason: Reason)

  /** A queued request; `id` stands for its one-shot notification channel. */
  datatype Request = Request(id: nat, txn: nat, lsn: nat, queuedAt: nat)

  // ---------------------------------------------------------------------------
  // The queue and the metrics
  // ---------------------------------------------------------------------------

  /** The tests of `should_flush`, in their order. */
  predicate ShouldFlush(pending: nat, elapsed: nat, config: Config) {
    if pending == 0 then false
    else if pending >= config.maxBatchSize then true
    else if pending >= config.minBatchSize && elapsed >= config.maxWait then true
    else if elapsed >= config.maxWait then true
    else false
  }

  class CommitQueue {
    var pending: seq<Request>
    const config: Config

    constructor (config: Config)
      ensures pending == [] && this.config == config
    {
      this.config := config;
      pending := [];
    }

    method Enqueue(request: Request)
      modifies this
      ensures pending == old(pending) + [request]
    {
      pending := pending + [request];
    }

    /** The minimum batch size never decides: only a full batch or the timeout does. */
    method ShouldFlushNow(elapsed: nat) returns (r: bool)
      ensures r == ShouldFlush(|pending|, elapsed, config)
      ensures r <==> pending != [] && (|pending| >= config.maxBatchSize || elapsed >= config.maxWait)
    {
      if pending == [] {
        return false;
      }
      if |pending| >= config.maxBatchSize {
        return true;
      }
      if |pending| >= config.minBatchSize && elapsed >= config.maxWait {
        return true;
      }
      if elapsed >= config.maxWait {
        return true;
      }
      r := false;
    }

    method Drain() returns (batch: seq<Request>)
      modifies this
      ensures batch == old(pending) && pending == []
    {
      batch := pending;
      pending := [];
    }
  }

  datatype Metrics = Metrics(totalCommits: nat, totalFsyncs: nat, totalBatches: nat, maxBatchSize: nat, totalWait: nat)

  const NoMetrics := Metrics(0, 0, 0, 0, 0)

  function Recorded(m: Metrics, batchSize: nat, wait: nat): Metrics {
    Metrics(m.totalCommits + batchSize, m.totalFsyncs + 1, m.totalBatches + 1, Max(m.maxBatchSize, batchSize),
            m.totalWait + wait * batchSize)
  }

  class GroupCommitMetrics {
    var m: Metrics

    constructor ()
      ensures m == NoMetrics
    {
      m := NoMetrics;
    }

    /** The weak exchange may fail spuriously any finite number of times; the maximum is reached all the same. */
    method RecordBatch(batchSize: nat, wait: nat, spuriousFailures: nat)
      modifies this
      ensures m == Recorded(old(m), batchSize, wait)
    {
      m := m.(totalCommits := m.totalCommits + batchSize);
      m := m.(totalBatches := m.totalBatches + 1);
      m := m.(totalFsyncs := m.totalFsyncs + 1);
      m := m.(totalWait := m.totalWait + wait * batchSize);
      var currentMax := m.maxBatchSize;
      var failures := spuriousFailures;
      while batchSize > currentMax
        invariant m == old(m).(totalCommits := old(m).totalCommits + batchSize, totalBatches := old(m).totalBatches + 1,
                               totalFsyncs := old(m).totalFsyncs + 1, totalWait := old(m).totalWait + wait * batchSize)
        invariant currentMax == m.maxBatchSize
        decreases failures
      {
        if failures == 0 {
          m := m.(maxBatchSize := batchSize);
          break;
        }
        failures := failures - 1;
        currentMax := m.maxBatchSize;
      }
    }
  }

  // ---------------------------------------------------------------------------
  // The protocol
  // ---------------------------------------------------------------------------

  datatype Worker =
    | NoWorker
    | AtLoopTop
    | Checking
    | ReadyToDrain
    | Drained(batch: seq<Request>)
    | Flushing(batch: seq<Request>, begun: nat)
    | Notifying(batch: seq<Request>, next: nat)
    | Exited

  datatype Closer = Running | FlagRaised | Joined | Failing(rest: seq<Request>, next: nat) | Returned

  /** A completed flush of one batch. */
  datatype FlushRecord = FlushRecord(begun: nat, ended: nat, ok: bool, size: nat, wait: nat)

  /** A message on a request's channel; `batch` is the flush it reports, if any. */
  datatype Send = Send(request: Request, result: CommitResult, batch: Option<nat>, at: nat)

  datatype State = State(
    config: Config, now: nat, submitted: nat, pending: seq<Request>, worker: Worker, shutdown: bool, closer: Closer,
    flushes: seq<FlushRecord>, sends: seq<Send>, metrics: Metrics, drainMark: nat)

  function Start(config: Config): State {
    State(config, 0, 0, [], if config.enabled then AtLoopTop else NoWorker, false, Running, [], [], NoMetrics, 0)
  }

  datatype Step =
    | Submit(txn: nat, lsn: nat)
    | WorkerLoop
    | WorkerCheck(elapsed: nat)
    | WorkerDrain
    | FlushBegin
    | FlushEnd(ok: bool, wait: nat)  // `wait` is the time from the end of the last batch to this flush
    | WorkerNotify
    | RaiseFlag
    | Join
    | CloserDrain
    | CloserNotify

  predicate Enabled(st: State, step: Step) {
    match step
    case Submit(_, _) => true
    case WorkerLoop => st.worker.AtLoopTop?
    case WorkerCheck(_) => st.worker.Checking?
    case WorkerDrain => st.worker.ReadyToDrain?
    case FlushBegin => st.worker.Drained?
    case FlushEnd(_, _) => st.worker.Flushing?
    case WorkerNotify => st.worker.Notifying?
    case RaiseFlag => st.closer.Running?
    case Join => st.closer.FlagRaised? && (st.worker.Exited? || st.worker.NoWorker?)
    case CloserDrain => st.closer.Joined?
    case CloserNotify => st.closer.Failing?
  }

  function Verdict(f: FlushRecord): CommitResult {
    if f.ok then Success else Error(FlushFailed)
  }

  /** One atomic step of one thread; a step whose thread is elsewhere changes nothing. */
  function Apply(st: State, step: Step): State {
    if !Enabled(st, step) then st
    else
      var st := st.(now := st.now + 1);
      match step
      case Submit(txn, lsn) =>
        st.(pending := st.pending + [Request(st.submitted, txn, lsn, st.now)], submitted := st.submitted + 1)
      case WorkerLoop =>
        st.(worker := if st.shutdown then Exited else Checking)
      case WorkerCheck(elapsed) =>
        st.(worker := if ShouldFlush(|st.pending|, elapsed, st.config) then ReadyToDrain else AtLoopTop)
      case WorkerDrain =>
        st.(pending := [], worker := if st.pending == [] then AtLoopTop else Drained(st.pending))
      case FlushBegin =>
        st.(worker := Flushing(st.worker.batch, st.now))
      case FlushEnd(ok, wait) =>
        st.(worker := Notifying(st.worker.batch, 0),
            flushes := st.flushes + [FlushRecord(st.worker.begun, st.now, ok, |st.worker.batch|, wait)],
            metrics := Recorded(st.metrics, |st.worker.batch|, wait))
      case WorkerNotify =>
        var batch, n := st.worker.batch, st.worker.next;
        if n < |batch| && st.flushes != [] then
          var last := |st.flushes| - 1;
          st.(worker := Notifying(batch, n + 1),
              sends := st.sends + [Send(batch[n], Verdict(st.flushes[last]), Some(last), st.now)])
        else st.(worker := AtLoopTop)
      case RaiseFlag =>
        st.(shutdown := true, closer := FlagRaised)
      case Join =>
        st.(closer := Joined)
      case CloserDrain =>
        st.(closer := Failing(st.pending, 0), pending := [], drainMark := st.submitted)
      case CloserNotify =>
        var rest, n := st.closer.rest, st.closer.next;
        if n < |rest| then
          st.(closer := Failing(rest, n + 1),
              sends := st.sends + [Send(rest[n], Error(CoordinatorShutdown), None, st.now)])
        else st.(closer := Returned)
  }

  function Exec(st: State, steps: seq<Step>): State
    decreases |steps|
  {
    if steps == [] then st else Exec(Apply(st, steps[0]), steps[1..])
  }

  // ---------------------------------------------------------------------------
  // The coordinator
  // ---------------------------------------------------------------------------

  /** The shared objects: the queue behind its mutex, the metrics, the flag, and where the worker and the
      closing thread are. Clock, flushes and sent messages are the world around them. */
  class Coordinator {
    const config: Config
    const queue: CommitQueue
    const metrics: GroupCommitMetrics
    var worker: Worker
    var shutdown: bool
    var closer: Closer
    var now: nat
    var submitted: nat
    var flushes: seq<FlushRecord>
    var sends: seq<Send>
    var drainMark: nat

    ghost predicate Valid()
      reads this, queue
    {
      queue.config == config
    }

    function Model(): State
      reads this, queue, metrics
    {
      State(config, now, submitted, queue.pending, worker, shutdown, closer, flushes, sends, metrics.m, drainMark)
    }

    constructor (config: Config)
      ensures Valid() && Model() == Start(config) && fresh(queue) && fresh(metrics)
    {
      this.config := config;
      queue := new CommitQueue(config);
      metrics := new GroupCommitMetrics();
      worker, shutdown, closer := if config.enabled then AtLoopTop else NoWorker, false, Running;
      now, submitted, flushes, sends, drainMark := 0, 0, [], [], 0;
    }

    /** What a thread does between two points where others may come in, with the queue and the metrics changed
        by their own methods, is one step of the machine. */
    method Perform(step: Step, spuriousFailures: nat)
      requires Valid()
      modifies this, queue, metrics
      ensures Valid() && Model() == Apply(old(Model()), step)
    {
      hide ShouldFlush, Recorded, Verdict;
      if !Enabled(Model(), step) {
        return;
      }
      now := now + 1;
      match step {
        case Submit(txn, lsn) =>
          queue.Enqueue(Request(submitted, txn, lsn, now));
          submitted := submitted + 1;
        case WorkerLoop =>
          worker := if shutdown then Exited else Checking;
        case WorkerCheck(elapsed) =>
          var flush := queue.ShouldFlushNow(elapsed);
          worker := if flush then ReadyToDrain else AtLoopTop;
        case WorkerDrain =>
          var batch := queue.Drain();
          worker := if batch == [] then AtLoopTop else Drained(batch);
        case FlushBegin =>
          worker := Flushing(worker.batch, now);
        case FlushEnd(ok, wait) =>
          flushes := flushes + [FlushRecord(worker.begun, now, ok, |worker.batch|, wait)];
          metrics.RecordBatch(|worker.batch|, wait, spuriousFailures);
          worker := Notifying(worker.batch, 0);
        case WorkerNotify =>
          WorkerNotifies();
        case RaiseFlag =>
          shutdown, closer := true, FlagRaised;
        case Join =>
          closer := Joined;
        case CloserDrain =>
          var remaining := queue.Drain();
          closer, drainMark := Failing(remaining, 0), submitted;
        case CloserNotify =>
          CloserNotifies();
      }
    }

    /** The next message of the worker's loop over its batch, or the end of that loop. */
    method WorkerNotifies()
      requires worker.Notifying?
      modifies this`worker, this`sends
      ensures var batch, n := old(worker).batch, old(worker).next;
              if n < |batch| && flushes != [] then
                var last := |flushes| - 1;
                && worker == Notifying(batch, n + 1)
                && sends == old(sends) + [Send(batch[n], Verdict(flushes[last]), Some(last), now)]
              else worker == AtLoopTop && sends == old(sends)
    {
      var batch, n := worker.batch, worker.next;
      if n < |batch| && flushes != [] {
        var last := |flushes| - 1;
        sends := sends + [Send(batch[n], Verdict(flushes[last]), Some(last), now)];
        worker := Notifying(batch, n + 1);
      } else {
        worker := AtLoopTop;
      }
    }

    /** The next message of the loop over what shutdown found in the queue, or its end. */
    method CloserNotifies()
      requires closer.Failing?
      modifies this`closer, this`sends
      ensures var rest, n := old(closer).rest, old(closer).next;
              if n < |rest| then
                closer == Failing(rest, n + 1) && sends == old(sends) + [Send(rest[n], Error(CoordinatorShutdown), None, now)]
              else closer == Returned && sends == old(sends)
    {
      var rest, n := closer.rest, closer.next;
      if n < |rest| {
        sends := sends + [Send(rest[n], Error(CoordinatorShutdown), None, now)];
        closer := Failing(rest, n + 1);
      } else {
        closer := Returned;
      }
    }
  }

  /** Every interleaving on the objects is a run of the machine, so all that is proved of its runs holds of
      the queue, the metrics and the messages. */
  method RunCoordinator(config: Config, steps: seq<Step>) returns (c: Coordinator)
    ensures fresh(c) && c.Valid() && c.Model() == Exec(Start(config), steps)
  {
    hide Apply, Start, Coordinator.Model;
    c := new Coordinator(config);
    for n := 0 to |steps|
      invariant fresh(c) && fresh(c.queue) && fresh(c.metrics) && c.Valid()
      invariant Exec(c.Model(), steps[n..]) == Exec(Start(config), steps)
    {
      assert steps[n..][0] == steps[n] && steps[n..][1..] == steps[n + 1..];
      c.Perform(steps[n], 0);
    }
    assert steps[|steps|..] == [];
  }

  // ---------------------------------------------------------------------------
  // The invariant
  // ---------------------------------------------------------------------------

  /** Requests taken off the queue and not yet answered. */
  function InFlight(st: State): seq<Request> {
    match st.worker
    case Drained(batch) => batch
    case Flushing(batch, _) => batch
    case Notifying(batch, n) => if n <= |batch| then batch[n..] else []
    case _ =>
      match st.closer
      case Failing(rest, n) => if n <= |rest| then rest[n..] else []
      case _ => []
  }

  /** Answered, in flight and pending requests follow each other in submission order. */
  predicate InOrder(st: State) {
    && (forall i | 0 <= i < |st.sends| :: st.sends[i].request.id == i)
    && (forall i | 0 <= i < |InFlight(st)| :: InFlight(st)[i].id == |st.sends| + i)
    && (forall i | 0 <= i < |st.pending| :: st.pending[i].id == |st.sends| + |InFlight(st)| + i)
    && st.submitted == |st.sends| + |InFlight(st)| + |st.pending|
  }

  predicate ThreadsOk(st: State) {
    && (st.worker.Exited? || st.closer.FlagRaised? || st.closer.Joined? || st.closer.Failing? || st.closer.Returned? ==>
        st.shutdown)
    && (st.closer.Joined? || st.closer.Failing? || st.closer.Returned? ==> st.worker.Exited? || st.worker.NoWorker?)
    && (st.worker.Notifying? ==> st.worker.next <= |st.worker.batch| && st.flushes != [])
    && (st.closer.Failing? ==> st.closer.next <= |st.closer.rest|)
    && (st.worker.ReadyToDrain? ==> st.pending != [])
    && (st.worker.Drained? || st.worker.Flushing? ==> st.worker.batch != [])
    && (st.closer.Failing? || st.closer.Returned? ==> st.drainMark == |st.sends| + |InFlight(st)|)
    && (st.worker.NoWorker? ==> st.flushes == [])
  }

  /** A flush is started only after every request of its batch was queued. */
  predicate TimesOk(st: State) {
    && (forall i | 0 <= i < |st.pending| :: st.pending[i].queuedAt <= st.now)
    && (forall i | 0 <= i < |InFlight(st)| :: InFlight(st)[i].queuedAt <= st.now)
    && (st.worker.Flushing? ==> st.worker.begun <= st.now && forall r | r in st.worker.batch :: r.queuedAt < st.worker.begun)
    && (st.worker.Notifying? && st.flushes != [] ==>
          forall r | r in st.worker.batch :: r.queuedAt < st.flushes[|st.flushes| - 1].begun)
    && (forall f | 0 <= f < |st.flushes| :: st.flushes[f].begun < st.flushes[f].ended <= st.now && st.flushes[f].size > 0)
  }

  predicate SendOk(st: State, s: Send) {
    match s.batch
    case None => s.result == Error(CoordinatorShutdown)
    case Some(f) =>
      && f < |st.flushes|
      && s.result == Verdict(st.flushes[f])
      && s.request.queuedAt < st.flushes[f].begun
      && st.flushes[f].ended < s.at
  }

  predicate SendsOk(st: State) {
    forall i | 0 <= i < |st.sends| :: SendOk(st, st.sends[i])
  }

  /** How many answers report flush `f`. */
  function Reported(sends: seq<Send>, f: nat): nat {
    if sends == [] then 0
    else Reported(sends[..|sends| - 1], f) + if sends[|sends| - 1].batch == Some(f) then 1 else 0
  }

  /** Each finished flush has been reported to its whole batch, the latest one as far as the worker has got. */
  ghost predicate BatchesOk(st: State) {
    && (forall f: nat | f >= |st.flushes| :: Reported(st.sends, f) == 0)
    && (forall f: nat | f < |st.flushes| && !(st.worker.Notifying? && f == |st.flushes| - 1) ::
          Reported(st.sends, f) == st.flushes[f].size)
    && (st.worker.Notifying? && st.flushes != [] ==>
          && st.flushes[|st.flushes| - 1].size == |st.worker.batch|
          && Reported(st.sends, |st.flushes| - 1) == st.worker.next)
  }

  function TotalSize(flushes: seq<FlushRecord>): nat {
    if flushes == [] then 0 else TotalSize(flushes[..|flushes| - 1]) + flushes[|flushes| - 1].size
  }

  function LargestSize(flushes: seq<FlushRecord>): nat {
    if flushes == [] then 0 else Max(LargestSize(flushes[..|flushes| - 1]), flushes[|flushes| - 1].size)
  }

  function TotalWait(flushes: seq<FlushRecord>): nat {
    if flushes == [] then 0
    else TotalWait(flushes[..|flushes| - 1]) + flushes[|flushes| - 1].wait * flushes[|flushes| - 1].size
  }

  predicate MetricsOk(st: State) {
    && st.metrics.totalFsyncs == st.metrics.totalBatches == |st.flushes|
    && st.metrics.totalCommits == TotalSize(st.flushes)
    && st.metrics.maxBatchSize == LargestSize(st.flushes)
    && st.metrics.totalWait == TotalWait(st.flushes)
  }

  ghost predicate Inv(st: State) {
    InOrder(st) && ThreadsOk(st) && TimesOk(st) && SendsOk(st) && BatchesOk(st) && MetricsOk(st)
  }

  lemma StepKeepsInv(st: State, step: Step)
    requires Inv(st)
    ensures Inv(Apply(st, step))
  {
    hide TotalSize, LargestSize;
    StepKeepsMetrics(st, step);
    StepKeepsOrder(st, step);
    StepKeepsThreads(st, step);
    StepKeepsTimes(st, step);
    StepKeepsSends(st, step);
    StepKeepsBatches(st, step);
    hide BatchesOk, InOrder, TimesOk, SendsOk, MetricsOk, InFlight;
  }

  lemma StepKeepsMetrics(st: State, step: Step)
    requires MetricsOk(st)
    ensures MetricsOk(Apply(st, step))
  {
    if step.FlushEnd? && Enabled(st, step) {
      var st' := Apply(st, step);
      assert st'.flushes[..|st'.flushes| - 1] == st.flushes;
    }
  }

  /** How one step moves requests between the three places. */
  lemma Moves(st: State, step: Step)
    requires ThreadsOk(st)
    ensures var st' := Apply(st, step);
            || (st'.sends == st.sends && InFlight(st') == InFlight(st) && st'.pending == st.pending
                && st'.submitted == st.submitted)
            || (st'.sends == st.sends && InFlight(st') == InFlight(st) && |st'.pending| == |st.pending| + 1
                && st'.pending[..|st.pending|] == st.pending && st'.pending[|st.pending|].id == st.submitted
                && st'.pending[|st.pending|].queuedAt == st'.now && st'.submitted == st.submitted + 1)
            || (st'.sends == st.sends && InFlight(st) == [] && InFlight(st') == st.pending && st'.pending == []
                && st'.submitted == st.submitted)
            || (InFlight(st) != [] && InFlight(st') == InFlight(st)[1..] && |st'.sends| == |st.sends| + 1
                && st'.sends[..|st.sends|] == st.sends && st'.sends[|st.sends|].request == InFlight(st)[0]
                && st'.pending == st.pending && st'.submitted == st.submitted)
    ensures Apply(st, step).now >= st.now
  {
    hide TotalSize, LargestSize;
  }

  lemma StepKeepsOrder(st: State, step: Step)
    requires InOrder(st) && ThreadsOk(st)
    ensures InOrder(Apply(st, step))
  {
    hide Apply, InFlight, ThreadsOk;
    Moves(st, step);
    var st' := Apply(st, step);
    assert forall i | 0 <= i < |st.sends| && |st.sends| <= |st'.sends| :: st'.sends[..|st.sends|][i] == st'.sends[i];
    assert forall i | 0 <= i < |st.pending| && |st.pending| <= |st'.pending| :: st'.pending[..|st.pending|][i] == st'.pending[i];
  }

  lemma StepKeepsThreads(st: State, step: Step)
    requires ThreadsOk(st) && InOrder(st)
    ensures ThreadsOk(Apply(st, step))
  {
    hide TotalSize, LargestSize;
  }

  lemma StepKeepsTimes(st: State, step: Step)
    requires TimesOk(st) && ThreadsOk(st)
    ensures TimesOk(Apply(st, step))
  {
    StepKeepsQueueTimes(st, step);
    StepKeepsFlushTimes(st, step);
    hide Apply, InFlight, ThreadsOk;
  }

  lemma StepKeepsQueueTimes(st: State, step: Step)
    requires TimesOk(st) && ThreadsOk(st)
    ensures var st' := Apply(st, step);
            && (forall i | 0 <= i < |st'.pending| :: st'.pending[i].queuedAt <= st'.now)
            && (forall i | 0 <= i < |InFlight(st')| :: InFlight(st')[i].queuedAt <= st'.now)
  {
    Moves(st, step);
    hide Apply, InFlight, ThreadsOk;
    var st' := Apply(st, step);
    assert forall i | 0 <= i < |st.pending| && |st.pending| <= |st'.pending| :: st'.pending[..|st.pending|][i] == st'.pending[i];
  }

  lemma StepKeepsFlushTimes(st: State, step: Step)
    requires TimesOk(st) && ThreadsOk(st)
    ensures var st' := Apply(st, step);
            && (st'.worker.Flushing? ==> st'.worker.begun <= st'.now && forall r | r in st'.worker.batch ::
                r.queuedAt < st'.worker.begun)
            && (st'.worker.Notifying? && st'.flushes != [] ==>
                  forall r | r in st'.worker.batch :: r.queuedAt < st'.flushes[|st'.flushes| - 1].begun)
            && (forall f | 0 <= f < |st'.flushes| ::
                  st'.flushes[f].begun < st'.flushes[f].ended <= st'.now && st'.flushes[f].size > 0)
  {
    hide TotalSize, LargestSize;
    if st.worker.Drained? {
      assert InFlight(st) == st.worker.batch;
    }
    hide InFlight;
  }

  lemma StepKeepsSends(st: State, step: Step)
    requires SendsOk(st) && TimesOk(st) && ThreadsOk(st)
    ensures SendsOk(Apply(st, step))
  {
    hide TotalSize, LargestSize;
  }

  lemma StepKeepsBatches(st: State, step: Step)
    requires BatchesOk(st) && ThreadsOk(st)
    ensures BatchesOk(Apply(st, step))
  {
    hide TotalSize, LargestSize, InFlight;
    var st' := Apply(st, step);
    if |st'.sends| > |st.sends| {
      assert st'.sends[..|st.sends|] == st.sends;
      assert forall f: nat :: Reported(st'.sends, f) ==
                              Reported(st.sends, f) + if st'.sends[|st.sends|].batch == Some(f) then 1 else 0;
    }
  }

  lemma {:induction false} RunKeepsInv(st: State, steps: seq<Step>)
    requires Inv(st)
    ensures Inv(Exec(st, steps))
    decreases |steps|
  {
    if steps != [] {
      StepKeepsInv(st, steps[0]);
      RunKeepsInv(Apply(st, steps[0]), steps[1..]);
    }
  }

  // ---------------------------------------------------------------------------
  // What every interleaving guarantees
  // ---------------------------------------------------------------------------

  predicate IsPending(st: State, id: nat) {
    exists i | 0 <= i < |st.pending| :: st.pending[i].id == id
  }

  predicate IsInFlight(st: State, id: nat) {
    exists i | 0 <= i < |InFlight(st)| :: InFlight(st)[i].id == id
  }

  predicate IsAnswered(st: State, id: nat) {
    exists i | 0 <= i < |st.sends| :: st.sends[i].request.id == id
  }

  lemma WhereIs(st: State, id: nat)
    requires InOrder(st)
    ensures IsAnswered(st, id) <==> id < |st.sends|
    ensures IsInFlight(st, id) <==> |st.sends| <= id < |st.sends| + |InFlight(st)|
    ensures IsPending(st, id) <==> |st.sends| + |InFlight(st)| <= id < st.submitted
  {
    if id < |st.sends| {
      assert st.sends[id].request.id == id;
    } else if id < |st.sends| + |InFlight(st)| {
      assert InFlight(st)[id - |st.sends|].id == id;
    } else if id < st.submitted {
      assert st.pending[id - |st.sends| - |InFlight(st)|].id == id;
    }
  }

  /** Every request is in exactly one place, and no channel is written to twice. */
  lemma {:induction false} RequestIsInOnePlace(config: Config, steps: seq<Step>, id: nat)
    ensures var st := Exec(Start(config), steps);
            && (id < st.submitted <==> IsPending(st, id) || IsInFlight(st, id) || IsAnswered(st, id))
            && !(IsPending(st, id) && IsInFlight(st, id))
            && !(IsPending(st, id) && IsAnswered(st, id))
            && !(IsInFlight(st, id) && IsAnswered(st, id))
            && forall i, j | 0 <= i < j < |st.sends| :: st.sends[i].request.id < st.sends[j].request.id
  {
    RunKeepsInv(Start(config), steps);
    WhereIs(Exec(Start(config), steps), id);
  }

  /** A request is told Success if and only if the flush of its batch returned Ok, that the flush failed if and
      only if it did, and that the coordinator shut down if and only if it was in no batch. A flush that is
      reported began after the request was queued and ended before the answer was sent; and everyone told about
      one flush, which is its whole batch, is told the same. */
  lemma {:induction false} AnswersAreTrue(config: Config, steps: seq<Step>)
    ensures var st := Exec(Start(config), steps);
            && (forall i | 0 <= i < |st.sends| ::
                  var s := st.sends[i];
                  && (s.batch.Some? ==> s.batch.value < |st.flushes|)
                  && (s.result == Success <==> s.batch.Some? && st.flushes[s.batch.value].ok)
                  && (s.result == Error(FlushFailed) <==> s.batch.Some? && !st.flushes[s.batch.value].ok)
                  && (s.result == Error(CoordinatorShutdown) <==> s.batch.None?)
                  && (s.batch.Some? ==>
                        var f := st.flushes[s.batch.value];
                        s.request.queuedAt < f.begun < f.ended < s.at))
            && (forall i, j | 0 <= i < |st.sends| && 0 <= j < |st.sends| && st.sends[i].batch == st.sends[j].batch ::
                  st.sends[i].result == st.sends[j].result)
            && (forall f: nat | f < |st.flushes| && !st.worker.Notifying? :: Reported(st.sends, f) == st.flushes[f].size)
  {
    RunKeepsInv(Start(config), steps);
    var st := Exec(Start(config), steps);
    hide Exec, MetricsOk, InOrder, InFlight, ThreadsOk;
    assert SendsOk(st) && TimesOk(st) && BatchesOk(st);
    forall i | 0 <= i < |st.sends| ensures SendOk(st, st.sends[i]) {
    }
  }

  /** What the submitters asked for, in order. */
  function Submitted(steps: seq<Step>): seq<(nat, nat)> {
    if steps == [] then []
    else (if steps[0].Submit? then [(steps[0].txn, steps[0].lsn)] else []) + Submitted(steps[1..])
  }

  /** What the flushes that ended returned, in order. */
  function FlushResults(st: State, steps: seq<Step>): seq<bool>
    decreases |steps|
  {
    if steps == [] then []
    else (if steps[0].FlushEnd? && st.worker.Flushing? then [steps[0].ok] else []) + FlushResults(Apply(st, steps[0]), steps[1..])
  }

  function Payload(rs: seq<Request>): seq<(nat, nat)> {
    seq(|rs|, i requires 0 <= i < |rs| => (rs[i].txn, rs[i].lsn))
  }

  function Asked(sends: seq<Send>): seq<Request> {
    seq(|sends|, i requires 0 <= i < |sends| => sends[i].request)
  }

  /** All requests there are: answered, in flight and pending. */
  function Requests(st: State): seq<Request> {
    Asked(st.sends) + InFlight(st) + st.pending
  }

  /** In every run the requests, answered ones first, are exactly what was submitted, with their transactions
      and LSNs, and the recorded flushes are exactly what the flushes returned. */
  lemma {:induction false} RequestsAreSubmissions(config: Config, steps: seq<Step>)
    ensures var st := Exec(Start(config), steps);
            && Payload(Requests(st)) == Submitted(steps)
            && (|st.flushes| == |FlushResults(Start(config), steps)|
                && forall f | 0 <= f < |st.flushes| :: st.flushes[f].ok == FlushResults(Start(config), steps)[f])
  {
    var st := Start(config);
    assert Requests(st) == [];
    RequestsGrow(st, steps);
    FlushesGrow(st, steps);
    assert [] + Submitted(steps) == Submitted(steps);
  }

  lemma {:induction false} RequestsGrow(st: State, steps: seq<Step>)
    requires Inv(st)
    ensures Payload(Requests(Exec(st, steps))) == Payload(Requests(st)) + Submitted(steps)
    decreases |steps|
  {
    hide Apply, Inv, Requests, Payload;
    if steps != [] {
      RequestsStep(st, steps[0]);
      StepKeepsInv(st, steps[0]);
      RequestsGrow(Apply(st, steps[0]), steps[1..]);
    }
  }

  lemma PayloadAppends(rs: seq<Request>, r: Request)
    ensures Payload(rs + [r]) == Payload(rs) + [(r.txn, r.lsn)]
  {
  }

  /** Answering the first of a batch only moves it across. */
  lemma Answered(sends: seq<Send>, batch: seq<Request>, sends': seq<Send>, batch': seq<Request>)
    ensures batch != [] && batch' == batch[1..] && |sends'| == |sends| + 1 && sends'[..|sends|] == sends
            && sends'[|sends|].request == batch[0] ==>
              Asked(sends') + batch' == Asked(sends) + batch
  {
    if |sends'| == |sends| + 1 && sends'[..|sends|] == sends {
      assert forall i | 0 <= i < |sends| :: sends'[i] == sends[i] by {
        assert forall i | 0 <= i < |sends| :: sends'[i] == sends'[..|sends|][i];
      }
      assert Asked(sends') == Asked(sends) + [sends'[|sends|].request];
    }
  }

  lemma RequestsStep(st: State, step: Step)
    requires Inv(st)
    ensures Payload(Requests(Apply(st, step))) ==
            Payload(Requests(st)) + if step.Submit? then [(step.txn, step.lsn)] else []
  {
    assert ThreadsOk(st);
    Moves(st, step);
    var st' := Apply(st, step);
    assert step.Submit? ==> st'.pending == st.pending + [Request(st.submitted, step.txn, step.lsn, st'.now)];
    assert step.Submit? <==> st'.submitted == st.submitted + 1;
    hide Apply, InFlight, Inv, ThreadsOk, Asked, Payload;
    if step.Submit? {
      assert Requests(st') == Requests(st) + st'.pending[|st.pending|..];
      PayloadAppends(Requests(st), Request(st.submitted, step.txn, step.lsn, st'.now));
    } else {
      Answered(st.sends, InFlight(st), st'.sends, InFlight(st'));
      assert Requests(st') == Requests(st);
      assert Payload(Requests(st)) + [] == Payload(Requests(st));
    }
  }

  lemma FlushesStep(st: State, step: Step)
    ensures Apply(st, step).flushes ==
            st.flushes +
            if step.FlushEnd? && st.worker.Flushing? then
              [FlushRecord(st.worker.begun, st.now + 1, step.ok, |st.worker.batch|, step.wait)]
            else []
  {
    hide ShouldFlush, Recorded, Verdict;
  }

  lemma {:induction false} FlushesGrow(st: State, steps: seq<Step>)
    ensures var before, after, results := st.flushes, Exec(st, steps).flushes, FlushResults(st, steps);
            && before <= after && |after| == |before| + |results|
            && forall f | 0 <= f < |results| :: after[|before| + f].ok == results[f]
    decreases |steps|
  {
    hide Apply;
    if steps != [] {
      FlushesStep(st, steps[0]);
      FlushesGrow(Apply(st, steps[0]), steps[1..]);
    }
  }

  /** One fsync per batch, the commit counter is the number of requests those batches held, and every one of
      them is charged the wait of its batch. */
  lemma {:induction false} MetricsAreExact(config: Config, steps: seq<Step>)
    ensures var st := Exec(Start(config), steps);
            && st.metrics.totalFsyncs == st.metrics.totalBatches == |st.flushes|
            && st.metrics.totalCommits == TotalSize(st.flushes) >= st.metrics.totalFsyncs
            && (forall f | 0 <= f < |st.flushes| :: st.flushes[f].size <= st.metrics.maxBatchSize)
            && (if st.flushes == [] then st.metrics.maxBatchSize == 0
                else exists f | 0 <= f < |st.flushes| :: st.flushes[f].size == st.metrics.maxBatchSize)
            && st.metrics.totalWait == TotalWait(st.flushes)
  {
    RunKeepsInv(Start(config), steps);
    var st := Exec(Start(config), steps);
    hide Exec;
    SizesBound(st.flushes);
  }

  lemma {:induction false} SizesBound(flushes: seq<FlushRecord>)
    requires forall f | 0 <= f < |flushes| :: flushes[f].size > 0
    ensures TotalSize(flushes) >= |flushes|
    ensures forall f | 0 <= f < |flushes| :: flushes[f].size <= LargestSize(flushes)
    ensures flushes != [] ==> exists f | 0 <= f < |flushes| :: flushes[f].size == LargestSize(flushes)
  {
    if flushes != [] {
      var shorter := flushes[..|flushes| - 1];
      SizesBound(shorter);
      assert forall f | 0 <= f < |shorter| :: shorter[f] == flushes[f];
      assert shorter == [] ==> flushes[0].size == LargestSize(flushes);
    }
  }

  // ---------------------------------------------------------------------------
  // Shutdown
  // ---------------------------------------------------------------------------

  lemma NothingMovesAfterReturn(st: State, step: Step)
    requires Inv(st) && st.closer.Returned?
    ensures var st' := Apply(st, step);
            st'.closer.Returned? && st'.sends == st.sends && st'.drainMark == st.drainMark
  {
    hide TotalSize, LargestSize, Reported, InFlight;
  }

  lemma {:induction false} SilentAfterReturn(st: State, steps: seq<Step>)
    requires Inv(st) && st.closer.Returned?
    ensures Exec(st, steps).sends == st.sends
    decreases |steps|
  {
    if steps != [] {
      StepKeepsInv(st, steps[0]);
      NothingMovesAfterReturn(st, steps[0]);
      SilentAfterReturn(Apply(st, steps[0]), steps[1..]);
    }
  }

  /** Once shutdown has returned, a request is answered, now or in any continuation, exactly if it
      was queued before the final drain. */
  lemma {:induction false} AnsweredByShutdownIff(config: Config, steps: seq<Step>, later: seq<Step>, id: nat)
    requires Exec(Start(config), steps).closer.Returned?
    ensures var st := Exec(Start(config), steps);
            && (IsAnswered(st, id) <==> id < st.drainMark)
            && (IsAnswered(Exec(st, later), id) <==> id < st.drainMark)
  {
    RunKeepsInv(Start(config), steps);
    var st := Exec(Start(config), steps);
    RunKeepsInv(st, later);
    SilentAfterReturn(st, later);
    WhereIs(st, id);
    WhereIs(Exec(st, later), id);
    assert InFlight(st) == [];
  }

  function WorkerPhase(w: Worker): nat {
    match w
    case NoWorker => 0
    case Exited => 0
    case AtLoopTop => 1
    case Notifying(_, _) => 2
    case Flushing(_, _) => 3
    case Drained(_) => 4
    case ReadyToDrain => 5
    case Checking => 6
  }

  function CloserPhase(c: Closer): nat {
    match c
    case Returned => 0
    case Failing(_, _) => 1
    case Joined => 2
    case FlagRaised => 3
    case Running => 4
  }

  function Remaining(st: State): nat {
    if st.worker.Notifying? && st.worker.next <= |st.worker.batch| then |st.worker.batch| - st.worker.next
    else if st.closer.Failing? && st.closer.next <= |st.closer.rest| then |st.closer.rest| - st.closer.next
    else 0
  }

  /** Work left until shutdown returns: no submission adds to it and every other step reduces it. */
  function Phase(st: State): nat {
    WorkerPhase(st.worker) + CloserPhase(st.closer)
  }

  predicate Before(a: State, b: State) {
    Phase(a) < Phase(b) || (Phase(a) == Phase(b) && Remaining(a) < Remaining(b))
  }

  function NextStep(st: State): Step {
    match st.worker
    case AtLoopTop => WorkerLoop
    case Checking => WorkerCheck(0)
    case ReadyToDrain => WorkerDrain
    case Drained(_) => FlushBegin
    case Flushing(_, _) => FlushEnd(true, 0)
    case Notifying(_, _) => WorkerNotify
    case _ =>
      match st.closer
      case Running => RaiseFlag
      case FlagRaised => Join
      case Joined => CloserDrain
      case Failing(_, _) => CloserNotify
      case Returned => Join
  }

  lemma CanMove(st: State)
    requires ThreadsOk(st) && !st.closer.Returned?
    ensures Enabled(st, NextStep(st)) && !NextStep(st).Submit?
  {
    hide InFlight;
  }

  lemma MovesCloser(st: State, step: Step)
    requires ThreadsOk(st) && st.shutdown && Enabled(st, step) && !step.Submit?
    requires st.closer.Running? <==> !st.shutdown
    ensures Before(Apply(st, step), st)
  {
    hide InFlight, ShouldFlush, Recorded;
  }

  /** Shutdown cannot get stuck: until it returns some thread can move, and under any schedule
      each such move brings it closer, however many submissions come in between. */
  lemma {:induction false} ShutdownMakesProgress(config: Config, steps: seq<Step>, step: Step)
    requires Exec(Start(config), steps).shutdown
    ensures var st := Exec(Start(config), steps);
            && (!st.closer.Returned? ==> Enabled(st, NextStep(st)) && !NextStep(st).Submit?)
            && (Enabled(st, step) && !step.Submit? ==> Before(Apply(st, step), st))
            && (step.Submit? ==> Phase(Apply(st, step)) == Phase(st) && Remaining(Apply(st, step)) == Remaining(st))
  {
    RunKeepsInv(Start(config), steps);
    FlagMeansClosing(Start(config), steps);
    var st := Exec(Start(config), steps);
    hide Exec, ThreadsOk, InOrder, TimesOk, SendsOk, BatchesOk, MetricsOk, InFlight, Recorded;
    if Enabled(st, step) && !step.Submit? {
      MovesCloser(st, step);
    }
    if !st.closer.Returned? {
      CanMove(st);
    }
  }

  /** The flag is up exactly from the moment `shutdown` was entered. */
  lemma {:induction false} FlagMeansClosing(st: State, steps: seq<Step>)
    requires st.closer.Running? <==> !st.shutdown
    ensures Exec(st, steps).closer.Running? <==> !Exec(st, steps).shutdown
    decreases |steps|
  {
    if steps != [] {
      FlagMeansClosing(Apply(st, steps[0]), steps[1..]);
    }
  }
}

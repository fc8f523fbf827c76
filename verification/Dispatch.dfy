/** The message dispatch protocol: many senders, handler threads, threads waiting for
    quiescence and destructors share the queues of a message manager. Each action is one atomic
    operation or one critical section; a check that leads to sleeping and the sleep itself are two
    actions with the mutex held in between.

    A message is known by its ticket: the n-th message ever enqueued on a queue has ticket n. The
    fields `status`, `origins`, `popped` and `handled` of a queue are history; no action reads
    them to decide anything.
 */
module Dispatch {
  import opened Wrappers

  type Id = nat
  type Tid = nat

  datatype Order = FIFO | FILO | RANDOM

  /** Where a ticket is. A dropped message was popped by a worker that was stopped before its
      second look at the running flag. */
  datatype Status = Queued | Held(worker: Tid) | Handled | Dropped

  /** The callback (queue and ticket) from whose inside a message was sent. */
  datatype Origin = Origin(queue: Id, ticket: nat)

  datatype Queue = Queue(
    pending: seq<nat>,
    busy: int,
    owner: Option<Tid>,
    status: seq<Status>,
    origins: seq<Option<Origin>>,
    popped: seq<nat>,
    handled: seq<nat>)

  /** Progress of a call into the library: send_message, wait_until_empty, or the destructor of a
      handler. */
  datatype Request =
    | Idle
    | SendLocking(to: Id, limit: nat)
    | SendFull(to: Id, limit: nat)
    | SendAsleep(to: Id, limit: nat, notified: bool)
    | Announcing(to: Id)
    | WaitLocking(to: Id)
    | WaitChecked(to: Id)
    | WaitAsleep(to: Id, notified: bool)
    | Stopping(worker: Tid)
    | Joining(worker: Tid)

  /** Where a thread is in its own code: outside the library, or somewhere in the worker loop. */
  datatype Job =
    | Free
    | LoopTop
    | Locking
    | AboutToSleep
    | Asleep(notified: bool)
    | Inside
    | Carrying(ticket: nat)
    | EmptyHanded
    | Running(ticket: nat)
    | Reporting(stillBusy: int)
    | Exited

  datatype Thread = Thread(job: Job, request: Request)

  datatype Handler = Handler(home: Id, order: Order)

  datatype State = State(
    handlers: map<Tid, Handler>,
    queues: map<Id, Queue>,
    threads: map<Tid, Thread>,
    running: set<Tid>,
    fault: bool)

  datatype WorkerStep =
    | TestFlag
    | Enter
    | Sleep
    | Wake
    | Take(random: nat)
    | Recheck
    | Finish
    | Report

  datatype RequestStep =
    | BeginSend(to: Id, limit: nat)
    | TrySend
    | SendSleep
    | SendWake
    | Announce
    | BeginWait(to: Id)
    | CheckEmpty
    | WaitSleep
    | WaitWake
    | StopFlag(worker: Tid)
    | StopNotify
    | Join

  datatype Action = Work(tid: Tid, work: WorkerStep) | Ask(tid: Tid, ask: RequestStep)

  /** A notify_all: on the condition variable shared by the workers and the blocked senders of a
      queue, or on the one of wait_until_empty. */
  datatype Notice = Nobody | Workers(of: Id) | Waiters(of: Id)

  datatype Change = NoChange | Change(at: Id, queue: Queue)

  /** What an action does: the acting thread's new state, at most one queue's new state and at most
      one notification. `Fault` stands for undefined behaviour. */
  datatype Effect = Fault | Effect(thread: Thread, change: Change, notice: Notice)

  function Noticed(handlers: map<Tid, Handler>, i: Tid, th: Thread, notice: Notice): Thread
  {
    match notice
    case Nobody => th
    case Workers(q) =>
      Thread(if th.job.Asleep? && i in handlers && handlers[i].home == q then Asleep(true) else th.job,
             if th.request.SendAsleep? && th.request.to == q then SendAsleep(q, th.request.limit, true)
             else th.request)
    case Waiters(q) =>
      if th.request.WaitAsleep? && th.request.to == q then th.(request := WaitAsleep(q, true)) else th
  }

  // ---------- queues ----------

  function Without<T>(xs: seq<T>, k: nat): seq<T>
    requires k < |xs|
  {
    xs[..k] + xs[k + 1..]
  }

  predicate IndexAllowed(order: Order, random: nat, length: nat) {
    length > 0 && (order == RANDOM ==> random < length)
  }

  function PopIndex(order: Order, random: nat, length: nat): (k: nat)
    requires IndexAllowed(order, random, length)
    ensures k < length
  {
    match order
    case FIFO => 0
    case FILO => length - 1
    case RANDOM => random
  }

  function Popped(queue: Queue, k: nat, worker: Tid): Queue
    requires k < |queue.pending| && queue.pending[k] < |queue.status|
  {
    var t := queue.pending[k];
    queue.(pending := Without(queue.pending, k), busy := queue.busy + 1, owner := None,
    status := queue.status[t := Held(worker)], popped := queue.popped + [t])
  }

  function Enqueued(queue: Queue, origin: Option<Origin>): Queue
  {
    queue.(pending := queue.pending + [|queue.status|], status := queue.status + [Queued],
    origins := queue.origins + [origin])
  }

  function Completed(queue: Queue, t: nat): Queue
    requires t < |queue.status|
  {
    queue.(busy := queue.busy - 1, status := queue.status[t := Handled], handled := queue.handled + [t])
  }

  predicate Quiet(queue: Queue) {
    queue.pending == [] && queue.busy == 0
  }

  // ---------- actions ----------

  predicate IsWorker(s: State, i: Tid) {
    i in s.handlers && s.handlers[i].home in s.queues
  }

  /** Requests are made outside the library or from inside a running callback. */
  predicate MayAsk(s: State, i: Tid) {
    i in s.threads && (s.threads[i].job.Free? || (s.threads[i].job.Running? && IsWorker(s, i)))
  }

  function OriginOf(s: State, i: Tid): Option<Origin>
    requires MayAsk(s, i)
  {
    var job := s.threads[i].job;
    if job.Running? then Some(Origin(s.handlers[i].home, job.ticket)) else None
  }

  predicate LockFree(s: State, q: Id) {
    q in s.queues && s.queues[q].owner.None?
  }

  /** When a step of a worker can happen. Take has no guard on the queue being non-empty: the code
      pops without looking again. */
  predicate WorkerEnabled(s: State, i: Tid, step: WorkerStep)
  {
    && i in s.threads && IsWorker(s, i)
    && var job := s.threads[i].job;
       match step
       case TestFlag => job.LoopTop?
       case Enter => job.Locking? && LockFree(s, s.handlers[i].home)
       case Sleep => job.AboutToSleep?
       case Wake => job.Asleep?
       case Take(random) =>
         job.Inside? &&
         var pending := s.queues[s.handlers[i].home].pending;
         pending != [] ==> IndexAllowed(s.handlers[i].order, random, |pending|)
       case Recheck => job.Carrying? || job.EmptyHanded?
       case Finish => job.Running? && s.threads[i].request.Idle?
       case Report => job.Reporting? && LockFree(s, s.handlers[i].home)
  }

  predicate RequestEnabled(s: State, i: Tid, step: RequestStep)
  {
    && MayAsk(s, i)
    && var request := s.threads[i].request;
       match step
       case BeginSend(to, _) => request.Idle? && to in s.queues
       case TrySend => request.SendLocking? && LockFree(s, request.to)
       case SendSleep => request.SendFull? && request.to in s.queues
       case SendWake => request.SendAsleep?
       case Announce => request.Announcing?
       case BeginWait(to) => request.Idle? && to in s.queues
       case CheckEmpty => request.WaitLocking? && LockFree(s, request.to)
       case WaitSleep => request.WaitChecked? && request.to in s.queues
       case WaitWake => request.WaitAsleep?
       case StopFlag(w) => request.Idle? && IsWorker(s, w) && w in s.running && LockFree(s, s.handlers[w].home)
       case StopNotify => request.Stopping? && IsWorker(s, request.worker)
       case Join => request.Joining? && request.worker in s.threads && s.threads[request.worker].job.Exited?
  }

  predicate Enabled(s: State, a: Action)
  {
    match a
    case Work(i, step) => WorkerEnabled(s, i, step)
    case Ask(i, step) => RequestEnabled(s, i, step)
  }

  function OnlyJob(th: Thread, job: Job): Effect {
    Effect(th.(job := job), NoChange, Nobody)
  }

  function OnlyRequest(th: Thread, request: Request): Effect {
    Effect(th.(request := request), NoChange, Nobody)
  }

  function Owning(queue: Queue, q: Id, owner: Option<Tid>): Change {
    Change(q, queue.(owner := owner))
  }

  function EnterEffect(s: State, i: Tid): Effect
    requires WorkerEnabled(s, i, Enter)
  {
    var q, th := s.handlers[i].home, s.threads[i];
    var mustWait := s.queues[q].pending == [] && i in s.running;
    Effect(th.(job := if mustWait then AboutToSleep else Inside), Owning(s.queues[q], q, Some(i)), Nobody)
  }

  function TakeEffect(s: State, i: Tid, random: nat): Effect
    requires WorkerEnabled(s, i, Take(random))
  {
    var q, th := s.handlers[i].home, s.threads[i];
    var queue := s.queues[q];
    if i !in s.running then Effect(th.(job := EmptyHanded), Owning(queue, q, None), Nobody)
    else if queue.pending == [] then Fault
    else
      var k := PopIndex(s.handlers[i].order, random, |queue.pending|);
      if queue.pending[k] >= |queue.status| then Fault
      else Effect(th.(job := Carrying(queue.pending[k])), Change(q, Popped(queue, k, i)), Nobody)
  }

  function RecheckEffect(s: State, i: Tid): Effect
    requires WorkerEnabled(s, i, Recheck)
  {
    var q, th := s.handlers[i].home, s.threads[i];
    var queue := s.queues[q];
    if th.job.EmptyHanded? then OnlyJob(th, LoopTop)
    else if i in s.running then OnlyJob(th, Running(th.job.ticket))
    else if th.job.ticket >= |queue.status| then Fault
    else Effect(th.(job := LoopTop), Change(q, queue.(status := queue.status[th.job.ticket := Dropped])), Nobody)
  }

  function FinishEffect(s: State, i: Tid): Effect
    requires WorkerEnabled(s, i, Finish)
  {
    var q, th := s.handlers[i].home, s.threads[i];
    var queue := s.queues[q];
    if th.job.ticket >= |queue.status| then Fault
    else Effect(th.(job := Reporting(queue.busy - 1)), Change(q, Completed(queue, th.job.ticket)), Nobody)
  }

  /** The locked check uses the value that this worker's own decrement returned. */
  function ReportEffect(s: State, i: Tid): Effect
    requires WorkerEnabled(s, i, Report)
  {
    var q, th := s.handlers[i].home, s.threads[i];
    var notice := if s.queues[q].pending == [] && th.job.stillBusy == 0 then Waiters(q) else Nobody;
    Effect(th.(job := LoopTop), NoChange, notice)
  }

  function TrySendEffect(s: State, i: Tid): Effect
    requires RequestEnabled(s, i, TrySend)
  {
    var th := s.threads[i];
    var to, limit := th.request.to, th.request.limit;
    var queue := s.queues[to];
    if limit == 0 || |queue.pending| < limit
    then Effect(th.(request := Announcing(to)), Change(to, Enqueued(queue, OriginOf(s, i))), Nobody)
    else Effect(th.(request := SendFull(to, limit)), Owning(queue, to, Some(i)), Nobody)
  }

  function CheckEmptyEffect(s: State, i: Tid): Effect
    requires RequestEnabled(s, i, CheckEmpty)
  {
    var th := s.threads[i];
    var q := th.request.to;
    if Quiet(s.queues[q]) then OnlyRequest(th, Idle)
    else Effect(th.(request := WaitChecked(q)), Owning(s.queues[q], q, Some(i)), Nobody)
  }

  function WorkerEffect(s: State, i: Tid, step: WorkerStep): Effect
    requires WorkerEnabled(s, i, step)
  {
    var q, th := s.handlers[i].home, s.threads[i];
    match step
    case TestFlag => OnlyJob(th, if i in s.running then Locking else Exited)
    case Enter => EnterEffect(s, i)
    case Sleep => Effect(th.(job := Asleep(false)), Owning(s.queues[q], q, None), Nobody)
    case Wake => OnlyJob(th, Locking)
    case Take(random) => TakeEffect(s, i, random)
    case Recheck => RecheckEffect(s, i)
    case Finish => FinishEffect(s, i)
    case Report => ReportEffect(s, i)
  }

  /** Going to sleep inside a request gives the mutex back. */
  function SleepEffect(s: State, i: Tid, asleep: Request): Effect
    requires i in s.threads && (asleep.SendAsleep? || asleep.WaitAsleep?) && asleep.to in s.queues
  {
    Effect(s.threads[i].(request := asleep), Owning(s.queues[asleep.to], asleep.to, None), Nobody)
  }

  function RequestEffect(s: State, i: Tid, step: RequestStep): Effect
    requires RequestEnabled(s, i, step)
  {
    var th := s.threads[i];
    match step
    case BeginSend(to, limit) => OnlyRequest(th, SendLocking(to, limit))
    case TrySend => TrySendEffect(s, i)
    case SendSleep => SleepEffect(s, i, SendAsleep(th.request.to, th.request.limit, false))
    case SendWake => OnlyRequest(th, SendLocking(th.request.to, th.request.limit))
    case Announce => Effect(th.(request := Idle), NoChange, Workers(th.request.to))
    case BeginWait(to) => OnlyRequest(th, WaitLocking(to))
    case CheckEmpty => CheckEmptyEffect(s, i)
    case WaitSleep => SleepEffect(s, i, WaitAsleep(th.request.to, false))
    case WaitWake => OnlyRequest(th, WaitLocking(th.request.to))
    case StopFlag(w) => OnlyRequest(th, Stopping(w))
    case StopNotify =>
      Effect(th.(request := Joining(th.request.worker)), NoChange, Workers(s.handlers[th.request.worker].home))
    case Join => OnlyRequest(th, Idle)
  }

  function EffectOf(s: State, a: Action): Effect
    requires Enabled(s, a)
  {
    match a
    case Work(i, step) => WorkerEffect(s, i, step)
    case Ask(i, step) => RequestEffect(s, i, step)
  }

  function ThreadAfter(s: State, i: Tid, e: Effect, j: Tid): Thread
    requires j in s.threads && e.Effect?
  {
    Noticed(s.handlers, j, if j == i then e.thread else s.threads[j], e.notice)
  }

  function QueueAfter(s: State, e: Effect, q: Id): Queue
    requires q in s.queues && e.Effect?
  {
    if e.change.Change? && e.change.at == q then e.change.queue else s.queues[q]
  }

  /** The state after thread i had effect e. */
  function Commit(s: State, i: Tid, e: Effect, running: set<Tid>): State
  {
    if e.Fault? then s.(fault := true)
    else State(
           s.handlers,
           map q | q in s.queues :: QueueAfter(s, e, q),
           map j | j in s.threads :: ThreadAfter(s, i, e, j),
           running,
           s.fault)
  }

  function RunningAfter(s: State, a: Action): set<Tid> {
    if a.Ask? && a.ask.StopFlag? then s.running - {a.ask.worker} else s.running
  }

  function Apply(s: State, a: Action): State
    requires Enabled(s, a)
  {
    Commit(s, a.tid, EffectOf(s, a), RunningAfter(s, a))
  }

  const EMPTY_QUEUE := Queue([], 0, None, [], [], [], [])

  /** Every queue empty, every handler at the top of its loop with its flag set, every other
      thread outside the library. */
  ghost predicate Init(s: State)
  {
    && !s.fault
    && s.running == s.handlers.Keys
    && s.handlers.Keys <= s.threads.Keys
    && (forall q <- s.queues :: s.queues[q] == EMPTY_QUEUE)
    && (forall i <- s.handlers :: s.handlers[i].home in s.queues)
    && (forall i <- s.threads :: s.threads[i] == Thread(if i in s.handlers then LoopTop else Free, Idle))
  }

  /** A run: states and the actions between them, with any interleaving. */
  ghost predicate IsRun(states: seq<State>, actions: seq<Action>)
  {
    && |states| == |actions| + 1
    && Init(states[0])
    && forall n {:trigger actions[n]} :: 0 <= n < |actions| ==>
         Enabled(states[n], actions[n]) && states[n + 1] == Apply(states[n], actions[n])
  }
}

/** How threads move: what every step of every run may do to where a thread is in its code, stated on
    the states before and after the step, and which steps are open to a thread. */
module DispatchControl {
  import opened Wrappers
  import opened Dispatch
  import opened DispatchInvariants
  import opened DispatchRuns

  // ---------- one step ----------

  /** What is left of a state after an action: handlers and domains stay, threads and queues change
      as the effect says. */
  lemma Applied(s: State, a: Action, j: Tid, q: Id)
    requires Enabled(s, a) && EffectOf(s, a).Effect?
    ensures var s', e := Apply(s, a), EffectOf(s, a);
            && s'.handlers == s.handlers && s'.running == RunningAfter(s, a)
            && s'.threads.Keys == s.threads.Keys && s'.queues.Keys == s.queues.Keys
            && (j in s.threads ==> s'.threads[j] == ThreadAfter(s, a.tid, e, j))
            && (q in s.queues ==> s'.queues[q] == QueueAfter(s, e, q))
  {
    var e := EffectOf(s, a);
    assert Commit(s, a.tid, e, RunningAfter(s, a)).threads.Keys == s.threads.Keys;
    assert Commit(s, a.tid, e, RunningAfter(s, a)).queues.Keys == s.queues.Keys;
  }

  /** Whether the home of worker w is q. */
  predicate AtHome(s: State, w: Tid, q: Id) {
    w in s.handlers && s.handlers[w].home == q
  }

  /** Some thread makes the notify_all that wakes the workers and senders of q: a sender after its
      push, or a destructor after it has cleared the flag of a worker of q. */
  predicate NotifiesWorkers(s: State, s': State, i: Tid, q: Id) {
    && i in s.threads && i in s'.threads
    && (|| (s.threads[i].request == Announcing(q) && s'.threads[i].request == Idle)
        || (&& s.threads[i].request.Stopping? && s'.threads[i].request == Joining(s.threads[i].request.worker)
            && AtHome(s, s.threads[i].request.worker, q)))
  }

  /** A worker of q whose own decrement gave 0 finds the deque empty, under the lock. */
  predicate NotifiesWaiters(s: State, s': State, i: Tid, q: Id) {
    && i in s.threads && i in s'.threads && AtHome(s, i, q) && q in s.queues
    && s.threads[i].job == Reporting(0) && s'.threads[i].job == LoopTop && s.queues[q].pending == []
  }

  /** The steps of the worker loop of thread j, whose home queue goes from `queue` to `queue'`. */
  predicate JobMoves(j: Tid, isRunning: bool, th: Thread, after: Job, queue: Queue, queue': Queue, notice: bool)
  {
    th.job == after ||
    match th.job
    case Free => false
    case LoopTop => after == if isRunning then Locking else Exited
    case Locking =>
      && queue.owner == None && queue'.owner == Some(j)
      && after == if queue.pending == [] && isRunning then AboutToSleep else Inside
    case AboutToSleep => after == Asleep(false) && queue'.owner == None
    case Asleep(_) => after == Locking || (notice && after == Asleep(true))
    case Inside =>
      && queue'.owner == None
      && if isRunning
         then after.Carrying? && StatusIs(queue, after.ticket, Queued) && StatusIs(queue', after.ticket, Held(j))
         else after == EmptyHanded
    case Carrying(t) => if isRunning then after == Running(t) else after == LoopTop && StatusIs(queue', t, Dropped)
    case EmptyHanded => after == LoopTop
    case Running(t) => th.request == Idle && after == Reporting(queue'.busy) && StatusIs(queue', t, Handled)
    case Reporting(_) => after == LoopTop
    case Exited => false
  }

  predicate HasRoom(queue: Queue, limit: nat) {
    limit == 0 || |queue.pending| < limit
  }

  /** From whose callback a thread sends. */
  function Sender(handlers: map<Tid, Handler>, j: Tid, job: Job): Option<Origin> {
    if job.Running? && j in handlers then Some(Origin(handlers[j].home, job.ticket)) else None
  }

  /** A push appends one ticket, and records where it comes from. */
  predicate Pushes(queue: Queue, queue': Queue, origin: Option<Origin>) {
    && queue'.status == queue.status + [Queued]
    && queue'.pending == queue.pending + [|queue.status|]
    && queue'.origins == queue.origins + [origin]
  }

  /** The steps of a send or a wait on one queue. */
  predicate CallMoves(j: Tid, before: Request, after: Request, queue: Queue, queue': Queue, origin: Option<Origin>,
                      toWorkers: bool, toWaiters: bool)
    requires OnQueue(before)
  {
    match before
    case SendLocking(q, limit) =>
      && queue.owner == None
      && if HasRoom(queue, limit) then after == Announcing(q) && Pushes(queue, queue', origin)
         else after == SendFull(q, limit) && queue'.owner == Some(j)
    case SendFull(q, limit) => after == SendAsleep(q, limit, false) && queue'.owner == None
    case SendAsleep(q, limit, _) => after == SendLocking(q, limit) || (toWorkers && after == SendAsleep(q, limit, true))
    case Announcing(_) => after == Idle
    case WaitLocking(q) =>
      && queue.owner == None
      && if Quiet(queue) then after == Idle else after == WaitChecked(q) && queue'.owner == Some(j)
    case WaitChecked(q) => after == WaitAsleep(q, false) && queue'.owner == None
    case WaitAsleep(q, _) => after == WaitLocking(q) || (toWaiters && after == WaitAsleep(q, true))
  }

  /** The beginning of a request, and the steps of a handler's destructor. */
  predicate OuterMoves(s: State, th: Thread, after: Request, running': set<Tid>)
    requires !OnQueue(th.request)
  {
    match th.request
    case Idle =>
      && (th.job.Free? || th.job.Running?)
      && (|| ((after.SendLocking? || after.WaitLocking?) && after.to in s.queues)
          || (after.Stopping? && after.worker in s.running && running' == s.running - {after.worker}))
    case Stopping(w) => after == Joining(w)
    case Joining(w) => after == Idle && w in s.threads && s.threads[w].job == Exited
  }

  /** A notify_all leaves nobody asleep un-notified on its condition variable. */
  ghost predicate NoticesReach(s: State, s': State, i: Tid, j: Tid, q: Id)
    requires j in s'.threads
  {
    && (NotifiesWorkers(s, s', i, q) ==>
          && (AtHome(s, j, q) ==> s'.threads[j].job != Asleep(false))
          && (s'.threads[j].request.SendAsleep? && s'.threads[j].request.to == q ==> s'.threads[j].request.notified))
    && (NotifiesWaiters(s, s', i, q) ==> s'.threads[j].request != WaitAsleep(q, false))
  }

  lemma WorkerMoves(s: State, i: Tid, step: WorkerStep)
    requires Exclusive(s) && Tickets(s) && WorkerEnabled(s, i, step) && WorkerEffect(s, i, step).Effect?
    ensures var e, q := WorkerEffect(s, i, step), s.handlers[i].home;
            && JobMoves(i, i in s.running, s.threads[i], e.thread.job, s.queues[q], QueueAfter(s, e, q), false)
            && e.thread.request == s.threads[i].request
  {
    var q, th := s.handlers[i].home, s.threads[i];
    var queue := s.queues[q];
    assert SectionOf(s.handlers, i, th) == Some(q) <==> queue.owner == Some(i);
    if Carried(th.job).Some? {
      assert HeldMatches(s.handlers, queue, q, i, th.job, th.job.ticket);
    }
    assert QueueOk(queue);
    if step.Take? && i in s.running {
      assert StatusIs(queue, queue.pending[PopIndex(s.handlers[i].order, step.random, |queue.pending|)], Queued);
    }
  }

  ghost predicate AskMoves(s: State, i: Tid, th: Thread, after: Request, running': set<Tid>, queue': Queue)
    requires OnQueue(th.request) ==> th.request.to in s.queues
  {
    if OnQueue(th.request)
    then
      var queue := s.queues[th.request.to];
      CallMoves(i, th.request, after, queue, queue', Sender(s.handlers, i, th.job), false, false)
    else OuterMoves(s, th, after, running')
  }

  lemma RequestStepMoves(s: State, i: Tid, step: RequestStep)
    requires Shape(s) && RequestEnabled(s, i, step)
    ensures var e, th := RequestEffect(s, i, step), s.threads[i];
            && (OnQueue(th.request) ==> th.request.to in s.queues)
            && e.Effect? && e.thread.job == th.job
            && AskMoves(s, i, th, e.thread.request, RunningAfter(s, Ask(i, step)),
                        if OnQueue(th.request) then QueueAfter(s, e, th.request.to) else EMPTY_QUEUE)
  {
    assert ThreadShape(s.handlers, s.queues.Keys, i, s.threads[i]);
  }

  // ---------- every thread, in every step ----------

  ghost predicate WorkersNoticed(s: State, s': State, q: Id) {
    exists i :: NotifiesWorkers(s, s', i, q)
  }

  ghost predicate WaitersNoticed(s: State, s': State, q: Id) {
    exists i :: NotifiesWaiters(s, s', i, q)
  }

  /** The job of a worker changes only by a step of the worker loop; that of any other thread never. */
  ghost predicate JobMoved(s: State, s': State, j: Tid)
    requires j in s.threads && j in s'.threads
  {
    if j !in s.handlers then s'.threads[j].job == s.threads[j].job
    else
      var q := s.handlers[j].home;
      && q in s.queues && q in s'.queues
      && JobMoves(j, j in s.running, s.threads[j], s'.threads[j].job, s.queues[q], s'.queues[q],
                  WorkersNoticed(s, s', q))
  }

  /** A request changes only by a step of the call that it stands for. */
  ghost predicate RequestMoved(s: State, s': State, j: Tid)
    requires j in s.threads && j in s'.threads
  {
    var th, after := s.threads[j], s'.threads[j].request;
    th.request == after ||
    if OnQueue(th.request)
    then
      var q := th.request.to;
      && q in s.queues && q in s'.queues
      && CallMoves(j, th.request, after, s.queues[q], s'.queues[q], Sender(s.handlers, j, th.job),
                   WorkersNoticed(s, s', q), WaitersNoticed(s, s', q))
    else OuterMoves(s, th, after, s'.running)
  }

  /** The notifications are made by the steps that the code makes them in. */
  lemma NoticeCause(s: State, a: Action, q: Id)
    requires Shape(s) && Enabled(s, a) && EffectOf(s, a).Effect?
    ensures EffectOf(s, a).notice == Workers(q) ==> NotifiesWorkers(s, Apply(s, a), a.tid, q)
    ensures EffectOf(s, a).notice == Waiters(q) ==> NotifiesWaiters(s, Apply(s, a), a.tid, q)
  {
    Applied(s, a, a.tid, q);
    assert ThreadShape(s.handlers, s.queues.Keys, a.tid, s.threads[a.tid]);
    match a {
      case Work(_, _) =>
      case Ask(_, _) =>
    }
  }

  /** A thread's own notification does not concern itself. */
  lemma ActorAfter(s: State, a: Action)
    requires Shape(s) && Enabled(s, a) && EffectOf(s, a).Effect?
    ensures ThreadAfter(s, a.tid, EffectOf(s, a), a.tid) == EffectOf(s, a).thread
  {
    assert ThreadShape(s.handlers, s.queues.Keys, a.tid, s.threads[a.tid]);
    match a {
      case Work(_, _) =>
      case Ask(_, _) =>
    }
  }

  lemma ActorMoved(s: State, a: Action)
    requires Inv(s) && Enabled(s, a) && EffectOf(s, a).Effect?
    ensures a.tid in s.threads && a.tid in Apply(s, a).threads
    ensures JobMoved(s, Apply(s, a), a.tid) && RequestMoved(s, Apply(s, a), a.tid)
  {
    var i, th := a.tid, s.threads[a.tid];
    assert ThreadShape(s.handlers, s.queues.Keys, i, th);
    ActorAfter(s, a);
    if i in s.handlers {
      Applied(s, a, i, s.handlers[i].home);
    }
    Applied(s, a, i, if OnQueue(th.request) then th.request.to else 0);
    match a {
      case Work(_, step) => WorkerMoves(s, i, step);
      case Ask(_, step) => RequestStepMoves(s, i, step);
    }
    hide Inv, Enabled, EffectOf, Apply;
  }

  /** What a notification does to a thread. */
  lemma NoticedThread(handlers: map<Tid, Handler>, j: Tid, th: Thread, notice: Notice)
    ensures var th' := Noticed(handlers, j, th, notice);
            && (|| th'.job == th.job
                || (&& th.job.Asleep? && th'.job == Asleep(true) && j in handlers
                    && notice == Workers(handlers[j].home)))
            && (|| th'.request == th.request
                || (&& th.request.SendAsleep? && th'.request == SendAsleep(th.request.to, th.request.limit, true)
                    && notice == Workers(th.request.to))
                || (&& th.request.WaitAsleep? && th'.request == WaitAsleep(th.request.to, true)
                    && notice == Waiters(th.request.to)))
  {
  }

  lemma OtherMoved(s: State, a: Action, j: Tid)
    requires Shape(s) && Enabled(s, a) && EffectOf(s, a).Effect? && j in s.threads && j != a.tid
    ensures j in Apply(s, a).threads && JobMoved(s, Apply(s, a), j) && RequestMoved(s, Apply(s, a), j)
  {
    hide Enabled, EffectOf, Apply, NotifiesWorkers, NotifiesWaiters, Noticed;
    var th, s', notice := s.threads[j], Apply(s, a), EffectOf(s, a).notice;
    assert ThreadShape(s.handlers, s.queues.Keys, j, th);
    if j in s.handlers {
      Applied(s, a, j, s.handlers[j].home);
    }
    Applied(s, a, j, if OnQueue(th.request) then th.request.to else 0);
    NoticedThread(s.handlers, j, th, notice);
    if notice.Workers? || notice.Waiters? {
      NoticeCause(s, a, notice.of);
    }
    assert notice.Workers? ==> WorkersNoticed(s, s', notice.of);
    assert notice.Waiters? ==> WaitersNoticed(s, s', notice.of);
  }

  /** In every step of every run, every thread stays where it is or moves as the loop of a worker, a
      send, a wait or a destructor moves. */
  lemma RunMoves(states: seq<State>, actions: seq<Action>, n: nat, j: Tid)
    requires IsRun(states, actions) && n < |actions| && j in states[n].threads
    ensures j in states[n + 1].threads
    ensures JobMoved(states[n], states[n + 1], j) && RequestMoved(states[n], states[n + 1], j)
  {
    var s, a := states[n], actions[n];
    RunInv(states, actions, n);
    assert Enabled(s, a) && states[n + 1] == Apply(s, a);
    hide Enabled, Apply, JobMoved, RequestMoved;
    NoFault(s, a);
    if j == a.tid {
      ActorMoved(s, a);
    } else {
      OtherMoved(s, a, j);
    }
  }

  /** The steps after which a notification is due make it. */
  lemma NoticeGiven(s: State, a: Action, q: Id)
    requires Shape(s) && Enabled(s, a) && EffectOf(s, a).Effect?
    ensures var th, e := s.threads[a.tid], EffectOf(s, a);
            && (th.request == Announcing(q) && e.thread.request == Idle ==> e.notice == Workers(q))
            && (th.request.Stopping? && e.thread.request.Joining? && AtHome(s, th.request.worker, q) ==>
                  e.notice == Workers(q))
            && (AtHome(s, a.tid, q) && th.job == Reporting(0) && e.thread.job == LoopTop ==>
                  q in s.queues && (s.queues[q].pending == [] ==> e.notice == Waiters(q)))
  {
    assert ThreadShape(s.handlers, s.queues.Keys, a.tid, s.threads[a.tid]);
    match a {
      case Work(_, _) =>
      case Ask(_, _) =>
    }
  }

  lemma OnlyActorsNotify(s: State, a: Action, i: Tid, q: Id)
    requires Shape(s) && Enabled(s, a) && EffectOf(s, a).Effect?
    ensures NotifiesWorkers(s, Apply(s, a), i, q) ==> EffectOf(s, a).notice == Workers(q)
    ensures NotifiesWaiters(s, Apply(s, a), i, q) ==> EffectOf(s, a).notice == Waiters(q)
  {
    hide Shape, Enabled, EffectOf, Apply, Noticed;
    Applied(s, a, i, q);
    if i in s.threads {
      if i == a.tid {
        ActorAfter(s, a);
        NoticeGiven(s, a, q);
      } else {
        NoticedThread(s.handlers, i, s.threads[i], EffectOf(s, a).notice);
      }
    }
  }

  lemma NoticedReaches(handlers: map<Tid, Handler>, j: Tid, th: Thread, q: Id)
    ensures j in handlers && handlers[j].home == q ==> Noticed(handlers, j, th, Workers(q)).job != Asleep(false)
    ensures var request := Noticed(handlers, j, th, Workers(q)).request;
            request.SendAsleep? && request.to == q ==> request.notified
    ensures Noticed(handlers, j, th, Waiters(q)).request != WaitAsleep(q, false)
  {
  }

  /** Every notification reaches every sleeper: after it nobody sleeps un-notified. */
  lemma NotifyAllReaches(states: seq<State>, actions: seq<Action>, n: nat, i: Tid, j: Tid, q: Id)
    requires IsRun(states, actions) && n < |actions| && j in states[n].threads
    ensures j in states[n + 1].threads && NoticesReach(states[n], states[n + 1], i, j, q)
  {
    var s, a := states[n], actions[n];
    assert Enabled(s, a) && states[n + 1] == Apply(s, a);
    RunInv(states, actions, n);
    NoFault(s, a);
    assert Shape(s);
    hide Inv, Shape, Enabled, EffectOf, Apply, NotifiesWorkers, NotifiesWaiters, Noticed;
    Applied(s, a, j, q);
    OnlyActorsNotify(s, a, i, q);
    var e := EffectOf(s, a);
    NoticedReaches(s.handlers, j, if j == a.tid then e.thread else s.threads[j], q);
  }
}

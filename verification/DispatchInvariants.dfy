/** What every action of the dispatch protocol keeps. For each part of the invariant one lemma looks
    at the effect of an action (`...Of`), and one lemma carries any such effect over to the whole
    state (`...Committed`). */
module DispatchInvariants {
  import opened Wrappers
  import opened Dispatch

  // ---------- shape of threads ----------

  predicate WorkerJob(job: Job) {
    job.LoopTop? || job.Locking? || job.AboutToSleep? || job.Asleep? || job.Inside? || job.Carrying? ||
    job.EmptyHanded? || job.Running? || job.Reporting? || job.Exited?
  }

  predicate OnQueue(request: Request) {
    !request.Idle? && !request.Stopping? && !request.Joining?
  }

  predicate ThreadShape(handlers: map<Tid, Handler>, ids: set<Id>, i: Tid, th: Thread)
  {
    && (WorkerJob(th.job) <==> i in handlers)
    && (!th.request.Idle? ==> th.job.Free? || th.job.Running?)
    && (OnQueue(th.request) ==> th.request.to in ids)
    && (th.request.Stopping? ==> th.request.worker in handlers)
  }

  ghost predicate Shape(s: State)
  {
    && s.handlers.Keys <= s.threads.Keys
    && (forall i <- s.handlers :: s.handlers[i].home in s.queues)
    && (forall i <- s.threads :: ThreadShape(s.handlers, s.queues.Keys, i, s.threads[i]))
  }

  lemma WorkerShape(s: State, i: Tid, step: WorkerStep)
    requires Shape(s) && WorkerEnabled(s, i, step) && WorkerEffect(s, i, step).Effect?
    ensures ThreadShape(s.handlers, s.queues.Keys, i, WorkerEffect(s, i, step).thread)
  {
    assert ThreadShape(s.handlers, s.queues.Keys, i, s.threads[i]);
  }

  lemma RequestShape(s: State, i: Tid, step: RequestStep)
    requires Shape(s) && RequestEnabled(s, i, step) && RequestEffect(s, i, step).Effect?
    ensures ThreadShape(s.handlers, s.queues.Keys, i, RequestEffect(s, i, step).thread)
  {
    assert ThreadShape(s.handlers, s.queues.Keys, i, s.threads[i]);
  }

  lemma ShapeAt(s: State, i: Tid, e: Effect, j: Tid)
    requires Shape(s) && e.Effect? && ThreadShape(s.handlers, s.queues.Keys, i, e.thread) && j in s.threads
    ensures ThreadShape(s.handlers, s.queues.Keys, j, ThreadAfter(s, i, e, j))
  {
  }

  lemma ShapeCommitted(s: State, i: Tid, e: Effect, running: set<Tid>)
    requires Shape(s) && (e.Effect? ==> ThreadShape(s.handlers, s.queues.Keys, i, e.thread))
    ensures Shape(Commit(s, i, e, running))
  {
    if e.Effect? {
      var s' := Commit(s, i, e, running);
      assert s'.queues.Keys == s.queues.Keys;
      forall j <- s'.threads
        ensures ThreadShape(s'.handlers, s'.queues.Keys, j, s'.threads[j])
      {
        ShapeAt(s, i, e, j);
      }
    }
  }

  // ---------- mutual exclusion ----------

  /** The queue on which a thread in state th stands inside a critical section. */
  function SectionOf(handlers: map<Tid, Handler>, i: Tid, th: Thread): Option<Id>
  {
    if (th.job.AboutToSleep? || th.job.Inside?) && i in handlers then Some(handlers[i].home)
    else if th.request.SendFull? || th.request.WaitChecked? then Some(th.request.to)
    else None
  }

  /** The mutex of a queue is owned exactly by the thread inside a critical section on it. */
  ghost predicate Exclusive(s: State)
  {
    && (forall q <- s.queues, i <- s.threads ::
          SectionOf(s.handlers, i, s.threads[i]) == Some(q) <==> s.queues[q].owner == Some(i))
    && (forall q <- s.queues :: s.queues[q].owner.Some? ==> s.queues[q].owner.value in s.threads)
  }

  /** The effect takes the mutex only when it is free, and releases only its own. */
  ghost predicate LockEffect(s: State, i: Tid, e: Effect)
    requires e.Effect? && i in s.threads
  {
    var before, after := SectionOf(s.handlers, i, s.threads[i]), SectionOf(s.handlers, i, e.thread);
    if e.change.NoChange? then before == after
    else
      var q := e.change.at;
      && q in s.queues
      && var ownerBefore, ownerAfter := s.queues[q].owner, e.change.queue.owner;
         || (ownerAfter == ownerBefore && before == after)
         || (ownerBefore == Some(i) && ownerAfter == None && before == Some(q) && after == None)
         || (ownerBefore == None && ownerAfter == Some(i) && before == None && after == Some(q))
  }

  lemma WorkerLock(s: State, i: Tid, step: WorkerStep)
    requires Shape(s) && Exclusive(s) && WorkerEnabled(s, i, step) && WorkerEffect(s, i, step).Effect?
    ensures LockEffect(s, i, WorkerEffect(s, i, step))
  {
    assert ThreadShape(s.handlers, s.queues.Keys, i, s.threads[i]);
  }

  lemma RequestLock(s: State, i: Tid, step: RequestStep)
    requires Shape(s) && Exclusive(s) && RequestEnabled(s, i, step) && RequestEffect(s, i, step).Effect?
    ensures LockEffect(s, i, RequestEffect(s, i, step))
  {
    assert ThreadShape(s.handlers, s.queues.Keys, i, s.threads[i]);
  }

  lemma ExclusiveAt(s: State, i: Tid, e: Effect, q: Id, j: Tid)
    requires Exclusive(s) && i in s.threads && e.Effect? && LockEffect(s, i, e)
    requires q in s.queues && j in s.threads
    ensures SectionOf(s.handlers, j, ThreadAfter(s, i, e, j)) == Some(q) <==> QueueAfter(s, e, q).owner == Some(j)
  {
    assert SectionOf(s.handlers, j, s.threads[j]) == Some(q) <==> s.queues[q].owner == Some(j);
  }

  lemma ExclusiveCommitted(s: State, i: Tid, e: Effect, running: set<Tid>)
    requires Exclusive(s) && i in s.threads && (e.Effect? ==> LockEffect(s, i, e))
    ensures Exclusive(Commit(s, i, e, running))
  {
    if e.Effect? {
      var s' := Commit(s, i, e, running);
      forall q <- s'.queues, j <- s'.threads
        ensures SectionOf(s'.handlers, j, s'.threads[j]) == Some(q) <==> s'.queues[q].owner == Some(j)
      {
        ExclusiveAt(s, i, e, q, j);
      }
      forall q <- s'.queues | s'.queues[q].owner.Some?
        ensures s'.queues[q].owner.value in s'.threads
      {
        assert s'.queues[q] == QueueAfter(s, e, q);
      }
    }
  }

  // ---------- tickets ----------

  /** How many messages are popped and not yet counted down: the held and the dropped ones. */
  function BusyCount(status: seq<Status>): nat
  {
    if status == [] then 0
    else BusyCount(status[..|status| - 1]) + BusyWeight(status[|status| - 1])
  }

  function BusyWeight(st: Status): nat {
    if st.Held? || st.Dropped? then 1 else 0
  }

  lemma {:induction false} BusyCountUpdate(status: seq<Status>, t: nat, st: Status)
    requires t < |status|
    ensures BusyCount(status[t := st]) == BusyCount(status) - BusyWeight(status[t]) + BusyWeight(st)
  {
    var n := |status| - 1;
    if t < n {
      BusyCountUpdate(status[..n], t, st);
      assert status[t := st][..n] == status[..n][t := st];
    } else {
      assert status[t := st][..n] == status[..n];
    }
  }

  lemma {:induction false} BusyCountPositive(status: seq<Status>, t: nat)
    requires t < |status| && BusyWeight(status[t]) == 1
    ensures BusyCount(status) > 0
  {
    BusyCountUpdate(status, t, Handled);
  }

  ghost predicate Ascending(xs: seq<nat>) {
    forall a, b :: 0 <= a < b < |xs| ==> xs[a] < xs[b]
  }

  /** The deque holds exactly the queued tickets, oldest first, and busy counts what was popped and
      not counted down. */
  ghost predicate QueueOk(queue: Queue)
  {
    && |queue.origins| == |queue.status|
    && Ascending(queue.pending)
    && (forall k :: 0 <= k < |queue.pending| ==> StatusIs(queue, queue.pending[k], Queued))
    && (forall t :: 0 <= t < |queue.status| && queue.status[t] == Queued ==> t in queue.pending)
    && queue.busy == BusyCount(queue.status)
  }

  lemma WithoutElements(xs: seq<nat>, k: nat)
    requires k < |xs| && Ascending(xs)
    ensures Ascending(Without(xs, k))
    ensures forall t :: t in Without(xs, k) <==> t in xs && t != xs[k]
  {
    var ys := Without(xs, k);
    assert xs == xs[..k] + [xs[k]] + xs[k + 1..];
    forall t | t in ys
      ensures t in xs && t != xs[k]
    {
      var m :| 0 <= m < |ys| && ys[m] == t;
      assert t == if m < k then xs[m] else xs[m + 1];
    }
  }

  lemma PoppedOk(queue: Queue, k: nat, w: Tid)
    requires QueueOk(queue) && k < |queue.pending|
    ensures QueueOk(Popped(queue, k, w))
  {
    WithoutElements(queue.pending, k);
    BusyCountUpdate(queue.status, queue.pending[k], Held(w));
    var queue' := Popped(queue, k, w);
    forall m | 0 <= m < |queue'.pending|
      ensures StatusIs(queue', queue'.pending[m], Queued)
    {
      assert queue'.pending[m] in queue'.pending;
      assert StatusIs(queue, queue.pending[if m < k then m else m + 1], Queued);
    }
  }

  lemma EnqueuedOk(queue: Queue, origin: Option<Origin>)
    requires QueueOk(queue)
    ensures QueueOk(Enqueued(queue, origin))
  {
    assert (queue.status + [Queued])[..|queue.status|] == queue.status;
    var queue' := Enqueued(queue, origin);
    assert queue'.pending[|queue.pending|] == |queue.status|;
    forall t | 0 <= t < |queue'.status| && queue'.status[t] == Queued
      ensures t in queue'.pending
    {
      assert t < |queue.status| ==> t in queue.pending;
    }
  }

  lemma CompletedOk(queue: Queue, t: nat)
    requires QueueOk(queue) && t < |queue.status| && queue.status[t].Held?
    ensures QueueOk(Completed(queue, t))
  {
    BusyCountUpdate(queue.status, t, Handled);
  }

  lemma DroppedOk(queue: Queue, t: nat)
    requires QueueOk(queue) && t < |queue.status| && queue.status[t].Held?
    ensures QueueOk(queue.(status := queue.status[t := Dropped]))
  {
    BusyCountUpdate(queue.status, t, Dropped);
  }

  /** The ticket a worker has in its hands. */
  function Carried(job: Job): Option<nat> {
    if job.Carrying? || job.Running? then Some(job.ticket) else None
  }

  predicate StatusIs(queue: Queue, t: nat, st: Status) {
    t < |queue.status| && queue.status[t] == st
  }

  /** Ticket t of queue q is held by worker w exactly when w, at home on q, carries it. */
  predicate HeldMatches(handlers: map<Tid, Handler>, queue: Queue, q: Id, w: Tid, job: Job, t: nat)
    requires w in handlers
  {
    StatusIs(queue, t, Held(w)) <==> handlers[w].home == q && Carried(job) == Some(t)
  }

  ghost predicate Tickets(s: State)
  {
    && (forall q <- s.queues :: QueueOk(s.queues[q]))
    && (forall q <- s.queues, w <- s.handlers, t: nat :: w in s.threads ==>
          HeldMatches(s.handlers, s.queues[q], q, w, s.threads[w].job, t))
    && (forall q <- s.queues, t: nat, w :: StatusIs(s.queues[q], t, Held(w)) ==> w in s.handlers)
  }

  /** The acting thread takes a queued ticket into its hands, lets go of the one it carries, or
      leaves every status as it is; a new ticket starts as queued. */
  ghost predicate TicketEffect(s: State, i: Tid, e: Effect)
    requires e.Effect? && i in s.threads
  {
    var before, after := Carried(s.threads[i].job), Carried(e.thread.job);
    if e.change.NoChange? then before == after
    else
      var q := e.change.at;
      && q in s.queues
      && QueueOk(e.change.queue)
      && var status, status' := s.queues[q].status, e.change.queue.status;
         || (before == after && (status' == status || status' == status + [Queued]))
         || (before == None && after.Some? && i in s.handlers && s.handlers[i].home == q &&
             after.value < |status| && status[after.value] == Queued && status' == status[after.value := Held(i)])
         || (before.Some? && after == None && i in s.handlers && s.handlers[i].home == q &&
             before.value < |status| &&
             (status' == status[before.value := Handled] || status' == status[before.value := Dropped]))
  }

  lemma TakeTickets(s: State, i: Tid, random: nat)
    requires Shape(s) && Tickets(s) && WorkerEnabled(s, i, Take(random)) && TakeEffect(s, i, random).Effect?
    ensures TicketEffect(s, i, TakeEffect(s, i, random))
  {
    var queue := s.queues[s.handlers[i].home];
    if i in s.running {
      var k := PopIndex(s.handlers[i].order, random, |queue.pending|);
      PoppedOk(queue, k, i);
      assert StatusIs(queue, queue.pending[k], Queued);
    }
  }

  lemma WorkerTickets(s: State, i: Tid, step: WorkerStep)
    requires Shape(s) && Tickets(s) && WorkerEnabled(s, i, step) && WorkerEffect(s, i, step).Effect?
    ensures TicketEffect(s, i, WorkerEffect(s, i, step))
  {
    var q, job := s.handlers[i].home, s.threads[i].job;
    var queue := s.queues[q];
    match step {
      case Take(random) =>
        TakeTickets(s, i, random);
      case Recheck =>
        if job.Carrying? && i !in s.running {
          assert HeldMatches(s.handlers, queue, q, i, job, job.ticket);
          DroppedOk(queue, job.ticket);
        }
      case Finish =>
        assert HeldMatches(s.handlers, queue, q, i, job, job.ticket);
        CompletedOk(queue, job.ticket);
      case _ =>
    }
  }

  lemma RequestTickets(s: State, i: Tid, step: RequestStep)
    requires Shape(s) && Tickets(s) && RequestEnabled(s, i, step)
    ensures TicketEffect(s, i, RequestEffect(s, i, step))
  {
    if step.TrySend? {
      EnqueuedOk(s.queues[s.threads[i].request.to], OriginOf(s, i));
    }
  }

  lemma HeldAt(s: State, i: Tid, e: Effect, q: Id, w: Tid, t: nat)
    requires Tickets(s) && i in s.threads && e.Effect? && TicketEffect(s, i, e)
    requires q in s.queues && w in s.handlers && w in s.threads
    ensures HeldMatches(s.handlers, QueueAfter(s, e, q), q, w, ThreadAfter(s, i, e, w).job, t)
  {
    assert HeldMatches(s.handlers, s.queues[q], q, w, s.threads[w].job, t);
    if i in s.handlers && Carried(s.threads[i].job).Some? {
      assert HeldMatches(s.handlers, s.queues[q], q, i, s.threads[i].job, Carried(s.threads[i].job).value);
    }
  }

  lemma TicketsCommitted(s: State, i: Tid, e: Effect, running: set<Tid>)
    requires Tickets(s) && i in s.threads && (e.Effect? ==> TicketEffect(s, i, e))
    ensures Tickets(Commit(s, i, e, running))
  {
    if e.Effect? {
      var s' := Commit(s, i, e, running);
      forall q <- s'.queues, w <- s'.handlers, t: nat | w in s'.threads
        ensures HeldMatches(s'.handlers, s'.queues[q], q, w, s'.threads[w].job, t)
      {
        HeldAt(s, i, e, q, w, t);
      }
      forall q <- s'.queues, t: nat, w | StatusIs(s'.queues[q], t, Held(w))
        ensures w in s'.handlers
      {
        assert s'.queues[q] == QueueAfter(s, e, q);
        assert StatusIs(s.queues[q], t, Held(w)) || w == i;
      }
    }
  }

  // ---------- critical sections of workers ----------

  /** A worker about to sleep has seen an empty queue and a set flag; one that goes on has a message
      or a cleared flag. Both stay true because nobody else can enter. */
  predicate SectionAt(queue: Queue, isRunning: bool, job: Job)
  {
    && (job.AboutToSleep? ==> queue.pending == [] && isRunning)
    && (job.Inside? ==> queue.pending != [] || !isRunning)
  }

  ghost predicate Sections(s: State)
  {
    forall w <- s.handlers :: IsWorker(s, w) && w in s.threads ==>
      SectionAt(s.queues[s.handlers[w].home], w in s.running, s.threads[w].job)
  }

  ghost predicate SectionEffect(s: State, i: Tid, e: Effect, running: set<Tid>)
    requires e.Effect? && i in s.threads
  {
    && (IsWorker(s, i) ==> SectionAt(QueueAfter(s, e, s.handlers[i].home), i in running, e.thread.job))
    && (e.change.Change? ==>
          && e.change.at in s.queues
          && var queue := s.queues[e.change.at];
             e.change.queue.pending == queue.pending || queue.owner == None || queue.owner == Some(i))
    && (forall w <- s.handlers :: (w in s.running <==> w in running) || LockFree(s, s.handlers[w].home))
  }

  lemma WorkerSections(s: State, i: Tid, step: WorkerStep)
    requires Shape(s) && Exclusive(s) && Sections(s) && WorkerEnabled(s, i, step)
    ensures WorkerEffect(s, i, step).Effect? ==> SectionEffect(s, i, WorkerEffect(s, i, step), s.running)
  {
    var q := s.handlers[i].home;
    assert SectionOf(s.handlers, i, s.threads[i]) == Some(q) <==> s.queues[q].owner == Some(i);
  }

  lemma RequestSections(s: State, i: Tid, step: RequestStep)
    requires Shape(s) && Exclusive(s) && Sections(s) && RequestEnabled(s, i, step)
    ensures SectionEffect(s, i, RequestEffect(s, i, step), RunningAfter(s, Ask(i, step)))
  {
    assert ThreadShape(s.handlers, s.queues.Keys, i, s.threads[i]);
  }

  lemma SectionsAt(s: State, i: Tid, e: Effect, running: set<Tid>, w: Tid)
    requires Exclusive(s) && Sections(s) && i in s.threads && e.Effect? && SectionEffect(s, i, e, running)
    requires IsWorker(s, w) && w in s.threads
    ensures SectionAt(QueueAfter(s, e, s.handlers[w].home), w in running, ThreadAfter(s, i, e, w).job)
  {
    var q := s.handlers[w].home;
    assert SectionAt(s.queues[q], w in s.running, s.threads[w].job);
    assert SectionOf(s.handlers, w, s.threads[w]) == Some(q) <==> s.queues[q].owner == Some(w);
  }

  lemma SectionsCommitted(s: State, i: Tid, e: Effect, running: set<Tid>)
    requires Exclusive(s) && Sections(s) && i in s.threads && (e.Effect? ==> SectionEffect(s, i, e, running))
    ensures e.Effect? ==> Sections(Commit(s, i, e, running))
  {
    if e.Effect? {
      var s' := Commit(s, i, e, running);
      forall w <- s'.handlers | IsWorker(s', w) && w in s'.threads
        ensures SectionAt(s'.queues[s'.handlers[w].home], w in s'.running, s'.threads[w].job)
      {
        SectionsAt(s, i, e, running, w);
      }
    }
  }
}

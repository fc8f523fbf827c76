/** What the message manager promises, proved for every run and every interleaving. */
module DispatchTheorems {
  import opened Wrappers
  import opened Dispatch
  import opened DispatchInvariants
  import opened DispatchWakeups
  import opened DispatchRuns
  import opened DispatchHistory
  import opened DispatchControl

  // ---------- wake-ups ----------

  lemma ReporterOf(s: State, q: Id, i: Tid) returns (w: Tid)
    requires Inv(s) && i in s.threads && q in s.queues && Quiet(s.queues[q]) && Waiting(s.threads[i], q)
    ensures w in s.threads && WillReport(s.handlers, w, s.threads[w], q)
  {
    w :| w in s.threads && WillReport(s.handlers, w, s.threads[w], q);
  }

  lemma ReportReaches(s: State, q: Id, i: Tid, w: Tid)
    requires Inv(s) && i in s.threads && q in s.queues && Quiet(s.queues[q]) && Waiting(s.threads[i], q)
    requires w in s.threads && WillReport(s.handlers, w, s.threads[w], q) && LockFree(s, q)
    ensures WorkerEnabled(s, w, Report)
    ensures i in Apply(s, Work(w, Report)).threads
    ensures Apply(s, Work(w, Report)).threads[i].request == WaitAsleep(q, true)
  {
    assert SectionOf(s.handlers, i, s.threads[i]) == Some(q) <==> s.queues[q].owner == Some(i);
    assert s.threads[i].request == WaitAsleep(q, false);
    var e := ReportEffect(s, w);
    assert Commit(s, w, e, s.running).threads[i] == ThreadAfter(s, w, e, i);
  }

  /** No lost wake-up: whenever a thread sleeps un-notified in wait_until_empty (or is about to)
      although its queue is quiet, a handler has counted down to zero and has its locked check still
      to make; and that check, if the queue is still empty then, notifies the sleeper. */
  lemma NoLostWakeup(states: seq<State>, actions: seq<Action>, n: nat, q: Id, i: Tid) returns (w: Tid)
    requires IsRun(states, actions) && n < |states|
    requires i in states[n].threads && q in states[n].queues
    requires Quiet(states[n].queues[q]) && Waiting(states[n].threads[i], q)
    ensures w in states[n].threads && WillReport(states[n].handlers, w, states[n].threads[w], q)
    ensures LockFree(states[n], q) ==>
              && WorkerEnabled(states[n], w, Report)
              && i in Apply(states[n], Work(w, Report)).threads
              && Apply(states[n], Work(w, Report)).threads[i].request == WaitAsleep(q, true)
  {
    RunInv(states, actions, n);
    w := ReporterOf(states[n], q, i);
    if LockFree(states[n], q) {
      ReportReaches(states[n], q, i, w);
    }
  }

  /** A worker that sleeps un-notified while its queue holds a message, or while its flag is cleared,
      has a sender, or its destructor, standing between the locked update and its notification. */
  lemma SleepingWorkerIsRemembered(states: seq<State>, actions: seq<Action>, n: nat, w: Tid)
    requires IsRun(states, actions) && n < |states| && w in states[n].handlers
    requires w in states[n].threads && states[n].threads[w].job == Asleep(false)
    ensures IsWorker(states[n], w)
    ensures var s, q := states[n], states[n].handlers[w].home;
            && (s.queues[q].pending != [] ==> exists j :: j in s.threads && s.threads[j].request == Announcing(q))
            && (w !in s.running ==> exists j :: j in s.threads && s.threads[j].request == Stopping(w))
  {
    RunInv(states, actions, n);
    var s := states[n];
    assert IsWorker(s, w);
    if s.queues[s.handlers[w].home].pending != [] {
      assert AnnouncementComes(s, s.handlers[w].home);
    }
    if w !in s.running {
      assert StopComes(s, w);
    }
  }

  // ---------- quiescence ----------

  lemma {:induction false} BusyCountZero(status: seq<Status>)
    requires forall t :: 0 <= t < |status| ==> BusyWeight(status[t]) == 0
    ensures BusyCount(status) == 0
  {
    if status != [] {
      BusyCountZero(status[..|status| - 1]);
    }
  }

  ghost predicate AllHandled(queue: Queue) {
    forall t: nat :: t < |queue.status| ==> queue.status[t] == Handled
  }

  lemma QuietMeansHandled(queue: Queue)
    requires QueueOk(queue)
    ensures Quiet(queue) <==> AllHandled(queue)
  {
    assert queue.pending != [] ==> StatusIs(queue, queue.pending[0], Queued);
    if Quiet(queue) {
      forall t: nat | t < |queue.status|
        ensures queue.status[t] == Handled
      {
        if BusyWeight(queue.status[t]) == 1 {
          BusyCountPositive(queue.status, t);
        }
      }
    } else if AllHandled(queue) {
      BusyCountZero(queue.status);
    }
  }

  /** wait_until_empty returns at a check exactly when every message enqueued before that check has
      been handled to completion. */
  lemma WaitReturnsExactlyWhenAllHandled(states: seq<State>, actions: seq<Action>, n: nat, i: Tid, q: Id)
    requires IsRun(states, actions) && n < |actions| && actions[n] == Ask(i, CheckEmpty)
    requires i in states[n].threads && states[n].threads[i].request == WaitLocking(q)
    ensures i in states[n + 1].threads && q in states[n].queues
    ensures states[n + 1].threads[i].request == Idle <==> AllHandled(states[n].queues[q])
  {
    RunInv(states, actions, n);
    var s := states[n];
    assert Enabled(s, actions[n]);
    assert QueueOk(s.queues[q]);
    QuietMeansHandled(s.queues[q]);
    var e := CheckEmptyEffect(s, i);
    assert Commit(s, i, e, s.running).threads[i] == ThreadAfter(s, i, e, i);
  }

  /** Inside wait_until_empty on q. */
  predicate InWait(request: Request, q: Id) {
    (request.WaitLocking? || request.WaitChecked? || request.WaitAsleep?) && request.to == q
  }

  /** Whatever the step: a thread leaves wait_until_empty only to return, and only when every message
      enqueued until then has been handled to completion. */
  lemma WaitEndsOnlyWhenAllHandled(states: seq<State>, actions: seq<Action>, n: nat, i: Tid, q: Id)
    requires IsRun(states, actions) && n < |actions| && i in states[n].threads && i in states[n + 1].threads
    requires InWait(states[n].threads[i].request, q) && !InWait(states[n + 1].threads[i].request, q)
    ensures states[n + 1].threads[i].request == Idle
    ensures q in states[n].queues && AllHandled(states[n].queues[q])
  {
    RunMoves(states, actions, n, i);
    RunInv(states, actions, n);
    assert q in states[n].queues;
    assert QueueOk(states[n].queues[q]);
    hide Enabled, Apply, Inv, QueueOk, AllHandled;
    QuietMeansHandled(states[n].queues[q]);
  }

  /** A callback that waits for its own queue never gets past the check: its message is not handled
      while it waits. */
  lemma CallbackNeverSeesItsQueueEmpty(states: seq<State>, actions: seq<Action>, n: nat, i: Tid, q: Id)
    requires IsRun(states, actions) && n < |actions| && actions[n] == Ask(i, CheckEmpty)
    requires i in states[n].threads && states[n].threads[i].request == WaitLocking(q)
    requires states[n].threads[i].job.Running? && i in states[n].handlers && states[n].handlers[i].home == q
    ensures i in states[n + 1].threads && states[n + 1].threads[i].request != Idle
  {
    WaitReturnsExactlyWhenAllHandled(states, actions, n, i, q);
    RunInv(states, actions, n);
    var s := states[n];
    assert HeldMatches(s.handlers, s.queues[q], q, i, s.threads[i].job, s.threads[i].job.ticket);
  }

  // ---------- growth ----------

  /** Tickets and their origins stay, and handled and dropped messages stay so. */
  ghost predicate Grows(queue: Queue, queue': Queue)
  {
    && |queue.origins| == |queue.status| && |queue'.origins| == |queue'.status|
    && queue.origins <= queue'.origins
    && (forall t: nat :: StatusIs(queue, t, Handled) ==> StatusIs(queue', t, Handled))
    && (forall t: nat :: StatusIs(queue, t, Dropped) ==> StatusIs(queue', t, Dropped))
  }

  lemma EventGrows(queue: Queue, ev: Event, queue': Queue)
    requires QueueOk(queue) && Describes(queue, ev, queue')
    ensures Grows(queue, queue')
  {
  }

  lemma {:induction false} RunGrows(states: seq<State>, actions: seq<Action>, n: nat, m: nat, q: Id)
    requires IsRun(states, actions) && n <= m < |states| && q in states[0].queues
    ensures q in states[n].queues && q in states[m].queues && Grows(states[n].queues[q], states[m].queues[q])
  {
    RunFrame(states, actions, n);
    if n == m {
      RunInv(states, actions, n);
      assert QueueOk(states[n].queues[q]);
    } else {
      RunGrows(states, actions, n, m - 1, q);
      var ev := RunStep(states, actions, m - 1, q);
      EventGrows(states[m - 1].queues[q], ev, states[m].queues[q]);
    }
  }

  /** A dropped message keeps the queue from ever being quiet again: no later check of
      wait_until_empty succeeds. */
  lemma DroppedMessageBlocksWaiters(states: seq<State>, actions: seq<Action>, n: nat, m: nat, q: Id, t: nat)
    requires IsRun(states, actions) && n <= m < |states| && q in states[n].queues
    requires StatusIs(states[n].queues[q], t, Dropped)
    ensures q in states[m].queues && !Quiet(states[m].queues[q])
  {
    RunFrame(states, actions, n);
    RunGrows(states, actions, n, m, q);
    RunInv(states, actions, m);
    assert StatusIs(states[m].queues[q], t, Dropped);
    QuietMeansHandled(states[m].queues[q]);
  }

  /** A message is dropped only by a worker that popped it while running and was stopped before it
      looked at its flag again. */
  lemma OnlyStoppedWorkersDrop(states: seq<State>, actions: seq<Action>, n: nat, q: Id, t: nat)
    requires IsRun(states, actions) && n < |actions| && q in states[n].queues && q in states[n + 1].queues
    requires StatusIs(states[n + 1].queues[q], t, Dropped) && !StatusIs(states[n].queues[q], t, Dropped)
    ensures exists w :: && actions[n] == Work(w, Recheck) && w !in states[n].running && w in states[n].threads
                        && states[n].threads[w].job == Carrying(t) && StatusIs(states[n].queues[q], t, Held(w))
  {
    RunFrame(states, actions, n);
    var ev := RunStep(states, actions, n, q);
    assert ev == Drop(t);
    assert actions[n] == Work(actions[n].tid, Recheck);
  }

  // ---------- order ----------

  /** A pop is made by a running worker of the queue, meets a message, and takes the oldest message
      still queued if the worker is FIFO and the newest if it is FILO. */
  lemma PopTakesByOrder(states: seq<State>, actions: seq<Action>, n: nat, q: Id)
    requires IsRun(states, actions) && n < |actions| && q in states[n].queues && q in states[n + 1].queues
    requires states[n + 1].queues[q].popped != states[n].queues[q].popped
    ensures exists w, t: nat ::
              && actions[n].Work? && actions[n].tid == w && actions[n].work.Take?
              && w in states[n].running && w in states[n].handlers && states[n].handlers[w].home == q
              && states[n + 1].queues[q].popped == states[n].queues[q].popped + [t]
              && StatusIs(states[n].queues[q], t, Queued)
              && (states[n].handlers[w].order == FIFO ==>
                    forall u: nat :: StatusIs(states[n].queues[q], u, Queued) ==> t <= u)
              && (states[n].handlers[w].order == FILO ==>
                    forall u: nat :: StatusIs(states[n].queues[q], u, Queued) ==> u <= t)
  {
    RunFrame(states, actions, n);
    var ev := RunStep(states, actions, n, q);
    var queue, handler := states[n].queues[q], states[n].handlers[ev.worker];
    var t := queue.pending[ev.index];
    forall u: nat | StatusIs(queue, u, Queued)
      ensures handler.order == FIFO ==> t <= u
      ensures handler.order == FILO ==> u <= t
    {
      assert u in queue.pending;
    }
  }

  function Iota(n: nat): seq<nat> {
    seq(n, k => k)
  }

  ghost predicate AllOrdered(s: State, q: Id, order: Order) {
    forall w <- s.handlers :: s.handlers[w].home == q ==> s.handlers[w].order == order
  }

  lemma SendHistoryKept(queue: Queue, ev: Event, queue': Queue)
    requires queue.popped + queue.pending == Iota(|queue.status|)
    requires Describes(queue, ev, queue') && (ev.Pop? ==> ev.index == 0)
    ensures queue'.popped + queue'.pending == Iota(|queue'.status|)
  {
    match ev {
      case Pop(_, _) =>
        assert queue.pending == [queue.pending[0]] + queue.pending[1..];
        assert queue'.popped + queue'.pending == queue.popped + queue.pending;
      case Push(_) =>
        assert Iota(|queue'.status|) == Iota(|queue.status|) + [|queue.status|];
      case _ =>
    }
  }

  /** With only FIFO handlers the pops so far, followed by the deque, are the send history. */
  lemma {:induction false} FifoOrder(states: seq<State>, actions: seq<Action>, n: nat, q: Id)
    requires IsRun(states, actions) && n < |states| && q in states[0].queues && AllOrdered(states[0], q, FIFO)
    ensures q in states[n].queues
    ensures var queue := states[n].queues[q]; queue.popped + queue.pending == Iota(|queue.status|)
  {
    if n > 0 {
      FifoOrder(states, actions, n - 1, q);
      RunFrame(states, actions, n - 1);
      var ev := RunStep(states, actions, n - 1, q);
      SendHistoryKept(states[n - 1].queues[q], ev, states[n].queues[q]);
    }
  }

  // ---------- a single handler ----------

  ghost predicate OnlyHandler(s: State, q: Id, w: Tid) {
    forall v <- s.handlers :: s.handlers[v].home == q <==> v == w
  }

  ghost predicate NothingHeld(queue: Queue, w: Tid) {
    forall t: nat :: !StatusIs(queue, t, Held(w))
  }

  /** The completed messages are the popped ones without the one in the worker's hands; a stopped
      worker may also have dropped its last one. */
  ghost predicate InPopOrder(queue: Queue, w: Tid, isRunning: bool)
  {
    && queue.handled <= queue.popped
    && (forall t: nat :: StatusIs(queue, t, Held(w)) ==> queue.popped == queue.handled + [t])
    && (NothingHeld(queue, w) && isRunning ==> queue.popped == queue.handled)
  }

  lemma RunningAt(s: State, a: Action)
    requires Enabled(s, a)
    ensures Apply(s, a).running <= s.running
    ensures a.Work? ==> Apply(s, a).running == s.running
  {
    assert RunningAfter(s, a) <= s.running;
  }

  lemma HeldOnce(queue: Queue, w: Tid, isRunning: bool, t: nat, u: nat)
    requires InPopOrder(queue, w, isRunning) && StatusIs(queue, t, Held(w)) && StatusIs(queue, u, Held(w))
    ensures t == u
  {
    assert (queue.handled + [u])[|queue.handled|] == (queue.handled + [t])[|queue.handled|];
  }

  lemma PopOrderKept(s: State, a: Action, q: Id, w: Tid, ev: Event, queue': Queue, isRunning': bool)
    requires q in s.queues && QueueOk(s.queues[q])
    requires Describes(s.queues[q], ev, queue') && Cause(s, a, q, ev)
    requires OnlyHandler(s, q, w) && InPopOrder(s.queues[q], w, w in s.running)
    requires forall t: nat, v :: StatusIs(s.queues[q], t, Held(v)) ==> v == w
    requires isRunning' ==> w in s.running
    requires a.Work? ==> isRunning' == (w in s.running)
    ensures InPopOrder(queue', w, isRunning')
  {
    var queue := s.queues[q];
    if ev.Pop? || ev.Complete? || ev.Drop? {
      var t := if ev.Pop? then queue.pending[ev.index] else ev.ticket;
      forall u: nat | u != t
        ensures StatusIs(queue', u, Held(w)) <==> StatusIs(queue, u, Held(w))
        ensures !StatusIs(queue, u, Held(w))
      {
        if StatusIs(queue, u, Held(w)) && !ev.Pop? {
          HeldOnce(queue, w, w in s.running, t, u);
        }
      }
      assert ev.Pop? ==> StatusIs(queue', t, Held(w)) && NothingHeld(queue, w);
      assert !ev.Pop? ==> StatusIs(queue, t, Held(w)) && !StatusIs(queue', t, Held(w));
    } else {
      assert forall u: nat :: StatusIs(queue', u, Held(w)) <==> StatusIs(queue, u, Held(w));
    }
  }

  lemma HeldByOnly(s: State, q: Id, w: Tid)
    requires Inv(s) && q in s.queues && OnlyHandler(s, q, w)
    ensures forall t: nat, v :: StatusIs(s.queues[q], t, Held(v)) ==> v == w
  {
    forall t: nat, v | StatusIs(s.queues[q], t, Held(v))
      ensures v == w
    {
      assert HeldMatches(s.handlers, s.queues[q], q, v, s.threads[v].job, t);
    }
  }

  lemma RunTakesStep(states: seq<State>, actions: seq<Action>, n: nat)
    requires IsRun(states, actions) && n < |actions|
    ensures Enabled(states[n], actions[n]) && states[n + 1] == Apply(states[n], actions[n])
  {
  }

  lemma PopOrderStep(states: seq<State>, actions: seq<Action>, n: nat, q: Id, w: Tid)
    requires IsRun(states, actions) && n < |actions| && q in states[0].queues && OnlyHandler(states[0], q, w)
    requires q in states[n].queues && InPopOrder(states[n].queues[q], w, w in states[n].running)
    ensures q in states[n + 1].queues && InPopOrder(states[n + 1].queues[q], w, w in states[n + 1].running)
  {
    var s, a := states[n], actions[n];
    RunTakesStep(states, actions, n);
    RunningAt(s, a);
    hide Inv, Enabled, Apply, InPopOrder, Cause, Describes, QueueOk;
    RunFrame(states, actions, n);
    RunInv(states, actions, n);
    HeldByOnly(s, q, w);
    var ev := RunStep(states, actions, n, q);
    PopOrderKept(s, a, q, w, ev, states[n + 1].queues[q], w in states[n + 1].running);
  }

  lemma {:induction false} RunPopOrder(states: seq<State>, actions: seq<Action>, n: nat, q: Id, w: Tid)
    requires IsRun(states, actions) && n < |states| && q in states[0].queues && OnlyHandler(states[0], q, w)
    ensures q in states[n].queues && InPopOrder(states[n].queues[q], w, w in states[n].running)
  {
    if n > 0 {
      hide Enabled, Apply, Init, InPopOrder, OnlyHandler;
      RunPopOrder(states, actions, n - 1, q, w);
      PopOrderStep(states, actions, n - 1, q, w);
    }
  }

  /** A queue with one FIFO handler: the callbacks complete in send order, without gaps. */
  lemma SingleHandlerInSendOrder(states: seq<State>, actions: seq<Action>, n: nat, q: Id, w: Tid)
    requires IsRun(states, actions) && n < |states| && q in states[0].queues
    requires OnlyHandler(states[0], q, w) && AllOrdered(states[0], q, FIFO)
    ensures q in states[n].queues
    ensures states[n].queues[q].handled == Iota(|states[n].queues[q].handled|)
  {
    RunPopOrder(states, actions, n, q, w);
    FifoOrder(states, actions, n, q);
    var queue := states[n].queues[q];
    assert queue.handled <= queue.popped <= Iota(|queue.status|);
  }

  // ---------- the length bound ----------

  predicate SendAgrees(request: Request, q: Id, limit: nat) {
    (request.SendLocking? || request.SendFull? || request.SendAsleep?) && request.to == q ==> request.limit == limit
  }

  ghost predicate SendersAgree(s: State, q: Id, limit: nat) {
    forall i <- s.threads :: SendAgrees(s.threads[i].request, q, limit)
  }

  predicate SendsWithLimit(a: Action, q: Id, limit: nat) {
    a.Ask? && a.ask.BeginSend? && a.ask.to == q ==> a.ask.limit == limit
  }

  lemma LimitOf(s: State, a: Action, q: Id, limit: nat)
    requires SendersAgree(s, q, limit) && Enabled(s, a) && EffectOf(s, a).Effect? && SendsWithLimit(a, q, limit)
    ensures SendAgrees(EffectOf(s, a).thread.request, q, limit)
  {
    match a {
      case Work(_, _) =>
      case Ask(_, _) =>
    }
  }

  lemma LimitCommitted(s: State, i: Tid, e: Effect, running: set<Tid>, q: Id, limit: nat)
    requires SendersAgree(s, q, limit) && e.Effect? && SendAgrees(e.thread.request, q, limit)
    ensures SendersAgree(Commit(s, i, e, running), q, limit)
  {
    var s' := Commit(s, i, e, running);
    forall j <- s'.threads
      ensures SendAgrees(s'.threads[j].request, q, limit)
    {
      assert s'.threads[j] == ThreadAfter(s, i, e, j);
    }
  }

  lemma LimitStep(states: seq<State>, actions: seq<Action>, n: nat, q: Id, limit: nat)
    requires IsRun(states, actions) && n < |actions| && q in states[0].queues && SendsWithLimit(actions[n], q, limit)
    requires SendersAgree(states[n], q, limit)
    ensures SendersAgree(states[n + 1], q, limit)
  {
    var s, a := states[n], actions[n];
    RunTakesStep(states, actions, n);
    RunInv(states, actions, n);
    NoFault(s, a);
    LimitOf(s, a, q, limit);
    LimitCommitted(s, a.tid, EffectOf(s, a), RunningAfter(s, a), q, limit);
  }

  lemma LengthStep(states: seq<State>, actions: seq<Action>, n: nat, q: Id, limit: nat)
    requires IsRun(states, actions) && n < |actions| && q in states[0].queues && limit > 0
    requires SendersAgree(states[n], q, limit) && q in states[n].queues && |states[n].queues[q].pending| <= limit
    ensures q in states[n + 1].queues && |states[n + 1].queues[q].pending| <= limit
  {
    hide Enabled, Apply, Init;
    var ev := RunStep(states, actions, n, q);
    if ev.Push? {
      assert SendAgrees(states[n].threads[actions[n].tid].request, q, limit);
    }
  }

  /** If every send to a queue uses the same nonzero limit, its length never exceeds the limit. */
  lemma {:induction false} QueueNeverExceedsLimit(states: seq<State>, actions: seq<Action>, n: nat, q: Id, limit: nat)
    requires IsRun(states, actions) && n < |states| && q in states[0].queues && limit > 0
    requires forall k :: 0 <= k < |actions| ==> SendsWithLimit(actions[k], q, limit)
    ensures q in states[n].queues && |states[n].queues[q].pending| <= limit
    ensures SendersAgree(states[n], q, limit)
  {
    if n > 0 {
      hide Enabled, Apply, Init, SendersAgree, SendsWithLimit;
      QueueNeverExceedsLimit(states, actions, n - 1, q, limit);
      LimitStep(states, actions, n - 1, q, limit);
      LengthStep(states, actions, n - 1, q, limit);
    }
  }

  // ---------- pipelines ----------

  predicate DerivedFrom(origin: Option<Origin>, q: Id, count: nat) {
    origin.Some? && origin.value.queue == q && origin.value.ticket < count
  }

  lemma NewOrigin(s: State, a: Action, down: Id, ev: Event, queue': Queue, up: Id, count: nat)
      returns (added: seq<Option<Origin>>)
    requires down in s.queues && up in s.queues
    requires Describes(s.queues[down], ev, queue') && Cause(s, a, down, ev)
    requires forall t: nat :: t < count ==> StatusIs(s.queues[up], t, Handled)
    ensures queue'.origins == s.queues[down].origins + added
    ensures forall k :: 0 <= k < |added| ==> !DerivedFrom(added[k], up, count)
  {
    added := if ev.Push? then [ev.origin] else [];
    assert s.queues[down].origins + [] == s.queues[down].origins;
    forall k | 0 <= k < |added|
      ensures !DerivedFrom(added[k], up, count)
    {
      if added[k].Some? && added[k].value.ticket < count {
        assert StatusIs(s.queues[up], added[k].value.ticket, Handled);
      }
    }
  }

  ghost predicate NoneDerived(origins: seq<Option<Origin>>, from: nat, up: Id, count: nat) {
    forall t :: from <= t < |origins| ==> !DerivedFrom(origins[t], up, count)
  }

  /** Once the first `count` messages of a queue are handled, none of their callbacks sends again. */
  lemma {:induction false} NoLateDescendants(
      states: seq<State>, actions: seq<Action>, n: nat, m: nat, up: Id, down: Id, count: nat)
    requires IsRun(states, actions) && n <= m < |states| && up in states[n].queues && down in states[n].queues
    requires forall t: nat :: t < count ==> StatusIs(states[n].queues[up], t, Handled)
    ensures down in states[m].queues
    ensures NoneDerived(states[m].queues[down].origins, |states[n].queues[down].origins|, up, count)
  {
    hide Enabled, Apply, Cause, Describes;
    RunFrame(states, actions, n);
    if n < m {
      NoLateDescendants(states, actions, n, m - 1, up, down, count);
      RunGrows(states, actions, n, m - 1, up);
      var ev := RunStep(states, actions, m - 1, down);
      var added := NewOrigin(states[m - 1], actions[m - 1], down, ev, states[m].queues[down], up, count);
    }
  }

  /** In step n some thread leaves wait_until_empty on q. */
  ghost predicate ReturnsFromWait(states: seq<State>, n: nat, q: Id) {
    && n + 1 < |states|
    && exists i :: && i in states[n].threads && i in states[n + 1].threads
                   && InWait(states[n].threads[i].request, q) && !InWait(states[n + 1].threads[i].request, q)
  }

  lemma ReturnMeansAllHandled(states: seq<State>, actions: seq<Action>, n: nat, q: Id)
    requires IsRun(states, actions) && ReturnsFromWait(states, n, q)
    ensures q in states[n].queues && AllHandled(states[n].queues[q])
  {
    hide Enabled, Apply;
    var i :| && i in states[n].threads && i in states[n + 1].threads
             && InWait(states[n].threads[i].request, q) && !InWait(states[n + 1].threads[i].request, q);
    WaitEndsOnlyWhenAllHandled(states, actions, n, i, q);
  }

  /** Waiting for the upstream queue and then for the downstream queue: at every later moment, every
      downstream message that was or ever is sent from a callback of a message that was upstream at
      the first return has been handled. */
  lemma PipelineDrains(states: seq<State>, actions: seq<Action>, n: nat, m: nat, k: nat, up: Id, down: Id, t: nat)
    requires IsRun(states, actions) && n <= m < k < |states|
    requires ReturnsFromWait(states, n, up) && ReturnsFromWait(states, m, down)
    ensures up in states[n].queues && down in states[k].queues
    ensures t < |states[k].queues[down].origins| &&
            DerivedFrom(states[k].queues[down].origins[t], up, |states[n].queues[up].status|) ==>
              StatusIs(states[k].queues[down], t, Handled)
  {
    ReturnMeansAllHandled(states, actions, n, up);
    ReturnMeansAllHandled(states, actions, m, down);
    RunFrame(states, actions, n);
    RunFrame(states, actions, m);
    RunFrame(states, actions, k);
    var count := |states[n].queues[up].status|;
    NoLateDescendants(states, actions, n, k, up, down, count);
    RunGrows(states, actions, n, m, down);
    RunGrows(states, actions, m, k, down);
  }

  predicate OriginKnown(s: State, origin: Option<Origin>) {
    origin.Some? ==> origin.value.queue in s.queues && origin.value.ticket < |s.queues[origin.value.queue].status|
  }

  lemma OriginStaysKnown(states: seq<State>, actions: seq<Action>, n: nat, origin: Option<Origin>)
    requires IsRun(states, actions) && n < |actions| && OriginKnown(states[n], origin)
    ensures OriginKnown(states[n + 1], origin)
  {
    if origin.Some? {
      RunFrame(states, actions, n);
      RunGrows(states, actions, n, n + 1, origin.value.queue);
    }
  }

  /** The callback behind a message belongs to a message that was itself enqueued. */
  lemma {:induction false} OriginsKnown(states: seq<State>, actions: seq<Action>, n: nat, q: Id, t: nat)
    requires IsRun(states, actions) && n < |states| && q in states[n].queues && t < |states[n].queues[q].origins|
    ensures OriginKnown(states[n], states[n].queues[q].origins[t])
  {
    hide Enabled, Apply;
    RunFrame(states, actions, n);
    if n > 0 {
      RunFrame(states, actions, n - 1);
      var ev := RunStep(states, actions, n - 1, q);
      if t < |states[n - 1].queues[q].origins| {
        OriginsKnown(states, actions, n - 1, q, t);
      }
      assert OriginKnown(states[n - 1], states[n].queues[q].origins[t]);
      OriginStaysKnown(states, actions, n - 1, states[n].queues[q].origins[t]);
    }
  }

  /** A pipeline that gets nothing new at its head, and whose second queue is fed by the callbacks of
      the first alone, is and stays drained once both waits have returned in that order. */
  lemma PipelineStaysDrained(states: seq<State>, actions: seq<Action>, n: nat, m: nat, k: nat, up: Id, down: Id)
    requires IsRun(states, actions) && n <= m < k < |states|
    requires ReturnsFromWait(states, n, up) && ReturnsFromWait(states, m, down)
    requires up in states[n].queues && up in states[k].queues && down in states[k].queues
    requires |states[k].queues[up].status| == |states[n].queues[up].status|
    requires forall t :: 0 <= t < |states[k].queues[down].origins| ==>
               states[k].queues[down].origins[t].Some? && states[k].queues[down].origins[t].value.queue == up
    ensures AllHandled(states[k].queues[down]) && Quiet(states[k].queues[down])
  {
    var queue := states[k].queues[down];
    RunInv(states, actions, k);
    assert QueueOk(queue);
    RunFrame(states, actions, k);
    RunGrows(states, actions, k, k, down);
    forall t: nat | t < |queue.status|
      ensures queue.status[t] == Handled
    {
      OriginsKnown(states, actions, k, down, t);
      PipelineDrains(states, actions, n, m, k, up, down, t);
    }
    QuietMeansHandled(queue);
  }
}

/** The invariant of the dispatch protocol, kept by every action and so true in every run. */
module DispatchRuns {
  import opened Dispatch
  import opened DispatchInvariants
  import opened DispatchWakeups

  // ---------- the invariant ----------

  ghost predicate Inv(s: State)
  {
    && !s.fault
    && Shape(s)
    && Exclusive(s)
    && Tickets(s)
    && Sections(s)
    && NoLostEmpty(s)
    && NoLostWork(s)
  }

  lemma InvParts(s: State)
    requires Inv(s)
    ensures Shape(s) && Exclusive(s)
  {
  }

  lemma InitInv(s: State)
    requires Init(s)
    ensures Inv(s)
  {
  }

  lemma WorkerNoFault(s: State, i: Tid, step: WorkerStep)
    requires Shape(s) && Tickets(s) && Sections(s) && WorkerEnabled(s, i, step)
    ensures WorkerEffect(s, i, step).Effect?
  {
    var q, job := s.handlers[i].home, s.threads[i].job;
    var queue := s.queues[q];
    assert SectionAt(queue, i in s.running, job) && QueueOk(queue);
    if Carried(job).Some? {
      assert HeldMatches(s.handlers, queue, q, i, job, job.ticket);
    }
    if step.Take? && i in s.running {
      var k := PopIndex(s.handlers[i].order, step.random, |queue.pending|);
      assert StatusIs(queue, queue.pending[k], Queued);
    }
  }

  /** A pop never meets an empty queue, and no other step is undefined. */
  lemma NoFault(s: State, a: Action)
    requires Inv(s) && Enabled(s, a)
    ensures EffectOf(s, a).Effect?
  {
    match a {
      case Work(i, step) => WorkerNoFault(s, i, step);
      case Ask(_, _) =>
    }
  }

  lemma WorkerInv(s: State, i: Tid, step: WorkerStep)
    requires Inv(s) && WorkerEnabled(s, i, step) && WorkerEffect(s, i, step).Effect?
    ensures Inv(Commit(s, i, WorkerEffect(s, i, step), s.running))
  {
    var e := WorkerEffect(s, i, step);
    WorkerShape(s, i, step);
    WorkerLock(s, i, step);
    WorkerTickets(s, i, step);
    WorkerSections(s, i, step);
    forall q <- s.queues ensures EmptyEffect(s, i, e, q) { WorkerEmpty(s, i, step, q); }
    forall w <- s.handlers ensures WorkEffect(s, i, e, s.running, w) { WorkerWork(s, i, step, w); }
    CommittedInv(s, i, e, s.running);
  }

  lemma RequestInv(s: State, i: Tid, step: RequestStep)
    requires Inv(s) && RequestEnabled(s, i, step)
    ensures Inv(Commit(s, i, RequestEffect(s, i, step), RunningAfter(s, Ask(i, step))))
  {
    var e, running := RequestEffect(s, i, step), RunningAfter(s, Ask(i, step));
    RequestShape(s, i, step);
    RequestLock(s, i, step);
    RequestTickets(s, i, step);
    RequestSections(s, i, step);
    forall q <- s.queues ensures EmptyEffect(s, i, e, q) { RequestEmpty(s, i, step, q); }
    forall w <- s.handlers ensures WorkEffect(s, i, e, running, w) { RequestWork(s, i, step, w); }
    CommittedInv(s, i, e, running);
  }

  lemma CommittedInv(s: State, i: Tid, e: Effect, running: set<Tid>)
    requires Inv(s) && i in s.threads && e.Effect?
    requires ThreadShape(s.handlers, s.queues.Keys, i, e.thread)
    requires LockEffect(s, i, e) && TicketEffect(s, i, e) && SectionEffect(s, i, e, running)
    requires forall q <- s.queues :: EmptyEffect(s, i, e, q)
    requires forall w <- s.handlers :: WorkEffect(s, i, e, running, w)
    ensures Inv(Commit(s, i, e, running))
  {
    ShapeCommitted(s, i, e, running);
    ExclusiveCommitted(s, i, e, running);
    TicketsCommitted(s, i, e, running);
    SectionsCommitted(s, i, e, running);
    EmptyCommitted(s, i, e, running);
    WorkCommitted(s, i, e, running);
  }

  lemma StepInv(s: State, a: Action)
    requires Inv(s) && Enabled(s, a)
    ensures Inv(Apply(s, a))
  {
    NoFault(s, a);
    match a {
      case Work(i, step) => WorkerInv(s, i, step);
      case Ask(i, step) => RequestInv(s, i, step);
    }
  }

  lemma {:induction false} RunInv(states: seq<State>, actions: seq<Action>, n: nat)
    requires IsRun(states, actions) && n < |states|
    ensures Inv(states[n])
  {
    if n == 0 {
      InitInv(states[0]);
    } else {
      RunInv(states, actions, n - 1);
      StepInv(states[n - 1], actions[n - 1]);
    }
  }
}

/** The history of one queue: what each action does to it, and what that implies over whole runs for
    conservation, order, the length bound and quiescence. */
module DispatchHistory {
  import opened Wrappers
  import opened Dispatch
  import opened DispatchInvariants
  import opened DispatchRuns

  datatype Event =
    | Nothing
    | Pop(index: nat, worker: Tid)
    | Push(origin: Option<Origin>)
    | Complete(ticket: nat)
    | Drop(ticket: nat)

  predicate Possible(queue: Queue, ev: Event)
  {
    match ev
    case Nothing => true
    case Pop(k, _) => k < |queue.pending| && StatusIs(queue, queue.pending[k], Queued)
    case Push(_) => true
    case Complete(t) => t < |queue.status| && queue.status[t].Held?
    case Drop(t) => t < |queue.status| && queue.status[t].Held?
  }

  function Happen(queue: Queue, ev: Event): Queue
    requires Possible(queue, ev)
  {
    match ev
    case Nothing => queue
    case Pop(k, w) => Popped(queue, k, w)
    case Push(origin) => Enqueued(queue, origin)
    case Complete(t) => Completed(queue, t)
    case Drop(t) => queue.(status := queue.status[t := Dropped])
  }

  function WorkerEvent(s: State, i: Tid, step: WorkerStep, q: Id): Event
    requires WorkerEnabled(s, i, step) && q in s.queues
  {
    var job, queue := s.threads[i].job, s.queues[q];
    if s.handlers[i].home != q then Nothing
    else if step.Take? && i in s.running && queue.pending != [] then
      Pop(PopIndex(s.handlers[i].order, step.random, |queue.pending|), i)
    else if step.Recheck? && job.Carrying? && i !in s.running then Drop(job.ticket)
    else if step.Finish? then Complete(job.ticket)
    else Nothing
  }

  function RequestEvent(s: State, i: Tid, step: RequestStep, q: Id): Event
    requires RequestEnabled(s, i, step) && q in s.queues
  {
    var request, queue := s.threads[i].request, s.queues[q];
    if step.TrySend? && request.to == q && (request.limit == 0 || |queue.pending| < request.limit)
    then Push(OriginOf(s, i))
    else Nothing
  }

  /** What an action does to the messages of queue q. */
  function EventOf(s: State, a: Action, q: Id): Event
    requires Enabled(s, a) && q in s.queues
  {
    match a
    case Work(i, step) => WorkerEvent(s, i, step, q)
    case Ask(i, step) => RequestEvent(s, i, step, q)
  }

  /** A queue without its mutex. */
  function Log(queue: Queue): Queue {
    queue.(owner := None)
  }

  predicate Describes(queue: Queue, ev: Event, queue': Queue) {
    Possible(queue, ev) && Log(queue') == Log(Happen(queue, ev))
  }

  lemma WorkerEventHappens(s: State, i: Tid, step: WorkerStep, q: Id)
    requires Inv(s) && WorkerEnabled(s, i, step) && WorkerEffect(s, i, step).Effect? && q in s.queues
    ensures Describes(s.queues[q], WorkerEvent(s, i, step, q), QueueAfter(s, WorkerEffect(s, i, step), q))
  {
    var queue, job := s.queues[q], s.threads[i].job;
    assert QueueOk(queue);
    if Carried(job).Some? {
      assert HeldMatches(s.handlers, queue, q, i, job, job.ticket);
    }
  }

  lemma RequestEventHappens(s: State, i: Tid, step: RequestStep, q: Id)
    requires RequestEnabled(s, i, step) && RequestEffect(s, i, step).Effect? && q in s.queues
    ensures Describes(s.queues[q], RequestEvent(s, i, step, q), QueueAfter(s, RequestEffect(s, i, step), q))
  {
  }

  lemma FrameKept(s: State, a: Action)
    requires Enabled(s, a)
    ensures Apply(s, a).queues.Keys == s.queues.Keys && Apply(s, a).handlers == s.handlers
  {
    var e := EffectOf(s, a);
    if e.Effect? {
      assert Commit(s, a.tid, e, RunningAfter(s, a)).queues.Keys == s.queues.Keys;
    }
  }

  lemma EventHappens(s: State, a: Action, q: Id)
    requires Inv(s) && Enabled(s, a) && q in s.queues
    ensures Apply(s, a).queues.Keys == s.queues.Keys && Apply(s, a).handlers == s.handlers
    ensures Describes(s.queues[q], EventOf(s, a, q), Apply(s, a).queues[q])
  {
    hide Inv, WorkerEnabled, WorkerEffect, WorkerEvent, RequestEnabled, RequestEffect, RequestEvent, Describes;
    NoFault(s, a);
    FrameKept(s, a);
    var e := EffectOf(s, a);
    assert Commit(s, a.tid, e, RunningAfter(s, a)).queues[q] == QueueAfter(s, e, q);
    match a {
      case Work(i, step) => WorkerEventHappens(s, i, step, q);
      case Ask(i, step) => RequestEventHappens(s, i, step, q);
    }
  }

  lemma {:induction false} RunFrame(states: seq<State>, actions: seq<Action>, n: nat)
    requires IsRun(states, actions) && n < |states|
    ensures states[n].queues.Keys == states[0].queues.Keys && states[n].handlers == states[0].handlers
  {
    if n > 0 {
      RunFrame(states, actions, n - 1);
      FrameKept(states[n - 1], actions[n - 1]);
    }
  }

  /** Which action, in which state, stands behind an event. */
  ghost predicate Cause(s: State, a: Action, q: Id, ev: Event)
    requires q in s.queues
  {
    match ev
    case Nothing => true
    case Pop(k, w) =>
      && a.Work? && a.tid == w && a.work.Take? && w in s.running && w in s.handlers && s.handlers[w].home == q
      && (forall t: nat :: !StatusIs(s.queues[q], t, Held(w)))
      && (s.handlers[w].order == FIFO ==> k == 0)
      && (s.handlers[w].order == FILO ==> k == |s.queues[q].pending| - 1)
    case Push(origin) =>
      && a == Ask(a.tid, TrySend) && MayAsk(s, a.tid) && origin == OriginOf(s, a.tid)
      && s.threads[a.tid].request.SendLocking? && s.threads[a.tid].request.to == q
      && (s.threads[a.tid].request.limit == 0 || |s.queues[q].pending| < s.threads[a.tid].request.limit)
      && (origin.Some? ==>
            && origin.value.queue in s.queues
            && StatusIs(s.queues[origin.value.queue], origin.value.ticket, Held(a.tid)))
    case Complete(t) =>
      && a == Work(a.tid, Finish) && a.tid in s.threads && s.threads[a.tid].job == Running(t)
      && StatusIs(s.queues[q], t, Held(a.tid))
    case Drop(t) =>
      && a == Work(a.tid, Recheck) && a.tid in s.threads && s.threads[a.tid].job == Carrying(t)
      && a.tid !in s.running && StatusIs(s.queues[q], t, Held(a.tid))
  }

  lemma WorkerCause(s: State, i: Tid, step: WorkerStep, q: Id)
    requires Tickets(s) && WorkerEnabled(s, i, step) && q in s.queues
    ensures Cause(s, Work(i, step), q, WorkerEvent(s, i, step, q))
  {
    var job, queue := s.threads[i].job, s.queues[q];
    if s.handlers[i].home == q {
      if Carried(job).Some? {
        assert HeldMatches(s.handlers, queue, q, i, job, job.ticket);
      } else {
        forall t: nat
          ensures !StatusIs(queue, t, Held(i))
        {
          assert HeldMatches(s.handlers, queue, q, i, job, t);
        }
      }
    }
  }

  /** A callback sends while its own message is still held. */
  lemma RequestCause(s: State, i: Tid, step: RequestStep, q: Id)
    requires Tickets(s) && RequestEnabled(s, i, step) && q in s.queues
    ensures Cause(s, Ask(i, step), q, RequestEvent(s, i, step, q))
  {
    if s.threads[i].job.Running? {
      var home, job := s.handlers[i].home, s.threads[i].job;
      assert HeldMatches(s.handlers, s.queues[home], home, i, job, job.ticket);
    }
  }

  /** Every step of a run does one thing to a queue, for one cause. */
  lemma RunStep(states: seq<State>, actions: seq<Action>, n: nat, q: Id) returns (ev: Event)
    requires IsRun(states, actions) && n < |actions| && q in states[0].queues
    ensures q in states[n].queues && q in states[n + 1].queues && QueueOk(states[n].queues[q])
    ensures Describes(states[n].queues[q], ev, states[n + 1].queues[q]) && Cause(states[n], actions[n], q, ev)
  {
    RunFrame(states, actions, n);
    RunInv(states, actions, n);
    EventHappens(states[n], actions[n], q);
    match actions[n] {
      case Work(i, step) => WorkerCause(states[n], i, step, q);
      case Ask(i, step) => RequestCause(states[n], i, step, q);
    }
    ev := EventOf(states[n], actions[n], q);
  }

  // ---------- conservation ----------

  ghost predicate Distinct(xs: seq<nat>) {
    forall a, b :: 0 <= a < b < |xs| ==> xs[a] != xs[b]
  }

  /** The logs record every popped and every handled ticket exactly once. */
  ghost predicate Logged(queue: Queue)
  {
    && Distinct(queue.popped)
    && Distinct(queue.handled)
    && (forall t: nat :: t in queue.popped <==> t < |queue.status| && queue.status[t] != Queued)
    && (forall t: nat :: t in queue.handled <==> StatusIs(queue, t, Handled))
  }

  lemma LoggedKept(queue: Queue, ev: Event)
    requires Logged(queue) && Possible(queue, ev)
    ensures Logged(Happen(queue, ev))
  {
    var queue' := Happen(queue, ev);
    match ev {
      case Pop(k, _) =>
        assert queue.pending[k] !in queue.popped;
      case Complete(t) =>
        assert t !in queue.handled;
      case _ =>
    }
  }

  lemma LoggedStep(states: seq<State>, actions: seq<Action>, n: nat, q: Id)
    requires IsRun(states, actions) && n < |actions| && q in states[0].queues
    requires q in states[n].queues && Logged(states[n].queues[q])
    ensures q in states[n + 1].queues && Logged(states[n + 1].queues[q])
  {
    hide Enabled, Apply, Init, Cause, QueueOk;
    var ev := RunStep(states, actions, n, q);
    LoggedKept(states[n].queues[q], ev);
  }

  lemma {:induction false} RunLogged(states: seq<State>, actions: seq<Action>, n: nat, q: Id)
    requires IsRun(states, actions) && n < |states| && q in states[0].queues
    ensures q in states[n].queues && Logged(states[n].queues[q])
  {
    if n > 0 {
      hide Enabled, Apply, Logged, Init;
      RunLogged(states, actions, n - 1, q);
      LoggedStep(states, actions, n - 1, q);
    }
  }

  function Bit(b: bool): nat {
    if b then 1 else 0
  }

  /** Conservation: in every reachable state each message ever enqueued is in exactly one place,
      exactly once: in the deque, in the hands of exactly one worker, in the log of completed
      callbacks, or dropped; and the atomic counter is the number of held and dropped messages. */
  lemma Conservation(states: seq<State>, actions: seq<Action>, n: nat, q: Id, t: nat)
    requires IsRun(states, actions) && n < |states| && q in states[n].queues
    ensures var queue := states[n].queues[q];
            && queue.busy == BusyCount(queue.status)
            && Ascending(queue.pending) && Distinct(queue.handled) && Distinct(queue.popped)
            && ((t in queue.pending || t in queue.popped || t in queue.handled) ==> t < |queue.status|)
            && (t < |queue.status| ==>
                  && Bit(t in queue.pending) + Bit(queue.status[t].Held?) + Bit(t in queue.handled) +
                     Bit(queue.status[t] == Dropped) == 1
                  && (t in queue.popped <==> t !in queue.pending))
    ensures forall w <- states[n].handlers ::
              && w in states[n].threads
              && HeldMatches(states[n].handlers, states[n].queues[q], q, w, states[n].threads[w].job, t)
  {
    RunFrame(states, actions, n);
    RunInv(states, actions, n);
    RunLogged(states, actions, n, q);
    var s := states[n];
    assert QueueOk(s.queues[q]);
  }
}

/** What a call of send_message and the destructor of a handler achieve, and which steps are open to a
    thread. */
module DispatchCalls {
  import opened Wrappers
  import opened Dispatch
  import opened DispatchInvariants
  import opened DispatchRuns
  import opened DispatchHistory
  import opened DispatchControl

  // ---------- sending ----------

  /** Inside send_message to q, before its message is enqueued. */
  predicate InSend(request: Request, q: Id) {
    (request.SendLocking? || request.SendFull? || request.SendAsleep?) && request.to == q
  }

  /** Step n takes thread i out of the first part of a send to q: it finds room, appends one ticket
      with the right origin, and has its notification to make. */
  ghost predicate Delivers(states: seq<State>, n: nat, i: Tid, q: Id)
  {
    && n + 1 < |states| && i in states[n].threads && i in states[n + 1].threads
    && q in states[n].queues && q in states[n + 1].queues
    && var th := states[n].threads[i];
       && th.request.SendLocking? && th.request.to == q && HasRoom(states[n].queues[q], th.request.limit)
       && states[n + 1].threads[i].request == Announcing(q)
       && Pushes(states[n].queues[q], states[n + 1].queues[q], Sender(states[n].handlers, i, th.job))
  }

  /** Whatever the step: a thread leaves that part of a send only by delivering. */
  lemma SendEndsOnlyWithPush(states: seq<State>, actions: seq<Action>, n: nat, i: Tid, q: Id)
    requires IsRun(states, actions) && n < |actions| && i in states[n].threads && i in states[n + 1].threads
    requires InSend(states[n].threads[i].request, q) && !InSend(states[n + 1].threads[i].request, q)
    ensures Delivers(states, n, i, q)
  {
    hide Enabled, Apply;
    RunMoves(states, actions, n, i);
  }

  lemma {:induction false} ThreadStays(states: seq<State>, actions: seq<Action>, n: nat, m: nat, i: Tid)
    requires IsRun(states, actions) && n <= m < |states| && i in states[n].threads
    ensures i in states[m].threads
  {
    if n < m {
      hide Enabled, Apply;
      ThreadStays(states, actions, n, m - 1, i);
      RunMoves(states, actions, m - 1, i);
    }
  }

  /** A send that has returned, or is about to notify, has delivered its message on the way. */
  lemma {:induction false} SendDelivers(states: seq<State>, actions: seq<Action>, n: nat, m: nat, i: Tid, q: Id)
      returns (k: nat)
    requires IsRun(states, actions) && n <= m < |states| && i in states[n].threads && i in states[m].threads
    requires InSend(states[n].threads[i].request, q) && !InSend(states[m].threads[i].request, q)
    ensures n <= k < m && Delivers(states, k, i, q)
    decreases m - n
  {
    hide Enabled, Apply;
    ThreadStays(states, actions, n, n + 1, i);
    if InSend(states[n + 1].threads[i].request, q) {
      k := SendDelivers(states, actions, n + 1, m, i, q);
    } else {
      SendEndsOnlyWithPush(states, actions, n, i, q);
      k := n;
    }
  }

  /** A send returns only from its notification. */
  lemma SendReturnsAfterNotifying(states: seq<State>, actions: seq<Action>, n: nat, i: Tid)
    requires IsRun(states, actions) && n < |actions| && i in states[n].threads && i in states[n + 1].threads
    requires states[n].threads[i].request != Idle && states[n + 1].threads[i].request == Idle
    requires !states[n].threads[i].request.WaitLocking? && !states[n].threads[i].request.Joining?
    ensures states[n].threads[i].request.Announcing?
    ensures NotifiesWorkers(states[n], states[n + 1], i, states[n].threads[i].request.to)
  {
    hide Enabled, Apply;
    RunMoves(states, actions, n, i);
  }

  /** An attempt to send appends a ticket if and only if there is no limit or the deque is shorter. */
  lemma TrySendPushesIffRoom(states: seq<State>, actions: seq<Action>, n: nat, i: Tid, q: Id)
    requires IsRun(states, actions) && n < |actions| && actions[n] == Ask(i, TrySend)
    requires i in states[n].threads && states[n].threads[i].request.SendLocking?
    requires states[n].threads[i].request.to == q
    ensures q in states[n].queues && q in states[n + 1].queues && i in states[n + 1].threads
    ensures var room := HasRoom(states[n].queues[q], states[n].threads[i].request.limit);
            && (states[n + 1].threads[i].request == Announcing(q) <==> room)
            && |states[n + 1].queues[q].status| == |states[n].queues[q].status| + if room then 1 else 0
  {
    RunFrame(states, actions, n);
    assert RequestEnabled(states[n], i, TrySend);
    TrySendMoves(states, actions, n, i);
    hide Enabled, Apply;
    RunMoves(states, actions, n, i);
    var ev := RunStep(states, actions, n, q);
  }

  lemma TrySendMoves(states: seq<State>, actions: seq<Action>, n: nat, i: Tid)
    requires IsRun(states, actions) && n < |actions| && actions[n] == Ask(i, TrySend) && i in states[n].threads
    ensures i in states[n + 1].threads && states[n + 1].threads[i].request != states[n].threads[i].request
  {
    RunInv(states, actions, n);
    NoFault(states[n], actions[n]);
    Applied(states[n], actions[n], i, 0);
    ActorAfter(states[n], actions[n]);
  }

  /** A call begins as it was asked for. */
  lemma CallsBeginAsAsked(states: seq<State>, actions: seq<Action>, n: nat, i: Tid)
    requires IsRun(states, actions) && n < |actions| && actions[n].Ask? && actions[n].tid == i
    ensures i in states[n + 1].threads
    ensures var ask, after := actions[n].ask, states[n + 1].threads[i].request;
            && (ask.BeginSend? ==> after == SendLocking(ask.to, ask.limit))
            && (ask.BeginWait? ==> after == WaitLocking(ask.to))
            && (ask.StopFlag? ==> after == Stopping(ask.worker) && ask.worker !in states[n + 1].running)
  {
    RunInv(states, actions, n);
    NoFault(states[n], actions[n]);
    Applied(states[n], actions[n], i, 0);
    ActorAfter(states[n], actions[n]);
  }

  // ---------- stopping ----------

  /** Thread i has just cleared the flag of a worker. */
  predicate ClearsFlag(s: State, s': State, i: Tid) {
    && i in s'.threads && s'.threads[i].request.Stopping? && s'.threads[i].request.worker in s.running
    && s'.running == s.running - {s'.threads[i].request.worker}
  }

  ghost predicate SomeFlagCleared(s: State, s': State) {
    exists i :: ClearsFlag(s, s', i)
  }

  /** Flags are only ever cleared, by a destructor that then has its notification to make. */
  lemma FlagsOnlyCleared(states: seq<State>, actions: seq<Action>, n: nat)
    requires IsRun(states, actions) && n < |actions|
    ensures || states[n + 1].running == states[n].running
            || SomeFlagCleared(states[n], states[n + 1])
  {
    RunInv(states, actions, n);
    var s, a := states[n], actions[n];
    NoFault(s, a);
    Applied(s, a, a.tid, 0);
    ActorAfter(s, a);
    if a.Ask? && a.ask.StopFlag? {
      assert ClearsFlag(s, states[n + 1], a.tid);
    }
  }

  lemma {:induction false} FlagStaysCleared(states: seq<State>, actions: seq<Action>, n: nat, m: nat, w: Tid)
    requires IsRun(states, actions) && n <= m < |states| && w !in states[n].running
    ensures w !in states[m].running
  {
    if n < m {
      hide Enabled, Apply;
      FlagStaysCleared(states, actions, n, m - 1, w);
      FlagsOnlyCleared(states, actions, m - 1);
    }
  }

  ghost predicate StopsCleared(s: State, j: Tid)
    requires j in s.threads
  {
    && (s.threads[j].job == Exited ==> j !in s.running)
    && (s.threads[j].request.Stopping? || s.threads[j].request.Joining? ==> s.threads[j].request.worker !in s.running)
  }

  lemma StopsClearedStep(states: seq<State>, actions: seq<Action>, n: nat, j: Tid)
    requires IsRun(states, actions) && n < |actions| && j in states[n].threads && StopsCleared(states[n], j)
    ensures j in states[n + 1].threads && StopsCleared(states[n + 1], j)
  {
    hide Enabled, Apply;
    RunMoves(states, actions, n, j);
    FlagsOnlyCleared(states, actions, n);
  }

  /** A worker leaves its loop only after its flag was cleared; and while its destructor has passed the
      locked part, the flag is cleared. */
  lemma {:induction false} ExitedMeansStopped(states: seq<State>, actions: seq<Action>, n: nat, j: Tid)
    requires IsRun(states, actions) && n < |states| && j in states[n].threads
    ensures StopsCleared(states[n], j)
  {
    if n > 0 {
      RunTakesStep(states, actions, n - 1, j);
      hide Enabled, Apply;
      ExitedMeansStopped(states, actions, n - 1, j);
      StopsClearedStep(states, actions, n - 1, j);
    }
  }

  lemma RunTakesStep(states: seq<State>, actions: seq<Action>, n: nat, j: Tid)
    requires IsRun(states, actions) && n < |actions| && j in states[n + 1].threads
    ensures j in states[n].threads
  {
    RunInv(states, actions, n);
    NoFault(states[n], actions[n]);
    Applied(states[n], actions[n], j, 0);
  }

  lemma {:induction false} ExitedStays(states: seq<State>, actions: seq<Action>, n: nat, m: nat, w: Tid)
    requires IsRun(states, actions) && n <= m < |states| && w in states[n].threads && states[n].threads[w].job == Exited
    ensures w in states[m].threads && states[m].threads[w].job == Exited
  {
    if n < m {
      hide Enabled, Apply;
      ExitedStays(states, actions, n, m - 1, w);
      RunMoves(states, actions, m - 1, w);
    }
  }

  /** When a destructor has returned, its worker has left its loop for good and its flag is cleared. */
  lemma DestructorStopsWorker(states: seq<State>, actions: seq<Action>, n: nat, m: nat, i: Tid, w: Tid)
    requires IsRun(states, actions) && n < m < |states| && i in states[n].threads && i in states[n + 1].threads
    requires states[n].threads[i].request == Joining(w) && states[n + 1].threads[i].request != Joining(w)
    ensures states[n + 1].threads[i].request == Idle
    ensures w in states[m].threads && states[m].threads[w].job == Exited && w !in states[m].running
  {
    hide Enabled, Apply;
    RunMoves(states, actions, n, i);
    ExitedStays(states, actions, n, m, w);
    ExitedMeansStopped(states, actions, m, w);
  }

  // ---------- which steps are open ----------

  /** The step that comes next in a thread's code, for a thread that is not idle outside the library and
      has not left its loop. */
  function Next(i: Tid, th: Thread): Action {
    match th.request
    case SendLocking(_, _) => Ask(i, TrySend)
    case SendFull(_, _) => Ask(i, SendSleep)
    case SendAsleep(_, _, _) => Ask(i, SendWake)
    case Announcing(_) => Ask(i, Announce)
    case WaitLocking(_) => Ask(i, CheckEmpty)
    case WaitChecked(_) => Ask(i, WaitSleep)
    case WaitAsleep(_, _) => Ask(i, WaitWake)
    case Stopping(_) => Ask(i, StopNotify)
    case Joining(_) => Ask(i, Join)
    case Idle =>
      match th.job
      case LoopTop => Work(i, TestFlag)
      case Locking => Work(i, Enter)
      case AboutToSleep => Work(i, Sleep)
      case Asleep(_) => Work(i, Wake)
      case Inside => Work(i, Take(0))
      case Running(_) => Work(i, Finish)
      case Reporting(_) => Work(i, Report)
      case _ => Work(i, Recheck)
  }

  /** The mutex that a thread has to take for its next step. */
  function Needs(handlers: map<Tid, Handler>, i: Tid, th: Thread): Option<Id> {
    if th.request.SendLocking? || th.request.WaitLocking? then Some(th.request.to)
    else if th.request.Idle? && (th.job.Locking? || th.job.Reporting?) && i in handlers then Some(handlers[i].home)
    else None
  }

  /** Nothing but the mutex it takes, or the worker it joins, is missing for a thread's next step. */
  ghost predicate NothingMissing(s: State, i: Tid)
    requires i in s.threads
  {
    var th := s.threads[i];
    && (Needs(s.handlers, i, th).Some? ==> LockFree(s, Needs(s.handlers, i, th).value))
    && (th.request.Joining? ==> th.request.worker in s.threads && s.threads[th.request.worker].job == Exited)
  }

  lemma NextWorkIsOpen(s: State, i: Tid)
    requires Shape(s) && i in s.threads && s.threads[i].request == Idle
    requires s.threads[i].job != Exited && s.threads[i].job != Free
    ensures Enabled(s, Next(i, s.threads[i])) <==> NothingMissing(s, i)
  {
    assert ThreadShape(s.handlers, s.queues.Keys, i, s.threads[i]);
  }

  lemma NextAskIsOpen(s: State, i: Tid)
    requires Shape(s) && i in s.threads && s.threads[i].request != Idle
    ensures Enabled(s, Next(i, s.threads[i])) <==> NothingMissing(s, i)
  {
    assert ThreadShape(s.handlers, s.queues.Keys, i, s.threads[i]);
  }

  /** A thread's next step waits for nothing but the mutex it takes, or the worker it joins. */
  lemma NextStepIsOpen(s: State, i: Tid)
    requires Shape(s) && i in s.threads && s.threads[i].job != Exited && s.threads[i] != Thread(Free, Idle)
    ensures Enabled(s, Next(i, s.threads[i])) <==> NothingMissing(s, i)
  {
    assert ThreadShape(s.handlers, s.queues.Keys, i, s.threads[i]);
    hide Enabled, Next, NothingMissing;
    if s.threads[i].request == Idle {
      NextWorkIsOpen(s, i);
    } else {
      NextAskIsOpen(s, i);
    }
  }

  /** Outside the library, and in a running callback, every call can be begun. */
  lemma CallsCanBegin(s: State, i: Tid, q: Id, limit: nat)
    requires Shape(s) && i in s.threads && s.threads[i].request == Idle && q in s.queues
    requires s.threads[i].job.Free? || s.threads[i].job.Running?
    ensures Enabled(s, Ask(i, BeginSend(q, limit))) && Enabled(s, Ask(i, BeginWait(q)))
    ensures forall w <- s.running :: w in s.handlers && LockFree(s, s.handlers[w].home) ==>
              Enabled(s, Ask(i, StopFlag(w)))
  {
    assert ThreadShape(s.handlers, s.queues.Keys, i, s.threads[i]);
  }

  /** No mutex is held for good: in every reachable state the owner of a mutex can take its next step
      at once, and that step gives the mutex back. */
  lemma MutexIsGivenBack(states: seq<State>, actions: seq<Action>, n: nat, q: Id)
    requires IsRun(states, actions) && n < |states| && q in states[n].queues && states[n].queues[q].owner.Some?
    ensures var s, i := states[n], states[n].queues[q].owner.value;
            && i in s.threads && Enabled(s, Next(i, s.threads[i]))
            && q in Apply(s, Next(i, s.threads[i])).queues
            && Apply(s, Next(i, s.threads[i])).queues[q].owner == None
  {
    RunInv(states, actions, n);
    OwnerGivesBack(states[n], q, states[n].queues[q].owner.value);
  }

  lemma InsideGivesBack(s: State, q: Id, i: Tid)
    requires Shape(s) && i in s.threads && q in s.queues && SectionOf(s.handlers, i, s.threads[i]) == Some(q)
    requires Enabled(s, Next(i, s.threads[i])) && EffectOf(s, Next(i, s.threads[i])).Effect?
    ensures QueueAfter(s, EffectOf(s, Next(i, s.threads[i])), q).owner == None
  {
    assert ThreadShape(s.handlers, s.queues.Keys, i, s.threads[i]);
  }

  lemma OwnerIsInside(s: State, q: Id, i: Tid)
    requires Shape(s) && Exclusive(s) && q in s.queues && s.queues[q].owner == Some(i)
    ensures i in s.threads && SectionOf(s.handlers, i, s.threads[i]) == Some(q) && NothingMissing(s, i)
    ensures s.threads[i].job != Exited && s.threads[i] != Thread(Free, Idle)
  {
    assert SectionOf(s.handlers, i, s.threads[i]) == Some(q) <==> s.queues[q].owner == Some(i);
    assert ThreadShape(s.handlers, s.queues.Keys, i, s.threads[i]);
  }

  lemma OwnerGivesBack(s: State, q: Id, i: Tid)
    requires Inv(s) && q in s.queues && s.queues[q].owner == Some(i)
    ensures i in s.threads && Enabled(s, Next(i, s.threads[i]))
    ensures q in Apply(s, Next(i, s.threads[i])).queues && Apply(s, Next(i, s.threads[i])).queues[q].owner == None
  {
    hide Inv, Shape, Exclusive, Enabled, EffectOf, Apply;
    InvParts(s);
    OwnerIsInside(s, q, i);
    var a := Next(i, s.threads[i]);
    NextStepIsOpen(s, i);
    NoFault(s, a);
    InsideGivesBack(s, q, i);
    Applied(s, a, i, q);
  }
}

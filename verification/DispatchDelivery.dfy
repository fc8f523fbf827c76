/** A message on its way from a send to the completion of its callback: the steps that the threads
    concerned can take, and the run that they make. */
module DispatchDelivery {
  import opened Wrappers
  import opened Dispatch
  import opened DispatchInvariants
  import opened DispatchRuns
  import opened DispatchControl

  /** The state after an enabled action, as far as the acting thread and one queue are concerned. */
  lemma Does(s: State, a: Action, q: Id)
    requires Inv(s) && Enabled(s, a)
    ensures var s', e := Apply(s, a), EffectOf(s, a);
            && Inv(s') && e.Effect? && s'.handlers == s.handlers && s'.running == RunningAfter(s, a)
            && s'.threads.Keys == s.threads.Keys && s'.queues.Keys == s.queues.Keys
            && a.tid in s.threads && s'.threads[a.tid] == e.thread
            && (q in s.queues ==> s'.queues[q] == QueueAfter(s, e, q))
  {
    NoFault(s, a);
    StepInv(s, a);
    Applied(s, a, a.tid, q);
    ActorAfter(s, a);
  }

  ghost predicate Leads(s: State, s': State) {
    exists a :: Enabled(s, a) && s' == Apply(s, a)
  }

  /** A worker at the top of its loop, with its flag set, a message in the deque and the mutex free,
      has five steps of its own that complete the message its order asks for. */
  lemma WorkerHandlesNext(s: State, w: Tid, random: nat) returns (s5: State)
    requires Inv(s) && IsWorker(s, w) && w in s.running && w in s.threads && s.threads[w] == Thread(LoopTop, Idle)
    requires LockFree(s, s.handlers[w].home)
    requires IndexAllowed(s.handlers[w].order, random, |s.queues[s.handlers[w].home].pending|)
    ensures exists s1, s2, s3, s4 :: Leads(s, s1) && Leads(s1, s2) && Leads(s2, s3) && Leads(s3, s4) && Leads(s4, s5)
    ensures var q := s.handlers[w].home;
            && q in s5.queues
            && var k := PopIndex(s.handlers[w].order, random, |s.queues[q].pending|);
               s5.queues[q].handled == s.queues[q].handled + [s.queues[q].pending[k]]
  {
    hide Inv;
    var q := s.handlers[w].home;
    var s1 := TestedFlag(s, w);
    var s2 := EnteredQueue(s1, w);
    var s3 := TookMessage(s2, w, random);
    var s4 := RecheckedFlag(s3, w);
    s5 := FinishedMessage(s4, w);
  }

  lemma TestedFlag(s: State, w: Tid) returns (s': State)
    requires Inv(s) && IsWorker(s, w) && w in s.running && w in s.threads && s.threads[w] == Thread(LoopTop, Idle)
    ensures Leads(s, s') && Inv(s') && s'.handlers == s.handlers && s'.running == s.running && w in s'.threads
    ensures s'.threads[w] == Thread(Locking, Idle) && IsWorker(s', w)
    ensures s'.queues[s.handlers[w].home] == s.queues[s.handlers[w].home]
  {
    hide Inv, Apply;
    s' := Apply(s, Work(w, TestFlag));
    Does(s, Work(w, TestFlag), s.handlers[w].home);
  }

  lemma EnteredQueue(s: State, w: Tid) returns (s': State)
    requires Inv(s) && IsWorker(s, w) && w in s.threads && s.threads[w] == Thread(Locking, Idle)
    requires LockFree(s, s.handlers[w].home) && s.queues[s.handlers[w].home].pending != []
    ensures Leads(s, s') && Inv(s') && s'.handlers == s.handlers && s'.running == s.running && w in s'.threads
    ensures s'.threads[w] == Thread(Inside, Idle) && IsWorker(s', w)
    ensures s'.queues[s.handlers[w].home] == s.queues[s.handlers[w].home].(owner := Some(w))
  {
    hide Inv, Apply;
    s' := Apply(s, Work(w, Enter));
    Does(s, Work(w, Enter), s.handlers[w].home);
  }

  lemma TookMessage(s: State, w: Tid, random: nat) returns (s': State)
    requires Inv(s) && IsWorker(s, w) && w in s.running && w in s.threads && s.threads[w] == Thread(Inside, Idle)
    requires IndexAllowed(s.handlers[w].order, random, |s.queues[s.handlers[w].home].pending|)
    ensures Leads(s, s') && Inv(s') && s'.handlers == s.handlers && s'.running == s.running && w in s'.threads
    ensures var q := s.handlers[w].home;
            var k := PopIndex(s.handlers[w].order, random, |s.queues[q].pending|);
            && s'.threads[w] == Thread(Carrying(s.queues[q].pending[k]), Idle) && IsWorker(s', w)
            && s'.queues[q].handled == s.queues[q].handled
  {
    hide Inv, Apply;
    s' := Apply(s, Work(w, Take(random)));
    Does(s, Work(w, Take(random)), s.handlers[w].home);
  }

  lemma RecheckedFlag(s: State, w: Tid) returns (s': State)
    requires Inv(s) && IsWorker(s, w) && w in s.running && w in s.threads
    requires s.threads[w].job.Carrying? && s.threads[w].request == Idle
    ensures Leads(s, s') && Inv(s') && s'.handlers == s.handlers && w in s'.threads
    ensures s'.threads[w] == Thread(Running(s.threads[w].job.ticket), Idle) && IsWorker(s', w)
    ensures s'.queues[s.handlers[w].home] == s.queues[s.handlers[w].home]
  {
    hide Inv, Apply;
    s' := Apply(s, Work(w, Recheck));
    Does(s, Work(w, Recheck), s.handlers[w].home);
  }

  lemma FinishedMessage(s: State, w: Tid) returns (s': State)
    requires Inv(s) && IsWorker(s, w) && w in s.threads
    requires s.threads[w].job.Running? && s.threads[w].request == Idle
    ensures Leads(s, s') && s.handlers[w].home in s'.queues
    ensures s'.queues[s.handlers[w].home].handled == s.queues[s.handlers[w].home].handled + [s.threads[w].job.ticket]
  {
    hide Inv, Apply;
    s' := Apply(s, Work(w, Finish));
    Does(s, Work(w, Finish), s.handlers[w].home);
  }

  ghost predicate Reaches(s0: State, s: State) {
    exists states, actions :: IsRun(states, actions) && states[0] == s0 && states[|actions|] == s
  }

  lemma ReachesStart(s0: State)
    requires Init(s0)
    ensures Reaches(s0, s0)
  {
    assert IsRun([s0], []);
  }

  lemma ReachesNext(s0: State, s: State, s': State)
    requires Reaches(s0, s) && Leads(s, s')
    ensures Reaches(s0, s')
  {
    hide Enabled, Apply, Init;
    var states, actions :| IsRun(states, actions) && states[0] == s0 && states[|actions|] == s;
    var a :| Enabled(s, a) && s' == Apply(s, a);
    var states', actions' := states + [s'], actions + [a];
    assert IsRun(states', actions') && states'[0] == s0 && states'[|actions'|] == s';
  }

  /** One step of client c, while worker w is at the top of its loop. */
  ghost predicate ClientSteps(s: State, s': State, c: Tid, after: Request, w: Tid, q: Id, queue': Queue)
  {
    && Leads(s, s') && Inv(s') && s'.handlers == s.handlers && s'.running == s.running
    && c in s'.threads && s'.threads[c] == Thread(Free, after)
    && w in s'.threads && s'.threads[w] == Thread(LoopTop, Idle)
    && q in s'.queues && s'.queues[q] == queue'
  }

  /** Client c has made the request and worker w is at the top of its loop. */
  ghost predicate ClientIs(s: State, c: Tid, request: Request, w: Tid, q: Id) {
    && Inv(s) && q in s.queues && LockFree(s, q) && c in s.threads && s.threads[c] == Thread(Free, request)
    && w in s.threads && w != c && s.threads[w] == Thread(LoopTop, Idle)
  }

  lemma ClientDoes(s: State, c: Tid, request: Request, step: RequestStep, w: Tid, q: Id)
    requires ClientIs(s, c, request, w, q)
    requires RequestEnabled(s, c, step) && !step.StopFlag?
    ensures var e := RequestEffect(s, c, step);
            && e.Effect?
            && ClientSteps(s, Apply(s, Ask(c, step)), c, e.thread.request, w, q, QueueAfter(s, e, q))
  {
    hide Inv, Apply, RequestEnabled, RequestEffect, Noticed, Shape;
    var a := Ask(c, step);
    InvParts(s);
    Does(s, a, q);
    Applied(s, a, w, q);
    RequestStepMoves(s, c, step);
    NoticedThread(s.handlers, w, s.threads[w], EffectOf(s, a).notice);
    assert Leads(s, Apply(s, a));
  }

  lemma BeganSend(s: State, c: Tid, w: Tid, q: Id) returns (s': State)
    requires ClientIs(s, c, Idle, w, q)
    ensures ClientSteps(s, s', c, SendLocking(q, 0), w, q, s.queues[q])
  {
    hide Inv, Apply, ClientSteps;
    s' := Apply(s, Ask(c, BeginSend(q, 0)));
    ClientDoes(s, c, Idle, BeginSend(q, 0), w, q);
  }

  lemma TriedSend(s: State, c: Tid, w: Tid, q: Id) returns (s': State)
    requires ClientIs(s, c, SendLocking(q, 0), w, q)
    ensures ClientSteps(s, s', c, Announcing(q), w, q, Enqueued(s.queues[q], None))
  {
    hide Inv, Apply, ClientSteps;
    s' := Apply(s, Ask(c, TrySend));
    ClientDoes(s, c, SendLocking(q, 0), TrySend, w, q);
  }

  lemma Announced(s: State, c: Tid, w: Tid, q: Id) returns (s': State)
    requires ClientIs(s, c, Announcing(q), w, q)
    ensures ClientSteps(s, s', c, Idle, w, q, s.queues[q])
  {
    hide Inv, Apply, ClientSteps;
    s' := Apply(s, Ask(c, Announce));
    ClientDoes(s, c, Announcing(q), Announce, w, q);
  }

  lemma ClientSends(s0: State, s: State, c: Tid, w: Tid, q: Id) returns (s3: State)
    requires Reaches(s0, s) && ClientIs(s, c, Idle, w, q) && s.queues[q] == EMPTY_QUEUE
    ensures Reaches(s0, s3) && Inv(s3) && s3.handlers == s.handlers && s3.running == s.running
    ensures w in s3.threads && s3.threads[w] == Thread(LoopTop, Idle)
    ensures q in s3.queues && s3.queues[q] == Enqueued(EMPTY_QUEUE, None)
  {
    hide Reaches, Inv, Leads;
    var s1 := BeganSend(s, c, w, q);
    ReachesNext(s0, s, s1);
    var s2 := TriedSend(s1, c, w, q);
    ReachesNext(s0, s1, s2);
    s3 := Announced(s2, c, w, q);
    ReachesNext(s0, s2, s3);
  }

  lemma StartsIdle(s0: State, c: Tid, w: Tid)
    requires Init(s0) && c in s0.threads && c !in s0.handlers && w in s0.handlers
    ensures ClientIs(s0, c, Idle, w, s0.handlers[w].home) && w in s0.running
    ensures s0.queues[s0.handlers[w].home] == EMPTY_QUEUE
  {
    InitInv(s0);
  }

  /** From any start, with any handlers, orders and other threads: a client's send followed by steps of
      one handler ends with the message handled. */
  lemma SentMessageIsHandled(s0: State, c: Tid, w: Tid) returns (s: State)
    requires Init(s0) && c in s0.threads && c !in s0.handlers && w in s0.handlers
    ensures Reaches(s0, s) && s0.handlers[w].home in s.queues && s.queues[s0.handlers[w].home].handled == [0]
  {
    hide Init, Inv, Reaches, Leads;
    var q := s0.handlers[w].home;
    StartsIdle(s0, c, w);
    ReachesStart(s0);
    var s3 := ClientSends(s0, s0, c, w, q);
    assert s3.queues[q].pending == [0] && s3.queues[q].handled == [];
    s := WorkerHandlesNext(s3, w, 0);
    var t1, t2, t3, t4 :| Leads(s3, t1) && Leads(t1, t2) && Leads(t2, t3) && Leads(t3, t4) && Leads(t4, s);
    ReachesNext(s0, s3, t1);
    ReachesNext(s0, t1, t2);
    ReachesNext(s0, t2, t3);
    ReachesNext(s0, t3, t4);
    ReachesNext(s0, t4, s);
  }
}

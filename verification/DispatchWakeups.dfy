/** No notification of the dispatch protocol is lost, and the invariant of all reachable states. */
module DispatchWakeups {
  import opened Wrappers
  import opened Dispatch
  import opened DispatchInvariants

  // ---------- waiting for an empty queue ----------

  /** A thread inside wait_until_empty that has found q not quiet and has not been notified since. */
  predicate Waiting(th: Thread, q: Id) {
    th.request == WaitChecked(q) || th.request == WaitAsleep(q, false)
  }

  /** A handler of q whose decrement reached zero and whose locked check is still to come. */
  predicate WillReport(handlers: map<Tid, Handler>, w: Tid, th: Thread, q: Id) {
    w in handlers && handlers[w].home == q && th.job == Reporting(0)
  }

  ghost predicate ReportComes(s: State, q: Id) {
    exists w :: w in s.threads && WillReport(s.handlers, w, s.threads[w], q)
  }

  ghost predicate NoLostEmpty(s: State)
  {
    forall q <- s.queues, i <- s.threads :: Quiet(s.queues[q]) && Waiting(s.threads[i], q) ==> ReportComes(s, q)
  }

  ghost predicate EmptyEffect(s: State, i: Tid, e: Effect, q: Id)
    requires e.Effect? && i in s.threads && q in s.queues
  {
    var th := s.threads[i];
    Quiet(QueueAfter(s, e, q)) ==>
      && (Waiting(e.thread, q) ==> Waiting(th, q))
      && (!Quiet(s.queues[q]) ==> WillReport(s.handlers, i, e.thread, q))
      && (WillReport(s.handlers, i, th, q) ==>
            WillReport(s.handlers, i, e.thread, q) || (e.notice == Waiters(q) && LockFree(s, q) && e.change.NoChange?))
  }

  lemma WorkerEmpty(s: State, i: Tid, step: WorkerStep, q: Id)
    requires Shape(s) && Tickets(s) && WorkerEnabled(s, i, step) && WorkerEffect(s, i, step).Effect? && q in s.queues
    ensures EmptyEffect(s, i, WorkerEffect(s, i, step), q)
  {
    assert QueueOk(s.queues[q]);
    assert ThreadShape(s.handlers, s.queues.Keys, i, s.threads[i]);
  }

  lemma RequestEmpty(s: State, i: Tid, step: RequestStep, q: Id)
    requires Shape(s) && RequestEnabled(s, i, step) && q in s.queues
    ensures EmptyEffect(s, i, RequestEffect(s, i, step), q)
  {
    assert ThreadShape(s.handlers, s.queues.Keys, i, s.threads[i]);
    var e := RequestEffect(s, i, step);
    assert Waiting(e.thread, q) && Quiet(QueueAfter(s, e, q)) ==> Waiting(s.threads[i], q);
    assert Quiet(QueueAfter(s, e, q)) ==> Quiet(s.queues[q]);
  }

  /** A notification made with the mutex free leaves no thread waiting un-notified. */
  lemma NoticeReaches(s: State, i: Tid, e: Effect, q: Id, j: Tid)
    requires Shape(s) && Exclusive(s) && e.Effect? && i in s.threads && q in s.queues && j in s.threads
    requires Waiting(e.thread, q) ==> Waiting(s.threads[i], q)
    ensures WillReport(s.handlers, i, s.threads[i], q) && e.notice == Waiters(q) && LockFree(s, q) ==>
              !Waiting(ThreadAfter(s, i, e, j), q)
  {
    assert ThreadShape(s.handlers, s.queues.Keys, j, s.threads[j]);
    assert SectionOf(s.handlers, j, s.threads[j]) == Some(q) <==> s.queues[q].owner == Some(j);
  }

  lemma EmptyAt(s: State, i: Tid, e: Effect, q: Id, j: Tid) returns (w: Tid)
    requires Shape(s) && Exclusive(s) && NoLostEmpty(s)
    requires e.Effect? && i in s.threads && q in s.queues && j in s.threads
    requires EmptyEffect(s, i, e, q) && Quiet(QueueAfter(s, e, q)) && Waiting(ThreadAfter(s, i, e, j), q)
    ensures w in s.threads && WillReport(s.handlers, w, ThreadAfter(s, i, e, w), q)
  {
    if !Quiet(s.queues[q]) {
      w := i;
    } else {
      assert Waiting(s.threads[j], q);
      w :| w in s.threads && WillReport(s.handlers, w, s.threads[w], q);
      NoticeReaches(s, i, e, q, j);
    }
  }

  lemma EmptyCommitted(s: State, i: Tid, e: Effect, running: set<Tid>)
    requires Shape(s) && Exclusive(s) && NoLostEmpty(s) && i in s.threads
    requires e.Effect? ==> forall q <- s.queues :: EmptyEffect(s, i, e, q)
    ensures NoLostEmpty(Commit(s, i, e, running))
  {
    if e.Effect? {
      var s' := Commit(s, i, e, running);
      forall q <- s'.queues, j <- s'.threads | Quiet(s'.queues[q]) && Waiting(s'.threads[j], q)
        ensures ReportComes(s', q)
      {
        var w := EmptyAt(s, i, e, q, j);
        assert w in s'.threads && WillReport(s'.handlers, w, s'.threads[w], q);
      }
    }
  }

  // ---------- waiting for work ----------

  ghost predicate AnnouncementComes(s: State, q: Id) {
    exists j :: j in s.threads && s.threads[j].request == Announcing(q)
  }

  ghost predicate StopComes(s: State, w: Tid) {
    exists j :: j in s.threads && s.threads[j].request == Stopping(w)
  }

  /** A worker that sleeps un-notified although it has a reason to run will still be notified. */
  ghost predicate NoLostWork(s: State)
  {
    forall w <- s.handlers :: IsWorker(s, w) && w in s.threads && s.threads[w].job == Asleep(false) ==>
      && (s.queues[s.handlers[w].home].pending != [] ==> AnnouncementComes(s, s.handlers[w].home))
      && (w !in s.running ==> StopComes(s, w))
  }

  ghost predicate WorkEffect(s: State, i: Tid, e: Effect, running: set<Tid>, w: Tid)
    requires e.Effect? && i in s.threads && IsWorker(s, w)
  {
    var q := s.handlers[w].home;
    var th := s.threads[i];
    && (QueueAfter(s, e, q).pending != [] && s.queues[q].pending == [] ==> e.thread.request == Announcing(q))
    && (th.request == Announcing(q) ==> e.thread.request == Announcing(q) || e.notice == Workers(q))
    && (w == i && e.thread.job == Asleep(false) && th.job != Asleep(false) ==>
          QueueAfter(s, e, q).pending == [] && i in running)
    && (w in s.running && w !in running ==> e.thread.request == Stopping(w))
    && (th.request == Stopping(w) ==> e.thread.request == Stopping(w) || e.notice == Workers(q))
  }

  lemma WorkerWork(s: State, i: Tid, step: WorkerStep, w: Tid)
    requires Shape(s) && Sections(s) && WorkerEnabled(s, i, step) && WorkerEffect(s, i, step).Effect?
    requires IsWorker(s, w)
    ensures WorkEffect(s, i, WorkerEffect(s, i, step), s.running, w)
  {
    assert ThreadShape(s.handlers, s.queues.Keys, i, s.threads[i]);
    assert SectionAt(s.queues[s.handlers[i].home], i in s.running, s.threads[i].job);
  }

  lemma RequestWork(s: State, i: Tid, step: RequestStep, w: Tid)
    requires Shape(s) && RequestEnabled(s, i, step) && IsWorker(s, w)
    ensures WorkEffect(s, i, RequestEffect(s, i, step), RunningAfter(s, Ask(i, step)), w)
  {
    assert ThreadShape(s.handlers, s.queues.Keys, i, s.threads[i]);
  }

  lemma AnnouncementAt(s: State, i: Tid, e: Effect, running: set<Tid>, w: Tid) returns (j: Tid)
    requires Shape(s) && NoLostWork(s) && i in s.threads && e.Effect? && IsWorker(s, w) && w in s.threads
    requires WorkEffect(s, i, e, running, w)
    requires ThreadAfter(s, i, e, w).job == Asleep(false) && QueueAfter(s, e, s.handlers[w].home).pending != []
    ensures j in s.threads && ThreadAfter(s, i, e, j).request == Announcing(s.handlers[w].home)
  {
    var q := s.handlers[w].home;
    if s.queues[q].pending == [] {
      j := i;
    } else {
      assert s.threads[w].job == Asleep(false);
      j :| j in s.threads && s.threads[j].request == Announcing(q);
    }
  }

  lemma StopAt(s: State, i: Tid, e: Effect, running: set<Tid>, w: Tid) returns (j: Tid)
    requires Shape(s) && NoLostWork(s) && i in s.threads && e.Effect? && IsWorker(s, w) && w in s.threads
    requires WorkEffect(s, i, e, running, w)
    requires ThreadAfter(s, i, e, w).job == Asleep(false) && w !in running
    ensures j in s.threads && ThreadAfter(s, i, e, j).request == Stopping(w)
  {
    if w in s.running {
      j := i;
    } else {
      assert s.threads[w].job == Asleep(false);
      j :| j in s.threads && s.threads[j].request == Stopping(w);
    }
  }

  lemma WorkCommitted(s: State, i: Tid, e: Effect, running: set<Tid>)
    requires Shape(s) && NoLostWork(s) && i in s.threads
    requires e.Effect? ==> forall w <- s.handlers :: WorkEffect(s, i, e, running, w)
    ensures e.Effect? ==> NoLostWork(Commit(s, i, e, running))
  {
    if e.Effect? {
      var s' := Commit(s, i, e, running);
      forall w <- s'.handlers | IsWorker(s', w) && w in s'.threads && s'.threads[w].job == Asleep(false)
        ensures s'.queues[s'.handlers[w].home].pending != [] ==> AnnouncementComes(s', s'.handlers[w].home)
        ensures w !in s'.running ==> StopComes(s', w)
      {
        if s'.queues[s'.handlers[w].home].pending != [] {
          var j := AnnouncementAt(s, i, e, running, w);
          assert j in s'.threads && s'.threads[j].request == Announcing(s'.handlers[w].home);
        }
        if w !in running {
          var j := StopAt(s, i, e, running, w);
          assert j in s'.threads && s'.threads[j].request == Stopping(w);
        }
      }
    }
  }
}

/** The critical sections of one message queue as operations on a mutable object that holds the
    messages themselves. The protocol around them, with its interleavings, is in Dispatch; it knows a
    message by its ticket. */
module MessageQueue {
  import opened Wrappers
  import D = Dispatch
  import I = DispatchInvariants
  import T = DispatchTheorems

  /** The deque holds the messages with the given tickets, in that order. */
  ghost predicate Matches<M>(deque: seq<M>, tickets: seq<nat>, sent: seq<M>) {
    && |deque| == |tickets|
    && forall k :: 0 <= k < |deque| ==> tickets[k] < |sent| && deque[k] == sent[tickets[k]]
  }

  lemma MatchesWithout<M>(deque: seq<M>, tickets: seq<nat>, sent: seq<M>, k: nat)
    requires Matches(deque, tickets, sent) && k < |deque|
    ensures k < |tickets| && tickets[k] < |sent| && deque[k] == sent[tickets[k]]
    ensures Matches(D.Without(deque, k), D.Without(tickets, k), sent)
  {
  }

  lemma MatchesWith<M>(deque: seq<M>, tickets: seq<nat>, sent: seq<M>, message: M)
    requires Matches(deque, tickets, sent)
    ensures Matches(deque + [message], tickets + [|sent|], sent + [message])
  {
  }

  lemma PendingIsQueued(queue: D.Queue, k: nat)
    requires I.QueueOk(queue) && k < |queue.pending|
    ensures I.StatusIs(queue, queue.pending[k], D.Queued)
  {
  }

  class Mailbox<M> {
    var deque: seq<M>
    var busyCount: int
    /** Every message ever sent, by ticket, and what the protocol knows about this queue. */
    ghost var sent: seq<M>
    ghost var record: D.Queue

    /** The deque holds the messages whose tickets the protocol has as pending, and the protocol's
        accounting of tickets holds. */
    ghost predicate Valid()
      reads this
    {
      && I.QueueOk(record)
      && busyCount == record.busy
      && |sent| == |record.status|
      && Matches(deque, record.pending, sent)
    }

    constructor ()
      ensures Valid() && record == D.EMPTY_QUEUE && sent == []
    {
      deque, busyCount, sent, record := [], 0, [], D.EMPTY_QUEUE;
    }

    /** get_message: takes the message that the order asks for, keeps the others in their order and
        counts one more busy handler. */
    method GetMessage(order: D.Order, random: nat, ghost worker: D.Tid) returns (message: M)
      requires Valid() && D.IndexAllowed(order, random, |deque|)
      modifies this
      ensures Valid() && sent == old(sent)
      ensures var k := D.PopIndex(order, random, |old(deque)|);
              && k < |old(record).pending| && old(record).pending[k] < |sent|
              && message == sent[old(record).pending[k]] && I.StatusIs(old(record), old(record).pending[k], D.Queued)
              && record == D.Popped(old(record), k, worker)
    {
      hide I.QueueOk, Matches;
      ghost var k, before := D.PopIndex(order, random, |deque|), deque;
      MatchesWithout(deque, record.pending, sent, k);
      PendingIsQueued(record, k);
      I.PoppedOk(record, k, worker);
      match order {
        case FIFO =>
          message := deque[0];
          deque := deque[1..];
        case FILO =>
          message := deque[|deque| - 1];
          deque := deque[..|deque| - 1];
        case RANDOM =>
          message := deque[random];
          deque := deque[..random] + deque[random + 1..];
      }
      assert deque == D.Without(before, k);
      busyCount := busyCount + 1;
      record := D.Popped(record, k, worker);
    }

    /** The part of send_message under the lock, once there is room. */
    method EmplaceBack(message: M, ghost origin: Option<D.Origin>)
      requires Valid()
      modifies this
      ensures Valid() && sent == old(sent) + [message]
      ensures record == D.Enqueued(old(record), origin)
    {
      hide I.QueueOk, Matches;
      I.EnqueuedOk(record, origin);
      MatchesWith(deque, record.pending, sent, message);
      deque := deque + [message];
      sent := sent + [message];
      record := D.Enqueued(record, origin);
    }

    /** The decrement after the callback of a held message; the result is what the locked check later
        uses. */
    method FinishMessage(ghost ticket: nat) returns (stillBusy: int)
      requires Valid() && ticket < |record.status| && record.status[ticket].Held?
      modifies this
      ensures Valid() && sent == old(sent)
      ensures record == D.Completed(old(record), ticket) && stillBusy == record.busy
    {
      I.CompletedOk(record, ticket);
      busyCount := busyCount - 1;
      record := D.Completed(record, ticket);
      stillBusy := busyCount;
    }

    /** The predicate of wait_until_empty: it holds exactly when every message ever sent has been
        handled to completion. */
    method IsQuiet() returns (quiet: bool)
      requires Valid()
      ensures quiet <==> T.AllHandled(record)
    {
      T.QuietMeansHandled(record);
      assert |deque| == |record.pending|;
      quiet := deque == [] && busyCount == 0;
    }
  }
}

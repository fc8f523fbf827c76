/** The allocator of item numbers, for one call after the other (each runs under the registry's mutex). */
module ItemRegistry {

  const SIZE_MAX: nat := 0xFFFF_FFFF_FFFF_FFFF

  /** held counts, for each number, how many clients were given it and have not given it back. A limit
      of 0 is the unlimited mode. */
  datatype State = State(limit: nat, available: set<nat>, next: nat, held: multiset<nat>)

  datatype Call = Register | Deregister(id: nat)

  datatype Reply = Given(id: nat) | Done | Overflow | Invalid | AlreadyDeregistered

  predicate IsLeast(m: nat, s: set<nat>) {
    m in s && forall x :: x in s ==> m <= x
  }

  lemma {:induction false} LeastExists(s: set<nat>)
    requires s != {}
    ensures exists m :: IsLeast(m, s)
  {
    var a :| a in s;
    if !IsLeast(a, s) {
      var x :| x in s && x < a;
      var rest := s - {a};
      assert x in rest;
      LeastExists(rest);
      var m :| IsLeast(m, rest);
      assert m <= x;
      assert forall y :: y in s ==> y == a || y in rest;
      assert IsLeast(m, s);
    }
  }

  /** The first element of an ordered set. */
  function Least(s: set<nat>): (m: nat)
    requires s != {}
    ensures IsLeast(m, s)
  {
    LeastExists(s);
    var m :| IsLeast(m, s);
    m
  }

  function Numbers(n: nat): (r: set<nat>)
    ensures forall id: nat :: id in r <==> id < n
  {
    if n == 0 then {} else Numbers(n - 1) + {n - 1}
  }

  function Serve(s: State, call: Call): (State, Reply) {
    match call
    case Register =>
      if s.available != {} then
        var id := Least(s.available);
        (s.(available := s.available - {id}, held := s.held + multiset{id}), Given(id))
      else if s.limit > 0 || s.next == SIZE_MAX then
        (s, Overflow)
      else
        (s.(next := s.next + 1, held := s.held + multiset{s.next}), Given(s.next))
    case Deregister(id) =>
      if s.limit > 0 && id >= s.limit then (s, Invalid)
      else if id in s.available then (s, AlreadyDeregistered)
      else (s.(available := s.available + {id}, held := s.held - multiset{id}), Done)
  }

  function Init(limit: nat): State {
    State(limit, Numbers(limit), 0, multiset{})
  }

  function Run(s: State, calls: seq<Call>): State {
    if calls == [] then s else Serve(Run(s, calls[..|calls| - 1]), calls[|calls| - 1]).0
  }

  function Bound(s: State): nat {
    if s.limit > 0 then s.limit else s.next
  }

  /** Every number below the bound is either held by exactly one client or available, no other number
      is known. */
  ghost predicate Partition(s: State) {
    && s.next <= SIZE_MAX
    && forall id: nat :: s.held[id] + (if id in s.available then 1 else 0) == if id < Bound(s) then 1 else 0
  }

  /** A call that does not return a number the unlimited registry never gave out. */
  predicate Proper(s: State, call: Call) {
    call.Register? || s.limit > 0 || call.id < s.next
  }

  /** The partition survives a call exactly when the call is proper. */
  lemma StepKeepsPartition(s: State, call: Call)
    requires Partition(s)
    ensures Partition(Serve(s, call).0) <==> Proper(s, call)
  {
    var t := Serve(s, call).0;
    if call.Deregister? && !Proper(s, call) {
      assert s.held[call.id] + (if call.id in s.available then 1 else 0) == 0;
      assert call.id in t.available && call.id >= Bound(t);
    }
  }

  lemma InitPartition(limit: nat)
    ensures Partition(Init(limit))
  {
  }

  ghost predicate AlwaysPartition(limit: nat, calls: seq<Call>) {
    forall k :: 0 <= k <= |calls| ==> Partition(Run(Init(limit), calls[..k]))
  }

  ghost predicate AlwaysProper(limit: nat, calls: seq<Call>) {
    forall k :: 0 <= k < |calls| ==> Proper(Run(Init(limit), calls[..k]), calls[k])
  }

  lemma OneMoreCall(limit: nat, front: seq<Call>, call: Call)
    ensures AlwaysPartition(limit, front + [call]) <==>
            AlwaysPartition(limit, front) && Partition(Run(Init(limit), front + [call]))
    ensures AlwaysProper(limit, front + [call]) <==>
            AlwaysProper(limit, front) && Proper(Run(Init(limit), front), call)
  {
    hide Partition, Proper, Run;
    var calls := front + [call];
    assert calls[..|calls|] == calls;
    assert forall k :: 0 <= k <= |front| ==> calls[..k] == front[..k];
    assert calls[..|front|] == front && calls[|front|] == call;
    assert forall k :: 0 <= k < |front| ==> calls[k] == front[k];
  }

  /** Along any sequence of calls the partition holds throughout exactly when every call is proper. */
  lemma {:induction false} RunKeepsPartition(limit: nat, calls: seq<Call>)
    ensures AlwaysPartition(limit, calls) <==> AlwaysProper(limit, calls)
  {
    if calls == [] {
      InitPartition(limit);
    } else {
      hide Partition, Proper, Serve;
      var n := |calls| - 1;
      var front := calls[..n];
      RunKeepsPartition(limit, front);
      OneMoreCall(limit, front, calls[n]);
      assert front + [calls[n]] == calls;
      var s := Run(Init(limit), front);
      assert AlwaysPartition(limit, front) ==> Partition(s) by {
        assert front[..|front|] == front;
      }
      if Partition(s) {
        StepKeepsPartition(s, calls[n]);
      }
    }
  }

  lemma {:induction false} LimitStays(s: State, calls: seq<Call>)
    ensures Run(s, calls).limit == s.limit
  {
    if calls != [] {
      LimitStays(s, calls[..|calls| - 1]);
    }
  }

  /** A limited registry needs nothing of its callers. */
  lemma LimitedAlwaysPartitions(limit: nat, calls: seq<Call>)
    requires limit > 0
    ensures Partition(Run(Init(limit), calls))
  {
    hide Partition, Run;
    forall k | 0 <= k < |calls|
      ensures Proper(Run(Init(limit), calls[..k]), calls[k])
    {
      LimitStays(Init(limit), calls[..k]);
    }
    RunKeepsPartition(limit, calls);
    assert calls[..|calls|] == calls;
  }

  // ---------- what a registration returns ----------

  function Below(n: nat): (r: multiset<nat>)
    ensures |r| == n
    ensures forall id: nat :: r[id] == if id < n then 1 else 0
  {
    if n == 0 then multiset{} else Below(n - 1) + multiset{n - 1}
  }

  lemma SubBagIsSmaller(a: multiset<nat>, b: multiset<nat>)
    requires a <= b
    ensures |a| <= |b|
    ensures |a| == |b| ==> a == b
  {
    assert b == a + (b - a);
  }

  /** A registration gives the least number that nobody holds, so never more than the number of held
      items. It overflows exactly when all numbers of the mode are held: the limit of them, or SIZE_MAX. */
  lemma RegisterGivesLeastFree(s: State)
    requires Partition(s)
    ensures var r := Serve(s, Register).1;
            && (r.Given? || r == Overflow)
            && (r.Given? ==> r.id < (if s.limit > 0 then s.limit else SIZE_MAX))
            && (r.Given? ==> s.held[r.id] == 0 && (forall j: nat :: j < r.id ==> s.held[j] == 1))
            && (r.Given? ==> r.id <= |s.held|)
            && (r == Overflow <==> |s.held| == if s.limit > 0 then s.limit else SIZE_MAX)
  {
    var r := Serve(s, Register).1;
    var all := Below(Bound(s));
    assert s.held <= all;
    SubBagIsSmaller(s.held, all);
    if r.Given? {
      assert Below(r.id) <= s.held by {
        forall j: nat | j < r.id ensures s.held[j] == 1 {
          assert j !in s.available;
        }
      }
      SubBagIsSmaller(Below(r.id), s.held);
      assert r.id < Bound(s) ==> s.held[r.id] != all[r.id];
    } else {
      assert s.held == all;
    }
  }

  /** Only number id is used differently. */
  ghost predicate OnlyMoves(s: State, s': State, id: nat) {
    && s'.limit == s.limit
    && forall j: nat :: j != id ==> s'.held[j] == s.held[j] && (j in s'.available <==> j in s.available)
  }

  /** The number given is held once more and not available, and nothing else changes; a registration that
      overflows changes nothing. */
  lemma RegisterTakesNumber(s: State)
    requires Partition(s)
    ensures var (s', r) := Serve(s, Register);
            if r.Given? then
              && OnlyMoves(s, s', r.id) && s'.held[r.id] == s.held[r.id] + 1 == 1 && r.id !in s'.available
              && Bound(s') == if s.limit == 0 && r.id == s.next then s.next + 1 else Bound(s)
            else s' == s
  {
  }

  /** Giving back a number that is held makes it available, and nothing else changes. A number outside
      the limit is refused as invalid, an available one as deregistered already, and a refusal changes
      nothing. */
  lemma DeregisterFreesNumber(s: State, id: nat)
    requires Partition(s)
    ensures var (s', r) := Serve(s, Deregister(id));
            && (r == Invalid <==> s.limit > 0 && id >= s.limit)
            && (r == AlreadyDeregistered <==> id in s.available)
            && (r == Invalid || r == AlreadyDeregistered ==> s' == s)
            && (s.held[id] > 0 ==> r == Done)
            && (r == Done ==>
                  && OnlyMoves(s, s', id) && s'.next == s.next && id in s'.available
                  && s'.held[id] == if s.held[id] > 0 then s.held[id] - 1 else 0)
  {
    assert s.held[id] + (if id in s.available then 1 else 0) == if id < Bound(s) then 1 else 0;
  }

  /** A number that was given back, and is below every other available one, is the next to be given. */
  lemma GivenBackIsGivenAgain(s: State, id: nat)
    requires Partition(s) && s.held[id] > 0 && forall j :: j in s.available ==> id < j
    ensures var s' := Serve(s, Deregister(id)).0;
            && Serve(s', Register).1 == Given(id)
            && Serve(s', Register).0.held == s.held && Serve(s', Register).0.available == s.available
  {
    DeregisterFreesNumber(s, id);
    var s' := Serve(s, Deregister(id)).0;
    assert s'.available == s.available + {id} && id !in s.available;
    assert IsLeast(id, s'.available) && Least(s'.available) == id;
    assert (s.held - multiset{id}) + multiset{id} == s.held;
    assert (s.available + {id}) - {id} == s.available;
  }

  // ---------- giving back what was never given ----------

  function Registers(n: nat): seq<Call> {
    seq(n, _ => Register)
  }

  lemma RunOneMore(s: State, n: nat)
    ensures Run(s, Registers(n + 1)) == Serve(Run(s, Registers(n)), Register).0
  {
    assert Registers(n + 1)[..n] == Registers(n);
  }

  lemma OneFewer(all: set<nat>, left: set<nat>, id: nat)
    requires left <= all && id in left
    ensures multiset(all - (left - {id})) == multiset(all - left) + multiset{id}
    ensures |left - {id}| == |left| - 1
  {
    assert all - (left - {id}) == (all - left) + {id};
    assert left == (left - {id}) + {id};
  }

  /** Registrations that find enough available numbers use them all up. */
  lemma {:induction false} DrainAvailable(s: State, n: nat)
    requires n <= |s.available|
    ensures var t := Run(s, Registers(n));
            && t.limit == s.limit && t.next == s.next
            && t.available <= s.available && |t.available| == |s.available| - n
            && t.held == s.held + multiset(s.available - t.available)
  {
    if n == 0 {
      assert s.available - s.available == {};
    } else {
      hide Run, Registers;
      DrainAvailable(s, n - 1);
      RunOneMore(s, n - 1);
      var t := Run(s, Registers(n - 1));
      assert t.available != {};
      OneFewer(s.available, t.available, Least(t.available));
    }
  }

  /** With nothing available, an unlimited registry counts on. */
  lemma {:induction false} CountOn(s: State, base: nat, n: nat, id: nat)
    requires var t := Run(s, Registers(base)); t.limit == 0 && t.available == {} && t.next + n <= SIZE_MAX
    ensures var t, u := Run(s, Registers(base)), Run(s, Registers(base + n));
            && u.limit == 0 && u.available == {} && u.next == t.next + n
            && u.held[id] == t.held[id] + if t.next <= id < t.next + n then 1 else 0
  {
    hide Run, Registers;
    if n > 0 {
      CountOn(s, base, n - 1, id);
      RunOneMore(s, base + (n - 1));
      assert base + (n - 1) + 1 == base + n;
    }
  }

  /** An unlimited registry accepts a number it never gave out, and then gives that number to two
      clients: once as available and once more when the counter reaches it. */
  lemma StrayNumberIsGivenTwice(s: State, id: nat)
    requires Partition(s) && s.limit == 0 && s.next <= id < SIZE_MAX
    ensures Serve(s, Deregister(id)).1 == Done
    ensures var calls := Registers(|s.available| + 1 + (id - s.next + 1));
            Run(Serve(s, Deregister(id)).0, calls).held[id] == 2
  {
    hide Run, Registers;
    assert s.held[id] == 0 && id !in s.available;
    var t := s.(available := s.available + {id}, held := s.held - multiset{id});
    assert Serve(s, Deregister(id)) == (t, Done);
    var n := |s.available| + 1;
    DrainAvailable(t, n);
    var u := Run(t, Registers(n));
    assert u.available == {} && u.held == t.held + multiset(t.available - {});
    assert u.held[id] == 1;
    CountOn(t, n, id - s.next + 1, id);
  }

  /** How often a number is held, and once more if it is available. */
  function Uses(s: State, id: nat): nat {
    s.held[id] + if id in s.available then 1 else 0
  }

  /** The counter never reaches SIZE_MAX. Calls that give that number back without having it can make
      it available, and it is given out then, but never to two clients at a time. */
  lemma {:induction false} LastNumberIsNeverGivenTwice(calls: seq<Call>)
    ensures var s := Run(Init(0), calls); s.limit == 0 && s.next <= SIZE_MAX && Uses(s, SIZE_MAX) <= 1
  {
    if calls != [] {
      LastNumberIsNeverGivenTwice(calls[..|calls| - 1]);
    }
  }

  // ---------- the class ----------

  class ItemRegistry {
    const maxNumberOfItems: nat
    var nextItemNumber: nat
    var availableNumbers: set<nat>
    ghost var held: multiset<nat>

    ghost function Model(): State
      reads this
    {
      State(maxNumberOfItems, availableNumbers, nextItemNumber, held)
    }

    constructor (max: nat)
      ensures Model() == Init(max)
    {
      maxNumberOfItems := max;
      nextItemNumber, held := 0, multiset{};
      availableNumbers := {};
      new;
      var i := 0;
      while i < max
        invariant i <= max && maxNumberOfItems == max && nextItemNumber == 0 && held == multiset{}
        invariant availableNumbers == Numbers(i)
      {
        availableNumbers := availableNumbers + {i};
        i := i + 1;
      }
    }

    method RegisterItem() returns (r: Reply)
      modifies this
      ensures (Model(), r) == Serve(old(Model()), Register)
    {
      if maxNumberOfItems > 0 {
        if availableNumbers != {} {
          var itemNumber := Least(availableNumbers);
          availableNumbers, held := availableNumbers - {itemNumber}, held + multiset{itemNumber};
          return Given(itemNumber);
        }
        return Overflow;
      }
      if availableNumbers != {} {
        var itemNumber := Least(availableNumbers);
        availableNumbers, held := availableNumbers - {itemNumber}, held + multiset{itemNumber};
        return Given(itemNumber);
      }
      if nextItemNumber == SIZE_MAX {
        return Overflow;
      }
      r := Given(nextItemNumber);
      held := held + multiset{nextItemNumber};
      nextItemNumber := nextItemNumber + 1;
    }

    method DeregisterItem(itemNumber: nat) returns (r: Reply)
      modifies this
      ensures (Model(), r) == Serve(old(Model()), Deregister(itemNumber))
    {
      if maxNumberOfItems != 0 && itemNumber >= maxNumberOfItems {
        return Invalid;
      }
      if itemNumber in availableNumbers {
        return AlreadyDeregistered;
      }
      availableNumbers, held := availableNumbers + {itemNumber}, held - multiset{itemNumber};
      r := Done;
    }
  }
}

/** What happens when an operation on reference-counted buffers is not disciplined: the consequence
    for every such operation of a kind, and a run from the start that shows it. */
module ReferenceHazards {
  import opened Wrappers
  import opened ReferenceBuffer
  import opened ReferenceCounting

  // ---------- a block at an address of a snapshot ----------

  /** The operation creates a block at address `at` and enters it with the initial count. */
  predicate MakesBlock(s: State, op: Op, at: Addr)
    requires Possible(s, op)
  {
    match op
    case Allocate(_, b, _) => b == at && !Full(s, at)
    case FromBuffer(_, b, source) => b == at && source.Some? && !Full(s, at)
    case AssignBuffer(h, b, source) => b == at && source.Some? && !Full(ResetHandle(s, h), at)
    case Append(h, _, b) =>
      b == at && !AppendThrows(s, h) && (Shared(s, h) || s.handles[h].addr == NULL) && !Full(s, at)
    case _ => false
  }

  /** The block has a larger count than it has references. */
  ghost predicate Overcounted(s: State, a: Addr) {
    a != NULL && a in s.heap && a in s.counts && s.counts[a] > References(s, a)
  }

  lemma HolderRefers(s: State, h: HandleId, a: Addr)
    requires h in s.handles && s.handles[h].addr == a && Overcounted(s, a)
    ensures s.counts[a] > 1
  {
    HolderCounts(s.handles, h);
  }

  /** The block at a survives, with its bytes, and stays overcounted. */
  ghost predicate Survives(s: State, s': State, a: Addr) {
    Overcounted(s', a) && a in s.heap && s'.heap[a] == s.heap[a]
  }

  lemma ResetSurvives(s: State, h: HandleId, a: Addr)
    requires Overcounted(s, a) && h in s.handles
    ensures Survives(s, ResetHandle(s, h), a)
  {
    ResetHolders(s, h, a);
    if s.handles[h].addr == a {
      HolderRefers(s, h, a);
    }
  }

  /** Entering or sharing another block, or setting an unset handle, leaves the block as it is. */
  lemma SetSurvives(s: State, s': State, h: HandleId, handle: Handle, a: Addr)
    requires Overcounted(s, a) && Unset(s, h) && handle.addr != a
    requires s'.handles == s.handles[h := handle] && s'.scopes == s.scopes
    requires a in s'.heap && s'.heap[a] == s.heap[a] && a in s'.counts && s'.counts[a] == s.counts[a]
    ensures Survives(s, s', a)
  {
    HoldersUpdate(s.handles, h, handle, a);
  }

  lemma ShareSurvives(s: State, h: HandleId, handle: Handle, a: Addr)
    requires Overcounted(s, a) && Unset(s, h) && handle.addr in s.counts
    ensures Survives(s, Share(s, h, handle), a)
  {
    HoldersUpdate(s.handles, h, handle, a);
  }

  lemma NewSurvives(s: State, h: HandleId, at: Addr, content: seq<byte>, a: Addr)
    requires Overcounted(s, a) && Unset(s, h) && at !in s.heap
    ensures Survives(s, NewBlock(s, h, at, content), a)
    ensures Survives(s, UntrackedBlock(s, h, at, content), a)
  {
    SetSurvives(s, NewBlock(s, h, at, content), h, Handle(at, |content|), a);
    SetSurvives(s, UntrackedBlock(s, h, at, content), h, Handle(at, |content|), a);
  }

  lemma AppendCopySurvives(s: State, h: HandleId, data: seq<byte>, at: Addr, a: Addr)
    requires Overcounted(s, a) && Possible(s, Append(h, data, at)) && Shared(s, h)
    ensures Survives(s, AppendCopy(s, h, data, at), a)
  {
    var handle := s.handles[h];
    if Readable(s, handle) {
      ResetSurvives(s, h, a);
      var s1, s' := ResetHandle(s, h), AppendCopy(s, h, data, at);
      var after := Handle(at, handle.size + |data|);
      assert s'.handles == s1.handles[h := after];
      SetSurvives(s1, s', h, after, a);
    }
  }

  lemma AppendInPlaceSurvives(s: State, h: HandleId, data: seq<byte>, at: Addr, a: Addr)
    requires Overcounted(s, a) && Possible(s, Append(h, data, at)) && !Shared(s, h)
    ensures Survives(s, AppendInPlace(s, h, data, at), a)
  {
    var handle, s' := s.handles[h], AppendInPlace(s, h, data, at);
    if handle.addr == a {
      HolderRefers(s, h, a);
    } else if handle.addr == NULL || Readable(s, handle) {
      var after := s'.handles[h];
      assert after.addr == at && s'.handles == s.handles[h := after];
      HoldersUpdate(s.handles, h, after, a);
    }
  }

  lemma OpenSurvives(s: State, a: Addr)
    requires Overcounted(s, a)
    ensures Survives(s, Entered(s), a)
  {
    assert (s.scopes + [Scope(s.counts.Keys, Initial(s))])[..|s.scopes|] == s.scopes;
  }

  lemma CloseSurvives(s: State, a: Addr)
    requires Overcounted(s, a) && s.scopes != []
    ensures Survives(s, Left(s), a)
  {
  }

  lemma AssignSurvives(s: State, h: HandleId, other: HandleId, a: Addr)
    requires Overcounted(s, a) && h in s.handles && other in s.handles
    ensures Survives(s, Step(s, Assign(h, other)), a)
  {
    var handle := s.handles[other];
    if h != other && handle.addr != NULL {
      var s1 := ResetHandle(s, h);
      ResetSurvives(s, h, a);
      if handle.addr in s1.counts {
        ShareSurvives(s1, h, handle, a);
      } else {
        SetSurvives(s1, SetHandle(s1, h, handle), h, handle, a);
      }
    }
  }

  lemma DestroySurvives(s: State, h: HandleId, a: Addr)
    requires Overcounted(s, a) && h in s.handles
    ensures Survives(s, Step(s, Destroy(h)), a)
  {
    ResetSurvives(s, h, a);
    var s1 := ResetHandle(s, h);
    assert Holders(s1.handles - {h}, a) == Holders(s1.handles, a);
  }

  /** No operation whatever, disciplined or not, frees an overcounted block. */
  lemma StepSurvives(s: State, op: Op, a: Addr)
    requires Overcounted(s, a) && Possible(s, op)
    ensures Survives(s, Step(s, op), a)
  {
    hide Overcounted, Survives;
    IsTracked(s, a);
    SameSurvives(s, s, a);
    match op {
      case Default(h) => SetSurvives(s, SetHandle(s, h, UNSET), h, UNSET, a);
      case Allocate(h, at, content) => NewSurvives(s, h, at, content, a);
      case FromBuffer(h, at, source) =>
        if source.Some? {
          NewSurvives(s, h, at, source.value, a);
        }
      case FromAddress(h, b) => FromAddressSurvives(s, h, Handle(b, 0), a);
      case Copy(h, other) => FromAddressSurvives(s, h, s.handles[other], a);
      case Assign(h, other) => AssignSurvives(s, h, other, a);
      case AssignBuffer(h, at, source) =>
        var s1 := ResetHandle(s, h);
        ResetSurvives(s, h, a);
        if source.Some? {
          SurvivesOn(s, s1, a);
          NewSurvives(s1, h, at, source.value, a);
          SurvivesTwice(s, s1, Step(s, op), a);
        }
      case Append(h, data, at) =>
        if Shared(s, h) {
          AppendCopySurvives(s, h, data, at, a);
        } else {
          AppendInPlaceSurvives(s, h, data, at, a);
        }
      case Reset(h) => ResetSurvives(s, h, a);
      case Destroy(h) => DestroySurvives(s, h, a);
      case Swap(h, other) => SwapSurvives(s, h, other, a);
      case Open => OpenSurvives(s, a);
      case Close => CloseSurvives(s, a);
    }
  }

  lemma IsTracked(s: State, a: Addr)
    requires Overcounted(s, a)
    ensures a in s.heap && a in s.counts && a != NULL
  {
  }

  lemma SurvivesOn(s: State, s': State, a: Addr)
    requires Survives(s, s', a)
    ensures Overcounted(s', a)
  {
  }

  lemma SurvivesTwice(s: State, s1: State, s2: State, a: Addr)
    requires Survives(s, s1, a) && Survives(s1, s2, a)
    ensures Survives(s, s2, a)
  {
  }

  /** Nothing but other addresses' memory changed. */
  lemma SameSurvives(s: State, s': State, a: Addr)
    requires Overcounted(s, a) && s'.handles == s.handles && s'.scopes == s.scopes && s'.counts == s.counts
    requires a in s'.heap && s'.heap[a] == s.heap[a]
    ensures Survives(s, s', a)
  {
  }

  lemma FromAddressSurvives(s: State, h: HandleId, handle: Handle, a: Addr)
    requires Overcounted(s, a) && Unset(s, h)
    ensures handle.addr in s.counts ==> Survives(s, Share(s, h, handle), a)
    ensures handle.addr !in s.counts ==> Survives(s, Unwound(s, handle.addr), a)
  {
    if handle.addr in s.counts {
      ShareSurvives(s, h, handle, a);
    } else {
      SameSurvives(s, Unwound(s, handle.addr), a);
    }
  }

  lemma SwapSurvives(s: State, h: HandleId, other: HandleId, a: Addr)
    requires Overcounted(s, a) && h in s.handles && other in s.handles
    ensures Survives(s, Step(s, Swap(h, other)), a)
  {
    SwapHolders(s.handles, h, other, a);
  }

  lemma ReusedIsOvercounted(s: State, h: HandleId, at: Addr, content: seq<byte>)
    requires Exact(s) && Unset(s, h) && at != NULL && at !in s.heap && !KnownToNone(s, at)
    ensures Overcounted(NewBlock(s, h, at, content), at)
  {
    HoldersUpdate(s.handles, h, Handle(at, |content|), at);
    NobodyHolds(s, at);
    OwedBound(s.scopes, at);
  }

  lemma MadeBlock(s: State, op: Op, at: Addr)
    requires Exact(s) && Possible(s, op) && MakesBlock(s, op, at) && !KnownToNone(s, at)
    ensures Overcounted(Step(s, op), at)
  {
    hide Overcounted;
    match op {
      case Allocate(h, _, content) => ReusedIsOvercounted(s, h, at, content);
      case FromBuffer(h, _, source) => ReusedIsOvercounted(s, h, at, source.value);
      case AssignBuffer(h, _, source) =>
        ResetExact(s, h);
        ReusedIsOvercounted(ResetHandle(s, h), h, at, source.value);
      case Append(h, data, _) =>
        if Shared(s, h) {
          AppendCopyIsResetAndNew(s, h, data, at);
          ResetExact(s, h);
          ReusedIsOvercounted(ResetHandle(s, h), h, at, s.heap[s.handles[h].addr][..s.handles[h].size] + data);
        } else {
          assert AppendInPlace(s, h, data, at) == NewBlock(s, h, at, data);
          ReusedIsOvercounted(s, h, at, data);
        }
    }
  }

  lemma {:induction false} OvercountedForever(states: seq<State>, ops: seq<Op>, n: nat, m: nat, a: Addr)
    requires IsRun(states, ops) && n <= m < |states| && Overcounted(states[n], a)
    ensures Survives(states[n], states[m], a)
  {
    hide Step, Possible, Overcounted, Survives;
    if n == m {
      IsTracked(states[n], a);
      SameSurvives(states[n], states[n], a);
    } else {
      OvercountedForever(states, ops, n, m - 1, a);
      SurvivesOn(states[n], states[m - 1], a);
      assert Possible(states[m - 1], ops[m - 1]);
      StepSurvives(states[m - 1], ops[m - 1], a);
      SurvivesTwice(states[n], states[m - 1], states[m], a);
    }
  }

  /** A block created, in whatever way, at an address that is in the snapshot of an open scope, however
      deep, is never freed: it is there with its bytes at every later moment of every run, whatever
      operations follow, handles that go away and scopes that close included. */
  lemma ReusedAddressLeaks(states: seq<State>, ops: seq<Op>, n: nat, m: nat, at: Addr)
    requires IsRun(states, ops) && n < m < |states| && Exact(states[n]) && Possible(states[n], ops[n])
    requires MakesBlock(states[n], ops[n], at) && !KnownToNone(states[n], at)
    ensures at in states[n + 1].heap && at in states[m].heap && states[m].heap[at] == states[n + 1].heap[at]
  {
    MadeBlock(states[n], ops[n], at);
    OvercountedForever(states, ops, n + 1, m, at);
  }

  // ---------- a moved block ----------

  /** The state after closing scopes, the innermost first, until `depth` of them are left. */
  function ClosedDownTo(s: State, depth: nat): State
    decreases |s.scopes|
  {
    if |s.scopes| <= depth then s else ClosedDownTo(Left(s), depth)
  }

  /** A block with a single count that scope k does not know is gone once scope k is closed. */
  lemma {:induction false} SingleCountIsTaken(s: State, a: Addr, k: nat)
    requires k < |s.scopes| && a != NULL && a !in s.scopes[k].known
    requires a in s.heap ==> a in s.counts && s.counts[a] == 1
    ensures var t := ClosedDownTo(s, k); t.handles == s.handles && a !in t.heap
    decreases |s.scopes|
  {
    var s' := Left(s);
    if k < |s.scopes| - 1 {
      SingleCountIsTaken(s', a, k);
    } else {
      assert ClosedDownTo(s, k) == s';
    }
  }

  /** With scopes open, an append that moves an unshared block to an address that some open scope does
      not know leaves the handle dangling when that scope closes: its block is freed under it. */
  lemma MovedBlockIsFreedUnderItsHandle(s: State, h: HandleId, data: seq<byte>, at: Addr, k: nat)
    requires Exact(s) && Possible(s, Append(h, data, at)) && !Shared(s, h) && !AppendThrows(s, h)
    requires s.handles[h].addr != NULL && at != s.handles[h].addr && !Full(s, at)
    requires k < |s.scopes| && at !in s.scopes[k].known
    ensures var t := ClosedDownTo(Step(s, Append(h, data, at)), k);
            h in t.handles && t.handles[h].addr == at && at !in t.heap
  {
    var s' := Step(s, Append(h, data, at));
    assert HandleOk(s, s.handles[h]);
    MovedCounts(s, h, data, at, at);
    SingleCountIsTaken(s', at, k);
  }

  // ---------- a raw address ----------

  /** The constructor from an address that no live block has frees that address when it throws. */
  lemma UnknownAddressIsFreed(s: State, h: HandleId, a: Addr)
    requires Exact(s) && h !in s.handles && a != NULL && a !in s.heap
    ensures Step(s, FromAddress(h, a)).fault
  {
  }

  /** Given null, once a scope has ever been opened, the constructor raises the initial count, and
      every block created under it is overcounted: no operation frees it any more. */
  lemma NullAddressLeaks(s: State, h: HandleId, g: HandleId, at: Addr, content: seq<byte>)
    requires Exact(s) && NULL in s.counts && h !in s.handles && g !in s.handles && g != h
    requires at != NULL && at !in s.heap
    ensures var s1 := Step(s, FromAddress(h, NULL));
            Initial(s1) == Initial(s) + 1 && Overcounted(NewBlock(s1, g, at, content), at)
  {
    var s1 := Step(s, FromAddress(h, NULL));
    NobodyHolds(s, at);
    OwedBound(s.scopes, at);
    HoldersUpdate(s.handles, h, UNSET, at);
    HoldersUpdate(s1.handles, g, Handle(at, |content|), at);
  }

  // ---------- a full table ----------

  /** Assignments and appends that have to enter a new address into a full table. */
  predicate NeedsMissingRoom(s: State, op: Op, at: Addr)
    requires Possible(s, op)
  {
    match op
    case AssignBuffer(h, b, source) => b == at && source.Some? && Full(ResetHandle(s, h), at)
    case Append(h, _, b) => b == at && !AppendThrows(s, h) && at != s.handles[h].addr && Full(s, at)
    case _ => false
  }

  lemma UntrackedIsLost(s: State, h: HandleId, at: Addr, content: seq<byte>)
    requires Exact(s) && Unset(s, h) && at != NULL && at !in s.heap
    ensures var t := ResetHandle(UntrackedBlock(s, h, at, content), h);
            at in t.heap && at !in t.counts && Holders(t.handles, at) == {}
  {
    NobodyHolds(s, at);
  }

  lemma MovedIsLost(s: State, h: HandleId, data: seq<byte>, at: Addr)
    requires Exact(s) && Possible(s, Append(h, data, at)) && !Shared(s, h) && !AppendThrows(s, h)
    requires s.handles[h].addr != NULL && at != s.handles[h].addr && Full(s, at)
    ensures var t := ResetHandle(Step(s, Append(h, data, at)), h);
            && at in t.heap && at !in t.counts && Holders(t.handles, at) == {}
            && s.handles[h].addr in t.counts && s.handles[h].addr !in t.heap
  {
    assert HandleOk(s, s.handles[h]);
    NobodyHolds(s, at);
  }

  /** The operation throws with the new block in the handle and not in the table; resetting the handle
      loses the block. An append that moved its block also leaves the old address in the table, although
      that block is gone. */
  lemma FullTableLosesBlock(s: State, op: Op, at: Addr)
    requires Exact(s) && Possible(s, op) && NeedsMissingRoom(s, op, at)
    ensures op.h in Step(s, op).handles
    ensures var t := ResetHandle(Step(s, op), op.h);
            && at in t.heap && at !in t.counts && Holders(t.handles, at) == {}
            && (op.Append? && !Shared(s, op.h) && s.handles[op.h].addr != NULL ==>
                  s.handles[op.h].addr in t.counts && s.handles[op.h].addr !in t.heap)
  {
    hide Exact;
    match op {
      case AssignBuffer(h, _, source) =>
        ResetExact(s, h);
        UntrackedIsLost(ResetHandle(s, h), h, at, source.value);
      case Append(h, data, _) =>
        if Shared(s, h) {
          AppendCopyIsResetAndNew(s, h, data, at);
          ResetExact(s, h);
          UntrackedIsLost(ResetHandle(s, h), h, at, s.heap[s.handles[h].addr][..s.handles[h].size] + data);
        } else if s.handles[h].addr == NULL {
          UntrackedIsLost(s, h, at, data);
        } else {
          MovedIsLost(s, h, data, at);
        }
    }
  }

  // ---------- states that runs reach ----------

  ghost predicate Reached(s: State) {
    exists states, ops :: IsRun(states, ops) && states[|ops|] == s
  }

  lemma StartReached(limit: nat)
    ensures Reached(Start(limit)) && Exact(Start(limit))
  {
    assert IsRun([Start(limit)], []);
  }

  lemma StepReached(s: State, op: Op)
    requires Reached(s) && Possible(s, op)
    ensures Reached(Step(s, op))
  {
    hide Step, Possible;
    var states, ops :| IsRun(states, ops) && states[|ops|] == s;
    var states', ops' := states + [Step(s, op)], ops + [op];
    assert IsRun(states', ops') && states'[|ops'|] == Step(s, op);
  }

  /** One block, allocated before a scope was opened. */
  function OneScope(limit: nat): State {
    State(map[1 := [7]], map[1 := 1, NULL := 2], map[0 := Handle(1, 1)], [Scope({1}, 1)], limit, false)
  }

  /** One block, allocated and not yet anything else. */
  function OneBlock(limit: nat): State {
    State(map[1 := [7]], map[1 := 1], map[0 := Handle(1, 1)], [], limit, false)
  }

  lemma OneBlockReached(limit: nat)
    requires limit >= 1
    ensures Reached(OneBlock(limit)) && Exact(OneBlock(limit))
  {
    hide Reached;
    var s0 := Start(limit);
    assert NewBlock(s0, 0, 1, [7]) == OneBlock(limit);
    NewBlockExact(s0, 0, 1, [7]);
    StartReached(limit);
    StepReached(s0, Allocate(0, 1, [7]));
  }

  lemma OneScopeReached(limit: nat)
    requires limit >= 2
    ensures Reached(OneScope(limit)) && Exact(OneScope(limit))
  {
    hide Reached, Exact;
    var s1 := OneBlock(limit);
    OneBlockReached(limit);
    assert s1.counts.Keys == {1} && s1.counts[NULL := 2] == map[1 := 1, NULL := 2];
    assert Entered(s1) == OneScope(limit);
    OpenExact(s1);
    StepReached(s1, Open);
  }

  lemma LastClosed(s: State)
    requires |s.scopes| == 1
    ensures ClosedDownTo(s, 0) == Left(s)
  {
  }

  /** A run leaves a handle dangling: allocate, open a scope, append with a moving realloc, close. */
  lemma DanglingHandleReached(limit: nat) returns (s: State)
    requires limit >= 3
    ensures Reached(s) && 0 in s.handles && s.handles[0].addr != NULL && s.handles[0].addr !in s.heap
  {
    hide Reached, Exact, Left, ClosedDownTo;
    var s0, append := OneScope(limit), Append(0, [8], 2);
    OneScopeReached(limit);
    assert Possible(s0, append) && !Shared(s0, 0) && !AppendThrows(s0, 0) && !Full(s0, 2);
    MovedBlockIsFreedUnderItsHandle(s0, 0, [8], 2, 0);
    StepReached(s0, append);
    var s1 := Step(s0, append);
    assert s1.scopes == s0.scopes;
    StepReached(s1, Close);
    s := Left(s1);
    LastClosed(s1);
  }

  /** A run leaks: allocate, open a scope, reset, allocate at the same address, reset, close. */
  lemma LeakReached(limit: nat) returns (s: State)
    requires limit >= 2
    ensures Reached(s) && 1 in s.heap && Holders(s.handles, 1) == {} && s.scopes == []
  {
    hide Reached, Exact, Overcounted;
    var s0, s1 := OneScope(limit), State(map[], map[NULL := 2], map[0 := UNSET], [Scope({1}, 1)], limit, false);
    OneScopeReached(limit);
    assert ResetHandle(s0, 0) == s1;
    ResetExact(s0, 0);
    StepReached(s0, Reset(0));
    assert !KnownToNone(s1, 1) by { assert 1 in s1.scopes[0].known; }
    ReusedIsOvercounted(s1, 1, 1, [7]);
    StepReached(s1, Allocate(1, 1, [7]));
    s := LeakEnds(NewBlock(s1, 1, 1, [7]));
  }

  /** The last handle goes and the last scope closes, and the block stays. */
  lemma LeakEnds(s: State) returns (s': State)
    requires Reached(s) && Overcounted(s, 1) && |s.scopes| == 1 && s.handles == map[0 := UNSET, 1 := Handle(1, 1)]
    ensures Reached(s') && 1 in s'.heap && Holders(s'.handles, 1) == {} && s'.scopes == []
  {
    hide Reached, Overcounted;
    StepReached(s, Reset(1));
    ResetSurvives(s, 1, 1);
    var s1 := ResetHandle(s, 1);
    assert s1.scopes == s.scopes && s1.handles == map[0 := UNSET, 1 := UNSET];
    CloseSurvives(s1, 1);
    StepReached(s1, Close);
    s' := Left(s1);
    IsTracked(s', 1);
  }

  /** A run of one operation frees what was never allocated. */
  lemma UnknownAddressReached(limit: nat) returns (s: State)
    ensures Reached(s) && s.fault
  {
    StartReached(limit);
    StepReached(Start(limit), FromAddress(0, 5));
    s := Step(Start(limit), FromAddress(0, 5));
  }

  /** A run leaks because of a null address: open a scope, construct from null, allocate, reset, close. */
  lemma NullAddressLeakReached(limit: nat) returns (s: State)
    requires limit >= 2
    ensures Reached(s) && 1 in s.heap && Holders(s.handles, 1) == {} && s.scopes == []
  {
    hide Reached, Exact, Overcounted;
    var s0, s1 := Start(limit), State(map[], map[NULL := 2], map[], [Scope({}, 1)], limit, false);
    StartReached(limit);
    assert Entered(s0) == s1;
    StepReached(s0, Open);
    OpenExact(s0);
    NullAddressLeaks(s1, 0, 1, 1, [7]);
    var s2 := State(map[], map[NULL := 3], map[0 := UNSET], [Scope({}, 1)], limit, false);
    assert Step(s1, FromAddress(0, NULL)) == s2;
    StepReached(s1, FromAddress(0, NULL));
    StepReached(s2, Allocate(1, 1, [7]));
    s := LeakEnds(NewBlock(s2, 1, 1, [7]));
  }

  /** With a table of one entry, a run leaves a dead block in the table and a live one outside it:
      append to a new handle, then append again with a moving realloc. */
  lemma FullTableReached() returns (s: State)
    ensures Reached(s) && 1 in s.counts && 1 !in s.heap && 2 in s.heap && 2 !in s.counts
  {
    hide Reached;
    var s0, s1 := Start(1), State(map[], map[], map[0 := UNSET], [], 1, false);
    var s2 := State(map[1 := [7]], map[1 := 1], map[0 := Handle(1, 1)], [], 1, false);
    StartReached(1);
    assert Step(s0, Default(0)) == s1;
    StepReached(s0, Default(0));
    assert AppendInPlace(s1, 0, [7], 1) == s2;
    StepReached(s1, Append(0, [7], 1));
    StepReached(s2, Append(0, [8], 2));
    s := Step(s2, Append(0, [8], 2));
  }
}

/** The count of a block is the number of handles on it plus the number of open scopes that do not
    know it. Exactly which operations keep that, and what follows from it over whole runs. */
module ReferenceCounting {
  import opened Wrappers
  import opened ReferenceBuffer

  // ---------- references ----------

  function Holders(handles: map<HandleId, Handle>, a: Addr): set<HandleId> {
    set h | h in handles && handles[h].addr == a
  }

  /** How many open scopes will take a reference off address a when they close. */
  function Owed(scopes: seq<Scope>, a: Addr): nat
  {
    if scopes == [] then 0
    else Owed(scopes[..|scopes| - 1], a) + (if a in scopes[|scopes| - 1].known then 0 else 1)
  }

  function References(s: State, a: Addr): nat {
    |Holders(s.handles, a)| + Owed(s.scopes, a)
  }

  predicate HandleOk(s: State, handle: Handle) {
    if handle.addr == NULL then handle.size == 0
    else handle.addr in s.heap && (handle.size == 0 || handle.size == |s.heap[handle.addr]|)
  }

  /** The table tracks exactly the live blocks with their exact reference counts, no handle dangles,
      no block without reference is alive, and the initial count is one plus the depth. */
  ghost predicate Exact(s: State)
  {
    && !s.fault
    && NULL !in s.heap
    && (forall a :: a in s.heap <==> a in s.counts && a != NULL)
    && (forall a <- s.heap :: s.counts[a] == References(s, a) && s.counts[a] >= 1)
    && (forall h <- s.handles :: HandleOk(s, s.handles[h]))
    && Initial(s) == 1 + |s.scopes|
    && (forall k :: 0 <= k < |s.scopes| ==> s.scopes[k].initial == 1 + k)
  }

  lemma {:induction false} OwedBound(scopes: seq<Scope>, a: Addr)
    ensures Owed(scopes, a) <= |scopes|
    ensures Owed(scopes, a) == |scopes| <==> forall k :: 0 <= k < |scopes| ==> a !in scopes[k].known
    ensures Owed(scopes, a) == 0 <==> forall k :: 0 <= k < |scopes| ==> a in scopes[k].known
  {
    if scopes != [] {
      OwedBound(scopes[..|scopes| - 1], a);
    }
  }

  lemma WithoutOne(xs: set<HandleId>, h: HandleId)
    ensures |xs| == |xs - {h}| + (if h in xs then 1 else 0)
  {
    if h in xs {
      assert xs == (xs - {h}) + {h};
    } else {
      assert xs - {h} == xs;
    }
  }

  /** Changing where one handle points moves one reference. */
  lemma HoldersUpdate(handles: map<HandleId, Handle>, h: HandleId, handle: Handle, a: Addr)
    ensures |Holders(handles[h := handle], a)| ==
            |Holders(handles, a)| - (if h in handles && handles[h].addr == a then 1 else 0)
            + (if handle.addr == a then 1 else 0)
  {
    var before, after := Holders(handles, a), Holders(handles[h := handle], a);
    forall g ensures g in before - {h} <==> g in after - {h} {
      assert g != h ==> (g in handles[h := handle] <==> g in handles);
    }
    assert before - {h} == after - {h};
    assert h in before <==> h in handles && handles[h].addr == a;
    assert h in after <==> handle.addr == a;
    hide Holders;
    WithoutOne(before, h);
    WithoutOne(after, h);
  }

  lemma HolderCounts(handles: map<HandleId, Handle>, h: HandleId)
    requires h in handles
    ensures |Holders(handles, handles[h].addr)| >= 1
  {
    assert h in Holders(handles, handles[h].addr);
  }

  // ---------- one operation ----------

  lemma ResetHolders(s: State, h: HandleId, b: Addr)
    requires h in s.handles && b != NULL
    ensures |Holders(ResetHandle(s, h).handles, b)| ==
            |Holders(s.handles, b)| - (if b == s.handles[h].addr then 1 else 0)
  {
    HoldersUpdate(s.handles, h, UNSET, b);
  }

  lemma ResetHandles(s: State, h: HandleId, g: HandleId)
    requires Exact(s) && h in s.handles && g in s.handles
    ensures HandleOk(ResetHandle(s, h), ResetHandle(s, h).handles[g])
  {
    var a, s' := s.handles[h].addr, ResetHandle(s, h);
    assert HandleOk(s, s.handles[g]) && HandleOk(s, s.handles[h]);
    if g != h && s.handles[g].addr == a && a != NULL {
      ResetHolders(s, h, a);
      HolderCounts(s'.handles, g);
      assert s.counts[a] > 1;
    }
  }

  lemma ResetExact(s: State, h: HandleId)
    requires Exact(s) && h in s.handles
    ensures Exact(ResetHandle(s, h))
  {
    hide Holders, Owed, HandleOk;
    var s' := ResetHandle(s, h);
    forall b | b in s'.heap
      ensures s'.counts[b] == References(s', b) && s'.counts[b] >= 1
    {
      ResetHolders(s, h, b);
    }
    forall g <- s'.handles
      ensures HandleOk(s', s'.handles[g])
    {
      ResetHandles(s, h, g);
    }
  }

  ghost predicate KnownToNone(s: State, a: Addr) {
    forall k :: 0 <= k < |s.scopes| ==> a !in s.scopes[k].known
  }

  ghost predicate KnownToAll(s: State, a: Addr) {
    forall k :: 0 <= k < |s.scopes| ==> a in s.scopes[k].known
  }

  predicate Unset(s: State, h: HandleId) {
    h in s.handles ==> s.handles[h].addr == NULL
  }

  /** A new block is counted exactly when no open scope has its address in its snapshot. */
  lemma NewBlockExact(s: State, h: HandleId, at: Addr, content: seq<byte>)
    requires Exact(s) && Unset(s, h) && at != NULL && at !in s.heap
    ensures Exact(NewBlock(s, h, at, content)) <==> KnownToNone(s, at)
  {
    hide Holders, Owed;
    var s' := NewBlock(s, h, at, content);
    forall b | b != NULL
      ensures |Holders(s'.handles, b)| == |Holders(s.handles, b)| + (if b == at then 1 else 0)
    {
      HoldersUpdate(s.handles, h, Handle(at, |content|), b);
    }
    NobodyHolds(s, at);
    OwedBound(s.scopes, at);
    assert s'.counts[at] == 1 + |s.scopes| && References(s', at) == 1 + Owed(s.scopes, at);
    if KnownToNone(s, at) {
      forall g <- s'.handles ensures HandleOk(s', s'.handles[g]) { assert g != h ==> HandleOk(s, s.handles[g]); }
    }
  }

  lemma ShareExact(s: State, h: HandleId, handle: Handle)
    requires Exact(s) && Unset(s, h) && handle.addr != NULL && HandleOk(s, handle)
    ensures Exact(Share(s, h, handle))
  {
    var s' := Share(s, h, handle);
    forall b | b != NULL
      ensures |Holders(s'.handles, b)| == |Holders(s.handles, b)| + (if b == handle.addr then 1 else 0)
    {
      HoldersUpdate(s.handles, h, handle, b);
    }
    forall g <- s'.handles ensures HandleOk(s', s'.handles[g]) { assert g != h ==> HandleOk(s, s.handles[g]); }
  }

  lemma OpenOwed(s: State, a: Addr)
    requires a in s.counts
    ensures Owed(s.scopes + [Scope(s.counts.Keys, Initial(s))], a) == Owed(s.scopes, a)
  {
    assert (s.scopes + [Scope(s.counts.Keys, Initial(s))])[..|s.scopes|] == s.scopes;
  }

  lemma OpenExact(s: State)
    requires Exact(s)
    ensures Exact(Entered(s))
  {
    if !Full(s, NULL) {
      hide Holders, Owed;
      var s' := Entered(s);
      forall a <- s'.heap ensures Owed(s'.scopes, a) == Owed(s.scopes, a) { OpenOwed(s, a); }
      forall g <- s'.handles ensures HandleOk(s', s'.handles[g]) { assert HandleOk(s, s.handles[g]); }
    }
  }

  /** What closing does to the entry of one address. */
  lemma ClosedCount(s: State, a: Addr)
    requires Exact(s) && s.scopes != []
    ensures var s' := Left(s);
            && (a in s'.heap <==> a in s'.counts && a != NULL)
            && (a in s'.heap ==> a in s.heap && s'.heap[a] == s.heap[a] && s'.counts[a] == References(s', a) >= 1)
            && (a in s.heap && Holders(s.handles, a) != {} ==> a in s'.heap)
  {
    var top := s.scopes[|s.scopes| - 1];
    if a in s.heap {
      assert s.counts[a] == |Holders(s.handles, a)| + Owed(s.scopes[..|s.scopes| - 1], a) +
                            (if a in top.known then 0 else 1);
    }
  }

  lemma ClosedRest(s: State)
    requires Exact(s) && s.scopes != []
    ensures var s' := Left(s);
            && !s'.fault && Initial(s') == 1 + |s'.scopes| && s'.handles == s.handles
            && forall k :: 0 <= k < |s'.scopes| ==> s'.scopes[k].initial == 1 + k
  {
  }

  lemma CloseExact(s: State)
    requires Exact(s) && s.scopes != []
    ensures Exact(Left(s))
  {
    var s' := Left(s);
    forall a
      ensures a in s'.heap <==> a in s'.counts && a != NULL
      ensures a in s'.heap ==> a in s.heap && s'.heap[a] == s.heap[a] && s'.counts[a] == References(s', a) >= 1
      ensures a in s.heap && Holders(s.handles, a) != {} ==> a in s'.heap
    {
      ClosedCount(s, a);
    }
    forall g <- s'.handles
      ensures HandleOk(s', s'.handles[g])
    {
      assert HandleOk(s, s.handles[g]);
      assert g in Holders(s.handles, s.handles[g].addr);
    }
    ClosedRest(s);
    assert NULL !in s'.heap;
  }

  // ---------- append ----------

  /** Copy-on-write is: drop the reference, then make a new block. */
  lemma AppendCopyIsResetAndNew(s: State, h: HandleId, data: seq<byte>, at: Addr)
    requires Exact(s) && Possible(s, Append(h, data, at)) && Shared(s, h)
    ensures Readable(s, s.handles[h])
    ensures var s1, content := ResetHandle(s, h), s.heap[s.handles[h].addr][..s.handles[h].size] + data;
            && (Full(s1, at) <==> Full(s, at))
            && AppendCopy(s, h, data, at) ==
               if Full(s, at) then UntrackedBlock(s1, h, at, content) else NewBlock(s1, h, at, content)
  {
    hide Holders, Owed;
    var handle := s.handles[h];
    assert HandleOk(s, handle);
    var s1 := ResetHandle(s, h);
    assert s1.handles[h := Handle(at, handle.size + |data|)] == s.handles[h := Handle(at, handle.size + |data|)];
  }

  /** An unshared block is held by this handle alone and is known to every open scope. */
  lemma ExclusiveBlock(s: State, h: HandleId)
    requires Exact(s) && h in s.handles && s.handles[h].addr != NULL && !Shared(s, h)
    ensures s.handles[h].addr in s.heap
    ensures Holders(s.handles, s.handles[h].addr) == {h} && Owed(s.scopes, s.handles[h].addr) == 0
  {
    var a := s.handles[h].addr;
    assert HandleOk(s, s.handles[h]);
    HolderCounts(s.handles, h);
    WithoutOne(Holders(s.handles, a), h);
  }

  lemma GrownHolders(s: State, h: HandleId, data: seq<byte>, at: Addr, b: Addr)
    requires h in s.handles && s.handles[h].addr != NULL && Readable(s, s.handles[h])
    ensures |Holders(AppendInPlace(s, h, data, at).handles, b)| ==
            |Holders(s.handles, b)| - (if b == s.handles[h].addr then 1 else 0) + (if b == at then 1 else 0)
  {
    hide Holders;
    var handle := Handle(at, s.handles[h].size + |data|);
    assert AppendInPlace(s, h, data, at).handles == s.handles[h := handle];
    HoldersUpdate(s.handles, h, handle, b);
  }

  lemma GrownHandles(s: State, h: HandleId, data: seq<byte>, at: Addr)
    requires Exact(s) && Possible(s, Append(h, data, at)) && !Shared(s, h) && !AppendThrows(s, h)
    requires s.handles[h].addr != NULL
    ensures Readable(s, s.handles[h])
    ensures var s' := AppendInPlace(s, h, data, at); forall g <- s'.handles :: HandleOk(s', s'.handles[g])
  {
    var s' := AppendInPlace(s, h, data, at);
    assert HandleOk(s, s.handles[h]);
    ExclusiveBlock(s, h);
    forall g <- s'.handles
      ensures HandleOk(s', s'.handles[g])
    {
      assert HandleOk(s, s.handles[g]);
      assert g != h ==> g !in Holders(s.handles, s.handles[h].addr);
    }
  }

  lemma NobodyHolds(s: State, a: Addr)
    requires Exact(s) && a != NULL && a !in s.heap
    ensures Holders(s.handles, a) == {}
  {
    forall g <- s.handles ensures s.handles[g].addr != a { assert HandleOk(s, s.handles[g]); }
  }

  lemma AppendStaysExact(s: State, h: HandleId, data: seq<byte>)
    requires Exact(s) && h in s.handles && data != [] && !Shared(s, h) && !AppendThrows(s, h)
    requires s.handles[h].addr != NULL
    ensures Exact(AppendInPlace(s, h, data, s.handles[h].addr))
  {
    var at := s.handles[h].addr;
    ExclusiveBlock(s, h);
    GrownHandles(s, h, data, at);
    var s' := AppendInPlace(s, h, data, at);
    forall b <- s'.heap
      ensures s'.counts[b] == References(s', b)
    {
      GrownHolders(s, h, data, at, b);
    }
  }

  lemma MovedCounts(s: State, h: HandleId, data: seq<byte>, at: Addr, b: Addr)
    requires Exact(s) && Possible(s, Append(h, data, at)) && !Shared(s, h) && !AppendThrows(s, h)
    requires s.handles[h].addr != NULL && at != s.handles[h].addr && !Full(s, at)
    ensures var s' := AppendInPlace(s, h, data, at);
            && (b in s'.heap <==> b in s'.counts && b != NULL)
            && (b in s'.heap && b != at ==> s'.counts[b] == References(s', b) >= 1)
            && at in s'.counts && s'.counts[at] == 1 && References(s', at) == 1 + Owed(s.scopes, at)
  {
    ExclusiveBlock(s, h);
    assert HandleOk(s, s.handles[h]);
    NobodyHolds(s, at);
    hide Holders, Owed;
    GrownHolders(s, h, data, at, b);
    GrownHolders(s, h, data, at, at);
  }

  /** When realloc moves the block of its only handle, the old count goes along: it is right exactly
      when the table has room for the new address and no open scope will take a reference off it. */
  lemma AppendMovesExact(s: State, h: HandleId, data: seq<byte>, at: Addr)
    requires Exact(s) && Possible(s, Append(h, data, at)) && !Shared(s, h) && !AppendThrows(s, h)
    requires s.handles[h].addr != NULL && at != s.handles[h].addr
    ensures Exact(AppendInPlace(s, h, data, at)) <==> !Full(s, at) && KnownToAll(s, at)
  {
    GrownHandles(s, h, data, at);
    OwedBound(s.scopes, at);
    var s' := AppendInPlace(s, h, data, at);
    assert at in s'.heap;
    if !Full(s, at) {
      MovedCounts(s, h, data, at, at);
    }
    if !Full(s, at) && KnownToAll(s, at) {
      forall b
        ensures b in s'.heap <==> b in s'.counts && b != NULL
        ensures b in s'.heap ==> s'.counts[b] == References(s', b) >= 1
      {
        MovedCounts(s, h, data, at, b);
      }
      assert Initial(s') == Initial(s) && s'.scopes == s.scopes && !s'.fault;
    }
  }

  // ---------- every operation ----------

  /** What a caller must see to, for the counts to stay exact. The conditions are on the address that
      the allocator answers while scopes are open, on the room in the table, and on the raw address
      given. */
  ghost predicate Disciplined(s: State, op: Op)
    requires Possible(s, op)
  {
    match op
    case Allocate(_, at, _) => Full(s, at) || KnownToNone(s, at)
    case FromBuffer(_, at, source) => source.Some? ==> Full(s, at) || KnownToNone(s, at)
    case AssignBuffer(h, at, source) => source.Some? ==> !Full(ResetHandle(s, h), at) && KnownToNone(s, at)
    case FromAddress(_, a) => if a == NULL then NULL !in s.counts else a in s.heap
    case Append(h, _, at) =>
      if AppendThrows(s, h) then true
      else if Shared(s, h) || s.handles[h].addr == NULL then !Full(s, at) && KnownToNone(s, at)
      else at == s.handles[h].addr || (!Full(s, at) && KnownToAll(s, at))
    case _ => true
  }

  lemma AppendExact(s: State, h: HandleId, data: seq<byte>, at: Addr)
    requires Exact(s) && Possible(s, Append(h, data, at))
    ensures Exact(Step(s, Append(h, data, at))) <==> Disciplined(s, Append(h, data, at))
  {
    if !AppendThrows(s, h) {
      if Shared(s, h) {
        AppendCopyIsResetAndNew(s, h, data, at);
        ResetExact(s, h);
        NewBlockExact(ResetHandle(s, h), h, at, s.heap[s.handles[h].addr][..s.handles[h].size] + data);
      } else if s.handles[h].addr == NULL {
        assert !Full(s, at) ==> AppendInPlace(s, h, data, at) == NewBlock(s, h, at, data);
        NewBlockExact(s, h, at, data);
      } else {
        if at == s.handles[h].addr {
          AppendStaysExact(s, h, data);
        } else {
          AppendMovesExact(s, h, data, at);
        }
      }
    }
  }

  lemma CopyExact(s: State, h: HandleId, other: HandleId)
    requires Exact(s) && h !in s.handles && other in s.handles
    ensures Exact(Step(s, Copy(h, other)))
  {
    assert HandleOk(s, s.handles[other]);
    if s.handles[other].addr != NULL {
      ShareExact(s, h, s.handles[other]);
    }
  }

  lemma UntrackedInexact(s: State, h: HandleId, at: Addr, content: seq<byte>)
    requires at != NULL && at !in s.counts
    ensures !Exact(UntrackedBlock(s, h, at, content))
  {
    assert at in UntrackedBlock(s, h, at, content).heap;
  }

  lemma AssignBufferExact(s: State, h: HandleId, at: Addr, source: Option<seq<byte>>)
    requires Exact(s) && Possible(s, AssignBuffer(h, at, source))
    ensures Exact(Step(s, AssignBuffer(h, at, source))) <==> Disciplined(s, AssignBuffer(h, at, source))
  {
    hide Exact;
    ResetExact(s, h);
    if source.Some? {
      var s1 := ResetHandle(s, h);
      assert s1.scopes == s.scopes;
      if Full(s1, at) {
        UntrackedInexact(s1, h, at, source.value);
      } else {
        NewBlockExact(s1, h, at, source.value);
      }
    }
  }

  /** The reference-count invariant is kept by an operation if and only if the operation is
      disciplined. */
  lemma StepExact(s: State, op: Op)
    requires Exact(s) && Possible(s, op)
    ensures Exact(Step(s, op)) <==> Disciplined(s, op)
  {
    hide Exact, ResetHandle, NewBlock, UntrackedBlock, AppendCopy, AppendInPlace, Entered, Left;
    match op {
      case Default(h) => UnsetExact(s, h);
      case Allocate(h, at, content) => NewBlockExact(s, h, at, content);
      case FromBuffer(h, at, source) =>
        if source.Some? {
          NewBlockExact(s, h, at, source.value);
        }
      case FromAddress(h, a) => FromAddressExact(s, h, a);
      case Copy(h, other) => CopyExact(s, h, other);
      case Assign(h, other) => AssignExact(s, h, other);
      case AssignBuffer(h, at, source) => AssignBufferExact(s, h, at, source);
      case Append(h, data, at) => AppendExact(s, h, data, at);
      case Reset(h) => ResetExact(s, h);
      case Destroy(h) =>
        ResetExact(s, h);
        assert ResetHandle(s, h).handles[h] == UNSET by { ResetUnsets(s, h); }
        DestroyExact(ResetHandle(s, h), h);
      case Swap(h, other) => SwapExact(s, h, other);
      case Open => OpenExact(s);
      case Close => CloseExact(s);
    }
  }

  lemma ResetUnsets(s: State, h: HandleId)
    requires h in s.handles
    ensures ResetHandle(s, h).handles == s.handles[h := UNSET]
  {
  }

  lemma UnsetExact(s: State, h: HandleId)
    requires Exact(s) && h !in s.handles
    ensures Exact(SetHandle(s, h, UNSET))
  {
    var s' := SetHandle(s, h, UNSET);
    forall b | b != NULL ensures |Holders(s'.handles, b)| == |Holders(s.handles, b)| {
      HoldersUpdate(s.handles, h, UNSET, b);
    }
    forall g <- s'.handles ensures HandleOk(s', s'.handles[g]) { assert g != h ==> HandleOk(s, s.handles[g]); }
  }

  lemma DestroyExact(s: State, h: HandleId)
    requires Exact(s) && h in s.handles && s.handles[h] == UNSET
    ensures Exact(s.(handles := s.handles - {h}))
  {
    var s' := s.(handles := s.handles - {h});
    forall b | b != NULL ensures Holders(s'.handles, b) == Holders(s.handles, b) {
    }
    forall g <- s'.handles ensures HandleOk(s', s'.handles[g]) { assert HandleOk(s, s.handles[g]); }
  }

  /** The constructor from a raw address, given null, adds to the initial count once a scope has
      ever been opened; given an unknown address, it throws and the address is freed. */
  lemma FromAddressExact(s: State, h: HandleId, a: Addr)
    requires Exact(s) && h !in s.handles
    ensures Exact(Step(s, FromAddress(h, a))) <==> Disciplined(s, FromAddress(h, a))
  {
    if a != NULL && a in s.heap {
      ShareExact(s, h, Handle(a, 0));
    }
  }

  lemma AssignExact(s: State, h: HandleId, other: HandleId)
    requires Exact(s) && h in s.handles && other in s.handles
    ensures Exact(Step(s, Assign(h, other)))
  {
    var handle := s.handles[other];
    if h != other && handle.addr != NULL {
      ResetExact(s, h);
      var s1 := ResetHandle(s, h);
      assert s1.handles[other] == handle && HandleOk(s1, handle);
      ShareExact(s1, h, handle);
    }
  }

  lemma SwapHolders(handles: map<HandleId, Handle>, h: HandleId, other: HandleId, b: Addr)
    requires h in handles && other in handles
    ensures |Holders(handles[h := handles[other]][other := handles[h]], b)| == |Holders(handles, b)|
  {
    HoldersUpdate(handles, h, handles[other], b);
    HoldersUpdate(handles[h := handles[other]], other, handles[h], b);
  }

  lemma SwapExact(s: State, h: HandleId, other: HandleId)
    requires Exact(s) && h in s.handles && other in s.handles
    ensures Exact(Step(s, Swap(h, other)))
  {
    var s' := Step(s, Swap(h, other));
    forall b ensures |Holders(s'.handles, b)| == |Holders(s.handles, b)| { SwapHolders(s.handles, h, other, b); }
    forall g <- s'.handles ensures HandleOk(s', s'.handles[g]) { assert HandleOk(s, s.handles[g]); }
    assert HandleOk(s, s.handles[h]) && HandleOk(s, s.handles[other]);
  }
}

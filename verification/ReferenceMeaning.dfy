/** What the operations on reference-counted buffers do, in terms of what a user sees: which handles
    there are, on which block each of them is, with which bytes and size, and which scopes are open.
    Together with the exactness of the counts this fixes the whole state. */
module ReferenceMeaning {
  import opened Wrappers
  import opened ReferenceBuffer
  import opened ReferenceCounting
  import opened ReferenceTheorems

  /** A handle and the bytes of the block it is on, as far as they are reached by its size. */
  ghost predicate Sees(s: State, h: HandleId, handle: Handle, bytes: seq<byte>) {
    && h in s.handles && s.handles[h] == handle && View(s, h) == bytes
    && (handle.addr != NULL ==> handle.addr in s.heap)
  }

  /** Exactly the handles in `changed` may differ. */
  ghost predicate OnlyChanged(s: State, s': State, changed: set<HandleId>)
  {
    && s.handles.Keys - changed == s'.handles.Keys - changed
    && forall g <- s.handles :: g !in changed ==>
         && g in s'.handles && s'.handles[g] == s.handles[g]
         && (s.handles[g].addr != NULL ==>
               && s.handles[g].addr in s.heap && s.handles[g].addr in s'.heap
               && s'.heap[s.handles[g].addr] == s.heap[s.handles[g].addr])
  }

  lemma NothingChanges(s: State, changed: set<HandleId>)
    requires Exact(s)
    ensures OnlyChanged(s, s, changed)
  {
    forall g <- s.handles ensures HandleOk(s, s.handles[g]) {}
  }

  /** Every live block but one keeps its bytes, and every handle but h stays. */
  lemma OneChanged(s: State, s': State, h: HandleId)
    requires Exact(s) && s'.handles.Keys - {h} == s.handles.Keys - {h}
    requires forall g <- s.handles :: g != h ==> g in s'.handles && s'.handles[g] == s.handles[g]
    requires forall a <- s.heap :: Holders(s.handles, a) - {h} != {} ==> a in s'.heap && s'.heap[a] == s.heap[a]
    ensures OnlyChanged(s, s', {h})
  {
    forall g <- s.handles | g != h && s.handles[g].addr != NULL
      ensures s.handles[g].addr in s.heap && s.handles[g].addr in s'.heap
      ensures s'.heap[s.handles[g].addr] == s.heap[s.handles[g].addr]
    {
      assert HandleOk(s, s.handles[g]);
      assert g in Holders(s.handles, s.handles[g].addr) - {h};
    }
  }

  // ---------- reset and destruction ----------

  /** A block on which there is another handle survives the reset of this one. */
  lemma ResetSpares(s: State, h: HandleId, a: Addr)
    requires Exact(s) && h in s.handles && a in s.heap && Holders(s.handles, a) - {h} != {}
    ensures a in ResetHandle(s, h).heap && ResetHandle(s, h).heap[a] == s.heap[a]
  {
    WithoutOne(Holders(s.handles, a), h);
    if s.handles[h].addr == a {
      assert h in Holders(s.handles, a);
      assert |Holders(s.handles, a) - {h}| >= 1;
      assert s.counts[a] == References(s, a);
    }
  }

  /** A reset handle is unset. Its block is freed exactly when nothing else refers to it; no other handle
      is affected. */
  lemma ResetMeans(s: State, h: HandleId)
    requires Exact(s) && h in s.handles
    ensures var s' := Step(s, Reset(h));
            && Sees(s', h, UNSET, []) && OnlyChanged(s, s', {h}) && s'.scopes == s.scopes
    ensures forall a <- s.heap :: a !in Step(s, Reset(h)).heap <==>
              s.handles[h].addr == a && Holders(s.handles, a) == {h} && Owed(s.scopes, a) == 0
  {
    var s' := ResetHandle(s, h);
    forall a <- s.heap | Holders(s.handles, a) - {h} != {} ensures a in s'.heap && s'.heap[a] == s.heap[a] {
      ResetSpares(s, h, a);
    }
    OneChanged(s, s', h);
    forall a <- s.heap
      ensures a !in s'.heap <==> s.handles[h].addr == a && Holders(s.handles, a) == {h} && Owed(s.scopes, a) == 0
    {
      ResetFrees(s, h, a);
    }
    hide Exact, ResetHandle;
    assert View(s', h) == [];
  }

  lemma ResetUnsetsOnly(s: State, h: HandleId)
    requires Exact(s) && h in s.handles
    ensures var s' := ResetHandle(s, h);
            Sees(s', h, UNSET, []) && OnlyChanged(s, s', {h}) && s'.scopes == s.scopes
  {
    hide Exact, Sees, OnlyChanged, ResetHandle, Holders, Owed;
    ResetMeans(s, h);
  }

  lemma ResetFrees(s: State, h: HandleId, a: Addr)
    requires Exact(s) && h in s.handles && a in s.heap
    ensures a !in ResetHandle(s, h).heap <==>
              s.handles[h].addr == a && Holders(s.handles, a) == {h} && Owed(s.scopes, a) == 0
  {
    assert s.counts[a] == References(s, a);
    if s.handles[h].addr == a {
      assert h in Holders(s.handles, a);
      WithoutOne(Holders(s.handles, a), h);
    }
  }

  /** A destroyed handle is gone, with the same effect on blocks as a reset. */
  lemma DestroyMeans(s: State, h: HandleId)
    requires Exact(s) && h in s.handles
    ensures var s' := Step(s, Destroy(h));
            && h !in s'.handles && OnlyChanged(s, s', {h}) && s'.scopes == s.scopes
            && s'.heap == Step(s, Reset(h)).heap && s'.counts == Step(s, Reset(h)).counts
  {
    ResetMeans(s, h);
  }

  // ---------- construction ----------

  lemma DefaultMeans(s: State, h: HandleId)
    requires Exact(s) && h !in s.handles
    ensures var s' := Step(s, Default(h));
            Sees(s', h, UNSET, []) && OnlyChanged(s, s', {h}) && s'.heap == s.heap && s'.scopes == s.scopes
  {
    OneChanged(s, Step(s, Default(h)), h);
  }

  /** A new block with the given content, or nothing at all when the table is full. */
  lemma NewBlockMeans(s: State, h: HandleId, at: Addr, content: seq<byte>)
    requires Exact(s) && Unset(s, h) && at != NULL && at !in s.heap
    ensures var s' := NewBlock(s, h, at, content);
            Sees(s', h, Handle(at, |content|), content) && OnlyChanged(s, s', {h}) && s'.scopes == s.scopes
    ensures var s' := UntrackedBlock(s, h, at, content);
            Sees(s', h, Handle(at, |content|), content) && OnlyChanged(s, s', {h}) && s'.scopes == s.scopes
  {
    OneChanged(s, NewBlock(s, h, at, content), h);
    OneChanged(s, UntrackedBlock(s, h, at, content), h);
  }

  lemma AllocateMeans(s: State, h: HandleId, at: Addr, content: seq<byte>)
    requires Exact(s) && Possible(s, Allocate(h, at, content))
    ensures var s' := Step(s, Allocate(h, at, content));
            if Full(s, at) then s' == s
            else Sees(s', h, Handle(at, |content|), content) && OnlyChanged(s, s', {h}) && s'.scopes == s.scopes
  {
    NewBlockMeans(s, h, at, content);
  }

  /** A deep copy of a plain buffer; an unset one, or a full table, leaves everything as it was. */
  lemma FromBufferMeans(s: State, h: HandleId, at: Addr, source: Option<seq<byte>>)
    requires Exact(s) && Possible(s, FromBuffer(h, at, source))
    ensures var s' := Step(s, FromBuffer(h, at, source));
            if source.None? || Full(s, at) then s' == s
            else
              && Sees(s', h, Handle(at, |source.value|), source.value)
              && OnlyChanged(s, s', {h}) && s'.scopes == s.scopes
  {
    if source.Some? {
      NewBlockMeans(s, h, at, source.value);
    }
  }

  /** One more reference to a block, and nothing else. */
  ghost predicate SharedOnce(s: State, s': State, h: HandleId, handle: Handle) {
    && h in s'.handles && s'.handles[h] == handle && OnlyChanged(s, s', {h})
    && s'.heap == s.heap && s'.scopes == s.scopes
    && References(s', handle.addr) == References(s, handle.addr) + 1
  }

  lemma ShareMeans(s: State, h: HandleId, handle: Handle)
    requires Exact(s) && Unset(s, h) && handle.addr in s.heap
    ensures SharedOnce(s, Share(s, h, handle), h, handle)
  {
    OneChanged(s, Share(s, h, handle), h);
    HoldersUpdate(s.handles, h, handle, handle.addr);
    hide Holders;
  }

  /** A known address gives a handle on its block, of size 0. */
  lemma FromAddressMeans(s: State, h: HandleId, a: Addr)
    requires Exact(s) && h !in s.handles && a in s.heap
    ensures SharedOnce(s, Step(s, FromAddress(h, a)), h, Handle(a, 0))
  {
    ShareMeans(s, h, Handle(a, 0));
  }

  /** A copy is on the same block, sees the same bytes, and counts one reference more. */
  lemma CopyMeans(s: State, h: HandleId, other: HandleId)
    requires Exact(s) && h !in s.handles && other in s.handles
    ensures var s' := Step(s, Copy(h, other));
            if s.handles[other].addr == NULL then s' == s
            else SharedOnce(s, s', h, s.handles[other]) && View(s', h) == View(s, other)
  {
    assert HandleOk(s, s.handles[other]);
    if s.handles[other].addr != NULL {
      ShareMeans(s, h, s.handles[other]);
    }
  }

  // ---------- assignment ----------

  /** The block of another handle outlives the reset of h. */
  lemma OtherBlockStays(s: State, h: HandleId, other: HandleId)
    requires Exact(s) && h in s.handles && other in s.handles && h != other && s.handles[other].addr != NULL
    ensures var s1, a := ResetHandle(s, h), s.handles[other].addr;
            && a in s.heap && a in s1.heap && s1.heap[a] == s.heap[a]
            && References(s1, a) == References(s, a) - if s.handles[h].addr == a then 1 else 0
  {
    var a := s.handles[other].addr;
    assert HandleOk(s, s.handles[other]);
    assert other in Holders(s.handles, a) - {h};
    ResetSpares(s, h, a);
    ResetHolders(s, h, a);
  }

  lemma AssignIsShare(s: State, h: HandleId, other: HandleId)
    requires h in s.handles && other in s.handles && h != other && s.handles[other].addr != NULL
    requires s.handles[other].addr in ResetHandle(s, h).counts
    ensures Step(s, Assign(h, other)) == Share(ResetHandle(s, h), h, s.handles[other])
  {
  }

  lemma LiveIsCounted(s: State, a: Addr)
    requires Exact(s) && a in s.heap
    ensures a in s.counts
  {
  }

  lemma ChangedTwice(s: State, s1: State, s2: State, h: HandleId)
    requires OnlyChanged(s, s1, {h}) && OnlyChanged(s1, s2, {h})
    ensures OnlyChanged(s, s2, {h})
  {
  }

  /** Assigning a set handle puts the target on the same block, with the same size and bytes; the block
      has one reference more unless the target was on it already. Otherwise nothing changes. */
  lemma AssignMeans(s: State, h: HandleId, other: HandleId)
    requires Exact(s) && h in s.handles && other in s.handles
    ensures var s', handle := Step(s, Assign(h, other)), s.handles[other];
            if h == other || handle.addr == NULL then s' == s
            else
              && h in s'.handles && s'.handles[h] == handle && View(s', h) == View(s, other)
              && OnlyChanged(s, s', {h}) && s'.scopes == s.scopes
              && References(s', handle.addr) == References(s, handle.addr) +
                                                if s.handles[h].addr == handle.addr then 0 else 1
  {
    var handle := s.handles[other];
    if h == other || handle.addr == NULL {
      assert Step(s, Assign(h, other)) == s;
    } else {
      hide Exact, ResetHandle, Share, References, OnlyChanged, Step;
      var s1 := ResetHandle(s, h);
      ResetUnsets(s, h);
      ResetExact(s, h);
      ResetUnsetsOnly(s, h);
      OtherBlockStays(s, h, other);
      LiveIsCounted(s1, handle.addr);
      AssignIsShare(s, h, other);
      ShareMeans(s1, h, handle);
      ChangedTwice(s, s1, Share(s1, h, handle), h);
    }
  }

  /** Assigning a plain buffer leaves the target with a block of its own that holds the buffer's bytes,
      also when the table is full; an unset buffer leaves it unset. */
  lemma AssignBufferMeans(s: State, h: HandleId, at: Addr, source: Option<seq<byte>>)
    requires Exact(s) && Possible(s, AssignBuffer(h, at, source))
    ensures var s' := Step(s, AssignBuffer(h, at, source));
            && OnlyChanged(s, s', {h}) && s'.scopes == s.scopes
            && if source.None? then Sees(s', h, UNSET, [])
               else Sees(s', h, Handle(at, |source.value|), source.value)
  {
    hide Exact, OnlyChanged, ResetHandle, NewBlock, UntrackedBlock, Sees;
    var s1 := ResetHandle(s, h);
    ResetUnsetsOnly(s, h);
    ResetExact(s, h);
    ResetUnsets(s, h);
    if source.Some? {
      NewBlockMeans(s1, h, at, source.value);
      ChangedTwice(s, s1, NewBlock(s1, h, at, source.value), h);
      ChangedTwice(s, s1, UntrackedBlock(s1, h, at, source.value), h);
    }
  }

  /** Swapping exchanges the two handles and touches neither blocks nor counts. */
  lemma SwapMeans(s: State, h: HandleId, other: HandleId)
    requires Exact(s) && h in s.handles && other in s.handles
    ensures var s' := Step(s, Swap(h, other));
            && h in s'.handles && other in s'.handles
            && s'.handles[h] == s.handles[other] && s'.handles[other] == s.handles[h]
            && View(s', h) == View(s, other) && View(s', other) == View(s, h)
            && OnlyChanged(s, s', {h, other}) && s'.heap == s.heap && s'.counts == s.counts && s'.scopes == s.scopes
  {
    forall g <- s.handles ensures HandleOk(s, s.handles[g]) {}
  }

  // ---------- scopes and append ----------

  /** A scope remembers the addresses that are live when it opens, and the null entry if there is one. */
  lemma OpenMeans(s: State)
    requires Exact(s)
    ensures var s' := Step(s, Open);
            && s'.handles == s.handles && s'.heap == s.heap
            && if Full(s, NULL) then s' == s
               else
                 && |s'.scopes| == |s.scopes| + 1 && s'.scopes[..|s.scopes|] == s.scopes
                 && Initial(s') == Initial(s) + 1
                 && forall a :: a in s'.scopes[|s.scopes|].known <==> a in s.heap || (a == NULL && NULL in s.counts)
  {
  }

  /** An append extends what the handle sees, at the address that realloc or malloc answers; a refused
      one changes nothing. */
  lemma AppendMeans(s: State, h: HandleId, data: seq<byte>, at: Addr)
    requires Exact(s) && Possible(s, Append(h, data, at))
    ensures var s' := Step(s, Append(h, data, at));
            && s'.scopes == s.scopes && (AppendThrows(s, h) ==> s' == s)
            && (!AppendThrows(s, h) ==>
                  Sees(s', h, Handle(at, s.handles[h].size + |data|), View(s, h) + data) && OnlyChanged(s, s', {h}))
  {
    if !AppendThrows(s, h) {
      AppendIsolated(s, h, data, at);
      assert HandleOk(s, s.handles[h]);
    }
  }
}

/** What the reference-counted buffers promise, for every run of disciplined operations. */
module ReferenceTheorems {
  import opened Wrappers
  import opened ReferenceBuffer
  import opened ReferenceCounting

  // ---------- whole runs ----------

  lemma {:induction false} RunExact(states: seq<State>, ops: seq<Op>, n: nat)
    requires IsRun(states, ops) && n < |states|
    requires forall k :: 0 <= k < n ==> Disciplined(states[k], ops[k])
    ensures Exact(states[n])
  {
    if n > 0 {
      hide Exact, Disciplined, Step, Possible;
      RunExact(states, ops, n - 1);
      assert Possible(states[n - 1], ops[n - 1]);
      assert Disciplined(states[n - 1], ops[n - 1]);
      StepExact(states[n - 1], ops[n - 1]);
    }
  }

  /** The reference counts are exact throughout a run if and only if every operation of the run is
      disciplined. */
  lemma RunExactIffDisciplined(states: seq<State>, ops: seq<Op>)
    requires IsRun(states, ops)
    ensures (forall n :: 0 <= n < |states| ==> Exact(states[n])) <==>
            (forall n :: 0 <= n < |ops| ==> Disciplined(states[n], ops[n]))
  {
    if forall n :: 0 <= n < |ops| ==> Disciplined(states[n], ops[n]) {
      forall n | 0 <= n < |states| ensures Exact(states[n]) {
        RunExact(states, ops, n);
      }
    }
    if forall n :: 0 <= n < |states| ==> Exact(states[n]) {
      forall n | 0 <= n < |ops| ensures Disciplined(states[n], ops[n]) {
        assert Exact(states[n + 1]) && Possible(states[n], ops[n]);
        StepExact(states[n], ops[n]);
      }
    }
  }

  // ---------- scopes ----------

  lemma {:induction false} OwedWhileOpen(scopes: seq<Scope>, k: nat, a: Addr)
    requires k < |scopes| && a !in scopes[k].known
    ensures Owed(scopes, a) >= 1
  {
    if k < |scopes| - 1 {
      OwedWhileOpen(scopes[..|scopes| - 1], k, a);
    }
  }

  /** A block that an open scope does not know, and a reference to it besides. */
  lemma OwedBlockIsShared(s: State, h: HandleId, k: nat)
    requires Exact(s) && h in s.handles && s.handles[h].addr != NULL
    requires k < |s.scopes| && s.handles[h].addr !in s.scopes[k].known
    ensures Shared(s, h)
  {
    assert HandleOk(s, s.handles[h]);
    HolderCounts(s.handles, h);
    OwedWhileOpen(s.scopes, k, s.handles[h].addr);
  }

  lemma ResetKeepsOwedBlock(s: State, h: HandleId, k: nat, a: Addr)
    requires Exact(s) && h in s.handles && k < |s.scopes| && a in s.heap && a !in s.scopes[k].known
    ensures a in ResetHandle(s, h).heap && ResetHandle(s, h).heap[a] == s.heap[a]
    ensures ResetHandle(s, h).scopes == s.scopes
  {
    if s.handles[h].addr == a {
      OwedBlockIsShared(s, h, k);
    }
  }

  lemma AppendKeepsOwedBlock(s: State, h: HandleId, data: seq<byte>, at: Addr, k: nat, a: Addr)
    requires Exact(s) && Possible(s, Append(h, data, at)) && k < |s.scopes| && a in s.heap && a !in s.scopes[k].known
    ensures var s' := Step(s, Append(h, data, at));
            a in s'.heap && s'.heap[a] == s.heap[a] && s'.scopes == s.scopes
  {
    if s.handles[h].addr == a {
      OwedBlockIsShared(s, h, k);
    }
  }

  lemma CloseKeepsOwedBlock(s: State, k: nat, a: Addr)
    requires Exact(s) && k < |s.scopes| - 1 && a in s.heap && a !in s.scopes[k].known
    ensures var s' := Left(s);
            a in s'.heap && s'.heap[a] == s.heap[a] && k < |s'.scopes| && s'.scopes[k] == s.scopes[k]
  {
    OwedWhileOpen(s.scopes[..|s.scopes| - 1], k, a);
    assert s.counts[a] == References(s, a);
  }

  /** Does the operation leave the k-th scope open? */
  predicate KeepsScope(s: State, op: Op, k: nat) {
    k < |s.scopes| && (op.Close? ==> k < |s.scopes| - 1)
  }

  ghost predicate Keeps(s: State, s': State, k: nat, a: Addr) {
    && a in s.heap && a in s'.heap && s'.heap[a] == s.heap[a]
    && k < |s.scopes| && k < |s'.scopes| && s'.scopes[k] == s.scopes[k]
  }

  /** Operations that reset a handle first. */
  lemma ReplacingKeeps(s: State, op: Op, k: nat, a: Addr)
    requires Exact(s) && Possible(s, op) && k < |s.scopes| && a in s.heap && a !in s.scopes[k].known
    requires op.Assign? || op.AssignBuffer? || op.Reset? || op.Destroy?
    ensures Keeps(s, Step(s, op), k, a)
  {
    ResetKeepsOwedBlock(s, op.h, k, a);
    hide Exact, ResetHandle;
  }

  /** Operations that take no reference away. */
  lemma AddingKeeps(s: State, op: Op, k: nat, a: Addr)
    requires Possible(s, op) && k < |s.scopes| && a in s.heap && a in s.counts
    requires !op.Assign? && !op.AssignBuffer? && !op.Reset? && !op.Destroy? && !op.Append? && !op.Close?
    ensures Keeps(s, Step(s, op), k, a)
  {
  }

  lemma StepKeepsOwedBlock(s: State, op: Op, k: nat, a: Addr)
    requires Exact(s) && Possible(s, op) && KeepsScope(s, op, k)
    requires a in s.heap && a !in s.scopes[k].known
    ensures Keeps(s, Step(s, op), k, a)
  {
    match op {
      case Append(h, data, at) => AppendKeepsOwedBlock(s, h, data, at, k, a);
      case Close => CloseKeepsOwedBlock(s, k, a);
      case _ =>
        hide Step, Possible;
        if op.Assign? || op.AssignBuffer? || op.Reset? || op.Destroy? {
          ReplacingKeeps(s, op, k, a);
        } else {
          AddingKeeps(s, op, k, a);
        }
    }
  }

  lemma RunStepKeepsOwedBlock(states: seq<State>, ops: seq<Op>, n: nat, k: nat, a: Addr)
    requires IsRun(states, ops) && n < |ops| && Exact(states[n]) && KeepsScope(states[n], ops[n], k)
    requires a in states[n].heap && a !in states[n].scopes[k].known
    ensures a in states[n + 1].heap && states[n + 1].heap[a] == states[n].heap[a]
    ensures k < |states[n + 1].scopes| && states[n + 1].scopes[k] == states[n].scopes[k]
  {
    assert Possible(states[n], ops[n]);
    StepKeepsOwedBlock(states[n], ops[n], k, a);
  }

  /** Deferred deallocation: a block created after a scope opened keeps its bytes, at its address,
      until that scope closes, whatever is reset, destroyed, reassigned or appended meanwhile. */
  lemma {:induction false} BlockOutlivesHandles(states: seq<State>, ops: seq<Op>, n: nat, m: nat, k: nat, a: Addr)
    requires IsRun(states, ops) && n <= m < |states|
    requires forall j :: 0 <= j < m ==> Disciplined(states[j], ops[j])
    requires k < |states[n].scopes| && a in states[n].heap && a !in states[n].scopes[k].known
    requires forall j :: n <= j < m ==> KeepsScope(states[j], ops[j], k)
    ensures a in states[m].heap && states[m].heap[a] == states[n].heap[a]
    ensures k < |states[m].scopes| && states[m].scopes[k] == states[n].scopes[k]
  {
    hide Exact, Step, Possible, Disciplined;
    if n < m {
      BlockOutlivesHandles(states, ops, n, m - 1, k, a);
      RunExact(states, ops, m - 1);
      RunStepKeepsOwedBlock(states, ops, m - 1, k, a);
    }
  }

  /** Closing a scope frees exactly the blocks created since it opened that no handle refers to and
      that no outer scope still owes; the others keep their bytes; the initial count is again one
      plus the remaining depth. */
  lemma CloseFreesExactly(s: State, a: Addr)
    requires Exact(s) && s.scopes != [] && a in s.heap
    ensures var s', n := Left(s), |s.scopes| - 1;
            && (a !in s'.heap <==>
                  a !in s.scopes[n].known && Holders(s.handles, a) == {} && Owed(s.scopes[..n], a) == 0)
            && (a in s'.heap ==> s'.heap[a] == s.heap[a])
            && s'.handles == s.handles && s'.scopes == s.scopes[..n] && Initial(s') == 1 + n
  {
  }

  // ---------- safe_get ----------

  function UseCount(s: State, h: HandleId): int
    requires h in s.handles
  {
    var a := s.handles[h].addr;
    if a != NULL && a in s.counts then s.counts[a] else 0
  }

  function SafeGet(s: State, h: HandleId): Addr
    requires h in s.handles
  {
    if UseCount(s, h) <= 1 then NULL else s.handles[h].addr
  }

  /** safe_get hands out the address exactly when something else than this handle keeps the block:
      another handle, or an open scope that the block is owed to. */
  lemma SafeGetExactly(s: State, h: HandleId)
    requires Exact(s) && h in s.handles && s.handles[h].addr != NULL
    ensures SafeGet(s, h) in {NULL, s.handles[h].addr}
    ensures SafeGet(s, h) != NULL <==>
              Holders(s.handles, s.handles[h].addr) != {h} || Owed(s.scopes, s.handles[h].addr) > 0
  {
    var a := s.handles[h].addr;
    assert HandleOk(s, s.handles[h]);
    HolderCounts(s.handles, h);
    WithoutOne(Holders(s.handles, a), h);
  }

  // ---------- copy on write ----------

  /** The bytes seen through a handle. */
  function View(s: State, h: HandleId): seq<byte>
    requires h in s.handles
  {
    var handle := s.handles[h];
    if Readable(s, handle) then s.heap[handle.addr][..handle.size] else []
  }

  /** No handle but h, and no block but its own, is affected. */
  ghost predicate OthersUntouched(s: State, s': State, h: HandleId)
  {
    && s.handles.Keys == s'.handles.Keys
    && forall g <- s.handles :: g != h ==>
         && s'.handles[g] == s.handles[g]
         && (s.handles[g].addr != NULL ==>
               && s.handles[g].addr in s.heap && s.handles[g].addr in s'.heap
               && s'.heap[s.handles[g].addr] == s.heap[s.handles[g].addr])
  }

  lemma AppendExtends(s: State, h: HandleId, data: seq<byte>, at: Addr)
    requires Exact(s) && Possible(s, Append(h, data, at)) && !AppendThrows(s, h)
    ensures var s' := Step(s, Append(h, data, at));
            && h in s'.handles && View(s', h) == View(s, h) + data
            && s'.handles[h].size == s.handles[h].size + |data|
            && s'.handles.Keys == s.handles.Keys
  {
    hide Holders, Owed;
    assert HandleOk(s, s.handles[h]);
  }

  lemma AppendSpares(s: State, h: HandleId, data: seq<byte>, at: Addr, g: HandleId)
    requires Exact(s) && Possible(s, Append(h, data, at)) && !AppendThrows(s, h) && g in s.handles && g != h
    ensures var s', b := Step(s, Append(h, data, at)), s.handles[g].addr;
            && g in s'.handles && s'.handles[g] == s.handles[g]
            && (b != NULL ==> b in s.heap && b in s'.heap && s'.heap[b] == s.heap[b])
  {
    assert HandleOk(s, s.handles[g]) && HandleOk(s, s.handles[h]);
    if s.handles[h].addr != NULL && !Shared(s, h) {
      ExclusiveBlock(s, h);
      assert g !in Holders(s.handles, s.handles[h].addr);
    }
  }

  /** append, in the shared and in the exclusive branch: this handle sees its bytes followed by the
      new ones, and nothing changes behind any other handle. */
  lemma AppendIsolated(s: State, h: HandleId, data: seq<byte>, at: Addr)
    requires Exact(s) && Possible(s, Append(h, data, at)) && !AppendThrows(s, h)
    ensures var s' := Step(s, Append(h, data, at));
            && h in s'.handles && View(s', h) == View(s, h) + data
            && s'.handles[h].size == s.handles[h].size + |data|
            && OthersUntouched(s, s', h)
  {
    hide Exact, Step, View;
    AppendExtends(s, h, data, at);
    var s' := Step(s, Append(h, data, at));
    forall g <- s.handles | g != h
      ensures s'.handles[g] == s.handles[g]
      ensures s.handles[g].addr != NULL ==>
                && s.handles[g].addr in s.heap && s.handles[g].addr in s'.heap
                && s'.heap[s.handles[g].addr] == s.heap[s.handles[g].addr]
    {
      AppendSpares(s, h, data, at, g);
    }
  }

  datatype Piece = Piece(data: seq<byte>, at: Addr)

  /** What a plain buffer holds after the same appends. */
  function Appended(content: seq<byte>, pieces: seq<Piece>): seq<byte>
    decreases |pieces|
  {
    if pieces == [] then content else Appended(content + pieces[0].data, pieces[1..])
  }

  ghost predicate AppendRun(s: State, h: HandleId, pieces: seq<Piece>, s': State)
    decreases |pieces|
  {
    if pieces == [] then s == s'
    else
      var op := Append(h, pieces[0].data, pieces[0].at);
      Possible(s, op) && Disciplined(s, op) && AppendRun(Step(s, op), h, pieces[1..], s')
  }

  /** Any series of appends through one handle gives it what a plain buffer would hold and changes
      nothing behind the others. */
  lemma {:induction false} AppendsAgreeWithPlainBuffer(s: State, h: HandleId, pieces: seq<Piece>, s': State)
    requires Exact(s) && h in s.handles && !AppendThrows(s, h) && AppendRun(s, h, pieces, s')
    ensures Exact(s') && h in s'.handles
    ensures View(s', h) == Appended(View(s, h), pieces)
    ensures OthersUntouched(s, s', h)
    decreases |pieces|
  {
    if pieces == [] {
      forall g <- s.handles ensures HandleOk(s, s.handles[g]) {}
    } else {
      var op := Append(h, pieces[0].data, pieces[0].at);
      StepExact(s, op);
      AppendIsolated(s, h, pieces[0].data, pieces[0].at);
      AppendsAgreeWithPlainBuffer(Step(s, op), h, pieces[1..], s');
    }
  }
}

/** Reference-counted memory blocks with copy-on-write and deferred deallocation: the step function
    of the operations on handles, on the shared count table and on scopes that delay deallocation. */
module ReferenceBuffer {
  import opened Wrappers

  type Addr = nat
  type HandleId = nat

  const NULL: Addr := 0

  /** A stable_reference_buffer. One built from a raw address has size 0. */
  datatype Handle = Handle(addr: Addr, size: nat)

  const UNSET := Handle(NULL, 0)

  /** An open delay_deallocation: the keys of the count table when it opened, and the initial count
      to restore. */
  datatype Scope = Scope(known: set<Addr>, initial: int)

  /** `counts` is the shared table, whose null key stores the initial count of new blocks. `fault`
      records that a dead block was freed, moved or read. `limit` is the number of entries that the
      table has room for. */
  datatype State = State(
    heap: map<Addr, seq<byte>>,
    counts: map<Addr, int>,
    handles: map<HandleId, Handle>,
    scopes: seq<Scope>,
    limit: nat,
    fault: bool)

  /** `at` is the address that malloc or realloc answers. */
  datatype Op =
    | Default(h: HandleId)
    | Allocate(h: HandleId, at: Addr, content: seq<byte>)
    | FromBuffer(h: HandleId, at: Addr, source: Option<seq<byte>>)
    | FromAddress(h: HandleId, address: Addr)
    | Copy(h: HandleId, other: HandleId)
    | Assign(h: HandleId, other: HandleId)
    | AssignBuffer(h: HandleId, at: Addr, source: Option<seq<byte>>)
    | Append(h: HandleId, data: seq<byte>, at: Addr)
    | Reset(h: HandleId)
    | Destroy(h: HandleId)
    | Swap(h: HandleId, other: HandleId)
    | Open
    | Close

  function Initial(s: State): int {
    if NULL in s.counts then s.counts[NULL] else 1
  }

  function Free(s: State, a: Addr): State {
    if a in s.heap then s.(heap := s.heap - {a}) else s.(fault := true)
  }

  /** No room in the table for an entry of address a. */
  predicate Full(s: State, a: Addr) {
    a !in s.counts && |s.counts| >= s.limit
  }

  function SetHandle(s: State, h: HandleId, handle: Handle): State {
    s.(handles := s.handles[h := handle])
  }

  /** Take one reference off a tracked address; the last one frees the block. */
  function Release(s: State, a: Addr): State
    requires a in s.counts
  {
    if s.counts[a] == 1 then Free(s.(counts := s.counts - {a}), a)
    else s.(counts := s.counts[a := s.counts[a] - 1])
  }

  function ResetHandle(s: State, h: HandleId): State
    requires h in s.handles
  {
    var a := s.handles[h].addr;
    SetHandle(if a != NULL && a in s.counts then Release(s, a) else s, h, UNSET)
  }

  /** A new block, tracked with the current initial count (or with one more reference, should the
      address be tracked already). */
  function NewBlock(s: State, h: HandleId, at: Addr, content: seq<byte>): State
  {
    var count := if at in s.counts then s.counts[at] + 1 else Initial(s);
    SetHandle(s.(heap := s.heap[at := content], counts := s.counts[at := count]), h, Handle(at, |content|))
  }

  /** A block that the table had no room for: the handle has it, and the operation throws. */
  function UntrackedBlock(s: State, h: HandleId, at: Addr, content: seq<byte>): State {
    SetHandle(s.(heap := s.heap[at := content]), h, Handle(at, |content|))
  }

  function Share(s: State, h: HandleId, handle: Handle): State
    requires handle.addr in s.counts
  {
    SetHandle(s.(counts := s.counts[handle.addr := s.counts[handle.addr] + 1]), h, handle)
  }

  /** A constructor that throws after it has set the address runs the destructor of its base class,
      which frees that address. */
  function Unwound(s: State, a: Addr): State {
    if a == NULL then s else Free(s, a)
  }

  predicate Readable(s: State, handle: Handle) {
    handle.addr in s.heap && handle.size <= |s.heap[handle.addr]|
  }

  /** append throws on a handle that was built from a raw address. */
  predicate AppendThrows(s: State, h: HandleId)
    requires h in s.handles
  {
    s.handles[h].size == 0 && s.handles[h].addr != NULL
  }

  predicate Shared(s: State, h: HandleId)
    requires h in s.handles
  {
    var a := s.handles[h].addr;
    a != NULL && a in s.counts && s.counts[a] > 1
  }

  function AppendCopy(s: State, h: HandleId, data: seq<byte>, at: Addr): State
    requires h in s.handles && Shared(s, h)
  {
    var handle := s.handles[h];
    if !Readable(s, handle) then s.(fault := true)
    else
      var content := s.heap[handle.addr][..handle.size] + data;
      var s1 := Release(s, handle.addr);
      if Full(s1, at) then UntrackedBlock(s1, h, at, content)
      else SetHandle(s1.(heap := s1.heap[at := content], counts := s1.counts[at := Initial(s1)]), h,
                     Handle(at, |content|))
  }

  /** The table after realloc: when it has moved the block, the new address is entered with the old
      count before the old one is erased; with a full table the first throws. */
  function MovedEntry(s: State, from: Addr, at: Addr): map<Addr, int> {
    if at == from || Full(s, at) then s.counts
    else s.counts[at := if from in s.counts then s.counts[from] else Initial(s)] - {from}
  }

  function AppendInPlace(s: State, h: HandleId, data: seq<byte>, at: Addr): State
    requires h in s.handles
  {
    var handle := s.handles[h];
    if handle.addr == NULL then
      if Full(s, at) then UntrackedBlock(s, h, at, data)
      else SetHandle(s.(heap := s.heap[at := data], counts := s.counts[at := Initial(s)]), h, Handle(at, |data|))
    else if !Readable(s, handle) then s.(fault := true)
    else
      var content := s.heap[handle.addr][..handle.size] + data;
      var heap := (s.heap - {handle.addr})[at := content];
      SetHandle(s.(heap := heap, counts := MovedEntry(s, handle.addr, at)), h, Handle(at, |content|))
  }

  function Entered(s: State): State
  {
    if Full(s, NULL) then s
    else s.(counts := s.counts[NULL := Initial(s) + 1], scopes := s.scopes + [Scope(s.counts.Keys, Initial(s))])
  }

  /** The entries that a closing scope takes a reference off. */
  function NewEntries(s: State, scope: Scope): set<Addr> {
    set a | a in s.counts && a != NULL && a !in scope.known
  }

  /** One reference off every entry of `drop`; those that reach zero are erased and freed. */
  function Swept(s: State, drop: set<Addr>): State
    requires drop <= s.counts.Keys
  {
    var dead := set a | a in drop && s.counts[a] == 1;
    s.(counts := map a | a in s.counts && a !in dead :: if a in drop then s.counts[a] - 1 else s.counts[a],
    heap := s.heap - dead,
    fault := s.fault || !(dead <= s.heap.Keys))
  }

  function Left(s: State): State
    requires s.scopes != []
  {
    var top := s.scopes[|s.scopes| - 1];
    var s1 := Swept(s, NewEntries(s, top));
    s1.(counts := s1.counts[NULL := top.initial], scopes := s.scopes[..|s.scopes| - 1])
  }

  /** What C++ and the allocator guarantee: handles exist (or are new, for constructors), a fresh
      block has a non-null address that is not in use, realloc answers the old address or a fresh
      one, a scope closes only if one is open, and append is given at least one byte. */
  predicate Possible(s: State, op: Op)
  {
    match op
    case Default(h) => h !in s.handles
    case Allocate(h, at, _) => h !in s.handles && at != NULL && at !in s.heap
    case FromBuffer(h, at, _) => h !in s.handles && at != NULL && at !in s.heap
    case FromAddress(h, _) => h !in s.handles
    case Copy(h, other) => h !in s.handles && other in s.handles
    case Assign(h, other) => h in s.handles && other in s.handles
    case AssignBuffer(h, at, _) => h in s.handles && at != NULL && at !in ResetHandle(s, h).heap
    case Append(h, data, at) =>
      && h in s.handles && data != [] && at != NULL
      && (at !in s.heap || (at == s.handles[h].addr && !Shared(s, h)))
    case Reset(h) => h in s.handles
    case Destroy(h) => h in s.handles
    case Swap(h, other) => h in s.handles && other in s.handles
    case Open => true
    case Close => s.scopes != []
  }

  /** The state after an operation; one that throws returns what it has changed until then. A
      constructor that finds the table full throws, and its base class frees the new block. */
  function Step(s: State, op: Op): State
    requires Possible(s, op)
  {
    match op
    case Default(h) => SetHandle(s, h, UNSET)
    case Allocate(h, at, content) => if Full(s, at) then s else NewBlock(s, h, at, content)
    case FromBuffer(h, at, source) =>
      if source.None? || Full(s, at) then s else NewBlock(s, h, at, source.value)
    case FromAddress(h, a) =>
      if a in s.counts then Share(s, h, Handle(a, 0)) else Unwound(s, a)
    case Copy(h, other) =>
      var handle := s.handles[other];
      if handle.addr == NULL then s
      else if handle.addr in s.counts then Share(s, h, handle)
      else Unwound(s, handle.addr)
    case Assign(h, other) =>
      if h == other || s.handles[other].addr == NULL then s
      else
        var s1 := ResetHandle(s, h);
        if s.handles[other].addr in s1.counts then Share(s1, h, s.handles[other])
        else SetHandle(s1, h, s.handles[other])
    case AssignBuffer(h, at, source) =>
      var s1 := ResetHandle(s, h);
      if source.None? then s1
      else if Full(s1, at) then UntrackedBlock(s1, h, at, source.value)
      else NewBlock(s1, h, at, source.value)
    case Append(h, data, at) =>
      if AppendThrows(s, h) then s
      else if Shared(s, h) then AppendCopy(s, h, data, at)
      else AppendInPlace(s, h, data, at)
    case Reset(h) => ResetHandle(s, h)
    case Destroy(h) => var s1 := ResetHandle(s, h); s1.(handles := s1.handles - {h})
    case Swap(h, other) => s.(handles := s.handles[h := s.handles[other]][other := s.handles[h]])
    case Open => Entered(s)
    case Close => Left(s)
  }

  function Start(limit: nat): State {
    State(map[], map[], map[], [], limit, false)
  }

  /** A run: any sequence of possible operations. */
  ghost predicate IsRun(states: seq<State>, ops: seq<Op>)
  {
    && |states| == |ops| + 1
    && states[0] == Start(states[0].limit)
    && forall n {:trigger ops[n]} :: 0 <= n < |ops| ==>
         Possible(states[n], ops[n]) && states[n + 1] == Step(states[n], ops[n])
  }
}

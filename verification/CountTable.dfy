/** The count table of the reference-counted buffers is a shared-memory map of limited size: what
    "full" means there, and that no run overfills it. */
module CountTable {
  import opened Wrappers
  import opened OrderedMap
  import opened Codecs
  import opened SharedRegion
  import opened SharedMap
  import R = ReferenceBuffer

  /** How many entries of twelve bytes fit behind the count. */
  function EntriesIn(bytes: nat): nat
    requires bytes >= 8
  {
    (bytes - 8) / 12
  }

  /** The entries in the region have the addresses that the reference-counting model tracks. */
  ghost predicate Tracks(s: R.State, m: seq<(word64, int32)>) {
    s.counts.Keys == ToMap(m).Keys
  }

  lemma AsManyEntries(s: R.State, m: seq<(word64, int32)>)
    requires Tracks(s, m) && Sorted(COUNT_TABLE.less, m)
    ensures |s.counts| == |m|
  {
    SizeIsCardinality(COUNT_TABLE.less, m);
    assert |s.counts| == |s.counts.Keys| && |ToMap(m)| == |ToMap(m).Keys|;
  }

  lemma RoomForOneMore(entries: nat, bytes: nat)
    requires bytes >= 8
    ensures 8 + (entries + 1) * 12 > bytes <==> entries >= EntriesIn(bytes)
  {
  }

  /** Entering an address into the table fails for lack of room exactly when the reference-counting
      model calls it full; updating and erasing never fail for it. */
  lemma FullMeansNoRoom(s: R.State, region: seq<byte>, m: seq<(word64, int32)>, e: Edit<word64, int32>)
    requires Represents(COUNT_TABLE, region, m) && Tracks(s, m) && |region| >= 8 && s.limit == EntriesIn(|region|)
    requires !e.Assignment?
    ensures Perform(COUNT_TABLE, region, e).1 == NoRoom <==> (e.Insertion? || e.UpdateOrInsert?) && R.Full(s, e.key)
  {
    CountTableOk();
    Ordered(COUNT_TABLE, region, m);
    AsManyEntries(s, m);
    RoomForOneMore(|m|, |region|);
    OnlyNewKeysNeedRoom(COUNT_TABLE, 8, 4, region, m, e);
    if e.Insertion? || e.UpdateOrInsert? {
      FindIsLookup(COUNT_TABLE.less, m, e.key);
    }
    hide Perform, Represents, Find, FixedWidth, LayoutOk, TotalOrder, EntriesIn, Sorted;
  }

  // ---------- runs ----------

  /** The table keeps within its limit, and has its null entry while a scope is open, so that closing
      a scope never needs room. */
  predicate TableOk(s: R.State) {
    Fits(s.counts, s.limit, s.scopes != [])
  }

  predicate Fits(counts: map<R.Addr, int>, limit: nat, scopeOpen: bool) {
    |counts| <= limit && (scopeOpen ==> R.NULL in counts)
  }

  lemma OneMoreEntry(counts: map<R.Addr, int>, a: R.Addr, c: int)
    ensures |counts[a := c]| == |counts| + if a in counts then 0 else 1
  {
    assert counts[a := c].Keys == counts.Keys + {a};
  }

  lemma FewerEntries(counts: map<R.Addr, int>, fewer: map<R.Addr, int>)
    requires fewer.Keys <= counts.Keys
    ensures |fewer| <= |counts|
  {
    assert counts.Keys == fewer.Keys + (counts.Keys - fewer.Keys);
    assert |counts.Keys| == |counts| && |fewer.Keys| == |fewer|;
  }

  lemma ResetTableOk(s: R.State, h: R.HandleId)
    requires TableOk(s) && h in s.handles
    ensures TableOk(R.ResetHandle(s, h))
    ensures R.ResetHandle(s, h).limit == s.limit && R.ResetHandle(s, h).scopes == s.scopes
  {
    FewerEntries(s.counts, R.ResetHandle(s, h).counts);
  }

  lemma NewTableOk(s: R.State, h: R.HandleId, at: R.Addr, content: seq<byte>)
    requires TableOk(s) && !R.Full(s, at)
    ensures TableOk(R.NewBlock(s, h, at, content))
  {
    OneMoreEntry(s.counts, at, R.NewBlock(s, h, at, content).counts[at]);
  }

  /** At most one new entry, and only where there is room. */
  ghost predicate OneEntered(s: R.State, s': R.State, a: R.Addr) {
    && s'.limit == s.limit && s'.scopes == s.scopes
    && s'.counts.Keys <= s.counts.Keys + {a} && (R.NULL in s.counts ==> R.NULL in s'.counts)
    && (a in s'.counts && a !in s.counts ==> |s.counts| < s.limit)
  }

  lemma EnteredTableOk(s: R.State, s': R.State, a: R.Addr)
    requires TableOk(s) && OneEntered(s, s', a)
    ensures TableOk(s')
  {
    OneMoreEntry(s.counts, a, 0);
    FewerEntries(if a in s'.counts then s.counts[a := 0] else s.counts, s'.counts);
  }

  lemma AppendEntersOne(s: R.State, h: R.HandleId, data: seq<byte>, at: R.Addr)
    requires R.Possible(s, R.Append(h, data, at))
    ensures OneEntered(s, R.Step(s, R.Append(h, data, at)), at)
  {
    if R.Shared(s, h) {
      CopyEntersOne(s, h, data, at);
    } else {
      GrowthEntersOne(s, h, data, at);
    }
    hide OneEntered, R.AppendCopy, R.AppendInPlace;
    assert OneEntered(s, s, at) by { SameEntersOne(s, at); }
  }

  lemma SameEntersOne(s: R.State, at: R.Addr)
    ensures OneEntered(s, s, at)
  {
  }

  lemma CopyEntersOne(s: R.State, h: R.HandleId, data: seq<byte>, at: R.Addr)
    requires h in s.handles && R.Shared(s, h)
    ensures OneEntered(s, R.AppendCopy(s, h, data, at), at)
  {
  }

  lemma MovedEntryKeys(s: R.State, from: R.Addr, at: R.Addr)
    ensures R.MovedEntry(s, from, at).Keys <= s.counts.Keys + {at}
    ensures from != R.NULL && R.NULL in s.counts ==> R.NULL in R.MovedEntry(s, from, at)
    ensures at in R.MovedEntry(s, from, at) && at !in s.counts ==> |s.counts| < s.limit
  {
  }

  lemma GrowthEntersOne(s: R.State, h: R.HandleId, data: seq<byte>, at: R.Addr)
    requires h in s.handles
    ensures OneEntered(s, R.AppendInPlace(s, h, data, at), at)
  {
    hide R.MovedEntry, R.Readable;
    MovedEntryKeys(s, s.handles[h].addr, at);
  }

  lemma AppendTableOk(s: R.State, h: R.HandleId, data: seq<byte>, at: R.Addr)
    requires TableOk(s) && R.Possible(s, R.Append(h, data, at))
    ensures TableOk(R.Step(s, R.Append(h, data, at))) && R.Step(s, R.Append(h, data, at)).limit == s.limit
  {
    hide Fits, R.Step;
    AppendEntersOne(s, h, data, at);
    EnteredTableOk(s, R.Step(s, R.Append(h, data, at)), at);
  }

  lemma OpenTableOk(s: R.State)
    requires TableOk(s)
    ensures TableOk(R.Entered(s))
  {
    OneMoreEntry(s.counts, R.NULL, R.Initial(s) + 1);
  }

  lemma CloseTableOk(s: R.State)
    requires TableOk(s) && s.scopes != []
    ensures TableOk(R.Left(s)) && R.Left(s).limit == s.limit
  {
    FewerEntries(s.counts, R.Left(s).counts);
  }

  lemma ShareTableOk(s: R.State, h: R.HandleId, handle: R.Handle)
    requires TableOk(s) && handle.addr in s.counts
    ensures TableOk(R.Share(s, h, handle))
  {
    OneMoreEntry(s.counts, handle.addr, s.counts[handle.addr] + 1);
  }

  lemma StepTableOk(s: R.State, op: R.Op)
    requires TableOk(s) && R.Possible(s, op)
    ensures TableOk(R.Step(s, op)) && R.Step(s, op).limit == s.limit
  {
    hide Fits, R.Release, R.Left, R.AppendCopy, R.AppendInPlace;
    match op {
      case Allocate(h, at, content) =>
        if !R.Full(s, at) {
          NewTableOk(s, h, at, content);
        }
      case FromBuffer(h, at, source) =>
        if source.Some? && !R.Full(s, at) {
          NewTableOk(s, h, at, source.value);
        }
      case FromAddress(h, a) =>
        if a in s.counts {
          ShareTableOk(s, h, R.Handle(a, 0));
        }
      case Copy(h, other) =>
        if s.handles[other].addr in s.counts {
          ShareTableOk(s, h, s.handles[other]);
        }
      case Assign(h, other) =>
        var s1 := R.ResetHandle(s, h);
        ResetTableOk(s, h);
        if s.handles[other].addr in s1.counts {
          ShareTableOk(s1, h, s.handles[other]);
        }
      case AssignBuffer(h, at, source) =>
        var s1 := R.ResetHandle(s, h);
        ResetTableOk(s, h);
        if source.Some? && !R.Full(s1, at) {
          NewTableOk(s1, h, at, source.value);
        }
      case Append(h, data, at) => AppendTableOk(s, h, data, at);
      case Reset(h) => ResetTableOk(s, h);
      case Destroy(h) => ResetTableOk(s, h);
      case Open => OpenTableOk(s);
      case Close => CloseTableOk(s);
      case _ =>
    }
  }

  /** No run of any operations, disciplined or not, overfills the table. */
  lemma {:induction false} RunTableOk(states: seq<R.State>, ops: seq<R.Op>, n: nat)
    requires R.IsRun(states, ops) && n < |states|
    ensures TableOk(states[n]) && states[n].limit == states[0].limit
  {
    if n > 0 {
      hide R.Step, R.Possible, TableOk;
      RunTableOk(states, ops, n - 1);
      assert R.Possible(states[n - 1], ops[n - 1]);
      StepTableOk(states[n - 1], ops[n - 1]);
    }
  }
}

/** The operations on reference-counted buffers that branch or loop, written as the library runs them
    on the shared table and the heap, and proved to be steps of the model. */
module ReferenceRuntime {
  import opened Wrappers
  import opened ReferenceBuffer

  /** Sweeping one entry more is releasing it. */
  lemma SweptOneMore(s: State, done: set<Addr>, a: Addr)
    requires done <= s.counts.Keys && a in s.counts && a !in done
    ensures a in Swept(s, done).counts
    ensures Swept(s, done + {a}) == Release(Swept(s, done), a)
  {
    var before, after := Swept(s, done), Swept(s, done + {a});
    var released := Release(before, a);
    assert after.counts == released.counts;
    assert after.heap == released.heap;
  }

  class Runtime {
    var heap: map<Addr, seq<byte>>
    var counts: map<Addr, int>
    var handles: map<HandleId, Handle>
    var scopes: seq<Scope>
    const limit: nat
    var fault: bool

    function Now(): State
      reads this
    {
      State(heap, counts, handles, scopes, limit, fault)
    }

    constructor (limit: nat)
      ensures Now() == Start(limit)
    {
      this.limit := limit;
      heap, counts, handles, scopes, fault := map[], map[], map[], [], false;
    }

    method FreeBlock(a: Addr)
      modifies this`heap, this`fault
      ensures Now() == Free(old(Now()), a)
    {
      if a in heap {
        heap := heap - {a};
      } else {
        fault := true;
      }
    }

    /** Decrement the table entry and answer its new value. */
    method Decrement(a: Addr) returns (updated: int)
      requires a in counts
      modifies this`counts
      ensures counts == old(counts)[a := old(counts)[a] - 1] && updated == counts[a]
    {
      counts := counts[a := counts[a] - 1];
      updated := counts[a];
    }

    /** Enter a count into the table, which throws if there is no room for a new entry. */
    method InsertCount(a: Addr, count: int) returns (threw: bool)
      modifies this`counts
      ensures threw <==> Full(old(Now()), a)
      ensures counts == if threw then old(counts) else old(counts)[a := count]
    {
      threw := a !in counts && |counts| >= limit;
      if !threw {
        counts := counts[a := count];
      }
    }

    method ReleaseBlock(a: Addr)
      requires a in counts
      modifies this`counts, this`heap, this`fault
      ensures Now() == Release(old(Now()), a)
    {
      var updated := Decrement(a);
      if updated == 0 {
        counts := counts - {a};
        FreeBlock(a);
      }
      assert counts == Release(old(Now()), a).counts;
    }

    method ResetBuffer(h: HandleId)
      requires h in handles
      modifies this
      ensures Now() == Step(old(Now()), Reset(h))
    {
      var a := handles[h].addr;
      if a != NULL && a in counts {
        ReleaseBlock(a);
      }
      handles := handles[h := UNSET];
    }

    method AssignFrom(h: HandleId, other: HandleId) returns (threw: bool)
      requires h in handles && other in handles
      modifies this
      ensures Now() == Step(old(Now()), Assign(h, other))
      ensures threw <==> h != other && old(handles)[other].addr == NULL
    {
      hide Release;
      threw := false;
      if h != other {
        var source := handles[other];
        if source.addr == NULL {
          threw := true;
          return;
        }
        ResetBuffer(h);
        handles := handles[h := source];
        if source.addr in counts {
          counts := counts[source.addr := counts[source.addr] + 1];
        }
        assert handles == Step(old(Now()), Assign(h, other)).handles;
      }
    }

    method AppendBytes(h: HandleId, data: seq<byte>, at: Addr) returns (threw: bool)
      requires Possible(Now(), Append(h, data, at))
      modifies this
      ensures Now() == Step(old(Now()), Append(h, data, at))
      ensures var s, handle := old(Now()), old(handles)[h];
              threw <==> || AppendThrows(s, h)
                         || (at != handle.addr && Full(s, at) && (handle.addr == NULL || Readable(s, handle)))
    {
      var handle := handles[h];
      threw := handle.size == 0 && handle.addr != NULL;
      if threw {
        return;
      }
      if handle.addr != NULL && !(handle.addr in heap && handle.size <= |heap[handle.addr]|) {
        fault := true;
        return;
      }
      var content := if handle.addr == NULL then data else heap[handle.addr][..handle.size] + data;
      if handle.addr != NULL && handle.addr in counts && counts[handle.addr] > 1 {
        ReleaseBlock(handle.addr);
        heap := heap[at := content];
        handles := handles[h := Handle(at, |content|)];
        threw := InsertCount(at, if NULL in counts then counts[NULL] else 1);
      } else {
        var initial := if NULL in counts then counts[NULL] else 1;
        var oldCount := if handle.addr in counts then counts[handle.addr] else initial;
        if handle.addr != NULL {
          heap := heap - {handle.addr};
        }
        heap := heap[at := content];
        handles := handles[h := Handle(at, |content|)];
        if at != handle.addr {
          if handle.addr != NULL {
            threw := InsertCount(at, oldCount);
            if threw {
              return;
            }
            counts := counts - {handle.addr};
          } else {
            threw := InsertCount(at, initial);
          }
        }
      }
    }

    /** Throws, with the scope not opened, if the table has no room for the null entry. */
    method OpenScope() returns (threw: bool)
      modifies this
      ensures Now() == Step(old(Now()), Open)
      ensures threw <==> Full(old(Now()), NULL)
    {
      var initial := if NULL in counts then counts[NULL] else 1;
      var oldEntries := counts.Keys;
      threw := InsertCount(NULL, initial + 1);
      if !threw {
        scopes := scopes + [Scope(oldEntries, initial)];
      }
    }

    /** The loop over the entries that are new since the scope opened. */
    method SweepEntries(entries: set<Addr>)
      requires entries <= counts.Keys
      modifies this`counts, this`heap, this`fault
      ensures Now() == Swept(old(Now()), entries)
    {
      ghost var s := Now();
      var rest := entries;
      assert entries - rest == {} && Swept(s, {}) == s;
      while rest != {}
        invariant rest <= entries
        invariant Now() == Swept(s, entries - rest)
        decreases rest
      {
        hide Swept, Release;
        var a :| a in rest;
        SweptOneMore(s, entries - rest, a);
        ReleaseBlock(a);
        assert entries - (rest - {a}) == (entries - rest) + {a};
        rest := rest - {a};
      }
      assert entries - {} == entries;
    }

    method CloseScope()
      requires scopes != []
      modifies this
      ensures Now() == Step(old(Now()), Close)
    {
      var top := scopes[|scopes| - 1];
      SweepEntries(set a | a in counts && a != NULL && a !in top.known);
      counts := counts[NULL := top.initial];
      scopes := scopes[..|scopes| - 1];
    }
  }
}

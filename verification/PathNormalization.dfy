/** Path normalization on the components that iterating a path yields: "/" first for an absolute
    path, and "" last for a path that ends with a separator. */
module PathNormalization {

  const ROOT := "/"
  const PARENT := ".."

  /** Components that the scan passes over. */
  predicate Skipped(c: string) {
    c == ROOT || c == "\\" || c == ""
  }

  function Names(p: seq<string>): seq<string>
  {
    if p == [] then []
    else Names(p[..|p| - 1]) + (if Skipped(p[|p| - 1]) then [] else [p[|p| - 1]])
  }

  /** operator/ with a name on the left: an empty right side leaves a trailing separator. */
  function Under(c: string, below: seq<string>): seq<string> {
    if below == [] then [c, ""] else [c] + below
  }

  /** The path made of the given names, ending with a separator. */
  function Directory(names: seq<string>): seq<string> {
    if names == [] then [] else names + [""]
  }

  function WithRoot(absolute: bool, path: seq<string>): seq<string> {
    if absolute then [ROOT] + path else path
  }

  /** Resolution from left to right with a stack; ".." at the bottom is ignored. */
  function Resolve(names: seq<string>): seq<string>
  {
    if names == [] then []
    else
      var stack, c := Resolve(names[..|names| - 1]), names[|names| - 1];
      if c != PARENT then stack + [c]
      else if stack == [] then []
      else stack[..|stack| - 1]
  }

  function Normalized(p: seq<string>): seq<string>
    requires p != []
  {
    WithRoot(p[0] == ROOT, Directory(Resolve(Names(p))))
  }

  function Dropped(stack: seq<string>, k: nat): seq<string> {
    if k >= |stack| then [] else stack[..|stack| - k]
  }

  lemma NamesPrefix(p: seq<string>, it: nat)
    requires it < |p|
    ensures Names(p[..it + 1]) == Names(p[..it]) + (if Skipped(p[it]) then [] else [p[it]])
  {
    assert p[..it + 1][..it] == p[..it];
  }

  /** One step of the backward scan over the name c, with k parents pending: the names kept from the
      front are what the stack holds after dropping the pending ones. */
  lemma ScanStep(front: seq<string>, c: string, k: nat)
    ensures var stack := Resolve(front + [c]);
            && (c == PARENT ==> Dropped(stack, k) == Dropped(Resolve(front), k + 1))
            && (c != PARENT && k > 0 ==> Dropped(stack, k) == Dropped(Resolve(front), k - 1))
            && (c != PARENT && k == 0 ==> Dropped(stack, k) == Dropped(Resolve(front), k) + [c])
  {
    assert (front + [c])[..|front|] == front;
  }

  /** What the backward scan has established when the components from `it` on are done. */
  ghost predicate Scanned(p: seq<string>, it: nat, pending: nat, result: seq<string>)
    requires it <= |p|
  {
    exists kept :: result == Directory(kept) && Dropped(Resolve(Names(p[..it])), pending) + kept == Resolve(Names(p))
  }

  lemma ScanStarts(p: seq<string>)
    ensures Scanned(p, |p|, 0, [])
  {
    var stack := Resolve(Names(p));
    assert p[..|p|] == p && Dropped(stack, 0) + [] == stack;
    assert [] == Directory([]);
  }

  lemma ScanEnds(p: seq<string>, pending: nat, result: seq<string>)
    requires Scanned(p, 0, pending, result)
    ensures result == Directory(Resolve(Names(p)))
  {
    var kept :| result == Directory(kept) && Dropped(Resolve(Names(p[..0])), pending) + kept == Resolve(Names(p));
    assert [] + kept == kept;
  }

  lemma ScanPasses(p: seq<string>, it: nat, pending: nat, result: seq<string>)
    requires it < |p| && Skipped(p[it]) && Scanned(p, it + 1, pending, result)
    ensures Scanned(p, it, pending, result)
  {
    NamesPrefix(p, it);
    assert Names(p[..it]) + [] == Names(p[..it]);
  }

  lemma KeptOneMore(c: string, stack: seq<string>, kept: seq<string>)
    ensures (stack + [c]) + kept == stack + ([c] + kept)
    ensures Under(c, Directory(kept)) == Directory([c] + kept)
  {
  }

  lemma ScanCounts(p: seq<string>, it: nat, pending: nat, result: seq<string>)
    requires it < |p| && !Skipped(p[it]) && Scanned(p, it + 1, pending, result)
    ensures p[it] == PARENT ==> Scanned(p, it, pending + 1, result)
    ensures p[it] != PARENT && pending > 0 ==> Scanned(p, it, pending - 1, result)
    ensures p[it] != PARENT && pending == 0 ==> Scanned(p, it, 0, Under(p[it], result))
  {
    hide Resolve, Names, Dropped, Directory;
    var front := Names(p[..it]);
    NamesPrefix(p, it);
    ScanStep(front, p[it], pending);
    var kept :| result == Directory(kept) && Dropped(Resolve(front + [p[it]]), pending) + kept == Resolve(Names(p));
    KeptOneMore(p[it], Dropped(Resolve(front), 0), kept);
  }

  /** The scan from right to left with a counter of pending parents computes the same path as the
      resolution from left to right. */
  method Normalize(p: seq<string>) returns (result: seq<string>)
    requires p != []
    ensures result == Normalized(p)
  {
    hide Scanned, Resolve, Names;
    result := [];
    var numParent: nat := 0;
    var it := |p|;
    ScanStarts(p);
    while it != 0
      invariant 0 <= it <= |p|
      invariant Scanned(p, it, numParent, result)
    {
      it := it - 1;
      if !Skipped(p[it]) {
        ScanCounts(p, it, numParent, result);
        if p[it] == PARENT {
          numParent := numParent + 1;
        } else if numParent > 0 {
          numParent := numParent - 1;
        } else {
          result := Under(p[it], result);
        }
      } else {
        ScanPasses(p, it, numParent, result);
      }
    }
    ScanEnds(p, numParent, result);
    if p[0] == ROOT {
      result := [ROOT] + result;
    }
  }

  // ---------- what the result is like ----------

  lemma {:induction false} NamesAreNotSkipped(p: seq<string>)
    ensures forall k :: 0 <= k < |Names(p)| ==> !Skipped(Names(p)[k])
  {
    if p != [] {
      NamesAreNotSkipped(p[..|p| - 1]);
    }
  }

  /** Resolved names are names of the path, and none of them is "..". */
  lemma {:induction false} ResolvedNames(names: seq<string>)
    requires forall k :: 0 <= k < |names| ==> !Skipped(names[k])
    ensures forall k :: 0 <= k < |Resolve(names)| ==> Resolve(names)[k] != PARENT && !Skipped(Resolve(names)[k])
  {
    if names != [] {
      ResolvedNames(names[..|names| - 1]);
    }
  }

  lemma {:induction false} ResolveFixed(names: seq<string>)
    requires PARENT !in names
    ensures Resolve(names) == names
  {
    if names != [] {
      var n := |names| - 1;
      ResolveFixed(names[..n]);
      assert names == names[..n] + [names[n]];
    }
  }

  lemma {:induction false} NamesOfNames(names: seq<string>)
    requires forall k :: 0 <= k < |names| ==> !Skipped(names[k])
    ensures Names(names) == names
  {
    hide Skipped;
    if names != [] {
      var n := |names| - 1;
      NamesOfNames(names[..n]);
      assert names == names[..n] + [names[n]];
    }
  }

  lemma {:induction false} NamesJoin(a: seq<string>, b: seq<string>)
    ensures Names(a + b) == Names(a) + Names(b)
  {
    if b == [] {
      assert a + b == a;
    } else {
      var n := |b| - 1;
      assert (a + b)[..|a + b| - 1] == a + b[..n];
      NamesJoin(a, b[..n]);
    }
  }

  lemma NamesOfResult(absolute: bool, names: seq<string>)
    requires forall k :: 0 <= k < |names| ==> !Skipped(names[k])
    ensures Names(WithRoot(absolute, Directory(names))) == names
  {
    NamesOfNames(names);
    NamesJoin(names, [""]);
    assert Names([""]) == [] && Names([ROOT]) == [];
    NamesJoin([ROOT], Directory(names));
  }

  /** No ".." is left, and an absolute path stays absolute. */
  lemma NormalizedHasNoParents(p: seq<string>)
    requires p != []
    ensures PARENT !in Normalized(p)
    ensures p[0] == ROOT <==> Normalized(p) != [] && Normalized(p)[0] == ROOT
  {
    NamesAreNotSkipped(p);
    ResolvedNames(Names(p));
    var names := Resolve(Names(p));
    assert names != [] ==> !Skipped(names[0]);
    assert PARENT !in names;
  }

  predicate Proper(c: string) {
    c != "/" && c != "\\" && c != ""
  }

  /** The names are the components at the given positions, which are in ascending order and are exactly
      those of the components other than "/", "\\" and the empty one. */
  ghost predicate Picks(p: seq<string>, names: seq<string>, at: seq<nat>) {
    && |at| == |names|
    && (forall k :: 0 <= k < |at| ==> at[k] < |p| && p[at[k]] == names[k])
    && (forall k, l :: 0 <= k < l < |at| ==> at[k] < at[l])
    && (forall i :: 0 <= i < |p| ==> (i in at <==> Proper(p[i])))
  }

  lemma PicksMore(front: seq<string>, c: string, names: seq<string>, at: seq<nat>)
    requires Picks(front, names, at)
    ensures if Proper(c) then Picks(front + [c], names + [c], at + [|front|]) else Picks(front + [c], names, at)
  {
    hide Proper;
    assert |front| !in at;
  }

  lemma {:induction false} NamesArePicked(p: seq<string>) returns (at: seq<nat>)
    ensures Picks(p, Names(p), at)
  {
    at := [];
    if p != [] {
      var n := |p| - 1;
      at := NamesArePicked(p[..n]);
      PicksMore(p[..n], p[n], Names(p[..n]), at);
      assert p[..n] + [p[n]] == p;
      hide Picks;
      assert Names(p[..n]) + [] == Names(p[..n]);
      at := if Proper(p[n]) then at + [n] else at;
    }
  }

  /** For a path without "..", the result is its components other than "/", "\\" and empty ones, in order,
      between the root, if the path has one, and a trailing separator. */
  lemma PlainPathKeepsComponents(p: seq<string>) returns (names: seq<string>, at: seq<nat>)
    requires p != [] && PARENT !in p
    ensures Picks(p, names, at)
    ensures Normalized(p) == (if p[0] == "/" then ["/"] else []) + (if names == [] then [] else names + [""])
  {
    hide Picks;
    names := Names(p);
    at := NamesArePicked(p);
    NamesWithin(p);
    ResolveFixed(names);
  }

  lemma {:induction false} NamesWithin(p: seq<string>)
    ensures forall c :: c in Names(p) ==> c in p
  {
    if p != [] {
      NamesWithin(p[..|p| - 1]);
    }
  }

  /** What follows is resolved against what has been resolved so far. */
  lemma {:induction false} ResolveAfter(a: seq<string>, b: seq<string>, back: seq<string>)
    requires Resolve(a) == Resolve(b)
    ensures Resolve(a + back) == Resolve(b + back)
  {
    if back == [] {
      assert a + back == a && b + back == b;
    } else {
      var n := |back| - 1;
      ResolveAfter(a, b, back[..n]);
      assert (a + back)[..|a + back| - 1] == a + back[..n] && (b + back)[..|b + back| - 1] == b + back[..n];
    }
  }

  /** Anywhere in a path, a name followed by ".." can be left out. */
  lemma ParentCancels(front: seq<string>, name: string, back: seq<string>)
    requires front != [] && !Skipped(name) && name != PARENT
    ensures Normalized(front + [name, PARENT] + back) == Normalized(front + back)
  {
    hide Names, Resolve, Skipped;
    var names := Names(front);
    assert [name, PARENT][0] == name && !Skipped([name, PARENT][1]) by { ParentIsAName(); }
    NamesOfNames([name, PARENT]);
    NamesJoin(front, [name, PARENT]);
    NamesJoin(front + [name, PARENT], back);
    NamesJoin(front, back);
    ResolveBack(names, name);
    ResolveAfter(names + [name, PARENT], names, Names(back));
  }

  lemma ParentIsAName()
    ensures !Skipped(PARENT)
  {
  }

  lemma ResolveBack(names: seq<string>, name: string)
    requires name != PARENT
    ensures Resolve(names + [name, PARENT]) == Resolve(names)
  {
    assert (names + [name, PARENT])[..|names| + 1] == names + [name] && (names + [name])[..|names|] == names;
  }

  /** At the root, ".." can be left out. */
  lemma ParentAtRoot(back: seq<string>)
    ensures Normalized([ROOT, PARENT] + back) == Normalized([ROOT] + back)
  {
    assert Names([ROOT]) == [] && [ROOT, PARENT][..1] == [ROOT];
    assert Names([ROOT, PARENT]) == [PARENT];
    NamesJoin([ROOT, PARENT], back);
    NamesJoin([ROOT], back);
    assert [PARENT][..0] == [] && Resolve([PARENT]) == Resolve([]);
    ResolveAfter([PARENT], [], Names(back));
  }

  /** Normalizing again changes nothing. */
  lemma NormalizeIsIdempotent(p: seq<string>)
    requires p != [] && Normalized(p) != []
    ensures Normalized(Normalized(p)) == Normalized(p)
  {
    NamesAreNotSkipped(p);
    ResolvedNames(Names(p));
    var names := Resolve(Names(p));
    NormalizedHasNoParents(p);
    NamesOfResult(p[0] == ROOT, names);
    assert PARENT !in names;
    ResolveFixed(names);
  }
}

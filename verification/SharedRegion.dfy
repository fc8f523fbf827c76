/** A map kept in a byte region of fixed size: every operation decodes the region, edits the decoded
    map and writes the encoding back over the front of the region. */
module SharedRegion {
  import opened Wrappers
  import opened OrderedMap
  import opened Codecs

  datatype Layout<!K, !V> = Layout(keys: Codec<K>, values: Codec<V>, less: Less<K>)

  ghost predicate LayoutOk<K(!new), V(!new)>(l: Layout<K, V>)
  {
    && Lawful(l.keys) && Lawful(l.values) && StrictOrder(l.less)
    && forall k {:trigger l.keys.encode(k)} :: l.keys.encode(k) != []
  }

  datatype Edit<!K, !V> =
    | Insertion(key: K, value: V)
    | Erasure(key: K)
    | Update(key: K, updater: V -> V)
    | UpdateOrInsert(key: K, updater: V -> V, default: V)
    | Clearing
    | Assignment(list: seq<(K, V)>)

  ghost predicate EditOk<K, V(!new)>(l: Layout<K, V>, e: Edit<K, V>)
  {
    match e
    case Insertion(k, v) => EntryOk(l.keys, l.values, (k, v))
    case Erasure(_) => true
    case Update(k, f) => l.keys.ok(k) && KeepsOk(l.values, f)
    case UpdateOrInsert(k, f, v) => EntryOk(l.keys, l.values, (k, v)) && KeepsOk(l.values, f)
    case Clearing => true
    case Assignment(list) => forall i :: 0 <= i < |list| ==> EntryOk(l.keys, l.values, list[i])
  }

  ghost predicate KeepsOk<V(!new)>(values: Codec<V>, f: V -> V) {
    forall v {:trigger f(v)} :: values.ok(v) ==> values.ok(f(v))
  }

  function PutAll<K, V>(less: Less<K>, m: seq<(K, V)>, list: seq<(K, V)>): seq<(K, V)>
    decreases |list|
  {
    if list == [] then m else PutAll(less, Put(less, m, list[0].0, list[0].1), list[1..])
  }

  /** The edit on the decoded map; update throws if the key is missing. */
  function Edited<K, V>(less: Less<K>, m: seq<(K, V)>, e: Edit<K, V>): Option<seq<(K, V)>>
  {
    match e
    case Insertion(k, v) => Some(Put(less, m, k, v))
    case Erasure(k) => Some(Remove(less, m, k))
    case Update(k, f) =>
      var v := Find(less, m, k);
      if v.None? then None else Some(Put(less, m, k, f(v.value)))
    case UpdateOrInsert(k, f, default) =>
      var v := Find(less, m, k);
      Some(Put(less, m, k, if v.None? then default else f(v.value)))
    case Clearing => Some([])
    case Assignment(list) => Some(PutAll(less, [], list))
  }

  datatype Outcome = Done | NoRoom | NoKey | Unreadable

  function Load<K, V>(l: Layout<K, V>, region: seq<byte>): Option<seq<(K, V)>>
  {
    var r := DecodeMap(l.keys, l.values, l.less, region);
    if r.None? then None else Some(r.value.0)
  }

  function Overwrite(region: seq<byte>, content: seq<byte>): seq<byte>
    requires |content| <= |region|
  {
    content + region[|content|..]
  }

  function Perform<K, V>(l: Layout<K, V>, region: seq<byte>, e: Edit<K, V>): (seq<byte>, Outcome)
  {
    var m := if e.Clearing? || e.Assignment? then Some([]) else Load(l, region);
    if m.None? then (region, Unreadable)
    else
      var m' := Edited(l.less, m.value, e);
      if m'.None? then (region, NoKey)
      else
        var content := EncodeMap(l.keys, l.values, m'.value);
        if |content| > |region| then (region, NoRoom) else (Overwrite(region, content), Done)
  }

  /** The region starts with the encoding of m; what follows does not matter. */
  ghost predicate Represents<K, V>(l: Layout<K, V>, region: seq<byte>, m: seq<(K, V)>)
  {
    && |region| < SIZE_LIMIT
    && MapOk(l.keys, l.values, l.less, m)
    && EncodeMap(l.keys, l.values, m) <= region
  }

  lemma LoadsWhatItRepresents<K(!new), V(!new)>(l: Layout<K, V>, region: seq<byte>, m: seq<(K, V)>)
    requires LayoutOk(l) && Represents(l, region, m)
    ensures Load(l, region) == Some(m)
  {
    var content := EncodeMap(l.keys, l.values, m);
    assert region == content + region[|content|..];
    MapRoundTrip(l.keys, l.values, l.less, m, region[|content|..]);
  }

  /** A region of zeros, long enough for a count, is the empty map. */
  lemma ZerosAreEmpty<K(!new), V(!new)>(l: Layout<K, V>, region: seq<byte>)
    requires LayoutOk(l) && 8 <= |region| < SIZE_LIMIT && forall i :: 0 <= i < |region| ==> region[i] == 0
    ensures Represents(l, region, [])
  {
    ZeroWord(8);
    var content := EncodeMap(l.keys, l.values, []);
    assert content == Word(0, 8);
    assert content <= region;
  }

  // ---------- edits keep maps well formed ----------

  ghost predicate EntriesOk<K, V>(l: Layout<K, V>, m: seq<(K, V)>) {
    Sorted(l.less, m) && forall i :: 0 <= i < |m| ==> EntryOk(l.keys, l.values, m[i])
  }

  lemma {:induction false} PutKeepsOk<K(!new), V>(l: Layout<K, V>, m: seq<(K, V)>, key: K, value: V)
    requires StrictOrder(l.less) && EntriesOk(l, m) && EntryOk(l.keys, l.values, (key, value))
    ensures EntriesOk(l, Put(l.less, m, key, value))
  {
    PutIsSorted(l.less, m, key, value);
    if m != [] && !l.less(key, m[0].0) && l.less(m[0].0, key) {
      PutKeepsOk(l, m[1..], key, value);
    }
  }

  lemma {:induction false} PutAllKeepsOk<K(!new), V>(l: Layout<K, V>, m: seq<(K, V)>, list: seq<(K, V)>)
    requires StrictOrder(l.less) && EntriesOk(l, m)
    requires forall i :: 0 <= i < |list| ==> EntryOk(l.keys, l.values, list[i])
    ensures EntriesOk(l, PutAll(l.less, m, list))
    decreases |list|
  {
    if list != [] {
      PutKeepsOk(l, m, list[0].0, list[0].1);
      PutAllKeepsOk(l, Put(l.less, m, list[0].0, list[0].1), list[1..]);
    }
  }

  lemma {:induction false} FindIsOk<K(!new), V>(l: Layout<K, V>, m: seq<(K, V)>, key: K)
    requires StrictOrder(l.less) && EntriesOk(l, m) && Find(l.less, m, key).Some?
    ensures l.values.ok(Find(l.less, m, key).value)
  {
    assert EntryOk(l.keys, l.values, m[0]);
    if l.less(m[0].0, key) {
      FindIsOk(l, m[1..], key);
    }
  }

  lemma EditedKeepsOk<K(!new), V(!new)>(l: Layout<K, V>, m: seq<(K, V)>, e: Edit<K, V>)
    requires StrictOrder(l.less) && EntriesOk(l, m) && EditOk(l, e) && Edited(l.less, m, e).Some?
    ensures EntriesOk(l, Edited(l.less, m, e).value)
  {
    match e {
      case Insertion(k, v) => PutKeepsOk(l, m, k, v);
      case Erasure(k) => RemoveIsSorted(l.less, m, k);
      case Update(k, f) =>
        FindIsOk(l, m, k);
        PutKeepsOk(l, m, k, f(Find(l.less, m, k).value));
      case UpdateOrInsert(k, f, default) =>
        var v := Find(l.less, m, k);
        if v.Some? {
          FindIsOk(l, m, k);
        }
        PutKeepsOk(l, m, k, if v.None? then default else f(v.value));
      case Clearing =>
      case Assignment(list) => PutAllKeepsOk(l, [], list);
    }
  }

  lemma {:induction false} EncodingIsLongerThanMap<K(!new), V>(l: Layout<K, V>, m: seq<(K, V)>)
    requires forall k {:trigger l.keys.encode(k)} :: l.keys.encode(k) != []
    ensures |EncodeEntries(l.keys, l.values, m)| >= |m|
  {
    if m != [] {
      EncodingIsLongerThanMap(l, m[1..]);
    }
  }

  // ---------- refinement ----------

  /** What a plain ordered map with the same capacity does. */
  function PlainStep<K, V>(l: Layout<K, V>, capacity: nat, m: seq<(K, V)>, e: Edit<K, V>): (seq<(K, V)>, Outcome)
  {
    var m' := Edited(l.less, m, e);
    if m'.None? then (m, NoKey)
    else if |EncodeMap(l.keys, l.values, m'.value)| > capacity then (m, NoRoom)
    else (m'.value, Done)
  }

  /** One operation on the region is one operation on the plain map: same outcome, and the region
      represents the new map whatever stale bytes it holds; it is unchanged unless the outcome is
      Done, and the bytes behind the new encoding always are. */
  lemma PerformRefines<K(!new), V(!new)>(l: Layout<K, V>, region: seq<byte>, m: seq<(K, V)>, e: Edit<K, V>)
    requires LayoutOk(l) && Represents(l, region, m) && EditOk(l, e)
    ensures var (region', outcome) := Perform(l, region, e);
            var (m', plainOutcome) := PlainStep(l, |region|, m, e);
            && outcome == plainOutcome
            && |region'| == |region|
            && Represents(l, region', m')
            && (outcome != Done ==> region' == region && m' == m)
            && (outcome == Done ==>
                  var content := EncodeMap(l.keys, l.values, m');
                  |content| <= |region| && region' == content + region[|content|..])
  {
    LoadsWhatItRepresents(l, region, m);
    var before := if e.Clearing? || e.Assignment? then [] else m;
    assert Edited(l.less, before, e) == Edited(l.less, m, e);
    var r := Edited(l.less, m, e);
    if r.Some? {
      EditedKeepsOk(l, m, e);
      EncodingIsLongerThanMap(l, r.value);
    }
  }

  function RegionRun<K, V>(l: Layout<K, V>, region: seq<byte>, edits: seq<Edit<K, V>>): seq<byte>
    decreases |edits|
  {
    if edits == [] then region else RegionRun(l, Perform(l, region, edits[0]).0, edits[1..])
  }

  function PlainRun<K, V>(l: Layout<K, V>, capacity: nat, m: seq<(K, V)>, edits: seq<Edit<K, V>>): seq<(K, V)>
    decreases |edits|
  {
    if edits == [] then m else PlainRun(l, capacity, PlainStep(l, capacity, m, edits[0]).0, edits[1..])
  }

  lemma {:induction false} RunRepresents<K(!new), V(!new)>(l: Layout<K, V>, region: seq<byte>, m: seq<(K, V)>,
                                                          edits: seq<Edit<K, V>>)
    requires LayoutOk(l) && Represents(l, region, m) && forall i :: 0 <= i < |edits| ==> EditOk(l, edits[i])
    ensures Represents(l, RegionRun(l, region, edits), PlainRun(l, |region|, m, edits))
    decreases |edits|
  {
    if edits != [] {
      PerformRefines(l, region, m, edits[0]);
      RunRepresents(l, Perform(l, region, edits[0]).0, PlainStep(l, |region|, m, edits[0]).0, edits[1..]);
    }
  }

  /** The shared map refines the plain map: from a region of zeros, after any operations, the region
      decodes to what the plain map of the same capacity holds. */
  lemma SharedMapRefinesPlainMap<K(!new), V(!new)>(l: Layout<K, V>, region: seq<byte>, edits: seq<Edit<K, V>>)
    requires LayoutOk(l) && 8 <= |region| < SIZE_LIMIT && forall i :: 0 <= i < |region| ==> region[i] == 0
    requires forall i :: 0 <= i < |edits| ==> EditOk(l, edits[i])
    ensures Load(l, RegionRun(l, region, edits)) == Some(PlainRun(l, |region|, [], edits))
  {
    ZerosAreEmpty(l, region);
    RunRepresents(l, region, [], edits);
    LoadsWhatItRepresents(l, RegionRun(l, region, edits), PlainRun(l, |region|, [], edits));
  }
}

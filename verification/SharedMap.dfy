/** The interprocess map: its meaning as a mathematical map, the exact capacity of fixed-width
    entries, and the class whose methods rewrite the region in place. */
module SharedMap {
  import opened Wrappers
  import opened OrderedMap
  import opened Codecs
  import opened SharedRegion
  import opened Serialization

  // ---------- meaning ----------

  function MapAssigned<K, V>(m: map<K, V>, list: seq<(K, V)>): map<K, V>
    decreases |list|
  {
    if list == [] then m else MapAssigned(m[list[0].0 := list[0].1], list[1..])
  }

  /** The edits on a mathematical map. */
  function MapEdited<K, V>(m: map<K, V>, e: Edit<K, V>): Option<map<K, V>>
  {
    match e
    case Insertion(k, v) => Some(m[k := v])
    case Erasure(k) => Some(m - {k})
    case Update(k, f) => if k in m then Some(m[k := f(m[k])]) else None
    case UpdateOrInsert(k, f, default) => Some(m[k := if k in m then f(m[k]) else default])
    case Clearing => Some(map[])
    case Assignment(list) => Some(MapAssigned(map[], list))
  }

  /** An edit of one key leaves the others alone, and makes of the value under its key what it says. */
  lemma EditsOneKey<K, V>(m: map<K, V>, e: Edit<K, V>, j: K)
    requires !e.Clearing? && !e.Assignment?
    ensures var r := MapEdited(m, e);
            && (r.None? <==> e.Update? && e.key !in m)
            && (r.Some? && j != e.key ==> (j in r.value <==> j in m) && (j in m ==> r.value[j] == m[j]))
            && (e.Erasure? ==> e.key !in r.value)
            && (r.Some? && !e.Erasure? ==>
                  && e.key in r.value
                  && r.value[e.key] == if e.Insertion? then e.value
                                       else if e.key in m then e.updater(m[e.key])
                                       else e.default)
  {
  }

  ghost predicate Absent<K, V>(list: seq<(K, V)>, key: K) {
    forall i :: 0 <= i < |list| ==> list[i].0 != key
  }

  /** A list leaves the keys alone that are not in it. */
  lemma {:induction false} UnlistedStay<K, V>(m: map<K, V>, list: seq<(K, V)>, key: K)
    requires Absent(list, key)
    ensures key in MapAssigned(m, list) <==> key in m
    ensures key in m ==> MapAssigned(m, list)[key] == m[key]
    decreases |list|
  {
    if list != [] {
      assert list[0].0 != key && Absent(list[1..], key);
      UnlistedStay(m[list[0].0 := list[0].1], list[1..], key);
    }
  }

  /** A key that is in the list gets the value of its last entry. */
  lemma {:induction false} LastEntryWins<K, V>(m: map<K, V>, list: seq<(K, V)>, i: nat)
    requires i < |list| && Absent(list[i + 1..], list[i].0)
    ensures list[i].0 in MapAssigned(m, list) && MapAssigned(m, list)[list[i].0] == list[i].1
    decreases |list|
  {
    var m' := m[list[0].0 := list[0].1];
    if i == 0 {
      UnlistedStay(m', list[1..], list[0].0);
    } else {
      assert list[1..][i..] == list[i + 1..];
      LastEntryWins(m', list[1..], i - 1);
    }
  }

  lemma {:induction false} PutAllIsAssignment<K(!new), V>(less: Less<K>, m: seq<(K, V)>, list: seq<(K, V)>)
    requires TotalOrder(less) && Sorted(less, m)
    ensures Sorted(less, PutAll(less, m, list)) && ToMap(PutAll(less, m, list)) == MapAssigned(ToMap(m), list)
    decreases |list|
  {
    if list != [] {
      PutIsUpdate(less, m, list[0].0, list[0].1);
      PutIsSorted(less, m, list[0].0, list[0].1);
      PutAllIsAssignment(less, Put(less, m, list[0].0, list[0].1), list[1..]);
    }
  }

  /** Editing the ordered entries is editing the mathematical map. */
  lemma EditedIsMapEdited<K(!new), V>(less: Less<K>, m: seq<(K, V)>, e: Edit<K, V>)
    requires TotalOrder(less) && Sorted(less, m)
    ensures var r := Edited(less, m, e);
            && (r.Some? <==> MapEdited(ToMap(m), e).Some?)
            && (r.Some? ==> Some(ToMap(r.value)) == MapEdited(ToMap(m), e))
  {
    hide Put, Remove, Find, PutAll, MapAssigned, TotalOrder;
    match e {
      case Insertion(k, v) => PutIsUpdate(less, m, k, v);
      case Erasure(k) => RemoveIsErase(less, m, k);
      case Update(k, f) =>
        FindIsLookup(less, m, k);
        if k in ToMap(m) {
          PutIsUpdate(less, m, k, f(ToMap(m)[k]));
        }
      case UpdateOrInsert(k, f, default) =>
        FindIsLookup(less, m, k);
        PutIsUpdate(less, m, k, if k in ToMap(m) then f(ToMap(m)[k]) else default);
      case Clearing =>
      case Assignment(list) => PutAllIsAssignment(less, [], list);
    }
  }

  // ---------- capacity ----------

  ghost predicate FixedWidth<K(!new), V(!new)>(l: Layout<K, V>, keyWidth: nat, valueWidth: nat)
  {
    && (forall k {:trigger l.keys.encode(k)} :: |l.keys.encode(k)| == keyWidth)
    && (forall v {:trigger l.values.encode(v)} :: |l.values.encode(v)| == valueWidth)
  }

  lemma {:induction false} EncodedLength<K(!new), V(!new)>(l: Layout<K, V>, keyWidth: nat, valueWidth: nat,
                                                          m: seq<(K, V)>)
    requires FixedWidth(l, keyWidth, valueWidth)
    ensures |EncodeEntries(l.keys, l.values, m)| == |m| * (keyWidth + valueWidth)
  {
    if m != [] {
      EncodedLength(l, keyWidth, valueWidth, m[1..]);
      assert |m| * (keyWidth + valueWidth) == (|m| - 1) * (keyWidth + valueWidth) + (keyWidth + valueWidth);
    }
  }

  lemma MapLength<K(!new), V(!new)>(l: Layout<K, V>, keyWidth: nat, valueWidth: nat, m: seq<(K, V)>)
    requires FixedWidth(l, keyWidth, valueWidth)
    ensures |EncodeMap(l.keys, l.values, m)| == 8 + |m| * (keyWidth + valueWidth)
  {
    EncodedLength(l, keyWidth, valueWidth, m);
  }

  /** An edit fails for lack of room exactly when the edited map's encoding is too long. */
  lemma RoomNeeded<K(!new), V(!new)>(l: Layout<K, V>, region: seq<byte>, m: seq<(K, V)>, e: Edit<K, V>)
    requires LayoutOk(l) && Represents(l, region, m) && !e.Assignment?
    ensures var r := Edited(l.less, m, e);
            Perform(l, region, e).1 == NoRoom <==> r.Some? && |EncodeMap(l.keys, l.values, r.value)| > |region|
  {
    LoadsWhatItRepresents(l, region, m);
  }

  lemma Ordered<K(!new), V(!new)>(l: Layout<K, V>, region: seq<byte>, m: seq<(K, V)>)
    requires LayoutOk(l) && Represents(l, region, m)
    ensures StrictOrder(l.less) && Sorted(l.less, m)
  {
  }

  lemma MoreEntriesAreLonger(n: nat, k: nat, width: nat)
    requires n <= k
    ensures n * width <= k * width
  {
  }

  /** The edit writes a key that has no equivalent one in the map. */
  predicate IsNewKey<K, V>(less: Less<K>, m: seq<(K, V)>, e: Edit<K, V>) {
    (e.Insertion? || e.UpdateOrInsert?) && Find(less, m, e.key).None?
  }

  /** With fixed-width entries, in a region that represents a map, only writing a key that is not
      there can fail for lack of room, and it fails exactly when one more entry does not fit.
      Updating, overwriting, erasing and clearing never do. */
  lemma OnlyNewKeysNeedRoom<K(!new), V(!new)>(l: Layout<K, V>, keyWidth: nat, valueWidth: nat, region: seq<byte>,
                                              m: seq<(K, V)>, e: Edit<K, V>)
    requires LayoutOk(l) && FixedWidth(l, keyWidth, valueWidth) && Represents(l, region, m) && !e.Assignment?
    ensures Perform(l, region, e).1 == NoRoom <==>
              IsNewKey(l.less, m, e) && 8 + (|m| + 1) * (keyWidth + valueWidth) > |region|
  {
    hide Edited, LayoutOk, MapOk, IsNewKey;
    var width := keyWidth + valueWidth;
    RoomNeeded(l, region, m, e);
    MapLength(l, keyWidth, valueWidth, m);
    EditedLength(l.less, m, e);
    var r := Edited(l.less, m, e);
    if r.Some? {
      MapLength(l, keyWidth, valueWidth, r.value);
      MoreEntriesAreLonger(|r.value|, if IsNewKey(l.less, m, e) then |m| + 1 else |m|, width);
    }
  }

  lemma EditedLength<K, V>(less: Less<K>, m: seq<(K, V)>, e: Edit<K, V>)
    requires !e.Assignment?
    ensures var r := Edited(less, m, e);
            if IsNewKey(less, m, e) then r.Some? && |r.value| == |m| + 1 else r.Some? ==> |r.value| <= |m|
  {
    match e {
      case Insertion(k, v) => PutLength(less, m, k, v);
      case Erasure(k) =>
        if m != [] {
          PutLength(less, m, k, m[0].1);
        }
      case Update(k, f) =>
        var v := Find(less, m, k);
        if v.Some? {
          PutLength(less, m, k, f(v.value));
        }
      case UpdateOrInsert(k, f, default) =>
        var v := Find(less, m, k);
        PutLength(less, m, k, if v.None? then default else f(v.value));
      case Clearing =>
    }
  }

  // ---------- the mathematical map ----------

  /** What a mathematical map does that can hold entries of the given width up to a capacity. */
  function MapStep<K, V>(width: nat, capacity: nat, m: map<K, V>, e: Edit<K, V>): (map<K, V>, Outcome)
  {
    var m' := MapEdited(m, e);
    if m'.None? then (m, NoKey)
    else if 8 + |m'.value| * width > capacity then (m, NoRoom)
    else (m'.value, Done)
  }

  function MapRun<K, V>(width: nat, capacity: nat, m: map<K, V>, edits: seq<Edit<K, V>>): map<K, V>
    decreases |edits|
  {
    if edits == [] then m else MapRun(width, capacity, MapStep(width, capacity, m, edits[0]).0, edits[1..])
  }

  lemma PlainStepIsMapStep<K(!new), V(!new)>(l: Layout<K, V>, keyWidth: nat, valueWidth: nat, capacity: nat,
                                             m: seq<(K, V)>, e: Edit<K, V>)
    requires LayoutOk(l) && TotalOrder(l.less) && FixedWidth(l, keyWidth, valueWidth)
    requires EntriesOk(l, m) && EditOk(l, e)
    ensures var (m', outcome) := PlainStep(l, capacity, m, e);
            && EntriesOk(l, m')
            && MapStep(keyWidth + valueWidth, capacity, ToMap(m), e) == (ToMap(m'), outcome)
  {
    assert TotalOrder(l.less) && Sorted(l.less, m);
    EditedIsMapEdited(l.less, m, e);
    var r := Edited(l.less, m, e);
    if r.Some? {
      EditedKeepsOk(l, m, e);
      SizeIsCardinality(l.less, r.value);
      MapLength(l, keyWidth, valueWidth, r.value);
    }
  }

  lemma {:induction false} PlainRunIsMapRun<K(!new), V(!new)>(
    l: Layout<K, V>, keyWidth: nat, valueWidth: nat, capacity: nat, m: seq<(K, V)>, edits: seq<Edit<K, V>>)
    requires LayoutOk(l) && TotalOrder(l.less) && FixedWidth(l, keyWidth, valueWidth) && EntriesOk(l, m)
    requires forall i :: 0 <= i < |edits| ==> EditOk(l, edits[i])
    ensures EntriesOk(l, PlainRun(l, capacity, m, edits))
    ensures ToMap(PlainRun(l, capacity, m, edits)) == MapRun(keyWidth + valueWidth, capacity, ToMap(m), edits)
    decreases |edits|
  {
    hide LayoutOk, TotalOrder, FixedWidth, EditOk, EntriesOk, PlainStep, MapStep;
    if edits != [] {
      PlainStepIsMapStep(l, keyWidth, valueWidth, capacity, m, edits[0]);
      PlainRunIsMapRun(l, keyWidth, valueWidth, capacity, PlainStep(l, capacity, m, edits[0]).0, edits[1..]);
    }
  }

  /** From a region of zeros, after any operations, reading the region is reading the mathematical
      map that took the same operations: same keys, same values, same size. */
  lemma SharedMapIsAMap<K(!new), V(!new)>(l: Layout<K, V>, keyWidth: nat, valueWidth: nat, region: seq<byte>,
                                          edits: seq<Edit<K, V>>, key: K)
    requires LayoutOk(l) && TotalOrder(l.less) && FixedWidth(l, keyWidth, valueWidth)
    requires 8 <= |region| < SIZE_LIMIT && forall i :: 0 <= i < |region| ==> region[i] == 0
    requires forall i :: 0 <= i < |edits| ==> EditOk(l, edits[i])
    ensures var m := MapRun(keyWidth + valueWidth, |region|, map[], edits);
            var loaded := Load(l, RegionRun(l, region, edits));
            && loaded.Some? && |loaded.value| == |m|
            && Find(l.less, loaded.value, key) == if key in m then Some(m[key]) else None
  {
    hide FixedWidth, EditOk, PlainRun, RegionRun, MapRun, Load, Find;
    SharedMapRefinesPlainMap(l, region, edits);
    PlainRunIsMapRun(l, keyWidth, valueWidth, |region|, [], edits);
    var entries := PlainRun(l, |region|, [], edits);
    FindIsLookup(l.less, entries, key);
    SizeIsCardinality(l.less, entries);
  }

  // ---------- the count table ----------

  type int32 = i: int | -0x8000_0000 <= i < 0x8000_0000

  function Unsigned32(i: int32): nat {
    if i < 0 then i + 0x1_0000_0000 else i
  }

  function DecodeCount(bytes: seq<byte>): Option<(int32, seq<byte>)>
  {
    var n := DecodeWidth(bytes, 4);
    if n.None? || n.value.0 >= 0x1_0000_0000 then None
    else Some((if n.value.0 < 0x8000_0000 then n.value.0 else n.value.0 - 0x1_0000_0000, n.value.1))
  }

  function DecodeAddress(bytes: seq<byte>): Option<(word64, seq<byte>)>
  {
    var n := DecodeWidth(bytes, 8);
    if n.None? || n.value.0 >= SIZE_LIMIT then None else Some((n.value.0, n.value.1))
  }

  /** The table of use counts: eight-byte addresses to four-byte counts. */
  const COUNT_TABLE: Layout<word64, int32> :=
    Layout(Codec((a: word64) => Word(a, 8), DecodeAddress, (a: word64) => true),
           Codec((i: int32) => Word(Unsigned32(i), 4), DecodeCount, (i: int32) => true),
           (a: word64, b: word64) => a < b)

  lemma CountTableOk()
    ensures LayoutOk(COUNT_TABLE) && TotalOrder(COUNT_TABLE.less) && FixedWidth(COUNT_TABLE, 8, 4)
  {
    SizeLimitIsPow256();
    assert Pow256(4) == 0x1_0000_0000;
    forall a: word64, rest: seq<byte>
      ensures DecodeAddress(Word(a, 8) + rest) == Some((a, rest))
    {
      WidthRoundTrip(a, 8, rest);
    }
    forall i: int32, rest: seq<byte>
      ensures DecodeCount(Word(Unsigned32(i), 4) + rest) == Some((i, rest))
    {
      WidthRoundTrip(Unsigned32(i), 4, rest);
    }
  }

  /** The default table of 64 KiB takes 5460 entries, and not one more. */
  lemma CountTableCapacity(region: seq<byte>, m: seq<(word64, int32)>, key: word64, count: int32)
    requires |region| == 0x1_0000 && Represents(COUNT_TABLE, region, m)
    ensures |m| <= 5460
    ensures Perform(COUNT_TABLE, region, Insertion(key, count)).1 == NoRoom <==> key !in ToMap(m) && |m| == 5460
  {
    CountTableOk();
    EncodedLength(COUNT_TABLE, 8, 4, m);
    FindIsLookup(COUNT_TABLE.less, m, key);
    OnlyNewKeysNeedRoom(COUNT_TABLE, 8, 4, region, m, Insertion(key, count));
  }

  // ---------- a table of variants ----------

  const VARIANT_TABLE: Layout<Xpod, Xpod> := Layout(XPOD, XPOD, XpodLess)

  /** Maps from variants to variants qualify, although the order of variants is not total: the two
      zeros of floating point are equivalent and not equal. */
  lemma VariantTableOk()
    ensures LayoutOk(VARIANT_TABLE) && !TotalOrder(VARIANT_TABLE.less)
  {
    XpodLawful();
    XpodOrder();
    var zero, minusZero := Double(0), Double(HALF);
    assert zero != minusZero && !XpodLess(zero, minusZero) && !XpodLess(minusZero, zero);
  }

  // ---------- the class ----------

  class InterprocessMap<K(!new), V(!new)> {
    const layout: Layout<K, V>
    const region: array<byte>

    /** A zero-filled region of fixed size. */
    constructor (layout: Layout<K, V>, size: nat)
      ensures this.layout == layout && fresh(region) && region.Length == size
      ensures forall i :: 0 <= i < size ==> region[i] == 0
    {
      this.layout := layout;
      region := new byte[size](_ => 0);
    }

    /** Capacity check, then copy over the front of the region. */
    method Serialize(m: seq<(K, V)>) returns (ok: bool)
      modifies region
      ensures ok <==> |EncodeMap(layout.keys, layout.values, m)| <= region.Length
      ensures region[..] == if ok then Overwrite(old(region[..]), EncodeMap(layout.keys, layout.values, m))
                            else old(region[..])
    {
      var content := EncodeMap(layout.keys, layout.values, m);
      hide EncodeMap;
      ok := |content| <= region.Length;
      if ok {
        for i := 0 to |content|
          invariant forall k :: 0 <= k < i ==> region[k] == content[k]
          invariant forall k :: i <= k < region.Length ==> region[k] == old(region[k])
        {
          region[i] := content[i];
        }
        assert region[..] == Overwrite(old(region[..]), content);
      }
    }

    method InsertEntry(key: K, value: V) returns (outcome: Outcome)
      modifies region
      ensures (region[..], outcome) == Perform(layout, old(region[..]), Insertion(key, value))
    {
      var m := Load(layout, region[..]);
      if m.None? {
        return Unreadable;
      }
      var ok := Serialize(Put(layout.less, m.value, key, value));
      outcome := if ok then Done else NoRoom;
    }

    method EraseEntry(key: K) returns (outcome: Outcome)
      modifies region
      ensures (region[..], outcome) == Perform(layout, old(region[..]), Erasure(key))
    {
      var m := Load(layout, region[..]);
      if m.None? {
        return Unreadable;
      }
      var ok := Serialize(Remove(layout.less, m.value, key));
      outcome := if ok then Done else NoRoom;
    }

    /** Answers the updated value. */
    method UpdateEntry(key: K, updater: V -> V) returns (outcome: Outcome, updated: Option<V>)
      modifies region
      ensures (region[..], outcome) == Perform(layout, old(region[..]), Update(key, updater))
      ensures outcome == Done <==> updated.Some?
      ensures outcome == Done ==>
                updated.value == updater(Find(layout.less, Load(layout, old(region[..])).value, key).value)
    {
      updated := None;
      var m := Load(layout, region[..]);
      if m.None? {
        return Unreadable, None;
      }
      var value := Find(layout.less, m.value, key);
      if value.None? {
        return NoKey, None;
      }
      var ok := Serialize(Put(layout.less, m.value, key, updater(value.value)));
      if !ok {
        return NoRoom, None;
      }
      return Done, Some(updater(value.value));
    }

    method UpdateOrInsertEntry(key: K, updater: V -> V, default: V) returns (outcome: Outcome)
      modifies region
      ensures (region[..], outcome) == Perform(layout, old(region[..]), UpdateOrInsert(key, updater, default))
    {
      var m := Load(layout, region[..]);
      if m.None? {
        return Unreadable;
      }
      var value := Find(layout.less, m.value, key);
      var ok := Serialize(Put(layout.less, m.value, key, if value.None? then default else updater(value.value)));
      outcome := if ok then Done else NoRoom;
    }

    method ClearAll() returns (outcome: Outcome)
      modifies region
      ensures (region[..], outcome) == Perform(layout, old(region[..]), Clearing)
    {
      var ok := Serialize([]);
      outcome := if ok then Done else NoRoom;
    }

    method AssignList(list: seq<(K, V)>) returns (outcome: Outcome)
      modifies region
      ensures (region[..], outcome) == Perform(layout, old(region[..]), Assignment(list))
    {
      var m: seq<(K, V)> := [];
      for i := 0 to |list|
        invariant PutAll(layout.less, m, list[i..]) == PutAll(layout.less, [], list)
        invariant region[..] == old(region[..])
      {
        assert list[i..][1..] == list[i + 1..];
        m := Put(layout.less, m, list[i].0, list[i].1);
      }
      var ok := Serialize(m);
      outcome := if ok then Done else NoRoom;
    }

    /** at, at_or_default and count answer from the decoded copy. */
    method Lookup(key: K) returns (value: Option<V>)
      ensures forall m :: LayoutOk(layout) && Represents(layout, region[..], m) ==> value == Find(layout.less, m, key)
      ensures forall m :: LayoutOk(layout) && TotalOrder(layout.less) && Represents(layout, region[..], m) ==>
                            value == if key in ToMap(m) then Some(ToMap(m)[key]) else None
    {
      hide LayoutOk, TotalOrder, Represents, Find, Load;
      var loaded := Load(layout, region[..]);
      value := if loaded.None? then None else Find(layout.less, loaded.value, key);
      forall m | LayoutOk(layout) && Represents(layout, region[..], m)
        ensures value == Find(layout.less, m, key)
        ensures TotalOrder(layout.less) ==> value == if key in ToMap(m) then Some(ToMap(m)[key]) else None
      {
        LoadsWhatItRepresents(layout, region[..], m);
        Ordered(layout, region[..], m);
        if TotalOrder(layout.less) {
          FindIsLookup(layout.less, m, key);
        }
      }
    }

    method Size() returns (size: nat)
      ensures forall m :: LayoutOk(layout) && Represents(layout, region[..], m) ==> size == |ToMap(m)|
    {
      hide LayoutOk, Represents, Load;
      var loaded := Load(layout, region[..]);
      size := if loaded.None? then 0 else |loaded.value|;
      forall m | LayoutOk(layout) && Represents(layout, region[..], m)
        ensures size == |ToMap(m)|
      {
        LoadsWhatItRepresents(layout, region[..], m);
        Ordered(layout, region[..], m);
        SizeIsCardinality(layout.less, m);
      }
    }
  }
}

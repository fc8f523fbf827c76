/** A ring buffer of fixed size that overwrites its oldest element. */
module CircularBuffer {
  import opened Wrappers

  /** One more than the largest size_t; no object has more than half as many bytes. */
  const SIZE_LIMIT: nat := 0x1_0000_0000_0000_0000

  type Position = n: nat | n < SIZE_LIMIT

  /** Addition of size_t. */
  function Plus(a: Position, b: Position): Position {
    if a + b < SIZE_LIMIT then a + b else a + b - SIZE_LIMIT
  }

  /** The last `size` elements of a history. */
  function Latest<T>(history: seq<T>, size: nat): seq<T> {
    if |history| <= size then history else history[|history| - size..]
  }

  /** Pushing onto a full window drops the oldest element. */
  lemma LatestAfterPush<T>(history: seq<T>, t: T, size: nat)
    requires size > 0
    ensures Latest(history + [t], size) ==
            (if |history| < size then Latest(history, size) else Latest(history, size)[1..]) + [t]
  {
  }

  /** Where position pos of the view is in the array. */
  function Slot(pos: nat, next: nat, full: bool, size: nat): nat
    requires size > 0
  {
    (pos + (if full then next else 0)) % size
  }

  lemma AtLeastOnce(n: nat, d: int)
    ensures d >= 1 ==> n * d >= n
    ensures d <= -1 ==> n * d <= 0 - n
  {
    if d <= -1 {
      assert n * d == -(n * -d);
    }
  }

  /** A quotient and a remainder are the only ones. */
  lemma RemainderIs(x: nat, n: nat, q: nat, r: nat)
    requires n > 0 && r < n && x == n * q + r
    ensures x % n == r
  {
    var d := x / n - q;
    assert n * d == r - x % n by {
      assert x == n * (x / n) + x % n;
      assert n * d == n * (x / n) - n * q;
    }
    AtLeastOnce(n, d);
    assert d == 0;
  }

  lemma SlotValue(pos: nat, next: nat, size: nat)
    requires pos < size && next < size
    ensures Slot(pos, next, true, size) == if pos + next < size then pos + next else pos + next - size
  {
    if pos + next < size {
      RemainderIs(pos + next, size, 0, pos + next);
    } else {
      RemainderIs(pos + next, size, 1, pos + next - size);
    }
  }

  lemma SlotWraps(pos: nat, next: nat, size: nat)
    requires size > 0 && next < size
    ensures Slot(pos, next, true, size) == Slot(pos % size, next, true, size)
  {
    var q, r := pos / size, pos % size;
    SlotValue(r, next, size);
    assert pos == size * q + r;
    if r + next < size {
      RemainderIs(pos + next, size, q, r + next);
    } else {
      assert size * (q + 1) == size * q + size;
      RemainderIs(pos + next, size, q + 1, r + next - size);
    }
  }

  /** Where the element goes that is pushed with the next index at `next`. */
  lemma NextSlot(next: nat, size: nat)
    requires next < size
    ensures (next + 1) % size == if next + 1 < size then next + 1 else 0
  {
    if next + 1 < size {
      RemainderIs(next + 1, size, 0, next + 1);
    } else {
      RemainderIs(next + 1, size, 1, 0);
    }
  }

  /** The array holds the view, its first element in the slot of position 0. */
  ghost predicate Holds<T>(cells: seq<T>, next: nat, full: bool, view: seq<T>)
  {
    && next < |cells| && |view| <= |cells|
    && forall pos :: 0 <= pos < |view| ==> cells[Slot(pos, next, full, |cells|)] == view[pos]
  }

  /** Writing to the next slot of a full array replaces the oldest element. */
  lemma PushOntoFull<T>(cells: seq<T>, next: nat, view: seq<T>, t: T)
    requires Holds(cells, next, true, view) && |view| == |cells|
    ensures Holds(cells[next := t], (next + 1) % |cells|, true, view[1..] + [t])
  {
    var n, next', view' := |cells|, (next + 1) % |cells|, view[1..] + [t];
    NextSlot(next, n);
    forall pos | 0 <= pos < n
      ensures cells[next := t][Slot(pos, next', true, n)] == view'[pos]
    {
      SlotValue(pos, next', n);
      if pos < n - 1 {
        SlotValue(pos + 1, next, n);
        assert cells[Slot(pos + 1, next, true, n)] == view[pos + 1];
      }
    }
  }

  /** Writing to the next slot of an array that is not full adds an element. */
  lemma PushOntoPart<T>(cells: seq<T>, next: nat, view: seq<T>, t: T)
    requires Holds(cells, next, false, view) && |view| == next
    ensures Holds(cells[next := t], (next + 1) % |cells|, (next + 1) % |cells| == 0, view + [t])
  {
    var n, next', view' := |cells|, (next + 1) % |cells|, view + [t];
    NextSlot(next, n);
    forall pos | 0 <= pos <= next
      ensures cells[next := t][Slot(pos, next', next' == 0, n)] == view'[pos]
    {
      SlotValue(pos, 0, n);
      if pos < next {
        assert cells[Slot(pos, next, false, n)] == view[pos];
      }
    }
  }

  class Ring<T(0)> {
    const buffer: array<T>
    var i: nat
    var full: bool
    /** Everything pushed since construction or the last clear. */
    ghost var history: seq<T>

    ghost predicate Valid()
      reads this, buffer
    {
      && i < buffer.Length <= SIZE_LIMIT / 2
      && (full <==> |history| >= buffer.Length)
      && (!full ==> i == |history|)
      && Holds(buffer[..], i, full, View())
    }

    ghost function View(): seq<T>
      reads this
    {
      Latest(history, buffer.Length)
    }

    constructor (size: nat)
      requires 0 < size <= SIZE_LIMIT / 2
      ensures Valid() && fresh(buffer) && buffer.Length == size && history == []
    {
      buffer := new T[size];
      i, full, history := 0, false, [];
    }

    function Size(): nat
      reads this
    {
      if full then buffer.Length else i
    }

    method PushBack(t: T)
      requires Valid()
      modifies this, buffer
      ensures Valid() && history == old(history) + [t]
    {
      LatestAfterPush(history, t, buffer.Length);
      NextSlot(i, buffer.Length);
      if full {
        PushOntoFull(buffer[..], i, View(), t);
      } else {
        PushOntoPart(buffer[..], i, View(), t);
      }
      hide Holds;
      buffer[i] := t;
      assert buffer[..] == old(buffer[..])[i := t];
      i := (i + 1) % buffer.Length;
      if i == 0 {
        full := true;
      }
      history := history + [t];
    }

    method Clear()
      requires Valid()
      modifies this
      ensures Valid() && history == []
    {
      i, full, history := 0, false, [];
    }

    /** Bounds-checked access: None where the library throws. */
    method At(pos: Position) returns (r: Option<T>)
      requires Valid()
      ensures r == if pos < |View()| then Some(View()[pos]) else None
    {
      r := if pos >= Size() then None else Some(buffer[Plus(pos, if full then i else 0) % buffer.Length]);
    }

    /** Unchecked access. On a full buffer positions wrap around modulo its size, except that the
        sum itself wraps around for the last i positions of size_t, which are the newest i elements. */
    method Index(pos: Position) returns (r: T)
      requires Valid()
      ensures pos < |View()| ==> r == View()[pos]
      ensures full ==> |View()| == buffer.Length
      ensures full && pos + i < SIZE_LIMIT ==> r == View()[pos % buffer.Length]
      ensures full && pos + i >= SIZE_LIMIT ==> r == View()[buffer.Length - (SIZE_LIMIT - pos)]
    {
      r := buffer[Plus(pos, if full then i else 0) % buffer.Length];
      if full {
        ghost var n := buffer.Length;
        ghost var at := if pos + i < SIZE_LIMIT then pos % n else n - (SIZE_LIMIT - pos);
        SlotValue(at, i, n);
        if pos + i < SIZE_LIMIT {
          SlotWraps(pos, i, n);
        } else {
          RemainderIs(pos + i - SIZE_LIMIT, n, 0, pos + i - SIZE_LIMIT);
        }
        assert buffer[Slot(at, i, full, n)] == View()[at];
      }
    }

    method Front() returns (r: T)
      requires Valid() && View() != []
      ensures r == View()[0]
    {
      r := buffer[if full then i else 0];
      SlotValue(0, i, buffer.Length);
      assert buffer[Slot(0, i, full, buffer.Length)] == View()[0];
    }

    method Back() returns (r: T)
      requires Valid() && View() != []
      ensures r == View()[|View()| - 1]
    {
      var n := buffer.Length;
      r := buffer[(Plus(i, n) - 1) % n];
      if full {
        SlotValue(n - 1, i, n);
        assert buffer[Slot(n - 1, i, full, n)] == View()[n - 1];
      } else {
        RemainderIs(i + n - 1, n, 1, i - 1);
        RemainderIs(i - 1, n, 0, i - 1);
        assert buffer[Slot(i - 1, i, full, n)] == View()[i - 1];
      }
    }

    /** The elements from begin() to end(), in array order, are a rotation of the view. */
    method Elements() returns (range: seq<T>)
      requires Valid()
      ensures |range| == |View()| == Size()
      ensures var k := if full then buffer.Length - i else 0;
              k <= |View()| && range == View()[k..] + View()[..k]
    {
      range := if full then buffer[..] else buffer[..i];
      var n, k := buffer.Length, if full then buffer.Length - i else 0;
      forall p | 0 <= p < |range|
        ensures range[p] == (View()[k..] + View()[..k])[p]
      {
        var pos := if full then (if p < i then p + k else p - i) else p;
        SlotValue(pos, i, n);
        SlotValue(pos, 0, n);
        assert buffer[Slot(pos, i, full, n)] == View()[pos];
      }
    }
  }
}

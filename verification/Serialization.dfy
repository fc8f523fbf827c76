/** The binary format of variants and of nested maps of variants. */
module Serialization {
  import opened Wrappers
  import opened OrderedMap
  import opened Codecs

  const HALF: int := 0x8000_0000_0000_0000

  type int64 = i: int | -HALF <= i < HALF

  /** xpod::type. A double is its 64-bit pattern, a string its bytes. */
  datatype Xpod =
    | Integer(i: int64)
    | Double(bits: word64)
    | Boolean(b: bool)
    | Pointer(address: word64)
    | Text(text: seq<byte>)

  predicate XpodOk(x: Xpod) {
    x.Text? ==> |x.text| < SIZE_LIMIT
  }

  function TypeIndex(x: Xpod): byte
  {
    match x
    case Integer(_) => 0
    case Double(_) => 1
    case Boolean(_) => 2
    case Pointer(_) => 3
    case Text(_) => 4
  }

  // ---------- the order of keys ----------

  /** A double's place on the number line (both zeros at 0), from its sign and magnitude bits. */
  function Place(bits: word64): int {
    if bits < HALF then bits else HALF - bits
  }

  predicate IsNaN(bits: word64) {
    bits % HALF > 0x7FF0_0000_0000_0000
  }

  predicate TextLess(a: seq<byte>, b: seq<byte>)
  {
    if b == [] then false
    else if a == [] then true
    else a[0] < b[0] || (a[0] == b[0] && TextLess(a[1..], b[1..]))
  }

  /** The comparison of std::variant: first by type, then by value. */
  predicate XpodLess(a: Xpod, b: Xpod)
  {
    if TypeIndex(a) != TypeIndex(b) then TypeIndex(a) < TypeIndex(b)
    else
      match a
      case Integer(i) => i < b.i
      case Double(bits) => !IsNaN(bits) && !IsNaN(b.bits) && Place(bits) < Place(b.bits)
      case Boolean(v) => !v && b.b
      case Pointer(address) => address < b.address
      case Text(text) => TextLess(text, b.text)
  }

  lemma {:induction false} TextLessIrreflexive(a: seq<byte>)
    ensures !TextLess(a, a)
  {
    if a != [] {
      TextLessIrreflexive(a[1..]);
    }
  }

  lemma {:induction false} TextLessTransitive(a: seq<byte>, b: seq<byte>, c: seq<byte>)
    requires TextLess(a, b) && TextLess(b, c)
    ensures TextLess(a, c)
  {
    if a != [] && a[0] == b[0] == c[0] {
      TextLessTransitive(a[1..], b[1..], c[1..]);
    }
  }

  /** Strings are ordered as dictionaries are. */
  lemma {:induction false} TextOrder(a: seq<byte>, b: seq<byte>)
    ensures TextLess(a, b) <==> exists k: nat :: FirstDifference(a, b, k)
  {
    if a != [] && b != [] && a[0] == b[0] {
      TextOrder(a[1..], b[1..]);
      if k: nat :| FirstDifference(a[1..], b[1..], k) {
        assert a[..k + 1] == [a[0]] + a[1..][..k] && b[..k + 1] == [b[0]] + b[1..][..k];
        assert FirstDifference(a, b, k + 1);
      }
      if k: nat :| FirstDifference(a, b, k) {
        assert k > 0;
        assert a[1..][..k - 1] == a[..k][1..] && b[1..][..k - 1] == b[..k][1..];
        assert FirstDifference(a[1..], b[1..], k - 1);
      }
    } else if TextLess(a, b) {
      assert FirstDifference(a, b, 0);
    } else {
      forall k: nat ensures !FirstDifference(a, b, k) {
        assert 0 < k <= |a| && k < |b| ==> a[..k][0] == a[0] && b[..k][0] == b[0];
      }
    }
  }

  /** The strings agree before position k, where a ends or has the smaller byte. */
  predicate FirstDifference(a: seq<byte>, b: seq<byte>, k: nat) {
    k <= |a| && k < |b| && a[..k] == b[..k] && (k == |a| || a[k] < b[k])
  }

  // The number that a double stands for, in units of its smallest positive number.

  const FRACTIONS: nat := 0x10_0000_0000_0000

  function Pow2(n: nat): (p: nat)
    ensures p > 0
  {
    if n == 0 then 1 else 2 * Pow2(n - 1)
  }

  /** The number with the given exponent and fraction fields; infinity is above all others. */
  function Magnitude(m: nat): nat {
    var exponent, fraction := m / FRACTIONS, m % FRACTIONS;
    if exponent == 0 then fraction else (FRACTIONS + fraction) * Pow2(exponent - 1)
  }

  function Numeric(bits: word64): int {
    if bits < HALF then Magnitude(bits) else 0 - Magnitude(bits - HALF)
  }

  lemma MagnitudeNext(m: nat)
    ensures Magnitude(m) < Magnitude(m + 1)
  {
    var exponent, fraction := m / FRACTIONS, m % FRACTIONS;
    if fraction + 1 < FRACTIONS {
      assert (m + 1) / FRACTIONS == exponent && (m + 1) % FRACTIONS == fraction + 1;
    } else {
      assert (m + 1) / FRACTIONS == exponent + 1 && (m + 1) % FRACTIONS == 0;
    }
  }

  lemma {:induction false} MagnitudeGrows(a: nat, b: nat)
    requires a < b
    ensures Magnitude(a) < Magnitude(b)
    decreases b
  {
    MagnitudeNext(b - 1);
    if a < b - 1 {
      MagnitudeGrows(a, b - 1);
    }
  }

  /** Doubles that are numbers are ordered as numbers are. */
  lemma DoubleOrder(a: word64, b: word64)
    requires !IsNaN(a) && !IsNaN(b)
    ensures XpodLess(Double(a), Double(b)) <==> Numeric(a) < Numeric(b)
  {
    hide Magnitude;
    var x, y := if a < HALF then a else a - HALF, if b < HALF then b else b - HALF;
    if x < y {
      MagnitudeGrows(x, y);
    } else if y < x {
      MagnitudeGrows(y, x);
    }
    MagnitudeOfZero();
    if x > 0 {
      MagnitudeGrows(0, x);
    }
    if y > 0 {
      MagnitudeGrows(0, y);
    }
  }

  lemma MagnitudeOfZero()
    ensures Magnitude(0) == 0
  {
  }

  /** The order of kinds: integers, doubles, booleans, pointers, strings. */
  predicate EarlierKind(a: Xpod, b: Xpod) {
    || (a.Integer? && !b.Integer?)
    || (a.Double? && (b.Boolean? || b.Pointer? || b.Text?))
    || (a.Boolean? && (b.Pointer? || b.Text?))
    || (a.Pointer? && b.Text?)
  }

  /** The smaller value of the same kind. */
  ghost predicate SmallerValue(a: Xpod, b: Xpod) {
    || (a.Integer? && b.Integer? && a.i < b.i)
    || (a.Double? && b.Double? && Numeric(a.bits) < Numeric(b.bits))
    || (a == Boolean(false) && b == Boolean(true))
    || (a.Pointer? && b.Pointer? && a.address < b.address)
    || (a.Text? && b.Text? && exists k: nat :: FirstDifference(a.text, b.text, k))
  }

  /** Variants are ordered by kind and then by value. */
  lemma VariantOrder(a: Xpod, b: Xpod)
    requires (a.Double? ==> !IsNaN(a.bits)) && (b.Double? ==> !IsNaN(b.bits))
    ensures XpodLess(a, b) <==> EarlierKind(a, b) || SmallerValue(a, b)
  {
    if a.Double? && b.Double? {
      DoubleOrder(a.bits, b.bits);
    } else if a.Text? && b.Text? {
      TextOrder(a.text, b.text);
    }
    hide Numeric, TextLess, IsNaN, Place;
  }

  lemma XpodOrder()
    ensures StrictOrder(XpodLess)
  {
    forall a
      ensures !XpodLess(a, a)
    {
      if a.Text? {
        TextLessIrreflexive(a.text);
      }
    }
    forall a, b, c | XpodLess(a, b) && XpodLess(b, c)
      ensures XpodLess(a, c)
    {
      if a.Text? && b.Text? && c.Text? {
        TextLessTransitive(a.text, b.text, c.text);
      }
    }
  }

  // ---------- variants ----------

  /** Two's complement. */
  function Unsigned(i: int64): word64 {
    if i < 0 then i + SIZE_LIMIT else i
  }

  function Signed(n: word64): int64 {
    if n < HALF then n else n - SIZE_LIMIT
  }

  function DecodeWord(bytes: seq<byte>): (r: Option<(word64, seq<byte>)>)
    ensures r.Some? ==> |r.value.1| == |bytes| - 8
  {
    SizeLimitIsPow256();
    var n := DecodeWidth(bytes, 8);
    if n.None? then None else Some((n.value.0, n.value.1))
  }

  function EncodeXpod(x: Xpod): seq<byte> {
    [TypeIndex(x)] + EncodeBody(x)
  }

  function EncodeBody(x: Xpod): seq<byte>
  {
    match x
    case Integer(i) => Word(Unsigned(i), 8)
    case Double(bits) => Word(bits, 8)
    case Boolean(b) => [if b then 1 else 0]
    case Pointer(address) => EncodeText(PointerText(address))
    case Text(text) => EncodeText(text)
  }

  function DecodeXpod(bytes: seq<byte>): (r: Option<(Xpod, seq<byte>)>)
    ensures r.Some? ==> |r.value.1| < |bytes|
  {
    if bytes == [] then None
    else
      var body := bytes[1..];
      match bytes[0]
      case 0 =>
        var n := DecodeWord(body);
        if n.None? then None else Some((Integer(Signed(n.value.0)), n.value.1))
      case 1 =>
        var n := DecodeWord(body);
        if n.None? then None else Some((Double(n.value.0), n.value.1))
      case 2 =>
        var n := DecodeWidth(body, 1);
        if n.None? || n.value.0 > 1 then None else Some((Boolean(n.value.0 == 1), n.value.1))
      case 3 =>
        var text := DecodeText(body);
        if text.None? then None
        else
          var address := ReadPointer(text.value.0);
          if address.None? then None else Some((Pointer(address.value), text.value.1))
      case 4 =>
        var text := DecodeText(body);
        if text.None? then None else Some((Text(text.value.0), text.value.1))
      case _ => None
  }

  lemma XpodRoundTrip(x: Xpod, rest: seq<byte>)
    requires XpodOk(x)
    ensures DecodeXpod(EncodeXpod(x) + rest) == Some((x, rest))
  {
    SizeLimitIsPow256();
    assert (EncodeXpod(x) + rest)[1..] == EncodeBody(x) + rest;
    match x {
      case Integer(i) => WidthRoundTrip(Unsigned(i), 8, rest);
      case Double(bits) => WidthRoundTrip(bits, 8, rest);
      case Boolean(b) =>
        assert [if b then 1 else 0] == Word(if b then 1 else 0, 1);
        WidthRoundTrip(if b then 1 else 0, 1, rest);
      case Pointer(address) =>
        PointerTextRoundTrip(address);
        TextRoundTrip(PointerText(address), rest);
      case Text(text) => TextRoundTrip(text, rest);
    }
  }

  /** The type byte, and the bytes of each kind of value. */
  lemma XpodExamples()
    ensures EncodeXpod(Integer(-1)) == [0, 255, 255, 255, 255, 255, 255, 255, 255]
    ensures EncodeXpod(Double(0x0102)) == [1, 2, 1, 0, 0, 0, 0, 0, 0]
    ensures EncodeXpod(Boolean(true)) == [2, 1] && EncodeXpod(Boolean(false)) == [2, 0]
    ensures EncodeXpod(Pointer(0)) == [3, 1, 0, 0, 0, 0, 0, 0, 0, 48]
    ensures EncodeXpod(Text([65, 66])) == [4, 2, 0, 0, 0, 0, 0, 0, 0, 65, 66]
  {
    hide Word, PointerText;
    WordExample();
    MinusOneExample();
    PointerTextExample();
    SmallWord(1);
    SmallWord(2);
  }

  lemma MinusOneExample()
    ensures Word(Unsigned(-1), 8) == [255, 255, 255, 255, 255, 255, 255, 255]
  {
    hide Word;
    assert Unsigned(-1) == 0xFFFF_FFFF_FFFF_FFFF;
    WordStep(0xFFFF_FFFF_FFFF_FFFF, 8);
    WordStep(0xFF_FFFF_FFFF_FFFF, 7);
    WordStep(0xFFFF_FFFF_FFFF, 6);
    WordStep(0xFF_FFFF_FFFF, 5);
    WordStep(0xFFFF_FFFF, 4);
    WordStep(0xFF_FFFF, 3);
    WordStep(0xFFFF, 2);
    WordStep(0xFF, 1);
    ZeroWord(0);
  }

  /** Bytes that decode to a variant are its encoding followed by what is left; for a pointer, they are any
      hexadecimal text of the address. So an unknown type byte, a truncated value and a malformed number
      are refused. */
  lemma XpodDecodesOnlyEncodings(bytes: seq<byte>, x: Xpod, rest: seq<byte>)
    requires DecodeXpod(bytes) == Some((x, rest))
    ensures XpodOk(x)
    ensures !x.Pointer? ==> bytes == EncodeXpod(x) + rest
    ensures x.Pointer? ==> exists text :: && bytes == [3] + EncodeText(text) + rest
                                          && ReadPointer(text) == Some(x.address)
  {
    hide Word, Number, EncodeText, DecodeText, ReadPointer, Pow256;
    var body := bytes[1..];
    assert bytes == [bytes[0]] + body;
    match x {
      case Integer(_) => WidthDecodesOnlyEncodings(body, 8);
      case Double(_) => WidthDecodesOnlyEncodings(body, 8);
      case Boolean(b) =>
        WidthDecodesOnlyEncodings(body, 1);
        OneByteWord(if b then 1 else 0);
      case Pointer(_) =>
        TextDecodesOnlyEncodings(body);
        Joined([3], EncodeText(DecodeText(body).value.0), rest);
      case Text(text) => TextDecodesOnlyEncodings(body);
    }
    Joined([bytes[0]], EncodeBody(x), rest);
  }

  lemma OneByteWord(n: byte)
    ensures Word(n, 1) == [n]
  {
    assert Word(n / 256, 0) == [];
  }

  const XPOD: Codec<Xpod> := Codec(EncodeXpod, DecodeXpod, XpodOk)

  lemma XpodLawful()
    ensures Lawful(XPOD)
  {
    forall x: Xpod, rest: seq<byte> | XPOD.ok(x)
      ensures XPOD.decode(XPOD.encode(x) + rest) == Some((x, rest))
    {
      XpodRoundTrip(x, rest);
    }
  }

  // ---------- nested maps ----------

  /** nested_map: values and sub-tables, each a map ordered by key. */
  datatype Nested = Nested(data: seq<(Xpod, Xpod)>, subTables: seq<(Xpod, Nested)>)

  function EncodeNested(n: Nested): seq<byte>
    decreases n, 0
  {
    EncodeMap(XPOD, XPOD, n.data) + Word(|n.subTables|, 8) + EncodeSubTables(n.subTables)
  }

  function EncodeSubTables(tables: seq<(Xpod, Nested)>): seq<byte>
    decreases tables
  {
    if tables == [] then []
    else
      assert tables[0].1 < tables[0];
      EncodeXpod(tables[0].0) + EncodeNested(tables[0].1) + EncodeSubTables(tables[1..])
  }

  /** Fits the format: both maps ordered, all keys and values representable, at every depth. */
  ghost predicate NestedOk(n: Nested)
    decreases n, 0
  {
    && MapOk(XPOD, XPOD, XpodLess, n.data)
    && |n.subTables| < SIZE_LIMIT
    && Sorted(XpodLess, n.subTables)
    && SubTablesOk(n.subTables)
  }

  ghost predicate SubTablesOk(tables: seq<(Xpod, Nested)>)
    decreases tables
  {
    tables == [] ||
    (assert tables[0].1 < tables[0];
     XpodOk(tables[0].0) && NestedOk(tables[0].1) && SubTablesOk(tables[1..]))
  }

  /** Decoding never moves the cursor backwards. */
  ghost predicate Consumes<T>(codec: Codec<T>) {
    forall bytes {:trigger codec.decode(bytes)} ::
      codec.decode(bytes).Some? ==> |codec.decode(bytes).value.1| <= |bytes|
  }

  lemma {:induction false} DecodeEntriesShrinks<K, V>(keys: Codec<K>, values: Codec<V>, less: Less<K>, count: nat,
                                                     bytes: seq<byte>, m: seq<(K, V)>)
    requires Consumes(keys) && Consumes(values)
    ensures var r := DecodeEntries(keys, values, less, count, bytes, m);
            r.Some? ==> |r.value.1| <= |bytes|
    decreases count
  {
    if count > 0 {
      var key := keys.decode(bytes);
      if key.Some? {
        var value := values.decode(key.value.1);
        if value.Some? {
          DecodeEntriesShrinks(keys, values, less, count - 1, value.value.1,
                               Insert(less, m, key.value.0, value.value.0));
        }
      }
    }
  }

  lemma XpodConsumes()
    ensures Consumes(XPOD)
  {
    hide DecodeXpod;
  }

  function DecodeData(bytes: seq<byte>): (r: Option<(seq<(Xpod, Xpod)>, seq<byte>)>)
    ensures r.Some? ==> |r.value.1| + 8 <= |bytes|
  {
    var r := DecodeMap(XPOD, XPOD, XpodLess, bytes);
    assert r.Some? ==> |r.value.1| + 8 <= |bytes| by {
      var count := DecodeWidth(bytes, 8);
      if count.Some? {
        XpodConsumes();
        DecodeEntriesShrinks(XPOD, XPOD, XpodLess, count.value.0, count.value.1, []);
      }
    }
    r
  }

  function DecodeNested(bytes: seq<byte>): (r: Option<(Nested, seq<byte>)>)
    ensures r.Some? ==> |r.value.1| < |bytes|
    decreases |bytes|
  {
    var data := DecodeData(bytes);
    if data.None? then None
    else
      var count := DecodeWidth(data.value.1, 8);
      if count.None? then None
      else
        var tables := DecodeSubTables(count.value.0, count.value.1, []);
        if tables.None? then None else Some((Nested(data.value.0, tables.value.0), tables.value.1))
  }

  function DecodeSubTables(count: nat, bytes: seq<byte>, tables: seq<(Xpod, Nested)>)
    : (r: Option<(seq<(Xpod, Nested)>, seq<byte>)>)
    ensures r.Some? ==> |r.value.1| <= |bytes|
    decreases |bytes|
  {
    if count == 0 then Some((tables, bytes))
    else
      var key := DecodeXpod(bytes);
      if key.None? then None
      else
        var table := DecodeNested(key.value.1);
        if table.None? then None
        else DecodeSubTables(count - 1, table.value.1, Insert(XpodLess, tables, key.value.0, table.value.0))
  }

  /** Decoding the encoding of a nested map of any depth, followed by any bytes, gives the map back
      and leaves the cursor exactly at those bytes. */
  lemma {:induction false} NestedRoundTrip(n: Nested, rest: seq<byte>)
    requires NestedOk(n)
    ensures DecodeNested(EncodeNested(n) + rest) == Some((n, rest))
    decreases n, 0
  {
    XpodLawful();
    XpodOrder();
    SizeLimitIsPow256();
    var subs := EncodeSubTables(n.subTables) + rest;
    assert EncodeNested(n) + rest == EncodeMap(XPOD, XPOD, n.data) + (Word(|n.subTables|, 8) + subs);
    MapRoundTrip(XPOD, XPOD, XpodLess, n.data, Word(|n.subTables|, 8) + subs);
    WidthRoundTrip(|n.subTables|, 8, subs);
    assert [] + n.subTables == n.subTables;
    SubTablesRoundTrip([], n.subTables, rest);
  }

  lemma FirstSubTable(tables: seq<(Xpod, Nested)>, rest: seq<byte>)
    requires tables != [] && XpodOk(tables[0].0)
    ensures DecodeXpod(EncodeSubTables(tables) + rest) ==
            Some((tables[0].0, EncodeNested(tables[0].1) + (EncodeSubTables(tables[1..]) + rest)))
  {
    var (key, table) := tables[0];
    var tail := EncodeSubTables(tables[1..]) + rest;
    var subs := EncodeSubTables(tables[1..]);
    Joined(EncodeXpod(key) + EncodeNested(table), subs, rest);
    Joined(EncodeXpod(key), EncodeNested(table), tail);
    XpodRoundTrip(key, EncodeNested(table) + tail);
  }

  lemma {:induction false} SubTablesRoundTrip(done: seq<(Xpod, Nested)>, todo: seq<(Xpod, Nested)>, rest: seq<byte>)
    requires Sorted(XpodLess, done + todo) && SubTablesOk(todo)
    ensures DecodeSubTables(|todo|, EncodeSubTables(todo) + rest, done) == Some((done + todo, rest))
    decreases todo
  {
    if todo == [] {
      assert done + todo == done;
      assert EncodeSubTables(todo) + rest == rest;
    } else {
      assert todo[0].1 < todo[0];
      var tail := EncodeSubTables(todo[1..]) + rest;
      FirstSubTable(todo, rest);
      NestedRoundTrip(todo[0].1, tail);
      XpodOrder();
      InsertNext(XpodLess, done, todo);
      SubTablesRoundTrip(done + [todo[0]], todo[1..], rest);
    }
  }

  /** No encoding is a prefix of another one, and equal encodings come from equal maps. */
  lemma NestedPrefixFree(a: Nested, b: Nested, restA: seq<byte>, restB: seq<byte>)
    requires NestedOk(a) && NestedOk(b) && EncodeNested(a) + restA == EncodeNested(b) + restB
    ensures a == b && restA == restB
  {
    NestedRoundTrip(a, restA);
    NestedRoundTrip(b, restB);
  }
}

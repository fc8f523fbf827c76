/** The building blocks of the binary format: fixed-width numbers, length-prefixed strings, the hex
    text of pointers, and maps of anything that can be coded. A decoder answers the value and the
    bytes behind it, or None where the library throws or would read past the end. Words are
    little-endian and eight bytes wide. */
module Codecs {
  import opened Wrappers
  import opened OrderedMap

  lemma Joined(a: seq<byte>, b: seq<byte>, c: seq<byte>)
    ensures (a + b) + c == a + (b + c)
  {
  }

  // ---------- numbers ----------

  function Pow256(width: nat): nat {
    if width == 0 then 1 else 256 * Pow256(width - 1)
  }

  function Word(n: nat, width: nat): (bytes: seq<byte>)
    ensures |bytes| == width
  {
    if width == 0 then [] else [n % 256] + Word(n / 256, width - 1)
  }

  function Number(bytes: seq<byte>): (n: nat)
    ensures n < Pow256(|bytes|)
  {
    if bytes == [] then 0 else bytes[0] + 256 * Number(bytes[1..])
  }

  lemma {:induction false} NumberOfWord(n: nat, width: nat)
    requires n < Pow256(width)
    ensures Number(Word(n, width)) == n
  {
    if width > 0 {
      NumberOfWord(n / 256, width - 1);
      assert Word(n, width)[1..] == Word(n / 256, width - 1);
    }
  }

  lemma {:induction false} WordOfNumber(bytes: seq<byte>)
    ensures Word(Number(bytes), |bytes|) == bytes
  {
    if bytes != [] {
      WordOfNumber(bytes[1..]);
      var n := Number(bytes);
      assert n % 256 == bytes[0] && n / 256 == Number(bytes[1..]);
    }
  }

  lemma WordStep(n: nat, width: nat)
    requires width > 0
    ensures Word(n, width) == [n % 256] + Word(n / 256, width - 1)
  {
  }

  lemma {:induction false} ZeroWord(width: nat)
    ensures forall i :: 0 <= i < width ==> Word(0, width)[i] == 0
  {
    if width > 0 {
      ZeroWord(width - 1);
      assert Word(0, width)[1..] == Word(0, width - 1);
      forall i | 0 <= i < width ensures Word(0, width)[i] == 0 {
        assert i > 0 ==> Word(0, width)[i] == Word(0, width - 1)[i - 1];
      }
    }
  }

  lemma SmallWord(n: byte)
    ensures Word(n, 8) == [n, 0, 0, 0, 0, 0, 0, 0]
  {
    hide Word;
    WordStep(n, 8);
    ZeroWord(7);
  }

  /** Words are little-endian. */
  lemma WordExample()
    ensures Word(0x0102, 8) == [2, 1, 0, 0, 0, 0, 0, 0]
  {
    hide Word;
    WordStep(0x0102, 8);
    WordStep(1, 7);
    ZeroWord(6);
  }

  const SIZE_LIMIT: nat := 0x1_0000_0000_0000_0000

  type word64 = n: nat | n < SIZE_LIMIT

  lemma SizeLimitIsPow256()
    ensures Pow256(8) == SIZE_LIMIT
  {
    assert Pow256(4) == 0x1_0000_0000;
    assert Pow256(8) == 256 * 256 * 256 * 256 * Pow256(4);
  }

  function DecodeWidth(bytes: seq<byte>, width: nat): (r: Option<(nat, seq<byte>)>)
    ensures r.Some? ==> |r.value.1| == |bytes| - width && r.value.0 < Pow256(width)
  {
    if |bytes| < width then None else Some((Number(bytes[..width]), bytes[width..]))
  }

  lemma WidthRoundTrip(n: nat, width: nat, rest: seq<byte>)
    requires n < Pow256(width)
    ensures DecodeWidth(Word(n, width) + rest, width) == Some((n, rest))
  {
    NumberOfWord(n, width);
    var all := Word(n, width) + rest;
    assert all[..width] == Word(n, width) && all[width..] == rest;
  }

  // ---------- strings ----------

  function EncodeText(text: seq<byte>): seq<byte> {
    Word(|text|, 8) + text
  }

  function DecodeText(bytes: seq<byte>): (r: Option<(seq<byte>, seq<byte>)>)
    ensures r.Some? ==> |r.value.1| + 8 <= |bytes|
  {
    var size := DecodeWidth(bytes, 8);
    if size.None? || |size.value.1| < size.value.0 then None
    else Some((size.value.1[..size.value.0], size.value.1[size.value.0..]))
  }

  /** Bytes that can be read as a number or a string are the encoding of what was read, followed by what
      was left. */
  lemma WidthDecodesOnlyEncodings(bytes: seq<byte>, width: nat)
    requires DecodeWidth(bytes, width).Some?
    ensures var r := DecodeWidth(bytes, width).value; bytes == Word(r.0, width) + r.1
  {
    WordOfNumber(bytes[..width]);
  }

  lemma TextDecodesOnlyEncodings(bytes: seq<byte>)
    requires DecodeText(bytes).Some?
    ensures var r := DecodeText(bytes).value; |r.0| < SIZE_LIMIT && bytes == EncodeText(r.0) + r.1
  {
    hide Word, Number, DecodeWidth, Pow256;
    SizeLimitIsPow256();
    WidthDecodesOnlyEncodings(bytes, 8);
    var size, r := DecodeWidth(bytes, 8).value, DecodeText(bytes).value;
    assert size.1 == r.0 + r.1;
    Joined(Word(size.0, 8), r.0, r.1);
  }

  lemma TextRoundTrip(text: seq<byte>, rest: seq<byte>)
    requires |text| < SIZE_LIMIT
    ensures DecodeText(EncodeText(text) + rest) == Some((text, rest))
  {
    SizeLimitIsPow256();
    WidthRoundTrip(|text|, 8, text + rest);
    assert EncodeText(text) + rest == Word(|text|, 8) + (text + rest);
    assert (text + rest)[..|text|] == text && (text + rest)[|text|..] == rest;
  }

  // ---------- pointers as hex text ----------

  const ZERO: byte := 48
  const LETTER_X: byte := 120

  function HexDigit(d: nat): byte
    requires d < 16
  {
    if d < 10 then 48 + d else 87 + d
  }

  function HexValue(c: byte): Option<nat>
  {
    if 48 <= c <= 57 then Some(c - 48)
    else if 97 <= c <= 102 then Some(c - 87)
    else if 65 <= c <= 70 then Some(c - 55)
    else None
  }

  function HexDigits(n: nat): seq<byte> {
    if n < 16 then [HexDigit(n)] else HexDigits(n / 16) + [HexDigit(n % 16)]
  }

  function ReadDigits(text: seq<byte>): Option<nat>
  {
    if text == [] then None
    else
      var last := HexValue(text[|text| - 1]);
      if last.None? then None
      else if |text| == 1 then last
      else
        var front := ReadDigits(text[..|text| - 1]);
        if front.None? then None else Some(16 * front.value + last.value)
  }

  /** std::hex with std::showbase: a leading "0x", except for zero. */
  function PointerText(address: word64): seq<byte> {
    if address == 0 then [ZERO] else [ZERO, LETTER_X] + HexDigits(address)
  }

  /** The documented reading: a hexadecimal number with an optional leading "0x". */
  function ReadPointer(text: seq<byte>): Option<word64>
  {
    var digits := if |text| >= 2 && text[..2] == [ZERO, LETTER_X] then text[2..] else text;
    var n := ReadDigits(digits);
    if n.Some? && n.value < SIZE_LIMIT then Some(n.value) else None
  }

  lemma {:induction false} ReadHexDigits(n: nat)
    ensures ReadDigits(HexDigits(n)) == Some(n)
  {
    if n >= 16 {
      ReadHexDigits(n / 16);
      var front := HexDigits(n / 16);
      assert HexDigits(n)[..|front|] == front;
    }
  }

  lemma {:induction false} HexDigitsLength(n: nat, width: nat)
    requires width > 0 && n < Pow16(width)
    ensures 1 <= |HexDigits(n)| <= width
  {
    if n >= 16 {
      HexDigitsLength(n / 16, width - 1);
    }
  }

  function Pow16(width: nat): nat {
    if width == 0 then 1 else 16 * Pow16(width - 1)
  }

  lemma PointerTextRoundTrip(address: word64)
    ensures ReadPointer(PointerText(address)) == Some(address)
    ensures |PointerText(address)| <= 18
  {
    ReadHexDigits(address);
    assert Pow16(8) == 0x1_0000_0000;
    assert Pow16(16) == 0x1_0000_0000 * Pow16(8);
    HexDigitsLength(address, 16);
    assert ([ZERO, LETTER_X] + HexDigits(address))[2..] == HexDigits(address);
  }

  /** Reading takes upper and lower case, and an optional 0x in front. */
  lemma PointerReading(digits: seq<byte>, k: nat)
    requires ReadDigits(digits).Some? && ReadDigits(digits).value < SIZE_LIMIT && k < 6
    ensures ReadPointer(digits) == ReadPointer([48, 120] + digits) == ReadDigits(digits)
    ensures HexValue(65 + k) == HexValue(97 + k) == Some(10 + k)
  {
    hide ReadDigits;
    var prefixed := [48, 120] + digits;
    assert prefixed[..2] == [48, 120] && prefixed[2..] == digits;
    if |digits| >= 2 {
      DigitsAreHex(digits, 1);
      assert digits[..2][1] != LETTER_X;
    }
  }

  lemma {:induction false} DigitsAreHex(digits: seq<byte>, i: nat)
    requires ReadDigits(digits).Some? && i < |digits|
    ensures HexValue(digits[i]).Some?
  {
    if i < |digits| - 1 {
      DigitsAreHex(digits[..|digits| - 1], i);
    }
  }

  lemma PointerTextExample()
    ensures PointerText(0) == [48] && PointerText(0xBEEF) == [48, 120, 98, 101, 101, 102]
  {
    assert HexDigits(0xB) == [98] && HexDigits(0xBE) == [98, 101] && HexDigits(0xBEE) == [98, 101, 101];
    assert HexDigits(0xBEEF) == [98, 101, 101, 102];
  }

  // ---------- maps ----------

  /** How a type is written and read; `ok` says which values fit the format. */
  datatype Codec<!T> = Codec(
    encode: T -> seq<byte>,
    decode: seq<byte> -> Option<(T, seq<byte>)>,
    ok: T -> bool)

  ghost predicate Lawful<T(!new)>(c: Codec<T>) {
    forall v: T, rest: seq<byte> {:trigger c.decode(c.encode(v) + rest)} :: c.ok(v) ==>
      c.decode(c.encode(v) + rest) == Some((v, rest))
  }

  function EncodeEntries<K, V>(keys: Codec<K>, values: Codec<V>, m: seq<(K, V)>): seq<byte>
  {
    if m == [] then []
    else keys.encode(m[0].0) + values.encode(m[0].1) + EncodeEntries(keys, values, m[1..])
  }

  function EncodeMap<K, V>(keys: Codec<K>, values: Codec<V>, m: seq<(K, V)>): seq<byte>
  {
    Word(|m|, 8) + EncodeEntries(keys, values, m)
  }

  /** Read `count` pairs and insert them into `m`. */
  function DecodeEntries<K, V>(keys: Codec<K>, values: Codec<V>, less: Less<K>, count: nat, bytes: seq<byte>,
                               m: seq<(K, V)>): Option<(seq<(K, V)>, seq<byte>)>
    decreases count
  {
    if count == 0 then Some((m, bytes))
    else
      var key := keys.decode(bytes);
      if key.None? then None
      else
        var value := values.decode(key.value.1);
        if value.None? then None
        else DecodeEntries(keys, values, less, count - 1, value.value.1,
                           Insert(less, m, key.value.0, value.value.0))
  }

  function DecodeMap<K, V>(keys: Codec<K>, values: Codec<V>, less: Less<K>, bytes: seq<byte>)
    : Option<(seq<(K, V)>, seq<byte>)>
  {
    var count := DecodeWidth(bytes, 8);
    if count.None? then None else DecodeEntries(keys, values, less, count.value.0, count.value.1, [])
  }

  predicate EntryOk<K, V>(keys: Codec<K>, values: Codec<V>, e: (K, V)) {
    keys.ok(e.0) && values.ok(e.1)
  }

  ghost predicate MapOk<K, V>(keys: Codec<K>, values: Codec<V>, less: Less<K>, m: seq<(K, V)>)
  {
    && |m| < SIZE_LIMIT
    && Sorted(less, m)
    && forall i :: 0 <= i < |m| ==> EntryOk(keys, values, m[i])
  }

  lemma {:induction false} EntriesRoundTrip<K(!new), V(!new)>(keys: Codec<K>, values: Codec<V>, less: Less<K>,
                                                             done: seq<(K, V)>, todo: seq<(K, V)>, rest: seq<byte>)
    requires Lawful(keys) && Lawful(values) && StrictOrder(less) && Sorted(less, done + todo)
    requires forall i :: 0 <= i < |todo| ==> EntryOk(keys, values, todo[i])
    ensures DecodeEntries(keys, values, less, |todo|, EncodeEntries(keys, values, todo) + rest, done) ==
            Some((done + todo, rest))
    decreases |todo|
  {
    if todo == [] {
      assert done + todo == done;
      assert EncodeEntries(keys, values, todo) + rest == rest;
    } else {
      var (key, value) := todo[0];
      var tail := EncodeEntries(keys, values, todo[1..]) + rest;
      assert EntryOk(keys, values, todo[0]);
      assert EncodeEntries(keys, values, todo) + rest == keys.encode(key) + (values.encode(value) + tail);
      InsertNext(less, done, todo);
      EntriesRoundTrip(keys, values, less, done + [todo[0]], todo[1..], rest);
    }
  }

  /** Decoding a map's encoding, followed by any bytes, gives the map and stops at those bytes. */
  lemma MapRoundTrip<K(!new), V(!new)>(keys: Codec<K>, values: Codec<V>, less: Less<K>, m: seq<(K, V)>,
                                       rest: seq<byte>)
    requires Lawful(keys) && Lawful(values) && StrictOrder(less) && MapOk(keys, values, less, m)
    ensures DecodeMap(keys, values, less, EncodeMap(keys, values, m) + rest) == Some((m, rest))
  {
    SizeLimitIsPow256();
    var entries := EncodeEntries(keys, values, m);
    WidthRoundTrip(|m|, 8, entries + rest);
    Joined(Word(|m|, 8), entries, rest);
    assert [] + m == m;
    EntriesRoundTrip(keys, values, less, [], m, rest);
    hide Lawful, EncodeEntries, DecodeEntries, Word, DecodeWidth, Sorted, StrictOrder;
  }
}

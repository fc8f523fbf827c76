/** The serializers as they run: appending to a stream, or moving a cursor while filling a map. The
    cursor is the part of the memory still to be read. */
module Serializers {
  import opened Wrappers
  import opened OrderedMap
  import opened Codecs
  import opened Serialization
  import opened Buffer

  method WriteText(text: seq<byte>, stream: ByteBuffer)
    requires stream.Valid()
    modifies stream
    ensures stream.Valid() && stream.Contents() == old(stream.Contents()) + EncodeText(text)
  {
    stream.Append(Word(|text|, 8));
    for i := 0 to |text|
      invariant stream.Valid()
      invariant stream.Contents() == old(stream.Contents()) + Word(|text|, 8) + text[..i]
    {
      stream.Append([text[i]]);
      assert text[..i + 1] == text[..i] + [text[i]];
    }
    assert text[..|text|] == text;
  }

  method WriteXpod(x: Xpod, stream: ByteBuffer)
    requires stream.Valid()
    modifies stream
    ensures stream.Valid() && stream.Contents() == old(stream.Contents()) + EncodeXpod(x)
  {
    stream.Append([TypeIndex(x)]);
    WriteBody(x, stream);
    Joined(old(stream.Contents()), [TypeIndex(x)], EncodeBody(x));
  }

  method WriteBody(x: Xpod, stream: ByteBuffer)
    requires stream.Valid()
    modifies stream
    ensures stream.Valid() && stream.Contents() == old(stream.Contents()) + EncodeBody(x)
  {
    match x {
      case Integer(i) => stream.Append(Word(Unsigned(i), 8));
      case Double(bits) => stream.Append(Word(bits, 8));
      case Boolean(b) => stream.Append([if b then 1 else 0]);
      case Pointer(address) => WriteText(PointerText(address), stream);
      case Text(text) => WriteText(text, stream);
    }
  }

  method WriteMap<K, V>(keys: Codec<K>, values: Codec<V>, m: seq<(K, V)>, stream: ByteBuffer)
    requires stream.Valid()
    modifies stream
    ensures stream.Valid() && stream.Contents() == old(stream.Contents()) + EncodeMap(keys, values, m)
  {
    stream.Append(Word(|m|, 8));
    for i := 0 to |m|
      invariant stream.Valid()
      invariant stream.Contents() + EncodeEntries(keys, values, m[i..]) ==
                old(stream.Contents()) + EncodeMap(keys, values, m)
    {
      ghost var c, key, value := stream.Contents(), keys.encode(m[i].0), values.encode(m[i].1);
      stream.Append(keys.encode(m[i].0));
      stream.Append(values.encode(m[i].1));
      Joined(c, key, value);
      Joined(c, key + value, EncodeEntries(keys, values, m[i + 1..]));
      assert m[i..][1..] == m[i + 1..];
    }
  }

  /** The decoding loop reads the count and then that many pairs, whatever the bytes are. */
  method ReadMap<K, V>(keys: Codec<K>, values: Codec<V>, less: Less<K>, start: seq<byte>)
    returns (r: Option<(seq<(K, V)>, seq<byte>)>)
    ensures r == DecodeMap(keys, values, less, start)
  {
    var size := DecodeWidth(start, 8);
    if size.None? {
      return None;
    }
    var count, it := size.value.0, size.value.1;
    var m: seq<(K, V)> := [];
    for i := 0 to count
      invariant DecodeMap(keys, values, less, start) == DecodeEntries(keys, values, less, count - i, it, m)
    {
      var key := keys.decode(it);
      if key.None? {
        return None;
      }
      var value := values.decode(key.value.1);
      if value.None? {
        return None;
      }
      it := value.value.1;
      m := Insert(less, m, key.value.0, value.value.0);
    }
    return Some((m, it));
  }

  method WriteNested(n: Nested, stream: ByteBuffer)
    requires stream.Valid()
    modifies stream
    ensures stream.Valid() && stream.Contents() == old(stream.Contents()) + EncodeNested(n)
    decreases n, 0
  {
    WriteMap(XPOD, XPOD, n.data, stream);
    stream.Append(Word(|n.subTables|, 8));
    WriteSubTables(n.subTables, stream);
    ghost var c, data, size := old(stream.Contents()), EncodeMap(XPOD, XPOD, n.data), Word(|n.subTables|, 8);
    Joined(c, data, size);
    Joined(c, data + size, EncodeSubTables(n.subTables));
  }

  lemma NextSubTable(tables: seq<(Xpod, Nested)>, i: nat)
    requires i < |tables|
    ensures EncodeSubTables(tables[i..]) ==
            EncodeXpod(tables[i].0) + EncodeNested(tables[i].1) + EncodeSubTables(tables[i + 1..])
  {
    assert tables[i..][0] == tables[i] && tables[i..][1..] == tables[i + 1..];
  }

  lemma ElementSmaller(tables: seq<(Xpod, Nested)>, i: nat)
    requires i < |tables|
    ensures tables decreases to tables[i].1
  {
    assert tables[i].1 < tables[i];
  }

  method WriteSubTables(tables: seq<(Xpod, Nested)>, stream: ByteBuffer)
    requires stream.Valid()
    modifies stream
    ensures stream.Valid() && stream.Contents() == old(stream.Contents()) + EncodeSubTables(tables)
    decreases tables
  {
    for i := 0 to |tables|
      invariant stream.Valid()
      invariant stream.Contents() + EncodeSubTables(tables[i..]) == old(stream.Contents()) + EncodeSubTables(tables)
    {
      NextSubTable(tables, i);
      ElementSmaller(tables, i);
      ghost var c, key, table := stream.Contents(), EncodeXpod(tables[i].0), EncodeNested(tables[i].1);
      WriteXpod(tables[i].0, stream);
      WriteNested(tables[i].1, stream);
      Joined(c, key, table);
      Joined(c, key + table, EncodeSubTables(tables[i + 1..]));
    }
  }

  method ReadNested(start: seq<byte>) returns (r: Option<(Nested, seq<byte>)>)
    ensures r == DecodeNested(start)
    decreases |start|, 0
  {
    var data := ReadMap(XPOD, XPOD, XpodLess, start);
    if data.None? {
      return None;
    }
    assert data == DecodeData(start);
    var size := DecodeWidth(data.value.1, 8);
    if size.None? {
      return None;
    }
    var tables := ReadSubTables(size.value.0, size.value.1);
    return if tables.None? then None else Some((Nested(data.value.0, tables.value.0), tables.value.1));
  }

  lemma NextDecoded(count: nat, it: seq<byte>, tables: seq<(Xpod, Nested)>)
    requires count > 0
    ensures DecodeSubTables(count, it, tables) ==
            var key := DecodeXpod(it);
            if key.None? then None
            else
              var table := DecodeNested(key.value.1);
              if table.None? then None
              else DecodeSubTables(count - 1, table.value.1, Insert(XpodLess, tables, key.value.0, table.value.0))
  {
  }

  lemma AllDecoded(it: seq<byte>, tables: seq<(Xpod, Nested)>)
    ensures DecodeSubTables(0, it, tables) == Some((tables, it))
  {
  }

  method ReadSubTables(count: nat, start: seq<byte>) returns (r: Option<(seq<(Xpod, Nested)>, seq<byte>)>)
    ensures r == DecodeSubTables(count, start, [])
    decreases |start|, 1
  {
    hide DecodeSubTables, DecodeNested, DecodeXpod, Insert;
    var it := start;
    var tables: seq<(Xpod, Nested)> := [];
    for i := 0 to count
      invariant |it| <= |start|
      invariant DecodeSubTables(count, start, []) == DecodeSubTables(count - i, it, tables)
    {
      NextDecoded(count - i, it, tables);
      var key := DecodeXpod(it);
      if key.None? {
        return None;
      }
      var table := ReadNested(key.value.1);
      if table.None? {
        return None;
      }
      it := table.value.1;
      tables := Insert(XpodLess, tables, key.value.0, table.value.0);
    }
    AllDecoded(it, tables);
    return Some((tables, it));
  }
}

/** The JSON-like text of nested maps with string keys and values, and a reader that recovers the map:
    the text determines the map at any depth. Text is a sequence of bytes. */
module Json {
  import opened Wrappers
  import opened Escape
  import opened Buffer
  import opened Codecs

  const QUOTE: byte := 34
  const COMMA: byte := 44
  const COLON: byte := 58
  const BACKSLASH: byte := 92
  const OPEN: byte := 123
  const CLOSE: byte := 125

  /** Backslash, quote, carriage return, line feed, tab, form feed, backspace. */
  const ESCAPABLE: seq<byte> := [92, 34, 13, 10, 9, 12, 8]

  datatype Table = Table(data: seq<(seq<byte>, seq<byte>)>, subTables: seq<(seq<byte>, Table)>)

  // ---------- printing ----------

  function Printed(text: seq<byte>): seq<byte> {
    [QUOTE] + Escaped(text, BACKSLASH, ESCAPABLE) + [QUOTE]
  }

  function Separator(first: bool): seq<byte> {
    if first then [] else [COMMA]
  }

  /** One printed member in front of `more`. */
  function Member(first: bool, key: seq<byte>, value: seq<byte>, more: seq<byte>): seq<byte> {
    Separator(first) + (Printed(key) + ([COLON] + (value + more)))
  }

  function PrintedData(data: seq<(seq<byte>, seq<byte>)>, first: bool): seq<byte>
    decreases |data|
  {
    if data == [] then []
    else Member(first, data[0].0, Printed(data[0].1), PrintedData(data[1..], false))
  }

  function PrintedTables(tables: seq<(seq<byte>, Table)>, first: bool): seq<byte>
    decreases tables
  {
    if tables == [] then []
    else
      assert tables[0].1 < tables[0];
      Member(first, tables[0].0, PrintedTable(tables[0].1), PrintedTables(tables[1..], false))
  }

  function PrintedTable(t: Table): seq<byte>
    decreases t, 0
  {
    [OPEN] + (PrintedData(t.data, true) + (PrintedTables(t.subTables, t.data == []) + [CLOSE]))
  }

  // ---------- reading ----------

  /** The rest of a string after its opening quote. */
  function ReadTail(s: seq<byte>): (r: Option<(seq<byte>, seq<byte>)>)
    ensures r.Some? ==> |r.value.1| < |s|
  {
    if s == [] then None
    else if s[0] == QUOTE then Some(([], s[1..]))
    else if s[0] == BACKSLASH then
      if |s| == 1 then None
      else
        var r := ReadTail(s[2..]);
        if r.None? then None else Some(([s[1]] + r.value.0, r.value.1))
    else
      var r := ReadTail(s[1..]);
      if r.None? then None else Some(([s[0]] + r.value.0, r.value.1))
  }

  function ReadString(s: seq<byte>): (r: Option<(seq<byte>, seq<byte>)>)
    ensures r.Some? ==> |r.value.1| < |s|
  {
    if s == [] || s[0] != QUOTE then None else ReadTail(s[1..])
  }

  function ReadTable(s: seq<byte>): (r: Option<(Table, seq<byte>)>)
    ensures r.Some? ==> |r.value.1| < |s|
    decreases |s|
  {
    if s == [] || s[0] != OPEN then None else ReadMembers(s[1..], true, Table([], []))
  }

  /** The members still to come, added to those read so far. */
  function ReadMembers(s: seq<byte>, first: bool, t: Table): (r: Option<(Table, seq<byte>)>)
    ensures r.Some? ==> |r.value.1| < |s|
    decreases |s|
  {
    if s == [] then None
    else if s[0] == CLOSE then Some((t, s[1..]))
    else if !first && s[0] != COMMA then None
    else
      var key := ReadString(if first then s else s[1..]);
      if key.None? || key.value.1 == [] || key.value.1[0] != COLON then None
      else
        var rest := key.value.1[1..];
        if rest != [] && rest[0] == QUOTE then
          var value := ReadString(rest);
          if value.None? then None
          else ReadMembers(value.value.1, false, t.(data := t.data + [(key.value.0, value.value.0)]))
        else
          var sub := ReadTable(rest);
          if sub.None? then None
          else ReadMembers(sub.value.1, false, t.(subTables := t.subTables + [(key.value.0, sub.value.0)]))
  }

  // ---------- the reader recovers the map ----------

  function Prepended(c: byte, tail: Option<(seq<byte>, seq<byte>)>): Option<(seq<byte>, seq<byte>)> {
    if tail.None? then None else Some(([c] + tail.value.0, tail.value.1))
  }

  lemma ReadEscapedChar(c: byte, tail: seq<byte>)
    ensures ReadTail([BACKSLASH, c] + tail) == Prepended(c, ReadTail(tail))
  {
    assert ([BACKSLASH, c] + tail)[2..] == tail;
  }

  lemma ReadPlainChar(c: byte, tail: seq<byte>)
    requires c != BACKSLASH && c != QUOTE
    ensures ReadTail([c] + tail) == Prepended(c, ReadTail(tail))
  {
    assert ([c] + tail)[1..] == tail;
  }

  /** The reader takes the first character, escaped or not, off the printed text. */
  lemma FirstEscapedIsRead(text: seq<byte>, rest: seq<byte>)
    requires text != []
    ensures ReadTail(Escaped(text, BACKSLASH, ESCAPABLE) + rest) ==
            Prepended(text[0], ReadTail(Escaped(text[1..], BACKSLASH, ESCAPABLE) + rest))
  {
    hide ReadTail;
    var more := Escaped(text[1..], BACKSLASH, ESCAPABLE);
    if text[0] in ESCAPABLE {
      Joined([BACKSLASH, text[0]], more, rest);
      ReadEscapedChar(text[0], more + rest);
    } else {
      assert ESCAPABLE[0] == BACKSLASH && ESCAPABLE[1] == QUOTE;
      Joined([text[0]], more, rest);
      ReadPlainChar(text[0], more + rest);
    }
  }

  lemma {:induction false} ReadEscaped(text: seq<byte>, rest: seq<byte>)
    ensures ReadTail(Escaped(text, BACKSLASH, ESCAPABLE) + ([QUOTE] + rest)) == Some((text, rest))
  {
    if text == [] {
      assert Escaped(text, BACKSLASH, ESCAPABLE) + ([QUOTE] + rest) == [QUOTE] + rest;
    } else {
      ReadEscaped(text[1..], rest);
      FirstEscapedIsRead(text, [QUOTE] + rest);
      assert text == [text[0]] + text[1..];
    }
  }

  lemma ReadPrinted(text: seq<byte>, rest: seq<byte>)
    ensures ReadString(Printed(text) + rest) == Some((text, rest))
  {
    ReadEscaped(text, rest);
    assert (Printed(text) + rest)[1..] == Escaped(text, BACKSLASH, ESCAPABLE) + ([QUOTE] + rest);
  }

  lemma MemberPrefix(first: bool, key: seq<byte>, value: seq<byte>, more: seq<byte>, rest: seq<byte>)
    ensures Member(first, key, value, more) + rest == Member(first, key, value, more + rest)
  {
    var colon := [COLON] + (value + more);
    assert (value + more) + rest == value + (more + rest);
    assert colon + rest == [COLON] + ((value + more) + rest);
    assert (Printed(key) + colon) + rest == Printed(key) + (colon + rest);
    assert Member(first, key, value, more) + rest == Separator(first) + ((Printed(key) + colon) + rest);
  }

  /** The reader takes the separator, the key and the colon off a member. */
  lemma ReadKey(first: bool, key: seq<byte>, value: seq<byte>, more: seq<byte>)
    ensures var s := Member(first, key, value, more);
            && s != [] && s[0] != CLOSE && (!first ==> s[0] == COMMA)
            && ReadString(if first then s else s[1..]) == Some((key, [COLON] + (value + more)))
            && ([COLON] + (value + more))[1..] == value + more
  {
    var s := Member(first, key, value, more);
    var body := Printed(key) + ([COLON] + (value + more));
    assert (if first then s else s[1..]) == body;
    assert body[0] == QUOTE;
    ReadPrinted(key, [COLON] + (value + more));
  }

  lemma ReadValueMember(first: bool, key: seq<byte>, value: seq<byte>, more: seq<byte>, t: Table)
    ensures ReadMembers(Member(first, key, Printed(value), more), first, t) ==
            ReadMembers(more, false, t.(data := t.data + [(key, value)]))
  {
    ReadKey(first, key, Printed(value), more);
    ReadPrinted(value, more);
    assert (Printed(value) + more)[0] == QUOTE;
  }

  lemma ReadTableMember(first: bool, key: seq<byte>, sub: Table, more: seq<byte>, t: Table)
    requires ReadTable(PrintedTable(sub) + more) == Some((sub, more))
    ensures ReadMembers(Member(first, key, PrintedTable(sub), more), first, t) ==
            ReadMembers(more, false, t.(subTables := t.subTables + [(key, sub)]))
  {
    ReadKey(first, key, PrintedTable(sub), more);
    assert (PrintedTable(sub) + more)[0] == OPEN;
  }

  lemma NothingPrinted(first: bool, rest: seq<byte>)
    ensures PrintedData([], first) + rest == rest && PrintedTables([], first) + rest == rest
  {
  }

  lemma ReadFirstValue(data: seq<(seq<byte>, seq<byte>)>, first: bool, t: Table, rest: seq<byte>)
    requires data != []
    ensures ReadMembers(PrintedData(data, first) + rest, first, t) ==
            ReadMembers(PrintedData(data[1..], false) + rest, false, t.(data := t.data + [data[0]]))
  {
    var more := PrintedData(data[1..], false);
    MemberPrefix(first, data[0].0, Printed(data[0].1), more, rest);
    ReadValueMember(first, data[0].0, data[0].1, more + rest, t);
  }

  lemma {:induction false} ReadData(data: seq<(seq<byte>, seq<byte>)>, first: bool, t: Table, rest: seq<byte>)
    ensures ReadMembers(PrintedData(data, first) + rest, first, t) ==
            ReadMembers(rest, first && data == [], t.(data := t.data + data))
    decreases |data|
  {
    hide ReadMembers, PrintedData;
    if data == [] {
      NothingPrinted(first, rest);
      assert t.(data := t.data + data) == t;
    } else {
      var t' := t.(data := t.data + [data[0]]);
      ReadFirstValue(data, first, t, rest);
      ReadData(data[1..], false, t', rest);
      assert t'.(data := t'.data + data[1..]) == t.(data := t.data + data);
    }
  }

  lemma ReadFirstTable(tables: seq<(seq<byte>, Table)>, first: bool, t: Table, rest: seq<byte>)
    requires tables != []
    requires var more := PrintedTables(tables[1..], false) + rest;
             ReadTable(PrintedTable(tables[0].1) + more) == Some((tables[0].1, more))
    ensures ReadMembers(PrintedTables(tables, first) + rest, first, t) ==
            ReadMembers(PrintedTables(tables[1..], false) + rest, false, t.(subTables := t.subTables + [tables[0]]))
  {
    var more := PrintedTables(tables[1..], false);
    MemberPrefix(first, tables[0].0, PrintedTable(tables[0].1), more, rest);
    ReadTableMember(first, tables[0].0, tables[0].1, more + rest, t);
  }

  lemma {:induction false} ReadTables(tables: seq<(seq<byte>, Table)>, first: bool, t: Table, rest: seq<byte>)
    ensures ReadMembers(PrintedTables(tables, first) + rest, first, t) ==
            ReadMembers(rest, first && tables == [], t.(subTables := t.subTables + tables))
    decreases tables
  {
    hide ReadMembers, ReadTable, PrintedTables, PrintedTable;
    if tables == [] {
      NothingPrinted(first, rest);
      assert t.(subTables := t.subTables + tables) == t;
    } else {
      assert tables[0].1 < tables[0];
      ReadPrintedTable(tables[0].1, PrintedTables(tables[1..], false) + rest);
      var t' := t.(subTables := t.subTables + [tables[0]]);
      ReadFirstTable(tables, first, t, rest);
      ReadTables(tables[1..], false, t', rest);
      assert t'.(subTables := t'.subTables + tables[1..]) == t.(subTables := t.subTables + tables);
    }
  }

  lemma PrintedTableParts(t: Table, rest: seq<byte>)
    ensures var tail := PrintedTables(t.subTables, t.data == []) + ([CLOSE] + rest);
            && PrintedTable(t) + rest != [] && (PrintedTable(t) + rest)[0] == OPEN
            && (PrintedTable(t) + rest)[1..] == PrintedData(t.data, true) + tail
  {
    var tables := PrintedTables(t.subTables, t.data == []);
    var body := PrintedData(t.data, true) + (tables + [CLOSE]);
    Joined(tables, [CLOSE], rest);
    Joined(PrintedData(t.data, true), tables + [CLOSE], rest);
    assert ([OPEN] + body) + rest == [OPEN] + (body + rest);
  }

  /** Reading the text of a table of any depth, followed by anything, gives the table back, also when
      a key occurs both among the values and among the sub-tables. */
  lemma {:induction false} ReadPrintedTable(t: Table, rest: seq<byte>)
    ensures ReadTable(PrintedTable(t) + rest) == Some((t, rest))
    decreases t, 0
  {
    var tail := PrintedTables(t.subTables, t.data == []) + ([CLOSE] + rest);
    PrintedTableParts(t, rest);
    ReadData(t.data, true, Table([], []), tail);
    assert [] + t.data == t.data && [] + t.subTables == t.subTables;
    ReadTables(t.subTables, t.data == [], Table(t.data, []), [CLOSE] + rest);
    assert ([CLOSE] + rest)[1..] == rest;
  }

  /** The printer is injective. */
  lemma PrinterIsInjective(a: Table, b: Table)
    requires PrintedTable(a) == PrintedTable(b)
    ensures a == b
  {
    ReadPrintedTable(a, []);
    ReadPrintedTable(b, []);
    assert PrintedTable(a) + [] == PrintedTable(a) && PrintedTable(b) + [] == PrintedTable(b);
  }

  /** A backslash goes before the backslash, the quote, carriage return, line feed, tab, form feed and
      backspace, and before nothing else. */
  lemma PrintedCharacter(c: byte)
    ensures Printed([c]) == if c == 92 || c == 34 || c == 13 || c == 10 || c == 9 || c == 12 || c == 8
                            then [34, 92, c, 34] else [34, c, 34]
  {
    EscapedJoin([c], [], BACKSLASH, ESCAPABLE);
    assert ESCAPABLE[0] == 92 && ESCAPABLE[1] == 34 && ESCAPABLE[2] == 13 && ESCAPABLE[3] == 10;
    assert ESCAPABLE[4] == 9 && ESCAPABLE[5] == 12 && ESCAPABLE[6] == 8;
  }

  /** The text {"a":"x\"y","b":{}} for the value x"y under a and an empty sub-table under b. */
  lemma PrintedExample()
    ensures PrintedTable(Table([([97], [120, 34, 121])], [([98], Table([], []))])) ==
            [123, 34, 97, 34, 58, 34, 120, 92, 34, 121, 34, 44, 34, 98, 34, 58, 123, 125, 125]
  {
    ExampleData();
    ExampleTables();
    hide PrintedData, PrintedTables;
  }

  lemma PlainPrinted(c: byte)
    requires c !in ESCAPABLE
    ensures Printed([c]) == [34, c, 34]
  {
    EscapedJoin([c], [], BACKSLASH, ESCAPABLE);
  }

  lemma ExampleData()
    ensures PrintedData([([97], [120, 34, 121])], true) == [34, 97, 34, 58, 34, 120, 92, 34, 121, 34]
  {
    hide Printed;
    PlainPrinted(97);
    ExampleValue();
    NothingMore();
  }

  lemma ExampleValue()
    ensures Printed([120, 34, 121]) == [34, 120, 92, 34, 121, 34]
  {
    hide Escaped;
    EscapedJoin([120], [34, 121], BACKSLASH, ESCAPABLE);
    EscapedJoin([34], [121], BACKSLASH, ESCAPABLE);
    EscapedJoin([121], [], BACKSLASH, ESCAPABLE);
    assert ESCAPABLE[1] == 34 && [120] + [34, 121] == [120, 34, 121] && [34] + [121] == [34, 121];
  }

  lemma NothingMore()
    ensures PrintedData([], false) == [] && PrintedTables([], false) == [] && PrintedTable(Table([], [])) == [123, 125]
  {
  }

  lemma ExampleTables()
    ensures PrintedTables([([98], Table([], []))], false) == [44, 34, 98, 34, 58, 123, 125]
  {
    PlainPrinted(98);
    NothingMore();
    hide Escaped, Printed, PrintedTable;
  }

  // ---------- the printer as it runs ----------

  method WriteString(text: seq<byte>, stream: ByteBuffer)
    requires stream.Valid()
    modifies stream
    ensures stream.Valid() && stream.Contents() == old(stream.Contents()) + Printed(text)
  {
    stream.Append([QUOTE]);
    var escaped := EscapeString(text, BACKSLASH, ESCAPABLE);
    stream.Append(escaped);
    stream.Append([QUOTE]);
  }

  method WriteSeparator(first: bool, stream: ByteBuffer)
    requires stream.Valid()
    modifies stream
    ensures stream.Valid() && stream.Contents() == old(stream.Contents()) + Separator(first)
  {
    if !first {
      stream.Append([COMMA]);
    }
  }

  lemma MemberWritten(c: seq<byte>, first: bool, key: seq<byte>, value: seq<byte>, more: seq<byte>)
    ensures (c + Separator(first) + Printed(key) + [COLON] + value) + more == c + Member(first, key, value, more)
  {
    var c1 := c + Separator(first);
    var c2 := c1 + Printed(key);
    var c3 := c2 + [COLON];
    Joined(c3, value, more);
    Joined(c2, [COLON], value + more);
    Joined(c1, Printed(key), [COLON] + (value + more));
    Joined(c, Separator(first), Printed(key) + ([COLON] + (value + more)));
  }

  lemma NextValue(data: seq<(seq<byte>, seq<byte>)>, i: nat, first: bool)
    requires i < |data|
    ensures PrintedData(data[i..], first) ==
            Member(first, data[i].0, Printed(data[i].1), PrintedData(data[i + 1..], false))
  {
    assert data[i..][1..] == data[i + 1..];
  }

  /** The first loop; answers the comma state it ends with. */
  method WriteData(data: seq<(seq<byte>, seq<byte>)>, stream: ByteBuffer) returns (first: bool)
    requires stream.Valid()
    modifies stream
    ensures stream.Valid() && stream.Contents() == old(stream.Contents()) + PrintedData(data, true)
    ensures first <==> data == []
  {
    first := true;
    for i := 0 to |data|
      invariant stream.Valid()
      invariant first == (i == 0)
      invariant stream.Contents() + PrintedData(data[i..], first) == old(stream.Contents()) + PrintedData(data, true)
    {
      NextValue(data, i, first);
      MemberWritten(stream.Contents(), first, data[i].0, Printed(data[i].1), PrintedData(data[i + 1..], false));
      WriteSeparator(first, stream);
      first := false;
      WriteString(data[i].0, stream);
      stream.Append([COLON]);
      WriteString(data[i].1, stream);
    }
  }

  lemma NextTable(tables: seq<(seq<byte>, Table)>, i: nat, first: bool)
    requires i < |tables|
    ensures PrintedTables(tables[i..], first) ==
            Member(first, tables[i].0, PrintedTable(tables[i].1), PrintedTables(tables[i + 1..], false))
    ensures tables decreases to tables[i].1
  {
    assert tables[i..][0] == tables[i] && tables[i..][1..] == tables[i + 1..];
    assert tables[i].1 < tables[i];
  }

  /** The second loop goes on with the comma state of the first and recurses into each sub-table. */
  method WriteTables(tables: seq<(seq<byte>, Table)>, start: bool, stream: ByteBuffer)
    requires stream.Valid()
    modifies stream
    ensures stream.Valid() && stream.Contents() == old(stream.Contents()) + PrintedTables(tables, start)
    decreases tables
  {
    var first := start;
    for i := 0 to |tables|
      invariant stream.Valid()
      invariant first == (start && i == 0)
      invariant stream.Contents() + PrintedTables(tables[i..], first) ==
                old(stream.Contents()) + PrintedTables(tables, start)
    {
      NextTable(tables, i, first);
      MemberWritten(stream.Contents(), first, tables[i].0, PrintedTable(tables[i].1),
                    PrintedTables(tables[i + 1..], false));
      WriteSeparator(first, stream);
      first := false;
      WriteString(tables[i].0, stream);
      stream.Append([COLON]);
      WriteTable(tables[i].1, stream);
    }
  }

  method WriteTable(t: Table, stream: ByteBuffer)
    requires stream.Valid()
    modifies stream
    ensures stream.Valid() && stream.Contents() == old(stream.Contents()) + PrintedTable(t)
    decreases t, 0
  {
    ghost var c, data, tables :=
      stream.Contents(), PrintedData(t.data, true), PrintedTables(t.subTables, t.data == []);
    stream.Append([OPEN]);
    var first := WriteData(t.data, stream);
    WriteTables(t.subTables, first, stream);
    stream.Append([CLOSE]);
    Joined(c + [OPEN] + data, tables, [CLOSE]);
    Joined(c + [OPEN], data, tables + [CLOSE]);
    Joined(c, [OPEN], data + (tables + [CLOSE]));
  }
}

/** The reply to a statement: an OK packet, or a text result set ("Text Resultset") made of a
    column count, column definitions, EOF, rows, EOF. Two server paths send it: COM_QUERY and
    COM_STMT_EXECUTE. The client side is the protocol's own reading of it. */
module ResultSet {
  import opened Bits
  import opened LenEnc
  import opened Packets

  /** A driver value; Other carries the text the default case prints it as. */
  datatype Value = Nil | Raw(bytes: Bytes) | Str(text: Bytes) | Other(printed: Bytes)

  type Row = map<Bytes, Value>

  datatype SQLResult = SQLResult(columns: seq<Bytes>, rows: seq<Row>, affected: int, lastInsertID: int)

  const DEF: Bytes := [100, 101, 102]
  const EOF_PAYLOAD: Bytes := [0xfe, 0x00, 0x00, 0x02, 0x00]

  datatype Cell = NullCell | Text(bytes: Bytes)

  /** What the client must see for one column of one row; a missing name reads as nil. */
  function CellOf(row: Row, col: Bytes): Cell {
    if col !in row then NullCell
    else match row[col]
      case Nil => NullCell
      case Raw(b) => Text(b)
      case Str(s) => Text(s)
      case Other(s) => Text(s)
  }

  function CellPayload(cell: Cell): Bytes {
    match cell
    case NullCell => [NULL_CELL]
    case Text(b) => EncodeString(b)
  }

  function CellsPayload(cells: seq<Cell>): Bytes {
    if cells == [] then [] else CellPayload(cells[0]) + CellsPayload(cells[1..])
  }

  function CellsOf(row: Row, columns: seq<Bytes>): (r: seq<Cell>)
    ensures |r| == |columns|
  {
    seq(|columns|, i requires 0 <= i < |columns| => CellOf(row, columns[i]))
  }

  function RowPayload(row: Row, columns: seq<Bytes>): Bytes {
    CellsPayload(CellsOf(row, columns))
  }

  /** The fields of a column definition ("Protocol::ColumnDefinition41"). */
  datatype Definition = Definition(catalog: Bytes, schema: Bytes, table: Bytes, orgTable: Bytes,
                                   name: Bytes, orgName: Bytes,
                                   length: nat, colType: byte, flags: nat, decimals: byte)

  /** Everything after the six strings; the character set is utf8mb4_general_ci. */
  function DefinitionTail(d: Definition): Bytes {
    [0x0c, 0x21, 0x00] + LittleEndian(d.length, 4) + [d.colType] + LittleEndian(d.flags, 2) + [d.decimals, 0x00, 0x00]
  }

  function StringsPayload(ss: seq<Bytes>): Bytes {
    if ss == [] then [] else EncodeString(ss[0]) + StringsPayload(ss[1..])
  }

  function DefinitionStrings(d: Definition): seq<Bytes> {
    [d.catalog, d.schema, d.table, d.orgTable, d.name, d.orgName]
  }

  function DefinitionPayload(d: Definition): Bytes {
    StringsPayload(DefinitionStrings(d)) + DefinitionTail(d)
  }

  /** What the replies say of a column: its name twice, length 256, type VAR_STRING, no flags. */
  function ColumnOf(name: Bytes): Definition {
    Definition(DEF, [], [], [], name, name, 256, 0xfd, 0, 0)
  }

  function ColumnPayload(name: Bytes): Bytes {
    DefinitionPayload(ColumnOf(name))
  }

  function ColumnPayloads(columns: seq<Bytes>): (r: seq<Bytes>)
    ensures |r| == |columns|
  {
    seq(|columns|, i requires 0 <= i < |columns| => ColumnPayload(columns[i]))
  }

  function RowPayloads(rows: seq<Row>, columns: seq<Bytes>): (r: seq<Bytes>)
    ensures |r| == |rows|
  {
    seq(|rows|, i requires 0 <= i < |rows| => RowPayload(rows[i], columns))
  }

  function OkPayload(affected: int, lastInsertID: int): Bytes {
    [0x00] + Encode(ToU64(affected)) + Encode(ToU64(lastInsertID)) + [0x02, 0x00] + [0x00, 0x00]
  }

  function Head(res: SQLResult): seq<Bytes> {
    [Encode(ToU64(|res.columns|))] + ColumnPayloads(res.columns) + [EOF_PAYLOAD]
  }

  function Payloads(res: SQLResult): seq<Bytes> {
    if res.columns == [] then [OkPayload(res.affected, res.lastInsertID)]
    else Head(res) + RowPayloads(res.rows, res.columns) + [EOF_PAYLOAD]
  }

  // ---------- the server side ----------

  method WriteEOFPacket(conn: Conn, seqId: byte)
    modifies conn`output
    ensures conn.output == old(conn.output) + Frame(seqId, EOF_PAYLOAD)
  {
    var payload := new Buffer();
    payload.WriteByte(0xfe);
    payload.Write([0x00, 0x00]);
    payload.Write([0x02, 0x00]);
    assert payload.data == EOF_PAYLOAD;
    conn.WritePacket(seqId, payload.data);
  }

  method WriteLengthEncodedIntPacket(conn: Conn, seqId: byte, v: u64)
    modifies conn`output
    ensures conn.output == old(conn.output) + Frame(seqId, Encode(v))
  {
    var payload := new Buffer();
    payload.WriteLenEncInt(v);
    assert payload.data == Encode(v);
    conn.WritePacket(seqId, payload.data);
  }

  method WriteStrings(payload: Buffer, ss: seq<Bytes>)
    modifies payload
    ensures payload.data == old(payload.data) + StringsPayload(ss)
  {
    for i := 0 to |ss|
      invariant payload.data + StringsPayload(ss[i..]) == old(payload.data) + StringsPayload(ss)
    {
      Assoc(payload.data, EncodeString(ss[i]), StringsPayload(ss[i + 1..]));
      assert ss[i..][1..] == ss[i + 1..];
      payload.WriteLenEncString(ss[i]);
    }
    assert payload.data + [] == payload.data;
  }

  lemma TailJoins(s: Bytes, length: Bytes, colType: byte, flags: Bytes, decimals: byte)
    ensures [] + s + [0x0c] + [0x21] + [0x00] + length + [colType] + flags + [decimals] + [0x00, 0x00]
         == s + ([0x0c, 0x21, 0x00] + length + [colType] + flags + [decimals, 0x00, 0x00])
  {
  }

  method WriteColumnDefinitionPacket(conn: Conn, seqId: byte, d: Definition)
    requires d.length < 0x1_0000_0000 && d.flags < 0x1_0000
    modifies conn`output
    ensures conn.output == old(conn.output) + Frame(seqId, DefinitionPayload(d))
  {
    hide LittleEndian, StringsPayload, DefinitionStrings, Frame;
    var payload := new Buffer();
    WriteStrings(payload, DefinitionStrings(d));
    payload.WriteByte(0x0c);
    payload.WriteByte(0x21);
    payload.WriteByte(0x00);
    payload.WriteShifted(d.length, 4);
    payload.WriteByte(d.colType);
    payload.WriteShifted(d.flags, 2);
    payload.WriteByte(d.decimals);
    payload.Write([0x00, 0x00]);
    TailJoins(StringsPayload(DefinitionStrings(d)), LittleEndian(d.length, 4), d.colType,
              LittleEndian(d.flags, 2), d.decimals);
    conn.WritePacket(seqId, payload.data);
  }

  method WriteTextRowPacket(conn: Conn, seqId: byte, columns: seq<Bytes>, row: Row)
    modifies conn`output
    ensures conn.output == old(conn.output) + Frame(seqId, RowPayload(row, columns))
  {
    var payload := new Buffer();
    ghost var cells := CellsOf(row, columns);
    for i := 0 to |columns|
      invariant payload.data + CellsPayload(cells[i..]) == CellsPayload(cells)
      invariant conn.output == old(conn.output)
    {
      assert cells[i..][1..] == cells[i + 1..];
      Assoc(payload.data, CellPayload(cells[i]), CellsPayload(cells[i + 1..]));
      var col := columns[i];
      var v := if col in row then row[col] else Nil;
      match v {
        case Nil => payload.WriteByte(NULL_CELL);
        case Raw(b) => payload.WriteLenEncString(b);
        case Str(s) => payload.WriteLenEncString(s);
        case Other(s) => payload.WriteLenEncString(s);
      }
    }
    assert cells[|columns|..] == [];
    assert payload.data + [] == payload.data;
    conn.WritePacket(seqId, payload.data);
  }

  method SendOKPacketWithStats(conn: Conn, seqId: byte, affected: int, lastInsertID: int)
    modifies conn`output
    ensures conn.output == old(conn.output) + Frame(seqId, OkPayload(affected, lastInsertID))
  {
    var payload := new Buffer();
    payload.WriteByte(0x00);
    payload.WriteLenEncInt(ToU64(affected));
    payload.WriteLenEncInt(ToU64(lastInsertID));
    payload.Write([0x02, 0x00]);
    payload.Write([0x00, 0x00]);
    assert payload.data == OkPayload(affected, lastInsertID);
    conn.WritePacket(seqId, payload.data);
  }

  /** The column definitions; seqId is the id of the packet written last. */
  method WriteColumns(conn: Conn, seqId: byte, columns: seq<Bytes>) returns (last: byte)
    modifies conn`output
    ensures conn.output == old(conn.output) + Frames(SeqAfter(seqId), ColumnPayloads(columns))
    ensures last == SeqPlus(seqId, |columns|)
  {
    hide Frame;
    hide SeqPlus;
    hide SeqAfter;
    SeqPlusPlus(seqId, 0, 0);
    last := seqId;
    ghost var all := ColumnPayloads(columns);
    for i := 0 to |columns|
      invariant last == SeqPlus(seqId, i)
      invariant conn.output == old(conn.output) + Frames(SeqAfter(seqId), all[..i])
    {
      FramesStep(old(conn.output), SeqAfter(seqId), all, i);
      SeqPlusNext(seqId, i);
      SeqPlusPlus(seqId, i, 1);
      SeqPlusPlus(last, 0, 0);
      WriteColumnDefinitionPacket(conn, SeqAfter(last), ColumnOf(columns[i]));
      last := SeqAfter(last);
    }
    assert all[..|columns|] == all;
  }

  method WriteRows(conn: Conn, seqId: byte, columns: seq<Bytes>, rows: seq<Row>) returns (last: byte)
    modifies conn`output
    ensures conn.output == old(conn.output) + Frames(SeqAfter(seqId), RowPayloads(rows, columns))
    ensures last == SeqPlus(seqId, |rows|)
  {
    hide Frame;
    hide RowPayload;
    hide SeqPlus;
    hide SeqAfter;
    SeqPlusPlus(seqId, 0, 0);
    last := seqId;
    ghost var all := RowPayloads(rows, columns);
    for i := 0 to |rows|
      invariant last == SeqPlus(seqId, i)
      invariant conn.output == old(conn.output) + Frames(SeqAfter(seqId), all[..i])
    {
      FramesStep(old(conn.output), SeqAfter(seqId), all, i);
      SeqPlusNext(seqId, i);
      SeqPlusPlus(seqId, i, 1);
      SeqPlusPlus(last, 0, 0);
      WriteTextRowPacket(conn, SeqAfter(last), columns, rows[i]);
      last := SeqAfter(last);
    }
    assert all[..|rows|] == all;
  }

  lemma FramesStep(before: Bytes, first: byte, all: seq<Bytes>, i: nat)
    requires i < |all|
    ensures before + Frames(first, all[..i]) + Frame(SeqPlus(first, i), all[i]) == before + Frames(first, all[..i + 1])
  {
    assert all[..i + 1] == all[..i] + [all[i]];
    FramesSnoc(first, all[..i], all[i]);
    Assoc(before, Frames(first, all[..i]), Frame(SeqPlus(first, i), all[i]));
  }

  /** Writing the groups one after the other writes all the payloads. */
  lemma FramesGroups(before: Bytes, first: byte, a: seq<Bytes>, b: seq<Bytes>)
    ensures before + Frames(first, a) + Frames(SeqPlus(first, |a|), b) == before + Frames(first, a + b)
  {
    FramesAppend(first, a, b);
    Assoc(before, Frames(first, a), Frames(SeqPlus(first, |a|), b));
  }

  lemma FramesOne(first: byte, p: Bytes)
    ensures Frames(first, [p]) == Frame(first, p)
  {
    FramesSnoc(first, [], p);
    assert [] + [p] == [p];
  }

  lemma SeqPlusPlus(seqId: byte, m: nat, n: nat)
    ensures SeqPlus(SeqPlus(seqId, m), n) == SeqPlus(seqId, m + n)
    ensures SeqAfter(seqId) == SeqPlus(seqId, 1) && SeqPlus(seqId, 0) == seqId
  {
  }

  lemma SeqIdsFrom(first: byte, n: nat, m: nat)
    ensures SeqAfter(first) == SeqPlus(first, 1) && SeqPlus(first, 0) == first
    ensures SeqAfter(SeqPlus(first, n)) == SeqPlus(first, 1 + n)
    ensures SeqAfter(SeqPlus(first, 1 + n)) == SeqPlus(first, n + 2)
    ensures SeqAfter(SeqPlus(SeqPlus(first, 1 + n), m)) == SeqPlus(first, n + 2 + m)
  {
    hide SeqPlus;
    hide SeqAfter;
    SeqPlusPlus(first, n, 1);
    SeqPlusPlus(first, 1 + n, 1);
    SeqPlusPlus(first, 1 + n, m);
    SeqPlusPlus(first, 1 + n + m, 1);
    SeqPlusPlus(SeqPlus(first, n), 0, 0);
    SeqPlusPlus(SeqPlus(first, 1 + n), 0, 0);
    SeqPlusPlus(SeqPlus(first, 1 + n + m), 0, 0);
  }

  /** Writing group by group, with the sequence id carried along, writes the whole reply. */
  lemma WholeReply(before: Bytes, first: byte, res: SQLResult)
    requires res.columns != []
    ensures var n := |res.columns|; var m := |res.rows|;
      before + Frame(first, Encode(ToU64(n)))
             + Frames(SeqPlus(first, 1), ColumnPayloads(res.columns))
             + Frame(SeqPlus(first, 1 + n), EOF_PAYLOAD)
             + Frames(SeqPlus(first, n + 2), RowPayloads(res.rows, res.columns))
             + Frame(SeqPlus(first, n + 2 + m), EOF_PAYLOAD)
      == before + Frames(first, Payloads(res))
  {
    hide Frame;
    hide Frames;
    hide Encode;
    hide SeqPlus;
    var n, m := |res.columns|, |res.rows|;
    assert SeqPlus(first, 0) == first by { SeqIdsFrom(first, 0, 0); }
    var count, cols := [Encode(ToU64(n))], ColumnPayloads(res.columns);
    var rows, eof := RowPayloads(res.rows, res.columns), [EOF_PAYLOAD];
    FramesOne(first, Encode(ToU64(n)));
    FramesGroups(before, first, count, cols);
    FramesOne(SeqPlus(first, 1 + n), EOF_PAYLOAD);
    FramesGroups(before, first, count + cols, eof);
    FramesGroups(before, first, count + cols + eof, rows);
    FramesOne(SeqPlus(first, n + 2 + m), EOF_PAYLOAD);
    FramesGroups(before, first, count + cols + eof + rows, eof);
  }

  /** The COM_QUERY branch; seqId is the id of the command packet. */
  method SendQueryReply(conn: Conn, seqId: byte, res: SQLResult)
    modifies conn`output
    ensures conn.output == old(conn.output) + Frames(SeqAfter(seqId), Payloads(res))
  {
    hide Frame;
    hide Frames;
    hide Encode;
    hide SeqPlus;
    hide SeqAfter;
    if |res.columns| == 0 {
      FramesOne(SeqAfter(seqId), OkPayload(res.affected, res.lastInsertID));
      SendOKPacketWithStats(conn, SeqAfter(seqId), res.affected, res.lastInsertID);
      return;
    }
    SeqIdsFrom(SeqAfter(seqId), |res.columns|, |res.rows|);
    WholeReply(conn.output, SeqAfter(seqId), res);
    WriteLengthEncodedIntPacket(conn, SeqAfter(seqId), ToU64(|res.columns|));
    var s := SeqAfter(seqId);
    s := WriteColumns(conn, s, res.columns);
    WriteEOFPacket(conn, SeqAfter(s));
    s := SeqAfter(s);
    s := WriteRows(conn, s, res.columns, res.rows);
    WriteEOFPacket(conn, SeqAfter(s));
  }

  /** The reply part of handleExecute, which is called with the command's id plus one and does
      not advance it after the column count. */
  method SendExecuteReply(conn: Conn, seqId: byte, res: SQLResult)
    modifies conn`output
    ensures conn.output == old(conn.output) + Frames(seqId, Payloads(res))
  {
    hide Frame;
    hide Frames;
    hide Encode;
    hide SeqPlus;
    hide SeqAfter;
    if |res.columns| == 0 {
      FramesOne(seqId, OkPayload(res.affected, res.lastInsertID));
      SendOKPacketWithStats(conn, seqId, res.affected, res.lastInsertID);
      return;
    }
    WholeReply(conn.output, seqId, res);
    SeqIdsFrom(seqId, |res.columns|, |res.rows|);
    WriteLengthEncodedIntPacket(conn, seqId, ToU64(|res.columns|));
    var s := WriteColumns(conn, seqId, res.columns);
    WriteEOFPacket(conn, SeqAfter(s));
    s := SeqAfter(s);
    s := WriteRows(conn, s, res.columns, res.rows);
    WriteEOFPacket(conn, SeqAfter(s));
  }

  // ---------- the client side ----------

  datatype Cells = Cells(cells: seq<Cell>, rest: Bytes) | BadCells

  /** n cells at the front of a row payload. */
  function TakeCells(b: Bytes, n: nat): Cells {
    if n == 0 then Cells([], b)
    else if b == [] then BadCells
    else if b[0] == NULL_CELL then
      match TakeCells(b[1..], n - 1)
      case BadCells => BadCells
      case Cells(cs, rest) => Cells([NullCell] + cs, rest)
    else
      match TakeString(b)
      case Broken => BadCells
      case Taken(s, after) =>
        match TakeCells(after, n - 1)
        case BadCells => BadCells
        case Cells(cs, rest) => Cells([Text(s)] + cs, rest)
  }

  /** The name in a column definition: the fifth string. */
  function ColumnName(b: Bytes, skip: nat): Taken {
    match TakeString(b)
    case Broken => Broken
    case Taken(s, rest) => if skip == 0 then Taken(s, rest) else ColumnName(rest, skip - 1)
  }

  predicate IsEof(p: Bytes) {
    0 < |p| < 9 && p[0] == 0xfe
  }

  datatype Names = Names(names: seq<Bytes>, ids: seq<byte>, rest: Bytes) | BadNames

  function ReadColumns(input: Bytes, n: nat): Names {
    if n == 0 then Names([], [], input)
    else match Receive(input)
      case Failed(_) => BadNames
      case Packet(p, id, rest) =>
        match ColumnName(p, 4)
        case Broken => BadNames
        case Taken(name, _) =>
          match ReadColumns(rest, n - 1)
          case BadNames => BadNames
          case Names(ns, ids, after) => Names([name] + ns, [id] + ids, after)
  }

  datatype Rows = Rows(rows: seq<seq<Cell>>, ids: seq<byte>, rest: Bytes) | BadRows

  /** Rows up to and including the EOF packet that ends them. */
  function ReadRows(input: Bytes, n: nat): Rows
    decreases |input|
  {
    match Receive(input)
    case Failed(_) => BadRows
    case Packet(p, id, rest) =>
      if IsEof(p) then Rows([], [id], rest)
      else match TakeCells(p, n)
        case BadCells => BadRows
        case Cells(cs, left) =>
          if left != [] then BadRows
          else match ReadRows(rest, n)
            case BadRows => BadRows
            case Rows(rs, ids, after) => Rows([cs] + rs, [id] + ids, after)
  }

  datatype Reply = Reply(names: seq<Bytes>, rows: seq<seq<Cell>>, ids: seq<byte>, rest: Bytes) | BadReply

  function ReadReply(input: Bytes): Reply {
    match Receive(input)
    case Failed(_) => BadReply
    case Packet(count, id0, afterCount) =>
      match LenEnc.Decode(count)
      case Short => BadReply
      case Decoded(n, _) =>
        match ReadColumns(afterCount, n)
        case BadNames => BadReply
        case Names(names, ids1, afterColumns) =>
          match Receive(afterColumns)
          case Failed(_) => BadReply
          case Packet(eof, id2, afterEof) =>
            if !IsEof(eof) then BadReply
            else match ReadRows(afterEof, n)
              case BadRows => BadReply
              case Rows(rows, ids3, rest) => Reply(names, rows, [id0] + ids1 + [id2] + ids3, rest)
  }

  // ---------- round trip ----------

  /** Consecutive ids, modulo 256. */
  function Ids(first: byte, n: nat): (r: seq<byte>)
    ensures |r| == n
    decreases n
  {
    if n == 0 then [] else [first] + Ids(SeqAfter(first), n - 1)
  }

  lemma {:induction false} IdsAt(first: byte, n: nat, k: nat)
    requires k < n
    ensures Ids(first, n)[k] == SeqPlus(first, k)
    decreases n
  {
    if k > 0 {
      IdsAt(SeqAfter(first), n - 1, k - 1);
      SeqPlusNext(first, k - 1);
    }
  }

  lemma IdsSplit(first: byte, a: nat, b: nat)
    ensures Ids(first, a + b) == Ids(first, a) + Ids(SeqPlus(first, a), b)
  {
    forall k | 0 <= k < a + b
      ensures Ids(first, a + b)[k] == (Ids(first, a) + Ids(SeqPlus(first, a), b))[k]
    {
      IdsAt(first, a + b, k);
      if k < a { IdsAt(first, a, k); } else { IdsAt(SeqPlus(first, a), b, k - a); SeqPlusPlus(first, a, k - a); }
    }
  }

  /** Reading one cell and leaving the rest to the recursion. */
  lemma FirstCell(cell: Cell, after: Bytes, n: nat)
    requires n > 0 && |CellPayload(cell)| < LIMIT
    ensures TakeCells(CellPayload(cell) + after, n) ==
      match TakeCells(after, n - 1) case BadCells => BadCells case Cells(cs, rest) => Cells([cell] + cs, rest)
  {
    hide Encode, LenEnc.Decode, TakeString;
    var all := CellPayload(cell) + after;
    match cell {
      case NullCell =>
        assert all[1..] == after;
      case Text(b) =>
        TakeRoundTrip(b, after);
        EncodeHead(|b|);
        assert all[0] == Encode(|b|)[0];
    }
  }

  lemma {:induction false} CellsRoundTrip(cells: seq<Cell>, rest: Bytes)
    requires |CellsPayload(cells)| < LIMIT
    ensures TakeCells(CellsPayload(cells) + rest, |cells|) == Cells(cells, rest)
    decreases |cells|
  {
    hide *;
    if cells == [] {
      NoCells(rest);
    } else {
      var tail := CellsPayload(cells[1..]);
      CellsCons(cells);
      CellsRoundTrip(cells[1..], rest);
      assert cells == [cells[0]] + cells[1..];
      Assoc(CellPayload(cells[0]), tail, rest);
      FirstCell(cells[0], tail + rest, |cells|);
    }
  }

  lemma NoCells(rest: Bytes)
    ensures CellsPayload([]) + rest == rest && TakeCells(rest, 0) == Cells([], rest)
  {
  }

  lemma CellsCons(cells: seq<Cell>)
    requires cells != []
    ensures CellsPayload(cells) == CellPayload(cells[0]) + CellsPayload(cells[1..])
  {
    hide CellPayload;
  }

  /** A row payload below the packet limit never looks like an EOF packet. */
  lemma RowIsNotEof(cells: seq<Cell>)
    requires cells != [] && |CellsPayload(cells)| < LIMIT
    ensures CellsPayload(cells) != [] && !IsEof(CellsPayload(cells))
  {
    match cells[0] {
      case NullCell =>
      case Text(b) => EncodeHead(|b|);
    }
  }

  lemma {:induction false} ColumnNameSkips(ss: seq<Bytes>, k: nat, tail: Bytes)
    requires k < |ss| && |StringsPayload(ss)| < LIMIT
    ensures ColumnName(StringsPayload(ss) + tail, k).Taken?
    ensures ColumnName(StringsPayload(ss) + tail, k).text == ss[k]
    decreases k
  {
    var rest := StringsPayload(ss[1..]) + tail;
    Assoc(EncodeString(ss[0]), StringsPayload(ss[1..]), tail);
    TakeRoundTrip(ss[0], rest);
    if k > 0 {
      ColumnNameSkips(ss[1..], k - 1, tail);
    }
  }

  lemma {:induction false} ColumnsRoundTrip(first: byte, columns: seq<Bytes>, rest: Bytes)
    requires forall c :: c in columns ==> |ColumnPayload(c)| < LIMIT
    ensures ReadColumns(Frames(first, ColumnPayloads(columns)) + rest, |columns|)
         == Names(columns, Ids(first, |columns|), rest)
    decreases |columns|
  {
    hide Frame;
    hide Receive;
    hide SeqAfter;
    hide SeqPlus;
    hide StringsPayload;
    hide ColumnName;
    var ps := ColumnPayloads(columns);
    if columns == [] {
      assert Frames(first, ps) + rest == rest;
    } else {
      var tail := Frames(SeqAfter(first), ps[1..]) + rest;
      assert ps[1..] == ColumnPayloads(columns[1..]);
      Assoc(Frame(first, ps[0]), Frames(SeqAfter(first), ps[1..]), rest);
      FrameRoundTrip(first, ps[0], tail);
      ColumnNameSkips(DefinitionStrings(ColumnOf(columns[0])), 4, DefinitionTail(ColumnOf(columns[0])));
      ColumnsRoundTrip(SeqAfter(first), columns[1..], rest);
      assert columns == [columns[0]] + columns[1..];
    }
  }

  function AllCells(rows: seq<Row>, columns: seq<Bytes>): (r: seq<seq<Cell>>)
    ensures |r| == |rows|
  {
    seq(|rows|, i requires 0 <= i < |rows| => CellsOf(rows[i], columns))
  }

  lemma EofRoundTrip(first: byte, rest: Bytes)
    ensures Receive(Frame(first, EOF_PAYLOAD) + rest) == Packet(EOF_PAYLOAD, first, rest)
    ensures IsEof(EOF_PAYLOAD)
  {
    FrameRoundTrip(first, EOF_PAYLOAD, rest);
  }

  lemma {:induction false} RowsRoundTrip(first: byte, rows: seq<Row>, columns: seq<Bytes>, rest: Bytes)
    requires columns != []
    requires forall r :: r in rows ==> |RowPayload(r, columns)| < LIMIT
    ensures ReadRows(Frames(first, RowPayloads(rows, columns)) + Frame(SeqPlus(first, |rows|), EOF_PAYLOAD) + rest,
                     |columns|)
         == Rows(AllCells(rows, columns), Ids(first, |rows| + 1), rest)
    decreases |rows|
  {
    hide IsEof;
    hide CellOf;
    hide Frame;
    hide Receive;
    hide CellsPayload;
    hide TakeCells;
    hide SeqPlus;
    hide SeqAfter;
    var ps := RowPayloads(rows, columns);
    var eof := Frame(SeqPlus(first, |rows|), EOF_PAYLOAD);
    if rows == [] {
      assert Frames(first, ps) + eof + rest == eof + rest;
      SeqPlusPlus(first, 0, 0);
      EofRoundTrip(first, rest);
      assert Ids(first, 1) == [first];
    } else {
      var next := SeqAfter(first);
      var tail := Frames(next, ps[1..]) + eof + rest;
      assert ps[1..] == RowPayloads(rows[1..], columns);
      SeqPlusNext(first, |rows| - 1);
      assert Frames(first, ps) + eof + rest == Frame(first, ps[0]) + tail;
      var cells := CellsOf(rows[0], columns);
      RowIsNotEof(cells);
      FrameRoundTrip(first, ps[0], tail);
      assert ps[0] + [] == ps[0];
      CellsRoundTrip(cells, []);
      RowsRoundTrip(next, rows[1..], columns, rest);
      assert AllCells(rows, columns) == [cells] + AllCells(rows[1..], columns);
    }
  }

  /** Every payload fits one packet. */
  predicate Fits(res: SQLResult) {
    && |res.columns| < TWO_63
    && (forall c :: c in res.columns ==> |ColumnPayload(c)| < LIMIT)
    && (forall r :: r in res.rows ==> |RowPayload(r, res.columns)| < LIMIT)
  }

  /** Reading back a written text result set gives exactly the column names, each cell of each
      row (NULL or its bytes), ids that run on from the first one modulo 256, and what follows. */
  lemma ReplyRoundTrip(first: byte, res: SQLResult, rest: Bytes)
    requires res.columns != [] && Fits(res)
    ensures ReadReply(Frames(first, Payloads(res)) + rest)
         == Reply(res.columns, AllCells(res.rows, res.columns), Ids(first, |res.columns| + |res.rows| + 3), rest)
  {
    hide Frame;
    hide Frames;
    hide Receive;
    hide Encode;
    hide SeqPlus;
    hide ReadRows;
    hide ReadColumns;
    hide Payloads;
    hide LenEnc.Decode;
    var n, m := |res.columns|, |res.rows|;
    var count := Frame(first, Encode(n));
    var eof1, eof2 := Frame(SeqPlus(first, 1 + n), EOF_PAYLOAD), Frame(SeqPlus(first, n + 2 + m), EOF_PAYLOAD);
    var cols := Frames(SeqPlus(first, 1), ColumnPayloads(res.columns));
    var rows := Frames(SeqPlus(first, n + 2), RowPayloads(res.rows, res.columns));
    var after2 := rows + eof2 + rest;
    var after1 := eof1 + after2;
    var after0 := cols + after1;
    Regroup(count, cols, eof1, rows, eof2, rest, first, res);
    FrameRoundTrip(first, Encode(n), after0);
    assert Encode(n) + [] == Encode(n);
    RoundTrip(n, []);
    ColumnsRoundTrip(SeqPlus(first, 1), res.columns, after1);
    EofRoundTrip(SeqPlus(first, 1 + n), after2);
    SeqPlusPlus(first, n + 2, m);
    RowsRoundTrip(SeqPlus(first, n + 2), res.rows, res.columns, rest);
    AllIds(first, n, m);
  }

  /** The reading of a client that was offered CLIENT_DEPRECATE_EOF and accepted it: no EOF packet
      between the columns and the rows. */
  function ReadDeprecating(input: Bytes): Reply {
    match Receive(input)
    case Failed(_) => BadReply
    case Packet(count, id0, afterCount) =>
      match LenEnc.Decode(count)
      case Short => BadReply
      case Decoded(n, _) =>
        match ReadColumns(afterCount, n)
        case BadNames => BadReply
        case Names(names, ids1, afterColumns) =>
          match ReadRows(afterColumns, n)
          case BadRows => BadReply
          case Rows(rows, ids2, rest) => Reply(names, rows, [id0] + ids1 + ids2, rest)
  }

  /** Such a client takes the EOF packet after the columns for the end of the rows: it sees none of
      them, and they are left over in front of what follows. */
  lemma DeprecatingSeesNoRows(first: byte, res: SQLResult, rest: Bytes)
    requires res.columns != [] && Fits(res)
    ensures var n, m := |res.columns|, |res.rows|;
      var unread := Frames(SeqPlus(first, n + 2), RowPayloads(res.rows, res.columns))
                    + Frame(SeqPlus(first, n + 2 + m), EOF_PAYLOAD) + rest;
      ReadDeprecating(Frames(first, Payloads(res)) + rest) == Reply(res.columns, [], Ids(first, n + 2), unread)
  {
    hide Frame, Frames, Receive, Encode, SeqPlus, ReadRows, ReadColumns, Payloads, LenEnc.Decode;
    var n, m := |res.columns|, |res.rows|;
    var count := Frame(first, Encode(n));
    var eof1, eof2 := Frame(SeqPlus(first, 1 + n), EOF_PAYLOAD), Frame(SeqPlus(first, n + 2 + m), EOF_PAYLOAD);
    var cols := Frames(SeqPlus(first, 1), ColumnPayloads(res.columns));
    var rows := Frames(SeqPlus(first, n + 2), RowPayloads(res.rows, res.columns));
    var after1 := eof1 + (rows + eof2 + rest);
    Regroup(count, cols, eof1, rows, eof2, rest, first, res);
    FrameRoundTrip(first, Encode(n), cols + after1);
    assert Encode(n) + [] == Encode(n);
    RoundTrip(n, []);
    ColumnsRoundTrip(SeqPlus(first, 1), res.columns, after1);
    EofEndsRows(SeqPlus(first, 1 + n), n, rows + eof2 + rest);
    FewIds(first, n);
  }

  lemma EofEndsRows(id: byte, n: nat, rest: Bytes)
    ensures ReadRows(Frame(id, EOF_PAYLOAD) + rest, n) == Rows([], [id], rest)
  {
    EofRoundTrip(id, rest);
    hide Frame, Receive;
  }

  lemma FewIds(first: byte, n: nat)
    ensures [first] + Ids(SeqPlus(first, 1), n) + [SeqPlus(first, 1 + n)] == Ids(first, n + 2)
  {
    assert Ids(first, 1) == [first] && Ids(SeqPlus(first, 1 + n), 1) == [SeqPlus(first, 1 + n)];
    IdsSplit(first, 1, n);
    IdsSplit(first, 1 + n, 1);
  }

  lemma Regroup(count: Bytes, cols: Bytes, eof1: Bytes, rows: Bytes, eof2: Bytes, rest: Bytes, first: byte,
                res: SQLResult)
    requires res.columns != [] && |res.columns| < TWO_63
    requires var n := |res.columns|; var m := |res.rows|;
      && count == Frame(first, Encode(n)) && cols == Frames(SeqPlus(first, 1), ColumnPayloads(res.columns))
      && eof1 == Frame(SeqPlus(first, 1 + n), EOF_PAYLOAD)
      && rows == Frames(SeqPlus(first, n + 2), RowPayloads(res.rows, res.columns))
      && eof2 == Frame(SeqPlus(first, n + 2 + m), EOF_PAYLOAD)
    ensures Frames(first, Payloads(res)) + rest == count + (cols + (eof1 + (rows + eof2 + rest)))
  {
    hide Frame;
    hide Encode;
    hide SeqPlus;
    hide Frames;
    hide Payloads;
    WholeReply([], first, res);
    var all := [] + count + cols + eof1 + rows + eof2;
    assert [] + Frames(first, Payloads(res)) == Frames(first, Payloads(res));
  }

  lemma AllIds(first: byte, n: nat, m: nat)
    ensures [first] + Ids(SeqPlus(first, 1), n) + [SeqPlus(first, 1 + n)] + Ids(SeqPlus(first, n + 2), m + 1)
         == Ids(first, n + m + 3)
  {
    var one, two := Ids(first, 1), Ids(SeqPlus(first, 1 + n), 1);
    assert one == [first] && two == [SeqPlus(first, 1 + n)];
    IdsSplit(first, 1, n);
    IdsSplit(first, 1 + n, 1);
    IdsSplit(first, n + 2, m + 1);
  }

  /** An id of a reply, by its position. */
  lemma ReplyIds(first: byte, n: nat, m: nat, k: nat)
    requires k < n + m + 3
    ensures Ids(first, n + m + 3)[k] == (first + k) % 256
  {
    IdsAt(first, n + m + 3, k);
  }

  /** The two server paths write the same bytes for the same result. */
  method SamePaths(seqId: byte, res: SQLResult) returns (query: Bytes, execute: Bytes)
    ensures query == execute == Frames(SeqAfter(seqId), Payloads(res))
  {
    var a := new Conn([]);
    var b := new Conn([]);
    SendQueryReply(a, seqId, res);
    SendExecuteReply(b, SeqAfter(seqId), res);
    query, execute := a.output, b.output;
    assert [] + query == query && [] + execute == execute;
  }
}

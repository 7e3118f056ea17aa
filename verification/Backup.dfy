/** What an export writes and what a restore makes of any lines, at the level of values. */
module Backup {
  import opened Common
  import opened TableOrder
  import opened Tables

  datatype Json = JsonNull | JsonDatum(int)

  /** The conversions between column values and JSON; an absent field is read as NULL. */
  datatype Codec = Codec(encode: Value -> Json, decode: Json -> Value)

  ghost predicate Lossless(codec: Codec) { forall v :: codec.decode(codec.encode(v)) == v }

  type Cells = map<Column, Json>

  /** A line of the stream; `table` is the field _table, when it is a non-empty string. */
  datatype Line = Blank | Malformed | Record(table: Option<TableName>, cells: Cells)

  const BATCH_SIZE := 100

  // ---- the restore, table by table ----

  /** The fallback for records without a table name. */
  function InferTable(columns: set<Column>): Option<TableName> {
    if {Named("jid"), Named("day_sent_count")} <= columns then Some(WhatsappAccountState)
    else if {Named("jid"), Named("wrapped_dek")} <= columns then Some(WhatsappSessionKeys)
    else if {Named("jid"), Named("message_id")} <= columns then Some(WhatsappHistory)
    else if {Named("wrapped_dek"), Named("encrypted")} <= columns then Some(ChannelCredentials)
    else if {Named("conversation_id"), Named("body")} <= columns then Some(Messages)
    else if {Named("contact_id"), Named("status")} <= columns then Some(Conversations)
    else if {Named("phone"), Named("name"), Named("channel")} <= columns then Some(Contacts)
    else if {Named("payload"), Named("source")} <= columns then Some(InboundEvents)
    else if {Named("target"), Named("attempts")} <= columns then Some(OutboundEvents)
    else None
  }

  function TableOf(line: Line): Option<TableName>
    requires line.Record?
  {
    if line.table.Some? then line.table else InferTable(line.cells.Keys)
  }

  predicate Belongs(line: Line, t: TableName) { line.Record? && TableOf(line) == Some(t) }

  predicate Acceptable(line: Line) {
    line.Blank? || (line.Record? && TableOf(line).Some? && Restorable(TableOf(line).value))
  }

  function CellsOf(lines: seq<Line>, t: TableName): seq<Cells> {
    if lines == [] then []
    else
      var before, line := CellsOf(lines[..|lines| - 1], t), lines[|lines| - 1];
      if Belongs(line, t) then before + [line.cells] else before
  }

  function RowOf(codec: Codec, columns: set<Column>, cells: Cells): Row {
    map c | c in columns :: if c in cells then codec.decode(cells[c]) else Null
  }

  /** The rows of a table: the columns are those of its first record. */
  function RowsOf(codec: Codec, records: seq<Cells>): seq<Row> {
    seq(|records|, i requires 0 <= i < |records| => RowOf(codec, records[0].Keys, records[i]))
  }

  /** The keys the database would make up for rows inserted without one, by table and position. */
  type Generated = (TableName, nat) -> Value

  /** Without an id in the column list every row gets a key of the database's making. */
  function WithIds(rows: seq<Row>, t: TableName, made: Generated): seq<Row> {
    seq(|rows|, i requires 0 <= i < |rows| => if Id in rows[i] then rows[i] else rows[i][Id := made(t, i)])
  }

  function BatchRows(codec: Codec, made: Generated, lines: seq<Line>, t: TableName): seq<Row> {
    WithIds(RowsOf(codec, CellsOf(lines, t)), t, made)
  }

  /** The tables seen, in topological order. */
  function Seen(lines: seq<Line>, topo: seq<TableName>): seq<TableName> {
    if topo == [] then []
    else
      var before, t := Seen(lines, topo[..|topo| - 1]), topo[|topo| - 1];
      if CellsOf(lines, t) != [] then before + [t] else before
  }

  /** The statements of the restore, one table after the other. */
  function RestoreTables(schema: Schema, codec: Codec, made: Generated, tenant: Value, db: Db,
                         lines: seq<Line>, tables: seq<TableName>): (r: Option<Db>)
    requires IsDb(schema, db) && forall t :: t in tables ==> t in db
    ensures r.Some? ==> IsDb(schema, r.value)
  {
    if tables == [] then Some(db)
    else
      var t := tables[|tables| - 1];
      match RestoreTables(schema, codec, made, tenant, db, lines, tables[..|tables| - 1])
      case None => None
      case Some(before) => UpsertBatch(schema, tenant, before, t, BatchRows(codec, made, lines, t), BATCH_SIZE)
  }

  lemma {:induction false} SeenIsInOrder(lines: seq<Line>, topo: seq<TableName>)
    ensures forall t :: t in Seen(lines, topo) <==> t in topo && CellsOf(lines, t) != []
    ensures Distinct(topo) ==> InOrder(Seen(lines, topo), topo)
  {
    if topo != [] {
      var front, t := topo[..|topo| - 1], topo[|topo| - 1];
      assert topo == front + [t];
      SeenIsInOrder(lines, front);
      if Distinct(topo) { PrefixKeepsOrder(Seen(lines, front), front, t); }
    }
  }

  lemma RestoreStep(schema: Schema, codec: Codec, made: Generated, tenant: Value, db: Db,
                    lines: seq<Line>, order: seq<TableName>, i: nat)
    requires IsDb(schema, db) && (forall t :: t in order ==> t in db) && i < |order|
    ensures RestoreTables(schema, codec, made, tenant, db, lines, order[..i + 1]) ==
            match RestoreTables(schema, codec, made, tenant, db, lines, order[..i])
            case None => None
            case Some(before) =>
              UpsertBatch(schema, tenant, before, order[i], BatchRows(codec, made, lines, order[i]), BATCH_SIZE)
  {
    assert order[..i + 1][..i] == order[..i];
  }

  /** The whole restore: the lines are checked before anything is written, the references when it
      commits, and any error undoes it. */
  function Restored(
    schema: Schema, codec: Codec, made: Generated, tenant: Value, db: Db, lines: seq<Line>): (r: Option<Db>)
    requires IsDb(schema, db)
    ensures r.Some? ==> IsDb(schema, r.value) && Closed(schema, r.value)
  {
    if forall line :: line in lines ==> Acceptable(line) then
      SeenIsInOrder(lines, schema.topo);
      match RestoreTables(schema, codec, made, tenant, db, lines, Seen(lines, schema.topo))
      case None => None
      case Some(final) => if Closed(schema, final) then Some(final) else None
    else None
  }

  // ---- reading the stream ----

  datatype Batch = Batch(columns: set<Column>, rows: seq<Row>)

  type Batches = map<TableName, Batch>

  /** The batches hold the rows of the lines read, each table with the columns of its first record. */
  ghost predicate Collected(codec: Codec, lines: seq<Line>, batches: Batches) {
    forall t ::
      if t in batches then
        CellsOf(lines, t) != [] && batches[t] == Batch(CellsOf(lines, t)[0].Keys, RowsOf(codec, CellsOf(lines, t)))
      else CellsOf(lines, t) == []
  }

  lemma RowsStep(codec: Codec, records: seq<Cells>, cells: Cells)
    ensures RowsOf(codec, records + [cells]) ==
            RowsOf(codec, records) + [RowOf(codec, if records == [] then cells.Keys else records[0].Keys, cells)]
  {
  }

  lemma CellsStep(lines: seq<Line>, i: nat, t: TableName)
    requires i < |lines|
    ensures CellsOf(lines[..i + 1], t) ==
            if Belongs(lines[i], t) then CellsOf(lines[..i], t) + [lines[i].cells] else CellsOf(lines[..i], t)
  {
    assert lines[..i + 1][..i] == lines[..i];
  }

  lemma CollectedBlank(codec: Codec, lines: seq<Line>, i: nat, batches: Batches)
    requires i < |lines| && lines[i].Blank? && Collected(codec, lines[..i], batches)
    ensures Collected(codec, lines[..i + 1], batches)
  {
    forall t ensures CellsOf(lines[..i + 1], t) == CellsOf(lines[..i], t) {
      CellsStep(lines, i, t);
    }
  }

  lemma CollectedRecord(
    codec: Codec, lines: seq<Line>, i: nat, batches: Batches, t: TableName, columns: set<Column>, rows: seq<Row>)
    requires i < |lines| && Belongs(lines[i], t) && Collected(codec, lines[..i], batches)
    requires columns == if t in batches then batches[t].columns else lines[i].cells.Keys
    requires rows == (if t in batches then batches[t].rows else []) + [RowOf(codec, columns, lines[i].cells)]
    ensures Collected(codec, lines[..i + 1], batches[t := Batch(columns, rows)])
  {
    forall u
      ensures CellsOf(lines[..i + 1], u) ==
              if u == t then CellsOf(lines[..i], u) + [lines[i].cells] else CellsOf(lines[..i], u)
    {
      CellsStep(lines, i, u);
    }
    RowsStep(codec, CellsOf(lines[..i], t), lines[i].cells);
  }
}

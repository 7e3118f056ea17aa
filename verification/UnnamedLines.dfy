/** Where a line goes that does not name its table. */
module UnnamedLines {
  import opened Common
  import opened TableOrder
  import opened Tables
  import opened Backup
  import opened RestoredColumns

  /** The fields by which the records of a table are recognised. */
  function Signature(t: TableName): set<Column> {
    match t
    case Contacts => {Named("phone"), Named("name"), Named("channel")}
    case Conversations => {Named("contact_id"), Named("status")}
    case Messages => {Named("conversation_id"), Named("body")}
    case InboundEvents => {Named("payload"), Named("source")}
    case OutboundEvents => {Named("target"), Named("attempts")}
    case ChannelCredentials => {Named("wrapped_dek"), Named("encrypted")}
    case WhatsappAccountState => {Named("jid"), Named("day_sent_count")}
    case WhatsappSessionKeys => {Named("jid"), Named("wrapped_dek")}
    case WhatsappHistory => {Named("jid"), Named("message_id")}
    case Other(_) => {Id}
  }

  /** The turn at which a table is tried. */
  function Turn(t: TableName): nat {
    match t
    case WhatsappAccountState => 0
    case WhatsappSessionKeys => 1
    case WhatsappHistory => 2
    case ChannelCredentials => 3
    case Messages => 4
    case Conversations => 5
    case Contacts => 6
    case InboundEvents => 7
    case OutboundEvents => 8
    case Other(_) => 9
  }

  /** The first table whose fields are all there. */
  ghost predicate Recognised(columns: set<Column>, t: TableName) {
    && !t.Other? && Signature(t) <= columns
    && forall u :: Turn(u) < Turn(t) ==> !(Signature(u) <= columns)
  }

  lemma RecognisedIff(columns: set<Column>, t: TableName)
    ensures InferTable(columns) == Some(t) <==> Recognised(columns, t)
  {
    assert forall u: TableName :: !u.Other? ==> Turn(u) < 9;
    assert Turn(WhatsappAccountState) == 0 && Turn(WhatsappSessionKeys) == 1 && Turn(WhatsappHistory) == 2;
    assert Turn(ChannelCredentials) == 3 && Turn(Messages) == 4 && Turn(Conversations) == 5;
    assert Turn(Contacts) == 6 && Turn(InboundEvents) == 7 && Turn(OutboundEvents) == 8;
  }

  /** The name decides where there is one, the fields where not. */
  lemma BelongsIff(line: Line, t: TableName)
    requires line.Record?
    ensures Belongs(line, t) <==> line.table == Some(t) || (line.table == None && Recognised(line.cells.Keys, t))
  {
    RecognisedIff(line.cells.Keys, t);
  }

  // ---- restoring such lines ----

  /** An unnamed line lands in the table its fields tell: after a restore its row is there. */
  lemma UnnamedLineLands(
    schema: Schema, codec: Codec, made: Generated, tenant: Value, db: Db, lines: seq<Line>, t: TableName,
    m: nat, n: nat, c: Column)
    requires IsDb(schema, db) && schema.topo == BACKUPABLE
    requires Restored(schema, codec, made, tenant, db, lines).Some?
    requires n < |lines| && lines[n].Record? && lines[n].table == None && Recognised(lines[n].cells.Keys, t)
    requires IsFirst(lines, t, m)
    requires forall j :: n < j < |lines| && Belongs(lines[j], t) ==>
               KeyOf(codec, made, lines, t, m, j) != KeyOf(codec, made, lines, t, m, n)
    ensures t in db && t in schema.defs && !KeyMaterial(t)
    ensures var final := Restored(schema, codec, made, tenant, db, lines).value;
            var k := KeyOf(codec, made, lines, t, m, n);
            && t in final && k in final[t]
            && IsColumnOf(schema.defs[t].blank, db[t], k, codec, lines[m].cells, lines[n].cells, final[t][k], c)
  {
    BelongsIff(lines[n], t);
    ColumnsOfARecord(schema, codec, made, tenant, db, lines, t, m, n, c);
    assert lines[n] in lines;
    AllowlistLeavesOutKeyMaterial(t);
  }

  /** One whose fields tell nothing, or tell key material, refuses the restore. */
  lemma UnknownLineIsRefused(
    schema: Schema, codec: Codec, made: Generated, tenant: Value, db: Db, lines: seq<Line>, n: nat)
    requires IsDb(schema, db) && n < |lines| && lines[n].Record? && lines[n].table == None
    requires (forall t :: Recognised(lines[n].cells.Keys, t) ==> t in {ChannelCredentials, WhatsappSessionKeys})
    ensures Restored(schema, codec, made, tenant, db, lines) == None
  {
    assert lines[n] in lines;
    var t := InferTable(lines[n].cells.Keys);
    if t.Some? { RecognisedIff(lines[n].cells.Keys, t.value); }
  }

  /** The fields that tell whatsapp_history include one that is no column of it: a stream whose first
      record of that table is such a line is refused. */
  lemma UnnamedHistoryIsRefused(
    schema: Schema, codec: Codec, made: Generated, tenant: Value, db: Db, lines: seq<Line>, n: nat)
    requires IsDb(schema, db) && schema.topo == BACKUPABLE && WhatsappHistory in schema.defs
    requires Named("message_id") !in schema.defs[WhatsappHistory].blank
    requires n < |lines| && lines[n].Record? && lines[n].table == None
    requires Recognised(lines[n].cells.Keys, WhatsappHistory) && IsFirst(lines, WhatsappHistory, n)
    ensures Restored(schema, codec, made, tenant, db, lines) == None
  {
    assert Named("message_id") in Signature(WhatsappHistory);
    if Restored(schema, codec, made, tenant, db, lines).Some? {
      ColumnsFit(schema, codec, made, tenant, db, lines, WhatsappHistory, n);
    }
  }
}

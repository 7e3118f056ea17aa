/** A stream that repeats an id: accepted once, refused the second time. */
module RepeatedId {
  import opened Common
  import opened TableOrder
  import opened Tables
  import opened Upserts
  import opened Backup
  import opened Exported
  import opened TableTwice
  import opened RestoreTwice
  import opened ContactStreams

  const Phone := Named("phone")

  /** A contact like `proto`, with this id and phone. */
  function Contact(proto: Row, id: Value, phone: Value): Row { proto[Id := id][Phone := phone] }

  function Fillers(proto: Row, ids: seq<Value>): seq<Row> {
    seq(|ids|, i requires 0 <= i < |ids| => Contact(proto, ids[i], Null))
  }

  /** Contact `a` with phone p in the first statement; in the second `a` with phone q and `b` with p. */
  function RepeatingRows(proto: Row, a: Value, b: Value, p: Value, q: Value, fill: seq<Value>): seq<Row> {
    [Contact(proto, a, p)] + Fillers(proto, fill) + [Contact(proto, a, q), Contact(proto, b, p)]
  }

  function Records(codec: Codec, rows: seq<Row>): seq<Cells> {
    seq(|rows|, i requires 0 <= i < |rows| => Encoded(codec, rows[i]))
  }

  /** A whole contact row of the tenant, with a phone, which contacts need not have. */
  predicate IsProto(def: TableDef, tenant: Value, proto: Row) {
    && IsDef(def) && def.uniques == UniquesOf(Contacts) && Phone in def.blank && Phone !in def.required
    && proto.Keys == def.blank.Keys && Complete(def, proto) && Owned(proto, tenant) && HasPhone(proto)
  }

  predicate AreIds(a: Value, b: Value, p: Value, q: Value, fill: seq<Value>) {
    && a != b && a !in fill && b !in fill && Distinct(fill) && a != Null && b != Null && Null !in fill
    && p != q && p != Null && q != Null
  }

  lemma ContactFits(def: TableDef, tenant: Value, proto: Row, id: Value, phone: Value)
    requires IsProto(def, tenant, proto) && id != Null
    ensures var c := Contact(proto, id, phone);
            && c.Keys == def.blank.Keys && Id in c && c[Id] == id && Fits(def, tenant, c) && def.blank + c == c
            && (HasPhone(c) <==> phone != Null)
  {
    var c := Contact(proto, id, phone);
    assert def.blank + c == c;
    assert Phone in UniquesOf(Contacts)[0];
  }

  lemma ContactsClashIff(def: TableDef, tenant: Value, proto: Row, a: Value, b: Value, p: Value, q: Value)
    requires IsProto(def, tenant, proto)
    ensures Clash(def, Contact(proto, a, p), Contact(proto, b, q)) <==> p != Null && p == q
  {
    ContactsClash(def, Contact(proto, a, p), Contact(proto, b, q));
    assert Phone in UniquesOf(Contacts)[0];
  }

  // ---- the first time ----

  /** The table holds contacts like `proto`: `a` with phone p, the others without. */
  ghost predicate OnlyPhone(proto: Row, rows: Rows, a: Value, p: Value, others: seq<Value>) {
    && (forall k :: k in rows <==> k == a || k in others)
    && (forall k :: k in rows ==> rows[k] == Contact(proto, k, if k == a then p else Null))
  }

  lemma PutContact(
    def: TableDef, tenant: Value, proto: Row, rows: Rows, a: Value, p: Value, others: seq<Value>,
    id: Value, phone: Value)
    requires IsProto(def, tenant, proto) && id != Null && OnlyPhone(proto, rows, a, p, others)
    requires id == a || phone == Null || phone != p
    ensures Put(def, tenant, rows, Contact(proto, id, phone)) == Some(rows[id := Contact(proto, id, phone)])
  {
    var c := Contact(proto, id, phone);
    ContactFits(def, tenant, proto, id, phone);
    assert Merged(def.blank, rows, c) == c;
    forall x | x in rows && x != id ensures !Clash(def, c, rows[x]) {
      ContactsClashIff(def, tenant, proto, id, x, phone, if x == a then p else Null);
    }
  }

  lemma {:induction false} PutFillers(
    def: TableDef, tenant: Value, proto: Row, rows: Rows, a: Value, p: Value, fill: seq<Value>)
    requires IsProto(def, tenant, proto) && OnlyPhone(proto, rows, a, p, []) && a !in fill && Null !in fill
    ensures var r := PutAll(def, tenant, rows, Fillers(proto, fill));
            r.Some? && OnlyPhone(proto, r.value, a, p, fill)
  {
    if fill != [] {
      var front, id := fill[..|fill| - 1], fill[|fill| - 1];
      assert fill == front + [id] && id != a && id != Null;
      assert Fillers(proto, fill)[..|fill| - 1] == Fillers(proto, front);
      PutFillers(def, tenant, proto, rows, a, p, front);
      PutContact(def, tenant, proto, PutAll(def, tenant, rows, Fillers(proto, front)).value, a, p, front, id, Null);
    }
  }

  lemma PutOne(def: TableDef, tenant: Value, rows: Rows, r: Row)
    ensures PutAll(def, tenant, rows, [r]) == Put(def, tenant, rows, r)
  {
    assert [r][..0] == [];
  }

  lemma PutTwo(def: TableDef, tenant: Value, rows: Rows, r: Row, r': Row)
    requires Put(def, tenant, rows, r).Some?
    ensures PutAll(def, tenant, rows, [r, r']) == Put(def, tenant, Put(def, tenant, rows, r).value, r')
  {
    assert [r, r'][..1] == [r];
    PutOne(def, tenant, rows, r);
  }

  /** Into an empty table the rows are all taken. */
  lemma TakenOnce(
    def: TableDef, tenant: Value, proto: Row, a: Value, b: Value, p: Value, q: Value, fill: seq<Value>)
    requires IsProto(def, tenant, proto) && AreIds(a, b, p, q, fill)
    ensures PutAll(def, tenant, map[], RepeatingRows(proto, a, b, p, q, fill)).Some?
  {
    var c, fillers := Contact(proto, a, p), Fillers(proto, fill);
    var a', b' := Contact(proto, a, q), Contact(proto, b, p);
    FirstContact(def, tenant, proto, a, p);
    PutOne(def, tenant, map[], c);
    PutFillers(def, tenant, proto, map[a := c], a, p, fill);
    var rows := PutAll(def, tenant, map[a := c], fillers).value;
    PutAllConcat(def, tenant, map[], [c], fillers);
    PutContact(def, tenant, proto, rows, a, p, fill, a, q);
    PutContact(def, tenant, proto, rows[a := a'], a, q, fill, b, p);
    PutTwo(def, tenant, rows, a', b');
    PutAllConcat(def, tenant, map[], [c] + fillers, [a', b']);
  }

  lemma FirstContact(def: TableDef, tenant: Value, proto: Row, a: Value, p: Value)
    requires IsProto(def, tenant, proto) && a != Null
    ensures Put(def, tenant, map[], Contact(proto, a, p)) == Some(map[a := Contact(proto, a, p)])
  {
    ContactFits(def, tenant, proto, a, p);
  }

  /** In statements of a hundred rows no id comes up twice. */
  lemma StatementsApart(proto: Row, a: Value, b: Value, p: Value, q: Value, fill: seq<Value>)
    requires AreIds(a, b, p, q, fill) && |fill| + 1 == BATCH_SIZE
    ensures StatementsDistinct(RepeatingRows(proto, a, b, p, q, fill), BATCH_SIZE)
  {
    var rows := RepeatingRows(proto, a, b, p, q, fill);
    var head, tail := [Contact(proto, a, p)] + Fillers(proto, fill), [Contact(proto, a, q), Contact(proto, b, p)];
    assert rows[..BATCH_SIZE] == head && rows[BATCH_SIZE..] == tail;
    assert DistinctIds(head) && DistinctIds(tail);
    assert tail[..2] == tail && tail[2..] == [];
    assert StatementsDistinct(tail[2..], BATCH_SIZE);
    assert StatementsDistinct(tail, BATCH_SIZE);
  }

  // ---- the second time ----

  /** The first record comes up again while `b` has its phone. */
  lemma NotSettled(
    def: TableDef, tenant: Value, proto: Row, a: Value, b: Value, p: Value, q: Value, fill: seq<Value>)
    requires IsProto(def, tenant, proto) && AreIds(a, b, p, q, fill)
    ensures var rows := RepeatingRows(proto, a, b, p, q, fill);
            (forall r :: r in rows ==> Id in r) && !Settled(def, map[], rows, |rows|)
  {
    var rows := RepeatingRows(proto, a, b, p, q, fill);
    var n := |rows| - 1;
    assert rows[0] == Contact(proto, a, p) && rows[n] == Contact(proto, b, p) && rows[..0] == [];
    ContactFits(def, tenant, proto, a, p);
    ContactFits(def, tenant, proto, b, p);
    ContactsClashIff(def, tenant, proto, a, b, p, p);
    assert Last(rows, b) == rows[n];
    assert !SettledAt(def, map[], rows, 0);
  }

  lemma DecodedRecords(codec: Codec, rows: seq<Row>, columns: set<Column>)
    requires Lossless(codec) && forall i :: 0 <= i < |rows| ==> rows[i].Keys == columns
    ensures RowsOf(codec, Records(codec, rows)) == rows
  {
    var records := Records(codec, rows);
    forall i | 0 <= i < |rows| ensures RowOf(codec, records[0].Keys, records[i]) == rows[i] {
      assert records[0].Keys == columns == records[i].Keys;
    }
  }

  lemma RowsWithIds(rows: seq<Row>, t: TableName, made: Generated)
    requires forall i :: 0 <= i < |rows| ==> Id in rows[i]
    ensures WithIds(rows, t, made) == rows
  {
  }

  lemma RecordsOfRows(codec: Codec, made: Generated, rows: seq<Row>, columns: set<Column>)
    requires Lossless(codec) && Id in columns && forall r :: r in rows ==> r.Keys == columns
    ensures BatchRows(codec, made, ContactLines(Records(codec, rows)), Contacts) == rows
  {
    CellsOfContacts(Records(codec, rows), Contacts);
    DecodedRecords(codec, rows, columns);
    RowsWithIds(rows, Contacts, made);
  }

  /** The second restore of a stream with a repeated id may be refused: the first statement gives its
      phone back to an id whose phone has gone to another one since. */
  lemma RepeatedIdIsRefused(
    schema: Schema, codec: Codec, made: Generated, made': Generated, tenant: Value, db: Db, proto: Row,
    a: Value, b: Value, p: Value, q: Value, fill: seq<Value>)
    requires IsDb(schema, db) && Closed(schema, db) && schema.topo == BACKUPABLE && schema.refs == REFERENCES
    requires Lossless(codec) && Contacts in db && db[Contacts] == map[]
    requires IsProto(schema.defs[Contacts], tenant, proto) && AreIds(a, b, p, q, fill) && |fill| + 1 == BATCH_SIZE
    ensures var lines := ContactLines(Records(codec, RepeatingRows(proto, a, b, p, q, fill)));
            && HaveIds(lines, schema.topo)
            && Restored(schema, codec, made, tenant, db, lines).Some?
            && var final := Restored(schema, codec, made, tenant, db, lines).value;
               Restored(schema, codec, made', tenant, final, lines) == None
  {
    var def, rows := schema.defs[Contacts], RepeatingRows(proto, a, b, p, q, fill);
    var records := Records(codec, rows);
    RepeatingRowsAreWhole(def, tenant, proto, a, b, p, q, fill);
    RecordsOfRows(codec, made, rows, def.blank.Keys);
    TakenOnce(def, tenant, proto, a, b, p, q, fill);
    StatementsApart(proto, a, b, p, q, fill);
    ContactsRestored(schema, codec, made, tenant, db, records);
    RecordsHaveIds(codec, rows, def.blank.Keys, schema.topo);
    NotSettled(def, tenant, proto, a, b, p, q, fill);
    ContactsAreATable(schema);
    assert !TableSettled(schema, codec, made, db, ContactLines(records), Contacts);
    SecondRestore(schema, codec, made, made', tenant, db, ContactLines(records));
  }

  lemma ContactsAreATable(schema: Schema)
    requires schema.topo == BACKUPABLE
    ensures Contacts in schema.topo
  {
    assert BACKUPABLE[0] == Contacts;
  }

  lemma RepeatingRowsAreWhole(
    def: TableDef, tenant: Value, proto: Row, a: Value, b: Value, p: Value, q: Value, fill: seq<Value>)
    requires IsProto(def, tenant, proto)
    ensures forall r :: r in RepeatingRows(proto, a, b, p, q, fill) ==> r.Keys == def.blank.Keys
  {
  }

  lemma RecordsHaveIds(codec: Codec, rows: seq<Row>, columns: set<Column>, topo: seq<TableName>)
    requires rows != [] && Id in columns && forall r :: r in rows ==> r.Keys == columns
    ensures HaveIds(ContactLines(Records(codec, rows)), topo)
  {
    var records := Records(codec, rows);
    forall t ensures CellsOf(ContactLines(records), t) == if t == Contacts then records else [] {
      CellsOfContacts(records, t);
    }
    assert rows[0] in rows;
  }
}

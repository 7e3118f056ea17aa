/** Streams of contacts whose second restore is not what the first was. */
module ContactStreams {
  import opened Common
  import opened TableOrder
  import opened Tables
  import opened Upserts
  import opened Backup
  import opened RestoreTwice

  // ---- a stream that is a list of contacts ----

  function ContactLines(records: seq<Cells>): seq<Line> {
    seq(|records|, i requires 0 <= i < |records| => Record(Some(Contacts), records[i]))
  }

  lemma {:induction false} CellsOfContacts(records: seq<Cells>, t: TableName)
    ensures CellsOf(ContactLines(records), t) == if t == Contacts then records else []
  {
    if records != [] {
      var front := records[..|records| - 1];
      CellsOfContacts(front, t);
      assert ContactLines(records)[..|records| - 1] == ContactLines(front);
      assert records == front + [records[|records| - 1]];
    }
  }

  lemma OnlyContactsSeen(records: seq<Cells>)
    requires records != []
    ensures Seen(ContactLines(records), BACKUPABLE) == [Contacts]
    ensures CellsOf(ContactLines(records), Contacts) == records
    ensures forall line :: line in ContactLines(records) ==> Acceptable(line)
  {
    var lines := ContactLines(records);
    forall t ensures CellsOf(lines, t) == if t == Contacts then records else [] { CellsOfContacts(records, t); }
    SeenIsInOrder(lines, BACKUPABLE);
    BackupableIsDistinct();
    assert BACKUPABLE[0] == Contacts;
    InOrderIsUnique(Seen(lines, BACKUPABLE), [Contacts], BACKUPABLE);
    AllowlistLeavesOutKeyMaterial(Contacts);
  }

  lemma OneTable(schema: Schema, codec: Codec, made: Generated, tenant: Value, db: Db, lines: seq<Line>, t: TableName)
    requires IsDb(schema, db) && t in db
    ensures RestoreTables(schema, codec, made, tenant, db, lines, [t]) ==
            UpsertBatch(schema, tenant, db, t, BatchRows(codec, made, lines, t), BATCH_SIZE)
  {
    RestoreStep(schema, codec, made, tenant, db, lines, [t], 0);
    assert [t][..1] == [t] && [t][..0] == [];
  }

  /** Restoring contacts is putting their rows: nothing can dangle for them. */
  lemma ContactsRestored(schema: Schema, codec: Codec, made: Generated, tenant: Value, db: Db, records: seq<Cells>)
    requires IsDb(schema, db) && Closed(schema, db) && schema.topo == BACKUPABLE && schema.refs == REFERENCES
    requires Contacts in db && records != []
    ensures var rows := BatchRows(codec, made, ContactLines(records), Contacts);
            Restored(schema, codec, made, tenant, db, ContactLines(records)) ==
            if StatementsDistinct(rows, BATCH_SIZE)
            then InTable(db, Contacts, PutAll(schema.defs[Contacts], tenant, db[Contacts], rows)) else None
  {
    var lines := ContactLines(records);
    var rows := BatchRows(codec, made, lines, Contacts);
    OnlyContactsSeen(records);
    OneTable(schema, codec, made, tenant, db, lines, Contacts);
    BatchIsRowByRow(schema, tenant, db, Contacts, rows, BATCH_SIZE);
    var r := UpsertBatch(schema, tenant, db, Contacts, rows, BATCH_SIZE);
    if r.Some? {
      BatchGrows(schema, tenant, db, Contacts, rows, BATCH_SIZE, Contacts);
      MoreContactsAreClosed(schema, db, r.value[Contacts]);
    }
  }

  // ---- a contact without an id ----

  /** The new row: the columns of the record, the made-up id and the defaults of the others. */
  function NewContact(schema: Schema, codec: Codec, made: Generated, cells: Cells): Row
    requires Contacts in schema.defs
  {
    schema.defs[Contacts].blank + RowOf(codec, cells.Keys, cells)[Id := made(Contacts, 0)]
  }

  function WithContact(schema: Schema, codec: Codec, made: Generated, db: Db, cells: Cells): Db
    requires Contacts in db && Contacts in schema.defs
  {
    db[Contacts := db[Contacts][made(Contacts, 0) := NewContact(schema, codec, made, cells)]]
  }

  /** A contact without an id whose made-up id is new, for every database: accepted exactly when its
      required columns are there and no other contact has its unique key, and then one row more. */
  lemma OneMoreContact(schema: Schema, codec: Codec, made: Generated, tenant: Value, db: Db, cells: Cells)
    requires IsDb(schema, db) && Closed(schema, db) && schema.topo == BACKUPABLE && schema.refs == REFERENCES
    requires Contacts in db && made(Contacts, 0) != Null && made(Contacts, 0) !in db[Contacts]
    requires cells.Keys <= schema.defs[Contacts].blank.Keys && Id !in cells
    requires TenantId in cells && codec.decode(cells[TenantId]) == tenant
    ensures var def, row := schema.defs[Contacts], NewContact(schema, codec, made, cells);
            Restored(schema, codec, made, tenant, db, ContactLines([cells])) ==
            if Complete(def, row) && Free(def, db[Contacts], made(Contacts, 0), row)
            then Some(WithContact(schema, codec, made, db, cells)) else None
  {
    var r := RowOf(codec, cells.Keys, cells)[Id := made(Contacts, 0)];
    ContactsRestored(schema, codec, made, tenant, db, [cells]);
    OneContactBatch(codec, made, cells);
    NewRowPut(schema.defs[Contacts], tenant, db[Contacts], r);
  }

  lemma OneContactBatch(codec: Codec, made: Generated, cells: Cells)
    requires Id !in cells
    ensures BatchRows(codec, made, ContactLines([cells]), Contacts) ==
            [RowOf(codec, cells.Keys, cells)[Id := made(Contacts, 0)]]
  {
    CellsOfContacts([cells], Contacts);
  }

  lemma NewRowPut(def: TableDef, tenant: Value, rows: Rows, r: Row)
    requires r.Keys <= def.blank.Keys && Id in r && r[Id] != Null && r[Id] !in rows && Owned(r, tenant)
    ensures StatementsDistinct([r], BATCH_SIZE)
    ensures PutAll(def, tenant, rows, [r]) ==
            if Complete(def, def.blank + r) && Free(def, rows, r[Id], def.blank + r)
            then Some(rows[r[Id] := def.blank + r]) else None
  {
    assert [r][..0] == [] && [r][..1] == [r] && [r][1..] == [];
    assert PutAll(def, tenant, rows, [r]) == Put(def, tenant, rows, r);
  }

  /** Without a phone nothing is in its way: each restore of such a stream adds one more row. */
  lemma ContactWithoutPhoneComesAgain(
    schema: Schema, codec: Codec, made: Generated, tenant: Value, db: Db, cells: Cells)
    requires IsDb(schema, db) && Closed(schema, db) && schema.topo == BACKUPABLE && schema.refs == REFERENCES
    requires Contacts in db && made(Contacts, 0) != Null && made(Contacts, 0) !in db[Contacts]
    requires schema.defs[Contacts].uniques == UniquesOf(Contacts)
    requires cells.Keys <= schema.defs[Contacts].blank.Keys && Id !in cells
    requires TenantId in cells && codec.decode(cells[TenantId]) == tenant
    requires Complete(schema.defs[Contacts], NewContact(schema, codec, made, cells))
    requires !HasPhone(NewContact(schema, codec, made, cells))
    ensures Restored(schema, codec, made, tenant, db, ContactLines([cells])) ==
            Some(WithContact(schema, codec, made, db, cells))
  {
    OneMoreContact(schema, codec, made, tenant, db, cells);
    var def, row := schema.defs[Contacts], NewContact(schema, codec, made, cells);
    forall x | x in db[Contacts] ensures !Clash(def, row, db[Contacts][x]) {
      ContactsClash(def, row, db[Contacts][x]);
    }
  }

  /** With one the second restore is refused: the first has taken the unique key. */
  lemma ContactWithPhoneComesOnce(
    schema: Schema, codec: Codec, made: Generated, made': Generated, tenant: Value, db: Db, cells: Cells)
    requires IsDb(schema, db) && Closed(schema, db) && schema.topo == BACKUPABLE && schema.refs == REFERENCES
    requires Contacts in db && made(Contacts, 0) != Null && made(Contacts, 0) !in db[Contacts]
    requires schema.defs[Contacts].uniques == UniquesOf(Contacts)
    requires cells.Keys <= schema.defs[Contacts].blank.Keys && Id !in cells
    requires TenantId in cells && codec.decode(cells[TenantId]) == tenant
    requires HasPhone(NewContact(schema, codec, made, cells))
    requires Restored(schema, codec, made, tenant, db, ContactLines([cells])).Some?
    requires made'(Contacts, 0) != Null && made'(Contacts, 0) !in db[Contacts]
    requires made'(Contacts, 0) != made(Contacts, 0)
    ensures Restored(schema, codec, made', tenant,
                     Restored(schema, codec, made, tenant, db, ContactLines([cells])).value,
                     ContactLines([cells])) == None
  {
    OneMoreContact(schema, codec, made, tenant, db, cells);
    var db' := WithContact(schema, codec, made, db, cells);
    OneMoreContact(schema, codec, made', tenant, db', cells);
    SamePhone(schema, codec, made, made', cells);
    assert db'[Contacts][made(Contacts, 0)] == NewContact(schema, codec, made, cells);
  }

  lemma SamePhone(schema: Schema, codec: Codec, made: Generated, made': Generated, cells: Cells)
    requires Contacts in schema.defs && schema.defs[Contacts].uniques == UniquesOf(Contacts)
    requires HasPhone(NewContact(schema, codec, made, cells))
    ensures Clash(schema.defs[Contacts], NewContact(schema, codec, made', cells),
                  NewContact(schema, codec, made, cells))
  {
    ContactsClash(schema.defs[Contacts], NewContact(schema, codec, made', cells),
                  NewContact(schema, codec, made, cells));
  }
}

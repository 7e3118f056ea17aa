/** The tenant tables of the database: row-level security, required columns and unique keys, which hold
    after every row; the chunked upsert, the delete; and the foreign keys, which are deferred: only a
    commit looks at them. */
module Tables {
  import opened Common
  import opened TableOrder

  datatype Column = Id | TenantId | Named(name: string)

  datatype Value = Null | Datum(int)

  type Row = map<Column, Value>

  /** The rows of one table by primary key. */
  type Rows = map<Value, Row>

  type Db = map<TableName, Rows>

  datatype Reference = Reference(child: TableName, column: Column, parent: TableName)

  /** A table: its columns with the value an insert gives to one it leaves out, those that may not be
      NULL, and the unique keys besides the id. */
  datatype TableDef = TableDef(blank: Row, required: set<Column>, uniques: seq<set<Column>>)

  /** The tables, parents before children, and the foreign keys. */
  datatype Schema = Schema(topo: seq<TableName>, defs: map<TableName, TableDef>, refs: seq<Reference>)

  const REFERENCES: seq<Reference> := [
    Reference(Conversations, Named("contact_id"), Contacts),
    Reference(Messages, Named("conversation_id"), Conversations),
    Reference(Messages, Named("contact_id"), Contacts)]

  /** The unique keys of the migrations, the primary keys apart. */
  function UniquesOf(t: TableName): seq<set<Column>> {
    match t
    case Contacts => [{TenantId, Named("channel"), Named("phone")}]
    case Conversations => [{TenantId, Named("channel"), Named("external_id")}]
    case Messages => [{TenantId, Named("channel"), Named("provider_msg_id")}]
    case ChannelCredentials => [{TenantId, Named("channel")}]
    case WhatsappAccountState => [{TenantId, Named("jid")}]
    case WhatsappSessionKeys => [{TenantId, Named("jid")}]
    case WhatsappHistory => [{TenantId, Named("jid"), Named("msg_id")}]
    case _ => []
  }

  predicate IsReference(schema: Schema, r: Reference) {
    && r.child in schema.defs && r.parent in schema.defs && r.column in schema.defs[r.child].blank
    && Position(schema.topo, r.parent) < Position(schema.topo, r.child)
  }

  predicate IsDef(def: TableDef) {
    && Id in def.blank && TenantId in def.blank && def.required <= def.blank.Keys
    && forall u :: u in def.uniques ==> u <= def.blank.Keys
  }

  predicate IsSchema(schema: Schema) {
    && Distinct(schema.topo) && schema.defs.Keys == Elements(schema.topo)
    && (forall t :: t in schema.defs ==> IsDef(schema.defs[t]))
    && forall r :: r in schema.refs ==> IsReference(schema, r)
  }

  /** The tables of the migrations are such a schema, whatever further columns they have. */
  lemma MigrationsFormASchema(defs: map<TableName, TableDef>)
    requires defs.Keys == Elements(BACKUPABLE)
    requires forall t :: t in defs ==> Id in defs[t].blank && TenantId in defs[t].blank
    requires forall t :: t in defs ==> defs[t].required <= defs[t].blank.Keys && defs[t].uniques == UniquesOf(t)
    requires forall t, u :: t in defs && u in UniquesOf(t) ==> u <= defs[t].blank.Keys
    requires Named("contact_id") in defs[Conversations].blank
    requires Named("conversation_id") in defs[Messages].blank && Named("contact_id") in defs[Messages].blank
    ensures IsSchema(Schema(BACKUPABLE, defs, REFERENCES))
  {
    BackupableIsDistinct();
    BackupablePositions();
    var schema := Schema(BACKUPABLE, defs, REFERENCES);
    forall r | r in schema.refs ensures IsReference(schema, r) {
      IsOneOfThree(r);
    }
  }

  lemma IsOneOfThree(r: Reference)
    requires r in REFERENCES
    ensures || r == Reference(Conversations, Named("contact_id"), Contacts)
            || r == Reference(Messages, Named("conversation_id"), Conversations)
            || r == Reference(Messages, Named("contact_id"), Contacts)
  {
  }

  // ---- rows ----

  predicate Complete(def: TableDef, row: Row) { forall c :: c in def.required ==> c in row && row[c] != Null }

  predicate IsRows(def: TableDef, rows: Rows) {
    forall k :: k in rows ==>
      k != Null && rows[k].Keys == def.blank.Keys && Id in rows[k] && rows[k][Id] == k && Complete(def, rows[k])
  }

  /** Equal in all columns of a key; NULL is equal to nothing. */
  predicate SameKey(u: set<Column>, a: Row, b: Row) {
    forall c :: c in u ==> c in a && c in b && a[c] != Null && a[c] == b[c]
  }

  predicate Clash(def: TableDef, a: Row, b: Row) { exists u :: u in def.uniques && SameKey(u, a, b) }

  /** No other row of the table has a unique key of this one. */
  predicate Free(def: TableDef, rows: Rows, k: Value, row: Row) {
    forall x :: x in rows && x != k ==> !Clash(def, row, rows[x])
  }

  predicate Unique(def: TableDef, rows: Rows) { forall k :: k in rows ==> Free(def, rows, k, rows[k]) }

  lemma ClashIsMutual(def: TableDef, a: Row, b: Row)
    ensures Clash(def, a, b) <==> Clash(def, b, a)
  {
    if Clash(def, a, b) {
      var u :| u in def.uniques && SameKey(u, a, b);
      assert SameKey(u, b, a);
    }
    if Clash(def, b, a) {
      var u :| u in def.uniques && SameKey(u, b, a);
      assert SameKey(u, a, b);
    }
  }

  /** Tables with the columns of the schema, the required ones filled in. */
  predicate IsTyped(schema: Schema, db: Db) {
    && IsSchema(schema) && db.Keys == schema.defs.Keys
    && forall t :: t in db ==> IsRows(schema.defs[t], db[t])
  }

  /** What holds after every row of every statement. */
  predicate IsDb(schema: Schema, db: Db) {
    IsTyped(schema, db) && forall t :: t in db ==> Unique(schema.defs[t], db[t])
  }

  predicate RefersInto(child: Rows, column: Column, parent: Rows)
    requires forall k :: k in child ==> column in child[k]
  {
    forall k :: k in child ==> child[k][column] in parent
  }

  predicate Holds(schema: Schema, db: Db, r: Reference)
    requires IsTyped(schema, db) && r in schema.refs
  {
    RefersInto(db[r.child], r.column, db[r.parent])
  }

  /** Every foreign key points to a row: what a commit asks. */
  predicate Closed(schema: Schema, db: Db)
    requires IsTyped(schema, db)
  {
    forall r :: r in schema.refs ==> Holds(schema, db, r)
  }

  predicate Owned(row: Row, tenant: Value) { TenantId in row && row[TenantId] == tenant }

  function OwnedKeys(rows: Rows, tenant: Value): set<Value> {
    set k | k in rows && Owned(rows[k], tenant)
  }

  // ---- INSERT ... ON CONFLICT (id) DO UPDATE ----

  /** What the column list, NOT NULL and the policies demand of a row of an insert. */
  predicate Fits(def: TableDef, tenant: Value, r: Row) {
    && r.Keys <= def.blank.Keys && Id in r && r[Id] != Null && Owned(r, tenant) && Complete(def, def.blank + r)
  }

  predicate Admitted(def: TableDef, tenant: Value, rows: Rows, r: Row) {
    Fits(def, tenant, r) && (r[Id] in rows ==> Owned(rows[r[Id]], tenant))
  }

  /** No two rows of a statement may have the same key. */
  predicate DistinctIds(chunk: seq<Row>) {
    && (forall r :: r in chunk ==> Id in r)
    && forall i, j :: 0 <= i < j < |chunk| ==> chunk[i][Id] != chunk[j][Id]
  }

  /** Columns that the statement does not name keep their value, or get the default. */
  function Merged(blank: Row, rows: Rows, r: Row): Row
    requires Id in r
  {
    (if r[Id] in rows then rows[r[Id]] else blank) + r
  }

  /** One row: refused by the policies, by NOT NULL, or because another row has one of its keys. */
  function Put(def: TableDef, tenant: Value, rows: Rows, r: Row): Option<Rows> {
    if Admitted(def, tenant, rows, r) && Free(def, rows, r[Id], Merged(def.blank, rows, r))
    then Some(rows[r[Id] := Merged(def.blank, rows, r)]) else None
  }

  /** Row by row, each against what the rows before it have left. */
  function PutAll(def: TableDef, tenant: Value, rows: Rows, chunk: seq<Row>): Option<Rows> {
    if chunk == [] then Some(rows)
    else
      match PutAll(def, tenant, rows, chunk[..|chunk| - 1])
      case None => None
      case Some(before) => Put(def, tenant, before, chunk[|chunk| - 1])
  }

  function Statement(schema: Schema, tenant: Value, db: Db, t: TableName, chunk: seq<Row>): (r: Option<Db>)
    requires IsDb(schema, db) && t in db
    ensures r.Some? ==> IsDb(schema, r.value)
  {
    if DistinctIds(chunk) then
      PutAllKeeps(schema.defs[t], tenant, db[t], chunk);
      InTable(db, t, PutAll(schema.defs[t], tenant, db[t], chunk))
    else None
  }

  function InTable(db: Db, t: TableName, rows: Option<Rows>): Option<Db> {
    match rows
    case None => None
    case Some(now) => Some(db[t := now])
  }

  lemma OneMoreIsUnique(def: TableDef, rows: Rows, k: Value, row: Row)
    requires Unique(def, rows) && Free(def, rows, k, row)
    ensures Unique(def, rows[k := row])
  {
    var now := rows[k := row];
    forall x | x in now ensures Free(def, now, x, now[x]) {
      if x != k {
        ClashIsMutual(def, now[x], row);
        assert Free(def, rows, x, rows[x]);
      }
    }
  }

  /** A contact that takes part in the unique key: no column of it is NULL. */
  predicate HasPhone(contact: Row) {
    forall c :: c in UniquesOf(Contacts)[0] ==> c in contact && contact[c] != Null
  }

  lemma ContactsClash(def: TableDef, a: Row, b: Row)
    requires def.uniques == UniquesOf(Contacts)
    ensures Clash(def, a, b) <==> SameKey(UniquesOf(Contacts)[0], a, b)
    ensures Clash(def, a, b) ==> HasPhone(a)
  {
    assert UniquesOf(Contacts)[0] in def.uniques;
  }

  /** Nothing dangles for more contacts. */
  lemma MoreContactsAreClosed(schema: Schema, db: Db, contacts: Rows)
    requires IsTyped(schema, db) && Closed(schema, db) && schema.topo == BACKUPABLE && schema.refs == REFERENCES
    requires Contacts in db && db[Contacts].Keys <= contacts.Keys && IsTyped(schema, db[Contacts := contacts])
    ensures Closed(schema, db[Contacts := contacts])
  {
    var db' := db[Contacts := contacts];
    forall q | q in schema.refs ensures Holds(schema, db', q) {
      assert Holds(schema, db, q) && IsReference(schema, q);
      IsOneOfThree(q);
    }
  }

  lemma PutKeeps(def: TableDef, tenant: Value, rows: Rows, r: Row)
    requires IsDef(def) && IsRows(def, rows) && Unique(def, rows) && Put(def, tenant, rows, r).Some?
    ensures IsRows(def, Put(def, tenant, rows, r).value) && Unique(def, Put(def, tenant, rows, r).value)
  {
    var row := Merged(def.blank, rows, r);
    OneMoreIsUnique(def, rows, r[Id], row);
    MergedIsComplete(def, rows, r);
  }

  lemma MergedIsComplete(def: TableDef, rows: Rows, r: Row)
    requires IsDef(def) && IsRows(def, rows) && r.Keys <= def.blank.Keys && Id in r && Complete(def, def.blank + r)
    ensures Complete(def, Merged(def.blank, rows, r)) && Merged(def.blank, rows, r).Keys == def.blank.Keys
  {
    var row := Merged(def.blank, rows, r);
    forall c | c in def.required ensures c in row && row[c] != Null {
      assert (def.blank + r)[c] != Null;
    }
  }

  lemma {:induction false} PutAllKeeps(def: TableDef, tenant: Value, rows: Rows, chunk: seq<Row>)
    requires IsDef(def) && IsRows(def, rows) && Unique(def, rows)
    ensures var r := PutAll(def, tenant, rows, chunk); r.Some? ==> IsRows(def, r.value) && Unique(def, r.value)
  {
    if chunk != [] && PutAll(def, tenant, rows, chunk).Some? {
      var front := chunk[..|chunk| - 1];
      PutAllKeeps(def, tenant, rows, front);
      PutKeeps(def, tenant, PutAll(def, tenant, rows, front).value, chunk[|chunk| - 1]);
    }
  }

  /** The table after rows that are all taken: a function of the rows alone. */
  function Upserted(blank: Row, rows: Rows, chunk: seq<Row>): Rows
    requires forall r :: r in chunk ==> Id in r
  {
    if chunk == [] then rows
    else
      var before := Upserted(blank, rows, chunk[..|chunk| - 1]);
      var r := chunk[|chunk| - 1];
      before[r[Id] := Merged(blank, before, r)]
  }

  lemma {:induction false} PutAllIsUpserted(def: TableDef, tenant: Value, rows: Rows, chunk: seq<Row>)
    requires PutAll(def, tenant, rows, chunk).Some?
    ensures forall r :: r in chunk ==> Id in r && Fits(def, tenant, r)
    ensures PutAll(def, tenant, rows, chunk).value == Upserted(def.blank, rows, chunk)
  {
    if chunk != [] {
      var front, last := chunk[..|chunk| - 1], chunk[|chunk| - 1];
      PutAllIsUpserted(def, tenant, rows, front);
      assert forall r :: r in chunk ==> r in front || r == last;
    }
  }

  lemma {:induction false} UpsertedGrows(blank: Row, rows: Rows, chunk: seq<Row>, k: Value)
    requires (forall r :: r in chunk ==> Id in r) && k in rows
    ensures k in Upserted(blank, rows, chunk)
  {
    if chunk != [] { UpsertedGrows(blank, rows, chunk[..|chunk| - 1], k); }
  }

  predicate Touches(chunk: seq<Row>, k: Value) {
    exists i :: 0 <= i < |chunk| && Id in chunk[i] && chunk[i][Id] == k
  }

  lemma {:induction false} UpsertedElsewhere(blank: Row, rows: Rows, chunk: seq<Row>, k: Value)
    requires (forall r :: r in chunk ==> Id in r) && !Touches(chunk, k)
    ensures k in Upserted(blank, rows, chunk) <==> k in rows
    ensures k in rows ==> Upserted(blank, rows, chunk)[k] == rows[k]
  {
    if chunk != [] {
      var front, last := chunk[..|chunk| - 1], chunk[|chunk| - 1];
      assert forall i :: 0 <= i < |front| ==> front[i] == chunk[i];
      UpsertedElsewhere(blank, rows, front, k);
      assert last in chunk && last[Id] != k;
    }
  }

  /** With distinct keys each row is merged with what the table held before the statement. */
  lemma {:induction false} UpsertedAt(blank: Row, rows: Rows, chunk: seq<Row>, i: nat)
    requires DistinctIds(chunk) && i < |chunk|
    ensures chunk[i][Id] in Upserted(blank, rows, chunk)
    ensures Upserted(blank, rows, chunk)[chunk[i][Id]] == Merged(blank, rows, chunk[i])
  {
    var front, last := chunk[..|chunk| - 1], chunk[|chunk| - 1];
    assert forall j :: 0 <= j < |front| ==> front[j] == chunk[j];
    if i < |front| {
      UpsertedAt(blank, rows, front, i);
    } else {
      UpsertedElsewhere(blank, rows, front, last[Id]);
    }
  }

  lemma {:induction false} UpsertedConcat(blank: Row, rows: Rows, a: seq<Row>, b: seq<Row>)
    requires forall r :: r in a + b ==> Id in r
    ensures (forall r :: r in a ==> Id in r) && forall r :: r in b ==> Id in r
    ensures Upserted(blank, rows, a + b) == Upserted(blank, Upserted(blank, rows, a), b)
  {
    assert forall r :: r in a || r in b ==> r in a + b;
    if b == [] {
      assert a + b == a;
    } else {
      var front := b[..|b| - 1];
      assert (a + b)[..|a + b| - 1] == a + front;
      assert forall r :: r in a + front ==> r in a + b;
      UpsertedConcat(blank, rows, a, front);
    }
  }

  /** The statements of one table, `size` rows each. */
  function UpsertBatch(schema: Schema, tenant: Value, db: Db, t: TableName, rows: seq<Row>, size: nat): (r: Option<Db>)
    requires IsDb(schema, db) && t in db && size > 0
    ensures r.Some? ==> IsDb(schema, r.value)
    decreases |rows|
  {
    if rows == [] then Some(db)
    else
      var n := Min(size, |rows|);
      match Statement(schema, tenant, db, t, rows[..n])
      case None => None
      case Some(db') => UpsertBatch(schema, tenant, db', t, rows[n..], size)
  }

  // ---- DELETE ... WHERE tenant_id ----

  function WithoutTenant(rows: Rows, tenant: Value): Rows { rows - OwnedKeys(rows, tenant) }

  /** The database without the tenant's rows in some tables. */
  function WipedIn(db: Db, tables: set<TableName>, tenant: Value): Db {
    map t | t in db :: if t in tables then WithoutTenant(db[t], tenant) else db[t]
  }

  lemma TableReplaced(schema: Schema, db: Db, t: TableName, rows: Rows)
    requires IsDb(schema, db) && t in db && IsRows(schema.defs[t], rows) && Unique(schema.defs[t], rows)
    ensures IsDb(schema, db[t := rows])
  {
    var db' := db[t := rows];
    assert db'.Keys == db.Keys;
    forall u | u in db' ensures IsRows(schema.defs[u], db'[u]) && Unique(schema.defs[u], db'[u]) {
      if u != t { assert db'[u] == db[u]; }
    }
  }

  lemma WipedInIsDb(schema: Schema, db: Db, tables: set<TableName>, tenant: Value)
    requires IsDb(schema, db)
    ensures IsDb(schema, WipedIn(db, tables, tenant))
  {
    forall t | t in db ensures Unique(schema.defs[t], WithoutTenant(db[t], tenant)) {
      FewerAreUnique(schema.defs[t], db[t], tenant);
    }
  }

  lemma FewerAreUnique(def: TableDef, rows: Rows, tenant: Value)
    requires Unique(def, rows)
    ensures Unique(def, WithoutTenant(rows, tenant))
  {
    forall k | k in WithoutTenant(rows, tenant) ensures Free(def, WithoutTenant(rows, tenant), k, rows[k]) {
      assert Free(def, rows, k, rows[k]);
    }
  }
}

/** The backup service: export, restore and reset as they run against the database. */
module BackupService {
  import opened Common
  import opened TableOrder
  import opened Tables
  import opened Backup
  import opened Exported
  import opened Deletes

  /** The database; a statement is atomic and may fail for reasons of its own unless `reliable`. The
      foreign keys are deferred: statements may break them, a commit may not. */
  class Database {
    var tables: Db
    const schema: Schema
    const reliable: bool

    constructor (schema: Schema, initial: Db, reliable: bool)
      requires IsDb(schema, initial) && Closed(schema, initial) && schema.topo == BACKUPABLE
      ensures Consistent() && tables == initial && this.schema == schema && this.reliable == reliable
    {
      this.schema, this.tables, this.reliable := schema, initial, reliable;
    }

    predicate Valid()
      reads this
    {
      IsDb(schema, tables) && schema.topo == BACKUPABLE
    }

    /** Outside transactions. */
    predicate Consistent()
      reads this
    {
      Valid() && Closed(schema, tables)
    }

    method Insert(tenant: Value, t: TableName, chunk: seq<Row>) returns (ok: bool)
      requires Valid() && t in tables
      modifies this`tables
      ensures Valid()
      ensures ok ==> Statement(schema, tenant, old(tables), t, chunk) == Some(tables)
      ensures reliable ==> (ok <==> Statement(schema, tenant, old(tables), t, chunk).Some?)
    {
      ok := StoreAnswers(reliable);
      match Statement(schema, tenant, tables, t, chunk) {
        case Some(db') => if ok { tables := db'; }
        case None => ok := false;
      }
    }

    method Delete(tenant: Value, t: TableName) returns (ok: bool, affected: nat)
      requires Valid() && t in tables
      modifies this`tables
      ensures Valid()
      ensures tables == if ok then old(tables)[t := WithoutTenant(old(tables)[t], tenant)] else old(tables)
      ensures ok ==> affected == |OwnedKeys(old(tables)[t], tenant)|
      ensures reliable ==> ok
    {
      affected := 0;
      ok := StoreAnswers(reliable);
      if ok {
        affected := |OwnedKeys(tables[t], tenant)|;
        DeleteIsDb(schema, tables, t, tenant);
        tables := tables[t := WithoutTenant(tables[t], tenant)];
      }
    }

    /** The end of a transaction that began at `snapshot`: a dangling reference refuses it. */
    method Commit(snapshot: Db) returns (ok: bool)
      requires Valid() && IsDb(schema, snapshot) && Closed(schema, snapshot)
      modifies this`tables
      ensures Consistent()
      ensures tables == if ok then old(tables) else snapshot
      ensures reliable ==> (ok <==> Closed(schema, old(tables)))
    {
      ok := StoreAnswers(reliable);
      if !Closed(schema, tables) { ok := false; }
      if !ok { tables := snapshot; }
    }

    /** The keys of the tenant's rows, in the order the database pleases. */
    method Select(tenant: Value, t: TableName) returns (ok: bool, ids: seq<Value>)
      requires Valid() && t in tables
      ensures reliable ==> ok
      ensures ok ==> Distinct(ids) && Elements(ids) == OwnedKeys(tables[t], tenant)
    {
      ids := [];
      ok := StoreAnswers(reliable);
      if ok {
        var all := OwnedKeys(tables[t], tenant);
        ids := TakeAny(all, |all|);
        DistinctCardinality(ids);
        SubsetCardinality(Elements(ids), all);
      }
    }
  }

  datatype Outcome = Done | Skipped | Failed

  class Service {
    const db: Database
    const codec: Codec

    constructor (db: Database, codec: Codec)
      ensures this.db == db && this.codec == codec
    {
      this.db, this.codec := db, codec;
    }

    // ---- export ----

    method ExportTable(tenant: Value, t: TableName, lines: seq<Line>)
      returns (ok: bool, lines': seq<Line>, ids: seq<Value>)
      requires db.Valid() && t in db.tables
      ensures db.reliable ==> ok
      ensures ok ==> Distinct(ids) && Elements(ids) == OwnedKeys(db.tables[t], tenant)
      ensures ok ==> (forall k :: k in ids ==> k in db.tables[t])
                     && lines' == lines + LinesOf(codec, db.tables[t], t, ids)
    {
      lines' := lines;
      ok, ids := db.Select(tenant, t);
      if !ok { return; }
      forall k | k in ids ensures k in db.tables[t] {
        assert k in Elements(ids);
      }
      ghost var all := LinesOf(codec, db.tables[t], t, ids);
      for i := 0 to |ids|
        invariant lines' == lines + all[..i]
      {
        var row := db.tables[t][ids[i]];
        lines' := lines' + [Record(Some(t), map c | c in row :: codec.encode(row[c]))];
        SliceStep(lines, all, i);
      }
    }

    /** Every row of the tenant once, parents before children, and no row of another tenant. */
    method Export(tenant: Value) returns (ok: bool, lines: seq<Line>, ghost keys: seq<Key>)
      requires db.Valid()
      ensures db.reliable ==> ok
      ensures ok ==> IsExport(codec, db.tables, tenant, keys, lines)
      ensures ok ==> InTableOrder(keys)
    {
      ok, lines, keys := true, [], [];
      for n := 0 to |BACKUPABLE|
        invariant ok && IsPartialExport(codec, db.tables, tenant, keys, lines)
        invariant forall key :: key in keys <==> key.table in BACKUPABLE[..n] && IsKeyOf(db.tables, tenant, key)
        invariant InTableOrder(keys)
      {
        var t := BACKUPABLE[n];
        var ids;
        ghost var before := keys;
        BackupableIsDistinct();
        PrefixStep(BACKUPABLE, n);
        ghost var written := lines;
        ok, lines, ids := ExportTable(tenant, t, lines);
        if !ok { return; }
        keys := keys + KeysOf(t, ids);
        NextTableExported(codec, db.tables, tenant, before, written, t, ids);
        forall key ensures key in keys <==> key.table in BACKUPABLE[..n + 1] && IsKeyOf(db.tables, tenant, key) {
          NextTableCovered(db.tables, tenant, before, t, ids, key);
        }
        StillInTableOrder(before, n, ids);
      }
      forall t, k | t in db.tables && k in OwnedKeys(db.tables[t], tenant) ensures Key(t, k) in keys {
        assert t in Elements(BACKUPABLE) && BACKUPABLE[..|BACKUPABLE|] == BACKUPABLE;
        assert IsKeyOf(db.tables, tenant, Key(t, k));
      }
    }

    // ---- restore ----

    /** Group the lines by table: the order of the tables does not depend on that of the lines. */
    method Parse(lines: seq<Line>) returns (ok: bool, batches: Batches, order: seq<TableName>)
      ensures ok <==> AllAcceptable(lines)
      ensures ok ==> order == Seen(lines, BACKUPABLE) && Elements(order) == batches.Keys
      ensures ok ==> Collected(codec, lines, batches)
    {
      ok, batches, order := true, map[], [];
      for i := 0 to |lines|
        invariant ok && Collected(codec, lines[..i], batches)
        invariant AllAcceptable(lines[..i])
        invariant InOrder(order, BACKUPABLE) && Elements(order) == batches.Keys
      {
        AcceptableStep(lines, i);
        match lines[i] {
          case Blank =>
            CollectedBlank(codec, lines, i, batches);
          case Malformed =>
            ok := false;
            return;
          case Record(_, cells) =>
            var table := TableOf(lines[i]);
            if table.None? || !Restorable(table.value) {
              ok := false;
              return;
            }
            var t := table.value;
            AllowlistLeavesOutKeyMaterial(t);
            ghost var before := batches;
            if t !in batches {
              order := AppendInOrder(order, t, BACKUPABLE);
              batches := batches[t := Batch(cells.Keys, [])];
            }
            var b := batches[t];
            batches := batches[t := Batch(b.columns, b.rows + [RowOf(codec, b.columns, cells)])];
            CollectedRecord(codec, lines, i, before, t, b.columns, batches[t].rows);
        }
      }
      WholeSlice(lines);
      OrderIsSeen(codec, lines, batches, order);
    }

    /** INSERT ... ON CONFLICT in statements of a hundred rows. */
    method Upsert(tenant: Value, t: TableName, rows: seq<Row>) returns (ok: bool)
      requires db.Valid() && t in db.tables
      modifies db`tables
      ensures db.Valid()
      ensures ok ==> UpsertBatch(db.schema, tenant, old(db.tables), t, rows, BATCH_SIZE) == Some(db.tables)
      ensures db.reliable ==> (ok <==> UpsertBatch(db.schema, tenant, old(db.tables), t, rows, BATCH_SIZE).Some?)
    {
      var start := 0;
      while start < |rows|
        invariant 0 <= start <= |rows| && db.Valid()
        invariant UpsertBatch(db.schema, tenant, old(db.tables), t, rows, BATCH_SIZE) ==
                  UpsertBatch(db.schema, tenant, db.tables, t, rows[start..], BATCH_SIZE)
      {
        var end := Min(start + BATCH_SIZE, |rows|);
        BatchStep(db.schema, tenant, db.tables, t, rows, start, end);
        ok := db.Insert(tenant, t, rows[start..end]);
        if !ok { return; }
        start := end;
      }
      ok := true;
    }

    /** One transaction: on any error the database is as it was. `made` are the keys the database
        would make up for rows without one. */
    method Restore(tenant: Value, lines: seq<Line>, made: Generated) returns (outcome: Outcome)
      requires db.Consistent()
      modifies db`tables
      ensures db.Consistent()
      ensures outcome.Failed? ==> db.tables == old(db.tables)
      ensures !outcome.Failed? ==> Restored(db.schema, codec, made, tenant, old(db.tables), lines) == Some(db.tables)
      ensures outcome.Skipped? <==> forall line :: line in lines ==> line.Blank?
      ensures db.reliable ==>
                (outcome.Failed? <==> Restored(db.schema, codec, made, tenant, old(db.tables), lines).None?)
    {
      var parsed, batches, order := Parse(lines);
      if !parsed { return Failed; }
      NothingSeen(lines);
      if order == [] { return Skipped; }
      assert forall t :: t in order ==> t in db.tables by { SeenIsInOrder(lines, BACKUPABLE); }
      var ok := Transaction(tenant, lines, made, batches, order);
      return if ok then Done else Failed;
    }

    /** Begin, the batches, commit; or all undone. */
    method Transaction(tenant: Value, ghost lines: seq<Line>, made: Generated, batches: Batches, order: seq<TableName>)
      returns (ok: bool)
      requires db.Consistent() && Collected(codec, lines, batches) && Elements(order) == batches.Keys
      requires forall t :: t in order ==> t in db.tables
      modifies db`tables
      ensures db.Consistent()
      ensures !ok ==> db.tables == old(db.tables)
      ensures ok ==> RestoreTables(db.schema, codec, made, tenant, old(db.tables), lines, order) == Some(db.tables)
      ensures db.reliable ==>
                var r := RestoreTables(db.schema, codec, made, tenant, old(db.tables), lines, order);
                (ok <==> r.Some? && Closed(db.schema, r.value))
    {
      var snapshot := db.tables;
      ok := StoreAnswers(db.reliable);
      if ok { ok := UpsertTables(tenant, lines, made, batches, order); }
      if ok { ok := db.Commit(snapshot); } else { db.tables := snapshot; }
    }

    /** The batches one after the other, in the order of the tables. */
    method UpsertTables(tenant: Value, ghost lines: seq<Line>, made: Generated, batches: Batches, order: seq<TableName>)
      returns (ok: bool)
      requires db.Valid() && Collected(codec, lines, batches) && Elements(order) == batches.Keys
      requires forall t :: t in order ==> t in db.tables
      modifies db`tables
      ensures db.Valid()
      ensures ok ==> RestoreTables(db.schema, codec, made, tenant, old(db.tables), lines, order) == Some(db.tables)
      ensures db.reliable ==>
                (ok <==> RestoreTables(db.schema, codec, made, tenant, old(db.tables), lines, order).Some?)
    {
      ghost var before := db.tables;
      ok := true;
      for i := 0 to |order|
        invariant db.Valid()
        invariant ok ==> RestoreTables(db.schema, codec, made, tenant, before, lines, order[..i]) == Some(db.tables)
        invariant db.reliable && !ok ==>
                    RestoreTables(db.schema, codec, made, tenant, before, lines, order[..i]).None?
      {
        RestoreStep(db.schema, codec, made, tenant, before, lines, order, i);
        if ok {
          assert order[i] in Elements(order);
          ok := Upsert(tenant, order[i], WithIds(batches[order[i]].rows, order[i], made));
        }
      }
      WholeSlice(order);
    }

    // ---- reset ----

    /** Tables that nothing refers to, each delete committed on its own; stops at an error. */
    method DeleteEach(tenant: Value, tables: seq<TableName>) returns (ok: bool, cleared: nat, n: nat)
      requires db.Consistent() && AllIn(tables, db.tables) && Distinct(tables)
      requires forall r :: r in db.schema.refs ==> r.parent !in Elements(tables)
      modifies db`tables
      ensures db.Consistent()
      ensures db.reliable ==> ok
      ensures n <= |tables| && (ok ==> n == |tables|) && AllIn(tables[..n], old(db.tables))
      ensures db.tables == WipedIn(old(db.tables), Elements(tables[..n]), tenant)
      ensures cleared == OwnedCount(old(db.tables), tables[..n], tenant)
    {
      ghost var start := db.tables;
      ok, cleared, n := true, 0, 0;
      NothingWiped(start, tenant);
      assert tables[..0] == [];
      while ok && n < |tables|
        invariant n <= |tables| && (db.reliable ==> ok) && db.Consistent() && AllIn(tables[..n], start)
        invariant db.tables == WipedIn(start, Elements(tables[..n]), tenant)
        invariant cleared == OwnedCount(start, tables[..n], tenant)
        decreases ok, |tables| - n
      {
        NextLeafWiped(db.schema, start, db.tables, tables, n, tenant);
        var affected;
        ok, affected := DeleteNow(tenant, tables[n]);
        if ok {
          NextCounted(start, tables, n, tenant);
          cleared, n := cleared + affected, n + 1;
        }
      }
    }

    /** A delete outside transactions. */
    method DeleteNow(tenant: Value, t: TableName) returns (ok: bool, affected: nat)
      requires db.Consistent() && t in db.tables
      modifies db`tables
      ensures db.Consistent()
      ensures var after := old(db.tables)[t := WithoutTenant(old(db.tables)[t], tenant)];
              && db.tables == (if ok then after else old(db.tables))
              && (ok ==> affected == |OwnedKeys(old(db.tables)[t], tenant)|)
              && IsDb(db.schema, after) && (db.reliable ==> (ok <==> Closed(db.schema, after)))
    {
      DeleteIsDb(db.schema, db.tables, t, tenant);
      var snapshot := db.tables;
      ok, affected := db.Delete(tenant, t);
      if ok { ok := db.Commit(snapshot); }
    }

    /** All the tables in one transaction. */
    method DeleteTogether(tenant: Value, tables: seq<TableName>, before: nat) returns (ok: bool, cleared: nat)
      requires db.Consistent() && AllIn(tables, db.tables) && Distinct(tables)
      modifies db`tables
      ensures db.Consistent()
      ensures db.tables == if ok then WipedIn(old(db.tables), Elements(tables), tenant) else old(db.tables)
      ensures ok ==> cleared == before + OwnedCount(old(db.tables), tables, tenant)
      ensures db.reliable ==> (ok <==> NobodyElseRefers(db.schema, old(db.tables), Elements(tables), tenant))
    {
      var snapshot := db.tables;
      WipeCommitsIff(db.schema, snapshot, Elements(tables), tenant);
      cleared := before;
      ok := StoreAnswers(db.reliable);
      if ok { ok, cleared := DeleteInside(tenant, tables, before); }
      if ok { ok := db.Commit(snapshot); } else { db.tables := snapshot; }
    }

    /** The deletes of the transaction, one table after the other. */
    method DeleteInside(tenant: Value, tables: seq<TableName>, before: nat) returns (ok: bool, cleared: nat)
      requires db.Valid() && AllIn(tables, db.tables) && Distinct(tables)
      modifies db`tables
      ensures db.Valid() && (db.reliable ==> ok)
      ensures ok ==> db.tables == WipedIn(old(db.tables), Elements(tables), tenant)
      ensures ok ==> cleared == before + OwnedCount(old(db.tables), tables, tenant)
    {
      ghost var start := db.tables;
      var n := 0;
      ok, cleared := true, before;
      NothingWiped(start, tenant);
      assert tables[..0] == [];
      while ok && n < |tables|
        invariant n <= |tables| && (db.reliable ==> ok) && db.Valid() && AllIn(tables[..n], start)
        invariant db.tables == WipedIn(start, Elements(tables[..n]), tenant)
        invariant cleared == before + OwnedCount(start, tables[..n], tenant)
        decreases ok, |tables| - n
      {
        NextWiped(start, tables, n, tenant);
        var affected;
        ok, affected := db.Delete(tenant, tables[n]);
        if ok { cleared, n := cleared + affected, n + 1; }
      }
      WholeSlice(tables);
    }

    /** Both parts, for any two lists of tables. */
    method ResetParts(tenant: Value, first: seq<TableName>, rest: seq<TableName>)
      returns (ok: bool, cleared: nat, ghost n: nat)
      requires db.Consistent() && AllIn(first, db.tables) && AllIn(rest, db.tables) && Distinct(first) && Distinct(rest)
      requires forall r :: r in db.schema.refs ==> r.parent !in Elements(first)
      modifies db`tables
      ensures db.Consistent() && n <= |first| && (db.reliable || ok ==> n == |first|)
      ensures var half := WipedIn(old(db.tables), Elements(first[..n]), tenant);
              && IsDb(db.schema, half) && AllIn(rest, half) && AllIn(first[..n], old(db.tables))
              && db.tables == (if ok then WipedIn(half, Elements(rest), tenant) else half)
              && (ok ==> cleared == OwnedCount(old(db.tables), first[..n], tenant) + OwnedCount(half, rest, tenant))
              && (db.reliable ==> (ok <==> NobodyElseRefers(db.schema, half, Elements(rest), tenant)))
    {
      var done;
      ok, cleared, done := DeleteEach(tenant, first);
      n := done;
      if !ok { return; }
      ok, cleared := DeleteTogether(tenant, rest, cleared);
    }

    /** First the WhatsApp tables, if the platform connection is there, then the others. With a store
        that answers it succeeds exactly when no other tenant's row refers to one of this tenant, and
        then it wipes and counts exactly its rows; otherwise only WhatsApp tables are wiped. */
    method Reset(tenant: Value, platform: bool) returns (ok: bool, cleared: nat)
      requires db.Consistent() && db.schema.refs == REFERENCES
      modifies db`tables
      ensures db.Consistent()
      ensures ResetOutcome(old(db.tables), db.tables, FirstTables(platform), TENANT_TABLES, tenant, ok, db.reliable)
      ensures AllIn(ResetTablesFor(platform), old(db.tables))
      ensures db.reliable ==>
                (ok <==> NobodyElseRefers(db.schema, old(db.tables), Elements(ResetTablesFor(platform)), tenant))
      ensures ok ==> db.tables == WipedIn(old(db.tables), Elements(ResetTablesFor(platform)), tenant)
      ensures ok ==> cleared == OwnedCount(old(db.tables), ResetTablesFor(platform), tenant)
      // No row of the tenant is left in any table, and all are counted; without the platform connection
      // the three WhatsApp tables stay.
      ensures ok && platform ==> forall t :: t in db.tables ==> OwnedKeys(db.tables[t], tenant) == {}
      ensures ok && !platform ==>
                forall t :: t in db.tables ==>
                  if NeedsPlatform(t) then db.tables[t] == old(db.tables)[t]
                  else OwnedKeys(db.tables[t], tenant) == {}
      ensures ok ==> cleared == |TenantRows(old(db.tables), tenant, platform)|
      ensures !ok ==> Untouched(old(db.tables), db.tables, TENANT_TABLES)
    {
      ghost var start := db.tables;
      ResetTables(db.schema, start);
      TwoParts(platform);
      ResetKeysWithin(db.schema, platform);
      ghost var n;
      ok, cleared, n := ResetParts(tenant, FirstTables(platform), TENANT_TABLES);
      RestIsUntouched(start, FirstTables(platform), n, TENANT_TABLES, tenant);
      WholeSlice(FirstTables(platform));
      PartsAddUp(db.schema, start, FirstTables(platform), TENANT_TABLES, ResetTablesFor(platform), tenant);
      ResetClearsTheTenant(db.schema, start, tenant, platform);
    }
  }

  predicate AllAcceptable(lines: seq<Line>) { forall line :: line in lines ==> Acceptable(line) }

  lemma AcceptableStep(lines: seq<Line>, i: nat)
    requires i < |lines|
    ensures AllAcceptable(lines[..i + 1]) <==> AllAcceptable(lines[..i]) && Acceptable(lines[i])
    ensures AllAcceptable(lines) ==> Acceptable(lines[i])
  {
    SlicePlus(lines, i);
  }

  lemma BatchStep(schema: Schema, tenant: Value, db: Db, t: TableName, rows: seq<Row>, start: nat, end: nat)
    requires IsDb(schema, db) && t in db && start < |rows| && end == Min(start + BATCH_SIZE, |rows|)
    ensures UpsertBatch(schema, tenant, db, t, rows[start..], BATCH_SIZE) ==
            match Statement(schema, tenant, db, t, rows[start..end])
            case None => None
            case Some(db') => UpsertBatch(schema, tenant, db', t, rows[end..], BATCH_SIZE)
  {
    SliceOfSlice(rows, start, end);
    assert rows[start..] != [] && Min(BATCH_SIZE, |rows[start..]|) == end - start;
  }

  lemma OrderIsSeen(codec: Codec, lines: seq<Line>, batches: Batches, order: seq<TableName>)
    requires Collected(codec, lines, batches) && Elements(order) == batches.Keys && InOrder(order, BACKUPABLE)
    ensures order == Seen(lines, BACKUPABLE)
  {
    SeenIsInOrder(lines, BACKUPABLE);
    BackupableIsDistinct();
    forall t ensures t in Elements(order) <==> t in Elements(Seen(lines, BACKUPABLE)) {
      assert t in order <==> t in batches;
    }
    InOrderIsUnique(order, Seen(lines, BACKUPABLE), BACKUPABLE);
  }

  lemma NothingSeen(lines: seq<Line>)
    requires AllAcceptable(lines)
    ensures Seen(lines, BACKUPABLE) == [] <==> forall line :: line in lines ==> line.Blank?
  {
    SeenIsInOrder(lines, BACKUPABLE);
    if forall line :: line in lines ==> line.Blank? {
      forall t | t in BACKUPABLE ensures CellsOf(lines, t) == [] { NoRecords(lines, t); }
      assert Seen(lines, BACKUPABLE) != [] ==> Seen(lines, BACKUPABLE)[0] in Seen(lines, BACKUPABLE);
    } else {
      var line :| line in lines && !line.Blank?;
      AllowlistLeavesOutKeyMaterial(TableOf(line).value);
      SomeRecord(lines, line, TableOf(line).value);
    }
  }

  lemma {:induction false} NoRecords(lines: seq<Line>, t: TableName)
    requires forall line :: line in lines ==> line.Blank?
    ensures CellsOf(lines, t) == []
  {
    if lines != [] {
      assert lines[|lines| - 1] in lines;
      NoRecords(lines[..|lines| - 1], t);
    }
  }

  lemma {:induction false} SomeRecord(lines: seq<Line>, line: Line, t: TableName)
    requires line in lines && Belongs(line, t)
    ensures CellsOf(lines, t) != []
  {
    if lines[|lines| - 1] != line { SomeRecord(lines[..|lines| - 1], line, t); }
  }

  predicate InTableOrder(keys: seq<Key>) {
    forall i, j :: 0 <= i < j < |keys| ==> Position(BACKUPABLE, keys[i].table) <= Position(BACKUPABLE, keys[j].table)
  }

  lemma StillInTableOrder(keys: seq<Key>, n: nat, ids: seq<Value>)
    requires n < |BACKUPABLE| && InTableOrder(keys) && forall key :: key in keys ==> key.table in BACKUPABLE[..n]
    ensures InTableOrder(keys + KeysOf(BACKUPABLE[n], ids))
  {
    PositionAt(BACKUPABLE, n);
    forall i | 0 <= i < |keys| ensures Position(BACKUPABLE, keys[i].table) < n {
      assert keys[i] in keys;
      var j :| 0 <= j < n && BACKUPABLE[j] == keys[i].table;
      PositionAt(BACKUPABLE, j);
    }
  }

  lemma PositionAt(topo: seq<TableName>, n: nat)
    requires topo == BACKUPABLE && n < |topo|
    ensures Position(topo, topo[n]) == n
  {
    BackupableIsDistinct();
    PositionFinds(topo, topo[n]);
  }
}

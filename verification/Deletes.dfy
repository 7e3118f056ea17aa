/** Wiping a tenant table by table: what the commit asks, what is counted, and that an earlier export
    brings it back. */
module Deletes {
  import opened Common
  import opened TableOrder
  import opened Tables
  import opened Backup
  import opened Exported
  import opened RoundTrip

  /** The reset's tables: the first three only through the platform connection. */
  const WHATSAPP_TABLES: seq<TableName> := [WhatsappHistory, WhatsappSessionKeys, WhatsappAccountState]

  const TENANT_TABLES: seq<TableName> :=
    [Messages, Conversations, OutboundEvents, InboundEvents, ChannelCredentials, Contacts]

  function ResetTablesFor(platform: bool): seq<TableName> {
    if platform then WHATSAPP_TABLES + TENANT_TABLES else TENANT_TABLES
  }

  // ---- what the commit asks ----

  /** No row that stays refers to a row that goes. */
  predicate StaysReferTo(child: Rows, childWiped: bool, column: Column, parent: Rows, tenant: Value)
    requires forall k :: k in child ==> column in child[k]
  {
    forall k :: k in child && !(childWiped && Owned(child[k], tenant)) ==>
      child[k][column] !in OwnedKeys(parent, tenant)
  }

  /** For each key between the wiped tables: no row of another tenant refers to a row of this one. */
  predicate NobodyElseRefers(schema: Schema, db: Db, tables: set<TableName>, tenant: Value)
    requires IsDb(schema, db)
  {
    forall r :: r in schema.refs && r.parent in tables ==>
      IsReference(schema, r) && StaysReferTo(db[r.child], r.child in tables, r.column, db[r.parent], tenant)
  }

  lemma WipedHolds(schema: Schema, db: Db, tables: set<TableName>, tenant: Value, r: Reference)
    requires IsDb(schema, db) && IsDb(schema, WipedIn(db, tables, tenant))
    requires r in schema.refs && IsReference(schema, r) && Holds(schema, db, r)
    ensures Holds(schema, WipedIn(db, tables, tenant), r) <==>
            (r.parent in tables ==> StaysReferTo(db[r.child], r.child in tables, r.column, db[r.parent], tenant))
  {
    var whole := WipedIn(db, tables, tenant);
    forall k | k in db[r.child]
      ensures k in whole[r.child] <==> !(r.child in tables && Owned(db[r.child][k], tenant))
      ensures db[r.child][k][r.column] in whole[r.parent] <==>
              !(r.parent in tables && db[r.child][k][r.column] in OwnedKeys(db[r.parent], tenant))
    {
    }
  }

  /** The commit after deleting the tenant's rows accepts exactly when nobody else refers to them. */
  lemma WipeCommitsIff(schema: Schema, db: Db, tables: set<TableName>, tenant: Value)
    requires IsDb(schema, db) && Closed(schema, db)
    ensures IsDb(schema, WipedIn(db, tables, tenant))
    ensures Closed(schema, WipedIn(db, tables, tenant)) <==> NobodyElseRefers(schema, db, tables, tenant)
  {
    var whole := WipedIn(db, tables, tenant);
    WipedInIsDb(schema, db, tables, tenant);
    forall r | r in schema.refs
      ensures IsReference(schema, r)
      ensures Holds(schema, whole, r) <==>
              (r.parent in tables ==> StaysReferTo(db[r.child], r.child in tables, r.column, db[r.parent], tenant))
    {
      assert Holds(schema, db, r);
      WipedHolds(schema, db, tables, tenant, r);
    }
  }

  /** A conversation of another tenant with a contact of this one: a database as legal as before, in
      which the reset is refused. */
  lemma ResetCanBeRefused(
    schema: Schema, d: Db, tenant: Value, other: Value, k: Value, c: Value, row: Row, platform: bool)
    requires IsDb(schema, d) && Closed(schema, d) && schema.topo == BACKUPABLE && schema.refs == REFERENCES
    requires Contacts in d && Conversations in d && other != tenant
    requires k in OwnedKeys(d[Contacts], tenant) && c !in d[Conversations]
    requires IsRows(schema.defs[Conversations], map[c := row]) && Owned(row, other)
    requires Free(schema.defs[Conversations], d[Conversations], c, row)
    requires Named("contact_id") in row && row[Named("contact_id")] == k
    ensures var d' := d[Conversations := d[Conversations][c := row]];
            && IsDb(schema, d') && Closed(schema, d')
            && !NobodyElseRefers(schema, d', Elements(ResetTablesFor(platform)), tenant)
  {
    ConversationIsLegal(schema, d, k, c, row);
    ContactsAreReset(platform);
    assert REFERENCES[0] in schema.refs;
    OneRefers(schema, d[Conversations := d[Conversations][c := row]], Elements(ResetTablesFor(platform)), tenant,
              REFERENCES[0], c);
  }

  lemma OneRefers(schema: Schema, db: Db, tables: set<TableName>, tenant: Value, r: Reference, c: Value)
    requires IsDb(schema, db) && r in schema.refs && r.parent in tables && r.child in db && c in db[r.child]
    requires r.parent in db && r.column in db[r.child][c] && db[r.child][c][r.column] in OwnedKeys(db[r.parent], tenant)
    requires !Owned(db[r.child][c], tenant)
    ensures !NobodyElseRefers(schema, db, tables, tenant)
  {
    assert IsReference(schema, r);
  }

  lemma ConversationIsLegal(schema: Schema, d: Db, k: Value, c: Value, row: Row)
    requires IsDb(schema, d) && Closed(schema, d) && schema.refs == REFERENCES
    requires Contacts in d && Conversations in d && k in d[Contacts] && c !in d[Conversations]
    requires IsRows(schema.defs[Conversations], map[c := row])
    requires Free(schema.defs[Conversations], d[Conversations], c, row)
    requires Named("contact_id") in row && row[Named("contact_id")] == k
    ensures IsDb(schema, d[Conversations := d[Conversations][c := row]])
    ensures Closed(schema, d[Conversations := d[Conversations][c := row]])
  {
    var rows := d[Conversations][c := row];
    assert row == map[c := row][c];
    OneMoreIsUnique(schema.defs[Conversations], d[Conversations], c, row);
    TableReplaced(schema, d, Conversations, rows);
    forall r | r in schema.refs ensures Holds(schema, d[Conversations := rows], r) {
      assert Holds(schema, d, r) && IsReference(schema, r);
      IsOneOfThree(r);
    }
  }

  lemma ContactsAreReset(platform: bool)
    ensures Contacts in Elements(ResetTablesFor(platform))
  {
    var tables := ResetTablesFor(platform);
    assert tables[|tables| - 1] == Contacts;
  }

  /** Deletes from tables that nothing refers to commit at once. */
  lemma LeafWipeCommits(schema: Schema, db: Db, tables: set<TableName>, tenant: Value)
    requires IsDb(schema, db) && Closed(schema, db) && forall r :: r in schema.refs ==> r.parent !in tables
    ensures IsDb(schema, WipedIn(db, tables, tenant)) && Closed(schema, WipedIn(db, tables, tenant))
  {
    WipeCommitsIff(schema, db, tables, tenant);
  }

  // ---- one delete after the other ----

  lemma DeleteIsDb(schema: Schema, db: Db, t: TableName, tenant: Value)
    requires IsDb(schema, db) && t in db
    ensures IsDb(schema, db[t := WithoutTenant(db[t], tenant)])
  {
    FewerAreUnique(schema.defs[t], db[t], tenant);
    TableReplaced(schema, db, t, WithoutTenant(db[t], tenant));
  }

  /** The tenant's rows in some tables. */
  function OwnedCount(db: Db, tables: seq<TableName>, tenant: Value): nat
    requires forall t :: t in tables ==> t in db
  {
    if tables == [] then 0
    else OwnedCount(db, tables[..|tables| - 1], tenant) + |OwnedKeys(db[tables[|tables| - 1]], tenant)|
  }

  predicate AllIn(tables: seq<TableName>, db: Db) { forall t :: t in tables ==> t in db }

  lemma WipedStep(db: Db, done: seq<TableName>, t: TableName, tenant: Value)
    requires t in db && t !in done && AllIn(done, db)
    ensures WipedIn(db, Elements(done), tenant)[t] == db[t] && AllIn(done + [t], db)
    ensures WipedIn(db, Elements(done), tenant)[t := WithoutTenant(db[t], tenant)] ==
            WipedIn(db, Elements(done + [t]), tenant)
    ensures OwnedCount(db, done + [t], tenant) == OwnedCount(db, done, tenant) + |OwnedKeys(db[t], tenant)|
  {
    assert (done + [t])[..|done + [t]| - 1] == done;
    var before, after := WipedIn(db, Elements(done), tenant), WipedIn(db, Elements(done + [t]), tenant);
    SameMap(before[t := WithoutTenant(db[t], tenant)], after);
  }

  lemma NothingWiped(db: Db, tenant: Value)
    ensures WipedIn(db, Elements([]), tenant) == db
  {
    SameMap(WipedIn(db, Elements([]), tenant), db);
  }

  lemma NextWiped(start: Db, tables: seq<TableName>, n: nat, tenant: Value)
    requires n < |tables| && Distinct(tables) && AllIn(tables, start) && AllIn(tables[..n], start)
    ensures AllIn(tables[..n + 1], start) && tables[n] in start
    ensures WipedIn(start, Elements(tables[..n]), tenant)[tables[n]] == start[tables[n]]
    ensures WipedIn(start, Elements(tables[..n]), tenant)[tables[n] := WithoutTenant(start[tables[n]], tenant)] ==
            WipedIn(start, Elements(tables[..n + 1]), tenant)
    ensures OwnedCount(start, tables[..n + 1], tenant) ==
            OwnedCount(start, tables[..n], tenant) + |OwnedKeys(start[tables[n]], tenant)|
  {
    PrefixStep(tables, n);
    WipedStep(start, tables[..n], tables[n], tenant);
  }

  lemma NextLeafWiped(schema: Schema, start: Db, now: Db, tables: seq<TableName>, n: nat, tenant: Value)
    requires IsDb(schema, start) && Closed(schema, start) && n < |tables| && Distinct(tables)
    requires AllIn(tables, start) && AllIn(tables[..n], start) && forall r :: r in schema.refs ==> r.parent !in tables
    requires now == WipedIn(start, Elements(tables[..n]), tenant)
    ensures AllIn(tables[..n + 1], start) && tables[n] in now && now[tables[n]] == start[tables[n]]
    ensures var next := now[tables[n] := WithoutTenant(now[tables[n]], tenant)];
            && next == WipedIn(start, Elements(tables[..n + 1]), tenant)
            && IsDb(schema, next) && Closed(schema, next)
  {
    NextWiped(start, tables, n, tenant);
    assert forall t :: t in tables[..n + 1] ==> t in tables;
    LeafWipeCommits(schema, start, Elements(tables[..n + 1]), tenant);
  }

  lemma NextCounted(start: Db, tables: seq<TableName>, n: nat, tenant: Value)
    requires n < |tables| && AllIn(tables, start) && AllIn(tables[..n], start) && AllIn(tables[..n + 1], start)
    ensures OwnedCount(start, tables[..n + 1], tenant) ==
            OwnedCount(start, tables[..n], tenant) + |OwnedKeys(start[tables[n]], tenant)|
  {
    assert tables[..n + 1][..n] == tables[..n];
  }

  lemma {:induction false} CountsAdd(db: Db, a: seq<TableName>, b: seq<TableName>, tenant: Value)
    requires AllIn(a, db) && AllIn(b, db)
    ensures AllIn(a + b, db)
    ensures OwnedCount(db, a + b, tenant) == OwnedCount(db, a, tenant) + OwnedCount(db, b, tenant)
  {
    if b == [] {
      assert a + b == a;
    } else {
      assert (a + b)[..|a + b| - 1] == a + b[..|b| - 1];
      CountsAdd(db, a, b[..|b| - 1], tenant);
    }
  }

  lemma {:induction false} SameCount(d: Db, d': Db, tables: seq<TableName>, tenant: Value)
    requires AllIn(tables, d) && AllIn(tables, d') && forall t :: t in tables ==> d[t] == d'[t]
    ensures OwnedCount(d, tables, tenant) == OwnedCount(d', tables, tenant)
  {
    if tables != [] { SameCount(d, d', tables[..|tables| - 1], tenant); }
  }

  lemma WipedTwice(d: Db, a: set<TableName>, b: set<TableName>, tenant: Value)
    ensures WipedIn(WipedIn(d, a, tenant), b, tenant) == WipedIn(d, a + b, tenant)
  {
    var once, twice := WipedIn(d, a, tenant), WipedIn(WipedIn(d, a, tenant), b, tenant);
    forall t | t in d ensures t in twice && twice[t] == WipedIn(d, a + b, tenant)[t] {
      SameMap(WithoutTenant(WithoutTenant(d[t], tenant), tenant), WithoutTenant(d[t], tenant));
    }
    SameMap(twice, WipedIn(d, a + b, tenant));
  }

  lemma ResetTables(schema: Schema, db: Db)
    requires IsDb(schema, db) && schema.topo == BACKUPABLE
    ensures AllIn(WHATSAPP_TABLES, db) && AllIn(TENANT_TABLES, db)
    ensures Distinct(WHATSAPP_TABLES) && Distinct(TENANT_TABLES)
    ensures forall t :: t in TENANT_TABLES ==> t !in WHATSAPP_TABLES
  {
    forall t | t in WHATSAPP_TABLES || t in TENANT_TABLES ensures t in db {
      assert BACKUPABLE[0] == Contacts && BACKUPABLE[1] == Conversations && BACKUPABLE[2] == Messages;
      assert BACKUPABLE[3] == InboundEvents && BACKUPABLE[4] == OutboundEvents && BACKUPABLE[5] == ChannelCredentials;
      assert BACKUPABLE[6] == WhatsappAccountState && BACKUPABLE[7] == WhatsappSessionKeys;
      assert BACKUPABLE[8] == WhatsappHistory;
      assert t in Elements(BACKUPABLE);
    }
  }

  /** The tables deleted before the transaction begins. */
  function FirstTables(platform: bool): seq<TableName> { if platform then WHATSAPP_TABLES else [] }

  lemma TwoParts(platform: bool)
    ensures FirstTables(platform) + TENANT_TABLES == ResetTablesFor(platform)
    ensures Distinct(FirstTables(platform)) && FirstTables(platform) <= WHATSAPP_TABLES
  {
  }

  /** All foreign keys are between tables of `rest`, none of them in `first`. */
  predicate KeysWithin(schema: Schema, first: set<TableName>, rest: set<TableName>) {
    forall r :: r in schema.refs ==> {r.child, r.parent} <= rest && {r.child, r.parent} !! first
  }

  /** Wiping tables without foreign keys first does not change what the commit of the others asks, ... */
  lemma ReferencesStay(schema: Schema, start: Db, first: set<TableName>, rest: set<TableName>, tenant: Value)
    requires IsDb(schema, start) && KeysWithin(schema, first, rest)
    ensures IsDb(schema, WipedIn(start, first, tenant))
    ensures NobodyElseRefers(schema, WipedIn(start, first, tenant), rest, tenant)
            <==> NobodyElseRefers(schema, start, first + rest, tenant)
  {
    WipedInIsDb(schema, start, first, tenant);
    forall r | r in schema.refs
      ensures IsReference(schema, r) && r.child in rest && r.parent in rest
      ensures WipedIn(start, first, tenant)[r.child] == start[r.child]
      ensures WipedIn(start, first, tenant)[r.parent] == start[r.parent]
    {
    }
  }

  lemma ResetKeysWithin(schema: Schema, platform: bool)
    requires schema.refs == REFERENCES
    ensures KeysWithin(schema, Elements(FirstTables(platform)), Elements(TENANT_TABLES))
  {
    forall r | r in schema.refs
      ensures {r.child, r.parent} <= Elements(TENANT_TABLES) && {r.child, r.parent} !! Elements(FirstTables(platform))
    {
      IsOneOfThree(r);
      assert TENANT_TABLES[0] == Messages && TENANT_TABLES[1] == Conversations && TENANT_TABLES[5] == Contacts;
    }
  }

  /** ... nor what is wiped and counted in all. */
  lemma PartsAddUp(
    schema: Schema, start: Db, first: seq<TableName>, rest: seq<TableName>, all: seq<TableName>, tenant: Value)
    requires AllIn(first, start) && AllIn(rest, start) && (forall t :: t in rest ==> t !in first)
    requires all == first + rest
    requires IsDb(schema, start) && KeysWithin(schema, Elements(first), Elements(rest))
    ensures var half := WipedIn(start, Elements(first), tenant);
            && AllIn(all, start) && AllIn(rest, half) && IsDb(schema, half)
            && WipedIn(half, Elements(rest), tenant) == WipedIn(start, Elements(all), tenant)
            && OwnedCount(start, first, tenant) + OwnedCount(half, rest, tenant) == OwnedCount(start, all, tenant)
            && (NobodyElseRefers(schema, half, Elements(rest), tenant)
                <==> NobodyElseRefers(schema, start, Elements(all), tenant))
  {
    assert Elements(first + rest) == Elements(first) + Elements(rest);
    WipedTwice(start, Elements(first), Elements(rest), tenant);
    CountsAdd(start, first, rest, tenant);
    SameCount(start, WipedIn(start, Elements(first), tenant), rest, tenant);
    ReferencesStay(schema, start, Elements(first), Elements(rest), tenant);
  }

  lemma RestIsUntouched(start: Db, first: seq<TableName>, n: nat, rest: seq<TableName>, tenant: Value)
    requires AllIn(rest, start) && n <= |first| && forall t :: t in rest ==> t !in first
    ensures Untouched(start, WipedIn(start, Elements(first[..n]), tenant), rest)
  {
  }

  predicate Untouched(d: Db, d': Db, tables: seq<TableName>) {
    forall t :: t in tables ==> t in d && t in d' && d'[t] == d[t]
  }

  // ---- which rows a reset is about ----

  /** The tables a reset does not reach without the platform connection. */
  predicate NeedsPlatform(t: TableName) { t in {WhatsappHistory, WhatsappSessionKeys, WhatsappAccountState} }

  /** All rows of the tenant in the database, or those a reset reaches without the platform connection. */
  ghost function TenantRows(d: Db, tenant: Value, platform: bool): set<Key> {
    set t, k | t in d && (platform || !NeedsPlatform(t)) && k in OwnedKeys(d[t], tenant) :: Key(t, k)
  }

  ghost function RowsIn(d: Db, tables: set<TableName>, tenant: Value): set<Key> {
    set t, k | t in tables && t in d && k in OwnedKeys(d[t], tenant) :: Key(t, k)
  }

  lemma {:induction false} CountIsCardinality(d: Db, tables: seq<TableName>, tenant: Value)
    requires AllIn(tables, d) && Distinct(tables)
    ensures OwnedCount(d, tables, tenant) == |RowsIn(d, Elements(tables), tenant)|
  {
    if tables != [] {
      var front, t := tables[..|tables| - 1], tables[|tables| - 1];
      assert tables == front + [t] && t !in front;
      CountIsCardinality(d, front, tenant);
      OneTableMore(d, Elements(front), t, tenant);
      assert Elements(tables) == Elements(front) + {t};
    } else {
      assert RowsIn(d, Elements(tables), tenant) == {};
    }
  }

  lemma OneTableMore(d: Db, tables: set<TableName>, t: TableName, tenant: Value)
    requires t in d && t !in tables
    ensures |RowsIn(d, tables + {t}, tenant)| == |RowsIn(d, tables, tenant)| + |OwnedKeys(d[t], tenant)|
  {
    var more := RowsIn(d, {t}, tenant);
    assert RowsIn(d, tables + {t}, tenant) == RowsIn(d, tables, tenant) + more;
    assert RowsIn(d, tables, tenant) !! more;
    KeysOfOneTable(t, OwnedKeys(d[t], tenant), more);
  }

  lemma {:induction false} KeysOfOneTable(t: TableName, ids: set<Value>, keys: set<Key>)
    requires forall key :: key in keys <==> key.table == t && key.id in ids
    ensures |keys| == |ids|
  {
    if ids == {} {
      assert keys == {};
    } else {
      var k :| k in ids;
      assert Key(t, k) in keys;
      KeysOfOneTable(t, ids - {k}, keys - {Key(t, k)});
    }
  }

  lemma ResetReaches(platform: bool, t: TableName)
    requires t in BACKUPABLE
    ensures t in Elements(ResetTablesFor(platform)) <==> platform || !NeedsPlatform(t)
  {
    var tables := ResetTablesFor(platform);
    var n := |tables|;
    assert tables[n - 6] == Messages && tables[n - 5] == Conversations && tables[n - 4] == OutboundEvents;
    assert tables[n - 3] == InboundEvents && tables[n - 2] == ChannelCredentials && tables[n - 1] == Contacts;
    if platform {
      assert tables[0] == WhatsappHistory && tables[1] == WhatsappSessionKeys && tables[2] == WhatsappAccountState;
    }
  }

  /** In the rows themselves: exactly those whose tenant_id is the tenant's are gone. */
  lemma WipedRows(schema: Schema, d: Db, tables: set<TableName>, tenant: Value, t: TableName, k: Value)
    requires IsDb(schema, d) && t in d && t in tables
    ensures t in schema.defs && TenantId in schema.defs[t].blank
    ensures var after := WipedIn(d, tables, tenant)[t];
            && (k in after <==> k in d[t] && d[t][k][TenantId] != tenant)
            && (k in after ==> after[k] == d[t][k])
  {
  }

  lemma AllCounted(d: Db, tables: seq<TableName>, tenant: Value, platform: bool)
    requires AllIn(tables, d) && Distinct(tables)
    requires forall t :: t in d ==> (t in Elements(tables) <==> platform || !NeedsPlatform(t))
    ensures OwnedCount(d, tables, tenant) == |TenantRows(d, tenant, platform)|
  {
    CountIsCardinality(d, tables, tenant);
    assert RowsIn(d, Elements(tables), tenant) == TenantRows(d, tenant, platform);
  }

  lemma TableCleared(d: Db, tables: set<TableName>, tenant: Value, t: TableName)
    requires t in d
    ensures t in tables ==> OwnedKeys(WipedIn(d, tables, tenant)[t], tenant) == {}
    ensures t !in tables ==> WipedIn(d, tables, tenant)[t] == d[t]
  {
  }

  /** What is gone and counted after a reset, without naming its lists of tables. */
  lemma ResetClearsTheTenant(schema: Schema, d: Db, tenant: Value, platform: bool)
    requires IsDb(schema, d) && schema.topo == BACKUPABLE && AllIn(ResetTablesFor(platform), d)
    ensures var after := WipedIn(d, Elements(ResetTablesFor(platform)), tenant);
            forall t :: t in d ==>
              if platform || !NeedsPlatform(t) then OwnedKeys(after[t], tenant) == {} else after[t] == d[t]
    ensures OwnedCount(d, ResetTablesFor(platform), tenant) == |TenantRows(d, tenant, platform)|
  {
    var tables := ResetTablesFor(platform);
    forall t | t in d
      ensures t in Elements(tables) <==> platform || !NeedsPlatform(t)
      ensures t in Elements(tables) ==> OwnedKeys(WipedIn(d, Elements(tables), tenant)[t], tenant) == {}
      ensures t !in Elements(tables) ==> WipedIn(d, Elements(tables), tenant)[t] == d[t]
    {
      assert t in Elements(BACKUPABLE);
      ResetReaches(platform, t);
      TableCleared(d, Elements(tables), tenant, t);
    }
    ResetTablesDiffer(platform);
    AllCounted(d, tables, tenant, platform);
  }

  lemma ResetTablesDiffer(platform: bool)
    ensures Distinct(ResetTablesFor(platform))
  {
  }

  // ---- reset and restore ----

  /** What a reset leaves: all its tables wiped, or, if it fails, some of the first ones - all of them if
      the store answers. */
  ghost predicate ResetOutcome(
    d: Db, after: Db, first: seq<TableName>, rest: seq<TableName>, tenant: Value, ok: bool, reliable: bool)
  {
    if ok then after == WipedIn(d, Elements(first + rest), tenant)
    else exists n: nat ::
           n <= |first| && (reliable ==> n == |first|) && after == WipedIn(d, Elements(first[..n]), tenant)
  }

  /** Export, reset, restore is the identity on the whole database for a tenant without key material,
      whether the reset committed, was refused, or stopped half-way. */
  lemma ResetThenRestoreIsIdentity(
    schema: Schema, codec: Codec, made: Generated, d: Db, tenant: Value, keys: seq<Key>, lines: seq<Line>,
    first: seq<TableName>, rest: seq<TableName>, after: Db, ok: bool, reliable: bool)
    requires IsDb(schema, d) && Closed(schema, d) && schema.topo == BACKUPABLE
    requires Lossless(codec) && IsExport(codec, d, tenant, keys, lines) && NoKeyMaterial(d, tenant)
    requires ResetOutcome(d, after, first, rest, tenant, ok, reliable)
    ensures IsDb(schema, after) && Restored(schema, codec, made, tenant, after, lines) == Some(d)
  {
    var tables: set<TableName> :| after == WipedIn(d, tables, tenant);
    WipedInIsDb(schema, d, tables, tenant);
    RoundTripIsIdentity(schema, codec, made, d, tenant, keys, lines, tables);
  }
}

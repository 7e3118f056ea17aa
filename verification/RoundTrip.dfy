/** Restoring an export: exactly when it succeeds, and what it then leaves. */
module RoundTrip {
  import opened Common
  import opened TableOrder
  import opened Tables
  import opened Upserts
  import opened Backup
  import opened Exported

  /** Some tables taken from `o`, the others from `b`. */
  function Partial(b: Db, o: Db, done: set<TableName>): Db
    requires b.Keys == o.Keys
  {
    map t | t in b :: if t in done then o[t] else b[t]
  }

  predicate Grows(b: Db, o: Db) {
    b.Keys == o.Keys && forall t :: t in b ==> b[t].Keys <= o[t].Keys
  }

  lemma OverlaidIsTyped(schema: Schema, b: Db, d: Db, tenant: Value)
    requires IsTyped(schema, b) && IsTyped(schema, d)
    ensures IsTyped(schema, Overlaid(b, d, tenant)) && Grows(b, Overlaid(b, d, tenant))
  {
    forall t | t in b ensures IsRows(schema.defs[t], b[t] + OwnedRows(d[t], tenant)) {
      OverlaidRows(schema.defs[t], b[t], d[t], tenant);
    }
  }

  lemma OverlaidRows(def: TableDef, target: Rows, rows: Rows, tenant: Value)
    requires IsRows(def, target) && IsRows(def, rows)
    ensures IsRows(def, target + OwnedRows(rows, tenant))
  {
  }

  /** The rows of one table are taken, in the order of the export. */
  predicate IsTaken(schema: Schema, b: Db, d: Db, tenant: Value, keys: seq<Key>, t: TableName) {
    t in b && t in d && t in schema.defs ==>
      NoForeignIds(b[t], d[t], tenant) && ComesFree(schema.defs[t], b[t], d[t], IdsOf(keys, t))
  }

  predicate AllTaken(schema: Schema, b: Db, d: Db, tenant: Value, keys: seq<Key>, tables: seq<TableName>) {
    forall t :: t in tables ==> IsTaken(schema, b, d, tenant, keys, t)
  }

  /** The data of one proof: an export of `d`, restored into `b`. */
  ghost predicate Setting(schema: Schema, codec: Codec, b: Db, d: Db, tenant: Value, keys: seq<Key>, lines: seq<Line>) {
    && IsDb(schema, b) && IsDb(schema, d)
    && Lossless(codec) && IsExport(codec, d, tenant, keys, lines)
  }

  ghost predicate IsPlan(b: Db, o: Db, topo: seq<TableName>, order: seq<TableName>) {
    && InOrder(order, topo)
    && (forall t :: t in order ==> t in b)
    && forall t :: t in b && t in o && t !in order ==> o[t] == b[t]
  }

  lemma PartialStep(b: Db, o: Db, done: set<TableName>, t: TableName)
    requires b.Keys == o.Keys && t in b
    ensures Partial(b, o, done)[t := o[t]] == Partial(b, o, done + {t})
    ensures t !in done ==> Partial(b, o, done)[t] == b[t]
  {
  }

  lemma NextTable(
    schema: Schema, codec: Codec, made: Generated, b: Db, d: Db, tenant: Value, keys: seq<Key>, lines: seq<Line>,
    o: Db, order: seq<TableName>, i: nat)
    requires Setting(schema, codec, b, d, tenant, keys, lines)
    requires o == Overlaid(b, d, tenant)
    requires IsPlan(b, o, schema.topo, order) && i < |order|
    requires IsDb(schema, Partial(b, o, Elements(order[..i])))
    ensures UpsertBatch(schema, tenant, Partial(b, o, Elements(order[..i])), order[i],
                        BatchRows(codec, made, lines, order[i]), BATCH_SIZE) ==
            if IsTaken(schema, b, d, tenant, keys, order[i])
            then Some(Partial(b, o, Elements(order[..i + 1]))) else None
  {
    var t, half := order[i], Partial(b, o, Elements(order[..i]));
    var ids := IdsOf(keys, t);
    InOrderIsDistinct(order, schema.topo);
    PrefixStep(order, i);
    PartialStep(b, o, Elements(order[..i]), t);
    RowsOfExport(schema, codec, made, d, tenant, keys, lines, t);
    TableRestored(schema.defs[t], tenant, half[t], d[t], ids);
    PickHasDistinctIds(schema.defs[t], d[t], ids);
    ChunksDoNotMatter(schema, tenant, half, t, Pick(d[t], ids), BATCH_SIZE);
  }

  lemma TakenStep(schema: Schema, b: Db, d: Db, tenant: Value, keys: seq<Key>, order: seq<TableName>, i: nat)
    requires i < |order|
    ensures AllTaken(schema, b, d, tenant, keys, order[..i + 1]) <==>
            AllTaken(schema, b, d, tenant, keys, order[..i]) && IsTaken(schema, b, d, tenant, keys, order[i])
  {
    SlicePlus(order, i);
    assert forall t :: t in order[..i + 1] <==> t in order[..i] || t == order[i];
  }

  /** What a restore of the first tables comes to. */
  function Expected(
    schema: Schema, b: Db, d: Db, tenant: Value, keys: seq<Key>, o: Db, tables: seq<TableName>): Option<Db>
    requires b.Keys == o.Keys
  {
    if AllTaken(schema, b, d, tenant, keys, tables) then Some(Partial(b, o, Elements(tables))) else None
  }

  lemma ExpectedStep(
    schema: Schema, codec: Codec, made: Generated, b: Db, d: Db, tenant: Value, keys: seq<Key>, lines: seq<Line>,
    o: Db, order: seq<TableName>, i: nat)
    requires Setting(schema, codec, b, d, tenant, keys, lines)
    requires o == Overlaid(b, d, tenant)
    requires IsPlan(b, o, schema.topo, order) && i < |order|
    requires RestoreTables(schema, codec, made, tenant, b, lines, order[..i]) ==
             Expected(schema, b, d, tenant, keys, o, order[..i])
    ensures RestoreTables(schema, codec, made, tenant, b, lines, order[..i + 1]) ==
            Expected(schema, b, d, tenant, keys, o, order[..i + 1])
  {
    RestoreStep(schema, codec, made, tenant, b, lines, order, i);
    TakenStep(schema, b, d, tenant, keys, order, i);
    if AllTaken(schema, b, d, tenant, keys, order[..i]) {
      NextTable(schema, codec, made, b, d, tenant, keys, lines, o, order, i);
    }
  }

  lemma NothingYet(schema: Schema, b: Db, d: Db, tenant: Value, keys: seq<Key>, o: Db)
    requires b.Keys == o.Keys
    ensures Expected(schema, b, d, tenant, keys, o, []) == Some(b)
  {
    var none: seq<TableName> := [];
    assert Elements(none) == {};
    SameMap(Partial(b, o, {}), b);
  }

  lemma {:induction false} TablesOfExport(
    schema: Schema, codec: Codec, made: Generated, b: Db, d: Db, tenant: Value, keys: seq<Key>, lines: seq<Line>,
    o: Db, order: seq<TableName>, i: nat)
    requires Setting(schema, codec, b, d, tenant, keys, lines)
    requires o == Overlaid(b, d, tenant)
    requires IsPlan(b, o, schema.topo, order) && i <= |order|
    ensures RestoreTables(schema, codec, made, tenant, b, lines, order[..i]) ==
            Expected(schema, b, d, tenant, keys, o, order[..i])
  {
    if i == 0 {
      NothingYet(schema, b, d, tenant, keys, o);
      assert order[..0] == [];
    } else {
      var m: nat :| m + 1 == i;
      TablesOfExport(schema, codec, made, b, d, tenant, keys, lines, o, order, m);
      ExpectedStep(schema, codec, made, b, d, tenant, keys, lines, o, order, m);
    }
  }

  // ---- the theorems ----

  predicate NoKeyMaterial(d: Db, tenant: Value) {
    forall t :: t in d && KeyMaterial(t) ==> OwnedKeys(d[t], tenant) == {}
  }

  /** No row of the tenant has a key that in the target belongs to another tenant. */
  predicate NoForeignKeys(b: Db, d: Db, tenant: Value) {
    forall t :: t in b && t in d ==> NoForeignIds(b[t], d[t], tenant)
  }

  /** No exported row has a unique key that in the target a row with another id holds, unless that row
      has been overwritten when the exported one comes up. */
  predicate InGoodOrder(schema: Schema, b: Db, d: Db, keys: seq<Key>) {
    forall t :: t in b && t in d && t in schema.defs ==> ComesFree(schema.defs[t], b[t], d[t], IdsOf(keys, t))
  }

  lemma AcceptableExport(codec: Codec, d: Db, tenant: Value, keys: seq<Key>, lines: seq<Line>)
    requires d.Keys == Elements(BACKUPABLE) && IsExport(codec, d, tenant, keys, lines)
    ensures (forall line :: line in lines ==> Acceptable(line)) <==> NoKeyMaterial(d, tenant)
  {
    forall i | 0 <= i < |keys| ensures Acceptable(lines[i]) <==> !KeyMaterial(keys[i].table) {
      AllowlistLeavesOutKeyMaterial(keys[i].table);
      assert keys[i].table in Elements(BACKUPABLE) && lines[i] == LineOf(codec, d, keys[i]);
    }
    if forall line :: line in lines ==> Acceptable(line) {
      forall t, k | t in d && k in OwnedKeys(d[t], tenant) ensures !KeyMaterial(t) {
        assert Key(t, k) in keys;
        var i :| 0 <= i < |keys| && keys[i] == Key(t, k);
        assert lines[i] in lines;
      }
    }
  }

  lemma PlanOfExport(schema: Schema, codec: Codec, b: Db, d: Db, tenant: Value, keys: seq<Key>, lines: seq<Line>)
    requires Setting(schema, codec, b, d, tenant, keys, lines)
    ensures IsPlan(b, Overlaid(b, d, tenant), schema.topo, Seen(lines, schema.topo))
    ensures forall t :: t in d && t !in Seen(lines, schema.topo) ==> OwnedKeys(d[t], tenant) == {}
  {
    SeenIsInOrder(lines, schema.topo);
    forall t | t in d && t !in Seen(lines, schema.topo)
      ensures OwnedKeys(d[t], tenant) == {} && Overlaid(b, d, tenant)[t] == b[t]
    {
      assert t in Elements(schema.topo);
      UnseenIsEmpty(codec, d, tenant, keys, lines, t);
      SameMap(b[t] + OwnedRows(d[t], tenant), b[t]);
    }
  }

  lemma UnseenIsEmpty(codec: Codec, d: Db, tenant: Value, keys: seq<Key>, lines: seq<Line>, t: TableName)
    requires IsExport(codec, d, tenant, keys, lines) && t in d && CellsOf(lines, t) == []
    ensures OwnedKeys(d[t], tenant) == {}
  {
    CellsOfExport(codec, d, tenant, keys, lines, t);
    IdsOfAreDistinct(keys, t);
    assert |IdsOf(keys, t)| == 0;
    forall k | k in OwnedKeys(d[t], tenant) ensures k in IdsOf(keys, t) {
      assert Key(t, k) in keys;
    }
  }

  lemma WholeOverlay(b: Db, d: Db, tenant: Value, topo: seq<TableName>, order: seq<TableName>)
    requires b.Keys == d.Keys && IsPlan(b, Overlaid(b, d, tenant), topo, order)
    ensures Partial(b, Overlaid(b, d, tenant), Elements(order)) == Overlaid(b, d, tenant)
  {
    var o := Overlaid(b, d, tenant);
    SameMap(Partial(b, o, Elements(order)), o);
  }

  lemma AllTakenIff(
    schema: Schema, codec: Codec, b: Db, d: Db, tenant: Value, keys: seq<Key>, lines: seq<Line>, order: seq<TableName>)
    requires Setting(schema, codec, b, d, tenant, keys, lines)
    requires forall t :: t in d && t !in order ==> OwnedKeys(d[t], tenant) == {}
    ensures AllTaken(schema, b, d, tenant, keys, order) <==>
            NoForeignKeys(b, d, tenant) && InGoodOrder(schema, b, d, keys)
  {
    forall t | t in d && t !in order ensures IsTaken(schema, b, d, tenant, keys, t) {
      NothingToTake(schema, codec, b, d, tenant, keys, lines, t);
    }
    if AllTaken(schema, b, d, tenant, keys, order) {
      forall t | t in b ensures IsTaken(schema, b, d, tenant, keys, t) {}
    }
  }

  lemma NothingToTake(
    schema: Schema, codec: Codec, b: Db, d: Db, tenant: Value, keys: seq<Key>, lines: seq<Line>, t: TableName)
    requires Setting(schema, codec, b, d, tenant, keys, lines) && t in d && OwnedKeys(d[t], tenant) == {}
    ensures IsTaken(schema, b, d, tenant, keys, t)
  {
    CellsOfExport(codec, d, tenant, keys, lines, t);
    assert forall k :: k !in IdsOf(keys, t);
  }

  /** What the statements of a restored export come to, before the commit. */
  lemma StatementsOfExport(
    schema: Schema, codec: Codec, made: Generated, b: Db, d: Db, tenant: Value, keys: seq<Key>, lines: seq<Line>)
    requires Setting(schema, codec, b, d, tenant, keys, lines)
    ensures IsTyped(schema, Overlaid(b, d, tenant))
    ensures forall t :: t in Seen(lines, schema.topo) ==> t in b
    ensures RestoreTables(schema, codec, made, tenant, b, lines, Seen(lines, schema.topo)) ==
            if NoForeignKeys(b, d, tenant) && InGoodOrder(schema, b, d, keys)
            then Some(Overlaid(b, d, tenant)) else None
  {
    var order := Seen(lines, schema.topo);
    OverlaidIsTyped(schema, b, d, tenant);
    PlanOfExport(schema, codec, b, d, tenant, keys, lines);
    WholeOverlay(b, d, tenant, schema.topo, order);
    AllTakenIff(schema, codec, b, d, tenant, keys, lines, order);
    TablesOfExport(schema, codec, made, b, d, tenant, keys, lines, Overlaid(b, d, tenant), order, |order|);
    WholeSlice(order);
  }

  /** A restore of an export, its lines in a given order, succeeds exactly when the tenant had no key
      material, none of its ids is another tenant's in the target, no unique key is taken when its row
      comes up, and the outcome has no dangling reference; the outcome is the target with the exported
      rows written over it. */
  lemma RestoreOfExport(
    schema: Schema, codec: Codec, made: Generated, b: Db, d: Db, tenant: Value, keys: seq<Key>, lines: seq<Line>)
    requires IsDb(schema, b) && IsDb(schema, d) && schema.topo == BACKUPABLE
    requires Lossless(codec) && IsExport(codec, d, tenant, keys, lines)
    ensures IsTyped(schema, Overlaid(b, d, tenant))
    ensures Restored(schema, codec, made, tenant, b, lines) ==
            if && NoKeyMaterial(d, tenant) && NoForeignKeys(b, d, tenant)
               && InGoodOrder(schema, b, d, keys) && Closed(schema, Overlaid(b, d, tenant))
            then Some(Overlaid(b, d, tenant)) else None
  {
    AcceptableExport(codec, d, tenant, keys, lines);
    StatementsOfExport(schema, codec, made, b, d, tenant, keys, lines);
  }

  /** No exported row has a unique key that in the target a row with another id holds. */
  predicate NoClash(schema: Schema, b: Db, d: Db, tenant: Value) {
    forall t :: t in b && t in d && t in schema.defs ==> NoClashIn(schema.defs[t], b[t], d[t], tenant)
  }

  predicate NoClashIn(def: TableDef, target: Rows, rows: Rows, tenant: Value) {
    forall k :: k in OwnedKeys(rows, tenant) ==> Free(def, target, k, rows[k])
  }

  lemma NoClashIsGoodOrder(
    schema: Schema, codec: Codec, b: Db, d: Db, tenant: Value, keys: seq<Key>, lines: seq<Line>)
    requires IsExport(codec, d, tenant, keys, lines) && NoClash(schema, b, d, tenant)
    ensures InGoodOrder(schema, b, d, keys)
  {
    forall t | t in b && t in d && t in schema.defs
      ensures ComesFree(schema.defs[t], b[t], d[t], IdsOf(keys, t))
    {
      var ids := IdsOf(keys, t);
      CellsOfExport(codec, d, tenant, keys, lines, t);
      forall i, x | 0 <= i < |ids| && x in b[t] && x != ids[i] && x !in ids[..i]
        ensures IsFree(schema.defs[t], b[t], d[t], ids, i, x)
      {
        assert ids[i] in ids && Free(schema.defs[t], b[t], ids[i], d[t][ids[i]]);
      }
    }
  }

  /** Export, wipe some tables of the tenant, restore is the identity on the whole database, when the
      tenant has no key material. */
  lemma RoundTripIsIdentity(
    schema: Schema, codec: Codec, made: Generated, d: Db, tenant: Value, keys: seq<Key>, lines: seq<Line>,
    tables: set<TableName>)
    requires IsDb(schema, d) && Closed(schema, d) && schema.topo == BACKUPABLE
    requires Lossless(codec) && IsExport(codec, d, tenant, keys, lines)
    requires NoKeyMaterial(d, tenant)
    requires IsDb(schema, WipedIn(d, tables, tenant))
    ensures Restored(schema, codec, made, tenant, WipedIn(d, tables, tenant), lines) == Some(d)
  {
    RestoreOfExport(schema, codec, made, WipedIn(d, tables, tenant), d, tenant, keys, lines);
    OverlayOfWiped(d, tables, tenant);
    NoClashAfterWipe(schema, d, tables, tenant);
    NoClashIsGoodOrder(schema, codec, WipedIn(d, tables, tenant), d, tenant, keys, lines);
  }

  lemma NoClashAfterWipe(schema: Schema, d: Db, tables: set<TableName>, tenant: Value)
    requires IsDb(schema, d)
    ensures NoClash(schema, WipedIn(d, tables, tenant), d, tenant)
  {
    var b := WipedIn(d, tables, tenant);
    forall t, k | t in d && k in OwnedKeys(d[t], tenant) ensures Free(schema.defs[t], b[t], k, d[t][k]) {
      assert Free(schema.defs[t], d[t], k, d[t][k]);
    }
  }

  lemma OverlayOfWiped(d: Db, tables: set<TableName>, tenant: Value)
    ensures Overlaid(WipedIn(d, tables, tenant), d, tenant) == d
    ensures NoForeignKeys(WipedIn(d, tables, tenant), d, tenant)
  {
    var back := Overlaid(WipedIn(d, tables, tenant), d, tenant);
    forall t | t in d ensures t in back && back[t] == d[t] {
      SameMap(WithoutTenant(d[t], tenant) + OwnedRows(d[t], tenant), d[t]);
      SameMap(d[t] + OwnedRows(d[t], tenant), d[t]);
    }
    SameMap(back, d);
  }

  /** Into a database without rows of the tenant a restore brings exactly the exported rows and
      leaves the other tenants' rows as they are. */
  lemma RestoreBringsTheTenantBack(
    schema: Schema, codec: Codec, made: Generated, b: Db, d: Db, tenant: Value, keys: seq<Key>, lines: seq<Line>,
    t: TableName)
    requires IsDb(schema, b) && IsDb(schema, d) && schema.topo == BACKUPABLE
    requires Lossless(codec) && IsExport(codec, d, tenant, keys, lines)
    requires Restored(schema, codec, made, tenant, b, lines).Some? && t in b && OwnedKeys(b[t], tenant) == {}
    ensures OwnedRows(Restored(schema, codec, made, tenant, b, lines).value[t], tenant) == OwnedRows(d[t], tenant)
    ensures WithoutTenant(Restored(schema, codec, made, tenant, b, lines).value[t], tenant) == b[t]
  {
    RestoreOfExport(schema, codec, made, b, d, tenant, keys, lines);
    assert NoForeignIds(b[t], d[t], tenant);
    OverlayRows(b[t], d[t], tenant);
  }

  lemma OverlayRows(target: Rows, rows: Rows, tenant: Value)
    requires OwnedKeys(target, tenant) == {} && NoForeignIds(target, rows, tenant)
    ensures OwnedRows(target + OwnedRows(rows, tenant), tenant) == OwnedRows(rows, tenant)
    ensures WithoutTenant(target + OwnedRows(rows, tenant), tenant) == target
  {
    forall k | k in target ensures !Owned(target[k], tenant) {
      assert k !in OwnedKeys(target, tenant);
    }
    forall k | k in OwnedKeys(rows, tenant) ensures k !in target {
    }
    SameMap(OwnedRows(target + OwnedRows(rows, tenant), tenant), OwnedRows(rows, tenant));
    SameMap(WithoutTenant(target + OwnedRows(rows, tenant), tenant), target);
  }

  // ---- the order of the tables makes the deferral unnecessary ----

  predicate RefsHold(schema: Schema, o: Db, done: set<TableName>)
    requires IsTyped(schema, o)
  {
    forall r :: r in schema.refs && r.child in done ==> Holds(schema, o, r)
  }

  /** What is in the order at all, and before it if it is a parent, is done when the child is. */
  lemma ParentIsDone(topo: seq<TableName>, order: seq<TableName>, i: nat, child: TableName, parent: TableName)
    requires InOrder(order, topo) && i <= |order| && child in order[..i] && parent in order
    requires Position(topo, parent) < Position(topo, child)
    ensures parent in order[..i]
  {
    var c :| 0 <= c < i && order[..i][c] == child;
    var p :| 0 <= p < |order| && order[p] == parent;
    assert order[c] == child;
    assert p < c;
    assert order[..i][p] == parent;
  }

  /** Taking parents first, a half-restored database has no dangling reference unless the final one
      has it. */
  lemma HalfwayIsClosed(schema: Schema, b: Db, o: Db, order: seq<TableName>, i: nat)
    requires IsTyped(schema, b) && IsTyped(schema, o) && Closed(schema, b) && Grows(b, o)
    requires InOrder(order, schema.topo) && i <= |order|
    requires forall t :: t in b && t !in order ==> o[t] == b[t]
    ensures IsTyped(schema, Partial(b, o, Elements(order[..i])))
    ensures Closed(schema, Partial(b, o, Elements(order[..i]))) <==> RefsHold(schema, o, Elements(order[..i]))
  {
    var done := Elements(order[..i]);
    var half := Partial(b, o, done);
    forall r | r in schema.refs ensures Holds(schema, half, r) <==> (r.child in done ==> Holds(schema, o, r)) {
      HalfwayHolds(schema, b, o, order, i, r);
    }
  }

  lemma HalfwayHolds(schema: Schema, b: Db, o: Db, order: seq<TableName>, i: nat, r: Reference)
    requires IsTyped(schema, b) && IsTyped(schema, o) && Closed(schema, b) && Grows(b, o)
    requires InOrder(order, schema.topo) && i <= |order| && r in schema.refs
    requires forall t :: t in b && t !in order ==> o[t] == b[t]
    requires IsTyped(schema, Partial(b, o, Elements(order[..i])))
    ensures Holds(schema, Partial(b, o, Elements(order[..i])), r) <==>
            (r.child in order[..i] ==> Holds(schema, o, r))
  {
    assert IsReference(schema, r) && Holds(schema, b, r);
    if r.child in order[..i] && r.parent in order {
      ParentIsDone(schema.topo, order, i, r.child, r.parent);
    }
  }

  /** In a restore of an export that succeeds the unique keys and the references hold after every row
      of every table, not only at the commit. */
  lemma EveryStatementIsClosed(
    schema: Schema, codec: Codec, made: Generated, b: Db, d: Db, tenant: Value, keys: seq<Key>, lines: seq<Line>,
    i: nat, n: nat)
    requires IsDb(schema, b) && IsDb(schema, d) && Closed(schema, b) && schema.topo == BACKUPABLE
    requires Lossless(codec) && IsExport(codec, d, tenant, keys, lines)
    requires Restored(schema, codec, made, tenant, b, lines).Some?
    requires i < |Seen(lines, schema.topo)| && n <= |BatchRows(codec, made, lines, Seen(lines, schema.topo)[i])|
    ensures forall t :: t in Seen(lines, schema.topo) ==> t in b
    ensures var order := Seen(lines, schema.topo);
            var half := RestoreTables(schema, codec, made, tenant, b, lines, order[..i]);
            && half.Some?
            && var s := Statement(schema, tenant, half.value, order[i], BatchRows(codec, made, lines, order[i])[..n]);
               s.Some? && IsDb(schema, s.value) && Closed(schema, s.value)
  {
    var order, o := Seen(lines, schema.topo), Overlaid(b, d, tenant);
    RestoreOfExport(schema, codec, made, b, d, tenant, keys, lines);
    OverlaidIsTyped(schema, b, d, tenant);
    PlanOfExport(schema, codec, b, d, tenant, keys, lines);
    AllTakenIff(schema, codec, b, d, tenant, keys, lines, order);
    StepIsClosed(schema, codec, made, b, d, tenant, keys, lines, o, order, i, n);
  }

  lemma StepIsClosed(
    schema: Schema, codec: Codec, made: Generated, b: Db, d: Db, tenant: Value, keys: seq<Key>, lines: seq<Line>,
    o: Db, order: seq<TableName>, i: nat, n: nat)
    requires Setting(schema, codec, b, d, tenant, keys, lines) && Closed(schema, b) && Grows(b, o)
    requires o == Overlaid(b, d, tenant) && IsTyped(schema, o) && Closed(schema, o)
    requires AllTaken(schema, b, d, tenant, keys, order)
    requires IsPlan(b, o, schema.topo, order) && i < |order| && n <= |BatchRows(codec, made, lines, order[i])|
    ensures var half := RestoreTables(schema, codec, made, tenant, b, lines, order[..i]);
            && half.Some?
            && var s := Statement(schema, tenant, half.value, order[i], BatchRows(codec, made, lines, order[i])[..n]);
               s.Some? && IsDb(schema, s.value) && Closed(schema, s.value)
  {
    var half := Partial(b, o, Elements(order[..i]));
    ClosedHalfway(schema, b, o, order, i);
    ClosedHalfway(schema, b, o, order, i + 1);
    HalfwayRestored(schema, codec, made, b, d, tenant, keys, lines, o, order, i);
    DistinctBatch(schema, codec, made, d, tenant, keys, lines, order[i]);
    BatchPrefixIsClosed(schema, tenant, half, order[i], BatchRows(codec, made, lines, order[i]), BATCH_SIZE, n);
  }

  lemma HalfwayRestored(
    schema: Schema, codec: Codec, made: Generated, b: Db, d: Db, tenant: Value, keys: seq<Key>, lines: seq<Line>,
    o: Db, order: seq<TableName>, i: nat)
    requires Setting(schema, codec, b, d, tenant, keys, lines)
    requires o == Overlaid(b, d, tenant) && AllTaken(schema, b, d, tenant, keys, order)
    requires IsPlan(b, o, schema.topo, order) && i < |order|
    ensures RestoreTables(schema, codec, made, tenant, b, lines, order[..i]) ==
            Some(Partial(b, o, Elements(order[..i])))
    ensures IsDb(schema, Partial(b, o, Elements(order[..i])))
    ensures UpsertBatch(schema, tenant, Partial(b, o, Elements(order[..i])), order[i],
                        BatchRows(codec, made, lines, order[i]), BATCH_SIZE) ==
            Some(Partial(b, o, Elements(order[..i + 1])))
  {
    assert AllTaken(schema, b, d, tenant, keys, order[..i]);
    TablesOfExport(schema, codec, made, b, d, tenant, keys, lines, o, order, i);
    NextTable(schema, codec, made, b, d, tenant, keys, lines, o, order, i);
  }

  lemma ClosedHalfway(schema: Schema, b: Db, o: Db, order: seq<TableName>, i: nat)
    requires IsTyped(schema, b) && IsTyped(schema, o) && Closed(schema, b) && Closed(schema, o) && Grows(b, o)
    requires IsPlan(b, o, schema.topo, order) && i <= |order|
    ensures IsTyped(schema, Partial(b, o, Elements(order[..i]))) && Closed(schema, Partial(b, o, Elements(order[..i])))
  {
    HalfwayIsClosed(schema, b, o, order, i);
  }

  lemma DistinctBatch(
    schema: Schema, codec: Codec, made: Generated, d: Db, tenant: Value, keys: seq<Key>, lines: seq<Line>, t: TableName)
    requires IsDb(schema, d) && Lossless(codec) && IsExport(codec, d, tenant, keys, lines) && t in d
    ensures DistinctIds(BatchRows(codec, made, lines, t))
  {
    RowsOfExport(schema, codec, made, d, tenant, keys, lines, t);
    PickHasDistinctIds(schema.defs[t], d[t], IdsOf(keys, t));
  }
}

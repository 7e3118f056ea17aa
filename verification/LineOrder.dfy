/** Restoring an export while rows of the target hold its unique keys: what the order of the lines has
    to do with it. */
module LineOrder {
  import opened Common
  import opened TableOrder
  import opened Tables
  import opened Backup
  import opened Exported
  import opened RoundTrip

  /** A row that comes up while another row of the target, not replaced by now, holds one of its unique
      keys: the restore is refused. So a holder that is no exported row is fatal in every order. */
  lemma TakenKeyIsRefused(
    schema: Schema, codec: Codec, made: Generated, b: Db, d: Db, tenant: Value, keys: seq<Key>, lines: seq<Line>,
    t: TableName, i: nat, x: Value)
    requires IsDb(schema, b) && IsDb(schema, d) && schema.topo == BACKUPABLE
    requires Lossless(codec) && IsExport(codec, d, tenant, keys, lines)
    requires t in d && i < |IdsOf(keys, t)| && x in b[t] && x != IdsOf(keys, t)[i] && x !in IdsOf(keys, t)[..i]
    requires IdsOf(keys, t)[i] in d[t] && Clash(schema.defs[t], d[t][IdsOf(keys, t)[i]], b[t][x])
    ensures Restored(schema, codec, made, tenant, b, lines) == None
  {
    RestoreOfExport(schema, codec, made, b, d, tenant, keys, lines);
    assert !IsFree(schema.defs[t], b[t], d[t], IdsOf(keys, t), i, x);
  }

  function BroughtForward<T>(s: seq<T>, i: nat): seq<T>
    requires i < |s|
  {
    seq(|s|, j requires 0 <= j < |s| => s[From(i, j)])
  }

  function From(i: nat, j: nat): nat { if j == 0 then i else if j <= i then j - 1 else j }

  lemma BroughtForwardIsExport(codec: Codec, d: Db, tenant: Value, keys: seq<Key>, lines: seq<Line>, i: nat)
    requires IsExport(codec, d, tenant, keys, lines) && i < |keys|
    ensures IsExport(codec, d, tenant, BroughtForward(keys, i), BroughtForward(lines, i))
  {
    var keys', lines' := BroughtForward(keys, i), BroughtForward(lines, i);
    forall j | 0 <= j < |keys| ensures IsKeyOf(d, tenant, keys'[j]) && lines'[j] == LineOf(codec, d, keys'[j]) {
      assert keys'[j] == keys[From(i, j)] && lines'[j] == lines[From(i, j)];
    }
    forall key | key in keys ensures key in keys' {
      var j :| 0 <= j < |keys| && keys[j] == key;
      assert keys'[if j == i then 0 else if j < i then j + 1 else j] == key;
    }
  }

  lemma {:induction false} FirstKeyComesFirst(keys: seq<Key>, t: TableName, k: Value)
    requires keys != [] && keys[0] == Key(t, k)
    ensures IdsOf(keys, t) != [] && IdsOf(keys, t)[0] == k
  {
    if |keys| > 1 { FirstKeyComesFirst(keys[..|keys| - 1], t, k); } else { assert keys[..0] == []; }
  }

  lemma TakenKeyComesFirst(
    schema: Schema, codec: Codec, made: Generated, b: Db, d: Db, tenant: Value, keys: seq<Key>, lines: seq<Line>,
    t: TableName, k: Value, x: Value)
    requires IsDb(schema, b) && IsDb(schema, d) && schema.topo == BACKUPABLE
    requires Lossless(codec) && IsExport(codec, d, tenant, keys, lines) && keys != [] && keys[0] == Key(t, k)
    requires t in d && k in d[t] && x in b[t] && x != k && Clash(schema.defs[t], d[t][k], b[t][x])
    ensures Restored(schema, codec, made, tenant, b, lines) == None
  {
    FirstKeyComesFirst(keys, t, k);
    TakenKeyIsRefused(schema, codec, made, b, d, tenant, keys, lines, t, 0, x);
  }

  lemma CanComeFirst(codec: Codec, d: Db, tenant: Value, keys: seq<Key>, lines: seq<Line>, key: Key)
    returns (keys': seq<Key>, lines': seq<Line>)
    requires IsExport(codec, d, tenant, keys, lines) && IsKeyOf(d, tenant, key)
    ensures IsExport(codec, d, tenant, keys', lines') && keys' != [] && keys'[0] == key
  {
    assert Key(key.table, key.id) in keys;
    var i: nat :| i < |keys| && keys[i] == key;
    keys', lines' := BroughtForward(keys, i), BroughtForward(lines, i);
    BroughtForwardIsExport(codec, d, tenant, keys, lines, i);
  }

  /** The order that brings a row whose unique key is taken before all others is refused. */
  lemma NewHolderFirstIsRefused(
    schema: Schema, codec: Codec, made: Generated, b: Db, d: Db, tenant: Value, keys: seq<Key>, lines: seq<Line>,
    t: TableName, k: Value, x: Value) returns (keys': seq<Key>, lines': seq<Line>)
    requires IsDb(schema, b) && IsDb(schema, d) && schema.topo == BACKUPABLE
    requires Lossless(codec) && IsExport(codec, d, tenant, keys, lines)
    requires t in d && k in OwnedKeys(d[t], tenant) && x in b[t] && x != k && Clash(schema.defs[t], d[t][k], b[t][x])
    ensures IsExport(codec, d, tenant, keys', lines')
    ensures Restored(schema, codec, made, tenant, b, lines') == None
  {
    keys', lines' := CanComeFirst(codec, d, tenant, keys, lines, Key(t, k));
    TakenKeyComesFirst(schema, codec, made, b, d, tenant, keys', lines', t, k, x);
  }

  ghost predicate EveryOrderIsRestored(schema: Schema, codec: Codec, made: Generated, b: Db, d: Db, tenant: Value)
    requires IsDb(schema, b)
  {
    forall keys, lines :: IsExport(codec, d, tenant, keys, lines) ==>
      Restored(schema, codec, made, tenant, b, lines).Some?
  }

  /** Every order of the lines is restored if and only if besides no exported row clashes with a row of
      the target that has another id. */
  lemma EveryOrderIsRestoredIff(
    schema: Schema, codec: Codec, made: Generated, b: Db, d: Db, tenant: Value, keys: seq<Key>, lines: seq<Line>)
    requires IsDb(schema, b) && IsDb(schema, d) && schema.topo == BACKUPABLE
    requires Lossless(codec) && IsExport(codec, d, tenant, keys, lines)
    ensures IsTyped(schema, Overlaid(b, d, tenant))
    ensures EveryOrderIsRestored(schema, codec, made, b, d, tenant)
            <==> && NoKeyMaterial(d, tenant) && NoForeignKeys(b, d, tenant)
                 && NoClash(schema, b, d, tenant) && Closed(schema, Overlaid(b, d, tenant))
  {
    RestoreOfExport(schema, codec, made, b, d, tenant, keys, lines);
    if NoClash(schema, b, d, tenant) {
      NoClashIsGoodOrder(schema, codec, b, d, tenant, keys, lines);
      EveryOrderIsAlike(schema, codec, made, b, d, tenant, keys, lines);
    } else {
      SomeOrderIsRefused(schema, codec, made, b, d, tenant, keys, lines);
    }
  }

  lemma EveryOrderIsAlike(
    schema: Schema, codec: Codec, made: Generated, b: Db, d: Db, tenant: Value, keys: seq<Key>, lines: seq<Line>)
    requires IsDb(schema, b) && IsDb(schema, d) && schema.topo == BACKUPABLE
    requires Lossless(codec) && IsExport(codec, d, tenant, keys, lines) && NoClash(schema, b, d, tenant)
    ensures EveryOrderIsRestored(schema, codec, made, b, d, tenant) <==>
            Restored(schema, codec, made, tenant, b, lines).Some?
  {
    forall keys', lines' | IsExport(codec, d, tenant, keys', lines')
      ensures Restored(schema, codec, made, tenant, b, lines') == Restored(schema, codec, made, tenant, b, lines)
    {
      SameInEveryOrder(schema, codec, made, b, d, tenant, keys, lines, keys', lines');
    }
  }

  lemma SameInEveryOrder(
    schema: Schema, codec: Codec, made: Generated, b: Db, d: Db, tenant: Value,
    keys: seq<Key>, lines: seq<Line>, keys': seq<Key>, lines': seq<Line>)
    requires IsDb(schema, b) && IsDb(schema, d) && schema.topo == BACKUPABLE && Lossless(codec)
    requires IsExport(codec, d, tenant, keys, lines) && IsExport(codec, d, tenant, keys', lines')
    requires NoClash(schema, b, d, tenant)
    ensures InGoodOrder(schema, b, d, keys)
    ensures Restored(schema, codec, made, tenant, b, lines') == Restored(schema, codec, made, tenant, b, lines)
  {
    RestoreOfExport(schema, codec, made, b, d, tenant, keys, lines);
    RestoreOfExport(schema, codec, made, b, d, tenant, keys', lines');
    NoClashIsGoodOrder(schema, codec, b, d, tenant, keys, lines);
    NoClashIsGoodOrder(schema, codec, b, d, tenant, keys', lines');
  }

  lemma SomeOrderIsRefused(
    schema: Schema, codec: Codec, made: Generated, b: Db, d: Db, tenant: Value, keys: seq<Key>, lines: seq<Line>)
    requires IsDb(schema, b) && IsDb(schema, d) && schema.topo == BACKUPABLE
    requires Lossless(codec) && IsExport(codec, d, tenant, keys, lines) && !NoClash(schema, b, d, tenant)
    ensures !EveryOrderIsRestored(schema, codec, made, b, d, tenant)
  {
    var t :| t in d && t in schema.defs && !NoClashIn(schema.defs[t], b[t], d[t], tenant);
    var k :| k in OwnedKeys(d[t], tenant) && !Free(schema.defs[t], b[t], k, d[t][k]);
    var x :| x in b[t] && x != k && Clash(schema.defs[t], d[t][k], b[t][x]);
    var keys', lines' := NewHolderFirstIsRefused(schema, codec, made, b, d, tenant, keys, lines, t, k, x);
  }

  /** A unique key held by a row that is not exported: refused in every order. */
  lemma OutsideHolderIsRefused(
    schema: Schema, codec: Codec, made: Generated, b: Db, d: Db, tenant: Value, keys: seq<Key>, lines: seq<Line>,
    t: TableName, k: Value, x: Value)
    requires IsDb(schema, b) && IsDb(schema, d) && schema.topo == BACKUPABLE
    requires Lossless(codec) && IsExport(codec, d, tenant, keys, lines)
    requires t in d && k in OwnedKeys(d[t], tenant) && x in b[t] && Clash(schema.defs[t], d[t][k], b[t][x])
    requires x !in OwnedKeys(d[t], tenant)
    ensures Restored(schema, codec, made, tenant, b, lines) == None
  {
    var ids := IdsOf(keys, t);
    IdsOfAreDistinct(keys, t);
    CellsOfExport(codec, d, tenant, keys, lines, t);
    assert Key(t, k) in keys;
    var i: nat :| i < |ids| && ids[i] == k;
    assert forall y :: y in ids[..i] ==> y in ids;
    TakenKeyIsRefused(schema, codec, made, b, d, tenant, keys, lines, t, i, x);
  }

  // ---- a phone that writes again ----

  /** The database after a reset of the contacts among others, when the phone of contact `k` has written
      again: a new contact, with id `x`. */
  function Newcomer(d: Db, tables: set<TableName>, tenant: Value, k: Value, x: Value): Db
    requires Contacts in d && k in d[Contacts]
  {
    var b := WipedIn(d, tables, tenant);
    b[Contacts := b[Contacts][x := d[Contacts][k][Id := x]]]
  }

  /** Export, reset, and the same phone writes again before the restore: its new contact is a legal row
      of the tenant, no id is foreign and nothing would dangle, and yet the restore is refused. */
  lemma PhoneWroteAgain(
    schema: Schema, codec: Codec, made: Generated, d: Db, tenant: Value, keys: seq<Key>, lines: seq<Line>,
    tables: set<TableName>, k: Value, x: Value)
    requires IsDb(schema, d) && Closed(schema, d) && schema.topo == BACKUPABLE && schema.refs == REFERENCES
    requires Contacts in d && schema.defs[Contacts].uniques == UniquesOf(Contacts) && Contacts in tables
    requires Lossless(codec) && IsExport(codec, d, tenant, keys, lines) && NoKeyMaterial(d, tenant)
    requires k in OwnedKeys(d[Contacts], tenant) && HasPhone(d[Contacts][k])
    requires x != Null && x !in d[Contacts]
    ensures IsDb(schema, Newcomer(d, tables, tenant, k, x))
    ensures NoForeignKeys(Newcomer(d, tables, tenant, k, x), d, tenant)
    ensures IsTyped(schema, Overlaid(Newcomer(d, tables, tenant, k, x), d, tenant))
    ensures Closed(schema, Overlaid(Newcomer(d, tables, tenant, k, x), d, tenant))
    ensures Restored(schema, codec, made, tenant, Newcomer(d, tables, tenant, k, x), lines) == None
  {
    var b := Newcomer(d, tables, tenant, k, x);
    NewcomerIsDb(schema, d, tables, tenant, k, x);
    NewcomerOverlaid(d, tables, tenant, k, x);
    OverlaidIsTyped(schema, b, d, tenant);
    MoreContactsAreClosed(schema, d, d[Contacts][x := d[Contacts][k][Id := x]]);
    CopyClashes(schema.defs[Contacts], d[Contacts][k], x);
    OutsideHolderIsRefused(schema, codec, made, b, d, tenant, keys, lines, Contacts, k, x);
  }

  lemma CopyClashes(def: TableDef, contact: Row, x: Value)
    requires def.uniques == UniquesOf(Contacts) && HasPhone(contact)
    ensures Clash(def, contact, contact[Id := x])
    ensures forall other :: Clash(def, contact[Id := x], other) ==> Clash(def, contact, other)
  {
    var u := UniquesOf(Contacts)[0];
    assert u in def.uniques && SameKey(u, contact, contact[Id := x]);
    forall other | Clash(def, contact[Id := x], other) ensures Clash(def, contact, other) {
      assert SameKey(u, contact, other);
    }
  }

  lemma NewcomerIsDb(schema: Schema, d: Db, tables: set<TableName>, tenant: Value, k: Value, x: Value)
    requires IsDb(schema, d) && Contacts in d && Contacts in tables
    requires schema.defs[Contacts].uniques == UniquesOf(Contacts)
    requires k in OwnedKeys(d[Contacts], tenant) && HasPhone(d[Contacts][k]) && x != Null && x !in d[Contacts]
    ensures IsDb(schema, Newcomer(d, tables, tenant, k, x))
  {
    WipedInIsDb(schema, d, tables, tenant);
    NewcomerFits(schema.defs[Contacts], d[Contacts], tenant, k, x);
    TableReplaced(schema, WipedIn(d, tables, tenant), Contacts,
                  WithoutTenant(d[Contacts], tenant)[x := d[Contacts][k][Id := x]]);
  }

  lemma NewcomerFits(def: TableDef, contacts: Rows, tenant: Value, k: Value, x: Value)
    requires IsRows(def, contacts) && Unique(def, contacts) && def.uniques == UniquesOf(Contacts)
    requires k in OwnedKeys(contacts, tenant) && HasPhone(contacts[k]) && x != Null && x !in contacts
    ensures IsRows(def, WithoutTenant(contacts, tenant)[x := contacts[k][Id := x]])
    ensures Unique(def, WithoutTenant(contacts, tenant)[x := contacts[k][Id := x]])
  {
    var row, rest := contacts[k][Id := x], WithoutTenant(contacts, tenant);
    CopyClashes(def, contacts[k], x);
    FewerAreUnique(def, contacts, tenant);
    forall y | y in rest && y != x ensures !Clash(def, row, rest[y]) {
      assert y != k && Free(def, contacts, k, contacts[k]);
    }
    OneMoreIsUnique(def, rest, x, row);
  }

  lemma NewcomerOverlaid(d: Db, tables: set<TableName>, tenant: Value, k: Value, x: Value)
    requires Contacts in d && k in d[Contacts] && x !in d[Contacts]
    ensures Overlaid(Newcomer(d, tables, tenant, k, x), d, tenant) ==
            d[Contacts := d[Contacts][x := d[Contacts][k][Id := x]]]
    ensures NoForeignKeys(Newcomer(d, tables, tenant, k, x), d, tenant)
  {
    var row := d[Contacts][k][Id := x];
    var b, wiped := Newcomer(d, tables, tenant, k, x), WipedIn(d, tables, tenant);
    OverlayOfWiped(d, tables, tenant);
    forall t | t in d ensures b[t] + OwnedRows(d[t], tenant) == if t == Contacts then d[t][x := row] else d[t] {
      assert Overlaid(wiped, d, tenant)[t] == wiped[t] + OwnedRows(d[t], tenant);
      if t == Contacts { SameMap(b[t] + OwnedRows(d[t], tenant), d[t][x := row]); }
    }
    SameMap(Overlaid(b, d, tenant), d[Contacts := d[Contacts][x := row]]);
  }
}

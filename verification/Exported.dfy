/** The lines of an export, and the rows a restore reads back from them, one table at a time. */
module Exported {
  import opened Common
  import opened TableOrder
  import opened Tables
  import opened Backup

  datatype Key = Key(table: TableName, id: Value)

  predicate IsKeyOf(d: Db, tenant: Value, key: Key) {
    key.table in d && key.id in OwnedKeys(d[key.table], tenant)
  }

  function LineOf(codec: Codec, d: Db, key: Key): Line
    requires key.table in d && key.id in d[key.table]
  {
    var row := d[key.table][key.id];
    Record(Some(key.table), map c | c in row :: codec.encode(row[c]))
  }

  /** Different rows of the tenant, and their lines. */
  predicate IsPartialExport(codec: Codec, d: Db, tenant: Value, keys: seq<Key>, lines: seq<Line>) {
    && |keys| == |lines| && Distinct(keys)
    && forall i :: 0 <= i < |keys| ==> IsKeyOf(d, tenant, keys[i]) && lines[i] == LineOf(codec, d, keys[i])
  }

  /** The lines are those of the tenant's rows, each once, in any order. */
  predicate IsExport(codec: Codec, d: Db, tenant: Value, keys: seq<Key>, lines: seq<Line>) {
    && IsPartialExport(codec, d, tenant, keys, lines)
    && forall t, k :: t in d && k in OwnedKeys(d[t], tenant) ==> Key(t, k) in keys
  }

  function OwnedRows(rows: Rows, tenant: Value): Rows {
    map k | k in OwnedKeys(rows, tenant) :: rows[k]
  }

  /** `b` with the tenant's rows of `d` written over it. */
  function Overlaid(b: Db, d: Db, tenant: Value): Db {
    map t | t in b && t in d :: b[t] + OwnedRows(d[t], tenant)
  }

  /** No key of these rows belongs to another tenant in the target. */
  predicate NoForeignIds(target: Rows, rows: Rows, tenant: Value) {
    forall k :: k in OwnedKeys(rows, tenant) && k in target ==> Owned(target[k], tenant)
  }

  // ---- one table ----

  function IdsOf(keys: seq<Key>, t: TableName): seq<Value> {
    if keys == [] then []
    else
      var before, key := IdsOf(keys[..|keys| - 1], t), keys[|keys| - 1];
      if key.table == t then before + [key.id] else before
  }

  function Encoded(codec: Codec, row: Row): Cells { map c | c in row :: codec.encode(row[c]) }

  function Pick(rows: Rows, ids: seq<Value>): seq<Row>
    requires forall k :: k in ids ==> k in rows
  {
    seq(|ids|, i requires 0 <= i < |ids| => assert ids[i] in ids; rows[ids[i]])
  }

  function EncodedPick(codec: Codec, rows: Rows, ids: seq<Value>): seq<Cells>
    requires forall k :: k in ids ==> k in rows
  {
    seq(|ids|, i requires 0 <= i < |ids| => assert ids[i] in ids; Encoded(codec, rows[ids[i]]))
  }

  lemma {:induction false} CellsOfExport(
    codec: Codec, d: Db, tenant: Value, keys: seq<Key>, lines: seq<Line>, t: TableName)
    requires |keys| == |lines| && t in d
    requires forall i :: 0 <= i < |keys| ==> IsKeyOf(d, tenant, keys[i]) && lines[i] == LineOf(codec, d, keys[i])
    ensures forall k :: k in IdsOf(keys, t) ==> k in OwnedKeys(d[t], tenant) && k in d[t]
    ensures CellsOf(lines, t) == EncodedPick(codec, d[t], IdsOf(keys, t))
  {
    if keys != [] {
      CellsOfExport(codec, d, tenant, keys[..|keys| - 1], lines[..|lines| - 1], t);
      assert lines[|lines| - 1] == LineOf(codec, d, keys[|keys| - 1]);
    }
  }

  lemma {:induction false} IdsOfAreDistinct(keys: seq<Key>, t: TableName)
    ensures forall k :: k in IdsOf(keys, t) <==> Key(t, k) in keys
    ensures Distinct(keys) ==> Distinct(IdsOf(keys, t))
  {
    if keys != [] {
      var front, last := keys[..|keys| - 1], keys[|keys| - 1];
      IdsOfAreDistinct(front, t);
      assert keys == front + [last];
    }
  }

  lemma DecodedPick(def: TableDef, codec: Codec, rows: Rows, ids: seq<Value>)
    requires IsRows(def, rows) && Lossless(codec) && forall k :: k in ids ==> k in rows
    ensures RowsOf(codec, EncodedPick(codec, rows, ids)) == Pick(rows, ids)
  {
    var records := EncodedPick(codec, rows, ids);
    forall i | 0 <= i < |ids| ensures RowOf(codec, records[0].Keys, records[i]) == rows[ids[i]] {
      assert ids[0] in ids && ids[i] in ids;
      assert records[0].Keys == def.blank.Keys == rows[ids[i]].Keys;
    }
  }

  /** The rows a restore reads back are the rows exported; they bring their keys. */
  lemma RowsOfExport(
    schema: Schema, codec: Codec, made: Generated, d: Db, tenant: Value, keys: seq<Key>, lines: seq<Line>,
    t: TableName)
    requires IsDb(schema, d) && t in d && Lossless(codec) && IsExport(codec, d, tenant, keys, lines)
    ensures Elements(IdsOf(keys, t)) == OwnedKeys(d[t], tenant) && Distinct(IdsOf(keys, t))
    ensures forall k :: k in IdsOf(keys, t) ==> k in d[t]
    ensures BatchRows(codec, made, lines, t) == Pick(d[t], IdsOf(keys, t))
  {
    CellsOfExport(codec, d, tenant, keys, lines, t);
    IdsOfAreDistinct(keys, t);
    DecodedPick(schema.defs[t], codec, d[t], IdsOf(keys, t));
    PickHasDistinctIds(schema.defs[t], d[t], IdsOf(keys, t));
  }

  lemma PickHasDistinctIds(def: TableDef, rows: Rows, ids: seq<Value>)
    requires IsRows(def, rows) && Distinct(ids) && forall k :: k in ids ==> k in rows
    ensures DistinctIds(Pick(rows, ids))
    ensures forall i :: 0 <= i < |ids| ==> Pick(rows, ids)[i][Id] == ids[i]
  {
    var chunk := Pick(rows, ids);
    forall i | 0 <= i < |ids| ensures Id in chunk[i] && chunk[i][Id] == ids[i] {
      assert ids[i] in rows;
    }
  }

  // ---- one table, row by row ----

  /** None of these ids belongs to another tenant in the target. */
  predicate HomeIds(target: Rows, ids: seq<Value>, tenant: Value) {
    forall k :: k in ids && k in target ==> Owned(target[k], tenant)
  }

  /** When a row comes up, each row of the target that holds one of its unique keys has been replaced. */
  predicate ComesFree(def: TableDef, target: Rows, rows: Rows, ids: seq<Value>) {
    forall i, x :: 0 <= i < |ids| && x in target && x != ids[i] && x !in ids[..i] ==>
      IsFree(def, target, rows, ids, i, x)
  }

  predicate IsFree(def: TableDef, target: Rows, rows: Rows, ids: seq<Value>, i: nat, x: Value)
    requires i < |ids| && x in target
  {
    ids[i] in rows ==> !Clash(def, rows[ids[i]], target[x])
  }

  function Chosen(rows: Rows, ids: seq<Value>): Rows
    requires forall k :: k in ids ==> k in rows
  {
    map k | k in ids :: rows[k]
  }

  lemma WholeRowWins(def: TableDef, target: Rows, r: Row)
    requires IsRows(def, target) && r.Keys == def.blank.Keys && Id in r
    ensures Merged(def.blank, target, r) == r && def.blank + r == r
  {
  }

  /** Putting whole rows of the tenant one after the other: exactly when all are taken, and the table
      they leave. */
  lemma {:induction false} PutPick(def: TableDef, tenant: Value, target: Rows, rows: Rows, ids: seq<Value>)
    requires IsRows(def, target) && IsRows(def, rows) && Unique(def, rows) && TenantId in def.blank
    requires Distinct(ids) && forall k :: k in ids ==> k in rows && Owned(rows[k], tenant)
    ensures PutAll(def, tenant, target, Pick(rows, ids)) ==
            if HomeIds(target, ids, tenant) && ComesFree(def, target, rows, ids)
            then Some(target + Chosen(rows, ids)) else None
  {
    if ids == [] {
      assert target + Chosen(rows, ids) == target;
    } else {
      var front, k := ids[..|ids| - 1], ids[|ids| - 1];
      PickSnoc(target, rows, ids);
      PutPick(def, tenant, target, rows, front);
      LastComesFree(def, target, rows, ids);
      LastIsHome(target, ids, tenant);
      PutNext(def, tenant, target, rows, front, k);
    }
  }

  lemma PickSnoc(target: Rows, rows: Rows, ids: seq<Value>)
    requires ids != [] && Distinct(ids) && forall k :: k in ids ==> k in rows
    ensures var front, k := ids[..|ids| - 1], ids[|ids| - 1];
            && k in ids && k !in front && Distinct(front) && (forall x :: x in front ==> x in ids)
            && Pick(rows, ids)[..|ids| - 1] == Pick(rows, front)
            && Pick(rows, ids)[|ids| - 1] == rows[k]
            && target + Chosen(rows, ids) == (target + Chosen(rows, front))[k := rows[k]]
  {
    var front, k := ids[..|ids| - 1], ids[|ids| - 1];
    assert ids == front + [k];
    assert forall x :: x in ids <==> x in front || x == k;
    assert Chosen(rows, ids) == Chosen(rows, front)[k := rows[k]];
  }

  lemma LastIsHome(target: Rows, ids: seq<Value>, tenant: Value)
    requires ids != []
    ensures var k := ids[|ids| - 1];
            HomeIds(target, ids, tenant) <==>
            HomeIds(target, ids[..|ids| - 1], tenant) && (k in target ==> Owned(target[k], tenant))
  {
    assert forall k :: k in ids <==> k in ids[..|ids| - 1] || k == ids[|ids| - 1];
  }

  /** No row of the target, save those replaced by now, holds a unique key of `row`. */
  predicate FreeSince(def: TableDef, target: Rows, done: seq<Value>, k: Value, row: Row) {
    forall x :: x in target && x != k && x !in done ==> !Clash(def, row, target[x])
  }

  lemma LastComesFree(def: TableDef, target: Rows, rows: Rows, ids: seq<Value>)
    requires ids != [] && forall k :: k in ids ==> k in rows
    ensures forall k :: k in ids[..|ids| - 1] ==> k in rows
    ensures var front, k := ids[..|ids| - 1], ids[|ids| - 1];
            ComesFree(def, target, rows, ids) <==>
            ComesFree(def, target, rows, front) && FreeSince(def, target, front, k, rows[k])
  {
    var n := |ids| - 1;
    var front := ids[..n];
    forall k | k in front ensures k in rows {
      assert k in ids;
    }
    assert ids[n] in ids;
    forall i, x | 0 <= i < n && x in target && x != ids[i] && x !in ids[..i]
      ensures IsFree(def, target, rows, ids, i, x) <==> IsFree(def, target, rows, front, i, x)
    {
      assert front[i] == ids[i];
    }
    assert forall i :: 0 <= i < n ==> front[..i] == ids[..i];
    forall x | x in target && x != ids[n] && x !in front
      ensures IsFree(def, target, rows, ids, n, x) <==> !Clash(def, rows[ids[n]], target[x])
    {
    }
  }

  lemma BeforeIsRows(def: TableDef, target: Rows, rows: Rows, done: seq<Value>)
    requires IsRows(def, target) && IsRows(def, rows) && forall x :: x in done ==> x in rows
    ensures IsRows(def, target + Chosen(rows, done))
  {
  }

  /** The exported rows do not stand in each other's way: only the target's own rows can. */
  lemma FreeOfBefore(def: TableDef, target: Rows, rows: Rows, done: seq<Value>, k: Value)
    requires Unique(def, rows) && (forall x :: x in done ==> x in rows) && k in rows
    ensures Free(def, target + Chosen(rows, done), k, rows[k]) <==> FreeSince(def, target, done, k, rows[k])
  {
    var before := target + Chosen(rows, done);
    assert Free(def, rows, k, rows[k]);
    forall x | x in before && x != k
      ensures !Clash(def, rows[k], before[x]) <==> x in done || !Clash(def, rows[k], target[x])
    {
      if x in done { assert before[x] == rows[x]; } else { assert before[x] == target[x]; }
    }
  }

  lemma PutNext(def: TableDef, tenant: Value, target: Rows, rows: Rows, done: seq<Value>, k: Value)
    requires IsRows(def, target) && IsRows(def, rows) && Unique(def, rows) && TenantId in def.blank
    requires (forall x :: x in done ==> x in rows) && k in rows && Owned(rows[k], tenant) && k !in done
    ensures var before := target + Chosen(rows, done);
            Put(def, tenant, before, rows[k]) ==
            if (k in target ==> Owned(target[k], tenant)) && FreeSince(def, target, done, k, rows[k])
            then Some(before[k := rows[k]]) else None
  {
    var before := target + Chosen(rows, done);
    BeforeIsRows(def, target, rows, done);
    WholeRowWins(def, before, rows[k]);
    FreeOfBefore(def, target, rows, done, k);
    assert k in before <==> k in target;
    assert k in before ==> before[k] == target[k];
  }

  /** Upserting the tenant's rows of `rows` into `target`: taken exactly when no id is another tenant's
      and each comes up free; then they are written over it. */
  lemma TableRestored(def: TableDef, tenant: Value, target: Rows, rows: Rows, ids: seq<Value>)
    requires IsRows(def, target) && IsRows(def, rows) && Unique(def, rows) && TenantId in def.blank
    requires Distinct(ids) && Elements(ids) == OwnedKeys(rows, tenant)
    ensures forall k :: k in ids ==> k in rows
    ensures PutAll(def, tenant, target, Pick(rows, ids)) ==
            if NoForeignIds(target, rows, tenant) && ComesFree(def, target, rows, ids)
            then Some(target + OwnedRows(rows, tenant)) else None
  {
    forall k | k in ids ensures k in rows && Owned(rows[k], tenant) {
      assert k in Elements(ids);
    }
    PutPick(def, tenant, target, rows, ids);
    forall k ensures k in ids <==> k in OwnedKeys(rows, tenant) {
      assert k in ids <==> k in Elements(ids);
    }
    SameMap(Chosen(rows, ids), OwnedRows(rows, tenant));
  }

  // ---- writing one table after the other ----

  function KeysOf(t: TableName, ids: seq<Value>): seq<Key> { seq(|ids|, i requires 0 <= i < |ids| => Key(t, ids[i])) }

  function LinesOf(codec: Codec, rows: Rows, t: TableName, ids: seq<Value>): seq<Line>
    requires forall k :: k in ids ==> k in rows
  {
    seq(|ids|, i requires 0 <= i < |ids| => assert ids[i] in ids; Record(Some(t), Encoded(codec, rows[ids[i]])))
  }

  lemma NextTableExported(
    codec: Codec, d: Db, tenant: Value, keys: seq<Key>, lines: seq<Line>, t: TableName, ids: seq<Value>)
    requires IsPartialExport(codec, d, tenant, keys, lines) && t in d && forall key :: key in keys ==> key.table != t
    requires Distinct(ids) && Elements(ids) == OwnedKeys(d[t], tenant) && forall k :: k in ids ==> k in d[t]
    ensures IsPartialExport(codec, d, tenant, keys + KeysOf(t, ids), lines + LinesOf(codec, d[t], t, ids))
  {
    forall i | 0 <= i < |ids| ensures IsKeyOf(d, tenant, Key(t, ids[i])) {
      assert ids[i] in Elements(ids);
    }
    forall i, j | 0 <= i < |keys| && 0 <= j < |ids| ensures keys[i] != KeysOf(t, ids)[j] {
      assert keys[i] in keys;
    }
  }

  lemma NextTableCovered(d: Db, tenant: Value, keys: seq<Key>, t: TableName, ids: seq<Value>, key: Key)
    requires t in d && Elements(ids) == OwnedKeys(d[t], tenant)
    ensures key in keys + KeysOf(t, ids) <==> key in keys || (key.table == t && key.id in OwnedKeys(d[t], tenant))
  {
    if key.table == t && key.id in OwnedKeys(d[t], tenant) {
      assert key.id in Elements(ids);
      var j :| 0 <= j < |ids| && ids[j] == key.id;
      assert KeysOf(t, ids)[j] == key;
    }
    if key in KeysOf(t, ids) {
      var j :| 0 <= j < |ids| && KeysOf(t, ids)[j] == key;
      assert ids[j] in Elements(ids);
    }
  }
}

/** Putting the rows of a batch a second time, in one table. */
module TableTwice {
  import opened Common
  import opened Tables
  import opened Upserts

  /** The rows of a batch all name the same columns. */
  predicate Uniform(rows: seq<Row>, columns: set<Column>) {
    Id in columns && forall r :: r in rows ==> r.Keys == columns
  }

  /** The last row with a key. */
  function Last(rows: seq<Row>, k: Value): Row {
    if rows == [] then map[]
    else
      var r := rows[|rows| - 1];
      if Id in r && r[Id] == k then r else Last(rows[..|rows| - 1], k)
  }

  function Base(blank: Row, rows: Rows, k: Value): Row { if k in rows then rows[k] else blank }

  predicate Brings(rows: seq<Row>, k: Value) { exists r :: r in rows && Id in r && r[Id] == k }

  lemma {:induction false} LastIs(rows: seq<Row>, k: Value)
    requires Brings(rows, k)
    ensures Last(rows, k) in rows && Id in Last(rows, k) && Last(rows, k)[Id] == k
  {
    var front, r := rows[..|rows| - 1], rows[|rows| - 1];
    if !(Id in r && r[Id] == k) {
      var q :| q in rows && Id in q && q[Id] == k;
      assert q in front;
      LastIs(front, k);
    }
  }

  lemma BringsSnoc(rows: seq<Row>, k: Value)
    requires rows != []
    ensures var r := rows[|rows| - 1]; Brings(rows, k) <==> Brings(rows[..|rows| - 1], k) || (Id in r && r[Id] == k)
  {
    var front, r := rows[..|rows| - 1], rows[|rows| - 1];
    assert rows == front + [r];
    if Brings(rows, k) {
      var q :| q in rows && Id in q && q[Id] == k;
      assert q in front || q == r;
    }
  }

  /** With uniform columns a row depends on what was there before the batch and on the last row of its
      key alone. */
  lemma {:induction false} UpsertedIs(blank: Row, rows: Rows, batch: seq<Row>, columns: set<Column>, k: Value)
    requires Uniform(batch, columns)
    ensures k in Upserted(blank, rows, batch) <==> k in rows || Brings(batch, k)
    ensures Brings(batch, k) ==> Upserted(blank, rows, batch)[k] == Base(blank, rows, k) + Last(batch, k)
    ensures !Brings(batch, k) && k in rows ==> Upserted(blank, rows, batch)[k] == rows[k]
  {
    if batch != [] {
      var front, r := batch[..|batch| - 1], batch[|batch| - 1];
      assert forall q :: q in front ==> q in batch;
      assert r in batch;
      UpsertedIs(blank, rows, front, columns, k);
      BringsSnoc(batch, k);
      if r[Id] == k { MergedIs(blank, rows, front, columns, r, k); }
    }
  }

  lemma MergedIs(blank: Row, rows: Rows, front: seq<Row>, columns: set<Column>, r: Row, k: Value)
    requires Uniform(front, columns) && r.Keys == columns && Id in r && r[Id] == k
    requires k in Upserted(blank, rows, front) <==> k in rows || Brings(front, k)
    requires Brings(front, k) ==> Upserted(blank, rows, front)[k] == Base(blank, rows, k) + Last(front, k)
    requires !Brings(front, k) && k in rows ==> Upserted(blank, rows, front)[k] == rows[k]
    ensures Merged(blank, Upserted(blank, rows, front), r) == Base(blank, rows, k) + r
  {
    if Brings(front, k) {
      LastIs(front, k);
      SameColumns(Base(blank, rows, k), Last(front, k), r);
    }
  }

  lemma SameColumns(base: Row, a: Row, b: Row)
    requires a.Keys == b.Keys
    ensures (base + a) + b == base + b
  {
  }

  /** Halfway through the second time: a key that came up again has the value it had the first time
      at this point, the others still have the final one. */
  lemma SecondTime(blank: Row, rows: Rows, all: seq<Row>, done: seq<Row>, columns: set<Column>, k: Value)
    requires Uniform(all, columns) && (forall r :: r in done ==> r in all)
    ensures forall r :: r in all + done ==> Id in r
    ensures var final := Upserted(blank, rows, all);
            var again := Upserted(blank, final, done);
      && (k in again <==> k in final)
      && (Brings(done, k) ==>
            k in again && k in Upserted(blank, rows, done) && again[k] == Upserted(blank, rows, done)[k])
      && (!Brings(done, k) && k in final ==> again[k] == final[k])
  {
    assert Uniform(done, columns);
    assert Brings(done, k) ==> Brings(all, k);
    var final := Upserted(blank, rows, all);
    UpsertedIs(blank, rows, all, columns, k);
    UpsertedIs(blank, rows, done, columns, k);
    UpsertedIs(blank, final, done, columns, k);
    if Brings(done, k) {
      LastIs(all, k);
      LastIs(done, k);
      SameColumns(Base(blank, rows, k), Last(all, k), Last(done, k));
    }
  }

  lemma WholeSecondTime(blank: Row, rows: Rows, all: seq<Row>, columns: set<Column>)
    requires Uniform(all, columns)
    ensures forall r :: r in all ==> Id in r
    ensures Upserted(blank, Upserted(blank, rows, all), all) == Upserted(blank, rows, all)
  {
    var final := Upserted(blank, rows, all);
    forall k ensures k in Upserted(blank, final, all) <==> k in final
             ensures k in final ==> Upserted(blank, final, all)[k] == final[k]
    {
      SecondTime(blank, rows, all, all, columns, k);
    }
    SameMap(Upserted(blank, final, all), final);
  }

  // ---- the unique keys the second time ----

  /** What row `i` leaves under its id. */
  function Left(def: TableDef, rows: Rows, batch: seq<Row>, i: nat): Row
    requires i < |batch| && Id in batch[i]
  {
    Base(def.blank, rows, batch[i][Id]) + batch[i]
  }

  /** Row `i` has no unique key that an id which comes up only later ends up with. */
  predicate SettledAt(def: TableDef, rows: Rows, batch: seq<Row>, i: nat)
    requires i < |batch| && forall r :: r in batch ==> Id in r
  {
    forall j :: i < j < |batch| && batch[j][Id] != batch[i][Id] && !Brings(batch[..i], batch[j][Id]) ==>
      !Clash(def, Left(def, rows, batch, i),
             Base(def.blank, rows, batch[j][Id]) + Last(batch, batch[j][Id]))
  }

  predicate Settled(def: TableDef, rows: Rows, batch: seq<Row>, n: nat)
    requires n <= |batch| && forall r :: r in batch ==> Id in r
  {
    forall i :: 0 <= i < n ==> SettledAt(def, rows, batch, i)
  }

  /** The table the first time, and the second time, before row `i`. */
  function First(def: TableDef, rows: Rows, batch: seq<Row>, i: nat): Rows
    requires i <= |batch| && forall r :: r in batch ==> Id in r
  {
    assert forall r :: r in batch[..i] ==> r in batch;
    Upserted(def.blank, rows, batch[..i])
  }

  function Again(def: TableDef, rows: Rows, batch: seq<Row>, i: nat): Rows
    requires i <= |batch| && forall r :: r in batch ==> Id in r
  {
    assert forall r :: r in batch[..i] ==> r in batch;
    Upserted(def.blank, Upserted(def.blank, rows, batch), batch[..i])
  }

  /** A row of the table before row `i` the second time: as it was the first time, or the final one of
      an id that comes up later. */
  lemma AgainIs(def: TableDef, rows: Rows, batch: seq<Row>, columns: set<Column>, i: nat, x: Value)
    requires Uniform(batch, columns) && i <= |batch| && x in Again(def, rows, batch, i)
    ensures Brings(batch, x) && !Brings(batch[..i], x) ==>
              Again(def, rows, batch, i)[x] == Base(def.blank, rows, x) + Last(batch, x)
    ensures !Brings(batch, x) || Brings(batch[..i], x) ==>
              x in First(def, rows, batch, i) && Again(def, rows, batch, i)[x] == First(def, rows, batch, i)[x]
  {
    var done := batch[..i];
    assert forall r :: r in done ==> r in batch;
    SecondTime(def.blank, rows, batch, done, columns, x);
    UpsertedIs(def.blank, rows, batch, columns, x);
    UpsertedIs(def.blank, rows, done, columns, x);
  }

  lemma AgainHas(def: TableDef, rows: Rows, batch: seq<Row>, columns: set<Column>, i: nat, x: Value)
    requires Uniform(batch, columns) && i <= |batch|
    ensures x in Again(def, rows, batch, i) <==> x in rows || Brings(batch, x)
    ensures x in First(def, rows, batch, i) ==> x in Again(def, rows, batch, i)
  {
    var done := batch[..i];
    assert forall r :: r in done ==> r in batch;
    SecondTime(def.blank, rows, batch, done, columns, x);
    UpsertedIs(def.blank, rows, batch, columns, x);
    UpsertedIs(def.blank, rows, done, columns, x);
  }

  /** Both times the row makes the same of what it finds. */
  lemma SameMerged(def: TableDef, rows: Rows, batch: seq<Row>, columns: set<Column>, i: nat)
    requires Uniform(batch, columns) && i < |batch|
    ensures Merged(def.blank, First(def, rows, batch, i), batch[i]) == Left(def, rows, batch, i)
    ensures Merged(def.blank, Again(def, rows, batch, i), batch[i]) == Left(def, rows, batch, i)
  {
    var r, done, k := batch[i], batch[..i], batch[i][Id];
    assert r in batch && forall q :: q in done ==> q in batch;
    UpsertedIs(def.blank, rows, done, columns, k);
    MergedIs(def.blank, rows, done, columns, r, k);
    AgainHas(def, rows, batch, columns, i, k);
    AgainIs(def, rows, batch, columns, i, k);
    LastIs(batch, k);
    SameColumns(Base(def.blank, rows, k), Last(batch, k), r);
    if Brings(done, k) {
      LastIs(done, k);
      SameColumns(Base(def.blank, rows, k), Last(done, k), r);
    }
  }

  lemma AdmittedAgain(def: TableDef, tenant: Value, rows: Rows, batch: seq<Row>, columns: set<Column>, i: nat)
    requires Uniform(batch, columns) && i < |batch| && (forall r :: r in batch ==> Owned(r, tenant))
    requires Admitted(def, tenant, First(def, rows, batch, i), batch[i])
    ensures Admitted(def, tenant, Again(def, rows, batch, i), batch[i])
  {
    var k := batch[i][Id];
    assert batch[i] in batch;
    AgainHas(def, rows, batch, columns, i, k);
    AgainIs(def, rows, batch, columns, i, k);
    LastIs(batch, k);
  }

  lemma FreeAgain(
    def: TableDef, rows: Rows, batch: seq<Row>, columns: set<Column>, i: nat, k: Value, row: Row)
    requires Uniform(batch, columns) && i < |batch| && k == batch[i][Id] && row == Left(def, rows, batch, i)
    requires Free(def, First(def, rows, batch, i), k, row)
    ensures Free(def, Again(def, rows, batch, i), k, row) <==> SettledAt(def, rows, batch, i)
  {
    var again := Again(def, rows, batch, i);
    forall x | x in again && x != k && !(Brings(batch, x) && !Brings(batch[..i], x))
      ensures !Clash(def, row, again[x])
    {
      AgainIs(def, rows, batch, columns, i, x);
    }
    forall j | i < j < |batch| && batch[j][Id] != k && !Brings(batch[..i], batch[j][Id])
      ensures batch[j][Id] in again
      ensures again[batch[j][Id]] == Base(def.blank, rows, batch[j][Id]) + Last(batch, batch[j][Id])
    {
      assert batch[j] in batch;
      AgainHas(def, rows, batch, columns, i, batch[j][Id]);
      AgainIs(def, rows, batch, columns, i, batch[j][Id]);
    }
    if SettledAt(def, rows, batch, i) {
      forall x | x in again && x != k && Brings(batch, x) && !Brings(batch[..i], x)
        ensures !Clash(def, row, again[x])
      {
        var j := ComesUpLater(batch, i, x);
      }
    }
  }

  lemma ComesUpLater(batch: seq<Row>, i: nat, x: Value) returns (j: nat)
    requires i < |batch| && (forall r :: r in batch ==> Id in r)
    requires Brings(batch, x) && !Brings(batch[..i], x) && x != batch[i][Id]
    ensures i < j < |batch| && batch[j][Id] == x
  {
    var r :| r in batch && Id in r && r[Id] == x;
    j :| 0 <= j < |batch| && batch[j] == r;
    assert forall m :: 0 <= m < i ==> batch[..i][m] == batch[m];
  }

  /** One row the second time. */
  lemma RowAgain(def: TableDef, tenant: Value, rows: Rows, batch: seq<Row>, columns: set<Column>, i: nat)
    requires Uniform(batch, columns) && i < |batch| && (forall r :: r in batch ==> Owned(r, tenant))
    requires Put(def, tenant, First(def, rows, batch, i), batch[i]).Some?
    ensures Put(def, tenant, Again(def, rows, batch, i), batch[i]) ==
            if SettledAt(def, rows, batch, i) then Some(Again(def, rows, batch, i + 1)) else None
  {
    assert batch[i] in batch;
    SameMerged(def, rows, batch, columns, i);
    AdmittedAgain(def, tenant, rows, batch, columns, i);
    FreeAgain(def, rows, batch, columns, i, batch[i][Id], Left(def, rows, batch, i));
    NextAgain(def, rows, batch, i);
  }

  lemma NextAgain(def: TableDef, rows: Rows, batch: seq<Row>, i: nat)
    requires i < |batch| && forall r :: r in batch ==> Id in r
    ensures batch[i] in batch
    ensures var again := Again(def, rows, batch, i);
            Again(def, rows, batch, i + 1) == again[batch[i][Id] := Merged(def.blank, again, batch[i])]
  {
    SlicePlus(batch, i);
    assert batch[..i + 1][..i] == batch[..i];
  }

  function PutOn(def: TableDef, tenant: Value, before: Option<Rows>, r: Row): Option<Rows> {
    match before
    case None => None
    case Some(rows) => Put(def, tenant, rows, r)
  }

  /** The stages of putting rows one after the other. */
  lemma {:induction false} PutStages(
    def: TableDef, tenant: Value, rows: Rows, batch: seq<Row>, stages: seq<Option<Rows>>, n: nat)
    requires |stages| == |batch| + 1 && n <= |batch| && stages[0] == Some(rows)
    requires forall m :: 0 <= m < |batch| ==> stages[m + 1] == PutOn(def, tenant, stages[m], batch[m])
    ensures PutAll(def, tenant, rows, batch[..n]) == stages[n]
  {
    if n == 0 {
      assert batch[..0] == [];
    } else {
      var m: nat :| m + 1 == n;
      PutStages(def, tenant, rows, batch, stages, m);
      PutNextRow(def, tenant, rows, batch, m);
    }
  }

  /** What the first `m` rows come to the second time. */
  function AgainStage(def: TableDef, rows: Rows, batch: seq<Row>, m: nat): Option<Rows>
    requires m <= |batch| && forall r :: r in batch ==> Id in r
  {
    if Settled(def, rows, batch, m) then Some(Again(def, rows, batch, m)) else None
  }

  lemma NextAgainStage(def: TableDef, tenant: Value, rows: Rows, batch: seq<Row>, columns: set<Column>, m: nat)
    requires Uniform(batch, columns) && m < |batch| && PutAll(def, tenant, rows, batch).Some?
    ensures AgainStage(def, rows, batch, m + 1) == PutOn(def, tenant, AgainStage(def, rows, batch, m), batch[m])
  {
    RowTheFirstTime(def, tenant, rows, batch, m);
    RowAgain(def, tenant, rows, batch, columns, m);
    SettledStep(def, rows, batch, m);
  }

  lemma SettledStep(def: TableDef, rows: Rows, batch: seq<Row>, m: nat)
    requires m < |batch| && forall r :: r in batch ==> Id in r
    ensures Settled(def, rows, batch, m + 1) <==> Settled(def, rows, batch, m) && SettledAt(def, rows, batch, m)
  {
  }

  lemma NothingAgain(def: TableDef, rows: Rows, batch: seq<Row>)
    requires forall r :: r in batch ==> Id in r
    ensures AgainStage(def, rows, batch, 0) == Some(Upserted(def.blank, rows, batch))
  {
    assert batch[..0] == [];
  }

  lemma RowsAgain(def: TableDef, tenant: Value, rows: Rows, batch: seq<Row>, columns: set<Column>)
    requires Uniform(batch, columns) && PutAll(def, tenant, rows, batch).Some?
    ensures PutAll(def, tenant, Upserted(def.blank, rows, batch), batch) == AgainStage(def, rows, batch, |batch|)
  {
    var stages := seq(|batch| + 1, m requires 0 <= m <= |batch| => AgainStage(def, rows, batch, m));
    forall m | 0 <= m < |batch| ensures stages[m + 1] == PutOn(def, tenant, stages[m], batch[m]) {
      NextAgainStage(def, tenant, rows, batch, columns, m);
    }
    NothingAgain(def, rows, batch);
    PutStages(def, tenant, Upserted(def.blank, rows, batch), batch, stages, |batch|);
    WholeSlice(batch);
  }

  lemma PutNextRow(def: TableDef, tenant: Value, rows: Rows, batch: seq<Row>, m: nat)
    requires m < |batch|
    ensures PutAll(def, tenant, rows, batch[..m + 1]) ==
            match PutAll(def, tenant, rows, batch[..m])
            case None => None
            case Some(before) => Put(def, tenant, before, batch[m])
  {
    assert batch[..m + 1][..m] == batch[..m];
  }

  lemma PrefixIsPut(def: TableDef, tenant: Value, rows: Rows, batch: seq<Row>, n: nat)
    requires n <= |batch| && PutAll(def, tenant, rows, batch).Some?
    ensures PutAll(def, tenant, rows, batch[..n]).Some?
  {
    assert batch == batch[..n] + batch[n..];
    PutAllConcat(def, tenant, rows, batch[..n], batch[n..]);
  }

  lemma RowTheFirstTime(def: TableDef, tenant: Value, rows: Rows, batch: seq<Row>, m: nat)
    requires m < |batch| && PutAll(def, tenant, rows, batch).Some?
    ensures forall r :: r in batch ==> Id in r && Owned(r, tenant)
    ensures Put(def, tenant, First(def, rows, batch, m), batch[m]).Some?
  {
    PutAllIsUpserted(def, tenant, rows, batch);
    PrefixIsPut(def, tenant, rows, batch, m + 1);
    PutNextRow(def, tenant, rows, batch, m);
    PutAllIsUpserted(def, tenant, rows, batch[..m]);
  }

  /** A batch that was taken once, put again: refused, or all taken without any change. */
  lemma BatchAgain(def: TableDef, tenant: Value, rows: Rows, batch: seq<Row>, columns: set<Column>)
    requires Uniform(batch, columns) && PutAll(def, tenant, rows, batch).Some?
    ensures var final := PutAll(def, tenant, rows, batch).value;
            PutAll(def, tenant, final, batch) ==
            if Settled(def, rows, batch, |batch|) then Some(final) else None
  {
    PutAllIsUpserted(def, tenant, rows, batch);
    RowsAgain(def, tenant, rows, batch, columns);
    WholeSlice(batch);
    WholeSecondTime(def.blank, rows, batch, columns);
  }

  // ---- no id twice ----

  lemma LastOfDistinct(batch: seq<Row>, i: nat)
    requires DistinctIds(batch) && i < |batch|
    ensures Last(batch, batch[i][Id]) == batch[i]
  {
    assert batch[i] in batch;
    LastIs(batch, batch[i][Id]);
    var j :| 0 <= j < |batch| && batch[j] == Last(batch, batch[i][Id]);
  }

  /** Without repeated ids the second time is always taken: the rows left are those of the table. */
  lemma DistinctIsSettled(def: TableDef, tenant: Value, rows: Rows, batch: seq<Row>, columns: set<Column>)
    requires Uniform(batch, columns) && DistinctIds(batch) && PutAll(def, tenant, rows, batch).Some?
    requires Unique(def, PutAll(def, tenant, rows, batch).value)
    ensures Settled(def, rows, batch, |batch|)
  {
    var final := PutAll(def, tenant, rows, batch).value;
    PutAllIsUpserted(def, tenant, rows, batch);
    forall i | 0 <= i < |batch|
      ensures batch[i][Id] in final && final[batch[i][Id]] == Left(def, rows, batch, i)
      ensures Last(batch, batch[i][Id]) == batch[i]
    {
      assert batch[i] in batch;
      LastOfDistinct(batch, i);
      UpsertedIs(def.blank, rows, batch, columns, batch[i][Id]);
    }
    forall i | 0 <= i < |batch| ensures SettledAt(def, rows, batch, i) {
      assert Free(def, final, batch[i][Id], final[batch[i][Id]]);
    }
  }
}

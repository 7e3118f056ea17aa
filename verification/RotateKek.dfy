/** Rotation of the key-encryption key: row by row, interruptible, repeatable. */
module RotateKek {
  import opened Common
  import opened Envelope
  import opened Credentials

  datatype Keys = Keys(from: Bytes, to: Bytes)

  predicate Valid(k: Keys) { IsKek(k.from) && IsKek(k.to) }

  predicate Unwraps(key: Bytes, r: CredRow) { Open(key, r.wrapped).Some? }

  /** The update of a row `r`, that was `read` before: the data key read is wrapped anew, under the
      version after the one read, and the credential stays. */
  predicate Rewrapped(k: Keys, read: CredRow, r: CredRow, r': CredRow) {
    && Unwraps(k.from, read) && Unwraps(k.to, r')
    && Open(k.to, r'.wrapped) == Open(k.from, read.wrapped)
    && r'.encrypted == r.encrypted && r'.version == read.version + 1
  }

  /** A row moved from one key to the other: same data key, same credential, next version. */
  predicate Moved(k: Keys, r: CredRow, r': CredRow) { Rewrapped(k, r, r, r') }

  /** Why rotation is offline: a credential stored between the read and the update stays readable
      exactly when it was stored under the data key that was read. */
  lemma StoredMeanwhileIsReadableIff(k: Keys, read: CredRow, r: CredRow, r': CredRow, text: Bytes)
    requires Valid(k) && Decrypt(k.from, r.wrapped, r.encrypted) == Some(text) && Rewrapped(k, read, r, r')
    ensures Decrypt(k.to, r'.wrapped, r'.encrypted) == Some(text) <==>
            Open(k.from, read.wrapped) == Open(k.from, r.wrapped)
    ensures Decrypt(k.to, r'.wrapped, r'.encrypted).None? <==>
            Open(k.from, read.wrapped) != Open(k.from, r.wrapped)
  {
  }

  /** What one run, interrupted anywhere and with any updates failing or reported as failed, may do to
      the table. */
  ghost predicate Attempt(k: Keys, t: Table, t': Table) {
    t'.Keys == t.Keys && forall s :: s in t ==> t'[s] == t[s] || Moved(k, t[s], t'[s])
  }

  /** What an uninterrupted run does: every row the old key unwraps is moved. */
  ghost predicate Complete(k: Keys, t: Table, t': Table) {
    t'.Keys == t.Keys
    && forall s :: s in t ==> if Unwraps(k.from, t[s]) then Moved(k, t[s], t'[s]) else t'[s] == t[s]
  }

  /** Equal but for the nonces of the wrapping. */
  predicate SameButNonce(r: CredRow, r': CredRow) {
    && r.encrypted == r'.encrypted && r.version == r'.version
    && (r.wrapped == r'.wrapped
        || (r.wrapped.Sealed? && r'.wrapped.Sealed? && r.wrapped.(nonce := 0) == r'.wrapped.(nonce := 0)))
  }

  /** Attempts add up to one attempt: no row moves twice. */
  lemma AttemptsCompose(k: Keys, t0: Table, t1: Table, t2: Table)
    requires k.from != k.to && Attempt(k, t0, t1) && Attempt(k, t1, t2)
    ensures Attempt(k, t0, t2)
    ensures Complete(k, t1, t2) ==> Complete(k, t0, t2)
  {
    forall s | s in t0 ensures t2[s] == t0[s] || Moved(k, t0[s], t2[s]) {}
  }

  /** Runs one after the other on the same table. */
  ghost predicate IsChain(k: Keys, tables: seq<Table>) {
    |tables| > 0 && forall i :: 0 < i < |tables| ==> Attempt(k, tables[i - 1], tables[i])
  }

  lemma {:induction false} ChainIsAttempt(k: Keys, tables: seq<Table>, i: nat)
    requires k.from != k.to && IsChain(k, tables) && i < |tables|
    ensures Attempt(k, tables[0], tables[i])
  {
    if i > 0 {
      ChainIsAttempt(k, tables, i - 1);
      AttemptsCompose(k, tables[0], tables[i - 1], tables[i]);
    }
  }

  /** At every moment of any series of interrupted runs, a row that started under the old key opens
      under exactly one of the two, to its own data key, with its credential untouched and its
      version raised once if it moved. */
  lemma EveryMomentIsReadable(k: Keys, tables: seq<Table>, i: nat, s: Slot)
    requires k.from != k.to && IsChain(k, tables) && i < |tables|
    requires s in tables[0] && Unwraps(k.from, tables[0][s])
    ensures s in tables[i]
    ensures var r, r' := tables[0][s], tables[i][s];
      && r'.encrypted == r.encrypted
      && (Unwraps(k.from, r') <==> !Unwraps(k.to, r'))
      && (Unwraps(k.from, r') ==> Open(k.from, r'.wrapped) == Open(k.from, r.wrapped) && r'.version == r.version)
      && (Unwraps(k.to, r') ==> Open(k.to, r'.wrapped) == Open(k.from, r.wrapped) && r'.version == r.version + 1)
  {
    ChainIsAttempt(k, tables, i);
  }

  /** Confluence: any series of interrupted runs, once a run has completed, leaves the table that a
      single uninterrupted run would have left, up to nonces. */
  lemma InterruptedRunsConverge(k: Keys, tables: seq<Table>, once: Table)
    requires k.from != k.to && IsChain(k, tables) && |tables| >= 2
    requires Complete(k, tables[|tables| - 2], tables[|tables| - 1])
    requires Complete(k, tables[0], once)
    ensures var last := tables[|tables| - 1];
      && Complete(k, tables[0], last)
      && last.Keys == once.Keys && forall s :: s in once ==> SameButNonce(last[s], once[s])
  {
    var n := |tables|;
    ChainIsAttempt(k, tables, n - 2);
    AttemptsCompose(k, tables[0], tables[n - 2], tables[n - 1]);
  }

  /** A second complete run raises no version again exactly when the two keys differ. */
  lemma RerunKeepsVersionIff(k: Keys, t0: Table, t1: Table, t2: Table, s: Slot)
    requires Complete(k, t0, t1) && Complete(k, t1, t2)
    requires s in t0 && Unwraps(k.from, t0[s])
    ensures t2[s].version == t0[s].version + 1 <==> k.from != k.to
    ensures k.from != k.to ==> t2[s] == t1[s]
  {
  }

  /** A service still on the old key cannot read a moved row, whatever it has cached; one restarted
      under the new key reads what was there before. */
  lemma RestartIsNeeded(k: Keys, t: Table, t': Table, s: Slot)
    requires Valid(k) && k.from != k.to && Complete(k, t, t') && s in t && Unwraps(k.from, t[s])
    ensures Resolve(t', k.from, s) == Broken
    ensures Resolve(t', k.to, s) == Resolve(t, k.from, s)
  {
  }

  // ---- the run ----

  datatype FailedOp = Unwrap | Wrap | Update

  datatype RowError = RowError(slot: Slot, op: FailedOp)

  datatype Report = Report(channels: nat, tenants: nat, errors: seq<RowError>)

  datatype Outcome = Finished | Interrupted | BadKey

  function TenantsOf(slots: set<Slot>): set<Tenant> { set s | s in slots :: s.tenant }

  /** The rows are read from the snapshot taken at the start, in any order; each update commits on
      its own. `rows` is how many are visited before the run is cut off. Row errors are collected. */
  method Rotate(repo: CredentialsRepo, keys: Keys, dryRun: bool, rows: nat)
    returns (outcome: Outcome, report: Report)
    modifies repo`table
    ensures outcome == BadKey <==> |keys.from| != 32 || |keys.to| != 32
    ensures dryRun || outcome == BadKey ==> repo.table == old(repo.table)
    ensures Attempt(keys, old(repo.table), repo.table)
    ensures outcome == Finished <==> outcome != BadKey && rows >= |old(repo.table)|
    ensures outcome == Finished && repo.reliable && !dryRun ==> Complete(keys, old(repo.table), repo.table)
    // A finished report counts every row once, as re-wrapped or as an error; rows already moved by
    // an earlier run are errors, and the tenants counted include those of failed rows.
    ensures outcome == Finished ==>
      && report.channels + |report.errors| == |old(repo.table)|
      && report.tenants == |set s | s in old(repo.table) :: s.tenant|
      && (repo.reliable || dryRun ==>
            forall e :: e in report.errors <==>
              && e.op == Unwrap && e.slot in old(repo.table)
              && Open(keys.from, old(repo.table)[e.slot].wrapped) == None)
  {
    report := Report(0, 0, []);
    if !IsKek(keys.from) || !IsKek(keys.to) { return BadKey, report; }
    ghost var start := repo.table;
    var snapshot := repo.table;
    var order := TakeAny(snapshot.Keys, |snapshot|);
    DistinctCardinality(order);
    SubsetCardinality(Elements(order), start.Keys);
    var visited := order[..Min(rows, |order|)];
    report := RotateRows(repo, keys, dryRun, snapshot, visited);
    VisitedIsAttempt(keys, repo.reliable, dryRun, start, repo.table, Elements(visited));
    if |visited| < |order| { return Interrupted, report; }
    assert visited == order;
    report := report.(tenants := |TenantsOf(snapshot.Keys)|);
    assert TenantsOf(snapshot.Keys) == set s | s in start :: s.tenant;
    forall e | repo.reliable || dryRun
      ensures e in report.errors <==>
              e.op == Unwrap && e.slot in start && Open(keys.from, start[e.slot].wrapped) == None
    {
      assert e in report.errors <==> e in UnwrapErrors(keys, start, start.Keys);
    }
    return Finished, report;
  }

  method RotateRows(repo: CredentialsRepo, keys: Keys, dryRun: bool, snapshot: Table, rows: seq<Slot>)
    returns (report: Report)
    requires Valid(keys) && repo.table == snapshot && Distinct(rows) && forall s :: s in rows ==> s in snapshot
    modifies repo`table
    ensures Visited(keys, repo.reliable, dryRun, snapshot, repo.table, Elements(rows))
    ensures report.channels + |report.errors| == |rows|
    ensures repo.reliable || dryRun ==> Elements(report.errors) == UnwrapErrors(keys, snapshot, Elements(rows))
  {
    report := Report(0, 0, []);
    for i := 0 to |rows|
      invariant Visited(keys, repo.reliable, dryRun, snapshot, repo.table, Elements(rows[..i]))
      invariant report.channels + |report.errors| == i
      invariant repo.reliable || dryRun ==> Elements(report.errors) == UnwrapErrors(keys, snapshot, Elements(rows[..i]))
    {
      var s := rows[i];
      assert Elements(rows[..i + 1]) == Elements(rows[..i]) + {s};
      ghost var before, errors := repo.table, report.errors;
      assert s !in rows[..i];
      var failed := RotateRow(repo, keys, dryRun, s, snapshot[s]);
      VisitOne(keys, repo.reliable, dryRun, snapshot, before, repo.table, Elements(rows[..i]), s);
      if failed.Some? {
        report := report.(errors := report.errors + [RowError(s, failed.value)]);
        assert Elements(report.errors) == Elements(errors) + {RowError(s, failed.value)};
      } else {
        report := report.(channels := report.channels + 1);
      }
    }
    WholeSlice(rows);
  }

  /** What the run has made of a visited row. */
  predicate RowDone(k: Keys, reliable: bool, dryRun: bool, r: CredRow, r': CredRow) {
    || Moved(k, r, r')
    || (r' == r && (reliable && !dryRun ==> !Unwraps(k.from, r)))
  }

  ghost predicate Visited(k: Keys, reliable: bool, dryRun: bool, t: Table, t': Table, visited: set<Slot>) {
    && t'.Keys == t.Keys
    && (dryRun ==> t' == t)
    && forall s :: s in t ==> if s in visited then RowDone(k, reliable, dryRun, t[s], t'[s]) else t'[s] == t[s]
  }

  function UnwrapErrors(k: Keys, t: Table, visited: set<Slot>): set<RowError> {
    set s | s in visited && s in t && !Unwraps(k.from, t[s]) :: RowError(s, Unwrap)
  }

  lemma VisitOne(k: Keys, reliable: bool, dryRun: bool, t: Table, mid: Table, t': Table, visited: set<Slot>, s: Slot)
    requires Visited(k, reliable, dryRun, t, mid, visited) && s in t && s !in visited
    requires t'.Keys == mid.Keys && (forall x :: x in t' && x != s ==> t'[x] == mid[x])
    requires RowDone(k, reliable, dryRun, mid[s], t'[s]) && (dryRun ==> t'[s] == mid[s])
    ensures Visited(k, reliable, dryRun, t, t', visited + {s})
  {
    if dryRun {
      forall x | x in t' ensures t'[x] == t[x] {}
      assert t' == t;
    }
  }

  lemma VisitedIsAttempt(k: Keys, reliable: bool, dryRun: bool, t: Table, t': Table, visited: set<Slot>)
    requires Visited(k, reliable, dryRun, t, t', visited)
    ensures Attempt(k, t, t')
    ensures visited == t.Keys && reliable && !dryRun ==> Complete(k, t, t')
  {
  }

  /** One row, as it was read; the table may hold another one by now, or none. */
  method RotateRow(repo: CredentialsRepo, keys: Keys, dryRun: bool, s: Slot, row: CredRow)
    returns (failed: Option<FailedOp>)
    requires Valid(keys)
    modifies repo`table
    ensures repo.table.Keys == old(repo.table).Keys
    ensures forall x :: x in repo.table && x != s ==> repo.table[x] == old(repo.table)[x]
    ensures s in repo.table && failed.None? && !dryRun ==> Rewrapped(keys, row, old(repo.table)[s], repo.table[s])
    // An update reported as failed may have been committed.
    ensures s in repo.table && failed == Some(Update) ==>
              repo.table[s] == old(repo.table)[s] || Rewrapped(keys, row, old(repo.table)[s], repo.table[s])
    ensures s in repo.table && (dryRun || (failed.Some? && failed.value != Update)) ==>
              repo.table[s] == old(repo.table)[s]
    ensures failed == Some(Unwrap) <==> !Unwraps(keys.from, row)
    ensures repo.reliable || dryRun ==> failed == None || failed == Some(Unwrap)
  {
    var dek := Open(keys.from, row.wrapped);
    if dek.None? { return Some(Unwrap); }
    var nonce: Nonce := *;
    var wrapped := Seal(keys.to, nonce, dek.value);
    if wrapped.None? { return Some(Wrap); }
    if dryRun { return None; }
    var ok := repo.UpdateWrappedDek(s, wrapped.value, row.version + 1);
    if !ok { return Some(Update); }
    return None;
  }
}

/** The outbound_events table and the row transitions of the outbox repository. */
module OutboxTable {
  import opened Common

  type MessageId = nat

  /** A (tenant, channel) pair, as the sender registry looks it up. */
  type Route = nat

  datatype Status = Pending | Sent | Dlq

  datatype Row = Row(route: Route, attempts: nat, status: Status)

  type Table = map<MessageId, Row>

  function PendingIds(t: Table): set<MessageId> {
    set id | id in t && t[id].status.Pending?
  }

  function MarkSent(t: Table, id: MessageId): Table {
    if id in PendingIds(t) then t[id := t[id].(status := Sent)] else t
  }

  function MarkFailed(t: Table, id: MessageId): Table {
    if id in PendingIds(t) then t[id := t[id].(attempts := t[id].attempts + 1)] else t
  }

  function MarkDlq(t: Table, id: MessageId): Table {
    if id in t && !t[id].status.Sent? then t[id := t[id].(status := Dlq)] else t
  }

  /** What a claim may return: any min(limit, #pending) different pending rows. */
  predicate Claimable(t: Table, limit: nat, ids: seq<MessageId>) {
    && Distinct(ids)
    && |ids| == Min(limit, |PendingIds(t)|)
    && forall id :: id in ids ==> id in PendingIds(t)
  }

  /** A claim that comes back short holds every pending row. */
  lemma ShortClaimIsComplete(t: Table, limit: nat, ids: seq<MessageId>)
    requires Claimable(t, limit, ids) && |ids| < limit
    ensures Elements(ids) == PendingIds(t)
  {
    DistinctCardinality(ids);
    SubsetCardinality(Elements(ids), PendingIds(t));
  }

  /** The repository: every method is one SQL statement and may report a store failure,
      unless the store is assumed reliable. */
  class OutboxRepo {
    var rows: Table
    const reliable: bool

    constructor (initial: Table, reliable: bool)
      ensures rows == initial && this.reliable == reliable
    {
      this.rows := initial;
      this.reliable := reliable;
    }

    method ClaimNext(limit: nat) returns (ok: bool, ids: seq<MessageId>)
      ensures reliable ==> ok
      ensures ok ==> Claimable(rows, limit, ids)
    {
      ids := [];
      ok := StoreAnswers(reliable);
      if !ok { return; }
      ids := TakeAny(PendingIds(rows), limit);
    }

    /** Zero affected rows is an error of its own (the source's ErrNotFound). */
    method MarkSentRow(id: MessageId) returns (ok: bool)
      modifies this`rows
      ensures rows == if ok then MarkSent(old(rows), id) else old(rows)
      ensures ok ==> id in PendingIds(old(rows))
      ensures reliable && id in PendingIds(old(rows)) ==> ok
    {
      ok := StoreAnswers(reliable);
      if ok {
        if id in rows && rows[id].status.Pending? {
          rows := rows[id := rows[id].(status := Sent)];
        } else {
          ok := false;
        }
      }
    }

    method MarkFailedRow(id: MessageId) returns (ok: bool)
      modifies this`rows
      ensures rows == if ok then MarkFailed(old(rows), id) else old(rows)
      ensures reliable ==> ok
    {
      ok := StoreAnswers(reliable);
      if ok && id in rows && rows[id].status.Pending? {
        rows := rows[id := rows[id].(attempts := rows[id].attempts + 1)];
      }
    }

    method MarkDlqRow(id: MessageId) returns (ok: bool)
      modifies this`rows
      ensures rows == if ok then MarkDlq(old(rows), id) else old(rows)
      ensures reliable ==> ok
    {
      ok := StoreAnswers(reliable);
      if ok && id in rows && !rows[id].status.Sent? {
        rows := rows[id := rows[id].(status := Dlq)];
      }
    }

    method GetAttempts(id: MessageId) returns (ok: bool, attempts: nat)
      ensures ok ==> id in rows && attempts == rows[id].attempts
      ensures reliable && id in rows ==> ok
    {
      attempts := 0;
      ok := StoreAnswers(reliable);
      if ok {
        if id in rows { attempts := rows[id].attempts; } else { ok := false; }
      }
    }
  }
}

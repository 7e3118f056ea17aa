/** The channel_credentials table: one row per (tenant, channel). */
module Credentials {
  import opened Common
  import opened Envelope

  type Tenant = nat

  datatype Slot = Slot(tenant: Tenant, channel: nat)

  datatype CredRow = CredRow(wrapped: Blob, encrypted: Blob, version: int)

  type Table = map<Slot, CredRow>

  /** The answer for a slot under a key-encryption key; `Broken` is any unwrap or decrypt error. */
  datatype Answer = Plain(text: Bytes) | NotFound | Broken

  function Resolve(t: Table, kek: Bytes, s: Slot): Answer {
    if s !in t then NotFound
    else match Decrypt(kek, t[s].wrapped, t[s].encrypted)
      case Some(text) => Plain(text)
      case None => Broken
  }

  /** The table with the data key of one row, if there is such a row, wrapped anew. */
  function WithWrapped(t: Table, s: Slot, wrapped: Blob, version: int): Table {
    if s in t then t[s := t[s].(wrapped := wrapped, version := version)] else t
  }

  class CredentialsRepo {
    var table: Table
    const reliable: bool

    constructor (initial: Table, reliable: bool)
      ensures table == initial && this.reliable == reliable
    {
      this.table := initial;
      this.reliable := reliable;
    }

    /** None: the store failed; Some(None): no such row. */
    method Get(s: Slot) returns (r: Option<Option<CredRow>>)
      ensures reliable ==> r.Some?
      ensures r.Some? ==> r.value == if s in table then Some(table[s]) else None
    {
      var ok := StoreAnswers(reliable);
      if !ok { return None; }
      return Some(if s in table then Some(table[s]) else None);
    }

    method Upsert(s: Slot, row: CredRow) returns (ok: bool)
      modifies this`table
      ensures reliable ==> ok
      ensures table == if ok then old(table)[s := row] else old(table)
    {
      ok := StoreAnswers(reliable);
      if ok { table := table[s := row]; }
    }

    method Delete(s: Slot) returns (ok: bool)
      modifies this`table
      ensures reliable ==> ok
      ensures table == if ok then old(table) - {s} else old(table)
    {
      ok := StoreAnswers(reliable);
      if ok { table := table - {s}; }
    }

    /** Re-wrapping leaves the encrypted credential alone. The update commits by itself: it may have
        been done although the transaction around it, and with it the call, fails. */
    method UpdateWrappedDek(s: Slot, wrapped: Blob, version: int) returns (ok: bool)
      modifies this`table
      ensures reliable ==> ok
      ensures ok ==> table == WithWrapped(old(table), s, wrapped, version)
      ensures !ok ==> table == old(table) || table == WithWrapped(old(table), s, wrapped, version)
    {
      var done := StoreAnswers(reliable);
      if done { table := WithWrapped(table, s, wrapped, version); }
      var committed := StoreAnswers(reliable);
      ok := done && committed;
    }
  }
}

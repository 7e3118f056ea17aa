/** The relay's drain loop over the outbox table: when it terminates, what a finished drain
    has done, and that all it does are steps of RelayMachine. */
module Relay {
  import opened Common
  import opened OutboxTable
  import M = RelayMachine

  type Registry = Option<set<Route>>

  // ---- what one processed row and one pass may do to the table ----

  predicate Resolves(reg: Registry, route: Route) { reg.Some? && route in reg.value }

  /** What processing a pending row leaves of it when the store answers. */
  predicate RowProcessed(cfg: M.Config, reg: Registry, r: Row, r': Row) {
    && r'.route == r.route
    && if reg.None? then r' == r
       else if r.route !in reg.value then r' == r.(attempts := r.attempts + 1)
       else
         || r' == r.(status := Sent)
         || r' == r.(attempts := r.attempts + 1,
                     status := if r.attempts + 1 >= cfg.maxAttempts then Dlq else Pending)
  }

  /** A pass over `ids`: these rows are processed, no other changes. */
  ghost predicate PassDone(cfg: M.Config, reg: Registry, t: Table, t': Table, ids: set<MessageId>) {
    && t'.Keys == t.Keys
    && (forall id :: id in t && id !in ids ==> t'[id] == t[id])
    && (forall id :: id in t && id in ids ==> RowProcessed(cfg, reg, t[id], t'[id]))
  }

  /** Pending rows whose channel the registry cannot resolve. */
  function Stuck(reg: Registry, t: Table): set<MessageId> {
    set id | id in t && t[id].status.Pending? && !Resolves(reg, t[id].route)
  }

  /** Send attempts a resolvable pending row has left: at least one, even past the limit. */
  function Credit(cfg: M.Config, reg: Registry, r: Row): nat {
    if r.status.Pending? && Resolves(reg, r.route) then Max(1, cfg.maxAttempts - r.attempts) else 0
  }

  /** All attempts left, one pair per row and attempt. */
  function Credits(cfg: M.Config, reg: Registry, t: Table): set<(MessageId, nat)> {
    set id, k: nat | id in t && k < Credit(cfg, reg, t[id]) :: (id, k)
  }

  /** What a finished drain did: finished rows kept, and each row still pending was attempted in
      this drain; if its channel resolves it is still below the attempt limit. */
  ghost predicate DrainDone(cfg: M.Config, reg: Registry, t: Table, t': Table) {
    && t'.Keys == t.Keys
    && forall id :: id in t ==>
      && t'[id].route == t[id].route
      && t[id].attempts <= t'[id].attempts
      && (!t[id].status.Pending? ==> t'[id] == t[id])
      && (t[id].status.Pending? && !Resolves(reg, t[id].route) ==> t'[id].status.Pending?)
      && (t'[id].status.Pending? && reg.Some? ==> t[id].attempts < t'[id].attempts)
      && (t'[id].status.Pending? && Resolves(reg, t[id].route) ==> t'[id].attempts < cfg.maxAttempts)
  }

  /** Rows only advance: what any number of passes keeps. */
  ghost predicate Advances(reg: Registry, t: Table, t': Table) {
    && t'.Keys == t.Keys
    && forall id :: id in t ==>
      && t'[id].route == t[id].route
      && t[id].attempts <= t'[id].attempts
      && (!t[id].status.Pending? ==> t'[id] == t[id])
      && (t[id].status.Pending? && !Resolves(reg, t[id].route) ==> t'[id].status.Pending?)
  }

  lemma AdvancesKeepsStuck(reg: Registry, t: Table, t': Table)
    requires Advances(reg, t, t')
    ensures Stuck(reg, t') == Stuck(reg, t)
  {
  }

  lemma PassAdvances(cfg: M.Config, reg: Registry, t: Table, t': Table, ids: set<MessageId>)
    requires PassDone(cfg, reg, t, t', ids) && ids <= PendingIds(t)
    ensures Advances(reg, t, t')
  {
    forall id | id in t && id in ids ensures RowProcessed(cfg, reg, t[id], t'[id]) {}
  }

  /** Each pass that reaches a resolvable row uses up an attempt. */
  lemma PassSpendsCredit(cfg: M.Config, reg: Registry, t: Table, t': Table, ids: set<MessageId>)
    requires PassDone(cfg, reg, t, t', ids) && ids <= PendingIds(t)
    requires !(ids <= Stuck(reg, t))
    ensures |Credits(cfg, reg, t')| < |Credits(cfg, reg, t)|
  {
    var before, after := Credits(cfg, reg, t), Credits(cfg, reg, t');
    forall id | id in t
      ensures Credit(cfg, reg, t'[id]) <= Credit(cfg, reg, t[id])
      ensures id in ids - Stuck(reg, t) ==> Credit(cfg, reg, t'[id]) < Credit(cfg, reg, t[id])
    {
      if id in ids { assert RowProcessed(cfg, reg, t[id], t'[id]); }
    }
    assert after <= before;
    var id :| id in ids && id !in Stuck(reg, t);
    assert (id, Credit(cfg, reg, t[id]) - 1) in before - after;
    SubsetCardinality(after, before);
  }

  /** A short claim covers all pending rows, so the pass after it finishes the drain. */
  lemma LastPassFinishes(cfg: M.Config, reg: Registry, t0: Table, t: Table, t': Table)
    requires Advances(reg, t0, t) && PassDone(cfg, reg, t, t', PendingIds(t))
    ensures DrainDone(cfg, reg, t0, t')
  {
    forall id | id in t && id in PendingIds(t) ensures RowProcessed(cfg, reg, t[id], t'[id]) {}
  }

  /** A chain of finished drains, each starting where the one before ended. */
  ghost predicate DrainChain(cfg: M.Config, reg: Registry, tables: seq<Table>) {
    forall i :: 0 < i < |tables| ==> DrainDone(cfg, reg, tables[i - 1], tables[i])
  }

  lemma {:induction false} ChainCountsAttempts(cfg: M.Config, reg: Registry, tables: seq<Table>)
    requires reg.Some? && |tables| > 0 && DrainChain(cfg, reg, tables)
    ensures var first, last := tables[0], tables[|tables| - 1];
      && Advances(reg, first, last)
      && (forall id :: id in PendingIds(last) ==> last[id].attempts >= |tables| - 1)
      && (forall id :: |tables| > 1 && id in PendingIds(last) && Resolves(reg, last[id].route) ==>
            last[id].attempts < cfg.maxAttempts)
  {
    if |tables| > 1 {
      var front := tables[..|tables| - 1];
      ChainCountsAttempts(cfg, reg, front);
      assert DrainDone(cfg, reg, tables[|tables| - 2], tables[|tables| - 1]);
    }
  }

  /** Convergence: maxAttempts finished drains leave pending exactly the rows whose channel the
      registry cannot resolve, however Send behaved and whatever attempts the rows started with. */
  lemma DrainsConverge(cfg: M.Config, reg: Registry, tables: seq<Table>)
    requires reg.Some? && cfg.maxAttempts > 0 && |tables| == cfg.maxAttempts + 1
    requires DrainChain(cfg, reg, tables)
    ensures PendingIds(tables[cfg.maxAttempts]) == Stuck(reg, tables[0])
  {
    ChainCountsAttempts(cfg, reg, tables);
    AdvancesKeepsStuck(reg, tables[0], tables[cfg.maxAttempts]);
  }

  /** The table after a counted send failure. */
  function AfterFailure(cfg: M.Config, t: Table, id: MessageId): Table
    requires id in t
  {
    if t[id].attempts + 1 >= cfg.maxAttempts then MarkDlq(MarkFailed(t, id), id) else MarkFailed(t, id)
  }

  lemma FailureIsProcessing(cfg: M.Config, reg: Registry, t: Table, id: MessageId)
    requires id in PendingIds(t) && Resolves(reg, t[id].route)
    ensures PassDone(cfg, reg, t, AfterFailure(cfg, t, id), {id})
  {
    var t' := AfterFailure(cfg, t, id);
    assert RowProcessed(cfg, reg, t[id], t'[id]);
  }

  lemma PassExtends(cfg: M.Config, reg: Registry, t: Table, mid: Table, t': Table, ids: seq<MessageId>, id: MessageId)
    requires id !in ids
    ensures PassDone(cfg, reg, t, mid, Elements(ids)) && PassDone(cfg, reg, mid, t', {id}) ==>
      PassDone(cfg, reg, t, t', Elements(ids + [id]))
  {
  }

  // ---- the relay ----

  datatype DrainResult = Returned | ClaimFailed | Cancelled

  class Relay {
    const outbox: OutboxRepo
    const cfg: M.Config
    var registry: Registry       // None: no registry configured
    ghost var run: seq<M.Event>  // every step taken on this table so far, by this relay or before it

    ghost predicate Valid()
      reads this, outbox
    {
      && cfg.batchSize > 0 && cfg.maxAttempts > 0
      && M.ValidRun(cfg, run)
      && M.Exec(cfg, run).table == outbox.rows
    }

    ghost function Queue(): seq<MessageId>
      reads this
    {
      M.Exec(cfg, run).pc.queue
    }

    /** The messages announced as dead so far. */
    ghost function Announced(): multiset<MessageId>
      reads this
    {
      M.Exec(cfg, run).published
    }

    /** At the head of a batch or between batches. */
    ghost predicate AtRest()
      reads this
    {
      M.Exec(cfg, run).pc.Batch?
    }

    /** Starts, or restarts after a crash, over a table that any earlier run has produced. */
    constructor (outbox: OutboxRepo, registry: Registry, batchSize: int, maxAttempts: int, bus: bool,
                 ghost past: seq<M.Event>)
      requires var cfg := Normalised(batchSize, maxAttempts, bus);
        && M.ValidRun(cfg, past) && M.Exec(cfg, past).table == outbox.rows
        && M.Exec(cfg, past).pc == M.Batch([])
      ensures Valid() && AtRest() && Queue() == []
      ensures this.outbox == outbox && this.registry == registry && run == past
      ensures cfg == Normalised(batchSize, maxAttempts, bus)
      ensures cfg.batchSize == if batchSize <= 0 then 32 else batchSize
      ensures cfg.maxAttempts == (if maxAttempts <= 0 then 5 else maxAttempts) && cfg.bus == bus
    {
      this.outbox := outbox;
      this.cfg := Normalised(batchSize, maxAttempts, bus);
      this.registry := registry;
      this.run := past;
    }

    ghost method Record(e: M.Event)
      requires M.ValidRun(cfg, run) && M.Enabled(cfg, M.Exec(cfg, run), e)
      modifies this`run
      ensures run == old(run) + [e] && M.ValidRun(cfg, run)
      ensures M.Exec(cfg, run) == M.Apply(cfg, M.Exec(cfg, old(run)), e)
    {
      ghost var longer := run + [e];
      assert longer[..|longer| - 1] == run;
      run := longer;
    }

    /** The provider's answer is arbitrary. */
    method Send(id: MessageId) returns (delivered: bool)
      requires Valid() && AtRest() && Queue() != [] && Queue()[0] == id
      modifies this`run
      ensures Valid() && run == old(run) + [if delivered then M.SendOk else M.SendErr]
      ensures M.Exec(cfg, run).pc ==
        if delivered then M.Accepted(id, old(Queue())[1..]) else M.Rejected(id, old(Queue())[1..])
    {
      delivered := *;
      if delivered { Record(M.SendOk); } else { Record(M.SendErr); }
    }

    /** One claimed message: look up its sender, send, record the outcome. */
    method Process(id: MessageId) returns (ghost step: M.Event)
      requires Valid() && AtRest() && Queue() != [] && Queue()[0] == id
      requires id in PendingIds(outbox.rows)
      modifies this`run, outbox`rows
      ensures Valid() && AtRest() && Queue() == old(Queue())[1..] && old(run) + [step] <= run
      // Whatever the store does: skipped without a registry, missed without a sender, and otherwise sent.
      ensures if registry.None? then step.Skip?
              else if old(outbox.rows)[id].route !in registry.value then step.Miss?
              else step.SendOk? || step.SendErr?
      ensures outbox.reliable ==> PassDone(cfg, registry, old(outbox.rows), outbox.rows, {id})
    {
      if registry.None? {
        step := M.Skip;
        Record(step);
        return;
      }
      if outbox.rows[id].route !in registry.value {
        var stored := outbox.MarkFailedRow(id);
        step := M.Miss(stored);
        Record(step);
        return;
      }
      var delivered := Send(id);
      step := if delivered then M.SendOk else M.SendErr;
      if !delivered {
        FailureIsProcessing(cfg, registry, outbox.rows, id);
        HandleSendError(id);
        return;
      }
      var stored := outbox.MarkSentRow(id);
      Record(M.SentMarked(stored));
    }

    /** Count the failure; at the limit move the message to the dead-letter queue and announce it. */
    method HandleSendError(id: MessageId)
      requires Valid() && M.Exec(cfg, run).pc.Rejected? && M.Exec(cfg, run).pc.id == id
      requires id in PendingIds(outbox.rows)
      requires registry.Some? && outbox.rows[id].route in registry.value
      modifies this`run, outbox`rows
      ensures Valid() && AtRest() && Queue() == old(Queue()) && old(run) <= run
      ensures outbox.reliable ==> outbox.rows == AfterFailure(cfg, old(outbox.rows), id)
      // Announced at most once, and with a store that answers exactly at the limit.
      ensures Announced() == old(Announced()) || Announced() == old(Announced()) + multiset{id}
      ensures outbox.reliable ==>
        (Announced() == old(Announced()) + multiset{id}
         <==> cfg.bus && old(outbox.rows[id].attempts) + 1 >= cfg.maxAttempts)
    {
      var counted := outbox.MarkFailedRow(id);
      Record(M.FailureMarked(counted));
      var readable, attempts := outbox.GetAttempts(id);
      Record(M.AttemptsRead(readable));
      if !readable { return; }
      if attempts >= cfg.maxAttempts {
        GiveUp(id);
      }
    }

    /** Dead-letter a message that reached the limit; a failed MarkDLQ is not announced. */
    method GiveUp(id: MessageId)
      requires Valid() && M.Exec(cfg, run).pc.Exhausted? && M.Exec(cfg, run).pc.id == id
      modifies this`run, outbox`rows
      ensures Valid() && AtRest() && Queue() == old(Queue()) && old(run) <= run
      ensures outbox.reliable ==> outbox.rows == MarkDlq(old(outbox.rows), id)
      ensures Announced() == old(Announced()) || Announced() == old(Announced()) + multiset{id}
      ensures outbox.reliable ==> (Announced() == old(Announced()) + multiset{id} <==> cfg.bus)
    {
      var stored := outbox.MarkDlqRow(id);
      Record(M.DlqMarked(stored));
      if stored && cfg.bus {
        Record(M.Announce);
      }
    }

    /** Process one claimed batch in order. */
    method ProcessBatch(ids: seq<MessageId>)
      requires Valid() && AtRest() && Queue() == ids && Distinct(ids)
      requires forall id :: id in ids ==> id in PendingIds(outbox.rows)
      modifies this`run, outbox`rows
      ensures Valid() && AtRest() && Queue() == [] && old(run) <= run
      ensures outbox.reliable ==> PassDone(cfg, registry, old(outbox.rows), outbox.rows, Elements(ids))
    {
      ghost var start := outbox.rows;
      for i := 0 to |ids|
        invariant Valid() && AtRest() && Queue() == ids[i..] && old(run) <= run
        invariant outbox.reliable ==> PassDone(cfg, registry, start, outbox.rows, Elements(ids[..i]))
      {
        ghost var before := outbox.rows;
        assert ids[i] in Queue();
        M.QueueStaysPending(cfg, run);
        ghost var _ := Process(ids[i]);
        PassExtends(cfg, registry, start, before, outbox.rows, ids[..i], ids[i]);
        SlicePlus(ids, i);
      }
      WholeSlice(ids);
    }

    /** One pass: claim a batch and process it. */
    method Pass() returns (ok: bool, ids: seq<MessageId>)
      requires Valid() && AtRest() && Queue() == []
      modifies this`run, outbox`rows
      ensures Valid() && AtRest() && Queue() == [] && old(run) <= run && (outbox.reliable ==> ok)
      ensures ok ==> Claimable(old(outbox.rows), cfg.batchSize, ids)
      ensures outbox.reliable ==> PassDone(cfg, registry, old(outbox.rows), outbox.rows, Elements(ids))
    {
      ok, ids := outbox.ClaimNext(cfg.batchSize);
      if !ok { return; }
      assert M.Exec(cfg, run).pc == M.Batch([]);
      Record(M.Claim(ids));
      ProcessBatch(ids);
    }

    /** Drain until a claim comes back short. The context is cancelled before pass number
        `passes`; a context that is never cancelled is the case of every larger `passes`. */
    method Drain(passes: nat) returns (res: DrainResult)
      requires Valid() && AtRest() && Queue() == []
      modifies this`run, outbox`rows
      ensures Valid() && AtRest() && Queue() == [] && old(run) <= run
      // With a store that answers: never done while a full batch of rows is stuck ...
      ensures outbox.reliable && |Stuck(registry, old(outbox.rows))| >= cfg.batchSize ==> res == Cancelled
      // ... and otherwise done after at most one pass per attempt left, and one more,
      ensures
        && outbox.reliable
        && |Stuck(registry, old(outbox.rows))| < cfg.batchSize
        && passes > |Credits(cfg, registry, old(outbox.rows))|
        ==> res == Returned
      ensures outbox.reliable ==> res != ClaimFailed && Advances(registry, old(outbox.rows), outbox.rows)
      // with all that a finished drain does.
      ensures outbox.reliable && res == Returned ==> DrainDone(cfg, registry, old(outbox.rows), outbox.rows)
    {
      ghost var start := outbox.rows;
      var done := 0;
      while true
        invariant 0 <= done <= passes
        invariant Valid() && AtRest() && Queue() == [] && old(run) <= run
        invariant outbox.reliable ==> Advances(registry, start, outbox.rows)
        invariant outbox.reliable && |Stuck(registry, start)| < cfg.batchSize ==>
          |Credits(cfg, registry, outbox.rows)| + done <= |Credits(cfg, registry, start)|
        decreases passes - done
      {
        if done == passes { return Cancelled; }
        done := done + 1;
        ghost var before := outbox.rows;
        var ok, ids := Pass();
        if !ok { return ClaimFailed; }
        if outbox.reliable { PassInDrain(cfg, registry, start, before, outbox.rows, ids); }
        if |ids| < cfg.batchSize { return Returned; }
      }
    }
  }

  function Normalised(batchSize: int, maxAttempts: int, bus: bool): M.Config {
    M.Config(if batchSize <= 0 then 32 else batchSize, if maxAttempts <= 0 then 5 else maxAttempts, bus)
  }

  /** What one pass of a drain that began at `t0` does: with a batch of stuck rows it is full; without,
      a full one spends attempts; and a short one finishes the drain. */
  lemma PassInDrain(cfg: M.Config, reg: Registry, t0: Table, t: Table, t': Table, ids: seq<MessageId>)
    requires cfg.maxAttempts > 0
    requires Advances(reg, t0, t) && Claimable(t, cfg.batchSize, ids) && PassDone(cfg, reg, t, t', Elements(ids))
    ensures Advances(reg, t0, t')
    ensures |Stuck(reg, t0)| >= cfg.batchSize ==> |ids| == cfg.batchSize
    ensures |Stuck(reg, t0)| < cfg.batchSize && |ids| == cfg.batchSize ==>
      |Credits(cfg, reg, t')| < |Credits(cfg, reg, t)|
    ensures |ids| < cfg.batchSize ==> DrainDone(cfg, reg, t0, t')
  {
    PassAdvances(cfg, reg, t, t', Elements(ids));
    StuckBoundsClaims(cfg, reg, t0, t, ids);
    if |ids| < cfg.batchSize {
      ShortClaimIsComplete(t, cfg.batchSize, ids);
      LastPassFinishes(cfg, reg, t0, t, t');
    } else if !(Elements(ids) <= Stuck(reg, t)) {
      PassSpendsCredit(cfg, reg, t, t', Elements(ids));
    }
  }

  /** A claim is full while a batch of rows is stuck, and reaches past the stuck rows when not. */
  lemma StuckBoundsClaims(cfg: M.Config, reg: Registry, t0: Table, t: Table, ids: seq<MessageId>)
    requires Advances(reg, t0, t) && Claimable(t, cfg.batchSize, ids)
    ensures |Stuck(reg, t0)| >= cfg.batchSize ==> |ids| == cfg.batchSize
    ensures |Stuck(reg, t0)| < cfg.batchSize && |ids| == cfg.batchSize ==>
      !(Elements(ids) <= Stuck(reg, t))
  {
    AdvancesKeepsStuck(reg, t0, t);
    SubsetCardinality(Stuck(reg, t), PendingIds(t));
    DistinctCardinality(ids);
    if Elements(ids) <= Stuck(reg, t) {
      SubsetCardinality(Elements(ids), Stuck(reg, t));
    }
  }
}

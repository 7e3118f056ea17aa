/** What the relay's two numbers mean, told from the arguments it is built with and from the events of
    a run. */
module RelayLimits {
  import opened Common
  import opened OutboxTable
  import opened Relay
  import M = RelayMachine

  /** The sends of a message that failed. */
  function Failures(cfg: M.Config, run: seq<M.Event>, id: MessageId): nat {
    if run == [] then 0
    else
      var front := run[..|run| - 1];
      Failures(cfg, front, id) + if IsNext(M.Exec(cfg, front), id) && run[|run| - 1].SendErr? then 1 else 0
  }

  /** The sends of a message that succeeded. */
  function Deliveries(cfg: M.Config, run: seq<M.Event>, id: MessageId): nat {
    if run == [] then 0
    else
      var front := run[..|run| - 1];
      Deliveries(cfg, front, id) + if IsNext(M.Exec(cfg, front), id) && run[|run| - 1].SendOk? then 1 else 0
  }

  /** The announcements of a message as dead. */
  function Announcements(cfg: M.Config, run: seq<M.Event>, id: MessageId): nat {
    if run == [] then 0
    else
      var front := run[..|run| - 1];
      Announcements(cfg, front, id)
      + if IsDead(M.Exec(cfg, front), id) && run[|run| - 1].Announce? then 1 else 0
  }

  /** The message is the next of the batch. */
  predicate IsNext(s: M.State, id: MessageId) { s.pc.Batch? && s.pc.queue != [] && s.pc.queue[0] == id }

  /** The message has just been dead-lettered. */
  predicate IsDead(s: M.State, id: MessageId) { s.pc.Announcing? && s.pc.id == id }

  lemma StepCounts(cfg: M.Config, s: M.State, e: M.Event, id: MessageId)
    requires M.Enabled(cfg, s, e)
    ensures var s' := M.Apply(cfg, s, e);
            && s'.losses[id] == s.losses[id] + (if IsNext(s, id) && e.SendErr? then 1 else 0)
            && s'.wins[id] == s.wins[id] + (if IsNext(s, id) && e.SendOk? then 1 else 0)
            && s'.published[id] == s.published[id] + (if IsDead(s, id) && e.Announce? then 1 else 0)
  {
    match e
    case SendOk =>
    case SendErr =>
    case Announce =>
    case _ =>
  }

  lemma {:induction false} CountsAreEvents(cfg: M.Config, run: seq<M.Event>, id: MessageId)
    requires M.ValidRun(cfg, run)
    ensures var s := M.Exec(cfg, run);
            && s.losses[id] == Failures(cfg, run, id)
            && s.wins[id] == Deliveries(cfg, run, id)
            && s.published[id] == Announcements(cfg, run, id)
  {
    if run != [] {
      var front := run[..|run| - 1];
      CountsAreEvents(cfg, front, id);
      StepCounts(cfg, M.Exec(cfg, front), run[|run| - 1], id);
    }
  }

  /** A relay built with `maxAttempts`, in a run without faults, between two messages: one that was never
      delivered and never missed the registry is dead-lettered exactly when maxAttempts of its sends have
      failed, five if none is given; it never fails more often. With a bus each dead letter is announced
      once, without one nothing is. */
  lemma DeadLetteredAtTheLimit(
    batchSize: int, maxAttempts: int, bus: bool, run: seq<M.Event>, id: MessageId, limit: nat)
    requires limit == if maxAttempts > 0 then maxAttempts else 5
    requires var cfg := Normalised(batchSize, maxAttempts, bus);
             var s := M.Exec(cfg, run);
             && M.ValidRun(cfg, run) && id in s.table && s.faults == 0 && s.pc.Batch?
             && s.misses[id] == 0 && Deliveries(cfg, run, id) == 0
    ensures var cfg := Normalised(batchSize, maxAttempts, bus);
            var status := M.Exec(cfg, run).table[id].status;
            && Failures(cfg, run, id) <= limit
            && (status.Dlq? <==> Failures(cfg, run, id) == limit)
            && (status.Pending? <==> Failures(cfg, run, id) < limit)
            && Announcements(cfg, run, id) == if status.Dlq? && bus then 1 else 0
  {
    var cfg := Normalised(batchSize, maxAttempts, bus);
    CountsAreEvents(cfg, run, id);
    M.ExactHistoryWithoutFaults(cfg, run, id);
  }

  /** A claim takes at most batchSize messages, 32 if none is given, and all of them if they are fewer. */
  lemma ClaimsAreBounded(
    batchSize: int, maxAttempts: int, bus: bool, run: seq<M.Event>, ids: seq<MessageId>, limit: nat)
    requires limit == if batchSize > 0 then batchSize else 32
    requires var cfg := Normalised(batchSize, maxAttempts, bus); M.Enabled(cfg, M.Exec(cfg, run), M.Claim(ids))
    ensures var pending := PendingIds(M.Exec(Normalised(batchSize, maxAttempts, bus), run).table);
            && |ids| <= limit && (|pending| >= limit ==> |ids| == limit)
            && (|pending| < limit ==> Elements(ids) == pending)
  {
    var t := M.Exec(Normalised(batchSize, maxAttempts, bus), run).table;
    if |PendingIds(t)| < limit { ShortClaimIsComplete(t, limit, ids); }
  }
}

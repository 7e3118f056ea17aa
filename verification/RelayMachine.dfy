/** The relay as a machine of single steps over the outbox table, with store faults and
    crashes between any two steps, and the bookkeeping (ghost in the program) needed to
    say what a row's status proves about what was sent. */
module RelayMachine {
  import opened Common
  import opened OutboxTable

  datatype Config = Config(batchSize: nat, maxAttempts: nat, bus: bool)

  /** Where the relay stands inside a pass; `queue` holds the claimed rows still to process. */
  datatype Pc =
    | Batch(queue: seq<MessageId>)
    | Accepted(id: MessageId, queue: seq<MessageId>)    // Send succeeded, MarkSent is next
    | Rejected(id: MessageId, queue: seq<MessageId>)    // Send failed, MarkFailed is next
    | Counted(id: MessageId, queue: seq<MessageId>)     // MarkFailed done, GetAttempts is next
    | Exhausted(id: MessageId, queue: seq<MessageId>)   // attempts reached the limit, MarkDLQ is next
    | Announcing(id: MessageId, queue: seq<MessageId>)  // in the DLQ, PublishDLQ is next

  /** `wins`, `losses`, `misses` and `published` count, per message, successful sends, failed
      sends, failed registry lookups and DLQ publications; `faults` counts crashes and store errors. */
  datatype State = State(
    table: Table, pc: Pc,
    wins: multiset<MessageId>, losses: multiset<MessageId>,
    misses: multiset<MessageId>, published: multiset<MessageId>,
    faults: nat)

  datatype Event =
    | Enqueue(id: MessageId, route: Route)
    | Claim(ids: seq<MessageId>)
    | Skip                          // no registry configured
    | Miss(stored: bool)            // registry lookup failed; MarkFailed
    | SendOk
    | SendErr
    | SentMarked(stored: bool)
    | FailureMarked(stored: bool)
    | AttemptsRead(readable: bool)
    | DlqMarked(stored: bool)
    | Announce
    | Crash

  const START := State(map[], Batch([]), multiset{}, multiset{}, multiset{}, multiset{}, 0)

  predicate Enabled(cfg: Config, s: State, e: Event) {
    match e
    case Enqueue(id, _) => id !in s.table
    case Claim(ids) => s.pc == Batch([]) && Claimable(s.table, cfg.batchSize, ids)
    case Skip => s.pc.Batch? && s.pc.queue != []
    case Miss(_) => s.pc.Batch? && s.pc.queue != []
    case SendOk => s.pc.Batch? && s.pc.queue != []
    case SendErr => s.pc.Batch? && s.pc.queue != []
    case SentMarked(_) => s.pc.Accepted?
    case FailureMarked(_) => s.pc.Rejected?
    case AttemptsRead(readable) => s.pc.Counted? && (readable ==> s.pc.id in s.table)
    case DlqMarked(_) => s.pc.Exhausted?
    case Announce => s.pc.Announcing?
    case Crash => true
  }

  function Faulted(s: State, stored: bool): State {
    if stored then s else s.(faults := s.faults + 1)
  }

  /** One step; a step that is not enabled changes nothing. */
  function Apply(cfg: Config, s: State, e: Event): State {
    if !Enabled(cfg, s, e) then s else
    match e
    case Enqueue(id, route) => s.(table := s.table[id := Row(route, 0, Pending)])
    case Claim(ids) => s.(pc := Batch(ids))
    case Skip => s.(pc := Batch(s.pc.queue[1..]))
    case Miss(stored) =>
      var id := s.pc.queue[0];
      Faulted(s, stored).(
        table := if stored then MarkFailed(s.table, id) else s.table,
        misses := s.misses + multiset{id},
        pc := Batch(s.pc.queue[1..]))
    case SendOk =>
      var id := s.pc.queue[0];
      s.(wins := s.wins + multiset{id}, pc := Accepted(id, s.pc.queue[1..]))
    case SendErr =>
      var id := s.pc.queue[0];
      s.(losses := s.losses + multiset{id}, pc := Rejected(id, s.pc.queue[1..]))
    case SentMarked(stored) =>
      Faulted(s, stored).(
        table := if stored then MarkSent(s.table, s.pc.id) else s.table,
        pc := Batch(s.pc.queue))
    case FailureMarked(stored) =>
      // A failed MarkFailed is only logged: the attempts are read all the same.
      Faulted(s, stored).(
        table := if stored then MarkFailed(s.table, s.pc.id) else s.table,
        pc := Counted(s.pc.id, s.pc.queue))
    case AttemptsRead(readable) =>
      Faulted(s, readable).(
        pc := if readable && s.table[s.pc.id].attempts >= cfg.maxAttempts
              then Exhausted(s.pc.id, s.pc.queue) else Batch(s.pc.queue))
    case DlqMarked(stored) =>
      Faulted(s, stored).(
        table := if stored then MarkDlq(s.table, s.pc.id) else s.table,
        pc := if stored && cfg.bus then Announcing(s.pc.id, s.pc.queue) else Batch(s.pc.queue))
    case Announce =>
      s.(published := s.published + multiset{s.pc.id}, pc := Batch(s.pc.queue))
    case Crash => s.(pc := Batch([]), faults := s.faults + 1)
  }

  /** A run from the empty table: every event enabled where it happens. */
  predicate ValidRun(cfg: Config, run: seq<Event>) {
    run == [] ||
    (ValidRun(cfg, run[..|run| - 1])
     && Enabled(cfg, Exec(cfg, run[..|run| - 1]), run[|run| - 1]))
  }

  function Exec(cfg: Config, run: seq<Event>): State {
    if run == [] then START
    else Apply(cfg, Exec(cfg, run[..|run| - 1]), run[|run| - 1])
  }

  // ---- the invariant ----

  /** The row a step in progress is about, if any. */
  function Current(pc: Pc): set<MessageId> { if pc.Batch? then {} else {pc.id} }

  ghost predicate QueueInv(s: State) {
    && Distinct(s.pc.queue)
    && (forall id :: id in s.pc.queue ==> id in PendingIds(s.table) && id !in Current(s.pc))
    && (!s.pc.Batch? ==>
          && s.pc.id in s.table
          && if s.pc.Announcing? then s.table[s.pc.id].status.Dlq? else s.table[s.pc.id].status.Pending?)
  }

  /** Where the step in progress stands with respect to one row. */
  datatype Phase = Away | OnAccepted | OnRejected | OnCounted | OnExhausted | OnAnnouncing

  function PhaseOf(pc: Pc, id: MessageId): Phase {
    if pc.Batch? || pc.id != id then Away else
    match pc
    case Accepted(_, _) => OnAccepted
    case Rejected(_, _) => OnRejected
    case Counted(_, _) => OnCounted
    case Exhausted(_, _) => OnExhausted
    case Announcing(_, _) => OnAnnouncing
    case Batch(_) => Away
  }

  /** One row, its history and the faults so far; a row not yet there is pending, unattempted. */
  datatype View = View(status: Status, attempts: nat, phase: Phase,
                       wins: nat, losses: nat, misses: nat, published: nat, faults: nat)

  function ViewOf(s: State, id: MessageId): View {
    var row := if id in s.table then s.table[id] else Row(0, 0, Pending);
    View(row.status, row.attempts, PhaseOf(s.pc, id),
         s.wins[id], s.losses[id], s.misses[id], s.published[id], s.faults)
  }

  /** What holds of one row, whatever faults happened. */
  ghost predicate RowInv(cfg: Config, v: View) {
    var counting := if v.phase.OnRejected? then 1 else 0;
    && v.attempts + counting <= v.losses + v.misses <= v.attempts + counting + v.faults
    && (v.status.Sent? ==> 1 <= v.wins <= 1 + v.faults)
    && (!v.status.Sent? ==> v.wins <= v.faults + if v.phase.OnAccepted? then 1 else 0)
    && (v.status.Dlq? ==> v.losses >= 1 && v.attempts >= cfg.maxAttempts)
    && (v.phase.OnAccepted? ==> v.wins >= 1)
    && (!v.phase.Away? && !v.phase.OnAccepted? ==> v.losses >= 1)
    && (v.phase.OnExhausted? ==> v.attempts >= cfg.maxAttempts)
    && v.published <= (if v.status.Dlq? && !v.phase.OnAnnouncing? then 1 else 0)
    && (v.faults == 0 && v.misses == 0 ==> ExactRow(cfg, v))
  }

  /** Without faults and registry misses the history is exact. */
  ghost predicate ExactRow(cfg: Config, v: View) {
    match v.status
    case Sent => v.attempts < cfg.maxAttempts
    case Dlq =>
      v.attempts == cfg.maxAttempts
      && (cfg.bus && !v.phase.OnAnnouncing? ==> v.published == 1)
    case Pending =>
      if v.phase.OnCounted? || v.phase.OnExhausted? then v.attempts <= cfg.maxAttempts
      else v.attempts < cfg.maxAttempts
  }

  ghost predicate Inv(cfg: Config, s: State) {
    QueueInv(s) && forall id :: RowInv(cfg, ViewOf(s, id))
  }

  lemma StepKeepsQueue(cfg: Config, s: State, e: Event)
    requires QueueInv(s)
    ensures QueueInv(Apply(cfg, s, e))
  {
    if Enabled(cfg, s, e) {
      if s.pc.Batch? { BatchStepKeepsQueue(cfg, s, e); } else { InnerStepKeepsQueue(cfg, s, e); }
    }
  }

  lemma BatchStepKeepsQueue(cfg: Config, s: State, e: Event)
    requires QueueInv(s) && Enabled(cfg, s, e) && s.pc.Batch?
    ensures QueueInv(Apply(cfg, s, e))
  {
    if s.pc.queue != [] {
      assert s.pc.queue[0] in s.pc.queue;
      assert forall id :: id in s.pc.queue[1..] ==> id in s.pc.queue && id != s.pc.queue[0];
    }
  }

  lemma InnerStepKeepsQueue(cfg: Config, s: State, e: Event)
    requires QueueInv(s) && Enabled(cfg, s, e) && !s.pc.Batch?
    ensures QueueInv(Apply(cfg, s, e))
  {
    match e
    case SentMarked(stored) =>
    case FailureMarked(stored) =>
    case AttemptsRead(readable) =>
    case DlqMarked(stored) =>
    case _ =>
  }

  /** What one step does to one row: a fault elsewhere, or one of the row's own moves. */
  ghost predicate RowMove(cfg: Config, v: View, v': View) {
    || v' == v
    || v' == v.(faults := v.faults + 1)
    || v' == v.(faults := v.faults + 1, phase := Away)
    || (v.phase.Away? && v.status.Pending? &&
        (|| v' == v.(misses := v.misses + 1, attempts := v.attempts + 1)
         || v' == v.(misses := v.misses + 1, faults := v.faults + 1)
         || v' == v.(wins := v.wins + 1, phase := OnAccepted)
         || v' == v.(losses := v.losses + 1, phase := OnRejected)))
    || (v.phase.OnAccepted? && v.status.Pending? && v' == v.(status := Sent, phase := Away))
    || (v.phase.OnRejected? && v.status.Pending? &&
        (|| v' == v.(attempts := v.attempts + 1, phase := OnCounted)
         || v' == v.(faults := v.faults + 1, phase := OnCounted)))
    || (v.phase.OnCounted? && v.status.Pending? &&
        v' == v.(phase := if v.attempts >= cfg.maxAttempts then OnExhausted else Away))
    || (v.phase.OnExhausted? && v.status.Pending? &&
        v' == v.(status := Dlq, phase := if cfg.bus then OnAnnouncing else Away))
    || (v.phase.OnAnnouncing? && v.status.Dlq? && v' == v.(published := v.published + 1, phase := Away))
  }

  lemma StepMovesRow(cfg: Config, s: State, e: Event, id: MessageId)
    requires QueueInv(s)
    ensures RowMove(cfg, ViewOf(s, id), ViewOf(Apply(cfg, s, e), id))
  {
    if Enabled(cfg, s, e) {
      if s.pc.Batch? { BatchStepMovesRow(cfg, s, e, id); } else { InnerStepMovesRow(cfg, s, e, id); }
    }
  }

  lemma BatchStepMovesRow(cfg: Config, s: State, e: Event, id: MessageId)
    requires QueueInv(s) && Enabled(cfg, s, e) && s.pc.Batch?
    ensures RowMove(cfg, ViewOf(s, id), ViewOf(Apply(cfg, s, e), id))
  {
    if e.Miss? || e.SendOk? || e.SendErr? { HeadMovesRow(cfg, s, e, id); }
  }

  lemma HeadMovesRow(cfg: Config, s: State, e: Event, id: MessageId)
    requires QueueInv(s) && Enabled(cfg, s, e) && (e.Miss? || e.SendOk? || e.SendErr?)
    ensures RowMove(cfg, ViewOf(s, id), ViewOf(Apply(cfg, s, e), id))
  {
    assert s.pc.queue[0] in s.pc.queue;
    match e
    case Miss(stored) =>
    case SendOk =>
    case SendErr =>
  }

  lemma InnerStepMovesRow(cfg: Config, s: State, e: Event, id: MessageId)
    requires QueueInv(s) && Enabled(cfg, s, e) && !s.pc.Batch?
    ensures RowMove(cfg, ViewOf(s, id), ViewOf(Apply(cfg, s, e), id))
  {
    if s.pc.Accepted? || s.pc.Rejected? { AnswerMovesRow(cfg, s, e, id); } else { FailureMovesRow(cfg, s, e, id); }
  }

  lemma AnswerMovesRow(cfg: Config, s: State, e: Event, id: MessageId)
    requires QueueInv(s) && Enabled(cfg, s, e) && (s.pc.Accepted? || s.pc.Rejected?)
    ensures RowMove(cfg, ViewOf(s, id), ViewOf(Apply(cfg, s, e), id))
  {
    match e
    case SentMarked(stored) =>
    case FailureMarked(stored) =>
    case _ =>
  }

  lemma FailureMovesRow(cfg: Config, s: State, e: Event, id: MessageId)
    requires QueueInv(s) && Enabled(cfg, s, e) && (s.pc.Counted? || s.pc.Exhausted? || s.pc.Announcing?)
    ensures RowMove(cfg, ViewOf(s, id), ViewOf(Apply(cfg, s, e), id))
  {
    match e
    case AttemptsRead(readable) =>
    case DlqMarked(stored) =>
    case Announce =>
    case _ =>
  }

  lemma MoveKeepsRow(cfg: Config, v: View, v': View)
    requires cfg.maxAttempts > 0 && RowInv(cfg, v) && RowMove(cfg, v, v')
    ensures RowInv(cfg, v')
  {
  }

  lemma {:induction false} InvOverRuns(cfg: Config, run: seq<Event>)
    requires cfg.maxAttempts > 0 && ValidRun(cfg, run)
    ensures Inv(cfg, Exec(cfg, run))
  {
    if run != [] {
      var front, e := run[..|run| - 1], run[|run| - 1];
      InvOverRuns(cfg, front);
      StepKeepsQueue(cfg, Exec(cfg, front), e);
      forall id ensures RowInv(cfg, ViewOf(Exec(cfg, run), id)) {
        StepMovesRow(cfg, Exec(cfg, front), e, id);
        MoveKeepsRow(cfg, ViewOf(Exec(cfg, front), id), ViewOf(Exec(cfg, run), id));
      }
    }
  }

  lemma QueueStaysPending(cfg: Config, run: seq<Event>)
    requires cfg.maxAttempts > 0 && ValidRun(cfg, run)
    ensures forall id :: id in Exec(cfg, run).pc.queue ==> id in PendingIds(Exec(cfg, run).table)
  {
    InvOverRuns(cfg, run);
  }

  // ---- the main results ----

  /** Over every run, with faults and crashes anywhere: what `sent` and `dlq` prove, and how
      many deliveries a fault can cost. */
  lemma StatusTellsTheTruth(cfg: Config, run: seq<Event>, id: MessageId)
    requires cfg.maxAttempts > 0 && ValidRun(cfg, run) && id in Exec(cfg, run).table
    ensures var s := Exec(cfg, run);
      && (s.table[id].status.Sent? ==> s.wins[id] >= 1)
      && s.wins[id] <= 1 + s.faults
      && (s.table[id].status.Dlq? ==>
            && s.losses[id] >= 1
            && s.losses[id] + s.misses[id] >= cfg.maxAttempts
            && s.wins[id] <= s.faults)
      && s.published[id] <= (if s.table[id].status.Dlq? then 1 else 0)
  {
    InvOverRuns(cfg, run);
    assert RowInv(cfg, ViewOf(Exec(cfg, run), id));
  }

  /** Between two passes of a run without faults, a row that never missed the registry has an
      exact history: one success after fewer than maxAttempts failures, or maxAttempts failures
      and one publication, or no success yet. */
  lemma ExactHistoryWithoutFaults(cfg: Config, run: seq<Event>, id: MessageId)
    requires cfg.maxAttempts > 0 && ValidRun(cfg, run) && id in Exec(cfg, run).table
    requires var s := Exec(cfg, run); s.faults == 0 && s.pc.Batch? && s.misses[id] == 0
    ensures var s := Exec(cfg, run);
      match s.table[id].status
      case Sent => s.wins[id] == 1 && s.losses[id] < cfg.maxAttempts && s.published[id] == 0
      case Dlq => s.wins[id] == 0 && s.losses[id] == cfg.maxAttempts
                  && s.published[id] == (if cfg.bus then 1 else 0)
      case Pending => s.wins[id] == 0 && s.losses[id] < cfg.maxAttempts && s.published[id] == 0
  {
    InvOverRuns(cfg, run);
    assert RowInv(cfg, ViewOf(Exec(cfg, run), id));
    if !cfg.bus { NoBusNoPublication(cfg, run); }
  }

  lemma {:induction false} NoBusNoPublication(cfg: Config, run: seq<Event>)
    requires !cfg.bus && ValidRun(cfg, run)
    ensures !Exec(cfg, run).pc.Announcing? && Exec(cfg, run).published == multiset{}
  {
    if run != [] { NoBusNoPublication(cfg, run[..|run| - 1]); }
  }

  lemma StepMovesForward(cfg: Config, s: State, e: Event, id: MessageId)
    requires id in s.table
    ensures var s' := Apply(cfg, s, e);
      && id in s'.table && s'.table[id].route == s.table[id].route
      && s.table[id].attempts <= s'.table[id].attempts
      && (!s.table[id].status.Pending? ==> s'.table[id] == s.table[id])
  {
    match e
    case Enqueue(_, _) =>
    case Claim(ids) =>
    case Skip =>
    case Miss(stored) =>
    case SendOk =>
    case SendErr =>
    case SentMarked(stored) =>
    case FailureMarked(stored) =>
    case AttemptsRead(readable) =>
    case DlqMarked(stored) =>
    case Announce =>
    case Crash =>
  }

  /** No row is ever lost, `sent` and `dlq` are absorbing, and attempts never go down:
      between any two moments of any run, crashes included. */
  lemma {:induction false} RowsOnlyMoveForward(cfg: Config, run: seq<Event>, n: nat, id: MessageId)
    requires n <= |run| && id in Exec(cfg, run[..n]).table
    ensures id in Exec(cfg, run).table
    ensures var r, r' := Exec(cfg, run[..n]).table[id], Exec(cfg, run).table[id];
      r'.route == r.route && r.attempts <= r'.attempts && (!r.status.Pending? ==> r' == r)
  {
    if n == |run| {
      assert run[..n] == run;
    } else {
      var front := run[..|run| - 1];
      assert front[..n] == run[..n];
      RowsOnlyMoveForward(cfg, front, n, id);
      StepMovesForward(cfg, Exec(cfg, front), run[|run| - 1], id);
    }
  }
}

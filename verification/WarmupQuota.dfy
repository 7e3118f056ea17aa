/** The warm-up of a new account: a daily quota that grows over ten days, and a lock for unknown
    contacts. Instants are whole nanoseconds since the epoch of the calendar. */
module WarmupQuota {
  import opened Common

  const DAY := 24 * 60 * 60 * 1_000_000_000

  const QUOTA: seq<nat> := [0, 0, 0, 0, 10, 30, 50, 80, 100, 100]

  const STEADY := 200

  /** Division that truncates toward zero. */
  function TruncDiv(a: int, b: int): int
    requires b > 0
  {
    if a >= 0 then a / b else -((-a) / b)
  }

  function Quota(start: int, now: int): nat {
    var d := TruncDiv(now - start, DAY);
    if d < 0 then 0 else if d >= |QUOTA| then STEADY else QUOTA[d]
  }

  /** The UTC day of an instant. */
  function Today(now: int): int { now / DAY }

  datatype State = State(daySent: int, dayAnchor: int, timelock: int)

  function Rolled(s: State, now: int): State {
    if s.dayAnchor != Today(now) then s.(dayAnchor := Today(now), daySent := 0) else s
  }

  predicate Locked(s: State, now: int, unknown: bool) { unknown && now < s.timelock }

  predicate Accepts(s: State, start: int, now: int, unknown: bool) {
    !Locked(s, now, unknown) && Rolled(s, now).daySent < Quota(start, now)
  }

  function Asked(s: State, now: int, unknown: bool): State {
    if Locked(s, now, unknown) then s else Rolled(s, now)
  }

  function Recorded(s: State, now: int): State {
    var s' := Rolled(s, now);
    s'.(daySent := s'.daySent + 1)
  }

  function TimeLocked(s: State, now: int): State { s.(timelock := Max(s.timelock, now + DAY)) }

  class Warmup {
    const start: int
    var daySent: int
    var dayAnchor: int
    var timelock: int

    constructor (now: int)
      ensures start == now && Now() == State(0, Today(now), 0)
    {
      start, daySent, dayAnchor, timelock := now, 0, Today(now), 0;
    }

    function Now(): State
      reads this
    {
      State(daySent, dayAnchor, timelock)
    }

    method RollDay(now: int)
      modifies this
      ensures Now() == Rolled(old(Now()), now)
    {
      var today := Today(now);
      if dayAnchor != today { dayAnchor, daySent := today, 0; }
    }

    method AllowSend(now: int, unknownContact: bool) returns (ok: bool, reason: string)
      modifies this
      ensures Now() == Asked(old(Now()), now, unknownContact)
      ensures ok == Accepts(old(Now()), start, now, unknownContact)
      ensures reason == if ok then "" else if Locked(old(Now()), now, unknownContact) then "timelock" else "quota"
    {
      if unknownContact && now < timelock { return false, "timelock"; }
      RollDay(now);
      var q := Quota(start, now);
      if daySent >= q { return false, "quota"; }
      return true, "";
    }

    method RecordSent(now: int)
      modifies this
      ensures Now() == Recorded(old(Now()), now)
    {
      RollDay(now);
      daySent := daySent + 1;
    }

    method TriggerTimelock(now: int)
      modifies this
      ensures Now() == TimeLocked(old(Now()), now)
      ensures timelock >= old(timelock) && timelock >= now + DAY
    {
      var until := now + DAY;
      if until > timelock { timelock := until; }
    }
  }

  // ---- runs ----

  /** A sender asks, and, if it was allowed, sends and records it at some later time; or a lock. */
  datatype Op = Ask(now: int, unknown: bool) | Record(now: int) | Lock(now: int)

  function Step(s: State, op: Op): State {
    match op
    case Ask(now, unknown) => Asked(s, now, unknown)
    case Record(now) => Recorded(s, now)
    case Lock(now) => TimeLocked(s, now)
  }

  function Run(start: int, ops: seq<Op>): State {
    if ops == [] then State(0, Today(start), 0)
    else Step(Run(start, ops[..|ops| - 1]), ops[|ops| - 1])
  }

  predicate Accepted(start: int, ops: seq<Op>, i: nat)
    requires i < |ops|
  {
    ops[i].Ask? && Accepts(Run(start, ops[..i]), start, ops[i].now, ops[i].unknown)
  }

  /** The accepted asks whose send is not recorded yet. */
  function Outstanding(start: int, ops: seq<Op>): int {
    if ops == [] then 0
    else
      Outstanding(start, ops[..|ops| - 1])
      + if Accepted(start, ops, |ops| - 1) then 1 else if ops[|ops| - 1].Record? then -1 else 0
  }

  /** Each send has been allowed, and at most `k` allowed ones are outstanding at any time. */
  predicate AtMost(start: int, ops: seq<Op>, k: nat) {
    forall n :: 0 <= n <= |ops| ==> 0 <= Outstanding(start, ops[..n]) <= k
  }

  predicate ClockRuns(start: int, ops: seq<Op>) {
    && (forall i :: 0 <= i < |ops| ==> start <= ops[i].now)
    && forall i, j :: 0 <= i < j < |ops| ==> ops[i].now <= ops[j].now
  }

  /** The sends of a day. */
  function SentOn(ops: seq<Op>, day: int): nat {
    if ops == [] then 0
    else
      var op := ops[|ops| - 1];
      SentOn(ops[..|ops| - 1], day) + if op.Record? && Today(op.now) == day then 1 else 0
  }

  /** The instant of the day's last send. */
  function LastSend(start: int, ops: seq<Op>, day: int): int {
    if ops == [] then start
    else
      var op := ops[|ops| - 1];
      if op.Record? && Today(op.now) == day then op.now else LastSend(start, ops[..|ops| - 1], day)
  }

  function LastTime(start: int, ops: seq<Op>): int { if ops == [] then start else ops[|ops| - 1].now }

  lemma SameDayOrLater(a: int, b: int)
    requires a <= b
    ensures Today(a) <= Today(b)
  {
  }

  lemma QuotaGrows(start: int, a: int, b: int)
    requires start <= a <= b
    ensures Quota(start, a) <= Quota(start, b) <= STEADY
  {
    assert (a - start) / DAY <= (b - start) / DAY;
    assert forall i, j :: 0 <= i <= j < |QUOTA| ==> QUOTA[i] <= QUOTA[j] <= STEADY;
  }

  /** The counter counts the sends of the anchored day, and nothing was sent on a later day. */
  lemma {:induction false} CounterCounts(start: int, ops: seq<Op>, day: int)
    requires ClockRuns(start, ops)
    ensures Run(start, ops).daySent == SentOn(ops, Run(start, ops).dayAnchor)
    ensures day > Run(start, ops).dayAnchor ==> SentOn(ops, day) == 0
    ensures Run(start, ops).dayAnchor <= Today(LastTime(start, ops))
  {
    if ops != [] {
      var front, op := ops[..|ops| - 1], ops[|ops| - 1];
      CounterCounts(start, front, day);
      CounterCounts(start, front, Today(op.now));
      SameDayOrLater(LastTime(start, front), op.now);
    }
  }

  /** While sends are outstanding, they and the counted ones stay below the quota plus k - 1: an ask
      accepted under the quota leaves room for the k - 1 others. */
  predicate HasRoom(s: State, out: int, quota: int, k: nat) {
    0 <= out <= k && (out > 0 ==> s.daySent + out <= quota + k - 1 && quota > 0)
  }

  function Change(s: State, start: int, op: Op): int {
    if op.Ask? && Accepts(s, start, op.now, op.unknown) then 1 else if op.Record? then -1 else 0
  }

  lemma StepKeepsRoom(s: State, start: int, op: Op, out: int, quota: int, k: nat)
    requires HasRoom(s, out, quota, k) && quota <= Quota(start, op.now) && s.daySent >= 0
    requires 0 <= out + Change(s, start, op) <= k
    ensures HasRoom(Step(s, op), out + Change(s, start, op), Quota(start, op.now), k)
  {
  }

  lemma {:induction false} OutstandingIsBounded(start: int, ops: seq<Op>, k: nat)
    requires ClockRuns(start, ops) && AtMost(start, ops, k)
    ensures HasRoom(Run(start, ops), Outstanding(start, ops), Quota(start, LastTime(start, ops)), k)
  {
    AtMostNow(start, ops, k);
    if ops != [] {
      var front, op := ops[..|ops| - 1], ops[|ops| - 1];
      AtMostBefore(start, ops, k);
      OutstandingIsBounded(start, front, k);
      CounterIsNatural(start, front);
      QuotaGrows(start, LastTime(start, front), op.now);
      StepKeepsRoom(Run(start, front), start, op, Outstanding(start, front), Quota(start, LastTime(start, front)), k);
    }
  }

  lemma AtMostNow(start: int, ops: seq<Op>, k: nat)
    requires AtMost(start, ops, k)
    ensures 0 <= Outstanding(start, ops) <= k
    ensures ops != [] ==>
              var front, op := ops[..|ops| - 1], ops[|ops| - 1];
              Outstanding(start, ops) == Outstanding(start, front) + Change(Run(start, front), start, op)
  {
    WholeSlice(ops);
  }

  lemma AtMostBefore(start: int, ops: seq<Op>, k: nat)
    requires AtMost(start, ops, k) && ops != []
    ensures AtMost(start, ops[..|ops| - 1], k)
  {
    var front := ops[..|ops| - 1];
    forall n | 0 <= n <= |front| ensures 0 <= Outstanding(start, front[..n]) <= k {
      assert front[..n] == ops[..n];
    }
  }

  /** On no UTC day are more messages sent than the quota at that day's last send plus k - 1, when at
      most k allowed sends are outstanding at any time; so with one sender at a time never more than
      the quota, also when it steps up during the day. */
  lemma {:induction false} DaysKeepTheQuota(start: int, ops: seq<Op>, k: nat, day: int)
    requires ClockRuns(start, ops) && AtMost(start, ops, k)
    ensures SentOn(ops, day) > 0 ==> SentOn(ops, day) <= Quota(start, LastSend(start, ops, day)) + k - 1
    ensures SentOn(ops, day) > 0 ==> SentOn(ops, day) <= STEADY + k - 1
  {
    if ops != [] {
      var front, op := ops[..|ops| - 1], ops[|ops| - 1];
      AtMostBefore(start, ops, k);
      DaysKeepTheQuota(start, front, k, day);
      if op.Record? && Today(op.now) == day {
        SendKeepsTheQuota(start, ops, k);
        QuotaGrows(start, op.now, op.now);
      }
    }
  }

  lemma SendKeepsTheQuota(start: int, ops: seq<Op>, k: nat)
    requires ClockRuns(start, ops) && AtMost(start, ops, k) && ops != [] && ops[|ops| - 1].Record?
    ensures var now := ops[|ops| - 1].now; SentOn(ops, Today(now)) <= Quota(start, now) + k - 1
  {
    var front, op := ops[..|ops| - 1], ops[|ops| - 1];
    assert ops == front + [op];
    AtMostBefore(start, ops, k);
    OutstandingIsBounded(start, front, k);
    QuotaGrows(start, LastTime(start, front), op.now);
    WasOutstanding(start, ops, k);
    OneMoreSent(start, front, op);
    SendHasRoom(Run(start, front), Outstanding(start, front), Quota(start, LastTime(start, front)), k);
  }

  lemma WasOutstanding(start: int, ops: seq<Op>, k: nat)
    requires AtMost(start, ops, k) && ops != [] && ops[|ops| - 1].Record?
    ensures Outstanding(start, ops[..|ops| - 1]) > 0
  {
    WholeSlice(ops);
  }

  lemma SendHasRoom(s: State, out: int, quota: int, k: nat)
    requires HasRoom(s, out, quota, k) && out > 0
    ensures Max(s.daySent, 0) + 1 <= quota + k - 1
  {
  }

  lemma OneMoreSent(start: int, front: seq<Op>, op: Op)
    requires ClockRuns(start, front + [op]) && op.Record?
    ensures SentOn(front + [op], Today(op.now)) <= Max(Run(start, front).daySent, 0) + 1
  {
    var ops := front + [op];
    assert ops[..|ops| - 1] == front;
    assert forall i :: 0 <= i < |front| ==> ops[i] == front[i];
    assert ops[|front|] == op;
    CounterCounts(start, front, Today(op.now));
    SameDayOrLater(LastTime(start, front), op.now);
  }

  function RecordedTimes(s: State, now: int, k: nat): State {
    if k == 0 then s else Recorded(RecordedTimes(s, now, k - 1), now)
  }

  /** The bound is reached: at one send below the quota an ask is accepted and changes nothing, so k
      senders may all ask before one of them records. */
  lemma {:induction false} BoundIsReached(s: State, start: int, now: int, k: nat)
    requires s.dayAnchor == Today(now) && s.daySent == Quota(start, now) - 1
    ensures Accepts(s, start, now, false) && Asked(s, now, false) == s
    ensures RecordedTimes(s, now, k).daySent == Quota(start, now) + k - 1
    ensures RecordedTimes(s, now, k).dayAnchor == Today(now)
  {
    if k > 0 { BoundIsReached(s, start, now, k - 1); }
  }

  // ---- the first days, and the lock ----

  lemma {:induction false} CounterIsNatural(start: int, ops: seq<Op>)
    ensures Run(start, ops).daySent >= 0
  {
    if ops != [] { CounterIsNatural(start, ops[..|ops| - 1]); }
  }

  /** Nothing is allowed in the first 96 hours, whatever the clock does. */
  lemma NothingInFourDays(start: int, ops: seq<Op>, i: nat)
    requires i < |ops| && Accepted(start, ops, i)
    ensures ops[i].now >= start + 4 * DAY
  {
    CounterIsNatural(start, ops[..i]);
    QuotaStartsOnDayFour(start, ops[i].now);
  }

  /** ... nor sent, with a clock that does not go back. */
  lemma NothingSentInFourDays(start: int, ops: seq<Op>, k: nat, i: nat)
    requires ClockRuns(start, ops) && AtMost(start, ops, k) && i < |ops| && ops[i].Record?
    ensures ops[i].now >= start + 4 * DAY
  {
    var front := ops[..i];
    assert ops[..i + 1][..i] == front && ops[..i + 1][i] == ops[i];
    assert Outstanding(start, ops[..i + 1]) >= 0;
    forall n | 0 <= n <= i ensures 0 <= Outstanding(start, front[..n]) <= k {
      assert front[..n] == ops[..n];
    }
    OutstandingIsBounded(start, front, k);
    QuotaStartsOnDayFour(start, LastTime(start, front));
  }

  lemma QuotaStartsOnDayFour(start: int, now: int)
    ensures Quota(start, now) > 0 <==> now >= start + 4 * DAY
  {
    assert QUOTA[0] == 0 && QUOTA[1] == 0 && QUOTA[2] == 0 && QUOTA[3] == 0;
    assert forall d :: 4 <= d < |QUOTA| ==> QUOTA[d] > 0;
  }

  lemma {:induction false} TimelockGrows(start: int, ops: seq<Op>, i: nat)
    requires i < |ops|
    ensures Run(start, ops[..i]).timelock <= Run(start, ops).timelock
    ensures ops[i].Lock? ==> ops[i].now + DAY <= Run(start, ops).timelock
  {
    WholeSlice(ops);
    if i < |ops| - 1 {
      TimelockGrows(start, ops[..|ops| - 1], i);
      assert ops[..|ops| - 1][..i] == ops[..i];
    }
  }

  // ---- exactly when an ask is accepted ----

  const HOURS_24 := 86_400_000_000_000

  /** The sends that a day of the ramp admits, by the whole days since the account was connected. */
  function RampOf(days: nat): nat {
    if days < 4 then 0
    else if days == 4 then 10
    else if days == 5 then 30
    else if days == 6 then 50
    else if days == 7 then 80
    else if days < 10 then 100
    else 200
  }

  lemma QuotaIsRamp(start: int, now: int, days: nat)
    requires start + days * HOURS_24 <= now < start + (days + 1) * HOURS_24
    ensures Quota(start, now) == RampOf(days)
  {
    DivisionIsUnique(now - start, HOURS_24, days, now - start - days * HOURS_24);
    assert TruncDiv(now - start, DAY) == days;
  }

  lemma {:induction false} TimelockIs(start: int, ops: seq<Op>, until: int)
    ensures Run(start, ops).timelock <= until <==>
            0 <= until && forall i :: 0 <= i < |ops| && ops[i].Lock? ==> ops[i].now + HOURS_24 <= until
  {
    if ops != [] {
      var front := ops[..|ops| - 1];
      TimelockIs(start, front, until);
      assert forall i :: 0 <= i < |front| ==> front[i] == ops[i];
    }
  }

  lemma CountToday(start: int, ops: seq<Op>, now: int)
    requires ClockRuns(start, ops) && LastTime(start, ops) <= now
    ensures Rolled(Run(start, ops), now).daySent == SentOn(ops, Today(now))
  {
    CounterCounts(start, ops, Today(now));
    SameDayOrLater(LastTime(start, ops), now);
  }

  /** Over any run, an ask is accepted exactly when the sends of its UTC day are fewer than the ramp
      admits and, for an unknown contact, the last lock is 24 hours old. */
  lemma AcceptedIff(start: int, ops: seq<Op>, i: nat, days: nat)
    requires 0 <= start && ClockRuns(start, ops) && i < |ops| && ops[i].Ask?
    requires start + days * HOURS_24 <= ops[i].now < start + (days + 1) * HOURS_24
    ensures Accepted(start, ops, i) <==>
            && SentOn(ops[..i], ops[i].now / HOURS_24) < RampOf(days)
            && (ops[i].unknown ==>
                  forall j :: 0 <= j < i && ops[j].Lock? ==> ops[j].now + HOURS_24 <= ops[i].now)
  {
    var before := ops[..i];
    assert forall j :: 0 <= j < i ==> before[j] == ops[j];
    QuotaIsRamp(start, ops[i].now, days);
    TimelockIs(start, before, ops[i].now);
    CountToday(start, before, ops[i].now);
  }

  /** No ask about an unknown contact is accepted within 24 hours of a timelock. */
  lemma TimelockHolds(start: int, ops: seq<Op>, lock: nat, ask: nat)
    requires lock < ask < |ops| && ops[lock].Lock? && Accepted(start, ops, ask) && ops[ask].unknown
    ensures ops[ask].now >= ops[lock].now + DAY
  {
    TimelockGrows(start, ops[..ask], lock);
    assert ops[..ask][lock] == ops[lock];
  }
}

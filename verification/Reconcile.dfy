/** The inbound reconciler: routes the messages still in `received`, with no attempt counter
    to end the loop when routing keeps failing. */
module Reconcile {
  import opened Common

  type MessageId = nat

  datatype Status = Received | Routed | Notified

  type Table = map<MessageId, Status>

  function ReceivedIds(t: Table): set<MessageId> {
    set id | id in t && t[id].Received?
  }

  /** What a select may return: any min(limit, #received) different received messages. */
  predicate Selectable(t: Table, limit: nat, ids: seq<MessageId>) {
    && Distinct(ids)
    && |ids| == Min(limit, |ReceivedIds(t)|)
    && forall id :: id in ids ==> id in ReceivedIds(t)
  }

  /** `t` with the messages in `done` routed. */
  function Route(t: Table, done: set<MessageId>): Table {
    map id | id in t :: if id in done && t[id].Received? then Routed else t[id]
  }

  lemma RouteTwice(t: Table, first: set<MessageId>, second: set<MessageId>)
    ensures Route(Route(t, first), second) == Route(t, first + second)
  {
  }

  class InboundRepo {
    var messages: Table

    constructor (initial: Table)
      ensures messages == initial
    {
      messages := initial;
    }

    method SelectUnrouted(limit: nat) returns (ids: seq<MessageId>)
      ensures Selectable(messages, limit, ids)
    {
      ids := TakeAny(ReceivedIds(messages), limit);
    }

    /** Only a received message moves; anything else is left as it is, without an error. */
    method MarkRouted(id: MessageId)
      modifies this
      ensures messages == Route(old(messages), {id})
      ensures messages.Keys == old(messages).Keys && forall x :: x in messages ==>
                messages[x] == if x == id && old(messages)[x] == Received then Routed else old(messages)[x]
    {
      if id in messages && messages[id].Received? {
        messages := messages[id := Routed];
      }
      assert messages == Route(old(messages), {id});
    }
  }

  datatype SweepResult = Returned | Cancelled

  class Reconciler {
    const repo: InboundRepo
    const batchSize: nat

    constructor (repo: InboundRepo, batchSize: int)
      ensures this.repo == repo && this.batchSize == (if batchSize <= 0 then 100 else batchSize)
    {
      this.repo := repo;
      this.batchSize := if batchSize <= 0 then 100 else batchSize;
    }

    /** Assign each message of a batch; the ones whose assign fails stay as they are. */
    method ProcessBatch(failing: set<MessageId>, ids: seq<MessageId>) returns (n: nat)
      requires Distinct(ids)
      modifies repo
      ensures repo.messages == Route(old(repo.messages), Elements(ids) - failing)
      ensures n == |Elements(ids) - failing|
    {
      n := 0;
      ghost var start, done := repo.messages, {};
      assert Route(start, {}) == start;
      for i := 0 to |ids|
        invariant done == Elements(ids[..i]) - failing
        invariant repo.messages == Route(start, done) && n == |done|
      {
        assert Elements(ids[..i + 1]) == Elements(ids[..i]) + {ids[i]};
        assert ids[i] !in ids[..i];
        if ids[i] in failing { continue; }
        repo.MarkRouted(ids[i]);
        RouteTwice(start, done, {ids[i]});
        n, done := n + 1, done + {ids[i]};
      }
      WholeSlice(ids);
    }

    /** Sweep until a select comes back short. `failing` are the messages whose assign fails;
        the context is cancelled before pass number `passes`. */
    method ReconcileAll(failing: set<MessageId>, passes: nat) returns (processed: nat, res: SweepResult)
      requires batchSize > 0
      modifies repo
      // Never done while a full batch of received messages keeps failing ...
      ensures |failing * ReceivedIds(old(repo.messages))| >= batchSize ==> res == Cancelled
      // ... otherwise done, after at most one pass per routable message and one more.
      ensures
        && |failing * ReceivedIds(old(repo.messages))| < batchSize
        && passes > |ReceivedIds(old(repo.messages)) - failing|
        ==> res == Returned
      // A finished sweep routed exactly the others, and counted each of them once.
      ensures res == Returned ==>
        && repo.messages == Route(old(repo.messages), ReceivedIds(old(repo.messages)) - failing)
        && ReceivedIds(repo.messages) == failing * ReceivedIds(old(repo.messages))
        && processed == |ReceivedIds(old(repo.messages)) - failing|
      ensures res == Returned ==> IsSwept(old(repo.messages), repo.messages, failing)
      // A cancelled one routed only such messages, and counted those.
      ensures exists done ::
        && done <= ReceivedIds(old(repo.messages)) - failing
        && repo.messages == Route(old(repo.messages), done) && processed == |done|
    {
      ghost var start := repo.messages;
      ghost var routable := ReceivedIds(start) - failing;
      ghost var done: set<MessageId> := {};
      assert Route(start, {}) == start;
      RoutedIsSwept(start, failing);
      var pass := 0;
      processed := 0;
      while true
        invariant 0 <= pass <= passes
        invariant done <= routable
        invariant repo.messages == Route(start, done) && processed == |done|
        invariant |failing * ReceivedIds(start)| < batchSize ==> pass <= processed
        decreases passes - pass
      {
        SubsetCardinality(done, routable);
        if pass == passes { return processed, Cancelled; }
        pass := pass + 1;
        ghost var before := repo.messages;
        var ids := repo.SelectUnrouted(batchSize);
        PassInSweep(start, before, done, failing, batchSize, ids);
        if |ids| == 0 { return processed, Returned; }
        var n := ProcessBatch(failing, ids);
        done, processed := done + (Elements(ids) - failing), processed + n;
        if |ids| < batchSize { return processed, Returned; }
      }
    }
  }

  /** One pass of a sweep that began at `start` and has routed `done` so far. */
  lemma PassInSweep(
    start: Table, t: Table, done: set<MessageId>, failing: set<MessageId>, limit: nat, ids: seq<MessageId>)
    requires done <= ReceivedIds(start) - failing && t == Route(start, done) && Selectable(t, limit, ids)
    ensures var next := done + (Elements(ids) - failing);
      && next <= ReceivedIds(start) - failing
      && Route(t, Elements(ids) - failing) == Route(start, next)
      && |next| == |done| + |Elements(ids) - failing|
      && (|failing * ReceivedIds(start)| >= limit ==> |ids| == limit)
      && (|failing * ReceivedIds(start)| < limit && |ids| == limit ==> |next| > |done|)
      && (|ids| < limit ==> next == ReceivedIds(start) - failing
                            && ReceivedIds(Route(start, next)) == failing * ReceivedIds(start))
      && (ids == [] ==> next == done)
  {
    RouteLeaves(start, done);
    PassReaches(ReceivedIds(start), done, failing, limit, ids);
    RouteTwice(start, done, Elements(ids) - failing);
    RouteLeaves(start, ReceivedIds(start) - failing);
  }

  /** Each received message whose assign works has the state routed, and all else is as it was. */
  predicate IsSwept(t: Table, t': Table, failing: set<MessageId>) {
    && t'.Keys == t.Keys
    && forall id :: id in t ==>
         t'[id] == if t[id] == Status.Received && id !in failing then Status.Routed else t[id]
  }

  lemma RoutedIsSwept(t: Table, failing: set<MessageId>)
    ensures IsSwept(t, Route(t, ReceivedIds(t) - failing), failing)
  {
  }

  /** What a bounded select of `left` reaches. */
  lemma SelectReaches(left: set<MessageId>, failing: set<MessageId>, limit: nat, ids: seq<MessageId>)
    requires Distinct(ids) && |ids| == Min(limit, |left|) && forall id :: id in ids ==> id in left
    ensures |failing * left| >= limit ==> |ids| == limit
    ensures |failing * left| < limit && |ids| == limit ==> |Elements(ids) - failing| > 0
    ensures |ids| < limit ==> Elements(ids) == left
  {
    DistinctCardinality(ids);
    SubsetCardinality(failing * left, left);
    SubsetCardinality(Elements(ids), left);
    if Elements(ids) <= failing {
      assert Elements(ids) <= failing * left;
      SubsetCardinality(Elements(ids), failing * left);
    } else {
      var id :| id in Elements(ids) && id !in failing;
      assert id in Elements(ids) - failing;
    }
  }

  /** One pass after `done` of the messages `all` has been routed: the select is full while a batch
      keeps failing; if not, a full one routes something new, and a short one all that is left. */
  lemma PassReaches(all: set<MessageId>, done: set<MessageId>, failing: set<MessageId>, limit: nat, ids: seq<MessageId>)
    requires done <= all - failing
    requires Distinct(ids) && |ids| == Min(limit, |all - done|) && forall id :: id in ids ==> id in all - done
    ensures var next := done + (Elements(ids) - failing);
      && next <= all - failing
      && |next| == |done| + |Elements(ids) - failing|
      && (|failing * all| >= limit ==> |ids| == limit)
      && (|failing * all| < limit && |ids| == limit ==> |next| > |done|)
      && (|ids| < limit ==> next == all - failing)
      && (ids == [] ==> next == done)
  {
    Unrouted(all, done, failing, ids);
    SelectReaches(all - done, failing, limit, ids);
  }

  lemma Unrouted(all: set<MessageId>, done: set<MessageId>, failing: set<MessageId>, ids: seq<MessageId>)
    requires done <= all - failing && forall id :: id in ids ==> id in all - done
    ensures failing * (all - done) == failing * all
    ensures |done + (Elements(ids) - failing)| == |done| + |Elements(ids) - failing|
  {
    assert done !! (Elements(ids) - failing);
  }

  lemma RouteLeaves(t: Table, done: set<MessageId>)
    ensures ReceivedIds(Route(t, done)) == ReceivedIds(t) - done
  {
  }
}

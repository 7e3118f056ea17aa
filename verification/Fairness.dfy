/** What repeated automatic assignment to one queue does: round robin is fair because every
    assignment raises the sum of loads that seeds it; least busy keeps the loads together. */
module Fairness {
  import opened Common
  import opened Acd
  import opened Selection
  import opened Routing

  // ---- counting residues ----

  /** How many of s, s+1, ..., s+m-1 leave remainder r. */
  function Hits(s: int, m: nat, n: nat, r: nat): nat
    requires n > 0
  {
    if m == 0 then 0 else Hits(s, m - 1, n, r) + if (s + m - 1) % n == r then 1 else 0
  }

  /** Numbers below x with remainder r, counted from zero (negatively below it). */
  function Quota(x: int, n: nat, r: nat): int
    requires n > 0
  {
    x / n + if x % n > r then 1 else 0
  }

  lemma QuotaStep(x: int, n: nat, r: nat)
    requires r < n
    ensures Quota(x + 1, n, r) == Quota(x, n, r) + if x % n == r then 1 else 0
  {
    var k, t := x / n, x % n;
    assert x == k * n + t;
    if t == n - 1 {
      assert x + 1 == (k + 1) * n;
      DivisionIsUnique(x + 1, n, k + 1, 0);
    } else {
      DivisionIsUnique(x + 1, n, k, t + 1);
    }
  }

  lemma {:induction false} HitsIsQuota(s: int, m: nat, n: nat, r: nat)
    requires r < n
    ensures Hits(s, m, n, r) == Quota(s + m, n, r) - Quota(s, n, r)
  {
    if m > 0 {
      HitsIsQuota(s, m - 1, n, r);
      QuotaStep(s + m - 1, n, r);
    }
  }

  lemma HitsAreEven(s: int, m: nat, n: nat, r: nat, r': nat)
    requires r < n && r' < n
    ensures -1 <= Hits(s, m, n, r) - Hits(s, m, n, r') <= 1
  {
    HitsIsQuota(s, m, n, r);
    HitsIsQuota(s, m, n, r');
  }

  lemma HitsInRounds(s: int, rounds: nat, n: nat, r: nat)
    requires r < n
    ensures rounds * n >= 0 && Hits(s, rounds * n, n, r) == rounds
  {
    HitsIsQuota(s, rounds * n, n, r);
    WholeRounds(s, rounds, n);
  }

  lemma WholeRounds(s: int, rounds: nat, n: nat)
    requires n > 0
    ensures (s + rounds * n) / n == s / n + rounds && (s + rounds * n) % n == s % n
  {
    var k, t := s / n, s % n;
    assert s + rounds * n == (k + rounds) * n + t;
    DivisionIsUnique(s + rounds * n, n, k + rounds, t);
  }

  lemma {:induction false} HitsGrow(s: int, m: nat, m': nat, n: nat, r: nat)
    requires n > 0 && m <= m'
    ensures Hits(s, m, n, r) <= Hits(s, m', n, r)
  {
    if m < m' { HitsGrow(s, m, m' - 1, n, r); }
  }

  // ---- ranks ----

  ghost function EligibleIds(st: Store, q: QueueId): set<AgentId>
    requires q in st.queues
  {
    set id | id in st.queues[q].pool && id in st.agents && IsEligible(st.agents[id], st.queues[q].required)
  }

  ghost function Rank(ids: set<AgentId>, id: AgentId): nat { |set x | x in ids && Less(x, id)| }

  function Ids(agents: set<Agent>): set<AgentId> { set a | a in agents :: a.id }

  lemma {:induction false} IdsCardinality(agents: set<Agent>)
    requires IdsDiffer(agents)
    ensures |Ids(agents)| == |agents|
  {
    if agents != {} {
      var a :| a in agents;
      IdsCardinality(agents - {a});
      assert Ids(agents) == Ids(agents - {a}) + {a.id};
    }
  }

  lemma RankOfChoice(st: Store, q: QueueId, a: Agent)
    requires Keyed(st) && q in st.queues
    ensures var agents := Eligible(Candidates(st, q), st.queues[q].required);
      && |Before(agents, a.id)| == Rank(EligibleIds(st, q), a.id)
      && |agents| == |EligibleIds(st, q)|
  {
    var agents := Eligible(Candidates(st, q), st.queues[q].required);
    CandidateIdsDiffer(st, q);
    IdsCardinality(agents);
    IdsCardinality(Before(agents, a.id));
    forall id | id in EligibleIds(st, q) ensures id in Ids(agents) {
      assert st.agents[id] in agents;
    }
    assert Ids(agents) == EligibleIds(st, q);
    forall id | id in EligibleIds(st, q) && Less(id, a.id) ensures id in Ids(Before(agents, a.id)) {
      assert st.agents[id] in Before(agents, a.id);
    }
    assert Ids(Before(agents, a.id)) == set x | x in EligibleIds(st, q) && Less(x, a.id);
  }

  lemma RankBounds(ids: set<AgentId>, id: AgentId)
    requires id in ids
    ensures Rank(ids, id) < |ids|
  {
    var smaller := set x | x in ids && Less(x, id);
    LessIrreflexive(id);
    assert smaller <= ids - {id};
    SubsetCardinality(smaller, ids - {id});
  }

  lemma RankInjective(ids: set<AgentId>, a: AgentId, b: AgentId)
    requires a in ids && b in ids && Rank(ids, a) == Rank(ids, b)
    ensures a == b
  {
    LessTotal(a, b);
    if Less(a, b) { RankGrows(ids, a, b); }
    if Less(b, a) { RankGrows(ids, b, a); }
  }

  lemma RankGrows(ids: set<AgentId>, a: AgentId, b: AgentId)
    requires a in ids && Less(a, b)
    ensures Rank(ids, a) < Rank(ids, b)
  {
    var low, high := set x | x in ids && Less(x, a), set x | x in ids && Less(x, b);
    forall x | x in low ensures x in high { LessTransitive(x, a, b); }
    LessIrreflexive(a);
    assert a in high - low;
    SubsetCardinality(low, high);
  }

  // ---- one assignment ----

  ghost function Seed(st: Store, q: QueueId): int
    requires q in st.queues
  {
    SetLoad(Candidates(st, q))
  }

  /** Conversations waiting in queue `q`. */
  ghost predicate Waits(st: Store, c: ConvId, q: QueueId) {
    c in st.convs && st.convs[c].assignee == "" && !st.convs[c].status.Resolved? && st.convs[c].externalId == q
  }

  ghost predicate NoNegativeLoad(st: Store) {
    forall id :: id in st.agents ==> st.agents[id].load >= 0
  }

  /** A queue that serves somebody answers its own conversations. */
  lemma OwnQueueAnswers(st: Store, c: ConvId, q: QueueId, st': Store, res: AutoResult)
    requires Keyed(st) && q != "" && q in st.queues && Waits(st, c, q) && EligibleIds(st, q) != {}
    requires AutoStep(st, c, st', res)
    ensures res.Assigned? && res.agent in st.agents && st' == Assigning(st, c, res.agent)
    ensures IsChoice(st.queues[q].strategy, Eligible(Candidates(st, q), st.queues[q].required),
                     Hint(st, q, st.convs[c].contact), Seed(st, q), st.agents[res.agent])
  {
    var id :| id in EligibleIds(st, q);
    assert st.agents[id] in Eligible(Candidates(st, q), st.queues[q].required);
    assert OnChain(st.queues, q, 0) && Serves(st, ChainAt(st.queues, q, 0));
    var r :| IsSearchResult(st, q, st.convs[c].contact, MAX_OVERFLOW_HOPS, r) && AutoOutcome(st, c, r, st', res);
    assert r.Some?;
    var k: nat :| k < MAX_OVERFLOW_HOPS && IsHit(st, q, st.convs[c].contact, k, r.value);
    assert k == 0;
    assert r.value.0 in Candidates(st, q);
  }

  /** Each assignment from the pool adds one to the seed. */
  lemma SeedGrows(st: Store, c: ConvId, a: AgentId, q: QueueId)
    requires Keyed(st) && NoNegativeLoad(st) && q in st.queues && c in st.convs
    requires a in st.agents && a in st.queues[q].pool
    ensures Seed(Assigning(st, c, a), q) == Seed(st, q) + 1
  {
    var st' := Assigning(st, c, a);
    var was, now := st.agents[a], st'.agents[a];
    var others := set id | id in st.queues[q].pool && id in st.agents && id != a :: st.agents[id];
    assert Candidates(st, q) - {was} == others;
    assert Candidates(st', q) - {now} == others;
    SetLoadSplits(Candidates(st, q), was);
    SetLoadSplits(Candidates(st', q), now);
  }

  // ---- runs of assignments ----

  /** Consecutive AutoAssign calls for the waiting conversations `convs`. */
  ghost predicate AutoRun(stores: seq<Store>, convs: seq<ConvId>, res: seq<AutoResult>, q: QueueId) {
    && RunShape(stores, convs, res, q)
    && forall i :: 0 <= i < |convs| ==> AutoStep(stores[i], convs[i], stores[i + 1], res[i])
  }

  ghost predicate RunShape(stores: seq<Store>, convs: seq<ConvId>, res: seq<AutoResult>, q: QueueId) {
    && |stores| == |convs| + 1 && |res| == |convs|
    && Keyed(stores[0]) && NoNegativeLoad(stores[0])
    && q != "" && q in stores[0].queues
    && Distinct(convs)
    && forall i :: 0 <= i < |convs| ==> Waits(stores[0], convs[i], q)
  }

  function Count(res: seq<AutoResult>, a: AgentId): nat {
    if res == [] then 0 else
    Count(res[..|res| - 1], a) + if res[|res| - 1] == Assigned(a) then 1 else 0
  }

  /** The store after `i` assignments, as far as the queue is concerned: each agent carries what it
      was given on top, and the rest of the conversations still wait. */
  ghost predicate Carries(st0: Store, st: Store, res: seq<AutoResult>) {
    && st.queues == st0.queues && st.agents.Keys == st0.agents.Keys
    && forall id :: id in st.agents ==> st.agents[id] == st0.agents[id].(load := st0.agents[id].load + Count(res, id))
  }

  /** This pick is the turn of the agent whose rank is `x` modulo the number of agents. */
  ghost predicate IsTurn(r: AutoResult, ids: set<AgentId>, x: int)
    requires ids != {}
  {
    r.Assigned? && r.agent in ids && Rank(ids, r.agent) == x % |ids|
  }

  /** Every pick so far followed the seed around the ring of eligible agents. */
  ghost predicate FollowsSeed(res: seq<AutoResult>, ids: set<AgentId>, s: int)
    requires ids != {}
  {
    res == [] || (FollowsSeed(res[..|res| - 1], ids, s) && IsTurn(res[|res| - 1], ids, s + |res| - 1))
  }

  lemma {:induction false} CountIsHits(res: seq<AutoResult>, ids: set<AgentId>, s: int, a: AgentId)
    requires ids != {} && FollowsSeed(res, ids, s)
    ensures a in ids ==> Count(res, a) == Hits(s, |res|, |ids|, Rank(ids, a))
    ensures a !in ids ==> Count(res, a) == 0
  {
    if res != [] {
      var front, last := res[..|res| - 1], res[|res| - 1];
      CountIsHits(front, ids, s, a);
      if a in ids && last.agent != a && Rank(ids, last.agent) == Rank(ids, a) {
        RankInjective(ids, last.agent, a);
      }
    }
  }

  /** Each eligible agent of the queue has more than `rounds` free slots. */
  ghost predicate HasRoom(st: Store, q: QueueId, rounds: nat)
    requires q in st.queues
  {
    && EligibleIds(st, q) != {}
    && forall id :: id in EligibleIds(st, q) ==> st.agents[id].maxLoad - st.agents[id].load > rounds
  }

  /** The hypothesis of fairness: m assignments, no more than `rounds` rounds of the eligible
      agents, each of which has more than `rounds` free slots. */
  ghost predicate RoundRobinRun(stores: seq<Store>, convs: seq<ConvId>, res: seq<AutoResult>,
                                q: QueueId, rounds: nat) {
    && AutoRun(stores, convs, res, q)
    && stores[0].queues[q].strategy.RoundRobin?
    && HasRoom(stores[0], q, rounds)
    && |convs| <= rounds * |EligibleIds(stores[0], q)|
  }

  /** As long as nobody fills up, the eligible agents stay the same. */
  lemma EligibleStays(st0: Store, st: Store, q: QueueId, res: seq<AutoResult>, rounds: nat)
    requires q in st0.queues && Carries(st0, st, res) && HasRoom(st0, q, rounds)
    requires FollowsSeed(res, EligibleIds(st0, q), Seed(st0, q)) && |res| <= rounds * |EligibleIds(st0, q)|
    ensures EligibleIds(st, q) == EligibleIds(st0, q)
  {
    var ids, s := EligibleIds(st0, q), Seed(st0, q);
    forall id | id in st.agents ensures id in EligibleIds(st, q) <==> id in ids {
      CountIsHits(res, ids, s, id);
      if id in ids {
        RankBounds(ids, id);
        HitsGrow(s, |res|, rounds * |ids|, |ids|, Rank(ids, id));
        HitsInRounds(s, rounds, |ids|, Rank(ids, id));
      }
      assert st.agents[id].skills == st0.agents[id].skills;
    }
  }

  /** The conversations from `i` on wait for the queue. */
  ghost predicate RestWaits(st: Store, convs: seq<ConvId>, q: QueueId, i: nat) {
    forall j :: i <= j < |convs| ==> Waits(st, convs[j], q)
  }

  lemma RestStillWaits(st: Store, convs: seq<ConvId>, q: QueueId, i: nat, a: AgentId)
    requires Distinct(convs) && i < |convs| && RestWaits(st, convs, q, i) && a in st.agents
    ensures RestWaits(Assigning(st, convs[i], a), convs, q, i + 1)
  {
  }

  /** What round robin does for a waiting conversation. */
  ghost predicate PickRule(st: Store, c: ConvId, q: QueueId, st': Store, r: AutoResult) {
    Keyed(st) && NoNegativeLoad(st) && q in st.queues && st.queues[q].strategy.RoundRobin?
    && EligibleIds(st, q) != {} && Waits(st, c, q) ==>
      && IsTurn(r, EligibleIds(st, q), Seed(st, q))
      && st' == Assigning(st, c, r.agent) && Seed(st', q) == Seed(st, q) + 1
  }

  /** The i-th of consecutive picks follows the seed. */
  lemma PicksFollowSeed(stores: seq<Store>, convs: seq<ConvId>, res: seq<AutoResult>, q: QueueId, rounds: nat, i: nat)
    requires RoundRobinRun(stores, convs, res, q, rounds) && i <= |convs|
    ensures FollowsSeed(res[..i], EligibleIds(stores[0], q), Seed(stores[0], q))
    ensures Carries(stores[0], stores[i], res[..i]) && Seed(stores[i], q) == Seed(stores[0], q) + i
    ensures i > 0 ==> IsTurn(res[i - 1], EligibleIds(stores[0], q), Seed(stores[0], q) + i - 1)
  {
    forall m | 0 <= m < |convs| ensures PickRule(stores[m], convs[m], q, stores[m + 1], res[m]) {
      OnePickFollowsSeed(stores[m], convs[m], q, stores[m + 1], res[m]);
    }
    RulesFollowSeed(stores, convs, res, q, rounds, i);
    if i > 0 { LastTurn(res, EligibleIds(stores[0], q), Seed(stores[0], q), i); }
  }

  lemma LastTurn(res: seq<AutoResult>, ids: set<AgentId>, s: int, i: nat)
    requires ids != {} && 0 < i <= |res| && FollowsSeed(res[..i], ids, s)
    ensures IsTurn(res[i - 1], ids, s + i - 1)
  {
    assert res[..i][i - 1] == res[i - 1];
  }

  lemma {:induction false} RulesFollowSeed(stores: seq<Store>, convs: seq<ConvId>, res: seq<AutoResult>,
                                           q: QueueId, rounds: nat, i: nat)
    requires RunShape(stores, convs, res, q) && stores[0].queues[q].strategy.RoundRobin?
    requires HasRoom(stores[0], q, rounds) && i <= |convs| <= rounds * |EligibleIds(stores[0], q)|
    requires forall m :: 0 <= m < |convs| ==> PickRule(stores[m], convs[m], q, stores[m + 1], res[m])
    ensures FollowsSeed(res[..i], EligibleIds(stores[0], q), Seed(stores[0], q))
    ensures Carries(stores[0], stores[i], res[..i]) && Seed(stores[i], q) == Seed(stores[0], q) + i
    ensures RestWaits(stores[i], convs, q, i)
  {
    if i > 0 {
      var m: nat :| m + 1 == i;
      RulesFollowSeed(stores, convs, res, q, rounds, m);
      EligibleStays(stores[0], stores[m], q, res[..m], rounds);
      CarriedIsSound(stores[0], stores[m], res[..m]);
      assert PickRule(stores[m], convs[m], q, stores[m + 1], res[m]);
      CarriesOn(stores[0], stores[m], stores[i], convs[m], res[..m], res[m].agent);
      FollowsOn(res[..m], res[m], EligibleIds(stores[m], q), Seed(stores[0], q), Seed(stores[m], q));
      SlicePlus(res, m);
      RestStillWaits(stores[m], convs, q, m, res[m].agent);
    }
  }

  lemma CarriedIsSound(st0: Store, st: Store, res: seq<AutoResult>)
    requires Keyed(st0) && NoNegativeLoad(st0) && Carries(st0, st, res)
    ensures Keyed(st) && NoNegativeLoad(st)
  {
  }

  lemma FollowsOn(res: seq<AutoResult>, r: AutoResult, ids: set<AgentId>, s: int, x: int)
    requires ids != {} && FollowsSeed(res, ids, s) && x == s + |res| && IsTurn(r, ids, x)
    ensures FollowsSeed(res + [r], ids, s)
  {
    var longer := res + [r];
    assert longer[..|longer| - 1] == res;
  }

  lemma OnePickFollowsSeed(st: Store, c: ConvId, q: QueueId, st': Store, r: AutoResult)
    requires q != "" && AutoStep(st, c, st', r)
    ensures PickRule(st, c, q, st', r)
  {
    if Keyed(st) && NoNegativeLoad(st) && q in st.queues && st.queues[q].strategy.RoundRobin?
       && EligibleIds(st, q) != {} && Waits(st, c, q)
    {
      OwnQueueAnswers(st, c, q, st', r);
      RankOfChoice(st, q, st.agents[r.agent]);
      assert st.agents[r.agent] in Candidates(st, q);
      SeedGrows(st, c, r.agent, q);
    }
  }

  lemma CarriesOn(st0: Store, st: Store, st': Store, c: ConvId, res: seq<AutoResult>, a: AgentId)
    requires Carries(st0, st, res) && NoNegativeLoad(st0) && c in st.convs && a in st.agents
    requires st' == Assigning(st, c, a)
    ensures Carries(st0, st', res + [Assigned(a)])
  {
    forall id | id in st'.agents
      ensures st'.agents[id] == st0.agents[id].(load := st0.agents[id].load + Count(res + [Assigned(a)], id))
    {
      CountGrows(res, a, id);
    }
  }

  lemma CountGrows(res: seq<AutoResult>, a: AgentId, id: AgentId)
    ensures Count(res + [Assigned(a)], id) == Count(res, id) + if id == a then 1 else 0
  {
    var longer := res + [Assigned(a)];
    assert longer[..|longer| - 1] == res;
  }

  /** Fairness: over whole rounds every eligible agent is picked equally often ... */
  lemma RoundRobinIsFair(stores: seq<Store>, convs: seq<ConvId>, res: seq<AutoResult>,
                         q: QueueId, rounds: nat, a: AgentId)
    requires RoundRobinRun(stores, convs, res, q, rounds)
    requires |convs| == rounds * |EligibleIds(stores[0], q)|
    ensures a in EligibleIds(stores[0], q) ==> Count(res, a) == rounds
    ensures a !in EligibleIds(stores[0], q) ==> Count(res, a) == 0
  {
    var ids, s := EligibleIds(stores[0], q), Seed(stores[0], q);
    PicksFollowSeed(stores, convs, res, q, rounds, |convs|);
    WholeSlice(res);
    CountIsHits(res, ids, s, a);
    if a in ids {
      RankBounds(ids, a);
      HitsInRounds(s, rounds, |ids|, Rank(ids, a));
    }
  }

  lemma {:induction false} StretchFollowsSeed(res: seq<AutoResult>, ids: set<AgentId>, s: int, i: nat, j: nat)
    requires ids != {} && FollowsSeed(res, ids, s) && i <= j <= |res|
    ensures FollowsSeed(res[i..j], ids, s + i)
  {
    if j < |res| {
      var front := res[..|res| - 1];
      StretchFollowsSeed(front, ids, s, i, j);
      assert front[i..j] == res[i..j];
    } else if i < j {
      var front := res[..j - 1];
      StretchFollowsSeed(front, ids, s, i, j - 1);
      assert res[i..j] == front[i..j - 1] + [res[j - 1]];
      FollowsOn(front[i..j - 1], res[j - 1], ids, s + i, s + j - 1);
    }
  }

  /** ... and over any stretch of consecutive picks no agent is ahead of another by more than one. */
  lemma AnyStretchIsEven(stores: seq<Store>, convs: seq<ConvId>, res: seq<AutoResult>,
                         q: QueueId, rounds: nat, i: nat, j: nat, a: AgentId, b: AgentId)
    requires RoundRobinRun(stores, convs, res, q, rounds) && i <= j <= |res|
    requires a in EligibleIds(stores[0], q) && b in EligibleIds(stores[0], q)
    ensures -1 <= Count(res[i..j], a) - Count(res[i..j], b) <= 1
  {
    PicksFollowSeed(stores, convs, res, q, rounds, |convs|);
    WholeSlice(res);
    EvenStretch(res, EligibleIds(stores[0], q), Seed(stores[0], q), i, j, a, b);
  }

  lemma EvenStretch(res: seq<AutoResult>, ids: set<AgentId>, s: int, i: nat, j: nat, a: AgentId, b: AgentId)
    requires ids != {} && FollowsSeed(res, ids, s) && i <= j <= |res| && a in ids && b in ids
    ensures -1 <= Count(res[i..j], a) - Count(res[i..j], b) <= 1
  {
    StretchFollowsSeed(res, ids, s, i, j);
    EvenPicks(res[i..j], ids, s + i, a, b);
  }

  lemma EvenPicks(picks: seq<AutoResult>, ids: set<AgentId>, s: int, a: AgentId, b: AgentId)
    requires ids != {} && FollowsSeed(picks, ids, s) && a in ids && b in ids
    ensures -1 <= Count(picks, a) - Count(picks, b) <= 1
  {
    CountIsHits(picks, ids, s, a);
    CountIsHits(picks, ids, s, b);
    RankBounds(ids, a);
    RankBounds(ids, b);
    HitsAreEven(s, |picks|, |ids|, Rank(ids, a), Rank(ids, b));
  }

  // ---- least busy ----

  /** No two of these agents differ in load by more than `d`. */
  ghost predicate SpreadWithin(st: Store, ids: set<AgentId>, d: int) {
    forall a, b :: a in ids && b in ids && a in st.agents && b in st.agents ==>
      st.agents[a].load - st.agents[b].load <= d
  }

  /** Nobody has been given more than there were assignments. */
  lemma {:induction false} CountIsBounded(res: seq<AutoResult>, a: AgentId)
    ensures Count(res, a) <= |res|
  {
    if res != [] { CountIsBounded(res[..|res| - 1], a); }
  }

  /** Agents that start with more free slots than there are assignments stay eligible, and who had none
      gets none. */
  lemma RoomKeepsEligible(st0: Store, st: Store, q: QueueId, res: seq<AutoResult>, slots: nat)
    requires q in st0.queues && Carries(st0, st, res) && HasRoom(st0, q, slots) && |res| <= slots
    ensures EligibleIds(st, q) == EligibleIds(st0, q)
  {
    forall id | id in st.agents ensures id in EligibleIds(st, q) <==> id in EligibleIds(st0, q) {
      CountIsBounded(res, id);
      assert st.agents[id].skills == st0.agents[id].skills;
    }
  }

  /** The agents `a` carries no more than. */
  ghost predicate IsLeast(st: Store, a: AgentId, ids: set<AgentId>) {
    a in st.agents && forall b :: b in ids ==> b in st.agents && st.agents[a].load <= st.agents[b].load
  }

  /** What assignment by load does for a waiting conversation. */
  ghost predicate LeastRule(st: Store, c: ConvId, q: QueueId, st': Store, r: AutoResult) {
    Keyed(st) && q in st.queues && !st.queues[q].strategy.RoundRobin? && !st.queues[q].strategy.Sticky?
    && EligibleIds(st, q) != {} && Waits(st, c, q) ==>
      r.Assigned? && IsLeast(st, r.agent, EligibleIds(st, q)) && st' == Assigning(st, c, r.agent)
  }

  lemma LeastBusyPick(st: Store, c: ConvId, q: QueueId, st': Store, r: AutoResult)
    requires q != "" && AutoStep(st, c, st', r)
    ensures LeastRule(st, c, q, st', r)
  {
    if Keyed(st) && q in st.queues && !st.queues[q].strategy.RoundRobin? && !st.queues[q].strategy.Sticky?
       && EligibleIds(st, q) != {} && Waits(st, c, q)
    {
      OwnQueueAnswers(st, c, q, st', r);
      forall b | b in EligibleIds(st, q) ensures b in st.agents && st.agents[r.agent].load <= st.agents[b].load {
        assert st.agents[b] in Eligible(Candidates(st, q), st.queues[q].required);
      }
    }
  }

  lemma SpreadAfter(st: Store, c: ConvId, a: AgentId, ids: set<AgentId>, d: int)
    requires SpreadWithin(st, ids, d) && d >= 1 && c in st.convs && NoNegativeLoad(st) && IsLeast(st, a, ids)
    ensures SpreadWithin(Assigning(st, c, a), ids, d)
  {
  }

  /** Least-busy assignment (also the skill-based and any unknown strategy), started with more free
      slots per eligible agent than conversations, never lets the spread of their loads grow beyond
      what it was, or one. */
  lemma LeastBusyKeepsSpread(
    stores: seq<Store>, convs: seq<ConvId>, res: seq<AutoResult>, q: QueueId, d: int, i: nat)
    requires AutoRun(stores, convs, res, q) && i <= |convs| && HasRoom(stores[0], q, |convs|)
    requires !stores[0].queues[q].strategy.RoundRobin? && !stores[0].queues[q].strategy.Sticky?
    requires SpreadWithin(stores[0], EligibleIds(stores[0], q), d)
    ensures Carries(stores[0], stores[i], res[..i]) && EligibleIds(stores[i], q) == EligibleIds(stores[0], q)
    ensures SpreadWithin(stores[i], EligibleIds(stores[0], q), Max(d, 1))
  {
    forall m | 0 <= m < |convs| ensures LeastRule(stores[m], convs[m], q, stores[m + 1], res[m]) {
      LeastBusyPick(stores[m], convs[m], q, stores[m + 1], res[m]);
    }
    RulesKeepSpread(stores, convs, res, q, Max(d, 1), i);
  }

  lemma {:induction false} RulesKeepSpread(stores: seq<Store>, convs: seq<ConvId>, res: seq<AutoResult>,
                                           q: QueueId, d: int, i: nat)
    requires RunShape(stores, convs, res, q) && i <= |convs| && HasRoom(stores[0], q, |convs|)
    requires !stores[0].queues[q].strategy.RoundRobin? && !stores[0].queues[q].strategy.Sticky?
    requires d >= 1 && SpreadWithin(stores[0], EligibleIds(stores[0], q), d)
    requires forall m :: 0 <= m < |convs| ==> LeastRule(stores[m], convs[m], q, stores[m + 1], res[m])
    ensures Carries(stores[0], stores[i], res[..i]) && EligibleIds(stores[i], q) == EligibleIds(stores[0], q)
    ensures RestWaits(stores[i], convs, q, i)
    ensures SpreadWithin(stores[i], EligibleIds(stores[0], q), d)
  {
    if i > 0 {
      var m: nat :| m + 1 == i;
      RulesKeepSpread(stores, convs, res, q, d, m);
      CarriedIsSound(stores[0], stores[m], res[..m]);
      assert LeastRule(stores[m], convs[m], q, stores[m + 1], res[m]);
      SpreadAfter(stores[m], convs[m], res[m].agent, EligibleIds(stores[0], q), d);
      CarriesOn(stores[0], stores[m], stores[i], convs[m], res[..m], res[m].agent);
      SlicePlus(res, m);
      RestStillWaits(stores[m], convs, q, m, res[m].agent);
      RoomKeepsEligible(stores[0], stores[i], q, res[..i], |convs|);
    }
  }
}

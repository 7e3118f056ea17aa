/** The router's state and steps as relations: the overflow search, manual and automatic
    assignment, and the ledger that keeps each agent's load equal to what it counts. */
module Routing {
  import opened Common
  import opened Acd
  import opened Selection

  const MAX_OVERFLOW_HOPS := 8

  /** The store of one tenant. */
  datatype Store = Store(
    convs: map<ConvId, ConvRow>,
    agents: map<AgentId, Agent>,
    queues: map<QueueId, Queue>,
    sticky: map<ContactId, AgentId>)

  /** Agents are stored under their own ids. */
  ghost predicate Keyed(st: Store) {
    forall id :: id in st.agents ==> st.agents[id].id == id
  }

  ghost function Candidates(st: Store, q: QueueId): set<Agent>
    requires q in st.queues
  {
    set id | id in st.queues[q].pool && id in st.agents :: st.agents[id]
  }

  lemma CandidateIdsDiffer(st: Store, q: QueueId)
    requires Keyed(st) && q in st.queues
    ensures IdsDiffer(Candidates(st, q))
  {
  }

  // ---- the overflow search ----

  /** The sticky hint is looked at for sticky queues only. */
  function Hint(st: Store, q: QueueId, contact: ContactId): AgentId
    requires q in st.queues
  {
    if st.queues[q].strategy.Sticky? && contact in st.sticky then st.sticky[contact] else ""
  }

  /** What one queue answers. */
  ghost predicate QueueAnswers(st: Store, q: QueueId, contact: ContactId, r: Option<Agent>)
    requires q in st.queues
  {
    IsSelection(st.queues[q].strategy, Candidates(st, q), st.queues[q].required,
                Hint(st, q, contact), SetLoad(Candidates(st, q)), r)
  }

  ghost predicate Serves(st: Store, q: QueueId)
    requires q in st.queues
  {
    Eligible(Candidates(st, q), st.queues[q].required) != {}
  }

  /** The queue at position `k` of the overflow chain; "" once the chain has ended. */
  function ChainAt(queues: map<QueueId, Queue>, start: QueueId, k: nat): QueueId {
    if k == 0 then start else
    var p := ChainAt(queues, start, k - 1);
    if p != "" && p in queues then queues[p].overflow else ""
  }

  predicate OnChain(queues: map<QueueId, Queue>, start: QueueId, k: nat) {
    ChainAt(queues, start, k) != "" && ChainAt(queues, start, k) in queues
  }

  /** The first of the chain's first `hops` positions whose queue serves somebody. */
  ghost predicate IsSearchResult(st: Store, start: QueueId, contact: ContactId, hops: nat,
                                 r: Option<(Agent, QueueId)>) {
    if r.None? then
      forall k: nat :: k < hops && OnChain(st.queues, start, k) ==> !Serves(st, ChainAt(st.queues, start, k))
    else
      exists k: nat :: k < hops && IsHit(st, start, contact, k, r.value)
  }

  ghost predicate IsHit(st: Store, start: QueueId, contact: ContactId, k: nat, hit: (Agent, QueueId)) {
    && OnChain(st.queues, start, k) && ChainAt(st.queues, start, k) == hit.1
    && QueueAnswers(st, hit.1, contact, Some(hit.0))
    && forall j: nat :: j < k ==>
         OnChain(st.queues, start, j) && !Serves(st, ChainAt(st.queues, start, j))
  }

  lemma {:induction false} ChainStaysEnded(queues: map<QueueId, Queue>, start: QueueId, j: nat, k: nat)
    requires j <= k && OnChain(queues, start, k)
    ensures OnChain(queues, start, j)
  {
    if j < k { ChainStaysEnded(queues, start, j, k - 1); }
  }

  /** Once the chain meets a queue again it only repeats. */
  lemma {:induction false} ChainRepeats(queues: map<QueueId, Queue>, start: QueueId, i: nat, j: nat, k: nat)
    requires i < j <= k && ChainAt(queues, start, i) == ChainAt(queues, start, j)
    ensures exists m: nat :: m < j && ChainAt(queues, start, m) == ChainAt(queues, start, k)
  {
    if k == j {
    } else {
      ChainRepeats(queues, start, i, j, k - 1);
      var m: nat :| m < j && ChainAt(queues, start, m) == ChainAt(queues, start, k - 1);
      assert ChainAt(queues, start, m + 1) == ChainAt(queues, start, k);
      if m + 1 == j { assert ChainAt(queues, start, i) == ChainAt(queues, start, k); }
    }
  }

  lemma SearchIsUnique(st: Store, start: QueueId, contact: ContactId, hops: nat,
                       r: Option<(Agent, QueueId)>, r': Option<(Agent, QueueId)>)
    requires Keyed(st)
    requires IsSearchResult(st, start, contact, hops, r) && IsSearchResult(st, start, contact, hops, r')
    ensures r == r'
  {
    if r.Some? && r'.Some? {
      var k: nat :| k < hops && IsHit(st, start, contact, k, r.value);
      var k': nat :| k' < hops && IsHit(st, start, contact, k', r'.value);
      assert k == k';
      var q := r.value.1;
      CandidateIdsDiffer(st, q);
      SelectionIsUnique(st.queues[q].strategy, Candidates(st, q), st.queues[q].required,
                        Hint(st, q, contact), SetLoad(Candidates(st, q)), Some(r.value.0), Some(r'.value.0));
    }
  }

  /** The same queues, each overflowing to the same one. */
  predicate SameLinks(queues: map<QueueId, Queue>, queues': map<QueueId, Queue>) {
    queues.Keys == queues'.Keys && forall q :: q in queues ==> queues[q].overflow == queues'[q].overflow
  }

  /** "None" means that no queue of the chain, at whatever distance, serves anybody. */
  ghost predicate Complete(st: Store, start: QueueId) {
    forall contact :: IsSearchResult(st, start, contact, MAX_OVERFLOW_HOPS, None) ==>
      forall k: nat :: OnChain(st.queues, start, k) ==> !Serves(st, ChainAt(st.queues, start, k))
  }

  /** Two of the chain's first nine positions are the same queue. */
  ghost predicate MeetsAgain(queues: map<QueueId, Queue>, start: QueueId) {
    exists i: nat, j: nat :: i < j <= 8 && ChainAt(queues, start, i) == ChainAt(queues, start, j)
  }

  lemma {:induction false} SameChain(queues: map<QueueId, Queue>, queues': map<QueueId, Queue>, start: QueueId, k: nat)
    requires SameLinks(queues, queues')
    ensures ChainAt(queues, start, k) == ChainAt(queues', start, k)
    ensures OnChain(queues, start, k) <==> OnChain(queues', start, k)
  {
    if k > 0 { SameChain(queues, queues', start, k - 1); }
  }

  /** A chain that ends within eight queues, or meets one of them again, is searched to its end. */
  lemma ShortChainIsSearched(st: Store, start: QueueId, contact: ContactId, k: nat)
    requires !OnChain(st.queues, start, 8) || MeetsAgain(st.queues, start)
    requires IsSearchResult(st, start, contact, MAX_OVERFLOW_HOPS, None) && OnChain(st.queues, start, k)
    ensures !Serves(st, ChainAt(st.queues, start, k))
  {
    if k >= MAX_OVERFLOW_HOPS {
      ChainStaysEnded(st.queues, start, MAX_OVERFLOW_HOPS, k);
      var i: nat, j: nat :|
        i < j <= 8 && ChainAt(st.queues, start, i) == ChainAt(st.queues, start, j);
      ChainRepeats(st.queues, start, i, j, k);
      var m: nat :| m < j && ChainAt(st.queues, start, m) == ChainAt(st.queues, start, k);
      assert OnChain(st.queues, start, m);
    }
  }

  /** A store with given links in which only one queue has anybody. */
  function OnlyServed(queues: map<QueueId, Queue>, served: QueueId): Store {
    Store(map[], map["ann" := Agent("ann", true, 1, 0, [])],
          map q | q in queues :: Queue(LeastBusy, queues[q].overflow, [], if q == served then {"ann"} else {}),
          map[])
  }

  lemma OnlyServedServes(queues: map<QueueId, Queue>, served: QueueId, q: QueueId)
    requires q in queues
    ensures Serves(OnlyServed(queues, served), q) <==> q == served
  {
    var st := OnlyServed(queues, served);
    if q == served { assert st.agents["ann"] in Eligible(Candidates(st, q), []); }
  }

  /** With nine different queues in a row the search misses the ninth. */
  lemma LongChainIsNotSearched(queues: map<QueueId, Queue>, start: QueueId)
    requires OnChain(queues, start, 8) && !MeetsAgain(queues, start)
    ensures var st := OnlyServed(queues, ChainAt(queues, start, MAX_OVERFLOW_HOPS));
      SameLinks(queues, st.queues) && !Complete(st, start)
  {
    var served := ChainAt(queues, start, MAX_OVERFLOW_HOPS);
    var st := OnlyServed(queues, served);
    assert SameLinks(queues, st.queues);
    forall k: nat | k <= MAX_OVERFLOW_HOPS
      ensures OnChain(st.queues, start, k) && ChainAt(st.queues, start, k) == ChainAt(queues, start, k)
      ensures Serves(st, ChainAt(st.queues, start, k)) <==> k == MAX_OVERFLOW_HOPS
    {
      SameChain(queues, st.queues, start, k);
      ChainStaysEnded(queues, start, k, MAX_OVERFLOW_HOPS);
      OnlyServedServes(queues, served, ChainAt(queues, start, k));
    }
    assert IsSearchResult(st, start, 0, MAX_OVERFLOW_HOPS, None);
  }

  /** The hop limit cannot be seen, in any store with these overflow links, exactly when the chain
      ends or repeats within its first nine positions. */
  lemma SearchIsCompleteIff(queues: map<QueueId, Queue>, start: QueueId)
    ensures (forall st: Store :: SameLinks(queues, st.queues) ==> Complete(st, start))
            <==> !OnChain(queues, start, 8) || MeetsAgain(queues, start)
  {
    if !OnChain(queues, start, MAX_OVERFLOW_HOPS) || MeetsAgain(queues, start) {
      forall st: Store | SameLinks(queues, st.queues) ensures Complete(st, start) {
        SameLinksMeetAgain(queues, st.queues, start);
        forall contact, k: nat
          | IsSearchResult(st, start, contact, MAX_OVERFLOW_HOPS, None) && OnChain(st.queues, start, k)
          ensures !Serves(st, ChainAt(st.queues, start, k))
        {
          ShortChainIsSearched(st, start, contact, k);
        }
      }
    } else {
      LongChainIsNotSearched(queues, start);
    }
  }

  lemma SameLinksMeetAgain(queues: map<QueueId, Queue>, queues': map<QueueId, Queue>, start: QueueId)
    requires SameLinks(queues, queues')
    ensures OnChain(queues, start, MAX_OVERFLOW_HOPS) <==> OnChain(queues', start, MAX_OVERFLOW_HOPS)
    ensures MeetsAgain(queues, start) ==> MeetsAgain(queues', start)
  {
    SameChain(queues, queues', start, MAX_OVERFLOW_HOPS);
    if MeetsAgain(queues, start) {
      var i: nat, j: nat :| i < j <= 8 && ChainAt(queues, start, i) == ChainAt(queues, start, j);
      SameChain(queues, queues', start, i);
      SameChain(queues, queues', start, j);
    }
  }

  /** In particular when at most eight different queues are reachable, existing or not. */
  lemma SearchIsComplete(st: Store, start: QueueId, reach: set<QueueId>)
    requires start in reach && |reach| <= 8
    requires forall q :: q in reach && q in st.queues ==> st.queues[q].overflow == "" || st.queues[q].overflow in reach
    ensures Complete(st, start)
  {
    if OnChain(st.queues, start, MAX_OVERFLOW_HOPS) {
      var walk := seq(MAX_OVERFLOW_HOPS + 1, i requires i >= 0 => ChainAt(st.queues, start, i));
      forall i | 0 <= i < |walk| ensures walk[i] in reach {
        ChainStaysEnded(st.queues, start, i, MAX_OVERFLOW_HOPS);
        ChainStaysIn(st, start, reach, i);
      }
      if Distinct(walk) {
        DistinctCardinality(walk);
        SubsetCardinality(Elements(walk), reach);
        assert false;
      }
      var i, j :| 0 <= i < j < |walk| && walk[i] == walk[j];
      assert MeetsAgain(st.queues, start);
    }
    SearchIsCompleteIff(st.queues, start);
    assert SameLinks(st.queues, st.queues);
  }

  lemma {:induction false} ChainStaysIn(st: Store, start: QueueId, reach: set<QueueId>, i: nat)
    requires start in reach && OnChain(st.queues, start, i)
    requires forall q :: q in reach && q in st.queues ==> st.queues[q].overflow == "" || st.queues[q].overflow in reach
    ensures ChainAt(st.queues, start, i) in reach
  {
    if i > 0 {
      ChainStaysEnded(st.queues, start, i - 1, i);
      ChainStaysIn(st, start, reach, i - 1);
    }
  }

  function Name(k: nat): QueueId { seq(k + 1, _ => 'q') }

  /** Nine queues in a row, each overflowing into the next; only the ninth has somebody. */
  function NineQueues(): Store {
    Store(map[], map["ann" := Agent("ann", true, 1, 0, [])],
          map q | q in set k: nat | k < 9 :: Name(k) ::
            Queue(LeastBusy, if |q| < 9 then q + "q" else "", [], if |q| == 9 then {"ann"} else {}),
          map[])
  }

  lemma {:induction false} NineQueuesChain(k: nat)
    requires k < 9
    ensures OnChain(NineQueues().queues, Name(0), k) && ChainAt(NineQueues().queues, Name(0), k) == Name(k)
  {
    assert Name(k) in NineQueues().queues;
    if k > 0 {
      NineQueuesChain(k - 1);
      assert Name(k - 1) + "q" == Name(k);
    }
  }

  /** An instance: the search answers "none" although somebody is free. */
  lemma NinthQueueIsNotAsked()
    ensures IsSearchResult(NineQueues(), Name(0), 0, MAX_OVERFLOW_HOPS, None) && !Complete(NineQueues(), Name(0))
    ensures OnChain(NineQueues().queues, Name(0), 8) && Serves(NineQueues(), ChainAt(NineQueues().queues, Name(0), 8))
  {
    var st := NineQueues();
    forall k: nat | k < 9 ensures OnChain(st.queues, Name(0), k) && ChainAt(st.queues, Name(0), k) == Name(k) {
      NineQueuesChain(k);
    }
    assert st.agents["ann"] in Eligible(Candidates(st, Name(8)), []);
    assert IsSearchResult(st, Name(0), 0, MAX_OVERFLOW_HOPS, None);
  }

  // ---- loads ----

  /** IncLoad: an unknown agent is no row to update; a load does not go below zero. */
  function IncLoad(agents: map<AgentId, Agent>, id: AgentId, delta: int): map<AgentId, Agent> {
    if id in agents then agents[id := agents[id].(load := Max(0, agents[id].load + delta))] else agents
  }

  function AdjustLoad(agents: map<AgentId, Agent>, before: AgentId, after: AgentId): map<AgentId, Agent> {
    if before == after then agents else
    var released := if before != "" then IncLoad(agents, before, -1) else agents;
    if after != "" then IncLoad(released, after, 1) else released
  }

  // ---- steps ----

  /** A manual operation rewrites the conversation and moves the load with it. */
  function WithConv(st: Store, c: ConvId, row: ConvRow): Store
    requires c in st.convs
  {
    st.(convs := st.convs[c := row],
        agents := AdjustLoad(st.agents, OccupiedAgent(st.convs[c]), OccupiedAgent(row)))
  }

  datatype Op =
    | Create(conv: ConvId, contact: ContactId, externalId: string)
    | Assign(conv: ConvId, agent: string)
    | Unassign(conv: ConvId)
    | Resolve(conv: ConvId)
    | AutoAssign(conv: ConvId)

  function NewConversation(contact: ContactId, externalId: string): ConvRow {
    ConvRow(Open, contact, Trim(externalId), "")
  }

  datatype AutoResult = Assigned(agent: AgentId) | Unchanged | Failed

  /** The store after an automatic assignment to `a`. */
  function Assigning(st: Store, c: ConvId, a: AgentId): Store
    requires c in st.convs
  {
    st.(convs := st.convs[c := AssignRow(st.convs[c], a)],
        agents := IncLoad(st.agents, a, 1),
        sticky := st.sticky[st.convs[c].contact := a])
  }

  /** AutoAssign: the conversation's queue is its external id. Without one the default queue is
      looked up but, the queue id not being stored, the search starts nowhere. */
  ghost predicate AutoStep(st: Store, c: ConvId, st': Store, res: AutoResult) {
    if c !in st.convs then st' == st && res == Failed
    else if st.convs[c].assignee != "" then st' == st && res == Unchanged
    else exists r ::
      && IsSearchResult(st, st.convs[c].externalId, st.convs[c].contact, MAX_OVERFLOW_HOPS, r)
      && AutoOutcome(st, c, r, st', res)
  }

  ghost predicate AutoOutcome(st: Store, c: ConvId, r: Option<(Agent, QueueId)>, st': Store, res: AutoResult)
    requires c in st.convs
  {
    if r.None? then st' == st && res == Unchanged
    else if st.convs[c].status.Resolved? then st' == st && res == Failed
    else st' == Assigning(st, c, r.value.0.id) && res == Assigned(r.value.0.id)
  }

  ghost predicate Step(st: Store, op: Op, st': Store) {
    match op
    case Create(c, contact, ext) =>
      if c in st.convs then st' == st
      else st' == st.(convs := st.convs[c := NewConversation(contact, ext)])
    case Assign(c, agent) =>
      st' == if c in st.convs then WithConv(st, c, AssignRow(st.convs[c], agent)) else st
    case Unassign(c) =>
      st' == if c in st.convs then WithConv(st, c, AssignRow(st.convs[c], "")) else st
    case Resolve(c) =>
      st' == if c in st.convs then WithConv(st, c, ResolveRow(st.convs[c])) else st
    case AutoAssign(c) =>
      exists res :: AutoStep(st, c, st', res)
  }

  /** A conversation without a queue of its own is never assigned, default queue or not. */
  lemma DefaultQueueIsNeverUsed(st: Store, c: ConvId, st': Store, res: AutoResult)
    requires c in st.convs && st.convs[c].externalId == "" && AutoStep(st, c, st', res)
    ensures st' == st && res == Unchanged
  {
    if st.convs[c].assignee == "" {
      var r :| IsSearchResult(st, "", st.convs[c].contact, MAX_OVERFLOW_HOPS, r) && AutoOutcome(st, c, r, st', res);
      if r.Some? {
        var k: nat :| k < MAX_OVERFLOW_HOPS && IsHit(st, "", st.convs[c].contact, k, r.value);
        ChainStaysEnded(st.queues, "", 0, k);
        assert false;
      }
    }
  }

  lemma AutoStepIsDeterministic(st: Store, c: ConvId, st1: Store, res1: AutoResult, st2: Store, res2: AutoResult)
    requires Keyed(st) && AutoStep(st, c, st1, res1) && AutoStep(st, c, st2, res2)
    ensures st1 == st2 && res1 == res2
  {
    if c in st.convs && st.convs[c].assignee == "" {
      var start, contact := st.convs[c].externalId, st.convs[c].contact;
      var r1 :| IsSearchResult(st, start, contact, MAX_OVERFLOW_HOPS, r1) && AutoOutcome(st, c, r1, st1, res1);
      var r2 :| IsSearchResult(st, start, contact, MAX_OVERFLOW_HOPS, r2) && AutoOutcome(st, c, r2, st2, res2);
      SearchIsUnique(st, start, contact, MAX_OVERFLOW_HOPS, r1, r2);
    }
  }

  // ---- the ledger ----

  /** The open conversations that take up capacity of an agent. */
  ghost function Held(convs: map<ConvId, ConvRow>, a: AgentId): set<ConvId> {
    set c | c in convs && a != "" && convs[c].assignee == a && convs[c].status.Open?
  }

  /** Agent ids that trimming leaves as they are, and that are not empty. */
  ghost predicate CleanIds(st: Store) {
    forall id :: id in st.agents ==> id != "" && Trim(id) == id
  }

  /** Every load is the number of open conversations assigned to the agent. */
  ghost predicate Balanced(st: Store) {
    forall id :: id in st.agents ==> st.agents[id].load == |Held(st.convs, id)|
  }

  ghost predicate NonePending(st: Store) {
    forall c :: c in st.convs ==> !st.convs[c].status.Pending?
  }

  ghost predicate Ledger(st: Store) {
    Keyed(st) && CleanIds(st) && Balanced(st) && NonePending(st)
  }

  ghost predicate WithinCapacity(st: Store) {
    forall id :: id in st.agents ==> st.agents[id].load <= st.agents[id].maxLoad
  }

  lemma HeldAfter(convs: map<ConvId, ConvRow>, c: ConvId, row: ConvRow, a: AgentId)
    requires a != ""
    ensures var was := c in convs && OccupiedAgent(convs[c]) == a;
      |Held(convs[c := row], a)| ==
        |Held(convs, a)| - (if was then 1 else 0) + (if OccupiedAgent(row) == a then 1 else 0)
  {
    var others := set x | x in convs && x != c && OccupiedAgent(convs[x]) == a;
    HeldSplits(convs, c, a, others);
    HeldSplits(convs[c := row], c, a, others);
  }

  lemma HeldSplits(convs: map<ConvId, ConvRow>, c: ConvId, a: AgentId, others: set<ConvId>)
    requires a != "" && c !in others
    requires forall x :: x != c ==> (x in others <==> x in convs && OccupiedAgent(convs[x]) == a)
    ensures |Held(convs, a)| == |others| + (if c in convs && OccupiedAgent(convs[c]) == a then 1 else 0)
  {
    if c in convs && OccupiedAgent(convs[c]) == a {
      assert Held(convs, a) == others + {c};
    } else {
      assert Held(convs, a) == others;
    }
  }

  /** A conversation that occupies an agent is counted in its load, so releasing it never meets
      the clamp at zero. */
  lemma ReleaseNeverClamps(st: Store, c: ConvId)
    requires Ledger(st) && c in st.convs && OccupiedAgent(st.convs[c]) in st.agents
    ensures st.agents[OccupiedAgent(st.convs[c])].load >= 1
  {
    var a := OccupiedAgent(st.convs[c]);
    assert c in Held(st.convs, a);
    assert Held(st.convs, a) == {c} + (Held(st.convs, a) - {c});
  }

  lemma RewriteKeepsLedger(st: Store, c: ConvId, row: ConvRow)
    requires Ledger(st) && c in st.convs && !row.status.Pending?
    ensures Ledger(WithConv(st, c, row))
  {
    var st' := WithConv(st, c, row);
    var before, after := OccupiedAgent(st.convs[c]), OccupiedAgent(row);
    if before in st.agents { ReleaseNeverClamps(st, c); }
    forall id | id in st'.agents ensures st'.agents[id].load == |Held(st'.convs, id)| {
      HeldAfter(st.convs, c, row, id);
    }
  }

  lemma CreateKeepsLedger(st: Store, c: ConvId, contact: ContactId, ext: string)
    requires Ledger(st) && c !in st.convs
    ensures Ledger(st.(convs := st.convs[c := NewConversation(contact, ext)]))
  {
    var row := NewConversation(contact, ext);
    forall id | id in st.agents ensures st.agents[id].load == |Held(st.convs[c := row], id)| {
      HeldAfter(st.convs, c, row, id);
    }
  }

  lemma AssigningKeepsLedger(st: Store, c: ConvId, a: AgentId)
    requires Ledger(st) && c in st.convs && st.convs[c].assignee == "" && st.convs[c].status.Open?
    requires a in st.agents
    ensures Ledger(Assigning(st, c, a))
  {
    var st' := Assigning(st, c, a);
    forall id | id in st'.agents ensures st'.agents[id].load == |Held(st'.convs, id)| {
      HeldAfter(st.convs, c, st'.convs[c], id);
    }
  }

  /** What an assigning AutoStep has found: an unassigned, unresolved conversation and an agent of
      the store with capacity. */
  lemma AutoStepFacts(st: Store, c: ConvId, st': Store, res: AutoResult)
    requires Keyed(st) && AutoStep(st, c, st', res)
    ensures res.Assigned? ==>
      && c in st.convs && st.convs[c].assignee == "" && !st.convs[c].status.Resolved?
      && res.agent in st.agents && HasCapacity(st.agents[res.agent])
      && st' == Assigning(st, c, res.agent)
    ensures !res.Assigned? ==> st' == st
  {
    if res.Assigned? {
      var r :| IsSearchResult(st, st.convs[c].externalId, st.convs[c].contact, MAX_OVERFLOW_HOPS, r)
        && AutoOutcome(st, c, r, st', res);
      var k: nat :| k < MAX_OVERFLOW_HOPS
        && IsHit(st, st.convs[c].externalId, st.convs[c].contact, k, r.value);
      assert r.value.0 in Candidates(st, r.value.1);
    }
  }

  lemma StepKeepsLedger(st: Store, op: Op, st': Store)
    requires Ledger(st) && Step(st, op, st')
    ensures Ledger(st')
  {
    match op
    case Create(c, contact, ext) =>
      if c !in st.convs { CreateKeepsLedger(st, c, contact, ext); }
    case Assign(c, agent) =>
      if c in st.convs { RewriteKeepsLedger(st, c, AssignRow(st.convs[c], agent)); }
    case Unassign(c) =>
      if c in st.convs { RewriteKeepsLedger(st, c, AssignRow(st.convs[c], "")); }
    case Resolve(c) =>
      if c in st.convs { RewriteKeepsLedger(st, c, ResolveRow(st.convs[c])); }
    case AutoAssign(c) =>
      var res :| AutoStep(st, c, st', res);
      AutoStepFacts(st, c, st', res);
      if res.Assigned? { AssigningKeepsLedger(st, c, res.agent); }
  }

  lemma StepKeepsCapacity(st: Store, op: Op, st': Store)
    requires Ledger(st) && WithinCapacity(st) && Step(st, op, st') && !op.Assign?
    ensures WithinCapacity(st')
  {
    match op
    case Unassign(c) =>
      if c in st.convs && OccupiedAgent(st.convs[c]) in st.agents { ReleaseNeverClamps(st, c); }
    case Resolve(c) =>
      if c in st.convs && OccupiedAgent(st.convs[c]) in st.agents { ReleaseNeverClamps(st, c); }
    case AutoAssign(c) =>
      var res :| AutoStep(st, c, st', res);
      AutoStepFacts(st, c, st', res);
    case _ =>
  }

  /** Exactly when a manual Assign keeps every load within the maximum: the target is no agent of the
      store, already holds the conversation, or has a free slot, or the conversation is not open. */
  lemma AssignKeepsCapacityIff(st: Store, c: ConvId, agent: string)
    requires Ledger(st) && WithinCapacity(st) && c in st.convs
    ensures WithinCapacity(WithConv(st, c, AssignRow(st.convs[c], agent))) <==>
            || !st.convs[c].status.Open? || Trim(agent) !in st.agents
            || OccupiedAgent(st.convs[c]) == Trim(agent) || HasCapacity(st.agents[Trim(agent)])
  {
    var row := AssignRow(st.convs[c], agent);
    var before, after := OccupiedAgent(st.convs[c]), OccupiedAgent(row);
    var st' := WithConv(st, c, row);
    if before in st.agents { ReleaseNeverClamps(st, c); }
    if st.convs[c].status.Open? && after in st.agents && before != after {
      assert st'.agents[after].load == st.agents[after].load + 1;
    }
  }

  /** A run: each store follows from the one before by one operation. */
  ghost predicate IsRun(stores: seq<Store>, ops: seq<Op>) {
    && |stores| == |ops| + 1
    && forall i :: 0 <= i < |ops| ==> Step(stores[i], ops[i], stores[i + 1])
  }

  /** Load conservation over every run of creations, manual and automatic assignments. */
  lemma {:induction false} LoadsAreConserved(stores: seq<Store>, ops: seq<Op>, i: nat)
    requires IsRun(stores, ops) && Ledger(stores[0]) && i < |stores|
    ensures Ledger(stores[i])
  {
    if i > 0 {
      LoadsAreConserved(stores, ops, i - 1);
      StepKeepsLedger(stores[i - 1], ops[i - 1], stores[i]);
    }
  }

  /** Only a manual Assign can overload an agent. */
  lemma {:induction false} CapacityHoldsWithoutManualAssign(stores: seq<Store>, ops: seq<Op>, i: nat)
    requires IsRun(stores, ops) && Ledger(stores[0]) && WithinCapacity(stores[0]) && i < |stores|
    requires forall op :: op in ops ==> !op.Assign?
    ensures WithinCapacity(stores[i])
  {
    if i > 0 {
      LoadsAreConserved(stores, ops, i - 1);
      CapacityHoldsWithoutManualAssign(stores, ops, i - 1);
      StepKeepsCapacity(stores[i - 1], ops[i - 1], stores[i]);
    }
  }

  /** Why agent ids must be clean: the conversation records the trimmed id, the load is raised
      under the id as it is. An automatic assignment keeps the balance exactly when they agree. */
  lemma AutoAssignBalancesIff(st: Store, c: ConvId, a: AgentId)
    requires Keyed(st) && Balanced(st) && a in st.agents
    requires c in st.convs && st.convs[c].assignee == "" && st.convs[c].status.Open?
    ensures Balanced(Assigning(st, c, a)) <==> a != "" && Trim(a) == a
  {
    var st' := Assigning(st, c, a);
    if a == "" {
      assert Held(st.convs, a) == {} && Held(st'.convs, a) == {};
    } else {
      HeldAfter(st.convs, c, st'.convs[c], a);
    }
    if a != "" && Trim(a) == a {
      forall id | id in st'.agents ensures st'.agents[id].load == |Held(st'.convs, id)| {
        if id == "" {
          assert Held(st.convs, id) == {} && Held(st'.convs, id) == {};
        } else {
          HeldAfter(st.convs, c, st'.convs[c], id);
        }
      }
    } else {
      assert st'.agents[a].load != |Held(st'.convs, a)|;
    }
  }
}

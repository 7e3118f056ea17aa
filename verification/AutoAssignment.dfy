/** What automatic assignment means in the fields of agents and queues. */
module AutoAssignment {
  import opened Common
  import opened Acd
  import opened Selection
  import opened Routing

  /** An agent of the queue that is online, has a free slot and the required skills. */
  ghost predicate Serving(st: Store, q: QueueId, id: AgentId) {
    && q in st.queues && id in st.queues[q].pool && id in st.agents
    && CanServe(st.agents[id], st.queues[q].required)
  }

  lemma ServesIff(st: Store, q: QueueId)
    requires q in st.queues
    ensures Serves(st, q) <==> exists id :: Serving(st, q, id)
  {
    var eligible := Eligible(Candidates(st, q), st.queues[q].required);
    forall id | Serving(st, q, id) ensures st.agents[id] in eligible {
      EligibleIsCanServe(st.agents[id], st.queues[q].required);
    }
    if a :| a in eligible {
      EligibleIsCanServe(a, st.queues[q].required);
      var id :| id in st.queues[q].pool && id in st.agents && st.agents[id] == a;
      assert Serving(st, q, id);
    }
  }

  /** The conversation is to be assigned: it has nobody and is not resolved. */
  predicate IsOpenCase(st: Store, c: ConvId) {
    c in st.convs && st.convs[c].assignee == "" && !st.convs[c].status.Resolved?
  }

  /** An assignment is to an agent that serves the first queue, within eight of the overflow chain, that
      anybody serves. */
  lemma AssignedIsServing(st: Store, c: ConvId, st': Store, res: AutoResult) returns (k: nat)
    requires Keyed(st) && AutoStep(st, c, st', res) && res.Assigned?
    ensures IsOpenCase(st, c) && k < 8
    ensures var start := st.convs[c].externalId;
            && Serving(st, ChainAt(st.queues, start, k), res.agent)
            && st.agents[res.agent].online && st.agents[res.agent].load < st.agents[res.agent].maxLoad
            && forall j: nat, id :: j < k ==> !Serving(st, ChainAt(st.queues, start, j), id)
  {
    AutoStepFacts(st, c, st', res);
    var start, contact := st.convs[c].externalId, st.convs[c].contact;
    var r :| IsSearchResult(st, start, contact, MAX_OVERFLOW_HOPS, r) && AutoOutcome(st, c, r, st', res);
    k :| k < MAX_OVERFLOW_HOPS && IsHit(st, start, contact, k, r.value);
    var a, q := r.value.0, r.value.1;
    EligibleIsCanServe(a, st.queues[q].required);
    forall j: nat, id | j < k ensures !Serving(st, ChainAt(st.queues, start, j), id) {
      ServesIff(st, ChainAt(st.queues, start, j));
    }
  }

  /** A conversation that stays unassigned: nobody serves any of the first eight queues of its chain. */
  lemma UnassignedIsUnserved(st: Store, c: ConvId, st': Store, res: AutoResult, k: nat, id: AgentId)
    requires Keyed(st) && AutoStep(st, c, st', res) && IsOpenCase(st, c) && !res.Assigned? && k < 8
    ensures OnChain(st.queues, st.convs[c].externalId, k) ==>
              !Serving(st, ChainAt(st.queues, st.convs[c].externalId, k), id)
    ensures st' == st
  {
    var start, contact := st.convs[c].externalId, st.convs[c].contact;
    var r :| IsSearchResult(st, start, contact, MAX_OVERFLOW_HOPS, r) && AutoOutcome(st, c, r, st', res);
    if OnChain(st.queues, start, k) { ServesIff(st, ChainAt(st.queues, start, k)); }
  }

  /** A resolved conversation without an agent: an error if somebody serves its queues, and no change. */
  lemma ResolvedIsNotAssigned(st: Store, c: ConvId, st': Store, res: AutoResult, k: nat, id: AgentId)
    requires Keyed(st) && AutoStep(st, c, st', res) && c in st.convs
    requires st.convs[c].assignee == "" && st.convs[c].status.Resolved?
    ensures st' == st && !res.Assigned?
    ensures (k < 8 && OnChain(st.queues, st.convs[c].externalId, k)
             && Serving(st, ChainAt(st.queues, st.convs[c].externalId, k), id)) ==> res == Failed
  {
    var start, contact := st.convs[c].externalId, st.convs[c].contact;
    var r :| IsSearchResult(st, start, contact, MAX_OVERFLOW_HOPS, r) && AutoOutcome(st, c, r, st', res);
    if k < 8 && OnChain(st.queues, start, k) { ServesIff(st, ChainAt(st.queues, start, k)); }
  }

  /** What an assignment changes: the conversation has the agent, the agent one more, the contact is
      kept with it, and nothing else. */
  lemma AssignmentRecords(st: Store, c: ConvId, st': Store, res: AutoResult)
    requires Keyed(st) && AutoStep(st, c, st', res) && res.Assigned?
    ensures res.agent in st.agents && IsOpenCase(st, c)
    ensures var was, a := st.convs[c], st.agents[res.agent];
            && st'.convs == st.convs[c := was.(assignee := Trim(res.agent))]
            && (a.load >= 0 ==> st'.agents == st.agents[res.agent := a.(load := a.load + 1)])
            && st'.sticky == st.sticky[was.contact := res.agent]
            && st'.queues == st.queues
  {
    AutoStepFacts(st, c, st', res);
  }

  /** A queue that serves by load gives the agent with the least, the least id among equals. */
  lemma LeastLoadedIsChosen(st: Store, c: ConvId, st': Store, res: AutoResult, q: QueueId, id: AgentId)
    requires Keyed(st) && AutoStep(st, c, st', res) && IsOpenCase(st, c)
    requires st.convs[c].externalId == q && q != "" && q in st.queues
    requires !st.queues[q].strategy.RoundRobin? && !st.queues[q].strategy.Sticky? && Serving(st, q, id)
    ensures res.Assigned? && Serving(st, q, res.agent)
    ensures var a, b := st.agents[res.agent], st.agents[id];
            a.load < b.load || (a.load == b.load && !Less(b.id, a.id))
  {
    var contact := st.convs[c].contact;
    var r :| IsSearchResult(st, q, contact, MAX_OVERFLOW_HOPS, r) && AutoOutcome(st, c, r, st', res);
    ServesIff(st, q);
    assert OnChain(st.queues, q, 0) && ChainAt(st.queues, q, 0) == q;
    var k: nat :| k < MAX_OVERFLOW_HOPS && IsHit(st, q, contact, k, r.value);
    assert k == 0;
    EligibleIsCanServe(st.agents[id], st.queues[q].required);
    EligibleIsCanServe(r.value.0, st.queues[q].required);
    assert st.agents[id] in Eligible(Candidates(st, q), st.queues[q].required);
  }

  // ---- sticky queues ----

  /** A sticky queue gives a contact the agent it is kept with, while that agent serves the queue. */
  lemma StickyAgentAnswers(st: Store, c: ConvId, st': Store, res: AutoResult, q: QueueId, a: AgentId)
    requires Keyed(st) && AutoStep(st, c, st', res) && IsOpenCase(st, c)
    requires st.convs[c].externalId == q && q != "" && q in st.queues && st.queues[q].strategy.Sticky?
    requires st.convs[c].contact in st.sticky && st.sticky[st.convs[c].contact] == a && a != ""
    requires Serving(st, q, a)
    ensures res == Assigned(a)
  {
    var contact := st.convs[c].contact;
    var r :| IsSearchResult(st, q, contact, MAX_OVERFLOW_HOPS, r) && AutoOutcome(st, c, r, st', res);
    ServesIff(st, q);
    assert OnChain(st.queues, q, 0) && ChainAt(st.queues, q, 0) == q;
    assert r.Some?;
    var k: nat :| k < MAX_OVERFLOW_HOPS && IsHit(st, q, contact, k, r.value);
    assert k == 0;
    EligibleIsCanServe(st.agents[a], st.queues[q].required);
    assert st.agents[a] in Eligible(Candidates(st, q), st.queues[q].required);
  }

  /** So the next conversation of a contact goes to the agent of the one before, from whatever queue that
      was, as long as the agent serves the sticky queue it waits in. */
  lemma ContactStaysWithAgent(
    st: Store, c: ConvId, mid: Store, a: AgentId, later: Store, d: ConvId, st': Store, res: AutoResult, q: QueueId)
    requires Keyed(st) && AutoStep(st, c, mid, Assigned(a)) && a != ""
    requires Keyed(later) && AutoStep(later, d, st', res) && IsOpenCase(later, d)
    requires later.sticky == mid.sticky && c in st.convs && later.convs[d].contact == st.convs[c].contact
    requires later.convs[d].externalId == q && q != "" && q in later.queues && later.queues[q].strategy.Sticky?
    requires Serving(later, q, a)
    ensures res == Assigned(a)
  {
    AssignmentRecords(st, c, mid, Assigned(a));
    StickyAgentAnswers(later, d, st', res, q, a);
  }
}

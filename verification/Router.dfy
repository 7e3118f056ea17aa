/** The router over its store: every operation is one step of module Routing. */
module RouterProgram {
  import opened Common
  import opened Acd
  import opened Selection
  import opened Routing

  /** What Router.mutate is asked to do to the loaded conversation. */
  datatype Change = SetAgent(agent: string) | Close

  class Router {
    var convs: map<ConvId, ConvRow>
    var agents: map<AgentId, Agent>
    var queues: map<QueueId, Queue>
    var sticky: map<ContactId, AgentId>

    constructor (st: Store)
      ensures St() == st
    {
      convs, agents, queues, sticky := st.convs, st.agents, st.queues, st.sticky;
    }

    function St(): Store
      reads this
    {
      Store(convs, agents, queues, sticky)
    }

    // ---- manual operations ----

    method Create(c: ConvId, contact: ContactId, externalId: string)
      requires c !in convs
      modifies this
      ensures Step(old(St()), Routing.Create(c, contact, externalId), St())
      ensures convs == old(convs)[c := ConvRow(Open, contact, Trim(externalId), "")]
    {
      convs := convs[c := NewConversation(contact, externalId)];
    }

    method Assign(c: ConvId, agent: string) returns (ok: bool)
      modifies this
      ensures Step(old(St()), Routing.Assign(c, agent), St()) && ok == (c in old(convs))
      ensures ok ==> var was := old(convs)[c];
                     convs == old(convs)[c := if was.status.Resolved? then was else was.(assignee := Trim(agent))]
    {
      ok := Mutate(c, SetAgent(agent));
    }

    method Unassign(c: ConvId) returns (ok: bool)
      modifies this
      ensures Step(old(St()), Routing.Unassign(c), St()) && ok == (c in old(convs))
      ensures ok ==> var was := old(convs)[c];
                     convs == old(convs)[c := if was.status.Resolved? then was else was.(assignee := "")]
    {
      ok := Mutate(c, SetAgent(""));
    }

    method Resolve(c: ConvId) returns (ok: bool)
      modifies this
      ensures Step(old(St()), Routing.Resolve(c), St()) && ok == (c in old(convs))
      ensures ok ==> convs == old(convs)[c := old(convs)[c].(status := ConvStatus.Resolved)]
    {
      ok := Mutate(c, Close);
    }

    /** Load, change, write back, move the load. The aggregate's own error is ignored. */
    method Mutate(c: ConvId, change: Change) returns (ok: bool)
      modifies this
      ensures ok == (c in old(convs))
      ensures St() == if ok
        then WithConv(old(St()), c,
               match change
               case SetAgent(agent) => AssignRow(old(convs)[c], agent)
               case Close => ResolveRow(old(convs)[c]))
        else old(St())
    {
      if c !in convs { return false; }
      var conv := new Conversation.FromRow(convs[c]);
      var before := OccupiedAgent(conv.Row());
      match change {
        case SetAgent(agent) => var _ := conv.Assign(agent);
        case Close => var _ := conv.Resolve();
      }
      convs := convs[c := conv.Row()];
      MoveLoad(before, OccupiedAgent(conv.Row()));
      return true;
    }

    method MoveLoad(before: AgentId, after: AgentId)
      modifies this`agents
      ensures agents == AdjustLoad(old(agents), before, after)
    {
      if before == after { return; }
      if before != "" { IncLoadRow(before, -1); }
      if after != "" { IncLoadRow(after, 1); }
    }

    method IncLoadRow(id: AgentId, delta: int)
      modifies this`agents
      ensures agents == IncLoad(old(agents), id, delta)
      ensures agents.Keys == old(agents).Keys && forall x :: x in agents && x != id ==> agents[x] == old(agents)[x]
      ensures id in agents ==>
                var was := old(agents)[id];
                agents[id] == was.(load := if was.load + delta < 0 then 0 else was.load + delta)
    {
      if id in agents {
        agents := agents[id := agents[id].(load := Max(0, agents[id].load + delta))];
      }
    }

    // ---- automatic assignment ----

    /** The agents of a queue's pool, in any order. */
    method CandidateList(q: QueueId) returns (out: seq<Agent>)
      requires Keyed(St()) && q in queues
      ensures Distinct(out) && Elements(out) == Candidates(St(), q)
    {
      var ids := set id | id in queues[q].pool && id in agents;
      var order := TakeAny(ids, |ids|);
      DistinctCardinality(order);
      SubsetCardinality(Elements(order), ids);
      out := [];
      for i := 0 to |order|
        invariant |out| == i && forall j :: 0 <= j < i ==> order[j] in agents && out[j] == agents[order[j]]
      {
        assert order[i] in Elements(order);
        out := out + [agents[order[i]]];
      }
      forall j | 0 <= j < |out| ensures out[j] in Candidates(St(), q) {
        assert order[j] in Elements(order);
      }
      forall a | a in Candidates(St(), q) ensures a in Elements(out) {
        assert a.id in Elements(order);
        var j :| 0 <= j < |order| && order[j] == a.id;
        assert out[j] == a;
      }
    }

    /** Walk the overflow chain until a queue serves somebody. */
    method PickAgent(start: QueueId, contact: ContactId) returns (r: Option<(Agent, QueueId)>)
      requires Keyed(St())
      ensures IsSearchResult(St(), start, contact, MAX_OVERFLOW_HOPS, r)
    {
      var visited: set<QueueId> := {};
      var q := start;
      var hop := 0;
      while hop < MAX_OVERFLOW_HOPS && q != ""
        invariant 0 <= hop <= MAX_OVERFLOW_HOPS && q == ChainAt(queues, start, hop)
        invariant Searched(St(), start, hop, visited)
        decreases MAX_OVERFLOW_HOPS - hop
      {
        if q in visited {
          SearchedAll(St(), start, hop);
          return None;
        }
        ghost var before := visited;
        visited := visited + {q};
        if q !in queues {
          ChainEnded(St(), start, hop);
          return None;
        }
        var candidates := CandidateList(q);
        var hint := if queues[q].strategy.Sticky? && contact in sticky then sticky[contact] else "";
        var seed := RoundRobinSeed(candidates);
        CandidateIdsDiffer(St(), q);
        var choice := Select(queues[q].strategy, candidates, queues[q].required, hint, seed);
        if choice.Some? {
          InVainSoFar(St(), start, hop);
          assert IsHit(St(), start, contact, hop, (choice.value, q));
          return Some((choice.value, q));
        }
        OneMoreSearched(St(), start, hop, before, q);
        q := queues[q].overflow;
        hop := hop + 1;
      }
      InVainSoFar(St(), start, hop);
      if hop < MAX_OVERFLOW_HOPS { ChainEnded(St(), start, hop); }
      return None;
    }

    /** Assign an unassigned conversation to the agent its queue, or an overflow queue, picks. An
        error rolls the transaction back. `hasDefault` says whether a default queue exists. */
    method AutoAssign(c: ConvId, hasDefault: bool) returns (res: AutoResult)
      requires Keyed(St())
      modifies this
      ensures AutoStep(old(St()), c, St(), res)
    {
      if c !in convs { return Failed; }
      var conv := new Conversation.FromRow(convs[c]);
      if conv.assignee != "" { return Unchanged; }
      if conv.externalId == "" && !hasDefault {
        ChainEnded(St(), "", 0);
        assert IsSearchResult(St(), "", conv.contact, MAX_OVERFLOW_HOPS, None);
        return Unchanged;
      }
      var r := PickAgent(conv.externalId, conv.contact);
      if r.None? { return Unchanged; }
      var ok := conv.Assign(r.value.0.id);
      if !ok { return Failed; }
      convs := convs[c := conv.Row()];
      IncLoadRow(r.value.0.id, 1);
      sticky := sticky[conv.contact := r.value.0.id];
      return Assigned(r.value.0.id);
    }
  }

  /** Position `i` of the chain has been asked in vain. */
  ghost predicate InVain(st: Store, start: QueueId, i: nat) {
    OnChain(st.queues, start, i) && !Serves(st, ChainAt(st.queues, start, i))
  }

  predicate IsAt(st: Store, start: QueueId, i: nat, q: QueueId) { ChainAt(st.queues, start, i) == q }

  ghost predicate Searched(st: Store, start: QueueId, hop: nat, visited: set<QueueId>) {
    && (forall i: nat :: i < hop ==> InVain(st, start, i))
    && forall q :: q in visited ==> exists i: nat :: i < hop && IsAt(st, start, i, q)
  }

  lemma OneMoreSearched(st: Store, start: QueueId, hop: nat, visited: set<QueueId>, here: QueueId)
    requires Searched(st, start, hop, visited) && InVain(st, start, hop) && IsAt(st, start, hop, here)
    ensures Searched(st, start, hop + 1, visited + {here})
  {
  }

  lemma InVainSoFar(st: Store, start: QueueId, hop: nat)
    requires forall i: nat :: i < hop ==> InVain(st, start, i)
    ensures forall i: nat :: i < hop ==> OnChain(st.queues, start, i) && !Serves(st, ChainAt(st.queues, start, i))
  {
    forall i: nat | i < hop ensures OnChain(st.queues, start, i) && !Serves(st, ChainAt(st.queues, start, i)) {
      assert InVain(st, start, i);
    }
  }

  lemma ChainEnded(st: Store, start: QueueId, hop: nat)
    requires !OnChain(st.queues, start, hop) && forall i: nat :: i < hop ==> InVain(st, start, i)
    ensures forall k: nat :: OnChain(st.queues, start, k) ==> !Serves(st, ChainAt(st.queues, start, k))
  {
    forall k: nat | OnChain(st.queues, start, k) ensures !Serves(st, ChainAt(st.queues, start, k)) {
      if hop <= k { ChainStaysEnded(st.queues, start, hop, k); }
      assert InVain(st, start, k);
    }
  }

  /** A queue met again closes the search: every later position repeats an asked queue. */
  lemma SearchedAll(st: Store, start: QueueId, hop: nat)
    requires exists i: nat :: i < hop && IsAt(st, start, i, ChainAt(st.queues, start, hop))
    requires forall i: nat :: i < hop ==> InVain(st, start, i)
    ensures forall k: nat :: OnChain(st.queues, start, k) ==> !Serves(st, ChainAt(st.queues, start, k))
  {
    var i: nat :| i < hop && IsAt(st, start, i, ChainAt(st.queues, start, hop));
    forall k: nat | OnChain(st.queues, start, k) ensures !Serves(st, ChainAt(st.queues, start, k)) {
      if hop <= k {
        ChainRepeats(st.queues, start, i, hop, k);
        var m: nat :| m < hop && ChainAt(st.queues, start, m) == ChainAt(st.queues, start, k);
        assert InVain(st, start, m);
      } else {
        assert InVain(st, start, k);
      }
    }
  }
}

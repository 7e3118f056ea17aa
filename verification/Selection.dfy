/** Choosing an agent from a queue's candidates. */
module Selection {
  import opened Common
  import opened Acd

  predicate IsEligible(a: Agent, required: seq<RequiredSkill>) {
    a.online && HasCapacity(a) && Meets(a, required)
  }

  /** Eligible, in the agent's own fields: online, below its maximum, and with each required skill. */
  ghost predicate CanServe(a: Agent, required: seq<RequiredSkill>) {
    a.online && a.load < a.maxLoad && forall i :: 0 <= i < |required| ==> HasSkill(a, required[i])
  }

  lemma EligibleIsCanServe(a: Agent, required: seq<RequiredSkill>)
    ensures IsEligible(a, required) <==> CanServe(a, required)
  {
    MeetsIsHavingSkills(a, required);
  }

  ghost function Eligible(candidates: set<Agent>, required: seq<RequiredSkill>): set<Agent> {
    set a | a in candidates && IsEligible(a, required)
  }

  ghost predicate IdsDiffer(agents: set<Agent>) {
    forall a, b :: a in agents && b in agents && a.id == b.id ==> a == b
  }

  /** The agents of a set that come before `id`. */
  ghost function Before(agents: set<Agent>, id: AgentId): set<Agent> {
    set b | b in agents && Less(b.id, id)
  }

  /** `a` has the least load and, among those, the least id. */
  ghost predicate IsLeastBusy(agents: set<Agent>, a: Agent) {
    a in agents && forall b :: b in agents ==> a.load < b.load || (a.load == b.load && !Less(b.id, a.id))
  }

  ghost predicate HasId(agents: set<Agent>, id: AgentId) {
    exists a :: a in agents && a.id == id
  }

  /** The strategy's choice, told without any order on the candidates. */
  ghost predicate IsChoice(strategy: Strategy, agents: set<Agent>, sticky: AgentId, seed: int, a: Agent) {
    && a in agents
    && match strategy
       case RoundRobin => |Before(agents, a.id)| == seed % |agents|
       case Sticky => if sticky != "" && HasId(agents, sticky) then a.id == sticky else IsLeastBusy(agents, a)
       case _ => IsLeastBusy(agents, a)
  }

  ghost predicate IsSelection(strategy: Strategy, candidates: set<Agent>, required: seq<RequiredSkill>,
                              sticky: AgentId, seed: int, r: Option<Agent>) {
    var agents := Eligible(candidates, required);
    if r.None? then agents == {} else agents != {} && IsChoice(strategy, agents, sticky, seed, r.value)
  }

  lemma RankIsInjective(agents: set<Agent>, a: Agent, b: Agent)
    requires a in agents && b in agents && Less(a.id, b.id)
    ensures |Before(agents, a.id)| < |Before(agents, b.id)|
  {
    forall x | x in Before(agents, a.id) ensures x in Before(agents, b.id) {
      LessTransitive(x.id, a.id, b.id);
    }
    LessIrreflexive(a.id);
    assert a in Before(agents, b.id) - Before(agents, a.id);
    SubsetCardinality(Before(agents, a.id), Before(agents, b.id));
  }

  /** The choice depends on the set of candidates only: not on their order, and not on how ties fall. */
  lemma ChoiceIsUnique(strategy: Strategy, agents: set<Agent>, sticky: AgentId, seed: int, a: Agent, b: Agent)
    requires IdsDiffer(agents)
    requires IsChoice(strategy, agents, sticky, seed, a) && IsChoice(strategy, agents, sticky, seed, b)
    ensures a == b
  {
    LessTotal(a.id, b.id);
    if Less(a.id, b.id) {
      RankIsInjective(agents, a, b);
    } else if Less(b.id, a.id) {
      RankIsInjective(agents, b, a);
    }
  }

  lemma SelectionIsUnique(strategy: Strategy, candidates: set<Agent>, required: seq<RequiredSkill>,
                          sticky: AgentId, seed: int, r: Option<Agent>, r': Option<Agent>)
    requires IdsDiffer(candidates)
    requires IsSelection(strategy, candidates, required, sticky, seed, r)
    requires IsSelection(strategy, candidates, required, sticky, seed, r')
    ensures r == r'
  {
    if r.Some? {
      ChoiceIsUnique(strategy, Eligible(candidates, required), sticky, seed, r.value, r'.value);
    }
  }

  // ---- the round-robin seed ----

  function SumOfLoads(agents: seq<Agent>): int {
    if agents == [] then 0 else SumOfLoads(agents[..|agents| - 1]) + agents[|agents| - 1].load
  }

  /** The sum over a set, in whatever order. */
  ghost function SetLoad(agents: set<Agent>): int {
    if agents == {} then 0 else
    var a :| a in agents;
    a.load + SetLoad(agents - {a})
  }

  lemma {:induction false} SetLoadSplits(agents: set<Agent>, a: Agent)
    requires a in agents
    ensures SetLoad(agents) == a.load + SetLoad(agents - {a})
  {
    var x :| x in agents && SetLoad(agents) == x.load + SetLoad(agents - {x});
    if x != a {
      SetLoadSplits(agents - {x}, a);
      SetLoadSplits(agents - {a}, x);
      assert agents - {x} - {a} == agents - {a} - {x};
    }
  }

  lemma {:induction false} SumIsSetLoad(agents: seq<Agent>)
    requires Distinct(agents)
    ensures SumOfLoads(agents) == SetLoad(Elements(agents))
  {
    if agents != [] {
      var front, last := agents[..|agents| - 1], agents[|agents| - 1];
      SumIsSetLoad(front);
      assert agents == front + [last];
      assert last !in front;
      assert Elements(agents) - {last} == Elements(front);
      SetLoadSplits(Elements(agents), last);
    }
  }

  method RoundRobinSeed(candidates: seq<Agent>) returns (sum: int)
    ensures sum == SumOfLoads(candidates)
    ensures Distinct(candidates) ==> sum == SetLoad(Elements(candidates))
  {
    sum := 0;
    for i := 0 to |candidates|
      invariant sum == SumOfLoads(candidates[..i])
    {
      assert candidates[..i + 1][..i] == candidates[..i];
      sum := sum + candidates[i].load;
    }
    WholeSlice(candidates);
    if Distinct(candidates) { SumIsSetLoad(candidates); }
  }

  // ---- sorting by id (the library sort) ----

  ghost predicate SortedById(agents: seq<Agent>) {
    forall i, j :: 0 <= i < j < |agents| ==> !Less(agents[j].id, agents[i].id)
  }

  function Insert(agents: seq<Agent>, a: Agent): seq<Agent> {
    if agents == [] || !Less(agents[0].id, a.id) then [a] + agents
    else [agents[0]] + Insert(agents[1..], a)
  }

  function SortById(agents: seq<Agent>): seq<Agent> {
    if agents == [] then [] else Insert(SortById(agents[1..]), agents[0])
  }

  lemma {:induction false} InsertSorts(agents: seq<Agent>, a: Agent)
    requires SortedById(agents)
    ensures SortedById(Insert(agents, a))
    ensures multiset(Insert(agents, a)) == multiset(agents) + multiset{a}
  {
    if agents == [] {
    } else if !Less(agents[0].id, a.id) {
      forall j | 0 <= j < |agents| ensures !Less(agents[j].id, a.id) {
        if Less(agents[j].id, a.id) {
          LessTotal(agents[0].id, a.id);
          if agents[0].id != a.id { LessTransitive(agents[j].id, a.id, agents[0].id); }
        }
      }
    } else {
      InsertSorts(agents[1..], a);
      var rest := Insert(agents[1..], a);
      assert agents == [agents[0]] + agents[1..];
      forall j | 0 <= j < |rest| ensures !Less(rest[j].id, agents[0].id) {
        assert rest[j] in multiset(rest);
        if rest[j] == a {
          if Less(a.id, agents[0].id) {
            LessTransitive(a.id, agents[0].id, a.id);
            LessIrreflexive(a.id);
          }
        } else {
          assert rest[j] in agents[1..];
        }
      }
    }
  }

  lemma {:induction false} SortByIdSorts(agents: seq<Agent>)
    ensures SortedById(SortById(agents)) && multiset(SortById(agents)) == multiset(agents)
    ensures Elements(SortById(agents)) == Elements(agents) && |SortById(agents)| == |agents|
  {
    if agents != [] {
      SortByIdSorts(agents[1..]);
      InsertSorts(SortById(agents[1..]), agents[0]);
      assert agents == [agents[0]] + agents[1..];
    }
    SameMultiset(SortById(agents), agents);
  }

  lemma SameMultiset(a: seq<Agent>, b: seq<Agent>)
    requires multiset(a) == multiset(b)
    ensures Elements(a) == Elements(b) && |a| == |b|
  {
    assert |a| == |multiset(a)| == |multiset(b)| == |b|;
    forall x ensures x in a <==> x in b {
      assert x in multiset(a) <==> x in multiset(b);
    }
  }

  /** In a sorted list without repeated ids the position is the number of smaller ids. */
  lemma PositionIsRank(sorted: seq<Agent>, k: nat)
    requires SortedById(sorted) && k < |sorted|
    requires Distinct(sorted) && IdsDiffer(Elements(sorted))
    ensures |Before(Elements(sorted), sorted[k].id)| == k
  {
    var smaller := sorted[..k];
    forall a ensures a in Before(Elements(sorted), sorted[k].id) <==> a in Elements(smaller) {
      if a in Elements(smaller) {
        var i :| 0 <= i < k && sorted[i] == a;
        LessTotal(a.id, sorted[k].id);
      } else if a in Elements(sorted) {
        var i :| 0 <= i < |sorted| && sorted[i] == a;
        LessIrreflexive(a.id);
      }
    }
    assert Before(Elements(sorted), sorted[k].id) == Elements(smaller);
    DistinctCardinality(smaller);
  }

  // ---- Select ----

  method EligibleAgents(candidates: seq<Agent>, required: seq<RequiredSkill>) returns (out: seq<Agent>)
    ensures Elements(out) == Eligible(Elements(candidates), required)
    ensures forall a :: a in out <==> a in candidates && CanServe(a, required)
    ensures Distinct(candidates) ==> Distinct(out)
  {
    out := [];
    for i := 0 to |candidates|
      invariant Elements(out) == Eligible(Elements(candidates[..i]), required)
      invariant Distinct(candidates) ==> Distinct(out)
    {
      SlicePlus(candidates, i);
      var a := candidates[i];
      ghost var before := out;
      if a.online && HasCapacity(a) {
        var skilled := MeetsSkills(a, required);
        if skilled {
          if a in out {
            assert a in Elements(out);
            assert a in Elements(candidates[..i]);
          }
          out := out + [a];
          assert Elements(out) == Elements(before) + {a};
        }
      }
    }
    WholeSlice(candidates);
    forall a ensures a in out <==> a in candidates && CanServe(a, required) {
      EligibleIsCanServe(a, required);
      assert a in Elements(out) <==> a in Eligible(Elements(candidates), required);
    }
  }

  method LeastBusy(eligible: seq<Agent>) returns (best: Agent)
    requires |eligible| > 0
    ensures best in eligible && forall b :: b in eligible ==> best.load <= b.load
    ensures SortedById(eligible) ==> IsLeastBusy(Elements(eligible), best)
  {
    best := eligible[0];
    ghost var at := 0;
    for i := 1 to |eligible|
      invariant 0 <= at < i && best == eligible[at]
      invariant forall j :: 0 <= j < i ==> best.load < eligible[j].load || (best.load == eligible[j].load && at <= j)
    {
      if eligible[i].load < best.load { best, at := eligible[i], i; }
    }
    LessIrreflexive(best.id);
  }

  method FindById(agents: seq<Agent>, id: string) returns (r: Option<Agent>)
    ensures r.Some? ==> r.value in agents && r.value.id == id && id != ""
    ensures r.None? ==> id == "" || !HasId(Elements(agents), id)
  {
    if id == "" { return None; }
    for i := 0 to |agents|
      invariant forall j :: 0 <= j < i ==> agents[j].id != id
    {
      if agents[i].id == id { return Some(agents[i]); }
    }
    return None;
  }

  /** The chosen agent, or none exactly when nobody is eligible; with different ids, the one agent
      the strategy determines from the set of candidates. */
  method Select(strategy: Strategy, candidates: seq<Agent>, required: seq<RequiredSkill>,
                sticky: AgentId, seed: int) returns (r: Option<Agent>)
    ensures r.Some? ==> r.value in candidates && CanServe(r.value, required)
    ensures r.None? <==> forall a :: a in candidates ==> !CanServe(a, required)
    ensures Distinct(candidates) && IdsDiffer(Elements(candidates)) ==>
      IsSelection(strategy, Elements(candidates), required, sticky, seed, r)
  {
    var eligible := EligibleAgents(candidates, required);
    forall a | a in candidates ensures a in Elements(eligible) <==> CanServe(a, required) {
      EligibleIsCanServe(a, required);
      assert a in Elements(candidates);
    }
    if |eligible| == 0 { return None; }
    assert eligible[0] in Elements(eligible);
    var sorted := SortById(eligible);
    SortByIdSorts(eligible);
    r := Choose(strategy, sorted, sticky, seed);
    assert r.value in Elements(sorted);
    if Distinct(candidates) { SortKeepsDistinct(eligible, sorted); }
  }

  /** The strategy's pick from the non-empty list of eligible agents, sorted by id. The index of
      the source, lifted above zero, is the remainder that is never negative. */
  method Choose(strategy: Strategy, sorted: seq<Agent>, sticky: AgentId, seed: int) returns (r: Option<Agent>)
    requires |sorted| > 0 && SortedById(sorted)
    ensures r.Some? && r.value in sorted
    ensures Distinct(sorted) && IdsDiffer(Elements(sorted)) ==>
      IsChoice(strategy, Elements(sorted), sticky, seed, r.value)
  {
    match strategy {
      case Sticky =>
        var hit := FindById(sorted, sticky);
        if hit.Some? { return hit; }
      case RoundRobin =>
        var idx := seed % |sorted|;
        if Distinct(sorted) && IdsDiffer(Elements(sorted)) {
          PositionIsRank(sorted, idx);
          DistinctCardinality(sorted);
        }
        return Some(sorted[idx]);
      case _ =>
    }
    var best := LeastBusy(sorted);
    return Some(best);
  }

  lemma SortKeepsDistinct(agents: seq<Agent>, sorted: seq<Agent>)
    requires Distinct(agents) && multiset(sorted) == multiset(agents)
    ensures Distinct(sorted)
  {
    forall i, j | 0 <= i < j < |sorted| ensures sorted[i] != sorted[j] {
      if sorted[i] == sorted[j] {
        TwoOccurrences(sorted, i, j);
        OneOccurrence(agents, sorted[i]);
      }
    }
  }

  lemma TwoOccurrences(agents: seq<Agent>, i: nat, j: nat)
    requires i < j < |agents| && agents[i] == agents[j]
    ensures multiset(agents)[agents[i]] >= 2
  {
    var before, after := agents[..j], agents[j..];
    assert agents == before + after;
    assert before[i] in before && after[0] in after;
  }

  lemma {:induction false} OneOccurrence(agents: seq<Agent>, a: Agent)
    requires Distinct(agents)
    ensures multiset(agents)[a] <= 1
  {
    if agents != [] {
      OneOccurrence(agents[1..], a);
      assert agents == [agents[0]] + agents[1..];
      assert agents[0] !in agents[1..];
    }
  }

  /** Any two orders of the same candidates give the same agent. */
  lemma SelectIgnoresOrder(strategy: Strategy, first: seq<Agent>, second: seq<Agent>,
                           required: seq<RequiredSkill>, sticky: AgentId, r: Option<Agent>, r': Option<Agent>)
    requires Distinct(first) && Distinct(second) && Elements(first) == Elements(second)
    requires IdsDiffer(Elements(first))
    requires IsSelection(strategy, Elements(first), required, sticky, SumOfLoads(first), r)
    requires IsSelection(strategy, Elements(second), required, sticky, SumOfLoads(second), r')
    ensures r == r' && (r.Some? ==> r.value in first && CanServe(r.value, required))
  {
    if r.Some? { EligibleIsCanServe(r.value, required); }
    SumIsSetLoad(first);
    SumIsSetLoad(second);
    SelectionIsUnique(strategy, Elements(first), required, sticky, SumOfLoads(first), r, r');
  }
}

/** Agents, skills, queues and conversations. */
module Acd {

  type AgentId = string
  type QueueId = string
  type ConvId = nat
  type ContactId = nat

  // ---- strings ----

  /** The byte order of two identifiers. */
  predicate Less(a: string, b: string) {
    b != [] && (a == [] || a[0] < b[0] || (a[0] == b[0] && Less(a[1..], b[1..])))
  }

  lemma {:induction false} LessTotal(a: string, b: string)
    ensures Less(a, b) || a == b || Less(b, a)
  {
    if a != [] && b != [] && a[0] == b[0] {
      LessTotal(a[1..], b[1..]);
      assert a == [a[0]] + a[1..] && b == [b[0]] + b[1..];
    }
  }

  lemma {:induction false} LessTransitive(a: string, b: string, c: string)
    requires Less(a, b) && Less(b, c)
    ensures Less(a, c)
  {
    if a != [] && a[0] == b[0] == c[0] {
      LessTransitive(a[1..], b[1..], c[1..]);
    }
  }

  lemma {:induction false} LessIrreflexive(a: string)
    ensures !Less(a, a)
  {
    if a != [] { LessIrreflexive(a[1..]); }
  }

  lemma TailOfPrefix(s: string, i: nat)
    requires 0 < i <= |s|
    ensures s[1..][..i - 1] == s[..i][1..]
  {
  }

  lemma HeadOfPrefix(s: string, i: nat)
    requires i <= |s|
    ensures i > 0 ==> s[..i][0] == s[0]
  {
  }

  /** The order in full: at the first difference the smaller character, or the end, comes first. */
  lemma {:induction false} LessIff(a: string, b: string)
    ensures Less(a, b) <==>
            exists i :: 0 <= i <= |a| && i < |b| && a[..i] == b[..i] && (i == |a| || a[i] < b[i])
  {
    if a != [] && b != [] && a[0] == b[0] {
      LessIff(a[1..], b[1..]);
      if Less(a, b) {
        var a', b' := a[1..], b[1..];
        var i :| 0 <= i <= |a'| && i < |b'| && a'[..i] == b'[..i] && (i == |a'| || a'[i] < b'[i]);
        assert a[..i + 1] == [a[0]] + a'[..i] && b[..i + 1] == [b[0]] + b'[..i];
      }
      if i :| 0 <= i <= |a| && i < |b| && a[..i] == b[..i] && (i == |a| || a[i] < b[i]) {
        assert i > 0;
        TailOfPrefix(a, i);
        TailOfPrefix(b, i);
      }
    } else if i :| 0 <= i <= |a| && i < |b| && a[..i] == b[..i] && (i == |a| || a[i] < b[i]) {
      HeadOfPrefix(a, i);
      HeadOfPrefix(b, i);
    } else if Less(a, b) {
      assert a[..0] == b[..0];
    }
  }

  /** The Unicode white space that trimming removes. */
  predicate IsSpace(c: char) {
    || '\t' <= c <= '\r' || c == ' ' || c == '\U{85}' || c == '\U{A0}' || c == '\U{1680}'
    || '\U{2000}' <= c <= '\U{200A}' || c == '\U{2028}' || c == '\U{2029}'
    || c == '\U{202F}' || c == '\U{205F}' || c == '\U{3000}'
  }

  /** By code point, as Unicode has it. */
  lemma SpacesAre(c: char)
    ensures IsSpace(c) <==>
            var n := c as int;
            9 <= n <= 13 || n in {32, 133, 160, 5760, 8232, 8233, 8239, 8287, 12288} || 8192 <= n <= 8202
  {
  }

  function Trim(s: string): string
    decreases |s|
  {
    if s == [] then []
    else if IsSpace(s[0]) then Trim(s[1..])
    else if IsSpace(s[|s| - 1]) then Trim(s[..|s| - 1])
    else s
  }

  /** Trimming takes space off both ends, and no more. */
  lemma {:induction false} TrimIs(s: string) returns (i: nat, j: nat)
    ensures i <= j <= |s| && Trim(s) == s[i..j]
    ensures forall k :: 0 <= k < i || j <= k < |s| ==> IsSpace(s[k])
    ensures i < j ==> !IsSpace(s[i]) && !IsSpace(s[j - 1])
    decreases |s|
  {
    i, j := 0, |s|;
    if s != [] && IsSpace(s[0]) {
      i, j := TrimIs(s[1..]);
      assert s[1..][i..j] == s[i + 1..j + 1];
      assert forall k :: 0 < k < |s| ==> s[k] == s[1..][k - 1];
      i, j := i + 1, j + 1;
    } else if s != [] && IsSpace(s[|s| - 1]) {
      i, j := TrimIs(s[..|s| - 1]);
      assert s[..|s| - 1][i..j] == s[i..j];
    } else {
      assert s[0..|s|] == s;
    }
  }

  // ---- agents ----

  datatype Skill = Skill(name: string, level: int)

  datatype RequiredSkill = RequiredSkill(name: string, minLevel: int)

  datatype Agent = Agent(id: AgentId, online: bool, maxLoad: int, load: int, skills: seq<Skill>)

  predicate HasCapacity(a: Agent) { a.load < a.maxLoad }

  /** The level of a skill: the last one listed under the name counts, an unlisted one is 0. */
  function LevelOf(skills: seq<Skill>, name: string): int {
    if skills == [] then 0
    else if skills[|skills| - 1].name == name then skills[|skills| - 1].level
    else LevelOf(skills[..|skills| - 1], name)
  }

  predicate Meets(a: Agent, required: seq<RequiredSkill>) {
    forall i :: 0 <= i < |required| ==> LevelOf(a.skills, required[i].name) >= required[i].minLevel
  }

  /** An agent has a required skill if the last level listed under its name is high enough, or if the
      name is not listed and no level above zero is required. */
  ghost predicate HasSkill(a: Agent, required: RequiredSkill) {
    || (exists i :: 0 <= i < |a.skills| && IsLastListed(a.skills, required.name, i)
                    && a.skills[i].level >= required.minLevel)
    || ((forall i :: 0 <= i < |a.skills| ==> a.skills[i].name != required.name) && 0 >= required.minLevel)
  }

  predicate IsLastListed(skills: seq<Skill>, name: string, i: nat)
    requires i < |skills|
  {
    skills[i].name == name && forall j :: i < j < |skills| ==> skills[j].name != name
  }

  lemma {:induction false} LevelIsLastListed(skills: seq<Skill>, name: string)
    ensures forall i :: 0 <= i < |skills| && IsLastListed(skills, name, i) ==> LevelOf(skills, name) == skills[i].level
    ensures (forall i :: 0 <= i < |skills| ==> skills[i].name != name) ==> LevelOf(skills, name) == 0
    ensures (exists i :: 0 <= i < |skills| && skills[i].name == name) ==>
              exists i :: 0 <= i < |skills| && IsLastListed(skills, name, i)
  {
    if skills != [] {
      var front, n := skills[..|skills| - 1], |skills| - 1;
      LevelIsLastListed(front, name);
      if skills[n].name == name {
        assert IsLastListed(skills, name, n);
      } else {
        forall i | 0 <= i < n ensures IsLastListed(front, name, i) <==> IsLastListed(skills, name, i) {}
        if i :| 0 <= i < |skills| && skills[i].name == name {
          assert front[i].name == name;
        }
      }
    }
  }

  lemma MeetsIsHavingSkills(a: Agent, required: seq<RequiredSkill>)
    ensures Meets(a, required) <==> forall i :: 0 <= i < |required| ==> HasSkill(a, required[i])
  {
    forall i | 0 <= i < |required|
      ensures HasSkill(a, required[i]) <==> LevelOf(a.skills, required[i].name) >= required[i].minLevel
    {
      LevelIsLastListed(a.skills, required[i].name);
    }
  }

  method MeetsSkills(a: Agent, required: seq<RequiredSkill>) returns (ok: bool)
    ensures ok <==> Meets(a, required)
  {
    if |required| == 0 { return true; }
    var have: map<string, int> := map[];
    for i := 0 to |a.skills|
      invariant forall name :: LevelOf(a.skills[..i], name) == if name in have then have[name] else 0
    {
      assert a.skills[..i + 1][..i] == a.skills[..i];
      have := have[a.skills[i].name := a.skills[i].level];
    }
    assert a.skills[..|a.skills|] == a.skills;
    for i := 0 to |required|
      invariant forall j :: 0 <= j < i ==> LevelOf(a.skills, required[j].name) >= required[j].minLevel
    {
      var level := if required[i].name in have then have[required[i].name] else 0;
      if level < required[i].minLevel { return false; }
    }
    return true;
  }

  // ---- queues ----

  datatype Strategy = RoundRobin | LeastBusy | SkillBased | Sticky | Unknown

  /** A queue; an empty overflow ends the chain. `pool` are the agents serving it. */
  datatype Queue = Queue(strategy: Strategy, overflow: QueueId, required: seq<RequiredSkill>, pool: set<AgentId>)

  // ---- conversations ----

  datatype ConvStatus = Open | Pending | Resolved

  /** A conversation as the store holds it. */
  datatype ConvRow = ConvRow(status: ConvStatus, contact: ContactId, externalId: string, assignee: string)

  /** The agent whose capacity a conversation takes up; "" for none. */
  function OccupiedAgent(c: ConvRow): AgentId {
    if c.assignee != "" && c.status.Open? then c.assignee else ""
  }

  /** `Resolved` is final: assigning after it is an error and changes nothing. */
  function AssignRow(c: ConvRow, agent: string): ConvRow {
    if c.status.Resolved? then c else c.(assignee := Trim(agent))
  }

  function ResolveRow(c: ConvRow): ConvRow { c.(status := Resolved) }

  /** The aggregate, loaded from a row and written back as one. */
  class Conversation {
    var status: ConvStatus
    var assignee: string
    const contact: ContactId
    const externalId: string

    constructor FromRow(row: ConvRow)
      ensures Row() == row
    {
      status, assignee, contact, externalId := row.status, row.assignee, row.contact, row.externalId;
    }

    function Row(): ConvRow
      reads this
    {
      ConvRow(status, contact, externalId, assignee)
    }

    method Assign(agent: string) returns (ok: bool)
      modifies this
      ensures Row() == AssignRow(old(Row()), agent)
      ensures ok <==> !old(status).Resolved?
      ensures status == old(status) && assignee == if ok then Trim(agent) else old(assignee)
    {
      if status.Resolved? { return false; }
      var id := Trim(agent);
      if assignee == id { return true; }
      assignee := id;
      return true;
    }

    method Resolve() returns (ok: bool)
      modifies this
      ensures ok && Row() == ResolveRow(old(Row()))
      ensures status.Resolved? && assignee == old(assignee)
    {
      if status.Resolved? { return true; }
      status := Resolved;
      return true;
    }
  }
}

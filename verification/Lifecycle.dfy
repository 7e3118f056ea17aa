/** The lifecycle runner: phases start in order and stop in reverse, also after a boot that fails
    half-way. */
module Lifecycle {
  import opened Common

  type Name = string

  /** A phase may lack its Start or its Stop. */
  datatype Phase = Phase(name: Name, hasStart: bool, hasStop: bool)

  datatype BootResult = Booted | BootFailed(phase: Name) | ShutdownInProgress | AlreadyCalled

  predicate DistinctNames(phases: seq<Phase>) {
    forall i, j :: 0 <= i < j < |phases| ==> phases[i].name != phases[j].name
  }

  /** The phases that have a Start, in order. */
  function Starters(phases: seq<Phase>): seq<Name> {
    if phases == [] then []
    else
      var before, p := Starters(phases[..|phases| - 1]), phases[|phases| - 1];
      if p.hasStart then before + [p.name] else before
  }

  function Reversed(names: seq<Name>): seq<Name> {
    if names == [] then [] else [names[|names| - 1]] + Reversed(names[..|names| - 1])
  }

  predicate HasStop(phases: seq<Phase>, name: Name) {
    exists i :: 0 <= i < |phases| && phases[i].name == name && phases[i].hasStop
  }

  /** The names among them whose phase has a Stop. */
  function Stoppable(phases: seq<Phase>, names: seq<Name>): seq<Name> {
    if names == [] then []
    else (if HasStop(phases, names[0]) then [names[0]] else []) + Stoppable(phases, names[1..])
  }

  function Added(phases: seq<Phase>, p: Phase): seq<Phase> {
    if phases == [] then [p]
    else if phases[0].name == p.name then [p] + phases[1..]
    else [phases[0]] + Added(phases[1..], p)
  }

  lemma {:induction false} AddedKeepsNames(phases: seq<Phase>, p: Phase)
    requires DistinctNames(phases)
    ensures DistinctNames(Added(phases, p))
    ensures forall q :: q in Added(phases, p) <==> q == p || (q in phases && q.name != p.name)
  {
    if phases != [] {
      AddedKeepsNames(phases[1..], p);
      assert forall q :: q in phases <==> q == phases[0] || q in phases[1..];
      assert forall q :: q in phases[1..] ==> q.name != phases[0].name;
    }
  }

  lemma {:induction false} AddedAt(phases: seq<Phase>, p: Phase, at: nat)
    requires at <= |phases| && forall j :: 0 <= j < at ==> phases[j].name != p.name
    requires at < |phases| ==> phases[at].name == p.name
    ensures Added(phases, p) == if at < |phases| then phases[at := p] else phases + [p]
  {
    if at > 0 {
      AddedAt(phases[1..], p, at - 1);
    }
  }

  class Runner {
    var phases: seq<Phase>
    var bootStarted: bool
    var shutdownStarted: bool
    var startedSet: set<Name>
    // The calls of Start and of Stop, in time.
    ghost var starts: seq<Name>
    ghost var stops: seq<Name>

    constructor ()
      ensures Valid() && phases == [] && starts == [] && stops == [] && !bootStarted && !shutdownStarted
    {
      phases, bootStarted, shutdownStarted, startedSet, starts, stops := [], false, false, {}, [], [];
    }

    /** What every sequence of calls keeps: the starts are the first phases that have one; the stops,
        once there was a shutdown, are the reversed starts as far as they have a Stop. */
    ghost predicate Valid()
      reads this
    {
      && DistinctNames(phases) && startedSet == Elements(starts)
      && starts <= Starters(phases) && (!bootStarted ==> starts == [])
      && stops == if shutdownStarted then Stoppable(phases, Reversed(starts)) else []
    }

    /** The last phase of a name wins, in the place of the first. */
    method AddPhase(p: Phase)
      requires Valid()
      modifies this
      ensures Valid() && starts == old(starts) && stops == old(stops)
      ensures phases == if old(bootStarted) || old(shutdownStarted) then old(phases) else Added(old(phases), p)
    {
      if bootStarted || shutdownStarted { return; }
      AddedKeepsNames(phases, p);
      var at := IndexOf(p.name);
      AddedAt(phases, p, at);
      phases := if at < |phases| then phases[at := p] else phases + [p];
    }

    method IndexOf(name: Name) returns (at: nat)
      ensures at <= |phases| && (at < |phases| ==> phases[at].name == name)
      ensures forall j :: 0 <= j < at ==> phases[j].name != name
    {
      at := 0;
      while at < |phases| && phases[at].name != name
        invariant at <= |phases| && forall j :: 0 <= j < at ==> phases[j].name != name
      {
        at := at + 1;
      }
    }

    /** Start succeeds or not (an error or a panic): `succeeds` says which. */
    method Start(p: Phase, succeeds: Name -> bool) returns (ok: bool)
      requires p.hasStart
      modifies this`starts
      ensures starts == old(starts) + [p.name] && ok == succeeds(p.name)
    {
      starts := starts + [p.name];
      ok := succeeds(p.name);
    }

    method Stop(p: Phase) returns (ok: bool)
      requires p.hasStop
      modifies this`stops
      ensures stops == old(stops) + [p.name]
    {
      stops := stops + [p.name];
      ok := *;
    }

    method Boot(succeeds: Name -> bool) returns (r: BootResult)
      requires Valid()
      modifies this
      ensures Valid() && phases == old(phases)
      ensures r.ShutdownInProgress? <==> old(shutdownStarted)
      ensures r.AlreadyCalled? <==> !old(shutdownStarted) && old(bootStarted)
      ensures r.ShutdownInProgress? || r.AlreadyCalled? ==> starts == old(starts) && stops == old(stops)
      ensures r.Booted? ==> starts == Starters(phases) && stops == [] && !shutdownStarted
      ensures r.Booted? ==> forall n :: n in starts ==> succeeds(n)
      ensures r.BootFailed? ==> starts != [] && starts[|starts| - 1] == r.phase && shutdownStarted
      ensures r.BootFailed? ==> !succeeds(r.phase) && forall n :: n in starts[..|starts| - 1] ==> succeeds(n)
    {
      if shutdownStarted { return ShutdownInProgress; }
      if bootStarted { return AlreadyCalled; }
      bootStarted := true;
      var failed := StartPhases(succeeds);
      if failed.Some? {
        Shutdown();
        return BootFailed(failed.value);
      }
      return Booted;
    }

    /** The loop of the boot, up to the first Start that fails. */
    method StartPhases(succeeds: Name -> bool) returns (failed: Option<Name>)
      requires starts == [] && startedSet == {}
      modifies this`starts, this`startedSet
      ensures starts <= Starters(phases) && startedSet == Elements(starts)
      ensures failed.None? ==> starts == Starters(phases) && forall n :: n in starts ==> succeeds(n)
      ensures failed.Some? ==>
                && starts != [] && starts[|starts| - 1] == failed.value && !succeeds(failed.value)
                && forall n :: n in starts[..|starts| - 1] ==> succeeds(n)
    {
      for i := 0 to |phases|
        invariant starts == Starters(phases[..i]) && startedSet == Elements(starts)
        invariant forall n :: n in starts ==> succeeds(n)
      {
        StartersStep(phases, i);
        StartersPrefix(phases, i + 1);
        if phases[i].hasStart {
          startedSet := startedSet + {phases[i].name};
          var ok := Start(phases[i], succeeds);
          if !ok { return Some(phases[i].name); }
        }
      }
      WholeSlice(phases);
      return None;
    }

    method Shutdown()
      requires Valid()
      modifies this
      ensures Valid() && shutdownStarted
      ensures phases == old(phases) && starts == old(starts) && bootStarted == old(bootStarted)
      ensures old(shutdownStarted) ==> stops == old(stops)
    {
      if shutdownStarted { return; }
      shutdownStarted := true;
      var i := |phases|;
      assert phases[i..] == [];
      while i > 0
        invariant 0 <= i <= |phases| && phases == old(phases) && starts == old(starts) && startedSet == old(startedSet)
        invariant shutdownStarted && bootStarted == old(bootStarted)
        invariant stops == StopsOf(phases[i..], startedSet)
      {
        i := i - 1;
        var p := phases[i];
        assert phases[i..][1..] == phases[i + 1..];
        if p.hasStop && p.name in startedSet {
          var _ := Stop(p);
        }
      }
      assert phases[0..] == phases;
      StopsReverseStarts(phases, starts);
    }
  }

  lemma StartersStep(phases: seq<Phase>, i: nat)
    requires i < |phases|
    ensures Starters(phases[..i + 1]) ==
            Starters(phases[..i]) + if phases[i].hasStart then [phases[i].name] else []
  {
    assert phases[..i + 1][..i] == phases[..i];
  }

  lemma {:induction false} StartersPrefix(phases: seq<Phase>, i: nat)
    requires i <= |phases|
    ensures Starters(phases[..i]) <= Starters(phases)
    decreases |phases| - i
  {
    if i < |phases| {
      StartersStep(phases, i);
      StartersPrefix(phases, i + 1);
    } else {
      assert phases[..i] == phases;
    }
  }

  /** What a backward pass over the phases stops. */
  function StopsOf(phases: seq<Phase>, started: set<Name>): seq<Name> {
    if phases == [] then []
    else StopsOf(phases[1..], started) + if phases[0].hasStop && phases[0].name in started then [phases[0].name] else []
  }

  lemma {:induction false} StartersFront(phases: seq<Phase>)
    requires phases != []
    ensures Starters(phases) == (if phases[0].hasStart then [phases[0].name] else []) + Starters(phases[1..])
  {
    if |phases| > 1 {
      var front, rest := phases[..|phases| - 1], phases[1..];
      StartersFront(front);
      assert front[1..] == rest[..|rest| - 1] && front[0] == phases[0];
    }
  }

  lemma {:induction false} ReversedFront(names: seq<Name>)
    requires names != []
    ensures Reversed(names) == Reversed(names[1..]) + [names[0]]
  {
    if |names| > 1 {
      var front, rest := names[..|names| - 1], names[1..];
      ReversedFront(front);
      assert front[1..] == rest[..|rest| - 1];
    }
  }

  lemma {:induction false} ReversedElements(names: seq<Name>)
    ensures Elements(Reversed(names)) == Elements(names)
  {
    if names != [] {
      ReversedElements(names[..|names| - 1]);
      var front, last := names[..|names| - 1], names[|names| - 1];
      assert names == front + [last];
      assert Elements([last] + Reversed(front)) == {last} + Elements(Reversed(front));
      assert Elements(front + [last]) == {last} + Elements(front);
    }
  }

  lemma {:induction false} StoppableConcat(phases: seq<Phase>, a: seq<Name>, b: seq<Name>)
    ensures Stoppable(phases, a + b) == Stoppable(phases, a) + Stoppable(phases, b)
  {
    if a == [] {
      assert a + b == b;
    } else {
      assert (a + b)[1..] == a[1..] + b;
      StoppableConcat(phases, a[1..], b);
    }
  }

  lemma HasStopInRest(phases: seq<Phase>, name: Name)
    requires phases != []
    ensures HasStop(phases, name) <==> (phases[0].name == name && phases[0].hasStop) || HasStop(phases[1..], name)
  {
    if HasStop(phases[1..], name) {
      var i :| 0 <= i < |phases[1..]| && phases[1..][i].name == name && phases[1..][i].hasStop;
      assert phases[i + 1] == phases[1..][i];
    }
    if HasStop(phases, name) {
      var i :| 0 <= i < |phases| && phases[i].name == name && phases[i].hasStop;
      if i > 0 { assert phases[1..][i - 1] == phases[i]; }
    }
  }

  lemma {:induction false} StoppableInRest(phases: seq<Phase>, names: seq<Name>)
    requires phases != [] && phases[0].name !in names
    ensures Stoppable(phases, names) == Stoppable(phases[1..], names)
  {
    if names != [] {
      HasStopInRest(phases, names[0]);
      StoppableInRest(phases, names[1..]);
    }
  }

  lemma {:induction false} StopsOfSame(phases: seq<Phase>, a: set<Name>, b: set<Name>)
    requires forall p :: p in phases ==> (p.name in a <==> p.name in b)
    ensures StopsOf(phases, a) == StopsOf(phases, b)
  {
    if phases != [] { StopsOfSame(phases[1..], a, b); }
  }

  lemma {:induction false} StartersAreNames(phases: seq<Phase>, name: Name)
    requires name in Starters(phases)
    ensures exists p :: p in phases && p.name == name
  {
    var last := phases[|phases| - 1];
    if name == last.name {
      assert last in phases;
    } else {
      StartersAreNames(phases[..|phases| - 1], name);
      var p :| p in phases[..|phases| - 1] && p.name == name;
      assert p in phases;
    }
  }

  lemma HeadIsElsewhereAbsent(phases: seq<Phase>)
    requires phases != [] && DistinctNames(phases)
    ensures DistinctNames(phases[1..]) && phases[0].name !in Starters(phases[1..])
    ensures forall p :: p in phases[1..] ==> p.name != phases[0].name
  {
    if phases[0].name in Starters(phases[1..]) { StartersAreNames(phases[1..], phases[0].name); }
  }

  /** The backward pass stops, of the phases started, those that have a Stop, last started first. */
  lemma {:induction false} StopsReverseStarts(phases: seq<Phase>, starts: seq<Name>)
    requires DistinctNames(phases) && starts <= Starters(phases)
    ensures StopsOf(phases, Elements(starts)) == Stoppable(phases, Reversed(starts))
  {
    if phases != [] {
      var p, rest := phases[0], phases[1..];
      HeadIsElsewhereAbsent(phases);
      StartersFront(phases);
      ReversedElements(starts);
      if p.hasStart && starts != [] {
        assert starts[0] == p.name && starts == [p.name] + starts[1..];
        StopsReverseStarts(rest, starts[1..]);
        StopsOfSame(rest, Elements(starts), Elements(starts[1..]));
        ReversedFront(starts);
        ReversedElements(starts[1..]);
        assert starts[1..] <= Starters(rest);
        assert forall n :: n in Reversed(starts[1..]) ==> n in Elements(starts[1..]);
        StoppableInRest(phases, Reversed(starts[1..]));
        StoppableConcat(phases, Reversed(starts[1..]), [p.name]);
        HasStopInRest(phases, p.name);
        NoStopElsewhere(rest, p.name);
        assert Stoppable(phases, [p.name]) == if p.hasStop then [p.name] else [];
      } else {
        StopsReverseStarts(rest, starts);
        assert forall n :: n in Reversed(starts) ==> n in Elements(starts);
        StoppableInRest(phases, Reversed(starts));
      }
    }
  }

  /** Stops in reverse: of two started phases that have a Stop, the later started is stopped first. */
  lemma {:induction false} StopOrder(phases: seq<Phase>, starts: seq<Name>, i: nat, j: nat) returns (p: nat, q: nat)
    requires i < j < |starts| && HasStop(phases, starts[i]) && HasStop(phases, starts[j])
    ensures var stops := Stoppable(phases, Reversed(starts));
            p < q < |stops| && stops[p] == starts[j] && stops[q] == starts[i]
  {
    var front, last := starts[..|starts| - 1], starts[|starts| - 1];
    assert Reversed(starts)[1..] == Reversed(front);
    if j < |front| {
      p, q := StopOrder(phases, front, i, j);
      if HasStop(phases, last) { p, q := p + 1, q + 1; }
    } else {
      p := 0;
      q := StopOf(phases, front, i);
      q := q + 1;
    }
  }

  lemma {:induction false} StopOf(phases: seq<Phase>, starts: seq<Name>, i: nat) returns (q: nat)
    requires i < |starts| && HasStop(phases, starts[i])
    ensures var stops := Stoppable(phases, Reversed(starts)); q < |stops| && stops[q] == starts[i]
  {
    var front, last := starts[..|starts| - 1], starts[|starts| - 1];
    assert Reversed(starts)[1..] == Reversed(front);
    if i < |front| {
      q := StopOf(phases, front, i);
      if HasStop(phases, last) { q := q + 1; }
    } else {
      q := 0;
    }
  }

  /** Starts in order: of two phases that have a Start, the one added before is started before. */
  lemma {:induction false} StartOrder(phases: seq<Phase>, i: nat, j: nat) returns (p: nat, q: nat)
    requires i < j < |phases| && phases[i].hasStart && phases[j].hasStart
    ensures var starts := Starters(phases);
            p < q < |starts| && starts[p] == phases[i].name && starts[q] == phases[j].name
  {
    var front := phases[..|phases| - 1];
    if j < |front| {
      p, q := StartOrder(front, i, j);
    } else {
      p := StartOf(front, i);
      q := |Starters(front)|;
    }
  }

  lemma {:induction false} StartOf(phases: seq<Phase>, i: nat) returns (p: nat)
    requires i < |phases| && phases[i].hasStart
    ensures p < |Starters(phases)| && Starters(phases)[p] == phases[i].name
  {
    var front := phases[..|phases| - 1];
    if i < |front| { p := StartOf(front, i); } else { p := |Starters(front)|; }
  }

  lemma NoStopElsewhere(phases: seq<Phase>, name: Name)
    requires forall p :: p in phases ==> p.name != name
    ensures !HasStop(phases, name)
  {
  }

  lemma {:induction false} StoppableIs(phases: seq<Phase>, names: seq<Name>, name: Name)
    ensures name in Stoppable(phases, names) <==> name in names && HasStop(phases, name)
    ensures Distinct(names) ==> Distinct(Stoppable(phases, names))
  {
    if names != [] {
      StoppableIs(phases, names[1..], name);
      StoppableIs(phases, names[1..], names[0]);
      assert name in names <==> name == names[0] || name in names[1..];
    }
  }

  /** A phase is stopped exactly when it was started and has a Stop; one without a Start never is,
      although it may exist only for its Stop. */
  lemma StopOnlyPhaseIsNeverStopped(phases: seq<Phase>, starts: seq<Name>, p: Phase)
    requires DistinctNames(phases) && starts <= Starters(phases) && p in phases
    ensures p.name in Stoppable(phases, Reversed(starts)) <==> p.name in starts && p.hasStop
    ensures !p.hasStart ==> p.name !in Stoppable(phases, Reversed(starts))
  {
    StoppableIs(phases, Reversed(starts), p.name);
    ReversedElements(starts);
    assert p.name in Reversed(starts) <==> p.name in Elements(Reversed(starts));
    assert p.name in starts <==> p.name in Elements(starts);
    var i :| 0 <= i < |phases| && phases[i] == p;
    if !p.hasStart { NoStarter(phases, i); }
  }

  lemma {:induction false} NoStarter(phases: seq<Phase>, i: nat)
    requires DistinctNames(phases) && i < |phases| && !phases[i].hasStart
    ensures phases[i].name !in Starters(phases)
  {
    var front := phases[..|phases| - 1];
    if i < |phases| - 1 {
      NoStarter(front, i);
    } else if phases[i].name in Starters(front) {
      StartersAreNames(front, phases[i].name);
    }
  }
}

/** The WhatsApp client manager as a machine: each event is one critical section of one call, so a
    run is any interleaving of concurrent calls. */
module ManagerMachine {
  import opened Common

  type Tenant = nat

  type Client = nat

  /** `flight`: created by a call that has not inserted it yet; `closing`: taken out by a call that
      has not disconnected it yet; `gone`: disconnected. Clients are numbered as they are created. */
  datatype State = State(
    clients: map<Tenant, Client>, order: seq<Tenant>,
    flight: map<Client, Tenant>, closing: set<Client>, gone: set<Client>, next: Client)

  datatype Event =
    | Look(tenant: Tenant)
    | Create(tenant: Tenant)
    | Insert(client: Client)
    | TakeOut(tenant: Tenant)
    | Close(client: Client)

  function Init(): State { State(map[], [], map[], {}, {}, 0) }

  predicate Enabled(s: State, e: Event) {
    match e
    case Insert(c) => c in s.flight
    case Close(c) => c in s.closing
    case _ => true
  }

  function Without(order: seq<Tenant>, t: Tenant): seq<Tenant> {
    if order == [] then []
    else if order[0] == t then order[1..]
    else [order[0]] + Without(order[1..], t)
  }

  /** Most recent last. */
  function Touched(order: seq<Tenant>, t: Tenant): seq<Tenant> {
    if t in order then Without(order, t) + [t] else order
  }

  function Evicted(s: State): State {
    if s.order == [] then s
    else
      var victim := s.order[0];
      var s' := s.(order := s.order[1..]);
      if victim in s.clients then s'.(clients := s.clients - {victim}, gone := s.gone + {s.clients[victim]}) else s'
  }

  function Inserted(s: State, c: Client, max: nat): State
    requires c in s.flight
  {
    var t, landed := s.flight[c], s.(flight := s.flight - {c});
    if t in s.clients then landed.(gone := s.gone + {c}, order := Touched(s.order, t))
    else
      var room := if |s.clients| >= max then Evicted(landed) else landed;
      room.(clients := room.clients[t := c], order := room.order + [t])
  }

  function Next(s: State, e: Event, max: nat): State
    requires Enabled(s, e)
  {
    match e
    case Look(t) => if t in s.clients then s.(order := Touched(s.order, t)) else s
    case Create(t) => s.(flight := s.flight[s.next := t], next := s.next + 1)
    case Insert(c) => Inserted(s, c, max)
    case TakeOut(t) =>
      if t in s.clients
      then s.(clients := s.clients - {t}, order := Without(s.order, t), closing := s.closing + {s.clients[t]})
      else s
    case Close(c) => s.(closing := s.closing - {c}, gone := s.gone + {c})
  }

  predicate IsRun(events: seq<Event>, max: nat)
    decreases |events|, 0
  {
    events == [] ||
    (IsRun(events[..|events| - 1], max) && Enabled(Run(events[..|events| - 1], max), events[|events| - 1]))
  }

  function Run(events: seq<Event>, max: nat): State
    requires IsRun(events, max)
    decreases |events|, 1
  {
    if events == [] then Init() else Next(Run(events[..|events| - 1], max), events[|events| - 1], max)
  }

  // ---- invariant of the order ----

  predicate OrderInv(s: State) { Distinct(s.order) && Elements(s.order) == s.clients.Keys }

  lemma {:induction false} WithoutIs(order: seq<Tenant>, t: Tenant)
    requires Distinct(order)
    ensures Distinct(Without(order, t)) && Elements(Without(order, t)) == Elements(order) - {t}
    ensures |Without(order, t)| <= |order|
  {
    if order != [] {
      WithoutIs(order[1..], t);
      assert Elements(order) == {order[0]} + Elements(order[1..]);
      assert order[0] !in Elements(order[1..]);
      if order[0] != t {
        assert Elements(Without(order, t)) == {order[0]} + Elements(Without(order[1..], t));
        assert order[0] !in Elements(Without(order[1..], t));
      }
    }
  }

  lemma TouchedIs(order: seq<Tenant>, t: Tenant)
    requires Distinct(order)
    ensures Distinct(Touched(order, t)) && Elements(Touched(order, t)) == Elements(order)
  {
    WithoutIs(order, t);
    if t in order { AppendIs(Without(order, t), t); }
  }

  lemma AppendIs(order: seq<Tenant>, t: Tenant)
    requires Distinct(order) && t !in Elements(order)
    ensures Distinct(order + [t]) && Elements(order + [t]) == Elements(order) + {t}
  {
  }

  lemma RestIs(order: seq<Tenant>)
    requires Distinct(order) && order != []
    ensures Distinct(order[1..]) && Elements(order[1..]) == Elements(order) - {order[0]}
  {
    assert order == [order[0]] + order[1..];
  }

  lemma InsertKeepsOrder(s: State, c: Client, max: nat)
    requires OrderInv(s) && c in s.flight
    ensures OrderInv(Inserted(s, c, max))
  {
    var t := s.flight[c];
    if t in s.clients {
      TouchedIs(s.order, t);
    } else if |s.clients| >= max && s.order != [] {
      EvictKeepsOrder(s, c, max);
    } else {
      AppendIs(s.order, t);
    }
  }

  lemma EvictKeepsOrder(s: State, c: Client, max: nat)
    requires OrderInv(s) && c in s.flight && s.flight[c] !in s.clients && |s.clients| >= max && s.order != []
    ensures OrderInv(Inserted(s, c, max))
  {
    RestIs(s.order);
    assert s.order[0] in Elements(s.order);
    AppendIs(s.order[1..], s.flight[c]);
  }

  lemma StepKeepsOrder(s: State, e: Event, max: nat)
    requires OrderInv(s) && Enabled(s, e)
    ensures OrderInv(Next(s, e, max))
  {
    match e {
      case Look(t) => TouchedIs(s.order, t);
      case TakeOut(t) => WithoutIs(s.order, t);
      case Insert(c) => InsertKeepsOrder(s, c, max);
      case _ =>
    }
  }

  lemma StepKeepsBound(s: State, e: Event, max: nat)
    requires OrderInv(s) && Enabled(s, e) && max > 0 && |s.clients| <= max
    ensures |Next(s, e, max).clients| <= max
  {
    DistinctCardinality(s.order);
    if e.Insert? && s.flight[e.client] !in s.clients {
      var landed := s.(flight := s.flight - {e.client});
      if |s.clients| >= max {
        assert s.order != [] && s.order[0] in Elements(s.order);
        assert |s.clients - {s.order[0]}| == |s.clients| - 1;
      }
    }
  }

  /** In every run the order lists the active tenants once each, and there are at most `max`. */
  lemma {:induction false} OrderIsKeySet(events: seq<Event>, max: nat)
    requires IsRun(events, max) && max > 0
    ensures OrderInv(Run(events, max)) && |Run(events, max).clients| <= max
  {
    if events != [] {
      OrderIsKeySet(events[..|events| - 1], max);
      StepKeepsOrder(Run(events[..|events| - 1], max), events[|events| - 1], max);
      StepKeepsBound(Run(events[..|events| - 1], max), events[|events| - 1], max);
    }
  }

  // ---- no client is lost ----

  predicate Active(s: State, c: Client) { exists t :: t in s.clients && s.clients[t] == c }

  function Places(s: State, c: Client): nat {
    (if c in s.flight then 1 else 0) + (if Active(s, c) then 1 else 0)
    + (if c in s.closing then 1 else 0) + (if c in s.gone then 1 else 0)
  }

  predicate Injective(clients: map<Tenant, Client>) {
    forall t, u :: t in clients && u in clients && clients[t] == clients[u] ==> t == u
  }

  ghost predicate ClientInv(s: State) {
    Injective(s.clients) && forall c: Client :: Places(s, c) == if c < s.next then 1 else 0
  }

  lemma ActiveAfterLoss(s: State, s': State, t: Tenant, c: Client)
    requires Injective(s.clients) && t in s.clients && s'.clients == s.clients - {t}
    ensures Active(s', c) <==> Active(s, c) && c != s.clients[t]
  {
    if Active(s, c) && c != s.clients[t] {
      var u :| u in s.clients && s.clients[u] == c;
      assert u in s'.clients;
    }
    if Active(s', c) {
      var u :| u in s'.clients && s'.clients[u] == c;
      assert u in s.clients;
    }
  }

  lemma ActiveAfterGain(s: State, s': State, t: Tenant, d: Client, c: Client)
    requires t !in s.clients && s'.clients == s.clients[t := d]
    ensures Active(s', c) <==> Active(s, c) || c == d
  {
    assert s'.clients[t] == d;
    if Active(s, c) {
      var u :| u in s.clients && s.clients[u] == c;
      assert s'.clients[u] == c;
    }
  }

  lemma InsertKeepsPlaces(s: State, d: Client, max: nat, c: Client)
    requires ClientInv(s) && OrderInv(s) && d in s.flight
    ensures Places(Inserted(s, d, max), c) == Places(s, c)
    ensures Injective(Inserted(s, d, max).clients)
  {
    var t := s.flight[d];
    assert Places(s, d) == 1 && Places(s, c) <= 1;
    if t !in s.clients {
      assert !Active(s, d);
      var landed := s.(flight := s.flight - {d});
      var room := if |s.clients| >= max then Evicted(landed) else landed;
      if |s.clients| >= max && s.order != [] {
        assert s.order[0] in Elements(s.order);
        ActiveAfterLoss(s, room, s.order[0], c);
        ActiveAfterLoss(s, room, s.order[0], d);
        assert Active(s, s.clients[s.order[0]]);
      }
      ActiveAfterGain(room, Inserted(s, d, max), t, d, c);
      GainKeepsInjective(room, t, d);
    }
  }

  lemma GainKeepsInjective(s: State, t: Tenant, d: Client)
    requires Injective(s.clients) && !Active(s, d)
    ensures Injective(s.clients[t := d])
  {
  }

  lemma StepKeepsPlaces(s: State, e: Event, max: nat, c: Client)
    requires ClientInv(s) && OrderInv(s) && Enabled(s, e)
    ensures Places(Next(s, e, max), c) == Places(s, c) + if e.Create? && c == s.next then 1 else 0
    ensures Injective(Next(s, e, max).clients)
  {
    assert Places(s, c) <= 1;
    match e {
      case Insert(d) => InsertKeepsPlaces(s, d, max, c);
      case TakeOut(t) =>
        if t in s.clients {
          ActiveAfterLoss(s, Next(s, e, max), t, c);
          assert Active(s, s.clients[t]);
        }
      case Create(_) => assert Places(s, s.next) == 0;
      case Close(d) => assert Places(s, d) == 1;
      case Look(_) =>
    }
  }

  function Creations(events: seq<Event>): nat {
    if events == [] then 0
    else Creations(events[..|events| - 1]) + if events[|events| - 1].Create? then 1 else 0
  }

  /** In every run each client ever created is in exactly one place: held by the call that created it,
      active for exactly one tenant, being disconnected, or disconnected. */
  lemma {:induction false} EveryClientIsAccountedFor(events: seq<Event>, max: nat)
    requires IsRun(events, max) && max > 0
    ensures ClientInv(Run(events, max)) && Run(events, max).next == Creations(events)
  {
    if events != [] {
      var front, e := events[..|events| - 1], events[|events| - 1];
      EveryClientIsAccountedFor(front, max);
      OrderIsKeySet(front, max);
      var s := Run(front, max);
      forall c: Client ensures Places(Next(s, e, max), c) == if c < Next(s, e, max).next then 1 else 0 {
        StepKeepsPlaces(s, e, max, c);
      }
      StepKeepsPlaces(s, e, max, 0);
    }
  }

  // ---- least recently used ----

  /** The event that found or installed a client of the tenant. */
  predicate Uses(s: State, e: Event, t: Tenant) {
    || (e == Look(t) && t in s.clients)
    || (e.Insert? && e.client in s.flight && s.flight[e.client] == t)
  }

  predicate LastEventUses(events: seq<Event>, max: nat, t: Tenant)
    requires IsRun(events, max) && events != []
  {
    Uses(Run(events[..|events| - 1], max), events[|events| - 1], t)
  }

  /** The time of the tenant's last use, 0 if never. */
  function LastUse(events: seq<Event>, max: nat, t: Tenant): nat
    requires IsRun(events, max)
  {
    if events == [] then 0
    else if LastEventUses(events, max, t) then |events|
    else LastUse(events[..|events| - 1], max, t)
  }

  predicate ByLastUse(events: seq<Event>, max: nat, order: seq<Tenant>)
    requires IsRun(events, max)
  {
    forall i, j :: 0 <= i < j < |order| ==> LastUse(events, max, order[i]) < LastUse(events, max, order[j])
  }

  lemma {:induction false} LastUseIsPast(events: seq<Event>, max: nat, t: Tenant)
    requires IsRun(events, max)
    ensures LastUse(events, max, t) <= |events|
  {
    if events != [] { LastUseIsPast(events[..|events| - 1], max, t); }
  }

  lemma {:induction false} WithoutByLastUse(events: seq<Event>, max: nat, order: seq<Tenant>, t: Tenant)
    requires IsRun(events, max) && ByLastUse(events, max, order)
    ensures ByLastUse(events, max, Without(order, t))
    ensures forall u :: u in Without(order, t) ==> u in order
  {
    if order != [] && order[0] != t {
      WithoutByLastUse(events, max, order[1..], t);
      var rest := Without(order[1..], t);
      forall j | 0 <= j < |rest| ensures LastUse(events, max, order[0]) < LastUse(events, max, rest[j]) {
        assert rest[j] in order[1..];
      }
    }
  }

  /** A used tenant goes to the end, behind what is left of the others. */
  lemma UsedGoesLast(events: seq<Event>, max: nat, rest: seq<Tenant>, t: Tenant)
    requires IsRun(events, max) && events != [] && t !in rest
    requires forall u :: LastEventUses(events, max, u) <==> u == t
    requires ByLastUse(events[..|events| - 1], max, rest)
    ensures ByLastUse(events, max, rest + [t])
  {
    var front := events[..|events| - 1];
    forall i | 0 <= i < |rest|
      ensures LastUse(events, max, rest[i]) == LastUse(front, max, rest[i]) < |events| == LastUse(events, max, t)
    {
      assert rest[i] in rest;
      LastUseIsPast(front, max, rest[i]);
    }
  }

  lemma UnusedStays(events: seq<Event>, max: nat, order: seq<Tenant>)
    requires IsRun(events, max) && events != []
    requires forall u :: !LastEventUses(events, max, u)
    requires ByLastUse(events[..|events| - 1], max, order)
    ensures ByLastUse(events, max, order)
  {
  }

  lemma StepKeepsLastUse(events: seq<Event>, max: nat)
    requires IsRun(events, max) && events != []
    requires OrderInv(Run(events[..|events| - 1], max))
    requires ByLastUse(events[..|events| - 1], max, Run(events[..|events| - 1], max).order)
    ensures ByLastUse(events, max, Run(events, max).order)
  {
    var front, e := events[..|events| - 1], events[|events| - 1];
    var s := Run(front, max);
    if e.Insert? || (e.Look? && e.tenant in s.clients) {
      var t := if e.Insert? then s.flight[e.client] else e.tenant;
      assert forall u :: LastEventUses(events, max, u) <==> u == t;
      WithoutByLastUse(front, max, s.order, t);
      WithoutIs(s.order, t);
      if t in s.clients {
        assert t in Elements(s.order);
        UsedGoesLast(events, max, Without(s.order, t), t);
      } else if |s.clients| >= max && s.order != [] {
        UsedGoesLast(events, max, s.order[1..], t);
      } else {
        UsedGoesLast(events, max, s.order, t);
      }
    } else {
      if e.TakeOut? { WithoutByLastUse(front, max, s.order, e.tenant); }
      UnusedStays(events, max, Run(events, max).order);
    }
  }

  lemma {:induction false} OrderIsByLastUse(events: seq<Event>, max: nat)
    requires IsRun(events, max) && max > 0
    ensures ByLastUse(events, max, Run(events, max).order)
  {
    if events != [] {
      OrderIsByLastUse(events[..|events| - 1], max);
      OrderIsKeySet(events[..|events| - 1], max);
      StepKeepsLastUse(events, max);
    }
  }

  /** Only an insertion into a full manager evicts; it evicts one tenant, and every other active
      tenant was used after it. */
  lemma EvictionIsLeastRecentlyUsed(events: seq<Event>, max: nat, c: Client, v: Tenant, u: Tenant)
    requires IsRun(events, max) && max > 0 && c in Run(events, max).flight
    requires v in Run(events, max).clients && v !in Inserted(Run(events, max), c, max).clients
    ensures |Run(events, max).clients| == max && Run(events, max).flight[c] !in Run(events, max).clients
    ensures u in Run(events, max).clients && u != v ==>
              u in Inserted(Run(events, max), c, max).clients && LastUse(events, max, v) < LastUse(events, max, u)
    ensures Run(events, max).clients[v] in Inserted(Run(events, max), c, max).gone
  {
    var s := Run(events, max);
    OrderIsKeySet(events, max);
    OrderIsByLastUse(events, max);
    assert v in Elements(s.order);
    assert s.order[0] == v;
    if u in s.clients && u != v {
      assert u in Elements(s.order);
      var i :| 0 <= i < |s.order| && s.order[i] == u;
      assert i > 0;
    }
  }
}

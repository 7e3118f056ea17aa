/** The manager itself: a map of clients and a slice that orders their tenants by use. */
module WhatsappManager {
  import opened Common
  import opened ManagerMachine

  const DEFAULT_MAX_ACTIVE := 100

  class Manager {
    const max: nat
    var clients: map<Tenant, Client>
    var order: seq<Tenant>
    // What running calls hold: clients they created, and clients they took out to disconnect.
    var flight: map<Client, Tenant>
    var closing: set<Client>
    var gone: set<Client>
    var next: Client
    ghost var events: seq<Event>

    constructor (maxActiveTenants: int)
      ensures Valid() && events == [] && max == if maxActiveTenants <= 0 then 100 else maxActiveTenants
    {
      max := if maxActiveTenants <= 0 then DEFAULT_MAX_ACTIVE else maxActiveTenants;
      clients, order, flight, closing, gone, next, events := map[], [], map[], {}, {}, 0, [];
    }

    function Now(): State
      reads this
    {
      State(clients, order, flight, closing, gone, next)
    }

    /** The state is the outcome of the critical sections executed so far. */
    ghost predicate Valid()
      reads this
    {
      max > 0 && IsRun(events, max) && Now() == Run(events, max)
    }

    // ---- critical sections ----

    ghost method Log(e: Event)
      requires max > 0 && IsRun(events, max) && Enabled(Run(events, max), e)
      requires Now() == Next(Run(events, max), e, max)
      modifies this`events
      ensures Valid() && events == old(events) + [e]
    {
      ghost var before := events;
      events := events + [e];
      assert events[..|events| - 1] == before;
    }

    method TouchLru(t: Tenant)
      modifies this`order
      ensures order == Touched(old(order), t)
    {
      ghost var before := order;
      for i := 0 to |order|
        invariant order == before && t !in before[..i]
      {
        if order[i] == t {
          WithoutSplits(order, t, i);
          order := order[..i] + order[i + 1..];
          order := order + [t];
          return;
        }
      }
      WholeSlice(before);
    }

    method Unlist(t: Tenant)
      modifies this`order
      ensures order == Without(old(order), t)
    {
      ghost var before := order;
      for i := 0 to |order|
        invariant order == before && t !in before[..i]
      {
        if order[i] == t {
          WithoutSplits(order, t, i);
          order := order[..i] + order[i + 1..];
          return;
        }
      }
      WholeSlice(before);
      WithoutAbsent(before, t);
    }

    method EvictLru()
      requires Valid()
      modifies this`clients, this`order, this`gone
      ensures Now() == Evicted(old(Now()))
    {
      if |order| == 0 { return; }
      var victim := order[0];
      order := order[1..];
      if victim in clients {
        gone := gone + {clients[victim]};
        clients := clients - {victim};
      }
    }

    /** The first critical section of GetOrCreate, and all of Get. */
    method Get(t: Tenant) returns (r: Option<Client>)
      requires Valid()
      modifies this
      ensures Valid() && events == old(events) + [Event.Look(t)]
      ensures clients == old(clients) && r == if t in clients then Some(clients[t]) else None
      ensures next == old(next)
      ensures flight == old(flight) && closing == old(closing)
      ensures r.Some? ==> |order| > 0 && order[|order| - 1] == t
    {
      r := None;
      OrderIsKeySet(events, max);
      if t in clients {
        assert t in Elements(order);
        TouchLru(t);
        r := Some(clients[t]);
      }
      Log(Event.Look(t));
    }

    /** The factory: outside the lock. */
    method Create(t: Tenant) returns (c: Client)
      requires Valid()
      modifies this
      ensures Valid() && events == old(events) + [Event.Create(t)]
      ensures c !in old(flight) && flight == old(flight)[c := t] && closing == old(closing)
      ensures c == old(next) && next == old(next) + 1
    {
      c := next;
      EveryClientIsAccountedFor(events, max);
      assert Places(Now(), c) == 0;
      flight, next := flight[c := t], next + 1;
      Log(Event.Create(t));
    }

    /** The second critical section: check again, make room, install. */
    method Insert(c: Client) returns (r: Client)
      requires Valid() && c in flight
      modifies this
      ensures Valid() && events == old(events) + [Event.Insert(c)]
      ensures old(flight)[c] in clients && clients[old(flight)[c]] == r
      ensures |order| > 0 && order[|order| - 1] == old(flight)[c]
      ensures flight == old(flight) - {c} && closing == old(closing)
      ensures next == old(next)
      ensures r != c ==> c in gone && old(clients) == clients
    {
      var t := flight[c];
      OrderIsKeySet(events, max);
      assert t in clients ==> t in Elements(order);
      if t in clients {
        flight := flight - {c};
        gone := gone + {c};
        TouchLru(t);
        Log(Event.Insert(c));
        return clients[t];
      }
      var full := |clients| >= max;
      if full { EvictLru(); }
      flight := flight - {c};
      clients := clients[t := c];
      order := order + [t];
      Log(Event.Insert(c));
      return c;
    }

    method TakeOut(t: Tenant) returns (r: Option<Client>)
      requires Valid()
      modifies this
      ensures Valid() && events == old(events) + [Event.TakeOut(t)]
      ensures t !in clients && r == if t in old(clients) then Some(old(clients)[t]) else None
      ensures flight == old(flight) && closing == old(closing) + if r.Some? then {r.value} else {}
      ensures next == old(next)
    {
      if t !in clients {
        Log(Event.TakeOut(t));
        return None;
      }
      var c := clients[t];
      clients := clients - {t};
      Unlist(t);
      closing := closing + {c};
      Log(Event.TakeOut(t));
      return Some(c);
    }

    method Close(c: Client)
      requires Valid() && c in closing
      modifies this
      ensures Valid() && events == old(events) + [Event.Close(c)] && c in gone
      ensures flight == old(flight) && closing == old(closing) - {c}
      ensures next == old(next)
    {
      closing, gone := closing - {c}, gone + {c};
      Log(Event.Close(c));
    }

    // ---- whole calls ----

    /** What other calls do while this one is outside the lock; they leave its client alone. */
    method OtherCalls(mine: set<Client>)
      requires Valid()
      modifies this
      ensures Valid() && old(events) <= events
      ensures forall c :: c in mine && c in old(flight) ==> c in flight && flight[c] == old(flight)[c]
      ensures forall c :: c in mine && c in old(closing) ==> c in closing
      ensures next >= old(next)
    {
      var n: int := *;
      while n > 0
        invariant Valid() && old(events) <= events && next >= old(next)
        invariant forall c :: c in mine && c in old(flight) ==> c in flight && flight[c] == old(flight)[c]
        invariant forall c :: c in mine && c in old(closing) ==> c in closing
      {
        n := n - 1;
        var what: nat, t: Tenant, c: Client := *, *, *;
        if what == 0 {
          var _ := Get(t);
        } else if what == 1 {
          var _ := Create(t);
        } else if what == 2 && c in flight && c !in mine {
          var _ := Insert(c);
        } else if what == 3 {
          var _ := TakeOut(t);
        } else if what == 4 && c in closing && c !in mine {
          Close(c);
        }
      }
    }

    /** The caller gets the tenant's active client, now the most recently used; a client this call
        created is that one, or is disconnected. `works` says whether the factory would succeed. */
    method GetOrCreate(t: Tenant, works: bool) returns (r: Option<Client>, ghost mine: Option<Client>)
      requires Valid()
      modifies this
      ensures Valid() && old(events) + [Event.Look(t)] <= events
      // An active client is returned at once; without one the factory decides, whatever others do.
      ensures t in old(clients) ==> r == Some(old(clients)[t]) && events == old(events) + [Event.Look(t)]
      ensures t in old(clients) ==> clients == old(clients)
      ensures r.None? <==> t !in old(clients) && !works
      ensures mine.Some? <==> t !in old(clients) && works
      ensures mine.Some? ==> mine.value >= old(next)
      ensures mine.Some? ==> r == mine || mine.value in gone
      ensures r.Some? ==> t in clients && clients[t] == r.value
      ensures r.Some? ==> |order| > 0 && order[|order| - 1] == t
    {
      mine := None;
      r := Get(t);
      if r.Some? { return; }
      OtherCalls({});
      if !works { return; }
      var active, created := CreateAndInsert(t);
      r, mine := Some(active), Some(created);
    }

    /** The rest of the call when the factory works. */
    method CreateAndInsert(t: Tenant) returns (r: Client, ghost mine: Client)
      requires Valid()
      modifies this
      ensures Valid() && old(events) <= events
      ensures mine !in old(flight) && mine >= old(next) && (r == mine || mine in gone)
      ensures t in clients && clients[t] == r && |order| > 0 && order[|order| - 1] == t
    {
      var c := Create(t);
      mine := c;
      OtherCalls({c});
      r := Insert(c);
    }

    /** Afterwards the client found is disconnected, whatever other calls did meanwhile. */
    method Disconnect(t: Tenant)
      requires Valid()
      modifies this
      ensures Valid() && old(events) + [Event.TakeOut(t)] <= events
      ensures t in old(clients) ==> old(clients)[t] in gone
      ensures t !in old(clients) ==> events == old(events) + [Event.TakeOut(t)]
    {
      var c := TakeOut(t);
      if c.Some? {
        OtherCalls({c.value});
        Close(c.value);
      }
    }
  }

  lemma {:induction false} WithoutSplits(order: seq<Tenant>, t: Tenant, i: nat)
    requires i < |order| && order[i] == t && t !in order[..i]
    ensures Without(order, t) == order[..i] + order[i + 1..]
  {
    if i > 0 {
      assert order[..i][0] == order[0];
      assert order[1..][..i - 1] == order[..i][1..];
      WithoutSplits(order[1..], t, i - 1);
      assert order[..i] + order[i + 1..] == [order[0]] + (order[1..][..i - 1] + order[1..][i..]);
    }
  }

  lemma {:induction false} WithoutAbsent(order: seq<Tenant>, t: Tenant)
    requires t !in order
    ensures Without(order, t) == order
  {
    if order != [] { WithoutAbsent(order[1..], t); }
  }
}

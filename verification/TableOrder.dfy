/** The tables of a backup, parents before children, and the order in which a restore takes the
    tables it meets. */
module TableOrder {
  import opened Common

  datatype TableName =
    | Contacts | Conversations | Messages | InboundEvents | OutboundEvents
    | ChannelCredentials | WhatsappAccountState | WhatsappSessionKeys | WhatsappHistory
    | Other(name: string)

  const BACKUPABLE: seq<TableName> :=
    [Contacts, Conversations, Messages, InboundEvents, OutboundEvents,
     ChannelCredentials, WhatsappAccountState, WhatsappSessionKeys, WhatsappHistory]

  /** The allowlist of a restore: the two tables of key material are exported but not taken back. */
  predicate Restorable(t: TableName) {
    t in {Contacts, Conversations, Messages, InboundEvents, OutboundEvents, WhatsappAccountState, WhatsappHistory}
  }

  predicate KeyMaterial(t: TableName) { t.ChannelCredentials? || t.WhatsappSessionKeys? }

  lemma AllowlistLeavesOutKeyMaterial(t: TableName)
    ensures Restorable(t) <==> t in BACKUPABLE && !KeyMaterial(t)
  {
    assert BACKUPABLE[0] == Contacts && BACKUPABLE[1] == Conversations && BACKUPABLE[2] == Messages;
    assert BACKUPABLE[3] == InboundEvents && BACKUPABLE[4] == OutboundEvents;
    assert BACKUPABLE[6] == WhatsappAccountState && BACKUPABLE[8] == WhatsappHistory;
  }

  /** The first position of `t` in a list, or its length. */
  function Position<T(==)>(topo: seq<T>, t: T): nat {
    if topo == [] || topo[0] == t then 0 else 1 + Position(topo[1..], t)
  }

  lemma {:induction false} PositionFinds<T>(topo: seq<T>, t: T)
    ensures Position(topo, t) <= |topo|
    ensures t in topo <==> Position(topo, t) < |topo|
    ensures t in topo ==> topo[Position(topo, t)] == t
    ensures forall j :: 0 <= j < Position(topo, t) ==> topo[j] != t
  {
    if topo != [] && topo[0] != t { PositionFinds(topo[1..], t); }
  }

  lemma BackupableIsDistinct()
    ensures Distinct(BACKUPABLE)
  {
    forall i, j | 0 <= i < j < |BACKUPABLE| ensures BACKUPABLE[i] != BACKUPABLE[j] {
    }
  }

  lemma BackupablePositions()
    ensures Position(BACKUPABLE, Contacts) == 0
    ensures Position(BACKUPABLE, Conversations) == 1
    ensures Position(BACKUPABLE, Messages) == 2
  {
    PositionFinds(BACKUPABLE, Contacts);
    PositionFinds(BACKUPABLE, Conversations);
    PositionFinds(BACKUPABLE, Messages);
    BackupableIsDistinct();
  }

  /** Known tables only, each once, in topological order. */
  ghost predicate InOrder<T>(order: seq<T>, topo: seq<T>) {
    && (forall t :: t in order ==> t in topo)
    && forall i, j :: 0 <= i < j < |order| ==> Position(topo, order[i]) < Position(topo, order[j])
  }

  lemma InOrderIsDistinct<T>(order: seq<T>, topo: seq<T>)
    requires InOrder(order, topo)
    ensures Distinct(order)
  {
  }

  /** Such a list is determined by its elements. */
  lemma {:induction false} InOrderIsUnique<T>(a: seq<T>, b: seq<T>, topo: seq<T>)
    requires InOrder(a, topo) && InOrder(b, topo) && Elements(a) == Elements(b)
    ensures a == b
  {
    assert a != [] ==> a[0] in Elements(b);
    assert b != [] ==> b[0] in Elements(a);
    if a != [] && b != [] {
      HeadComesFirst(a, b, topo);
      HeadComesFirst(b, a, topo);
      SamePosition(topo, a[0], b[0]);
      InOrderIsDistinct(a, topo);
      InOrderIsDistinct(b, topo);
      assert Elements(a[1..]) == Elements(a) - {a[0]};
      assert Elements(b[1..]) == Elements(b) - {b[0]};
      InOrderIsUnique(a[1..], b[1..], topo);
      assert a == [a[0]] + a[1..] && b == [b[0]] + b[1..];
    }
  }

  lemma HeadComesFirst<T>(a: seq<T>, b: seq<T>, topo: seq<T>)
    requires InOrder(a, topo) && InOrder(b, topo) && Elements(a) == Elements(b) && a != [] && b != []
    ensures Position(topo, a[0]) <= Position(topo, b[0])
  {
    assert b[0] in Elements(a);
    var i :| 0 <= i < |a| && a[i] == b[0];
  }

  lemma SamePosition<T>(topo: seq<T>, x: T, y: T)
    requires x in topo && y in topo && Position(topo, x) == Position(topo, y)
    ensures x == y
  {
    PositionFinds(topo, x);
    PositionFinds(topo, y);
  }

  lemma PrefixKeepsOrder<T>(order: seq<T>, topo: seq<T>, t: T)
    requires InOrder(order, topo) && t !in topo
    ensures InOrder(order, topo + [t]) && InOrder(order + [t], topo + [t])
  {
    forall u | u in topo + [t]
      ensures Position(topo + [t], u) == if u == t then |topo| else Position(topo, u)
      ensures u != t ==> Position(topo, u) < |topo|
    {
      PositionInPrefix(topo, t, u);
    }
    assert forall u :: u in topo ==> u in topo + [t];
    assert t in topo + [t];
  }

  lemma {:induction false} PositionInPrefix<T>(topo: seq<T>, t: T, u: T)
    requires t !in topo && u in topo + [t]
    ensures Position(topo + [t], u) == if u == t then |topo| else Position(topo, u)
    ensures u != t ==> Position(topo, u) < |topo|
  {
    if topo != [] && topo[0] != u {
      assert (topo + [t])[1..] == topo[1..] + [t];
      PositionInPrefix(topo[1..], t, u);
    }
  }

  method IndexOf<T(==)>(topo: seq<T>, t: T) returns (pos: int)
    ensures pos == if t in topo then Position(topo, t) else -1
  {
    PositionFinds(topo, t);
    for i := 0 to |topo|
      invariant forall j :: 0 <= j < i ==> topo[j] != t
    {
      if topo[i] == t { return i; }
    }
    return -1;
  }

  /** Insert a table before the first one that comes later in the topological order. */
  method AppendInOrder<T(==)>(order: seq<T>, t: T, topo: seq<T>) returns (out: seq<T>)
    ensures Elements(out) == Elements(order) + {t}
    ensures t in order ==> out == order
    ensures InOrder(order, topo) && t in topo ==> InOrder(out, topo)
    ensures t !in order ==> exists i :: 0 <= i <= |order| && out == order[..i] + [t] + order[i..]
  {
    if t in order { return order; }
    var pos := IndexOf(topo, t);
    if pos < 0 {
      assert order == order[..|order|] + order[|order|..];
      return order + [t];
    }
    var at := |order|;
    for i := 0 to |order|
      invariant at == |order|
      invariant forall k :: 0 <= k < i && order[k] in topo ==> Position(topo, order[k]) <= pos
    {
      var p := IndexOf(topo, order[i]);
      if p > pos { at := i; break; }
    }
    out := order[..at] + [t] + order[at..];
    assert order == order[..at] + order[at..];
    if InOrder(order, topo) { InsertedInOrder(order, t, topo, at); }
  }

  lemma InsertedInOrder<T>(order: seq<T>, t: T, topo: seq<T>, at: nat)
    requires InOrder(order, topo) && t in topo && t !in order && at <= |order|
    requires forall k :: 0 <= k < at ==> Position(topo, order[k]) <= Position(topo, t)
    requires at < |order| ==> Position(topo, t) < Position(topo, order[at])
    ensures InOrder(order[..at] + [t] + order[at..], topo)
  {
    forall k | 0 <= k < at ensures Position(topo, order[k]) < Position(topo, t) {
      if Position(topo, order[k]) == Position(topo, t) { SamePosition(topo, order[k], t); }
    }
  }
}

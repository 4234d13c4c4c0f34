/**
 * The records shared by every variant of the café: menu items, waiters and
 * orders, with instants as integer milliseconds and preparation times as
 * integer minutes.
 */
module CafeTypes {

  /** Milliseconds in a minute: the factor between prepTime and instants. */
  const MINUTE_MS: int := 60000

  datatype Priority = VIP | Regular | Online

  datatype OrderStatus = InProgress | Completed

  datatype MenuItem = MenuItem(id: int, name: string, prepTime: int)

  /**
   * An order. `timestamp` and `estimatedCompletion` are instants in
   * milliseconds; `prepTime` is in minutes.
   */
  datatype Order = Order(
    id: string,
    itemId: int,
    itemName: string,
    priority: Priority,
    waiterName: string,
    prepTime: int,
    status: OrderStatus,
    timestamp: int,
    estimatedCompletion: int)

  /** A waiter: outstanding minutes of work and two order counters. */
  datatype Waiter = Waiter(name: string, occupiedTime: real, currentOrders: nat, totalOrders: nat)

  /** The rank used by the backend and the web front end: VIP 0, Regular 1, Online 2. */
  function PriorityRank(p: Priority): (r: nat)
    ensures r < 3
  {
    match p
    case VIP => 0
    case Regular => 1
    case Online => 2
  }

  /** A fresh roster entry, as the roster is built at start-up. */
  function IdleWaiter(name: string): Waiter {
    Waiter(name, 0.0, 0, 0)
  }

  function Names(ws: seq<Waiter>): (r: seq<string>)
    ensures |r| == |ws|
    ensures forall i :: 0 <= i < |ws| ==> r[i] == ws[i].name
  {
    if ws == [] then [] else [ws[0].name] + Names(ws[1..])
  }

  predicate DistinctNames(ws: seq<Waiter>) {
    forall i, j :: 0 <= i < j < |ws| ==> ws[i].name != ws[j].name
  }

  /** The orders whose status is In Progress, in ledger order. */
  function InProgressOnly(orders: seq<Order>): (r: seq<Order>)
    ensures |r| <= |orders|
    ensures forall o :: o in r ==> o in orders && o.status == InProgress
    ensures forall o :: o in orders && o.status == InProgress ==> o in r
    ensures multiset(r) <= multiset(orders)
  {
    if orders == [] then []
    else
      assert orders == [orders[0]] + orders[1..];
      (if orders[0].status == InProgress then [orders[0]] else []) + InProgressOnly(orders[1..])
  }

  /** The filter distributes over concatenation, so it keeps ledger order. */
  lemma {:induction false} InProgressAppend(a: seq<Order>, b: seq<Order>)
    ensures InProgressOnly(a + b) == InProgressOnly(a) + InProgressOnly(b)
  {
    if a == [] {
      assert a + b == b;
    } else {
      assert (a + b)[0] == a[0] && (a + b)[1..] == a[1..] + b;
      InProgressAppend(a[1..], b);
    }
  }

  /** Every In Progress occurrence is kept, as often as it occurs, and nothing else. */
  lemma {:induction false} InProgressMultiplicity(orders: seq<Order>, o: Order)
    ensures multiset(InProgressOnly(orders))[o] == if o.status == InProgress then multiset(orders)[o] else 0
  {
    if orders != [] {
      InProgressMultiplicity(orders[1..], o);
      assert orders == [orders[0]] + orders[1..];
    }
  }

  /** Sum of the waiters' outstanding minutes. */
  function TotalLoad(ws: seq<Waiter>): real {
    if ws == [] then 0.0 else ws[0].occupiedTime + TotalLoad(ws[1..])
  }

  /** Number of waiters in the roster that carry the given name. */
  function NameCount(ws: seq<Waiter>, name: string): (n: nat)
    ensures n <= |ws|
  {
    if ws == [] then 0 else (if ws[0].name == name then 1 else 0) + NameCount(ws[1..], name)
  }

  /** Sum of the orders' preparation times. */
  function PrepSum(orders: seq<Order>): int {
    if orders == [] then 0 else orders[0].prepTime + PrepSum(orders[1..])
  }

  /** Number of orders in the given status. */
  function StatusCount(orders: seq<Order>, s: OrderStatus): (n: nat)
    ensures n <= |orders|
  {
    if orders == [] then 0 else (if orders[0].status == s then 1 else 0) + StatusCount(orders[1..], s)
  }

  /** With distinct names, a name that occurs occurs exactly once. */
  lemma {:induction false} DistinctNameCount(ws: seq<Waiter>, name: string)
    requires DistinctNames(ws)
    ensures NameCount(ws, name) == (if name in Names(ws) then 1 else 0)
  {
    if ws != [] {
      assert DistinctNames(ws[1..]);
      DistinctNameCount(ws[1..], name);
      assert Names(ws) == [ws[0].name] + Names(ws[1..]);
      if ws[0].name == name {
        assert forall j :: 0 <= j < |ws[1..]| ==> Names(ws[1..])[j] == ws[j + 1].name != name;
      }
    }
  }

  /** The orders with the given priority, in ledger order. */
  function WithPriority(orders: seq<Order>, p: Priority): seq<Order> {
    if orders == [] then []
    else (if orders[0].priority == p then [orders[0]] else []) + WithPriority(orders[1..], p)
  }
}

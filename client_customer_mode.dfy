/**
 * The kiosk of the client-only simulation (CustomerMode.tsx at the
 * repository root): least-loaded waiter choice, construction of a new order,
 * and the customer's list of active orders.
 */
module ClientCustomerMode {
  import opened Wrappers
  import opened CafeTypes
  import Sorting

  /**
   * The comparator of `assignWaiter`: `a.occupiedTime - b.occupiedTime`, under
   * which `a` may stay before `b` when the difference is not positive.
   */
  predicate LoadLe(a: Waiter, b: Waiter)
    ensures LoadLe(a, b) <==> a.occupiedTime - b.occupiedTime <= 0.0
  {
    a.occupiedTime <= b.occupiedTime
  }

  lemma LoadLeTotal()
    ensures Sorting.TotalPreorder(LoadLe)
  {
  }

  /**
   * The first waiter, in roster order, whose load is not above anybody's:
   * the reference definition of least-loaded with roster-order tie-break.
   */
  function LeastLoaded(waiters: seq<Waiter>): (k: nat)
    requires waiters != []
    ensures k < |waiters|
    ensures forall j :: 0 <= j < |waiters| ==> waiters[k].occupiedTime <= waiters[j].occupiedTime
    ensures forall i :: 0 <= i < k ==> waiters[i].occupiedTime > waiters[k].occupiedTime
  {
    LoadLeTotal();
    Sorting.FirstLeast(waiters, LoadLe)
  }

  /**
   * `assignWaiter`: sort a copy of the roster by load (a stable sort) and
   * take the head's name. The roster is a value, so it is not changed.
   */
  function AssignWaiter(waiters: seq<Waiter>): (name: string)
    requires waiters != []
    ensures name == waiters[LeastLoaded(waiters)].name
    ensures name in Names(waiters)
  {
    LoadLeTotal();
    Sorting.SortHead(waiters, LoadLe);
    Sorting.Sort(waiters, LoadLe)[0].name
  }

  /**
   * `handleConfirmOrder`: nothing without a selected item; otherwise an
   * In Progress order for the selected item, assigned by `AssignWaiter`,
   * stamped `now` and due `prepTime` minutes later. `id` stands for the
   * `ORD-<clock>` string.
   */
  function ConfirmOrder(selected: Option<MenuItem>, priority: Priority, waiters: seq<Waiter>,
                        now: int, id: string): (r: Option<Order>)
    requires selected.Some? ==> waiters != []
    ensures r.None? <==> selected.None?
    ensures r.Some? ==>
      && r.value.id == id
      && r.value.itemId == selected.value.id
      && r.value.itemName == selected.value.name
      && r.value.prepTime == selected.value.prepTime
      && r.value.priority == priority
      && r.value.status == InProgress
      && r.value.timestamp == now
      && r.value.estimatedCompletion - r.value.timestamp == r.value.prepTime * MINUTE_MS
      && r.value.waiterName == waiters[LeastLoaded(waiters)].name
  {
    match selected
    case None => None
    case Some(item) =>
      var waiterName := AssignWaiter(waiters);
      Some(Order(id, item.id, item.name, priority, waiterName, item.prepTime,
                 InProgress, now, now + item.prepTime * MINUTE_MS))
  }

  /** The client-side priority order: VIP 1, Regular 2, Online 3. */
  function PriorityOrder(p: Priority): (r: nat)
    ensures r == PriorityRank(p) + 1
  {
    match p
    case VIP => 1
    case Regular => 2
    case Online => 3
  }

  /** `priorityOrder[a.priority] - priorityOrder[b.priority]`, as a comparator. */
  predicate PriorityLe(a: Order, b: Order)
    ensures PriorityLe(a, b) <==> PriorityOrder(a.priority) - PriorityOrder(b.priority) <= 0
  {
    PriorityOrder(a.priority) <= PriorityOrder(b.priority)
  }

  lemma PriorityLeTotal()
    ensures Sorting.TotalPreorder(PriorityLe)
  {
  }

  /** Under `PriorityLe`, the orders equivalent to `x` are those of its priority. */
  lemma {:induction false} PriorityEquivalents(s: seq<Order>, x: Order)
    ensures Sorting.Equivalents(s, PriorityLe, x) == WithPriority(s, x.priority)
  {
    if s != [] {
      PriorityEquivalents(s[1..], x);
    }
  }

  /**
   * Sorting by priority alone with a stable sort: a permutation, ordered by
   * priority, and each priority's orders in their original order.
   */
  function SortByPriority(orders: seq<Order>): (r: seq<Order>)
    ensures multiset(r) == multiset(orders)
    ensures forall i, j :: 0 <= i < j < |r| ==> PriorityOrder(r[i].priority) <= PriorityOrder(r[j].priority)
    ensures forall p :: WithPriority(r, p) == WithPriority(orders, p)
  {
    PriorityLeTotal();
    Sorting.SortCorrect(orders, PriorityLe);
    var r := Sorting.Sort(orders, PriorityLe);
    assert forall p :: WithPriority(r, p) == WithPriority(orders, p) by {
      forall p ensures WithPriority(r, p) == WithPriority(orders, p) {
        var x := Order("", 0, "", p, "", 0, InProgress, 0, 0);
        PriorityEquivalents(r, x);
        PriorityEquivalents(orders, x);
      }
    }
    r
  }

  /**
   * `myOrders`: the In Progress orders, VIP first, then Regular, then
   * Online; equal priorities keep ledger order.
   */
  function MyOrders(orders: seq<Order>): (r: seq<Order>)
    ensures multiset(r) == multiset(InProgressOnly(orders))
    ensures forall o :: o in r <==> o in orders && o.status == InProgress
    ensures forall i, j :: 0 <= i < j < |r| ==> PriorityOrder(r[i].priority) <= PriorityOrder(r[j].priority)
    ensures forall p :: WithPriority(r, p) == WithPriority(InProgressOnly(orders), p)
  {
    var r := SortByPriority(InProgressOnly(orders));
    assert forall o :: o in r <==> o in multiset(r);
    r
  }
}

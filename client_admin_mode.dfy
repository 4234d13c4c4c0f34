/** The browser-only dashboard: a priority-sorted copy of the ledger and the statistics cards. */
module ClientAdminMode {
  import opened CafeTypes
  import Statistics
  import ClientCustomerMode

  /** `sortedOrders`: a copy of the ledger by priority VIP 1 < Regular 2 < Online 3, with no second key. */
  function SortedOrders(orders: seq<Order>): (r: seq<Order>)
    ensures multiset(r) == multiset(orders)
    ensures forall i, j :: 0 <= i < j < |r| ==>
      ClientCustomerMode.PriorityOrder(r[i].priority) <= ClientCustomerMode.PriorityOrder(r[j].priority)
    ensures forall p :: WithPriority(r, p) == WithPriority(orders, p)
  {
    ClientCustomerMode.SortByPriority(orders)
  }

  /**
   * The property lookup `itemCounts[order.itemName]`: the position of `name`
   * among the keys, or the end when it is not one of them.
   */
  method FindKey(counts: Statistics.Tally, name: string) returns (k: nat)
    ensures k <= |counts|
    ensures forall j :: 0 <= j < k ==> counts[j].0 != name
    ensures k < |counts| ==> counts[k].0 == name
  {
    k := 0;
    while k < |counts| && counts[k].0 != name
      invariant 0 <= k <= |counts|
      invariant forall j :: 0 <= j < k ==> counts[j].0 != name
    {
      k := k + 1;
    }
  }

  /** The `forEach` that fills `itemCounts`, one order at a time, in ledger order. */
  method CountItems(orders: seq<Order>) returns (counts: Statistics.Tally)
    ensures counts == Statistics.ItemCounts(orders)
  {
    counts := [];
    var i := 0;
    while i < |orders|
      invariant 0 <= i <= |orders|
      invariant counts == Statistics.ItemCounts(orders[..i])
    {
      var name := orders[i].itemName;
      var k := FindKey(counts, name);
      Statistics.BumpAt(counts, name, k);
      if k < |counts| {
        counts := counts[k := (name, counts[k].1 + 1)];
      } else {
        counts := counts + [(name, 1)];
      }
      assert orders[..i + 1][..i] == orders[..i];
      i := i + 1;
    }
    assert orders[..i] == orders;
  }

  /** `mostOrdered` with `|| 'N/A'`: an empty ledger or an empty top item name shows "N/A". */
  function MostOrdered(orders: seq<Order>): (name: string)
    ensures orders == [] ==> name == "N/A"
    ensures orders != [] && name != "N/A" ==>
      && Statistics.Occurrences(orders, name) > 0
      && forall o :: o in orders ==> Statistics.Occurrences(orders, o.itemName) <= Statistics.Occurrences(orders, name)
  {
    Statistics.MostOrderedIsMost(orders);
    match Statistics.TopEntry(Statistics.ItemCounts(orders))
    case None => "N/A"
    case Some(top) => if top == "" then "N/A" else top
  }

  /** When no item is called "N/A" or has an empty name, `mostOrdered` shows "N/A" exactly for an empty ledger. */
  lemma MostOrderedNotApplicable(orders: seq<Order>)
    requires forall o :: o in orders ==> o.itemName != "N/A" && o.itemName != ""
    ensures MostOrdered(orders) == "N/A" <==> orders == []
  {
    if orders != [] {
      Statistics.MostOrderedIsMost(orders);
      var top := Statistics.TopEntry(Statistics.ItemCounts(orders)).value;
      Statistics.CountedItemOrdered(orders, top);
    }
  }

  /** `topWaiter` with `|| 'N/A'`: the first waiter with the most orders, "N/A" for an empty roster or an empty name. */
  function TopWaiter(waiters: seq<Waiter>): (name: string)
    ensures waiters == [] ==> name == "N/A"
    ensures waiters != [] ==>
      name == (if waiters[Statistics.Busiest(waiters)].name == "" then "N/A" else waiters[Statistics.Busiest(waiters)].name)
  {
    match Statistics.TopWaiterEntry(waiters)
    case None => "N/A"
    case Some(w) => if w.name == "" then "N/A" else w.name
  }
}

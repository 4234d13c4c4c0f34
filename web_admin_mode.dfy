/** The web dashboard: a ranked copy of the ledger and the statistics panel. */
module WebAdminMode {
  import opened Wrappers
  import opened CafeTypes
  import Sorting
  import Ranking
  import Statistics

  /** `sortedOrders`: a copy of the ledger in rank-then-timestamp order, ties in ledger order. */
  function SortedOrders(orders: seq<Order>): (r: seq<Order>)
    ensures multiset(r) == multiset(orders)
    ensures forall i, j :: 0 <= i < j < |r| ==>
      || PriorityRank(r[i].priority) < PriorityRank(r[j].priority)
      || (PriorityRank(r[i].priority) == PriorityRank(r[j].priority) && r[i].timestamp <= r[j].timestamp)
    ensures forall x :: Sorting.Equivalents(r, Ranking.RankThenTimeLe, x) == Sorting.Equivalents(orders, Ranking.RankThenTimeLe, x)
  {
    Ranking.RankOrders(orders)
  }

  /** `mostOrdered`: "N/A" for an empty ledger, otherwise an ordered item that no other item outnumbers. */
  function MostOrdered(orders: seq<Order>): (name: string)
    ensures orders == [] ==> name == "N/A"
    ensures orders != [] ==>
      && Statistics.Occurrences(orders, name) > 0
      && forall o :: o in orders ==> Statistics.Occurrences(orders, o.itemName) <= Statistics.Occurrences(orders, name)
  {
    Statistics.MostOrderedIsMost(orders);
    match Statistics.TopEntry(Statistics.ItemCounts(orders))
    case None => "N/A"
    case Some(name) => name
  }

  /** When no item is called "N/A", `mostOrdered` shows "N/A" exactly for an empty ledger. */
  lemma MostOrderedNotApplicable(orders: seq<Order>)
    requires forall o :: o in orders ==> o.itemName != "N/A"
    ensures MostOrdered(orders) == "N/A" <==> orders == []
  {
    if orders != [] && MostOrdered(orders) == "N/A" {
      Statistics.CountedItemOrdered(orders, "N/A");
    }
  }

  /** `topWaiter`: the name of the first waiter with the most orders, "N/A" for an empty roster. */
  function TopWaiter(waiters: seq<Waiter>): (name: string)
    ensures waiters == [] ==> name == "N/A"
    ensures waiters != [] ==> name == waiters[Statistics.Busiest(waiters)].name
  {
    match Statistics.TopWaiterEntry(waiters)
    case None => "N/A"
    case Some(w) => w.name
  }
}

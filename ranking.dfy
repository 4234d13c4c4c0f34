/**
 * The display ranking shared by the backend and the web front end:
 * priority rank (VIP 0, Regular 1, Online 2) first, creation instant second.
 */
module Ranking {
  import opened CafeTypes
  import Sorting

  /**
   * Ascending by `(PRIORITY_RANK[priority], timestamp)`: the rank decides, and
   * within one priority the earlier order comes first.
   */
  predicate RankThenTimeLe(a: Order, b: Order)
    ensures RankThenTimeLe(a, b) ==> PriorityRank(a.priority) <= PriorityRank(b.priority)
    ensures a.priority == b.priority ==> (RankThenTimeLe(a, b) <==> a.timestamp <= b.timestamp)
  {
    || PriorityRank(a.priority) < PriorityRank(b.priority)
    || (PriorityRank(a.priority) == PriorityRank(b.priority) && a.timestamp <= b.timestamp)
  }

  lemma RankThenTimeLeTotal()
    ensures Sorting.TotalPreorder(RankThenTimeLe)
  {
  }

  /**
   * A stable sort by rank then timestamp: a permutation of the input,
   * ordered by the key, with orders of equal key in input order.
   */
  function RankOrders(orders: seq<Order>): (r: seq<Order>)
    ensures multiset(r) == multiset(orders)
    ensures forall i, j :: 0 <= i < j < |r| ==>
      || PriorityRank(r[i].priority) < PriorityRank(r[j].priority)
      || (PriorityRank(r[i].priority) == PriorityRank(r[j].priority) && r[i].timestamp <= r[j].timestamp)
    ensures forall x :: Sorting.Equivalents(r, RankThenTimeLe, x) == Sorting.Equivalents(orders, RankThenTimeLe, x)
  {
    RankThenTimeLeTotal();
    Sorting.SortCorrect(orders, RankThenTimeLe);
    Sorting.Sort(orders, RankThenTimeLe)
  }

  /** The example ranking: [VIP@t2, Regular@t1, VIP@t1] becomes [VIP@t1, VIP@t2, Regular@t1]. */
  lemma RankExample(a: Order, b: Order, c: Order)
    requires a.priority == VIP && b.priority == Regular && c.priority == VIP
    requires b.timestamp == c.timestamp < a.timestamp
    ensures RankOrders([a, b, c]) == [c, a, b]
  {
  }
}

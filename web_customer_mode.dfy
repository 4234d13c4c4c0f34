/** The web customer screen: the active-order queue, its countdowns and the order confirmation. */
module WebCustomerMode {
  import opened Wrappers
  import opened CafeTypes
  import Sorting
  import Ranking

  /** `activeOrders`: the In Progress orders, by rank then timestamp, ties in ledger order. */
  function ActiveOrders(orders: seq<Order>): (r: seq<Order>)
    ensures forall o :: o in r <==> o in orders && o.status == InProgress
    ensures multiset(r) == multiset(InProgressOnly(orders))
    ensures forall i, j :: 0 <= i < j < |r| ==>
      || PriorityRank(r[i].priority) < PriorityRank(r[j].priority)
      || (PriorityRank(r[i].priority) == PriorityRank(r[j].priority) && r[i].timestamp <= r[j].timestamp)
    ensures forall x :: Sorting.Equivalents(r, Ranking.RankThenTimeLe, x) == Sorting.Equivalents(InProgressOnly(orders), Ranking.RankThenTimeLe, x)
  {
    var r := Ranking.RankOrders(InProgressOnly(orders));
    assert forall o :: o in r <==> o in multiset(InProgressOnly(orders));
    r
  }

  /** `Math.ceil(x / d)` for a positive divisor: the least integer `c` with `x <= d * c`. */
  function CeilDiv(x: int, d: int): (c: int)
    requires d > 0
    ensures d * (c - 1) < x <= d * c
  {
    -((-x) / d)
  }

  /** The minutes `renderEta` shows: `max(ceil(remainingMs / 60000), 0)`. */
  function EtaMinutes(o: Order, now: int): (m: nat)
    ensures m == 0 <==> o.estimatedCompletion <= now
    ensures m > 0 ==> (m - 1) * MINUTE_MS < o.estimatedCompletion - now <= m * MINUTE_MS
  {
    var c := CeilDiv(o.estimatedCompletion - now, MINUTE_MS);
    if c > 0 then c else 0
  }

  /** A countdown never goes up as the clock advances. */
  lemma EtaNonIncreasing(o: Order, t1: int, t2: int)
    requires t1 <= t2
    ensures EtaMinutes(o, t2) <= EtaMinutes(o, t1)
  {
  }

  /** What `renderEta` shows: a positive number of minutes, or "Ready". */
  datatype Eta = Minutes(minutes: nat) | Ready

  function RenderEta(o: Order, now: int): (e: Eta)
    ensures e == Ready <==> o.estimatedCompletion <= now
    ensures e.Minutes? ==> e.minutes == EtaMinutes(o, now) > 0
  {
    var m := EtaMinutes(o, now);
    if m > 0 then Minutes(m) else Ready
  }

  /** The selection and the order dialog's visibility. */
  datatype Dialog = Dialog(selected: Option<MenuItem>, open: bool)

  /**
   * `handleConfirmOrder`: with nothing selected nothing is sent and nothing
   * changes; otherwise the selected item is sent with the priority and, however
   * the request ends, the dialog closes and the selection is cleared.
   */
  function ConfirmOrder(d: Dialog, priority: Priority): (r: (Option<(MenuItem, Priority)>, Dialog))
    ensures d.selected.None? ==> r.0 == None && r.1 == d
    ensures d.selected.Some? ==> r.0 == Some((d.selected.value, priority)) && r.1 == Dialog(None, false)
  {
    match d.selected
    case None => (None, d)
    case Some(item) => (Some((item, priority)), Dialog(None, false))
  }
}

/**
 * The dashboard statistics both admin screens compute from the ledger and
 * the roster: counts, the rounded mean preparation time, the per-item tally,
 * the most ordered item and the busiest waiter.
 */
module Statistics {
  import opened Wrappers
  import opened CafeTypes
  import Sorting

  // ---------------------------------------------------------------------------
  // Order counts

  /** Every order is either Completed or In Progress, so the two counts add up to the ledger size. */
  lemma {:induction false} StatusCountsPartition(orders: seq<Order>)
    ensures StatusCount(orders, Completed) + StatusCount(orders, InProgress) == |orders|
  {
    if orders != [] {
      StatusCountsPartition(orders[1..]);
    }
  }

  /** `orders.filter(o => o.status === "Completed").length`: at most the ledger size. */
  function CompletedOrders(orders: seq<Order>): (n: nat)
    ensures n <= |orders|
    ensures n == |orders| - StatusCount(orders, InProgress)
  {
    StatusCountsPartition(orders);
    StatusCount(orders, Completed)
  }

  // ---------------------------------------------------------------------------
  // Average preparation time

  /** `Math.round(sum / n)` for `n > 0`: the integer nearest to `sum / n`, a half rounded up. */
  function RoundedMean(sum: int, n: nat): (m: int)
    requires n > 0
    ensures n * (2 * m - 1) <= 2 * sum < n * (2 * m + 1)
  {
    var m := (2 * sum + n) / (2 * n);
    assert 2 * n * m <= 2 * sum + n < 2 * n * m + 2 * n;
    m
  }

  /** The rounded mean preparation time, or 0 for an empty ledger. */
  function AveragePrepTime(orders: seq<Order>): (a: int)
    ensures orders == [] ==> a == 0
    ensures orders != [] ==> |orders| * (2 * a - 1) <= 2 * PrepSum(orders) < |orders| * (2 * a + 1)
  {
    if |orders| > 0 then RoundedMean(PrepSum(orders), |orders|) else 0
  }

  lemma {:induction false} PrepSumBounds(orders: seq<Order>, lo: int, hi: int)
    requires forall o :: o in orders ==> lo <= o.prepTime <= hi
    ensures |orders| * lo <= PrepSum(orders) <= |orders| * hi
  {
    if orders != [] {
      assert orders[0] in orders;
      PrepSumBounds(orders[1..], lo, hi);
    }
  }

  lemma MulMonotone(n: nat, x: int, y: int)
    requires x <= y
    ensures n * x <= n * y
  {
    assert n * y - n * x == n * (y - x);
  }

  /** A positive factor can be cancelled from a non-strict inequality. */
  lemma MulCancel(n: nat, x: int, y: int)
    requires n > 0
    ensures n * x <= n * y ==> x <= y
  {
    if x > y {
      MulMonotone(n, y + 1, x);
      assert n * (y + 1) == n * y + n;
    }
  }

  /** The average lies between any lower and upper bound of the preparation times, in particular between their minimum and maximum. */
  lemma AverageWithinBounds(orders: seq<Order>, lo: int, hi: int)
    requires orders != []
    requires forall o :: o in orders ==> lo <= o.prepTime <= hi
    ensures lo <= AveragePrepTime(orders) <= hi
  {
    PrepSumBounds(orders, lo, hi);
    MeanBetween(|orders|, PrepSum(orders), AveragePrepTime(orders), lo, hi);
  }

  /** The nearest integer to a mean of values in `[lo, hi]` is itself in `[lo, hi]`. */
  lemma MeanBetween(n: nat, sum: int, m: int, lo: int, hi: int)
    requires n > 0
    requires n * (2 * m - 1) <= 2 * sum < n * (2 * m + 1)
    requires n * lo <= sum <= n * hi
    ensures lo <= m <= hi
  {
    assert n * (2 * lo - 1) == 2 * (n * lo) - n;
    assert n * (2 * m + 1) == n * (2 * m) + n;
    MulCancel(n, 2 * lo - 1, 2 * m);
    assert n * (2 * hi) == 2 * (n * hi);
    MulCancel(n, 2 * m - 1, 2 * hi);
  }

  /** With positive preparation times the average is 0 exactly when there are no orders. */
  lemma AverageZeroIffEmpty(orders: seq<Order>)
    requires forall o :: o in orders ==> o.prepTime > 0
    ensures AveragePrepTime(orders) == 0 <==> orders == []
  {
    if orders != [] {
      var n, a := |orders|, AveragePrepTime(orders);
      PrepSumAtLeast(orders, 1);
      if a <= 0 {
        MulMonotone(n, 2 * a + 1, 1);
      }
    }
  }

  lemma {:induction false} PrepSumAtLeast(orders: seq<Order>, lo: int)
    requires forall o :: o in orders ==> lo <= o.prepTime
    ensures |orders| * lo <= PrepSum(orders)
  {
    if orders != [] {
      assert orders[0] in orders;
      PrepSumAtLeast(orders[1..], lo);
    }
  }

  // ---------------------------------------------------------------------------
  // Item tally

  /** An insertion-ordered dictionary from item name to count. */
  type Tally = seq<(string, nat)>

  function Keys(t: Tally): (r: seq<string>)
    ensures |r| == |t| && forall i :: 0 <= i < |t| ==> r[i] == t[i].0
  {
    seq(|t|, i requires 0 <= i < |t| => t[i].0)
  }

  predicate DistinctKeys(t: Tally) {
    forall i, j :: 0 <= i < j < |t| ==> t[i].0 != t[j].0
  }

  /** The count recorded for `name`, 0 when absent (`acc[name] ?? 0`). */
  function CountOf(t: Tally, name: string): nat {
    if t == [] then 0 else if t[0].0 == name then t[0].1 else CountOf(t[1..], name)
  }

  /** The number of orders for the item called `name`. */
  function Occurrences(orders: seq<Order>, name: string): (n: nat)
    ensures n <= |orders|
  {
    if orders == [] then 0
    else Occurrences(orders[..|orders| - 1], name) + (if orders[|orders| - 1].itemName == name then 1 else 0)
  }

  /** `acc[name] = (acc[name] ?? 0) + 1`: the entry for `name` grows by one, or a new entry `(name, 1)` goes at the end. */
  function Bump(t: Tally, name: string): (r: Tally)
    ensures forall n :: CountOf(r, n) == CountOf(t, n) + (if n == name then 1 else 0)
    ensures forall n :: n in Keys(r) <==> n in Keys(t) || n == name
    ensures DistinctKeys(t) ==> DistinctKeys(r)
  {
    if t == [] then [(name, 1)]
    else if t[0].0 == name then
      assert Keys([(name, t[0].1 + 1)] + t[1..]) == Keys(t);
      [(name, t[0].1 + 1)] + t[1..]
    else
      var rest := Bump(t[1..], name);
      BumpConsKeys(t, name, rest);
      assert DistinctKeys(t) ==> DistinctKeys([t[0]] + rest) by {
        if DistinctKeys(t) {
          assert DistinctKeys(t[1..]);
          BumpConsDistinct(t, name, rest);
        }
      }
      [t[0]] + rest
  }

  /** The keys after bumping behind a first entry that is not `name`. */
  lemma BumpConsKeys(t: Tally, name: string, rest: Tally)
    requires t != [] && t[0].0 != name
    requires forall n :: n in Keys(rest) <==> n in Keys(t[1..]) || n == name
    ensures forall n :: n in Keys([t[0]] + rest) <==> n in Keys(t) || n == name
  {
    assert Keys(t) == [t[0].0] + Keys(t[1..]);
    assert Keys([t[0]] + rest) == [t[0].0] + Keys(rest);
  }

  /** Bumping behind a first entry keeps the keys distinct. */
  lemma BumpConsDistinct(t: Tally, name: string, rest: Tally)
    requires t != [] && t[0].0 != name && DistinctKeys(t) && DistinctKeys(rest)
    requires forall n :: n in Keys(rest) <==> n in Keys(t[1..]) || n == name
    ensures DistinctKeys([t[0]] + rest)
  {
    forall j | 0 <= j < |rest|
      ensures rest[j].0 != t[0].0
    {
      assert rest[j].0 == Keys(rest)[j] && Keys(rest)[j] in Keys(rest);
      forall i | 0 <= i < |t| - 1
        ensures Keys(t[1..])[i] != t[0].0
      {
        assert t[1..][i] == t[i + 1];
      }
    }
  }

  /** `itemCounts`: one entry per distinct item name, holding that item's number of orders. */
  function ItemCounts(orders: seq<Order>): (t: Tally)
    ensures DistinctKeys(t)
    ensures forall n :: CountOf(t, n) == Occurrences(orders, n)
    ensures forall n :: n in Keys(t) <==> Occurrences(orders, n) > 0
  {
    if orders == [] then []
    else
      var t := ItemCounts(orders[..|orders| - 1]);
      ZeroCountAbsent(t);
      Bump(t, orders[|orders| - 1].itemName)
  }

  /** A tally whose keys all have positive counts lists exactly the keys with a positive count. */
  lemma {:induction false} ZeroCountAbsent(t: Tally)
    ensures forall n :: CountOf(t, n) > 0 ==> n in Keys(t)
  {
    if t != [] {
      ZeroCountAbsent(t[1..]);
      assert Keys(t) == [t[0].0] + Keys(t[1..]);
    }
  }

  /** With distinct keys, an entry's count is the count recorded for its key. */
  lemma {:induction false} EntryCount(t: Tally, i: nat)
    requires DistinctKeys(t) && i < |t|
    ensures t[i].1 == CountOf(t, t[i].0)
  {
    if i > 0 {
      EntryCount(t[1..], i - 1);
    }
  }

  /** Each entry of `itemCounts` holds the number of orders for its item. */
  lemma ItemCountsEntries(orders: seq<Order>)
    ensures forall i :: 0 <= i < |ItemCounts(orders)| ==>
      ItemCounts(orders)[i].1 == Occurrences(orders, ItemCounts(orders)[i].0) > 0
  {
    var t := ItemCounts(orders);
    forall i | 0 <= i < |t|
      ensures t[i].1 == Occurrences(orders, t[i].0) > 0
    {
      EntryCount(t, i);
      assert t[i].0 == Keys(t)[i];
    }
  }

  function TallySum(t: Tally): nat {
    if t == [] then 0 else t[0].1 + TallySum(t[1..])
  }

  lemma {:induction false} BumpSum(t: Tally, name: string)
    ensures TallySum(Bump(t, name)) == TallySum(t) + 1
  {
    if t != [] && t[0].0 != name {
      BumpSum(t[1..], name);
    }
  }

  /** The counts of `itemCounts` add up to the number of orders. */
  lemma {:induction false} ItemCountsSum(orders: seq<Order>)
    ensures TallySum(ItemCounts(orders)) == |orders|
  {
    if orders != [] {
      ItemCountsSum(orders[..|orders| - 1]);
      BumpSum(ItemCounts(orders[..|orders| - 1]), orders[|orders| - 1].itemName);
    }
  }

  /** An item that is ordered is listed in the tally. */
  lemma {:induction false} OrderedItemCounted(orders: seq<Order>, o: Order)
    requires o in orders
    ensures Occurrences(orders, o.itemName) > 0
  {
    if orders[|orders| - 1] != o {
      assert orders == orders[..|orders| - 1] + [orders[|orders| - 1]];
      OrderedItemCounted(orders[..|orders| - 1], o);
    }
  }

  /** An item with a positive count is the item of some order. */
  lemma {:induction false} CountedItemOrdered(orders: seq<Order>, name: string)
    requires Occurrences(orders, name) > 0
    ensures exists o :: o in orders && o.itemName == name
  {
    var last := orders[|orders| - 1];
    if last.itemName != name {
      CountedItemOrdered(orders[..|orders| - 1], name);
      var o :| o in orders[..|orders| - 1] && o.itemName == name;
      assert o in orders;
    } else {
      assert last in orders;
    }
  }

  /**
   * Bumping `name` in place: `k` is the position of the entry for `name`, or
   * `|t|` when there is none; the entry grows by one or `(name, 1)` is appended.
   */
  lemma {:induction false} BumpAt(t: Tally, name: string, k: nat)
    requires k <= |t| && (forall j :: 0 <= j < k ==> t[j].0 != name) && (k < |t| ==> t[k].0 == name)
    ensures Bump(t, name) == if k < |t| then t[k := (name, t[k].1 + 1)] else t + [(name, 1)]
  {
    if t == [] {
    } else if t[0].0 == name {
      assert k == 0;
      assert [(name, t[0].1 + 1)] + t[1..] == t[0 := (name, t[0].1 + 1)];
    } else {
      BumpAt(t[1..], name, k - 1);
      if k < |t| {
        BumpAtLater(t, name, k);
      } else {
        BumpAtEnd(t, name);
      }
    }
  }

  /** The in-place update one entry further down, behind a first entry that is not `name`. */
  lemma BumpAtLater(t: Tally, name: string, k: nat)
    requires 0 < k < |t| && t[0].0 != name
    requires Bump(t[1..], name) == t[1..][k - 1 := (name, t[k].1 + 1)]
    ensures Bump(t, name) == t[k := (name, t[k].1 + 1)]
  {
    assert [t[0]] + t[1..][k - 1 := (name, t[k].1 + 1)] == t[k := (name, t[k].1 + 1)];
  }

  /** The append one entry further down, behind a first entry that is not `name`. */
  lemma BumpAtEnd(t: Tally, name: string)
    requires t != [] && t[0].0 != name
    requires Bump(t[1..], name) == t[1..] + [(name, 1)]
    ensures Bump(t, name) == t + [(name, 1)]
  {
    assert [t[0]] + (t[1..] + [(name, 1)]) == t + [(name, 1)];
  }

  // ---------------------------------------------------------------------------
  // The most ordered item and the busiest waiter

  /** The comparator `(a, b) => b[1] - a[1]`: descending by count. */
  predicate CountGe(a: (string, nat), b: (string, nat))
    ensures CountGe(a, b) <==> b.1 - a.1 <= 0
  {
    a.1 >= b.1
  }

  lemma CountGeTotal()
    ensures Sorting.TotalPreorder(CountGe)
  {
  }

  /** The entry with the largest count, the first such. */
  function FirstMost(t: Tally): (k: nat)
    requires t != []
    ensures k < |t|
    ensures forall j :: 0 <= j < |t| ==> t[j].1 <= t[k].1
    ensures forall i :: 0 <= i < k ==> t[i].1 < t[k].1
  {
    CountGeTotal();
    Sorting.FirstLeast(t, CountGe)
  }

  /** `Object.entries(t).sort(descending by count)[0]`: the key at `FirstMost`, none for an empty tally. */
  function TopEntry(t: Tally): (r: Option<string>)
    ensures r.None? <==> t == []
    ensures r.Some? ==> r.value == t[FirstMost(t)].0
  {
    if t == [] then None
    else
      CountGeTotal();
      Sorting.SortHead(t, CountGe);
      Some(Sorting.Sort(t, CountGe)[0].0)
  }

  /** The most ordered item name: none only for an empty ledger, otherwise an ordered item no other item outnumbers. */
  lemma MostOrderedIsMost(orders: seq<Order>)
    ensures TopEntry(ItemCounts(orders)).None? <==> orders == []
    ensures TopEntry(ItemCounts(orders)).Some? ==>
      var name := TopEntry(ItemCounts(orders)).value;
      && Occurrences(orders, name) > 0
      && forall o :: o in orders ==> Occurrences(orders, o.itemName) <= Occurrences(orders, name)
  {
    var t := ItemCounts(orders);
    if orders != [] {
      OrderedItemCounted(orders, orders[0]);
      assert orders[0].itemName in Keys(t);
    }
    if t != [] {
      var k := FirstMost(t);
      ItemCountsEntries(orders);
      forall o | o in orders
        ensures Occurrences(orders, o.itemName) <= Occurrences(orders, t[k].0)
      {
        OrderedItemCounted(orders, o);
        var j :| 0 <= j < |t| && Keys(t)[j] == o.itemName;
        assert t[j].1 <= t[k].1;
      }
    }
  }

  /** The comparator `(a, b) => b.totalOrders - a.totalOrders`: descending by orders served. */
  predicate ServedGe(a: Waiter, b: Waiter)
    ensures ServedGe(a, b) <==> b.totalOrders - a.totalOrders <= 0
  {
    a.totalOrders >= b.totalOrders
  }

  lemma ServedGeTotal()
    ensures Sorting.TotalPreorder(ServedGe)
  {
  }

  /** The waiter with the most orders, the first such in roster order. */
  function Busiest(ws: seq<Waiter>): (k: nat)
    requires ws != []
    ensures k < |ws|
    ensures forall j :: 0 <= j < |ws| ==> ws[j].totalOrders <= ws[k].totalOrders
    ensures forall i :: 0 <= i < k ==> ws[i].totalOrders < ws[k].totalOrders
  {
    ServedGeTotal();
    Sorting.FirstLeast(ws, ServedGe)
  }

  /** `[...waiters].sort(descending by totalOrders)[0]`: the busiest waiter, none for an empty roster. */
  function TopWaiterEntry(ws: seq<Waiter>): (r: Option<Waiter>)
    ensures r.None? <==> ws == []
    ensures r.Some? ==> r.value == ws[Busiest(ws)]
  {
    if ws == [] then None
    else
      ServedGeTotal();
      Sorting.SortHead(ws, ServedGe);
      Some(Sorting.Sort(ws, ServedGe)[0])
  }
}

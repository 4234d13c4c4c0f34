/**
 * The original console program: a merge sort of the ledger by urgency and a
 * least-busy waiter assignment that mutates the order and waiter records.
 */
module LegacyCli {
  import opened Wrappers
  import Sorting

  /** `menu`: item number to (name, preparation minutes). */
  const MENU: map<int, (string, int)> := map[
    1 := ("Espresso", 4), 2 := ("Latte", 6), 3 := ("Cappuccino", 7), 4 := ("Americano", 5),
    5 := ("Mocha", 8), 6 := ("Macchiato", 5), 7 := ("Iced Coffee", 6), 8 := ("Cold Brew", 9),
    9 := ("Sandwich", 10), 10 := ("Burger", 12), 11 := ("Pizza Slice", 11), 12 := ("Pasta", 13),
    13 := ("Salad", 7), 14 := ("Fries", 6), 15 := ("Taco", 9), 16 := ("Wrap", 8),
    17 := ("Cake Slice", 5), 18 := ("Cookie", 3), 19 := ("Muffin", 4), 20 := ("Smoothie", 7)]

  /** An order record; only `assigned_waiter` is ever written after creation. */
  class LegacyOrder {
    const id: int
    const item: string
    const priority: int
    const prepTime: int
    var assignedWaiter: Option<string>

    constructor (id: int, item: string, priority: int, prepTime: int)
      ensures this.id == id && this.item == item && this.priority == priority && this.prepTime == prepTime
      ensures assignedWaiter == None
    {
      this.id := id;
      this.item := item;
      this.priority := priority;
      this.prepTime := prepTime;
      assignedWaiter := None;
    }
  }

  /** A waiter record: a name and the minutes of work queued on it. */
  datatype LegacyWaiter = LegacyWaiter(name: string, occupiedTime: int)

  // ---------------------------------------------------------------------------
  // merge_sort_orders and merge

  /** `a` may precede `b`: lower priority number first, and within a priority the longer preparation first. */
  predicate Before(a: LegacyOrder, b: LegacyOrder)
    ensures Before(a, b) ==> a.priority <= b.priority
    ensures a.priority == b.priority ==> (Before(a, b) <==> a.prepTime >= b.prepTime)
  {
    a.priority < b.priority || (a.priority == b.priority && a.prepTime >= b.prepTime)
  }

  predicate SortedByUrgency(s: seq<LegacyOrder>) {
    forall i, j :: 0 <= i < j < |s| ==> Before(s[i], s[j])
  }

  /** `merge`'s choice between two heads: the left one on a lower priority number, or on an equal one with a strictly longer preparation. */
  predicate TakesLeft(l: LegacyOrder, r: LegacyOrder)
    ensures TakesLeft(l, r) ==> Before(l, r)
    ensures !TakesLeft(l, r) ==> Before(r, l)
  {
    l.priority < r.priority || (l.priority == r.priority && l.prepTime > r.prepTime)
  }

  /**
   * What `merge` computes: the smaller head first; on equal priority the left
   * head only when its preparation is strictly longer, otherwise the right head.
   */
  function Merged(left: seq<LegacyOrder>, right: seq<LegacyOrder>): (r: seq<LegacyOrder>)
    ensures |r| == |left| + |right|
    ensures multiset(r) == multiset(left) + multiset(right)
    decreases |left| + |right|
  {
    if left == [] then right
    else if right == [] then left
    else
      assert left == [left[0]] + left[1..] && right == [right[0]] + right[1..];
      if TakesLeft(left[0], right[0]) then [left[0]] + Merged(left[1..], right)
      else [right[0]] + Merged(left, right[1..])
  }

  /** Merging two runs sorted by urgency gives a run sorted by urgency. */
  lemma {:induction false} MergedSorted(left: seq<LegacyOrder>, right: seq<LegacyOrder>)
    requires SortedByUrgency(left) && SortedByUrgency(right)
    ensures SortedByUrgency(Merged(left, right))
    decreases |left| + |right|
  {
    if left == [] || right == [] {
    } else if TakesLeft(left[0], right[0]) {
      MergedSorted(left[1..], right);
      HeadBeforeAll(left[0], left[1..], right);
      assert left == [left[0]] + left[1..];
    } else {
      MergedSorted(left, right[1..]);
      HeadBeforeAll(right[0], left, right[1..]);
      assert right == [right[0]] + right[1..];
    }
  }

  /** A head that precedes both rest runs precedes their merge. */
  lemma HeadBeforeAll(h: LegacyOrder, left: seq<LegacyOrder>, right: seq<LegacyOrder>)
    requires forall x :: x in left ==> Before(h, x)
    requires forall x :: x in right ==> Before(h, x)
    requires SortedByUrgency(Merged(left, right))
    ensures SortedByUrgency([h] + Merged(left, right))
  {
    var m := Merged(left, right);
    forall x | x in m
      ensures Before(h, x)
    {
      assert x in multiset(m);
    }
  }

  /** One step of `merge` on two non-empty runs, associated so that it can extend a prefix. */
  lemma MergedStep(left: seq<LegacyOrder>, right: seq<LegacyOrder>)
    requires left != [] && right != []
    ensures forall pre: seq<LegacyOrder> :: TakesLeft(left[0], right[0]) ==>
      pre + Merged(left, right) == (pre + [left[0]]) + Merged(left[1..], right)
    ensures forall pre: seq<LegacyOrder> :: !TakesLeft(left[0], right[0]) ==>
      pre + Merged(left, right) == (pre + [right[0]]) + Merged(left, right[1..])
  {
  }

  /** `merge`, with its two indices and its result list. */
  method Merge(left: seq<LegacyOrder>, right: seq<LegacyOrder>) returns (result: seq<LegacyOrder>)
    ensures result == Merged(left, right)
  {
    result := [];
    var i, j := 0, 0;
    while i < |left| && j < |right|
      invariant 0 <= i <= |left| && 0 <= j <= |right|
      invariant result + Merged(left[i..], right[j..]) == Merged(left, right)
      decreases |left| - i + |right| - j
    {
      MergedStep(left[i..], right[j..]);
      assert left[i..][1..] == left[i + 1..] && right[j..][1..] == right[j + 1..];
      if left[i].priority < right[j].priority {
        result := result + [left[i]];
        i := i + 1;
      } else if left[i].priority > right[j].priority {
        result := result + [right[j]];
        j := j + 1;
      } else {
        if left[i].prepTime > right[j].prepTime {
          result := result + [left[i]];
          i := i + 1;
        } else {
          result := result + [right[j]];
          j := j + 1;
        }
      }
    }
    assert Merged(left[i..], right[j..]) == left[i..] + right[j..];
    result := result + left[i..];
    result := result + right[j..];
  }

  /**
   * `merge_sort_orders`: a list of at most one order comes back as it is;
   * otherwise the result is a permutation sorted by urgency.
   */
  function MergeSortOrders(s: seq<LegacyOrder>): (r: seq<LegacyOrder>)
    ensures |s| <= 1 ==> r == s
    ensures multiset(r) == multiset(s)
    ensures SortedByUrgency(r)
    decreases |s|
  {
    if |s| <= 1 then s
    else
      var mid := |s| / 2;
      var left := MergeSortOrders(s[..mid]);
      var right := MergeSortOrders(s[mid..]);
      MergeHalves(s, mid, left, right);
      Merged(left, right)
  }

  /** Merging the sorted halves of `s` gives a sorted permutation of `s`. */
  lemma MergeHalves(s: seq<LegacyOrder>, mid: nat, left: seq<LegacyOrder>, right: seq<LegacyOrder>)
    requires mid <= |s|
    requires multiset(left) == multiset(s[..mid]) && SortedByUrgency(left)
    requires multiset(right) == multiset(s[mid..]) && SortedByUrgency(right)
    ensures multiset(Merged(left, right)) == multiset(s)
    ensures SortedByUrgency(Merged(left, right))
  {
    assert s == s[..mid] + s[mid..];
    assert multiset(s) == multiset(s[..mid]) + multiset(s[mid..]);
    MergedSorted(left, right);
  }

  /** On a tie in both priority and preparation time `merge` puts the right element first. */
  lemma MergeTieTakesRight(a: LegacyOrder, b: LegacyOrder)
    requires a != b && a.priority == b.priority && a.prepTime == b.prepTime
    ensures Merged([a], [b]) == [b, a]
  {
  }

  // ---------------------------------------------------------------------------
  // assign_waiter

  /**
   * The `occupied_time` order of `min`, which replaces its candidate `a` by a
   * later `b` exactly when `b` is strictly less busy.
   */
  predicate LoadLe(a: LegacyWaiter, b: LegacyWaiter)
    ensures !LoadLe(a, b) <==> b.occupiedTime < a.occupiedTime
  {
    a.occupiedTime <= b.occupiedTime
  }

  lemma LoadLeTotal()
    ensures Sorting.TotalPreorder(LoadLe)
  {
  }

  /**
   * The waiter `min(waiters, key=occupied_time)` picks: least busy, the first such.
   * The same first-least choice as `ClientCustomerMode.LeastLoaded`, over this
   * program's integer-load waiter records rather than the shared `Waiter` type.
   */
  function LeastBusy(ws: seq<LegacyWaiter>): (k: nat)
    requires ws != []
    ensures k < |ws|
    ensures forall j :: 0 <= j < |ws| ==> ws[k].occupiedTime <= ws[j].occupiedTime
    ensures forall i :: 0 <= i < k ==> ws[i].occupiedTime > ws[k].occupiedTime
  {
    LoadLeTotal();
    Sorting.FirstLeast(ws, LoadLe)
  }

  /** The roster after `prep` minutes are queued on the least busy waiter. */
  function Charged(ws: seq<LegacyWaiter>, prep: int): (r: seq<LegacyWaiter>)
    requires ws != []
    ensures |r| == |ws|
  {
    var k := LeastBusy(ws);
    ws[k := ws[k].(occupiedTime := ws[k].occupiedTime + prep)]
  }

  function TotalBusy(ws: seq<LegacyWaiter>): int {
    if ws == [] then 0 else ws[0].occupiedTime + TotalBusy(ws[1..])
  }

  /** Changing one waiter's queue changes the roster total by the same amount. */
  lemma {:induction false} TotalBusyUpdate(ws: seq<LegacyWaiter>, k: nat, w: LegacyWaiter)
    requires k < |ws|
    ensures TotalBusy(ws[k := w]) == TotalBusy(ws) - ws[k].occupiedTime + w.occupiedTime
  {
    if k > 0 {
      TotalBusyUpdate(ws[1..], k - 1, w);
      assert ws[k := w][1..] == ws[1..][k - 1 := w];
    }
  }

  /** Assignment conserves work: the roster total grows by exactly the order's preparation time. */
  lemma ChargedConservesWork(ws: seq<LegacyWaiter>, prep: int)
    requires ws != []
    ensures TotalBusy(Charged(ws, prep)) == TotalBusy(ws) + prep
  {
    var k := LeastBusy(ws);
    TotalBusyUpdate(ws, k, ws[k].(occupiedTime := ws[k].occupiedTime + prep));
  }

  /** Assignment touches the chosen waiter's queue only. */
  lemma ChargedTouchesOne(ws: seq<LegacyWaiter>, prep: int)
    requires ws != []
    ensures forall j :: 0 <= j < |ws| && j != LeastBusy(ws) ==> Charged(ws, prep)[j] == ws[j]
    ensures forall j :: 0 <= j < |ws| ==> Charged(ws, prep)[j].name == ws[j].name
    ensures Charged(ws, prep)[LeastBusy(ws)].occupiedTime == ws[LeastBusy(ws)].occupiedTime + prep
  {
  }

  /** `priority` as read by `customer_mode`: "1", "2" or "3", anything else meaning Regular (2). */
  function ParsePriority(s: string): (p: int)
    ensures 1 <= p <= 3
    ensures s == "1" ==> p == 1
    ensures s == "3" ==> p == 3
    ensures s != "1" && s != "3" ==> p == 2
  {
    if s == "1" then 1 else if s == "2" then 2 else if s == "3" then 3 else 2
  }

  // ---------------------------------------------------------------------------
  // The program state

  class LegacyCafe {
    var waiters: seq<LegacyWaiter>
    var orders: seq<LegacyOrder>
    var orderCounter: int

    /** The roster is non-empty and, between customer turns, every ledger order has a waiter. */
    ghost predicate Valid()
      reads this, set o | o in orders
    {
      && waiters != []
      && forall o :: o in orders ==> o.assignedWaiter.Some?
    }

    /** The start-up state: the five waiters with their initial queues, no orders, counter 1. */
    constructor ()
      ensures Valid()
      ensures orders == [] && orderCounter == 1
      ensures waiters == [LegacyWaiter("Amit", 3), LegacyWaiter("Riya", 10), LegacyWaiter("Karan", 0),
                          LegacyWaiter("Priya", 5), LegacyWaiter("Sam", 15)]
    {
      waiters := [LegacyWaiter("Amit", 3), LegacyWaiter("Riya", 10), LegacyWaiter("Karan", 0),
                  LegacyWaiter("Priya", 5), LegacyWaiter("Sam", 15)];
      orders := [];
      orderCounter := 1;
    }

    /** `assign_waiter`: the least busy waiter takes the order and its preparation time. */
    method AssignWaiter(order: LegacyOrder) returns (chosen: LegacyWaiter)
      requires waiters != []
      modifies this, order
      ensures order.assignedWaiter == Some(old(waiters)[LeastBusy(old(waiters))].name)
      ensures waiters == Charged(old(waiters), order.prepTime)
      ensures chosen == waiters[LeastBusy(old(waiters))]
      ensures orders == old(orders) && orderCounter == old(orderCounter)
    {
      var k := LeastBusy(waiters);
      order.assignedWaiter := Some(waiters[k].name);
      waiters := waiters[k := waiters[k].(occupiedTime := waiters[k].occupiedTime + order.prepTime)];
      chosen := waiters[k];
    }

    /**
     * The loop after the sort: every entry of `sorted` still without a waiter
     * gets one. Between customer turns only the new order `pending` is such.
     */
    method AssignUnassigned(sorted: seq<LegacyOrder>, pending: LegacyOrder)
      requires waiters != []
      requires pending in sorted && pending.assignedWaiter.None?
      requires forall o :: o in sorted && o != pending ==> o.assignedWaiter.Some?
      modifies this, pending
      ensures pending.assignedWaiter == Some(old(waiters)[LeastBusy(old(waiters))].name)
      ensures waiters == Charged(old(waiters), pending.prepTime)
      ensures orders == old(orders) && orderCounter == old(orderCounter)
    {
      var i := 0;
      while i < |sorted|
        invariant 0 <= i <= |sorted|
        invariant waiters != [] && orders == old(orders) && orderCounter == old(orderCounter)
        invariant pending.assignedWaiter.None? ==> waiters == old(waiters)
        invariant pending.assignedWaiter.Some? ==>
          && pending.assignedWaiter == Some(old(waiters)[LeastBusy(old(waiters))].name)
          && waiters == Charged(old(waiters), pending.prepTime)
        invariant pending in sorted[..i] ==> pending.assignedWaiter.Some?
      {
        var entry := sorted[i];
        if entry.assignedWaiter.None? {
          var _ := AssignWaiter(entry);
        }
        i := i + 1;
      }
    }

    /**
     * Merge-sorts the ledger and walks the sorted list, giving the one order
     * still without a waiter, `pending`, the least busy waiter.
     */
    method SortAndAssign(pending: LegacyOrder)
      requires waiters != []
      requires pending in orders && pending.assignedWaiter.None?
      requires forall o :: o in orders && o != pending ==> o.assignedWaiter.Some?
      modifies this, pending
      ensures pending.assignedWaiter == Some(old(waiters)[LeastBusy(old(waiters))].name)
      ensures waiters == Charged(old(waiters), pending.prepTime)
      ensures orders == old(orders) && orderCounter == old(orderCounter)
    {
      var sorted := MergeSortOrders(orders);
      assert forall o :: o in sorted && o != pending ==> o.assignedWaiter.Some? by {
        forall o | o in sorted && o != pending
          ensures o.assignedWaiter.Some?
        {
          assert o in multiset(sorted);
          assert o in orders;
        }
      }
      assert pending in multiset(orders);
      AssignUnassigned(sorted, pending);
    }

    /**
     * One customer turn: an unknown item number is refused and changes nothing;
     * otherwise a new order is appended, the ledger is merge-sorted, and every
     * order of the sorted list still without a waiter gets one. Returns the
     * name of the waiter of the new order.
     */
    method TakeOrder(itemNo: int, priorityInput: string) returns (r: Option<string>)
      requires Valid()
      modifies this
      ensures Valid()
      ensures itemNo !in MENU ==> r == None && orders == old(orders) && waiters == old(waiters) && orderCounter == old(orderCounter)
      ensures itemNo in MENU ==>
        var k := LeastBusy(old(waiters));
        && |orders| == |old(orders)| + 1
        && orders[..|old(orders)|] == old(orders)
        && fresh(orders[|old(orders)|])
        && orders[|old(orders)|].id == old(orderCounter)
        && orders[|old(orders)|].item == MENU[itemNo].0
        && orders[|old(orders)|].prepTime == MENU[itemNo].1
        && orders[|old(orders)|].priority == ParsePriority(priorityInput)
        && orders[|old(orders)|].assignedWaiter == Some(old(waiters)[k].name)
        && waiters == Charged(old(waiters), MENU[itemNo].1)
        && orderCounter == old(orderCounter) + 1
        && r == Some(old(waiters)[k].name)
      ensures forall o :: o in old(orders) ==> o.assignedWaiter == old(o.assignedWaiter)
    {
      if itemNo !in MENU {
        return None;
      }
      var (itemName, prepTime) := MENU[itemNo];
      var order := new LegacyOrder(orderCounter, itemName, ParsePriority(priorityInput), prepTime);
      orderCounter := orderCounter + 1;
      orders := orders + [order];
      SortAndAssign(order);
      r := order.assignedWaiter;
    }
  }
}

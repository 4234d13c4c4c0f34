/**
 * The client-only simulation's state (App.tsx at the repository root): the
 * ledger of orders and the roster of waiters, changed by `handleAddOrder`
 * and by the 30-second interval tick (a decay sweep over the roster and a
 * completion sweep over the ledger).
 */
module ClientApp {
  import opened Wrappers
  import opened CafeTypes
  import ClientCustomerMode
  import Catalog

  /** Minutes of load a tick takes off every waiter. */
  const DECAY_STEP: real := 0.5

  function Max(a: real, b: real): real {
    if a >= b then a else b
  }

  /**
   * `handleAddOrder`'s update of one roster entry: the name stays, a
   * non-negative preparation time never lowers the load, and both counters
   * rise by one exactly for the named waiter.
   */
  function ChargeOne(w: Waiter, order: Order): (r: Waiter)
    ensures r.name == w.name
    ensures order.prepTime >= 0 ==> r.occupiedTime >= w.occupiedTime
    ensures r.totalOrders == w.totalOrders + 1 <==> w.name == order.waiterName
    ensures r.currentOrders - w.currentOrders == r.totalOrders - w.totalOrders
    ensures w.name != order.waiterName ==> r == w
  {
    if w.name == order.waiterName then
      w.(occupiedTime := w.occupiedTime + order.prepTime as real,
         currentOrders := w.currentOrders + 1,
         totalOrders := w.totalOrders + 1)
    else w
  }

  /** `prev.map(...)` in `handleAddOrder`: only the named waiter's entry changes. */
  function Charge(ws: seq<Waiter>, order: Order): (r: seq<Waiter>)
    ensures |r| == |ws|
    ensures forall i :: 0 <= i < |r| && ws[i].name != order.waiterName ==> r[i] == ws[i]
  {
    seq(|ws|, i requires 0 <= i < |ws| => ChargeOne(ws[i], order))
  }

  /**
   * The decay sweep's update of one roster entry: the load drops by half a
   * minute but not below zero, and a waiter drained to zero holds no current
   * orders.
   */
  function DecayOne(w: Waiter): (r: Waiter)
    ensures r.name == w.name && r.totalOrders == w.totalOrders
    ensures 0.0 <= r.occupiedTime
    ensures w.occupiedTime >= 0.0 ==> r.occupiedTime <= w.occupiedTime
    ensures r.occupiedTime == 0.0 ==> r.currentOrders == 0
    ensures r.occupiedTime > 0.0 ==> r.currentOrders == w.currentOrders
  {
    w.(occupiedTime := Max(0.0, w.occupiedTime - DECAY_STEP),
       currentOrders := if w.occupiedTime > DECAY_STEP then w.currentOrders else 0)
  }

  /** The tick's `prev.map(...)` over the roster. */
  function Decay(ws: seq<Waiter>): (r: seq<Waiter>)
    ensures |r| == |ws|
    ensures forall i :: 0 <= i < |r| ==> r[i].name == ws[i].name && 0.0 <= r[i].occupiedTime
  {
    seq(|ws|, i requires 0 <= i < |ws| => DecayOne(ws[i]))
  }

  /**
   * `timeElapsed >= order.prepTime` with `timeElapsed` the elapsed
   * milliseconds over 60000; multiplied out, the comparison is exact.
   */
  predicate PrepElapsed(o: Order, now: int)
    ensures o.estimatedCompletion == o.timestamp + o.prepTime * MINUTE_MS ==>
      (PrepElapsed(o, now) <==> now >= o.estimatedCompletion)
  {
    now - o.timestamp >= o.prepTime * MINUTE_MS
  }

  /**
   * The completion sweep's update of one order: only the status may change,
   * and only from In Progress to Completed, once the preparation time has
   * elapsed.
   */
  function CompleteOne(o: Order, now: int): (r: Order)
    ensures r == o.(status := r.status)
    ensures r.status != o.status ==> o.status == InProgress && r.status == Completed
    ensures o.status == InProgress && PrepElapsed(o, now) ==> r.status == Completed
  {
    if PrepElapsed(o, now) && o.status == InProgress then o.(status := Completed) else o
  }

  /** The tick's `prev.map(...)` over the ledger: every order keeps all but its status. */
  function Complete(orders: seq<Order>, now: int): (r: seq<Order>)
    ensures |r| == |orders|
    ensures forall i :: 0 <= i < |r| ==> r[i] == orders[i].(status := r[i].status)
  {
    seq(|orders|, i requires 0 <= i < |orders| => CompleteOne(orders[i], now))
  }

  /** The roster App.tsx starts with: every name idle. */
  function Roster(names: seq<string>): (ws: seq<Waiter>)
    ensures Names(ws) == names
  {
    seq(|names|, i requires 0 <= i < |names| => IdleWaiter(names[i]))
  }

  class ClientCafe {
    var orders: seq<Order>
    var waiters: seq<Waiter>

    /** Loads never go below zero: the decay floors at 0 and charges are positive. */
    ghost predicate Valid()
      reads this
    {
      forall i :: 0 <= i < |waiters| ==> waiters[i].occupiedTime >= 0.0
    }

    constructor (names: seq<string>)
      ensures Valid()
      ensures orders == [] && waiters == Roster(names)
    {
      orders := [];
      waiters := Roster(names);
    }

    /** `handleAddOrder`: append the order and charge its waiter. */
    method AddOrder(order: Order)
      requires Valid()
      requires order.prepTime > 0
      modifies this
      ensures Valid()
      ensures orders == old(orders) + [order]
      ensures waiters == Charge(old(waiters), order)
    {
      orders := orders + [order];
      var next: seq<Waiter> := [];
      var i := 0;
      while i < |waiters|
        invariant 0 <= i <= |waiters|
        invariant |next| == i
        invariant forall k :: 0 <= k < i ==> next[k] == ChargeOne(waiters[k], order)
      {
        next := next + [ChargeOne(waiters[i], order)];
        i := i + 1;
      }
      waiters := next;
    }

    /** One interval tick at instant `now`: the decay sweep, then the completion sweep. */
    method Tick(now: int)
      requires Valid()
      modifies this
      ensures Valid()
      ensures waiters == Decay(old(waiters))
      ensures orders == Complete(old(orders), now)
    {
      var roster: seq<Waiter> := [];
      var i := 0;
      while i < |waiters|
        invariant 0 <= i <= |waiters|
        invariant |roster| == i
        invariant forall k :: 0 <= k < i ==> roster[k] == DecayOne(waiters[k])
      {
        roster := roster + [DecayOne(waiters[i])];
        i := i + 1;
      }
      waiters := roster;

      var ledger: seq<Order> := [];
      var j := 0;
      while j < |orders|
        invariant 0 <= j <= |orders|
        invariant |ledger| == j
        invariant forall k :: 0 <= k < j ==> ledger[k] == CompleteOne(orders[k], now)
      {
        ledger := ledger + [CompleteOne(orders[j], now)];
        j := j + 1;
      }
      orders := ledger;
    }

    /**
     * The kiosk's confirm button wired to `handleAddOrder`: build the order
     * with `ConfirmOrder` and, if there is one, add it.
     */
    method ConfirmOrder(selected: Option<MenuItem>, priority: Priority, now: int, id: string)
      returns (placed: Option<Order>)
      requires Valid()
      requires selected.Some? ==> waiters != [] && selected.value.prepTime > 0
      modifies this
      ensures Valid()
      ensures placed == ClientCustomerMode.ConfirmOrder(selected, priority, old(waiters), now, id)
      ensures placed.None? ==> orders == old(orders) && waiters == old(waiters)
      ensures placed.Some? ==>
        && orders == old(orders) + [placed.value]
        && waiters == Charge(old(waiters), placed.value)
        && placed.value.waiterName == old(waiters)[ClientCustomerMode.LeastLoaded(old(waiters))].name
    {
      placed := ClientCustomerMode.ConfirmOrder(selected, priority, waiters, now, id);
      if placed.Some? {
        AddOrder(placed.value);
      }
    }
  }

  /** The app's start-up state: an empty ledger and an idle roster of the catalog's waiter names, distinct. */
  method StartApp() returns (app: ClientCafe)
    ensures fresh(app) && app.Valid()
    ensures app.orders == [] && app.waiters == Roster(Catalog.WAITER_NAMES)
    ensures app.waiters != [] && DistinctNames(app.waiters)
  {
    Catalog.RosterWellFormed();
    app := new ClientCafe(Catalog.WAITER_NAMES);
    assert Names(app.waiters) == Catalog.WAITER_NAMES;
  }

  /** Charging changes no name and no position in the roster. */
  lemma ChargeKeepsNames(ws: seq<Waiter>, order: Order)
    ensures Names(Charge(ws, order)) == Names(ws)
  {
  }

  /** One more waiter of the name adds one more `p`. */
  lemma MulSucc(n: real, p: real)
    ensures (n + 1.0) * p == p + n * p
  {
  }

  /** `Charge` of a non-empty roster: the charged head, then the charged rest. */
  lemma ChargeCons(ws: seq<Waiter>, order: Order)
    requires ws != []
    ensures Charge(ws, order)[1..] == Charge(ws[1..], order)
  {
  }

  /**
   * Conservation: one charge adds `prepTime` to the roster's total load
   * once per waiter carrying the order's name.
   */
  lemma {:induction false} ChargeLoad(ws: seq<Waiter>, order: Order)
    ensures TotalLoad(Charge(ws, order))
         == TotalLoad(ws) + NameCount(ws, order.waiterName) as real * order.prepTime as real
  {
    if ws != [] {
      ChargeCons(ws, order);
      ChargeLoad(ws[1..], order);
      var n := NameCount(ws[1..], order.waiterName);
      if ws[0].name == order.waiterName {
        assert NameCount(ws, order.waiterName) == n + 1;
        MulSucc(n as real, order.prepTime as real);
      }
    }
  }

  /** With distinct names and a matching waiter, the total load rises by exactly `prepTime`. */
  lemma ChargeConservesLoad(ws: seq<Waiter>, order: Order)
    requires DistinctNames(ws)
    requires order.waiterName in Names(ws)
    ensures TotalLoad(Charge(ws, order)) == TotalLoad(ws) + order.prepTime as real
  {
    ChargeLoad(ws, order);
    DistinctNameCount(ws, order.waiterName);
  }

  /** A run of `handleAddOrder` calls with no tick in between. */
  function ChargeAll(ws: seq<Waiter>, orders: seq<Order>): (r: seq<Waiter>)
    ensures Names(r) == Names(ws)
    decreases orders
  {
    if orders == [] then ws else ChargeAll(Charge(ws, orders[0]), orders[1..])
  }

  /**
   * Conservation over N assignments: the roster's total load rises by the
   * sum of the orders' preparation times.
   */
  lemma {:induction false} ChargeAllConservesLoad(ws: seq<Waiter>, orders: seq<Order>)
    requires DistinctNames(ws)
    requires forall o :: o in orders ==> o.waiterName in Names(ws)
    ensures TotalLoad(ChargeAll(ws, orders)) == TotalLoad(ws) + PrepSum(orders) as real
    decreases orders
  {
    if orders != [] {
      var next := Charge(ws, orders[0]);
      ChargeConservesLoad(ws, orders[0]);
      ChargeKeepsNames(ws, orders[0]);
      assert DistinctNames(next);
      ChargeAllConservesLoad(next, orders[1..]);
    }
  }

  /** `n` consecutive decay sweeps on one waiter. */
  function DecayTimes(w: Waiter, n: nat): Waiter {
    if n == 0 then w else DecayOne(DecayTimes(w, n - 1))
  }

  /**
   * After `n` ticks a waiter's load is `max(0, load - n/2)`, so it never
   * goes negative and an idle waiter stays idle; the current-order count
   * survives only while the original load exceeds `n/2`; the lifetime count
   * is never touched.
   */
  lemma {:induction false} DecayTimesClosedForm(w: Waiter, n: nat)
    requires w.occupiedTime >= 0.0
    ensures DecayTimes(w, n).occupiedTime == Max(0.0, w.occupiedTime - n as real * DECAY_STEP)
    ensures DecayTimes(w, n).currentOrders
         == if n == 0 || w.occupiedTime > n as real * DECAY_STEP then w.currentOrders else 0
    ensures DecayTimes(w, n).totalOrders == w.totalOrders
    ensures DecayTimes(w, n).name == w.name
  {
    if n > 0 {
      var prev := DecayTimes(w, n - 1);
      DecayTimesClosedForm(w, n - 1);
      assert DecayTimes(w, n) == DecayOne(prev);
      var before := w.occupiedTime - (n - 1) as real * DECAY_STEP;
      assert w.occupiedTime - n as real * DECAY_STEP == before - DECAY_STEP;
      assert prev.occupiedTime == Max(0.0, before);
    }
  }

  /** The decay sweep never raises a non-negative total load. */
  lemma {:induction false} DecayLowersLoad(ws: seq<Waiter>)
    requires forall i :: 0 <= i < |ws| ==> ws[i].occupiedTime >= 0.0
    ensures 0.0 <= TotalLoad(Decay(ws)) <= TotalLoad(ws)
  {
    if ws != [] {
      assert Decay(ws)[1..] == Decay(ws[1..]);
      DecayLowersLoad(ws[1..]);
    }
  }

  /** The completion sweep is idempotent at a fixed instant. */
  lemma CompleteIdempotent(orders: seq<Order>, now: int)
    ensures Complete(Complete(orders, now), now) == Complete(orders, now)
  {
  }

  /**
   * Completion is one-way: sweeping at `a` then at `b` is sweeping once at
   * the later instant, and a Completed order is never reverted.
   */
  lemma CompleteTwice(orders: seq<Order>, a: int, b: int)
    ensures Complete(Complete(orders, a), b) == Complete(orders, if a >= b then a else b)
  {
  }

  /** A sweep changes nothing but status, and only from In Progress to Completed. */
  lemma CompleteOnlyAdvances(orders: seq<Order>, now: int)
    ensures |Complete(orders, now)| == |orders|
    ensures forall i :: 0 <= i < |orders| ==>
      && Complete(orders, now)[i].(status := orders[i].status) == orders[i]
      && (orders[i].status == Completed ==> Complete(orders, now)[i].status == Completed)
      && (Complete(orders, now)[i].status == Completed
          <==> orders[i].status == Completed || PrepElapsed(orders[i], now))
  {
  }

  /** The number of Completed orders never drops in a sweep. */
  lemma {:induction false} CompleteCountGrows(orders: seq<Order>, now: int)
    ensures StatusCount(Complete(orders, now), Completed) >= StatusCount(orders, Completed)
  {
    if orders != [] {
      assert Complete(orders, now)[1..] == Complete(orders[1..], now);
      CompleteCountGrows(orders[1..], now);
    }
  }

  /**
   * Two orders on an idle two-waiter roster: the first (5 minutes) goes to the
   * first waiter by roster order, the second (3 minutes) to the other one.
   */
  lemma TwoOrderScenario(first: Order, second: Order)
    requires first.prepTime == 5 && second.prepTime == 3
    requires first.waiterName == ClientCustomerMode.AssignWaiter([IdleWaiter("A"), IdleWaiter("B")])
    requires second.waiterName == ClientCustomerMode.AssignWaiter(Charge([IdleWaiter("A"), IdleWaiter("B")], first))
    ensures first.waiterName == "A" && second.waiterName == "B"
    ensures ChargeAll([IdleWaiter("A"), IdleWaiter("B")], [first, second])
         == [Waiter("A", 5.0, 1, 1), Waiter("B", 3.0, 1, 1)]
  {
    var roster := [IdleWaiter("A"), IdleWaiter("B")];
    FirstOfScenario(first);
    SecondOfScenario(Charge(roster, first), second);
    ChargeAllPair(roster, first, second);
  }

  /** The first order of `TwoOrderScenario`: both waiters idle, so roster order picks A. */
  lemma FirstOfScenario(first: Order)
    requires first.prepTime == 5
    requires first.waiterName == ClientCustomerMode.AssignWaiter([IdleWaiter("A"), IdleWaiter("B")])
    ensures first.waiterName == "A"
    ensures Charge([IdleWaiter("A"), IdleWaiter("B")], first) == [Waiter("A", 5.0, 1, 1), IdleWaiter("B")]
  {
    LeastLoadedPair(IdleWaiter("A"), IdleWaiter("B"));
    ChargePair([IdleWaiter("A"), IdleWaiter("B")], first);
  }

  /** The second order of `TwoOrderScenario`: B is now strictly less loaded than A. */
  lemma SecondOfScenario(charged: seq<Waiter>, second: Order)
    requires charged == [Waiter("A", 5.0, 1, 1), IdleWaiter("B")]
    requires second.prepTime == 3
    requires second.waiterName == ClientCustomerMode.AssignWaiter(charged)
    ensures second.waiterName == "B"
    ensures Charge(charged, second) == [Waiter("A", 5.0, 1, 1), Waiter("B", 3.0, 1, 1)]
  {
    LeastLoadedPair(charged[0], charged[1]);
    ChargePair(charged, second);
  }

  /** The least-loaded of two waiters: the second only when strictly less loaded. */
  lemma LeastLoadedPair(a: Waiter, b: Waiter)
    ensures ClientCustomerMode.LeastLoaded([a, b]) == if b.occupiedTime < a.occupiedTime then 1 else 0
  {
  }

  /** Two successive charges. */
  lemma ChargeAllPair(ws: seq<Waiter>, first: Order, second: Order)
    ensures ChargeAll(ws, [first, second]) == Charge(Charge(ws, first), second)
  {
    assert [first, second][1..] == [second];
    assert ChargeAll(ws, [first, second]) == ChargeAll(Charge(ws, first), [second]);
    assert [second][1..] == [];
  }

  /** `Charge` on a two-waiter roster, entry by entry. */
  lemma ChargePair(ws: seq<Waiter>, order: Order)
    requires |ws| == 2
    ensures Charge(ws, order) == [ChargeOne(ws[0], order), ChargeOne(ws[1], order)]
  {
  }

  /** One tick on a waiter with 0.3 minutes left drains it: load 0 and no current orders. */
  lemma DrainScenario(w: Waiter)
    requires w.occupiedTime == 0.3
    ensures DecayOne(w) == w.(occupiedTime := 0.0, currentOrders := 0)
  {
  }

  /** A 4-minute order is Completed by a tick 5 minutes after creation and untouched by one 3 minutes after. */
  lemma CompletionScenario(o: Order)
    requires o.prepTime == 4 && o.status == InProgress
    ensures CompleteOne(o, o.timestamp + 5 * MINUTE_MS).status == Completed
    ensures CompleteOne(o, o.timestamp + 3 * MINUTE_MS) == o
  {
  }
}

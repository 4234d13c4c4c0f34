/**
 * The FastAPI back end: an in-memory order ledger and waiter roster that is
 * re-derived ("synced") from the ledger at a given instant before every read
 * and around every order creation.
 */
module Backend {
  import opened Wrappers
  import opened CafeTypes
  import Sorting
  import Ranking
  import ClientApp
  import Catalog

  /** The only error `create_order` raises: HTTP 404 "Menu item not found". */
  datatype ApiError = MenuItemNotFound

  /** The body of a successful `POST /orders`: the new order and the synced roster. */
  datatype Created = Created(order: Order, waiters: seq<Waiter>)

  /** The whole mutable state of the service, as a value. */
  datatype State = State(waiters: seq<Waiter>, orders: seq<Order>)

  /** An order as `create_order` writes it: positive preparation time, due `prepTime` minutes after creation. */
  predicate WellFormed(o: Order) {
    o.prepTime > 0 && o.estimatedCompletion == o.timestamp + o.prepTime * MINUTE_MS
  }

  // ---------------------------------------------------------------------------
  // sync_state

  /**
   * An In Progress order whose estimated completion has been reached becomes
   * Completed; no other field changes and no order is reopened.
   */
  function CompleteDueOne(o: Order, now: int): (r: Order)
    ensures r == o.(status := r.status)
    ensures o.status == Completed ==> r.status == Completed
    ensures o.status == InProgress ==> (r.status == Completed <==> now >= o.estimatedCompletion)
  {
    if o.status == InProgress && now >= o.estimatedCompletion then o.(status := Completed) else o
  }

  function CompleteDue(orders: seq<Order>, now: int): (r: seq<Order>)
    ensures |r| == |orders|
  {
    seq(|orders|, i requires 0 <= i < |orders| => CompleteDueOne(orders[i], now))
  }

  /** The orders whose waiter is `name`, in ledger order. */
  function AssignedTo(orders: seq<Order>, name: string): (r: seq<Order>)
    ensures forall o :: o in r <==> o in orders && o.waiterName == name
    ensures |r| <= |orders|
  {
    if orders == [] then []
    else (if orders[0].waiterName == name then [orders[0]] else []) + AssignedTo(orders[1..], name)
  }

  /** The `waiterName` column of a ledger. */
  function OrderWaiters(orders: seq<Order>): (r: seq<string>)
    ensures |r| == |orders|
    ensures forall i :: 0 <= i < |r| ==> r[i] == orders[i].waiterName
  {
    seq(|orders|, i requires 0 <= i < |orders| => orders[i].waiterName)
  }

  /** A waiter's assigned orders are as many as the occurrences of its name in the `waiterName` column. */
  lemma {:induction false} AssignedCount(orders: seq<Order>, name: string)
    ensures |AssignedTo(orders, name)| == multiset(OrderWaiters(orders))[name]
  {
    if orders != [] {
      AssignedCount(orders[1..], name);
      assert OrderWaiters(orders) == [orders[0].waiterName] + OrderWaiters(orders[1..]);
    }
  }

  /** Minutes of preparation still left on one order at `now` (never negative). */
  function RemainingOne(o: Order, now: int): (m: real)
    ensures m >= 0.0
  {
    ClientApp.Max(o.prepTime as real - (now - o.timestamp) as real / 60000.0, 0.0)
  }

  /** The sum of the remaining minutes of `active`. */
  function Remaining(active: seq<Order>, now: int): (m: real)
    ensures m >= 0.0
    ensures active == [] ==> m == 0.0
  {
    if active == [] then 0.0 else RemainingOne(active[0], now) + Remaining(active[1..], now)
  }

  /** One waiter's counters recomputed from the ledger: everything but the name is overwritten. */
  function Recount(w: Waiter, orders: seq<Order>, now: int): (r: Waiter)
    ensures r.name == w.name
    ensures r.currentOrders <= r.totalOrders
    ensures r.occupiedTime >= 0.0
  {
    var mine := AssignedTo(orders, w.name);
    var active := InProgressOnly(mine);
    w.(totalOrders := |mine|, currentOrders := |active|, occupiedTime := Remaining(active, now))
  }

  function RecountAll(ws: seq<Waiter>, orders: seq<Order>, now: int): (r: seq<Waiter>)
    ensures Names(r) == Names(ws)
  {
    seq(|ws|, i requires 0 <= i < |ws| => Recount(ws[i], orders, now))
  }

  /** `sync_state` at instant `now`: complete what is due, then recount every waiter. */
  function Sync(s: State, now: int): (r: State)
    ensures |r.orders| == |s.orders| && Names(r.waiters) == Names(s.waiters)
  {
    var orders := CompleteDue(s.orders, now);
    State(RecountAll(s.waiters, orders, now), orders)
  }

  // ---------------------------------------------------------------------------
  // select_waiter

  /** Python's `str` ordering: lexicographic by code point, a proper prefix first. */
  predicate NameLe(a: string, b: string)
    ensures a <= b ==> NameLe(a, b)
    ensures NameLe(a, b) && a != [] ==> b != [] && a[0] <= b[0]
  {
    if a == [] then true
    else if b == [] then false
    else if a[0] != b[0] then a[0] < b[0]
    else NameLe(a[1..], b[1..])
  }

  lemma {:induction false} NameLeTotal(a: string, b: string)
    ensures NameLe(a, b) || NameLe(b, a)
  {
    if a != [] && b != [] && a[0] == b[0] {
      NameLeTotal(a[1..], b[1..]);
    }
  }

  lemma {:induction false} NameLeTrans(a: string, b: string, c: string)
    requires NameLe(a, b) && NameLe(b, c)
    ensures NameLe(a, c)
  {
    if a != [] && b != [] && c != [] && a[0] == b[0] && b[0] == c[0] {
      NameLeTrans(a[1..], b[1..], c[1..]);
    }
  }

  lemma {:induction false} NameLeAntisymmetric(a: string, b: string)
    requires NameLe(a, b) && NameLe(b, a)
    ensures a == b
  {
    if a != [] && b != [] {
      NameLeAntisymmetric(a[1..], b[1..]);
      assert a == [a[0]] + a[1..] && b == [b[0]] + b[1..];
    }
  }

  /**
   * The `min` key of `select_waiter`: `(occupiedTime, currentOrders, name)`
   * compared as a tuple, so the load decides first and the name last.
   */
  predicate KeyLe(a: Waiter, b: Waiter)
    ensures KeyLe(a, b) ==> a.occupiedTime <= b.occupiedTime
    ensures a.occupiedTime < b.occupiedTime ==> KeyLe(a, b)
    ensures a.occupiedTime == b.occupiedTime && a.currentOrders != b.currentOrders ==>
      (KeyLe(a, b) <==> a.currentOrders < b.currentOrders)
  {
    || a.occupiedTime < b.occupiedTime
    || (a.occupiedTime == b.occupiedTime && a.currentOrders < b.currentOrders)
    || (a.occupiedTime == b.occupiedTime && a.currentOrders == b.currentOrders && NameLe(a.name, b.name))
  }

  lemma KeyLeTotal()
    ensures Sorting.TotalPreorder(KeyLe)
  {
    forall a: Waiter, b: Waiter
      ensures KeyLe(a, b) || KeyLe(b, a)
    {
      NameLeTotal(a.name, b.name);
    }
    forall a: Waiter, b: Waiter, c: Waiter | KeyLe(a, b) && KeyLe(b, c)
      ensures KeyLe(a, c)
    {
      if NameLe(a.name, b.name) && NameLe(b.name, c.name) {
        NameLeTrans(a.name, b.name, c.name);
      }
    }
  }

  /** The index Python's `min` picks: a waiter with the least key, the first such. */
  function LeastKey(ws: seq<Waiter>): (k: nat)
    requires ws != []
    ensures k < |ws|
    ensures forall j :: 0 <= j < |ws| ==> KeyLe(ws[k], ws[j])
    ensures forall i :: 0 <= i < k ==> !KeyLe(ws[i], ws[k])
  {
    KeyLeTotal();
    Sorting.FirstLeast(ws, KeyLe)
  }

  /** With distinct names the least key is strict: every other waiter compares strictly greater. */
  lemma LeastKeyUnique(ws: seq<Waiter>)
    requires ws != [] && DistinctNames(ws)
    ensures forall j :: 0 <= j < |ws| && j != LeastKey(ws) ==> !KeyLe(ws[j], ws[LeastKey(ws)])
  {
    var k := LeastKey(ws);
    forall j | 0 <= j < |ws| && j != k
      ensures !KeyLe(ws[j], ws[k])
    {
      assert Names(ws)[j] != Names(ws)[k];
      if KeyLe(ws[j], ws[k]) {
        NameLeAntisymmetric(ws[j].name, ws[k].name);
      }
    }
  }

  // ---------------------------------------------------------------------------
  // The menu lookup of create_order

  /** `{item["id"]: item for item in MENU_ITEMS}`: a later item with the same id replaces an earlier one. */
  function MenuLookup(menu: seq<MenuItem>): (m: map<int, MenuItem>)
    ensures forall id :: id in m <==> exists it :: it in menu && it.id == id
    ensures forall id :: id in m ==> m[id] in menu && m[id].id == id
  {
    if menu == [] then map[]
    else
      var last := menu[|menu| - 1];
      var m := MenuLookup(menu[..|menu| - 1]);
      assert menu == menu[..|menu| - 1] + [last];
      m[last.id := last]
  }

  /** `menu_lookup.get(itemId)`. */
  function FindItem(menu: seq<MenuItem>, itemId: int): (r: Option<MenuItem>)
    ensures r.None? <==> forall it :: it in menu ==> it.id != itemId
    ensures r.Some? ==> r.value in menu && r.value.id == itemId
  {
    var m := MenuLookup(menu);
    if itemId in m then Some(m[itemId]) else None
  }

  /** The order `create_order` appends, created at `now` for `waiterName`. */
  function NewOrder(id: string, item: MenuItem, priority: Priority, waiterName: string, now: int): (o: Order)
    ensures o.status == InProgress && o.timestamp == now
    ensures o.itemId == item.id && o.itemName == item.name && o.prepTime == item.prepTime
    ensures o.estimatedCompletion - o.timestamp == item.prepTime * MINUTE_MS
  {
    Order(id, item.id, item.name, priority, waiterName, item.prepTime, InProgress, now, now + item.prepTime * MINUTE_MS)
  }

  /** A non-empty roster with distinct names, and a well-formed ledger whose every order names a rostered waiter. */
  ghost predicate Consistent(s: State) {
    && s.waiters != []
    && DistinctNames(s.waiters)
    && (forall o :: o in s.orders ==> WellFormed(o))
    && (forall o :: o in s.orders ==> o.waiterName in Names(s.waiters))
  }

  /** Syncing keeps a consistent state consistent. */
  lemma SyncConsistent(s: State, now: int)
    requires Consistent(s)
    ensures Consistent(Sync(s, now))
  {
    CompleteDueKeeps(s.orders, now, Names(s.waiters));
  }

  /** Appending a well-formed order for a rostered waiter keeps a state consistent. */
  lemma AppendConsistent(s: State, o: Order)
    requires Consistent(s) && WellFormed(o) && o.waiterName in Names(s.waiters)
    ensures Consistent(State(s.waiters, s.orders + [o]))
  {
  }

  /** Recounting depends on the waiters' names only. */
  lemma RecountAllByNames(ws1: seq<Waiter>, ws2: seq<Waiter>, orders: seq<Order>, now: int)
    requires Names(ws1) == Names(ws2)
    ensures RecountAll(ws1, orders, now) == RecountAll(ws2, orders, now)
  {
    assert forall i :: 0 <= i < |ws1| ==> ws1[i].name == Names(ws1)[i] == ws2[i].name;
  }

  /** Completing due orders leaves a ledger just completed at `now`, extended by an order not yet due, as it is. */
  lemma CompleteDueAppend(orders: seq<Order>, o: Order, now: int)
    requires CompleteDue(orders, now) == orders
    requires now < o.estimatedCompletion
    ensures CompleteDue(orders + [o], now) == orders + [o]
  {
    assert forall k :: 0 <= k < |orders| ==> CompleteDueOne(orders[k], now) == CompleteDue(orders, now)[k];
  }

  // ---------------------------------------------------------------------------
  // The service

  class CafeApi {
    const menu: seq<MenuItem>
    var waiters: seq<Waiter>
    var orders: seq<Order>

    /**
     * The roster is non-empty with distinct names, every menu item takes a
     * positive time, every ledger order is well formed and names a rostered waiter.
     */
    ghost predicate Valid()
      reads this
    {
      && (forall it :: it in menu ==> it.prepTime > 0)
      && Consistent(State(waiters, orders))
    }

    constructor (menu: seq<MenuItem>, names: seq<string>)
      requires names != [] && (forall i, j :: 0 <= i < j < |names| ==> names[i] != names[j])
      requires forall it :: it in menu ==> it.prepTime > 0
      ensures Valid()
      ensures this.menu == menu && orders == []
      ensures waiters == seq(|names|, i requires 0 <= i < |names| => IdleWaiter(names[i]))
    {
      this.menu := menu;
      waiters := seq(|names|, i requires 0 <= i < |names| => IdleWaiter(names[i]));
      orders := [];
      new;
      assert Names(waiters) == names;
    }

    /** The first half of `sync_state`: every In Progress order that is due becomes Completed, in place. */
    method CompleteDueOrders(now: int)
      modifies this
      ensures orders == CompleteDue(old(orders), now) && waiters == old(waiters)
    {
      var i := 0;
      while i < |orders|
        invariant 0 <= i <= |orders| == |old(orders)|
        invariant forall k :: 0 <= k < i ==> orders[k] == CompleteDueOne(old(orders)[k], now)
        invariant forall k :: i <= k < |orders| ==> orders[k] == old(orders)[k]
        invariant waiters == old(waiters)
      {
        if orders[i].status == InProgress && now >= orders[i].estimatedCompletion {
          orders := orders[i := orders[i].(status := Completed)];
        }
        i := i + 1;
      }
    }

    /** The second half of `sync_state`: every waiter's counters and load are recomputed from the ledger, in place. */
    method RecountWaiters(now: int)
      modifies this
      ensures waiters == RecountAll(old(waiters), orders, now) && orders == old(orders)
    {
      var j := 0;
      while j < |waiters|
        invariant 0 <= j <= |waiters| == |old(waiters)|
        invariant forall k :: 0 <= k < j ==> waiters[k] == Recount(old(waiters)[k], orders, now)
        invariant forall k :: j <= k < |waiters| ==> waiters[k] == old(waiters)[k]
        invariant orders == old(orders)
      {
        var w := waiters[j];
        var mine := AssignedTo(orders, w.name);
        var active := InProgressOnly(mine);
        w := w.(totalOrders := |mine|, currentOrders := |active|, occupiedTime := Remaining(active, now));
        assert w == Recount(old(waiters)[j], orders, now);
        waiters := waiters[j := w];
        j := j + 1;
      }
    }

    /** `sync_state`, with the clock reading passed in as `now`. */
    method SyncState(now: int)
      requires Valid()
      modifies this
      ensures Valid()
      ensures State(waiters, orders) == Sync(State(old(waiters), old(orders)), now)
    {
      CompleteDueOrders(now);
      RecountWaiters(now);
      SyncConsistent(State(old(waiters), old(orders)), now);
    }

    /** `select_waiter`: sync, then the rostered waiter with the least key. */
    method SelectWaiter(now: int) returns (w: Waiter)
      requires Valid()
      modifies this
      ensures Valid()
      ensures State(waiters, orders) == Sync(State(old(waiters), old(orders)), now)
      ensures w == waiters[LeastKey(waiters)]
    {
      SyncState(now);
      w := waiters[LeastKey(waiters)];
    }

    /** `GET /orders`: sync, then the ledger in display order. */
    method GetOrders(now: int) returns (r: seq<Order>)
      requires Valid()
      modifies this
      ensures Valid()
      ensures State(waiters, orders) == Sync(State(old(waiters), old(orders)), now)
      ensures r == Ranking.RankOrders(orders)
    {
      SyncState(now);
      r := Ranking.RankOrders(orders);
    }

    /** `GET /waiters`: sync, then the roster. */
    method GetWaiters(now: int) returns (r: seq<Waiter>)
      requires Valid()
      modifies this
      ensures Valid()
      ensures State(waiters, orders) == Sync(State(old(waiters), old(orders)), now)
      ensures r == waiters
    {
      SyncState(now);
      r := waiters;
    }

    /**
     * `POST /orders`, with one clock reading `now` for every sync and the new
     * order's timestamp, and the generated id passed in as `orderId`.
     */
    method CreateOrder(itemId: int, priority: Priority, orderId: string, now: int)
      returns (r: Result<Created, ApiError>)
      requires Valid()
      modifies this
      ensures Valid()
      ensures FindItem(menu, itemId).None? ==>
        && r == Failure(MenuItemNotFound)
        && State(waiters, orders) == Sync(State(old(waiters), old(orders)), now)
      ensures FindItem(menu, itemId).Some? ==>
        var before := Sync(State(old(waiters), old(orders)), now);
        var chosen := before.waiters[LeastKey(before.waiters)];
        var placed := NewOrder(orderId, FindItem(menu, itemId).value, priority, chosen.name, now);
        && orders == before.orders + [placed]
        && waiters == RecountAll(old(waiters), orders, now)
        && r == Success(Created(placed, waiters))
    {
      SyncState(now);
      ghost var before := State(waiters, orders);
      var menuItem := FindItem(menu, itemId);
      if menuItem.None? {
        return Failure(MenuItemNotFound);
      }
      var chosen := SelectWaiter(now);
      SyncIdempotent(State(old(waiters), old(orders)), now);
      assert before == State(waiters, orders);
      var placed := NewOrder(orderId, menuItem.value, priority, chosen.name, now);
      assert chosen.name in Names(waiters) by {
        assert chosen.name == Names(waiters)[LeastKey(waiters)];
      }
      AppendConsistent(before, placed);
      orders := orders + [placed];
      SyncState(now);
      CompleteDueAppend(before.orders, placed, now);
      RecountAllByNames(before.waiters, old(waiters), orders, now);
      r := Success(Created(orders[|orders| - 1], waiters));
    }
  }

  /** The service at start-up: the catalog's menu and an idle roster of the catalog's waiter names. */
  method StartService() returns (api: CafeApi)
    ensures fresh(api) && api.Valid()
    ensures api.menu == Catalog.MENU_ITEMS && api.orders == []
    ensures Names(api.waiters) == Catalog.WAITER_NAMES
    ensures forall w :: w in api.waiters ==> w == IdleWaiter(w.name)
  {
    Catalog.MenuWellFormed();
    Catalog.RosterWellFormed();
    api := new CafeApi(Catalog.MENU_ITEMS, Catalog.WAITER_NAMES);
  }

  // ---------------------------------------------------------------------------
  // Properties of sync_state

  /** Completing due orders keeps the ledger well formed and every order with its waiter. */
  lemma CompleteDueKeeps(orders: seq<Order>, now: int, names: seq<string>)
    ensures (forall o :: o in orders ==> WellFormed(o)) ==>
      forall o :: o in CompleteDue(orders, now) ==> WellFormed(o)
    ensures (forall o :: o in orders ==> o.waiterName in names) ==>
      forall o :: o in CompleteDue(orders, now) ==> o.waiterName in names
  {
    var r := CompleteDue(orders, now);
    forall o | o in r
      ensures exists p :: p in orders && (WellFormed(p) ==> WellFormed(o)) && p.waiterName == o.waiterName
    {
      var k :| 0 <= k < |r| && r[k] == o;
      assert orders[k] in orders;
    }
  }

  /**
   * A sync completes an order exactly when it is In Progress and due, never
   * reopens a Completed one, and changes no other field.
   */
  lemma SyncCompletion(s: State, now: int)
    ensures forall k :: 0 <= k < |s.orders| ==>
      var before, after := s.orders[k], Sync(s, now).orders[k];
      && (after.status == Completed <==> before.status == Completed || now >= before.estimatedCompletion)
      && after == before.(status := after.status)
  {
  }

  /** A second sync at the same instant changes nothing. */
  lemma SyncIdempotent(s: State, now: int)
    ensures Sync(Sync(s, now), now) == Sync(s, now)
  {
    var r := Sync(s, now);
    assert CompleteDue(r.orders, now) == r.orders;
  }

  /** After a sync no In Progress order is past its estimated completion. */
  lemma SyncLeavesNothingDue(s: State, now: int)
    ensures forall o :: o in Sync(s, now).orders && o.status == InProgress ==> now < o.estimatedCompletion
  {
    var r := Sync(s, now);
    forall o | o in r.orders && o.status == InProgress
      ensures now < o.estimatedCompletion
    {
      var k :| 0 <= k < |r.orders| && r.orders[k] == o;
    }
  }

  /** After a sync every waiter's `totalOrders` is its ledger count and `currentOrders` its In Progress count. */
  lemma SyncCounters(s: State, now: int)
    ensures forall i :: 0 <= i < |s.waiters| ==>
      var w := Sync(s, now).waiters[i];
      && w.totalOrders == |AssignedTo(Sync(s, now).orders, w.name)|
      && w.currentOrders == |InProgressOnly(AssignedTo(Sync(s, now).orders, w.name))|
      && w.currentOrders <= w.totalOrders
      && w.occupiedTime >= 0.0
    ensures forall i :: 0 <= i < |s.waiters| ==>
      Sync(s, now).waiters[i].totalOrders == multiset(OrderWaiters(Sync(s, now).orders))[Sync(s, now).waiters[i].name]
  {
    forall i | 0 <= i < |s.waiters|
      ensures Sync(s, now).waiters[i].totalOrders == multiset(OrderWaiters(Sync(s, now).orders))[Sync(s, now).waiters[i].name]
    {
      AssignedCount(Sync(s, now).orders, Sync(s, now).waiters[i].name);
    }
  }

  /** An In Progress order that is not yet due still has a positive number of minutes left. */
  lemma RemainingOnePositive(o: Order, now: int)
    requires WellFormed(o) && now < o.estimatedCompletion
    ensures RemainingOne(o, now) > 0.0
  {
    var elapsed := (now - o.timestamp) as real;
    assert elapsed < (o.prepTime * MINUTE_MS) as real;
    assert elapsed / 60000.0 < o.prepTime as real;
  }

  /** Over orders none of which is due, the remaining time is positive exactly when there is an order. */
  lemma {:induction false} RemainingPositive(active: seq<Order>, now: int)
    requires forall o :: o in active ==> WellFormed(o) && now < o.estimatedCompletion
    ensures Remaining(active, now) > 0.0 <==> active != []
  {
    if active != [] {
      RemainingOnePositive(active[0], now);
      assert active[0] in active;
    }
  }

  /**
   * On a well-formed ledger, a synced waiter has time left exactly when it has an
   * active order: `occupiedTime > 0` if and only if `currentOrders > 0`.
   */
  lemma SyncedLoadIffActive(s: State, now: int)
    requires forall o :: o in s.orders ==> WellFormed(o)
    ensures forall w :: w in Sync(s, now).waiters ==> (w.occupiedTime > 0.0 <==> w.currentOrders > 0)
  {
    var r := Sync(s, now);
    SyncLeavesNothingDue(s, now);
    CompleteDueKeeps(s.orders, now, Names(s.waiters));
    forall w | w in r.waiters
      ensures w.occupiedTime > 0.0 <==> w.currentOrders > 0
    {
      var i :| 0 <= i < |r.waiters| && r.waiters[i] == w;
      var active := InProgressOnly(AssignedTo(r.orders, s.waiters[i].name));
      RemainingPositive(active, now);
    }
  }

  /** The number of ledger orders assigned to each rostered waiter, summed over the roster. */
  function AssignedTotal(ws: seq<Waiter>, orders: seq<Order>): nat {
    if ws == [] then 0 else |AssignedTo(orders, ws[0].name)| + AssignedTotal(ws[1..], orders)
  }

  lemma {:induction false} AssignedTotalCons(ws: seq<Waiter>, o: Order, rest: seq<Order>)
    ensures AssignedTotal(ws, [o] + rest) == NameCount(ws, o.waiterName) + AssignedTotal(ws, rest)
  {
    if ws != [] {
      AssignedTotalCons(ws[1..], o, rest);
      assert ([o] + rest)[1..] == rest;
    }
  }

  /** When every order names exactly one rostered waiter, the roster's assignments add up to the ledger size. */
  lemma {:induction false} AssignedTotalIsLedgerSize(ws: seq<Waiter>, orders: seq<Order>)
    requires DistinctNames(ws)
    requires forall o :: o in orders ==> o.waiterName in Names(ws)
    ensures AssignedTotal(ws, orders) == |orders|
  {
    if orders == [] {
      AssignedTotalEmpty(ws);
    } else {
      assert orders == [orders[0]] + orders[1..];
      AssignedTotalCons(ws, orders[0], orders[1..]);
      assert orders[0] in orders;
      DistinctNameCount(ws, orders[0].waiterName);
      AssignedTotalIsLedgerSize(ws, orders[1..]);
    }
  }

  lemma {:induction false} AssignedTotalEmpty(ws: seq<Waiter>)
    ensures AssignedTotal(ws, []) == 0
  {
    if ws != [] {
      AssignedTotalEmpty(ws[1..]);
    }
  }

  /** The sum of the roster's `totalOrders`. */
  function TotalOrdersSum(ws: seq<Waiter>): nat {
    if ws == [] then 0 else ws[0].totalOrders + TotalOrdersSum(ws[1..])
  }

  lemma {:induction false} RecountAllTotal(ws: seq<Waiter>, orders: seq<Order>, now: int)
    ensures TotalOrdersSum(RecountAll(ws, orders, now)) == AssignedTotal(ws, orders)
  {
    if ws != [] {
      RecountAllTotal(ws[1..], orders, now);
      assert RecountAll(ws, orders, now)[1..] == RecountAll(ws[1..], orders, now);
    }
  }

  /** On a valid state, after a sync the roster's `totalOrders` add up to the number of orders in the ledger. */
  lemma SyncConservesOrders(s: State, now: int)
    requires DistinctNames(s.waiters)
    requires forall o :: o in s.orders ==> o.waiterName in Names(s.waiters)
    ensures TotalOrdersSum(Sync(s, now).waiters) == |s.orders|
  {
    var r := Sync(s, now);
    CompleteDueKeeps(s.orders, now, Names(s.waiters));
    RecountAllTotal(s.waiters, r.orders, now);
    AssignedTotalIsLedgerSize(s.waiters, r.orders);
  }

  /** On a well-formed order the back end's completion rule and the browser-only app's agree. */
  lemma CompletionRulesAgree(o: Order, now: int)
    requires WellFormed(o)
    ensures CompleteDueOne(o, now) == ClientApp.CompleteOne(o, now)
  {
  }
}

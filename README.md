# Café order assignment and order lifecycle — a Dafny model

The café system takes orders for menu items at three priorities (VIP, Regular,
Online). It hands each order to the least-loaded waiter and tracks the order
from In Progress to Completed. It ships in four variants, all modelled here:

- **Browser-only app** (`App.tsx`, `CustomerMode.tsx`, `AdminMode.tsx` at the repository root).
  - The ledger and roster live in React state.
  - `handleAddOrder` appends an order and charges its waiter.
  - A 30-second tick decays every waiter's load by half a minute and completes orders whose preparation time has elapsed.
- **FastAPI back end** (`backend/app.py`).
  - It keeps the ledger and roster in memory.
  - Before every read, and around every order creation, it re-derives the roster from the ledger at the current instant (`sync_state`).
  - It picks a waiter by the least `(occupiedTime, currentOrders, name)` key.
- **Web front end** (`frontend/src/components`).
  - A customer screen with the active-order queue and countdowns.
  - A dashboard with a ranked ledger and statistics.
  - A waiter card with a load label and a progress bar.
- **Console program** (`backend/legacy_cli.py`).
  - Merge-sorts the ledger by urgency.
  - Hands every still-unassigned order to the least busy waiter, mutating order and waiter records in place.

## Layout

| file | module | models |
|---|---|---|
| `wrappers.dfy` | `Wrappers` | `Option` and `Result` |
| `cafe_types.dfy` | `CafeTypes` | orders, waiters, menu items, priorities; shared counts and filters |
| `sorting.dfy` | `Sorting` | a stable comparator sort (what `Array.prototype.sort` and Python's `sorted` guarantee) and "first least element" (Python's `min`, the head of a stable sort) |
| `ranking.dfy` | `Ranking` | the (priority rank, timestamp) display order |
| `catalog.dfy` | `Catalog` | the static menu and waiter names |
| `client_customer_mode.dfy` | `ClientCustomerMode` | `assignWaiter`, order construction, `myOrders` |
| `client_app.dfy` | `ClientApp` | the browser-only state: `handleAddOrder`, the tick |
| `client_admin_mode.dfy` | `ClientAdminMode` | the browser-only dashboard |
| `backend.dfy` | `Backend` | `sync_state`, `select_waiter`, the endpoints, `create_order` |
| `legacy_cli.dfy` | `LegacyCli` | `merge_sort_orders`, `merge`, `assign_waiter`, a customer turn |
| `statistics.dfy` | `Statistics` | counts, rounded mean, item tally, most ordered, busiest waiter |
| `web_admin_mode.dfy` | `WebAdminMode` | the web dashboard |
| `web_customer_mode.dfy` | `WebCustomerMode` | `activeOrders`, `renderEta`, `handleConfirmOrder` |
| `waiter_card.dfy` | `WaiterCard` | `getStatus`, `occupiedPercentage` |

## Conventions

- **Time.**
  - Instants are integer milliseconds and preparation times are integer minutes (`MINUTE_MS` = 60000).
  - The browser test `(now - timestamp) / 60000 >= prepTime` is modelled as `now - timestamp >= prepTime * 60000`. The two are the same comparison.
- **Loads.** Waiter loads (`occupiedTime`) are reals: the browser decays them by 0.5, and the back end sums fractional remaining minutes.
- **Clock and ids.** The clock and the generated order ids are parameters (`now`, `id`, `orderId`).
- **Shared objects in the console program.** Its order records are objects (`LegacyOrder`), so the merge-sorted list and the ledger share them, as the dicts are shared in Python.
- **Invariants.** The mutable states are classes with `Valid()` invariants:
  - `ClientApp.ClientCafe`: loads are non-negative.
  - `Backend.CafeApi`: a non-empty roster with distinct names, and a well-formed ledger whose orders all name a rostered waiter.
  - `LegacyCli.LegacyCafe`: between customer turns every order has a waiter.

## Behaviour worth knowing

- **Back-end waiter choice.** `select_waiter` takes the least `(occupiedTime, currentOrders, name)` key (backend/app.py:282-291). Equal loads are therefore split by the number of active orders and then by name in Python string order, not by roster position.
- **Back-end 404 path.** `create_order` syncs the state before it looks the item up (backend/app.py:318-323). An unknown item id therefore returns 404 after the ledger's due orders have been completed and the roster recounted.
- **Console merge tie.** On a tie in both priority and preparation time, `merge` takes the right-hand element (backend/legacy_cli.py:66-68). The merge sort is therefore not stable (`LegacyCli.MergeTieTakesRight`).
- **Display rankings.** The two dashboards rank the ledger differently:
  - The browser-only dashboard sorts by priority alone (AdminMode.tsx:42-45).
  - The web dashboard breaks priority ties by timestamp (frontend/src/components/AdminMode.tsx:30-38).

## Model

| member | source | states |
|---|---|---|
| CafeTypes.PriorityRank | backend/app.py:220 | VIP 0, Regular 1, Online 2: a rank below 3 |
| CafeTypes.InProgressOnly | CustomerMode.tsx:66 | the In Progress orders of a ledger: every member is an In Progress order of the ledger and every In Progress order is a member; a sub-multiset of the ledger (order and multiplicities in the two lemmas below) |
| CafeTypes.InProgressAppend | CustomerMode.tsx:66 | the filter distributes over concatenation: the filtered ledger keeps ledger order |
| CafeTypes.InProgressMultiplicity | CustomerMode.tsx:66 | every In Progress order occurs in the result exactly as often as in the ledger, and no other order occurs |
| CafeTypes.DistinctNameCount | App.tsx:28 | with distinct names, a name matches exactly one waiter if rostered, none otherwise |
| Sorting.SortCorrect | CustomerMode.tsx:26 | a comparator sort is a permutation, sorted, and keeps every class of equivalent elements in input order (stability) |
| Sorting.SortHead | CustomerMode.tsx:26-27 | the head of the stable sort is the first least element of the input |
| Sorting.FirstLeast | backend/app.py:285-291 | the index `min` returns: least under the key, and every earlier element strictly greater |
| Sorting.Insert | CustomerMode.tsx:26 | one insertion step of the stable sort: the result holds exactly the input's elements plus the new one |
| Sorting.Sort | CustomerMode.tsx:26 | the stable sort that `Array.prototype.sort` and `sorted` perform: a rearrangement of the input, of the same length (ordering and stability in `Sorting.SortCorrect`) |
| Catalog.MenuWellFormed | cafe.ts:30-51 | every menu item has a positive preparation time and ids run 1 to 20 |
| Catalog.RosterWellFormed | cafe.ts:53 | the roster is non-empty with distinct names |
| ClientCustomerMode.LeastLoaded | CustomerMode.tsx:26-27 | the chosen waiter's load is at most every waiter's; every earlier waiter carries strictly more (first on ties) |
| ClientCustomerMode.LoadLe | CustomerMode.tsx:26 | the comparator `a.occupiedTime - b.occupiedTime`: `a` may stay before `b` exactly when the difference is not positive |
| ClientCustomerMode.AssignWaiter | CustomerMode.tsx:25-28 | returns the name of the least-loaded waiter (first on ties), a rostered name; requires a non-empty roster |
| ClientCustomerMode.ConfirmOrder | CustomerMode.tsx:30-47 | no order without a selection; otherwise an In Progress order with the item's id, name and prep time, due `prepTime` minutes after `now`, for the least-loaded waiter |
| ClientCustomerMode.PriorityOrder | CustomerMode.tsx:67 | VIP 1, Regular 2, Online 3: one above the back-end rank |
| ClientCustomerMode.PriorityLe | CustomerMode.tsx:67-68 | the comparator `priorityOrder[a.priority] - priorityOrder[b.priority]`: `a` may stay before `b` exactly when the difference is not positive |
| ClientCustomerMode.PriorityEquivalents | CustomerMode.tsx:67-68 | orders equivalent under the priority comparator are exactly the orders with the same priority |
| ClientCustomerMode.SortByPriority | CustomerMode.tsx:66-69 | a permutation ordered by VIP < Regular < Online, each priority's orders in ledger order |
| ClientCustomerMode.MyOrders | CustomerMode.tsx:66-69 | exactly the In Progress orders, ordered by priority, each priority in ledger order |
| ClientApp.Roster | App.tsx:14-21 | the initial roster carries exactly the given names, in order |
| ClientApp.ClientCafe.constructor | App.tsx:13-21 | empty ledger, idle roster of the given names |
| ClientApp.ClientCafe.AddOrder | App.tsx:23-38 | the ledger gains exactly the order at its end; the named waiter gets `+prepTime`, `+1` current, `+1` total, every other waiter is unchanged; loads stay non-negative |
| ClientApp.ClientCafe.Tick | App.tsx:41-58 | the roster becomes its decay sweep and the ledger its completion sweep at `now`; loads stay non-negative |
| ClientApp.ClientCafe.ConfirmOrder | CustomerMode.tsx:30-51 | without a selection nothing changes; otherwise the built order is appended and the least-loaded waiter is charged |
| ClientApp.StartApp | App.tsx:13-21 | the app starts valid with an empty ledger and the idle roster of the catalog's names, non-empty and distinct |
| ClientApp.ChargeKeepsNames | App.tsx:27 | charging keeps roster length, order and names |
| ClientApp.ChargeOne | App.tsx:28-35 | one roster entry under `handleAddOrder`: the name stays, a non-negative prep time never lowers the load, both counters rise by one exactly for the named waiter, any other waiter is unchanged |
| ClientApp.Charge | App.tsx:26-37 | the roster map of `handleAddOrder`: same length and names, and every waiter other than the named one unchanged |
| ClientApp.ChargeLoad | App.tsx:27-36 | total load grows by `prepTime` once per waiter with the order's name |
| ClientApp.ChargeConservesLoad | App.tsx:31 | with distinct names and a rostered waiter the total load grows by exactly `prepTime` |
| ClientApp.ChargeAll | App.tsx:23-38 | a run of additions keeps the roster's names |
| ClientApp.ChargeAllConservesLoad | App.tsx:23-38 | over N additions without a tick the total load grows by the sum of their prep times |
| ClientApp.DecayTimesClosedForm | App.tsx:42-48 | after n ticks the load is `max(0, load - n/2)`; current orders survive only while the load exceeded `n/2`; totals and names never change |
| ClientApp.DecayOne | App.tsx:43-47 | one roster entry under the tick: name and total kept, load non-negative and never raised, a waiter drained to zero holds no current orders, a waiter still loaded keeps them |
| ClientApp.Decay | App.tsx:42-48 | the tick's roster map: same length and names, every load non-negative |
| ClientApp.DecayLowersLoad | App.tsx:43-45 | a decay sweep keeps the total load non-negative and never raises it |
| ClientApp.CompleteIdempotent | App.tsx:50-57 | a second completion sweep at the same instant changes nothing |
| ClientApp.PrepElapsed | App.tsx:52-53 | the elapsed-minutes test holds exactly when `now` has reached the order's estimated completion, for a well-formed order |
| ClientApp.CompleteOne | App.tsx:51-57 | one order under the tick: only the status may change, only from In Progress to Completed, and an elapsed In Progress order does complete |
| ClientApp.Complete | App.tsx:50-57 | the tick's ledger map: same length, and every order keeps every field but its status |
| ClientApp.CompleteTwice | App.tsx:50-57 | sweeping at `a` then `b` equals one sweep at the later instant |
| ClientApp.CompleteOnlyAdvances | App.tsx:51-56 | only the status changes; Completed stays Completed; an order is Completed afterwards iff it was, or its prep time has elapsed |
| ClientApp.CompleteCountGrows | App.tsx:50-57 | the number of Completed orders never drops |
| ClientApp.TwoOrderScenario | App.tsx:23-38 | on an idle roster [A, B] a 5-minute order goes to A and a 3-minute one then to B, leaving loads 5 and 3 |
| ClientApp.DrainScenario | App.tsx:45-46 | a tick on a load of 0.3 leaves load 0 and no current orders |
| ClientApp.CompletionScenario | App.tsx:52-54 | a 4-minute order completes at +5 minutes and is untouched at +3 |
| ClientAdminMode.SortedOrders | AdminMode.tsx:42-45 | a permutation ordered by VIP 1 < Regular 2 < Online 3 with no second key, so each priority stays in ledger order |
| ClientAdminMode.FindKey | AdminMode.tsx:55 | the lookup `itemCounts[order.itemName]`: the position of the name among the tally keys, no earlier key equal to it, or the end when it is absent |
| ClientAdminMode.CountItems | AdminMode.tsx:53-56 | the forEach loop builds exactly the item tally |
| ClientAdminMode.MostOrdered | AdminMode.tsx:57 | "N/A" for an empty ledger; any other result is an ordered item that no other item outnumbers |
| ClientAdminMode.MostOrderedNotApplicable | AdminMode.tsx:57 | with no item named "N/A" or "", the result is "N/A" iff the ledger is empty |
| ClientAdminMode.TopWaiter | AdminMode.tsx:59 | "N/A" for an empty roster, else the first waiter with the most orders ("N/A" if its name is empty) |
| Statistics.StatusCountsPartition | AdminMode.tsx:47-48 | Completed plus In Progress counts equal the ledger size |
| Statistics.CompletedOrders | frontend/src/components/AdminMode.tsx:41-42 | the Completed count is at most the ledger size: the ledger size minus the In Progress count |
| Statistics.RoundedMean | frontend/src/components/AdminMode.tsx:43 | `Math.round(sum / n)`: the integer m with `m - 1/2 <= sum/n < m + 1/2` |
| Statistics.AveragePrepTime | frontend/src/components/AdminMode.tsx:43 | 0 for no orders, else the mean prep time rounded half up |
| Statistics.PrepSumBounds | frontend/src/components/AdminMode.tsx:43 | prep times within `[lo, hi]` give a sum within `[n*lo, n*hi]` |
| Statistics.MeanBetween | frontend/src/components/AdminMode.tsx:43 | the rounded mean of values in `[lo, hi]` is in `[lo, hi]` |
| Statistics.AverageWithinBounds | frontend/src/components/AdminMode.tsx:43 | the average lies between the least and the greatest prep time |
| Statistics.AverageZeroIffEmpty | AdminMode.tsx:49-51 | with positive prep times the average is 0 iff there are no orders |
| Statistics.Bump | frontend/src/components/AdminMode.tsx:46 | `acc[name] = (acc[name] ?? 0) + 1`: that count grows by one, no other changes, keys stay distinct |
| Statistics.ItemCounts | frontend/src/components/AdminMode.tsx:45-48 | distinct keys; each name's count equals its number of orders; a name is listed iff ordered |
| Statistics.ItemCountsEntries | frontend/src/components/AdminMode.tsx:45-48 | every tally entry holds the positive order count of its item |
| Statistics.ItemCountsSum | AdminMode.tsx:53-56 | the tally's counts add up to the number of orders |
| Statistics.BumpAt | AdminMode.tsx:55 | updating the found entry in place, or appending `(name, 1)`, is the same update |
| Statistics.OrderedItemCounted | frontend/src/components/AdminMode.tsx:45-48 | an ordered item has a positive count |
| Statistics.CountedItemOrdered | frontend/src/components/AdminMode.tsx:45-48 | a positive count belongs to an ordered item |
| Statistics.FirstMost | frontend/src/components/AdminMode.tsx:49 | the first tally entry with the largest count |
| Statistics.CountGe | frontend/src/components/AdminMode.tsx:49 | the comparator `b[1] - a[1]`: `a` may stay before `b` exactly when `b`'s count is not larger |
| Statistics.TopEntry | frontend/src/components/AdminMode.tsx:49 | the head of the count-descending stable sort: none iff the tally is empty, else the first entry with the largest count |
| Statistics.MostOrderedIsMost | frontend/src/components/AdminMode.tsx:49-50 | no top entry iff no orders; otherwise an ordered item no other item outnumbers |
| Statistics.Busiest | frontend/src/components/AdminMode.tsx:52 | the first waiter with the most orders |
| Statistics.ServedGe | frontend/src/components/AdminMode.tsx:52 | the comparator `b.totalOrders - a.totalOrders`: `a` may stay before `b` exactly when `b` has not served more |
| Statistics.TopWaiterEntry | frontend/src/components/AdminMode.tsx:52 | the head of the totalOrders-descending stable sort: none iff no waiters, else the busiest |
| WebAdminMode.SortedOrders | frontend/src/components/AdminMode.tsx:30-38 | a permutation ordered by rank, then timestamp; equal keys keep ledger order |
| WebAdminMode.MostOrdered | frontend/src/components/AdminMode.tsx:49-50 | "N/A" for an empty ledger, else an ordered item no other item outnumbers |
| WebAdminMode.MostOrderedNotApplicable | frontend/src/components/AdminMode.tsx:49-50 | with no item named "N/A", the result is "N/A" iff the ledger is empty |
| WebAdminMode.TopWaiter | frontend/src/components/AdminMode.tsx:52-59 | "N/A" for an empty roster, else the name of the first waiter with the most orders |
| WebCustomerMode.ActiveOrders | frontend/src/components/CustomerMode.tsx:32-42 | exactly the In Progress orders, ordered by rank then timestamp, equal keys in ledger order |
| WebCustomerMode.CeilDiv | frontend/src/components/CustomerMode.tsx:78 | `Math.ceil(x / d)`: the least c with `x <= d*c` |
| WebCustomerMode.EtaMinutes | frontend/src/components/CustomerMode.tsx:77-78 | 0 iff the order is due; otherwise the least whole number of minutes covering the remaining time |
| WebCustomerMode.EtaNonIncreasing | frontend/src/components/CustomerMode.tsx:77-78 | the countdown never increases as the clock advances |
| WebCustomerMode.RenderEta | frontend/src/components/CustomerMode.tsx:76-80 | "Ready" iff the estimated completion has been reached; otherwise a positive number of minutes |
| WebCustomerMode.ConfirmOrder | frontend/src/components/CustomerMode.tsx:49-74 | no request and no change without a selection; otherwise the item is sent and the dialog closes and clears |
| WaiterCard.GetStatus | frontend/src/components/WaiterCard.tsx:11-19 | Free iff load < 5, Busy iff 5 <= load < 10, Occupied iff load >= 10 |
| WaiterCard.StatusMonotone | frontend/src/components/WaiterCard.tsx:11-19 | more load never gives a lighter label |
| WaiterCard.OccupiedPercentage | frontend/src/components/WaiterCard.tsx:22 | at most 100, equal to 100 iff load >= 15, otherwise load/15 of 100, never negative for a non-negative load |
| WaiterCard.PercentageMonotone | frontend/src/components/WaiterCard.tsx:22 | the bar never shrinks as the load grows |
| Ranking.RankThenTimeLeTotal | backend/app.py:274-278 | the (rank, timestamp) key is a total preorder |
| Ranking.RankThenTimeLe | frontend/src/components/AdminMode.tsx:32-37 | the rank decides first; within one priority the earlier timestamp comes first |
| Ranking.RankOrders | backend/app.py:272-279 | `sorted` by (rank, timestamp): a permutation, ordered by rank then timestamp, equal keys in ledger order |
| Ranking.RankExample | backend/app.py:272-279 | [VIP@t2, Regular@t1, VIP@t1] ranks as [VIP@t1, VIP@t2, Regular@t1] |
| Backend.CompleteDue | backend/app.py:249-251 | the completion pass keeps the ledger length |
| Backend.CompleteDueOne | backend/app.py:250-251 | one order under the completion pass: only the status may change, a Completed order stays Completed, and an In Progress order completes exactly when it is due |
| Backend.AssignedTo | backend/app.py:255 | exactly the ledger orders with that waiter name |
| Backend.RemainingOne | backend/app.py:263-266 | one order's remaining minutes, never negative |
| Backend.Remaining | backend/app.py:261-267 | the sum of remaining minutes, never negative, 0 with no active order |
| Backend.Recount | backend/app.py:253-269 | a recounted waiter keeps its name, has `currentOrders <= totalOrders` and a non-negative load |
| Backend.RecountAll | backend/app.py:253-269 | recounting keeps the roster's names |
| Backend.Sync | backend/app.py:246-269 | a sync keeps the ledger length and the roster's names |
| Backend.NameLeTotal | backend/app.py:289 | Python string order is total |
| Backend.NameLe | backend/app.py:289 | Python's `str` order: a prefix (or an equal string) comes first, and a non-empty string comes first only if its first character is not larger |
| Backend.NameLeTrans | backend/app.py:290 | Python string order is transitive |
| Backend.NameLeAntisymmetric | backend/app.py:290 | Python string order is antisymmetric |
| Backend.KeyLeTotal | backend/app.py:286-291 | the `(occupiedTime, currentOrders, name)` key is a total preorder |
| Backend.KeyLe | backend/app.py:284-290 | the `min` key: a strictly smaller load always wins, a larger load never does, and on equal loads different `currentOrders` decide |
| Backend.LeastKey | backend/app.py:284-291 | `min`: a waiter least in the lexicographic key, every earlier waiter strictly greater |
| Backend.LeastKeyUnique | backend/app.py:284-291 | with distinct names the least waiter is strictly below every other |
| Backend.MenuLookup | backend/app.py:320 | the id map holds exactly the menu's ids, each mapped to a menu item with that id |
| Backend.FindItem | backend/app.py:320-321 | none iff no menu item has the id, else a menu item with that id |
| Backend.NewOrder | backend/app.py:325-343 | an In Progress order stamped `now` with the item's id, name and prep time, due `prepTime` minutes later |
| Backend.SyncConsistent | backend/app.py:246-269 | a sync keeps the roster distinct and the ledger well formed and attached to rostered waiters |
| Backend.AppendConsistent | backend/app.py:343 | appending a well-formed order for a rostered waiter keeps the state consistent |
| Backend.RecountAllByNames | backend/app.py:253-259 | recounting depends only on the waiters' names |
| Backend.CompleteDueAppend | backend/app.py:249-251 | a pass over a just-synced ledger plus a not-yet-due order changes nothing |
| Backend.CompleteDueKeeps | backend/app.py:249-251 | completion keeps every order well formed and with its waiter |
| Backend.CafeApi.constructor | backend/app.py:210-218 | an empty ledger and the idle roster of the given names |
| Backend.StartService | backend/app.py:67-218 | the service starts valid with the catalog's 20-item menu, an empty ledger and an idle roster of exactly the catalog's waiter names |
| Backend.CafeApi.CompleteDueOrders | backend/app.py:249-251 | the loop over the ledger leaves exactly the completion pass of the old ledger; the roster is untouched |
| Backend.CafeApi.RecountWaiters | backend/app.py:253-269 | the loop over the roster leaves every waiter recounted from the ledger; the ledger is untouched |
| Backend.CafeApi.SyncState | backend/app.py:246-269 | the completion loop then the recount loop make the state equal to `Sync` of the old state; the invariant is kept |
| Backend.CafeApi.SelectWaiter | backend/app.py:282-291 | syncs, then returns the waiter least in `(occupiedTime, currentOrders, name)` |
| Backend.CafeApi.GetOrders | backend/app.py:304-307 | syncs, then returns the ledger ranked by (rank, timestamp) |
| Backend.CafeApi.GetWaiters | backend/app.py:310-313 | syncs, then returns the roster |
| Backend.CafeApi.CreateOrder | backend/app.py:316-349 | unknown item: 404 with the state only synced; otherwise exactly one In Progress order is appended to the synced ledger, for the least-key waiter, due `prepTime` minutes after `now`; the roster is recounted |
| Backend.SyncCompletion | backend/app.py:249-251 | an order is Completed after a sync iff it was or it is due; Completed is never reopened; no other field changes |
| Backend.SyncIdempotent | backend/app.py:246-269 | syncing twice at the same instant equals syncing once |
| Backend.SyncLeavesNothingDue | backend/app.py:249-251 | after a sync no In Progress order is past its estimated completion |
| Backend.SyncCounters | backend/app.py:253-259 | after a sync, `totalOrders` is the number of times the waiter's name occurs in the ledger's `waiterName` column, current counts are its In Progress orders, `currentOrders <= totalOrders`, and the load is non-negative |
| Backend.AssignedCount | backend/app.py:255-258 | a waiter's assigned orders are as many as the occurrences of its name among the orders' `waiterName`s |
| Backend.RemainingOnePositive | backend/app.py:263-266 | an order not yet due has positive remaining minutes |
| Backend.RemainingPositive | backend/app.py:261-267 | over orders not yet due, the remaining time is positive iff there is one |
| Backend.SyncedLoadIffActive | backend/app.py:246-269 | on a well-formed ledger a synced waiter has `occupiedTime > 0` iff `currentOrders > 0` |
| Backend.AssignedTotalCons | backend/app.py:255 | one more order adds the number of waiters with its name to the summed assignment counts |
| Backend.AssignedTotalIsLedgerSize | backend/app.py:255 | with distinct names and every order rostered, the assignment counts add up to the ledger size |
| Backend.AssignedTotalEmpty | backend/app.py:255 | an empty ledger assigns nothing |
| Backend.RecountAllTotal | backend/app.py:258 | the recounted totals add up to the summed assignment counts |
| Backend.SyncConservesOrders | backend/app.py:253-258 | after a sync the roster's `totalOrders` add up to the number of orders |
| Backend.CompletionRulesAgree | backend/app.py:250 | on a well-formed order the back-end rule `now >= estimatedCompletion` and the browser rule agree |
| LegacyCli.LegacyOrder.constructor | backend/legacy_cli.py:128-133 | a new record with the given fields and no waiter |
| LegacyCli.Merged | backend/legacy_cli.py:52-71 | the merge has length `len(left) + len(right)` and exactly the elements of both |
| LegacyCli.Before | backend/legacy_cli.py:56-68 | the urgency order: lower priority number first; within a priority the longer preparation first |
| LegacyCli.TakesLeft | backend/legacy_cli.py:56-68 | `merge`'s choice: the head it takes is never after the other one in the urgency order |
| LegacyCli.MergedSorted | backend/legacy_cli.py:55-70 | merging two urgency-sorted runs gives an urgency-sorted run |
| LegacyCli.HeadBeforeAll | backend/legacy_cli.py:56-68 | a head preceding both runs precedes their merge |
| LegacyCli.MergedStep | backend/legacy_cli.py:56-68 | one loop step appends the chosen head and merges the rest |
| LegacyCli.Merge | backend/legacy_cli.py:52-71 | the while loop with `i`, `j` computes exactly `Merged` |
| LegacyCli.MergeSortOrders | backend/legacy_cli.py:43-49 | a list of length <= 1 comes back unchanged; the result is a permutation sorted by priority ascending and, within a priority, non-increasing prep time |
| LegacyCli.MergeTieTakesRight | backend/legacy_cli.py:66-68 | on a full tie the right element comes first |
| LegacyCli.LoadLeTotal | backend/legacy_cli.py:75 | the `occupied_time` key is a total preorder |
| LegacyCli.LoadLe | backend/legacy_cli.py:75 | `min` by `occupied_time` replaces its candidate by a later waiter exactly when that waiter is strictly less busy |
| LegacyCli.LeastBusy | backend/legacy_cli.py:75 | the first waiter with minimal `occupied_time` |
| LegacyCli.Charged | backend/legacy_cli.py:75-77 | charging keeps the roster's length |
| LegacyCli.TotalBusyUpdate | backend/legacy_cli.py:77 | replacing one waiter changes the total by the difference |
| LegacyCli.ChargedConservesWork | backend/legacy_cli.py:77 | the roster total grows by exactly the order's prep time |
| LegacyCli.ChargedTouchesOne | backend/legacy_cli.py:75-77 | only the least busy waiter changes, by `+prep_time`; names are kept |
| LegacyCli.ParsePriority | backend/legacy_cli.py:121-126 | "1" and "3" read as themselves, anything else as Regular (2) |
| LegacyCli.LegacyCafe.constructor | backend/legacy_cli.py:29-39 | the five waiters with loads 3, 10, 0, 5, 15; no orders; counter 1 |
| LegacyCli.LegacyCafe.AssignWaiter | backend/legacy_cli.py:74-78 | the order records the least busy waiter (first on ties), and only that waiter gets `+prep_time` |
| LegacyCli.LegacyCafe.AssignUnassigned | backend/legacy_cli.py:138-140 | the one unassigned order gets the least busy waiter, which alone is charged; no other order is touched |
| LegacyCli.LegacyCafe.SortAndAssign | backend/legacy_cli.py:137-140 | the ledger is merge-sorted and walked; the one order without a waiter gets the least busy waiter, which alone is charged; the ledger and the counter stay |
| LegacyCli.LegacyCafe.TakeOrder | backend/legacy_cli.py:114-142 | unknown item: nothing changes; otherwise a fresh order is appended and assigned to the least busy waiter, that waiter alone is charged, earlier orders keep their waiters, every order has a waiter |

## Left out

- Rendering, styling, animation, toasts and dialogs carry no logic beyond what is modelled and are left out. The one exception is the dialog state that the web kiosk's `handleConfirmOrder` (frontend/src/components/CustomerMode.tsx:49-74) clears, modelled by `WebCustomerMode.ConfirmOrder`.
- ClientApp.ClientCafe.ConfirmOrder: the browser-only kiosk also closes its dialog and clears its selection (CustomerMode.tsx:50-51). That component state is not part of `ClientCafe` and is not modelled.
- Network I/O is left out: `frontend/src/lib/api.ts`, the polling loop and error banners of `frontend/src/App.tsx`, and FastAPI routing and validation. The request `WebCustomerMode.ConfirmOrder` would send is returned as a value.
- Timers are left out: `setInterval` is replaced by an explicit `ClientApp.ClientCafe.Tick(now)`.
- The clock and generated ids are parameters (`now`, `id`, `orderId`), not calls to `Date.now`, `datetime.now` or `uuid4`.
- Backend.CafeApi.CreateOrder: each request (`GetOrders`, `GetWaiters`, `CreateOrder`) is modelled as one atomic transition of the state. The source's handlers are plain `def` endpoints (backend/app.py:305, 311, 317), which FastAPI runs on a thread pool. They update the module-level `WAITERS` and `ORDERS` lists (backend/app.py:210, 218) without a lock. Two concurrent order creations can therefore interleave between the first `sync_state` and `ORDERS.append` (backend/app.py:318-343). The model does not capture such interleavings.
- Backend.CafeApi.CreateOrder: reads the clock once, as `now`. The source reads it separately for each of its three syncs and for the new order's timestamp. A slower request could therefore complete an order that the model still sees as In Progress.
- Backend.Remaining: the `round(remaining_minutes, 2)` of the stored load is not modelled; the load is the exact real sum.
- Backend.SyncedLoadIffActive: the "if" direction (`currentOrders > 0` implies `occupiedTime > 0`) holds for the model's exact load only. The source stores `round(remaining_minutes, 2)` (backend/app.py:269). A waiter whose only active order is less than 0.005 minutes from due therefore stores `occupiedTime` 0.0 while `currentOrders` is 1.
- Backend.CafeApi.SelectWaiter: compares exact loads, while the source compares loads rounded to two decimals. Two waiters with exact loads 2.004 and 2.001 both store 2.0 in the source, so `min` falls through to `currentOrders` and the name. The model picks the waiter with the smaller exact load. `Backend.CafeApi.CreateOrder` inherits the same difference.
- Floating-point effects are not modelled: float division in the elapsed minutes, in `Math.round(sum / n)` and in `occupiedTime / 15`, and `toFixed` formatting.
- Backend.CafeApi.SyncState: time is in milliseconds, while the source compares `datetime` values with microsecond resolution.
- Statistics.ItemCounts: keys are kept in insertion order. JavaScript enumerates integer-like keys (an item named "12") first, in numeric order, which could change which of two equally frequent items `mostOrdered` shows.
- ClientCustomerMode.AssignWaiter: the source crashes on an empty roster; the model requires a non-empty one.
- ClientApp.ClientCafe.AddOrder: requires a positive `prepTime`, which every menu item has, so that loads stay non-negative.
- LegacyCli.LegacyCafe.TakeOrder: console I/O is left out: the menu and status printouts, `input` parsing (`isdigit`, `strip`, `exit`), and `time.sleep`. The turn takes an item number and the raw priority text.
- LegacyCli.LegacyCafe.AssignUnassigned: proved for the situation between customer turns, where only the new order lacks a waiter (the `Valid()` invariant), not for arbitrary partially assigned ledgers.
- `show_menu`, `show_waiter_status`, `show_all_orders`, `admin_mode`, `main` and `cafeman.py` only print or dispatch and are not part of this model.
- The static catalogs are constants (`Catalog.MENU_ITEMS`, `Catalog.WAITER_NAMES`, `LegacyCli.MENU`). Their well-formedness is proved (`Catalog`). `Backend.StartService` and `ClientApp.StartApp` build the back end and the browser-only state from them. The Python `WAITERS` list is that roster of names with idle counters. Image URLs and categories are omitted.

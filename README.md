# WidgetStack core, modelled in Dafny

This project models the two components of WidgetStack that hold real logic:

- **The in-memory widget store** (`WidgetService`). It keeps a list of rectangular widgets
  and re-sorts it by descending stacking index `z`.
  - `create` stamps an id and a timestamp, assigns `z` when it is null, inserts the widget
    and shifts the `z` of the widgets behind it.
  - `update` checks for null fields and replaces one widget in place.
  - `delete` removes a widget.
  - `getById`, `getWidgets` (at most 500) and `getFilteredWidgets` are the reads.
- **The fixed-window rate limiter** (`RateInterceptor.preHandle` / `checkLimit`). One
  request counter and one window start are shared by all routes. Each route has a
  (limit, period) entry, and routes without one use an overall limit.

Files:

- `wrappers.dfy`: `Option`, `Result` and `Outcome` for nulls and exceptions.
- `int32.dfy`: Java `int` wrap-around.
- `widget.dfy`: module `WidgetModel`. The `Widget` record with nullable fields, the
  mutable bean with its constructors and setters, and `compareTo`.
- `stack_order.dfy`: module `StackOrder`. `List.sort(Collections.reverseOrder())` as a stable
  descending insertion sort, and the z of the widget picked by `max(Collections.reverseOrder())`.
- `widget_service.dfy`: module `WidgetStore`. Pure specification functions and lemmas, and
  the `WidgetService` class with a `storage: seq<Widget>` field that its methods update.
- `rate_interceptor.dfy`: module `RateLimiting`. The step function `Handle`, runs of
  requests, and the `RateInterceptor` class with its `requests` and `startBlock` fields.

Parameters stand in for what the model cannot see:

- `UUID.randomUUID()` is the `freshId` parameter of `Create`. It must not already be in the store.
- `new Date()` is the `now` parameter of `Create` and `Update`.
- `System.currentTimeMillis()` is the `now` parameter of `PreHandle`.
- When durable mode (`dbStore`) is on, the repository's answer to a read is a parameter:
  `dbHit` for `getById` and `dbPage` for `getWidgets`.
- The annotation scan in `readRateLimit` is replaced by a given `RateTable`.

Where the code does something other than its names and tests suggest, the model follows the code:

- Despite the name `getMaxZindex`, a null `z` becomes one more than the **least** stored `z`. The code takes
  `max` under `Collections.reverseOrder()`. `MaxZIndex` states this.
- Reads return widgets in **descending** `z`. The service's own tests expect ascending order
  (WidgetServiceTest.java:130-134, 159-161, 179-180). Those tests disagree with the code.
- `create` raises `z` only for widgets **after** the insertion index. Widgets in front of it
  keep their `z` even when it is ≥ the new `z`, and `z` values can repeat afterwards
  (`CreateMayDuplicateZ`).
- A window rolls over only when the elapsed time is **strictly** greater than the period.

## Model

| member | source | states |
|---|---|---|
| `Int32.Inc` | src/main/java/org/abondar/industrial/widgetstack/service/WidgetService.java:86 | `z + 1` on a Java int: one more below `Integer.MAX_VALUE`, `Integer.MIN_VALUE` at it |
| `WidgetModel.WidgetBean.constructor` | src/main/java/org/abondar/industrial/widgetstack/model/Widget.java:39-45 | the five-argument constructor sets x, y, z, width and height and leaves id and lastModified null |
| `WidgetModel.WidgetBean.Copy` | src/main/java/org/abondar/industrial/widgetstack/model/Widget.java:47-55 | the copy constructor yields a widget whose seven fields all equal the original's |
| `WidgetModel.WidgetBean.Blank` | src/main/java/org/abondar/industrial/widgetstack/model/Widget.java:57 | the no-argument constructor leaves every field null |
| `WidgetModel.WidgetBean.SetId` | src/main/java/org/abondar/industrial/widgetstack/model/Widget.java:63-65 | changes the id and no other field |
| `WidgetModel.WidgetBean.SetXCoord` | src/main/java/org/abondar/industrial/widgetstack/model/Widget.java:71-73 | changes x and no other field |
| `WidgetModel.WidgetBean.SetYCoord` | src/main/java/org/abondar/industrial/widgetstack/model/Widget.java:79-81 | changes y and no other field |
| `WidgetModel.WidgetBean.SetZIndex` | src/main/java/org/abondar/industrial/widgetstack/model/Widget.java:87-89 | changes z and no other field |
| `WidgetModel.WidgetBean.SetWidth` | src/main/java/org/abondar/industrial/widgetstack/model/Widget.java:95-97 | changes width and no other field |
| `WidgetModel.WidgetBean.SetHeight` | src/main/java/org/abondar/industrial/widgetstack/model/Widget.java:103-105 | changes height and no other field |
| `WidgetModel.WidgetBean.SetLastModified` | src/main/java/org/abondar/industrial/widgetstack/model/Widget.java:111-113 | changes lastModified and no other field |
| `WidgetModel.CompareTo` | src/main/java/org/abondar/industrial/widgetstack/model/Widget.java:123-126 | compareTo is the z difference reduced to 32 bits, congruent to the true difference modulo 2^32 |
| `WidgetModel.CompareToSign` | src/main/java/org/abondar/industrial/widgetstack/model/Widget.java:124-126 | when the difference fits in 32 bits, compareTo is zero iff the z values are equal and negative iff this z is smaller |
| `WidgetModel.CompareToAntisymmetric` | src/main/java/org/abondar/industrial/widgetstack/model/Widget.java:124-126 | when neither subtraction overflows, swapping the operands flips the sign |
| `WidgetModel.CompareToOverflows` | src/main/java/org/abondar/industrial/widgetstack/model/Widget.java:124-126 | z = Integer.MIN_VALUE compares above z = 1, and Integer.MAX_VALUE compares below -1 |
| `WidgetModel.CompareZ` | src/main/java/org/abondar/industrial/widgetstack/model/Widget.java:124-126 | the intended comparison, as Integer.compare: negative, zero or positive exactly as z is smaller, equal or larger |
| `WidgetModel.CompareZOrders` | src/main/java/org/abondar/industrial/widgetstack/model/Widget.java:124-126 | the intended comparison is antisymmetric and transitive for every z |
| `StackOrder.InsertDesc` | src/main/java/org/abondar/industrial/widgetstack/service/WidgetService.java:68 | one insertion step of the sort adds exactly the one widget (multiset) and keeps every z present |
| `StackOrder.InsertDescSorted` | src/main/java/org/abondar/industrial/widgetstack/service/WidgetService.java:68 | inserting into a descending list keeps it descending |
| `StackOrder.SortDesc` | src/main/java/org/abondar/industrial/widgetstack/service/WidgetService.java:68 | sorting under `Collections.reverseOrder()` gives a list in descending z that is a permutation of the input |
| `StackOrder.SortDescStable` | src/main/java/org/abondar/industrial/widgetstack/service/WidgetService.java:214 | the sort is stable: for every z, the widgets with that z keep their relative order |
| `StackOrder.SortDescKeepsSorted` | src/main/java/org/abondar/industrial/widgetstack/service/WidgetService.java:214 | re-sorting a list that is already in descending z leaves it unchanged |
| `StackOrder.LeastZ` | src/main/java/org/abondar/industrial/widgetstack/service/WidgetService.java:61-63 | the widget greatest under reverse order has a z that occurs in the store and is at most every stored z |
| `WidgetStore.FirstMatch` | src/main/java/org/abondar/industrial/widgetstack/service/WidgetService.java:236-240 | filter-then-findFirst yields the first index whose widget matches, or none when no widget matches |
| `WidgetStore.Find` | src/main/java/org/abondar/industrial/widgetstack/service/WidgetService.java:236-241 | find returns the first stored widget with the id (none before it has that id), and returns nothing iff no stored widget has it |
| `WidgetStore.FindUnique` | src/main/java/org/abondar/industrial/widgetstack/service/WidgetService.java:107-112 | with distinct ids, the first widget with an id is the widget that has it |
| `WidgetStore.MaxZIndex` | src/main/java/org/abondar/industrial/widgetstack/service/WidgetService.java:59-65 | Integer.MAX_VALUE on an empty store, otherwise one more (wrapping) than the least stored z |
| `WidgetStore.Stamped` | src/main/java/org/abondar/industrial/widgetstack/service/WidgetService.java:41-47 | create's argument gets the fresh id and the time; a present z is kept and a null z becomes getMaxZindex; the geometry is untouched |
| `WidgetStore.InsertIndex` | src/main/java/org/abondar/industrial/widgetstack/service/WidgetService.java:73-78 | the insertion index is the first widget with the new z if there is one, else the last widget |
| `WidgetStore.BumpZ` | src/main/java/org/abondar/industrial/widgetstack/service/WidgetService.java:83-87 | one loop step changes only z: raised by one (wrapping) when it is at least the new z, otherwise the widget is unchanged |
| `WidgetStore.BumpAfter` | src/main/java/org/abondar/industrial/widgetstack/service/WidgetService.java:82-88 | the loop as a whole: same length, widgets before the start index unchanged, every later one passed through BumpZ |
| `WidgetStore.Placed` | src/main/java/org/abondar/industrial/widgetstack/service/WidgetService.java:67-93 | shift rule: one more widget, the new one at the insertion index with its own z, those before it unchanged, those after it one place on with only z changed, raised by exactly 1 iff it was ≥ the new z |
| `WidgetStore.PlacedIsInsertThenBump` | src/main/java/org/abondar/industrial/widgetstack/service/WidgetService.java:73-88 | the shift rule is exactly `add(insertIndex, widget)` followed by the loop from insertIndex + 1 |
| `WidgetStore.SortDescWellFormed` | src/main/java/org/abondar/industrial/widgetstack/service/WidgetService.java:68 | sorting keeps every widget stamped and ids distinct |
| `WidgetStore.PermutationKeepsIdsApart` | src/main/java/org/abondar/industrial/widgetstack/service/WidgetService.java:68 | a permutation of a list with distinct ids has distinct ids |
| `WidgetStore.PlacedWellFormed` | src/main/java/org/abondar/industrial/widgetstack/service/WidgetService.java:80-88 | inserting a stamped widget with a fresh id and shifting keeps every widget stamped and ids distinct |
| `WidgetStore.FillKeepsWellFormed` | src/main/java/org/abondar/industrial/widgetstack/service/WidgetService.java:67-93 | fillStorage as a whole keeps the store's invariant |
| `WidgetStore.CreateThenFind` | src/main/java/org/abondar/industrial/widgetstack/service/WidgetService.java:40-57 | round trip: after create, find by the new id returns exactly the widget create returned |
| `WidgetStore.CreateIntoEmptyStore` | src/main/java/org/abondar/industrial/widgetstack/service/WidgetService.java:40-91 | into an empty store, a null z becomes Integer.MAX_VALUE and the store is exactly that widget |
| `WidgetStore.CreateShiftsEqualZ` | src/main/java/org/abondar/industrial/widgetstack/service/WidgetService.java:73-88 | z 5 then another z 5: the new one keeps 5 and goes first, the old one becomes 6 |
| `WidgetStore.CreateMayDuplicateZ` | src/main/java/org/abondar/industrial/widgetstack/service/WidgetService.java:73-88 | z values [2, 1] plus a new 1 become [2, 1, 2]: create does not keep z unique |
| `WidgetStore.CreateReachesCompareOverflow` | src/main/java/org/abondar/industrial/widgetstack/service/WidgetService.java:40-93 | a null-z create into an empty store (z MAX_VALUE) then a create with z 1 leaves [new (1), old (MIN_VALUE)], which the sort by z keeps while the wrapping compareTo ranks MIN_VALUE above 1 |
| `WidgetStore.OverflowAfterBump` | src/main/java/org/abondar/industrial/widgetstack/service/WidgetService.java:67-93 | a z-1 create into a store holding one MAX_VALUE widget yields [new, old at MIN_VALUE], already sorted by z, while compareTo ranks the old one above the new |
| `WidgetStore.CheckWidget` | src/main/java/org/abondar/industrial/widgetstack/service/WidgetService.java:123-151 | passes iff all seven fields are non-null; otherwise NullAttribute |
| `WidgetStore.ReplaceWellFormed` | src/main/java/org/abondar/industrial/widgetstack/service/WidgetService.java:104-114 | replacing the widget with an id by one carrying that id keeps the length and the invariant, and find then returns the new widget |
| `WidgetStore.RemoveWellFormed` | src/main/java/org/abondar/industrial/widgetstack/service/WidgetService.java:223-229 | removing the widget with an id shrinks the store by one, keeps the invariant and leaves no widget with that id |
| `WidgetStore.PageOf` | src/main/java/org/abondar/industrial/widgetstack/service/WidgetService.java:213-219 | the page has length min(limit, max(0, size - offset)) and its i-th widget is the store's (offset + i)-th |
| `WidgetStore.MatchesFilter` | src/main/java/org/abondar/industrial/widgetstack/service/WidgetService.java:192-201 | a widget matches iff width ≤ xStop - yStart, height ≤ yStop - yStart (both 32-bit), xStop > x and yStop > y; a null field can only throw, and no field null means no throw |
| `WidgetStore.FilterWidgets` | src/main/java/org/abondar/industrial/widgetstack/service/WidgetService.java:184-189 | succeeds iff no widget's match throws; then keeps exactly the page's matching widgets and no more than the page |
| `WidgetStore.FilterWidgetsAppend` | src/main/java/org/abondar/industrial/widgetstack/service/WidgetService.java:184-189 | filtering distributes over concatenation, so matching widgets keep page order |
| `WidgetStore.WidgetService.constructor` | src/main/java/org/abondar/industrial/widgetstack/service/WidgetService.java:33-38 | the store starts empty |
| `WidgetStore.WidgetService.Create` | src/main/java/org/abondar/industrial/widgetstack/service/WidgetService.java:40-57 | returns the argument stamped with the fresh id, the time and, if z was null, MaxZIndex; the store becomes Placed of the sorted old store; the invariant holds |
| `WidgetStore.WidgetService.FillStorage` | src/main/java/org/abondar/industrial/widgetstack/service/WidgetService.java:67-93 | the sort, the insertion and the bump loop leave exactly Placed of the sorted old store |
| `WidgetStore.WidgetService.BumpFrom` | src/main/java/org/abondar/industrial/widgetstack/service/WidgetService.java:82-88 | the in-place loop leaves exactly BumpAfter of the old store from the given index |
| `WidgetStore.WidgetService.Update` | src/main/java/org/abondar/industrial/widgetstack/service/WidgetService.java:96-121 | a null field gives NullAttribute, then an unknown id gives WidgetNotFound, both with the store unchanged; else only the entry with the id changes, to the input with the path id and the new time |
| `WidgetStore.WidgetService.GetById` | src/main/java/org/abondar/industrial/widgetstack/service/WidgetService.java:154-167 | the repository hit wins when durable mode is on and asked for; otherwise the first stored widget with the id, or nothing iff none has it |
| `WidgetStore.WidgetService.GetWidgets` | src/main/java/org/abondar/industrial/widgetstack/service/WidgetService.java:169-182 | TooManyWidgets exactly when limit > 500; else a non-empty repository page when asked for, or the store re-sorted in place and its page |
| `WidgetStore.WidgetService.GetWidgetsFromStorage` | src/main/java/org/abondar/industrial/widgetstack/service/WidgetService.java:213-220 | sorts the store in place and returns its page |
| `WidgetStore.WidgetService.GetFilteredWidgets` | src/main/java/org/abondar/industrial/widgetstack/service/WidgetService.java:184-190 | the getWidgets error, or the filter applied to the page getWidgets serves |
| `WidgetStore.WidgetService.Delete` | src/main/java/org/abondar/industrial/widgetstack/service/WidgetService.java:223-233 | an unknown id gives WidgetNotFound with the store unchanged; else the first widget with the id is removed and none with it remains |
| `RateLimiting.ActiveLimit` | src/main/java/org/abondar/industrial/widgetstack/controller/rate/RateInterceptor.java:99-104 | the route's table entry when the URI is a key, otherwise the overall limit |
| `RateLimiting.Handle` | src/main/java/org/abondar/industrial/widgetstack/controller/rate/RateInterceptor.java:81-113 | one request: the window starts at now exactly when the counter reaches 1; it is rejected iff the count exceeds the limit and at most the period has elapsed, keeping the count; an admitted request leaves a count within the limit or 0 |
| `RateLimiting.HandleCounts` | src/main/java/org/abondar/industrial/widgetstack/controller/rate/RateInterceptor.java:83-87 | every request raises the shared counter by one (or admits with a reset to 0), and the window start becomes now exactly when the counter reaches 1 |
| `RateLimiting.HandleWithinLimit` | src/main/java/org/abondar/industrial/widgetstack/controller/rate/RateInterceptor.java:106 | a counter within the limit admits, and nothing but the increment changes |
| `RateLimiting.HandleRollsOver` | src/main/java/org/abondar/industrial/widgetstack/controller/rate/RateInterceptor.java:106-108 | over the limit with elapsed > period: counter reset to 0, request admitted, window start not refreshed |
| `RateLimiting.RolloverRestartsWindow` | src/main/java/org/abondar/industrial/widgetstack/controller/rate/RateInterceptor.java:85-87 | after a reset, the next request brings the counter to 1 and starts the window at its own time |
| `RateLimiting.HandleRejects` | src/main/java/org/abondar/industrial/widgetstack/controller/rate/RateInterceptor.java:109-111 | over the limit with elapsed ≤ period: RateLimitException, and the counter keeps its increment |
| `RateLimiting.RunWithinWindow` | src/main/java/org/abondar/industrial/widgetstack/controller/rate/RateInterceptor.java:81-113 | within a window, requests to any routes share the counter: the i-th is admitted iff the count it reaches is within its own route's limit |
| `RateLimiting.RunSplit` | src/main/java/org/abondar/industrial/widgetstack/controller/rate/RateInterceptor.java:81-92 | handling two batches in turn is handling them together |
| `RateLimiting.ThreeAdmittedThenRejected` | src/main/java/org/abondar/industrial/widgetstack/controller/rate/RateInterceptor.java:81-113 | with (3, 5000) on a route, from a fresh state: three admitted, the fourth within 5000 ms rejected, a fifth after 5000 ms admitted with the counter reset |
| `RateLimiting.RateInterceptor.constructor` | src/main/java/org/abondar/industrial/widgetstack/controller/rate/RateInterceptor.java:23-27 | the counter and the window start begin at 0 |
| `RateLimiting.RateInterceptor.PreHandle` | src/main/java/org/abondar/industrial/widgetstack/controller/rate/RateInterceptor.java:81-92 | the new counter, window start and verdict are exactly one Handle step of the old state under the route's active limit |
| `RateLimiting.RateInterceptor.CheckLimit` | src/main/java/org/abondar/industrial/widgetstack/controller/rate/RateInterceptor.java:94-113 | admit within the limit; over it, reset and admit once the period has passed, otherwise reject with the counter unchanged |

## Left out

- Persistence: `repository.save` and `repository.delete` are not modelled. The repository's
  read answers are parameters, so its own checks are not modelled either (PageRequest
  rejects a negative page or a size of 0).
- Concurrency: `synchronized`, `AtomicInteger`, `ConcurrentHashMap` and `@Async` are
  modelled as one call after another.
- Object aliasing: the store holds and returns values.
  - The Java store keeps the caller's object, and reads return live references.
  - `create` and `update` also mutate their argument (id, timestamp, z).
  - The model returns the stamped value instead.
- Reflection: `readRateLimit` is replaced by a given table. This includes its missing
  `/widget` prefix on PATCH routes and the controller's use of a different `RateLimit`
  annotation.
- A missing overall limit would throw a NullPointerException. `RateTable` always holds an overall limit.
- `preHandle` and `checkLimit` each read the clock. The model takes one `now` per request.
- Timestamps and periods are Java `long`. The model uses unbounded integers, so 64-bit
  overflow of the elapsed time is not modelled.
- `offset` and `limit` are `nat`. Java's `skip` and `limit` throw IllegalArgumentException
  on negative arguments.
- Sorting and `max` use the corrected comparison `CompareZ`, not `compareTo` as written.
  When z differences overflow 32 bits, Java's order can differ, and TimSort may throw
  "Comparison method violates its general contract". See Findings.
- A null z reaching `compareTo` or `fillStorage` would throw a NullPointerException.
  `CompareTo` requires both z values, and the store invariant guarantees every stored widget has one.
- `getStorage`, the controller, the exception handler, the application wiring and the
  exception messages are framework glue.

## Findings

| source | as written | input that shows it | evidently intended | confidence | as-written member | corrected member |
|---|---|---|---|---|---|---|
| src/main/java/org/abondar/industrial/widgetstack/model/Widget.java:124-126 | `this.zIndex - w.getZIndex()` wraps in 32 bits | z = Integer.MIN_VALUE against z = 1 gives a positive result; two creates reach it: a null-z create into an empty store gets MAX_VALUE, a create with z 1 bumps it to MIN_VALUE, and Java's reverse-order sort then puts the MIN_VALUE widget ahead of the z-1 one (`WidgetStore.CreateReachesCompareOverflow`) | the sign of `Integer.compare(this.zIndex, w.getZIndex())` | high; not executed | `WidgetModel.CompareToOverflows` | `WidgetModel.CompareZ` |

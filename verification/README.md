# Dessert clicker sales state machine, in Dafny

This project models the logic of an Android dessert-clicker app. Each tap on
the dessert button sells one dessert. The app adds that dessert's price to the
revenue and counts the sale. When the number sold crosses a milestone, the
button switches to a dearer dessert. A seconds counter runs while the app is
visible. Revenue, desserts sold and seconds survive the activity being torn
down and rebuilt.

Modules, one per source concern:

- `Desserts` (`dessert.dfy`): the immutable `Dessert` record (image, price,
  starting threshold). Image resource ids are the enumeration `Drawable`.
- `Catalog` (`catalog.dfy`): the thirteen tiers the activity builds in its
  constructor, with their shape proved. There are 13 tiers. The first
  threshold is 0. Thresholds strictly increase. Prices are positive. Images
  are distinct.
- `Resolver` (`resolver.dfy`): the scan in `showCurrentDesert`. It returns the
  last tier whose threshold is reached. It stops at the first tier whose
  threshold is not reached, and it starts from tier 0. The scan is written
  twice: as a function, and as the loop with `break` in `showCurrentDesert`. Both are
  related to a declarative description (`IsScanResult`). On a sorted catalog
  the scan gives the largest index whose threshold is reached.
- `DessertTimer` (`timer.dfy`): the seconds counter, plus its callbacks
  ("runnables") and the posts pending in the handler's queue. Start, fire and
  stop are events.
- `MainActivity` (`activity.dfy`): the activity state, the click, runs of
  clicks, the worked scenarios, and save/restore through the instance-state
  bundle.

Two behaviours of the code are kept deliberately:

- **Price before resolve.** A click charges the price of the tier that was
  current before the click. Only after that does it count the sale and look
  the tier up again. So the sale that reaches a threshold is still charged the
  old tier's price. Twenty clicks from the start earn 5·5 + 15·10 = 175.
- **Restore leaves the tier stale.** Restoring sets revenue, desserts sold and
  the seconds. It does not look the tier up again, so the button keeps the
  first dessert and the next click is charged 5 whatever was sold. The tier
  is only looked up again by the next click
  (`MainActivity.RestoreLeavesTierStale`).

Two details of the timer come from the code rather than from its comments.
First, the callback posts the timer's *current* runnable field again, not
itself. Second, `removeCallbacks` removes only posts of the current runnable.
As a result, starting twice without a stop leaves a chain that survives the
next stop (`DessertTimer.DoubleStartSurvivesStop`). The lifecycle alternates
ON_START and ON_STOP, and under that order there is never more than one
pending fire (`DessertTimer.AlternatingKeepsOnePost`).

## Model

| member | source | states |
|---|---|---|
| Desserts.GettersReturnConstructorArguments | app/src/main/java/com/meow/androiddesertjava/Dessert.java:3-22 | each getter returns the value passed to the constructor; a dessert is determined by its three final fields |
| Catalog.AllDesserts | app/src/main/java/com/meow/androiddesertjava/MainActivity.java:45-61 | the catalog has 13 tiers, the first threshold is 0, thresholds strictly increase, prices are positive, no two tiers share an image |
| Catalog.StepwiseIsStrict | app/src/main/java/com/meow/androiddesertjava/MainActivity.java:46-60 | thresholds that grow from each tier to the next grow between any two tiers |
| Resolver.ReachedPrefixIsLongest | app/src/main/java/com/meow/androiddesertjava/MainActivity.java:126-134 | the scan walks exactly the leading tiers whose thresholds are reached and stops at the first that is not |
| Resolver.Resolve | app/src/main/java/com/meow/androiddesertjava/MainActivity.java:125-134 | the functional scan used by the click and the restore lemmas; its contract only bounds the index, and its meaning is given by `Resolver.ResolveIsScanResult` and `Resolver.ResolveIsLargestReached` |
| Resolver.ResolveIsScanResult | app/src/main/java/com/meow/androiddesertjava/MainActivity.java:125-134 | the resolved tier is 0 when the first threshold is unmet; otherwise it and every earlier tier are reached and the next tier is not |
| Resolver.ScanResultIsUnique | app/src/main/java/com/meow/androiddesertjava/MainActivity.java:125-134 | that description picks out at most one tier |
| Resolver.ShowCurrentDessert | app/src/main/java/com/meow/androiddesertjava/MainActivity.java:124-142 | the loop with `break` returns the same tier as the functional scan, and the image is reset exactly when that tier differs from the current one |
| Resolver.ResolveIsLargestReached | app/src/main/java/com/meow/androiddesertjava/MainActivity.java:125-134 | on a sorted catalog with the first threshold reached, the result is the largest index whose threshold is reached |
| Resolver.LargestReachedIsResolve | app/src/main/java/com/meow/androiddesertjava/MainActivity.java:125-134 | conversely, on a sorted catalog the largest reached index is the scan's result |
| Resolver.ResolveWithinTier | app/src/main/java/com/meow/androiddesertjava/MainActivity.java:125-134 | on a sorted catalog, any count from tier t's threshold up to the next tier's threshold resolves to t |
| Resolver.ResolveIsMonotone | app/src/main/java/com/meow/androiddesertjava/MainActivity.java:126-134 | on any catalog, selling more never resolves to an earlier tier |
| DessertTimer.New | app/src/main/java/com/meow/androiddesertjava/DessertTimer.java:16-18 | a new timer counts 0 seconds and has nothing pending |
| DessertTimer.GetSecondsCount | app/src/main/java/com/meow/androiddesertjava/DessertTimer.java:55-57 | reading the count is pure: writing back the value read leaves the timer exactly as it was |
| DessertTimer.SetSecondsCount | app/src/main/java/com/meow/androiddesertjava/DessertTimer.java:59-61 | setting the count leaves the runnable and the pending posts alone |
| DessertTimer.SetThenGet | app/src/main/java/com/meow/androiddesertjava/DessertTimer.java:55-61 | getting after setting n returns n |
| DessertTimer.StartTimer | app/src/main/java/com/meow/androiddesertjava/DessertTimer.java:30-47 | start creates a new runnable and posts it once; the count is not reset; from stopped it gives exactly one pending fire |
| DessertTimer.Fire | app/src/main/java/com/meow/androiddesertjava/DessertTimer.java:33-40 | a fire adds exactly 1 to the count, consumes its post and posts the current runnable, so the number of pending fires is unchanged |
| DessertTimer.StopTimer | app/src/main/java/com/meow/androiddesertjava/DessertTimer.java:51-53 | stop removes every post of the current runnable and nothing else; from running or stopped it leaves the timer stopped; the count is unchanged |
| DessertTimer.StopIsIdempotent | app/src/main/java/com/meow/androiddesertjava/DessertTimer.java:51-53 | stopping twice equals stopping once |
| DessertTimer.DoubleStartSurvivesStop | app/src/main/java/com/meow/androiddesertjava/DessertTimer.java:30-53 | start, start, stop leaves the first post pending, and firing it counts a second and posts the newer runnable |
| DessertTimer.CountIsTicks | app/src/main/java/com/meow/androiddesertjava/DessertTimer.java:30-53 | over any run of start, stop and fire events, the count grows by exactly the number of fires |
| DessertTimer.StoppedStaysStill | app/src/main/java/com/meow/androiddesertjava/DessertTimer.java:50-53 | after a stop, with no new start, no fire can happen and the timer does not change |
| DessertTimer.AlternatingKeepsOnePost | app/src/main/java/com/meow/androiddesertjava/DessertTimer.java:27-53 | with starts and stops alternating as the lifecycle delivers them, the timer has either nothing or exactly one fire pending, and it is running exactly when the last signal was a start |
| MainActivity.New | app/src/main/java/com/meow/androiddesertjava/MainActivity.java:30-62 | the constructed activity holds the catalog, has zero revenue and zero sold, shows tier 0 (which matches the scan for 0), and has a stopped timer at 0 |
| MainActivity.OnDessertClicked | app/src/main/java/com/meow/androiddesertjava/MainActivity.java:114-142 | a click adds the price of the tier current before it, adds 1 to desserts sold, makes the current tier the scan's tier for the new count, reports an image change exactly when the tier moved, and leaves the catalog and timer alone |
| MainActivity.ClickSettlesOnScanResult | app/src/main/java/com/meow/androiddesertjava/MainActivity.java:114-134 | after any click the current tier fits the scan's description, and on a sorted catalog it is the last reached tier |
| MainActivity.ClicksFromZero | app/src/main/java/com/meow/androiddesertjava/MainActivity.java:114-121 | n clicks from zero sell n. The revenue is the sum, over the sales, of the price of the tier in force just before each one |
| MainActivity.ClicksKeepCatalog | app/src/main/java/com/meow/androiddesertjava/MainActivity.java:36-61 | no run of clicks changes the catalog |
| MainActivity.ClickNeverLowersTier | app/src/main/java/com/meow/androiddesertjava/MainActivity.java:114-134 | if the tier is not ahead of the scan, a click never lowers it and keeps it not ahead |
| MainActivity.ClicksKeepTierNotAhead | app/src/main/java/com/meow/androiddesertjava/MainActivity.java:114-134 | every state reached by clicking keeps the tier not ahead of the scan |
| MainActivity.ClicksNeverLowerTier | app/src/main/java/com/meow/androiddesertjava/MainActivity.java:114-134 | across a run of clicks the tier index never decreases |
| MainActivity.EarnedWithinTier | app/src/main/java/com/meow/androiddesertjava/MainActivity.java:114-134 | while the count stays inside one tier's range, each sale earns that tier's price |
| MainActivity.CatalogStartsLikeCatalog | app/src/main/java/com/meow/androiddesertjava/MainActivity.java:47-50 | the catalog opens with cupcake (5, from 0), donut (10, from 5) and eclair (15, from 20), followed by froyo from 50 |
| MainActivity.FiveClicks | app/src/main/java/com/meow/androiddesertjava/MainActivity.java:114-121 | five clicks from zero sell 5, earn 25 and end on tier 1 |
| MainActivity.TwentyClicks | app/src/main/java/com/meow/androiddesertjava/MainActivity.java:114-121 | twenty clicks from zero earn 5·5 + 15·10 and end on tier 2 |
| MainActivity.ScenariosFromNew | app/src/main/java/com/meow/androiddesertjava/MainActivity.java:45-63 | both scenarios hold for the activity as constructed |
| MainActivity.OnSaveInstanceState | app/src/main/java/com/meow/androiddesertjava/MainActivity.java:204-213 | saving writes revenue, desserts sold and the timer's seconds under three distinct keys, and keeps every other entry of the bundle |
| MainActivity.OnCreate | app/src/main/java/com/meow/androiddesertjava/MainActivity.java:73-80 | with no saved state nothing changes. Otherwise the three ints are read back, with absent keys as 0, and the timer's count is set. The catalog and the current tier are left as they were |
| MainActivity.SaveRestoreRoundTrip | app/src/main/java/com/meow/androiddesertjava/MainActivity.java:73-80 | saving and then recreating restores revenue, desserts sold and seconds exactly |
| MainActivity.RestoreDefaultsToZero | app/src/main/java/com/meow/androiddesertjava/MainActivity.java:76-78 | recreating from a bundle without the three keys gives the freshly constructed activity |
| MainActivity.RestoreLeavesTierStale | app/src/main/java/com/meow/androiddesertjava/MainActivity.java:62-87 | after a restore, tier 0 is current whatever was sold. From 5 sold upwards this differs from the scan. The next click is charged 5, and that click makes the tier current again |

## Left out

- The application class only installs a logging tree and holds no logic, so it is not part of this model.
- Sharing, the options menu and toasts are calls into Android's intent and UI APIs.
- Data binding is reduced to the `imageChanged` flag of a click. Setting the revenue and count on the binding is left out. So is the image shown in `onCreate`.
- Resource ids such as `R.drawable.cupcake` are generated ints. The model uses the distinct handles `Drawable`.
- The current dessert is an index into the catalog rather than an object reference. The thirteen entries are distinct objects with distinct images, so comparing references and comparing indices agree.
- Handler and Looper timing, including the 1000 ms delay, is not modelled. A fire is an event that may happen to any pending post.
- Lifecycle callbacks that only log, and the annotation-driven observer registration, are left out.
- MainActivity.OnDessertClicked: revenue and desserts sold are unbounded integers. Java's 32-bit `int` wrap-around is not modelled.
- DessertTimer.Fire: the seconds count is an unbounded integer. Java's 32-bit wrap-around is not modelled. Fire also requires that the post it runs is pending, because the handler only runs posted callbacks.
- MainActivity.OnCreate: the bundle is a map from keys to ints. `Bundle.getInt` also returns the default when a key holds a non-int value, and no such bundle is modelled.
- Resolver.Resolve: requires a non-empty catalog. `showCurrentDesert` reads entry 0 first and would throw on an empty list. The real catalog is never empty.

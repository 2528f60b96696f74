/** The sales state of the clicker activity: revenue, desserts sold, the
    dessert currently on the button and the seconds timer. A click charges
    the price of the dessert that is current *before* the click, counts the
    sale and only then looks up the tier again. Saving writes three ints to
    the instance-state bundle; restoring reads them back into a freshly
    constructed activity but does not look the tier up, so the button keeps
    the first dessert until the next click. */
module MainActivity {
  import opened Desserts
  import opened Optional
  import Catalog
  import Resolver
  import DessertTimer

  /** The activity's fields: the catalog it built, the sales counters, the
      index of the current dessert in the catalog and the timer. */
  datatype Activity = Activity(
    allDesserts: seq<Dessert>,
    revenue: int,
    dessertsSold: int,
    current: nat,
    timer: DessertTimer.Timer)

  /** The current dessert is an entry of the activity's catalog. */
  predicate WellFormed(a: Activity)
  {
    a.current < |a.allDesserts|
  }

  /** Activities whose current dessert exists; every operation keeps this. */
  type Session = a: Activity | WellFormed(a)
    witness Activity([Dessert(Cupcake, 5, 0)], 0, 0, 0, DessertTimer.Timer(0, 0, multiset{}))

  /** The dessert currently shown and charged for. */
  function CurrentDessert(a: Session): Dessert
  {
    a.allDesserts[a.current]
  }

  /** The tier the scan of the activity's catalog gives for `sold` desserts. */
  function TierFor(a: Session, sold: int): (i: nat)
    ensures i < |a.allDesserts|
  {
    Resolver.Resolve(a.allDesserts, sold)
  }

  /** The current dessert is the one the scan gives for the desserts sold. */
  predicate TierIsCurrent(a: Session)
  {
    a.current == TierFor(a, a.dessertsSold)
  }

  /** The activity as its constructor leaves it: the thirteen-tier catalog,
      nothing sold, no revenue, the first dessert current, a new stopped
      timer at zero. */
  function New(): (a: Session)
    ensures a.allDesserts == Catalog.AllDesserts()
    ensures a.revenue == 0 && a.dessertsSold == 0
    ensures a.current == 0
    ensures TierIsCurrent(a)
    ensures a.timer.secondsCount == 0 && DessertTimer.Stopped(a.timer)
  {
    Activity(Catalog.AllDesserts(), 0, 0, 0, DessertTimer.New())
  }

  /** The new state after a click and whether the button's image was reset. */
  datatype Sale = Sale(after: Session, imageChanged: bool)

  /** One click on the dessert button: the catalog is never touched, and
      the tier that was current before the click sets its price. */
  function OnDessertClicked(a: Session): (s: Sale)
    ensures s.after.allDesserts == a.allDesserts
    ensures s.after.revenue == a.revenue + CurrentDessert(a).price
    ensures s.after.dessertsSold == a.dessertsSold + 1
    ensures TierIsCurrent(s.after)
    ensures s.imageChanged <==> s.after.current != a.current
    ensures s.after.timer == a.timer
  {
    var sold := a.dessertsSold + 1;
    var next := TierFor(a, sold);
    Sale(Activity(a.allDesserts, a.revenue + CurrentDessert(a).price, sold, next, a.timer), next != a.current)
  }

  /** After a click the current dessert is what the catalog scan settles on
      for the new count; on a sorted catalog whose first threshold is
      reached, that is the last tier whose threshold has been reached. */
  lemma ClickSettlesOnScanResult(a: Session)
    ensures var b := OnDessertClicked(a).after;
            Resolver.IsScanResult(b.allDesserts, b.dessertsSold, b.current)
    ensures var b := OnDessertClicked(a).after;
            Resolver.Sorted(b.allDesserts) && b.allDesserts[0].startProductionAmount <= b.dessertsSold ==>
              && b.allDesserts[b.current].startProductionAmount <= b.dessertsSold
              && forall j :: b.current < j < |b.allDesserts| ==> b.dessertsSold < b.allDesserts[j].startProductionAmount
  {
    var b := OnDessertClicked(a).after;
    Resolver.ResolveIsScanResult(b.allDesserts, b.dessertsSold);
    if Resolver.Sorted(b.allDesserts) && b.allDesserts[0].startProductionAmount <= b.dessertsSold {
      Resolver.ResolveIsLargestReached(b.allDesserts, b.dessertsSold);
    }
  }

  /** The activity after `n` clicks in a row. */
  function Clicks(a: Session, n: nat): Session
  {
    if n == 0 then a else OnDessertClicked(Clicks(a, n - 1)).after
  }

  /** Revenue earned by the first `n` sales counted from nothing sold, on
      catalog `c`: sale number k + 1 is charged the price of the tier in
      force with k sold. */
  function Earned(c: seq<Dessert>, n: nat): int
    requires 0 < |c|
  {
    if n == 0 then 0 else Earned(c, n - 1) + c[Resolver.Resolve(c, n - 1)].price
  }

  /** From any activity with nothing sold, no revenue and the first tier
      current, `n` clicks sell `n` desserts, earn the sum of the prices in
      force before each sale and leave the tier that the scan gives for `n`;
      the catalog and the timer are untouched. */
  lemma {:induction false} ClicksFromZero(a: Session, n: nat)
    requires a.revenue == 0 && a.dessertsSold == 0 && TierIsCurrent(a)
    ensures Clicks(a, n).allDesserts == a.allDesserts
    ensures Clicks(a, n).dessertsSold == n
    ensures Clicks(a, n).revenue == Earned(a.allDesserts, n)
    ensures TierIsCurrent(Clicks(a, n))
    ensures Clicks(a, n).timer == a.timer
  {
    if n > 0 {
      ClicksFromZero(a, n - 1);
      var prev := Clicks(a, n - 1);
      assert prev.current == Resolver.Resolve(a.allDesserts, n - 1);
      assert Clicks(a, n) == OnDessertClicked(prev).after;
    }
  }

  /** The current tier is not ahead of the one the scan gives; true of the
      constructed activity, after a restore and after every click. */
  predicate TierNotAhead(a: Session)
  {
    a.current <= TierFor(a, a.dessertsSold)
  }

  /** Clicking never changes the catalog the activity built. */
  lemma {:induction false} ClicksKeepCatalog(a: Session, n: nat)
    ensures Clicks(a, n).allDesserts == a.allDesserts
  {
    if n > 0 {
      ClicksKeepCatalog(a, n - 1);
    }
  }

  /** A click never moves the button to an earlier dessert. */
  lemma ClickNeverLowersTier(a: Session)
    requires TierNotAhead(a)
    ensures a.current <= OnDessertClicked(a).after.current
    ensures TierNotAhead(OnDessertClicked(a).after)
  {
    Resolver.ResolveIsMonotone(a.allDesserts, a.dessertsSold, a.dessertsSold + 1);
  }

  /** Every state reached by clicking keeps the tier from running ahead. */
  lemma {:induction false} ClicksKeepTierNotAhead(a: Session, n: nat)
    requires TierNotAhead(a)
    ensures TierNotAhead(Clicks(a, n))
  {
    if n > 0 {
      ClicksKeepTierNotAhead(a, n - 1);
      ClickNeverLowersTier(Clicks(a, n - 1));
    }
  }

  /** Across any run of clicks the tier index only grows. */
  lemma {:induction false} ClicksNeverLowerTier(a: Session, m: nat, n: nat)
    requires TierNotAhead(a) && m <= n
    ensures Clicks(a, m).current <= Clicks(a, n).current
    decreases n
  {
    if m < n {
      ClicksNeverLowerTier(a, m, n - 1);
      ClicksKeepTierNotAhead(a, n - 1);
      ClickNeverLowersTier(Clicks(a, n - 1));
    }
  }

  /** On a sorted catalog, while the count stays between tier `t`'s
      threshold and the next tier's, every sale earns tier `t`'s price. */
  lemma {:induction false} EarnedWithinTier(c: seq<Dessert>, lo: nat, hi: nat, t: nat)
    requires Resolver.Sorted(c) && t < |c| && lo <= hi
    requires c[t].startProductionAmount <= lo
    requires t + 1 < |c| ==> hi <= c[t + 1].startProductionAmount
    ensures Earned(c, hi) == Earned(c, lo) + (hi - lo) * c[t].price
    decreases hi
  {
    if lo < hi {
      EarnedWithinTier(c, lo, hi - 1, t);
      Resolver.ResolveWithinTier(c, hi - 1, t);
    }
  }

  /** The opening tiers of the catalog, which the scenarios below reach:
      cupcake, donut and eclair, and the threshold of the froyo after them. */
  predicate StartsLikeCatalog(c: seq<Dessert>)
  {
    && 4 <= |c| && Resolver.Sorted(c)
    && c[0].price == 5 && c[0].startProductionAmount == 0
    && c[1].price == 10 && c[1].startProductionAmount == 5
    && c[2].price == 15 && c[2].startProductionAmount == 20
    && c[3].startProductionAmount == 50
  }

  /** The thirteen-tier catalog starts with the cupcake, donut and eclair tiers. */
  lemma CatalogStartsLikeCatalog()
    ensures StartsLikeCatalog(Catalog.AllDesserts())
  {
  }

  /** Five clicks from the start: five sold, all five charged at the cupcake
      price, and the fifth sale reaches the donut's threshold. */
  lemma FiveClicks(a: Session)
    requires StartsLikeCatalog(a.allDesserts)
    requires a.revenue == 0 && a.dessertsSold == 0 && a.current == 0
    ensures Clicks(a, 5).dessertsSold == 5
    ensures Clicks(a, 5).revenue == 25
    ensures Clicks(a, 5).current == 1
  {
    var c := a.allDesserts;
    Resolver.ResolveWithinTier(c, 0, 0);
    ClicksFromZero(a, 5);
    EarnedWithinTier(c, 0, 5, 0);
    Resolver.ResolveWithinTier(c, 5, 1);
  }

  /** Twenty clicks from the start: five sales at the cupcake price, fifteen
      at the donut price, and the twentieth sale reaches the eclair. */
  lemma TwentyClicks(a: Session)
    requires StartsLikeCatalog(a.allDesserts)
    requires a.revenue == 0 && a.dessertsSold == 0 && a.current == 0
    ensures Clicks(a, 20).dessertsSold == 20
    ensures Clicks(a, 20).revenue == 5 * 5 + 15 * 10
    ensures Clicks(a, 20).current == 2
  {
    var c := a.allDesserts;
    Resolver.ResolveWithinTier(c, 0, 0);
    ClicksFromZero(a, 20);
    EarnedWithinTier(c, 0, 5, 0);
    EarnedWithinTier(c, 5, 20, 1);
    Resolver.ResolveWithinTier(c, 20, 2);
  }

  /** The scenarios hold for the activity as constructed. */
  lemma ScenariosFromNew()
    ensures Clicks(New(), 5).revenue == 25 && Clicks(New(), 5).current == 1
    ensures Clicks(New(), 20).revenue == 175 && Clicks(New(), 20).current == 2
  {
    CatalogStartsLikeCatalog();
    FiveClicks(New());
    TwentyClicks(New());
  }

  /** Instance-state bundle: ints under string keys. */
  type Bundle = map<string, int>

  const KeyRevenue: string := "revenue"
  const KeyDessertsSold: string := "desserts_sold"
  const KeyDessertTimer: string := "dessert_timer"

  /** `Bundle.getInt`: the value under `key`, or `default` when there is none. */
  function GetInt(b: Bundle, key: string, default: int): (v: int)
    ensures key in b ==> v == b[key]
    ensures key !in b ==> v == default
  {
    if key in b then b[key] else default
  }

  /** Writes revenue, desserts sold and the timer's seconds under three
      distinct keys; whatever else the bundle holds is kept. */
  function OnSaveInstanceState(a: Session, outState: Bundle): (b: Bundle)
    ensures b.Keys == outState.Keys + {KeyRevenue, KeyDessertsSold, KeyDessertTimer}
    ensures b[KeyRevenue] == a.revenue
    ensures b[KeyDessertsSold] == a.dessertsSold
    ensures b[KeyDessertTimer] == DessertTimer.GetSecondsCount(a.timer)
    ensures forall k :: k in outState && k !in {KeyRevenue, KeyDessertsSold, KeyDessertTimer} ==> b[k] == outState[k]
  {
    var seconds := DessertTimer.GetSecondsCount(a.timer);
    outState[KeyRevenue := a.revenue][KeyDessertsSold := a.dessertsSold][KeyDessertTimer := seconds]
  }

  /** The restore step of `onCreate`: with no saved state nothing changes;
      otherwise the three ints are read back, absent ones as zero, and the
      timer's count is set. The current dessert is left where it was. */
  function OnCreate(a: Session, saved: Option<Bundle>): (r: Session)
    ensures saved.None? ==> r == a
    ensures r.allDesserts == a.allDesserts
    ensures saved.Some? ==> r.revenue == GetInt(saved.value, KeyRevenue, 0)
    ensures saved.Some? ==> r.dessertsSold == GetInt(saved.value, KeyDessertsSold, 0)
    ensures saved.Some? ==> r.timer == DessertTimer.SetSecondsCount(a.timer, GetInt(saved.value, KeyDessertTimer, 0))
    ensures r.current == a.current
  {
    match saved
    case None => a
    case Some(b) =>
      var timerSeconds := GetInt(b, KeyDessertTimer, 0);
      Activity(a.allDesserts, GetInt(b, KeyRevenue, 0), GetInt(b, KeyDessertsSold, 0), a.current,
               DessertTimer.SetSecondsCount(a.timer, timerSeconds))
  }

  /** The activity the system rebuilds: constructed afresh, then restored. */
  function Recreate(saved: Option<Bundle>): Session
  {
    OnCreate(New(), saved)
  }

  /** Saving and recreating keeps revenue, desserts sold and the timer's
      seconds exactly, whatever else the bundle held. */
  lemma SaveRestoreRoundTrip(a: Session, outState: Bundle)
    ensures var r := Recreate(Some(OnSaveInstanceState(a, outState)));
            && r.revenue == a.revenue
            && r.dessertsSold == a.dessertsSold
            && DessertTimer.GetSecondsCount(r.timer) == DessertTimer.GetSecondsCount(a.timer)
  {
  }

  /** Recreated from a bundle that lacks the keys, the activity starts from zero. */
  lemma RestoreDefaultsToZero(saved: Bundle)
    requires KeyRevenue !in saved && KeyDessertsSold !in saved && KeyDessertTimer !in saved
    ensures Recreate(Some(saved)) == New()
  {
  }

  /** After a restore the first dessert is current whatever was sold, so the
      tier is stale once five or more were sold, and the next click is
      charged the first dessert's price. That click puts the tier right. */
  lemma RestoreLeavesTierStale(saved: Option<Bundle>)
    ensures Recreate(saved).current == 0
    ensures TierNotAhead(Recreate(saved))
    ensures 5 <= Recreate(saved).dessertsSold ==> !TierIsCurrent(Recreate(saved))
    ensures OnDessertClicked(Recreate(saved)).after.revenue == Recreate(saved).revenue + 5
    ensures TierIsCurrent(OnDessertClicked(Recreate(saved)).after)
  {
    var r := Recreate(saved);
    if 5 <= r.dessertsSold {
      Resolver.ResolveIsMonotone(r.allDesserts, 5, r.dessertsSold);
      assert TierFor(r, 5) == 1;
    }
  }
}

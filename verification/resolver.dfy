/** Which tier is current for a given number of desserts sold. The activity
    walks the catalog from the front, remembers the last tier whose threshold
    has been reached and stops at the first one that has not; the answer
    starts out as the first tier. The definitions here work for any
    non-empty catalog; the lemmas at the end say what the answer means when
    the thresholds are sorted. */
module Resolver {
  import opened Desserts

  /** How many leading entries of `c` have their threshold reached at `sold`. */
  function ReachedPrefix(c: seq<Dessert>, sold: int): (n: nat)
    ensures n <= |c|
  {
    if |c| == 0 || sold < c[0].startProductionAmount then 0
    else 1 + ReachedPrefix(c[1..], sold)
  }

  /** The counted prefix is the longest one whose thresholds are all
      reached: every entry in it is reached and the entry after it is not.
      (Kept out of the function's own contract so that proofs mentioning
      the function do not drag the quantifier along.) */
  lemma {:induction false} ReachedPrefixIsLongest(c: seq<Dessert>, sold: int)
    ensures forall j :: 0 <= j < ReachedPrefix(c, sold) ==> c[j].startProductionAmount <= sold
    ensures ReachedPrefix(c, sold) < |c| ==> sold < c[ReachedPrefix(c, sold)].startProductionAmount
    decreases |c|
  {
    if |c| > 0 && c[0].startProductionAmount <= sold {
      ReachedPrefixIsLongest(c[1..], sold);
      forall j | 0 < j < ReachedPrefix(c, sold)
        ensures c[j].startProductionAmount <= sold
      {
        assert c[j] == c[1..][j - 1];
      }
    }
  }

  /** What the scan settles on, stated without the scan: the first tier when
      even its threshold is unmet; otherwise a tier such that it and every
      tier before it are reached and the next one, if any, is not. */
  predicate IsScanResult(c: seq<Dessert>, sold: int, i: nat)
  {
    && i < |c|
    && (sold < c[0].startProductionAmount ==> i == 0)
    && (c[0].startProductionAmount <= sold ==>
          && (forall j :: 0 <= j <= i ==> c[j].startProductionAmount <= sold)
          && (i + 1 < |c| ==> sold < c[i + 1].startProductionAmount))
  }

  /** The tier the scan of the catalog settles on for `sold` desserts. */
  function Resolve(c: seq<Dessert>, sold: int): (i: nat)
    requires 0 < |c|
    ensures i < |c|
  {
    var n := ReachedPrefix(c, sold);
    if n == 0 then 0 else n - 1
  }

  /** `Resolve` gives the scan's result as `IsScanResult` describes it. */
  lemma ResolveIsScanResult(c: seq<Dessert>, sold: int)
    requires 0 < |c|
    ensures IsScanResult(c, sold, Resolve(c, sold))
  {
    ReachedPrefixIsLongest(c, sold);
  }

  /** At most one index is a scan result, so `IsScanResult` pins the tier down. */
  lemma ScanResultIsUnique(c: seq<Dessert>, sold: int, i: nat, k: nat)
    requires IsScanResult(c, sold, i) && IsScanResult(c, sold, k)
    ensures i == k
  {
  }

  /** The imperative scan: starts from the first tier, walks the catalog in
      order, breaks at the first unreached threshold and otherwise takes the
      tier it is looking at. It also reports whether the result differs from
      the tier that was current, which is when the button's image is reset. */
  method ShowCurrentDessert(c: seq<Dessert>, sold: int, current: nat) returns (next: nat, imageChanged: bool)
    requires 0 < |c|
    ensures IsScanResult(c, sold, next)
    ensures next == Resolve(c, sold)
    ensures imageChanged <==> next != current
  {
    ReachedPrefixIsLongest(c, sold);
    next := 0;
    var k := 0;
    while k < |c|
      invariant k <= ReachedPrefix(c, sold)
      invariant next == if k == 0 then 0 else k - 1
    {
      if sold < c[k].startProductionAmount {
        break;
      }
      next := k;
      k := k + 1;
    }
    imageChanged := next != current;
  }

  /** Every threshold is at least the one before it. */
  predicate Sorted(c: seq<Dessert>)
  {
    forall i, j :: 0 <= i < j < |c| ==> c[i].startProductionAmount <= c[j].startProductionAmount
  }

  /** On a sorted catalog whose first threshold is reached, the scan returns
      the largest index whose threshold is reached. */
  lemma ResolveIsLargestReached(c: seq<Dessert>, sold: int)
    requires 0 < |c| && Sorted(c)
    requires c[0].startProductionAmount <= sold
    ensures c[Resolve(c, sold)].startProductionAmount <= sold
    ensures forall j :: Resolve(c, sold) < j < |c| ==> sold < c[j].startProductionAmount
  {
    ResolveIsScanResult(c, sold);
    var i := Resolve(c, sold);
    forall j | i < j < |c|
      ensures sold < c[j].startProductionAmount
    {
      assert c[i + 1].startProductionAmount <= c[j].startProductionAmount;
    }
  }

  /** Conversely, on a sorted catalog the largest reached index is what the scan returns. */
  lemma LargestReachedIsResolve(c: seq<Dessert>, sold: int, k: nat)
    requires 0 < |c| && Sorted(c)
    requires k < |c| && c[k].startProductionAmount <= sold
    requires forall j :: k < j < |c| ==> sold < c[j].startProductionAmount
    ensures Resolve(c, sold) == k
  {
    assert IsScanResult(c, sold, k) by {
      assert c[0].startProductionAmount <= c[k].startProductionAmount;
      forall j | 0 <= j <= k
        ensures c[j].startProductionAmount <= sold
      {
        assert c[j].startProductionAmount <= c[k].startProductionAmount;
      }
    }
    ResolveIsScanResult(c, sold);
    ScanResultIsUnique(c, sold, k, Resolve(c, sold));
  }

  /** On a sorted catalog a count from tier `t`'s threshold up to, not
      including, the next tier's threshold resolves to `t`. */
  lemma ResolveWithinTier(c: seq<Dessert>, sold: int, t: nat)
    requires Sorted(c) && t < |c|
    requires c[t].startProductionAmount <= sold
    requires t + 1 < |c| ==> sold < c[t + 1].startProductionAmount
    ensures Resolve(c, sold) == t
  {
    forall j | t < j < |c|
      ensures sold < c[j].startProductionAmount
    {
      assert c[t + 1].startProductionAmount <= c[j].startProductionAmount;
    }
    LargestReachedIsResolve(c, sold, t);
  }

  /** Selling more never moves the scan to an earlier tier, on any catalog. */
  lemma ResolveIsMonotone(c: seq<Dessert>, sold: int, more: int)
    requires 0 < |c| && sold <= more
    ensures Resolve(c, sold) <= Resolve(c, more)
  {
    ReachedPrefixIsLongest(c, sold);
    ReachedPrefixIsLongest(c, more);
  }
}

/** The fixed list of dessert tiers the activity builds in its constructor
    and wraps as unmodifiable. A Dafny sequence of immutable datatypes can
    never be changed, so the list's immutability holds by construction. */
module Catalog {
  import opened Desserts

  /** Number of tiers in the catalog. */
  const Size: nat := 13

  /** Every threshold is above the one before it. */
  predicate StrictlyIncreasing(c: seq<Dessert>)
  {
    forall i, j :: 0 <= i < j < |c| ==> c[i].startProductionAmount < c[j].startProductionAmount
  }

  /** Every threshold is above its immediate predecessor. */
  predicate StepwiseIncreasing(c: seq<Dessert>)
  {
    forall i :: 0 < i < |c| ==> c[i - 1].startProductionAmount < c[i].startProductionAmount
  }

  /** Comparing neighbours is enough: stepwise growth gives growth between any two tiers. */
  lemma {:induction false} StepwiseIsStrict(c: seq<Dessert>)
    requires StepwiseIncreasing(c)
    ensures StrictlyIncreasing(c)
  {
    if |c| > 1 {
      var init := c[..|c| - 1];
      assert StepwiseIncreasing(init) by {
        forall i | 0 < i < |init|
          ensures init[i - 1].startProductionAmount < init[i].startProductionAmount
        {
          assert init[i - 1] == c[i - 1] && init[i] == c[i];
        }
      }
      StepwiseIsStrict(init);
      forall i, j | 0 <= i < j < |c|
        ensures c[i].startProductionAmount < c[j].startProductionAmount
      {
        if j < |c| - 1 {
          assert c[i] == init[i] && c[j] == init[j];
        } else if i < |c| - 2 {
          assert c[i] == init[i] && c[|c| - 2] == init[|c| - 2];
        }
      }
    }
  }

  /** The catalog: thirteen tiers, the first starting at zero sold and each
      later one at a strictly larger count; prices are positive and no two
      tiers share an image, so telling tiers apart by index is telling the
      list's distinct objects apart. */
  function AllDesserts(): (c: seq<Dessert>)
    ensures |c| == Size
    ensures c[0].startProductionAmount == 0
    ensures StrictlyIncreasing(c)
    ensures forall i :: 0 <= i < |c| ==> 0 < c[i].price
    ensures forall i, j :: 0 <= i < j < |c| ==> c[i].imageId != c[j].imageId
  {
    var c := [
      Dessert(Cupcake, 5, 0),
      Dessert(Donut, 10, 5),
      Dessert(Eclair, 15, 20),
      Dessert(Froyo, 30, 50),
      Dessert(Gingerbread, 50, 100),
      Dessert(Honeycomb, 100, 200),
      Dessert(IceCreamSandwich, 500, 500),
      Dessert(Jellybean, 1000, 1000),
      Dessert(KitKat, 2000, 2000),
      Dessert(Lollipop, 3000, 4000),
      Dessert(Marshmallow, 4000, 8000),
      Dessert(Nougat, 5000, 16000),
      Dessert(Oreo, 6000, 20000)
    ];
    StepwiseIsStrict(c);
    c
  }
}

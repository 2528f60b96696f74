/** One dessert tier of the clicker: the image shown on the button, the price
    of one sale and the number of desserts sold at which the tier starts. */
module Desserts {

  /** The drawable resources of the thirteen desserts. Android generates an
      int for each; the model only needs them to be distinct handles. */
  datatype Drawable =
    | Cupcake | Donut | Eclair | Froyo | Gingerbread | Honeycomb | IceCreamSandwich
    | Jellybean | KitKat | Lollipop | Marshmallow | Nougat | Oreo

  /** Immutable record; the datatype's destructors are the three getters. */
  datatype Dessert = Dessert(imageId: Drawable, price: int, startProductionAmount: int)

  /** Each getter hands back exactly what the constructor was given, and a
      dessert is determined by its three fields. */
  lemma GettersReturnConstructorArguments(imageId: Drawable, price: int, start: int, d: Dessert)
    ensures Dessert(imageId, price, start).imageId == imageId
    ensures Dessert(imageId, price, start).price == price
    ensures Dessert(imageId, price, start).startProductionAmount == start
    ensures d == Dessert(d.imageId, d.price, d.startProductionAmount)
  {
  }
}

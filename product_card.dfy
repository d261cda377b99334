/** The first product section: five dishes, each with a heart button that adds
    it to or removes it from the wishlist. */
module ProductCard {
  import opened Wishlist

  datatype Product = Product(id: string, name: string, description: string, price: string, image: string)

  const Products: seq<Product> := [
    Product("bruschetta", "Bruschetta", "Toasted bread topped with tomatoes, garlic, and fresh basil",
      "$8.99", "images/bruschetta.jpg"),
    Product("calamari", "Calamari Fritti", "Crispy fried squid served with marinara sauce",
      "$12.99", "images/calamari.jpg"),
    Product("caprese", "Caprese Salad", "Fresh mozzarella, tomatoes, and basil with balsamic glaze",
      "$10.99", "images/caprese.jpg"),
    Product("pancakes", "Pancakes", "Fluffy pancakes with syrup", "$7.99", "images/pancakes.jpg"),
    Product("omelette", "Omelette", "Three-egg omelette with cheese", "$9.99", "images/omelette.jpg")
  ]

  /** A click on the heart of the product at position `k`. */
  method ClickHeart(state: WishlistState, k: int)
    requires 0 <= k < |Products|
    modifies state
    ensures state.wishlist == Toggle(old(state.wishlist), Products[k].id)
    ensures state.IsHighlighted(Products[k].id) <==> !old(state.IsHighlighted(Products[k].id))
    ensures old(state.Valid()) ==> state.Valid()
  {
    state.ToggleWishlist(Products[k].id);
  }
}

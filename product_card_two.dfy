/** The second product section: five dishes with a rating shown as five stars,
    a price written "<amount> <currency>" and split at the space, and the same
    wishlist heart as the first section. */
module ProductCardTwo {
  import opened Wrappers
  import opened Wishlist

  datatype Product = Product(id: string, name: string, description: string, price: string,
                             image: string, rating: real, reviews: string)

  const Products: seq<Product> := [
    Product("caprese", "Caprese Salad", "Fresh mozzarella, tomatoes, and basil with balsamic glaze",
      "10.99 USD", "images/caprese.jpg", 4.1, "(1.5k)"),
    Product("bruschetta", "Bruschetta", "Toasted bread with fresh tomatoes and basil.",
      "8.99 USD", "images/bruschetta.jpg", 4.2, "(1.2k)"),
    Product("calamari", "Calamari Fritti", "Crispy fried squid served with marinara.",
      "12.99 USD", "images/calamari.jpg", 4.8, "(900)"),
    Product("pancakes", "Pancakes", "Fluffy pancakes with maple syrup.",
      "7.99 USD", "images/pancakes.jpg", 4.5, "(1.1k)"),
    Product("omelette", "Omelette", "Three-egg omelette with cheese and herbs.",
      "9.99 USD", "images/omelette.jpg", 4.3, "(800)")
  ]

  // ---------------------------------------------------------------------------
  // `price.split(' ')`
  // ---------------------------------------------------------------------------

  /** The pieces of `s` from `start` on, scanning from `i`: the piece that began
      at `start` ends at the next `sep` at or after `i`. */
  function SplitFrom(s: string, sep: char, start: int, i: int): (r: seq<string>)
    requires 0 <= start <= i <= |s|
    ensures |r| >= 1
    decreases |s| - i
  {
    if i == |s| then [s[start..]]
    else if s[i] == sep then [s[start..i]] + SplitFrom(s, sep, i + 1, i + 1)
    else SplitFrom(s, sep, start, i + 1)
  }

  /** `s.split(sep)` for a one-character separator: the pieces between the
      separators, empty ones included. */
  function Split(s: string, sep: char): (r: seq<string>)
    ensures |r| >= 1
  {
    SplitFrom(s, sep, 0, 0)
  }

  /** `parts.join(sep)`: the inverse of `Split`. */
  function Join(parts: seq<string>, sep: char): string
    requires |parts| >= 1
  {
    if |parts| == 1 then parts[0] else parts[0] + [sep] + Join(parts[1..], sep)
  }

  lemma {:induction false} JoinSplitFrom(s: string, sep: char, start: int, i: int)
    requires 0 <= start <= i <= |s|
    ensures Join(SplitFrom(s, sep, start, i), sep) == s[start..]
    decreases |s| - i
  {
    if i < |s| {
      JoinSplitFrom(s, sep, if s[i] == sep then i + 1 else start, i + 1);
      if s[i] == sep {
        var rest := SplitFrom(s, sep, i + 1, i + 1);
        assert ([s[start..i]] + rest)[1..] == rest;
        assert s[start..] == s[start..i] + [sep] + s[i + 1..];
      }
    }
  }

  /** Joining the pieces with the separator gives back the string. */
  lemma JoinSplit(s: string, sep: char)
    ensures Join(Split(s, sep), sep) == s
  {
    JoinSplitFrom(s, sep, 0, 0);
  }

  lemma {:induction false} SplitFromPiecesHaveNoSep(s: string, sep: char, start: int, i: int)
    requires 0 <= start <= i <= |s|
    requires forall k :: start <= k < i ==> s[k] != sep
    ensures forall p, k :: 0 <= p < |SplitFrom(s, sep, start, i)| && 0 <= k < |SplitFrom(s, sep, start, i)[p]| ==>
      SplitFrom(s, sep, start, i)[p][k] != sep
    decreases |s| - i
  {
    if i < |s| {
      SplitFromPiecesHaveNoSep(s, sep, if s[i] == sep then i + 1 else start, i + 1);
    }
  }

  /** No piece contains the separator. */
  lemma SplitPiecesHaveNoSep(s: string, sep: char)
    ensures forall p, k :: 0 <= p < |Split(s, sep)| && 0 <= k < |Split(s, sep)[p]| ==> Split(s, sep)[p][k] != sep
  {
    SplitFromPiecesHaveNoSep(s, sep, 0, 0);
  }

  lemma {:induction false} SplitFromSkips(s: string, sep: char, start: int, i: int, j: int)
    requires 0 <= start <= i <= j <= |s|
    requires forall k :: i <= k < j ==> s[k] != sep
    ensures SplitFrom(s, sep, start, i) == SplitFrom(s, sep, start, j)
    decreases j - i
  {
    if i < j {
      SplitFromSkips(s, sep, start, i + 1, j);
    }
  }

  /** A price written "<amount> <currency>", neither part holding a space,
      splits into exactly those two parts. */
  lemma SplitTwoWords(amount: string, currency: string)
    requires forall k :: 0 <= k < |amount| ==> amount[k] != ' '
    requires forall k :: 0 <= k < |currency| ==> currency[k] != ' '
    ensures Split(amount + " " + currency, ' ') == [amount, currency]
  {
    var s := amount + " " + currency;
    var n := |amount|;
    SplitFromSkips(s, ' ', 0, 0, n);
    SplitFromSkips(s, ' ', n + 1, n + 1, |s|);
    assert s[..n] == amount;
    assert s[n + 1..] == currency;
  }

  /** `const [amount, currency] = price.split(' ')`: the currency is undefined
      when the price has no space. */
  function PriceParts(price: string): (r: (string, Option<string>))
    ensures forall k :: 0 <= k < |r.0| ==> r.0[k] != ' '
    ensures r.1.None? ==> r.0 == price
    ensures r.1.Some? ==> r.0 + " " + r.1.value <= price
    ensures r.1.Some? ==> forall k :: 0 <= k < |r.1.value| ==> r.1.value[k] != ' '
  {
    var parts := Split(price, ' ');
    JoinSplit(price, ' ');
    SplitPiecesHaveNoSep(price, ' ');
    assert |parts| >= 2 ==> parts[0] + " " + parts[1] <= price by {
      if |parts| >= 2 {
        var rest := parts[1..];
        assert rest[0] == parts[1];
        assert parts[1] <= Join(rest, ' ');
        assert price == parts[0] + " " + Join(rest, ' ');
      }
    }
    assert forall k :: 0 <= k < |parts[0]| ==> parts[0][k] != ' ';
    (parts[0], if |parts| >= 2 then Some(parts[1]) else None)
  }

  /** A price "<amount> <currency>" shows its amount with its currency. */
  lemma PricePartsOfTwoWords(amount: string, currency: string)
    requires forall k :: 0 <= k < |amount| ==> amount[k] != ' '
    requires forall k :: 0 <= k < |currency| ==> currency[k] != ' '
    ensures PriceParts(amount + " " + currency) == (amount, Some(currency))
  {
    SplitTwoWords(amount, currency);
  }

  /** A price without a space is all amount, with no currency. */
  lemma PricePartsOfOneWord(price: string)
    requires forall k :: 0 <= k < |price| ==> price[k] != ' '
    ensures PriceParts(price) == (price, None)
  {
    SplitFromSkips(price, ' ', 0, 0, |price|);
    assert price[0..] == price;
  }

  /** The first product costs 10.99, in USD. */
  lemma FirstProductPrice()
    ensures PriceParts(Products[0].price) == ("10.99", Some("USD"))
  {
    assert Products[0].price == "10.99" + " " + "USD";
    PricePartsOfTwoWords("10.99", "USD");
  }

  // ---------------------------------------------------------------------------
  // Stars
  // ---------------------------------------------------------------------------

  /** Star `i` is drawn filled: `i < Math.floor(rating)`, or else `i < rating`.
      Both branches fill the star, so the first test adds nothing. */
  function StarFilled(i: int, rating: real): (r: bool)
    ensures r <==> (i as real) < rating
  {
    if i < rating.Floor then true else (i as real) < rating
  }

  /** The five stars of a rating. */
  function Stars(rating: real): (r: seq<bool>)
    ensures |r| == 5
    ensures forall i :: 0 <= i < 5 ==> (r[i] <==> (i as real) < rating)
  {
    seq(5, i => StarFilled(i, rating))
  }

  /** A rating above 4, such as every product's, fills all five stars; the
      fractional part of 4.1 is enough for the fifth. */
  lemma AboveFourFillsAllStars(rating: real)
    requires rating > 4.0
    ensures Stars(rating) == [true, true, true, true, true]
  {
  }

  /** Every listed product is rated above 4. */
  lemma ProductsRatedAboveFour(k: int)
    requires 0 <= k < |Products|
    ensures Products[k].rating > 4.0
    ensures Stars(Products[k].rating) == [true, true, true, true, true]
  {
    AboveFourFillsAllStars(Products[k].rating);
  }

  // ---------------------------------------------------------------------------
  // The wishlist
  // ---------------------------------------------------------------------------

  /** A click on the heart of the product at position `k`. */
  method ClickHeart(state: WishlistState, k: int)
    requires 0 <= k < |Products|
    modifies state
    ensures state.wishlist == Toggle(old(state.wishlist), Products[k].id)
    ensures state.IsHighlighted(Products[k].id) <==> !old(state.IsHighlighted(Products[k].id))
    ensures old(state.Valid()) ==> state.Valid()
  {
    state.ToggleWishlist(Products[k].id);
  }
}

/** The wishlist both product sections keep: a list of product ids that a heart
    button toggles, with `prev.includes(id) ? prev.filter(pid => pid !== id)
    : [...prev, id]`. */
module Wishlist {

  /** `prev.filter(pid => pid !== id)`. */
  function Remove(l: seq<string>, id: string): (r: seq<string>)
    ensures |r| <= |l|
  {
    if l == [] then []
    else if l[0] == id then Remove(l[1..], id)
    else [l[0]] + Remove(l[1..], id)
  }

  /** Removing keeps every other id and drops every occurrence of `id`. */
  lemma {:induction false} RemoveMembers(l: seq<string>, id: string)
    ensures forall x :: x in Remove(l, id) <==> x in l && x != id
  {
    if l != [] {
      RemoveMembers(l[1..], id);
      assert l == [l[0]] + l[1..];
    }
  }

  /** Each other id keeps its number of occurrences; `id` has none left. */
  lemma {:induction false} RemoveCounts(l: seq<string>, id: string, x: string)
    ensures multiset(Remove(l, id))[x] == if x == id then 0 else multiset(l)[x]
  {
    if l != [] {
      RemoveCounts(l[1..], id, x);
      assert l == [l[0]] + l[1..];
    }
  }

  /** Removing keeps the order of the other ids: it distributes over
      concatenation. */
  lemma {:induction false} RemoveConcat(a: seq<string>, b: seq<string>, id: string)
    ensures Remove(a + b, id) == Remove(a, id) + Remove(b, id)
  {
    if a == [] {
      assert a + b == b;
    } else {
      assert (a + b)[0] == a[0];
      assert (a + b)[1..] == a[1..] + b;
      RemoveConcat(a[1..], b, id);
    }
  }

  /** Removing an id that is not there leaves the list as it is. */
  lemma {:induction false} RemoveAbsent(l: seq<string>, id: string)
    requires id !in l
    ensures Remove(l, id) == l
  {
    if l != [] {
      assert l[0] != id;
      assert id !in l[1..] by {
        assert forall k :: 0 <= k < |l[1..]| ==> l[1..][k] == l[k + 1];
      }
      RemoveAbsent(l[1..], id);
    }
  }

  /** `toggleWishlist(id)` applied to the previous list. */
  function Toggle(l: seq<string>, id: string): (r: seq<string>)
    ensures id in r <==> id !in l
    ensures forall x :: x != id ==> (x in r <==> x in l)
    ensures id !in l ==> r == l + [id]
  {
    if id in l then
      RemoveMembers(l, id);
      Remove(l, id)
    else
      l + [id]
  }

  /** Toggling an absent id twice gives back the original list exactly. */
  lemma ToggleTwiceRestores(l: seq<string>, id: string)
    requires id !in l
    ensures Toggle(Toggle(l, id), id) == l
  {
    RemoveConcat(l, [id], id);
    RemoveAbsent(l, id);
  }

  /** Toggling a present id twice removes its occurrences and puts it back once,
      at the end. */
  lemma ToggleTwiceMovesToEnd(l: seq<string>, id: string)
    requires id in l
    ensures Toggle(Toggle(l, id), id) == Remove(l, id) + [id]
  {
    RemoveMembers(l, id);
  }

  /** No id occurs twice. */
  predicate NoDuplicates(l: seq<string>) {
    forall i, j :: 0 <= i < j < |l| ==> l[i] != l[j]
  }

  lemma {:induction false} RemoveKeepsNoDuplicates(l: seq<string>, id: string)
    requires NoDuplicates(l)
    ensures NoDuplicates(Remove(l, id))
  {
    if l != [] {
      assert NoDuplicates(l[1..]) by {
        forall i, j | 0 <= i < j < |l[1..]|
          ensures l[1..][i] != l[1..][j]
        {
          assert l[1..][i] == l[i + 1] && l[1..][j] == l[j + 1];
        }
      }
      RemoveKeepsNoDuplicates(l[1..], id);
      RemoveMembers(l[1..], id);
      assert l[0] !in l[1..] by {
        forall k | 0 <= k < |l[1..]|
          ensures l[1..][k] != l[0]
        {
          assert l[1..][k] == l[k + 1];
        }
      }
      var rest := Remove(l[1..], id);
      if l[0] != id {
        forall j | 0 < j < |[l[0]] + rest|
          ensures ([l[0]] + rest)[j] != l[0]
        {
          assert ([l[0]] + rest)[j] == rest[j - 1];
          assert rest[j - 1] in rest;
        }
      }
    }
  }

  /** A list without duplicates keeps that property under toggling. */
  lemma ToggleKeepsNoDuplicates(l: seq<string>, id: string)
    requires NoDuplicates(l)
    ensures NoDuplicates(Toggle(l, id))
  {
    if id in l {
      RemoveKeepsNoDuplicates(l, id);
    } else {
      var r := l + [id];
      forall i, j | 0 <= i < j < |r|
        ensures r[i] != r[j]
      {
        if j == |l| {
          assert r[i] == l[i];
          assert l[i] in l;
        }
      }
    }
  }

  /** The state each product section keeps with `useState`: the ids of the
      wishlisted products, in the order they were added. */
  class WishlistState {
    var wishlist: seq<string>

    /** No product is listed twice. */
    ghost predicate Valid()
      reads this
    {
      NoDuplicates(wishlist)
    }

    /** The wishlist starts empty. */
    constructor()
      ensures wishlist == []
      ensures Valid()
    {
      wishlist := [];
    }

    /** The heart of product `id` is drawn highlighted. */
    function IsHighlighted(id: string): (r: bool)
      reads this
      ensures r <==> exists i :: 0 <= i < |wishlist| && wishlist[i] == id
    {
      id in wishlist
    }

    /** `toggleWishlist(id)`: an absent id is appended, a present one removed;
        no other id changes membership, and the list stays duplicate-free. */
    method ToggleWishlist(id: string)
      modifies this
      ensures wishlist == Toggle(old(wishlist), id)
      ensures IsHighlighted(id) <==> !old(IsHighlighted(id))
      ensures forall x :: x != id ==> (IsHighlighted(x) <==> old(IsHighlighted(x)))
      ensures old(Valid()) ==> Valid()
    {
      if Valid() {
        ToggleKeepsNoDuplicates(wishlist, id);
      }
      wishlist := Toggle(wishlist, id);
    }
  }
}

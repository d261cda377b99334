/** The second menu section: the same category tabs, and dish cards that can be
    opened one at a time by clicking them. */
module MenuTwo {
  import opened Wrappers
  import opened MenuCatalog

  /** The update `handleItemClick(id)` applies to `activeItem`: clicking the open
      card closes it, clicking any other card opens that one. */
  function NextActiveItem(prev: Option<string>, id: string): (r: Option<string>)
    ensures r.None? <==> prev == Some(id)
    ensures r.Some? ==> r.value == id
  {
    if prev == Some(id) then None else Some(id)
  }

  /** Clicking the same card twice returns to the start when it was open, and
      otherwise leaves it closed: from no open card, two clicks close it again. */
  lemma ItemClickTwice(prev: Option<string>, id: string)
    ensures NextActiveItem(NextActiveItem(prev, id), id) == (if prev == Some(id) then prev else None)
  {
  }

  class CardMenu {
    var selectedCategory: Category
    var activeCategory: string
    /** `activeItem`: the id of the open card, or null. */
    var activeItem: Option<string>

    /** The highlighted tab is always the tab of the selected category. */
    ghost predicate Valid()
      reads this
    {
      activeCategory == CategoryName(selectedCategory)
    }

    /** 'specials' selected and no card open. */
    constructor()
      ensures Valid()
      ensures selectedCategory == Specials && activeCategory == "specials" && activeItem == None
    {
      selectedCategory := Specials;
      activeCategory := "specials";
      activeItem := None;
    }

    /** `isActiveCard`: the card of `item` is open. With no active item every
        card is closed; an open card is the active item, and no card with
        another id is open beside it. */
    function IsOpen(item: MenuItem): (r: bool)
      reads this
      ensures activeItem.None? ==> !r
      ensures activeItem == Some(item.id) ==> r
      ensures r ==> forall other: MenuItem :: other.id != item.id ==> activeItem != Some(other.id)
    {
      activeItem == Some(item.id)
    }

    /** `handleItemClick(id)`: toggles the open card; the tabs stay as they are. */
    method HandleItemClick(id: string)
      modifies this
      ensures activeItem == NextActiveItem(old(activeItem), id)
      ensures selectedCategory == old(selectedCategory) && activeCategory == old(activeCategory)
      ensures old(Valid()) ==> Valid()
    {
      activeItem := NextActiveItem(activeItem, id);
    }

    /** `handleCategoryClick(category, categoryType)`: switches the tab and
        closes any open card. */
    method HandleCategoryClick(category: string, categoryType: Category)
      modifies this
      ensures activeCategory == category && selectedCategory == categoryType
      ensures activeItem == None
    {
      activeCategory := category;
      selectedCategory := categoryType;
      activeItem := None;
    }

    /** A click on tab `k` passes the tab's id and category, which name the same
        category, so the highlighted tab and the grid agree afterwards. */
    method ClickTab(k: int)
      requires 0 <= k < |NavItems|
      modifies this
      ensures activeCategory == NavItems[k].id && selectedCategory == NavItems[k].category
      ensures activeItem == None
      ensures Valid()
    {
      HandleCategoryClick(NavItems[k].id, NavItems[k].category);
      NavIdIsCategoryName(k);
    }

    /** A click on the card at position `i` of the grid (`FilteredItems`, the
        filter applied to the menu): it opens that card, or closes it when it
        was the open one. Afterwards no other card is open. */
    method ClickCard(i: int)
      requires 0 <= i < |FilterByCategory(MenuData, selectedCategory)|
      modifies this
      ensures activeItem == NextActiveItem(old(activeItem), old(FilterByCategory(MenuData, selectedCategory))[i].id)
      ensures selectedCategory == old(selectedCategory) && activeCategory == old(activeCategory)
      ensures forall x :: IsOpen(x) ==> x.id == old(FilterByCategory(MenuData, selectedCategory))[i].id
    {
      HandleItemClick(FilterByCategory(MenuData, selectedCategory)[i].id);
    }
  }
}

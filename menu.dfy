/** The first menu section: a row of category tabs and the grid of the selected
    category's dishes, with a message when the category has none. */
module Menu {
  import opened MenuCatalog

  class CategoryMenu {
    /** `selectedCategory`: which dishes the grid shows. */
    var selectedCategory: Category
    /** `activeCategory`: the id of the highlighted tab. */
    var activeCategory: string

    /** The highlighted tab is always the tab of the selected category. */
    ghost predicate Valid()
      reads this
    {
      activeCategory == CategoryName(selectedCategory)
    }

    /** Both start at 'specials'. */
    constructor()
      ensures Valid()
      ensures selectedCategory == Specials && activeCategory == "specials"
    {
      selectedCategory := Specials;
      activeCategory := "specials";
    }

    /** Whether tab `k` is drawn as the active one. */
    function IsActiveTab(k: int): (r: bool)
      requires 0 <= k < |NavItems|
      reads this
      ensures Valid() ==> (r <==> NavItems[k].category == selectedCategory)
    {
      NavIdIsCategoryName(k);
      CategoryNameInjective(NavItems[k].category, selectedCategory);
      activeCategory == NavItems[k].id
    }

    /** A tab click: the clicked tab becomes the active one and its category the
        selected one; no other tab is active afterwards. */
    method ClickTab(k: int)
      requires 0 <= k < |NavItems|
      modifies this
      ensures activeCategory == NavItems[k].id
      ensures selectedCategory == NavItems[k].category
      ensures Valid()
      ensures forall j :: 0 <= j < |NavItems| ==> (IsActiveTab(j) <==> j == k)
    {
      activeCategory := NavItems[k].id;
      selectedCategory := NavItems[k].category;
      NavIdIsCategoryName(k);
    }
  }
}

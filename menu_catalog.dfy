/** The static menu both menu sections render: seventeen dishes, each in one of
    five categories, the five category tabs, and the category filter that
    decides which dishes a tab shows. */
module MenuCatalog {

  datatype Category = Specials | Breakfast | Lunch | Dinner | Desserts

  /** The string a category is written as. */
  function CategoryName(c: Category): string {
    match c
    case Specials => "specials"
    case Breakfast => "breakfast"
    case Lunch => "lunch"
    case Dinner => "dinner"
    case Desserts => "desserts"
  }

  /** Different categories are written differently, so a category is known from
      its name. */
  lemma CategoryNameInjective(a: Category, b: Category)
    ensures CategoryName(a) == CategoryName(b) <==> a == b
  {
    if a != b {
      var x, y := CategoryName(a), CategoryName(b);
      assert x[0] != y[0] || x[1] != y[1];
    }
  }

  datatype MenuItem = MenuItem(id: string, name: string, description: string, price: string,
                               image: string, category: Category)

  const Bruschetta := MenuItem("bruschetta", "Bruschetta",
    "Toasted bread topped with tomatoes, garlic, and fresh basil", "$8.99", "images/bruschetta.jpg", Specials)
  const Calamari := MenuItem("calamari", "Calamari Fritti",
    "Crispy fried squid served with marinara sauce", "$12.99", "images/calamari.jpg", Specials)
  const Caprese := MenuItem("caprese", "Caprese Salad",
    "Fresh mozzarella, tomatoes, and basil with balsamic glaze", "$10.99", "images/caprese.jpg", Specials)
  const Pancakes := MenuItem("pancakes", "Pancakes",
    "Fluffy pancakes with syrup", "$7.99", "images/pancakes.jpg", Breakfast)
  const Omelette := MenuItem("omelette", "Omelette",
    "Three-egg omelette with cheese", "$9.99", "images/omelette.jpg", Breakfast)
  const Margherita := MenuItem("margherita", "Margherita Pizza",
    "Classic pizza with tomato sauce, mozzarella, and fresh basil", "$18.99", "images/pizza.jpg", Lunch)
  const Carbonara := MenuItem("carbonara", "Spaghetti Carbonara",
    "Pasta with eggs, cheese, pancetta, and black pepper", "$16.99", "images/carbonara.jpg", Lunch)
  const Risotto := MenuItem("risotto", "Mushroom Risotto",
    "Creamy risotto with wild mushrooms and parmesan", "$19.99", "images/risotto.jpg", Lunch)
  const RoastChicken := MenuItem("roast-chicken", "Roast Chicken",
    "Tender chicken with herbs", "$21.99", "images/roast-chicken.jpg", Dinner)
  const BeefStew := MenuItem("beef-stew", "Beef Stew",
    "Slow-cooked beef with vegetables", "$24.50", "images/beef-stew.jpg", Dinner)
  const GrilledSalmon := MenuItem("grilled-salmon", "Grilled Salmon",
    "Fresh salmon with lemon butter sauce", "$26.00", "images/salmon.jpg", Dinner)
  const VegetableLasagna := MenuItem("vegetable-lasagna", "Vegetable Lasagna",
    "Layers of pasta, vegetables, and cheese", "$18.99", "images/vegetable-lasagna.jpg", Dinner)
  const LambChops := MenuItem("lamb-chops", "Lamb Chops",
    "Juicy lamb chops with rosemary and garlic", "$28.50", "images/lamb-chops.jpg", Dinner)
  const StuffedPeppers := MenuItem("stuffed-peppers", "Stuffed Peppers",
    "Bell peppers filled with rice, beef, and herbs", "$19.50", "images/stuffed-peppers.jpg", Dinner)
  const Tiramisu := MenuItem("tiramisu", "Tiramisu",
    "Classic Italian dessert with coffee-soaked ladyfingers", "$9.99", "images/tiramisu.jpg", Desserts)
  const Gelato := MenuItem("gelato", "Artisan Gelato",
    "Handcrafted gelato in vanilla, chocolate, or caramel", "$7.99", "images/gelato.jpg", Desserts)
  const Cannoli := MenuItem("cannoli", "Sicilian Cannoli",
    "Crispy shells filled with sweet ricotta and chocolate chips", "$8.99", "images/cannoli.jpg", Desserts)

  /** `menuData`, in the order the dishes are listed. */
  const MenuData: seq<MenuItem> := [
    Bruschetta, Calamari, Caprese,
    Pancakes, Omelette,
    Margherita, Carbonara, Risotto,
    RoastChicken, BeefStew, GrilledSalmon, VegetableLasagna, LambChops, StuffedPeppers,
    Tiramisu, Gelato, Cannoli
  ]

  /** `items.filter(item => item.category === c)` on the part of `items` from
      position `i` on. */
  function FilterFrom(items: seq<MenuItem>, i: int, c: Category): (r: seq<MenuItem>)
    requires 0 <= i <= |items|
    ensures |r| <= |items| - i
    decreases |items| - i
  {
    if i == |items| then []
    else if items[i].category == c then [items[i]] + FilterFrom(items, i + 1, c)
    else FilterFrom(items, i + 1, c)
  }

  /** `items.filter(item => item.category === c)`. */
  function FilterByCategory(items: seq<MenuItem>, c: Category): (r: seq<MenuItem>)
    ensures |r| <= |items|
  {
    FilterFrom(items, 0, c)
  }

  lemma {:induction false} FilterFromMembers(items: seq<MenuItem>, i: int, c: Category)
    requires 0 <= i <= |items|
    ensures forall x :: x in FilterFrom(items, i, c) <==> x in items[i..] && x.category == c
    decreases |items| - i
  {
    if i < |items| {
      FilterFromMembers(items, i + 1, c);
      assert items[i..] == [items[i]] + items[i + 1..];
    }
  }

  /** The filter keeps exactly the items of category `c`. */
  lemma FilterMembers(items: seq<MenuItem>, c: Category)
    ensures forall x :: x in FilterByCategory(items, c) <==> x in items && x.category == c
  {
    FilterFromMembers(items, 0, c);
    assert items[0..] == items;
  }

  lemma {:induction false} FilterFromShift(a: seq<MenuItem>, b: seq<MenuItem>, j: int, c: Category)
    requires 0 <= j <= |b|
    ensures FilterFrom(a + b, |a| + j, c) == FilterFrom(b, j, c)
    decreases |b| - j
  {
    if j < |b| {
      assert (a + b)[|a| + j] == b[j];
      FilterFromShift(a, b, j + 1, c);
    }
  }

  lemma {:induction false} FilterFromConcat(a: seq<MenuItem>, b: seq<MenuItem>, i: int, c: Category)
    requires 0 <= i <= |a|
    ensures FilterFrom(a + b, i, c) == FilterFrom(a, i, c) + FilterFrom(b, 0, c)
    decreases |a| - i
  {
    if i == |a| {
      FilterFromShift(a, b, 0, c);
    } else {
      assert (a + b)[i] == a[i];
      FilterFromConcat(a, b, i + 1, c);
    }
  }

  /** The filter keeps the order of the list: filtering a concatenation filters
      each part and concatenates the results. */
  lemma FilterConcat(a: seq<MenuItem>, b: seq<MenuItem>, c: Category)
    ensures FilterByCategory(a + b, c) == FilterByCategory(a, c) + FilterByCategory(b, c)
  {
    FilterFromConcat(a, b, 0, c);
  }

  lemma {:induction false} FilterFromAll(items: seq<MenuItem>, i: int, c: Category)
    requires 0 <= i <= |items|
    requires forall k :: i <= k < |items| ==> items[k].category == c
    ensures FilterFrom(items, i, c) == items[i..]
    decreases |items| - i
  {
    if i < |items| {
      FilterFromAll(items, i + 1, c);
      assert items[i..] == [items[i]] + items[i + 1..];
    }
  }

  /** Filtering twice by the same category changes nothing more. */
  lemma FilterIdempotent(items: seq<MenuItem>, c: Category)
    ensures FilterByCategory(FilterByCategory(items, c), c) == FilterByCategory(items, c)
  {
    var r := FilterByCategory(items, c);
    FilterMembers(items, c);
    assert forall k :: 0 <= k < |r| ==> r[k] in r;
    FilterFromAll(r, 0, c);
    assert r[0..] == r;
  }

  /** The number of items of category `c` from position `i` on. */
  function CountFrom(items: seq<MenuItem>, i: int, c: Category): nat
    requires 0 <= i <= |items|
  {
    |FilterFrom(items, i, c)|
  }

  lemma {:induction false} CategoriesPartitionFrom(items: seq<MenuItem>, i: int)
    requires 0 <= i <= |items|
    ensures CountFrom(items, i, Specials) + CountFrom(items, i, Breakfast) + CountFrom(items, i, Lunch) +
            CountFrom(items, i, Dinner) + CountFrom(items, i, Desserts) == |items| - i
    decreases |items| - i
  {
    if i < |items| {
      CategoriesPartitionFrom(items, i + 1);
    }
  }

  /** Every item has exactly one category, so the five tabs split the list:
      their item counts add up to its length. */
  lemma CategoriesPartition(items: seq<MenuItem>)
    ensures |FilterByCategory(items, Specials)| + |FilterByCategory(items, Breakfast)| +
            |FilterByCategory(items, Lunch)| + |FilterByCategory(items, Dinner)| +
            |FilterByCategory(items, Desserts)| == |items|
  {
    CategoriesPartitionFrom(items, 0);
  }

  // ---------------------------------------------------------------------------
  // The menu's own data, evaluated position by position from the end
  // ---------------------------------------------------------------------------

  // Each step unfolds `FilterFrom` once; unfolding all seventeen in one proof
  // costs the solver far more than the chain of small steps, so each tab is
  // split into its last nine dishes and its first eight.

  /** The specials items among the last nine dishes. */
  lemma SpecialsTabLate()
    ensures FilterFrom(MenuData, 8, Specials) == []
  {
    assert FilterFrom(MenuData, 16, Specials) == [];
    assert FilterFrom(MenuData, 15, Specials) == [];
    assert FilterFrom(MenuData, 14, Specials) == [];
    assert FilterFrom(MenuData, 13, Specials) == [];
    assert FilterFrom(MenuData, 12, Specials) == [];
    assert FilterFrom(MenuData, 11, Specials) == [];
    assert FilterFrom(MenuData, 10, Specials) == [];
    assert FilterFrom(MenuData, 9, Specials) == [];
  }

  /** The specials tab, open at first, shows the three starters. */
  lemma SpecialsTab()
    ensures FilterByCategory(MenuData, Specials) == [Bruschetta, Calamari, Caprese]
  {
    SpecialsTabLate();
    assert FilterFrom(MenuData, 7, Specials) == [];
    assert FilterFrom(MenuData, 6, Specials) == [];
    assert FilterFrom(MenuData, 5, Specials) == [];
    assert FilterFrom(MenuData, 4, Specials) == [];
    assert FilterFrom(MenuData, 3, Specials) == [];
    assert FilterFrom(MenuData, 2, Specials) == [Caprese];
    assert FilterFrom(MenuData, 1, Specials) == [Calamari, Caprese];
    assert FilterFrom(MenuData, 0, Specials) == [Bruschetta, Calamari, Caprese];
  }

  /** The breakfast items among the last nine dishes. */
  lemma BreakfastTabLate()
    ensures FilterFrom(MenuData, 8, Breakfast) == []
  {
    assert FilterFrom(MenuData, 16, Breakfast) == [];
    assert FilterFrom(MenuData, 15, Breakfast) == [];
    assert FilterFrom(MenuData, 14, Breakfast) == [];
    assert FilterFrom(MenuData, 13, Breakfast) == [];
    assert FilterFrom(MenuData, 12, Breakfast) == [];
    assert FilterFrom(MenuData, 11, Breakfast) == [];
    assert FilterFrom(MenuData, 10, Breakfast) == [];
    assert FilterFrom(MenuData, 9, Breakfast) == [];
  }

  /** The breakfast tab shows pancakes and the omelette. */
  lemma BreakfastTab()
    ensures FilterByCategory(MenuData, Breakfast) == [Pancakes, Omelette]
  {
    BreakfastTabLate();
    assert FilterFrom(MenuData, 7, Breakfast) == [];
    assert FilterFrom(MenuData, 6, Breakfast) == [];
    assert FilterFrom(MenuData, 5, Breakfast) == [];
    assert FilterFrom(MenuData, 4, Breakfast) == [Omelette];
    assert FilterFrom(MenuData, 3, Breakfast) == [Pancakes, Omelette];
    assert FilterFrom(MenuData, 2, Breakfast) == [Pancakes, Omelette];
    assert FilterFrom(MenuData, 1, Breakfast) == [Pancakes, Omelette];
    assert FilterFrom(MenuData, 0, Breakfast) == [Pancakes, Omelette];
  }

  /** The lunch items among the last nine dishes. */
  lemma LunchTabLate()
    ensures FilterFrom(MenuData, 8, Lunch) == []
  {
    assert FilterFrom(MenuData, 16, Lunch) == [];
    assert FilterFrom(MenuData, 15, Lunch) == [];
    assert FilterFrom(MenuData, 14, Lunch) == [];
    assert FilterFrom(MenuData, 13, Lunch) == [];
    assert FilterFrom(MenuData, 12, Lunch) == [];
    assert FilterFrom(MenuData, 11, Lunch) == [];
    assert FilterFrom(MenuData, 10, Lunch) == [];
    assert FilterFrom(MenuData, 9, Lunch) == [];
  }

  /** The lunch tab shows the pizza, the carbonara and the risotto. */
  lemma LunchTab()
    ensures FilterByCategory(MenuData, Lunch) == [Margherita, Carbonara, Risotto]
  {
    LunchTabLate();
    assert FilterFrom(MenuData, 7, Lunch) == [Risotto];
    assert FilterFrom(MenuData, 6, Lunch) == [Carbonara, Risotto];
    assert FilterFrom(MenuData, 5, Lunch) == [Margherita, Carbonara, Risotto];
    assert FilterFrom(MenuData, 4, Lunch) == [Margherita, Carbonara, Risotto];
    assert FilterFrom(MenuData, 3, Lunch) == [Margherita, Carbonara, Risotto];
    assert FilterFrom(MenuData, 2, Lunch) == [Margherita, Carbonara, Risotto];
    assert FilterFrom(MenuData, 1, Lunch) == [Margherita, Carbonara, Risotto];
    assert FilterFrom(MenuData, 0, Lunch) == [Margherita, Carbonara, Risotto];
  }

  /** The dinner items among the last nine dishes. */
  lemma DinnerTabLate()
    ensures FilterFrom(MenuData, 8, Dinner) == [RoastChicken, BeefStew, GrilledSalmon, VegetableLasagna, LambChops, StuffedPeppers]
  {
    assert FilterFrom(MenuData, 16, Dinner) == [];
    assert FilterFrom(MenuData, 15, Dinner) == [];
    assert FilterFrom(MenuData, 14, Dinner) == [];
    assert FilterFrom(MenuData, 13, Dinner) == [StuffedPeppers];
    assert FilterFrom(MenuData, 12, Dinner) == [LambChops, StuffedPeppers];
    assert FilterFrom(MenuData, 11, Dinner) == [VegetableLasagna, LambChops, StuffedPeppers];
    assert FilterFrom(MenuData, 10, Dinner) == [GrilledSalmon, VegetableLasagna, LambChops, StuffedPeppers];
    assert FilterFrom(MenuData, 9, Dinner) == [BeefStew, GrilledSalmon, VegetableLasagna, LambChops, StuffedPeppers];
  }

  /** The dinner tab shows the six dinner dishes, in their order. */
  lemma DinnerTab()
    ensures FilterByCategory(MenuData, Dinner) == [
      RoastChicken, BeefStew, GrilledSalmon,
      VegetableLasagna, LambChops, StuffedPeppers]
  {
    DinnerTabLate();
    assert FilterFrom(MenuData, 7, Dinner) == [RoastChicken, BeefStew, GrilledSalmon, VegetableLasagna, LambChops, StuffedPeppers];
    assert FilterFrom(MenuData, 6, Dinner) == [RoastChicken, BeefStew, GrilledSalmon, VegetableLasagna, LambChops, StuffedPeppers];
    assert FilterFrom(MenuData, 5, Dinner) == [RoastChicken, BeefStew, GrilledSalmon, VegetableLasagna, LambChops, StuffedPeppers];
    assert FilterFrom(MenuData, 4, Dinner) == [RoastChicken, BeefStew, GrilledSalmon, VegetableLasagna, LambChops, StuffedPeppers];
    assert FilterFrom(MenuData, 3, Dinner) == [RoastChicken, BeefStew, GrilledSalmon, VegetableLasagna, LambChops, StuffedPeppers];
    assert FilterFrom(MenuData, 2, Dinner) == [RoastChicken, BeefStew, GrilledSalmon, VegetableLasagna, LambChops, StuffedPeppers];
    assert FilterFrom(MenuData, 1, Dinner) == [RoastChicken, BeefStew, GrilledSalmon, VegetableLasagna, LambChops, StuffedPeppers];
    assert FilterFrom(MenuData, 0, Dinner) == [RoastChicken, BeefStew, GrilledSalmon, VegetableLasagna, LambChops, StuffedPeppers];
  }

  /** The desserts items among the last nine dishes. */
  lemma DessertsTabLate()
    ensures FilterFrom(MenuData, 8, Desserts) == [Tiramisu, Gelato, Cannoli]
  {
    assert FilterFrom(MenuData, 16, Desserts) == [Cannoli];
    assert FilterFrom(MenuData, 15, Desserts) == [Gelato, Cannoli];
    assert FilterFrom(MenuData, 14, Desserts) == [Tiramisu, Gelato, Cannoli];
    assert FilterFrom(MenuData, 13, Desserts) == [Tiramisu, Gelato, Cannoli];
    assert FilterFrom(MenuData, 12, Desserts) == [Tiramisu, Gelato, Cannoli];
    assert FilterFrom(MenuData, 11, Desserts) == [Tiramisu, Gelato, Cannoli];
    assert FilterFrom(MenuData, 10, Desserts) == [Tiramisu, Gelato, Cannoli];
    assert FilterFrom(MenuData, 9, Desserts) == [Tiramisu, Gelato, Cannoli];
  }

  /** The desserts tab shows exactly tiramisu, gelato and cannoli. */
  lemma DessertsTab()
    ensures FilterByCategory(MenuData, Desserts) == [Tiramisu, Gelato, Cannoli]
  {
    DessertsTabLate();
    assert FilterFrom(MenuData, 7, Desserts) == [Tiramisu, Gelato, Cannoli];
    assert FilterFrom(MenuData, 6, Desserts) == [Tiramisu, Gelato, Cannoli];
    assert FilterFrom(MenuData, 5, Desserts) == [Tiramisu, Gelato, Cannoli];
    assert FilterFrom(MenuData, 4, Desserts) == [Tiramisu, Gelato, Cannoli];
    assert FilterFrom(MenuData, 3, Desserts) == [Tiramisu, Gelato, Cannoli];
    assert FilterFrom(MenuData, 2, Desserts) == [Tiramisu, Gelato, Cannoli];
    assert FilterFrom(MenuData, 1, Desserts) == [Tiramisu, Gelato, Cannoli];
    assert FilterFrom(MenuData, 0, Desserts) == [Tiramisu, Gelato, Cannoli];
  }

  /** No tab of the menu is empty, so the "no items" message never shows for
      this data. */
  lemma EveryTabHasItems(c: Category)
    ensures FilterByCategory(MenuData, c) != []
  {
    match c
    case Specials => SpecialsTab();
    case Breakfast => BreakfastTab();
    case Lunch => LunchTab();
    case Dinner => DinnerTab();
    case Desserts => DessertsTab();
  }

  // ---------------------------------------------------------------------------
  // What both menu sections show for the selected category
  // ---------------------------------------------------------------------------

  /** `filteredItems`: the dishes of the selected category `c`, in menu order. */
  function FilteredItems(c: Category): (r: seq<MenuItem>)
    ensures |r| <= |MenuData|
    ensures forall x :: x in r <==> x in MenuData && x.category == c
  {
    FilterMembers(MenuData, c);
    FilterByCategory(MenuData, c)
  }

  /** The "no items" message: shown exactly when no dish has the selected
      category `c`, which for this menu never happens. */
  function ShowsEmptyState(c: Category): (r: bool)
    ensures r <==> forall x :: x in MenuData ==> x.category != c
    ensures !r
  {
    EveryTabHasItems(c);
    var items := FilteredItems(c);
    assert items != [] ==> items[0] in items;
    |items| == 0
  }

  // ---------------------------------------------------------------------------
  // The category tabs
  // ---------------------------------------------------------------------------

  datatype NavItem = NavItem(id: string, caption: string, category: Category)

  /** `navItems`: one tab per category, in category order. */
  const NavItems: seq<NavItem> := [
    NavItem("specials", "Specials", Specials),
    NavItem("breakfast", "Breakfast", Breakfast),
    NavItem("lunch", "Lunch", Lunch),
    NavItem("dinner", "Dinner", Dinner),
    NavItem("desserts", "Desserts", Desserts)
  ]

  /** Every tab's id is the name of its category, and tabs with the same id are
      the same tab. */
  lemma NavIdIsCategoryName(k: int)
    requires 0 <= k < |NavItems|
    ensures NavItems[k].id == CategoryName(NavItems[k].category)
    ensures forall j :: 0 <= j < |NavItems| && NavItems[j].id == NavItems[k].id ==> j == k
  {
    forall j | 0 <= j < |NavItems| && NavItems[j].id == NavItems[k].id
      ensures j == k
    {
      CategoryNameInjective(NavItems[j].category, NavItems[k].category);
    }
  }
}

/**
 Categories, navigation items and the navigation tree the builder produces,
 as values. `Tree(c, t)` is the item `buildNavigationItemsTree(c, t)`
 returns, `Items(cs, f, t)` the items built from the categories of `cs`
 visible under `f`, each built with type `t`. `Expected` is an independent,
 depth-indexed description of the same tree: root children and their
 children are filtered with the requested type, every deeper level with the
 desktop flag, because the recursive call passes no type.
 */
module NavigationTree {

  const Desktop: string := "desktop"
  const Mobile: string := "mobile"

  /**
   A catalog category as the store returns it: its two menu flags, the
   store's structural children flag (independent of `children`), its
   children in store order and its cache-invalidation tags.
   */
  datatype Category = Category(
    id: nat,
    includeInMenu: bool,
    includeInMobileNavigation: bool,
    hasChildren: bool,
    children: seq<Category>,
    identities: seq<string>)

  /** A navigation item: the category it shows and its sub-items. */
  datatype NavItem = NavItem(category: Category, subItems: seq<NavItem>)

  /** Whether `c` is shown in a navigation of the given type. */
  predicate IsVisible(c: Category, navigationType: string)
  {
    if navigationType == Mobile then c.includeInMobileNavigation else c.includeInMenu
  }

  /** The mobile flag decides for "mobile"; every other type, known or not, uses the menu flag. */
  lemma VisibilityRule(c: Category, navigationType: string)
    ensures IsVisible(c, Mobile) <==> c.includeInMobileNavigation
    ensures navigationType != Mobile ==> (IsVisible(c, navigationType) <==> c.includeInMenu)
    ensures navigationType != Mobile ==> (IsVisible(c, navigationType) <==> IsVisible(c, Desktop))
  {
  }

  /**
   The item built for `c`: its children are filtered with `navigationType`
   and each built as a desktop item; a category without the children flag
   gets no sub-items whatever its children are.
   */
  function Tree(c: Category, navigationType: string): (item: NavItem)
    decreases c
  {
    NavItem(c, if !c.hasChildren then [] else Items(c.children, navigationType, Desktop))
  }

  /** The items for those of `cs` visible under `filterType`, in store order, each built with `childType`. */
  function Items(cs: seq<Category>, filterType: string, childType: string): (items: seq<NavItem>)
    ensures |items| <= |cs|
    decreases cs
  {
    if cs == [] then []
    else
      (if IsVisible(cs[0], filterType) then [Tree(cs[0], childType)] else [])
      + Items(cs[1..], filterType, childType)
  }

  /** Every item shows a visible category of the list, built with `childType`. */
  lemma {:induction false} ItemsShowVisible(cs: seq<Category>, filterType: string, childType: string)
    ensures forall item :: item in Items(cs, filterType, childType) ==>
      item.category in cs && IsVisible(item.category, filterType) && item == Tree(item.category, childType)
    decreases cs
  {
    if cs != [] {
      ItemsShowVisible(cs[1..], filterType, childType);
    }
  }

  /** Every visible category of the list has its item. */
  lemma {:induction false} VisibleCategoriesShown(cs: seq<Category>, filterType: string, childType: string)
    ensures forall c :: c in cs && IsVisible(c, filterType) ==> Tree(c, childType) in Items(cs, filterType, childType)
    decreases cs
  {
    if cs != [] {
      VisibleCategoriesShown(cs[1..], filterType, childType);
      assert forall c :: c in cs ==> c == cs[0] || c in cs[1..];
    }
  }

  /** The item of a category with the children flag holds the items of its visible children. */
  lemma TreeWithChildren(c: Category, navigationType: string)
    requires c.hasChildren
    ensures Tree(c, navigationType) == NavItem(c, Items(c.children, navigationType, Desktop))
    ensures ItemTags(Tree(c, navigationType)) == c.identities + ForestTags(Items(c.children, navigationType, Desktop))
  {
  }

  /** The item of a category without the children flag is a leaf carrying only its own tags. */
  lemma TreeWithoutChildren(c: Category, navigationType: string)
    requires !c.hasChildren
    ensures Tree(c, navigationType) == NavItem(c, [])
    ensures ItemTags(Tree(c, navigationType)) == c.identities
  {
    assert ItemTags(NavItem(c, [])) == c.identities + [];
  }

  /** Building a concatenation of category lists concatenates the item lists. */
  lemma {:induction false} ItemsAppend(a: seq<Category>, b: seq<Category>, filterType: string, childType: string)
    ensures Items(a + b, filterType, childType) == Items(a, filterType, childType) + Items(b, filterType, childType)
    decreases a
  {
    if a == [] {
      assert a + b == b;
    } else {
      assert (a + b)[0] == a[0] && (a + b)[1..] == a[1..] + b;
      ItemsAppend(a[1..], b, filterType, childType);
    }
  }

  /** A visible category yields exactly one item, built from it. */
  lemma ItemsSingle(c: Category, filterType: string, childType: string)
    ensures IsVisible(c, filterType) ==> Items([c], filterType, childType) == [Tree(c, childType)]
    ensures !IsVisible(c, filterType) ==> Items([c], filterType, childType) == []
  {
    assert [c][1..] == [];
  }

  /** One more category of the list adds its item exactly when it is visible. */
  lemma ItemsPrefixStep(cs: seq<Category>, i: nat, filterType: string, childType: string)
    requires i < |cs|
    ensures Items(cs[..i + 1], filterType, childType)
         == Items(cs[..i], filterType, childType)
            + (if IsVisible(cs[i], filterType) then [Tree(cs[i], childType)] else [])
  {
    assert cs[..i + 1] == cs[..i] + [cs[i]];
    ItemsAppend(cs[..i], [cs[i]], filterType, childType);
    ItemsSingle(cs[i], filterType, childType);
  }

  /**
   An invisible category contributes nothing, however large its subtree:
   the items are those of the list without it.
   */
  lemma PrunedSubtree(before: seq<Category>, c: Category, after: seq<Category>, filterType: string, childType: string)
    requires !IsVisible(c, filterType)
    ensures Items(before + [c] + after, filterType, childType) == Items(before + after, filterType, childType)
  {
    ItemsAppend(before + [c], after, filterType, childType);
    ItemsAppend(before, [c], filterType, childType);
    ItemsAppend(before, after, filterType, childType);
    ItemsSingle(c, filterType, childType);
  }

  /** The store's children flag alone decides: without it the children are never looked at. */
  lemma NoChildrenFlag(c: Category, navigationType: string, children: seq<Category>)
    requires !c.hasChildren
    ensures Tree(c.(children := children), navigationType) == NavItem(c.(children := children), [])
  {
  }

  /** The type used to filter the categories at `depth` (the root's children are at depth 0). */
  function FilterTypeAt(navigationType: string, depth: nat): (filterType: string)
  {
    if depth <= 1 then navigationType else Desktop
  }

  /** The item expected for `c` at `depth` in a navigation of the requested type. */
  function Expected(c: Category, navigationType: string, depth: nat): (item: NavItem)
    decreases c
  {
    NavItem(c, if !c.hasChildren then [] else ExpectedItems(c.children, navigationType, depth + 1))
  }

  /** The items expected for the categories `cs` at `depth`. */
  function ExpectedItems(cs: seq<Category>, navigationType: string, depth: nat): (items: seq<NavItem>)
    decreases cs
  {
    if cs == [] then []
    else
      (if IsVisible(cs[0], FilterTypeAt(navigationType, depth)) then [Expected(cs[0], navigationType, depth)] else [])
      + ExpectedItems(cs[1..], navigationType, depth)
  }

  /** The type `buildNavigationItemsTree` receives at `depth`: the requested one at the top, desktop below. */
  function CallTypeAt(navigationType: string, depth: nat): (callType: string)
  {
    if depth == 0 then navigationType else Desktop
  }

  /** What the builder makes at every depth is the depth-indexed expectation. */
  lemma {:induction false} TreeIsExpected(c: Category, navigationType: string, depth: nat)
    ensures Tree(c, CallTypeAt(navigationType, depth)) == Expected(c, navigationType, depth)
    decreases c
  {
    if c.hasChildren {
      ItemsAreExpected(c.children, navigationType, depth + 1);
    }
  }

  /** The item list at `depth` is the depth-indexed expectation. */
  lemma {:induction false} ItemsAreExpected(cs: seq<Category>, navigationType: string, depth: nat)
    ensures Items(cs, FilterTypeAt(navigationType, depth), CallTypeAt(navigationType, depth))
         == ExpectedItems(cs, navigationType, depth)
    decreases cs
  {
    if cs != [] {
      TreeIsExpected(cs[0], navigationType, depth);
      ItemsAreExpected(cs[1..], navigationType, depth);
    }
  }

  /** The navigation of the root's children is the expectation at depth 0. */
  lemma NavigationIsExpected(root: Category, navigationType: string)
    ensures Items(root.children, navigationType, navigationType) == ExpectedItems(root.children, navigationType, 0)
  {
    ItemsAreExpected(root.children, navigationType, 0);
  }

  /**
   A mobile navigation three levels deep: the third level is judged by the
   menu flag, so a category hidden from mobile but in the menu is shown.
   */
  lemma MobileThirdLevelUsesMenuFlag()
    ensures var leaf := Category(3, true, false, false, [], ["cat_3"]);
            var middle := Category(2, false, true, true, [leaf], ["cat_2"]);
            var top := Category(1, false, true, true, [middle], ["cat_1"]);
            Items([top], Mobile, Mobile) == [NavItem(top, [NavItem(middle, [NavItem(leaf, [])])])]
  {
    var leaf := Category(3, true, false, false, [], ["cat_3"]);
    var middle := Category(2, false, true, true, [leaf], ["cat_2"]);
    var top := Category(1, false, true, true, [middle], ["cat_1"]);
    ItemsSingle(leaf, Desktop, Desktop);
    ItemsSingle(middle, Mobile, Desktop);
    ItemsSingle(top, Mobile, Mobile);
  }

  /** The tags of the categories shown by `item`, in pre-order. */
  function ItemTags(item: NavItem): (tags: seq<string>)
    decreases item
  {
    item.category.identities + ForestTags(item.subItems)
  }

  /** The tags of the categories shown by `items`, in pre-order. */
  function ForestTags(items: seq<NavItem>): (tags: seq<string>)
    decreases items
  {
    if items == [] then [] else ItemTags(items[0]) + ForestTags(items[1..])
  }

  lemma {:induction false} ForestTagsAppend(a: seq<NavItem>, b: seq<NavItem>)
    ensures ForestTags(a + b) == ForestTags(a) + ForestTags(b)
    decreases a
  {
    if a == [] {
      assert a + b == b;
    } else {
      assert (a + b)[0] == a[0] && (a + b)[1..] == a[1..] + b;
      ForestTagsAppend(a[1..], b);
    }
  }

  lemma ForestTagsSnoc(items: seq<NavItem>, item: NavItem)
    ensures ForestTags(items + [item]) == ForestTags(items) + ItemTags(item)
  {
    ForestTagsAppend(items, [item]);
    assert ForestTags([item]) == ItemTags(item) + ForestTags([]);
  }

  /** The categories shown by `item`, in pre-order. */
  function Shown(item: NavItem): (shown: seq<Category>)
    decreases item
  {
    [item.category] + ShownAll(item.subItems)
  }

  /** The categories shown by `items`, in pre-order. */
  function ShownAll(items: seq<NavItem>): (shown: seq<Category>)
    decreases items
  {
    if items == [] then [] else Shown(items[0]) + ShownAll(items[1..])
  }

  /** The collected tags are exactly the tags of the categories shown. */
  lemma {:induction false} ItemTagsExact(item: NavItem)
    ensures forall tag :: tag in ItemTags(item) <==> exists c :: c in Shown(item) && tag in c.identities
    decreases item
  {
    ForestTagsExact(item.subItems);
  }

  /** The collected tags are exactly the tags of the categories shown. */
  lemma {:induction false} ForestTagsExact(items: seq<NavItem>)
    ensures forall tag :: tag in ForestTags(items) <==> exists c :: c in ShownAll(items) && tag in c.identities
    decreases items
  {
    if items != [] {
      ItemTagsExact(items[0]);
      ForestTagsExact(items[1..]);
    }
  }

  lemma {:induction false} ShownAllAppend(a: seq<NavItem>, b: seq<NavItem>)
    ensures ShownAll(a + b) == ShownAll(a) + ShownAll(b)
    decreases a
  {
    if a == [] {
      assert a + b == b;
    } else {
      assert (a + b)[0] == a[0] && (a + b)[1..] == a[1..] + b;
      ShownAllAppend(a[1..], b);
    }
  }

  /**
   Outside a mobile navigation, the item of a category in the menu shows
   only categories in the menu, at every depth below it.
   */
  lemma {:induction false} TreeShownInMenu(c: Category, navigationType: string)
    requires navigationType != Mobile && c.includeInMenu
    ensures forall x :: x in Shown(Tree(c, navigationType)) ==> x.includeInMenu
    decreases c
  {
    if c.hasChildren {
      ItemsShownInMenu(c.children, navigationType, Desktop);
    }
  }

  /**
   Outside a mobile navigation, every category shown anywhere in the items,
   at any depth, is in the menu: a category hidden from the menu never
   appears, and neither does anything below it.
   */
  lemma {:induction false} ItemsShownInMenu(cs: seq<Category>, filterType: string, childType: string)
    requires filterType != Mobile && childType != Mobile
    ensures forall x :: x in ShownAll(Items(cs, filterType, childType)) ==> x.includeInMenu
    decreases cs
  {
    if cs != [] {
      var head := if IsVisible(cs[0], filterType) then [Tree(cs[0], childType)] else [];
      ShownAllAppend(head, Items(cs[1..], filterType, childType));
      if IsVisible(cs[0], filterType) {
        TreeShownInMenu(cs[0], childType);
        assert ShownAll(head) == Shown(head[0]) + ShownAll([]);
      }
      ItemsShownInMenu(cs[1..], filterType, childType);
    }
  }

  /**
   What a mobile navigation shows: the root's children and their children
   all carry the mobile flag; everything deeper carries the menu flag,
   whatever its mobile flag, because the recursive call builds desktop items.
   */
  lemma MobileNavigationShown(cs: seq<Category>)
    ensures forall item :: item in Items(cs, Mobile, Mobile) ==> item.category.includeInMobileNavigation
    ensures forall item, sub :: item in Items(cs, Mobile, Mobile) && sub in item.subItems ==>
      sub.category.includeInMobileNavigation
    ensures forall item, sub, x :: item in Items(cs, Mobile, Mobile) && sub in item.subItems && x in ShownAll(sub.subItems) ==>
      x.includeInMenu
  {
    ItemsShowVisible(cs, Mobile, Mobile);
    forall item | item in Items(cs, Mobile, Mobile)
      ensures forall sub :: sub in item.subItems ==> sub.category.includeInMobileNavigation
      ensures forall sub, x :: sub in item.subItems && x in ShownAll(sub.subItems) ==> x.includeInMenu
    {
      var c := item.category;
      if c.hasChildren {
        ItemsShowVisible(c.children, Mobile, Desktop);
        forall sub | sub in item.subItems
          ensures forall x :: x in ShownAll(sub.subItems) ==> x.includeInMenu
        {
          if sub.category.hasChildren {
            ItemsShownInMenu(sub.category.children, Desktop, Desktop);
          }
        }
      }
    }
  }
}

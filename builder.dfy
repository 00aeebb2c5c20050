/**
 The navigation builder: it walks the category tree from a root, keeps the
 children visible in the requested navigation, collects the invalidation
 tags of every category it shows into a duplicate-free list held on the
 instance, and saves that list in the cache under the (root, type) key.
 The category repository is a map from ids to categories; the cache is a
 `Cache` object that several builders may share.
 */
module NavigationBuilder {
  import opened IdentityList
  import opened CacheKey
  import opened NavigationTree

  /** The repository's failure: no category has the requested id. */
  datatype Error = NoSuchEntity(id: nat)

  datatype Result<T> = Ok(value: T) | Err(error: Error)

  class Builder {
    /** The category repository, by category id. */
    const categories: map<nat, Category>
    /** The key-value cache, shared with every other holder of the same object. */
    const cache: Cache
    /** The tags collected so far; never reset after construction. */
    var identities: seq<string>

    /** The collected list never holds a tag twice. */
    ghost predicate Valid()
      reads this
    {
      NoDuplicates(identities)
    }

    constructor (categories: map<nat, Category>, cache: Cache)
      ensures this.categories == categories && this.cache == cache
      ensures identities == [] && Valid()
      ensures forall rootCategoryId, navigationType ::
        Key(rootCategoryId, navigationType) !in cache.entries ==> GetIdentities(rootCategoryId, navigationType) == []
    {
      this.categories := categories;
      this.cache := cache;
      identities := [];
    }

    /** The tags cached for (root, type), or else the tags collected on this instance. */
    function GetIdentities(rootCategoryId: nat, navigationType: string): (r: seq<string>)
      reads this, cache
    {
      LoadOr(cache.entries, Key(rootCategoryId, navigationType), identities)
    }

    /** Appends each tag not yet collected, in input order. */
    method AddIdentities(tags: seq<string>)
      modifies this`identities
      ensures identities == AppendNew(old(identities), tags)
      ensures NoDuplicates(old(identities)) ==> NoDuplicates(identities)
    {
      for i := 0 to |tags|
        invariant AppendNew(identities, tags[i..]) == AppendNew(old(identities), tags)
      {
        assert tags[i..][0] == tags[i] && tags[i..][1..] == tags[i + 1..];
        if tags[i] in identities {
          continue;
        }
        identities := identities + [tags[i]];
      }
      assert tags[|tags|..] == [];
      if NoDuplicates(old(identities)) {
        AppendNewNoDuplicates(old(identities), tags);
      }
    }

    /**
     Builds the item for `category`, collecting its tags and those of every
     category shown below it. Its visible children are built with the
     default (desktop) type.
     */
    method BuildNavigationItemsTree(category: Category, navigationType: string) returns (item: NavItem)
      requires Valid()
      modifies this`identities
      ensures Valid()
      ensures item == Tree(category, navigationType)
      ensures identities == AppendNew(old(identities), ItemTags(item))
      decreases category
    {
      AddIdentities(category.identities);
      if !category.hasChildren {
        TreeWithoutChildren(category, navigationType);
        return NavItem(category, []);
      }
      ghost var withOwn := identities;
      var children := category.children;
      var subItems: seq<NavItem> := [];
      for i := 0 to |children|
        invariant subItems == Items(children[..i], navigationType, Desktop)
        invariant identities == AppendNew(withOwn, ForestTags(subItems))
        invariant Valid()
      {
        var child := children[i];
        ItemsPrefixStep(children, i, navigationType, Desktop);
        if !IsVisible(child, navigationType) {
          continue;
        }
        var subItem := BuildNavigationItemsTree(child, Desktop);
        // the recursive call has already collected the child's own tags
        AddIdentities(child.identities);
        assert child.identities <= ItemTags(subItem);
        AppendNewThenPrefix(withOwn, ForestTags(subItems), ItemTags(subItem), child.identities);
        ForestTagsSnoc(subItems, subItem);
        subItems := subItems + [subItem];
      }
      assert children[..|children|] == children;
      TreeWithChildren(category, navigationType);
      AppendNewConcat(old(identities), category.identities, ForestTags(subItems));
      item := NavItem(category, subItems);
    }

    /**
     Builds the navigation under the root category: one item per child of
     the root visible under `navigationType`, in store order; then saves the
     collected tags under the (root, type) key. A missing root fails before
     anything is collected or saved.
     */
    method Build(rootCategoryId: nat, navigationType: string) returns (r: Result<seq<NavItem>>)
      requires Valid()
      modifies this`identities, cache`entries
      ensures Valid()
      ensures rootCategoryId !in categories ==>
        r == Err(NoSuchEntity(rootCategoryId)) && identities == old(identities) && cache.entries == old(cache.entries)
      ensures rootCategoryId in categories ==>
        && r == Ok(Items(categories[rootCategoryId].children, navigationType, navigationType))
        && identities == AppendNew(old(identities), ForestTags(r.value))
        && cache.entries == old(cache.entries)[Key(rootCategoryId, navigationType) := identities]
        && GetIdentities(rootCategoryId, navigationType) == identities
    {
      if rootCategoryId !in categories {
        return Err(NoSuchEntity(rootCategoryId));
      }
      var rootCategory := categories[rootCategoryId];
      var childCategories := rootCategory.children;
      var navigationItems: seq<NavItem> := [];
      for i := 0 to |childCategories|
        invariant navigationItems == Items(childCategories[..i], navigationType, navigationType)
        invariant identities == AppendNew(old(identities), ForestTags(navigationItems))
        invariant cache.entries == old(cache.entries)
        invariant Valid()
      {
        var category := childCategories[i];
        ItemsPrefixStep(childCategories, i, navigationType, navigationType);
        if !IsVisible(category, navigationType) {
          continue;
        }
        var item := BuildNavigationItemsTree(category, navigationType);
        AppendNewConcat(old(identities), ForestTags(navigationItems), ItemTags(item));
        ForestTagsSnoc(navigationItems, item);
        navigationItems := navigationItems + [item];
      }
      assert childCategories[..|childCategories|] == childCategories;
      cache.Save(Key(rootCategoryId, navigationType), identities);
      SaveThenLoad(old(cache.entries), rootCategoryId, navigationType, identities, identities);
      r := Ok(navigationItems);
    }
  }

  /**
   The round trip between the save at the end of a build and a later read,
   over one shared cache: the builder that built reads its saved list back,
   and so does a second builder, created before the build, which has
   collected nothing itself. A failed build leaves the cache as it was.
   */
  method ReadBackAfterBuild(categories: map<nat, Category>, entries: map<string, seq<string>>,
                            rootCategoryId: nat, navigationType: string)
    returns (built: Result<seq<NavItem>>, saved: seq<string>, sameBuilder: seq<string>, otherBuilder: seq<string>)
    ensures rootCategoryId in categories ==>
      && built.Ok?
      && saved == AppendNew([], ForestTags(built.value))
      && sameBuilder == saved && otherBuilder == saved
    ensures rootCategoryId !in categories ==>
      && built == Err(NoSuchEntity(rootCategoryId))
      && otherBuilder == LoadOr(entries, Key(rootCategoryId, navigationType), [])
  {
    var cache := new Cache(entries);
    var builder := new Builder(categories, cache);
    var other := new Builder(categories, cache);
    built := builder.Build(rootCategoryId, navigationType);
    saved := builder.identities;
    sameBuilder := builder.GetIdentities(rootCategoryId, navigationType);
    otherBuilder := other.GetIdentities(rootCategoryId, navigationType);
    if rootCategoryId in categories {
      SaveThenLoad(entries, rootCategoryId, navigationType, saved, []);
    }
  }

  /**
   Two builds on one instance. The list saved by the second holds the tags
   of the first navigation followed by the new tags of the second, since the
   collected list is never reset; building the same navigation twice gives
   the same items and saves the same list.
   */
  method BuildTwice(categories: map<nat, Category>, entries: map<string, seq<string>>,
                    firstRoot: nat, firstType: string, secondRoot: nat, secondType: string)
    returns (first: Result<seq<NavItem>>, second: Result<seq<NavItem>>, saved: seq<string>)
    ensures firstRoot in categories && secondRoot in categories ==>
      && first.Ok? && second.Ok?
      && saved == AppendNew(AppendNew([], ForestTags(first.value)), ForestTags(second.value))
      && NoDuplicates(saved)
      && (forall tag :: tag in saved <==> tag in ForestTags(first.value) || tag in ForestTags(second.value))
    ensures firstRoot in categories && firstRoot == secondRoot && firstType == secondType ==>
      first == second && saved == AppendNew([], ForestTags(first.value))
  {
    var cache := new Cache(entries);
    var builder := new Builder(categories, cache);
    first := builder.Build(firstRoot, firstType);
    second := builder.Build(secondRoot, secondType);
    saved := builder.GetIdentities(secondRoot, secondType);
    if firstRoot in categories && secondRoot in categories {
      var firstTags, secondTags := ForestTags(first.value), ForestTags(second.value);
      AppendNewMembers([], firstTags);
      AppendNewMembers(AppendNew([], firstTags), secondTags);
      AppendNewNoDuplicates([], firstTags);
      AppendNewNoDuplicates(AppendNew([], firstTags), secondTags);
      if firstRoot == secondRoot && firstType == secondType {
        AppendNewIdempotent([], firstTags);
      }
    }
  }

  /**
   A desktop navigation: of the root's children A (in the menu, tag t1) and
   B (not in the menu), only A is shown, with its child A1 (tag t2); the
   collected tags are t1 then t2.
   */
  lemma DesktopExample()
    ensures var a1 := Category(3, true, true, false, [], ["t2"]);
            var a := Category(1, true, true, true, [a1], ["t1"]);
            var b := Category(2, false, true, false, [], ["t3"]);
            var items := Items([a, b], Desktop, Desktop);
            items == [NavItem(a, [NavItem(a1, [])])] && AppendNew([], ForestTags(items)) == ["t1", "t2"]
  {
    var a1 := Category(3, true, true, false, [], ["t2"]);
    var a := Category(1, true, true, true, [a1], ["t1"]);
    var b := Category(2, false, true, false, [], ["t3"]);
    ItemsSingle(a1, Desktop, Desktop);
    ItemsAppend([a], [b], Desktop, Desktop);
    ItemsSingle(a, Desktop, Desktop);
    ItemsSingle(b, Desktop, Desktop);
    var items := [NavItem(a, [NavItem(a1, [])])];
    ForestTagsSnoc([], NavItem(a1, []));
    ForestTagsSnoc([], items[0]);
    assert ForestTags(items) == ["t1", "t2"];
    assert AppendNew([], ["t1", "t2"]) == AppendNew(["t1"], ["t2"]);
  }
}

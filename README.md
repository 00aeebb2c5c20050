# Navigation builder

A Dafny model of the MageSuite navigation `Builder`. The builder turns a
catalog category tree into a navigation tree. It starts from a root
category and keeps each child that is visible in the requested navigation
type (`desktop` or `mobile`). It recurses into the kept children, keeps the
store's order, and drops an invisible child together with its whole subtree.
While it walks, it collects the cache-invalidation tags of every category
it shows. It keeps them in a duplicate-free list on the instance and saves
that list in the cache under a key made from the root id and the type.
`getIdentities` reads that key back and falls back to the in-memory list.

Files and modules:

- `identity_list.dfy`, module `IdentityList`: the rule `addIdentities`
  follows, `AppendNew(acc, tags)`. It appends every tag not yet present, in
  input order. Lemmas cover prefix, membership, no duplicates, order,
  concatenation and idempotence.
- `cache_key.dfy`, module `CacheKey`: the cache key as the real string.
  That is the class name, a backslash, the decimal root id, a backslash and
  the type. The module proves the key injective. It also holds the cache
  service, class `Cache`, one object shared by every builder given it, and
  models the `load(key) ?: fallback` read and the save/load round trip.
- `navigation_tree.dfy`, module `NavigationTree`: `Category` and `NavItem`
  as values, the visibility rule, and the tree the builder produces.
  `Tree` and `Items` give that tree as functions. `Expected` is an
  independent reference that is indexed by depth. The tag lists of a tree
  are also defined here.
- `builder.dfy`, module `NavigationBuilder`: class `Builder`. Its fields are
  the category repository (a map from ids), the shared `Cache` object and
  `identities`. `Build`, `BuildNavigationItemsTree` and
  `AddIdentities` are the source's loops and recursion. Each one is proved
  against the functions above.

The recursive call at `Service/Navigation/Builder.php:82` passes no
navigation type, so it uses the default `desktop`. The model keeps this
behaviour. In a mobile build, the root's children and their children are
filtered by the mobile flag. Every deeper level is filtered by the menu
flag. `Tree(c, t)` filters `c`'s children with `t` and builds each of them
as a desktop item. `TreeIsExpected` proves that this equals `Expected`.
`Expected` names the filter type at each depth directly: the requested type
at depths 0 and 1, desktop below. A description of the builder could say
that a node appears exactly when its channel's flag is set at every level.
The code does not do this below the second level, and the model follows the
code. Any type other than `mobile`, recognised or not, uses the menu flag.
The cache key still contains that type.

The root category's own `hasChildren` flag is not consulted: `build` reads
its children directly. The root's own tags are not collected; only the tags
of the categories shown are. The tags of a child are added a second time
after its subtree is built (line 83). `AppendNewPrefixAgain` shows this adds
nothing, because the recursive call has already added them (line 69).

The cache is modelled as a store that keeps the list under the key, as
`save(key, list)` and `load(key)` read at lines 60 and 120. Magento's
`CacheInterface::save` takes the data first and the identifier second.
Under that signature, line 60 would store the key string as the data, and
the load at line 120 would not find it. `getIdentities` would then always
return the in-memory list. `CacheInterface` is not part of this model; see
"Left out".

## Model

| member | source | states |
|---|---|---|
| IdentityList.AppendNew | Service/Navigation/Builder.php:123-132 | the old list is a prefix of the result, and the result grows by at most the number of tags given |
| IdentityList.AppendNewMembers | Service/Navigation/Builder.php:125-131 | a tag is in the result exactly when it was already in the list or is one of the given tags |
| IdentityList.AppendNewNoDuplicates | Service/Navigation/Builder.php:126-130 | a duplicate-free list stays duplicate-free |
| IdentityList.AppendNewOrder | Service/Navigation/Builder.php:125-130 | every appended tag was absent before and comes from the input; appended tags are in order of their first occurrence in the input |
| IdentityList.AppendNewConcat | Service/Navigation/Builder.php:123-132 | adding two lists one after the other is adding their concatenation |
| IdentityList.AppendNewPresent | Service/Navigation/Builder.php:126-128 | tags that are all present already leave the list unchanged |
| IdentityList.AppendNewPrefixAgain | Service/Navigation/Builder.php:83 | re-adding a prefix of tags just added (a child's own tags after its subtree) changes nothing |
| IdentityList.AppendNewIdempotent | Service/Navigation/Builder.php:123-132 | adding the same tags twice is the same as adding them once |
| CacheKey.DecimalString | Service/Navigation/Builder.php:60 | the id as written into the key is non-empty and contains no backslash |
| CacheKey.DecimalStringInjective | Service/Navigation/Builder.php:60 | distinct ids are written differently |
| CacheKey.KeyInjective | Service/Navigation/Builder.php:60 | equal cache keys come from the same (root id, type) pair |
| CacheKey.Cache.Save | Service/Navigation/Builder.php:60 | the cache object now holds the list under the key and every other entry as before |
| CacheKey.SaveThenLoad | Service/Navigation/Builder.php:120 | reading the key just written returns the written list whatever was cached before and whatever the fallback; only an empty written list lets the fallback through |
| CacheKey.SaveLeavesOtherKeys | Service/Navigation/Builder.php:60 | a save for one (root, type) changes nothing read under any other (root, type), with any fallback |
| NavigationTree.VisibilityRule | Service/Navigation/Builder.php:106-113 | `mobile` uses the mobile flag; every other type, including unrecognised ones, uses the menu flag, as `desktop` does |
| NavigationTree.Items | Service/Navigation/Builder.php:77-86 | the visible children give at most as many items as there are children |
| NavigationTree.ItemsShowVisible | Service/Navigation/Builder.php:77-84 | every item shows a category of the list that is visible under the filter type, built with the child type |
| NavigationTree.VisibleCategoriesShown | Service/Navigation/Builder.php:77-84 | every visible category of the list has its item among the items |
| NavigationTree.ItemsAppend | Service/Navigation/Builder.php:77-86 | the items of a concatenation of child lists are the concatenation of their items, so store order is kept |
| NavigationTree.ItemsSingle | Service/Navigation/Builder.php:78-82 | definitional unfolding of `Items` for one category, used as a proof step: its item when visible, nothing when not |
| NavigationTree.ItemsPrefixStep | Service/Navigation/Builder.php:77-84 | one more child appends its item exactly when it is visible |
| NavigationTree.PrunedSubtree | Service/Navigation/Builder.php:78-80 | an invisible child contributes nothing, whatever its subtree: the items equal those of the list without it |
| NavigationTree.NoChildrenFlag | Service/Navigation/Builder.php:71-75 | definitional unfolding of `Tree`: a category whose children flag is false gives an item with no sub-items, whatever its children are |
| NavigationTree.TreeWithoutChildren | Service/Navigation/Builder.php:71-75 | definitional unfolding of `Tree` and `ItemTags`, used as a proof step: such an item is a leaf and carries only the category's own tags |
| NavigationTree.TreeWithChildren | Service/Navigation/Builder.php:77-88 | definitional unfolding of `Tree` and `ItemTags`, used as a proof step: the sub-items are the children visible under the given type, built as desktop items, and the tags are the category's own followed by those of the sub-items; the statement about intent is `TreeIsExpected` |
| NavigationTree.TreeIsExpected | Service/Navigation/Builder.php:82 | the item built for a category at any depth equals the depth-indexed reference: children filtered with the requested type at depths 0 and 1, with the desktop flag below |
| NavigationTree.ItemsAreExpected | Service/Navigation/Builder.php:77-84 | the item list at any depth equals the depth-indexed reference |
| NavigationTree.NavigationIsExpected | Service/Navigation/Builder.php:52-58 | the navigation of the root's children is the reference at depth 0 |
| NavigationTree.MobileThirdLevelUsesMenuFlag | Service/Navigation/Builder.php:82 | in a mobile navigation, a third-level category hidden from mobile but in the menu is shown |
| NavigationTree.TreeShownInMenu | Service/Navigation/Builder.php:77-84 | outside a mobile navigation, the item of a category in the menu shows only categories in the menu, at every depth |
| NavigationTree.ItemsShownInMenu | Service/Navigation/Builder.php:52-57 | outside a mobile navigation, every category shown anywhere in the tree, at any depth, is in the menu, so a category hidden from the menu hides its whole subtree |
| NavigationTree.MobileNavigationShown | Service/Navigation/Builder.php:82 | in a mobile navigation, the items and their sub-items all carry the mobile flag, and every category shown deeper carries the menu flag |
| NavigationTree.ItemTagsExact | Service/Navigation/Builder.php:69 | the tags collected for an item are exactly the tags of the categories it shows |
| NavigationTree.ForestTagsExact | Service/Navigation/Builder.php:78-83 | the tags collected for a list of items are exactly the tags of the categories they show |
| NavigationBuilder.Builder.constructor | Service/Navigation/Builder.php:30-40 | a new builder has collected no tags (so its list is duplicate-free), and `getIdentities` on a key not in the cache returns the empty list |
| NavigationBuilder.ReadBackAfterBuild | Service/Navigation/Builder.php:118-121 | after a successful build, `getIdentities` for the same (root, type) returns the saved list, both on the builder that built and on a second builder created before the build over the same cache object; after a failed build the second builder reads the cache as it was, falling back to the empty list |
| NavigationBuilder.Builder.AddIdentities | Service/Navigation/Builder.php:123-132 | the new list is `AppendNew` of the old one and the tags, and a duplicate-free list stays duplicate-free |
| NavigationBuilder.Builder.BuildNavigationItemsTree | Service/Navigation/Builder.php:65-89 | keeps the list duplicate-free (`Valid`); returns `Tree(category, type)`; the list gains exactly the tags of the categories that item shows, in pre-order |
| NavigationBuilder.Builder.Build | Service/Navigation/Builder.php:45-63 | keeps the list duplicate-free (`Valid`); a missing root fails with no tags collected and no cache write; otherwise it returns one item per visible root child in store order, collects the tags of the categories shown, saves the whole list under the (root, type) key, and `GetIdentities` for that pair returns it |
| NavigationBuilder.BuildTwice | Service/Navigation/Builder.php:38 | the list is never reset, so a second build saves the first build's tags followed by the second's new ones; building the same navigation twice gives the same items and saves the same list |
| NavigationBuilder.DesktopExample | Service/Navigation/Builder.php:52-57 | a desktop build of children A (in the menu, child A1) and B (not in the menu) shows A with A1 and collects t1 then t2 |

## Left out

- `getChildrenCategories` (lines 96-104) clears, loads and selects the attributes of a collection. The model reads the category's `children` sequence instead. Database loading is outside the model.
- `CategoryRepositoryInterface::get` is a lookup in a map from ids to categories. A missing id gives `NoSuchEntity`, modelling the repository's exception. Store scoping and the repository's own caching are not modelled.
- `ItemFactory::create` and `setSubItems` are not modelled as objects. The navigation item is a value built from its category and its sub-items, so identity and aliasing of item objects are not modelled.
- The cache is one shared object holding a map from key strings to tag lists; every builder given it sees every save. Serialisation, cache tags and lifetimes, backend failures and concurrent writers to the same key are outside the model. PHP's `?:` is modelled as "absent or empty list falls back"; other falsy values a backend could return are not modelled.
- The root category id is a natural number written in decimal. A string id containing a backslash could make two keys collide; the model does not cover such ids.
- The category flags are booleans. PHP's truthiness of raw attribute values (`"1"`, `"0"`, `null`) is not modelled.
- The save at line 60 is modelled as storing the list under the key. Magento's `CacheInterface::save($data, $identifier, ...)` puts the data first, so as written the call would pass the key as data and the tag array as identifier. The model does not cover that reading, in which the read at line 120 never finds the entry and `getIdentities` always returns the in-memory list. `CacheInterface` is not part of this model.
- IdentityList.AppendNew: tags are compared by string equality. The source's `in_array` at line 126 compares loosely, so numeric-looking tags such as `"10"` and `"1e1"` count as the same tag there but as different tags in the model.
- `isVisible` compares the type with PHP's loose `==`. For the non-numeric string `"mobile"` this is string equality, which is what the model uses.
- `BuilderInterface` and the dependency-injection wiring are outside the model.

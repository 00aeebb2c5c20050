/**
 The duplicate-free, append-only list of cache-invalidation tags that the
 navigation builder accumulates while it walks the category tree.
 `AppendNew(acc, tags)` is the list `acc` after each tag of `tags`, in turn,
 has been appended unless it is already present.
 */
module IdentityList {

  /** No tag occurs twice. */
  predicate NoDuplicates(s: seq<string>)
  {
    forall i, j :: 0 <= i < j < |s| ==> s[i] != s[j]
  }

  /** The position of the first occurrence of `x` in `s`. */
  function FirstIndex(s: seq<string>, x: string): (k: nat)
    requires x in s
    ensures k < |s| && s[k] == x && x !in s[..k]
  {
    if s[0] == x then 0
    else
      var k := 1 + FirstIndex(s[1..], x);
      assert s[..k] == [s[0]] + s[1..][..k - 1];
      k
  }

  /** `acc` with every tag of `tags` that is not yet in it appended, in input order. */
  function AppendNew(acc: seq<string>, tags: seq<string>): (r: seq<string>)
    ensures acc <= r
    ensures |r| <= |acc| + |tags|
    decreases |tags|
  {
    if tags == [] then acc
    else AppendNew(if tags[0] in acc then acc else acc + [tags[0]], tags[1..])
  }

  /** Exactly the tags already present or given are in the result. */
  lemma {:induction false} AppendNewMembers(acc: seq<string>, tags: seq<string>)
    ensures forall x :: x in AppendNew(acc, tags) <==> x in acc || x in tags
    decreases |tags|
  {
    if tags != [] {
      AppendNewMembers(if tags[0] in acc then acc else acc + [tags[0]], tags[1..]);
      assert tags == [tags[0]] + tags[1..];
    }
  }

  /** A duplicate-free list stays duplicate-free. */
  lemma {:induction false} AppendNewNoDuplicates(acc: seq<string>, tags: seq<string>)
    requires NoDuplicates(acc)
    ensures NoDuplicates(AppendNew(acc, tags))
    decreases |tags|
  {
    if tags != [] {
      var next := if tags[0] in acc then acc else acc + [tags[0]];
      assert NoDuplicates(next);
      AppendNewNoDuplicates(next, tags[1..]);
    }
  }

  /**
   What is appended is new, and the appended tags keep the order in which
   they first occur in `tags`.
   */
  lemma {:induction false} AppendNewOrder(acc: seq<string>, tags: seq<string>)
    ensures var r := AppendNew(acc, tags);
      forall i :: |acc| <= i < |r| ==> r[i] !in acc && r[i] in tags
    ensures var r := AppendNew(acc, tags);
      forall i, j :: |acc| <= i < j < |r| ==>
        r[i] in tags && r[j] in tags && FirstIndex(tags, r[i]) < FirstIndex(tags, r[j])
    decreases |tags|
  {
    var r := AppendNew(acc, tags);
    if tags != [] {
      var x, rest := tags[0], tags[1..];
      assert tags == [x] + rest;
      var next := if x in acc then acc else acc + [x];
      AppendNewOrder(next, rest);
      AppendNewMembers(next, rest);
      assert r == AppendNew(next, rest);
      forall i | |acc| <= i < |r|
        ensures r[i] !in acc && r[i] in tags
        ensures r[i] != x ==> r[i] in rest && FirstIndex(tags, r[i]) == 1 + FirstIndex(rest, r[i])
        ensures r[i] == x ==> FirstIndex(tags, r[i]) == 0
      {
        if x !in acc && i == |acc| {
          assert r[i] == next[i] == x;
        } else {
          assert |next| <= i;
          assert r[i] !in next && r[i] in rest;
        }
      }
    }
  }

  /** Appending in two steps is appending the concatenation. */
  lemma {:induction false} AppendNewConcat(acc: seq<string>, xs: seq<string>, ys: seq<string>)
    ensures AppendNew(AppendNew(acc, xs), ys) == AppendNew(acc, xs + ys)
    decreases |xs|
  {
    if xs == [] {
      assert xs + ys == ys;
    } else {
      assert (xs + ys)[0] == xs[0] && (xs + ys)[1..] == xs[1..] + ys;
      AppendNewConcat(if xs[0] in acc then acc else acc + [xs[0]], xs[1..], ys);
    }
  }

  /** Tags that are all present already change nothing. */
  lemma {:induction false} AppendNewPresent(acc: seq<string>, tags: seq<string>)
    requires forall x :: x in tags ==> x in acc
    ensures AppendNew(acc, tags) == acc
    decreases |tags|
  {
    if tags != [] {
      assert tags[0] in acc;
      AppendNewPresent(acc, tags[1..]);
    }
  }

  /** Once `tags` are added, adding any prefix of them again changes nothing. */
  lemma AppendNewPrefixAgain(acc: seq<string>, tags: seq<string>, prefix: seq<string>)
    requires prefix <= tags
    ensures AppendNew(AppendNew(acc, tags), prefix) == AppendNew(acc, tags)
  {
    AppendNewMembers(acc, tags);
    forall x | x in prefix ensures x in AppendNew(acc, tags) {
      assert x in tags;
    }
    AppendNewPresent(AppendNew(acc, tags), prefix);
  }

  /**
   Adding `tags` and then a prefix of them to the list built from `before`
   is building from `before + tags`.
   */
  lemma AppendNewThenPrefix(initial: seq<string>, before: seq<string>, tags: seq<string>, prefix: seq<string>)
    requires prefix <= tags
    ensures AppendNew(AppendNew(AppendNew(initial, before), tags), prefix) == AppendNew(initial, before + tags)
  {
    AppendNewConcat(initial, before, tags);
    AppendNewPrefixAgain(AppendNew(initial, before), tags, prefix);
  }

  /** Adding the same tags a second time changes nothing. */
  lemma AppendNewIdempotent(acc: seq<string>, tags: seq<string>)
    ensures AppendNew(AppendNew(acc, tags), tags) == AppendNew(acc, tags)
  {
    AppendNewMembers(acc, tags);
    AppendNewPresent(AppendNew(acc, tags), tags);
  }
}

/**
 The cache entry in which the builder stores the tags of one navigation:
 the key is the builder's class name, a backslash, the root category id in
 decimal, a backslash and the navigation type. The cache itself is an
 object holding a map from keys to tag lists.
 */
module CacheKey {

  /** The fully qualified name of the builder class, the key's namespace. */
  const Namespace: string := "MageSuite\\Navigation\\Service\\Navigation\\Builder"

  const Separator: char := '\\'

  function Digit(d: nat): (c: char)
    requires d < 10
    ensures c != Separator
  {
    ('0' as int + d) as char
  }

  /** The decimal representation of `n`, as string interpolation writes it. */
  function DecimalString(n: nat): (s: string)
    ensures 1 <= |s|
    ensures Separator !in s
    decreases n
  {
    if n < 10 then [Digit(n)] else DecimalString(n / 10) + [Digit(n % 10)]
  }

  /** Distinct numbers have distinct decimal representations. */
  lemma {:induction false} DecimalStringInjective(a: nat, b: nat)
    requires DecimalString(a) == DecimalString(b)
    ensures a == b
    decreases a
  {
    var sa, sb := DecimalString(a), DecimalString(b);
    if a < 10 && b < 10 {
      assert ('0' as int + a) as char == ('0' as int + b) as char;
    } else if 10 <= a && 10 <= b {
      assert sa[|sa| - 1] == Digit(a % 10) && sb[|sb| - 1] == Digit(b % 10);
      assert ('0' as int + a % 10) as char == ('0' as int + b % 10) as char;
      assert sa[..|sa| - 1] == DecimalString(a / 10);
      assert sb[..|sb| - 1] == DecimalString(b / 10);
      DecimalStringInjective(a / 10, b / 10);
    }
  }

  /** The key under which `build` saves, and `getIdentities` loads, the tags. */
  function Key(rootId: nat, navigationType: string): (key: string)
  {
    Namespace + [Separator] + DecimalString(rootId) + [Separator] + navigationType
  }

  /** In `head + separator + tail` with a separator-free head, the first separator ends the head. */
  lemma FirstSeparator(h: string, t: string)
    requires Separator !in h
    ensures (h + [Separator] + t)[|h|] == Separator
    ensures forall k :: 0 <= k < |h| ==> (h + [Separator] + t)[k] != Separator
  {
    forall k | 0 <= k < |h| ensures (h + [Separator] + t)[k] != Separator {
      assert (h + [Separator] + t)[k] == h[k];
    }
  }

  /** A separator-free head is recovered from `head + separator + tail`. */
  lemma SplitAtSeparator(h1: string, t1: string, h2: string, t2: string)
    requires Separator !in h1 && Separator !in h2
    requires h1 + [Separator] + t1 == h2 + [Separator] + t2
    ensures h1 == h2 && t1 == t2
  {
    var s := h1 + [Separator] + t1;
    FirstSeparator(h1, t1);
    FirstSeparator(h2, t2);
    assert h1 == s[..|h1|] == h2;
    assert t1 == s[|h1| + 1..] == t2;
  }

  /** Two different (root, type) pairs never share a cache entry. */
  lemma KeyInjective(a: nat, t: string, b: nat, u: string)
    requires Key(a, t) == Key(b, u)
    ensures a == b && t == u
  {
    var n := |Namespace| + 1;
    var ka, kb := Key(a, t), Key(b, u);
    assert ka[n..] == DecimalString(a) + [Separator] + t;
    assert kb[n..] == DecimalString(b) + [Separator] + u;
    SplitAtSeparator(DecimalString(a), t, DecimalString(b), u);
    DecimalStringInjective(a, b);
  }

  /**
   The cache service the builder is given: one object, so a save made
   through any holder of it is seen by every other holder.
   */
  class Cache {
    var entries: map<string, seq<string>>

    constructor (entries: map<string, seq<string>>)
      ensures this.entries == entries
    {
      this.entries := entries;
    }

    /** Stores `data` under `key`, replacing what was there. */
    method Save(key: string, data: seq<string>)
      modifies this`entries
      ensures entries == old(entries)[key := data]
    {
      entries := entries[key := data];
    }
  }

  /**
   What `load(key) ?: fallback` yields: the cached list unless the key is
   absent or holds an empty list, in which case the fallback.
   */
  function LoadOr(cache: map<string, seq<string>>, key: string, fallback: seq<string>): (r: seq<string>)
  {
    if key in cache && cache[key] != [] then cache[key] else fallback
  }

  /**
   Loading the key just saved returns the saved list, whatever was cached
   before; only an empty saved list lets the fallback through.
   */
  lemma SaveThenLoad(cache: map<string, seq<string>>, rootId: nat, navigationType: string,
                     tags: seq<string>, fallback: seq<string>)
    ensures LoadOr(cache[Key(rootId, navigationType) := tags], Key(rootId, navigationType), fallback)
         == if tags == [] then fallback else tags
  {
  }

  /** Saving under one (root, type) leaves what loads under every other pair unchanged. */
  lemma SaveLeavesOtherKeys(cache: map<string, seq<string>>, rootId: nat, navigationType: string,
                            tags: seq<string>, otherId: nat, otherType: string, fallback: seq<string>)
    requires rootId != otherId || navigationType != otherType
    ensures LoadOr(cache[Key(rootId, navigationType) := tags], Key(otherId, otherType), fallback)
         == LoadOr(cache, Key(otherId, otherType), fallback)
  {
    if Key(rootId, navigationType) == Key(otherId, otherType) {
      KeyInjective(rootId, navigationType, otherId, otherType);
    }
  }
}

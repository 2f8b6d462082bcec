/** Sizes of finite sets. */
module Sets {
  lemma SubsetSize<T>(small: set<T>, large: set<T>)
    requires small <= large
    ensures |small| <= |large|
  {
    assert large == small + (large - small);
  }

  lemma ProperSubsetSize<T>(small: set<T>, large: set<T>, extra: T)
    requires small <= large && extra in large && extra !in small
    ensures |small| < |large|
  {
    SubsetSize(small, large - {extra});
  }
}

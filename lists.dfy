/** The index filter `list.filter((_, i) => i !== index)` that removeName and
    the draw commit use to drop one position of a list. */
module Lists {

  /** Keeps, in order, every element whose position differs from `index`.
      Written as the filter walks the list, one position at a time (here
      from the back, so that the positions of the kept prefix do not move). */
  function FilterOutIndex<T>(s: seq<T>, index: int): (r: seq<T>)
    ensures r == if 0 <= index < |s| then s[..index] + s[index + 1..] else s
  {
    if s == [] then []
    else
      var last := |s| - 1;
      var kept := FilterOutIndex(s[..last], index);
      assert s[..last] + [s[last]] == s;
      if last != index then kept + [s[last]] else kept
  }

  /** Dropping position `k` takes exactly one occurrence of `s[k]` out of
      the multiset of elements and keeps every other element. */
  lemma {:induction false} FilterOutIndexMultiset<T>(s: seq<T>, k: nat)
    requires k < |s|
    ensures multiset(FilterOutIndex(s, k)) + multiset{s[k]} == multiset(s)
    ensures |FilterOutIndex(s, k)| == |s| - 1
  {
    assert s == s[..k] + [s[k]] + s[k + 1..];
  }
}

/** The library sort that the oracle and the validator set call. */
module Sorting {
  predicate Sorted(s: seq<int>) {
    forall i, j :: 0 <= i < j < |s| ==> s[i] <= s[j]
  }

  // Stands for the library sort: a sorted copy with the same elements.
  method SortedCopy(vals: seq<int>) returns (s: seq<int>)
    ensures Sorted(s) && multiset(s) == multiset(vals)
  {
    s := [];
    for n := 0 to |vals|
      invariant Sorted(s) && multiset(s) == multiset(vals[..n])
    {
      var k := |s|;
      while k > 0 && vals[n] < s[k - 1]
        invariant 0 <= k <= |s|
        invariant forall i :: k <= i < |s| ==> vals[n] < s[i]
      {
        k := k - 1;
      }
      InsertedElements(s, k, vals[n]);
      InsertedSorted(s, k, vals[n]);
      s := s[..k] + [vals[n]] + s[k..];
      assert vals[..n + 1] == vals[..n] + [vals[n]];
    }
    assert vals[..|vals|] == vals;
  }

  lemma InsertedElements(s: seq<int>, k: nat, v: int)
    requires k <= |s|
    ensures multiset(s[..k] + [v] + s[k..]) == multiset(s) + multiset{v}
  {
    assert s == s[..k] + s[k..];
  }

  lemma InsertedSorted(s: seq<int>, k: nat, v: int)
    requires Sorted(s) && k <= |s|
    requires forall i :: k <= i < |s| ==> v < s[i]
    requires k > 0 ==> s[k - 1] <= v
    ensures Sorted(s[..k] + [v] + s[k..])
  {
    var t := s[..k] + [v] + s[k..];
    forall i, j | 0 <= i < j < |t| ensures t[i] <= t[j] {
      if i < k {
        assert t[i] == s[i] && s[i] <= s[k - 1];
      }
    }
  }
}

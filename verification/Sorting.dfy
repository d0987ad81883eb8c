/** Sorting a sequence by a total preorder, as `sort_by` and `sort_unstable_by_key` do. */
module Sorting {

  ghost predicate TotalPreorder<T(!new)>(le: (T, T) -> bool) {
    && (forall a, b :: le(a, b) || le(b, a))
    && (forall a, b, c :: le(a, b) && le(b, c) ==> le(a, c))
  }

  ghost predicate SortedBy<T>(s: seq<T>, le: (T, T) -> bool) {
    forall i, j :: 0 <= i < j < |s| ==> le(s[i], s[j])
  }

  method Insert<T(!new)>(s: seq<T>, x: T, le: (T, T) -> bool) returns (r: seq<T>)
    requires TotalPreorder(le) && SortedBy(s, le)
    ensures SortedBy(r, le)
    ensures multiset(r) == multiset(s) + multiset{x}
  {
    var k := |s|;
    while k > 0 && !le(s[k - 1], x)
      invariant 0 <= k <= |s|
      invariant forall j :: k <= j < |s| ==> le(x, s[j])
    {
      k := k - 1;
    }
    hide SortedBy, TotalPreorder;
    r := s[..k] + [x] + s[k..];
    PlacedInOrder(s, x, k, r, le);
    assert s == s[..k] + s[k..];
  }

  lemma PlacedInOrder<T(!new)>(s: seq<T>, x: T, k: nat, r: seq<T>, le: (T, T) -> bool)
    requires TotalPreorder(le) && SortedBy(s, le) && k <= |s| && r == s[..k] + [x] + s[k..]
    requires k > 0 ==> le(s[k - 1], x)
    requires forall j :: k <= j < |s| ==> le(x, s[j])
    ensures SortedBy(r, le)
  {
    forall i | 0 <= i < k ensures le(s[i], x) {
      assert i < k - 1 ==> le(s[i], s[k - 1]);
    }
    forall i, j | 0 <= i < j < |r| ensures le(r[i], r[j]) {
      if i < k && j > k {
        assert le(s[i], s[j - 1]);
      } else if i > k {
        assert le(s[i - 1], s[j - 1]);
      }
    }
  }

  method Sort<T(!new)>(s: seq<T>, le: (T, T) -> bool) returns (r: seq<T>)
    requires TotalPreorder(le)
    ensures SortedBy(r, le)
    ensures multiset(r) == multiset(s)
  {
    r := [];
    for n := 0 to |s|
      invariant SortedBy(r, le)
      invariant multiset(r) == multiset(s[..n])
    {
      r := Insert(r, s[n], le);
      assert s[..n + 1] == s[..n] + [s[n]];
    }
    assert s[..|s|] == s;
  }
}

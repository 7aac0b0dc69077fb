/** Sizes of finite sets. */
module Sets {
  lemma SubsetSize<T>(a: set<T>, b: set<T>)
    requires a <= b
    ensures |a| <= |b|
    ensures |a| == |b| ==> a == b
  {
    assert b == a + (b - a);
  }

  /** The numbers below n. */
  ghost function Below(n: nat): (b: set<nat>)
    ensures |b| == n && forall s: nat :: s in b <==> s < n
  {
    if n == 0 then {} else Below(n - 1) + {n - 1}
  }

  ghost function Elements(list: seq<nat>): (e: set<nat>)
    ensures forall s :: s in e <==> s in list
  {
    if list == [] then {} else Elements(list[..|list| - 1]) + {list[|list| - 1]}
  }

  ghost predicate Distinct(c: seq<nat>) { forall i, j | 0 <= i < j < |c| :: c[i] != c[j] }

  lemma {:induction false} DistinctCount(list: seq<nat>)
    requires Distinct(list)
    ensures |Elements(list)| == |list|
  {
    if list != [] {
      var n := |list| - 1;
      hide Elements;
      DistinctCount(list[..n]);
      LastElement(list);
      assert list[n] !in list[..n];
    }
  }

  lemma LastElement(list: seq<nat>)
    requires list != []
    ensures Elements(list) == Elements(list[..|list| - 1]) + {list[|list| - 1]}
  {
  }
}

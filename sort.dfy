/**
 * The ordering of the filtered list: `filtered.sort(cmp)` with the view's
 * comparator, which compares one numeric key and multiplies by the sort
 * direction. The date key comes from parsing `funded_date`, which is outside
 * this model; it is supplied as a function from the date text to a number.
 */
module Sort {
  import opened ProjectModel

  /** The value the comparator compares for the selected field. */
  function Key(p: Project, field: SortField, dateKey: string -> int): int
  {
    match field
    case Amount => p.amountRaised
    case Date => dateKey(p.fundedDate)
    case Backers => p.backers
  }

  /** `(aVal > bVal ? 1 : -1) * sortDirection`. */
  function Compare(a: Project, b: Project, field: SortField, dir: Direction, dateKey: string -> int): int
  {
    (if Key(a, field, dateKey) > Key(b, field, dateKey) then 1 else -1) * dir
  }

  /** The key as seen through the direction: ascending in it is the sorted order. */
  function Weight(p: Project, field: SortField, dir: Direction, dateKey: string -> int): int
  {
    dir * Key(p, field, dateKey)
  }

  /** Keys non-decreasing for direction 1 and non-increasing for direction -1. */
  predicate KeyOrdered(s: seq<Project>, field: SortField, dir: Direction, dateKey: string -> int)
  {
    forall i, j :: 0 <= i < j < |s| ==>
      Weight(s[i], field, dir, dateKey) <= Weight(s[j], field, dir, dateKey)
  }

  /**
   * The comparator never answers 0. It is antisymmetric on different keys,
   * but on equal keys it answers `-dir` both ways round, so the order of
   * projects with equal keys is left to the sort algorithm. A positive answer
   * puts `a` after `b`, and it never does so for `a` strictly before `b` in
   * the direction's order.
   */
  lemma CompareLaws(a: Project, b: Project, field: SortField, dir: Direction, dateKey: string -> int)
    ensures Compare(a, b, field, dir, dateKey) == 1 || Compare(a, b, field, dir, dateKey) == -1
    ensures Key(a, field, dateKey) != Key(b, field, dateKey) ==>
      Compare(a, b, field, dir, dateKey) == -Compare(b, a, field, dir, dateKey)
    ensures Key(a, field, dateKey) == Key(b, field, dateKey) ==>
      Compare(a, b, field, dir, dateKey) == -(dir as int) && Compare(b, a, field, dir, dateKey) == -(dir as int)
    ensures Compare(a, b, field, dir, dateKey) > 0 ==>
      Weight(a, field, dir, dateKey) >= Weight(b, field, dir, dateKey)
    ensures Compare(a, b, field, dir, dateKey) < 0 ==>
      Weight(a, field, dir, dateKey) <= Weight(b, field, dir, dateKey)
  {
  }

  /**
   * The state of one insertion: `s[..i + 1]` is ordered except at position
   * `j`, where the element being inserted stands below everything after it.
   */
  predicate Inserting(s: seq<Project>, i: int, j: int, field: SortField, dir: Direction, dateKey: string -> int)
    requires 0 <= j <= i < |s|
  {
    && (forall k, l :: 0 <= k < l <= i && k != j && l != j ==>
          Weight(s[k], field, dir, dateKey) <= Weight(s[l], field, dir, dateKey))
    && (forall l :: j < l <= i ==>
          Weight(s[j], field, dir, dateKey) <= Weight(s[l], field, dir, dateKey))
  }

  lemma StartInserting(s: seq<Project>, i: int, field: SortField, dir: Direction, dateKey: string -> int)
    requires 0 <= i < |s| && KeyOrdered(s[..i], field, dir, dateKey)
    ensures Inserting(s, i, i, field, dir, dateKey)
  {
    forall k, l | 0 <= k < l < i
      ensures Weight(s[k], field, dir, dateKey) <= Weight(s[l], field, dir, dateKey)
    {
      assert s[..i][k] == s[k] && s[..i][l] == s[l];
    }
  }

  /** Swapping the inserted element with a predecessor the comparator puts after it. */
  lemma SwapStep(s: seq<Project>, i: int, j: int, field: SortField, dir: Direction, dateKey: string -> int)
    requires 0 < j <= i < |s| && Inserting(s, i, j, field, dir, dateKey)
    requires Compare(s[j - 1], s[j], field, dir, dateKey) > 0
    ensures Inserting(s[j - 1 := s[j]][j := s[j - 1]], i, j - 1, field, dir, dateKey)
  {
    CompareLaws(s[j - 1], s[j], field, dir, dateKey);
  }

  /** The insertion stops at the front or behind a predecessor that may stay before it. */
  lemma FinishInserting(s: seq<Project>, i: int, j: int, field: SortField, dir: Direction, dateKey: string -> int)
    requires 0 <= j <= i < |s| && Inserting(s, i, j, field, dir, dateKey)
    requires j == 0 || Compare(s[j - 1], s[j], field, dir, dateKey) <= 0
    ensures KeyOrdered(s[..i + 1], field, dir, dateKey)
  {
    if j > 0 {
      CompareLaws(s[j - 1], s[j], field, dir, dateKey);
    }
    forall k, l | 0 <= k < l <= i
      ensures Weight(s[k], field, dir, dateKey) <= Weight(s[l], field, dir, dateKey)
    {
      if l == j && k < j - 1 {
        assert Weight(s[k], field, dir, dateKey) <= Weight(s[j - 1], field, dir, dateKey);
      }
    }
  }

  /** Swapping two neighbours keeps the same elements. */
  lemma SwapPermutes(s: seq<Project>, j: int)
    requires 0 < j < |s|
    ensures multiset(s[j - 1 := s[j]][j := s[j - 1]]) == multiset(s)
  {
  }

  /**
   * Sorts `a` in place with the view's comparator, moving each element left
   * past the elements the comparator puts after it. The result is a
   * permutation of the input ordered by key in the chosen direction.
   */
  method SortInPlace(a: array<Project>, field: SortField, dir: Direction, dateKey: string -> int)
    modifies a
    ensures multiset(a[..]) == multiset(old(a[..]))
    ensures KeyOrdered(a[..], field, dir, dateKey)
  {
    if a.Length == 0 {
      return;
    }
    var i := 1;
    while i < a.Length
      invariant 1 <= i <= a.Length
      invariant multiset(a[..]) == multiset(old(a[..]))
      invariant KeyOrdered(a[..i], field, dir, dateKey)
    {
      StartInserting(a[..], i, field, dir, dateKey);
      var j := i;
      while j > 0 && Compare(a[j - 1], a[j], field, dir, dateKey) > 0
        invariant 0 <= j <= i
        invariant multiset(a[..]) == multiset(old(a[..]))
        invariant Inserting(a[..], i, j, field, dir, dateKey)
      {
        ghost var s := a[..];
        SwapStep(s, i, j, field, dir, dateKey);
        SwapPermutes(s, j);
        a[j - 1], a[j] := a[j], a[j - 1];
        assert a[..] == s[j - 1 := s[j]][j := s[j - 1]];
        j := j - 1;
      }
      FinishInserting(a[..], i, j, field, dir, dateKey);
      i := i + 1;
    }
    assert a[..] == a[..a.Length];
  }

  /** No two projects of the list share a sort key. */
  predicate DistinctKeys(s: seq<Project>, field: SortField, dateKey: string -> int)
  {
    forall i, j :: 0 <= i < j < |s| ==> Key(s[i], field, dateKey) != Key(s[j], field, dateKey)
  }

  /** In an ordered list the last project has the largest weight. */
  lemma LastIsLargest(s: seq<Project>, k: int, field: SortField, dir: Direction, dateKey: string -> int)
    requires KeyOrdered(s, field, dir, dateKey) && 0 <= k < |s|
    ensures Weight(s[k], field, dir, dateKey) <= Weight(s[|s| - 1], field, dir, dateKey)
  {
  }

  /** Two ordered permutations without shared keys end with the same project. */
  lemma SameLast(r1: seq<Project>, r2: seq<Project>, field: SortField, dir: Direction, dateKey: string -> int)
    requires multiset(r1) == multiset(r2) && |r1| == |r2| > 0
    requires KeyOrdered(r1, field, dir, dateKey) && KeyOrdered(r2, field, dir, dateKey)
    requires DistinctKeys(r1, field, dateKey)
    ensures r1[|r1| - 1] == r2[|r2| - 1]
  {
    var n := |r1|;
    var x := r1[n - 1];
    var y := r2[n - 1];
    assert y in multiset(r1) && x in multiset(r2);
    var k :| 0 <= k < n && r1[k] == y;
    var m :| 0 <= m < n && r2[m] == x;
    LastIsLargest(r1, k, field, dir, dateKey);
    LastIsLargest(r2, m, field, dir, dateKey);
    assert dir == 1 || dir == -1;
    assert Key(y, field, dateKey) == Key(x, field, dateKey);
    assert k == n - 1;
  }

  /** Removing the same last element from two permutations leaves permutations. */
  lemma DropLastPermutes(r1: seq<Project>, r2: seq<Project>)
    requires multiset(r1) == multiset(r2) && |r1| > 0 && |r2| > 0 && r1[|r1| - 1] == r2[|r2| - 1]
    ensures multiset(r1[..|r1| - 1]) == multiset(r2[..|r2| - 1])
  {
    var x := r1[|r1| - 1];
    var i1 := r1[..|r1| - 1];
    var i2 := r2[..|r2| - 1];
    assert r1 == i1 + [x] && r2 == i2 + [x];
    forall z
      ensures multiset(i1)[z] == multiset(i2)[z]
    {
      assert (multiset(i1) + multiset{x})[z] == (multiset(i2) + multiset{x})[z];
    }
  }

  /**
   * When no two projects share a key, the order is determined: any two
   * ordered permutations of the same projects are the same list.
   */
  lemma {:induction false} OrderDeterminedByDistinctKeys(r1: seq<Project>, r2: seq<Project>,
      field: SortField, dir: Direction, dateKey: string -> int)
    requires multiset(r1) == multiset(r2)
    requires KeyOrdered(r1, field, dir, dateKey) && KeyOrdered(r2, field, dir, dateKey)
    requires DistinctKeys(r1, field, dateKey)
    ensures r1 == r2
    decreases |r1|
  {
    assert |r1| == |multiset(r1)| == |multiset(r2)| == |r2|;
    if r1 != [] {
      var n := |r1|;
      SameLast(r1, r2, field, dir, dateKey);
      DropLastPermutes(r1, r2);
      var i1 := r1[..n - 1];
      var i2 := r2[..n - 1];
      assert KeyOrdered(i1, field, dir, dateKey) && KeyOrdered(i2, field, dir, dateKey);
      assert DistinctKeys(i1, field, dateKey);
      OrderDeterminedByDistinctKeys(i1, i2, field, dir, dateKey);
      assert r1 == i1 + [r1[n - 1]] && r2 == i2 + [r2[n - 1]];
    }
  }

  function Reverse(s: seq<Project>): (r: seq<Project>)
    ensures |r| == |s| && forall i :: 0 <= i < |s| ==> r[i] == s[|s| - 1 - i]
    decreases |s|
  {
    if s == [] then [] else Reverse(s[1..]) + [s[0]]
  }

  lemma {:induction false} ReversePermutes(s: seq<Project>)
    ensures multiset(Reverse(s)) == multiset(s)
    decreases |s|
  {
    if s != [] {
      ReversePermutes(s[1..]);
      assert s == [s[0]] + s[1..];
    }
  }

  /**
   * When no two projects share a key, the descending order is exactly the
   * ascending order reversed.
   */
  lemma DescendingIsReversedAscending(up: seq<Project>, down: seq<Project>,
      field: SortField, dateKey: string -> int)
    requires multiset(up) == multiset(down)
    requires KeyOrdered(up, field, 1, dateKey) && KeyOrdered(down, field, -1, dateKey)
    requires DistinctKeys(up, field, dateKey)
    ensures down == Reverse(up)
  {
    var r := Reverse(up);
    ReversePermutes(up);
    assert KeyOrdered(r, field, -1, dateKey) by {
      forall i, j | 0 <= i < j < |r|
        ensures Weight(r[i], field, -1, dateKey) <= Weight(r[j], field, -1, dateKey)
      {
        assert Weight(up[|up| - 1 - j], field, 1, dateKey) <= Weight(up[|up| - 1 - i], field, 1, dateKey);
      }
    }
    assert DistinctKeys(r, field, dateKey) by {
      forall i, j | 0 <= i < j < |r|
        ensures Key(r[i], field, dateKey) != Key(r[j], field, dateKey)
      {
        assert r[i] == up[|up| - 1 - i] && r[j] == up[|up| - 1 - j];
      }
    }
    OrderDeterminedByDistinctKeys(r, down, field, -1, dateKey);
  }
}

/**
 * The options of the two filter drop-downs: the distinct categories and the
 * distinct failure tags of all projects, each list built as
 * `[...new Set(values)].sort()`.
 */
module Facets {
  import opened Text
  import opened ProjectModel

  /** No value occurs twice. */
  ghost predicate NoDuplicates(s: seq<string>)
  {
    forall x :: multiset(s)[x] <= 1
  }

  /** Non-decreasing in the default string order. */
  predicate Sorted(s: seq<string>)
  {
    forall i, j :: 0 <= i < j < |s| ==> StrLeq(s[i], s[j])
  }

  /** Strictly increasing in the default string order. */
  predicate StrictlyAscending(s: seq<string>)
  {
    forall i, j :: 0 <= i < j < |s| ==> StrLess(s[i], s[j])
  }

  /**
   * `[...new Set(xs)]`: the first occurrence of each value, in order of
   * first appearance.
   */
  function Dedup(xs: seq<string>): (r: seq<string>)
    ensures NoDuplicates(r)
    ensures forall x :: x in r <==> x in xs
    decreases |xs|
  {
    if xs == [] then []
    else
      var d := Dedup(xs[..|xs| - 1]);
      var x := xs[|xs| - 1];
      assert xs == xs[..|xs| - 1] + [x];
      if x in d then d else d + [x]
  }

  /** Insertion of one value into a sorted list, before the first value not below it. */
  function Insert(x: string, s: seq<string>): seq<string>
    decreases |s|
  {
    if s == [] || StrLeq(x, s[0]) then [x] + s else [s[0]] + Insert(x, s[1..])
  }

  /** `Array.prototype.sort()` without a comparator, on strings. */
  function SortStrings(xs: seq<string>): seq<string>
    decreases |xs|
  {
    if xs == [] then [] else Insert(xs[0], SortStrings(xs[1..]))
  }

  /** Every value of a sorted list is at least its head. */
  lemma SortedHeadLeast(s: seq<string>, y: string)
    requires Sorted(s) && y in s
    ensures StrLeq(s[0], y)
  {
    var k :| 0 <= k < |s| && s[k] == y;
    if k == 0 {
      StrLessIrreflexive(y);
    }
  }

  /** A value not above the head of a sorted list may go in front of it. */
  lemma PrependSorted(x: string, s: seq<string>)
    requires Sorted(s) && s != [] && StrLeq(x, s[0])
    ensures Sorted([x] + s)
  {
    var r := [x] + s;
    forall i, j | 0 <= i < j < |r|
      ensures StrLeq(r[i], r[j])
    {
      if i == 0 {
        SortedHeadLeast(s, r[j]);
        StrLeqTransitive(x, s[0], r[j]);
      } else {
        assert r[i] == s[i - 1] && r[j] == s[j - 1];
      }
    }
  }

  lemma {:induction false} InsertSorted(x: string, s: seq<string>)
    requires Sorted(s)
    ensures Sorted(Insert(x, s))
    ensures multiset(Insert(x, s)) == multiset(s) + multiset{x}
    decreases |s|
  {
    if s == [] {
    } else if StrLeq(x, s[0]) {
      PrependSorted(x, s);
      assert s == [s[0]] + s[1..];
    } else {
      InsertSorted(x, s[1..]);
      InsertBelowHead(x, s);
    }
  }

  lemma InsertBelowHead(x: string, s: seq<string>)
    requires Sorted(s) && s != [] && !StrLeq(x, s[0])
    requires Sorted(Insert(x, s[1..]))
    requires multiset(Insert(x, s[1..])) == multiset(s[1..]) + multiset{x}
    ensures Sorted(Insert(x, s))
    ensures multiset(Insert(x, s)) == multiset(s) + multiset{x}
  {
    StrLessAsymmetric(s[0], x);
    var t := Insert(x, s[1..]);
    assert s == [s[0]] + s[1..];
    if t != [] {
      assert StrLeq(s[0], t[0]) by {
        assert t[0] in multiset(t);
        if t[0] != x {
          assert t[0] in s[1..];
          var k :| 0 <= k < |s[1..]| && s[1..][k] == t[0];
          assert s[k + 1] == t[0];
        }
      }
      PrependSorted(s[0], t);
    }
  }

  /** The sort yields a sorted permutation of its input. */
  lemma {:induction false} SortStringsSorted(xs: seq<string>)
    ensures Sorted(SortStrings(xs))
    ensures multiset(SortStrings(xs)) == multiset(xs)
    decreases |xs|
  {
    if xs != [] {
      SortStringsSorted(xs[1..]);
      InsertSorted(xs[0], SortStrings(xs[1..]));
      assert xs == [xs[0]] + xs[1..];
    }
  }

  /** A value twice in a list is counted twice. */
  lemma RepeatCounted(s: seq<string>, i: int, j: int)
    requires 0 <= i < j < |s| && s[i] == s[j]
    ensures multiset(s)[s[i]] >= 2
  {
    assert s == s[..j] + s[j..];
    assert s[i] in s[..j];
    assert s[j] == s[j..][0];
  }

  /** A sorted list without duplicates is strictly ascending. */
  lemma SortedDistinctAscending(s: seq<string>)
    requires Sorted(s) && NoDuplicates(s)
    ensures StrictlyAscending(s)
  {
    forall i, j | 0 <= i < j < |s|
      ensures StrLess(s[i], s[j])
    {
      if s[i] == s[j] {
        RepeatCounted(s, i, j);
      } else {
        StrLeqDistinct(s[i], s[j]);
      }
    }
  }

  /** `[...new Set(xs)].sort()`. */
  function DistinctSorted(xs: seq<string>): seq<string>
  {
    SortStrings(Dedup(xs))
  }

  /**
   * The option list is strictly ascending, so it has no duplicates, and it
   * holds exactly the values of the input.
   */
  lemma DistinctSortedShape(xs: seq<string>)
    ensures StrictlyAscending(DistinctSorted(xs))
    ensures forall x :: x in DistinctSorted(xs) <==> x in xs
  {
    var d := Dedup(xs);
    SortStringsSorted(d);
    var r := SortStrings(d);
    assert NoDuplicates(r) by {
      forall x
        ensures multiset(r)[x] <= 1
      {
        assert multiset(r)[x] == multiset(d)[x];
      }
    }
    SortedDistinctAscending(r);
    forall x
      ensures x in r <==> x in xs
    {
      assert x in r <==> x in multiset(r);
      assert x in d <==> x in multiset(d);
    }
  }

  /** The head of a strictly ascending list comes first among its values. */
  lemma HeadLeast(a: seq<string>, x: string)
    requires StrictlyAscending(a) && x in a
    ensures StrLeq(a[0], x)
  {
    var k :| 0 <= k < |a| && a[k] == x;
    if k > 0 {
      StrLessAsymmetric(a[0], a[k]);
    } else {
      StrLessIrreflexive(x);
    }
  }

  /** A value of the tail of a strictly ascending list differs from its head. */
  lemma TailAboveHead(a: seq<string>, x: string)
    requires StrictlyAscending(a) && |a| > 0 && x in a[1..]
    ensures x != a[0] && x in a
  {
    var k :| 1 <= k < |a| && a[k] == x;
    assert StrLess(a[0], a[k]);
    StrLessIrreflexive(x);
  }

  /** Two strictly ascending lists with the same values are the same list. */
  lemma {:induction false} AscendingUnique(a: seq<string>, b: seq<string>)
    requires StrictlyAscending(a) && StrictlyAscending(b)
    requires forall x :: x in a <==> x in b
    ensures a == b
    decreases |a|
  {
    if a != [] {
      assert a[0] in b;
    }
    if b != [] {
      assert b[0] in a;
    }
    if a != [] {
      HeadLeast(a, b[0]);
      HeadLeast(b, a[0]);
      StrLessTrichotomy(a[0], b[0]);
      forall x
        ensures x in a[1..] <==> x in b[1..]
      {
        if x in a[1..] {
          TailAboveHead(a, x);
          var j :| 0 <= j < |b| && b[j] == x;
          assert b[1..][j - 1] == x;
        }
        if x in b[1..] {
          TailAboveHead(b, x);
          var j :| 0 <= j < |a| && a[j] == x;
          assert a[1..][j - 1] == x;
        }
      }
      AscendingUnique(a[1..], b[1..]);
      assert a == [a[0]] + a[1..] && b == [b[0]] + b[1..];
    }
  }

  /** The option list depends only on the set of values, not on their order or repetition. */
  lemma DistinctSortedBySet(xs: seq<string>, ys: seq<string>)
    requires forall x :: x in xs <==> x in ys
    ensures DistinctSorted(xs) == DistinctSorted(ys)
  {
    DistinctSortedShape(xs);
    DistinctSortedShape(ys);
    AscendingUnique(DistinctSorted(xs), DistinctSorted(ys));
  }

  /** `projects.map((p) => p.category)`. */
  function CategoryValues(ps: seq<Project>): (r: seq<string>)
    ensures |r| == |ps| && forall i :: 0 <= i < |ps| ==> r[i] == ps[i].category
    ensures forall c :: c in r <==> exists p :: p in ps && p.category == c
  {
    var r := seq(|ps|, i requires 0 <= i < |ps| => ps[i].category);
    assert forall c :: c in r <==> exists p :: p in ps && p.category == c by {
      forall c | exists p :: p in ps && p.category == c
        ensures c in r
      {
        var p :| p in ps && p.category == c;
        var i :| 0 <= i < |ps| && ps[i] == p;
        assert r[i] == c;
      }
    }
    r
  }

  /** `projects.flatMap((p) => p.tags || [])`. */
  function TagValues(ps: seq<Project>): seq<string>
    decreases |ps|
  {
    if ps == [] then [] else TagValues(ps[..|ps| - 1]) + TagsOf(ps[|ps| - 1])
  }

  /** The category options. */
  function Categories(ps: seq<Project>): seq<string>
  {
    DistinctSorted(CategoryValues(ps))
  }

  /** The tag options. */
  function AllTags(ps: seq<Project>): seq<string>
  {
    DistinctSorted(TagValues(ps))
  }

  /** A tag is among the flattened tags exactly when some project carries it. */
  lemma {:induction false} TagValuesMembers(ps: seq<Project>, t: string)
    ensures t in TagValues(ps) <==> exists p :: p in ps && t in TagsOf(p)
    decreases |ps|
  {
    if ps != [] {
      var init := ps[..|ps| - 1];
      var last := ps[|ps| - 1];
      TagValuesMembers(init, t);
      assert ps == init + [last];
      if exists p :: p in ps && t in TagsOf(p) {
        var p :| p in ps && t in TagsOf(p);
        if p != last {
          assert p in init;
        }
      }
    }
  }

  /**
   * The category options are strictly ascending (hence without duplicates)
   * and name exactly the categories of the projects.
   */
  lemma CategoriesShape(ps: seq<Project>)
    ensures StrictlyAscending(Categories(ps))
    ensures forall c :: c in Categories(ps) <==> exists p :: p in ps && p.category == c
  {
    DistinctSortedShape(CategoryValues(ps));
  }

  /**
   * The tag options are strictly ascending and name exactly the tags carried
   * by some project; a project without tags contributes none.
   */
  lemma AllTagsShape(ps: seq<Project>)
    ensures StrictlyAscending(AllTags(ps))
    ensures forall t :: t in AllTags(ps) <==> exists p :: p in ps && t in TagsOf(p)
  {
    DistinctSortedShape(TagValues(ps));
    forall t
      ensures t in TagValues(ps) <==> exists p :: p in ps && t in TagsOf(p)
    {
      TagValuesMembers(ps, t);
    }
  }

  /** Reordering or repeating the projects does not change the options. */
  lemma FacetsIgnoreOrder(ps: seq<Project>, qs: seq<Project>)
    requires forall p :: p in ps <==> p in qs
    ensures Categories(ps) == Categories(qs)
    ensures AllTags(ps) == AllTags(qs)
  {
    CategoriesShape(ps);
    CategoriesShape(qs);
    AscendingUnique(Categories(ps), Categories(qs));
    AllTagsShape(ps);
    AllTagsShape(qs);
    AscendingUnique(AllTags(ps), AllTags(qs));
  }

  /** A project with its tags missing adds no tag option. */
  lemma UntaggedAddsNoTag(ps: seq<Project>, p: Project)
    requires p.tags.None?
    ensures AllTags(ps + [p]) == AllTags(ps)
  {
    assert (ps + [p])[..|ps + [p]| - 1] == ps;
    assert TagValues(ps + [p]) == TagValues(ps) + [];
    assert TagValues(ps) + [] == TagValues(ps);
  }
}

/**
 * The three headline figures of the graveyard: the number of failed
 * projects, the total amount they raised and the total number of backers,
 * each a `reduce` over the full, unfiltered list.
 */
module Stats {
  import opened ProjectModel

  datatype Stats = Stats(totalProjects: nat, totalLost: int, totalBackers: int)

  /** The figure a sum adds up. */
  datatype Measure = AmountRaised | BackerCount

  function MeasureOf(p: Project, m: Measure): int
  {
    match m
    case AmountRaised => p.amountRaised
    case BackerCount => p.backers
  }

  /** `projects.reduce((sum, p) => sum + <measure of p>, 0)`, folding from the left. */
  function Total(ps: seq<Project>, m: Measure): int
    decreases |ps|
  {
    if ps == [] then 0 else Total(ps[..|ps| - 1], m) + MeasureOf(ps[|ps| - 1], m)
  }

  /** The `stats` memo. */
  function ComputeStats(ps: seq<Project>): Stats
  {
    Stats(|ps|, Total(ps, AmountRaised), Total(ps, BackerCount))
  }

  /** Summing distributes over concatenation. */
  lemma {:induction false} TotalAppend(ps: seq<Project>, qs: seq<Project>, m: Measure)
    ensures Total(ps + qs, m) == Total(ps, m) + Total(qs, m)
    decreases |qs|
  {
    if qs == [] {
      assert ps + qs == ps;
    } else {
      var init := qs[..|qs| - 1];
      assert (ps + qs)[..|ps + qs| - 1] == ps + init;
      TotalAppend(ps, init, m);
    }
  }

  /** Taking one project out of a list takes its measure out of the total. */
  lemma TotalRemove(qs: seq<Project>, k: int, m: Measure)
    requires 0 <= k < |qs|
    ensures Total(qs, m) == Total(qs[..k] + qs[k + 1..], m) + MeasureOf(qs[k], m)
  {
    assert qs == qs[..k] + [qs[k]] + qs[k + 1..];
    TotalAppend(qs[..k] + [qs[k]], qs[k + 1..], m);
    TotalAppend(qs[..k], [qs[k]], m);
    TotalAppend(qs[..k], qs[k + 1..], m);
    assert Total([qs[k]], m) == MeasureOf(qs[k], m) by {
      assert [qs[k]][..0] == [];
    }
  }

  /** Taking out the project at `k` takes one copy of it out of the multiset. */
  lemma MultisetRemove(qs: seq<Project>, k: int)
    requires 0 <= k < |qs|
    ensures multiset(qs) == multiset(qs[..k] + qs[k + 1..]) + multiset{qs[k]}
  {
    assert qs == qs[..k] + [qs[k]] + qs[k + 1..];
  }

  /** The total does not depend on the order of the projects. */
  lemma {:induction false} TotalPermutation(ps: seq<Project>, qs: seq<Project>, m: Measure)
    requires multiset(ps) == multiset(qs)
    ensures Total(ps, m) == Total(qs, m)
    decreases |ps|
  {
    if ps != [] {
      var init := ps[..|ps| - 1];
      var last := ps[|ps| - 1];
      assert ps == init + [last];
      assert last in multiset(qs);
      var k :| 0 <= k < |qs| && qs[k] == last;
      var rest := qs[..k] + qs[k + 1..];
      MultisetRemove(qs, k);
      assert multiset(init) == multiset(rest) by {
        forall y
          ensures multiset(init)[y] == multiset(rest)[y]
        {
          assert (multiset(init) + multiset{last})[y] == (multiset(rest) + multiset{last})[y];
        }
      }
      TotalPermutation(init, rest, m);
      TotalRemove(qs, k, m);
    } else {
      assert |qs| == |multiset(qs)|;
    }
  }

  /** An empty graveyard shows zero everywhere. */
  lemma StatsOfEmpty()
    ensures ComputeStats([]) == Stats(0, 0, 0)
  {
  }

  /**
   * Adding one project adds one to the count and its amount and backers to
   * the totals; reordering the projects changes nothing.
   */
  lemma StatsLaws(ps: seq<Project>, p: Project, qs: seq<Project>)
    requires multiset(ps) == multiset(qs)
    ensures ComputeStats(ps + [p]) ==
      Stats(|ps| + 1, ComputeStats(ps).totalLost + p.amountRaised,
            ComputeStats(ps).totalBackers + p.backers)
    ensures ComputeStats(ps) == ComputeStats(qs)
  {
    assert (ps + [p])[..|ps|] == ps;
    TotalPermutation(ps, qs, AmountRaised);
    TotalPermutation(ps, qs, BackerCount);
    assert |ps| == |multiset(ps)| == |multiset(qs)| == |qs|;
  }

  /** With no negative amounts or counts, no total is negative. */
  lemma {:induction false} TotalNonNegative(ps: seq<Project>, m: Measure)
    requires forall i :: 0 <= i < |ps| ==> MeasureOf(ps[i], m) >= 0
    ensures Total(ps, m) >= 0
    decreases |ps|
  {
    if ps != [] {
      TotalNonNegative(ps[..|ps| - 1], m);
    }
  }
}

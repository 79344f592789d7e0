/**
 * The filter of the graveyard view: a project is kept when the search term
 * occurs, ignoring case, in its name, failure reason or category, when it is
 * in the selected category, and when it carries the selected failure tag.
 * An empty selection accepts every project.
 */
module Filter {
  import opened Text
  import opened ProjectModel
  import Format

  /** Case-insensitive substring test on name, failure reason or category. */
  predicate MatchesSearch(p: Project, term: string)
  {
    var t := LowerString(term);
    Includes(LowerString(p.name), t)
      || Includes(LowerString(p.failureReason), t)
      || Includes(LowerString(p.category), t)
  }

  /** No category selected, or exactly the selected full category path. */
  predicate MatchesCategory(p: Project, category: string)
  {
    category == "" || p.category == category
  }

  /** No tag selected, or the project has a tag list that contains it. */
  predicate MatchesTag(p: Project, tag: string)
  {
    tag == "" || (p.tags.Some? && tag in p.tags.value)
  }

  predicate Matches(p: Project, term: string, category: string, tag: string)
  {
    MatchesSearch(p, term) && MatchesCategory(p, category) && MatchesTag(p, tag)
  }

  /** `xs` is `ys` with some elements left out, the rest in their order. */
  predicate IsSubsequence(xs: seq<Project>, ys: seq<Project>)
    decreases |ys|
  {
    if xs == [] then true
    else if ys == [] then false
    else if xs[|xs| - 1] == ys[|ys| - 1] then IsSubsequence(xs[..|xs| - 1], ys[..|ys| - 1])
    else IsSubsequence(xs, ys[..|ys| - 1])
  }

  /**
   * `projects.filter(...)`: the projects that match, in their original
   * order, each kept exactly as often as it occurs.
   */
  function FilterProjects(ps: seq<Project>, term: string, category: string, tag: string): (r: seq<Project>)
    ensures IsSubsequence(r, ps)
    ensures forall p :: multiset(r)[p] == if Matches(p, term, category, tag) then multiset(ps)[p] else 0
    decreases |ps|
  {
    if ps == [] then []
    else
      var init := ps[..|ps| - 1];
      var last := ps[|ps| - 1];
      assert ps == init + [last];
      var kept := FilterProjects(init, term, category, tag);
      if Matches(last, term, category, tag) then kept + [last] else kept
  }

  /** Every project kept matches, and every matching project is kept. */
  lemma FilterMembers(ps: seq<Project>, term: string, category: string, tag: string, p: Project)
    ensures p in FilterProjects(ps, term, category, tag) <==> p in ps && Matches(p, term, category, tag)
  {
    var r := FilterProjects(ps, term, category, tag);
    assert p in r <==> multiset(r)[p] > 0;
    assert p in ps <==> multiset(ps)[p] > 0;
  }

  /** The search test is exactly substring occurrence in one of the three fields. */
  lemma MatchesSearchIffOccurs(p: Project, term: string)
    ensures MatchesSearch(p, term) <==>
      var t := LowerString(term);
      (exists i :: OccursAt(LowerString(p.name), t, i))
        || (exists i :: OccursAt(LowerString(p.failureReason), t, i))
        || (exists i :: OccursAt(LowerString(p.category), t, i))
  {
    var t := LowerString(term);
    IncludesIffOccurs(LowerString(p.name), t);
    IncludesIffOccurs(LowerString(p.failureReason), t);
    IncludesIffOccurs(LowerString(p.category), t);
  }

  /** The search ignores the case of the term. */
  lemma SearchIgnoresTermCase(p: Project, term: string)
    ensures MatchesSearch(p, term) <==> MatchesSearch(p, LowerString(term))
  {
    LowerStringIdempotent(term);
  }

  /** With no search term, category or tag every project is kept, in order. */
  lemma {:induction false} EmptyFilterKeepsAll(ps: seq<Project>)
    ensures FilterProjects(ps, "", "", "") == ps
    decreases |ps|
  {
    if ps != [] {
      var last := ps[|ps| - 1];
      assert LowerString("") == "";
      IncludesEmpty(LowerString(last.name));
      assert Matches(last, "", "", "");
      EmptyFilterKeepsAll(ps[..|ps| - 1]);
      assert ps == ps[..|ps| - 1] + [last];
    }
  }

  /** A project whose tags are missing is dropped whenever a tag is selected. */
  lemma MissingTagsRejected(ps: seq<Project>, term: string, category: string, tag: string, p: Project)
    requires p.tags.None? && tag != ""
    ensures !Matches(p, term, category, tag)
    ensures p !in FilterProjects(ps, term, category, tag)
  {
    FilterMembers(ps, term, category, tag, p);
  }

  /**
   * The category test compares full paths: a project of `parent/leaf` is
   * not kept when `leaf`, the text its badge shows, is selected.
   */
  lemma CategoryIsFullPath(p: Project, parent: string, leaf: string)
    requires p.category == parent + "/" + leaf && '/' !in leaf
    ensures Format.LastSegment(p.category) == leaf
    ensures leaf != "" ==> !MatchesCategory(p, leaf)
  {
    Format.LastSegmentOfPath(parent, leaf);
    assert |p.category| > |leaf|;
  }

  /** Filtering twice with the same selection is filtering once. */
  lemma {:induction false} FilterIdempotent(ps: seq<Project>, term: string, category: string, tag: string)
    ensures FilterProjects(FilterProjects(ps, term, category, tag), term, category, tag)
      == FilterProjects(ps, term, category, tag)
    decreases |ps|
  {
    if ps != [] {
      var init := ps[..|ps| - 1];
      var last := ps[|ps| - 1];
      var kept := FilterProjects(init, term, category, tag);
      FilterIdempotent(init, term, category, tag);
      if Matches(last, term, category, tag) {
        assert (kept + [last])[..|kept + [last]| - 1] == kept;
      }
    }
  }
}

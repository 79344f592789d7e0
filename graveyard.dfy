/**
 * The graveyard view's state and what it derives from it: the loaded
 * projects, the three filter selections and the sort selection, the facet
 * and statistics memos, the sort toggle and the filtered, sorted list.
 */
module Graveyard {
  import opened ProjectModel
  import Facets
  import Stats
  import Filter
  import Sort

  /** The sort selection: the field and the direction of the sort buttons. */
  datatype SortState = SortState(field: SortField, dir: Direction)

  /** The view opens sorted by amount, largest first. */
  const InitialSort: SortState := SortState(Amount, -1)

  /**
   * `handleSort`: the button of the current field flips the direction,
   * another button selects its field, largest first.
   */
  function NextSort(s: SortState, field: SortField): (r: SortState)
    ensures r.field == field
  {
    if s.field == field then SortState(field, s.dir * -1) else SortState(field, -1)
  }

  /**
   * Pressing the current field's button reverses the order, and pressing it
   * again restores it; pressing another field's button starts it largest
   * first, and a second press turns it to smallest first.
   */
  lemma NextSortLaws(s: SortState, field: SortField)
    ensures s.field == field ==> NextSort(s, field).dir == -(s.dir as int)
    ensures s.field == field ==> NextSort(NextSort(s, field), field) == s
    ensures s.field != field ==> NextSort(s, field) == SortState(field, -1)
    ensures s.field != field ==> NextSort(NextSort(s, field), field) == SortState(field, 1)
  {
  }

  /** The state reached from the opening state by a sequence of button presses. */
  function PressAll(s: SortState, presses: seq<SortField>): SortState
    decreases |presses|
  {
    if presses == [] then s else PressAll(NextSort(s, presses[0]), presses[1..])
  }

  /** After at least one press the selected field is the last button pressed. */
  lemma {:induction false} PressAllLast(s: SortState, presses: seq<SortField>)
    requires presses != []
    ensures PressAll(s, presses).field == presses[|presses| - 1]
    decreases |presses|
  {
    if |presses| > 1 {
      PressAllLast(NextSort(s, presses[0]), presses[1..]);
    }
  }

  /**
   * Two projects raising 50000 and 1200000: the opening view lists the larger
   * first, and a second press of the amount button lists the smaller first.
   */
  lemma TwoProjectOrder(a: Project, b: Project, down: seq<Project>, up: seq<Project>, dateKey: string -> int)
    requires a.amountRaised == 50000 && b.amountRaised == 1200000
    ensures NextSort(InitialSort, Amount) == SortState(Amount, 1)
    ensures multiset(down) == multiset([a, b]) && Sort.KeyOrdered(down, Amount, -1, dateKey) ==> down == [b, a]
    ensures multiset(up) == multiset([a, b]) && Sort.KeyOrdered(up, Amount, 1, dateKey) ==> up == [a, b]
  {
    if multiset(down) == multiset([a, b]) && Sort.KeyOrdered(down, Amount, -1, dateKey) {
      Sort.OrderDeterminedByDistinctKeys([b, a], down, Amount, -1, dateKey);
    }
    if multiset(up) == multiset([a, b]) && Sort.KeyOrdered(up, Amount, 1, dateKey) {
      Sort.OrderDeterminedByDistinctKeys([a, b], up, Amount, 1, dateKey);
    }
  }

  /** The same two projects, with 200 and 50 backers, give 2 projects, 1250000 raised and 250 backers. */
  lemma TwoProjectStats(a: Project, b: Project)
    requires a.amountRaised == 50000 && a.backers == 200
    requires b.amountRaised == 1200000 && b.backers == 50
    ensures Stats.ComputeStats([a, b]) == Stats.Stats(2, 1250000, 250)
  {
    Stats.StatsOfEmpty();
    Stats.StatsLaws([], a, []);
    Stats.StatsLaws([a], b, [a]);
    assert [] + [a] == [a] && [a] + [b] == [a, b];
  }

  class GraveyardClient {
    var projects: seq<Project>
    var searchTerm: string
    var categoryFilter: string
    var tagFilter: string
    var currentSort: SortField
    var sortDirection: Direction
    /** The numeric value of a funding date, as `new Date(funded_date)` yields it. */
    const dateKey: string -> int

    /** The view before its data arrives: nothing loaded, no filter, amount descending. */
    constructor(dateKey: string -> int)
      ensures projects == [] && searchTerm == "" && categoryFilter == "" && tagFilter == ""
      ensures SortState(currentSort, sortDirection) == InitialSort
      ensures this.dateKey == dateKey
    {
      projects := [];
      searchTerm := "";
      categoryFilter := "";
      tagFilter := "";
      currentSort := Amount;
      sortDirection := -1;
      this.dateKey := dateKey;
    }

    /** `setProjects(data)` once the data has been fetched. */
    method LoadProjects(data: seq<Project>)
      modifies this
      ensures projects == data
      ensures searchTerm == old(searchTerm) && categoryFilter == old(categoryFilter) && tagFilter == old(tagFilter)
      ensures currentSort == old(currentSort) && sortDirection == old(sortDirection)
    {
      projects := data;
    }

    method SetSearchTerm(term: string)
      modifies this
      ensures searchTerm == term
      ensures projects == old(projects) && categoryFilter == old(categoryFilter) && tagFilter == old(tagFilter)
      ensures currentSort == old(currentSort) && sortDirection == old(sortDirection)
    {
      searchTerm := term;
    }

    method SetCategoryFilter(category: string)
      modifies this
      ensures categoryFilter == category
      ensures projects == old(projects) && searchTerm == old(searchTerm) && tagFilter == old(tagFilter)
      ensures currentSort == old(currentSort) && sortDirection == old(sortDirection)
    {
      categoryFilter := category;
    }

    method SetTagFilter(tag: string)
      modifies this
      ensures tagFilter == tag
      ensures projects == old(projects) && searchTerm == old(searchTerm) && categoryFilter == old(categoryFilter)
      ensures currentSort == old(currentSort) && sortDirection == old(sortDirection)
    {
      tagFilter := tag;
    }

    /** `handleSort(field)`: changes the sort selection and nothing else. */
    method HandleSort(field: SortField)
      modifies this
      ensures SortState(currentSort, sortDirection) == NextSort(old(SortState(currentSort, sortDirection)), field)
      ensures projects == old(projects) && searchTerm == old(searchTerm)
      ensures categoryFilter == old(categoryFilter) && tagFilter == old(tagFilter)
    {
      if currentSort == field {
        sortDirection := sortDirection * -1;
      } else {
        currentSort := field;
        sortDirection := -1;
      }
    }

    /** The `categories` memo. */
    function Categories(): seq<string>
      reads this
    {
      Facets.Categories(projects)
    }

    /** The `allTags` memo. */
    function AllTags(): seq<string>
      reads this
    {
      Facets.AllTags(projects)
    }

    /** The `stats` memo: over all loaded projects, whatever the filters. */
    function Statistics(): Stats.Stats
      reads this
    {
      Stats.ComputeStats(projects)
    }

    /**
     * The `filteredProjects` memo: the matching projects, each as often as
     * it was loaded, sorted in place by the selected key and direction.
     */
    method FilteredProjects() returns (r: seq<Project>)
      ensures forall p ::
        (multiset(r)[p] == if Filter.Matches(p, searchTerm, categoryFilter, tagFilter) then multiset(projects)[p] else 0)
      ensures Sort.KeyOrdered(r, currentSort, sortDirection, dateKey)
    {
      var filtered := Filter.FilterProjects(projects, searchTerm, categoryFilter, tagFilter);
      var a := new Project[|filtered|](i requires 0 <= i < |filtered| => filtered[i]);
      assert a[..] == filtered;
      Sort.SortInPlace(a, currentSort, sortDirection, dateKey);
      r := a[..];
    }
  }
}

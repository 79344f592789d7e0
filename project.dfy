/**
 * The project record of the failed-crowdfunding dataset and the sort
 * vocabulary of the graveyard view.
 */
module ProjectModel {

  datatype Option<+T> = None | Some(value: T)

  /**
   * One failed project as it arrives in the JSON dataset. `tags` is optional
   * because the view tolerates records that omit it; amounts and counts are
   * integers.
   */
  datatype Project = Project(
    name: string,
    kickstarterUrl: string,
    imageUrl: string,
    amountRaised: int,
    backers: int,
    goal: int,
    fundedDate: string,
    lastUpdate: string,
    category: string,
    failureReason: string,
    sources: seq<string>,
    tags: Option<seq<string>>)

  /** The three sort buttons: by amount raised, by funding date, by backers. */
  datatype SortField = Amount | Date | Backers

  /** A sort direction: 1 is ascending, -1 is descending. */
  type Direction = d: int | d == 1 || d == -1 witness -1

  /** The tags of a record, a missing list read as empty (`p.tags || []`). */
  function TagsOf(p: Project): seq<string>
  {
    match p.tags
    case Some(ts) => ts
    case None => []
  }
}

/** The records the API returns (shared/schema.ts). Timestamps are milliseconds since the
    epoch; the pages read them through optional chaining, so a missing one is `None`. */
module Content {
  import opened Wrappers

  datatype SitePage = SitePage(
    id: int,
    slug: string,
    title: string,
    summary: Option<string>,
    content: string,
    updatedAt: Option<int>)

  datatype Project = Project(
    id: int,
    slug: string,
    title: string,
    oneLiner: string,
    overview: string,
    architecture: Option<string>,
    technicalDecisions: Option<string>,
    techStack: Option<string>,
    links: Option<string>,
    lessonsLearned: Option<string>,
    updatedAt: Option<int>)

  datatype LabNote = LabNote(
    id: int,
    slug: string,
    title: string,
    date: Option<int>,
    content: string,
    updatedAt: Option<int>)

  /** `b.date?.getTime?.() ?? 0`: a note's sort key. */
  function DateKey(n: LabNote): int {
    n.date.GetOr(0)
  }

  /** `b.updatedAt?.getTime?.() ?? 0`: a project's sort key. */
  function UpdatedKey(p: Project): int {
    p.updatedAt.GetOr(0)
  }
}

/** The list computations of the home, lab-notes and projects pages
    (client/src/pages/Home.tsx, LabNotes.tsx and Projects.tsx). */
module Pages {
  import opened Wrappers
  import opened JsString
  import opened Seqs
  import opened Content
  import opened Ordering

  const SelectedCount := 6
  const LatestCount := 5

  // ---------------------------------------------------------------------------
  // Home.

  /** `(projects.data ?? []).slice(0, 6)`: the first projects in the order the API gave them. */
  function SelectedProjects(data: Option<seq<Project>>): (r: seq<Project>)
    ensures data.None? ==> r == []
    ensures |r| == Min(SelectedCount, |data.GetOr([])|)
    ensures forall i :: 0 <= i < |r| ==> r[i] == data.GetOr([])[i]
  {
    Take(data.GetOr([]), SelectedCount)
  }

  /** `(notes.data ?? []).slice().sort(by date, newest first).slice(0, 5)`. */
  function LatestNotes(data: Option<seq<LabNote>>): (r: seq<LabNote>)
    ensures data.None? ==> r == []
    ensures |r| == Min(LatestCount, |data.GetOr([])|)
    ensures SortedDesc(r, DateKey)
    ensures multiset(r) <= multiset(data.GetOr([]))
  {
    var sorted := SortDesc(data.GetOr([]), DateKey);
    TakeRest(sorted, LatestCount);
    SortedPrefix(sorted, DateKey, Min(LatestCount, |sorted|));
    Take(sorted, LatestCount)
  }

  /** A note that is not shown is no newer than any note that is. */
  lemma LeftOutNotesAreOlder(data: seq<LabNote>, left: LabNote, shown: LabNote)
    requires left in multiset(data) - multiset(LatestNotes(Some(data)))
    requires shown in LatestNotes(Some(data))
    ensures DateKey(left) <= DateKey(shown)
  {
    var sorted := SortDesc(data, DateKey);
    var r := LatestNotes(Some(data));
    var n := |r|;
    assert r == Take(sorted, LatestCount);
    TakeRest(sorted, LatestCount);
    assert left in multiset(sorted[n..]);
    PrefixHoldsLargest(sorted, DateKey, n, shown, left);
  }

  /** Among notes with the same date, the home page keeps the order the API gave them. */
  lemma LatestNotesStable(data: seq<LabNote>, k: int)
    ensures WithKey(LatestNotes(Some(data)), DateKey, k)
            == Take(WithKey(data, DateKey, k), |WithKey(LatestNotes(Some(data)), DateKey, k)|)
  {
    var sorted := SortDesc(data, DateKey);
    var r := LatestNotes(Some(data));
    assert r == Take(sorted, LatestCount);
    TakeRest(sorted, LatestCount);
    WithKeyAppend(r, sorted[|r|..], DateKey, k);
    SortStable(data, DateKey, k);
    var w := WithKey(r, DateKey, k);
    assert WithKey(data, DateKey, k)[..|w|] == w;
  }

  // ---------------------------------------------------------------------------
  // Lab notes and projects.

  /** `search.trim() ? search.trim() : undefined`: the term handed to the list query. */
  function SearchParam(input: string): (r: Option<string>)
    ensures r.None? <==> AllWhitespace(input)
    ensures r.Some? ==> r.value != [] && !IsWhitespace(r.value[0]) && !IsWhitespace(r.value[|r.value| - 1])
  {
    var t := Trim(input);
    if t != [] then Some(t) else None
  }

  /** The term is the input with only the whitespace around it removed. */
  lemma SearchParamInsideInput(input: string)
    requires SearchParam(input).Some?
    ensures var t := SearchParam(input).value;
            exists i :: 0 <= i <= |input| - |t| && input[i..i + |t|] == t
                        && AllWhitespace(input[..i]) && AllWhitespace(input[i + |t|..])
  {
    TrimSurround(input);
  }

  /** Typing more whitespace around the search term does not change the query. */
  lemma SearchParamIgnoresPadding(input: string)
    ensures SearchParam(Trim(input)) == SearchParam(input)
  {
    TrimIdempotent(input);
  }

  /** The lab-notes page: `(query.data ?? []).slice().sort(by date, newest first)`. */
  function NoteItems(data: Option<seq<LabNote>>): (r: seq<LabNote>)
    ensures data.None? ==> r == []
    ensures multiset(r) == multiset(data.GetOr([]))
    ensures SortedDesc(r, DateKey)
  {
    SortDesc(data.GetOr([]), DateKey)
  }

  /** The projects page in `recent` mode: sorted by `updatedAt`, most recent first. */
  function RecentItems(data: Option<seq<Project>>): (r: seq<Project>)
    ensures data.None? ==> r == []
    ensures multiset(r) == multiset(data.GetOr([]))
    ensures SortedDesc(r, UpdatedKey)
  {
    SortDesc(data.GetOr([]), UpdatedKey)
  }

  /** Entries with the same timestamp keep the order the API gave them on both pages. */
  lemma ItemsStable(notes: seq<LabNote>, projects: seq<Project>, k: int)
    ensures WithKey(NoteItems(Some(notes)), DateKey, k) == WithKey(notes, DateKey, k)
    ensures WithKey(RecentItems(Some(projects)), UpdatedKey, k) == WithKey(projects, UpdatedKey, k)
  {
    SortStable(notes, DateKey, k);
    SortStable(projects, UpdatedKey, k);
  }

  datatype SortMode = Recent | Title

  /** The updater `s => s === "recent" ? "title" : "recent"`. */
  function Toggle(m: SortMode): (r: SortMode)
    ensures r != m
  {
    if m == Recent then Title else Recent
  }

  lemma ToggleTwice(m: SortMode)
    ensures Toggle(Toggle(m)) == m
  {
  }

  /** The projects page's own state: the search box and the sort mode. */
  class ProjectsView {
    var search: string
    var sort: SortMode

    constructor ()
      ensures search == "" && sort == Recent
      ensures Query() == None
    {
      search := "";
      sort := Recent;
    }

    /** What the page asks the API for. */
    function Query(): (r: Option<string>)
      reads this
      ensures r.None? <==> AllWhitespace(search)
    {
      SearchParam(search)
    }

    /** The sort button. */
    method ToggleSort()
      modifies this
      ensures sort == Toggle(old(sort)) && search == old(search)
    {
      sort := if sort == Recent then Title else Recent;
    }
  }
}

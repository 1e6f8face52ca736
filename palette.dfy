/** The command palette: its three search filters, the keyboard shortcuts that open and close
    it, and selecting an entry (client/src/components/CommandPalette.tsx). */
module Palette {
  import opened Wrappers
  import opened JsString
  import opened Seqs
  import opened Content

  const BrowseCount := 8
  const MatchCount := 10

  /** `query.trim().toLowerCase()`. */
  function NormalizeQuery(query: string): (q: string)
    ensures q == [] <==> AllWhitespace(query)
  {
    ToLower(Trim(query))
  }

  /** What a project is searched by: title, one-liner and tech stack, joined by spaces. */
  function ProjectHaystack(p: Project): string {
    p.title + " " + p.oneLiner + " " + p.techStack.GetOr("")
  }

  /** What a lab note is searched by: title and content. */
  function NoteHaystack(n: LabNote): string {
    n.title + " " + n.content
  }

  /** What a page is searched by: title, summary and slug. */
  function PageHaystack(p: SitePage): string {
    p.title + " " + p.summary.GetOr("") + " " + p.slug
  }

  /** `haystack.toLowerCase().includes(q)`. */
  predicate Matches(haystack: string, q: string) {
    Contains(ToLower(haystack), q)
  }

  /** One of the three filters: nothing before the data has loaded; the first 8 items for a
      blank query; otherwise the first 10 items whose lower-cased haystack contains the query. */
  function FilterItems<T(!new)>(data: Option<seq<T>>, query: string, haystack: T -> string): (r: seq<T>)
    ensures data.None? ==> r == []
    ensures data.Some? && AllWhitespace(query) ==> r == Take(data.value, BrowseCount)
    ensures !AllWhitespace(query) ==> |r| <= MatchCount
    ensures !AllWhitespace(query) ==> forall x :: x in r ==> Matches(haystack(x), NormalizeQuery(query))
    ensures forall x :: x in r ==> x in data.GetOr([])
  {
    var q := NormalizeQuery(query);
    if data.None? then []
    else if q == [] then Take(data.value, BrowseCount)
    else
      var all := Filter(data.value, x => Matches(haystack(x), q));
      assert forall x :: x in all ==> Matches(haystack(x), q);
      Take(all, MatchCount)
  }

  /** A matching query keeps the items in their original order: the result is the start of
      the data's matching items, all of them when there are at most 10. */
  lemma MatchesInOrder<T(!new)>(data: seq<T>, query: string, haystack: T -> string)
    requires !AllWhitespace(query)
    ensures var all := Filter(data, x => Matches(haystack(x), NormalizeQuery(query)));
            var r := FilterItems(Some(data), query, haystack);
            |r| == Min(MatchCount, |all|) && r == all[..|r|]
    ensures var r := FilterItems(Some(data), query, haystack);
            |r| < MatchCount ==> forall x :: x in data && Matches(haystack(x), NormalizeQuery(query)) ==> x in r
  {
  }

  function FilteredProjects(data: Option<seq<Project>>, query: string): seq<Project> {
    FilterItems(data, query, ProjectHaystack)
  }

  function FilteredNotes(data: Option<seq<LabNote>>, query: string): seq<LabNote> {
    FilterItems(data, query, NoteHaystack)
  }

  function FilteredPages(data: Option<seq<SitePage>>, query: string): seq<SitePage> {
    FilterItems(data, query, PageHaystack)
  }

  /** The haystack is one string, so a query may run from the end of the title into the start
      of the one-liner. */
  lemma QuerySpansFields(p: Project, a: string, b: string)
    requires |a| <= |p.title| && p.title[|p.title| - |a|..] == a
    requires StartsWith(p.oneLiner, b)
    ensures Matches(ProjectHaystack(p), ToLower(a + " " + b))
  {
    var t := p.title[..|p.title| - |a|];
    var rest := p.oneLiner[|b|..] + " " + p.techStack.GetOr("");
    assert p.title == t + a;
    assert p.oneLiner == b + p.oneLiner[|b|..];
    assert ProjectHaystack(p) == t + (a + " " + b) + rest;
    ToLowerAppend(t + (a + " " + b), rest);
    ToLowerAppend(t, a + " " + b);
    var lo := ToLower(a + " " + b);
    assert ToLower(ProjectHaystack(p)) == ToLower(t) + lo + ToLower(rest);
    assert Contains(lo, lo) by {
      assert lo[0..|lo|] == lo;
      assert OccursAt(lo, lo, 0);
    }
    ContainsInContext(ToLower(t), lo, ToLower(rest), lo);
  }

  // ---------------------------------------------------------------------------
  // Keyboard shortcuts.

  /** The element a key event was aimed at. */
  datatype Target = Target(tagName: Option<string>, isContentEditable: bool)

  datatype KeyEvent = KeyEvent(key: string, metaKey: bool, ctrlKey: bool, target: Option<Target>)

  /** What the handler does: the new value it passes to `onOpenChange`, if it calls it, and
      whether it calls `preventDefault`. */
  datatype KeyEffect = KeyEffect(openChange: Option<bool>, preventDefault: bool)

  /** A `/` typed into an input, a text area or an editable element is left to that element. */
  predicate TypingTarget(target: Option<Target>) {
    target.Some? &&
    ((target.value.tagName.Some? && ToLower(target.value.tagName.value) in {"input", "textarea"})
     || target.value.isContentEditable)
  }

  /** The keydown handler, given whether the palette is open. */
  function OnKey(open: bool, e: KeyEvent): (r: KeyEffect)
    ensures r.openChange.Some? ==> e.key in {"k", "/", "Escape"}
    ensures r.preventDefault <==> r.openChange == Some(!open) && e.key != "Escape"
  {
    if (e.key == "k" && (e.metaKey || e.ctrlKey)) || e.key == "/" then
      if e.key == "/" && TypingTarget(e.target) then KeyEffect(None, false)
      else KeyEffect(Some(!open), true)
    else if e.key == "Escape" && open then KeyEffect(Some(false), false)
    else KeyEffect(None, false)
  }

  /** Cmd+K or Ctrl+K opens a closed palette and closes an open one. */
  lemma CommandKToggles(open: bool, e: KeyEvent)
    requires e.key == "k" && (e.metaKey || e.ctrlKey)
    ensures OnKey(open, e) == KeyEffect(Some(!open), true)
  {
  }

  /** `/` toggles too, unless it is typed into a field. */
  lemma SlashToggles(open: bool, e: KeyEvent)
    requires e.key == "/"
    ensures OnKey(open, e) == if TypingTarget(e.target) then KeyEffect(None, false) else KeyEffect(Some(!open), true)
  {
  }

  /** Escape closes an open palette and does nothing to a closed one. */
  lemma EscapeCloses(open: bool, e: KeyEvent)
    requires e.key == "Escape"
    ensures OnKey(open, e).openChange == if open then Some(false) else None
  {
  }

  /** Every other key leaves the palette alone; a plain `k` is one of them. */
  lemma OtherKeysIgnored(open: bool, e: KeyEvent)
    requires e.key !in {"/", "Escape"} && !(e.key == "k" && (e.metaKey || e.ctrlKey))
    ensures OnKey(open, e) == KeyEffect(None, false)
  {
  }

  // ---------------------------------------------------------------------------
  // The palette's state.

  /** Where selecting a page, a project or a note goes. */
  function PageHref(slug: string): string { "/p/" + slug }
  function ProjectHref(slug: string): string { "/projects/" + slug }
  function NoteHref(slug: string): string { "/lab-notes/" + slug }

  /** Different entries of one kind lead to different places, and the three kinds never share one. */
  lemma HrefsDistinct(a: string, b: string)
    ensures PageHref(a) == PageHref(b) ==> a == b
    ensures ProjectHref(a) == ProjectHref(b) ==> a == b
    ensures NoteHref(a) == NoteHref(b) ==> a == b
    ensures PageHref(a) != ProjectHref(b) && PageHref(a) != NoteHref(b) && ProjectHref(a) != NoteHref(b)
  {
    assert PageHref(a)[1] == 'p' && ProjectHref(b)[1] == 'p' && NoteHref(b)[1] == 'l';
    assert PageHref(a)[2] == '/' && ProjectHref(b)[2] == 'r';
    if PageHref(a) == PageHref(b) {
      assert a == PageHref(a)[3..] == PageHref(b)[3..] == b;
    }
    if ProjectHref(a) == ProjectHref(b) {
      assert a == ProjectHref(a)[10..] == ProjectHref(b)[10..] == b;
    }
    if NoteHref(a) == NoteHref(b) {
      assert a == NoteHref(a)[11..] == NoteHref(b)[11..] == b;
    }
  }

  /** The palette's open flag (held by the app and passed down), its query, and the location
      the app shows. */
  class CommandPalette {
    var open: bool
    var query: string
    var location: string

    constructor (location: string)
      ensures open == false && query == "" && this.location == location
    {
      this.open := false;
      this.query := "";
      this.location := location;
    }

    /** The keydown listener: `onOpenChange` sets the flag when the handler calls it. */
    method KeyDown(e: KeyEvent) returns (prevented: bool)
      modifies this
      ensures prevented == OnKey(old(open), e).preventDefault
      ensures open == OnKey(old(open), e).openChange.GetOr(old(open))
      ensures query == old(query) && location == old(location)
    {
      var effect := OnKey(open, e);
      if effect.openChange.Some? {
        open := effect.openChange.value;
      }
      prevented := effect.preventDefault;
    }

    /** `go(href)`: close the palette, clear the query, navigate. */
    method Go(href: string)
      modifies this
      ensures !open && query == "" && location == href
    {
      open := false;
      query := "";
      location := href;
    }
  }

  /** Pressing Cmd+K twice leaves the palette as it was. */
  lemma CommandKTwice(open: bool, e: KeyEvent)
    requires e.key == "k" && (e.metaKey || e.ctrlKey)
    ensures var once := OnKey(open, e).openChange.GetOr(open);
            OnKey(once, e).openChange.GetOr(once) == open
  {
  }
}

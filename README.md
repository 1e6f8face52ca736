# A verified model of the personal website's text and list logic

This project models, in Dafny, the logic of the personal website (oslo-c/personal_website)
that computes something rather than drawing it:

- **The prose renderer** (`client/src/components/Prose.tsx`). This covers `escapeHtml`,
  `formatInline` and the line-driven `markdownishToHtml`, which emits `<pre><code>`, `<h2>`,
  `<h3>`, `<ul><li>` and `<p>`.
  - The renderer's state is a `RenderState` value. `Step` says what one line does to it.
  - The class `Markdown.Renderer` holds the same state as mutable fields. Its methods are
    proved to follow `Step`, and `MarkdownishToHtml` drives it over the lines.
  - The main theorem is `RenderSafe`. For every input, each `<`, `>` and `&` in the output
    belongs to a tag the renderer writes itself or to one of the entities `&amp;`, `&lt;`
    and `&gt;`.
  - The block lemmas state the flush order, the code-block rules and the list quirk.
- **`parseLinks`** (`client/src/pages/ProjectDetail.tsx`). The lines are split, trimmed
  and filtered. Each line is classified by the lazy `/^(.+?):\s*(https?:\/\/\S+)$/i`, then by
  `/^https?:\/\//i`. At most eight links are kept.
- **`buildUrl` and the API paths** (`shared/routes.ts`). It replaces the first `:key` for
  each parameter, in entry order. It uses `String.prototype.replace` with its `$` patterns.
- **The command palette** (`client/src/components/CommandPalette.tsx`). This covers the three
  search filters, the keydown rules that open and close it, and `go`.
- **The top navigation** (`client/src/components/TopNav.tsx`), that is `navItems` and
  `isActive`.
- **The page list computations**:
  - `Home.tsx`: the first six projects, and the five newest notes;
  - `LabNotes.tsx`: the search term, and the notes sorted by date;
  - `Projects.tsx`: the search term, the `recent` sort, and the sort toggle.

  The sort with a numeric comparator is a stable sort. It is modelled by `Ordering.SortDesc`
  and proved a permutation, sorted, and order-keeping among equal keys.

The JavaScript string primitives are modelled to the code point in `JsString`:

- `\s` and `trim` use the ECMAScript WhiteSpace and LineTerminator sets;
- `.` excludes U+000A, U+000D, U+2028 and U+2029;
- `\w` is modelled too, as are `split`, `join`, `indexOf`, `includes` and `startsWith`.

Code that updates state step by step is imperative Dafny. This covers
`Markdown.Renderer`, `Markdown.MarkdownishToHtml`, `Links.ParseLinks`, `Routes.BuildUrl`,
`Palette.CommandPalette` and `Pages.ProjectsView`. Each method is proved against the
function that specifies it.

Text is escaped everywhere, code-block lines and code-span text included
(client/src/components/Prose.tsx:12, 50, 98). `RenderSafe` holds for all input, code
blocks included.

## Model

| member | source | states |
|---|---|---|
| JsString.WhitespaceRun | client/src/pages/ProjectDetail.tsx:26 | the greedy `\s*`: the prefix it takes is all whitespace and the next character is not whitespace |
| JsString.WhitespaceRunExact | client/src/pages/ProjectDetail.tsx:26 | a whitespace run followed by a non-whitespace character (or the end) is exactly what greedy `\s*` takes |
| JsString.WordRun | client/src/components/Prose.tsx:41 | the greedy `\w*`: the prefix it takes is all word characters and the next character is not one |
| JsString.Trim | client/src/components/Prose.tsx:27 | `trim` gives a string that neither starts nor ends with whitespace, and it is empty exactly when the input is all whitespace |
| JsString.TrimKeeps | client/src/components/Prose.tsx:93 | a string with no whitespace at either end is unchanged by `trim` |
| JsString.TrimSurround | client/src/components/Prose.tsx:93 | `trim` removes only whitespace: its result occurs in the input between two whitespace runs |
| JsString.TrimIdempotent | client/src/pages/LabNotes.tsx:15 | trimming twice is trimming once |
| JsString.ToLower | client/src/components/CommandPalette.tsx:40 | `toLowerCase` keeps the length and maps each character on its own |
| JsString.ToLowerAppend | client/src/components/CommandPalette.tsx:44 | lower-casing distributes over concatenation |
| JsString.IndexOf | shared/routes.ts:87-88 | `indexOf` gives a position where the pattern occurs with no earlier occurrence, and -1 (None) exactly when `includes` is false |
| JsString.ContainsInContext | client/src/components/CommandPalette.tsx:44 | a string containing the query still contains it with text added on either side |
| JsString.Split | client/src/components/Prose.tsx:17 | `split` on one character gives at least one piece and no piece contains the separator |
| JsString.JoinSplit | client/src/components/Prose.tsx:17 | joining the pieces of a split with the separator gives the original string back |
| JsString.SplitJoin | client/src/components/Prose.tsx:17 | splitting joined separator-free parts gives the parts back |
| JsString.SplitNoSeparator | client/src/pages/ProjectDetail.tsx:17 | a string without the separator splits into itself alone |
| JsString.SplitAtSeparator | client/src/pages/ProjectDetail.tsx:17 | a separator-free prefix followed by the separator becomes the first piece |
| JsString.SplitAppend | client/src/pages/ProjectDetail.tsx:17 | splitting `x + sep + y` gives the pieces of `x` followed by the pieces of `y` |
| JsString.TrimAll | client/src/pages/ProjectDetail.tsx:18 | `map(l => l.trim())` keeps the length and trims each element |
| JsString.TrimAllAppend | client/src/pages/ProjectDetail.tsx:18 | trimming each element distributes over concatenation |
| Seqs.Take | client/src/pages/Home.tsx:17 | `slice(0, n)` has `min(n, length)` elements, the first ones, in order |
| Seqs.TakeRest | client/src/pages/Home.tsx:21 | the slice and what it leaves behind make up the whole, as a sequence and as a multiset |
| Seqs.Filter | client/src/components/CommandPalette.tsx:44 | `filter` keeps exactly the elements that pass the test |
| Seqs.FilterAppend | client/src/components/CommandPalette.tsx:43-45 | filtering distributes over concatenation, so it keeps the original order |
| Ordering.Insert | client/src/pages/Home.tsx:20 | inserting into a largest-first sequence gives a largest-first permutation of it with the new element added |
| Ordering.SortDesc | client/src/pages/Home.tsx:18-20 | the sort with comparator `key(b) - key(a)` gives a permutation of its input, largest key first |
| Ordering.WithKeyAppend | client/src/pages/LabNotes.tsx:19 | the elements with a given key in a concatenation are those of each part, in order |
| Ordering.InsertStable | client/src/pages/LabNotes.tsx:19 | insertion puts the new element ahead of the elements with its key, so their order is kept |
| Ordering.SortStable | client/src/pages/LabNotes.tsx:19 | the sort is stable: elements with equal keys keep their relative order |
| Ordering.SortedPrefix | client/src/pages/Home.tsx:21 | a prefix of a largest-first sequence is largest-first |
| Ordering.PrefixHoldsLargest | client/src/pages/Home.tsx:21 | nothing after a prefix of a sorted sequence has a larger key than anything in it |
| Pages.SelectedProjects | client/src/pages/Home.tsx:17 | the first `min(6, n)` projects in API order, and none before the data has loaded |
| Pages.LatestNotes | client/src/pages/Home.tsx:18-21 | at most five notes, newest first with a missing date keyed 0, drawn from the data as a sub-multiset |
| Pages.LeftOutNotesAreOlder | client/src/pages/Home.tsx:18-21 | a note that is not shown is no newer than any note that is |
| Pages.LatestNotesStable | client/src/pages/Home.tsx:18-21 | the notes shown with any one date are the first notes with that date in API order |
| Pages.SearchParam | client/src/pages/LabNotes.tsx:15 | the term sent is absent exactly when the input is blank, and otherwise neither starts nor ends with whitespace |
| Pages.SearchParamInsideInput | client/src/pages/Projects.tsx:20 | the term sent is the input with only surrounding whitespace removed |
| Pages.SearchParamIgnoresPadding | client/src/pages/LabNotes.tsx:15 | padding the input with whitespace does not change the term sent |
| Pages.NoteItems | client/src/pages/LabNotes.tsx:17-21 | the lab-notes list is a permutation of the data, newest first, and empty without data |
| Pages.RecentItems | client/src/pages/Projects.tsx:22-26 | the `recent` list is a permutation of the data, most recently updated first, and empty without data |
| Pages.ItemsStable | client/src/pages/Projects.tsx:25-26 | on both pages, entries with the same timestamp keep their API order |
| Pages.Toggle | client/src/pages/Projects.tsx:47 | the sort button's updater always changes the mode |
| Pages.ToggleTwice | client/src/pages/Projects.tsx:47 | pressing the sort button twice restores the mode |
| Pages.ProjectsView.constructor | client/src/pages/Projects.tsx:17-18 | the page starts with an empty search, `recent` mode and no search term sent |
| Pages.ProjectsView.Query | client/src/pages/Projects.tsx:20 | no term is sent exactly when the search box is blank |
| Pages.ProjectsView.ToggleSort | client/src/pages/Projects.tsx:47 | the sort button flips the mode and leaves the search alone |
| Palette.NormalizeQuery | client/src/components/CommandPalette.tsx:40 | the normalised query is empty exactly when the typed query is blank |
| Palette.FilterItems | client/src/components/CommandPalette.tsx:39-46 | nothing before the data loads; the first 8 items for a blank query; otherwise at most 10 items, each drawn from the data with a haystack containing the query |
| Palette.MatchesInOrder | client/src/components/CommandPalette.tsx:43-45 | a non-blank query yields the first `min(10, m)` matching items in data order; with fewer than 10, every matching item is shown |
| Palette.QuerySpansFields | client/src/components/CommandPalette.tsx:44 | a query may run from the end of a project's title into the start of its one-liner |
| Palette.OnKey | client/src/components/CommandPalette.tsx:62-73 | only `k`, `/` and Escape change the open flag, and the default is prevented exactly when the flag is toggled by a key other than Escape |
| Palette.CommandKToggles | client/src/components/CommandPalette.tsx:64-70 | Cmd+K or Ctrl+K toggles the palette and prevents the default |
| Palette.SlashToggles | client/src/components/CommandPalette.tsx:64-70 | `/` toggles the palette unless it is typed into an input, a text area or an editable element |
| Palette.EscapeCloses | client/src/components/CommandPalette.tsx:72 | Escape closes an open palette and leaves a closed one alone |
| Palette.OtherKeysIgnored | client/src/components/CommandPalette.tsx:62-73 | every other key, a plain `k` included, does nothing |
| Palette.HrefsDistinct | client/src/components/CommandPalette.tsx:130-164 | each kind's destinations are one-to-one in the slug, and the three kinds never share a destination |
| Palette.CommandPalette.constructor | client/src/components/CommandPalette.tsx:20-22 | the palette starts closed with an empty query |
| Palette.CommandPalette.KeyDown | client/src/components/CommandPalette.tsx:62-76 | a key event sets the open flag as the handler decides, reports whether it prevented the default, and changes nothing else |
| Palette.CommandPalette.Go | client/src/components/CommandPalette.tsx:78-82 | selecting an entry closes the palette, clears the query and navigates to its destination |
| Palette.CommandKTwice | client/src/components/CommandPalette.tsx:64-70 | Cmd+K twice restores the palette's state |
| TopNav.RootOnlyOnRoot | client/src/components/TopNav.tsx:24 | `/` is active exactly on the location `/` |
| TopNav.ActiveUnderPrefix | client/src/components/TopNav.tsx:24 | any other link is active on every location that starts with it |
| TopNav.NoSegmentBoundary | client/src/components/TopNav.tsx:24 | `/projectsX` and `/projects/orpheos` both activate the projects link |
| TopNav.DistinctSecondChars | client/src/components/TopNav.tsx:17-22 | every link starts with `/` followed by a character no other link has there |
| TopNav.AtMostOneActive | client/src/components/TopNav.tsx:17-24 | at most one link of the bar is active at any location |
| Routes.SubstitutionPlain | shared/routes.ts:88 | a replacement without `$` is inserted as written |
| Routes.ReplaceFirst | shared/routes.ts:88 | `replace` with a string pattern leaves the string unchanged when the pattern does not occur |
| Routes.ReplaceFirstAt | shared/routes.ts:88 | `replace` works on the occurrence `indexOf` finds |
| Routes.ReplaceAtPlain | shared/routes.ts:88 | a `$`-free replacement cuts out the occurrence and puts the replacement in its place |
| Routes.ReplaceFirstPlain | shared/routes.ts:88 | with a `$`-free replacement, the first occurrence is swapped for it and the rest is kept |
| Routes.BuildUrl | shared/routes.ts:80-93 | without params the path comes back unchanged; with params, each entry is substituted in turn on the current url |
| Routes.AbsentKeyUnchanged | shared/routes.ts:87 | a parameter whose `:key` does not occur leaves the url unchanged |
| Routes.PresentKeyReplacesFirst | shared/routes.ts:87-88 | a parameter whose `:key` occurs replaces its first occurrence only |
| Routes.SubstituteAllAppend | shared/routes.ts:86-90 | the entries are applied in order: later entries work on the result of earlier ones |
| Routes.SubstituteAllOne | shared/routes.ts:86-90 | one entry is one substitution step |
| Routes.SubstituteAllTwo | shared/routes.ts:86-90 | two entries are two substitution steps, first to last |
| Routes.FirstPlaceholder | shared/routes.ts:88 | a placeholder after a colon-free prefix is the one replaced, with the value's `$` patterns applied |
| Routes.FirstPlaceholderPlain | shared/routes.ts:88 | a placeholder after a colon-free prefix is swapped for a `$`-free value |
| Routes.FillAfterSlash | shared/routes.ts:88 | `/:key` with a `$`-free value becomes `/` and the value |
| Routes.SlugUrl | shared/routes.ts:80-93 | a colon-free base followed by `/:slug` becomes the base, `/` and the slug |
| Routes.PageBySlugUrl | shared/routes.ts:27-35 | the page detail url for a slug is the page list path, `/` and the slug |
| Routes.ProjectBySlugUrl | shared/routes.ts:45-53 | the project detail url for a slug is the project list path, `/` and the slug |
| Routes.LabNoteBySlugUrl | shared/routes.ts:63-71 | the lab-note detail url for a slug is the lab-note list path, `/` and the slug |
| Routes.PlaceholderInsideLongerName | shared/routes.ts:87-88 | placeholders match as text: `:slug` is replaced inside `:slugX` |
| Routes.LaterEntrySeesEarlier | shared/routes.ts:86-90 | a value holding a placeholder is filled by a later entry |
| Routes.SubstitutionPlainPrefix | shared/routes.ts:88 | a replacement is read left to right, and a `$`-free start is copied as written |
| Routes.SubstitutionMatched | shared/routes.ts:88 | `$&` in a replacement stands for the matched text |
| Routes.SubstitutionAmpersand | shared/routes.ts:88 | `$&` between `$`-free parts puts the matched text between them |
| Routes.DollarAmpersandInValue | shared/routes.ts:88 | a value containing `$&` puts the placeholder itself back into the url |
| Links.LinkLines | client/src/pages/ProjectDetail.tsx:16-19 | every line kept is non-empty and already trimmed |
| Links.LinkLinesEmpty | client/src/pages/ProjectDetail.tsx:15-19 | the empty field has no lines |
| Links.LinkLinesAppend | client/src/pages/ProjectDetail.tsx:16-19 | the lines of a text are those before a line break followed by those after it, so line order is kept |
| Links.LinkLinesOneLine | client/src/pages/ProjectDetail.tsx:16-19 | one line gives its trimmed text, or nothing when it is blank |
| Links.SchemeLen | client/src/pages/ProjectDetail.tsx:28 | `/^https?:\/\//i` matches a case-insensitive `http` or `https` followed by `://` |
| Links.UrlAfterColonOnly | client/src/pages/ProjectDetail.tsx:26 | `\s*` can only take all of the whitespace after the colon before the URL |
| Links.FirstFrom | client/src/pages/ProjectDetail.tsx:26 | the lazy search finds the first position that passes, and finds none only when no position does |
| Links.FirstFromIs | client/src/pages/ProjectDetail.tsx:26 | a position that passes, with none before it that does, is the one found |
| Links.LabelSplit | client/src/pages/ProjectDetail.tsx:26 | where the lazy label group stops, the rest of the line matches the pattern |
| Links.LabelSplitEarliest | client/src/pages/ProjectDetail.tsx:26 | the label group stops at the earliest place it can, and the pattern fails only when there is none |
| Links.ClassifyAll | client/src/pages/ProjectDetail.tsx:22-30 | one link per line, in order |
| Links.ClassifyAllSnoc | client/src/pages/ProjectDetail.tsx:22-30 | one more line gives one more link, at the end |
| Links.ParseLinks | client/src/pages/ProjectDetail.tsx:14-32 | a missing or empty field gives no links; otherwise the first eight of one link per non-blank line |
| Links.UrlNoWhitespace | client/src/pages/ProjectDetail.tsx:27 | a matched URL has no whitespace, so the `trim` on it keeps it |
| Links.LabelledUrl | client/src/pages/ProjectDetail.tsx:26-27 | a labelled line's label is the trimmed text before its colon, and its url is a URL, as written |
| Links.ColonAfterCaption | client/src/pages/ProjectDetail.tsx:26 | the colon after a colon-free label is a place where the label group can stop |
| Links.NoColonInCaption | client/src/pages/ProjectDetail.tsx:26 | the label group cannot stop inside a colon-free label |
| Links.NoStopInCaption | client/src/pages/ProjectDetail.tsx:26 | nowhere inside a colon-free label can the label group stop |
| Links.LabelStopsAtFirstColon | client/src/pages/ProjectDetail.tsx:26 | with no colon in the label, the label group stops at the colon after it and the URL is what follows the whitespace |
| Links.LabelledLine | client/src/pages/ProjectDetail.tsx:26-27 | `Label: url` gives the trimmed label and the url |
| Links.BareUrl | client/src/pages/ProjectDetail.tsx:28 | a URL whose only colon is the scheme's gets the label `Link` and is its own url |
| Links.PlainLine | client/src/pages/ProjectDetail.tsx:29 | a line without a colon is both label and url |
| Links.SchemeHasColon | client/src/pages/ProjectDetail.tsx:28 | a line that starts with a scheme contains a colon |
| Html.ReplaceAllCharAppend | client/src/components/Prose.tsx:5-7 | a global one-character replace distributes over concatenation |
| Html.ReplaceAllCharAbsent | client/src/components/Prose.tsx:5-7 | a global replace of an absent character changes nothing |
| Html.ReplaceAllCharSingle | client/src/components/Prose.tsx:5-7 | a one-character string is replaced exactly when it is the pattern |
| Html.EscapeHtmlSingle | client/src/components/Prose.tsx:3-8 | one character goes through the three passes as its own escape |
| Html.EscapeHtmlCons | client/src/components/Prose.tsx:3-8 | because `&` is replaced first, the chain escapes character by character |
| Html.EscapeHtmlEmpty | client/src/components/Prose.tsx:3-8 | the escape of the empty string is empty |
| Html.EscapeHtmlAppend | client/src/components/Prose.tsx:3-8 | escaping distributes over concatenation |
| Html.EscapeHtmlPlain | client/src/components/Prose.tsx:3-8 | text without `&`, `<` and `>` is unchanged |
| Html.EscapeHtmlNoAngles | client/src/components/Prose.tsx:3-8 | escaped text has no `<` or `>`, and has a backtick exactly when the input has one |
| Html.UnescapeEscapeChar | client/src/components/Prose.tsx:3-8 | each character's escape decodes back to it |
| Html.UnescapeEscapeHtml | client/src/components/Prose.tsx:3-8 | escaping loses nothing: decoding the three entities gives the input back |
| Html.SafeEntity | client/src/components/Prose.tsx:5-7 | each entity the escape writes is safe |
| Html.SafeEscapeChar | client/src/components/Prose.tsx:5-7 | each character's escape is safe |
| Html.SafeEscapeHtml | client/src/components/Prose.tsx:3-8 | escaped text is safe for any input: every `&` begins `&amp;`, `&lt;` or `&gt;`, and there is no `<` or `>` |
| Html.SafeAppend | client/src/components/Prose.tsx:28 | appending safe HTML to safe HTML stays safe |
| Html.SafeTag | client/src/components/Prose.tsx:52 | a tag the renderer writes is safe |
| Html.IndexOfChar | client/src/components/Prose.tsx:13 | the first position of a character, and none exactly when the character is absent |
| Html.IndexOfCharIsIndexOf | client/src/components/Prose.tsx:13 | the character search the code-span scan uses is `indexOf` with a one-character pattern |
| Html.FirstIndexOfChar | client/src/components/Prose.tsx:13 | a character's first position is the one the search finds |
| Html.NoBacktickInTag | client/src/components/Prose.tsx:13 | no tag of the renderer holds a backtick |
| Html.BacktickAfterToken | client/src/components/Prose.tsx:13 | a backtick never falls inside a tag or an entity |
| Html.SafeSplitAtBacktick | client/src/components/Prose.tsx:13 | the text on either side of a backtick in safe HTML is safe |
| Html.CodeSpanFirst | client/src/components/Prose.tsx:13 | the first backtick pair around one or more non-backticks becomes `<code>…</code>` and the scan goes on after it |
| Html.UnpairedBacktick | client/src/components/Prose.tsx:13 | a backtick with no partner after it stays literal |
| Html.SafeCodeTags | client/src/components/Prose.tsx:13 | the code-span tags are safe |
| Html.SafeCodeSpans | client/src/components/Prose.tsx:13 | marking up code spans keeps safe HTML safe |
| Html.SafeAfterBacktick | client/src/components/Prose.tsx:13 | the scan after a backtick keeps safe HTML safe |
| Html.FormatInlineSafe | client/src/components/Prose.tsx:10-14 | inline formatting is safe for any input |
| Html.StripCodeTagsAppend | client/src/components/Prose.tsx:13 | reading tags back as backticks leaves tag-free text as it is |
| Html.StripOpenTag | client/src/components/Prose.tsx:13 | `<code>` reads back as a backtick |
| Html.StripCloseTag | client/src/components/Prose.tsx:13 | `</code>` reads back as a backtick |
| Html.StripOneSpan | client/src/components/Prose.tsx:13 | one code span reads back as its text between backticks |
| Html.StripCodeSpans | client/src/components/Prose.tsx:13 | code spans only add tags: read back as backticks, the text is unchanged |
| Html.StripAfterBacktick | client/src/components/Prose.tsx:13 | the scan after a backtick reads back as that backtick and the rest |
| Html.FormatInlineRoundTrip | client/src/components/Prose.tsx:10-14 | inline formatting loses nothing: reading the tags back and decoding the entities gives the input |
| Html.FormatInlineNoBackticks | client/src/components/Prose.tsx:10-14 | text without backticks is only escaped |
| Markdown.MatchFence | client/src/components/Prose.tsx:41 | a fence line is three backticks, the word-character tag and trailing whitespace only |
| Markdown.WordRunOf | client/src/components/Prose.tsx:41 | the greedy `\w*` takes exactly a word followed by a non-word character |
| Markdown.MatchFenceComplete | client/src/components/Prose.tsx:41 | every line of three backticks, a word and whitespace is a fence with that word as its tag |
| Markdown.Backtrack | client/src/components/Prose.tsx:65-66 | backtracking over `\s+` finds the longest split that works, or proves there is none |
| Markdown.SpaceThenText | client/src/components/Prose.tsx:65-66 | `\s+(.+)$` matches exactly when some split works, and captures after the longest whitespace that works |
| Markdown.SpaceThenTextComplete | client/src/components/Prose.tsx:65-66 | whitespace followed by text that starts with a non-space captures that text |
| Markdown.Lines | client/src/components/Prose.tsx:17 | no line holds a line feed, and the lines joined with line feeds are the CRLF-normalised input |
| Markdown.Renderer.constructor | client/src/components/Prose.tsx:19-25 | the renderer starts with no HTML, outside a code block, with empty buffers |
| Markdown.Renderer.FlushParagraph | client/src/components/Prose.tsx:26-30 | `flushParagraph` writes the paragraph and empties its buffer |
| Markdown.Renderer.FlushList | client/src/components/Prose.tsx:31-36 | `flushList` writes the list, if any, and empties its buffer |
| Markdown.Renderer.Feed | client/src/components/Prose.tsx:39-93 | the loop body changes the renderer's state exactly as one step of the state machine |
| Markdown.Renderer.Finish | client/src/components/Prose.tsx:96-106 | the final flush returns the HTML the state machine finishes with |
| Markdown.RunLast | client/src/components/Prose.tsx:38 | running over one more line is one more step |
| Markdown.MarkdownishToHtml | client/src/components/Prose.tsx:16-107 | the rendered HTML is the state machine's result over the lines, and it is safe |
| Markdown.SafeElement | client/src/components/Prose.tsx:28 | an element of the renderer around safe HTML is safe |
| Markdown.SafeParagraphHtml | client/src/components/Prose.tsx:26-30 | the paragraph HTML is safe |
| Markdown.SafeItemsHtml | client/src/components/Prose.tsx:33 | the `<li>` elements are safe |
| Markdown.SafeListHtml | client/src/components/Prose.tsx:31-36 | the list HTML is safe |
| Markdown.WordCharsPlain | client/src/components/Prose.tsx:51 | a language tag holds no character the escape changes |
| Markdown.PreWithLang | client/src/components/Prose.tsx:51-52 | a `<pre>` with a language attribute is one of the renderer's tags |
| Markdown.PrePlain | client/src/components/Prose.tsx:51-52 | with no language the attribute is omitted and the tag is a plain `<pre>` |
| Markdown.LangAttrOf | client/src/components/Prose.tsx:51 | a non-empty language is written as ` data-lang="…"` unchanged by the escape |
| Markdown.PreLangTag | client/src/components/Prose.tsx:51-52 | the opening tag with a language is `pre data-lang="…"` |
| Markdown.PreOpenIsRendererTag | client/src/components/Prose.tsx:51-52 | the opening `<pre>`, with or without a language, is a safe renderer tag |
| Markdown.SafeCodeHtml | client/src/components/Prose.tsx:50-52 | a code block's HTML is safe |
| Markdown.SafeFlush | client/src/components/Prose.tsx:26-36 | both flushes keep the HTML safe |
| Markdown.SafeStep | client/src/components/Prose.tsx:38-94 | every line keeps the HTML written so far safe |
| Markdown.SafeHeading | client/src/components/Prose.tsx:67-78 | a heading, its text escaped in `<h2>` or `<h3>`, keeps the HTML safe |
| Markdown.SafeRun | client/src/components/Prose.tsx:38-94 | the whole loop keeps the HTML safe |
| Markdown.RenderSafe | client/src/components/Prose.tsx:16-107 | the rendered HTML is safe for every input: user text cannot add markup |
| MarkdownBlocks.RunAppend | client/src/components/Prose.tsx:38 | running over two runs of lines is running over the first, then the second |
| MarkdownBlocks.StepInCode | client/src/components/Prose.tsx:60-63 | inside a code block a non-fence line is only collected |
| MarkdownBlocks.StepPlain | client/src/components/Prose.tsx:93 | a plain line only collects its trimmed text in the paragraph |
| MarkdownBlocks.StepItem | client/src/components/Prose.tsx:80-85 | a list item flushes the paragraph and joins the list |
| MarkdownBlocks.StepBlank | client/src/components/Prose.tsx:87-91 | a blank line flushes the paragraph, then the list |
| MarkdownBlocks.CodeBodyRun | client/src/components/Prose.tsx:60-63 | inside a code block every non-fence line is kept verbatim, untrimmed, in order |
| MarkdownBlocks.OpenFence | client/src/components/Prose.tsx:42-48 | an opening fence flushes the paragraph and the list, then opens a block with the fence's tag |
| MarkdownBlocks.FencedBlock | client/src/components/Prose.tsx:41-58 | a fenced block writes the pending paragraph and list, then its lines joined with line feeds and escaped in `<pre><code>`, and resets the state |
| MarkdownBlocks.UnterminatedFence | client/src/components/Prose.tsx:96-100 | a block still open at the end of input is written out all the same |
| MarkdownBlocks.H2Line | client/src/components/Prose.tsx:65 | `##`, whitespace and text starting with a non-space is a second-level heading of that text |
| MarkdownBlocks.H3Line | client/src/components/Prose.tsx:66-67 | `###`, whitespace and text is a third-level heading, and not a second-level one |
| MarkdownBlocks.H3NotH2 | client/src/components/Prose.tsx:65-66 | a third-level heading is never read as a second-level one |
| MarkdownBlocks.HeadingIsNoFence | client/src/components/Prose.tsx:41-66 | a heading line is no fence |
| MarkdownBlocks.StepHeading | client/src/components/Prose.tsx:67-78 | a heading flushes the paragraph and list, then writes its escaped text |
| MarkdownBlocks.HeadingBlock | client/src/components/Prose.tsx:67-78 | a heading writes the pending paragraph, then the pending list, then itself, escaped and not inline-formatted |
| MarkdownBlocks.H2OfSpaces | client/src/components/Prose.tsx:65 | the pattern backtracks: `##` and two spaces is a heading of one space |
| MarkdownBlocks.BlankIsOnlyBlank | client/src/components/Prose.tsx:87 | a blank line is not a fence, a heading or a list item |
| MarkdownBlocks.NoMarkerStart | client/src/components/Prose.tsx:41-66 | a line starting with neither a backtick nor `#` is no fence and no heading |
| MarkdownBlocks.ParagraphRun | client/src/components/Prose.tsx:93 | plain lines only collect, trimmed: nothing is written and an open list stays open |
| MarkdownBlocks.TrimAllTrimmed | client/src/components/Prose.tsx:93 | non-blank lines trim to non-empty entries with no whitespace at either end |
| MarkdownBlocks.JoinEnds | client/src/components/Prose.tsx:27 | trimmed entries joined start and end with non-whitespace, so the paragraph's `trim` keeps them |
| MarkdownBlocks.ParagraphHtmlOf | client/src/components/Prose.tsx:26-30 | a paragraph of trimmed lines is those lines joined with single spaces, inline-formatted in `<p>`; an empty one writes nothing |
| MarkdownBlocks.ParagraphBlock | client/src/components/Prose.tsx:87-93 | plain lines then a blank line give one `<p>` of the joined lines, followed by any open list |
| MarkdownBlocks.ParagraphOvertakesList | client/src/components/Prose.tsx:80-93 | a paragraph after list items, ended by a blank line, is written before that list |
| MarkdownBlocks.ItemTextsAt | client/src/components/Prose.tsx:83 | each item's text is the one its line's match captures |
| MarkdownBlocks.EmptyBuffersWriteNothing | client/src/components/Prose.tsx:28-32 | empty paragraph and list buffers write nothing |
| MarkdownBlocks.ItemsCollect | client/src/components/Prose.tsx:80-85 | with no paragraph pending, list items only collect, in order |
| MarkdownBlocks.ItemAfterItem | client/src/components/Prose.tsx:80-85 | an item after items joins the list and writes nothing |
| MarkdownBlocks.FirstItem | client/src/components/Prose.tsx:80-85 | a list item writes the pending paragraph but not the open list, which it joins |
| MarkdownBlocks.ListBlock | client/src/components/Prose.tsx:80-91 | items then a blank line give one `<ul>` of the items in order, and the list is emptied |
| MarkdownBlocks.RenderEmpty | client/src/components/Prose.tsx:96-106 | the empty document renders to the empty string |
| MarkdownBlocks.NormalizeCrlfAppend | client/src/components/Prose.tsx:17 | CRLF normalisation distributes over a split that does not cut a CRLF |
| MarkdownBlocks.CrlfAsLf | client/src/components/Prose.tsx:17 | a CRLF line break renders exactly like a LF one |

## Left out

- Character set:
  - `toLowerCase` is modelled on the ASCII letters only (`JsString.ToLower`). The full
    Unicode case mapping is a table this model does not carry. The search filters are
    therefore exact only for queries and haystacks whose non-ASCII letters have no case.
  - Strings are sequences of code points. JavaScript strings are UTF-16 code units, which
    differs only for characters outside the Basic Multilingual Plane.
- Regular expressions as a scan:
  - The regular-expression `replace` of `formatInline` (`/`([^`]+)`/g`) is modelled as
    the left-to-right scan `Html.CodeSpans`. This is the scan the global regex performs.
  - The other regular expressions are likewise modelled as the matchers `MatchFence`,
    `MatchH2`, `MatchH3`, `MatchItem`, `LabelSplit` and `SchemeLen`.
- Sorting:
  - The `title` sort of the projects page (`localeCompare`) is left out. It is
    locale-dependent Unicode collation. Only the toggle between the two modes is modelled.
  - The sorts run on a fresh copy (`slice()`). The copy is modelled as a value, so "the
    source list is not mutated" holds by construction. Aliasing is not modelled.
- Data and timestamps:
  - Timestamps are integers (milliseconds). A missing date, or one without `getTime`, is
    `None` and keyed 0. `Date` objects, invalid dates (NaN) and ISO formatting are left out.
  - `buildUrl`'s parameters are a sequence of entries, in the order `Object.entries`
    gives them. Their values are already converted by `String`. The object itself and
    number values are left out.
  - The `api` object is reduced to each endpoint's method and path. Its zod input and
    response schemas are library declarations with no behaviour here.
- Outside the program's logic:
  - The data hooks, the fetches and react-query caching are left out. The filters and
    pages take the loaded data as an `Option`, which is `None` while loading.
  - The server and the database are left out: storage, search, seeding and the Express
    routes.
  - The DOM is left out: the `document` keydown listener registration,
    `dangerouslySetInnerHTML`, the JSX, and the theme toggle.
  - Navigation is modelled as the palette's `location` field. The open flag belongs to the
    app (client/src/App.tsx:45). Here it is a field of `Palette.CommandPalette` that
    `onOpenChange` sets.
- The palette's own `navItems` list and its icons (client/src/components/CommandPalette.tsx:28-37)
  are only rendered and then passed to `go` unchanged. `Go` covers selecting one of them.
  The top bar's list is `TopNav.NavItems`.
- Pages.LatestNotes: it states that the result is a sub-multiset of the data, newest
  first. That the shown notes are the newest is stated separately, by
  `Pages.LeftOutNotesAreOlder`.

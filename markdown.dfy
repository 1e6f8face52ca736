/** The markdown-subset renderer `markdownishToHtml` of client/src/components/Prose.tsx.

    It reads the input line by line. Its state is whether it is inside a fenced code
    block, the language tag of that block, the block's lines so far, the paragraph
    lines so far and the list items so far. `RenderState` and `Step` give that state
    machine as values; the class `Renderer` is the imperative renderer, whose
    methods are proved to follow `Step`. */
module Markdown {
  import opened Wrappers
  import opened JsString
  import opened Html

  // ---------------------------------------------------------------------------
  // Recognising lines.

  /** `line.match(/^```(\w+)?\s*$/)`: `Some(lang)` for a fence line, where `lang` is the
      language tag, or "" when there is none. */
  function MatchFence(line: string): (r: Option<string>)
    ensures r.Some? ==> AllWordChars(r.value)
    ensures r.Some? ==> 3 + |r.value| <= |line| && line == "```" + r.value + line[3 + |r.value|..]
                        && AllWhitespace(line[3 + |r.value|..])
  {
    if |line| >= 3 && line[..3] == "```" then
      var t := line[3..];
      var n := WordRun(t);
      if AllWhitespace(t[n..]) then
        assert line == "```" + t[..n] + t[n..];
        Some(t[..n])
      else None
    else None
  }

  lemma {:induction false} WordRunOf(w: string, rest: string)
    requires AllWordChars(w)
    requires rest == [] || !IsWordChar(rest[0])
    ensures WordRun(w + rest) == |w|
    decreases |w|
  {
    if w == [] {
      assert w + rest == rest;
    } else {
      assert (w + rest)[1..] == w[1..] + rest;
      WordRunOf(w[1..], rest);
    }
  }

  /** Every line made of three backticks, a word and whitespace is a fence line with that word as its tag. */
  lemma MatchFenceComplete(lang: string, ws: string)
    requires AllWordChars(lang) && AllWhitespace(ws)
    ensures MatchFence("```" + lang + ws) == Some(lang)
  {
    var line := "```" + lang + ws;
    assert line[..3] == "```";
    var t := line[3..];
    assert t == lang + ws;
    WordRunOf(lang, ws);
    assert t[..|lang|] == lang && t[|lang|..] == ws;
  }

  /** `k` is a way for `\s+(.+)$` to match `t`: whitespace before `k`, text up to the end after it. */
  predicate SpaceSplit(t: string, k: int) {
    1 <= k < |t| && AllWhitespace(t[..k]) && NoLineTerminator(t[k..])
  }

  /** The regular-expression engine's backtracking over `\s+`: try `k` characters of
      whitespace, then one fewer, down to one. */
  function Backtrack(t: string, k: nat): (r: Option<nat>)
    requires k <= |t| && AllWhitespace(t[..k])
    ensures r.Some? ==> r.value <= k && SpaceSplit(t, r.value)
    ensures r.Some? ==> forall j :: r.value < j <= k ==> !SpaceSplit(t, j)
    ensures r.None? ==> forall j :: 1 <= j <= k ==> !SpaceSplit(t, j)
    decreases k
  {
    if k == 0 then None
    else if k < |t| && NoLineTerminator(t[k..]) then Some(k)
    else
      assert AllWhitespace(t[..k - 1]) by {
        assert forall i :: 0 <= i < k - 1 ==> t[..k - 1][i] == t[..k][i];
      }
      Backtrack(t, k - 1)
  }

  /** `t.match(/^\s+(.+)$/)`, giving the captured text: whitespace first (as much as
      possible), then one or more characters other than line terminators up to the end. */
  function SpaceThenText(t: string): (r: Option<string>)
    ensures r.Some? <==> exists k :: SpaceSplit(t, k)
    ensures r.Some? ==> SpaceSplit(t, |t| - |r.value|) && r.value == t[|t| - |r.value|..]
    ensures r.Some? ==> forall k :: SpaceSplit(t, k) ==> k <= |t| - |r.value|
  {
    var n := WhitespaceRun(t);
    forall k | n < k <= |t| ensures !AllWhitespace(t[..k]) {
      assert t[..k][n] == t[n];
    }
    match Backtrack(t, n)
    case Some(k) => Some(t[k..])
    case None => None
  }

  /** Heading or item text after whitespace is found, when it starts with a non-space. */
  lemma SpaceThenTextComplete(ws: string, text: string)
    requires ws != [] && AllWhitespace(ws)
    requires text != [] && NoLineTerminator(text) && !IsWhitespace(text[0])
    ensures SpaceThenText(ws + text) == Some(text)
  {
    var t := ws + text;
    assert t[..|ws|] == ws && t[|ws|..] == text;
    assert SpaceSplit(t, |ws|);
    forall j | |ws| < j <= |t| ensures !AllWhitespace(t[..j]) {
      assert t[..j][|ws|] == text[0];
    }
  }

  /** `line.match(/^##\s+(.+)$/)`, giving the heading text. */
  function MatchH2(line: string): Option<string> {
    if StartsWith(line, "##") then SpaceThenText(line[2..]) else None
  }

  /** `line.match(/^###\s+(.+)$/)`, giving the heading text. */
  function MatchH3(line: string): Option<string> {
    if StartsWith(line, "###") then SpaceThenText(line[3..]) else None
  }

  /** `line.match(/^\s*[-*]\s+(.+)$/)`, giving the item text. Since `-` and `*` are not
      whitespace, the leading `\s*` can only take all of the leading whitespace. */
  function MatchItem(line: string): Option<string> {
    var t := line[WhitespaceRun(line)..];
    if t != [] && (t[0] == '-' || t[0] == '*') then SpaceThenText(t[1..]) else None
  }

  /** `line.trim() === ""`. */
  predicate IsBlank(line: string) {
    Trim(line) == []
  }

  /** A line that is none of fence, heading, list item or blank: paragraph text. */
  predicate IsPlainLine(line: string) {
    MatchFence(line).None? && MatchH2(line).None? && MatchH3(line).None?
    && MatchItem(line).None? && !IsBlank(line)
  }

  /** `markdown.replace(/\r\n/g, "\n")`. */
  function NormalizeCrlf(s: string): string
    decreases |s|
  {
    if s == [] then []
    else if |s| >= 2 && s[0] == '\r' && s[1] == '\n' then "\n" + NormalizeCrlf(s[2..])
    else [s[0]] + NormalizeCrlf(s[1..])
  }

  /** The input lines: CRLF normalised to LF, then split on LF. */
  function Lines(markdown: string): (r: seq<string>)
    ensures |r| >= 1 && forall i :: 0 <= i < |r| ==> '\n' !in r[i]
    ensures Join(r, "\n") == NormalizeCrlf(markdown)
  {
    JoinSplit(NormalizeCrlf(markdown), '\n');
    Split(NormalizeCrlf(markdown), '\n')
  }

  // ---------------------------------------------------------------------------
  // What the renderer writes.

  /** `<inner>`: a tag. */
  function Tag(inner: string): string {
    "<" + inner + ">"
  }

  /** `<name>body</name>`: an element. */
  function Element(name: string, body: string): string {
    Tag(name) + body + Tag("/" + name)
  }

  /** `flushParagraph`'s output: the lines joined with spaces and trimmed, inline-formatted
      in a `<p>`, or nothing when that is empty. */
  function ParagraphHtml(buf: seq<string>): string {
    var p := Trim(Join(buf, " "));
    if p != [] then Element("p", FormatInline(p)) else ""
  }

  /** The `<li>` elements of a list, in order. */
  function ItemsHtml(items: seq<string>): string
    decreases |items|
  {
    if items == [] then "" else Element("li", FormatInline(items[0])) + ItemsHtml(items[1..])
  }

  /** `flushList`'s output: a `<ul>` of the items, or nothing when there are none. */
  function ListHtml(items: seq<string>): string {
    if |items| > 0 then Element("ul", ItemsHtml(items)) else ""
  }

  /** ` data-lang="…"` for a non-empty language tag. */
  function LangAttr(lang: string): string {
    if lang != [] then " data-lang=\"" + EscapeHtml(lang) + "\"" else ""
  }

  /** A code block: its lines joined with newlines and escaped, in `<pre><code>`. */
  function CodeHtml(lang: string, lines: seq<string>): string {
    Tag("pre" + LangAttr(lang)) + Element("code", EscapeHtml(Join(lines, "\n"))) + Tag("/pre")
  }

  // ---------------------------------------------------------------------------
  // The state machine.

  datatype RenderState = RenderState(
    html: string,
    inCode: bool,
    codeLang: string,
    codeBuf: seq<string>,
    paragraphBuf: seq<string>,
    listBuf: seq<string>)

  const Initial := RenderState("", false, "", [], [], [])

  function ParagraphFlushed(st: RenderState): RenderState {
    st.(html := st.html + ParagraphHtml(st.paragraphBuf), paragraphBuf := [])
  }

  function ListFlushed(st: RenderState): RenderState {
    st.(html := st.html + ListHtml(st.listBuf), listBuf := [])
  }

  /** One iteration of the loop over the lines. */
  function Step(st: RenderState, line: string): RenderState {
    match MatchFence(line)
    case Some(lang) =>
      if !st.inCode then
        ListFlushed(ParagraphFlushed(st)).(inCode := true, codeLang := lang, codeBuf := [])
      else
        st.(html := st.html + CodeHtml(st.codeLang, st.codeBuf), inCode := false, codeLang := "", codeBuf := [])
    case None =>
      if st.inCode then st.(codeBuf := st.codeBuf + [line])
      else if MatchH2(line).Some? then
        var f := ListFlushed(ParagraphFlushed(st));
        f.(html := f.html + Element("h2", EscapeHtml(MatchH2(line).value)))
      else if MatchH3(line).Some? then
        var f := ListFlushed(ParagraphFlushed(st));
        f.(html := f.html + Element("h3", EscapeHtml(MatchH3(line).value)))
      else if MatchItem(line).Some? then
        var f := ParagraphFlushed(st);
        f.(listBuf := f.listBuf + [MatchItem(line).value])
      else if IsBlank(line) then ListFlushed(ParagraphFlushed(st))
      else st.(paragraphBuf := st.paragraphBuf + [Trim(line)])
  }

  /** The loop over `lines`, from state `st`. */
  function Run(st: RenderState, lines: seq<string>): RenderState
    decreases |lines|
  {
    if lines == [] then st else Step(Run(st, lines[..|lines| - 1]), lines[|lines| - 1])
  }

  /** After the loop: an open code block is still written out; otherwise the paragraph and the list are flushed. */
  function Finished(st: RenderState): string {
    if st.inCode then st.html + CodeHtml(st.codeLang, st.codeBuf)
    else ListFlushed(ParagraphFlushed(st)).html
  }

  /** `markdownishToHtml(markdown)`. */
  function Render(markdown: string): string {
    Finished(Run(Initial, Lines(markdown)))
  }

  // ---------------------------------------------------------------------------
  // The imperative renderer.

  class Renderer {
    var html: string
    var inCode: bool
    var codeLang: string
    var codeBuf: seq<string>
    var paragraphBuf: seq<string>
    var listBuf: seq<string>

    function State(): RenderState
      reads this
    {
      RenderState(html, inCode, codeLang, codeBuf, paragraphBuf, listBuf)
    }

    constructor ()
      ensures State() == Initial
    {
      html, inCode, codeLang := "", false, "";
      codeBuf, paragraphBuf, listBuf := [], [], [];
    }

    /** `flushParagraph`. */
    method FlushParagraph()
      modifies this
      ensures State() == ParagraphFlushed(old(State()))
    {
      var p := Trim(Join(paragraphBuf, " "));
      if p != [] {
        html := html + Element("p", FormatInline(p));
      }
      paragraphBuf := [];
    }

    /** `flushList`. */
    method FlushList()
      modifies this
      ensures State() == ListFlushed(old(State()))
    {
      if |listBuf| > 0 {
        html := html + Element("ul", ItemsHtml(listBuf));
        listBuf := [];
      }
    }

    /** The body of the loop over the lines. */
    method Feed(line: string)
      modifies this
      ensures State() == Step(old(State()), line)
    {
      var fence := MatchFence(line);
      if fence.Some? {
        if !inCode {
          FlushParagraph();
          FlushList();
          inCode := true;
          codeLang := fence.value;
          codeBuf := [];
        } else {
          html := html + CodeHtml(codeLang, codeBuf);
          inCode := false;
          codeLang := "";
          codeBuf := [];
        }
        return;
      }
      if inCode {
        codeBuf := codeBuf + [line];
        return;
      }
      var h2 := MatchH2(line);
      var h3 := MatchH3(line);
      if h2.Some? {
        FlushParagraph();
        FlushList();
        html := html + Element("h2", EscapeHtml(h2.value));
        return;
      }
      if h3.Some? {
        FlushParagraph();
        FlushList();
        html := html + Element("h3", EscapeHtml(h3.value));
        return;
      }
      var li := MatchItem(line);
      if li.Some? {
        FlushParagraph();
        listBuf := listBuf + [li.value];
        return;
      }
      if IsBlank(line) {
        FlushParagraph();
        FlushList();
        return;
      }
      paragraphBuf := paragraphBuf + [Trim(line)];
    }

    /** The flush after the loop; returns the finished HTML. */
    method Finish() returns (out: string)
      modifies this
      ensures out == Finished(old(State()))
    {
      if inCode {
        html := html + CodeHtml(codeLang, codeBuf);
      } else {
        FlushParagraph();
        FlushList();
      }
      out := html;
    }
  }

  lemma RunLast(st: RenderState, lines: seq<string>, line: string)
    ensures Run(st, lines + [line]) == Step(Run(st, lines), line)
  {
    assert (lines + [line])[..|lines|] == lines;
  }

  lemma RunPrefix(st: RenderState, lines: seq<string>, i: nat)
    requires i < |lines|
    ensures Run(st, lines[..i + 1]) == Step(Run(st, lines[..i]), lines[i])
  {
    assert lines[..i + 1][..i] == lines[..i];
  }

  lemma WholePrefix(lines: seq<string>)
    ensures lines[..|lines|] == lines
  {
  }

  /** `markdownishToHtml`: the rendered HTML, which is safe for any input. */
  method MarkdownishToHtml(markdown: string) returns (html: string)
    ensures html == Render(markdown)
    ensures Safe(html)
  {
    var lines := Lines(markdown);
    var r := new Renderer();
    for i := 0 to |lines|
      invariant r.State() == Run(Initial, lines[..i])
    {
      RunPrefix(Initial, lines, i);
      r.Feed(lines[i]);
    }
    WholePrefix(lines);
    html := r.Finish();
    RenderSafe(markdown);
  }

  // ---------------------------------------------------------------------------
  // Safety: every output is safe HTML, whatever the input.

  predicate SafeState(st: RenderState) {
    Safe(st.html) && AllWordChars(st.codeLang)
  }

  lemma SafeElement(name: string, body: string)
    requires IsElementName(name) && Safe(body)
    ensures Safe(Element(name, body))
  {
    assert '>' !in name && '>' !in "/" + name;
    assert ("/" + name)[1..] == name;
    SafeTag(name);
    SafeTag("/" + name);
    SafeAppend3(Tag(name), body, Tag("/" + name));
  }

  lemma SafeParagraphHtml(buf: seq<string>)
    ensures Safe(ParagraphHtml(buf))
  {
    var p := Trim(Join(buf, " "));
    if p != [] {
      FormatInlineSafe(p);
      SafeElement("p", FormatInline(p));
    }
  }

  lemma {:induction false} SafeItemsHtml(items: seq<string>)
    ensures Safe(ItemsHtml(items))
    decreases |items|
  {
    if items != [] {
      FormatInlineSafe(items[0]);
      SafeElement("li", FormatInline(items[0]));
      SafeItemsHtml(items[1..]);
      SafeAppend(Element("li", FormatInline(items[0])), ItemsHtml(items[1..]));
    }
  }

  lemma SafeListHtml(items: seq<string>)
    ensures Safe(ListHtml(items))
  {
    if |items| > 0 {
      SafeItemsHtml(items);
      SafeElement("ul", ItemsHtml(items));
    }
  }

  lemma WordCharsPlain(w: string)
    requires AllWordChars(w)
    ensures '&' !in w && '<' !in w && '>' !in w && '"' !in w
  {
    forall i | 0 <= i < |w| ensures w[i] != '&' && w[i] != '<' && w[i] != '>' && w[i] != '"' {
      assert IsWordChar(w[i]);
    }
  }

  lemma PreWithLang(lang: string)
    requires lang != [] && AllWordChars(lang) && '>' !in lang
    ensures IsPreWithLang(LangOpen + lang + "\"") && '>' !in LangOpen + lang + "\""
  {
    var inner := LangOpen + lang + "\"";
    assert inner[..|LangOpen|] == LangOpen;
    assert inner[|LangOpen|..|inner| - 1] == lang;
    forall i | 0 <= i < |inner| ensures inner[i] != '>' {
      if |LangOpen| <= i < |inner| - 1 {
        assert inner[i] == lang[i - |LangOpen|];
      }
    }
  }

  /** The opening `<pre>` tag, with its language attribute, is one of the renderer's tags. */
  lemma PreOpenIsRendererTag(lang: string)
    requires AllWordChars(lang)
    ensures IsRendererTag("pre" + LangAttr(lang)) && '>' !in "pre" + LangAttr(lang)
  {
    if lang == [] {
      PrePlain();
    } else {
      PreLangTag(lang);
      WordCharsPlain(lang);
      PreWithLang(lang);
    }
  }

  lemma PrePlain()
    ensures "pre" + LangAttr([]) == "pre" && IsRendererTag("pre") && '>' !in "pre"
  {
    assert IsElementName("pre");
  }

  lemma PreLangTag(lang: string)
    requires lang != [] && AllWordChars(lang)
    ensures "pre" + LangAttr(lang) == LangOpen + lang + "\""
  {
    var d, q := " data-lang=\"", "\"";
    calc {
      "pre" + LangAttr(lang);
      { LangAttrOf(lang); }
      "pre" + (d + lang + q);
      { AppendAssoc("pre", d + lang, q); }
      "pre" + (d + lang) + q;
      { AppendAssoc("pre", d, lang); }
      "pre" + d + lang + q;
      { assert "pre" + d == LangOpen; }
      LangOpen + lang + q;
    }
  }

  lemma LangAttrOf(lang: string)
    requires lang != [] && AllWordChars(lang)
    ensures LangAttr(lang) == " data-lang=\"" + lang + "\""
  {
    WordCharsPlain(lang);
    EscapeHtmlPlain(lang);
  }

  lemma SafeCodeHtml(lang: string, lines: seq<string>)
    requires AllWordChars(lang)
    ensures Safe(CodeHtml(lang, lines))
  {
    PreOpenIsRendererTag(lang);
    SafeTag("pre" + LangAttr(lang));
    SafeEscapeHtml(Join(lines, "\n"));
    SafeElement("code", EscapeHtml(Join(lines, "\n")));
    SafeTag("/pre");
    SafeAppend3(Tag("pre" + LangAttr(lang)), Element("code", EscapeHtml(Join(lines, "\n"))), Tag("/pre"));
  }

  lemma SafeFlush(st: RenderState)
    requires SafeState(st)
    ensures SafeState(ParagraphFlushed(st)) && SafeState(ListFlushed(ParagraphFlushed(st)))
  {
    SafeParagraphHtml(st.paragraphBuf);
    SafeAppend(st.html, ParagraphHtml(st.paragraphBuf));
    var f := ParagraphFlushed(st);
    SafeListHtml(f.listBuf);
    SafeAppend(f.html, ListHtml(f.listBuf));
  }

  /** Every step keeps the HTML written so far safe. */
  lemma SafeStep(st: RenderState, line: string)
    requires SafeState(st)
    ensures SafeState(Step(st, line))
  {
    SafeFlush(st);
    var f := ListFlushed(ParagraphFlushed(st));
    match MatchFence(line)
    case Some(lang) =>
      if st.inCode {
        SafeCodeHtml(st.codeLang, st.codeBuf);
        SafeAppend(st.html, CodeHtml(st.codeLang, st.codeBuf));
      }
    case None =>
      if !st.inCode {
        if MatchH2(line).Some? {
          SafeHeading(f.html, "h2", MatchH2(line).value);
        } else if MatchH3(line).Some? {
          SafeHeading(f.html, "h3", MatchH3(line).value);
        }
      }
  }

  /** A heading's escaped text, in its element, keeps the HTML safe. */
  lemma SafeHeading(html: string, name: string, text: string)
    requires Safe(html) && name in {"h2", "h3"}
    ensures Safe(html + Element(name, EscapeHtml(text)))
  {
    SafeEscapeHtml(text);
    SafeElement(name, EscapeHtml(text));
    SafeAppend(html, Element(name, EscapeHtml(text)));
  }

  lemma {:induction false} SafeRun(st: RenderState, lines: seq<string>)
    requires SafeState(st)
    ensures SafeState(Run(st, lines))
    decreases |lines|
  {
    if lines != [] {
      SafeRun(st, lines[..|lines| - 1]);
      SafeStep(Run(st, lines[..|lines| - 1]), lines[|lines| - 1]);
    }
  }

  /** The rendered HTML is safe for every input: each `<` and `>` belongs to a tag the renderer
      writes itself, and each `&` begins `&amp;`, `&lt;` or `&gt;`; user text cannot add markup. */
  lemma RenderSafe(markdown: string)
    ensures Safe(Render(markdown))
  {
    var st := Run(Initial, Lines(markdown));
    SafeRun(Initial, Lines(markdown));
    SafeFlush(st);
    if st.inCode {
      SafeCodeHtml(st.codeLang, st.codeBuf);
      SafeAppend(st.html, CodeHtml(st.codeLang, st.codeBuf));
    }
  }
}

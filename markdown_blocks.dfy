/** What `markdownishToHtml` does with each kind of block, stated over runs of input lines:
    fenced code, headings, paragraphs and lists, the ordering of flushes, CRLF input and
    the empty document. */
module MarkdownBlocks {
  import opened Wrappers
  import opened JsString
  import opened Html
  import opened Markdown

  /** Running over two runs of lines is running over the first, then over the second. */
  lemma {:induction false} RunAppend(st: RenderState, a: seq<string>, b: seq<string>)
    ensures Run(st, a + b) == Run(Run(st, a), b)
    decreases |b|
  {
    if b == [] {
      assert a + b == a;
    } else {
      var init := b[..|b| - 1];
      assert (a + b)[..|a + b| - 1] == a + init;
      assert (a + b)[|a + b| - 1] == b[|b| - 1];
      RunAppend(st, a, init);
    }
  }

  lemma InitLast<T>(s: seq<T>)
    requires s != []
    ensures s[..|s| - 1] + [s[|s| - 1]] == s
  {
  }

  /** No line of the run is a fence. */
  predicate NoFence(lines: seq<string>)
    decreases |lines|
  {
    lines == [] || (NoFence(lines[..|lines| - 1]) && MatchFence(lines[|lines| - 1]).None?)
  }

  lemma StepInCode(st: RenderState, line: string)
    requires st.inCode && MatchFence(line).None?
    ensures Step(st, line) == st.(codeBuf := st.codeBuf + [line])
  {
  }

  lemma StepPlain(st: RenderState, line: string)
    requires !st.inCode && IsPlainLine(line)
    ensures Step(st, line) == st.(paragraphBuf := st.paragraphBuf + [Trim(line)])
  {
  }

  lemma StepItem(st: RenderState, line: string)
    requires !st.inCode && IsItemLine(line)
    ensures Step(st, line) == ParagraphFlushed(st).(listBuf := st.listBuf + [MatchItem(line).value])
  {
  }

  lemma StepBlank(st: RenderState, line: string)
    requires !st.inCode && IsBlank(line)
    ensures Step(st, line) == ListFlushed(ParagraphFlushed(st))
  {
    BlankIsOnlyBlank(line);
  }

  /** Inside a code block every line other than a fence is kept verbatim, whatever it looks like. */
  lemma {:induction false} CodeBodyRun(st: RenderState, body: seq<string>)
    requires st.inCode && NoFence(body)
    ensures Run(st, body) == st.(codeBuf := st.codeBuf + body)
    decreases |body|
  {
    if body == [] {
      assert st.codeBuf + body == st.codeBuf;
    } else {
      var init := body[..|body| - 1];
      var last := body[|body| - 1];
      CodeBodyRun(st, init);
      var mid := Run(st, init);
      calc {
        Run(st, body);
        Step(mid, last);
      == { StepInCode(mid, last); }
        mid.(codeBuf := mid.codeBuf + [last]);
        st.(codeBuf := st.codeBuf + init + [last]);
      == { AppendAssoc(st.codeBuf, init, [last]); InitLast(body); }
        st.(codeBuf := st.codeBuf + body);
      }
    }
  }

  /** The state after an opening fence: paragraph and list written out, then a code block opened. */
  function Opened(st: RenderState, lang: string): RenderState {
    RenderState(st.html + ParagraphHtml(st.paragraphBuf) + ListHtml(st.listBuf), true, lang, [], [], [])
  }

  lemma OpenFence(st: RenderState, open: string, lang: string)
    requires !st.inCode && MatchFence(open) == Some(lang)
    ensures Run(st, [open]) == Opened(st, lang)
  {
    assert [open][..0] == [];
  }

  /** A fenced block: the paragraph and list before it are written out first, then its lines,
      joined with newlines and escaped, inside `<pre><code>`, with the fence's language tag. */
  lemma FencedBlock(st: RenderState, open: string, lang: string, body: seq<string>, close: string)
    requires !st.inCode && MatchFence(open) == Some(lang)
    requires NoFence(body) && MatchFence(close).Some?
    ensures Run(st, [open] + body + [close])
         == RenderState(st.html + ParagraphHtml(st.paragraphBuf) + ListHtml(st.listBuf) + CodeHtml(lang, body),
                        false, "", [], [], [])
  {
    OpenFence(st, open, lang);
    RunAppend(st, [open], body);
    CodeBodyRun(Opened(st, lang), body);
    assert [] + body == body;
    RunLast(st, [open] + body, close);
  }

  /** A code block still open at the end of the input is written out all the same. */
  lemma UnterminatedFence(st: RenderState, open: string, lang: string, body: seq<string>)
    requires !st.inCode && MatchFence(open) == Some(lang) && NoFence(body)
    ensures Finished(Run(st, [open] + body))
         == st.html + ParagraphHtml(st.paragraphBuf) + ListHtml(st.listBuf) + CodeHtml(lang, body)
  {
    OpenFence(st, open, lang);
    RunAppend(st, [open], body);
    CodeBodyRun(Opened(st, lang), body);
    assert [] + body == body;
  }

  // ---------------------------------------------------------------------------
  // Headings.

  /** `## text` is a second-level heading of `text`, when `text` starts with a non-space. */
  lemma H2Line(ws: string, text: string)
    requires ws != [] && AllWhitespace(ws)
    requires text != [] && NoLineTerminator(text) && !IsWhitespace(text[0])
    ensures MatchH2("##" + ws + text) == Some(text)
  {
    var line := "##" + ws + text;
    assert line[..2] == "##" && line[2..] == ws + text;
    SpaceThenTextComplete(ws, text);
  }

  /** `### text` is a third-level heading of `text`, and not a second-level one. */
  lemma H3Line(ws: string, text: string)
    requires ws != [] && AllWhitespace(ws)
    requires text != [] && NoLineTerminator(text) && !IsWhitespace(text[0])
    ensures MatchH3("###" + ws + text) == Some(text)
    ensures MatchH2("###" + ws + text) == None
  {
    var line := "###" + ws + text;
    assert StartsWith(line, "###") && line[3..] == ws + text by {
      assert line[..3] == "###";
    }
    SpaceThenTextComplete(ws, text);
    H3NotH2(line);
  }

  /** A third-level heading is never read as a second-level one. */
  lemma H3NotH2(line: string)
    requires MatchH3(line).Some?
    ensures MatchH2(line).None?
  {
    var t := line[2..];
    assert t[0] == line[..3][2] == '#';
    forall k | 1 <= k < |t| ensures !AllWhitespace(t[..k]) {
      assert t[..k][0] == '#';
    }
  }

  lemma HeadingIsNoFence(line: string)
    requires MatchH2(line).Some? || MatchH3(line).Some?
    ensures MatchFence(line).None?
  {
    assert StartsWith(line, "##");
    assert line[..2][0] == line[0] == '#';
  }

  /** A heading line flushes the open paragraph, then the open list, then writes the heading
      with its text escaped but not inline-formatted. */
  lemma HeadingBlock(st: RenderState, line: string, text: string)
    requires !st.inCode
    requires MatchH2(line) == Some(text) || MatchH3(line) == Some(text)
    ensures var name := if MatchH2(line).Some? then "h2" else "h3";
            Run(st, [line]) == st.(html := st.html + ParagraphHtml(st.paragraphBuf) + ListHtml(st.listBuf)
                                             + Element(name, EscapeHtml(text)),
                                   paragraphBuf := [], listBuf := [])
  {
    RunOne(st, line);
    StepHeading(st, line);
    if MatchH3(line).Some? {
      H3NotH2(line);
    }
  }

  lemma StepHeading(st: RenderState, line: string)
    requires !st.inCode && (MatchH2(line).Some? || MatchH3(line).Some?)
    ensures var f := ListFlushed(ParagraphFlushed(st));
            Step(st, line)
            == if MatchH2(line).Some? then f.(html := f.html + Element("h2", EscapeHtml(MatchH2(line).value)))
               else f.(html := f.html + Element("h3", EscapeHtml(MatchH3(line).value)))
  {
    HeadingIsNoFence(line);
  }

  /** The regular expression backtracks: `##` followed only by two spaces is a heading of one space. */
  lemma H2OfSpaces()
    ensures MatchH2("##  ") == Some(" ")
  {
    var t := "##  "[2..];
    assert t == "  ";
    assert !SpaceSplit(t, 2);
    assert SpaceSplit(t, 1);
    assert t[1..] == " ";
  }

  // ---------------------------------------------------------------------------
  // Blank lines and paragraphs.

  /** A blank line is nothing else: not a fence, a heading or a list item. */
  lemma BlankIsOnlyBlank(line: string)
    requires IsBlank(line)
    ensures MatchFence(line).None? && MatchH2(line).None? && MatchH3(line).None? && MatchItem(line).None?
  {
    assert AllWhitespace(line);
    if line != [] {
      WhitespaceIsNoMarker(line[0]);
      NoMarkerStart(line);
    }
    assert WhitespaceRun(line) == |line|;
  }

  lemma WhitespaceIsNoMarker(c: char)
    requires IsWhitespace(c)
    ensures c != '`' && c != '#'
  {
  }

  /** A line that starts with neither a backtick nor `#` is no fence and no heading. */
  lemma NoMarkerStart(line: string)
    requires line != [] && line[0] != '`' && line[0] != '#'
    ensures MatchFence(line).None? && MatchH2(line).None? && MatchH3(line).None?
  {
    if |line| >= 2 {
      assert line[..2][0] == line[0];
    }
    if |line| >= 3 {
      assert line[..3][0] == line[0];
    }
  }

  lemma TrimAllSnoc(init: seq<string>, x: string)
    ensures TrimAll(init + [x]) == TrimAll(init) + [Trim(x)]
  {
  }

  /** Every line of the run is paragraph text. */
  predicate AllPlain(lines: seq<string>)
    decreases |lines|
  {
    lines == [] || (AllPlain(lines[..|lines| - 1]) && IsPlainLine(lines[|lines| - 1]))
  }

  lemma {:induction false} AllPlainAt(lines: seq<string>, i: nat)
    requires AllPlain(lines) && i < |lines|
    ensures IsPlainLine(lines[i])
    decreases |lines|
  {
    if i < |lines| - 1 {
      AllPlainAt(lines[..|lines| - 1], i);
    }
  }

  /** Plain lines only collect, trimmed, in the paragraph: nothing is written and an open list stays open. */
  lemma {:induction false} ParagraphRun(st: RenderState, lines: seq<string>)
    requires !st.inCode && AllPlain(lines)
    ensures Run(st, lines) == st.(paragraphBuf := st.paragraphBuf + TrimAll(lines))
    decreases |lines|
  {
    if lines == [] {
      assert st.paragraphBuf + TrimAll(lines) == st.paragraphBuf;
    } else {
      var init := lines[..|lines| - 1];
      var last := lines[|lines| - 1];
      ParagraphRun(st, init);
      var mid := Run(st, init);
      calc {
        Run(st, lines);
        Step(mid, last);
      == { StepPlain(mid, last); }
        mid.(paragraphBuf := mid.paragraphBuf + [Trim(last)]);
        st.(paragraphBuf := st.paragraphBuf + TrimAll(init) + [Trim(last)]);
      == { AppendAssoc(st.paragraphBuf, TrimAll(init), [Trim(last)]);
           InitLast(lines);
           TrimAllSnoc(init, last); }
        st.(paragraphBuf := st.paragraphBuf + TrimAll(lines));
      }
    }
  }

  /** Every entry is non-empty and neither starts nor ends with whitespace. */
  predicate Trimmed(buf: seq<string>) {
    forall i :: 0 <= i < |buf| ==> buf[i] != [] && !IsWhitespace(buf[i][0]) && !IsWhitespace(buf[i][|buf[i]| - 1])
  }

  /** Lines none of which is blank trim to non-empty entries without surrounding whitespace. */
  lemma TrimAllTrimmed(lines: seq<string>)
    requires forall i :: 0 <= i < |lines| ==> !IsBlank(lines[i])
    ensures Trimmed(TrimAll(lines))
  {
  }

  lemma AllPlainNotBlank(lines: seq<string>)
    requires AllPlain(lines)
    ensures forall i :: 0 <= i < |lines| ==> !IsBlank(lines[i])
  {
    forall i | 0 <= i < |lines| ensures !IsBlank(lines[i]) {
      AllPlainAt(lines, i);
    }
  }

  /** Joining trimmed entries starts with the first entry's first character and ends with the last's last. */
  lemma {:induction false} JoinEnds(buf: seq<string>, sep: string)
    requires buf != [] && Trimmed(buf)
    ensures Join(buf, sep) != []
    ensures Join(buf, sep)[0] == buf[0][0]
    ensures Join(buf, sep)[|Join(buf, sep)| - 1] == buf[|buf| - 1][|buf[|buf| - 1]| - 1]
    decreases |buf|
  {
    if |buf| > 1 {
      assert Trimmed(buf[1..]) by {
        forall i | 0 <= i < |buf| - 1 ensures buf[1..][i] == buf[i + 1] {}
      }
      JoinEnds(buf[1..], sep);
      assert buf[1..][|buf| - 2] == buf[|buf| - 1];
    }
  }

  /** A paragraph of trimmed lines is those lines joined with single spaces, inline-formatted
      in a `<p>`; an empty paragraph writes nothing. */
  lemma ParagraphHtmlOf(buf: seq<string>)
    requires Trimmed(buf)
    ensures buf == [] ==> ParagraphHtml(buf) == ""
    ensures buf != [] ==> ParagraphHtml(buf) == Element("p", FormatInline(Join(buf, " ")))
  {
    if buf != [] {
      JoinEnds(buf, " ");
      TrimKeeps(Join(buf, " "));
    }
  }

  /** A paragraph ends at a blank line: its lines, trimmed and joined with single spaces, become
      one `<p>`, and a list still open is written after it. */
  lemma ParagraphBlock(st: RenderState, lines: seq<string>, blank: string)
    requires !st.inCode && st.paragraphBuf == [] && lines != [] && AllPlain(lines) && IsBlank(blank)
    ensures Run(st, lines + [blank])
         == st.(html := st.html + Element("p", FormatInline(Join(TrimAll(lines), " "))) + ListHtml(st.listBuf),
                listBuf := [])
  {
    ParagraphRun(st, lines);
    RunLast(st, lines, blank);
    StepBlank(Run(st, lines), blank);
    AllPlainNotBlank(lines);
    TrimAllTrimmed(lines);
    ParagraphHtmlOf(TrimAll(lines));
    assert [] + TrimAll(lines) == TrimAll(lines);
  }

  /** A paragraph started while a list is open is written before that list, although its lines come
      after the list's items: plain lines do not close a list. */
  lemma ParagraphOvertakesList(st: RenderState, x: string, blank: string)
    requires !st.inCode && st.paragraphBuf == [] && st.listBuf != []
    requires IsPlainLine(x) && IsBlank(blank)
    ensures Run(st, [x, blank]).html
         == st.html + Element("p", FormatInline(Trim(x))) + Element("ul", ItemsHtml(st.listBuf))
  {
    assert [x, blank] == [x] + [blank];
    assert [x][..0] == [];
    ParagraphBlock(st, [x], blank);
    assert Join(TrimAll([x]), " ") == Trim(x);
  }

  // ---------------------------------------------------------------------------
  // Lists.

  predicate IsItemLine(line: string) {
    MatchFence(line).None? && MatchH2(line).None? && MatchH3(line).None? && MatchItem(line).Some?
  }

  /** Every line of the run is a list item. */
  predicate AllItems(lines: seq<string>)
    decreases |lines|
  {
    lines == [] || (AllItems(lines[..|lines| - 1]) && IsItemLine(lines[|lines| - 1]))
  }

  /** The item texts of a run of list-item lines, in order. */
  function ItemTexts(lines: seq<string>): seq<string>
    requires AllItems(lines)
    decreases |lines|
  {
    if lines == [] then [] else ItemTexts(lines[..|lines| - 1]) + [MatchItem(lines[|lines| - 1]).value]
  }

  /** Each item's text is the one its line's match gives. */
  lemma {:induction false} ItemTextsAt(lines: seq<string>, i: nat)
    requires AllItems(lines) && i < |lines|
    ensures |ItemTexts(lines)| == |lines|
    ensures MatchItem(lines[i]).Some? && ItemTexts(lines)[i] == MatchItem(lines[i]).value
    decreases |lines|
  {
    var init := lines[..|lines| - 1];
    if i < |lines| - 1 {
      ItemTextsAt(init, i);
    } else if init != [] {
      ItemTextsAt(init, 0);
    }
  }

  lemma EmptyBuffersWriteNothing()
    ensures ParagraphHtml([]) == "" && ListHtml([]) == ""
  {
    assert Trim(Join([], " ")) == [];
  }

  /** With no paragraph pending, list items only collect. */
  lemma {:induction false} ItemsCollect(st: RenderState, lines: seq<string>)
    requires !st.inCode && st.paragraphBuf == [] && AllItems(lines)
    ensures Run(st, lines) == st.(listBuf := st.listBuf + ItemTexts(lines))
    decreases |lines|
  {
    if lines == [] {
      assert st.listBuf + ItemTexts(lines) == st.listBuf;
    } else {
      var init := lines[..|lines| - 1];
      var last := lines[|lines| - 1];
      ItemsCollect(st, init);
      var mid := Run(st, init);
      calc {
        Run(st, lines);
        Step(mid, last);
      == { ItemAfterItem(mid, last); }
        mid.(listBuf := mid.listBuf + [MatchItem(last).value]);
        st.(listBuf := st.listBuf + ItemTexts(init) + [MatchItem(last).value]);
      == { AppendAssoc(st.listBuf, ItemTexts(init), [MatchItem(last).value]); }
        st.(listBuf := st.listBuf + ItemTexts(lines));
      }
    }
  }

  lemma ItemAfterItem(mid: RenderState, line: string)
    requires !mid.inCode && mid.paragraphBuf == [] && IsItemLine(line)
    ensures Step(mid, line) == mid.(listBuf := mid.listBuf + [MatchItem(line).value])
  {
    StepItem(mid, line);
    EmptyBuffersWriteNothing();
    assert mid.html + "" == mid.html;
  }

  lemma RunOne(st: RenderState, line: string)
    ensures Run(st, [line]) == Step(st, line)
  {
    assert [line][..0] == [];
  }

  /** A list item writes out the pending paragraph, but not the open list, which it joins. */
  lemma FirstItem(st: RenderState, line: string)
    requires !st.inCode && IsItemLine(line)
    ensures Run(st, [line])
         == st.(html := st.html + ParagraphHtml(st.paragraphBuf), paragraphBuf := [],
                listBuf := st.listBuf + [MatchItem(line).value])
  {
    RunOne(st, line);
    StepItem(st, line);
  }

  /** A list ends at a blank line: its items become one `<ul>`. */
  lemma ListBlock(st: RenderState, lines: seq<string>, blank: string)
    requires !st.inCode && st.paragraphBuf == [] && st.listBuf == [] && lines != []
    requires AllItems(lines)
    requires IsBlank(blank)
    ensures Run(st, lines + [blank]).html == st.html + Element("ul", ItemsHtml(ItemTexts(lines)))
    ensures Run(st, lines + [blank]).listBuf == []
  {
    ItemsCollect(st, lines);
    RunLast(st, lines, blank);
    StepBlank(Run(st, lines), blank);
    EmptyBuffersWriteNothing();
    assert st.html + "" == st.html;
    assert [] + ItemTexts(lines) == ItemTexts(lines);
  }

  // ---------------------------------------------------------------------------
  // The document as a whole.

  /** The empty document renders to nothing. */
  lemma RenderEmpty()
    ensures Render("") == ""
  {
    assert Lines("") == [""];
    assert IsBlank("");
    BlankIsOnlyBlank("");
    ParagraphHtmlOf([]);
    assert Run(Initial, [""]) == Step(Initial, "");
  }

  lemma {:induction false} NormalizeCrlfAppend(x: string, y: string)
    requires x == [] || x[|x| - 1] != '\r'
    ensures NormalizeCrlf(x + y) == NormalizeCrlf(x) + NormalizeCrlf(y)
    decreases |x|
  {
    if x == [] {
      assert x + y == y;
    } else if |x| >= 2 && x[0] == '\r' && x[1] == '\n' {
      NormalizeCrlfAppend(x[2..], y);
      CrlfAppendPair(x, y);
    } else {
      NormalizeCrlfAppend(x[1..], y);
      CrlfAppendOther(x, y);
    }
  }

  lemma CrlfAppendPair(x: string, y: string)
    requires |x| >= 2 && x[0] == '\r' && x[1] == '\n'
    requires NormalizeCrlf(x[2..] + y) == NormalizeCrlf(x[2..]) + NormalizeCrlf(y)
    ensures NormalizeCrlf(x + y) == NormalizeCrlf(x) + NormalizeCrlf(y)
  {
    var xy := x + y;
    assert xy[0] == '\r' && xy[1] == '\n' && xy[2..] == x[2..] + y;
    assert NormalizeCrlf(xy) == "\n" + NormalizeCrlf(x[2..] + y);
    AppendAssoc("\n", NormalizeCrlf(x[2..]), NormalizeCrlf(y));
  }

  lemma CrlfAppendOther(x: string, y: string)
    requires x != [] && !(|x| >= 2 && x[0] == '\r' && x[1] == '\n') && (|x| >= 2 || x[0] != '\r')
    requires NormalizeCrlf(x[1..] + y) == NormalizeCrlf(x[1..]) + NormalizeCrlf(y)
    ensures NormalizeCrlf(x + y) == NormalizeCrlf(x) + NormalizeCrlf(y)
  {
    var xy := x + y;
    assert xy[0] == x[0] && xy[1..] == x[1..] + y;
    assert !(|xy| >= 2 && xy[0] == '\r' && xy[1] == '\n') by {
      if |x| >= 2 {
        assert xy[1] == x[1];
      }
    }
    assert NormalizeCrlf(xy) == [x[0]] + NormalizeCrlf(x[1..] + y);
    AppendAssoc([x[0]], NormalizeCrlf(x[1..]), NormalizeCrlf(y));
  }

  /** A CRLF line break renders exactly like an LF one. */
  lemma CrlfAsLf(a: string, b: string)
    requires a == [] || a[|a| - 1] != '\r'
    ensures Render(a + "\r\n" + b) == Render(a + "\n" + b)
  {
    NormalizeCrlfAppend(a, "\r\n" + b);
    NormalizeCrlfAppend(a, "\n" + b);
    assert NormalizeCrlf("\r\n" + b) == "\n" + NormalizeCrlf(b) by {
      assert ("\r\n" + b)[2..] == b;
    }
    assert NormalizeCrlf("\n" + b) == "\n" + NormalizeCrlf(b) by {
      assert ("\n" + b)[1..] == b;
    }
    assert a + "\r\n" + b == a + ("\r\n" + b);
    assert a + "\n" + b == a + ("\n" + b);
  }
}

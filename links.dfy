/** `parseLinks` of client/src/pages/ProjectDetail.tsx: a project's free-text `links` field,
    one link per line, turned into at most eight `{label, url}` items. */
module Links {
  import opened Wrappers
  import opened JsString
  import opened Seqs

  /** `{ label, url }`; the label is called `caption` here because `label` is a Dafny keyword. */
  datatype Link = Link(caption: string, url: string)

  const MaxLinks := 8

  function NonEmpty(s: string): bool {
    s != []
  }

  /** `raw.split("\n").map((l) => l.trim()).filter(Boolean)`. */
  function LinkLines(raw: string): (r: seq<string>)
    ensures forall l :: l in r ==> l != [] && Trim(l) == l
  {
    var r := Filter(TrimAll(Split(raw, '\n')), NonEmpty);
    forall l | l in r ensures Trim(l) == l {
      var i :| 0 <= i < |TrimAll(Split(raw, '\n'))| && TrimAll(Split(raw, '\n'))[i] == l;
      TrimIdempotent(Split(raw, '\n')[i]);
    }
    r
  }

  lemma LinkLinesEmpty()
    ensures LinkLines("") == []
  {
    assert Split("", '\n') == [""];
    assert TrimAll([""]) == [""];
  }

  // ---------------------------------------------------------------------------
  // `/^(.+?):\s*(https?:\/\/\S+)$/i` and `/^https?:\/\//i`.

  /** `/^https?:\/\//i` at the start of `u`: the length of the scheme and `://`. The `s?` is
      greedy, so `https://` is taken whole; the letters are compared without regard to case. */
  function SchemeLen(u: string): (r: Option<nat>)
    ensures r.Some? ==> (r.value == 7 || r.value == 8) && r.value <= |u|
    ensures r.Some? ==> LowerChar(u[0]) == 'h' && LowerChar(u[1]) == 't' && LowerChar(u[2]) == 't'
                        && LowerChar(u[3]) == 'p' && u[r.value - 3..r.value] == "://"
    ensures r.Some? && r.value == 8 ==> LowerChar(u[4]) == 's'
  {
    if |u| >= 7 && LowerChar(u[0]) == 'h' && LowerChar(u[1]) == 't' && LowerChar(u[2]) == 't'
       && LowerChar(u[3]) == 'p' then
      if |u| >= 8 && LowerChar(u[4]) == 's' && u[5] == ':' && u[6] == '/' && u[7] == '/' then
        assert u[5..8] == "://";
        Some(8)
      else if u[4] == ':' && u[5] == '/' && u[6] == '/' then
        assert u[4..7] == "://";
        Some(7)
      else None
    else None
  }

  /** `u` matches `https?:\/\/\S+$` from its start: scheme, then one or more non-whitespace characters to the end. */
  predicate IsUrl(u: string) {
    SchemeLen(u).Some? && SchemeLen(u).value < |u| && NoWhitespace(u[SchemeLen(u).value..])
  }

  /** What follows the colon: `\s*` then the URL. The URL starts with a letter, so only
      the longest run of whitespace can precede it. */
  function UrlAfterColon(rest: string): string {
    rest[WhitespaceRun(rest)..]
  }

  /** Backtracking `\s*` cannot give another match: a URL can only start after all the whitespace. */
  lemma UrlAfterColonOnly(rest: string, w: nat)
    requires w <= |rest| && AllWhitespace(rest[..w]) && IsUrl(rest[w..])
    ensures w == WhitespaceRun(rest)
  {
    var u := rest[w..];
    UrlNoWhitespace(u);
    assert rest[w] == u[0];
    WhitespaceRunExact(rest, w);
  }

  /** The lazy `(.+?)` followed by `:` can stop at index `k`: the label `line[..k]` is one or more
      characters other than line terminators, and what follows the colon is a URL. */
  predicate LabelledAt(line: string, k: int) {
    1 <= k < |line| && line[k] == ':' && NoLineTerminator(line[..k]) && IsUrl(UrlAfterColon(line[k + 1..]))
  }

  /** The first `j` in `[k, n)` with `p(j)`: how a lazy group tries each length in turn. */
  function FirstFrom(p: nat -> bool, k: nat, n: nat): (r: Option<nat>)
    ensures r.Some? ==> k <= r.value < n && p(r.value)
    ensures r.Some? ==> forall j :: k <= j < r.value ==> !p(j)
    ensures r.None? ==> forall j :: k <= j < n ==> !p(j)
    decreases n - k
  {
    if k >= n then None
    else if p(k) then Some(k)
    else FirstFrom(p, k + 1, n)
  }

  /** The search finds `m` when `m` passes the test and nothing before it does. */
  lemma FirstFromIs(p: nat -> bool, k: nat, n: nat, m: nat)
    requires k <= m < n && p(m)
    requires forall j :: k <= j < m ==> !p(j)
    ensures FirstFrom(p, k, n) == Some(m)
  {
  }

  /** `LabelledAt` as a test on the position alone. */
  function LabelEnds(line: string): nat -> bool {
    j => LabelledAt(line, j)
  }

  /** Where the lazy label group stops: the earliest colon after which the rest matches. */
  function LabelSplit(line: string): (r: Option<nat>)
    ensures r.Some? ==> LabelledAt(line, r.value)
  {
    FirstFrom(LabelEnds(line), 1, |line|)
  }

  /** The label group stops at the earliest place it can, and matches whenever some place works. */
  lemma LabelSplitEarliest(line: string)
    ensures LabelSplit(line).Some? ==> forall j :: 1 <= j < LabelSplit(line).value ==> !LabelledAt(line, j)
    ensures LabelSplit(line).None? <==> forall j :: !LabelledAt(line, j)
  {
    var r := LabelSplit(line);
    if r.Some? {
      forall j | 1 <= j < r.value ensures !LabelledAt(line, j) {
        assert !LabelEnds(line)(j);
      }
    } else {
      forall j ensures !LabelledAt(line, j) {
        if 1 <= j < |line| {
          assert !LabelEnds(line)(j);
        }
      }
    }
  }

  /** One iteration of the loop: the link a trimmed, non-blank line stands for. */
  function ClassifyLine(line: string): Link {
    match LabelSplit(line)
    case Some(k) => Link(Trim(line[..k]), Trim(UrlAfterColon(line[k + 1..])))
    case None =>
      if SchemeLen(line).Some? then Link("Link", line)
      else Link(line, line)
  }

  /** The link of each line, in order. */
  function ClassifyAll(lines: seq<string>): (r: seq<Link>)
    ensures |r| == |lines| && forall i :: 0 <= i < |lines| ==> r[i] == ClassifyLine(lines[i])
  {
    seq(|lines|, i requires 0 <= i < |lines| => ClassifyLine(lines[i]))
  }

  lemma ClassifyAllSnoc(lines: seq<string>, line: string)
    ensures ClassifyAll(lines + [line]) == ClassifyAll(lines) + [ClassifyLine(line)]
  {
  }

  /** `parseLinks(raw)`: one link per non-blank line, in order, of which the first eight are kept;
      nothing for a missing or empty field. */
  method ParseLinks(raw: Option<string>) returns (items: seq<Link>)
    ensures raw.None? || raw == Some("") ==> items == []
    ensures items == Take(ClassifyAll(LinkLines(raw.GetOr(""))), MaxLinks)
  {
    if raw.None? || raw.value == "" {
      LinkLinesEmpty();
      return [];
    }
    var lines := LinkLines(raw.value);
    var acc: seq<Link> := [];
    for i := 0 to |lines|
      invariant acc == ClassifyAll(lines[..i])
    {
      ClassifyAllSnoc(lines[..i], lines[i]);
      assert lines[..i + 1] == lines[..i] + [lines[i]];
      acc := acc + [ClassifyLine(lines[i])];
    }
    assert lines[..|lines|] == lines;
    items := Take(acc, MaxLinks);
  }

  // ---------------------------------------------------------------------------
  // What the classification means.

  /** A URL has no whitespace, so trimming keeps it. */
  lemma UrlNoWhitespace(u: string)
    requires IsUrl(u)
    ensures NoWhitespace(u) && Trim(u) == u
  {
    var n := SchemeLen(u).value;
    forall i | 0 <= i < |u| ensures !IsWhitespace(u[i]) {
      if i < 4 {
      } else if i < n - 3 {
        assert LowerChar(u[4]) == 's';
      } else if i < n {
        assert u[n - 3..n][i - (n - 3)] == u[i];
      } else {
        assert u[n..][i - n] == u[i];
      }
    }
    TrimKeeps(u);
  }

  /** A labelled line's label is the trimmed text before its colon, and its url is a URL: the
      text after the colon and the whitespace, as written. */
  lemma LabelledUrl(line: string)
    requires LabelSplit(line).Some?
    ensures ClassifyLine(line)
         == Link(Trim(line[..LabelSplit(line).value]), UrlAfterColon(line[LabelSplit(line).value + 1..]))
    ensures IsUrl(ClassifyLine(line).url)
  {
    var k := LabelSplit(line).value;
    UrlNoWhitespace(UrlAfterColon(line[k + 1..]));
  }

  /** With no colon in the label, the colon after it is where the label group stops. */
  lemma LabelStopsAtFirstColon(caption: string, ws: string, url: string)
    requires caption != [] && NoLineTerminator(caption) && ':' !in caption
    requires AllWhitespace(ws) && IsUrl(url)
    ensures LabelSplit(caption + ":" + ws + url) == Some(|caption|)
    ensures UrlAfterColon((caption + ":" + ws + url)[|caption| + 1..]) == url
  {
    var line := caption + ":" + ws + url;
    ColonAfterCaption(caption, ws, url);
    NoStopInCaption(caption, ws, url);
    FirstFromIs(LabelEnds(line), 1, |line|, |caption|);
  }

  lemma NoStopInCaption(caption: string, ws: string, url: string)
    requires ':' !in caption
    ensures forall j :: 1 <= j < |caption| ==> !LabelEnds(caption + ":" + ws + url)(j)
  {
    var line := caption + ":" + ws + url;
    assert caption + (":" + ws + url) == line;
    forall j | 1 <= j < |caption| ensures !LabelEnds(line)(j) {
      NoColonInCaption(caption, ":" + ws + url, j);
    }
  }

  /** The colon right after the label is a place where the label group can stop. */
  lemma ColonAfterCaption(caption: string, ws: string, url: string)
    requires caption != [] && NoLineTerminator(caption) && ':' !in caption
    requires AllWhitespace(ws) && IsUrl(url)
    ensures LabelledAt(caption + ":" + ws + url, |caption|)
    ensures LabelEnds(caption + ":" + ws + url)(|caption|)
    ensures UrlAfterColon((caption + ":" + ws + url)[|caption| + 1..]) == url
  {
    var line := caption + ":" + ws + url;
    var k := |caption|;
    assert line[..k] == caption;
    assert line[k] == ':';
    var rest := line[k + 1..];
    assert rest == ws + url;
    assert rest[..|ws|] == ws && rest[|ws|..] == url;
    UrlAfterColonOnly(rest, |ws|);
  }

  /** Inside a label without a colon, the label group cannot stop. */
  lemma NoColonInCaption(caption: string, rest: string, j: nat)
    requires ':' !in caption && j < |caption|
    ensures !LabelledAt(caption + rest, j)
  {
    assert (caption + rest)[j] == caption[j];
  }

  /** `Label: url`: with no colon in the label, the label is the trimmed text before the colon
      and the url is the text after the colon and any whitespace. */
  lemma LabelledLine(caption: string, ws: string, url: string)
    requires caption != [] && NoLineTerminator(caption) && ':' !in caption
    requires AllWhitespace(ws) && IsUrl(url)
    ensures ClassifyLine(caption + ":" + ws + url) == Link(Trim(caption), url)
  {
    var line := caption + ":" + ws + url;
    var k := |caption|;
    assert LabelSplit(line) == Some(k) && UrlAfterColon(line[k + 1..]) == url by {
      LabelStopsAtFirstColon(caption, ws, url);
    }
    assert line[..k] == caption;
    LabelledUrl(line);
  }

  /** A bare URL whose only colon is the scheme's gets the label "Link" and is its own url. */
  lemma BareUrl(u: string)
    requires IsUrl(u) && ':' !in u[SchemeLen(u).value..]
    ensures ClassifyLine(u) == Link("Link", u)
  {
    var n := SchemeLen(u).value;
    forall j | n <= j < |u| ensures u[j] != ':' {
      assert u[n..][j - n] == u[j];
    }
    forall j ensures !LabelledAt(u, j) {
      if 1 <= j < |u| && u[j] == ':' {
        assert j == n - 3 by {
          assert u[n - 3..n][0] == ':' && u[n - 3..n][1] == '/' && u[n - 3..n][2] == '/';
          if n == 8 {
            assert LowerChar(u[4]) == 's';
          }
        }
        var rest := u[j + 1..];
        assert rest[0] == '/';
        WhitespaceRunExact(rest, 0);
        assert UrlAfterColon(rest)[0] == '/';
      }
    }
    LabelSplitEarliest(u);
  }

  /** A line without a colon is neither labelled nor a URL: it is label and url both. */
  lemma PlainLine(line: string)
    requires ':' !in line
    ensures ClassifyLine(line) == Link(line, line)
  {
    forall j ensures !LabelledAt(line, j) {
      if 1 <= j < |line| {
        assert line[j] != ':';
      }
    }
    LabelSplitEarliest(line);
    SchemeHasColon(line);
  }

  lemma SchemeHasColon(u: string)
    ensures SchemeLen(u).Some? ==> ':' in u
  {
    if SchemeLen(u).Some? {
      var n := SchemeLen(u).value;
      assert u[n - 3..n][0] == ':';
      assert u[n - 3] == ':';
    }
  }

  /** The lines of a text are the lines before a line break followed by the lines after it. */
  lemma LinkLinesAppend(x: string, y: string)
    ensures LinkLines(x + "\n" + y) == LinkLines(x) + LinkLines(y)
  {
    SplitAppend(x, '\n', y);
    TrimAllAppend(Split(x, '\n'), Split(y, '\n'));
    FilterAppend(TrimAll(Split(x, '\n')), TrimAll(Split(y, '\n')), NonEmpty);
  }

  /** A single line gives its trimmed text, or nothing when it is blank. */
  lemma LinkLinesOneLine(line: string)
    requires '\n' !in line
    ensures AllWhitespace(line) ==> LinkLines(line) == []
    ensures !AllWhitespace(line) ==> LinkLines(line) == [Trim(line)]
  {
    SplitNoSeparator(line, '\n');
    assert TrimAll([line]) == [Trim(line)];
    assert Filter([Trim(line)], NonEmpty) == (if NonEmpty(Trim(line)) then [Trim(line)] else []) by {
      assert [Trim(line)][1..] == [];
    }
  }
}

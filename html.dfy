/** HTML escaping and inline formatting of the prose renderer
    (`escapeHtml` and `formatInline` of client/src/components/Prose.tsx),
    and the safety property of their output. */
module Html {
  import opened Wrappers
  import opened JsString

  /** `s.replace(/c/g, rep)` where `rep` holds no `$`: every `c` becomes `rep`. */
  function ReplaceAllChar(s: string, c: char, rep: string): string
    decreases |s|
  {
    if s == [] then [] else (if s[0] == c then rep else [s[0]]) + ReplaceAllChar(s[1..], c, rep)
  }

  lemma {:induction false} ReplaceAllCharAppend(a: string, b: string, c: char, rep: string)
    ensures ReplaceAllChar(a + b, c, rep) == ReplaceAllChar(a, c, rep) + ReplaceAllChar(b, c, rep)
    decreases |a|
  {
    if a == [] {
      assert a + b == b;
    } else {
      assert (a + b)[1..] == a[1..] + b;
      ReplaceAllCharAppend(a[1..], b, c, rep);
    }
  }

  lemma {:induction false} ReplaceAllCharAbsent(s: string, c: char, rep: string)
    requires c !in s
    ensures ReplaceAllChar(s, c, rep) == s
    decreases |s|
  {
    if s != [] {
      assert c !in s[1..];
      ReplaceAllCharAbsent(s[1..], c, rep);
    }
  }

  /** `escapeHtml`: `&` is replaced first, then `<`, then `>`. */
  function EscapeHtml(s: string): string {
    ReplaceAllChar(ReplaceAllChar(ReplaceAllChar(s, '&', "&amp;"), '<', "&lt;"), '>', "&gt;")
  }

  /** The escape of one character. */
  function EscapeChar(c: char): string {
    if c == '&' then "&amp;" else if c == '<' then "&lt;" else if c == '>' then "&gt;" else [c]
  }

  /** Because `&` goes first, the three passes never touch each other's output:
      the chain escapes character by character. */
  lemma EscapeHtmlCons(c: char, t: string)
    ensures EscapeHtml([c] + t) == EscapeChar(c) + EscapeHtml(t)
  {
    EscapeHtmlAppend([c], t);
    EscapeHtmlSingle(c);
  }

  lemma ReplaceAllCharSingle(c: char, ch: char, rep: string)
    ensures ReplaceAllChar([c], ch, rep) == if c == ch then rep else [c]
  {
    assert [c][1..] == [];
  }

  /** One character goes through the three passes as `EscapeChar` says. */
  lemma EscapeHtmlSingle(c: char)
    ensures EscapeHtml([c]) == EscapeChar(c)
  {
    var r1 := ReplaceAllChar([c], '&', "&amp;");
    ReplaceAllCharSingle(c, '&', "&amp;");
    var r2 := ReplaceAllChar(r1, '<', "&lt;");
    if c == '&' {
      ReplaceAllCharAbsent(r1, '<', "&lt;");
      ReplaceAllCharAbsent(r2, '>', "&gt;");
    } else {
      ReplaceAllCharSingle(c, '<', "&lt;");
      if c == '<' {
        ReplaceAllCharAbsent(r2, '>', "&gt;");
      } else {
        ReplaceAllCharSingle(c, '>', "&gt;");
      }
    }
  }

  lemma EscapeHtmlEmpty()
    ensures EscapeHtml([]) == []
  {
  }

  lemma EscapeHtmlAppend(a: string, b: string)
    ensures EscapeHtml(a + b) == EscapeHtml(a) + EscapeHtml(b)
  {
    ReplaceAllCharAppend(a, b, '&', "&amp;");
    ReplaceAllCharAppend(ReplaceAllChar(a, '&', "&amp;"), ReplaceAllChar(b, '&', "&amp;"), '<', "&lt;");
    ReplaceAllCharAppend(ReplaceAllChar(ReplaceAllChar(a, '&', "&amp;"), '<', "&lt;"),
                         ReplaceAllChar(ReplaceAllChar(b, '&', "&amp;"), '<', "&lt;"), '>', "&gt;");
  }

  /** Text without `&`, `<` and `>` is left as it is. */
  lemma EscapeHtmlPlain(s: string)
    requires '&' !in s && '<' !in s && '>' !in s
    ensures EscapeHtml(s) == s
  {
    ReplaceAllCharAbsent(s, '&', "&amp;");
    ReplaceAllCharAbsent(s, '<', "&lt;");
    ReplaceAllCharAbsent(s, '>', "&gt;");
  }

  /** Escaped text holds no angle bracket and no backtick it did not already have. */
  lemma {:induction false} EscapeHtmlNoAngles(s: string)
    ensures '<' !in EscapeHtml(s) && '>' !in EscapeHtml(s)
    ensures '`' in EscapeHtml(s) <==> '`' in s
    decreases |s|
  {
    if s != [] {
      EscapeHtmlCons(s[0], s[1..]);
      assert [s[0]] + s[1..] == s;
      EscapeHtmlNoAngles(s[1..]);
    }
  }

  /** Decoding of the three entities `escapeHtml` writes. */
  function Unescape(h: string): string
    decreases |h|
  {
    if h == [] then []
    else if h[0] != '&' then [h[0]] + Unescape(h[1..])
    else if StartsWith(h, "&amp;") then "&" + Unescape(h[5..])
    else if StartsWith(h, "&lt;") then "<" + Unescape(h[4..])
    else if StartsWith(h, "&gt;") then ">" + Unescape(h[4..])
    else [h[0]] + Unescape(h[1..])
  }

  lemma StartsWithAppend(p: string, x: string)
    ensures StartsWith(p + x, p) && (p + x)[|p|..] == x
  {
    assert (p + x)[..|p|] == p;
  }

  lemma UnescapeEscapeChar(c: char, x: string)
    ensures Unescape(EscapeChar(c) + x) == [c] + Unescape(x)
  {
    var e := EscapeChar(c);
    var h := e + x;
    StartsWithAppend(e, x);
    assert h[0] == e[0];
    if c == '<' || c == '>' {
      assert h[1] == e[1];
      assert !StartsWith(h, "&amp;") by {
        if |h| >= 5 {
          assert h[..5][1] == h[1];
        }
      }
      if c == '>' {
        assert h[..4][1] == h[1];
        assert !StartsWith(h, "&lt;");
      }
    }
  }

  /** Escaping loses nothing: the original text can be read back from it. */
  lemma {:induction false} UnescapeEscapeHtml(s: string)
    ensures Unescape(EscapeHtml(s)) == s
    decreases |s|
  {
    if s == [] {
      EscapeHtmlEmpty();
    } else {
      assert s == [s[0]] + s[1..];
      EscapeHtmlCons(s[0], s[1..]);
      UnescapeEscapeHtml(s[1..]);
      UnescapeEscapeChar(s[0], EscapeHtml(s[1..]));
    }
  }

  // ---------------------------------------------------------------------------
  // The safety property: output read as a sequence of tokens, every `<` opens
  // one of the renderer's own tags, every `>` closes one, every `&` begins one
  // of the three entities, and every other character stands for itself.

  /** Prefix of the inner text of a `<pre data-lang="...">` tag. */
  const LangOpen: string := "pre data-lang=\""

  /** The inner text of a `<pre data-lang="lang">` tag whose language is one or more word characters. */
  predicate IsPreWithLang(inner: string) {
    |inner| > |LangOpen| + 1 && inner[..|LangOpen|] == LangOpen && inner[|inner| - 1] == '"'
    && AllWordChars(inner[|LangOpen|..|inner| - 1])
  }

  /** The elements the renderer writes. */
  predicate IsElementName(name: string) {
    name == "p" || name == "h2" || name == "h3" || name == "ul" || name == "li" || name == "pre" || name == "code"
  }

  /** The tags the renderer writes, without their angle brackets: an opening or closing tag
      of one of its elements, or a `pre` carrying a language. */
  predicate IsRendererTag(inner: string) {
    IsElementName(inner) || (|inner| > 0 && inner[0] == '/' && IsElementName(inner[1..])) || IsPreWithLang(inner)
  }

  predicate IsEntityName(name: string) {
    name == "amp" || name == "lt" || name == "gt"
  }

  /** `s.indexOf(c)` for a one-character string, with `None` for -1: the first position of `c`. */
  function IndexOfChar(s: string, c: char): (r: Option<nat>)
    ensures r.Some? ==> r.value < |s| && s[r.value] == c
    ensures r.Some? ==> c !in s[..r.value]
    ensures r.None? ==> c !in s
    decreases |s|
  {
    if s == [] then None
    else if s[0] == c then Some(0)
    else
      match IndexOfChar(s[1..], c)
      case None => None
      case Some(i) =>
        assert forall k :: 1 <= k <= i ==> s[k] == s[1..][k - 1];
        Some(i + 1)
  }

  /** The first position of a character is the one the search finds. */
  lemma FirstIndexOfChar(s: string, c: char, i: nat)
    requires i < |s| && s[i] == c
    requires c !in s[..i]
    ensures IndexOfChar(s, c) == Some(i)
  {
  }

  /** The one-character search is `indexOf` with a one-character pattern. */
  lemma IndexOfCharIsIndexOf(s: string, c: char)
    ensures IndexOfChar(s, c) == IndexOf(s, [c])
  {
    match IndexOf(s, [c])
    case None =>
      if IndexOfChar(s, c).Some? {
        var i := IndexOfChar(s, c).value;
        assert s[i..i + 1] == [c];
        assert OccursAt(s, [c], i);
      }
    case Some(i) =>
      assert s[i] == s[i..i + 1][0] == c;
      forall k | 0 <= k < i ensures s[k] != c {
        if s[k] == c {
          assert s[k..k + 1] == [c];
          assert OccursAt(s, [c], k);
        }
      }
      FirstIndexOfChar(s, c, i);
  }

  /** Length of the token at the front of `h`, or 0 when `h` starts with something unsafe. */
  function TokenLen(h: string): (n: nat)
    requires h != []
    ensures n <= |h|
  {
    if h[0] == '<' then
      match IndexOfChar(h, '>')
      case Some(i) =>
        if IsRendererTag(h[1..i]) then i + 1 else 0
      case None => 0
    else if h[0] == '&' then
      match IndexOfChar(h, ';')
      case Some(i) =>
        if IsEntityName(h[1..i]) then i + 1 else 0
      case None => 0
    else if h[0] == '>' then 0
    else 1
  }

  /** `h` reads as tokens all the way through. */
  predicate Safe(h: string)
    decreases |h|
  {
    h == [] || (TokenLen(h) > 0 && Safe(h[TokenLen(h)..]))
  }

  /** The first occurrence of a delimiter is decided by the text up to it. */
  lemma DelimiterPrefix(x: string, y: string, c: char, i: nat)
    requires IndexOfChar(x, c) == Some(i)
    requires i < |y| && y[..i + 1] == x[..i + 1]
    ensures IndexOfChar(y, c) == Some(i)
  {
    forall k | 0 <= k < i ensures y[k] != c {
      assert y[k] == y[..i + 1][k] == x[..i + 1][k] == x[k];
    }
    assert y[i] == y[..i + 1][i] == x[..i + 1][i] == x[i];
    FirstIndexOfChar(y, c, i);
  }

  /** A token is decided by its own characters: what follows it does not matter. */
  lemma TokenLenPrefix(x: string, y: string)
    requires x != [] && TokenLen(x) > 0
    requires TokenLen(x) <= |y| && y[..TokenLen(x)] == x[..TokenLen(x)]
    ensures TokenLen(y) == TokenLen(x)
  {
    var n := TokenLen(x);
    SamePrefix(x, y, n);
    if x[0] == '<' {
      var i := IndexOfChar(x, '>').value;
      DelimiterPrefix(x, y, '>', i);
    } else if x[0] == '&' {
      var i := IndexOfChar(x, ';').value;
      DelimiterPrefix(x, y, ';', i);
    }
  }

  /** Two strings that share their first `n` characters share the first one and the ones
      between it and the `n`-th. */
  lemma SamePrefix(x: string, y: string, n: nat)
    requires 0 < n <= |x| && n <= |y| && y[..n] == x[..n]
    ensures y[0] == x[0]
    ensures n > 1 ==> y[1..n - 1] == x[1..n - 1]
  {
    forall k | 0 <= k < n ensures y[k] == x[k] {
      assert y[k] == y[..n][k] && x[k] == x[..n][k];
    }
    if n > 1 {
      assert y[1..n - 1] == x[1..n - 1];
    }
  }

  lemma {:induction false} SafeAppend(a: string, b: string)
    requires Safe(a) && Safe(b)
    ensures Safe(a + b)
    decreases |a|
  {
    if a == [] {
      assert a + b == b;
    } else {
      var n := TokenLen(a);
      AppendSlices(a, b, n);
      TokenLenPrefix(a, a + b);
      SafeAppend(a[n..], b);
    }
  }

  lemma AppendSlices(a: string, b: string, n: nat)
    requires n <= |a|
    ensures (a + b)[..n] == a[..n] && (a + b)[n..] == a[n..] + b
  {
  }

  lemma SafeAppend3(a: string, b: string, c: string)
    requires Safe(a) && Safe(b) && Safe(c)
    ensures Safe(a + b + c)
  {
    SafeAppend(a, b);
    SafeAppend(a + b, c);
  }

  /** A tag of the renderer, written out, is safe. */
  lemma SafeTag(inner: string)
    requires IsRendererTag(inner) && '>' !in inner
    ensures Safe("<" + inner + ">")
  {
    var h := "<" + inner + ">";
    forall k | 0 <= k < |inner| + 1 ensures h[k] != '>' {
      if k > 0 {
        assert h[k] == inner[k - 1];
      }
    }
    FirstIndexOfChar(h, '>', |inner| + 1);
    assert h[1..|inner| + 1] == inner;
    assert h[|h|..] == [];
  }

  /** An entity the escape writes is safe. */
  lemma SafeEntity(name: string)
    requires IsEntityName(name) && ';' !in name
    ensures Safe("&" + name + ";")
  {
    var h := "&" + name + ";";
    forall k | 0 <= k < |name| + 1 ensures h[k] != ';' {
      if k > 0 {
        assert h[k] == name[k - 1];
      }
    }
    FirstIndexOfChar(h, ';', |name| + 1);
    assert h[1..|name| + 1] == name;
    assert h[|h|..] == [];
  }

  lemma SafeEscapeChar(c: char)
    ensures Safe(EscapeChar(c))
  {
    if c == '&' {
      SafeEntity("amp");
      assert EscapeChar(c) == "&" + "amp" + ";";
    } else if c == '<' {
      SafeEntity("lt");
      assert EscapeChar(c) == "&" + "lt" + ";";
    } else if c == '>' {
      SafeEntity("gt");
      assert EscapeChar(c) == "&" + "gt" + ";";
    } else {
      assert EscapeChar(c)[1..] == [];
    }
  }

  /** Escaped text is safe whatever the input: user text cannot inject markup. */
  lemma {:induction false} SafeEscapeHtml(s: string)
    ensures Safe(EscapeHtml(s))
    decreases |s|
  {
    if s == [] {
      EscapeHtmlEmpty();
    } else {
      EscapeHtmlCons(s[0], s[1..]);
      assert [s[0]] + s[1..] == s;
      SafeEscapeChar(s[0]);
      SafeEscapeHtml(s[1..]);
      SafeAppend(EscapeChar(s[0]), EscapeHtml(s[1..]));
    }
  }

  lemma NoBacktickInTag(inner: string)
    requires IsRendererTag(inner)
    ensures '`' !in inner
  {
    if IsPreWithLang(inner) {
      forall k | 0 <= k < |inner| ensures inner[k] != '`' {
        if k < |LangOpen| {
          assert inner[k] == LangOpen[k];
        } else if k < |inner| - 1 {
          assert inner[k] == inner[|LangOpen|..|inner| - 1][k - |LangOpen|];
        }
      }
    }
  }

  /** A backtick in safe text stands alone, so the text on either side of it is safe. */
  lemma {:induction false} SafeSplitAtBacktick(s: string, i: nat)
    requires Safe(s) && i < |s| && s[i] == '`'
    ensures Safe(s[..i]) && Safe(s[i + 1..])
    decreases |s|
  {
    if i == 0 {
      assert s[..0] == [];
    } else {
      var n := TokenLen(s);
      BacktickAfterToken(s, i);
      SafeSplitAtBacktick(s[n..], i - n);
      SliceOfSlice(s, n, i);
      var y := s[..i];
      TokenLenPrefix(s, y);
    }
  }

  /** A backtick is a token of its own: it never falls inside a tag or an entity. */
  lemma BacktickAfterToken(s: string, i: nat)
    requires s != [] && TokenLen(s) > 0 && 0 < i < |s| && s[i] == '`'
    ensures TokenLen(s) <= i
  {
    var n := TokenLen(s);
    if n > 1 {
      var c := if s[0] == '<' then '>' else ';';
      var j := IndexOfChar(s, c).value;
      assert n == j + 1;
      if i < j {
        assert s[i] == s[1..j][i - 1];
        if s[0] == '<' {
          NoBacktickInTag(s[1..j]);
        }
        assert false;
      }
    }
  }

  lemma SliceOfSlice(s: string, n: nat, i: nat)
    requires n <= i < |s|
    ensures s[n..][i - n + 1..] == s[i + 1..]
    ensures s[..i][n..] == s[n..][..i - n]
    ensures |s[..i]| == i
  {
  }

  // ---------------------------------------------------------------------------
  // Inline code spans.

  /** `s.replace(/`([^`]+)`/g, (_m, g1) => `<code>${g1}</code>`)`: scanning left to right, a backtick
      followed by one or more non-backticks and another backtick becomes a code span;
      a backtick that cannot start one is kept and the scan goes on after it. */
  function CodeSpans(s: string): string
    decreases |s|, 0
  {
    match IndexOfChar(s, '`')
    case None => s
    case Some(i) => s[..i] + AfterBacktick(s[i + 1..])
  }

  /** The scan just past a backtick: a span when the next backtick comes after at least one
      other character, the backtick itself otherwise. */
  function AfterBacktick(t: string): string
    decreases |t|, 1
  {
    var k := IndexOfChar(t, '`');
    if k.Some? && k.value > 0 then "<code>" + t[..k.value] + "</code>" + CodeSpans(t[k.value + 1..])
    else "`" + CodeSpans(t)
  }

  /** A backtick-free stretch, then one or more non-backticks between two backticks: the first
      code span is marked up and the scan goes on after its closing backtick. */
  lemma CodeSpanFirst(a: string, m: string, b: string)
    requires '`' !in a && '`' !in m && m != []
    ensures CodeSpans(a + "`" + m + "`" + b) == a + "<code>" + m + "</code>" + CodeSpans(b)
  {
    var s := a + "`" + m + "`" + b;
    var t := m + "`" + b;
    assert s[..|a|] == a && s[|a| + 1..] == t;
    FirstIndexOfChar(s, '`', |a|);
    assert t[..|m|] == m && t[|m| + 1..] == b;
    FirstIndexOfChar(t, '`', |m|);
  }

  /** A backtick with no partner after it stays as it is. */
  lemma UnpairedBacktick(a: string, b: string)
    requires '`' !in a && '`' !in b
    ensures CodeSpans(a + "`" + b) == a + "`" + b
  {
    var s := a + "`" + b;
    assert s[..|a|] == a && s[|a| + 1..] == b;
    FirstIndexOfChar(s, '`', |a|);
    assert IndexOfChar(b, '`').None?;
    assert AfterBacktick(b) == "`" + b;
  }

  /** `formatInline`: escape, then mark up the code spans. */
  function FormatInline(text: string): string {
    CodeSpans(EscapeHtml(text))
  }

  lemma SafeCodeTags()
    ensures Safe("<code>") && Safe("</code>")
  {
    SafeTag("code");
    assert "<" + "code" + ">" == "<code>";
    SafeTag("/code");
    assert "<" + "/code" + ">" == "</code>";
  }

  lemma SafeBacktick()
    ensures Safe("`")
  {
    var h := "`";
    assert TokenLen(h) == 1;
    assert h[1..] == [];
  }

  lemma {:induction false} SafeCodeSpans(s: string)
    requires Safe(s)
    ensures Safe(CodeSpans(s))
    decreases |s|, 0
  {
    match IndexOfChar(s, '`')
    case None =>
    case Some(i) =>
      SafeSplitAtBacktick(s, i);
      SafeAfterBacktick(s[i + 1..]);
      SafeAppend(s[..i], AfterBacktick(s[i + 1..]));
  }

  lemma {:induction false} SafeAfterBacktick(t: string)
    requires Safe(t)
    ensures Safe(AfterBacktick(t))
    decreases |t|, 1
  {
    SafeCodeTags();
    SafeBacktick();
    var k := IndexOfChar(t, '`');
    if k.Some? && k.value > 0 {
      SafeSplitAtBacktick(t, k.value);
      SafeCodeSpans(t[k.value + 1..]);
      SafeAppend3("<code>", t[..k.value], "</code>");
      SafeAppend("<code>" + t[..k.value] + "</code>", CodeSpans(t[k.value + 1..]));
    } else {
      SafeCodeSpans(t);
      SafeAppend("`", CodeSpans(t));
    }
  }

  /** Inline formatting is safe whatever the input. */
  lemma FormatInlineSafe(text: string)
    ensures Safe(FormatInline(text))
  {
    SafeEscapeHtml(text);
    SafeCodeSpans(EscapeHtml(text));
  }

  /** Turns the code-span tags back into backticks. */
  function StripCodeTags(h: string): string
    decreases |h|
  {
    if h == [] then []
    else if h[0] != '<' then [h[0]] + StripCodeTags(h[1..])
    else if StartsWith(h, "<code>") then "`" + StripCodeTags(h[6..])
    else if StartsWith(h, "</code>") then "`" + StripCodeTags(h[7..])
    else [h[0]] + StripCodeTags(h[1..])
  }

  lemma {:induction false} StripCodeTagsAppend(a: string, b: string)
    requires '<' !in a
    ensures StripCodeTags(a + b) == a + StripCodeTags(b)
    decreases |a|
  {
    if a == [] {
      assert a + b == b;
    } else {
      assert (a + b)[0] == a[0];
      assert (a + b)[1..] == a[1..] + b;
      assert '<' !in a[1..];
      StripCodeTagsAppend(a[1..], b);
    }
  }

  lemma StripOneSpan(m: string, x: string)
    requires '<' !in m
    ensures StripCodeTags("<code>" + m + "</code>" + x) == "`" + m + "`" + StripCodeTags(x)
  {
    var tail := "</code>" + x;
    calc {
      StripCodeTags("<code>" + m + "</code>" + x);
      { assert "<code>" + m + "</code>" + x == "<code>" + (m + tail); }
      StripCodeTags("<code>" + (m + tail));
      { StripOpenTag(m + tail); }
      "`" + StripCodeTags(m + tail);
      { StripCodeTagsAppend(m, tail); }
      "`" + (m + StripCodeTags(tail));
      { StripCloseTag(x); }
      "`" + (m + ("`" + StripCodeTags(x)));
      { AppendAssoc(m, "`", StripCodeTags(x)); AppendAssoc("`", m + "`", StripCodeTags(x));
        AppendAssoc("`", m, "`"); }
      "`" + m + "`" + StripCodeTags(x);
    }
  }

  lemma StripOpenTag(t: string)
    ensures StripCodeTags("<code>" + t) == "`" + StripCodeTags(t)
  {
    StartsWithAppend("<code>", t);
  }

  lemma StripCloseTag(x: string)
    ensures StripCodeTags("</code>" + x) == "`" + StripCodeTags(x)
  {
    var tail := "</code>" + x;
    StartsWithAppend("</code>", x);
    assert !StartsWith(tail, "<code>") by {
      assert tail[1] == '/';
    }
  }

  lemma SplitAtChar(s: string, i: nat)
    requires i < |s|
    ensures s == s[..i] + [s[i]] + s[i + 1..]
  {
  }

  /** Code spans only add tags: with them read back as backticks, the text is unchanged. */
  lemma {:induction false} StripCodeSpans(s: string)
    requires '<' !in s
    ensures StripCodeTags(CodeSpans(s)) == s
    decreases |s|, 0
  {
    match IndexOfChar(s, '`')
    case None =>
      StripCodeTagsAppend(s, []);
      assert s + [] == s;
    case Some(i) =>
      var t := s[i + 1..];
      assert '<' !in t && '<' !in s[..i];
      StripAfterBacktick(t);
      StripCodeTagsAppend(s[..i], AfterBacktick(t));
      SplitAtChar(s, i);
  }

  lemma {:induction false} StripAfterBacktick(t: string)
    requires '<' !in t
    ensures StripCodeTags(AfterBacktick(t)) == "`" + t
    decreases |t|, 1
  {
    var k := IndexOfChar(t, '`');
    if k.Some? && k.value > 0 {
      var m, rest := t[..k.value], t[k.value + 1..];
      assert '<' !in m && '<' !in rest;
      StripCodeSpans(rest);
      StripOneSpan(m, CodeSpans(rest));
      SplitAtChar(t, k.value);
    } else {
      StripCodeSpans(t);
      StripCodeTagsAppend("`", CodeSpans(t));
    }
  }

  /** Inline formatting loses nothing: reading the code tags back as backticks and
      decoding the entities gives the original text. */
  lemma FormatInlineRoundTrip(text: string)
    ensures Unescape(StripCodeTags(FormatInline(text))) == text
  {
    EscapeHtmlNoAngles(text);
    StripCodeSpans(EscapeHtml(text));
    UnescapeEscapeHtml(text);
  }

  /** Text without backticks is only escaped. */
  lemma FormatInlineNoBackticks(text: string)
    requires '`' !in text
    ensures FormatInline(text) == EscapeHtml(text)
  {
    EscapeHtmlNoAngles(text);
    assert IndexOfChar(EscapeHtml(text), '`').None?;
  }
}

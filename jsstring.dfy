/** The JavaScript string primitives the site's text code is built from:
    the `\s`, `\w` and `.` classes of its regular expressions, `trim`,
    `toLowerCase`, `startsWith`, `includes`/`indexOf`, `split` and `join`. */
module JsString {
  import opened Wrappers

  /** `\s` of a JavaScript regular expression, which is also exactly the set of
      code points `String.prototype.trim` strips: the WhiteSpace and
      LineTerminator code points of ECMAScript. */
  predicate IsWhitespace(c: char) {
    var n := c as int;
    n == 0x09 || n == 0x0A || n == 0x0B || n == 0x0C || n == 0x0D || n == 0x20
    || n == 0xA0 || n == 0x1680 || (0x2000 <= n <= 0x200A) || n == 0x2028
    || n == 0x2029 || n == 0x202F || n == 0x205F || n == 0x3000 || n == 0xFEFF
  }

  /** The code points the regular-expression `.` does not match. */
  predicate IsLineTerminator(c: char) {
    var n := c as int;
    n == 0x0A || n == 0x0D || n == 0x2028 || n == 0x2029
  }

  /** `\w` of a JavaScript regular expression without the `u` flag. */
  predicate IsWordChar(c: char) {
    ('a' <= c <= 'z') || ('A' <= c <= 'Z') || ('0' <= c <= '9') || c == '_'
  }

  lemma TerminatorIsWhitespace(c: char)
    ensures IsLineTerminator(c) ==> IsWhitespace(c)
  {
  }

  predicate AllWhitespace(s: string) {
    forall i :: 0 <= i < |s| ==> IsWhitespace(s[i])
  }

  lemma AllWhitespaceAppend(a: string, b: string)
    ensures AllWhitespace(a + b) <==> AllWhitespace(a) && AllWhitespace(b)
  {
    if AllWhitespace(a) && AllWhitespace(b) {
      forall i | 0 <= i < |a + b| ensures IsWhitespace((a + b)[i]) {
        if i >= |a| {
          assert (a + b)[i] == b[i - |a|];
        }
      }
    }
    if AllWhitespace(a + b) {
      forall i | 0 <= i < |b| ensures IsWhitespace(b[i]) {
        assert (a + b)[|a| + i] == b[i];
      }
      forall i | 0 <= i < |a| ensures IsWhitespace(a[i]) {
        assert (a + b)[i] == a[i];
      }
    }
  }

  /** Every character matches the regular-expression `.`. */
  predicate NoLineTerminator(s: string) {
    forall i :: 0 <= i < |s| ==> !IsLineTerminator(s[i])
  }

  /** Every character matches `\S`. */
  predicate NoWhitespace(s: string) {
    forall i :: 0 <= i < |s| ==> !IsWhitespace(s[i])
  }

  predicate AllWordChars(s: string) {
    forall i :: 0 <= i < |s| ==> IsWordChar(s[i])
  }

  /** Length of the longest prefix of `s` made of whitespace (what a greedy `\s*` takes). */
  function WhitespaceRun(s: string): (n: nat)
    ensures n <= |s| && AllWhitespace(s[..n])
    ensures n < |s| ==> !IsWhitespace(s[n])
    decreases |s|
  {
    if s != [] && IsWhitespace(s[0]) then 1 + WhitespaceRun(s[1..]) else 0
  }

  /** A run of whitespace followed by a non-whitespace character (or the end) is the longest one. */
  lemma {:induction false} WhitespaceRunExact(s: string, w: nat)
    requires w <= |s| && AllWhitespace(s[..w]) && (w < |s| ==> !IsWhitespace(s[w]))
    ensures WhitespaceRun(s) == w
    decreases w
  {
    if w > 0 {
      assert s[0] == s[..w][0];
      assert s[1..][..w - 1] == s[..w][1..];
      WhitespaceRunExact(s[1..], w - 1);
    }
  }

  /** Length of the longest prefix of `s` made of word characters (what a greedy `\w*` takes). */
  function WordRun(s: string): (n: nat)
    ensures n <= |s| && AllWordChars(s[..n])
    ensures n < |s| ==> !IsWordChar(s[n])
    decreases |s|
  {
    if s != [] && IsWordChar(s[0]) then 1 + WordRun(s[1..]) else 0
  }

  /** Where the whitespace at the end of `s[..k]` begins: what `trimEnd` cuts back to. */
  function TrailingStart(s: string, k: nat): (e: nat)
    requires k <= |s|
    ensures e <= k
    ensures forall i :: e <= i < k ==> IsWhitespace(s[i])
    ensures e > 0 ==> !IsWhitespace(s[e - 1])
    decreases k
  {
    if k > 0 && IsWhitespace(s[k - 1]) then TrailingStart(s, k - 1) else k
  }

  /** `s.trim()`: the whitespace at both ends cut off. */
  function Trim(s: string): (r: string)
    ensures |r| <= |s|
    ensures r != [] ==> !IsWhitespace(r[0]) && !IsWhitespace(r[|r| - 1])
    ensures r == [] <==> AllWhitespace(s)
  {
    var a := WhitespaceRun(s);
    var e := TrailingStart(s, |s|);
    if e <= a then
      forall i | 0 <= i < |s| ensures IsWhitespace(s[i]) {
        if i < a {
          assert s[..a][i] == s[i];
        }
      }
      []
    else
      assert s[a..e][0] == s[a];
      s[a..e]
  }

  /** What `trim` keeps is all of a string that neither starts nor ends with whitespace. */
  lemma TrimKeeps(s: string)
    requires s == [] || (!IsWhitespace(s[0]) && !IsWhitespace(s[|s| - 1]))
    ensures Trim(s) == s
  {
  }

  /** What `trim` removes is whitespace on either side: the result sits inside `s`
      between two whitespace runs. */
  lemma TrimSurround(s: string)
    ensures exists i :: 0 <= i <= |s| - |Trim(s)| && s[i..i + |Trim(s)|] == Trim(s)
                        && AllWhitespace(s[..i]) && AllWhitespace(s[i + |Trim(s)|..])
  {
    var a := WhitespaceRun(s);
    var e := TrailingStart(s, |s|);
    if e <= a {
      assert Trim(s) == [];
      assert s[a..a] == [] && s[a..] == [];
    } else {
      assert Trim(s) == s[a..e];
      forall i | 0 <= i < |s[e..]| ensures IsWhitespace(s[e..][i]) {
        assert s[e..][i] == s[e + i];
      }
    }
  }

  lemma TrimIdempotent(s: string)
    ensures Trim(Trim(s)) == Trim(s)
  {
    TrimKeeps(Trim(s));
  }

  function LowerChar(c: char): char {
    if 'A' <= c <= 'Z' then (c as int + 32) as char else c
  }

  /** `s.toLowerCase()` on the ASCII letters; every other character is kept. */
  function ToLower(s: string): (r: string)
    ensures |r| == |s|
    ensures forall i :: 0 <= i < |s| ==> r[i] == LowerChar(s[i])
  {
    seq(|s|, i requires 0 <= i < |s| => LowerChar(s[i]))
  }

  lemma ToLowerAppend(a: string, b: string)
    ensures ToLower(a + b) == ToLower(a) + ToLower(b)
  {
  }

  /** `s.startsWith(p)`. */
  predicate StartsWith(s: string, p: string) {
    |p| <= |s| && s[..|p|] == p
  }

  /** `p` occurs in `s` at index `k`. */
  predicate OccursAt(s: string, p: string, k: int) {
    0 <= k && k + |p| <= |s| && s[k..k + |p|] == p
  }

  /** `s.includes(p)`. */
  predicate Contains(s: string, p: string) {
    exists k :: 0 <= k <= |s| - |p| && OccursAt(s, p, k)
  }

  /** `s.indexOf(p)`, with `None` for -1: the first index at which `p` occurs. */
  function IndexOf(s: string, p: string): (r: Option<nat>)
    ensures r.Some? ==> OccursAt(s, p, r.value)
    ensures r.Some? ==> forall k :: 0 <= k < r.value ==> !OccursAt(s, p, k)
    ensures r.None? <==> !Contains(s, p)
    decreases |s|
  {
    if StartsWith(s, p) then
      assert OccursAt(s, p, 0);
      Some(0)
    else if s == [] then
      assert |p| > 0;
      assert forall k :: !OccursAt(s, p, k);
      None
    else
      var r := IndexOf(s[1..], p);
      forall k | 1 <= k ensures OccursAt(s, p, k) <==> OccursAt(s[1..], p, k - 1) {
        if k + |p| <= |s| {
          assert s[k..k + |p|] == s[1..][k - 1..k - 1 + |p|];
        }
      }
      assert !OccursAt(s, p, 0);
      match r
      case None =>
        assert forall k :: 0 <= k ==> !OccursAt(s[1..], p, k);
        None
      case Some(i) =>
        assert OccursAt(s[1..], p, i);
        Some(i + 1)
  }

  /** Containment survives putting text on either side. */
  lemma ContainsInContext(a: string, s: string, b: string, p: string)
    requires Contains(s, p)
    ensures Contains(a + s + b, p)
  {
    var k :| 0 <= k <= |s| - |p| && OccursAt(s, p, k);
    assert (a + s + b)[|a| + k..|a| + k + |p|] == s[k..k + |p|];
    assert OccursAt(a + s + b, p, |a| + k);
  }

  /** `s.split(sep)` for a one-character separator: the pieces between separators, in order;
      an empty string gives one empty piece. */
  function Split(s: string, sep: char): (r: seq<string>)
    ensures |r| >= 1
    ensures forall i :: 0 <= i < |r| ==> sep !in r[i]
    decreases |s|
  {
    if s == [] then [[]]
    else
      var rest := Split(s[1..], sep);
      if s[0] == sep then [[]] + rest
      else [[s[0]] + rest[0]] + rest[1..]
  }

  /** `parts.join(sep)`. */
  function Join(parts: seq<string>, sep: string): string
    decreases |parts|
  {
    if |parts| == 0 then []
    else if |parts| == 1 then parts[0]
    else parts[0] + sep + Join(parts[1..], sep)
  }

  /** Joining the pieces of a split with the separator gives back the string: `split` loses nothing. */
  lemma {:induction false} JoinSplit(s: string, sep: char)
    ensures Join(Split(s, sep), [sep]) == s
    decreases |s|
  {
    if s != [] {
      var rest := Split(s[1..], sep);
      JoinSplit(s[1..], sep);
      if s[0] == sep {
        assert Split(s, sep) == [[]] + rest;
        assert Join([[]] + rest, [sep]) == [] + [sep] + Join(rest, [sep]);
      } else {
        var r := [[s[0]] + rest[0]] + rest[1..];
        assert Split(s, sep) == r;
        if |rest| == 1 {
          assert Join(r, [sep]) == [s[0]] + rest[0];
          assert Join(rest, [sep]) == rest[0];
        } else {
          assert Join(r, [sep]) == [s[0]] + rest[0] + [sep] + Join(rest[1..], [sep]);
          assert Join(rest, [sep]) == rest[0] + [sep] + Join(rest[1..], [sep]);
        }
        assert s == [s[0]] + s[1..];
      }
    }
  }

  /** A string without the separator is one piece. */
  lemma {:induction false} SplitNoSeparator(s: string, sep: char)
    requires sep !in s
    ensures Split(s, sep) == [s]
    decreases |s|
  {
    if s != [] {
      assert sep !in s[1..];
      SplitNoSeparator(s[1..], sep);
      assert [s[0]] + s[1..] == s;
    }
  }

  /** A separator splits off the text before it as its own piece. */
  lemma {:induction false} SplitAtSeparator(a: string, sep: char, b: string)
    requires sep !in a
    ensures Split(a + [sep] + b, sep) == [a] + Split(b, sep)
    decreases |a|
  {
    if a == [] {
      assert a + [sep] + b == [sep] + b;
      assert ([sep] + b)[1..] == b;
    } else {
      var s := a + [sep] + b;
      assert s[1..] == a[1..] + [sep] + b;
      assert sep !in a[1..];
      SplitAtSeparator(a[1..], sep, b);
      assert [a[0]] + a[1..] == a;
    }
  }

  /** `parts.map((l) => l.trim())`. */
  function TrimAll(parts: seq<string>): (r: seq<string>)
    ensures |r| == |parts| && forall i :: 0 <= i < |parts| ==> r[i] == Trim(parts[i])
  {
    seq(|parts|, i requires 0 <= i < |parts| => Trim(parts[i]))
  }

  lemma TrimAllAppend(a: seq<string>, b: seq<string>)
    ensures TrimAll(a + b) == TrimAll(a) + TrimAll(b)
  {
  }

  /** Splitting at one separator splits the text on each side of it separately. */
  lemma {:induction false} SplitAppend(x: string, sep: char, y: string)
    ensures Split(x + [sep] + y, sep) == Split(x, sep) + Split(y, sep)
    decreases |x|
  {
    if x == [] {
      assert x + [sep] + y == [sep] + y;
      assert ([sep] + y)[1..] == y;
    } else {
      var s := x + [sep] + y;
      HeadTail(x, [sep] + y);
      assert s == x + ([sep] + y);
      AppendAssoc(x[1..], [sep], y);
      SplitAppend(x[1..], sep, y);
      var a, b := Split(x[1..], sep), Split(y, sep);
      assert Split(s[1..], sep) == a + b;
      if x[0] == sep {
        calc {
          Split(s, sep);
          [[]] + (a + b);
          { AppendAssoc([[]], a, b); }
          ([[]] + a) + b;
        }
      } else {
        HeadTail(a, b);
        calc {
          Split(s, sep);
          [[x[0]] + (a + b)[0]] + (a + b)[1..];
          [[x[0]] + a[0]] + (a[1..] + b);
          { AppendAssoc([[x[0]] + a[0]], a[1..], b); }
          ([[x[0]] + a[0]] + a[1..]) + b;
        }
      }
    }
  }

  lemma HeadTail<T>(a: seq<T>, b: seq<T>)
    requires a != []
    ensures (a + b)[0] == a[0] && (a + b)[1..] == a[1..] + b
  {
  }

  lemma AppendAssoc<T>(a: seq<T>, b: seq<T>, c: seq<T>)
    ensures a + b + c == a + (b + c)
  {
  }

  /** Splitting what was joined gives the parts back, when no part holds the separator. */
  lemma {:induction false} SplitJoin(parts: seq<string>, sep: char)
    requires parts != [] && forall i :: 0 <= i < |parts| ==> sep !in parts[i]
    ensures Split(Join(parts, [sep]), sep) == parts
    decreases |parts|
  {
    if |parts| == 1 {
      SplitNoSeparator(parts[0], sep);
    } else {
      SplitJoin(parts[1..], sep);
      SplitAtSeparator(parts[0], sep, Join(parts[1..], [sep]));
      assert [parts[0]] + parts[1..] == parts;
    }
  }
}

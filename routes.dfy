/** The API's endpoints and `buildUrl`, which fills the `:name` placeholders of a path
    (shared/routes.ts). */
module Routes {
  import opened Wrappers
  import opened JsString

  datatype Endpoint = Endpoint(httpMethod: string, path: string)

  const PagesList := Endpoint("GET", "/api/pages")
  const PagesBySlug := Endpoint("GET", "/api/pages/:slug")
  const ProjectsList := Endpoint("GET", "/api/projects")
  const ProjectsBySlug := Endpoint("GET", "/api/projects/:slug")
  const LabNotesList := Endpoint("GET", "/api/lab-notes")
  const LabNotesBySlug := Endpoint("GET", "/api/lab-notes/:slug")

  // ---------------------------------------------------------------------------
  // `String.prototype.replace` with a string pattern.

  /** The replacement text for one match, with the `$` patterns a string pattern allows:
      `$$` is a dollar sign, `$&` the matched text, `` $` `` the text before the match and
      `$'` the text after it. There are no capture groups, so every other `$` is literal. */
  function Substitution(rep: string, matched: string, before: string, after: string): string
    decreases |rep|
  {
    if rep == [] then []
    else if rep[0] == '$' && |rep| >= 2 && (rep[1] == '$' || rep[1] == '&' || rep[1] == '`' || rep[1] == '\'') then
      var part := if rep[1] == '$' then "$" else if rep[1] == '&' then matched
                  else if rep[1] == '`' then before else after;
      part + Substitution(rep[2..], matched, before, after)
    else [rep[0]] + Substitution(rep[1..], matched, before, after)
  }

  /** A replacement without `$` is inserted as it is. */
  lemma {:induction false} SubstitutionPlain(rep: string, matched: string, before: string, after: string)
    requires '$' !in rep
    ensures Substitution(rep, matched, before, after) == rep
    decreases |rep|
  {
    if rep != [] {
      assert '$' !in rep[1..];
      SubstitutionPlain(rep[1..], matched, before, after);
      assert [rep[0]] + rep[1..] == rep;
    }
  }

  /** `s.replace(pat, rep)`: the first occurrence of `pat` replaced; `s` itself when there is none. */
  function ReplaceFirst(s: string, pat: string, rep: string): (r: string)
    ensures IndexOf(s, pat).None? ==> r == s
  {
    match IndexOf(s, pat)
    case None => s
    case Some(p) => ReplaceAt(s, pat, rep, p)
  }

  /** The occurrence of `pat` at `p` replaced. */
  function ReplaceAt(s: string, pat: string, rep: string, p: nat): string
    requires OccursAt(s, pat, p)
  {
    s[..p] + Substitution(rep, pat, s[..p], s[p + |pat|..]) + s[p + |pat|..]
  }

  /** With a plain replacement, the first occurrence (the one `IndexOf` finds) is cut out
      and the replacement put in its place; the text after it is kept whole. */
  lemma ReplaceFirstPlain(s: string, pat: string, rep: string)
    requires '$' !in rep && Contains(s, pat)
    ensures IndexOf(s, pat).Some?
    ensures ReplaceFirst(s, pat, rep) == s[..IndexOf(s, pat).value] + rep + s[IndexOf(s, pat).value + |pat|..]
  {
    var p := IndexOf(s, pat).value;
    ReplaceFirstAt(s, pat, rep, p);
    ReplaceAtPlain(s, pat, rep, p);
  }

  lemma ReplaceAtPlain(s: string, pat: string, rep: string, p: nat)
    requires OccursAt(s, pat, p) && '$' !in rep
    ensures ReplaceAt(s, pat, rep, p) == s[..p] + rep + s[p + |pat|..]
  {
    SubstitutionPlain(rep, pat, s[..p], s[p + |pat|..]);
  }

  lemma ReplaceFirstAt(s: string, pat: string, rep: string, p: nat)
    requires IndexOf(s, pat) == Some(p)
    ensures OccursAt(s, pat, p)
    ensures ReplaceFirst(s, pat, rep) == ReplaceAt(s, pat, rep, p)
  {
  }

  // ---------------------------------------------------------------------------
  // `buildUrl`.

  /** The placeholder a parameter fills: `:` and its name. */
  function Placeholder(key: string): string {
    ":" + key
  }

  /** One iteration of the `forEach`: replace the first `:key` when there is one. */
  function SubstituteOne(url: string, entry: (string, string)): string {
    if Contains(url, Placeholder(entry.0)) then ReplaceFirst(url, Placeholder(entry.0), entry.1) else url
  }

  /** The `forEach` over the entries: each step sees what the earlier steps made. */
  function SubstituteAll(path: string, entries: seq<(string, string)>): string
    decreases |entries|
  {
    if entries == [] then path
    else SubstituteOne(SubstituteAll(path, entries[..|entries| - 1]), entries[|entries| - 1])
  }

  /** `buildUrl(path, params)`. The parameters are given in the order `Object.entries` lists
      them, with their values already converted by `String`. */
  method BuildUrl(path: string, params: Option<seq<(string, string)>>) returns (url: string)
    ensures params.None? ==> url == path
    ensures url == SubstituteAll(path, params.GetOr([]))
  {
    url := path;
    if params.Some? {
      var entries := params.value;
      for i := 0 to |entries|
        invariant url == SubstituteAll(path, entries[..i])
      {
        assert entries[..i + 1][..i] == entries[..i];
        var (key, value) := entries[i];
        if Contains(url, Placeholder(key)) {
          url := ReplaceFirst(url, Placeholder(key), value);
        }
      }
      assert entries[..|entries|] == entries;
    }
  }

  // ---------------------------------------------------------------------------
  // Properties of the substitution.

  /** A parameter whose placeholder does not occur leaves the url unchanged. */
  lemma AbsentKeyUnchanged(url: string, key: string, value: string)
    requires !Contains(url, Placeholder(key))
    ensures SubstituteOne(url, (key, value)) == url
  {
  }

  /** A parameter whose placeholder occurs replaces its first occurrence, and only that one. */
  lemma PresentKeyReplacesFirst(url: string, key: string, value: string)
    requires Contains(url, Placeholder(key)) && '$' !in value
    ensures IndexOf(url, Placeholder(key)).Some?
    ensures var p := IndexOf(url, Placeholder(key)).value;
            SubstituteOne(url, (key, value)) == url[..p] + value + url[p + |key| + 1..]
  {
    ReplaceFirstPlain(url, Placeholder(key), value);
  }

  /** The entries are applied in order: the first ones, then the rest on their result. */
  lemma {:induction false} SubstituteAllAppend(path: string, a: seq<(string, string)>, b: seq<(string, string)>)
    ensures SubstituteAll(path, a + b) == SubstituteAll(SubstituteAll(path, a), b)
    decreases |b|
  {
    if b == [] {
      assert a + b == a;
    } else {
      assert (a + b)[..|a + b| - 1] == a + b[..|b| - 1];
      SubstituteAllAppend(path, a, b[..|b| - 1]);
    }
  }

  lemma SubstituteAllOne(path: string, entry: (string, string))
    ensures SubstituteAll(path, [entry]) == SubstituteOne(path, entry)
  {
    assert [entry][..0] == [];
  }

  /** A placeholder after a colon-free prefix is the one replaced, with the prefix and the
      rest of the url around the substitution. */
  lemma FirstPlaceholder(prefix: string, key: string, suffix: string, value: string)
    requires ':' !in prefix
    ensures SubstituteOne(prefix + Placeholder(key) + suffix, (key, value))
            == prefix + Substitution(value, Placeholder(key), prefix, suffix) + suffix
  {
    var url, pat, k := prefix + Placeholder(key) + suffix, Placeholder(key), |prefix|;
    assert url[k..k + |pat|] == pat;
    forall q | 0 <= q < k ensures !OccursAt(url, pat, q) {
      assert url[q] == prefix[q] != ':';
      if q + |pat| <= |url| {
        assert url[q..q + |pat|][0] == url[q];
      }
    }
    assert OccursAt(url, pat, k);
    assert IndexOf(url, pat) == Some(k);
    ReplaceFirstAt(url, pat, value, k);
    assert url[..k] == prefix && url[k + |pat|..] == suffix;
  }

  /** With a plain value, the placeholder is swapped for the value. */
  lemma FirstPlaceholderPlain(prefix: string, key: string, suffix: string, value: string)
    requires ':' !in prefix && '$' !in value
    ensures SubstituteOne(prefix + Placeholder(key) + suffix, (key, value)) == prefix + value + suffix
  {
    FirstPlaceholder(prefix, key, suffix, value);
    SubstitutionPlain(value, Placeholder(key), prefix, suffix);
  }

  /** A `/:slug` at the end of a path without other colons becomes `/` and the slug. */
  lemma SlugUrl(base: string, slug: string)
    requires ':' !in base && '$' !in slug
    ensures SubstituteAll(base + "/:slug", [("slug", slug)]) == base + "/" + slug
  {
    FirstPlaceholderPlain(base + "/", "slug", "", slug);
    assert base + "/" + Placeholder("slug") + "" == base + "/:slug";
    SubstituteAllOne(base + "/:slug", ("slug", slug));
  }

  /** A detail endpoint with a slug is its list endpoint, `/`, and the slug. */
  lemma ProjectBySlugUrl(slug: string)
    requires '$' !in slug
    ensures SubstituteAll(ProjectsBySlug.path, [("slug", slug)]) == ProjectsList.path + "/" + slug
  {
    var base := ProjectsList.path;
    assert ':' !in base;
    assert ProjectsBySlug.path == base + "/:slug";
    SlugUrl(base, slug);
  }

  lemma PageBySlugUrl(slug: string)
    requires '$' !in slug
    ensures SubstituteAll(PagesBySlug.path, [("slug", slug)]) == PagesList.path + "/" + slug
  {
    var base := PagesList.path;
    assert ':' !in base;
    assert PagesBySlug.path == base + "/:slug";
    SlugUrl(base, slug);
  }

  lemma LabNoteBySlugUrl(slug: string)
    requires '$' !in slug
    ensures SubstituteAll(LabNotesBySlug.path, [("slug", slug)]) == LabNotesList.path + "/" + slug
  {
    var base := LabNotesList.path;
    assert ':' !in base;
    assert LabNotesBySlug.path == base + "/:slug";
    SlugUrl(base, slug);
  }

  /** Placeholders are matched as text: `:slug` is found inside `:slugX`. */
  lemma PlaceholderInsideLongerName()
    ensures SubstituteOne("/a/:slugX", ("slug", "v")) == "/a/vX"
  {
    FirstPlaceholderPlain("/a/", "slug", "X", "v");
    assert "/a/" + Placeholder("slug") + "X" == "/a/:slugX";
  }

  lemma SubstituteAllTwo(path: string, e1: (string, string), e2: (string, string))
    ensures SubstituteAll(path, [e1, e2]) == SubstituteOne(SubstituteOne(path, e1), e2)
  {
    assert [e1, e2][..1] == [e1];
    SubstituteAllOne(path, e1);
  }

  /** A later parameter sees what an earlier one put in: a value holding a placeholder is filled in turn. */
  lemma LaterEntrySeesEarlier()
    ensures SubstituteAll("/:a", [("a", ":b"), ("b", "x")]) == "/x"
  {
    SubstituteAllTwo("/:a", ("a", ":b"), ("b", "x"));
    assert "/:" + "a" == "/:a";
    FillAfterSlash("a", ":b");
    assert "/" + ":b" == "/:" + "b";
    FillAfterSlash("b", "x");
  }

  /** `/:key` with a `$`-free value becomes `/` and the value. */
  lemma FillAfterSlash(key: string, value: string)
    requires '$' !in value
    ensures SubstituteOne("/:" + key, (key, value)) == "/" + value
  {
    FirstPlaceholderPlain("/", key, "", value);
    assert "/" + Placeholder(key) + "" == "/:" + key;
    assert "/" + value + "" == "/" + value;
  }

  /** A replacement is read left to right: a `$`-free start is copied as it is. */
  lemma {:induction false} SubstitutionPlainPrefix(x: string, rest: string, matched: string, before: string, after: string)
    requires '$' !in x
    ensures Substitution(x + rest, matched, before, after) == x + Substitution(rest, matched, before, after)
    decreases |x|
  {
    if x == [] {
      assert x + rest == rest;
    } else {
      assert (x + rest)[0] == x[0] != '$';
      assert (x + rest)[1..] == x[1..] + rest;
      assert '$' !in x[1..];
      SubstitutionPlainPrefix(x[1..], rest, matched, before, after);
      assert [x[0]] + x[1..] == x;
    }
  }

  lemma SubstitutionMatched(rest: string, matched: string, before: string, after: string)
    ensures Substitution("$&" + rest, matched, before, after) == matched + Substitution(rest, matched, before, after)
  {
    assert ("$&" + rest)[2..] == rest;
  }

  /** `$&` between two `$`-free parts puts the matched text between them. */
  lemma SubstitutionAmpersand(x: string, y: string, matched: string, before: string, after: string)
    requires '$' !in x && '$' !in y
    ensures Substitution(x + "$&" + y, matched, before, after) == x + matched + y
  {
    var tail := "$&" + y;
    calc {
      Substitution(x + "$&" + y, matched, before, after);
    == { assert x + "$&" + y == x + tail; }
      Substitution(x + tail, matched, before, after);
    == { SubstitutionPlainPrefix(x, tail, matched, before, after); }
      x + Substitution(tail, matched, before, after);
    == { SubstitutionMatched(y, matched, before, after); }
      x + (matched + Substitution(y, matched, before, after));
    == { SubstitutionPlain(y, matched, before, after); }
      x + matched + y;
    }
  }

  /** A value is not always inserted as written: `$&` in it stands for the placeholder itself. */
  lemma DollarAmpersandInValue(prefix: string, key: string, x: string, y: string)
    requires ':' !in prefix && '$' !in x && '$' !in y
    ensures SubstituteOne(prefix + Placeholder(key), (key, x + "$&" + y))
            == prefix + x + Placeholder(key) + y
  {
    var m, value := Placeholder(key), x + "$&" + y;
    calc {
      SubstituteOne(prefix + m, (key, value));
    == { assert prefix + m == prefix + m + ""; }
      SubstituteOne(prefix + m + "", (key, value));
    == { FirstPlaceholder(prefix, key, "", value); }
      prefix + Substitution(value, m, prefix, "") + "";
    == { SubstitutionAmpersand(x, y, m, prefix, ""); }
      prefix + (x + m + y) + "";
    == { assert prefix + (x + m + y) + "" == prefix + x + m + y; }
      prefix + x + m + y;
    }
  }
}

/** The top navigation bar's links and which of them is highlighted
    (client/src/components/TopNav.tsx). */
module TopNav {
  import opened JsString

  datatype NavItem = NavItem(caption: string, href: string)

  const NavItems := [
    NavItem("About", "/about"),
    NavItem("Projects", "/projects"),
    NavItem("Lab Notes", "/lab-notes"),
    NavItem("Resume", "/resume")
  ]

  /** `isActive(href)` at `location`: the root only on itself, any other link on every
      location that starts with it. */
  predicate IsActive(location: string, href: string) {
    if href == "/" then location == "/" else StartsWith(location, href)
  }

  /** The root link is highlighted on the root and nowhere else. */
  lemma RootOnlyOnRoot(location: string)
    ensures IsActive(location, "/") <==> location == "/"
  {
  }

  /** Any other link is highlighted exactly on the locations under it, as text. */
  lemma ActiveUnderPrefix(href: string, rest: string)
    requires href != "/"
    ensures IsActive(href + rest, href)
  {
    assert (href + rest)[..|href|] == href;
  }

  /** There is no path-segment boundary: `/projectsX` highlights the projects link, as does
      a project's own page. */
  lemma NoSegmentBoundary()
    ensures IsActive("/projectsX", "/projects")
    ensures IsActive("/projects/orpheos", "/projects")
  {
    ActiveUnderPrefix("/projects", "X");
    ActiveUnderPrefix("/projects", "/orpheos");
  }

  /** Every link of the bar starts with `/` and a second character no other link shares. */
  lemma DistinctSecondChars()
    ensures forall i :: 0 <= i < |NavItems| ==> |NavItems[i].href| >= 2 && NavItems[i].href[0] == '/'
    ensures forall i, j :: 0 <= i < j < |NavItems| ==> NavItems[i].href[1] != NavItems[j].href[1]
  {
  }

  /** At most one link of the bar is highlighted at any location. */
  lemma AtMostOneActive(location: string, i: nat, j: nat)
    requires i < |NavItems| && j < |NavItems|
    requires IsActive(location, NavItems[i].href) && IsActive(location, NavItems[j].href)
    ensures i == j
  {
    DistinctSecondChars();
    var a, b := NavItems[i].href, NavItems[j].href;
    assert a != "/" && b != "/";
    assert location[1] == location[..|a|][1] == a[1];
    assert location[1] == location[..|b|][1] == b[1];
  }
}

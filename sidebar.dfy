/**
 * The navigation sidebar's pure rules: which nav item is highlighted for a path, and the
 * fallbacks of the profile block.
 */
module Sidebar {
  import opened Wrappers

  datatype NavItem = NavItem(href: string, caption: string)

  /** The four nav entries, in display order. */
  const NavItems: seq<NavItem> := [
    NavItem("/dashboard", "Overview"),
    NavItem("/pipeline", "Pipeline"),
    NavItem("/deals", "Deals"),
    NavItem("/settings", "Settings")]

  /** `s.startsWith(prefix)`: a plain string prefix, with no path-segment boundary. */
  predicate StartsWith(s: string, prefix: string) {
    |prefix| <= |s| && s[..|prefix|] == prefix
  }

  /** The highlight rule: Overview only on the exact path, the others by prefix. */
  predicate IsActive(item: NavItem, pathname: string): (b: bool)
    ensures b ==> StartsWith(pathname, item.href)
    ensures item.href == "/dashboard" ==> (b <==> pathname == item.href)
    ensures item.href != "/dashboard" ==> (b <==> StartsWith(pathname, item.href))
  {
    if item.href == "/dashboard" then pathname == "/dashboard" else StartsWith(pathname, item.href)
  }

  /** The highlight flag of each nav entry, as the `map` over the entries renders them. */
  function ActiveFlags(pathname: string): (r: seq<bool>)
    ensures |r| == |NavItems|
    ensures r[0] <==> pathname == "/dashboard"
    ensures forall i :: 1 <= i < |r| ==> (r[i] <==> StartsWith(pathname, NavItems[i].href))
    ensures forall i, j :: 0 <= i < j < |r| ==> !(r[i] && r[j])
  {
    AtMostOneActive(pathname);
    seq(|NavItems|, i requires 0 <= i < |NavItems| => IsActive(NavItems[i], pathname))
  }

  /** Overview is highlighted exactly on "/dashboard"; a sub-path does not highlight it. */
  lemma OverviewExact(pathname: string)
    ensures IsActive(NavItems[0], pathname) <==> pathname == "/dashboard"
    ensures !IsActive(NavItems[0], "/dashboard/x")
  {
  }

  /** Every other entry is highlighted on any path it prefixes, "/deals-old" included. */
  lemma OthersByPrefix(i: nat, pathname: string)
    requires 1 <= i < |NavItems|
    ensures IsActive(NavItems[i], pathname) <==> StartsWith(pathname, NavItems[i].href)
    ensures IsActive(NavItems[2], "/deals-old")
  {
    assert "/deals-old"[..6] == "/deals";
  }

  /** A path that starts with a prefix of three or more characters shares its first three. */
  lemma HeadOfPrefix(pathname: string, prefix: string)
    requires |prefix| >= 3 && StartsWith(pathname, prefix)
    ensures pathname[..3] == prefix[..3]
  {
    assert pathname[..3] == pathname[..|prefix|][..3];
  }

  /** No path highlights two of the four entries: their first three characters all differ. */
  lemma AtMostOneActive(pathname: string)
    ensures forall i, j :: 0 <= i < j < |NavItems| ==>
      !(IsActive(NavItems[i], pathname) && IsActive(NavItems[j], pathname))
  {
    forall i, j | 0 <= i < j < |NavItems|
      ensures !(IsActive(NavItems[i], pathname) && IsActive(NavItems[j], pathname))
    {
      var hi, hj := NavItems[i].href, NavItems[j].href;
      assert hi[..3] != hj[..3] by {
        assert hi[2] != hj[2] || hi[1] != hj[1];
      }
      if IsActive(NavItems[i], pathname) {
        HeadOfPrefix(pathname, hi);
        if StartsWith(pathname, hj) {
          HeadOfPrefix(pathname, hj);
        }
      }
    }
  }

  /** The fields of a profile the sidebar shows; either may be null. */
  datatype Profile = Profile(fullName: Option<string>, role: Option<string>)

  /** `toUpperCase` on one character, for the ASCII letters. */
  function Upper(c: char): (r: char)
    ensures 'a' <= c <= 'z' ==> r as int == c as int - 32
    ensures !('a' <= c <= 'z') ==> r == c
  {
    if 'a' <= c <= 'z' then (c as int - 32) as char else c
  }

  /**
   * The avatar initial: the upper-cased first character of the full name; "?" when there is
   * no profile or no name; an empty name gives the empty string.
   */
  function Initial(profile: Option<Profile>): (r: string)
    ensures profile.None? || profile.value.fullName.None? ==> r == "?"
    ensures profile.Some? && profile.value.fullName.Some? ==>
      var name := profile.value.fullName.value;
      |r| == (if name == "" then 0 else 1) && (name != "" ==> r[0] == Upper(name[0]))
  {
    match profile
    case None => "?"
    case Some(p) =>
      match p.fullName
      case None => "?"
      case Some(name) => if name == "" then "" else [Upper(name[0])]
  }

  /** The shown name: the full name, or "User" without one. */
  function DisplayName(profile: Option<Profile>): (r: string)
    ensures profile.Some? && profile.value.fullName.Some? ==> r == profile.value.fullName.value
    ensures profile.None? || profile.value.fullName.None? ==> r == "User"
  {
    if profile.Some? && profile.value.fullName.Some? then profile.value.fullName.value else "User"
  }

  /** The shown role: the profile's role, or "sales_rep" without one. */
  function Role(profile: Option<Profile>): (r: string)
    ensures profile.Some? && profile.value.role.Some? ==> r == profile.value.role.value
    ensures profile.None? || profile.value.role.None? ==> r == "sales_rep"
  {
    if profile.Some? && profile.value.role.Some? then profile.value.role.value else "sales_rep"
  }

  /** An empty name shows no initial at all, not the "?" placeholder. */
  lemma EmptyNameInitial(role: Option<string>)
    ensures Initial(Some(Profile(Some(""), role))) == ""
    ensures DisplayName(Some(Profile(Some(""), role))) == ""
  {
  }
}

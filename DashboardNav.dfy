/** The two rules of the dashboard header: which navigation link is active, and the
    initials shown in the avatar when there is no picture. */
module DashboardNav {
  import opened Wrappers
  import opened JsStrings

  datatype NavItem = NavItem(title: string, href: string)

  /** The fixed navigation entries, in display order. */
  function NavItems(): (r: seq<NavItem>)
    ensures |r| == 4
  {
    [ NavItem("Dashboard", "/dashboard"),
      NavItem("Document Extraction", "/dashboard/document"),
      NavItem("Email Extraction", "/dashboard/email"),
      NavItem("Extraction History", "/dashboard/history") ]
  }

  /** `pathname === item.href`. */
  predicate IsActive(pathname: string, item: NavItem) {
    pathname == item.href
  }

  /** The four entries are Dashboard, Document, Email and History, and no two share an href. */
  lemma NavItemsAreFixed()
    ensures NavItems()[0].title == "Dashboard" && NavItems()[1].title == "Document Extraction"
    ensures NavItems()[2].title == "Email Extraction" && NavItems()[3].title == "Extraction History"
    ensures forall i, j :: 0 <= i < j < |NavItems()| ==> NavItems()[i].href != NavItems()[j].href
  {
  }

  /** The active entry for a path: the one whose href is exactly the path, if any. */
  function ActiveIndex(pathname: string): (r: Option<nat>)
    ensures r.Some? ==> r.value < |NavItems()| && IsActive(pathname, NavItems()[r.value])
    ensures r.None? ==> forall i :: 0 <= i < |NavItems()| ==> !IsActive(pathname, NavItems()[i])
  {
    if pathname == "/dashboard" then Some(0)
    else if pathname == "/dashboard/document" then Some(1)
    else if pathname == "/dashboard/email" then Some(2)
    else if pathname == "/dashboard/history" then Some(3)
    else None
  }

  /** At most one entry is active for any path, and that entry is the one `ActiveIndex` names. */
  lemma AtMostOneActive(pathname: string, i: nat)
    requires i < |NavItems()| && IsActive(pathname, NavItems()[i])
    ensures ActiveIndex(pathname) == Some(i)
  {
  }

  /** There is no prefix matching: a sub-page of the dashboard does not activate Dashboard. */
  lemma NoPrefixMatching()
    ensures !IsActive("/dashboard/history", NavItems()[0])
    ensures ActiveIndex("/dashboard/history") == Some(3)
    ensures ActiveIndex("/dashboard/") == None && ActiveIndex("/dashboard/history/x") == None
  {
  }

  /** `n[0]` for one name segment, as it contributes to `join("")`: its first character, or
      nothing for an empty segment (`undefined` joins as ""). */
  function FirstChar(segment: string): (r: string)
    ensures |r| <= 1 && (r != "" <==> segment != "") && (r != "" ==> r[0] == segment[0])
  {
    if segment == "" then "" else [segment[0]]
  }

  /** `segments.map(n => n[0]).join("")`. */
  function FirstChars(segments: seq<string>): (r: string)
    ensures |r| <= |segments|
  {
    if segments == [] then "" else FirstChar(segments[0]) + FirstChars(segments[1..])
  }

  /** `user.name ? user.name.split(" ").map(n => n[0]).join("") : user.email?.[0] || "U"`. */
  function Initials(name: Option<string>, email: Option<string>): (r: string)
    ensures r == "" ==> name.Some? && name.value != ""
    ensures name.None? || name.value == "" ==> |r| == 1
  {
    if name.Some? && name.value != "" then FirstChars(Split(name.value, ' '))
    else if email.Some? && email.value != "" then [email.value[0]]
    else "U"
  }

  /** The first character of every word of `s`, reading left to right; `atBoundary` says
      whether the first character of `s` follows a space (or the start of the name). */
  function WordStarts(s: string, atBoundary: bool): (r: string)
    ensures ' ' !in r
    ensures |r| <= |s|
  {
    if s == "" then ""
    else if s[0] == ' ' then WordStarts(s[1..], true)
    else (if atBoundary then [s[0]] else "") + WordStarts(s[1..], false)
  }

  /** Taking the first character of each space-separated piece is taking the first character
      of each word: empty pieces between consecutive spaces contribute nothing. */
  lemma {:induction false} FirstCharsOfSplitAreWordStarts(s: string)
    ensures FirstChars(Split(s, ' ')) == WordStarts(s, true)
    ensures FirstChars(Split(s, ' ')[1..]) == WordStarts(s, false)
    decreases |s|
  {
    if s != "" {
      var rest := Split(s[1..], ' ');
      FirstCharsOfSplitAreWordStarts(s[1..]);
      if s[0] == ' ' {
        assert ([""] + rest)[1..] == rest;
      } else {
        var parts := [[s[0]] + rest[0]] + rest[1..];
        assert parts[1..] == rest[1..];
      }
    }
  }

  /** A name has no word exactly when it is made of spaces only. */
  lemma {:induction false} NoWordStartsIffBlank(s: string)
    ensures WordStarts(s, true) == "" <==> forall k :: 0 <= k < |s| ==> s[k] == ' '
    decreases |s|
  {
    if s != "" && s[0] == ' ' {
      NoWordStartsIffBlank(s[1..]);
      assert forall k :: 1 <= k < |s| ==> s[k] == s[1..][k - 1];
    }
  }

  /** With a non-empty name, the initials are the first character of each space-separated
      word, in order; they contain no space, and they are empty exactly when the name is
      made of spaces only. */
  lemma InitialsFromName(name: string, email: Option<string>)
    requires name != ""
    ensures Initials(Some(name), email) == WordStarts(name, true)
    ensures ' ' !in Initials(Some(name), email)
    ensures Initials(Some(name), email) == "" <==> forall k :: 0 <= k < |name| ==> name[k] == ' '
  {
    FirstCharsOfSplitAreWordStarts(name);
    NoWordStartsIffBlank(name);
  }

  /** Without a name, the initials are the first character of the e-mail address, and "U"
      when there is no address either. */
  lemma InitialsWithoutName(name: Option<string>, email: Option<string>)
    requires name.None? || name.value == ""
    ensures email.Some? && email.value != "" ==> Initials(name, email) == [email.value[0]]
    ensures email.None? || email.value == "" ==> Initials(name, email) == "U"
  {
  }
}

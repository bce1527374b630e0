/** The link renderer override (build.js:28-33): the anchor `marked`
    renders for a link is passed through
    `link.replace("<a", "<a target='_blank' rel='noreferrer' ")`.
    With a string pattern, `String.prototype.replace` replaces only the
    first occurrence, and the replacement text holds no `$`, so it is
    inserted literally. The anchor `marked` renders is an input here. */
module Links {
  import opened Values

  /** The text inserted after the first `<a`. */
  const Attributes: string := " target='_blank' rel='noreferrer' "

  /** Whether `pat` occurs in `s` starting at index `i`. */
  predicate OccursAt(s: string, pat: string, i: nat) {
    i + |pat| <= |s| && s[i..i + |pat|] == pat
  }

  /** An occurrence past the first character is one in the tail. */
  lemma ShiftOccurrence(s: string, pat: string)
    requires s != []
    ensures forall j :: 1 <= j <= |s| && OccursAt(s, pat, j) ==> OccursAt(s[1..], pat, j - 1)
  {
    forall j | 1 <= j <= |s| && OccursAt(s, pat, j) ensures OccursAt(s[1..], pat, j - 1) {
      assert s[1..][j - 1..j - 1 + |pat|] == s[j..j + |pat|];
    }
  }

  /** `s.indexOf(pat)`, with `None` for -1: the first index at which `pat`
      occurs. */
  function IndexOf(s: string, pat: string): (r: Option<nat>)
    ensures r.Some? ==> OccursAt(s, pat, r.value)
    ensures r.Some? ==> forall j :: 0 <= j < r.value ==> !OccursAt(s, pat, j)
    ensures r.None? ==> forall j :: 0 <= j <= |s| ==> !OccursAt(s, pat, j)
    decreases |s|
  {
    if |s| < |pat| then None
    else if s[..|pat|] == pat then Some(0)
    else
      match IndexOf(s[1..], pat)
      case None =>
        ShiftOccurrence(s, pat);
        None
      case Some(i) =>
        assert s[1..][i..i + |pat|] == s[i + 1..i + 1 + |pat|];
        ShiftOccurrence(s, pat);
        Some(i + 1)
  }

  /** `s.replace(pat, rep)` with a string pattern and a replacement free of
      `$` patterns. */
  function ReplaceFirst(s: string, pat: string, rep: string): string {
    match IndexOf(s, pat)
    case None => s
    case Some(i) => s[..i] + rep + s[i + |pat|..]
  }

  /** `replace` with a string pattern replaces the first occurrence only:
      where `i` is the first index at which `pat` occurs, the result is `s`
      with that one occurrence replaced; where `pat` occurs nowhere, it is
      `s`. */
  lemma ReplaceFirstAtFirst(s: string, pat: string, rep: string, i: nat)
    requires OccursAt(s, pat, i)
    requires forall j :: 0 <= j < i ==> !OccursAt(s, pat, j)
    ensures ReplaceFirst(s, pat, rep) == s[..i] + rep + s[i + |pat|..]
  {
    match IndexOf(s, pat)
    case None =>
    case Some(k) =>
      assert k == i;
  }

  /** Where `pat` occurs nowhere, `replace` returns `s` itself. */
  lemma ReplaceFirstAbsent(s: string, pat: string, rep: string)
    requires forall j :: 0 <= j <= |s| ==> !OccursAt(s, pat, j)
    ensures ReplaceFirst(s, pat, rep) == s
  {
  }

  /** `renderer.link`: the rendered anchor with the new-tab attributes added. */
  function RewriteLink(link: string): string {
    ReplaceFirst(link, "<a", "<a" + Attributes)
  }

  /** A string without `<a` is returned unchanged; otherwise exactly the
      attribute text is inserted right after its first `<a`, and nothing
      else changes. */
  lemma RewriteInsertsAfterFirstAnchor(link: string)
    ensures IndexOf(link, "<a").None? ==> RewriteLink(link) == link
    ensures IndexOf(link, "<a").Some? ==>
      var i := IndexOf(link, "<a").value;
      RewriteLink(link) == link[..i + 2] + Attributes + link[i + 2..]
  {
    match IndexOf(link, "<a")
    case None =>
    case Some(i) =>
      assert link[..i] + "<a" == link[..i + 2];
  }

  /** Deleting the inserted attribute text from the rewritten anchor gives
      back the anchor `marked` rendered: the rewrite loses nothing. */
  lemma RewriteRoundTrip(link: string, i: nat)
    requires IndexOf(link, "<a") == Some(i)
    ensures var r := RewriteLink(link);
      |r| == |link| + |Attributes| &&
      r[..i + 2] + r[i + 2 + |Attributes|..] == link
  {
    RewriteInsertsAfterFirstAnchor(link);
    var r := RewriteLink(link);
    assert r[..i + 2] == link[..i + 2];
    assert r[i + 2 + |Attributes|..] == link[i + 2..];
  }

  /** An anchor as `marked` renders it starts with `<a`: the rewritten
      anchor then starts with `<a target='_blank' rel='noreferrer' `. */
  lemma RewriteAnchor(link: string)
    requires |link| >= 2 && link[..2] == "<a"
    ensures RewriteLink(link) == "<a" + Attributes + link[2..]
  {
    assert OccursAt(link, "<a", 0);
  }
}

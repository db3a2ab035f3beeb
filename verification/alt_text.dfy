/**
 * `extractAltText` (src/autouploader/main.go): the first capture of the
 * regular expression `alt="(.*?)"` in an HTML description, or "" when the
 * expression does not match.
 *
 * In RE2 `.` does not match a newline, and the lazy `.*?` stops at the first
 * quote it reaches, so a match starting at `i` ends at the first quote after
 * the opener, provided no newline comes before it. `MatchAt` states that
 * declaratively; `FindAlt` is the left-to-right search.
 */
module AltText {
  import opened Common

  /** The five bytes `alt="`. */
  const Opener: string := "alt=\""

  predicate OpensAt(s: string, i: nat) {
    i + |Opener| <= |s| && s[i..i + |Opener|] == Opener
  }

  /** Neither a quote nor a newline occurs in `s[lo..hi]`. */
  predicate Plain(s: string, lo: nat, hi: nat)
    requires lo <= hi <= |s|
  {
    forall m :: lo <= m < hi ==> s[m] != '"' && s[m] != '\n'
  }

  /** `alt="(.*?)"` matches `s[i..j+1]`, capturing `s[i+5..j]`. */
  predicate MatchAt(s: string, i: nat, j: nat) {
    && OpensAt(s, i)
    && i + |Opener| <= j < |s|
    && s[j] == '"'
    && Plain(s, i + |Opener|, j)
  }

  /** A match that starts at `i` has exactly one end: the lazy group cannot
      run past a quote, so it stops at the first one. */
  lemma MatchEndUnique(s: string, i: nat, j: nat, j': nat)
    requires MatchAt(s, i, j) && MatchAt(s, i, j')
    ensures j == j'
  {
  }

  /** The closing quote for a capture starting at `k`: the first quote or
      newline at or after `k`, if that byte is a quote. */
  function CloseQuote(s: string, k: nat): (r: Option<nat>)
    requires k <= |s|
    ensures r.Some? ==> k <= r.value < |s| && s[r.value] == '"' && Plain(s, k, r.value)
    ensures r.None? ==> forall j :: k <= j < |s| && s[j] == '"' ==> !Plain(s, k, j)
    decreases |s| - k
  {
    if k == |s| then None
    else if s[k] == '"' then Some(k)
    else if s[k] == '\n' then None
    else
      var r := CloseQuote(s, k + 1);
      assert forall j :: k + 1 <= j < |s| && Plain(s, k, j) ==> Plain(s, k + 1, j);
      r
  }

  /** Leftmost match whose start is at or after `i`, as (start, closing quote). */
  function FindAlt(s: string, i: nat): (r: Option<(nat, nat)>)
    ensures r.Some? ==> i <= r.value.0 && MatchAt(s, r.value.0, r.value.1)
    ensures r.Some? ==> forall a: nat, b: nat :: i <= a < r.value.0 ==> !MatchAt(s, a, b)
    ensures r.None? ==> forall a: nat, b: nat :: i <= a ==> !MatchAt(s, a, b)
    decreases |s| - i
  {
    if i + |Opener| > |s| then None
    else if !OpensAt(s, i) then FindAlt(s, i + 1)
    else match CloseQuote(s, i + |Opener|)
      case Some(j) => Some((i, j))
      case None => FindAlt(s, i + 1)
  }

  /** `extractAltText`: the capture of the leftmost match, or "". */
  function ExtractAltText(html: string): (r: string)
    ensures (forall a: nat, b: nat :: !MatchAt(html, a, b)) ==> r == ""
    ensures r != "" ==> exists a: nat, b: nat :: MatchAt(html, a, b) && r == html[a + |Opener|..b]
  {
    match FindAlt(html, 0)
    case None => ""
    case Some((a, b)) => html[a + |Opener|..b]
  }

  /** The capture returned is the one of the leftmost match. */
  lemma ExtractAltTextLeftmost(html: string, a: nat, b: nat)
    requires MatchAt(html, a, b)
    requires forall a': nat, b': nat :: a' < a ==> !MatchAt(html, a', b')
    ensures ExtractAltText(html) == html[a + |Opener|..b]
  {
    var found := FindAlt(html, 0);
    assert found.Some?;
    var (a0, b0) := found.value;
    if a0 == a {
      MatchEndUnique(html, a, b, b0);
    }
  }

  /** `<img alt="Sunset" src="x">`: the description's alt attribute is found. */
  lemma SunsetExample()
    ensures ExtractAltText("<img alt=\"Sunset\" src=\"x\">") == "Sunset"
  {
    var s := "<img alt=\"Sunset\" src=\"x\">";
    SunsetMatch();
    SunsetNoEarlierMatch();
    ExtractAltTextLeftmost(s, 5, 16);
    SunsetCapture();
  }

  lemma SunsetMatch()
    ensures MatchAt("<img alt=\"Sunset\" src=\"x\">", 5, 16)
  {
    var s := "<img alt=\"Sunset\" src=\"x\">";
    assert s[5..10] == Opener;
  }

  lemma SunsetNoEarlierMatch()
    ensures forall a': nat, b': nat :: a' < 5 ==> !MatchAt("<img alt=\"Sunset\" src=\"x\">", a', b')
  {
    var s := "<img alt=\"Sunset\" src=\"x\">";
    forall a': nat, b': nat | a' < 5
      ensures !MatchAt(s, a', b')
    {
      assert s[a'] != 'a';
      assert s[a'..a' + 5][0] == s[a'];
    }
  }

  lemma SunsetCapture()
    ensures "<img alt=\"Sunset\" src=\"x\">"[10..16] == "Sunset"
  {
  }

  /** A newline between `alt="` and the next quote defeats that opener. */
  lemma NewlineBlocksMatch(s: string, i: nat, n: nat)
    requires OpensAt(s, i) && i + |Opener| <= n < |s| && s[n] == '\n'
    requires forall m :: i + |Opener| <= m < n ==> s[m] != '"'
    ensures forall b :: !MatchAt(s, i, b)
  {
  }
}

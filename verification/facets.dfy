/**
 * `extractFacets` (src/autouploader/bluesky.go): the rich-text facets of a
 * Bluesky post, found with the regular expressions `#\w+` and
 * `https?://[^\s]+` as Go's RE2 `FindAllStringIndex` finds them — leftmost
 * first, greedy, each search resuming where the last match ended. All hashtag
 * facets come before all link facets. Offsets are byte offsets; characters
 * stand for bytes.
 */
module Facets {
  import opened Captions

  datatype Facet =
    | Tag(byteStart: nat, byteEnd: nat, tag: string)
    | Link(byteStart: nat, byteEnd: nat, uri: string)

  /** RE2's `\w`: ASCII letters, digits and underscore. */
  predicate Word(c: char) {
    ('0' <= c <= '9') || ('a' <= c <= 'z') || ('A' <= c <= 'Z') || c == '_'
  }

  /** RE2's `\s`: tab, newline, form feed, carriage return and space (not
      the vertical tab). */
  predicate ReSpace(c: char) {
    c == '\t' || c == '\n' || c == '\U{000C}' || c == '\r' || c == ' '
  }

  /** The end of the longest run of word characters from `j`. */
  function WordEnd(s: string, j: nat): (e: nat)
    requires j <= |s|
    ensures j <= e <= |s|
    ensures forall k :: j <= k < e ==> Word(s[k])
    ensures e == |s| || !Word(s[e])
    decreases |s| - j
  {
    if j == |s| || !Word(s[j]) then j else WordEnd(s, j + 1)
  }

  /** The end of the longest run of non-space characters from `j`. */
  function NonSpaceEnd(s: string, j: nat): (e: nat)
    requires j <= |s|
    ensures j <= e <= |s|
    ensures forall k :: j <= k < e ==> !ReSpace(s[k])
    ensures e == |s| || ReSpace(s[e])
    decreases |s| - j
  {
    if j == |s| || ReSpace(s[j]) then j else NonSpaceEnd(s, j + 1)
  }

  // ---------------------------------------------------------------------
  // Hashtags

  /** `#\w+` can start at `i`. */
  predicate HashAt(s: string, i: nat) {
    i + 1 < |s| && s[i] == '#' && Word(s[i + 1])
  }

  /** The hashtag matches at or after `pos`. */
  function Hashtags(s: string, pos: nat): (r: seq<Facet>)
    requires pos <= |s|
    ensures forall k :: 0 <= k < |r| ==> r[k].Tag? && pos <= r[k].byteStart
    decreases |s| - pos
  {
    if pos == |s| then []
    else if HashAt(s, pos) then
      var e := WordEnd(s, pos + 1);
      [Tag(pos, e, s[pos + 1..e])] + Hashtags(s, e)
    else Hashtags(s, pos + 1)
  }

  /** A facet that is a whole `#\w+` match: '#', then a maximal run of word
      characters, the tag being the run. */
  predicate IsHashtagMatch(s: string, f: Facet) {
    && f.Tag? && f.byteStart + 1 < f.byteEnd <= |s|
    && HashAt(s, f.byteStart)
    && (forall k :: f.byteStart + 1 <= k < f.byteEnd ==> Word(s[k]))
    && (f.byteEnd == |s| || !Word(s[f.byteEnd]))
    && f.tag == s[f.byteStart + 1..f.byteEnd]
  }

  /** Each hashtag facet is a whole match. */
  lemma {:induction false} HashtagsSound(s: string, pos: nat, k: nat)
    requires pos <= |s| && k < |Hashtags(s, pos)|
    ensures IsHashtagMatch(s, Hashtags(s, pos)[k])
    decreases |s| - pos
  {
    if HashAt(s, pos) {
      var e := WordEnd(s, pos + 1);
      assert Hashtags(s, pos) == [Tag(pos, e, s[pos + 1..e])] + Hashtags(s, e);
      if k > 0 {
        HashtagsSound(s, e, k - 1);
        assert Hashtags(s, pos)[k] == Hashtags(s, e)[k - 1];
      } else {
        FirstHashtagMatches(s, pos);
      }
    } else {
      assert Hashtags(s, pos) == Hashtags(s, pos + 1);
      HashtagsSound(s, pos + 1, k);
    }
  }

  lemma FirstHashtagMatches(s: string, pos: nat)
    requires pos < |s| && HashAt(s, pos)
    ensures var e := WordEnd(s, pos + 1);
      IsHashtagMatch(s, Tag(pos, e, s[pos + 1..e]))
  {
  }

  /** Hashtag facets come in order without overlapping. */
  lemma {:induction false} HashtagsOrdered(s: string, pos: nat, k: nat)
    requires pos <= |s| && k + 1 < |Hashtags(s, pos)|
    ensures Hashtags(s, pos)[k].byteEnd <= Hashtags(s, pos)[k + 1].byteStart
    decreases |s| - pos
  {
    if HashAt(s, pos) {
      var e := WordEnd(s, pos + 1);
      assert Hashtags(s, pos) == [Tag(pos, e, s[pos + 1..e])] + Hashtags(s, e);
      if k > 0 {
        HashtagsOrdered(s, e, k - 1);
        assert Hashtags(s, pos)[k] == Hashtags(s, e)[k - 1];
      }
      assert Hashtags(s, pos)[k + 1] == Hashtags(s, e)[k];
    } else {
      assert Hashtags(s, pos) == Hashtags(s, pos + 1);
      HashtagsOrdered(s, pos + 1, k);
    }
  }

  /** Every place a hashtag can start is found: '#' is not a word character,
      so no match can swallow another's start. */
  lemma {:induction false} HashtagsComplete(s: string, pos: nat, i: nat) returns (k: nat)
    requires pos <= i <= |s| && HashAt(s, i)
    ensures k < |Hashtags(s, pos)| && Hashtags(s, pos)[k].byteStart == i
    decreases |s| - pos
  {
    if HashAt(s, pos) {
      var e := WordEnd(s, pos + 1);
      assert Hashtags(s, pos) == [Tag(pos, e, s[pos + 1..e])] + Hashtags(s, e);
      if pos == i {
        k := 0;
      } else {
        assert !(pos < i < e);
        var k' := HashtagsComplete(s, e, i);
        k := k' + 1;
        assert Hashtags(s, pos)[k] == Hashtags(s, e)[k'];
      }
    } else {
      assert Hashtags(s, pos) == Hashtags(s, pos + 1);
      k := HashtagsComplete(s, pos + 1, i);
    }
  }

  // ---------------------------------------------------------------------
  // Links

  /** The scheme `https?://` at `i`, followed by at least one non-space byte;
      its length when it is there. `s?` is greedy, so "https://" is tried
      first. */
  function SchemeAt(s: string, i: nat): (n: nat)
    ensures n == 0 || n == 7 || n == 8
    ensures n > 0 ==> i + n < |s| && !ReSpace(s[i + n])
  {
    if !(i + 7 < |s| && s[i] == 'h' && s[i + 1] == 't' && s[i + 2] == 't' && s[i + 3] == 'p') then 0
    else if i + 8 < |s| && s[i + 4] == 's' && s[i + 5] == ':' && s[i + 6] == '/' && s[i + 7] == '/' && !ReSpace(s[i + 8]) then 8
    else if s[i + 4] == ':' && s[i + 5] == '/' && s[i + 6] == '/' && !ReSpace(s[i + 7]) then 7
    else 0
  }

  /** The link matches at or after `pos`. */
  function Links(s: string, pos: nat): (r: seq<Facet>)
    requires pos <= |s|
    ensures forall k :: 0 <= k < |r| ==> r[k].Link? && pos <= r[k].byteStart
    decreases |s| - pos
  {
    if pos == |s| then []
    else if SchemeAt(s, pos) > 0 then
      var e := NonSpaceEnd(s, pos + SchemeAt(s, pos));
      [Link(pos, e, s[pos..e])] + Links(s, e)
    else Links(s, pos + 1)
  }

  /** A facet that is a whole `https?://[^\s]+` match. */
  predicate IsLinkMatch(s: string, f: Facet) {
    var n := SchemeAt(s, f.byteStart);
    && f.Link? && f.byteStart < f.byteEnd <= |s|
    && n > 0 && f.byteStart + n < f.byteEnd
    && (forall k :: f.byteStart + n <= k < f.byteEnd ==> !ReSpace(s[k]))
    && (f.byteEnd == |s| || ReSpace(s[f.byteEnd]))
    && f.uri == s[f.byteStart..f.byteEnd]
  }

  /** Each link facet is a whole match. */
  lemma {:induction false} LinksSound(s: string, pos: nat, k: nat)
    requires pos <= |s| && k < |Links(s, pos)|
    ensures IsLinkMatch(s, Links(s, pos)[k])
    decreases |s| - pos
  {
    if SchemeAt(s, pos) > 0 {
      var e := NonSpaceEnd(s, pos + SchemeAt(s, pos));
      LinkFirst(s, pos);
      if k > 0 {
        LinksSound(s, e, k - 1);
        assert Links(s, pos)[k] == Links(s, e)[k - 1];
      } else {
        FirstLinkMatches(s, pos);
      }
    } else {
      assert Links(s, pos) == Links(s, pos + 1);
      LinksSound(s, pos + 1, k);
    }
  }

  /** The scan takes a link at a scheme and resumes after it. */
  lemma LinkFirst(s: string, pos: nat)
    requires pos < |s| && SchemeAt(s, pos) > 0
    ensures var e := NonSpaceEnd(s, pos + SchemeAt(s, pos));
      Links(s, pos) == [Link(pos, e, s[pos..e])] + Links(s, e)
  {
  }

  lemma FirstLinkMatches(s: string, pos: nat)
    requires pos < |s| && SchemeAt(s, pos) > 0
    ensures var e := NonSpaceEnd(s, pos + SchemeAt(s, pos));
      IsLinkMatch(s, Link(pos, e, s[pos..e]))
  {
  }

  /** Link facets come in order without overlapping. */
  lemma {:induction false} LinksOrdered(s: string, pos: nat, k: nat)
    requires pos <= |s| && k + 1 < |Links(s, pos)|
    ensures Links(s, pos)[k].byteEnd <= Links(s, pos)[k + 1].byteStart
    decreases |s| - pos
  {
    if SchemeAt(s, pos) > 0 {
      var e := NonSpaceEnd(s, pos + SchemeAt(s, pos));
      LinkFirst(s, pos);
      if k > 0 {
        LinksOrdered(s, e, k - 1);
        assert Links(s, pos)[k] == Links(s, e)[k - 1];
      }
      assert Links(s, pos)[k + 1] == Links(s, e)[k];
    } else {
      assert Links(s, pos) == Links(s, pos + 1);
      LinksOrdered(s, pos + 1, k);
    }
  }

  /** Every place a link can start is found, or lies inside a link already
      found (a URL may contain another "http://"). */
  lemma {:induction false} LinksComplete(s: string, pos: nat, i: nat) returns (k: nat)
    requires pos <= i <= |s| && SchemeAt(s, i) > 0
    ensures k < |Links(s, pos)| && Links(s, pos)[k].byteStart <= i < Links(s, pos)[k].byteEnd
    decreases |s| - pos
  {
    if SchemeAt(s, pos) > 0 {
      var e := NonSpaceEnd(s, pos + SchemeAt(s, pos));
      LinkFirst(s, pos);
      if e <= i {
        var k' := LinksComplete(s, e, i);
        k := k' + 1;
        assert Links(s, pos)[k] == Links(s, e)[k'];
      } else {
        k := 0;
        assert Links(s, pos)[0] == Link(pos, e, s[pos..e]);
      }
    } else {
      assert Links(s, pos) == Links(s, pos + 1);
      k := LinksComplete(s, pos + 1, i);
    }
  }

  /** `extractFacets`: the hashtag facets, then the link facets. */
  function ExtractFacets(text: string): (r: seq<Facet>)
    ensures forall k :: 0 <= k < |r| ==> r[k].Tag? || r[k].Link?
    ensures forall k, l :: 0 <= k < l < |r| && r[l].Tag? ==> r[k].Tag?
  {
    Hashtags(text, 0) + Links(text, 0)
  }

  /** Every facet is a whole match of its expression. */
  lemma ExtractFacetsSound(text: string, k: nat)
    requires k < |ExtractFacets(text)|
    ensures var f := ExtractFacets(text)[k];
      (f.Tag? ==> IsHashtagMatch(text, f)) && (f.Link? ==> IsLinkMatch(text, f))
  {
    var f := ExtractFacets(text)[k];
    if k < |Hashtags(text, 0)| {
      assert f == Hashtags(text, 0)[k];
      HashtagsSound(text, 0, k);
      assert f.Tag? && IsHashtagMatch(text, f);
    } else {
      assert f == Links(text, 0)[k - |Hashtags(text, 0)|];
      LinksSound(text, 0, k - |Hashtags(text, 0)|);
      assert f.Link? && IsLinkMatch(text, f);
    }
  }

  /** Every place a hashtag can start gets a tag facet. */
  lemma ExtractFacetsFindsHashtags(text: string, i: nat)
    requires i < |text| && HashAt(text, i)
    ensures exists k :: 0 <= k < |ExtractFacets(text)| && ExtractFacets(text)[k].Tag? && ExtractFacets(text)[k].byteStart == i
  {
    var k := HashtagsComplete(text, 0, i);
    assert ExtractFacets(text)[k] == Hashtags(text, 0)[k];
  }

  /** Every place a link can start lies inside a link facet. */
  lemma ExtractFacetsFindsLinks(text: string, i: nat)
    requires i < |text| && SchemeAt(text, i) > 0
    ensures exists k :: (0 <= k < |ExtractFacets(text)| && ExtractFacets(text)[k].Link?
                          && ExtractFacets(text)[k].byteStart <= i < ExtractFacets(text)[k].byteEnd)
  {
    var k := LinksComplete(text, 0, i);
    assert ExtractFacets(text)[|Hashtags(text, 0)| + k] == Links(text, 0)[k];
  }

  // ---------------------------------------------------------------------
  // Captions and their facets

  predicate AllWord(t: string) {
    forall k :: 0 <= k < |t| ==> Word(t[k])
  }

  function TagsOf(fs: seq<Facet>): seq<string>
    requires forall k :: 0 <= k < |fs| ==> fs[k].Tag?
  {
    if |fs| == 0 then [] else [fs[0].tag] + TagsOf(fs[1..])
  }

  /** The shape of "#t1 #t2 ... ": '#', the first tag, a space, the rest. */
  lemma TagTextShape(tags: seq<string>)
    requires |tags| > 0
    ensures var x := TagText(tags);
      && x[0] == '#'
      && (forall j :: 0 <= j < |tags[0]| ==> x[1 + j] == tags[0][j])
      && x[1 + |tags[0]|] == ' '
      && x[|tags[0]| + 2..] == TagText(tags[1..])
  {
    var x := TagText(tags);
    var t := tags[0];
    assert x == "#" + t + " " + TagText(tags[1..]);
    assert ("#" + t + " ")[0] == '#';
    assert forall j :: 0 <= j < |t| ==> ("#" + t + " ")[1 + j] == t[j];
  }

  /** A tag run at `i` followed by a space is one tag facet, and the scan
      goes on after the space. */
  lemma OneTagFacet(s: string, i: nat, t: string)
    requires |t| > 0 && AllWord(t) && i + |t| + 1 < |s|
    requires s[i] == '#' && s[i + 1 + |t|] == ' '
    requires forall j :: 0 <= j < |t| ==> s[i + 1 + j] == t[j]
    ensures Hashtags(s, i) == [Tag(i, i + 1 + |t|, t)] + Hashtags(s, i + |t| + 2)
  {
    var e := i + 1 + |t|;
    assert s[i + 1] == t[0];
    forall k | i + 1 <= k < e
      ensures Word(s[k])
    {
      assert s[k] == t[k - i - 1];
    }
    WordEndIs(s, i + 1, e);
    assert s[i + 1..e] == t;
    assert Hashtags(s, i) == [Tag(i, e, t)] + Hashtags(s, e);
    assert !HashAt(s, e);
    assert Hashtags(s, e) == Hashtags(s, e + 1);
  }

  /** Where "#t1 #t2 ... " sits in a text: '#', the first tag, a space, then
      the rest of the tags. */
  lemma TagTextAt(s: string, i: nat, tags: seq<string>)
    requires |tags| > 0
    requires i <= |s| && s[i..] == TagText(tags)
    ensures i + |tags[0]| + 1 < |s|
    ensures s[i] == '#' && s[i + 1 + |tags[0]|] == ' '
    ensures forall j :: 0 <= j < |tags[0]| ==> s[i + 1 + j] == tags[0][j]
    ensures s[i + |tags[0]| + 2..] == TagText(tags[1..])
  {
    var t := tags[0];
    TagTextShape(tags);
    assert s[i] == s[i..][0];
    forall j | 0 <= j < |t|
      ensures s[i + 1 + j] == t[j]
    {
      assert s[i + 1 + j] == s[i..][1 + j];
    }
    assert s[i + 1 + |t|] == s[i..][1 + |t|];
    assert s[i + |t| + 2..] == s[i..][|t| + 2..];
  }

  lemma TagsOfCons(f: Facet, fs: seq<Facet>)
    requires f.Tag? && forall k :: 0 <= k < |fs| ==> fs[k].Tag?
    ensures TagsOf([f] + fs) == [f.tag] + TagsOf(fs)
  {
    assert ([f] + fs)[1..] == fs;
  }

  /** `s` from `i` on is "#t1 #t2 ... ", character by character. */
  predicate TagsAt(s: string, i: nat, tags: seq<string>)
    decreases |tags|
  {
    if |tags| == 0 then i == |s|
    else
      && i + |tags[0]| + 1 < |s|
      && s[i] == '#' && s[i + 1 + |tags[0]|] == ' '
      && (forall j :: 0 <= j < |tags[0]| ==> s[i + 1 + j] == tags[0][j])
      && TagsAt(s, i + |tags[0]| + 2, tags[1..])
  }

  lemma {:induction false} TagTextIsTagsAt(s: string, i: nat, tags: seq<string>)
    requires i <= |s| && s[i..] == TagText(tags)
    ensures TagsAt(s, i, tags)
    decreases |tags|
  {
    if |tags| > 0 {
      TagTextAt(s, i, tags);
      TagTextIsTagsAt(s, i + |tags[0]| + 2, tags[1..]);
    }
  }

  /** The hashtag facets of a text ending in "#t1 #t2 ... " from where those
      tags start name exactly the tags, when each tag is a non-empty run of
      word characters. */
  lemma {:induction false} TagTextFacets(s: string, i: nat, tags: seq<string>)
    requires forall j :: 0 <= j < |tags| ==> |tags[j]| > 0 && AllWord(tags[j])
    requires i <= |s| && TagsAt(s, i, tags)
    ensures TagsOf(Hashtags(s, i)) == tags
    decreases |tags|
  {
    if |tags| == 0 {
      assert Hashtags(s, i) == [];
    } else {
      var t := tags[0];
      OneTagFacet(s, i, t);
      TagTextFacets(s, i + |t| + 2, tags[1..]);
      var rest := Hashtags(s, i + |t| + 2);
      TagsOfCons(Tag(i, i + 1 + |t|, t), rest);
      calc {
        TagsOf(Hashtags(s, i));
        TagsOf([Tag(i, i + 1 + |t|, t)] + rest);
        [t] + TagsOf(rest);
        [t] + tags[1..];
        tags;
      }
    }
  }

  lemma {:induction false} WordEndIs(s: string, j: nat, e: nat)
    requires j <= e <= |s|
    requires forall k :: j <= k < e ==> Word(s[k])
    requires e == |s| || !Word(s[e])
    ensures WordEnd(s, j) == e
    decreases |s| - j
  {
    if j < e {
      WordEndIs(s, j + 1, e);
    }
  }

  lemma {:induction false} NonSpaceEndIs(s: string, j: nat, e: nat)
    requires j <= e <= |s|
    requires forall k :: j <= k < e ==> !ReSpace(s[k])
    requires e == |s| || ReSpace(s[e])
    ensures NonSpaceEnd(s, j) == e
    decreases |s| - j
  {
    if j < e {
      NonSpaceEndIs(s, j + 1, e);
    }
  }

  /** Positions with no possible hashtag start are skipped. */
  lemma {:induction false} HashtagsSkip(s: string, pos: nat, q: nat)
    requires pos <= q <= |s|
    requires forall i :: pos <= i < q ==> !HashAt(s, i)
    ensures Hashtags(s, pos) == Hashtags(s, q)
    decreases q - pos
  {
    if pos < q {
      HashtagsSkip(s, pos + 1, q);
    }
  }

  /** For a caption of the publishers' shape whose prefix has no '#', the
      hashtag facets name exactly the tags written, in order. */
  lemma CaptionTagFacets(prefix: string, tags: seq<string>)
    requires forall k :: 0 <= k < |prefix| ==> prefix[k] != '#'
    requires forall j :: 0 <= j < |tags| ==> |tags[j]| > 0 && AllWord(tags[j])
    ensures TagsOf(Hashtags(HashtagCaption(prefix, tags), 0)) == tags
  {
    var p := prefix + "\n\n";
    var s := HashtagCaption(prefix, tags);
    assert s == p + TagText(tags);
    forall i | 0 <= i < |p|
      ensures !HashAt(s, i)
    {
      assert s[i] == p[i];
    }
    HashtagsSkip(s, 0, |p|);
    assert s[|p|..] == TagText(tags);
    TagTextIsTagsAt(s, |p|, tags);
    TagTextFacets(s, |p|, tags);
  }

  /** A worked example: one tag and one link. */
  lemma Example()
    ensures ExtractFacets("#sky https://a.b") ==
              [Tag(0, 4, "sky"), Link(5, 16, "https://a.b")]
  {
    ExampleTags();
    ExampleLinks();
  }

  lemma ExampleTags()
    ensures Hashtags("#sky https://a.b", 0) == [Tag(0, 4, "sky")]
  {
    var s := "#sky https://a.b";
    ExampleText();
    WordEndIs(s, 1, 4);
    assert s[1..4] == "sky";
    assert Hashtags(s, 0) == [Tag(0, 4, "sky")] + Hashtags(s, 4);
    HashtagsSkip(s, 4, 16);
    HashtagsNone(s, 16);
  }

  lemma ExampleText()
    ensures var s := "#sky https://a.b";
      && |s| == 16 && s[0] == '#' && Word(s[1]) && Word(s[2]) && Word(s[3]) && s[4] == ' '
      && forall i :: 4 <= i < 16 ==> s[i] != '#'
  {
  }

  lemma ExampleLinks()
    ensures Links("#sky https://a.b", 0) == [Link(5, 16, "https://a.b")]
  {
    var s := "#sky https://a.b";
    assert SchemeAt(s, 5) == 8;
    NonSpaceEndIs(s, 13, 16);
    assert s[5..16] == "https://a.b";
    HashtagsNone(s, 16);
    assert forall i :: 0 <= i < 5 ==> SchemeAt(s, i) == 0;
    LinksSkip(s, 0, 5);
    assert Links(s, 5) == [Link(5, 16, "https://a.b")] + Links(s, 16);
  }

  lemma HashtagsNone(s: string, pos: nat)
    requires pos == |s|
    ensures Hashtags(s, pos) == [] && Links(s, pos) == []
  {
  }

  lemma {:induction false} LinksSkip(s: string, pos: nat, q: nat)
    requires pos <= q <= |s|
    requires forall i :: pos <= i < q ==> SchemeAt(s, i) == 0
    ensures Links(s, pos) == Links(s, q)
    decreases q - pos
  {
    if pos < q {
      LinksSkip(s, pos + 1, q);
    }
  }
}

/**
 * Post captions of the publishers (src/autouploader/bluesky.go,
 * src/autouploader/pixelfed.go, src/autouploader/instagram.go): the
 * connection's caption, a blank line, then one "#tag " per feed category.
 * Bluesky keeps a tag only while the caption stays within 300 bytes; the
 * other two keep every tag. Characters stand for bytes.
 */
module Captions {
  import opened Common

  const BlueskyLimit: nat := 300

  /** "#tag " for each tag, in order. */
  function TagText(tags: seq<string>): (r: string)
    ensures |r| == TagBytes(tags)
    decreases |tags|
  {
    if |tags| == 0 then "" else "#" + tags[0] + " " + TagText(tags[1..])
  }

  /** The bytes `TagText` takes: the tags plus two per tag. */
  function TagBytes(tags: seq<string>): nat
    decreases |tags|
  {
    if |tags| == 0 then 0 else |tags[0]| + 2 + TagBytes(tags[1..])
  }

  lemma {:induction false} TagTextAppend(a: seq<string>, b: seq<string>)
    ensures TagText(a + b) == TagText(a) + TagText(b)
    decreases |a|
  {
    if |a| == 0 {
      assert a + b == b;
    } else {
      assert (a + b)[1..] == a[1..] + b;
      TagTextAppend(a[1..], b);
    }
  }

  /** The Pixelfed and Instagram caption: every tag, no bound. */
  function HashtagCaption(prefix: string, tags: seq<string>): (r: string)
    ensures |r| == |prefix| + 2 + TagBytes(tags)
  {
    prefix + "\n\n" + TagText(tags)
  }

  /** The tags Bluesky keeps, deciding left to right: a tag is kept when the
      bytes used so far, `start` plus the kept tags, leave room for "#tag ". */
  function Kept(start: nat, tags: seq<string>): (k: seq<string>)
    ensures |k| <= |tags|
    decreases |tags|
  {
    if |tags| == 0 then []
    else
      var before := Kept(start, tags[..|tags| - 1]);
      var last := tags[|tags| - 1];
      if start + TagBytes(before) + |"#" + last| + 1 <= BlueskyLimit then before + [last] else before
  }

  /** The kept tags are the tags with some left out, in their order. */
  lemma {:induction false} KeptIsSublist(start: nat, tags: seq<string>)
    ensures IsSublist(Kept(start, tags), tags)
    decreases |tags|
  {
    if |tags| == 0 {
      assert IsSublist<string>([], []) by {
        var idx: seq<nat> := [];
      }
    } else {
      var init := tags[..|tags| - 1];
      var last := tags[|tags| - 1];
      assert init + [last] == tags;
      KeptIsSublist(start, init);
      SublistExtend(Kept(start, init), init, last);
    }
  }

  /** `a` is `b` with some elements left out, in order. */
  ghost predicate IsSublist<T>(a: seq<T>, b: seq<T>) {
    exists idx: seq<nat> ::
      && |idx| == |a|
      && (forall k :: 0 <= k < |idx| ==> idx[k] < |b| && a[k] == b[idx[k]])
      && (forall k, l :: 0 <= k < l < |idx| ==> idx[k] < idx[l])
  }

  lemma SublistExtend<T>(a: seq<T>, b: seq<T>, x: T)
    requires IsSublist(a, b)
    ensures IsSublist(a, b + [x]) && IsSublist(a + [x], b + [x])
  {
    var idx: seq<nat> :| && |idx| == |a|
                         && (forall k :: 0 <= k < |idx| ==> idx[k] < |b| && a[k] == b[idx[k]])
                         && (forall k, l :: 0 <= k < l < |idx| ==> idx[k] < idx[l]);
    assert forall k :: 0 <= k < |idx| ==> (b + [x])[idx[k]] == b[idx[k]];
    var idx' := idx + [|b|];
    assert forall k :: 0 <= k < |idx'| ==> idx'[k] < |b + [x]| && (a + [x])[k] == (b + [x])[idx'[k]];
  }

  lemma {:induction false} TagBytesAppend(a: seq<string>, b: seq<string>)
    ensures TagBytes(a + b) == TagBytes(a) + TagBytes(b)
    decreases |a|
  {
    if |a| == 0 {
      assert a + b == b;
    } else {
      assert (a + b)[1..] == a[1..] + b;
      TagBytesAppend(a[1..], b);
    }
  }

  /** The kept tags never take the caption past the limit it started under. */
  lemma {:induction false} KeptWithinLimit(start: nat, tags: seq<string>)
    requires start <= BlueskyLimit
    ensures start + TagBytes(Kept(start, tags)) <= BlueskyLimit
    decreases |tags|
  {
    if |tags| > 0 {
      var before := Kept(start, tags[..|tags| - 1]);
      var last := tags[|tags| - 1];
      KeptWithinLimit(start, tags[..|tags| - 1]);
      TagBytesAppend(before, [last]);
      assert TagBytes([last]) == |last| + 2;
    }
  }

  /** One more step of the left-to-right decision. */
  lemma KeptStep(start: nat, tags: seq<string>, i: nat)
    requires i < |tags|
    ensures var before := Kept(start, tags[..i]);
      Kept(start, tags[..i + 1]) ==
        if start + TagBytes(before) + |"#" + tags[i]| + 1 <= BlueskyLimit then before + [tags[i]] else before
  {
    assert tags[..i + 1][..i] == tags[..i];
  }

  /** When every tag fits, every tag is kept. */
  lemma {:induction false} AllFitAllKept(start: nat, tags: seq<string>)
    requires start + TagBytes(tags) <= BlueskyLimit
    ensures Kept(start, tags) == tags
    decreases |tags|
  {
    if |tags| > 0 {
      var init := tags[..|tags| - 1];
      var last := tags[|tags| - 1];
      assert init + [last] == tags;
      TagBytesAppend(init, [last]);
      assert TagBytes([last]) == |last| + 2;
      AllFitAllKept(start, init);
    }
  }

  /** `publishBlueskyEntry`'s caption loop: the running count is the
      caption's length, and a tag is written when it fits. */
  method BlueskyCaption(prefix: string, tags: seq<string>) returns (caption: string)
    ensures caption == HashtagCaption(prefix, Kept(|prefix| + 2, tags))
    ensures |prefix| + 2 <= BlueskyLimit ==> |caption| <= BlueskyLimit
    ensures |prefix| + 2 + TagBytes(tags) <= BlueskyLimit ==> caption == HashtagCaption(prefix, tags)
  {
    caption := prefix + "\n\n";
    var count := |caption|;
    var i := 0;
    assert tags[..0] == [];
    assert caption == HashtagCaption(prefix, Kept(|prefix| + 2, tags[..0]));
    while i < |tags|
      invariant 0 <= i <= |tags|
      invariant count == |caption|
      invariant caption == HashtagCaption(prefix, Kept(|prefix| + 2, tags[..i]))
    {
      var tagText := "#" + tags[i];
      if count + |tagText| + 1 <= BlueskyLimit {
        CaptionStepKept(prefix, tags, i);
        caption := caption + tagText + " ";
        count := count + |tagText| + 1;
      } else {
        CaptionStepSkipped(prefix, tags, i);
      }
      i := i + 1;
    }
    assert tags[..|tags|] == tags;
    KeptCaption(prefix, tags);
  }

  /** The caption of the kept tags stays within the limit, and is the full
      caption when every tag fits. */
  lemma KeptCaption(prefix: string, tags: seq<string>)
    ensures var c := HashtagCaption(prefix, Kept(|prefix| + 2, tags));
      && (|prefix| + 2 <= BlueskyLimit ==> |c| <= BlueskyLimit)
      && (|prefix| + 2 + TagBytes(tags) <= BlueskyLimit ==> c == HashtagCaption(prefix, tags))
  {
    if |prefix| + 2 <= BlueskyLimit {
      KeptWithinLimit(|prefix| + 2, tags);
    }
    if |prefix| + 2 + TagBytes(tags) <= BlueskyLimit {
      AllFitAllKept(|prefix| + 2, tags);
    }
  }

  /** One turn of the caption loop appends "#tag " when the tag is kept. */
  lemma CaptionStepKept(prefix: string, tags: seq<string>, i: nat)
    requires i < |tags|
    requires |HashtagCaption(prefix, Kept(|prefix| + 2, tags[..i]))| + |"#" + tags[i]| + 1 <= BlueskyLimit
    ensures HashtagCaption(prefix, Kept(|prefix| + 2, tags[..i + 1])) ==
              HashtagCaption(prefix, Kept(|prefix| + 2, tags[..i])) + ("#" + tags[i]) + " "
  {
    var kept := Kept(|prefix| + 2, tags[..i]);
    KeptStep(|prefix| + 2, tags, i);
    assert Kept(|prefix| + 2, tags[..i + 1]) == kept + [tags[i]];
    TagTextAppend(kept, [tags[i]]);
    assert TagText([tags[i]]) == "#" + tags[i] + " ";
    assert TagText(kept + [tags[i]]) == TagText(kept) + ("#" + tags[i] + " ");
  }

  /** One turn of the caption loop leaves the caption alone when the tag is
      not kept. */
  lemma CaptionStepSkipped(prefix: string, tags: seq<string>, i: nat)
    requires i < |tags|
    requires |HashtagCaption(prefix, Kept(|prefix| + 2, tags[..i]))| + |"#" + tags[i]| + 1 > BlueskyLimit
    ensures Kept(|prefix| + 2, tags[..i + 1]) == Kept(|prefix| + 2, tags[..i])
  {
    KeptStep(|prefix| + 2, tags, i);
  }

  /** A long tag that does not fit is skipped, and a shorter one after it is
      still written. */
  lemma ShorterTagAfterSkipped(prefix: string, long: string, short: string)
    requires |prefix| + 2 + |long| + 2 > BlueskyLimit
    requires |prefix| + 2 + |short| + 2 <= BlueskyLimit
    ensures Kept(|prefix| + 2, [long, short]) == [short]
  {
    assert [long, short][..1] == [long];
    assert [long][..0] == [];
  }

  /** Pixelfed refuses a blank caption; the built caption is blank exactly
      when the connection's caption is blank and the entry has no tags. */
  lemma {:induction false} CaptionBlankIff(prefix: string, tags: seq<string>)
    ensures Blank(HashtagCaption(prefix, tags)) <==> Blank(prefix) && |tags| == 0
  {
    var c := HashtagCaption(prefix, tags);
    var rest := "\n\n" + TagText(tags);
    assert c == prefix + rest && rest[0] == '\n';
    SkipSpacesPrefix(prefix, rest, 0);
    if Blank(prefix) {
      assert SpaceAt(c, |prefix|) == 1 && SpaceAt(c, |prefix| + 1) == 1;
      assert SkipSpaces(c, 0) == SkipSpaces(c, |prefix| + 2);
      if |tags| > 0 {
        assert c[|prefix| + 2] == '#';
        assert SpaceAt(c, |prefix| + 2) == 0;
      }
    }
  }
}

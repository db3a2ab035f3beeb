/**
 * Backfill (src/backfill/main.go): find the auto-upload rows that lack
 * platform identifiers, hash the feed's images, hash each platform post's
 * image, and write the identifiers of a post onto the row of the first feed
 * image within the perceptual-hash threshold.
 *
 * Perceptual hashing is a foreign library: a hash is an opaque value, a
 * download's decoded hash is part of the download oracle's answer, and the
 * hash distance is an oracle that may fail. Sleeps are returned, not slept.
 */
module Backfill {
  import opened Common
  import opened Feed
  import opened Config
  import opened UploadItems
  import opened Paging

  const HashDistanceThreshold: nat := 10
  const MaxHashAttempts: nat := 3

  datatype Hash = Hash(bits: nat)

  /** One `http.Get` of an image: a transport error, or a status with the
      perceptual hash of the body when it is 200 and decodes. */
  datatype Download = NetworkError(err: Error) | Response(status: int, decoded: Option<Hash>)

  /** A failure worth another attempt: no response, or a 5xx status. */
  predicate Retryable(d: Download) {
    d.NetworkError? || (d.status != 200 && d.status >= 500)
  }

  /** The `lastErr` a failed attempt leaves behind. */
  function AttemptError(d: Download): Error {
    match d
    case NetworkError(e) => e
    case Response(status, _) => BadStatus(status)
  }

  const DecodeFailed: Error := Message("failed to decode image")

  /** What `computeHashFromURL` returned, how many downloads it made, and the
      seconds it slept, in order. */
  datatype HashRun = HashRun(result: Result<Hash>, attempts: nat, sleeps: seq<nat>)

  /** The loop from `attempt` on; `download(k)` is attempt `k`'s outcome. */
  function HashLoop(download: nat -> Download, attempt: nat, lastErr: Error): (r: HashRun)
    requires 1 <= attempt <= MaxHashAttempts + 1
    ensures attempt <= MaxHashAttempts ==> attempt <= r.attempts <= MaxHashAttempts
    ensures attempt <= MaxHashAttempts ==> forall k :: attempt <= k < r.attempts ==> Retryable(download(k))
    ensures attempt <= MaxHashAttempts ==>
              (Retryable(download(r.attempts)) <==>
                 r.attempts == MaxHashAttempts && r.result == Err(Wrap("after 3 retries", AttemptError(download(r.attempts)))))
    ensures attempt <= MaxHashAttempts ==>
              |r.sleeps| == (if Retryable(download(r.attempts)) then r.attempts + 1 - attempt else r.attempts - attempt)
    ensures forall i :: 0 <= i < |r.sleeps| ==> r.sleeps[i] == attempt + i
    ensures r.result.Ok? ==> download(r.attempts) == Response(200, Some(r.result.value))
    decreases MaxHashAttempts + 1 - attempt
  {
    if attempt > MaxHashAttempts then HashRun(Err(Wrap("after 3 retries", lastErr)), MaxHashAttempts, [])
    else
      var d := download(attempt);
      if Retryable(d) then
        var rest := HashLoop(download, attempt + 1, AttemptError(d));
        rest.(sleeps := [attempt] + rest.sleeps)
      else if d.status != 200 then HashRun(Err(BadStatus(d.status)), attempt, [])
      else match d.decoded
        case None => HashRun(Err(Wrap("failed to decode image", DecodeFailed)), attempt, [])
        case Some(h) => HashRun(Ok(h), attempt, [])
  }

  /** `computeHashFromURL`: at most three downloads; a network error or a 5xx
      status sleeps `attempt` seconds (after the last attempt too) and tries
      again; any other status or an undecodable body fails at once. */
  function ComputeHashFromUrl(download: nat -> Download): (r: HashRun)
    ensures 1 <= r.attempts <= MaxHashAttempts
    ensures forall k :: 1 <= k < r.attempts ==> Retryable(download(k))
    ensures r.result.Ok? <==> download(r.attempts).Response? && download(r.attempts).status == 200 &&
                               download(r.attempts).decoded.Some?
    ensures r.result.Ok? ==> r.result.value == download(r.attempts).decoded.value
    ensures !Retryable(download(r.attempts)) && download(r.attempts).status != 200 ==>
              r.result == Err(BadStatus(download(r.attempts).status))
    ensures |r.sleeps| == (if Retryable(download(r.attempts)) then r.attempts else r.attempts - 1)
    ensures forall i :: 0 <= i < |r.sleeps| ==> r.sleeps[i] == i + 1
  {
    HashLoop(download, 1, Message(""))
  }

  /** Three 503s: three downloads, sleeps of 1, 2 and 3 seconds, and the last
      status wrapped as the error. */
  lemma ThreeServerErrors(download: nat -> Download)
    requires forall k :: 1 <= k <= 3 ==> download(k) == Response(503, None)
    ensures ComputeHashFromUrl(download) == HashRun(Err(Wrap("after 3 retries", BadStatus(503))), 3, [1, 2, 3])
  {
    assert Retryable(download(1)) && Retryable(download(2)) && Retryable(download(3));
  }

  /** A 404 fails at once, with no sleep. */
  lemma ClientErrorFailsAtOnce(download: nat -> Download)
    requires download(1) == Response(404, None)
    ensures ComputeHashFromUrl(download) == HashRun(Err(BadStatus(404)), 1, [])
  {
  }

  // ---------------------------------------------------------------------
  // Feed images

  datatype RssImage = RssImage(itemName: string, imageUrl: string, hash: Hash)

  /** `computeHashFromURL(url)` against the download oracle for all URLs. */
  function HashOf(download: (string, nat) -> Download, url: string): (r: HashRun)
    ensures 1 <= r.attempts <= MaxHashAttempts
    ensures forall k :: 1 <= k < r.attempts ==> Retryable(download(url, k))
    ensures r.result.Ok? <==> download(url, r.attempts).Response? && download(url, r.attempts).status == 200 &&
                               download(url, r.attempts).decoded.Some?
    ensures r.result.Ok? ==> r.result.value == download(url, r.attempts).decoded.value
  {
    ComputeHashFromUrl((k: nat) => download(url, k))
  }

  /** The hashed image of one feed entry, if it has a non-empty image URL
      whose download hashes. */
  function ImageOf(e: FeedEntry, download: (string, nat) -> Download): (r: Option<RssImage>)
    ensures r.Some? ==>
              && e.image == Some(r.value.imageUrl) && r.value.imageUrl != "" && r.value.itemName == e.title
              && HashOf(download, r.value.imageUrl).result == Ok(r.value.hash)
    ensures r.None? <==>
              e.image.None? || e.image.value == "" || HashOf(download, e.image.value).result.Err?
  {
    if e.image.None? || e.image.value == "" then None
    else match HashOf(download, e.image.value).result
      case Err(_) => None
      case Ok(h) => Some(RssImage(e.title, e.image.value, h))
  }

  /** The loop of `loadRSSImageHashes`: entries without an image or whose
      hash fails are dropped, the rest kept in feed order. */
  function HashedImages(entries: seq<FeedEntry>, download: (string, nat) -> Download): (r: seq<RssImage>)
    ensures |r| <= |entries|
    ensures forall i :: 0 <= i < |r| ==> exists j :: 0 <= j < |entries| && ImageOf(entries[j], download) == Some(r[i])
    ensures forall j :: 0 <= j < |entries| && ImageOf(entries[j], download).Some? ==>
              ImageOf(entries[j], download).value in r
  {
    if |entries| == 0 then []
    else
      var rest := HashedImages(entries[1..], download);
      assert forall i :: 0 <= i < |rest| ==> exists j :: 0 <= j < |entries| && ImageOf(entries[j], download) == Some(rest[i]) by {
        forall i | 0 <= i < |rest|
          ensures exists j :: 0 <= j < |entries| && ImageOf(entries[j], download) == Some(rest[i])
        {
          var j :| 0 <= j < |entries[1..]| && ImageOf(entries[1..][j], download) == Some(rest[i]);
          assert ImageOf(entries[j + 1], download) == Some(rest[i]);
        }
      }
      assert forall j :: 1 <= j < |entries| ==> entries[j] == entries[1..][j - 1];
      match ImageOf(entries[0], download)
      case None => rest
      case Some(img) => [img] + rest
  }

  lemma {:induction false} HashedImagesAppend(a: seq<FeedEntry>, b: seq<FeedEntry>, download: (string, nat) -> Download)
    ensures HashedImages(a + b, download) == HashedImages(a, download) + HashedImages(b, download)
  {
    if |a| == 0 {
      assert a + b == b;
    } else {
      assert (a + b)[1..] == a[1..] + b;
      assert (a + b)[0] == a[0];
      HashedImagesAppend(a[1..], b, download);
    }
  }

  /** `loadRSSImageHashes`: a feed that does not parse is an error. */
  function LoadRssImageHashes(feed: Result<seq<FeedEntry>>, download: (string, nat) -> Download): (r: Result<seq<RssImage>>)
    ensures feed.Err? ==> r == Err(Wrap("failed to parse RSS feed", feed.error))
    ensures feed.Ok? ==> r == Ok(HashedImages(feed.value, download)) && |r.value| <= |feed.value|
  {
    match feed
    case Err(e) => Err(Wrap("failed to parse RSS feed", e))
    case Ok(entries) => Ok(HashedImages(entries, download))
  }

  /** Only images of items that need backfill are candidates, in feed order. */
  function RelevantImages(images: seq<RssImage>, needing: seq<AutoUploadItem>): (r: seq<RssImage>)
    ensures forall x :: x in r <==> x in images && exists j :: 0 <= j < |needing| && needing[j].itemName == x.itemName
  {
    var names := set it | it in needing :: it.itemName;
    assert forall i, j :: 0 <= i < |images| && 0 <= j < |needing| && needing[j].itemName == images[i].itemName ==>
      images[i].itemName in names;
    var r := Filter(images, (img: RssImage) => img.itemName in names);
    assert forall i :: 0 <= i < |r| ==> r[i] in r;
    assert forall i :: 0 <= i < |images| ==> images[i] in images;
    r
  }

  /** Within the threshold by a distance that did not fail. */
  predicate Close(dist: (Hash, Hash) -> Option<nat>, h: Hash, img: RssImage) {
    dist(h, img.hash).Some? && dist(h, img.hash).value <= HashDistanceThreshold
  }

  /** `findMatchingRSSItem`: the first image, in order, within distance 10;
      images whose distance errors are passed over. */
  function FindMatchingRssItem(h: Hash, images: seq<RssImage>, dist: (Hash, Hash) -> Option<nat>): (r: Option<RssImage>)
    ensures r.None? <==> forall i :: 0 <= i < |images| ==> !Close(dist, h, images[i])
    ensures r.Some? ==> (exists i :: 0 <= i < |images| && images[i] == r.value && Close(dist, h, images[i]) &&
                           forall j :: 0 <= j < i ==> !Close(dist, h, images[j]))
  {
    if |images| == 0 then None
    else if Close(dist, h, images[0]) then Some(images[0])
    else
      var r := FindMatchingRssItem(h, images[1..], dist);
      assert forall i :: 1 <= i < |images| ==> images[i] == images[1..][i - 1];
      assert r.Some? ==> (exists i :: 0 <= i < |images| && images[i] == r.value && Close(dist, h, images[i]) &&
                            forall j :: 0 <= j < i ==> !Close(dist, h, images[j])) by {
        if r.Some? {
          var i :| 0 <= i < |images[1..]| && images[1..][i] == r.value && Close(dist, h, images[1..][i]) &&
            forall j :: 0 <= j < i ==> !Close(dist, h, images[1..][j]);
          assert images[i + 1] == r.value;
          assert forall j :: 1 <= j < i + 1 ==> !Close(dist, h, images[j]);
        }
      }
      r
  }

  // ---------------------------------------------------------------------
  // Platform posts

  /** What backfill needs from a platform post: the image to hash and the
      three identifiers it writes on a match. */
  datatype Candidate = Candidate(imageUrl: string, postUrl: Option<string>, versionId: Option<string>,
                                 postId: Option<string>)

  /** Pixelfed: the first attachment's URL (even if empty); writes (url, NULL, id). */
  function PixelfedCandidate(s: PixelfedStatus): (c: Option<Candidate>)
    ensures c.None? <==> |s.media| == 0
    ensures c.Some? ==> c.value == Candidate(s.media[0], Some(s.url), None, Some(s.id))
  {
    if |s.media| == 0 then None else Some(Candidate(s.media[0], Some(s.url), None, Some(s.id)))
  }

  /** Bluesky: the first image's full-size URL, skipped when empty; writes
      (uri, cid, NULL). */
  function BlueskyCandidate(p: BlueskyPost): (c: Option<Candidate>)
    ensures c.None? <==> |p.fullsize| == 0 || p.fullsize[0] == ""
    ensures c.Some? ==> c.value == Candidate(p.fullsize[0], Some(p.uri), Some(p.cid), None)
  {
    if |p.fullsize| == 0 || p.fullsize[0] == "" then None
    else Some(Candidate(p.fullsize[0], Some(p.uri), Some(p.cid), None))
  }

  /** Instagram: the media URL, skipped when empty; writes (NULL, NULL, id). */
  function InstagramCandidate(m: InstagramMedia): (c: Option<Candidate>)
    ensures c.None? <==> m.mediaUrl == ""
    ensures c.Some? ==> c.value == Candidate(m.mediaUrl, None, None, Some(m.id))
  {
    if m.mediaUrl == "" then None else Some(Candidate(m.mediaUrl, None, None, Some(m.id)))
  }

  /** Hashing and matching one post: the feed image it updates, if any. */
  function MatchOf(c: Option<Candidate>, relevant: seq<RssImage>, download: (string, nat) -> Download,
                   dist: (Hash, Hash) -> Option<nat>): (r: Option<RssImage>)
    ensures r.Some? ==> r.value in relevant
  {
    match c
    case None => None
    case Some(cand) =>
      match HashOf(download, cand.imageUrl).result
      case Err(_) => None
      case Ok(h) =>
        var m := FindMatchingRssItem(h, relevant, dist);
        assert m.Some? ==> m.value in relevant;
        m
  }

  /** The matching loop of a `backfill*` function: each post in order; a
      matched post's identifiers overwrite its feed item's rows for `platform`. */
  function Reconcile(table: seq<AutoUploadItem>, platform: string, posts: seq<Option<Candidate>>,
                     relevant: seq<RssImage>, download: (string, nat) -> Download,
                     dist: (Hash, Hash) -> Option<nat>): (r: seq<AutoUploadItem>)
    ensures |r| == |table|
    ensures forall i :: 0 <= i < |table| ==>
              r[i].id == table[i].id && r[i].platform == table[i].platform && r[i].itemName == table[i].itemName
    ensures forall i :: 0 <= i < |table| && table[i].platform != platform ==> r[i] == table[i]
    ensures forall i :: 0 <= i < |table| && (forall k :: 0 <= k < |relevant| ==> relevant[k].itemName != table[i].itemName) ==>
              r[i] == table[i]
    decreases |posts|
  {
    if |posts| == 0 then table
    else
      var next := match MatchOf(posts[0], relevant, download, dist)
        case None => table
        case Some(m) =>
          UpdateAutoUploadItem(table, m.itemName, platform, posts[0].value.postUrl, posts[0].value.versionId,
                               posts[0].value.postId);
      Reconcile(next, platform, posts[1..], relevant, download, dist)
  }

  /** Posts are processed one after the other: reconciling `a + b` is
      reconciling `a`, then `b` on the result. */
  lemma {:induction false} ReconcileAppend(table: seq<AutoUploadItem>, platform: string, a: seq<Option<Candidate>>,
                                           b: seq<Option<Candidate>>, relevant: seq<RssImage>,
                                           download: (string, nat) -> Download, dist: (Hash, Hash) -> Option<nat>)
    ensures Reconcile(table, platform, a + b, relevant, download, dist) ==
              Reconcile(Reconcile(table, platform, a, relevant, download, dist), platform, b, relevant, download, dist)
    decreases |a|
  {
    if |a| == 0 {
      assert a + b == b;
    } else {
      assert (a + b)[1..] == a[1..] + b;
      assert (a + b)[0] == a[0];
      var next := match MatchOf(a[0], relevant, download, dist)
        case None => table
        case Some(m) =>
          UpdateAutoUploadItem(table, m.itemName, platform, a[0].value.postUrl, a[0].value.versionId, a[0].value.postId);
      ReconcileAppend(next, platform, a[1..], b, relevant, download, dist);
    }
  }

  /** Post `post` matches the feed image of `itemName`. */
  predicate Hits(post: Option<Candidate>, relevant: seq<RssImage>, download: (string, nat) -> Download,
                 dist: (Hash, Hash) -> Option<nat>, itemName: string) {
    MatchOf(post, relevant, download, dist).Some? && MatchOf(post, relevant, download, dist).value.itemName == itemName
  }

  /** A row whose feed item no post matches keeps its identifiers. */
  lemma {:induction false} ReconcileUntouched(table: seq<AutoUploadItem>, platform: string, posts: seq<Option<Candidate>>,
                                              relevant: seq<RssImage>, download: (string, nat) -> Download,
                                              dist: (Hash, Hash) -> Option<nat>, i: nat)
    requires i < |table|
    requires forall k :: 0 <= k < |posts| ==> !Hits(posts[k], relevant, download, dist, table[i].itemName)
    ensures Reconcile(table, platform, posts, relevant, download, dist)[i] == table[i]
    decreases |posts|
  {
    if |posts| > 0 {
      assert !Hits(posts[0], relevant, download, dist, table[i].itemName);
      var next := match MatchOf(posts[0], relevant, download, dist)
        case None => table
        case Some(m) =>
          UpdateAutoUploadItem(table, m.itemName, platform, posts[0].value.postUrl, posts[0].value.versionId,
                               posts[0].value.postId);
      assert next[i] == table[i];
      assert forall k :: 0 <= k < |posts[1..]| ==> posts[1..][k] == posts[k + 1];
      ReconcileUntouched(next, platform, posts[1..], relevant, download, dist, i);
    }
  }

  /** The last post that matches a row's feed item decides the row: its
      three identifiers overwrite the row's, NULLs included, and nothing
      else about the row changes. */
  lemma {:induction false} ReconcileLastWins(table: seq<AutoUploadItem>, platform: string, posts: seq<Option<Candidate>>,
                                             relevant: seq<RssImage>, download: (string, nat) -> Download,
                                             dist: (Hash, Hash) -> Option<nat>, k: nat, i: nat)
    requires k < |posts| && i < |table| && table[i].platform == platform
    requires Hits(posts[k], relevant, download, dist, table[i].itemName)
    requires forall k' :: k < k' < |posts| ==> !Hits(posts[k'], relevant, download, dist, table[i].itemName)
    ensures Reconcile(table, platform, posts, relevant, download, dist)[i] ==
            WithIdentifiers(table[i], posts[k].value.postUrl, posts[k].value.versionId, posts[k].value.postId)
    decreases |posts|
  {
    var next := match MatchOf(posts[0], relevant, download, dist)
      case None => table
      case Some(m) =>
        UpdateAutoUploadItem(table, m.itemName, platform, posts[0].value.postUrl, posts[0].value.versionId,
                             posts[0].value.postId);
    assert forall j :: 0 <= j < |posts[1..]| ==> posts[1..][j] == posts[j + 1];
    if k == 0 {
      assert next[i] == WithIdentifiers(table[i], posts[0].value.postUrl, posts[0].value.versionId, posts[0].value.postId);
      ReconcileUntouched(next, platform, posts[1..], relevant, download, dist, i);
    } else {
      assert next[i].itemName == table[i].itemName && next[i].platform == platform && next[i].id == table[i].id;
      ReconcileLastWins(next, platform, posts[1..], relevant, download, dist, k - 1, i);
    }
  }

  /** A single post whose image matches feed item `m` writes its three
      identifiers onto each of `m`'s rows for the platform. */
  lemma MatchedPostCompletes(table: seq<AutoUploadItem>, platform: string, post: Option<Candidate>,
                             relevant: seq<RssImage>, download: (string, nat) -> Download,
                             dist: (Hash, Hash) -> Option<nat>)
    requires MatchOf(post, relevant, download, dist).Some?
    ensures var m := MatchOf(post, relevant, download, dist).value;
      var r := Reconcile(table, platform, [post], relevant, download, dist);
      forall i :: 0 <= i < |table| && Matches(table[i], m.itemName, platform) ==>
        r[i] == WithIdentifiers(table[i], post.value.postUrl, post.value.versionId, post.value.postId)
  {
    var m := MatchOf(post, relevant, download, dist).value;
    forall i | 0 <= i < |table| && Matches(table[i], m.itemName, platform)
      ensures Reconcile(table, platform, [post], relevant, download, dist)[i] ==
              WithIdentifiers(table[i], post.value.postUrl, post.value.versionId, post.value.postId)
    {
      ReconcileLastWins(table, platform, [post], relevant, download, dist, 0, i);
    }
  }

  /** A matched Pixelfed status writes (url, NULL, id), which completes the
      row for Pixelfed. */
  lemma PixelfedMatchCompletes(table: seq<AutoUploadItem>, s: PixelfedStatus, relevant: seq<RssImage>,
                               download: (string, nat) -> Download, dist: (Hash, Hash) -> Option<nat>)
    requires MatchOf(PixelfedCandidate(s), relevant, download, dist).Some?
    ensures var m := MatchOf(PixelfedCandidate(s), relevant, download, dist).value;
      var r := Reconcile(table, "pixelfed", [PixelfedCandidate(s)], relevant, download, dist);
      forall i :: 0 <= i < |table| && Matches(table[i], m.itemName, "pixelfed") ==>
        r[i].postUrl == Some(s.url) && r[i].versionId.None? && r[i].postId == Some(s.id) &&
        !NeedsBackfill("pixelfed", r[i])
  {
    var c := PixelfedCandidate(s);
    assert c == Some(Candidate(s.media[0], Some(s.url), None, Some(s.id)));
    var m := MatchOf(c, relevant, download, dist).value;
    var r := Reconcile(table, "pixelfed", [c], relevant, download, dist);
    MatchedPostCompletes(table, "pixelfed", c, relevant, download, dist);
    forall i | 0 <= i < |table| && Matches(table[i], m.itemName, "pixelfed")
      ensures r[i] == WithIdentifiers(table[i], Some(s.url), None, Some(s.id))
    {
    }
  }

  /** A matched Bluesky post writes (uri, cid, NULL), which completes the
      row for Bluesky. */
  lemma BlueskyMatchCompletes(table: seq<AutoUploadItem>, p: BlueskyPost, relevant: seq<RssImage>,
                              download: (string, nat) -> Download, dist: (Hash, Hash) -> Option<nat>)
    requires MatchOf(BlueskyCandidate(p), relevant, download, dist).Some?
    ensures var m := MatchOf(BlueskyCandidate(p), relevant, download, dist).value;
      var r := Reconcile(table, "bluesky", [BlueskyCandidate(p)], relevant, download, dist);
      forall i :: 0 <= i < |table| && Matches(table[i], m.itemName, "bluesky") ==>
        r[i].postUrl == Some(p.uri) && r[i].versionId == Some(p.cid) && r[i].postId.None? &&
        !NeedsBackfill("bluesky", r[i])
  {
    var c := BlueskyCandidate(p);
    assert c == Some(Candidate(p.fullsize[0], Some(p.uri), Some(p.cid), None));
    var m := MatchOf(c, relevant, download, dist).value;
    var r := Reconcile(table, "bluesky", [c], relevant, download, dist);
    MatchedPostCompletes(table, "bluesky", c, relevant, download, dist);
    forall i | 0 <= i < |table| && Matches(table[i], m.itemName, "bluesky")
      ensures r[i] == WithIdentifiers(table[i], Some(p.uri), Some(p.cid), None)
    {
    }
  }

  /** A matched Instagram medium writes (NULL, NULL, id), which completes
      the row for Instagram. */
  lemma InstagramMatchCompletes(table: seq<AutoUploadItem>, md: InstagramMedia, relevant: seq<RssImage>,
                                download: (string, nat) -> Download, dist: (Hash, Hash) -> Option<nat>)
    requires MatchOf(InstagramCandidate(md), relevant, download, dist).Some?
    ensures var m := MatchOf(InstagramCandidate(md), relevant, download, dist).value;
      var r := Reconcile(table, "instagram", [InstagramCandidate(md)], relevant, download, dist);
      forall i :: 0 <= i < |table| && Matches(table[i], m.itemName, "instagram") ==>
        r[i].postUrl.None? && r[i].versionId.None? && r[i].postId == Some(md.id) &&
        !NeedsBackfill("instagram", r[i])
  {
    var c := InstagramCandidate(md);
    assert c == Some(Candidate(md.mediaUrl, None, None, Some(md.id)));
    var m := MatchOf(c, relevant, download, dist).value;
    var r := Reconcile(table, "instagram", [c], relevant, download, dist);
    MatchedPostCompletes(table, "instagram", c, relevant, download, dist);
    forall i | 0 <= i < |table| && Matches(table[i], m.itemName, "instagram")
      ensures r[i] == WithIdentifiers(table[i], None, None, Some(md.id))
    {
    }
  }

  // ---------------------------------------------------------------------
  // One platform, and the whole run

  /** The outside world one backfill pass sees. Each page oracle takes the
      request's cursor; Pixelfed's also takes the account id and Bluesky's the
      session's access token. */
  datatype Env = Env(
    feeds: string -> Result<seq<FeedEntry>>,
    download: (string, nat) -> Download,
    distance: (Hash, Hash) -> Option<nat>,
    pixelfedAccount: Target -> Result<string>,
    pixelfedStatuses: (Target, string, string) -> Result<Page<PixelfedStatus>>,
    blueskyLogin: Target -> Result<string>,
    blueskyFeed: (string, string) -> Result<Page<BlueskyPost>>,
    instagramMedia: (Target, string) -> Result<Page<InstagramMedia>>,
    pageBudget: nat)

  /** Where a platform pass ended. Every outcome but `Reconciled` leaves the
      table as it was. */
  datatype Phase =
    | NothingToBackfill
    | FeedFailed(error: Error)
    | NoRelevantImages
    | AccountFailed(error: Error)
    | LoginFailed(error: Error)
    | FetchFailed(error: Error)
    | BudgetExhausted
    | Reconciled

  datatype Pass = Pass(table: seq<AutoUploadItem>, phase: Phase)

  /** A platform's posts as candidates, or the phase that stopped the pass. */
  datatype Posts = Posts(candidates: seq<Option<Candidate>>) | Stopped(phase: Phase)

  /** `r` is what paging outcome `f` gives the pass: a failed request stops
      it with the request's error, an exhausted budget stops it, and a run
      that ended normally yields one candidate per item, in order. */
  predicate PostsFrom<T>(r: Posts, f: Fetched<T>, candidate: T -> Option<Candidate>) {
    match f.stop
    case Failed(e) => r == Stopped(FetchFailed(e))
    case OutOfBudget => r == Stopped(BudgetExhausted)
    case Exhausted =>
      r.Posts? && |r.candidates| == |f.items| &&
      forall i :: 0 <= i < |f.items| ==> r.candidates[i] == candidate(f.items[i])
  }

  /** Paging outcome to posts: a failed request or an exhausted budget stops the pass. */
  function PostsOf<T>(f: Fetched<T>, candidate: T -> Option<Candidate>): (r: Posts)
    ensures r.Stopped? <==> !f.stop.Exhausted?
    ensures r.Posts? ==> |r.candidates| == |f.items|
    ensures r.Posts? ==> forall i :: 0 <= i < |f.items| ==> r.candidates[i] == candidate(f.items[i])
    ensures PostsFrom(r, f, candidate)
  {
    match f.stop
    case Failed(e) => Stopped(FetchFailed(e))
    case OutOfBudget => Stopped(BudgetExhausted)
    case Exhausted => Posts(seq(|f.items|, i requires 0 <= i < |f.items| => candidate(f.items[i])))
  }

  /** The page oracles with the request's fixed parts filled in. */
  function PixelfedPager(env: Env, target: Target, account: string): string -> Result<Page<PixelfedStatus>> {
    cursor => env.pixelfedStatuses(target, account, cursor)
  }

  function BlueskyPager(env: Env, session: string): string -> Result<Page<BlueskyPost>> {
    cursor => env.blueskyFeed(session, cursor)
  }

  function InstagramPager(env: Env, target: Target): string -> Result<Page<InstagramMedia>> {
    cursor => env.instagramMedia(target, cursor)
  }

  /** Authenticate (Pixelfed: account id; Bluesky: login; Instagram: none)
      and page through the platform's posts. A failed authentication stops
      the pass with its own phase; otherwise the outcome is that of paging,
      the posts being the candidates of the paged items. */
  function PlatformPosts(env: Env, target: Target, platform: string): (r: Posts)
    requires platform in {"pixelfed", "bluesky", "instagram"}
    ensures r.Stopped? ==> !r.phase.Reconciled? && !r.phase.NothingToBackfill?
    ensures platform == "pixelfed" ==>
              match env.pixelfedAccount(target)
              case Err(e) => r == Stopped(AccountFailed(e))
              case Ok(account) =>
                PostsFrom(r, FetchAllPixelfedStatuses(PixelfedPager(env, target, account), env.pageBudget),
                          PixelfedCandidate)
    ensures platform == "bluesky" ==>
              match env.blueskyLogin(target)
              case Err(e) => r == Stopped(LoginFailed(e))
              case Ok(session) =>
                PostsFrom(r, FetchAllBlueskyPosts(BlueskyPager(env, session), env.pageBudget), BlueskyCandidate)
    ensures platform == "instagram" ==>
              PostsFrom(r, FetchAllInstagramMedia(InstagramPager(env, target), env.pageBudget), InstagramCandidate)
  {
    if platform == "pixelfed" then
      match env.pixelfedAccount(target)
      case Err(e) => Stopped(AccountFailed(e))
      case Ok(account) =>
        PostsOf(FetchAllPixelfedStatuses(PixelfedPager(env, target, account), env.pageBudget), PixelfedCandidate)
    else if platform == "bluesky" then
      match env.blueskyLogin(target)
      case Err(e) => Stopped(LoginFailed(e))
      case Ok(session) =>
        PostsOf(FetchAllBlueskyPosts(BlueskyPager(env, session), env.pageBudget), BlueskyCandidate)
    else
      PostsOf(FetchAllInstagramMedia(InstagramPager(env, target), env.pageBudget), InstagramCandidate)
  }

  /** `backfillPixelfed`, `backfillBluesky` and `backfillInstagram`: the same
      pipeline, differing in authentication, paging and the identifiers
      written. Each early return leaves the table unchanged. */
  function BackfillPlatform(env: Env, table: seq<AutoUploadItem>, target: Target, source: Datasource,
                            platform: string): (r: Pass)
    requires platform in {"pixelfed", "bluesky", "instagram"}
    ensures r.phase.NothingToBackfill? <==> |ItemsNeedingBackfill(table, platform)| == 0
    ensures !r.phase.Reconciled? ==> r.table == table
    ensures |r.table| == |table|
    ensures forall i :: 0 <= i < |table| && table[i].platform != platform ==> r.table[i] == table[i]
    ensures forall i :: 0 <= i < |table| && !NeedsBackfillByName(table, platform, table[i].itemName) ==>
              r.table[i] == table[i]
    ensures r.phase.Reconciled? ==> env.feeds(source.feedUrl).Ok?
  {
    var needing := ItemsNeedingBackfill(table, platform);
    if |needing| == 0 then Pass(table, NothingToBackfill)
    else match LoadRssImageHashes(env.feeds(source.feedUrl), env.download)
      case Err(e) => Pass(table, FeedFailed(e))
      case Ok(images) =>
        var relevant := RelevantImages(images, needing);
        if |relevant| == 0 then Pass(table, NoRelevantImages)
        else match PlatformPosts(env, target, platform)
          case Stopped(phase) => Pass(table, phase)
          case Posts(posts) =>
            RelevantNeedBackfill(table, platform, images, needing, relevant);
            Pass(Reconcile(table, platform, posts, relevant, env.download, env.distance), Reconciled)
  }

  /** Some row of `platform` for `itemName` needs backfill. */
  predicate NeedsBackfillByName(table: seq<AutoUploadItem>, platform: string, itemName: string) {
    exists j :: 0 <= j < |table| && table[j].platform == platform && table[j].itemName == itemName &&
      NeedsBackfill(platform, table[j])
  }

  lemma RelevantNeedBackfill(table: seq<AutoUploadItem>, platform: string, images: seq<RssImage>,
                             needing: seq<AutoUploadItem>, relevant: seq<RssImage>)
    requires needing == ItemsNeedingBackfill(table, platform)
    requires relevant == RelevantImages(images, needing)
    ensures forall k :: 0 <= k < |relevant| ==> NeedsBackfillByName(table, platform, relevant[k].itemName)
  {
    forall k | 0 <= k < |relevant|
      ensures NeedsBackfillByName(table, platform, relevant[k].itemName)
    {
      var j :| 0 <= j < |needing| && needing[j].itemName == relevant[k].itemName;
      assert needing[j] in table;
    }
  }

  /** One connection of `RunBackfill`: its target and data source looked up
      by name (zero values when missing); a target of another platform is
      skipped with no phase. */
  function ConnectionPass(env: Env, targets: seq<Target>, sources: seq<Datasource>, c: Connection,
                          table: seq<AutoUploadItem>): (r: (seq<AutoUploadItem>, Option<Phase>))
    ensures |r.0| == |table|
    ensures forall i :: 0 <= i < |table| && table[i].platform !in {"pixelfed", "bluesky", "instagram"} ==>
              r.0[i] == table[i]
    ensures r.1.None? <==> TargetNamed(targets, c.targetName).platform !in {"pixelfed", "bluesky", "instagram"}
    ensures r.1.None? ==> r.0 == table
  {
    var target := TargetNamed(targets, c.targetName);
    var source := DatasourceNamed(sources, c.sourceName);
    if target.platform in {"pixelfed", "bluesky", "instagram"} then
      var p := BackfillPlatform(env, table, target, source, target.platform);
      (p.table, Some(p.phase))
    else (table, None)
  }

  /** Each connection in order, each pass on the table the previous one left. */
  function RunConnections(pass: (Connection, seq<AutoUploadItem>) -> (seq<AutoUploadItem>, Option<Phase>),
                          connections: seq<Connection>, table: seq<AutoUploadItem>)
    : (r: (seq<AutoUploadItem>, seq<Option<Phase>>))
    ensures |r.1| == |connections|
    decreases |connections|
  {
    if |connections| == 0 then (table, [])
    else
      var step := pass(connections[0], table);
      var rest := RunConnections(pass, connections[1..], step.0);
      (rest.0, [step.1] + rest.1)
  }

  /** A failing pass does not stop the run: running `a + b` is running `a`,
      then `b` on the table `a` left, with the phases of both in order. */
  lemma {:induction false} RunConnectionsAppend(pass: (Connection, seq<AutoUploadItem>) -> (seq<AutoUploadItem>, Option<Phase>),
                                                a: seq<Connection>, b: seq<Connection>, table: seq<AutoUploadItem>)
    ensures var ra := RunConnections(pass, a, table);
      var rb := RunConnections(pass, b, ra.0);
      RunConnections(pass, a + b, table) == (rb.0, ra.1 + rb.1)
    decreases |a|
  {
    if |a| == 0 {
      assert a + b == b;
      assert RunConnections(pass, a, table) == (table, []);
      assert [] + RunConnections(pass, b, table).1 == RunConnections(pass, b, table).1;
    } else {
      assert (a + b)[1..] == a[1..] + b;
      assert (a + b)[0] == a[0];
      var step := pass(a[0], table);
      RunConnectionsAppend(pass, a[1..], b, step.0);
      var tail := RunConnections(pass, a[1..], step.0);
      var rb := RunConnections(pass, b, tail.0);
      assert RunConnections(pass, a, table) == (tail.0, [step.1] + tail.1);
      assert RunConnections(pass, a + b, table) == (rb.0, [step.1] + (tail.1 + rb.1));
      assert [step.1] + (tail.1 + rb.1) == ([step.1] + tail.1) + rb.1;
    }
  }

  /** `RunBackfill`: every configured connection through `ConnectionPass`. */
  function RunBackfill(env: Env, targets: seq<Target>, sources: seq<Datasource>, connections: seq<Connection>,
                       table: seq<AutoUploadItem>): (r: (seq<AutoUploadItem>, seq<Option<Phase>>))
  {
    RunConnections((c, t) => ConnectionPass(env, targets, sources, c, t), connections, table)
  }

  /** Rows of platforms backfill does not know are never touched, whatever
      the connections; and a connection yields a phase exactly when its
      target's platform is one of the three. */
  lemma {:induction false} RunBackfillFrame(env: Env, targets: seq<Target>, sources: seq<Datasource>,
                                            connections: seq<Connection>, table: seq<AutoUploadItem>)
    ensures var r := RunBackfill(env, targets, sources, connections, table);
      && |r.0| == |table| && |r.1| == |connections|
      && (forall i :: 0 <= i < |table| && table[i].platform !in {"pixelfed", "bluesky", "instagram"} ==> r.0[i] == table[i])
      && (forall k :: 0 <= k < |connections| ==>
            (r.1[k].None? <==> TargetNamed(targets, connections[k].targetName).platform !in {"pixelfed", "bluesky", "instagram"}))
    decreases |connections|
  {
    if |connections| > 0 {
      var pass := (c, t) => ConnectionPass(env, targets, sources, c, t);
      var step := ConnectionPass(env, targets, sources, connections[0], table);
      assert pass(connections[0], table) == step;
      RunBackfillFrame(env, targets, sources, connections[1..], step.0);
      var rest := RunBackfill(env, targets, sources, connections[1..], step.0);
      assert RunBackfill(env, targets, sources, connections, table) == (rest.0, [step.1] + rest.1);
      assert forall k :: 1 <= k < |connections| ==> connections[k] == connections[1..][k - 1];
    }
  }
}

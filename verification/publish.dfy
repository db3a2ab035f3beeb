/**
 * The three publishers of the auto-uploader (src/autouploader/bluesky.go,
 * src/autouploader/pixelfed.go, src/autouploader/instagram.go): the order of
 * their remote steps, which failure stops them, and the publish record each
 * writes through `publishedEntry`.
 *
 * Every remote step is an oracle in a per-platform "world" value, and a run
 * returns the calls it made in order together with the error it ends with.
 * The record write is the `WriteRecord` call. The Instagram publisher returns
 * nothing; its `err` is the failure it logs before giving up.
 */
module Publish {
  import opened Common
  import opened Feed
  import opened Config
  import opened Captions
  import opened Facets
  import opened AltText

  /** The row `publishedEntry(title, platform, versionId, postUrl, postId)` writes. */
  datatype Record = Record(
    title: string,
    platform: string,
    versionId: Option<string>,
    postUrl: Option<string>,
    postId: Option<string>)

  /** The remote steps, as the trace records them. */
  datatype Call =
    | Login(username: string)
    | Download(url: string)
    | UploadBlob(alt: string)
    | CreatePost(text: string, facets: seq<Facet>, alt: string, blob: string)
    | UploadMedia(description: string)
    | PostStatus(caption: string, mediaId: string)
    | CreateContainer(caption: string, imageUrl: string)
    | CheckStatus(creationId: string)
    | Sleep(seconds: nat)
    | PublishContainer(creationId: string)
    | WriteRecord(record: Record)

  datatype Outcome = Outcome(calls: seq<Call>, err: Option<Error>)

  /** No call of the trace writes a record. */
  predicate NoRecord(calls: seq<Call>) {
    forall k :: 0 <= k < |calls| ==> !calls[k].WriteRecord?
  }

  /** The record a trace ends by writing. */
  function Recorded(calls: seq<Call>): Option<Record> {
    if |calls| > 0 && calls[|calls| - 1].WriteRecord? then Some(calls[|calls| - 1].record) else None
  }

  /** A decoded JSON value, as far as the publishers look at it. */
  datatype Json = JString(s: string) | JOther

  /** `res[key].(string)` with the comma-ok check: the field is accepted only
      when the body decoded and the field holds a string. */
  function StringField(res: Result<map<string, Json>>, key: string): (r: Result<string>)
    ensures r.Ok? <==> res.Ok? && key in res.value && res.value[key].JString?
    ensures r.Ok? ==> r.value == res.value[key].s
    ensures res.Err? ==> r == Err(res.error)
  {
    match res
    case Err(e) => Err(e)
    case Ok(m) =>
      if key in m && m[key].JString? then Ok(m[key].s)
      else Err(Message("field " + key + " missing or not a string"))
  }

  // ---------------------------------------------------------------------
  // Bluesky

  datatype Session = Session(accessJwt: string, did: string)
  datatype PostRef = PostRef(uri: string, cid: string)

  /** `login(username, password)` is `blueskyapi.BlueskyLogin`;
      `uploadBlob(image, alt)` answers with the blob's link;
      `createRecord(text, facets, alt, blob)` with the new post's reference. */
  datatype BlueskyWorld = BlueskyWorld(
    login: (string, string) -> Result<Session>,
    download: string -> Result<string>,
    uploadBlob: (string, string) -> Reply<string>,
    createRecord: (string, seq<Facet>, string, string) -> Reply<PostRef>,
    writeRecord: Record -> Option<Error>)

  const AltFallback := "Alt not found"

  /** The alt text sent with the image: the description's, or a fixed
      fallback when it has none. */
  function BlueskyAlt(description: string): (alt: string)
    ensures alt != ""
    ensures ExtractAltText(description) != "" ==> alt == ExtractAltText(description)
    ensures ExtractAltText(description) == "" ==> alt == AltFallback
  {
    var a := ExtractAltText(description);
    if a == "" then AltFallback else a
  }

  /** The Bluesky post text: the caption with the tags that fit. */
  function BlueskyText(prefix: string, tags: seq<string>): (text: string)
    ensures |prefix| + 2 <= BlueskyLimit ==> |text| <= BlueskyLimit
    ensures |prefix| + 2 + TagBytes(tags) <= BlueskyLimit ==> text == HashtagCaption(prefix, tags)
  {
    KeptCaption(prefix, tags);
    HashtagCaption(prefix, Kept(|prefix| + 2, tags))
  }

  /** `blueskyUploadImage`'s status handling: only a 200 with a decodable
      blob gives a blob. */
  function BlobOf(reply: Reply<string>): (r: Result<string>)
    ensures r.Ok? <==> reply.Reply? && reply.status == 200 && reply.body.Some?
    ensures r.Ok? ==> r.value == reply.body.value
  {
    match reply
    case TransportError(reason) => Err(Message(reason))
    case Reply(status, body) =>
      if status != 200 then Err(BadStatus(status))
      else match body
        case None => Err(Message("blob response could not be decoded"))
        case Some(link) => Ok(link)
  }

  /** What the post says, settled before any request: the caption with the
      tags that fit, its facets and the alt text. */
  datatype Draft = Draft(text: string, facets: seq<Facet>, alt: string)

  function BlueskyDraft(entry: FeedEntry, connection: Connection): (d: Draft)
    ensures |connection.caption| + 2 <= BlueskyLimit ==> |d.text| <= BlueskyLimit
    ensures d.facets == ExtractFacets(d.text)
    ensures d.alt != ""
  {
    var text := BlueskyText(connection.caption, entry.categories);
    Draft(text, ExtractFacets(text), BlueskyAlt(entry.description))
  }

  /** The calls up to and including the post creation. */
  function BlueskySteps(d: Draft, username: string, url: string, blob: string): seq<Call> {
    [Login(username), Download(url), UploadBlob(d.alt), CreatePost(d.text, d.facets, d.alt, blob)]
  }

  /** The requests of `publishBlueskyEntry` once the draft is made. */
  function BlueskyRun(d: Draft, title: string, target: Target, url: string, w: BlueskyWorld): (r: Outcome)
    ensures |r.calls| > 0 && r.calls[0] == Login(target.username)
    ensures r.err.None? ==> Recorded(r.calls).Some?
    ensures Recorded(r.calls).Some? ==>
              Recorded(r.calls).value.title == title && Recorded(r.calls).value.platform == target.platform
  {
    match w.login(target.username, target.pat)
    case Err(e) => Outcome([Login(target.username)], Some(e))
    case Ok(session) =>
      match w.download(url)
      case Err(e) => Outcome([Login(target.username), Download(url)], Some(e))
      case Ok(image) =>
        match BlobOf(w.uploadBlob(image, d.alt))
        case Err(e) => Outcome([Login(target.username), Download(url), UploadBlob(d.alt)], Some(e))
        case Ok(blob) =>
          var steps := BlueskySteps(d, target.username, url, blob);
          match w.createRecord(d.text, d.facets, d.alt, blob)
          case TransportError(reason) => Outcome(steps, Some(Message(reason)))
          case Reply(status, body) =>
            if status >= 300 then Outcome(steps, Some(BadStatus(status)))
            else
              var ref := body.GetOr(PostRef("", ""));
              var rec := Record(title, target.platform, Some(ref.cid), Some(ref.uri), None);
              Outcome(steps + [WriteRecord(rec)], w.writeRecord(rec))
  }

  /** `publishBlueskyEntry`. */
  function PublishBluesky(entry: FeedEntry, target: Target, connection: Connection, w: BlueskyWorld): (r: Outcome)
    requires entry.image.Some?
    ensures |r.calls| > 0 && r.calls[0] == Login(target.username)
    ensures r.err.None? ==> Recorded(r.calls).Some? && Recorded(r.calls).value.title == entry.title
  {
    BlueskyRun(BlueskyDraft(entry, connection), entry.title, target, entry.image.value, w)
  }

  /** The blob the upload gives, when login and download went through. */
  function BlueskyBlob(d: Draft, target: Target, url: string, w: BlueskyWorld): Result<string> {
    match w.login(target.username, target.pat)
    case Err(e) => Err(e)
    case Ok(_) =>
      match w.download(url)
      case Err(e) => Err(e)
      case Ok(image) => BlobOf(w.uploadBlob(image, d.alt))
  }

  /** Everything before the record went through: login, download, a blob,
      and a post created with a status below 300. */
  predicate BlueskyPosted(d: Draft, target: Target, url: string, w: BlueskyWorld) {
    && BlueskyBlob(d, target, url, w).Ok?
    && var reply := w.createRecord(d.text, d.facets, d.alt, BlueskyBlob(d, target, url, w).value);
       reply.Reply? && reply.status < 300
  }

  /** A record is written exactly when every earlier step succeeded, it is
      the last call, and the run's error is then the record write's own. */
  lemma BlueskyRecordIffPosted(d: Draft, title: string, target: Target, url: string, w: BlueskyWorld)
    ensures var o := BlueskyRun(d, title, target, url, w);
      Recorded(o.calls).Some? <==> BlueskyPosted(d, target, url, w)
    ensures var o := BlueskyRun(d, title, target, url, w);
      Recorded(o.calls).None? ==> NoRecord(o.calls) && o.err.Some?
    ensures var o := BlueskyRun(d, title, target, url, w);
      Recorded(o.calls).Some? ==> NoRecord(o.calls[..|o.calls| - 1]) && o.err == w.writeRecord(Recorded(o.calls).value)
  {
    var o := BlueskyRun(d, title, target, url, w);
    if BlueskyPosted(d, target, url, w) {
      var steps := BlueskySteps(d, target.username, url, BlueskyBlob(d, target, url, w).value);
      assert o.calls[..|o.calls| - 1] == steps;
    }
  }

  /** A login failure is returned as it is, after the login alone. */
  lemma BlueskyLoginFailure(entry: FeedEntry, target: Target, connection: Connection, w: BlueskyWorld)
    requires entry.image.Some?
    requires w.login(target.username, target.pat).Err?
    ensures PublishBluesky(entry, target, connection, w) ==
              Outcome([Login(target.username)], Some(w.login(target.username, target.pat).error))
  {
  }

  /** The record keeps the title and platform, holds the post's CID and URI,
      empty when the response did not decode, and no post id. */
  lemma BlueskyRecordFields(d: Draft, title: string, target: Target, url: string, w: BlueskyWorld)
    requires BlueskyPosted(d, target, url, w)
    ensures var r := Recorded(BlueskyRun(d, title, target, url, w).calls).value;
      var reply := w.createRecord(d.text, d.facets, d.alt, BlueskyBlob(d, target, url, w).value);
      && r.title == title && r.platform == target.platform && r.postId.None?
      && (reply.body.Some? ==> r.versionId == Some(reply.body.value.cid) && r.postUrl == Some(reply.body.value.uri))
      && (reply.body.None? ==> r.versionId == Some("") && r.postUrl == Some(""))
  {
    BlueskyRecordIffPosted(d, title, target, url, w);
  }

  /** The post sent carries the tags that fit, the facets of exactly that
      text, and the alt text with its fallback. */
  lemma BlueskyPostSent(entry: FeedEntry, target: Target, connection: Connection, w: BlueskyWorld, k: nat)
    requires entry.image.Some?
    requires k < |PublishBluesky(entry, target, connection, w).calls|
    requires PublishBluesky(entry, target, connection, w).calls[k].CreatePost?
    ensures var c := PublishBluesky(entry, target, connection, w).calls[k];
      && c.text == BlueskyText(connection.caption, entry.categories)
      && (|connection.caption| + 2 <= BlueskyLimit ==> |c.text| <= BlueskyLimit)
      && c.facets == ExtractFacets(c.text)
      && c.alt == BlueskyAlt(entry.description)
  {
    var d := BlueskyDraft(entry, connection);
    BlueskyRunPosts(d, entry.title, target, entry.image.value, w, k);
  }

  /** The only post the run creates is the draft. */
  lemma BlueskyRunPosts(d: Draft, title: string, target: Target, url: string, w: BlueskyWorld, k: nat)
    requires k < |BlueskyRun(d, title, target, url, w).calls|
    requires BlueskyRun(d, title, target, url, w).calls[k].CreatePost?
    ensures var c := BlueskyRun(d, title, target, url, w).calls[k];
      c.text == d.text && c.facets == d.facets && c.alt == d.alt
  {
  }

  // ---------------------------------------------------------------------
  // Pixelfed

  datatype PixelfedPost = PixelfedPost(id: string, url: string)

  /** `uploadMedia(image, description)` is the media upload;
      `postStatus(caption, mediaId)` the status post. */
  datatype PixelfedWorld = PixelfedWorld(
    download: string -> Result<string>,
    uploadMedia: (string, string) -> Reply<map<string, Json>>,
    postStatus: (string, string) -> Reply<PixelfedPost>,
    writeRecord: Record -> Option<Error>)

  /** `uploadPixelfedMedia` after the download: any status but 200 fails,
      and the media id is the response's "id" string. */
  function MediaIdOf(reply: Reply<map<string, Json>>): (r: Result<string>)
    ensures r.Ok? <==> (reply.Reply? && reply.status == 200 && reply.body.Some?
                        && "id" in reply.body.value && reply.body.value["id"].JString?)
    ensures r.Ok? ==> r.value == reply.body.value["id"].s
  {
    match reply
    case TransportError(reason) => Err(Message(reason))
    case Reply(status, body) =>
      if status != 200 then Err(BadStatus(status))
      else match body
        case None => Err(Message("media id is not a string"))
        case Some(m) => StringField(Ok(m), "id")
  }

  /** `publishPixelfedPost`: a blank caption is refused without a request;
      otherwise 200 and 201 succeed, and a body that does not parse gives
      empty fields. The trace is the calls made. */
  function PixelfedPostOf(caption: string, mediaId: string, postStatus: (string, string) -> Reply<PixelfedPost>):
    (r: (seq<Call>, Result<PixelfedPost>))
    ensures Blank(caption) <==> r.0 == []
    ensures Blank(caption) ==> r.1 == Err(Message("caption cannot be empty"))
    ensures r.1.Ok? <==> !Blank(caption) && postStatus(caption, mediaId).Reply?
                         && postStatus(caption, mediaId).status in {200, 201}
    ensures r.1.Ok? ==> r.1.value == postStatus(caption, mediaId).body.GetOr(PixelfedPost("", ""))
  {
    if TrimSpace(caption) == "" then ([], Err(Message("caption cannot be empty")))
    else
      var call := [PostStatus(caption, mediaId)];
      match postStatus(caption, mediaId)
      case TransportError(reason) => (call, Err(Wrap("failed to send request", Message(reason))))
      case Reply(status, body) =>
        if status != 200 && status != 201 then (call, Err(BadStatus(status)))
        else (call, Ok(body.GetOr(PixelfedPost("", ""))))
  }

  /** The requests of `publishPixelfedEntry` once the caption is built:
      upload, post, then record. */
  function PixelfedRun(caption: string, description: string, title: string, target: Target, url: string,
                       w: PixelfedWorld): (r: Outcome)
    ensures |r.calls| > 0 && r.calls[0] == Download(url)
    ensures r.err.None? ==> Recorded(r.calls).Some?
    ensures Recorded(r.calls).Some? ==>
              Recorded(r.calls).value.title == title && Recorded(r.calls).value.platform == target.platform
  {
    match w.download(url)
    case Err(e) => Outcome([Download(url)], Some(e))
    case Ok(image) =>
      var upload := [Download(url), UploadMedia(description)];
      match MediaIdOf(w.uploadMedia(image, description))
      case Err(e) => Outcome(upload, Some(e))
      case Ok(mediaId) =>
        var (posted, res) := PixelfedPostOf(caption, mediaId, w.postStatus);
        match res
        case Err(e) => Outcome(upload + posted, Some(Wrap("failed to publish post", e)))
        case Ok(post) =>
          var rec := Record(title, target.platform, None, Some(post.url), Some(post.id));
          Outcome(upload + posted + [WriteRecord(rec)], w.writeRecord(rec))
  }

  /** `publishPixelfedEntry`: every tag in the caption, and the extracted
      alt text as the media description. */
  function PublishPixelfed(entry: FeedEntry, target: Target, connection: Connection, w: PixelfedWorld): (r: Outcome)
    requires entry.image.Some?
    ensures |r.calls| > 0 && r.calls[0] == Download(entry.image.value)
    ensures |r.calls| > 1 ==> r.calls[1] == UploadMedia(ExtractAltText(entry.description))
    ensures r.err.None? ==> Recorded(r.calls).Some? && Recorded(r.calls).value.title == entry.title
  {
    PixelfedRun(HashtagCaption(connection.caption, entry.categories), ExtractAltText(entry.description),
                entry.title, target, entry.image.value, w)
  }

  /** The media id the upload gives, when the download went through. */
  function PixelfedMedia(description: string, url: string, w: PixelfedWorld): Result<string> {
    match w.download(url)
    case Err(e) => Err(e)
    case Ok(image) => MediaIdOf(w.uploadMedia(image, description))
  }

  /** Everything before the record went through: download, a media id, a
      non-blank caption and a post answered with 200 or 201. */
  predicate PixelfedPosted(caption: string, description: string, url: string, w: PixelfedWorld) {
    && PixelfedMedia(description, url, w).Ok?
    && PixelfedPostOf(caption, PixelfedMedia(description, url, w).value, w.postStatus).1.Ok?
  }

  /** A record is written exactly when every earlier step succeeded, as the
      last call, with the post's URL and id and no version id. */
  lemma PixelfedRecordIffPosted(caption: string, description: string, title: string, target: Target, url: string,
                                w: PixelfedWorld)
    ensures var o := PixelfedRun(caption, description, title, target, url, w);
      Recorded(o.calls).Some? <==> PixelfedPosted(caption, description, url, w)
    ensures var o := PixelfedRun(caption, description, title, target, url, w);
      Recorded(o.calls).None? ==> NoRecord(o.calls) && o.err.Some?
    ensures var o := PixelfedRun(caption, description, title, target, url, w);
      Recorded(o.calls).Some? ==>
        && NoRecord(o.calls[..|o.calls| - 1])
        && o.err == w.writeRecord(Recorded(o.calls).value)
        && Recorded(o.calls).value.title == title
        && Recorded(o.calls).value.platform == target.platform
        && Recorded(o.calls).value.versionId.None?
        && Recorded(o.calls).value.postUrl.Some?
        && Recorded(o.calls).value.postId.Some?
  {
    var o := PixelfedRun(caption, description, title, target, url, w);
    if PixelfedPosted(caption, description, url, w) {
      var posted := PixelfedPostOf(caption, PixelfedMedia(description, url, w).value, w.postStatus).0;
      assert o.calls[..|o.calls| - 1] == [Download(url), UploadMedia(description)] + posted;
    }
  }

  /** A blank caption (blank prefix, no tags) is only noticed after the media
      is uploaded: the post is never sent and nothing is recorded. */
  lemma PixelfedBlankCaptionAfterUpload(entry: FeedEntry, target: Target, connection: Connection, w: PixelfedWorld)
    requires entry.image.Some?
    requires Blank(connection.caption) && |entry.categories| == 0
    requires PixelfedMedia(ExtractAltText(entry.description), entry.image.value, w).Ok?
    ensures PublishPixelfed(entry, target, connection, w) ==
              Outcome([Download(entry.image.value), UploadMedia(ExtractAltText(entry.description))],
                      Some(Wrap("failed to publish post", Message("caption cannot be empty"))))
  {
    CaptionBlankIff(connection.caption, entry.categories);
  }

  /** The media's description is the extracted alt text as it is, even when
      it is empty. */
  lemma PixelfedDescriptionUnchanged(entry: FeedEntry, target: Target, connection: Connection, w: PixelfedWorld, k: nat)
    requires entry.image.Some?
    requires k < |PublishPixelfed(entry, target, connection, w).calls|
    requires PublishPixelfed(entry, target, connection, w).calls[k].UploadMedia?
    ensures PublishPixelfed(entry, target, connection, w).calls[k].description == ExtractAltText(entry.description)
  {
    var caption := HashtagCaption(connection.caption, entry.categories);
    var o := PixelfedRun(caption, ExtractAltText(entry.description), entry.title, target, entry.image.value, w);
    assert PublishPixelfed(entry, target, connection, w) == o;
    PixelfedRunUploads(caption, ExtractAltText(entry.description), entry.title, target, entry.image.value, w, k);
  }

  /** The only description the run uploads is the one it is given. */
  lemma PixelfedRunUploads(caption: string, description: string, title: string, target: Target, url: string,
                           w: PixelfedWorld, k: nat)
    requires k < |PixelfedRun(caption, description, title, target, url, w).calls|
    requires PixelfedRun(caption, description, title, target, url, w).calls[k].UploadMedia?
    ensures PixelfedRun(caption, description, title, target, url, w).calls[k].description == description
  {
    var o := PixelfedRun(caption, description, title, target, url, w);
    if w.download(url).Ok? && PixelfedMedia(description, url, w).Ok? {
      var posted := PixelfedPostOf(caption, PixelfedMedia(description, url, w).value, w.postStatus).0;
      assert |posted| <= 1 && (|posted| == 1 ==> posted[0].PostStatus?);
    }
  }

  // ---------------------------------------------------------------------
  // Instagram

  const MaxStatusChecks: nat := 10
  const PollSleep: nat := 2
  const Finished := "FINISHED"

  /** `createContainer(caption, imageUrl)`, `checkStatus(creationId, attempt)`
      and `publishContainer(creationId)` give the decoded JSON object or the
      request's error; the check's answer may change from attempt to attempt. */
  datatype InstagramWorld = InstagramWorld(
    createContainer: (string, string) -> Result<map<string, Json>>,
    checkStatus: (string, nat) -> Result<map<string, Json>>,
    publishContainer: string -> Result<map<string, Json>>,
    writeRecord: Record -> Option<Error>)

  /** `checkInstagramMediaStatus` on attempt `i`: the "status_code" string,
      or "" with an error. */
  function StatusAt(w: InstagramWorld, id: string, i: nat): string {
    match StringField(w.checkStatus(id, i), "status_code")
    case Ok(s) => s
    case Err(_) => ""
  }

  datatype Polling = Polling(calls: seq<Call>, status: string)

  /** Attempts `i` up to the tenth of the status loop, `status` being the last
      one seen: a finished check ends the loop at once, any other answer,
      errors included, is followed by a two-second sleep. */
  function Poll(w: InstagramWorld, id: string, i: nat, status: string): (r: Polling)
    requires i <= MaxStatusChecks
    ensures |r.calls| <= 2 * (MaxStatusChecks - i)
    ensures i < MaxStatusChecks ==> |r.calls| > 0 && r.calls[0] == CheckStatus(id)
    ensures r.status == Finished && status != Finished ==>
              |r.calls| > 0 && r.calls[|r.calls| - 1] == CheckStatus(id)
    ensures r.status != Finished ==> |r.calls| == 2 * (MaxStatusChecks - i)
    decreases MaxStatusChecks - i
  {
    if i == MaxStatusChecks then Polling([], status)
    else if StatusAt(w, id, i) == Finished then Polling([CheckStatus(id)], Finished)
    else
      var rest := Poll(w, id, i + 1, StatusAt(w, id, i));
      Polling([CheckStatus(id), Sleep(PollSleep)] + rest.calls, rest.status)
  }

  /** Checks `i` to `j - 1`, each followed by a sleep. */
  function SleptChecks(id: string, i: nat, j: nat): (r: seq<Call>)
    requires i <= j
    ensures |r| == 2 * (j - i)
    decreases j - i
  {
    if i == j then [] else [CheckStatus(id), Sleep(PollSleep)] + SleptChecks(id, i + 1, j)
  }

  /** Check number `m` is call `2m`, and the sleep after it call `2m + 1`. */
  lemma {:induction false} SleptChecksAt(id: string, i: nat, j: nat, m: nat)
    requires i <= j && m < j - i
    ensures SleptChecks(id, i, j)[2 * m] == CheckStatus(id)
    ensures SleptChecks(id, i, j)[2 * m + 1] == Sleep(PollSleep)
    decreases m
  {
    if m > 0 {
      SleptChecksAt(id, i + 1, j, m - 1);
      assert SleptChecks(id, i, j)[2 * m] == SleptChecks(id, i + 1, j)[2 * (m - 1)];
      assert SleptChecks(id, i, j)[2 * m + 1] == SleptChecks(id, i + 1, j)[2 * (m - 1) + 1];
    }
  }

  /** When attempt `k` is the first finished one, the loop makes `k - i + 1`
      checks, sleeps after all but the last, and ends finished. */
  lemma {:induction false} PollStopsAtFirstFinished(w: InstagramWorld, id: string, i: nat, status: string, k: nat)
    requires i <= k < MaxStatusChecks
    requires StatusAt(w, id, k) == Finished
    requires forall j :: i <= j < k ==> StatusAt(w, id, j) != Finished
    ensures Poll(w, id, i, status) == Polling(SleptChecks(id, i, k) + [CheckStatus(id)], Finished)
    decreases k - i
  {
    if i < k {
      PollStopsAtFirstFinished(w, id, i + 1, StatusAt(w, id, i), k);
      assert [CheckStatus(id), Sleep(PollSleep)] + (SleptChecks(id, i + 1, k) + [CheckStatus(id)]) ==
             SleptChecks(id, i, k) + [CheckStatus(id)];
    }
  }

  /** When no attempt finishes, all ten checks are made, each followed by a
      sleep, and the loop ends unfinished. */
  lemma {:induction false} PollGivesUp(w: InstagramWorld, id: string, i: nat, status: string)
    requires i <= MaxStatusChecks
    requires status != Finished
    requires forall j :: i <= j < MaxStatusChecks ==> StatusAt(w, id, j) != Finished
    ensures Poll(w, id, i, status) == Polling(SleptChecks(id, i, MaxStatusChecks), Poll(w, id, i, status).status)
    ensures Poll(w, id, i, status).status != Finished
    decreases MaxStatusChecks - i
  {
    if i < MaxStatusChecks {
      PollGivesUp(w, id, i + 1, StatusAt(w, id, i));
    }
  }

  /** The loop ends finished exactly when one of the ten checks answers
      "FINISHED". */
  lemma {:induction false} PollFinishedIff(w: InstagramWorld, id: string, i: nat, status: string)
    requires i <= MaxStatusChecks
    requires status != Finished
    ensures Poll(w, id, i, status).status == Finished <==> exists j :: i <= j < MaxStatusChecks && StatusAt(w, id, j) == Finished
    decreases MaxStatusChecks - i
  {
    if i < MaxStatusChecks && StatusAt(w, id, i) != Finished {
      PollFinishedIff(w, id, i + 1, StatusAt(w, id, i));
      if exists j :: i <= j < MaxStatusChecks && StatusAt(w, id, j) == Finished {
        var j :| i <= j < MaxStatusChecks && StatusAt(w, id, j) == Finished;
        assert i + 1 <= j;
      }
    }
  }

  /** `publishInstagramEntry`, with the configured Instagram caption as
      `prefix`. */
  function PublishInstagram(entry: FeedEntry, prefix: string, platform: string, w: InstagramWorld): (r: Outcome)
    requires entry.image.Some?
    ensures |r.calls| > 0 && r.calls[0] == CreateContainer(HashtagCaption(prefix, entry.categories), entry.image.value)
    ensures r.err.None? ==>
              && Recorded(r.calls).Some? && Recorded(r.calls).value.title == entry.title
              && Recorded(r.calls).value.platform == platform
  {
    var caption := HashtagCaption(prefix, entry.categories);
    var url := entry.image.value;
    match StringField(w.createContainer(caption, url), "id")
    case Err(e) => Outcome([CreateContainer(caption, url)], Some(e))
    case Ok(id) =>
      var p := Poll(w, id, 0, "");
      if p.status != Finished then Outcome([CreateContainer(caption, url)] + p.calls, Some(Message("media was not ready")))
      else
        var done := [CreateContainer(caption, url)] + p.calls + [PublishContainer(id)];
        match StringField(w.publishContainer(id), "id")
        case Err(e) => Outcome(done, Some(e))
        case Ok(postId) =>
          var rec := Record(entry.title, platform, None, None, Some(postId));
          Outcome(done + [WriteRecord(rec)], w.writeRecord(rec))
  }

  /** No poll step writes a record. */
  lemma {:induction false} PollWritesNothing(w: InstagramWorld, id: string, i: nat, status: string)
    requires i <= MaxStatusChecks
    ensures NoRecord(Poll(w, id, i, status).calls)
    decreases MaxStatusChecks - i
  {
    if i < MaxStatusChecks && StatusAt(w, id, i) != Finished {
      PollWritesNothing(w, id, i + 1, StatusAt(w, id, i));
    }
  }

  /** A record is written only after a finished container was published
      with a string id, and then holds that id alone. */
  lemma InstagramRecordIffPublished(entry: FeedEntry, prefix: string, platform: string, w: InstagramWorld)
    requires entry.image.Some?
    ensures var o := PublishInstagram(entry, prefix, platform, w);
      var created := StringField(w.createContainer(HashtagCaption(prefix, entry.categories), entry.image.value), "id");
      Recorded(o.calls).Some? <==>
        && created.Ok?
        && Poll(w, created.value, 0, "").status == Finished
        && StringField(w.publishContainer(created.value), "id").Ok?
    ensures var o := PublishInstagram(entry, prefix, platform, w);
      Recorded(o.calls).None? ==> NoRecord(o.calls) && o.err.Some?
    ensures var o := PublishInstagram(entry, prefix, platform, w);
      var created := StringField(w.createContainer(HashtagCaption(prefix, entry.categories), entry.image.value), "id");
      Recorded(o.calls).Some? ==>
        && NoRecord(o.calls[..|o.calls| - 1])
        && Recorded(o.calls).value ==
             Record(entry.title, platform, None, None, Some(StringField(w.publishContainer(created.value), "id").value))
  {
    var o := PublishInstagram(entry, prefix, platform, w);
    var caption := HashtagCaption(prefix, entry.categories);
    var created := StringField(w.createContainer(caption, entry.image.value), "id");
    if created.Ok? {
      var p := Poll(w, created.value, 0, "");
      PollWritesNothing(w, created.value, 0, "");
      var head := [CreateContainer(caption, entry.image.value)] + p.calls;
      assert NoRecord(head) by {
        forall k | 0 <= k < |head|
          ensures !head[k].WriteRecord?
        {
          if k > 0 {
            assert head[k] == p.calls[k - 1];
          }
        }
      }
      if p.status == Finished {
        var done := head + [PublishContainer(created.value)];
        assert NoRecord(done) by {
          forall k | 0 <= k < |done|
            ensures !done[k].WriteRecord?
          {
            if k < |head| {
              assert done[k] == head[k];
            }
          }
        }
        if Recorded(o.calls).Some? {
          assert o.calls[..|o.calls| - 1] == done;
        }
      }
    }
  }

  /** Every check answering with an error, or never "FINISHED", means ten
      checks, ten sleeps, no publish call and no record. */
  lemma InstagramNeverReady(entry: FeedEntry, prefix: string, platform: string, w: InstagramWorld)
    requires entry.image.Some?
    requires StringField(w.createContainer(HashtagCaption(prefix, entry.categories), entry.image.value), "id").Ok?
    requires var id := StringField(w.createContainer(HashtagCaption(prefix, entry.categories), entry.image.value), "id").value;
      forall j :: 0 <= j < MaxStatusChecks ==> StatusAt(w, id, j) != Finished
    ensures var id := StringField(w.createContainer(HashtagCaption(prefix, entry.categories), entry.image.value), "id").value;
      PublishInstagram(entry, prefix, platform, w) ==
        Outcome([CreateContainer(HashtagCaption(prefix, entry.categories), entry.image.value)] + SleptChecks(id, 0, MaxStatusChecks),
                Some(Message("media was not ready")))
  {
    var id := StringField(w.createContainer(HashtagCaption(prefix, entry.categories), entry.image.value), "id").value;
    PollGivesUp(w, id, 0, "");
  }
}

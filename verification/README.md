# HomePageCompanion in Dafny

HomePageCompanion is a Go service that sits next to a personal photo site.
The site publishes its pictures as an RSS feed. The service does six jobs:

- **Auto-upload.** It picks a feed entry that is not yet published, preferring
  the entry taken closest to "this day" in an earlier year. It then posts the
  entry to Bluesky, Pixelfed or Instagram: the caption plus hashtags, the
  picture, and its alt text. It then reports the publication, with the
  platform's identifiers for the post, to the site's API.
- **Backfill.** It finds publication rows that lack their platform identifiers.
  It pages through the account's posts on each platform and matches post
  images to feed images by perceptual hash. It then writes the identifiers
  back into the table.
- **Interaction sweep.** It reads like counts from the three platforms. It
  stops asking a platform once that platform reports rate limiting, and it
  upserts the counts into the `Interaction` table. A retry helper backs off
  exponentially on rate-limit errors.
- **Native likes.** It lets site visitors like a picture and take the like
  back, one like per visitor per item when requests are served one at a
  time, and keeps the native count in step.
- **Inventory sync.** It mirrors the feed into the `Feed`, `FeedItem` and
  `Category` tables. Items that are no longer listed are soft-deleted.
- **Admin API.** It offers feed lookup, a paginated item list, deletion of
  publications and subscribers, and sanitised listings of subscribers and
  connections.

Each job is a module of pure functions over immutable values. The outside
world enters as parameters:

- HTTP replies, the database and the clock become oracle functions or plain
  values, bundled in `World`/`Env` records.
- Random draws are plain values.
- A run returns what it did: the remote calls in order, the rows written, the
  sleeps, and the error it returns.

The modules are:

| module | file | source |
|---|---|---|
| `Common` | common.dfy | Go library behaviour the code relies on: ordered filtering, `strings.TrimSpace`, wrapped errors, HTTP replies |
| `Config` | config.dfy | `src/config/models.go` and the lookups by name in the packages |
| `Feed` | feed.dfy | parsed feed entries and the calendar oracle |
| `Selection`, `AltText`, `Captions`, `Facets`, `Publish` | selection.dfy, alt_text.dfy, captions.dfy, facets.dfy, publish.dfy | `src/autouploader` |
| `UploadItems`, `Paging`, `Backfill` | upload_items.dfy, paging.dfy, backfill.dfy | `src/backfill/main.go` |
| `Retry`, `PlatformLikes`, `Interactions`, `NativeLikes` | retry.dfy, platform_likes.dfy, interactions.dfy, native_likes.dfy | `src/interactions`, `src/blue_sky_api/main.go` |
| `Inventory` | inventory.dfy | `src/inventory/imageRssToDb.go`, `src/inventory/feed.go` |
| `Admin` | admin.dfy | `src/admin/handlers.go` |

Conventions:

- A Go `string` is a Dafny `string` with one character per byte, so `|s|` is
  Go's `len(s)`. The regular expressions the code uses (`#\w+`,
  `https?://[^\s]+`, `alt="(.*?)"`) only test ASCII classes, so matching them
  byte by byte gives the same matches as matching by rune. `strings.TrimSpace`
  uses `unicode.IsSpace`, which also accepts multi-byte runes, so
  `Common.TrimSpace` reads the UTF-8 encodings of U+0085, U+00A0, U+1680,
  U+2000 to U+200A, U+2028, U+2029, U+202F, U+205F and U+3000 as spaces.
- A nil pointer or a missing value is `None`.
- A Go error is `Common.Error`. It can be a package sentinel, a `%w` wrap of
  another error, a status error, or a plain message. `errors.Is(err,
  ErrRateLimited)` is `IsRateLimited`, which walks the wrap chain. The
  `blue_sky_api` package has a sentinel of its own, which `errors.Is` does not
  equate with the interactions package's.
- The ORM's behaviour is written out where it matters:
  - A scoped query or update skips soft-deleted rows, and `Unscoped` does
    not. The inventory sync finds an item with an `Unscoped` lookup but
    updates it on the scoped handle, so a soft-deleted item is not revived
    (see "## Findings").
  - `Updates` with a struct skips zero-valued fields.
  - An `Offset` that is not positive is dropped.
  - A model with a `DeletedAt` column is soft-deleted. One without it is
    removed.
- Go's 64-bit `int` is written out as well. `strconv.Atoi` clamps an
  out-of-range number to the `int64` bounds. It reads the digits into a
  `uint64` and stops with a range error at the first digit past 2^64 - 1,
  so a stray byte after such a run still gives the bound, not 0. The
  handler's `(page - 1) * limit` wraps around.

Two behaviours of the code a reader may not expect:

- The backfill update writes all three identifier columns, and stores NULL in
  the columns the platform does not fill. It can therefore erase a value that
  was already stored (`UploadItems.PixelfedUpdateNullsVersion`).
- When every unpublished entry is undated, the selection returns no entry at
  all. It does not fall back to the whole pool (`Selection.SelectionNoneIff`).

## Model

| member | source | states |
|---|---|---|
| Common.Filter | src/autouploader/main.go:117-130 | the kept elements are exactly the input elements that pass the test, and there are no more of them than in the input |
| Common.FilterAppend | src/interactions/main.go:25-29 | filtering a concatenation is the concatenation of the filtered parts, so the kept rows keep their table order |
| Common.FilterPositions | src/autouploader/main.go:117-130 | a filter keeps a subsequence: its elements sit at strictly increasing positions of the input, and every passing position is among them |
| Common.FilterAll | src/interactions/main.go:25-29 | a filter that every row passes returns the table unchanged |
| Common.FilterFilter | src/interactions/main.go:25-29 | filtering by one condition and then another is filtering once by both |
| Common.RateLimitedIffInnermost | src/interactions/retry.go:41 | `errors.Is` looks through every `%w` wrap: an error is rate limiting exactly when its chain ends in the interactions package's own sentinel |
| Common.TrimSpace | src/autouploader/pixelfed.go:57 | the trimmed text is empty exactly when the input is nothing but space runes, ASCII or multi-byte, and otherwise neither starts nor ends with a space rune |
| Common.SkipSpacesPrefix | src/autouploader/pixelfed.go:57 | space runes never straddle an ASCII byte, so the leading-space scan of a text carries over to any extension that starts with one |
| Common.BlankAscii | src/autouploader/pixelfed.go:57 | on ASCII text, blank means every byte is an ASCII space |
| Common.WideSpacesTrimmed | src/autouploader/pixelfed.go:57 | a no-break space is blank, no-break and ideographic spaces are trimmed, and a lone lead byte is not a space |
| Config.TargetNamed | src/backfill/main.go:37-43 | the lookup gives the first target with that name, and the zero target when none has it |
| Config.DatasourceNamed | src/backfill/main.go:45-51 | the lookup gives the first data source with that name, and the zero data source when none has it |
| Config.TargetForPlatform | src/interactions/main.go:81-91 | the result is the first target with that platform, and there is none exactly when no target has the platform |
| Selection.FilterEntries | src/autouploader/main.go:117-130 | the result holds exactly the feed entries whose title is not among the published titles |
| Selection.FilterEntriesAppend | src/autouploader/main.go:117-130 | filtering keeps the feed's order |
| Selection.ScanClosest | src/autouploader/main.go:53-67 | the scan yields a dated entry of the list, and once it holds a best entry it still holds one at the end |
| Selection.ClosestIndex | src/autouploader/main.go:53-67 | the closest entry is a dated entry of the list |
| Selection.ScanClosestCorrect | src/autouploader/main.go:53-67 | the scan ends at the first entry of minimum distance, or at nothing when no entry is dated |
| Selection.FirstClosestUnique | src/autouploader/main.go:60-66 | the strict `<` comparison makes the first entry at minimum distance unique |
| Selection.ClosestIsFirstMinimum | src/autouploader/main.go:53-67 | the closest index is absent exactly when every entry is undated, and it is `k` exactly when entry `k` is the first at minimum distance |
| Selection.SamePublishedSameDistance | src/autouploader/main.go:74-79 | entries with the same raw date string parse alike, so equal `Published` strings mean equal distance |
| Selection.Pool | src/autouploader/main.go:74-80 | the pool holds every list entry that shares the closest's date string, the closest included, and every undated entry, and nothing else |
| Selection.PoolLayout | src/autouploader/main.go:74-82 | the pool lists the entries sharing the closest's date string in list order, then the undated entries in list order, each once per occurrence in the list; this is the sequence `rand.Intn(len(pool))` indexes |
| Selection.PoolReachable | src/autouploader/main.go:82 | every entry of the pool is picked by some draw |
| Selection.TieReachable | src/autouploader/main.go:74-82 | every unpublished entry with the closest's date string, the closest itself included, is picked by some draw |
| Selection.Intn | src/autouploader/main.go:82 | the random index lies below the pool size, and every index below it can be drawn |
| Selection.PickFrom | src/autouploader/main.go:69-82 | the pick is an entry of the list, and there is no pick exactly when no entry is dated |
| Selection.EntryToPublish | src/autouploader/main.go:29-88 | the chosen entry is in the feed and not yet published, and nothing is chosen once every title is published |
| Selection.SelectionNoneIff | src/autouploader/main.go:42-72 | nothing is chosen exactly when no unpublished entry is dated |
| Selection.SelectionIsClosestOrFallback | src/autouploader/main.go:60-82 | the chosen entry is undated or at least as close to this day as every unpublished dated entry |
| Selection.FallbackReachable | src/autouploader/main.go:74-82 | every unpublished undated entry can be chosen by some draw when a dated candidate exists |
| Selection.FallbackDraw | src/autouploader/main.go:74-82 | the lemma gives the concrete draw that picks the given undated entry |
| Selection.PickAt | src/autouploader/main.go:82 | a draw below the pool size picks the pool entry at that position |
| Selection.OnThisDayScenario | src/autouploader/main.go:42-80 | in the three-entry example, the 2019 entry is filtered out as published, the 2020 entry is closest, and the undated entry joins the pool |
| Selection.OnThisDayPick | src/autouploader/main.go:42-82 | in that example every draw publishes the 2020 entry or the undated one, never the published entry |
| AltText.MatchEndUnique | src/autouploader/main.go:133 | the lazy group gives each opening `alt="` at most one closing quote |
| AltText.CloseQuote | src/autouploader/main.go:133 | the closing quote found is the first quote with no quote or newline before it, and none is found exactly when no quote qualifies |
| AltText.FindAlt | src/autouploader/main.go:133-134 | the match found is the leftmost match, and there is none only when the text has no match |
| AltText.ExtractAltText | src/autouploader/main.go:132-139 | the result is "" when the text has no match, and otherwise it is the capture of a match |
| AltText.ExtractAltTextLeftmost | src/autouploader/main.go:133-137 | the returned capture is the one of the leftmost match |
| AltText.SunsetExample | src/autouploader/main.go:132-139 | `<img alt="Sunset" src="x">` yields `Sunset` |
| AltText.NewlineBlocksMatch | src/autouploader/main.go:133 | `.` does not cross a newline, so a newline before the next quote defeats that opener |
| Captions.TagText | src/autouploader/pixelfed.go:103-106 | the tag text is two bytes longer per tag than the tags themselves |
| Captions.TagTextAppend | src/autouploader/pixelfed.go:103-106 | the tag text of two tag lists is the concatenation of their tag texts |
| Captions.HashtagCaption | src/autouploader/instagram.go:85-88 | the Pixelfed and Instagram caption is the prefix, a blank line and every tag, with no length bound |
| Captions.Kept | src/autouploader/bluesky.go:56-63 | the Bluesky tag choice never keeps more tags than it is given |
| Captions.KeptIsSublist | src/autouploader/bluesky.go:57-63 | the kept tags are the input tags with some skipped, in their order |
| Captions.KeptWithinLimit | src/autouploader/bluesky.go:56-62 | the kept tags never take the text past the 300-byte limit it started under |
| Captions.KeptStep | src/autouploader/bluesky.go:57-63 | each tag is kept exactly when it still fits, and a tag that does not fit is skipped while later tags are still tried |
| Captions.AllFitAllKept | src/autouploader/bluesky.go:57-63 | when every tag fits, every tag is kept |
| Captions.BlueskyCaption | src/autouploader/bluesky.go:53-65 | the loop builds the caption of the kept tags, within 300 bytes when the prefix fits, and equal to the unbounded caption when everything fits |
| Captions.KeptCaption | src/autouploader/bluesky.go:53-63 | the caption of the kept tags keeps to 300 bytes, and it equals the full caption when all tags fit |
| Captions.CaptionStepKept | src/autouploader/bluesky.go:57-61 | a fitting tag appends `#tag ` to the caption |
| Captions.CaptionStepSkipped | src/autouploader/bluesky.go:57-63 | a tag that does not fit leaves the kept tags unchanged |
| Captions.ShorterTagAfterSkipped | src/autouploader/bluesky.go:57-63 | a short tag after a skipped long tag is still kept |
| Captions.CaptionBlankIff | src/autouploader/pixelfed.go:57-59 | the Pixelfed caption is blank exactly when the prefix is blank and the entry has no tags |
| Facets.WordEnd | src/autouploader/bluesky.go:191 | `\w+` is greedy: the run ends at the first non-word byte |
| Facets.NonSpaceEnd | src/autouploader/bluesky.go:210 | `[^\s]+` is greedy: the run ends at the first white-space byte |
| Facets.Hashtags | src/autouploader/bluesky.go:190-207 | every facet of the hashtag scan is a tag facet at or after the scan's start |
| Facets.HashtagsSound | src/autouploader/bluesky.go:191-194 | every tag facet covers a whole `#\w+` match, and its tag is the match without `#` |
| Facets.HashtagsOrdered | src/autouploader/bluesky.go:191-192 | tag facets come in text order and do not overlap |
| Facets.HashtagsComplete | src/autouploader/bluesky.go:191-192 | every position where `#\w+` can start gets a tag facet |
| Facets.Links | src/autouploader/bluesky.go:209-226 | every facet of the link scan is a link facet at or after the scan's start |
| Facets.LinksSound | src/autouploader/bluesky.go:210-213 | every link facet covers a whole `https?://[^\s]+` match, and its URI is the matched text |
| Facets.LinkFirst | src/autouploader/bluesky.go:210-213 | the scan takes the link at a scheme and resumes after its end |
| Facets.LinksOrdered | src/autouploader/bluesky.go:210-211 | link facets come in text order and do not overlap |
| Facets.LinksComplete | src/autouploader/bluesky.go:210-211 | every position where a link can start lies inside a link facet |
| Facets.ExtractFacets | src/autouploader/bluesky.go:187-229 | every facet is a tag or a link, and all tag facets come before all link facets |
| Facets.ExtractFacetsSound | src/autouploader/bluesky.go:190-226 | every facet covers a whole match of its expression |
| Facets.ExtractFacetsFindsHashtags | src/autouploader/bluesky.go:191-207 | every possible hashtag start in the text gets a facet |
| Facets.ExtractFacetsFindsLinks | src/autouploader/bluesky.go:210-226 | every possible link start in the text lies inside a facet |
| Facets.CaptionTagFacets | src/autouploader/bluesky.go:53-66 | for a prefix without `#` and word-only tags, the caption's tag facets are exactly the entry's tags, in order |
| Facets.Example | src/autouploader/bluesky.go:187-229 | `#sky https://a.b` gives the tag `sky` over bytes 0-4 and the link over bytes 5-16 |
| Publish.StringField | src/autouploader/instagram.go:30-38 | a field read succeeds exactly when the decode succeeded and the key holds a string, and a decode error passes through |
| Publish.BlueskyAlt | src/autouploader/bluesky.go:70-74 | the alt text is the extracted alt attribute, or `Alt not found` when there is none, so it is never empty |
| Publish.BlueskyText | src/autouploader/bluesky.go:52-65 | the post text keeps to 300 bytes when the prefix fits, and it carries every tag when all fit |
| Publish.BlobOf | src/autouploader/bluesky.go:168-184 | the upload gives a blob exactly when the reply is a 200 with a body, and the blob is that body |
| Publish.BlueskyDraft | src/autouploader/bluesky.go:52-74 | the draft's facets are those of its own text, its text keeps to 300 bytes when the prefix fits, and its alt is not empty |
| Publish.BlueskyRun | src/autouploader/bluesky.go:44-158 | the run starts with the login, and a run without error has written its record, with the entry's title and the target's platform |
| Publish.PublishBluesky | src/autouploader/bluesky.go:42-158 | publishing starts with the login, and a publication without error has written a record with the entry's title |
| Publish.BlueskyRecordIffPosted | src/autouploader/bluesky.go:42-158 | a publication row is written exactly when login, download, upload and post all succeed, and it is the last call; otherwise an error is returned and nothing is written |
| Publish.BlueskyLoginFailure | src/autouploader/bluesky.go:46-50 | a failed login is returned as it is, after the login call alone |
| Publish.BlueskyRecordFields | src/autouploader/bluesky.go:142-155 | the row stores the post's CID as version id and its URI as post URL, with no post id |
| Publish.BlueskyPostSent | src/autouploader/bluesky.go:88-113 | the post sent carries the kept-tags caption, that caption's facets, and the alt text |
| Publish.BlueskyRunPosts | src/autouploader/bluesky.go:88-120 | the only post the run creates is the draft |
| Publish.MediaIdOf | src/autouploader/pixelfed.go:39-48 | the media upload gives an id exactly when the reply is a 200 whose `id` is a string |
| Publish.PixelfedPostOf | src/autouploader/pixelfed.go:56-100 | a blank caption is refused before any request, and otherwise the post succeeds exactly on status 200 or 201 |
| Publish.PixelfedRun | src/autouploader/pixelfed.go:102-121 | the run starts with the download, and a run without error has written its record, with the entry's title and the target's platform |
| Publish.PublishPixelfed | src/autouploader/pixelfed.go:19-121 | publishing downloads the image first, uploads it with the entry's alt text next, and a publication without error has written a record with the entry's title |
| Publish.PixelfedRecordIffPosted | src/autouploader/pixelfed.go:102-121 | a row is written exactly when download, upload and post succeed; it stores a post URL and post id and no version id |
| Publish.PixelfedBlankCaptionAfterUpload | src/autouploader/pixelfed.go:108-116 | with a blank caption and no tags, the media is still uploaded before the post is refused |
| Publish.PixelfedDescriptionUnchanged | src/autouploader/pixelfed.go:26-29 | the media description uploaded is the entry's alt text |
| Publish.PixelfedRunUploads | src/autouploader/pixelfed.go:19-48 | the only description the run uploads is the one it is given |
| Publish.SleptChecks | src/autouploader/instagram.go:108-121 | each unfinished status check is followed by one sleep |
| Publish.SleptChecksAt | src/autouploader/instagram.go:108-121 | check `m` is call `2m`, and the sleep after it is call `2m + 1` |
| Publish.Poll | src/autouploader/instagram.go:106-121 | polling makes at most ten checks with a sleep after each unfinished one, starts with a check, ends on a check when it finishes, and makes all ten checks and sleeps when it does not |
| Publish.PollStopsAtFirstFinished | src/autouploader/instagram.go:106-121 | polling stops at the first `FINISHED` status, without a sleep after it |
| Publish.PollGivesUp | src/autouploader/instagram.go:106-126 | with no `FINISHED` status, polling makes ten checks and ten sleeps and ends unfinished |
| Publish.PollFinishedIff | src/autouploader/instagram.go:106-126 | polling ends finished exactly when one of the ten checks reports `FINISHED` |
| Publish.PollWritesNothing | src/autouploader/instagram.go:106-121 | polling never writes a record |
| Publish.PublishInstagram | src/autouploader/instagram.go:83-138 | publishing starts by creating the container with the tagged caption and the image URL, and a publication without error has written a record with the entry's title and platform |
| Publish.InstagramRecordIffPublished | src/autouploader/instagram.go:83-138 | a row is written exactly when the container is created, becomes ready and is published; it holds only the published media id |
| Publish.InstagramNeverReady | src/autouploader/instagram.go:99-126 | a container that never becomes ready gives `media was not ready` after ten checks, without publishing |
| UploadItems.NeedsBackfillIffMissingRequired | src/backfill/main.go:72-86 | a row needs backfill exactly when one of its platform's required identifier columns is NULL |
| UploadItems.BackfillExamples | src/backfill/main.go:72-86 | the required columns differ per platform: Pixelfed and Instagram need a post id, and Bluesky needs a version id |
| UploadItems.ItemsNeedingBackfill | src/backfill/main.go:68-90 | the query returns exactly the platform's rows that need backfill |
| UploadItems.UpdateAutoUploadItem | src/backfill/main.go:179-188 | every row of that item and platform takes all three given values, and every other row is unchanged |
| UploadItems.UpdateIdempotent | src/backfill/main.go:179-188 | repeating the same update changes nothing more |
| UploadItems.UpdateCompletes | src/backfill/main.go:179-188 | the identifiers each platform writes leave the updated rows no longer needing backfill |
| UploadItems.PixelfedUpdateNullsVersion | src/backfill/main.go:270 | a Pixelfed match erases a version id that was already stored |
| Backfill.HashLoop | src/backfill/main.go:121-155 | only network errors and 5xx statuses are retried, at most three attempts are made with a sleep of `attempt` seconds after each failure, and a hash comes only from a 200 that decodes |
| Backfill.ComputeHashFromUrl | src/backfill/main.go:121-155 | the hash succeeds exactly when an attempt gets a 200 that decodes, a client error fails at once with its status, and the sleeps are 1, 2, 3 seconds |
| Backfill.ThreeServerErrors | src/backfill/main.go:125-154 | three 503 replies give `after 3 retries` wrapping the status, after sleeps of 1, 2 and 3 seconds |
| Backfill.ClientErrorFailsAtOnce | src/backfill/main.go:134-143 | a 404 fails on the first attempt with no sleep |
| Backfill.HashOf | src/backfill/main.go:121-155 | hashing a URL makes one to three downloads of it, retrying only network errors and 5xx, and gives the decoded hash exactly when the last download is a 200 that decodes |
| Backfill.ImageOf | src/backfill/main.go:100-115 | an entry yields a feed image exactly when it has a non-empty image URL whose hash succeeds |
| Backfill.HashedImages | src/backfill/main.go:99-118 | the feed images are exactly the hashable images of the entries |
| Backfill.HashedImagesAppend | src/backfill/main.go:100-116 | the feed images keep the entries' order |
| Backfill.LoadRssImageHashes | src/backfill/main.go:92-119 | a feed that does not parse is a wrapped error, and one that parses gives its hashable images in feed order, at most one per entry |
| Backfill.RelevantImages | src/backfill/main.go:220-231 | the relevant images are exactly the feed images whose item needs backfill |
| Backfill.FindMatchingRssItem | src/backfill/main.go:166-177 | the match is the first feed image within the distance threshold, and there is none exactly when no image is within it |
| Backfill.MatchOf | src/backfill/main.go:261-267 | a post's match is one of the relevant feed images |
| Backfill.Reconcile | src/backfill/main.go:255-275 | matching posts changes only identifier columns, only of this platform's rows, only for relevant items |
| Backfill.ReconcileAppend | src/backfill/main.go:255-275 | posts are applied one after another, each on the table the previous left |
| Backfill.ReconcileUntouched | src/backfill/main.go:255-275 | a row whose feed item no post matches keeps its identifiers |
| Backfill.ReconcileLastWins | src/backfill/main.go:255-275 | the last post that matches a row's feed item decides the row: its three identifiers overwrite the row's, NULLs included |
| Backfill.MatchedPostCompletes | src/backfill/main.go:179-197 | a single matched post writes its three identifiers onto each of the matched item's rows for the platform |
| Backfill.PixelfedMatchCompletes | src/backfill/main.go:255-273 | a matched Pixelfed status with attachments writes its URL and id and no version id, completing the row |
| Backfill.BlueskyMatchCompletes | src/backfill/main.go:424-447 | a matched Bluesky post with a full-size image writes its URI and CID and no post id, completing the row |
| Backfill.InstagramMatchCompletes | src/backfill/main.go:553-570 | a matched Instagram media with a URL writes only its id, completing the row |
| Backfill.PostsOf | src/backfill/main.go:245-250 | a failed request stops the pass with its error, an exhausted budget stops it, and a normal end gives one candidate per fetched post, in order |
| Backfill.PlatformPosts | src/backfill/main.go:238-250 | a failed Pixelfed account lookup or Bluesky login stops the pass with that phase; otherwise the posts are the candidates of that platform's paging, or its failure |
| Backfill.BackfillPlatform | src/backfill/main.go:200-276 | a pass ends early exactly when nothing needs backfill, changes the table only when it reconciles, and touches only this platform's rows that need backfill |
| Backfill.RelevantNeedBackfill | src/backfill/main.go:220-236 | every relevant image names an item with a row that needs backfill |
| Backfill.ConnectionPass | src/backfill/main.go:35-62 | a connection whose target is not Pixelfed, Bluesky or Instagram is skipped, and rows of other platforms are never touched |
| Backfill.RunConnections | src/backfill/main.go:35-63 | every connection gets one outcome |
| Backfill.RunConnectionsAppend | src/backfill/main.go:35-63 | connections run in order, each on the table the previous one left |
| Backfill.RunBackfillFrame | src/backfill/main.go:33-66 | the run keeps the table's size, leaves rows of other platforms alone, and skips exactly the connections to unsupported platforms |
| Paging.CollectedAppend | src/backfill/main.go:328 | the items gathered are the pages' items in request order |
| Paging.FetchAll | src/backfill/main.go:298-337 | paging makes at most the budget of requests, and the first request uses the starting cursor |
| Paging.FetchAllChain | src/backfill/main.go:303-336 | each request uses the cursor the previous page gave; paging ends on a failed request with its error, on a page with no next cursor, or on an exhausted budget |
| Paging.BudgetIrrelevant | src/backfill/main.go:303-336 | once paging ends within a budget, any larger budget gives the same result |
| Paging.PixelfedPaging | src/backfill/main.go:298-337 | Pixelfed paging starts with no `max_id`, asks each time for the statuses before the last one of a non-empty page, gathers every page's statuses in order, and ends normally only on an empty page |
| Paging.BlueskyPaging | src/backfill/main.go:452-503 | Bluesky paging starts with no cursor, follows the cursor of each non-empty page, gathers every page's posts in order, and ends normally on an empty page or one with no cursor |
| Paging.InstagramPaging | src/backfill/main.go:580-609 | Instagram paging follows `paging.next`, empty pages included, gathers every page's media in order, and ends normally only when `paging.next` is empty |
| Paging.PixelfedTwoPages | src/backfill/main.go:303-336 | two pages of statuses are fetched by last id and gathered in order |
| Paging.BlueskyLastPageKept | src/backfill/main.go:478-486 | the last page's posts are kept even though it carries no cursor |
| Paging.FailureKeepsEarlierPages | src/backfill/main.go:586-589 | a failing request ends paging with its error |
| Retry.ToDuration | src/interactions/retry.go:50 | the `time.Duration` conversion keeps an in-range product and always yields an `int64` |
| Retry.Delay | src/interactions/retry.go:50-53 | the sleep is `initialDelay * factor^k` when that fits a duration and does not exceed `maxDelay`, exactly `maxDelay` when it fits and exceeds it, the least `int64` when it overflows, and never more than `maxDelay` |
| Retry.RetryLoop | src/interactions/retry.go:33-57 | the loop calls until success, a non-rate-limit error or the last attempt, returning that call's result, and sleeps the back-off delay between calls |
| Retry.RetryWithBackoff | src/interactions/retry.go:29-60 | at most `maxRetries + 1` calls are made, only rate-limit errors are retried, the last call's result is returned, and a negative budget makes no call |
| Retry.DelayMonotone | src/interactions/retry.go:50-53 | while the later product fits a duration, the delays never shrink and never pass the cap |
| Retry.SleepsBoundedAndSorted | src/interactions/retry.go:45-56 | a run's sleeps grow and stay below `maxDelay` when the delay before the last permitted attempt does not overflow |
| Retry.LongBudgetOverflows | src/interactions/retry.go:19-53 | with the default delays and 40 retries, the 34th sleep is the five-minute cap and the 35th is the negative least `int64`, so the cap does not bound the overflow |
| Retry.DefaultSchedule | src/interactions/retry.go:19-26 | with the defaults, steady rate limiting gives 11 calls, sleeps of 1, 2, 4, … 256 seconds and then 5 minutes, and the rate-limit error |
| Retry.DefaultDelays | src/interactions/retry.go:19-26 | the default delays double from one second until five minutes caps them |
| Retry.RecoversAfterRateLimits | src/interactions/retry.go:36-38 | a success after `n` rate limits is returned after `n + 1` calls and `n` sleeps |
| Retry.OtherErrorStopsAtOnce | src/interactions/retry.go:41-43 | an error other than rate limiting is returned after one call |
| Retry.WrappedRateLimitRetried | src/interactions/retry.go:41 | a rate-limit error wrapped with `%w` is still retried |
| Retry.BlueskySentinelNotRetried | src/interactions/retry.go:41-43 | the `blue_sky_api` package's own rate-limit sentinel is not retried |
| PlatformLikes.ExtractInstance | src/interactions/pixelfed.go:88-98 | the instance is the trimmed host of the post URL; an unparsable URL or a blank host is an error |
| PlatformLikes.PixelfedToken | src/interactions/pixelfed.go:100-111 | the token is the PAT of the first target with that name, and "" when no target has it |
| PlatformLikes.HandlePixelfedLikes | src/interactions/pixelfed.go:32-86 | a missing URL or id is refused; a result needs the instance, a token, and a successful reply whose body gives the accounts; and such a reply always gives those accounts |
| PlatformLikes.PixelfedRateLimitedIff | src/interactions/pixelfed.go:66-72 | the handler reports rate limiting exactly when the likes request gets a 429 |
| PlatformLikes.InstagramToken | src/interactions/instagram.go:82-89 | the token is the access token of the first target with that name, and "" when no target has it |
| PlatformLikes.TokenLookupsAgree | src/interactions/instagram.go:82-89 | the Instagram token lookup reads the same target as the backfill's target lookup |
| PlatformLikes.InstagramLikeCount | src/interactions/instagram.go:44-80 | the count is rate limited exactly on a 429, and it succeeds exactly on a 2xx with a body |
| PlatformLikes.HandleInstagramLikes | src/interactions/instagram.go:23-42 | a missing id or token is refused, a count read gives that count for the media id, and rate limiting survives the `%w` wrap exactly when the request got a 429 |
| PlatformLikes.BlueskyLogin | src/blue_sky_api/main.go:13-38 | a 429 at login gives the `blue_sky_api` sentinel, which the interactions check does not treat as rate limiting |
| PlatformLikes.HandleBlueskyLikes | src/interactions/bluesky.go:13-73 | a missing URL or version id is refused, and no Bluesky error counts as rate limiting |
| PlatformLikes.BlueskyTooManyRequests | src/interactions/bluesky.go:48-65 | a 429 at login or at the likes request is returned wrapped, as an error the sweep does not treat as rate limiting |
| Interactions.Lookup | src/interactions/main.go:137 | a key's count is absent exactly when no row has the key, and otherwise it is the count of the first row with the key, the one `First` reads in primary-key order |
| Interactions.Upsert | src/interactions/main.go:135-156 | after the upsert the key reads back the new count; a new key is appended; otherwise only the first row with the key takes the new count, and rows with other keys and later rows with the same key keep theirs |
| Interactions.UpsertOtherKeys | src/interactions/main.go:136-156 | an upsert leaves every other key's count as it was |
| Interactions.UpsertIdempotent | src/interactions/main.go:136-156 | upserting the same count twice is the same as once |
| Interactions.HandleInteraction | src/interactions/main.go:18-51 | the response lists exactly the platform and count of each row for the item, all targets or just the named one |
| Interactions.HandleInteractionRows | src/interactions/main.go:25-49 | row by row, the response holds one (platform, count) pair per selected row, in table order |
| Interactions.TargetReadsItsOwnRows | src/interactions/main.go:25-29 | reading one target is reading "all" on that target's rows alone |
| Interactions.FetchLikes | src/interactions/main.go:93-123 | each platform's count is its handler's: the number of Bluesky likes, the number of Pixelfed accounts, or the Instagram like count, and a handler's error is passed on as it is |
| Interactions.Decide | src/interactions/main.go:74-133 | a record is skipped exactly when its platform is already rate limited; with no target for the platform nothing is fetched; a stored count is the fetch's count for the first target of the platform; Bluesky never becomes rate limited |
| Interactions.DeciderFacts | src/interactions/main.go:125-129 | the decision skips limited platforms and never limits Bluesky |
| Interactions.Step | src/interactions/main.go:74-156 | one record appends its visit, upserts a stored count so that it reads back, and adds at most its own platform to the rate-limited set, only on a rate-limit answer |
| Interactions.Run | src/interactions/main.go:73-160 | every record is visited once, and the rate-limited set only grows |
| Interactions.VisitDecidedOnPrefix | src/interactions/main.go:74-78 | each record is decided on the rate-limited set its predecessors left |
| Interactions.LimitedGrows | src/interactions/main.go:125-129 | a platform once rate limited stays rate limited for the rest of the sweep |
| Interactions.NoFetchAfterRateLimit | src/interactions/main.go:75-78 | after a platform reports rate limiting, its later records are skipped |
| Interactions.LimitedExactly | src/interactions/main.go:125-129 | a platform ends rate limited exactly when one of its records reported rate limiting |
| Interactions.NeverLimitedStaysOut | src/interactions/main.go:126 | a platform that never reports rate limiting is never skipped |
| Interactions.StoredIsReadable | src/interactions/main.go:136-156 | a stored count reads back right after its visit |
| Interactions.Group | src/interactions/main.go:65-68 | an item's group is exactly its records |
| Interactions.GroupingVisitsEachRecordOnce | src/interactions/main.go:64-74 | visiting the groups in map order visits each record exactly once |
| Interactions.FetchAndStoreInteractions | src/interactions/main.go:54-163 | the sweep visits every record and never marks Bluesky rate limited |
| NativeLikes.LikeCount | src/interactions/native.go:168-172 | the count is zero exactly when the item has no like, and at most the number of likes |
| NativeLikes.LikeCountAppend | src/interactions/native.go:168-172 | one more like of the item raises its count by one |
| NativeLikes.RefreshCount | src/interactions/native.go:174-194 | after the refresh, the native interaction row holds the item's like count |
| NativeLikes.Like | src/interactions/native.go:31-93 | a visitor who liked already, by IP or by token, gets 409 and nothing changes; otherwise the like is added, the count rises by one, and the token is returned |
| NativeLikes.Remove | src/interactions/native.go:110 | removal drops exactly the likes of this item, IP and token |
| NativeLikes.Unlike | src/interactions/native.go:96-134 | no token gives 400; a like not found gives 404 with no change; otherwise the like is removed and the stored count follows |
| NativeLikes.Status | src/interactions/native.go:137-166 | the status always succeeds with the item's like count |
| NativeLikes.StatusIsByIp | src/interactions/native.go:142-158 | the visitor has liked exactly when a like of the item has the visitor's IP hash |
| NativeLikes.LikeKeepsOneLikePerVisitor | src/interactions/native.go:47-81 | a like request served on its own keeps at most one like per IP and per token for each item |
| NativeLikes.AppendKeepsOneLikePerVisitor | src/interactions/native.go:47-81 | adding a like from a new visitor keeps one like per visitor |
| NativeLikes.RemoveKeepsOneLikePerVisitor | src/interactions/native.go:110 | taking likes back keeps one like per visitor |
| NativeLikes.LikeThenUnlike | src/interactions/native.go:31-134 | liking and then unliking with the returned token restores the likes and the count |
| NativeLikes.RemoveAppended | src/interactions/native.go:110 | removing a just-added like restores the list |
| NativeLikes.SecondLikeRefused | src/interactions/native.go:47-66 | a second like from the same visitor is refused and changes nothing |
| Inventory.RefreshFeed | src/inventory/imageRssToDb.go:48-49 | updating the feed row keeps its id, URL and deletion state and marks it an image feed |
| Inventory.RefreshItem | src/inventory/imageRssToDb.go:91-116 | updating an item row keeps its id, GUID and deletion state, takes the entry's time, and keeps the row's categories, because the update saves the associations of the unloaded `existingItem` |
| Inventory.RefreshIdempotent | src/inventory/imageRssToDb.go:49 | running the same `Updates` twice is running it once, and a non-empty incoming field replaces the stored one while an empty one keeps it |
| Inventory.FindLiveFeed | src/inventory/imageRssToDb.go:41-42 | the lookup gives the first live feed row with the URL, and nothing only when no live row has it |
| Inventory.UpsertFeed | src/inventory/imageRssToDb.go:40-52 | the feed upsert leaves items and categories alone |
| Inventory.UpsertFeedCreatesOrKeepsId | src/inventory/imageRssToDb.go:41-52 | a new URL gets a feed row under a fresh id, and a known URL keeps its row and id while other feeds are unchanged |
| Inventory.UpsertFeedIsLive | src/inventory/imageRssToDb.go:41-52 | after the upsert the feed's id names a live row with the URL |
| Inventory.FindCategory | src/inventory/imageRssToDb.go:80 | the lookup gives the first category with the name, and nothing exactly when no category has it |
| Inventory.GetOrCreate | src/inventory/imageRssToDb.go:80 | getting or creating a category adds at most one row and keeps the existing ones; the empty name, a condition with no non-zero field, gives the first category and changes nothing |
| Inventory.GetOrCreateOnePerName | src/inventory/imageRssToDb.go:77-85 | category names stay unique; the id returned names the category with that name, or for the empty name the first category, which is one named "" only when the table was empty |
| Inventory.GetOrCreateAll | src/inventory/imageRssToDb.go:77-85 | an item's categories give one id per name and only add rows |
| Inventory.GetOrCreateAllOnePerName | src/inventory/imageRssToDb.go:77-86 | names stay unique, and each returned id names the category of that name, or the first category for an empty name |
| Inventory.FindGuid | src/inventory/imageRssToDb.go:87-89 | the unscoped lookup gives the first row with the GUID, soft-deleted or not, and nothing exactly when no row has it |
| Inventory.Store | src/inventory/imageRssToDb.go:104-116 | storing an item adds at most one row and leaves the feeds and categories alone |
| Inventory.StoreCategories | src/inventory/imageRssToDb.go:104-116 | a created item row carries the entry's categories, and an existing row keeps its own |
| Inventory.SyncItem | src/inventory/imageRssToDb.go:57-117 | one loop turn adds at most one item row and leaves the feeds alone |
| Inventory.SyncItemPlaces | src/inventory/imageRssToDb.go:87-117 | syncing an entry keeps GUIDs and names unique and touches only its GUID; its row ends live and in this feed, except that a soft-deleted row under the scoped updates leaves the item table exactly as it was |
| Inventory.StorePlaces | src/inventory/imageRssToDb.go:104-117 | storing creates the row or updates the row with its GUID, leaving it live in this feed; a soft-deleted row is left as it was by the scoped updates and revived by unscoped ones |
| Inventory.SyncItemDated | src/inventory/imageRssToDb.go:64-67 | the stored item's time is its parsed date, or now when it has none, and a non-empty title is stored; a soft-deleted row the scoped updates do not reach keeps its own values |
| Inventory.SeenCons | src/inventory/imageRssToDb.go:58-62 | every entry with a non-empty GUID is marked seen |
| Inventory.SyncItemsFrame | src/inventory/imageRssToDb.go:57-120 | the item loop keeps the catalogue well formed and touches only seen GUIDs |
| Inventory.SyncItems | src/inventory/imageRssToDb.go:57-120 | the loop adds at most one item row per entry and leaves the feeds alone |
| Inventory.SyncItemsPlaces | src/inventory/imageRssToDb.go:57-120 | every seen GUID ends on a live row of this feed, unless its row was soft-deleted before and the updates are scoped |
| Inventory.SyncItemsLeavesDormant | src/inventory/imageRssToDb.go:109-116 | with the scoped updates, a row soft-deleted before the loop is found at the same place afterwards, unchanged and still deleted |
| Inventory.SoftDeleteUnseen | src/inventory/imageRssToDb.go:122-132 | the sweep changes only the deletion flag, and only on this feed's rows with an unseen GUID; it undeletes nothing, and afterwards every live row of the feed has a seen GUID |
| Inventory.ImageRssToDatabase | src/inventory/imageRssToDb.go:13-133 | a sync keeps the existing categories, adds at most one feed row, and adds at most one item row per entry |
| Inventory.SyncCategoriesKept | src/inventory/imageRssToDb.go:77-85 | the item loop keeps every existing category in place |
| Inventory.SyncedBeforeSweep | src/inventory/imageRssToDb.go:40-120 | the feed gets a positive id, the upsert leaves the items alone, and the loop keeps the catalogue well formed, touching only seen GUIDs |
| Inventory.LiveIffListed | src/inventory/imageRssToDb.go:87-132 | after a sync, a row of this feed is live exactly when the feed lists its GUID and the row was live before or the updates are unscoped |
| Inventory.ListedArePlaced | src/inventory/imageRssToDb.go:54-132 | after a sync with unscoped updates every listed GUID has a live row of this feed; with the scoped updates, every listed GUID whose row was not soft-deleted before |
| Inventory.RelistedStaysDeleted | src/inventory/imageRssToDb.go:109-116 | as written, a listed GUID whose row was soft-deleted before the sync keeps that row deleted and unchanged |
| Inventory.RelistExample | src/inventory/imageRssToDb.go:109-116 | a GUID dropped from the feed and listed again stays deleted as written, and is live again with unscoped updates |
| Inventory.RowsAreKept | src/inventory/imageRssToDb.go:57-132 | a sync never removes rows or changes ids and GUIDs, leaves other feeds' unlisted rows alone, and adds only rows of listed GUIDs |
| Admin.ClampInt64 | src/admin/handlers.go:158-159 | an in-range value is kept, a value above the range gives the largest `int64` and one below it the least |
| Admin.Atoi | src/admin/handlers.go:158-159 | the parse always gives a 64-bit value, and "" gives 0 |
| Admin.ParseDigits | src/admin/handlers.go:158-159 | the unsigned part of the parse gives a 64-bit value, and no digits give 0 |
| Admin.ParseDigitsOverflowFirst | src/admin/handlers.go:158-159 | a digit run past 2^64 - 1 gives the bound for the sign, whatever bytes follow it |
| Admin.AtoiOverflowFirst | src/admin/handlers.go:158-159 | a run of more than 2^64 - 1 followed by anything reads as 2^63 - 1, or -2^63 after a minus sign |
| Admin.AtoiSyntaxError | src/admin/handlers.go:158-159 | a stray byte after a digit run that fits 64 bits makes the parse 0 |
| Admin.PaginateOverflowingPage | src/admin/handlers.go:158-165 | a page parameter of more than 2^64 - 1 followed by a stray byte reads as the largest page, not page 1 |
| Admin.AtoiShowInt | src/admin/handlers.go:158-159 | every 64-bit integer reads back from its decimal form |
| Admin.AtoiDigits | src/admin/handlers.go:158-159 | a run of digits reads as its value, clamped |
| Admin.AtoiNegative | src/admin/handlers.go:158-159 | a minus sign before digits reads as the negated value, clamped |
| Admin.DefaultsRead | src/admin/handlers.go:158-159 | the default query values read as page 1 and limit 20 |
| Admin.ParseId | src/admin/handlers.go:129 | an id parses exactly when it is a non-empty run of digits of value at most 2^32 - 1 |
| Admin.ParseIdShowNat | src/admin/handlers.go:129-133 | every number up to 2^32 - 1 parses back, and a larger one, a sign or "" is refused |
| Admin.GetFeed | src/admin/handlers.go:127-146 | a bad id gives 400, a failed query 500, a missing or deleted feed 404, and otherwise the live feed with that id |
| Admin.FindLiveFeedById | src/inventory/feed.go:27-41 | the lookup gives a live feed with the id, and nothing only when no live row has it |
| Admin.Normalise | src/admin/handlers.go:160-165 | the page is at least 1 and the limit within 1 to 100, and in-range values are kept |
| Admin.Paginate | src/admin/handlers.go:158-165 | the page is at least 1 and the limit within 1 to 100, and a missing page or limit reads as page 1 or limit 20 |
| Admin.PaginateRoundTrip | src/admin/handlers.go:158-165 | in-range page and limit values read back unchanged, and normalising twice is normalising once |
| Admin.PaginateDefaults | src/admin/handlers.go:158-165 | missing, empty or non-numeric parameters give page 1 and limit 20 |
| Admin.Window | src/admin/handlers.go:172-178 | a query page holds at most `limit` rows |
| Admin.WrapInt64 | src/admin/handlers.go:166 | the result is the `int64` congruent to the value modulo 2^64, so in-range values are kept |
| Admin.OffsetAsWritten | src/admin/handlers.go:166 | the offset as written is the `int64` congruent to `(page - 1) * limit` modulo 2^64, equal to it when it fits |
| Admin.Offset | src/admin/handlers.go:166 | the intended offset is a multiple of the limit, exactly `page - 1` limits: the rows of the earlier pages |
| Admin.OffsetOverflow | src/admin/handlers.go:158-176 | the largest page with the default limit wraps to offset -40, which the ORM drops, so that page returns the first 20 rows |
| Admin.GetFeedItemsAsWritten | src/admin/handlers.go:149-186 | the listing as written gives 400 exactly for a bad id, and otherwise 200 with at most `limit` rows and the total |
| Admin.OverflowPaging | src/admin/handlers.go:158-165 | the largest 64-bit page with no limit reads as that page with limit 20 |
| Admin.OverflowOffset | src/admin/handlers.go:166 | `(page - 1) * limit` for that page wraps to -40 |
| Admin.GetFeedItems | src/admin/handlers.go:149-186 | the listing gives 400 exactly when the id is bad |
| Admin.GetFeedItemsIsPage | src/admin/handlers.go:158-185 | with a good id, the listing is the rows from `(page - 1) * limit` to `page * limit`, clipped to the total, with the normalised page and limit |
| Admin.PageWindow | src/admin/handlers.go:166-178 | offset and limit select the rows of that page, clipped at the end of the table |
| Admin.PagesTile | src/admin/handlers.go:166-177 | consecutive pages follow each other with no gap or overlap |
| Admin.WithoutId | src/admin/handlers.go:212 | a hard delete removes exactly the rows with the id |
| Admin.DeletePublication | src/admin/handlers.go:204-223 | a bad id gives 400, a failed delete 500, no row 404, and otherwise 200 with the rows removed |
| Admin.SoftDeleteCounts | src/admin/handlers.go:329 | a soft delete marks exactly the live rows with the id: the deleted count grows by their number and rows with other ids are unchanged |
| Admin.DeleteSubscriber | src/admin/handlers.go:321-340 | a bad id gives 400, a failed delete 500, no live row 404, and otherwise 200 with the id's rows soft-deleted; only a 200 changes the table |
| Admin.SoftDeleteLeavesNone | src/admin/handlers.go:329 | after the soft delete no live row has the id |
| Admin.DeleteSubscriberTwice | src/admin/handlers.go:321-340 | deleting the same subscriber twice gives 404 the second time |
| Admin.SafeList | src/admin/handlers.go:308-315 | the sanitised list has no more entries than there are subscribers |
| Admin.SafeListAt | src/admin/handlers.go:308-315 | entry `k` of the listing is the `k`-th live subscriber's id, endpoint and formatted creation time, one entry per live subscriber |
| Admin.GetSubscribers | src/admin/handlers.go:297-318 | the subscriber listing always answers 200 |
| Admin.SubscribersHideKeys | src/admin/handlers.go:301-315 | the listing does not depend on the subscribers' keys |
| Admin.SafeListSame | src/admin/handlers.go:308-315 | the sanitised list depends only on id, endpoint, date and deletion |
| Admin.SafeListLive | src/admin/handlers.go:297-317 | the listing has as many entries as there are live subscribers, and it is `null` exactly when there is none |
| Admin.LastNamed | src/admin/handlers.go:352-355 | the index found is the last target with the name, and there is none only when no target has it |
| Admin.PlatformOfIsLast | src/admin/handlers.go:352-365 | building the map lets the last target of a name win, and a name with no target reads as "" |
| Admin.Infos | src/admin/handlers.go:357-367 | there is one entry per connection |
| Admin.GetConnections | src/admin/handlers.go:350-370 | the listing always answers 200, and it is `null` exactly when there are no connections |
| Admin.InfosAt | src/admin/handlers.go:358-366 | entry `k` copies connection `k`'s fields and adds its target's platform |
| Admin.ConnectionsHideCredentials | src/admin/handlers.go:352-366 | the listing depends only on the targets' names and platforms, never on their credentials |

## Left out

- HTTP, JSON decoding, the ORM and the feed parser are not executed.
  - Each remote request is an oracle, a function from the request's inputs to
    a `Reply` or a `Result`.
  - Each table is a sequence of rows.
  - The parsed feed is a value.
- Time is not measured.
  - The clock is a `Calendar` oracle: the parse of the raw date string, "now",
    and now placed in a given year.
  - Sleeps are returned as lists of durations instead of being waited.
  - Timestamps are whole seconds, and date formatting is a parameter.
- Randomness and cryptography are parameters.
  - The random draw of the selection is a parameter.
  - The generated like token and the visitor's IP hash are parameters.
- Perceptual hashing and `goimagehash` distances are left out. A `Hash` is an
  opaque value, and the distance is an oracle that may fail.
- Go map iteration order is left out. The interaction sweep takes the order of
  its item groups as a parameter.
- The floating-point back-off factor of `RetryWithBackoff` is an integer.
  `math.Pow` on small integer arguments is exact, so the default schedule is
  unaffected.
- Retry.ToDuration: the `float64` product is taken as exact. Above 2^53
  nanoseconds (about 104 days) the float rounds, which the model does not
  follow; an overflowing product yields the least `int64`, as on amd64, while
  Go leaves the value implementation-defined.
- Retry.DelayMonotone: holds only while the later product fits a
  `time.Duration`; past that the delay turns negative
  (Retry.LongBudgetOverflows).
- Retry.SleepsBoundedAndSorted: holds only for configurations whose last
  delay does not overflow. The default configuration stops at attempt 9,
  far below the overflow at attempt 34.
- `Paging.FetchAll`: a page budget bounds the loop, while the code pages for
  as long as the server keeps returning pages. `Paging.BudgetIrrelevant`
  shows that any larger budget gives the same result once paging ends.
- Crash paths are outside the model. The code crashes instead of returning an
  error in these places:
  - `entry.Image.URL` is dereferenced with no nil check.
    `Publish.PublishBluesky`, `Publish.PublishPixelfed`,
    `Publish.PublishInstagram`, `Inventory.SyncItem` and
    `Inventory.ImageRssToDatabase` therefore require the entry to have an
    image.
  - `resp.Body` is read after a failed request in the Bluesky record creation
    and the Pixelfed upload. Both are modelled as returned errors.
  - The `.(string)` assertion on the Pixelfed media id is modelled as an
    error.
- Publish.BlobOf: when the blob upload's request itself fails,
  `blueskyUploadImage` reads `resp.StatusCode` of a nil response and panics.
  The model returns the transport error instead.
- NativeLikes.LikeKeepsOneLikePerVisitor: requests are modelled one at a
  time. The HTTP server serves each request on its own goroutine. The
  handler checks for an earlier like and then inserts, with no transaction.
  The `NativeLike` table has no unique index. So two simultaneous likes from
  one visitor can both pass the check, and both rows are inserted. The
  invariant holds only for requests served one after another.
- NativeLikes.RefreshCount: likewise, two simultaneous first refreshes of an
  item can both find no native row, and both create one, because the
  `Interaction` table has no unique key either. `Interactions.Lookup` and
  `Interactions.Upsert` handle such duplicates as the code does: the first row
  is read and saved, and later ones keep their counts.
- `log.Fatalf` on an unreadable feed or an unreadable published list ends the
  process. The model takes the parsed feed and the published titles as values.
- The `Author` rows and their association are not modelled.
- These database errors are not modelled:
  - errors while syncing the inventory;
  - the backfill's query and update errors;
  - the create and save errors of the interaction sweep and of native likes.
  The admin handlers' query failures are modelled, as a `failed` flag.
- `publishedEntry`, an HTTP POST to the site's API, is modelled as writing a
  `Record` (title, platform, version id, post URL, post id). Its outcome is an
  oracle.
  - Its declaration in `src/autouploader/main.go` takes two parameters, while
    the three publishers pass five.
  - The dispatch in `Publish` calls a publisher with the wrong arity.
  - Neither compiles as written. The model follows the five-argument calls.
- `downloadImage` is not part of this model. The image download is an oracle.
- The alt text the Instagram publisher computes is never sent, so it has no
  effect.
- The admin handlers for stats, feed lists, publications, interactions and
  webmentions are not modelled. They pass queries straight to the database.
  - The rows' query order (`published DESC`, `created_at DESC`) is taken as
    the order of the input sequence.
  - The item count of `GetFeedItems` is the number of the feed's live rows
    given.
- The web push and webmention packages, the scheduler and the web UI are not
  part of this model.
- `Backfill.MatchOf`: states only that a match is one of the relevant feed
  images. Which image matches is left to `Backfill.FindMatchingRssItem`.
- `Admin.SafeList`: its own contract only bounds the length. The contents are
  stated entry by entry by `Admin.SafeListAt`, and the count and the `null`
  listing by `Admin.SafeListLive`.

## Findings

| source | as written | input that shows it | evidently intended | confidence | as-written member | corrected member |
|---|---|---|---|---|---|---|
| src/admin/handlers.go:158-176 | `offset := (page - 1) * limit` in 64-bit `int`, with `page` from `strconv.Atoi`, which saturates at 2^63 - 1 | `?page=9223372036854775807` with the default limit 20: the offset wraps to -40, the ORM drops the non-positive offset, and the first 20 rows are returned as that page | the rows after all earlier pages, so a page past the end is empty | not executed | Admin.OffsetOverflow (on Admin.GetFeedItemsAsWritten) | Admin.GetFeedItemsIsPage (on Admin.GetFeedItems) |
| src/inventory/imageRssToDb.go:109-116 | the lookup at line 89 is `Unscoped()`, but `Update("DeletedAt", nil)` and `Updates(feedItem)` run on the scoped handle, and GORM adds `deleted_at IS NULL` to every UPDATE that is not `Unscoped` | a GUID that dropped out of the feed, so the sweep soft-deleted its row, and that the feed lists again: both updates match no row, and the row stays deleted with its old fields | the row is undeleted and refreshed, as the comment "If soft-deleted, undelete it" says, so every listed GUID is live after a sync | medium, not executed; rests on GORM v2 scoping updates of models with `DeletedAt` | Inventory.RelistedStaysDeleted (on Inventory.ImageRssToDatabase with `unscoped` false) | Inventory.ListedArePlaced (on Inventory.ImageRssToDatabase with `unscoped` true) |
